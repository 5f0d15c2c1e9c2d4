/** The process table (proc.c) as a value: what each critical section under ptable.lock does to it,
    and the invariant that holds whenever the lock is free. */
module ProcState {

  const NPROC := 64

  datatype Status = UNUSED | EMBRYO | SLEEPING | RUNNABLE | RUNNING | ZOMBIE

  /** What a process sleeps on: a process table slot (wait, join) or anything else. */
  datatype Chan = NoChan | ProcChan(slot: int) | OtherChan(id: nat)

  /** parent is a slot, or -1 for a null pointer. */
  datatype Proc = Proc(state: Status, pid: nat, parent: int, chan: Chan, killed: bool, isthread: bool, tickets: nat)

  /** Which loop a process is in the middle of, across context switches. */
  datatype Ctl = Elsewhere | Forking(child: int) | Waiting | Joining

  /** cpus[c] is the slot of cpu.proc, or -1. */
  datatype Table = Table(procs: seq<Proc>, cpus: seq<int>, nextpid: nat, init: int, ctl: seq<Ctl>)

  predicate Alive(s: Status) { s.SLEEPING? || s.RUNNABLE? || s.RUNNING? }

  predicate Born(s: Status) { !s.UNUSED? && !s.EMBRYO? }

  predicate InTable(t: Table, p: int) { 0 <= p < NPROC && |t.procs| == NPROC && |t.ctl| == NPROC }

  predicate AliveAt(t: Table, p: int) { InTable(t, p) && Alive(t.procs[p].state) }

  // ---------- The invariant ----------

  /** RUNNING processes and non-null cpu.proc pointers are in bijection. */
  ghost predicate CpusOk(t: Table) {
    && (forall c :: 0 <= c < |t.cpus| && t.cpus[c] != -1 ==> Runs(t, t.cpus[c]))
    && (forall c, d :: 0 <= c < d < |t.cpus| && t.cpus[c] != -1 ==> t.cpus[c] != t.cpus[d])
    && (forall p :: Runs(t, p) ==> OnSomeCpu(t, p))
  }

  predicate Runs(t: Table, p: int) { InTable(t, p) && t.procs[p].state.RUNNING? }

  ghost predicate OnSomeCpu(t: Table, p: int) { exists c :: 0 <= c < |t.cpus| && t.cpus[c] == p }

  /** Every process that got beyond EMBRYO, except init, has a living parent, which is older. */
  ghost predicate ParentOk(t: Table, p: int)
    requires InTable(t, p)
  {
    Born(t.procs[p].state) && p != t.init ==>
      AliveAt(t, t.procs[p].parent) && t.procs[t.procs[p].parent].pid < t.procs[p].pid
  }

  /** An EMBRYO belongs to the one process that is creating it; nobody points to an UNUSED slot's
      former parent. */
  ghost predicate EmbryoOk(t: Table, p: int)
    requires InTable(t, p)
  {
    && (t.procs[p].state.UNUSED? ==> t.procs[p].parent == -1)
    && (t.procs[p].state.EMBRYO? ==> t.procs[p].parent == -1 || Creates(t, t.procs[p].parent, p))
  }

  ghost predicate Creates(t: Table, q: int, p: int) {
    AliveAt(t, q) && InTable(t, p) && t.ctl[q] == Forking(p) && t.procs[q].pid < t.procs[p].pid
  }

  ghost predicate CtlOk(t: Table, p: int)
    requires InTable(t, p)
  {
    && (!Alive(t.procs[p].state) ==> t.ctl[p].Elsewhere?)
    && (t.ctl[p].Waiting? || t.ctl[p].Joining? ==> !t.procs[p].state.RUNNING?)
    && (t.ctl[p].Forking? ==> OnlyCreator(t, p, t.ctl[p].child))
  }

  ghost predicate OnlyCreator(t: Table, q: int, p: int) {
    Creates(t, q, p) && t.procs[p].state.EMBRYO? && forall r :: Creates(t, r, p) ==> r == q
  }

  /** Who sleeps in wait has no zombie child to collect, and so for join and threads. */
  ghost predicate SleepOk(t: Table, p: int)
    requires InTable(t, p)
  {
    t.procs[p].state.SLEEPING? ==>
      && (t.procs[p].chan.ProcChan? ==> t.procs[p].chan.slot == p)
      && (t.ctl[p].Waiting? || t.ctl[p].Joining? ==> t.procs[p].chan == ProcChan(p))
      && (t.ctl[p].Waiting? ==> NoneToCollect(t, p, false))
      && (t.ctl[p].Joining? ==> NoneToCollect(t, p, true))
  }

  ghost predicate NoneToCollect(t: Table, p: int, thread: bool) {
    forall z :: !Collects(t, p, z, thread)
  }

  /** z is a zombie that wait (thread == false) or join (thread == true) of p looks for. */
  predicate Collects(t: Table, p: int, z: int, thread: bool) {
    InTable(t, z) && t.procs[z].state.ZOMBIE? && t.procs[z].parent == p && t.procs[z].isthread == thread
  }

  ghost predicate PidOk(t: Table, p: int)
    requires InTable(t, p)
  {
    && (!t.procs[p].state.UNUSED? ==> 0 < t.procs[p].pid < t.nextpid)
    && (!t.procs[p].state.UNUSED? && p != t.init ==> AliveAt(t, t.init) && t.procs[t.init].pid < t.procs[p].pid)
    && (!t.procs[p].state.UNUSED? ==> t.procs[p].tickets >= 1)
  }

  ghost predicate Ok(t: Table, p: int)
    requires InTable(t, p)
  {
    ParentOk(t, p) && EmbryoOk(t, p) && CtlOk(t, p) && SleepOk(t, p) && PidOk(t, p)
  }

  ghost predicate Inv(t: Table) {
    && |t.procs| == NPROC && |t.ctl| == NPROC && AliveAt(t, t.init)
    && CpusOk(t)
    && forall p :: InTable(t, p) ==> Ok(t, p)
  }

  lemma SameRunners(t: Table, t': Table)
    requires CpusOk(t) && t'.cpus == t.cpus && forall q :: Runs(t', q) <==> Runs(t, q)
    ensures CpusOk(t')
  {
    assert forall q :: OnSomeCpu(t', q) <==> OnSomeCpu(t, q);
  }

  /** What has to stay the same for the invariant of an unchanged slot q to carry over. */
  ghost predicate Frame(t: Table, t': Table, q: int) {
    && InTable(t, q) && InTable(t', q) && t'.init == t.init && t'.nextpid >= t.nextpid
    && SameProc(t.procs[q], t'.procs[q])
    && t'.ctl[q] == t.ctl[q]
    && (AliveAt(t, t.procs[q].parent) ==> SameLife(t, t', t.procs[q].parent))
    && (AliveAt(t, t.init) ==> SameLife(t, t', t.init))
    && (forall r :: Creates(t', r, q) <==> Creates(t, r, q))
    && (forall z, b :: Collects(t', q, z, b) ==> Collects(t, q, z, b))
    && (t.ctl[q].Forking? && OnlyCreator(t, q, t.ctl[q].child) ==> OnlyCreator(t', q, t.ctl[q].child))
  }

  /** Equal but for the killed flag, a change of tickets and a wakeup. */
  predicate SameProc(a: Proc, b: Proc) {
    && b == a.(state := b.state, killed := b.killed, tickets := b.tickets) && (b.tickets == a.tickets || b.tickets >= 1)
    && (b.state == a.state || (a.state.SLEEPING? && b.state.RUNNABLE?))
  }

  predicate SameLife(t: Table, t': Table, r: int) {
    AliveAt(t, r) && AliveAt(t', r) && t'.procs[r].pid == t.procs[r].pid
  }

  lemma FrameKeepsOk(t: Table, t': Table, q: int)
    requires Frame(t, t', q) && Ok(t, q)
    ensures Ok(t', q)
  {
  }

  // ---------- What the critical sections do ----------

  /** wakeup1. */
  function Woken(procs: seq<Proc>, chan: Chan): (r: seq<Proc>)
    ensures |r| == |procs|
    ensures forall i :: 0 <= i < |procs| ==> r[i] == WokenProc(procs[i], chan)
  {
    seq(|procs|, i requires 0 <= i < |procs| => WokenProc(procs[i], chan))
  }

  function WokenProc(p: Proc, chan: Chan): Proc {
    if p.state.SLEEPING? && p.chan == chan then p.(state := RUNNABLE) else p
  }

  lemma WokenKeepsInv(t: Table, chan: Chan)
    requires Inv(t)
    ensures Inv(t.(procs := Woken(t.procs, chan)))
  {
    var t' := t.(procs := Woken(t.procs, chan));
    SameRunners(t, t');
    hide CpusOk;
    assert forall q :: AliveAt(t', q) <==> AliveAt(t, q);
    assert forall q, p :: Creates(t', q, p) <==> Creates(t, q, p);
    assert forall p, z, b :: Collects(t', p, z, b) <==> Collects(t, p, z, b);
    forall p | InTable(t', p) ensures Ok(t', p) {
      assert Ok(t, p);
      FrameKeepsOk(t, t', p);
    }
  }

  /** allocproc, by running process p, takes the unused slot s. */
  function Allocated(t: Table, p: int, s: int): Table
    requires InTable(t, p) && InTable(t, s)
  {
    t.(procs := t.procs[s := t.procs[s].(state := EMBRYO, tickets := 1, isthread := false, pid := t.nextpid)],
       nextpid := t.nextpid + 1, ctl := t.ctl[p := Forking(s)])
  }

  lemma AllocatedKeepsInv(t: Table, p: int, s: int)
    requires Inv(t) && Runs(t, p) && t.ctl[p].Elsewhere? && InTable(t, s) && t.procs[s].state.UNUSED?
    ensures Inv(Allocated(t, p, s))
  {
    var t' := Allocated(t, p, s);
    SameRunners(t, t');
    hide CpusOk;
    assert Ok(t, p) && Ok(t, s);
    NobodyCreates(t, s);
    assert forall r :: Creates(t', r, s) <==> r == p;
    forall q | InTable(t', q) ensures Ok(t', q) {
      if q == p {
        assert OnlyCreator(t', p, s);
        assert SleepOk(t', p);
      } else if q != s {
        AllocatedOthers(t, p, s, q);
      }
    }
  }

  lemma AllocatedOthers(t: Table, p: int, s: int, q: int)
    requires Inv(t) && Runs(t, p) && t.ctl[p].Elsewhere? && InTable(t, s) && t.procs[s].state.UNUSED?
    requires InTable(t, q) && q != p && q != s
    ensures Ok(Allocated(t, p, s), q)
  {
    var t' := Allocated(t, p, s);
    hide CpusOk;
    assert Ok(t, p) && Ok(t, s) && Ok(t, q);
    NobodyCreates(t, s);
    assert forall r, x :: x != s ==> (Creates(t', r, x) <==> Creates(t, r, x));
    FrameKeepsOk(t, t', q);
  }

  lemma NobodyCreates(t: Table, s: int)
    requires Inv(t) && InTable(t, s) && !t.procs[s].state.EMBRYO?
    ensures forall r :: InTable(t, r) ==> t.ctl[r] != Forking(s)
  {
    forall r | InTable(t, r) ensures t.ctl[r] != Forking(s) {
      assert Ok(t, r);
    }
  }

  /** kalloc or copyuvm has failed: the slot is given back. */
  function Unallocated(t: Table, p: int): Table
    requires InTable(t, p) && t.ctl[p].Forking? && InTable(t, t.ctl[p].child)
  {
    var s := t.ctl[p].child;
    t.(procs := t.procs[s := t.procs[s].(state := UNUSED)], ctl := t.ctl[p := Elsewhere])
  }

  lemma UnallocatedKeepsInv(t: Table, p: int)
    requires Inv(t) && Runs(t, p) && t.ctl[p].Forking?
    requires InTable(t, t.ctl[p].child) && t.procs[t.ctl[p].child].parent == -1
    ensures Inv(Unallocated(t, p))
  {
    var t', s := Unallocated(t, p), t.ctl[p].child;
    SameRunners(t, t');
    hide CpusOk;
    assert Ok(t, p) && Ok(t, s);
    forall q | InTable(t', q) ensures Ok(t', q) {
      assert Ok(t, q);
      if q != p && q != s {
        UnallocatedOthers(t, p, q);
      }
    }
  }

  lemma UnallocatedOthers(t: Table, p: int, q: int)
    requires Inv(t) && Runs(t, p) && t.ctl[p].Forking? && InTable(t, q)
    requires InTable(t, t.ctl[p].child) && t.procs[t.ctl[p].child].parent == -1 && q != p && q != t.ctl[p].child
    ensures Ok(Unallocated(t, p), q)
  {
    var t', s := Unallocated(t, p), t.ctl[p].child;
    hide CpusOk;
    assert Ok(t, p) && Ok(t, s) && Ok(t, q);
    assert forall r, x :: x != s ==> (Creates(t', r, x) <==> Creates(t, r, x));
    OtherChild(t, p, q);
    FrameKeepsOk(t, t', q);
  }

  /** Two processes never create the same one. */
  lemma OtherChild(t: Table, p: int, q: int)
    requires Inv(t) && InTable(t, p) && InTable(t, q) && p != q && t.ctl[p].Forking?
    ensures t.ctl[p] != t.ctl[q]
  {
    assert Ok(t, p) && Ok(t, q) && Ok(t, t.ctl[p].child);
  }

  /** fork and clone fill in the new slot, which nobody else looks at. */
  function Adopted(t: Table, p: int, thread: bool, tickets: nat): Table
    requires InTable(t, p) && t.ctl[p].Forking? && InTable(t, t.ctl[p].child)
  {
    var s := t.ctl[p].child;
    t.(procs := t.procs[s := t.procs[s].(parent := p, isthread := thread, tickets := tickets)])
  }

  lemma AdoptedKeepsInv(t: Table, p: int, thread: bool, tickets: nat)
    requires Inv(t) && Runs(t, p) && t.ctl[p].Forking? && InTable(t, t.ctl[p].child) && tickets >= 1
    ensures Inv(Adopted(t, p, thread, tickets))
  {
    var t', s := Adopted(t, p, thread, tickets), t.ctl[p].child;
    SameRunners(t, t');
    hide CpusOk;
    assert Ok(t, p) && Ok(t, s);
    assert forall r, x :: Creates(t', r, x) <==> Creates(t, r, x);
    forall q | InTable(t', q) ensures Ok(t', q) {
      if q != s {
        AdoptedOthers(t, p, thread, tickets, q);
      }
    }
  }

  lemma AdoptedOthers(t: Table, p: int, thread: bool, tickets: nat, q: int)
    requires Inv(t) && Runs(t, p) && t.ctl[p].Forking? && InTable(t, t.ctl[p].child) && tickets >= 1
    requires InTable(t, q) && q != t.ctl[p].child
    ensures Ok(Adopted(t, p, thread, tickets), q)
  {
    var t', s := Adopted(t, p, thread, tickets), t.ctl[p].child;
    hide CpusOk;
    assert Ok(t, p) && Ok(t, s) && Ok(t, q);
    assert forall r, x :: Creates(t', r, x) <==> Creates(t, r, x);
    FrameKeepsOk(t, t', q);
  }

  /** The new process becomes RUNNABLE. */
  function Published(t: Table, p: int): Table
    requires InTable(t, p) && t.ctl[p].Forking? && InTable(t, t.ctl[p].child)
  {
    var s := t.ctl[p].child;
    t.(procs := t.procs[s := t.procs[s].(state := RUNNABLE)], ctl := t.ctl[p := Elsewhere])
  }

  lemma PublishedKeepsInv(t: Table, p: int)
    requires Inv(t) && Runs(t, p) && t.ctl[p].Forking?
    requires InTable(t, t.ctl[p].child) && t.procs[t.ctl[p].child].parent == p
    ensures Inv(Published(t, p))
  {
    var t', s := Published(t, p), t.ctl[p].child;
    SameRunners(t, t');
    hide CpusOk;
    assert Ok(t, p) && Ok(t, s);
    forall q | InTable(t', q) ensures Ok(t', q) {
      assert Ok(t, q);
      if q != p && q != s {
        PublishedOthers(t, p, q);
      }
    }
  }

  lemma PublishedOthers(t: Table, p: int, q: int)
    requires Inv(t) && Runs(t, p) && t.ctl[p].Forking? && InTable(t, q)
    requires InTable(t, t.ctl[p].child) && t.procs[t.ctl[p].child].parent == p && q != p && q != t.ctl[p].child
    ensures Ok(Published(t, p), q)
  {
    var t', s := Published(t, p), t.ctl[p].child;
    hide CpusOk;
    assert Ok(t, p) && Ok(t, s) && Ok(t, q);
    assert forall r, x :: x != s ==> (Creates(t', r, x) <==> Creates(t, r, x)) by {
      assert !t.ctl[s].Forking?;
    }
    OtherChild(t, p, q);
    FrameKeepsOk(t, t', q);
  }

  /** Process cpus[c] gives up the CPU: it has set its state and entered the scheduler. */
  function Left(t: Table, c: int, status: Status, chan: Chan, ctl: Ctl): Table
    requires 0 <= c < |t.cpus| && InTable(t, t.cpus[c])
  {
    var p := t.cpus[c];
    t.(procs := t.procs[p := t.procs[p].(state := status, chan := chan)], cpus := t.cpus[c := -1], ctl := t.ctl[p := ctl])
  }

  lemma LeftKeepsInv(t: Table, c: int, status: Status, chan: Chan, ctl: Ctl)
    requires Inv(t) && 0 <= c < |t.cpus| && Runs(t, t.cpus[c])
    requires var p := t.cpus[c];
      || (status == RUNNABLE && ctl == t.ctl[p])
      || (status == SLEEPING && !chan.ProcChan? && ctl == t.ctl[p])
      || (status == SLEEPING && chan == ProcChan(p) && t.ctl[p].Elsewhere?
          && (ctl == Waiting || ctl == Joining) && NoneToCollect(t, p, ctl == Joining))
    ensures Inv(Left(t, c, status, chan, ctl))
  {
    var t', p := Left(t, c, status, chan, ctl), t.cpus[c];
    LeftCpus(t, c, status, chan, ctl);
    hide CpusOk;
    assert Ok(t, p);
    assert forall r, x :: Creates(t', r, x) <==> Creates(t, r, x);
    assert forall z, b :: Collects(t', p, z, b) <==> Collects(t, p, z, b);
    forall q | InTable(t', q) ensures Ok(t', q) {
      if q != p {
        LeftOthers(t, c, status, chan, ctl, q);
      }
    }
  }

  lemma LeftOthers(t: Table, c: int, status: Status, chan: Chan, ctl: Ctl, q: int)
    requires Inv(t) && 0 <= c < |t.cpus| && Runs(t, t.cpus[c]) && InTable(t, q) && q != t.cpus[c]
    requires Alive(status) && (ctl == t.ctl[t.cpus[c]] || (!ctl.Forking? && !t.ctl[t.cpus[c]].Forking?))
    ensures Ok(Left(t, c, status, chan, ctl), q)
  {
    var t', p := Left(t, c, status, chan, ctl), t.cpus[c];
    hide CpusOk;
    assert Ok(t, p) && Ok(t, q);
    assert forall r, x :: Creates(t', r, x) <==> Creates(t, r, x);
    assert forall z, b :: Collects(t', q, z, b) <==> Collects(t, q, z, b);
    FrameKeepsOk(t, t', q);
  }

  lemma LeftCpus(t: Table, c: int, status: Status, chan: Chan, ctl: Ctl)
    requires |t.procs| == NPROC && |t.ctl| == NPROC && CpusOk(t) && 0 <= c < |t.cpus| && Runs(t, t.cpus[c])
    requires !status.RUNNING?
    ensures CpusOk(Left(t, c, status, chan, ctl))
  {
    var t', p := Left(t, c, status, chan, ctl), t.cpus[c];
    assert forall q :: Runs(t', q) <==> Runs(t, q) && q != p;
    forall q | q != p && OnSomeCpu(t, q) ensures OnSomeCpu(t', q) {
      var d :| 0 <= d < |t.cpus| && t.cpus[d] == q;
      assert t'.cpus[d] == q;
    }
  }

  /** The scheduler of cpu c runs w; a process that was in wait or join goes on with its loop. */
  function Entered(t: Table, c: int, w: int): Table
    requires 0 <= c < |t.cpus| && InTable(t, w)
  {
    t.(procs := t.procs[w := t.procs[w].(state := RUNNING, chan := NoChan)], cpus := t.cpus[c := w],
       ctl := t.ctl[w := if t.ctl[w].Forking? then t.ctl[w] else Elsewhere])
  }

  lemma EnteredKeepsInv(t: Table, c: int, w: int)
    requires Inv(t) && 0 <= c < |t.cpus| && t.cpus[c] == -1 && InTable(t, w) && t.procs[w].state.RUNNABLE?
    ensures Inv(Entered(t, c, w)) && Runs(Entered(t, c, w), w)
  {
    var t' := Entered(t, c, w);
    EnteredCpus(t, c, w);
    hide CpusOk;
    assert Ok(t, w);
    assert forall r, x :: Creates(t', r, x) <==> Creates(t, r, x);
    assert forall q, z, b :: Collects(t', q, z, b) <==> Collects(t, q, z, b);
    forall q | InTable(t', q) ensures Ok(t', q) {
      assert Ok(t, q);
      if q != w {
        FrameKeepsOk(t, t', q);
      }
    }
  }

  lemma EnteredCpus(t: Table, c: int, w: int)
    requires |t.procs| == NPROC && |t.ctl| == NPROC && CpusOk(t) && 0 <= c < |t.cpus| && t.cpus[c] == -1
    requires InTable(t, w) && t.procs[w].state.RUNNABLE?
    ensures CpusOk(Entered(t, c, w))
  {
    var t' := Entered(t, c, w);
    assert forall q :: Runs(t', q) <==> Runs(t, q) || q == w;
    assert t'.cpus[c] == w;
    forall q | OnSomeCpu(t, q) && q != -1 ensures OnSomeCpu(t', q) {
      var d :| 0 <= d < |t.cpus| && t.cpus[d] == q;
      assert t'.cpus[d] == q;
    }
  }

  /** wait or join frees the slot of zombie z. */
  function Reaped(t: Table, z: int): Table
    requires InTable(t, z)
  {
    t.(procs := t.procs[z := t.procs[z].(pid := 0, parent := -1, killed := false, state := UNUSED)])
  }

  lemma ReapedKeepsInv(t: Table, z: int)
    requires Inv(t) && InTable(t, z) && t.procs[z].state.ZOMBIE?
    ensures Inv(Reaped(t, z))
  {
    var t' := Reaped(t, z);
    SameRunners(t, t');
    hide CpusOk;
    assert Ok(t, z);
    assert forall r, x :: x != z ==> (Creates(t', r, x) <==> Creates(t, r, x));
    forall q | InTable(t', q) ensures Ok(t', q) {
      assert Ok(t, q);
      if q != z {
        FrameKeepsOk(t, t', q);
      }
    }
  }

  /** exit hands the children of cur to init. */
  function Reparented(t: Table, cur: int): (t': Table)
    ensures |t'.procs| == |t.procs|
    ensures forall i :: 0 <= i < |t.procs| ==> t'.procs[i] == ReparentedProc(t.procs[i], cur, t.init)
  {
    t.(procs := seq(|t.procs|, i requires 0 <= i < |t.procs| => ReparentedProc(t.procs[i], cur, t.init)))
  }

  function ReparentedProc(p: Proc, cur: int, init: int): Proc {
    if p.parent == cur then p.(parent := init) else p
  }

  predicate HasZombieChild(t: Table, cur: int) {
    exists z :: 0 <= z < |t.procs| && t.procs[z].parent == cur && t.procs[z].state.ZOMBIE?
  }

  predicate SleepsOnSelf(t: Table, p: int) {
    InTable(t, p) && t.procs[p].state.SLEEPING? && t.procs[p].chan == ProcChan(p)
  }

  lemma ReparentedKeepsInv(t: Table, cur: int)
    requires Inv(t) && Runs(t, cur) && cur != t.init && t.ctl[cur].Elsewhere?
    requires HasZombieChild(t, cur) ==> !SleepsOnSelf(t, t.init)
    ensures Inv(Reparented(t, cur))
    ensures forall q :: InTable(t, q) ==> Reparented(t, cur).procs[q].parent != cur
  {
    var t' := Reparented(t, cur);
    SameRunners(t, t');
    hide CpusOk;
    assert forall r, x :: Creates(t', r, x) <==> Creates(t, r, x);
    assert Ok(t, t.init);
    forall q | InTable(t', q) ensures Ok(t', q) {
      assert Ok(t, q);
      if t.procs[q].parent != cur && q != t.init {
        FrameKeepsOk(t, t', q);
      } else if q == t.init {
        ReparentedInitOk(t, cur);
      } else {
        ReparentedChildOk(t, cur, q);
      }
    }
  }

  lemma ReparentedChildOk(t: Table, cur: int, q: int)
    requires Inv(t) && Runs(t, cur) && cur != t.init && t.ctl[cur].Elsewhere?
    requires InTable(t, q) && q != t.init && t.procs[q].parent == cur
    ensures Ok(Reparented(t, cur), q)
  {
    var t' := Reparented(t, cur);
    assert Ok(t, q) && Ok(t, cur);
    assert forall r, x :: Creates(t', r, x) <==> Creates(t, r, x);
    assert forall z, b :: Collects(t', q, z, b) ==> Collects(t, q, z, b);
    assert SleepOk(t', q) && CtlOk(t', q);
  }

  lemma ReparentedInitOk(t: Table, cur: int)
    requires Inv(t) && Runs(t, cur) && cur != t.init && t.ctl[cur].Elsewhere?
    requires HasZombieChild(t, cur) ==> !SleepsOnSelf(t, t.init)
    ensures Ok(Reparented(t, cur), t.init)
  {
    var t', i := Reparented(t, cur), t.init;
    assert Ok(t, i);
    assert forall r, x :: Creates(t', r, x) <==> Creates(t, r, x);
    forall z, b | Collects(t', i, z, b) && !HasZombieChild(t, cur) ensures Collects(t, i, z, b) {
    }
    assert SleepOk(t', i);
  }

  /** exit's last words: ZOMBIE, and off the CPU. */
  lemma ZombieKeepsInv(t: Table, c: int)
    requires Inv(t) && 0 <= c < |t.cpus| && Runs(t, t.cpus[c]) && t.cpus[c] != t.init
    requires t.ctl[t.cpus[c]].Elsewhere?
    requires forall q :: InTable(t, q) ==> t.procs[q].parent != t.cpus[c]
    requires !SleepsOnSelf(t, t.procs[t.cpus[c]].parent)
    ensures Inv(Left(t, c, ZOMBIE, t.procs[t.cpus[c]].chan, Elsewhere))
  {
    var cur := t.cpus[c];
    var t' := Left(t, c, ZOMBIE, t.procs[cur].chan, Elsewhere);
    LeftCpus(t, c, ZOMBIE, t.procs[cur].chan, Elsewhere);
    hide CpusOk;
    assert Ok(t, cur);
    forall q | InTable(t', q) ensures Ok(t', q) {
      assert Ok(t, q);
      if q != cur && q != t.procs[cur].parent {
        assert forall r, x :: Creates(t', r, x) <==> Creates(t, r, x);
        FrameKeepsOk(t, t', q);
      } else {
        ZombieNeighbourOk(t, c, q);
      }
    }
  }

  lemma ZombieNeighbourOk(t: Table, c: int, q: int)
    requires Inv(t) && 0 <= c < |t.cpus| && Runs(t, t.cpus[c]) && t.cpus[c] != t.init
    requires t.ctl[t.cpus[c]].Elsewhere?
    requires forall r :: InTable(t, r) ==> t.procs[r].parent != t.cpus[c]
    requires !SleepsOnSelf(t, t.procs[t.cpus[c]].parent)
    requires InTable(t, q) && (q == t.cpus[c] || q == t.procs[t.cpus[c]].parent)
    ensures Ok(Left(t, c, ZOMBIE, t.procs[t.cpus[c]].chan, Elsewhere), q)
  {
    hide CpusOk;
    var cur := t.cpus[c];
    var t' := Left(t, c, ZOMBIE, t.procs[cur].chan, Elsewhere);
    assert Ok(t, cur) && Ok(t, q);
    assert forall r, x :: Creates(t', r, x) <==> Creates(t, r, x);
    assert ParentOk(t', q) && EmbryoOk(t', q);
    assert CtlOk(t', q) && SleepOk(t', q);
  }

  /** A process after exit of cur has passed its children on; zombies says whether one is dead. */
  function PassedOn(p: Proc, cur: int, init: int, zombies: bool): Proc {
    var r := ReparentedProc(p, cur, init);
    if zombies then WokenProc(r, ProcChan(init)) else r
  }

  function PassOnAll(t: Table, cur: int): (t': Table)
    ensures |t'.procs| == |t.procs|
    ensures forall i :: 0 <= i < |t.procs| ==> t'.procs[i] == PassedOn(t.procs[i], cur, t.init, HasZombieChild(t, cur))
  {
    t.(procs := seq(|t.procs|, i requires 0 <= i < |t.procs| => PassedOn(t.procs[i], cur, t.init, HasZombieChild(t, cur))))
  }

  lemma PassOnKeepsInv(t: Table, cur: int)
    requires Inv(t) && Runs(t, cur) && cur != t.init && t.ctl[cur].Elsewhere?
    ensures Inv(PassOnAll(t, cur))
    ensures forall q :: InTable(t, q) ==> PassOnAll(t, cur).procs[q].parent != cur
  {
    hide Inv;
    var u := if HasZombieChild(t, cur) then t.(procs := Woken(t.procs, ProcChan(t.init))) else t;
    WokenKeepsInv(t, ProcChan(t.init));
    Sizes(t);
    if z :| 0 <= z < |u.procs| && u.procs[z].parent == cur && u.procs[z].state.ZOMBIE? {
      assert t.procs[z].parent == cur && t.procs[z].state.ZOMBIE?;
    }
    ReparentedKeepsInv(u, cur);
    assert Reparented(u, cur).procs == PassOnAll(t, cur).procs;
  }

  lemma Sizes(t: Table)
    requires Inv(t)
    ensures |t.procs| == NPROC && |t.ctl| == NPROC && InTable(t, t.init)
  {
  }

  /** The table that userinit leaves: one process, which waits to be run. */
  ghost predicate Booted(t: Table) {
    && |t.procs| == NPROC && |t.ctl| == NPROC && t.init == 0 && t.nextpid == 2
    && t.procs[0] == Proc(RUNNABLE, 1, -1, NoChan, false, false, 1)
    && (forall i :: 0 < i < NPROC ==> t.procs[i] == Proc(UNUSED, 0, -1, NoChan, false, false, 1))
    && (forall i :: 0 <= i < NPROC ==> t.ctl[i] == Elsewhere)
    && (forall c :: 0 <= c < |t.cpus| ==> t.cpus[c] == -1)
  }

  lemma BootOk(t: Table)
    requires Booted(t)
    ensures Inv(t)
  {
    forall p | InTable(t, p) ensures Ok(t, p) {
    }
  }

  function KilledProc(p: Proc): Proc {
    p.(killed := true, state := if p.state.SLEEPING? then RUNNABLE else p.state)
  }

  lemma KilledKeepsInv(t: Table, p: int)
    requires Inv(t) && InTable(t, p)
    ensures Inv(t.(procs := t.procs[p := KilledProc(t.procs[p])]))
  {
    var t' := t.(procs := t.procs[p := KilledProc(t.procs[p])]);
    SameRunners(t, t');
    hide CpusOk;
    assert forall r, x :: Creates(t', r, x) <==> Creates(t, r, x);
    forall q | InTable(t', q) ensures Ok(t', q) {
      assert Ok(t, q);
      FrameKeepsOk(t, t', q);
    }
  }

  lemma TicketsKeepInv(t: Table, p: int, n: nat)
    requires Inv(t) && InTable(t, p) && n >= 1
    ensures Inv(t.(procs := t.procs[p := t.procs[p].(tickets := n)]))
  {
    var t' := t.(procs := t.procs[p := t.procs[p].(tickets := n)]);
    SameRunners(t, t');
    hide CpusOk;
    assert forall r, x :: Creates(t', r, x) <==> Creates(t, r, x);
    forall q | InTable(t', q) ensures Ok(t', q) {
      assert Ok(t, q);
      FrameKeepsOk(t, t', q);
    }
  }

  predicate ChildAt(t: Table, p: int, i: int, thread: bool) {
    InTable(t, i) && t.procs[i].parent == p && t.procs[i].isthread == thread
  }

  ghost predicate HasChild(t: Table, p: int, thread: bool) {
    exists i :: ChildAt(t, p, i, thread)
  }

  /** The locked part of exit on cpu c. */
  function Exited(t: Table, c: int): Table
    requires 0 <= c < |t.cpus| && InTable(t, t.cpus[c])
  {
    var cur := t.cpus[c];
    var u := t.(procs := Woken(t.procs, ProcChan(t.procs[cur].parent)));
    var v := PassOnAll(u, cur);
    Left(v, c, ZOMBIE, v.procs[cur].chan, Elsewhere)
  }

  lemma ExitedKeepsInv(t: Table, c: int)
    requires Inv(t) && 0 <= c < |t.cpus| && Runs(t, t.cpus[c]) && t.cpus[c] != t.init && t.ctl[t.cpus[c]].Elsewhere?
    ensures Inv(Exited(t, c))
  {
    var cur := t.cpus[c];
    var parent := t.procs[cur].parent;
    var u := t.(procs := Woken(t.procs, ProcChan(parent)));
    assert Ok(t, cur);
    Sizes(t);
    assert parent != cur;
    hide Inv;
    WokenKeepsInv(t, ProcChan(parent));
    assert !SleepsOnSelf(u, parent);
    PassOnKeepsInv(u, cur);
    ZombieKeepsInv(PassOnAll(u, cur), c);
  }

  /** What exit means for the others: their children pass to init, and they may be woken. */
  lemma ExitedFrame(t: Table, c: int, i: int)
    requires Inv(t) && 0 <= c < |t.cpus| && Runs(t, t.cpus[c]) && InTable(t, i) && i != t.cpus[c]
    ensures var p, p' := t.procs[i], Exited(t, c).procs[i];
      && p' == p.(parent := if p.parent == t.cpus[c] then t.init else p.parent, state := p'.state)
      && (p'.state == p.state || (p.state.SLEEPING? && p'.state.RUNNABLE?))
  {
  }

  /** Each of these processes has the next as its parent, which is alive; the last is q. */
  ghost predicate Lineage(t: Table, path: seq<int>, q: int) {
    && path != [] && InTable(t, path[0])
    && if |path| == 1 then path[0] == q
       else t.procs[path[0]].parent == path[1] && AliveAt(t, path[1]) && Lineage(t, path[1..], q)
  }

  /** Every process, dead or alive, descends from init through living processes. */
  lemma {:induction false} DescendsFromInit(t: Table, p: int) returns (path: seq<int>)
    requires Inv(t) && InTable(t, p) && Born(t.procs[p].state)
    ensures Lineage(t, path, t.init) && path[0] == p
    decreases t.procs[p].pid
  {
    if p == t.init {
      return [p];
    }
    assert Ok(t, p);
    hide Inv, Ok;
    var rest := DescendsFromInit(t, t.procs[p].parent);
    path := [p] + rest;
    assert path[1..] == rest;
  }

  // ---------- Runs: any interleaving of processes and CPUs ----------

  /** What happens under one acquisition of ptable.lock, or in one unlocked store to a slot under
      construction; c is the CPU that does it. */
  datatype Action =
    | Wake(chan: Chan)
    | Alloc(c: int, s: int)
    | GiveUp(c: int)
    | Fill(c: int, thread: bool, tickets: nat)
    | Publish(c: int)
    | Yield(c: int)
    | Sleep(c: int, id: nat)
    | Wait(c: int, thread: bool)
    | Reap(c: int, z: int, thread: bool)
    | Exit(c: int)
    | Enter(c: int, w: int)
    | Kill(p: int)
    | SetTickets(c: int, n: nat)

  predicate OnCpu(t: Table, c: int) { 0 <= c < |t.cpus| && Runs(t, t.cpus[c]) }

  predicate Building(t: Table, c: int) { OnCpu(t, c) && t.ctl[t.cpus[c]].Forking? && InTable(t, t.ctl[t.cpus[c]].child) }

  function Child(t: Table, c: int): Proc
    requires Building(t, c)
  {
    t.procs[t.ctl[t.cpus[c]].child]
  }

  ghost predicate Enabled(t: Table, a: Action) {
    match a
    case Wake(_) => true
    case Alloc(c, s) => OnCpu(t, c) && t.ctl[t.cpus[c]].Elsewhere? && InTable(t, s) && t.procs[s].state.UNUSED?
    case GiveUp(c) => Building(t, c) && Child(t, c).parent == -1
    case Fill(c, thread, tickets) =>
      Building(t, c) && tickets == if thread then Child(t, c).tickets else t.procs[t.cpus[c]].tickets
    case Publish(c) => Building(t, c) && Child(t, c).parent == t.cpus[c]
    case Yield(c) => OnCpu(t, c)
    case Sleep(c, _) => OnCpu(t, c)
    case Wait(c, thread) =>
      && OnCpu(t, c) && t.ctl[t.cpus[c]].Elsewhere? && NoneToCollect(t, t.cpus[c], thread)
      && HasChild(t, t.cpus[c], thread) && !t.procs[t.cpus[c]].killed
    case Reap(c, z, thread) => OnCpu(t, c) && Collects(t, t.cpus[c], z, thread)
    case Exit(c) => OnCpu(t, c) && t.ctl[t.cpus[c]].Elsewhere? && t.cpus[c] != t.init
    case Enter(c, w) => 0 <= c < |t.cpus| && t.cpus[c] == -1 && InTable(t, w) && t.procs[w].state.RUNNABLE?
    case Kill(p) => InTable(t, p)
    case SetTickets(c, n) => OnCpu(t, c) && n >= 1
  }

  function Act(t: Table, a: Action): Table
    requires Enabled(t, a)
  {
    match a
    case Wake(chan) => t.(procs := Woken(t.procs, chan))
    case Alloc(c, s) => Allocated(t, t.cpus[c], s)
    case GiveUp(c) => Unallocated(t, t.cpus[c])
    case Fill(c, thread, tickets) => Adopted(t, t.cpus[c], thread, tickets)
    case Publish(c) => Published(t, t.cpus[c])
    case Yield(c) => Left(t, c, RUNNABLE, t.procs[t.cpus[c]].chan, t.ctl[t.cpus[c]])
    case Sleep(c, id) => Left(t, c, SLEEPING, OtherChan(id), t.ctl[t.cpus[c]])
    case Wait(c, thread) => Left(t, c, SLEEPING, ProcChan(t.cpus[c]), if thread then Joining else Waiting)
    case Reap(c, z, thread) => Reaped(t, z)
    case Exit(c) => Exited(t, c)
    case Enter(c, w) => Entered(t, c, w)
    case Kill(p) => t.(procs := t.procs[p := KilledProc(t.procs[p])])
    case SetTickets(c, n) => t.(procs := t.procs[t.cpus[c] := t.procs[t.cpus[c]].(tickets := n)])
  }

  /** The process on cpu c, and the one it may be constructing, have tickets. */
  lemma TicketsThere(t: Table, c: int)
    requires Inv(t) && OnCpu(t, c)
    ensures t.procs[t.cpus[c]].tickets >= 1 && (Building(t, c) ==> Child(t, c).tickets >= 1)
  {
    assert Ok(t, t.cpus[c]);
    if Building(t, c) {
      assert Ok(t, t.ctl[t.cpus[c]].child);
    }
  }

  lemma ActKeepsInv(t: Table, a: Action)
    requires Inv(t) && Enabled(t, a)
    ensures Inv(Act(t, a))
  {
    hide Inv;
    match a
    case Wake(chan) => WokenKeepsInv(t, chan);
    case Alloc(c, s) => AllocatedKeepsInv(t, t.cpus[c], s);
    case GiveUp(c) => UnallocatedKeepsInv(t, t.cpus[c]);
    case Fill(c, thread, tickets) =>
      TicketsThere(t, c);
      AdoptedKeepsInv(t, t.cpus[c], thread, tickets);
    case Publish(c) => PublishedKeepsInv(t, t.cpus[c]);
    case Yield(c) => LeftKeepsInv(t, c, RUNNABLE, t.procs[t.cpus[c]].chan, t.ctl[t.cpus[c]]);
    case Sleep(c, id) => LeftKeepsInv(t, c, SLEEPING, OtherChan(id), t.ctl[t.cpus[c]]);
    case Wait(c, thread) => LeftKeepsInv(t, c, SLEEPING, ProcChan(t.cpus[c]), if thread then Joining else Waiting);
    case Reap(c, z, thread) => ReapedKeepsInv(t, z);
    case Exit(c) => ExitedKeepsInv(t, c);
    case Enter(c, w) => EnteredKeepsInv(t, c, w);
    case Kill(p) => KilledKeepsInv(t, p);
    case SetTickets(c, n) => TicketsKeepInv(t, t.cpus[c], n);
  }

  ghost predicate Run(ts: seq<Table>, acts: seq<Action>) {
    && |ts| == |acts| + 1 && Booted(ts[0])
    && forall i :: 0 <= i < |acts| ==> Enabled(ts[i], acts[i]) && ts[i + 1] == Act(ts[i], acts[i])
  }

  lemma {:induction false} RunKeepsInv(ts: seq<Table>, acts: seq<Action>, n: nat)
    requires Run(ts, acts) && n < |ts|
    ensures Inv(ts[n])
  {
    hide Inv, Act;
    if n == 0 {
      BootOk(ts[0]);
    } else {
      RunKeepsInv(ts, acts, n - 1);
      ActKeepsInv(ts[n - 1], acts[n - 1]);
    }
  }

  /** In every reachable table, RUNNING processes and busy CPUs correspond one to one. */
  lemma OneCpuEach(ts: seq<Table>, acts: seq<Action>, n: nat, p: int)
    requires Run(ts, acts) && n < |ts| && InTable(ts[n], p)
    ensures var t := ts[n]; t.procs[p].state.RUNNING? <==> exists c :: 0 <= c < |t.cpus| && t.cpus[c] == p
    ensures var t := ts[n]; forall c, d :: 0 <= c < |t.cpus| && 0 <= d < |t.cpus| && t.cpus[c] == p == t.cpus[d] ==> c == d
  {
    hide Act, Enabled;
    RunKeepsInv(ts, acts, n);
    var t := ts[n];
    assert Runs(t, p) <==> t.procs[p].state.RUNNING?;
  }

  /** In every reachable table, every process beyond EMBRYO except init has a parent that is
      neither unused, nor under construction, nor a zombie, and that is older. */
  lemma LivingParent(ts: seq<Table>, acts: seq<Action>, n: nat, p: int)
    requires Run(ts, acts) && n < |ts| && InTable(ts[n], p)
    requires ts[n].procs[p].state !in {UNUSED, EMBRYO} && p != ts[n].init
    ensures var t := ts[n]; var q := t.procs[p].parent;
      InTable(t, q) && t.procs[q].state !in {UNUSED, EMBRYO, ZOMBIE} && t.procs[q].pid < t.procs[p].pid
  {
    hide Act, Enabled;
    RunKeepsInv(ts, acts, n);
    assert Ok(ts[n], p);
  }

  /** In every reachable table, nobody sleeps in wait or join over a zombie it should collect. */
  lemma NobodyMissed(ts: seq<Table>, acts: seq<Action>, n: nat, p: int, z: int)
    requires Run(ts, acts) && n < |ts| && InTable(ts[n], p) && InTable(ts[n], z)
    requires ts[n].procs[p].state.SLEEPING? && ts[n].procs[z].state.ZOMBIE? && ts[n].procs[z].parent == p
    ensures if ts[n].procs[z].isthread then !ts[n].ctl[p].Joining? else !ts[n].ctl[p].Waiting?
  {
    hide Act, Enabled;
    RunKeepsInv(ts, acts, n);
    assert Ok(ts[n], p);
    assert Collects(ts[n], p, z, ts[n].procs[z].isthread);
  }

  // ---------- Threads left to init ----------

  /** A dead thread whose parent has exited: init is its parent now. */
  predicate LeftToInit(t: Table, z: int) { InTable(t, z) && Collects(t, t.init, z, true) }

  /** Only a join by init collects it. */
  lemma StaysLeft(t: Table, a: Action, z: int)
    requires Inv(t) && Enabled(t, a) && LeftToInit(t, z)
    ensures LeftToInit(Act(t, a), z) <==> !(a.Reap? && a.z == z)
    ensures a.Reap? && a.z == z ==> t.cpus[a.c] == t.init && a.thread
  {
    assert Ok(t, z);
    if a.GiveUp? || a.Fill? || a.Publish? || a.Exit? || a.Alloc? || a.Reap? {
      StaysOutside(t, a, z);
    }
    hide Inv, Ok, ParentOk, EmbryoOk, SleepOk, PidOk, CtlOk, Allocated, Unallocated, Adopted, Published, Exited, Reaped;
  }

  /** What is done to the slot of another process, which is new, or exits, or is collected. */
  lemma StaysOutside(t: Table, a: Action, z: int)
    requires Inv(t) && Enabled(t, a) && LeftToInit(t, z) && (a.GiveUp? || a.Fill? || a.Publish? || a.Exit? || a.Alloc? || a.Reap?)
    ensures LeftToInit(Act(t, a), z) <==> !(a.Reap? && a.z == z)
    ensures a.Reap? && a.z == z ==> t.cpus[a.c] == t.init && a.thread
  {
    assert Ok(t, z);
    match a
    case GiveUp(c) => ChildIsEmbryo(t, c);
    case Fill(c, _, _) => ChildIsEmbryo(t, c);
    case Publish(c) => ChildIsEmbryo(t, c);
    case Exit(c) => ExitedFrame(t, c, z);
    case _ =>
  }

  lemma ChildIsEmbryo(t: Table, c: int)
    requires Inv(t) && Building(t, c)
    ensures Child(t, c).state.EMBRYO?
  {
    assert Ok(t, t.cpus[c]);
  }

  /** init calls wait and never join, so a dead thread left to it keeps its slot for ever. */
  lemma {:induction false} NeverCollected(ts: seq<Table>, acts: seq<Action>, n: nat, m: nat, z: int)
    requires Run(ts, acts) && n <= m < |ts| && LeftToInit(ts[n], z)
    requires forall i :: n <= i < m ==> acts[i].Reap? && acts[i].thread ==> ts[i].cpus[acts[i].c] != ts[i].init
    ensures LeftToInit(ts[m], z)
  {
    hide Act, Enabled, Inv, LeftToInit;
    if n < m {
      NeverCollected(ts, acts, n, m - 1, z);
      RunKeepsInv(ts, acts, m - 1);
      StaysLeft(ts[m - 1], acts[m - 1], z);
    }
  }

  // ---------- What a kill comes to ----------

  /** The mark of a kill goes only with the slot, when its process is collected. */
  lemma KilledStays(t: Table, a: Action, p: int)
    requires Inv(t) && Enabled(t, a) && InTable(t, p) && t.procs[p].killed
    ensures InTable(Act(t, a), p) && (Act(t, a).procs[p].killed || (a.Reap? && a.z == p))
  {
    Sizes(t);
    hide Inv;
  }

  /** A process that has been killed is awake at once, and from then on it does not go to sleep in wait
      or join: with nothing to collect its pass ends with -1. */
  lemma {:induction false} KilledGetsOut(ts: seq<Table>, acts: seq<Action>, n: nat, m: nat, p: int)
    requires Run(ts, acts) && n < m < |ts| && acts[n] == Kill(p)
    requires forall i :: n < i < m && acts[i].Reap? ==> acts[i].z != p
    ensures InTable(ts[m], p) && ts[m].procs[p].killed && (m == n + 1 ==> !ts[m].procs[p].state.SLEEPING?)
    ensures m < |acts| && acts[m].Wait? ==> ts[m].cpus[acts[m].c] != p
  {
    if n + 1 == m {
      RunKeepsInv(ts, acts, n);
      Sizes(ts[n]);
      assert ts[m] == Act(ts[n], acts[n]);
    } else {
      hide Act, Enabled;
      KilledGetsOut(ts, acts, n, m - 1, p);
      RunKeepsInv(ts, acts, m - 1);
      KilledStays(ts[m - 1], acts[m - 1], p);
    }
    if m < |acts| && acts[m].Wait? {
      WaitsAlive(ts[m], acts[m]);
    }
  }

  lemma WaitsAlive(t: Table, a: Action)
    requires a.Wait? && Enabled(t, a)
    ensures !t.procs[t.cpus[a.c]].killed
  {
  }

  // ---------- The steps, field by field ----------

  /** What each step makes of the table, slot by slot and field by field. */
  ghost predicate Tells(t: Table, a: Action, u: Table)
    requires Enabled(t, a)
  {
    match a
    case Wake(chan) =>
      && |u.procs| == |t.procs| && u == t.(procs := u.procs)
      && forall i :: 0 <= i < |t.procs| ==> var p := t.procs[i];
           u.procs[i] == if p.state == SLEEPING && p.chan == chan then p.(state := RUNNABLE) else p
    case Alloc(c, s) =>
      var p := t.procs[s];
      u == Table(t.procs[s := Proc(EMBRYO, t.nextpid, p.parent, p.chan, p.killed, false, 1)], t.cpus, t.nextpid + 1, t.init,
                 t.ctl[t.cpus[c] := Forking(s)])
    case GiveUp(c) => TellsSlot(t, t.ctl[t.cpus[c]].child, Child(t, c).(state := UNUSED), t.cpus, t.cpus[c], Elsewhere, u)
    case Fill(c, thread, tickets) =>
      var q, p := t.cpus[c], Child(t, c);
      TellsSlot(t, t.ctl[q].child, Proc(p.state, p.pid, q, p.chan, p.killed, thread, tickets), t.cpus, q, t.ctl[q], u)
    case Publish(c) => TellsSlot(t, t.ctl[t.cpus[c]].child, Child(t, c).(state := RUNNABLE), t.cpus, t.cpus[c], Elsewhere, u)
    case Yield(c) => TellsLeft(t, c, RUNNABLE, t.procs[t.cpus[c]].chan, t.ctl[t.cpus[c]], u)
    case Sleep(c, id) => TellsLeft(t, c, SLEEPING, OtherChan(id), t.ctl[t.cpus[c]], u)
    case Wait(c, thread) => TellsLeft(t, c, SLEEPING, ProcChan(t.cpus[c]), if thread then Joining else Waiting, u)
    case Reap(c, z, _) =>
      var p := t.procs[z];
      TellsSlot(t, z, Proc(UNUSED, 0, -1, p.chan, false, p.isthread, p.tickets), t.cpus, z, t.ctl[z], u)
    case Exit(c) =>
      && |u.procs| == NPROC && u == Table(u.procs, t.cpus[c := -1], t.nextpid, t.init, t.ctl)
      && forall i :: InTable(t, i) ==> TellsExit(t, t.cpus[c], i, u.procs[i])
    case Enter(c, w) =>
      TellsSlot(t, w, t.procs[w].(state := RUNNING, chan := NoChan), t.cpus[c := w], w,
                if t.ctl[w].Waiting? || t.ctl[w].Joining? then Elsewhere else t.ctl[w], u)
    case Kill(p) =>
      var was := t.procs[p];
      TellsSlot(t, p, was.(killed := true, state := if was.state == SLEEPING then RUNNABLE else was.state), t.cpus, p, t.ctl[p], u)
    case SetTickets(c, n) => TellsSlot(t, t.cpus[c], t.procs[t.cpus[c]].(tickets := n), t.cpus, t.cpus[c], t.ctl[t.cpus[c]], u)
  }

  /** Slot s becomes p, the CPUs become cpus, process q gets to ctl, and nothing else changes. */
  ghost predicate TellsSlot(t: Table, s: int, p: Proc, cpus: seq<int>, q: int, ctl: Ctl, u: Table) {
    && 0 <= s < |t.procs| && 0 <= q < |t.ctl|
    && u == Table(t.procs[s := p], cpus, t.nextpid, t.init, t.ctl[q := ctl])
  }

  /** The process on cpu c is off it, in this state. */
  ghost predicate TellsLeft(t: Table, c: int, status: Status, chan: Chan, ctl: Ctl, u: Table)
    requires OnCpu(t, c)
  {
    TellsSlot(t, t.cpus[c], t.procs[t.cpus[c]].(state := status, chan := chan), t.cpus[c := -1], t.cpus[c], ctl, u)
  }

  /** exit of cur: its children pass to init; its parent is woken if it sleeps in wait or join, and init
      too if one of the children is a ZOMBIE. */
  ghost predicate TellsExit(t: Table, cur: int, i: int, q: Proc)
    requires InTable(t, cur) && InTable(t, i)
  {
    var p := t.procs[i];
    q == p.(parent := if p.parent == cur then t.init else p.parent,
            state := if i == cur then ZOMBIE
                     else if p.state == SLEEPING && (p.chan == ProcChan(t.procs[cur].parent)
                                                     || (p.chan == ProcChan(t.init) && HasZombieChild(t, cur))) then RUNNABLE
                     else p.state)
  }

  lemma ExitedIs(t: Table, c: int, i: int)
    requires OnCpu(t, c) && InTable(t, i)
    ensures InTable(Exited(t, c), i) && TellsExit(t, t.cpus[c], i, Exited(t, c).procs[i])
  {
    var cur := t.cpus[c];
    var u := t.(procs := Woken(t.procs, ProcChan(t.procs[cur].parent)));
    SameZombies(t, u, cur);
    hide HasZombieChild;
    assert u.procs[i] == WokenProc(t.procs[i], ProcChan(t.procs[cur].parent));
    assert PassOnAll(u, cur).procs[i] == PassedOn(u.procs[i], cur, t.init, HasZombieChild(t, cur));
    hide Woken, PassOnAll;
  }

  lemma SameZombies(t: Table, u: Table, cur: int)
    requires |u.procs| == |t.procs|
    requires forall z :: 0 <= z < |t.procs| ==>
      u.procs[z].parent == t.procs[z].parent && (u.procs[z].state.ZOMBIE? <==> t.procs[z].state.ZOMBIE?)
    ensures HasZombieChild(u, cur) <==> HasZombieChild(t, cur)
  {
    if z :| 0 <= z < |t.procs| && t.procs[z].parent == cur && t.procs[z].state.ZOMBIE? {
      assert u.procs[z].parent == cur && u.procs[z].state.ZOMBIE?;
    }
  }

  lemma ActTells(t: Table, a: Action)
    requires Enabled(t, a) && |t.procs| == |t.ctl| == NPROC
    ensures Tells(t, a, Act(t, a))
  {
    if a.Exit? {
      var u := Exited(t, a.c);
      forall i | InTable(t, i) ensures InTable(u, i) && TellsExit(t, t.cpus[a.c], i, u.procs[i]) {
        ExitedIs(t, a.c, i);
      }
      assert t.ctl[t.cpus[a.c] := Elsewhere] == t.ctl;
      hide TellsExit;
    } else {
      hide Exited, TellsExit;
    }
  }
}
