/** The process table as an object: each method is a critical section under ptable.lock (from
    acquire to release, across the context switch where there is one), or an unlocked store to a
    slot under construction. Every interleaving of processes and CPUs is a sequence of calls, so
    what every method keeps holds whenever the lock is free. */
module ProcTable {
  import opened ProcState
  import Lottery

  datatype Collected = Got(pid: nat) | NoChild | Slept

  class ProcTable {
    var procs: seq<Proc>
    var cpus: seq<int>
    var nextpid: nat
    var rng: nat
    const init: int
    var ctl: seq<Ctl>     // where each process is in the kernel's code

    ghost function T(): Table
      reads this
    {
      Table(procs, cpus, nextpid, init, ctl)
    }

    ghost predicate Valid()
      reads this
    {
      Inv(T()) && rng < Lottery.MODULUS
    }

    /** After userinit: the first process waits to be run. */
    constructor (ncpu: nat)
      ensures Valid() && Booted(T()) && |cpus| == ncpu
    {
      init, nextpid, rng := 0, 2, 1;
      procs := seq(NPROC, i => Proc(if i == 0 then RUNNABLE else UNUSED, if i == 0 then 1 else 0, -1, NoChan, false, false, 1));
      cpus := seq(ncpu, _ => -1);
      ctl := seq(NPROC, _ => Elsewhere);
      new;
      BootOk(T());
    }

    /** wakeup1. */
    method Wakeup1(chan: Chan)
      requires Valid()
      modifies `procs
      ensures Valid() && procs == Woken(old(procs), chan)
    {
      hide Inv;
      WokenKeepsInv(T(), chan);
      Sizes(T());
      WakeAll(chan);
    }

    /** The loop of wakeup1, on any table. */
    method WakeAll(chan: Chan)
      requires |procs| == NPROC
      modifies `procs
      ensures procs == Woken(old(procs), chan)
    {
      ghost var was := procs;
      var p := 0;
      while p < NPROC
        invariant 0 <= p <= NPROC && |procs| == NPROC
        invariant forall i :: 0 <= i < NPROC ==> procs[i] == if i < p then WokenProc(was[i], chan) else was[i]
        modifies `procs
      {
        if procs[p].state.SLEEPING? && procs[p].chan == chan {
          procs := procs[p := procs[p].(state := RUNNABLE)];
        }
        p := p + 1;
      }
      assert procs == Woken(was, chan);
    }

    /** wakeup, by somebody who does not hold ptable.lock. */
    method Wakeup(id: nat)
      requires Valid()
      modifies `procs
      ensures Valid() && procs == Woken(old(procs), OtherChan(id))
    {
      Wakeup1(OtherChan(id));
    }

    /** The locked part of allocproc, called by fork and clone on cpu c. */
    method AllocProc(c: int) returns (s: int)
      requires Valid() && 0 <= c < |cpus| && Runs(T(), cpus[c]) && ctl[cpus[c]].Elsewhere?
      modifies `procs, `nextpid, `ctl
      ensures Valid()
      ensures s == -1 <==> forall i :: 0 <= i < NPROC ==> !old(procs)[i].state.UNUSED?
      ensures s == -1 ==> T() == old(T())
      ensures s != -1 ==> InTable(old(T()), s) && T() == Allocated(old(T()), cpus[c], s) && old(procs)[s].state.UNUSED?
    {
      hide Inv;
      Sizes(T());
      s := 0;
      while s < NPROC && !procs[s].state.UNUSED?
        invariant 0 <= s <= NPROC && forall i :: 0 <= i < s ==> !procs[i].state.UNUSED?
      {
        s := s + 1;
      }
      if s == NPROC {
        return -1;
      }
      AllocatedKeepsInv(T(), cpus[c], s);
      procs := procs[s := procs[s].(state := EMBRYO, tickets := 1, isthread := false, pid := nextpid)];
      nextpid := nextpid + 1;
      ctl := ctl[cpus[c] := Forking(s)];
    }

    /** kalloc in allocproc, or copyuvm in fork, has failed. */
    method GiveUp(c: int)
      requires Valid() && 0 <= c < |cpus| && Runs(T(), cpus[c]) && ctl[cpus[c]].Forking?
      requires InTable(T(), ctl[cpus[c]].child) && procs[ctl[cpus[c]].child].parent == -1
      modifies `procs, `ctl
      ensures Valid() && T() == Unallocated(old(T()), cpus[c])
    {
      hide Inv;
      var s := ctl[cpus[c]].child;
      UnallocatedKeepsInv(T(), cpus[c]);
      procs := procs[s := procs[s].(state := UNUSED)];
      ctl := ctl[cpus[c] := Elsewhere];
    }

    /** The unlocked stores of fork (which passes its tickets on) and clone (which does not). */
    method Fill(c: int, s: int, thread: bool)
      requires Valid() && 0 <= c < |cpus| && Runs(T(), cpus[c]) && ctl[cpus[c]] == Forking(s) && InTable(T(), s)
      modifies `procs
      ensures Valid()
      ensures T() == Adopted(old(T()), cpus[c], thread,
                             if thread then old(procs)[s].tickets else old(procs)[cpus[c]].tickets)
    {
      TicketsThere(T(), c);
      hide Inv;
      var tickets := if thread then procs[s].tickets else procs[cpus[c]].tickets;
      AdoptedKeepsInv(T(), cpus[c], thread, tickets);
      procs := procs[s := procs[s].(parent := cpus[c], isthread := thread, tickets := tickets)];
    }

    /** The locked part at the end of fork and clone. */
    method Publish(c: int, s: int) returns (pid: nat)
      requires Valid() && 0 <= c < |cpus| && Runs(T(), cpus[c]) && ctl[cpus[c]] == Forking(s) && InTable(T(), s)
      requires procs[s].parent == cpus[c]
      modifies `procs, `ctl
      ensures Valid() && T() == Published(old(T()), cpus[c]) && pid == procs[s].pid
    {
      hide Inv;
      PublishedKeepsInv(T(), cpus[c]);
      pid := procs[s].pid;
      procs := procs[s := procs[s].(state := RUNNABLE)];
      ctl := ctl[cpus[c] := Elsewhere];
    }

    /** yield, to the point where the scheduler releases the lock. */
    method Yield(c: int)
      requires Valid() && 0 <= c < |cpus| && Runs(T(), cpus[c])
      modifies `procs, `cpus
      ensures Valid()
      ensures T() == Left(old(T()), c, RUNNABLE, old(procs[cpus[c]].chan), ctl[old(cpus[c])])
    {
      hide Inv;
      var p := cpus[c];
      LeftKeepsInv(T(), c, RUNNABLE, procs[p].chan, ctl[p]);
      procs := procs[p := procs[p].(state := RUNNABLE)];
      cpus := cpus[c := -1];
      assert ctl[p := ctl[p]] == ctl;
    }

    /** sleep on something that is not a process. */
    method Sleep(c: int, id: nat)
      requires Valid() && 0 <= c < |cpus| && Runs(T(), cpus[c])
      modifies `procs, `cpus
      ensures Valid()
      ensures T() == Left(old(T()), c, SLEEPING, OtherChan(id), ctl[old(cpus[c])])
    {
      hide Inv;
      var p := cpus[c];
      LeftKeepsInv(T(), c, SLEEPING, OtherChan(id), ctl[p]);
      procs := procs[p := procs[p].(chan := OtherChan(id))];
      procs := procs[p := procs[p].(state := SLEEPING)];
      cpus := cpus[c := -1];
      assert ctl[p := ctl[p]] == ctl;
      assert T() == Left(old(T()), c, SLEEPING, OtherChan(id), ctl[p]);
    }

    /** wait (thread == false) and join (thread == true): one pass over the table, which ends by
        returning to the caller or by going to sleep. */
    method Collect(c: int, thread: bool) returns (r: Collected)
      requires Valid() && 0 <= c < |cpus| && Runs(T(), cpus[c]) && ctl[cpus[c]].Elsewhere?
      modifies `procs, `cpus, `ctl
      ensures Valid()
      ensures r.Got? ==> exists z :: Collects(old(T()), old(cpus[c]), z, thread)
                                     && r.pid == old(procs)[z].pid && T() == Reaped(old(T()), z)
      ensures Collecting(old(T()), T(), c, thread)
      ensures !r.Got? ==> NoneToCollect(old(T()), old(cpus[c]), thread)
      ensures r.NoChild? ==> T() == old(T())
      ensures r.NoChild? <==> NoneToCollect(old(T()), old(cpus[c]), thread)
                              && (old(procs[cpus[c]].killed) || !HasChild(old(T()), old(cpus[c]), thread))
      ensures r.Slept? ==> T() == Left(old(T()), c, SLEEPING, ProcChan(old(cpus[c])), if thread then Joining else Waiting)
    {
      hide Inv;
      Sizes(T());
      var cur := cpus[c];
      var havekids := false;
      var p := 0;
      while p < NPROC
        invariant 0 <= p <= NPROC
        invariant havekids <==> exists i :: 0 <= i < p && ChildAt(T(), cur, i, thread)
        invariant forall i :: 0 <= i < p ==> !Collects(T(), cur, i, thread)
      {
        if procs[p].parent == cur && procs[p].isthread == thread {
          assert ChildAt(T(), cur, p, thread);
          havekids := true;
          if procs[p].state.ZOMBIE? {
            assert Collects(T(), cur, p, thread);
            ReapedKeepsInv(T(), p);
            r := Got(procs[p].pid);
            procs := procs[p := procs[p].(pid := 0)];
            procs := procs[p := procs[p].(parent := -1, killed := false, state := UNUSED)];
            assert T() == Reaped(old(T()), p);
            return;
          }
        }
        p := p + 1;
      }
      assert NoneToCollect(T(), cur, thread);
      if !havekids || procs[cur].killed {
        return NoChild;
      }
      LeftKeepsInv(T(), c, SLEEPING, ProcChan(cur), if thread then Joining else Waiting);
      procs := procs[cur := procs[cur].(chan := ProcChan(cur), state := SLEEPING)];
      cpus := cpus[c := -1];
      ctl := ctl[cur := if thread then Joining else Waiting];
      return Slept;
    }

    /** The locked part of exit. */
    method Exit(c: int)
      requires Valid() && 0 <= c < |cpus| && Runs(T(), cpus[c]) && ctl[cpus[c]].Elsewhere?
      requires cpus[c] != init   // "init exiting" panics
      modifies `procs, `cpus, `ctl
      ensures Valid()
      ensures T() == Exited(old(T()), c)
    {
      hide Inv;
      Sizes(T());
      ExitedKeepsInv(T(), c);
      var cur := cpus[c];
      Wakeup1(ProcChan(procs[cur].parent));
      PassOn(cur);
      procs := procs[cur := procs[cur].(state := ZOMBIE)];
      cpus := cpus[c := -1];
      assert ctl[cur := Elsewhere] == ctl;
    }

    /** The loop of exit that passes the children on to init, and wakes init for zombies. */
    method PassOn(cur: int)
      requires Valid() && Runs(T(), cur) && cur != init && ctl[cur].Elsewhere?
      modifies `procs
      ensures Valid()
      ensures T() == PassOnAll(old(T()), cur)
    {
      hide Inv;
      Sizes(T());
      ghost var was := procs;
      PassOnKeepsInv(T(), cur);
      var zombies := false;
      var p := 0;
      while p < NPROC
        invariant 0 <= p <= NPROC && |procs| == NPROC
        invariant zombies <==> exists z :: 0 <= z < p && was[z].parent == cur && was[z].state.ZOMBIE?
        invariant forall i :: 0 <= i < NPROC ==>
            var r := if i < p then ReparentedProc(was[i], cur, init) else was[i];
            procs[i] == if zombies then WokenProc(r, ProcChan(init)) else r
        modifies `procs
      {
        if procs[p].parent == cur {
          procs := procs[p := procs[p].(parent := init)];
          if procs[p].state.ZOMBIE? {
            zombies := true;
            WakeAll(ProcChan(init));      // wakeup1(initproc)
          }
        }
        p := p + 1;
      }
      assert procs == PassOnAll(T().(procs := was), cur).procs;
    }

    /** One turn of the scheduler of cpu c: draw, switch, and what the process chosen then does
        before it releases the lock. */
    method Scheduler(c: int) returns (w: int)
      requires Valid() && 0 <= c < |cpus| && cpus[c] == -1
      requires Lottery.Total(Slots(procs)) < 0x8000_0000
      modifies `procs, `cpus, `ctl, `rng
      ensures Valid()
      ensures w == -1 ==> T() == old(T()) && forall p :: InTable(T(), p) ==> !procs[p].state.RUNNABLE?
      ensures w != -1 ==> rng == Lottery.Krand(old(rng)) && 0 <= w && Lottery.Total(Slots(old(procs))) > 0
                          && Lottery.Holds(Slots(old(procs)), w, rng % Lottery.Total(Slots(old(procs))))
      ensures w != -1 ==> InTable(old(T()), w) && old(procs)[w].state.RUNNABLE?
      ensures w != -1 && !old(ctl)[w].Waiting? && !old(ctl)[w].Joining? ==> T() == Entered(old(T()), c, w)
      ensures w != -1 && (old(ctl)[w].Waiting? || old(ctl)[w].Joining?) ==>
                Collecting(Entered(old(T()), c, w), T(), c, old(ctl)[w].Joining?)
    {
      forall p | 0 <= p < NPROC && procs[p].state.RUNNABLE? ensures procs[p].tickets >= 1 {
        assert Ok(T(), p);
      }
      Sizes(T());
      hide Inv;
      w, rng := Lottery.Draw(Slots(procs), rng);
      if w == -1 {
        return;
      }
      EnteredKeepsInv(T(), c, w);
      ghost var t := Entered(T(), c, w);
      var loop := ctl[w];
      procs := procs[w := procs[w].(state := RUNNING, chan := NoChan)];
      cpus := cpus[c := w];
      ctl := ctl[w := if ctl[w].Forking? then ctl[w] else Elsewhere];
      assert T() == t;
      if loop.Waiting? || loop.Joining? {
        var r := Collect(c, loop.Joining?);
        assert Collecting(t, T(), c, loop.Joining?);
      }
    }

    /** kill: the first slot with this pid is marked, and woken if it sleeps. */
    method Kill(pid: nat) returns (found: bool, ghost p: int)
      requires Valid()
      modifies `procs
      ensures Valid() && |procs| == |old(procs)| == NPROC
      ensures !found ==> procs == old(procs) && forall q :: 0 <= q < NPROC ==> procs[q].pid != pid
      ensures found ==> FirstWith(old(procs), pid, p) && forall q :: 0 <= q < NPROC && q != p ==> procs[q] == old(procs)[q]
      ensures found ==> var was, now := old(procs)[p], procs[p];
        && now.killed && now.state == (if was.state.SLEEPING? then RUNNABLE else was.state)
        && now.pid == was.pid && now.parent == was.parent && now.chan == was.chan
        && now.isthread == was.isthread && now.tickets == was.tickets
      ensures found ==> Enabled(old(T()), ProcState.Kill(p)) && T() == Act(old(T()), ProcState.Kill(p))
    {
      Sizes(T());
      hide Inv;
      var i := 0;
      while i < NPROC
        invariant 0 <= i <= NPROC && procs == old(procs) && forall q :: 0 <= q < i ==> procs[q].pid != pid
      {
        if procs[i].pid == pid {
          KilledKeepsInv(T(), i);
          procs := procs[i := procs[i].(killed := true)];
          if procs[i].state.SLEEPING? {
            procs := procs[i := procs[i].(state := RUNNABLE)];
          }
          assert procs == old(procs)[i := KilledProc(old(procs)[i])];
          return true, i;
        }
        i := i + 1;
      }
      return false, i;
    }

    /** settickets, for the process on cpu c. */
    method SetTickets(c: int, n: int) returns (ok: bool)
      requires Valid() && 0 <= c < |cpus| && Runs(T(), cpus[c])
      modifies `procs
      ensures Valid() && (ok <==> n >= 1)
      ensures procs == if ok then old(procs)[cpus[c] := old(procs)[cpus[c]].(tickets := n)] else old(procs)
    {
      if n < 1 {
        return false;
      }
      TicketsKeepInv(T(), cpus[c], n);
      procs := procs[cpus[c] := procs[cpus[c]].(tickets := n)];
      return true;
    }
  }

  predicate FirstWith(procs: seq<Proc>, pid: nat, p: int) {
    0 <= p < |procs| && procs[p].pid == pid && forall q :: 0 <= q < p ==> procs[q].pid != pid
  }

  /** One pass of wait or join of the process on cpu c has led from t to t'. */
  ghost predicate Collecting(t: Table, t': Table, c: int, thread: bool)
    requires 0 <= c < |t.cpus| && InTable(t, t.cpus[c])
  {
    var cur := t.cpus[c];
    || (exists z :: Collects(t, cur, z, thread) && t' == Reaped(t, z))
    || (NoneToCollect(t, cur, thread)
        && t' == if t.procs[cur].killed || !HasChild(t, cur, thread) then t
                 else Left(t, c, SLEEPING, ProcChan(cur), if thread then Joining else Waiting))
  }

  /** A killed process with nothing to collect gets -1 from its pass, and does not sleep. */
  lemma KilledCollects(t: Table, t': Table, c: int, thread: bool)
    requires 0 <= c < |t.cpus| && InTable(t, t.cpus[c]) && Collecting(t, t', c, thread)
    requires t.procs[t.cpus[c]].killed && NoneToCollect(t, t.cpus[c], thread)
    ensures t' == t
  {
  }

  function Slots(procs: seq<Proc>): (s: seq<Lottery.Slot>)
    ensures |s| == |procs|
    ensures forall i :: 0 <= i < |procs| ==> s[i] == Lottery.Slot(procs[i].state.RUNNABLE?, procs[i].tickets)
  {
    seq(|procs|, i requires 0 <= i < |procs| => Lottery.Slot(procs[i].state.RUNNABLE?, procs[i].tickets))
  }
}
