/** Sleep locks (sleeplock.c) on top of sleep and wakeup (proc.c), as a state machine: any number
    of processes contend for one lock, and every interleaving of their steps is a run. */
module SleepLock {

  /** Where a process is. Spinlock acquisitions, releases and the tests and stores between them
      are separate steps; wakeup1 runs with ptable.lock held and is one step. */
  datatype Pc =
    | Out            // not using the lock
    | WantInner      // acquiresleep, or sleep on its way back: acquire(&lk->lk)
    | Test           // while (lk->locked)
    | WantTable      // sleep: acquire(&ptable.lock), lk->lk held
    | DropInner      // sleep: release(lk), both held
    | GoSleep        // sleep: p->chan = lk; p->state = SLEEPING; sched(), ptable.lock held
    | Asleep         // SLEEPING on lk
    | Woken          // RUNNABLE again
    | Tidy           // back from sched() with ptable.lock held: p->chan = 0, release(&ptable.lock)
    | Taken          // lk->locked = 1 done, lk->lk still held
    | Holding        // the caller's critical section
    | WantRelease    // releasesleep: acquire(&lk->lk)
    | Clear          // lk->locked = 0
    | WantWake       // wakeup: acquire(&ptable.lock), lk->lk held
    | Wake           // wakeup1(lk), both held
    | DropTable      // release(&ptable.lock), both held
    | DropLast       // release(&lk->lk)

  /** Owner of ptable.lock; Elsewhere is a scheduler, or a process busy with something else. */
  datatype Owner = Free | By(p: nat) | Elsewhere

  datatype State = State(pcs: seq<Pc>, inner: Owner, table: Owner, locked: bool, pid: nat)

  /** The pid of process p; 0 stands for no process. */
  function Pid(p: nat): nat { p + 1 }

  function Start(n: nat): State {
    State(seq(n, _ => Out), Free, Free, false, 0)
  }

  /** wakeup1: everybody asleep on the lock becomes RUNNABLE. */
  function WakeAll(pcs: seq<Pc>): (r: seq<Pc>)
    ensures |r| == |pcs|
    ensures forall p :: 0 <= p < |pcs| ==> r[p] == if pcs[p] == Asleep then Woken else pcs[p]
  {
    seq(|pcs|, p requires 0 <= p < |pcs| => if pcs[p] == Asleep then Woken else pcs[p])
  }

  function At(s: State, p: nat, pc: Pc): State
    requires p < |s.pcs|
  {
    s.(pcs := s.pcs[p := pc])
  }

  /** One step of process p. */
  ghost predicate Step(s: State, s': State, p: nat)
    requires p < |s.pcs|
  {
    match s.pcs[p]
    case Out => s' == At(s, p, WantInner)
    case WantInner => s.inner == Free && s' == At(s, p, Test).(inner := By(p))
    case Test =>
      if s.locked then s' == At(s, p, WantTable)
      else s' == At(s, p, Taken).(locked := true, pid := Pid(p))
    case WantTable => s.table == Free && s' == At(s, p, DropInner).(table := By(p))
    case DropInner => s' == At(s, p, GoSleep).(inner := Free)
    case GoSleep => s' == At(s, p, Asleep).(table := Elsewhere)     // sched: the scheduler holds it now
    case Asleep => false
    case Woken => s.table == Free && s' == At(s, p, Tidy).(table := By(p))   // picked by a scheduler
    case Tidy => s' == At(s, p, WantInner).(table := Free)
    case Taken => s' == At(s, p, Holding).(inner := Free)
    case Holding => s' == At(s, p, WantRelease)
    case WantRelease => s.inner == Free && s' == At(s, p, Clear).(inner := By(p))
    case Clear => s' == At(s, p, WantWake).(locked := false, pid := 0)
    case WantWake => s.table == Free && s' == At(s, p, Wake).(table := By(p))
    case Wake => s' == At(s, p, DropTable).(pcs := WakeAll(s.pcs)[p := DropTable])
    case DropTable => s' == At(s, p, DropLast).(table := Free)
    case DropLast => s' == At(s, p, Out).(inner := Free)
  }

  /** Everything else in the kernel: ptable.lock is taken and released for other reasons, and
      kill makes a sleeping process RUNNABLE. */
  ghost predicate Environment(s: State, s': State) {
    || (s.table == Free && s' == s.(table := Elsewhere))
    || (s.table == Elsewhere && s' == s.(table := Free))
    || (s.table == Elsewhere && exists p :: 0 <= p < |s.pcs| && s.pcs[p] == Asleep && s' == At(s, p, Woken))
  }

  ghost predicate Next(s: State, s': State) {
    Environment(s, s') || exists p :: 0 <= p < |s.pcs| && Step(s, s', p)
  }

  ghost predicate Run(states: seq<State>) {
    && |states| > 0 && states[0] == Start(|states[0].pcs|)
    && forall i {:trigger states[i]} :: 0 < i < |states| ==> Next(states[i - 1], states[i])
  }

  // ---------- The invariant ----------

  predicate HoldsInner(pc: Pc) {
    (pc.Test? || pc.WantTable? || pc.DropInner? || pc.Taken? || pc.Clear? || pc.WantWake? || pc.Wake? || pc.DropTable? || pc.DropLast?)
  }

  predicate HoldsTable(pc: Pc) { (pc.DropInner? || pc.GoSleep? || pc.Tidy? || pc.Wake? || pc.DropTable?) }

  predicate HoldsLock(pc: Pc) { (pc.Taken? || pc.Holding? || pc.WantRelease? || pc.Clear?) }

  /** Asleep on the lock, or past the point of no return. */
  predicate Sleeps(pc: Pc) { (pc.GoSleep? || pc.Asleep?) }

  /** Has cleared the lock and not yet woken the sleepers. */
  predicate AboutToWake(pc: Pc) { (pc.WantWake? || pc.Wake?) }

  /** Has seen the lock taken and still holds lk->lk. */
  predicate SawLocked(pc: Pc) { pc.WantTable? || pc.DropInner? }

  ghost predicate Inv(s: State) {
    && s.inner != Elsewhere && (s.inner.By? ==> s.inner.p < |s.pcs|) && (s.table.By? ==> s.table.p < |s.pcs|)
    && (s.locked ==> 0 < s.pid <= |s.pcs|) && (!s.locked ==> s.pid == 0)
    && forall p :: 0 <= p < |s.pcs| ==> Ok(s, p)
  }

  /** What the invariant says about process p. */
  ghost predicate Ok(s: State, p: nat)
    requires p < |s.pcs|
  {
    && (HoldsInner(s.pcs[p]) <==> s.inner == By(p))
    && (HoldsTable(s.pcs[p]) <==> s.table == By(p))
    && (HoldsLock(s.pcs[p]) <==> s.locked && s.pid == Pid(p))
    && (SawLocked(s.pcs[p]) ==> s.locked)
    && (Sleeps(s.pcs[p]) ==> s.locked || WakerComing(s))
  }

  ghost predicate WakerComing(s: State) {
    s.inner.By? && s.inner.p < |s.pcs| && AboutToWake(s.pcs[s.inner.p])
  }

  lemma StepKeepsInv(s: State, s': State, p: nat)
    requires Inv(s) && p < |s.pcs| && Step(s, s', p)
    ensures Inv(s') && |s'.pcs| == |s.pcs|
  {
    assert Ok(s, p);
    forall q | 0 <= q < |s.pcs| ensures Ok(s', q) {
      StepKeepsOk(s, s', p, q);
    }
  }

  lemma StepKeepsOk(s: State, s': State, p: nat, q: nat)
    requires Inv(s) && p < |s.pcs| == |s'.pcs| && Step(s, s', p) && q < |s.pcs|
    ensures Ok(s', q)
  {
    StepKeepsInner(s, s', p, q);
    StepKeepsTable(s, s', p, q);
    StepKeepsHolder(s, s', p, q);
    StepKeepsSleepers(s, s', p, q);
  }

  lemma StepKeepsInner(s: State, s': State, p: nat, q: nat)
    requires p < |s.pcs| == |s'.pcs| && Step(s, s', p) && q < |s.pcs| && Ok(s, p) && Ok(s, q)
    ensures HoldsInner(s'.pcs[q]) <==> s'.inner == By(q)
  {
  }

  lemma StepKeepsTable(s: State, s': State, p: nat, q: nat)
    requires p < |s.pcs| == |s'.pcs| && Step(s, s', p) && q < |s.pcs| && Ok(s, p) && Ok(s, q)
    ensures HoldsTable(s'.pcs[q]) <==> s'.table == By(q)
  {
  }

  lemma StepKeepsHolder(s: State, s': State, p: nat, q: nat)
    requires p < |s.pcs| == |s'.pcs| && Step(s, s', p) && q < |s.pcs| && Ok(s, p) && Ok(s, q)
    requires !s.locked ==> s.pid == 0
    ensures HoldsLock(s'.pcs[q]) <==> s'.locked && s'.pid == Pid(q)
    ensures SawLocked(s'.pcs[q]) ==> s'.locked
  {
  }

  /** The step that matters: who clears the lock holds lk->lk until it has woken the sleepers, and
      a process between seeing the lock taken and SLEEPING keeps wakeup1 out with ptable.lock. */
  lemma StepKeepsSleepers(s: State, s': State, p: nat, q: nat)
    requires p < |s.pcs| == |s'.pcs| && Step(s, s', p) && q < |s.pcs| && Ok(s, p) && Ok(s, q)
    requires WakerComing(s) ==> Ok(s, s.inner.p)
    ensures Sleeps(s'.pcs[q]) ==> s'.locked || WakerComing(s')
  {
  }

  lemma EnvironmentKeepsInv(s: State, s': State)
    requires Inv(s) && Environment(s, s')
    ensures Inv(s') && |s'.pcs| == |s.pcs|
  {
    forall q | 0 <= q < |s.pcs| ensures Ok(s', q) {
      assert Ok(s, q);
    }
  }

  lemma {:induction false} RunKeepsInv(states: seq<State>)
    requires Run(states)
    ensures Inv(states[|states| - 1])
  {
    if |states| > 1 {
      var front := states[..|states| - 1];
      assert forall i :: 0 < i < |front| ==> front[i] == states[i];
      RunKeepsInv(front);
      var s, s' := states[|states| - 2], states[|states| - 1];
      assert Next(s, states[|front|]);
      if !Environment(s, s') {
        var p :| 0 <= p < |s.pcs| && Step(s, s', p);
        StepKeepsInv(s, s', p);
      } else {
        EnvironmentKeepsInv(s, s');
      }
    }
  }

  /** In every run at most one process holds the lock, and holdingsleep answers exactly for it. */
  lemma MutualExclusion(states: seq<State>, p: nat, q: nat)
    requires Run(states)
    requires var s := states[|states| - 1]; p < |s.pcs| && q < |s.pcs|
    ensures var s := states[|states| - 1];
      && (HoldsLock(s.pcs[p]) && HoldsLock(s.pcs[q]) ==> p == q)
      && (HoldsLock(s.pcs[p]) <==> HoldingSleep(s, p))
  {
    RunKeepsInv(states);
    assert Ok(states[|states| - 1], p) && Ok(states[|states| - 1], q);
  }

  /** holdingsleep, called by process p. */
  predicate HoldingSleep(s: State, p: nat) { s.locked && s.pid == Pid(p) }

  /** No lost wakeup: while the lock is free and nobody is in the middle of changing it, nobody
      sleeps on it or has committed to sleeping on it. */
  lemma NoLostWakeup(states: seq<State>, p: nat)
    requires Run(states)
    requires var s := states[|states| - 1]; p < |s.pcs| && s.inner == Free && !s.locked
    ensures !Sleeps(states[|states| - 1].pcs[p])
  {
    RunKeepsInv(states);
    assert Ok(states[|states| - 1], p);
  }

  /** No deadlock: unless everybody is done with the lock, or ptable.lock is in use elsewhere, some
      process that is not done with it can take its next step; so not all can be asleep on it. */
  lemma NoDeadlock(states: seq<State>, p: nat) returns (q: nat, next: State)
    requires Run(states)
    requires var s := states[|states| - 1]; p < |s.pcs| && s.pcs[p] != Out && s.table != Elsewhere
    ensures var s := states[|states| - 1]; q < |s.pcs| && s.pcs[q] != Out && Step(s, next, q)
  {
    RunKeepsInv(states);
    var s := states[|states| - 1];
    q := Mover(s, p);
    next := Moved(s, q);
  }

  /** Who can go on: the owner of ptable.lock, else that of lk->lk, else who holds the sleep lock, if
      p sleeps on it, or p itself. */
  lemma Mover(s: State, p: nat) returns (q: nat)
    requires Inv(s) && p < |s.pcs| && s.pcs[p] != Out && s.table != Elsewhere
    ensures q < |s.pcs| && s.pcs[q] != Out && Ready(s, q)
  {
    assert Ok(s, p);
    q := if s.table.By? then s.table.p else if s.inner.By? then s.inner.p else if s.pcs[p] == Asleep then s.pid - 1 else p;
    assert Ok(s, q);
  }

  /** The spinlock that the next step of q acquires, if any, is free. */
  predicate Ready(s: State, q: nat)
    requires q < |s.pcs|
  {
    match s.pcs[q]
    case WantInner => s.inner == Free
    case WantRelease => s.inner == Free
    case WantTable => s.table == Free
    case Woken => s.table == Free
    case WantWake => s.table == Free
    case Asleep => false
    case _ => true
  }

  lemma Moved(s: State, q: nat) returns (s': State)
    requires q < |s.pcs| && Ready(s, q)
    ensures Step(s, s', q)
  {
    var pc := s.pcs[q];
    s' := At(s, q,
      match pc
      case Out => WantInner
      case WantInner => Test
      case Test => if s.locked then WantTable else Taken
      case WantTable => DropInner
      case DropInner => GoSleep
      case GoSleep => Asleep
      case Asleep => Asleep
      case Woken => Tidy
      case Tidy => WantInner
      case Taken => Holding
      case Holding => WantRelease
      case WantRelease => Clear
      case Clear => WantWake
      case WantWake => Wake
      case Wake => DropTable
      case DropTable => DropLast
      case DropLast => Out);
    if pc.WantInner? || pc.WantRelease? {
      s' := s'.(inner := By(q));
    } else if pc.WantTable? || pc.Woken? || pc.WantWake? {
      s' := s'.(table := By(q));
    } else if pc.DropInner? || pc.Taken? || pc.DropLast? {
      s' := s'.(inner := Free);
    } else if pc.Tidy? || pc.DropTable? {
      s' := s'.(table := Free);
    } else if pc.GoSleep? {
      s' := s'.(table := Elsewhere);
    } else if pc.Test? && !s.locked {
      s' := s'.(locked := true, pid := Pid(q));
    } else if pc.Clear? {
      s' := s'.(locked := false, pid := 0);
    } else if pc.Wake? {
      s' := s'.(pcs := WakeAll(s.pcs)[q := DropTable]);
    }
  }
}
