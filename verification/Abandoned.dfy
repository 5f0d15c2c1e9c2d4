/** A run of the process table that leaves a dead thread to init. */
module Abandoned {
  import opened ProcState

  const FRESH := Proc(UNUSED, 0, -1, NoChan, false, false, 1)

  /** The slots that are in use, on three CPUs. */
  datatype Three<T> = Three(a: T, b: T, c: T)

  function Of<T>(x: Three<T>, i: int, rest: T): T { if i == 0 then x.a else if i == 1 then x.b else if i == 2 then x.c else rest }

  function Tab(procs: Three<Proc>, cpus: Three<int>, nextpid: nat, ctl: Three<Ctl>): (t: Table)
    ensures |t.procs| == |t.ctl| == NPROC && |t.cpus| == 3
  {
    Table(seq(NPROC, i => Of(procs, i, FRESH)), [cpus.a, cpus.b, cpus.c], nextpid, 0, seq(NPROC, i => Of(ctl, i, Elsewhere)))
  }

  function Init(state: Status): Proc { Proc(state, 1, -1, NoChan, false, false, 1) }

  function Kid(state: Status, parent: int): Proc { Proc(state, 2, parent, NoChan, false, false, 1) }

  function Thread(state: Status, parent: int, thread: bool): Proc { Proc(state, 3, parent, NoChan, false, thread, 1) }

  const IDLE := Three(Elsewhere, Elsewhere, Elsewhere)

  /** init forks a child, the child clones a thread, the thread exits, and then the child. */
  function Story(n: nat): Table {
    var up, kid, dead := Init(RUNNING), Kid(RUNNING, 0), Thread(ZOMBIE, 1, true);
    if n == 0 then Tab(Three(Init(RUNNABLE), FRESH, FRESH), Three(-1, -1, -1), 2, IDLE)
    else if n == 1 then Tab(Three(up, FRESH, FRESH), Three(0, -1, -1), 2, IDLE)
    else if n == 2 then Tab(Three(up, Kid(EMBRYO, -1), FRESH), Three(0, -1, -1), 3, IDLE.(a := Forking(1)))
    else if n == 3 then Tab(Three(up, Kid(EMBRYO, 0), FRESH), Three(0, -1, -1), 3, IDLE.(a := Forking(1)))
    else if n == 4 then Tab(Three(up, Kid(RUNNABLE, 0), FRESH), Three(0, -1, -1), 3, IDLE)
    else if n == 5 then Tab(Three(up, kid, FRESH), Three(0, 1, -1), 3, IDLE)
    else if n == 6 then Tab(Three(up, kid, Thread(EMBRYO, -1, false)), Three(0, 1, -1), 4, IDLE.(b := Forking(2)))
    else if n == 7 then Tab(Three(up, kid, Thread(EMBRYO, 1, true)), Three(0, 1, -1), 4, IDLE.(b := Forking(2)))
    else if n == 8 then Tab(Three(up, kid, Thread(RUNNABLE, 1, true)), Three(0, 1, -1), 4, IDLE)
    else if n == 9 then Tab(Three(up, kid, Thread(RUNNING, 1, true)), Three(0, 1, 2), 4, IDLE)
    else if n == 10 then Tab(Three(up, kid, dead), Three(0, 1, -1), 4, IDLE)
    else Tab(Three(up, Kid(ZOMBIE, 0), Thread(ZOMBIE, 0, true)), Three(0, -1, -1), 4, IDLE)
  }

  function Deed(n: nat): Action {
    if n == 0 then Enter(0, 0) else if n == 1 then Alloc(0, 1) else if n == 2 then Fill(0, false, 1)
    else if n == 3 then Publish(0) else if n == 4 then Enter(1, 1) else if n == 5 then Alloc(1, 2)
    else if n == 6 then Fill(1, true, 1) else if n == 7 then Publish(1) else if n == 8 then Enter(2, 2)
    else if n == 9 then Exit(2) else Exit(1)
  }

  ghost predicate Happens(n: nat) {
    Enabled(Story(n), Deed(n)) && Story(n + 1) == Act(Story(n), Deed(n))
  }

  lemma InitForks()
    ensures Happens(0) && Happens(1) && Happens(2) && Happens(3)
  {
  }

  lemma ChildClones()
    ensures Happens(4) && Happens(5) && Happens(6) && Happens(7)
  {
  }

  lemma ThreadExits()
    ensures Happens(8) && Happens(9)
  {
  }

  lemma ChildExits()
    ensures Happens(10)
  {
  }

  /** At the end of this run init, which only waits, has a dead thread. */
  lemma ThreadLeft() returns (ts: seq<Table>, acts: seq<Action>)
    ensures Run(ts, acts) && |ts| == 12 && LeftToInit(ts[11], 2)
  {
    hide *;
    ts, acts := seq(12, n requires 0 <= n => Story(n)), seq(11, n requires 0 <= n => Deed(n));
    StoryEnds();
    AllHappen();
    RunOf(ts, acts);
  }

  lemma StoryEnds()
    ensures Booted(Story(0)) && LeftToInit(Story(11), 2)
  {
  }

  lemma AllHappen()
    ensures forall n: nat :: n < 11 ==> Happens(n)
  {
    hide *;
    InitForks();
    ChildClones();
    ThreadExits();
    ChildExits();
    forall n: nat | n < 11 ensures Happens(n) {
      assert n in {0, 1, 2, 3, 4, 5, 6, 7, 8, 9, 10};
    }
  }

  lemma RunOf(ts: seq<Table>, acts: seq<Action>)
    requires |ts| == 12 && |acts| == 11 && Booted(ts[0])
    requires (forall n: nat :: n < 12 ==> ts[n] == Story(n)) && (forall n: nat :: n < 11 ==> acts[n] == Deed(n) && Happens(n))
    ensures Run(ts, acts)
  {
    hide Story, Deed, Enabled, Act, Booted;
    forall i: nat | i < 11 ensures Enabled(ts[i], acts[i]) && ts[i + 1] == Act(ts[i], acts[i]) {
      assert Happens(i);
    }
  }
}
