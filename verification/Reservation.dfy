/** Log space set aside for the file system calls in progress. */
module Reservation {
  import opened Blocks

  /** For each call in progress, how many log blocks it has used so far. */
  type Ops = map<nat, nat>

  /** Log blocks promised to calls in progress and not yet used. */
  ghost function Unused(ops: Ops): nat
    requires WithinBudget(ops)
    decreases |ops|
  {
    if ops == map[] then 0
    else var op :| op in ops; MAXOPBLOCKS - ops[op] + Unused(ops - {op})
  }

  ghost predicate WithinBudget(ops: Ops) {
    forall op :: op in ops ==> ops[op] <= MAXOPBLOCKS
  }

  /** The sum does not depend on the order in which the calls are taken. */
  lemma {:induction false} UnusedSplit(ops: Ops, op: nat)
    requires WithinBudget(ops) && op in ops
    ensures Unused(ops) == MAXOPBLOCKS - ops[op] + Unused(ops - {op})
    decreases |ops|
  {
    var o :| o in ops && Unused(ops) == MAXOPBLOCKS - ops[o] + Unused(ops - {o});
    if o != op {
      UnusedSplit(ops - {o}, op);
      UnusedSplit(ops - {op}, o);
      assert ops - {o} - {op} == ops - {op} - {o};
    }
  }

  lemma UnusedUpdate(ops: Ops, op: nat, used: nat)
    requires WithinBudget(ops) && used <= MAXOPBLOCKS
    ensures op !in ops ==> Unused(ops[op := used]) == Unused(ops) + MAXOPBLOCKS - used
    ensures op in ops ==> Unused(ops[op := used]) == Unused(ops) + ops[op] - used
  {
    var after := ops[op := used];
    UnusedSplit(after, op);
    if op in ops {
      UnusedSplit(ops, op);
      assert after - {op} == ops - {op};
    } else {
      assert after - {op} == ops;
    }
  }

  lemma {:induction false} UnusedBound(ops: Ops)
    requires WithinBudget(ops)
    ensures Unused(ops) <= MAXOPBLOCKS * |ops|
    decreases |ops|
  {
    if ops != map[] {
      var op :| op in ops;
      UnusedSplit(ops, op);
      UnusedBound(ops - {op});
    }
  }

  /** Where log_write panics, n blocks being in a log of size blocks: "too big a transaction". */
  predicate Refuses(n: nat, size: nat) { n >= LOGSIZE || n >= size - 1 }

  /** What begin_op has made sure of for the calls in progress, with n blocks in the log. */
  ghost predicate Budgeted(ops: Ops, n: nat) {
    WithinBudget(ops) && n + Unused(ops) <= LOGSIZE
  }

  /** A call op that writes a block new to the log, of which it has reserved one more. */
  ghost predicate Entitled(ops: Ops, n: nat, op: nat) {
    Budgeted(ops, n) && op in ops && ops[op] < MAXOPBLOCKS
  }

  /** No write that is paid for is refused if and only if the log has more than LOGSIZE blocks;
      mkfs makes it LOGSIZE. */
  lemma RoomForNew(size: nat)
    ensures (forall ops: Ops, n: nat, op: nat :: Entitled(ops, n, op) ==> !Refuses(n, size)) <==> size > LOGSIZE
  {
    forall ops: Ops, n: nat, op: nat | Entitled(ops, n, op) ensures n < LOGSIZE {
      UnusedSplit(ops, op);
    }
    AllButOne();
  }

  /** A write that is absorbed takes no room, and the log may be full: with n blocks in it none is
      refused if and only if n is below both bounds, whatever the size. */
  lemma RoomForAbsorbed(size: nat, n: nat)
    requires n <= LOGSIZE
    ensures (forall ops: Ops, op: nat :: Budgeted(ops, n) && op in ops ==> !Refuses(n, size)) <==> n < LOGSIZE && n < size - 1
  {
    UnusedSplit(map[1 := 10], 1);
    assert map[1 := 10] - {1} == map[];
    assert Budgeted(map[1 := 10], n);
  }

  /** Three calls that have written all of their share but one block. */
  lemma AllButOne()
    ensures Entitled(map[1 := 10, 2 := 10, 3 := 9], 29, 3)
  {
    var ops: Ops := map[1 := 10, 2 := 10, 3 := 9];
    UnusedSplit(ops, 1);
    assert ops - {1} == map[2 := 10, 3 := 9];
    UnusedSplit(map[2 := 10, 3 := 9], 2);
    assert map[2 := 10, 3 := 9] - {2} == map[3 := 9];
    UnusedSplit(map[3 := 9], 3);
    assert map[3 := 9] - {3} == map[];
  }
}
