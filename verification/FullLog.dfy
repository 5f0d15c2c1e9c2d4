/** log_write at work in a log that is full, or nearly: runs of the log that end in its panic. */
module FullLog {
  import opened Blocks
  import opened BufferCache
  import opened LogImages
  import opened Reservation
  import opened Commit
  import L = Log

  const START: nat := 2
  const ME: nat := 4              // the process that boots

  /** The home block that the i-th write goes to, behind the log. */
  function Home(size: nat, i: nat): nat { START + size + i }

  function Homes(size: nat, k: nat): (bs: seq<nat>)
    ensures |bs| == k && forall i :: 0 <= i < k ==> bs[i] == Home(size, i)
  {
    seq(k, i requires 0 <= i => Home(size, i))
  }

  /** The calls 1, 2 and 3 write ten blocks each, one after the other. */
  function Writer(i: nat): nat { 1 + i / MAXOPBLOCKS }

  function Share(op: nat, k: nat): nat
    requires op >= 1
  {
    var n := k - MAXOPBLOCKS * (op - 1);
    if n < 0 then 0 else if n > MAXOPBLOCKS then MAXOPBLOCKS else n
  }

  function OpsAt(k: nat): (ops: Ops)
    ensures ops.Keys == {1, 2, 3} && forall op :: op in ops ==> ops[op] == Share(op, k)
  {
    map[1 := Share(1, k), 2 := Share(2, k), 3 := Share(3, k)]
  }

  /** Three calls are open, and have written k blocks in all; nobody holds a buffer. */
  ghost predicate Filled(log: L.Log, size: nat, k: nat)
    reads log, log.cache
  {
    && log.Valid() && log.start == START && log.size == size && |log.cache.disk| == Home(size, LOGSIZE)
    && log.lh == Homes(size, k) && log.ops == OpsAt(k) && !log.committing
    && log.cache.waiting == map[] && Idle(log.cache.buf)
  }

  /** Boot from an empty disk with a log of size blocks, and begin_op three times. */
  method Open(size: nat) returns (log: L.Log)
    requires 0 < size < 0x8000_0000
    ensures fresh(log) && fresh(log.cache) && Filled(log, size, 0)
  {
    hide *;
    var disk := EmptyDisk(size);
    EmptyIs(size);
    log := new L.Log(ME, disk, START, size);
    Start(log, size);
  }

  /** begin_op, by each of the three. */
  method Start(log: L.Log, size: nat)
    requires log.Valid() && log.lh == [] && log.ops == map[] && log.outstanding == 0 && !log.committing
    requires log.start == START && log.size == size && |log.cache.disk| == Home(size, LOGSIZE)
    requires log.cache.waiting == map[] && Idle(log.cache.buf)
    modifies log
    ensures Filled(log, size, 0)
  {
    hide *;
    RoomForThree(log.ops, log.lh, size);
    var _ := log.BeginOp(1);
    var _ := log.BeginOp(2);
    var _ := log.BeginOp(3);
    FilledNow(log, size, 0);
  }

  function EmptyDisk(size: nat): Image { seq(Home(size, LOGSIZE), _ => ZeroBlock()) }

  lemma EmptyIs(size: nat)
    requires 0 < size < 0x8000_0000
    ensures LogOk(EmptyDisk(size), START, size) && |Recovered(EmptyDisk(size), START, size)| == Home(size, LOGSIZE)
    ensures |EmptyDisk(size)| <= 0x1_0000_0000 && ME != 0
  {
    EmptyLog(EmptyDisk(size), START, size);
  }

  lemma RoomForThree(ops: Ops, lh: seq<nat>, size: nat)
    requires ops == map[] && lh == []
    ensures 0 < 3 * MAXOPBLOCKS <= LOGSIZE && Homes(size, 0) == [] && ops[1 := 0][2 := 0][3 := 0] == OpsAt(0)
  {
  }

  lemma FilledGives(log: L.Log, size: nat, k: nat)
    requires Filled(log, size, k)
    ensures log.Valid() && log.stage.Quiet? && Coherent(log.cache.buf, log.cache.disk) && Counted(log.cache.buf, map[])
    ensures PinnedAs(log.lh, Dirty(log.cache.buf)) && |log.lh| == k && |log.cache.buf| == NBUF + 1 && log.cache.waiting == map[] && Idle(log.cache.buf)
    ensures Budgeted(log.ops, |log.lh|)
    ensures log.start == START && log.size == size && log.lh == Homes(size, k) && log.ops == OpsAt(k) && !log.committing
    ensures |log.cache.disk| == Home(size, LOGSIZE) && forall op :: 1 <= op <= 3 ==> log.Outside(op) && op in log.ops
  {
    hide L.Log.Valid, Coherent, Counted, PinnedAs, Idle, Budgeted;
    BetweenCommits(log);
  }

  lemma BetweenCommits(log: L.Log)
    requires log.Valid() && !log.committing
    ensures log.stage.Quiet? && Coherent(log.cache.buf, log.cache.disk) && Counted(log.cache.buf, log.cache.waiting)
    ensures PinnedAs(log.lh, Dirty(log.cache.buf)) && Budgeted(log.ops, |log.lh|) && |log.cache.buf| == NBUF + 1
  {
    hide Coherent, View, Dirty, Explains, HandsOk, Agrees, Counted, PinnedAs, Budgeted, BlocksOk;
  }

  /** There is a buffer for a logged block, and for one more as long as not all are pinned. */
  lemma FindsRoom(bufs: seq<Buf>, disk: Image, lh: seq<nat>, bn: nat)
    requires Coherent(bufs, disk) && Idle(bufs) && PinnedAs(lh, Dirty(bufs)) && (bn in lh || |lh| < NBUF)
    ensures Present(bufs, ROOTDEV, bn) || !NoneUnused(bufs)
  {
    if bn in lh {
      assert bn in Dirty(bufs);
      var j :| 0 <= j < NBUF && DirtyAt(bufs, j) && bufs[j].blockno == bn;
      assert Holds(bufs[j], ROOTDEV, bn);
    } else {
      PinnedTail(lh, Dirty(bufs));
      UnusedExists(bufs, disk, {});
    }
  }

  /** Buffer b, and no other, is in use, by op. */
  ghost predicate OnlyUsed(bufs: seq<Buf>, b: nat, op: nat, bn: nat) {
    && b < NBUF && |bufs| == NBUF + 1 && Holds(bufs[b], ROOTDEV, bn)
    && bufs[b].holder == op && bufs[b].valid && bufs[b].refcnt == 1
    && forall j :: 0 <= j < NBUF && j != b ==> bufs[j].refcnt == 0
  }

  /** bread, of a block that is in the log or for which there is a buffer. */
  method Bread(log: L.Log, size: nat, k: nat, op: nat, bn: nat) returns (b: nat)
    requires Filled(log, size, k) && 1 <= op <= 3 && bn < Home(size, LOGSIZE) && (bn in log.lh || k < LOGSIZE)
    modifies log.cache
    ensures log.Valid() && OnlyUsed(log.cache.buf, b, op, bn)
    ensures log.cache.waiting == map[] && |log.cache.disk| == old(|log.cache.disk|)
  {
    hide *;
    FilledGives(log, size, k);
    Constants();
    ghost var bufs := log.cache.buf;
    FindsRoom(bufs, log.cache.disk, log.lh, bn);
    var r := log.Bget(op, ROOTDEV, bn);
    b := r.value;
    GotIdle(bufs, log.cache.ring, ROOTDEV, bn, b, log.cache.buf);
    ghost var got := log.cache.buf;
    r := log.Acquire(op, b);
    assert log.cache.waiting == map[];
    NowHeld(got, b, op, bn, log.cache.disk, log.cache.buf);
  }

  lemma Constants()
    ensures LOGSIZE == NBUF && ROOTDEV == 1
  {
  }

  lemma NowHeld(got: seq<Buf>, b: nat, op: nat, bn: nat, disk: Image, bufs: seq<Buf>)
    requires |got| == NBUF + 1 && b < NBUF && got[b].dev == ROOTDEV && got[b].blockno == bn && got[b].refcnt == 1 && bn < |disk|
    requires forall j :: 0 <= j < NBUF && j != b ==> got[j].refcnt == 0
    requires bufs == got[b := Acquired(got[b], op, disk)]
    ensures OnlyUsed(bufs, b, op, bn)
  {
    AcquiredIs(got[b], op, disk);
  }

  /** One write of a call: bread, log_write and brelse. */
  method Write(log: L.Log, size: nat, k: nat)
    requires Filled(log, size, k) && !Refuses(k, size)
    modifies log, log.cache
    ensures Filled(log, size, k + 1)
  {
    hide *;
    FilledGives(log, size, k);
    NextWrite(size, k);
    var op, bn := Writer(k), Home(size, k);
    var b := Bread(log, size, k, op, bn);
    UsedGives(log.cache.buf, b, op, bn);
    ghost var bufs := log.cache.buf;
    var r := log.LogWrite(op, b);
    PinnedSettled(bufs[b], log.cache.disk);
    ghost var pinned := log.cache.buf;
    log.Release(op, b);
    ghost var released := log.cache.buf;
    ValidMid(log);
    log.Unref(b);
    NobodyHolds(bufs, b, op, bn, pinned, released, log.cache.buf);
    FilledNow(log, size, k + 1);
  }

  lemma NextWrite(size: nat, k: nat)
    requires !Refuses(k, size)
    ensures k < LOGSIZE && 1 <= Writer(k) <= 3 && Home(size, k) < Home(size, LOGSIZE) && Homes(size, k) + [Home(size, k)] == Homes(size, k + 1)
    ensures Home(size, k) !in Homes(size, k) && !InLog(START, size, Home(size, k))
    ensures Writer(k) in OpsAt(k) && OpsAt(k)[Writer(k)] < MAXOPBLOCKS
    ensures OpsAt(k)[Writer(k) := OpsAt(k)[Writer(k)] + 1] == OpsAt(k + 1)
  {
  }

  lemma UsedGives(bufs: seq<Buf>, b: nat, op: nat, bn: nat)
    requires OnlyUsed(bufs, b, op, bn)
    ensures b < NBUF < |bufs| && bufs[b].holder == op && bufs[b].valid && bufs[b].blockno == bn
  {
  }

  lemma ValidMid(log: L.Log)
    requires log.Valid()
    ensures log.Mid()
  {
    hide L.Log.Mid;
  }

  lemma PinnedSettled(b: Buf, disk: Image)
    ensures var p := b.(dirty := true); Settled(p, disk) && Released(p).leaving > 0
  {
  }

  lemma NobodyHolds(bufs: seq<Buf>, b: nat, op: nat, bn: nat, pinned: seq<Buf>, released: seq<Buf>, left: seq<Buf>)
    requires OnlyUsed(bufs, b, op, bn) && pinned == bufs[b := bufs[b].(dirty := true)]
    requires released == pinned[b := Released(pinned[b])] && SameButLinks(released[b := Unreferenced(released[b])], left)
    ensures Idle(left)
  {
  }

  lemma FilledNow(log: L.Log, size: nat, k: nat)
    requires log.Valid() && log.start == START && log.size == size && |log.cache.disk| == Home(size, LOGSIZE)
    requires log.lh == Homes(size, k) && log.ops == OpsAt(k) && !log.committing
    requires log.cache.waiting == map[] && Idle(log.cache.buf)
    ensures Filled(log, size, k)
  {
    hide L.Log.Valid, Idle;
  }

  lemma AcquiredIs(b: Buf, op: nat, disk: Image)
    requires b.blockno < |disk|
    ensures var a := Acquired(b, op, disk); a.holder == op && a.valid && a.refcnt == b.refcnt && Holds(a, b.dev, b.blockno)
  {
  }

  /** Boot, three times begin_op, and k writes. */
  method Fill(size: nat, k: nat) returns (log: L.Log)
    requires k < size < 0x8000_0000 && k <= LOGSIZE
    ensures fresh(log) && fresh(log.cache) && Filled(log, size, k)
  {
    hide Filled, L.Log.Valid;
    log := Open(size);
    var i := 0;
    while i < k
      invariant i <= k && fresh(log) && fresh(log.cache) && Filled(log, size, i)
    {
      Write(log, size, i);
      i := i + 1;
    }
  }

  /** The log is in order, and call op holds buffer b, whose block is in the log or not. */
  ghost predicate InHand(log: L.Log, op: nat, b: nat, logged: bool)
    reads log, log.cache
  {
    && log.Valid() && op in log.ops && b < NBUF < |log.cache.buf| && log.cache.buf[b].holder == op
    && (log.cache.buf[b].blockno in log.lh <==> logged)
  }

  lemma InHandIs(log: L.Log, op: nat, b: nat, bn: nat)
    requires log.Valid() && op in log.ops && OnlyUsed(log.cache.buf, b, op, bn)
    ensures InHand(log, op, b, bn in log.lh)
  {
    hide L.Log.Valid;
  }

  /** Three calls and size - 1 blocks in the log: from here a call writes a block new to the log,
      for which it has room reserved, and log_write panics. */
  method NewRefused(size: nat) returns (log: L.Log, op: nat, b: nat, r: Attempt<()>)
    requires 0 < size <= LOGSIZE
    ensures fresh(log) && log.size == size && r.Panic?
    ensures InHand(log, op, b, false) && Entitled(log.ops, |log.lh|, op)
  {
    hide *;
    var k: nat := size - 1;
    RoomBelow(size, k);
    log := Fill(size, k);
    var bn := Home(size, k);
    op := Writer(k);
    FilledGives(log, size, k);
    b := Bread(log, size, k, op, bn);
    UsedGives(log.cache.buf, b, op, bn);
    r := log.LogWrite(op, b);
    InHandIs(log, op, b, bn);
    EntitledIs(log.ops, |log.lh|, op);
  }

  lemma EntitledIs(ops: Ops, n: nat, op: nat)
    requires Budgeted(ops, n) && op in ops && ops[op] < MAXOPBLOCKS
    ensures Entitled(ops, n, op)
  {
  }

  lemma RoomBelow(size: nat, k: nat)
    requires size <= LOGSIZE && k == size - 1
    ensures k < LOGSIZE && Refuses(k, size) && size < 0x8000_0000 && 1 <= Writer(k) <= 3
    ensures Home(size, k) < Home(size, LOGSIZE) && Home(size, k) !in Homes(size, k)
      && !InLog(START, size, Home(size, k)) && Writer(k) in OpsAt(k) && OpsAt(k)[Writer(k)] < MAXOPBLOCKS
  {
  }

  /** A log that is as full as it gets, of any size: a call writes a block once more that is in the
      log already, which takes no room, and log_write panics. */
  method AbsorbedRefused(size: nat) returns (log: L.Log, op: nat, b: nat, r: Attempt<()>)
    requires 2 <= size < 0x8000_0000
    ensures fresh(log) && log.size == size && r.Panic?
    ensures InHand(log, op, b, true) && Budgeted(log.ops, |log.lh|)
  {
    var k := if size - 1 < LOGSIZE then size - 1 else LOGSIZE;
    FirstHome(size, k);
    hide *;
    log := Fill(size, k);
    op := 1;
    FilledGives(log, size, k);
    b := Bread(log, size, k, op, Home(size, 0));
    UsedGives(log.cache.buf, b, op, Home(size, 0));
    r := log.LogWrite(op, b);
    InHandIs(log, op, b, Home(size, 0));
  }

  lemma FirstHome(size: nat, k: nat)
    requires 0 < k <= LOGSIZE && k < size && (k == size - 1 || k == LOGSIZE)
    ensures Refuses(k, size) && Home(size, 0) in Homes(size, k) && Home(size, 0) < Home(size, LOGSIZE)
    ensures !InLog(START, size, Home(size, 0)) && 1 in OpsAt(k)
  {
    assert Homes(size, k)[0] == Home(size, 0);
  }
}
