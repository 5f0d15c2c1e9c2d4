/** The buffer cache (bio.c) over the in-memory disk (memide.c).
    One struct buf is a value of datatype Buf; the table of them, with the list head as last
    entry, is a field that the operations update entry by entry. */
module BufferCache {
  import opened Blocks
  import opened Sets

  const NBUF := 30
  const HEAD := NBUF      // index of bcache.head in the table
  const ROOTDEV := 1

  /** What comes of a call: a panic halts the machine; Wait names the buffer whose sleep lock the
      caller waits for. */
  datatype Attempt<+T> = Done(value: T) | Wait(buffer: nat) | Panic {
    predicate IsFailure() { !Done? }
    function PropagateFailure<U>(): Attempt<U>
      requires !Done?
    {
      if Panic? then Panic else Wait(buffer)
    }
    function Extract(): T
      requires Done?
    {
      value
    }
  }

  /** holder is the pid recorded in the sleep lock, 0 when it is not held; leaving is the number of
      processes in brelse that have released the lock and have still to count refcnt down. */
  datatype Buf = Buf(dev: nat, blockno: nat, valid: bool, dirty: bool, refcnt: nat, holder: nat,
                     data: Block, prev: nat, next: nat, leaving: nat)

  // ---------- What the cache and the disk mean together ----------

  ghost predicate Holds(b: Buf, dev: nat, bno: nat) {
    b.dev == dev && b.blockno == bno
  }

  /** One buffer per block of a real device, and a clean buffer nobody holds equals its block. */
  ghost predicate Coherent(bufs: seq<Buf>, disk: Image) {
    && |bufs| == NBUF + 1
    && (forall i, j | 0 <= i < NBUF && 0 <= j < NBUF && bufs[i].dev >= 1 ::
          Holds(bufs[j], bufs[i].dev, bufs[i].blockno) ==> i == j)
    && (forall i :: 0 <= i < NBUF ==> Sound(bufs[i], disk))
  }

  ghost predicate Sound(b: Buf, disk: Image) {
    && (b.valid ==> b.dev == ROOTDEV && b.blockno < |disk|)
    && (b.dirty ==> b.valid)
    && (b.valid && !b.dirty && b.holder == 0 ==> b.data == disk[b.blockno])
    && (b.holder != 0 ==> b.refcnt > 0)
  }

  ghost predicate Caches(bufs: seq<Buf>, j: int, bn: nat) {
    0 <= j < NBUF < |bufs| && bufs[j].valid && Holds(bufs[j], ROOTDEV, bn)
  }

  /** The contents that a bread of block bn delivers. */
  ghost function Look(bufs: seq<Buf>, disk: Image, bn: nat): Block
    requires bn < |disk|
  {
    if exists j :: Caches(bufs, j, bn) then
      var j :| Caches(bufs, j, bn); bufs[j].data
    else disk[bn]
  }

  /** The whole file system image as seen through the cache. */
  ghost function View(bufs: seq<Buf>, disk: Image): (v: Image)
    ensures |v| == |disk|
    ensures forall bn :: 0 <= bn < |disk| ==> v[bn] == Look(bufs, disk, bn)
  {
    seq(|disk|, bn requires 0 <= bn < |disk| => Look(bufs, disk, bn))
  }

  ghost predicate DirtyAt(bufs: seq<Buf>, j: int) {
    0 <= j < NBUF < |bufs| && bufs[j].dirty
  }

  /** Numbers of the blocks pinned by B_DIRTY. */
  ghost function Dirty(bufs: seq<Buf>): set<nat> {
    set j | 0 <= j < NBUF && DirtyAt(bufs, j) :: bufs[j].blockno
  }

  ghost predicate Idle(bufs: seq<Buf>) {
    forall j :: 0 <= j < NBUF < |bufs| ==> bufs[j].refcnt == 0
  }

  /** A clean buffer shows what is on the disk; a buffer that is not settled holds a change that
      has gone neither to the disk nor to the log. */
  predicate Settled(b: Buf, disk: Image) {
    b.valid && !b.dirty && b.blockno < |disk| ==> b.data == disk[b.blockno]
  }

  /** Only a buffer held by one of these processes may be unsettled. */
  ghost predicate Agrees(bufs: seq<Buf>, disk: Image, writers: set<nat>) {
    forall j :: 0 <= j < NBUF < |bufs| && bufs[j].holder !in writers ==> Settled(bufs[j], disk)
  }

  type Waiting = map<nat, nat>

  ghost function Waiters(waiting: Waiting, j: int): set<nat> {
    set p | p in waiting && waiting[p] == j
  }

  /** refcnt is exact: one for the holder, one for each process that waits for the lock, and one for
      each that has released it and not yet counted down. */
  ghost predicate Counted(bufs: seq<Buf>, waiting: Waiting) {
    && (forall p :: p in waiting ==> waiting[p] < NBUF)
    && (forall j :: 0 <= j < NBUF < |bufs| ==>
          bufs[j].refcnt == (if bufs[j].holder != 0 then 1 else 0) + |Waiters(waiting, j)| + bufs[j].leaving)
  }

  /** bget may recycle a buffer that nobody references and the log has not pinned. */
  predicate Recyclable(b: Buf) { b.refcnt == 0 && !b.dirty }

  lemma LookCached(bufs: seq<Buf>, disk: Image, j: nat)
    requires Coherent(bufs, disk) && j < NBUF && bufs[j].valid
    ensures Look(bufs, disk, bufs[j].blockno) == bufs[j].data
  {
    assert Caches(bufs, j, bufs[j].blockno);
  }

  // ---------- The LRU ring ----------

  ghost predicate Distinct(c: seq<nat>) {
    forall i, j :: 0 <= i < j < |c| ==> c[i] != c[j]
  }

  /** The nodes c, in this order, form a circular doubly linked list. */
  ghost predicate Linked(bufs: seq<Buf>, c: seq<nat>) {
    && |bufs| == NBUF + 1 && |c| > 0 && c[0] == HEAD && Distinct(c)
    && (forall i :: 0 <= i < |c| ==> c[i] <= NBUF)
    && (forall i {:trigger After(c, i)} :: 0 <= i < |c| ==> bufs[c[i]].next == After(c, i))
    && (forall i {:trigger Before(c, i)} :: 0 <= i < |c| ==> bufs[c[i]].prev == Before(c, i))
  }

  ghost function After(c: seq<nat>, i: nat): nat
    requires i < |c|
  {
    if i + 1 < |c| then c[i + 1] else c[0]
  }

  ghost function Before(c: seq<nat>, i: nat): nat
    requires i < |c|
  {
    if i > 0 then c[i - 1] else c[|c| - 1]
  }

  /** Take b out of the ring. */
  function Unlink(bufs: seq<Buf>, b: nat): (r: seq<Buf>)
    requires |bufs| == NBUF + 1 && b <= NBUF && bufs[b].next <= NBUF && bufs[b].prev <= NBUF
    ensures |r| == NBUF + 1
    ensures bufs[b].next != b ==> Unlinked(bufs, b, r)
  {
    var s := bufs[bufs[b].next := bufs[bufs[b].next].(prev := bufs[b].prev)];
    s[s[b].prev := s[s[b].prev].(next := s[b].next)]
  }

  ghost predicate Unlinked(bufs: seq<Buf>, b: nat, r: seq<Buf>)
    requires b < |bufs|
  {
    && |r| == |bufs|
    && (forall x :: 0 <= x < |bufs| ==> r[x].next == if x == bufs[b].prev then bufs[b].next else bufs[x].next)
    && (forall x :: 0 <= x < |bufs| ==> r[x].prev == if x == bufs[b].next then bufs[b].prev else bufs[x].prev)
    && SameButLinks(bufs, r)
  }

  /** Put b just after the head. */
  function PushFront(bufs: seq<Buf>, b: nat): (r: seq<Buf>)
    requires |bufs| == NBUF + 1 && b < NBUF && bufs[HEAD].next <= NBUF
    ensures |r| == NBUF + 1
    ensures bufs[HEAD].next != b ==> PushedFront(bufs, b, r)
  {
    var s := bufs[b := bufs[b].(next := bufs[HEAD].next, prev := HEAD)];
    var t := s[s[HEAD].next := s[s[HEAD].next].(prev := b)];
    t[HEAD := t[HEAD].(next := b)]
  }

  ghost predicate PushedFront(bufs: seq<Buf>, b: nat, r: seq<Buf>)
    requires |bufs| == NBUF + 1
  {
    && |r| == |bufs|
    && (forall x :: 0 <= x <= NBUF ==>
          r[x].next == if x == HEAD then b else if x == b then bufs[HEAD].next else bufs[x].next)
    && (forall x :: 0 <= x <= NBUF ==>
          r[x].prev == if x == bufs[HEAD].next then b else if x == b then HEAD else bufs[x].prev)
    && SameButLinks(bufs, r)
  }

  /** Relinking touches nothing but the links. */
  ghost predicate SameButLinks(a: seq<Buf>, b: seq<Buf>) {
    |a| == |b| && forall j :: 0 <= j < |a| ==> b[j] == a[j].(prev := b[j].prev, next := b[j].next)
  }

  ghost function Without(c: seq<nat>, k: nat): seq<nat>
    requires k < |c|
  {
    c[..k] + c[k + 1..]
  }

  ghost function ToFront(c: seq<nat>, b: nat): seq<nat>
    requires |c| > 0
  {
    [c[0], b] + c[1..]
  }

  lemma UnlinkKeepsRing(bufs: seq<Buf>, c: seq<nat>, k: nat, r: seq<Buf>)
    requires Linked(bufs, c) && 0 < k < |c| && Unlinked(bufs, c[k], r)
    ensures Linked(r, Without(c, k))
  {
    var d := Without(c, k);
    WithoutDistinct(c, k);
    forall i | 0 <= i < |d|
      ensures d[i] <= NBUF && r[d[i]].next == After(d, i) && r[d[i]].prev == Before(d, i)
    {
      UnlinkAt(bufs, c, k, r, i);
    }
  }

  lemma WithoutDistinct(c: seq<nat>, k: nat)
    requires k < |c| && Distinct(c)
    ensures Distinct(Without(c, k))
    ensures forall x: nat :: x in Without(c, k) <==> x in c && x != c[k]
  {
    var d := Without(c, k);
    forall x: nat | x in c && x != c[k] ensures x in d {
      var i :| 0 <= i < |c| && c[i] == x;
      assert x == d[if i < k then i else i - 1];
    }
  }

  lemma UnlinkAt(bufs: seq<Buf>, c: seq<nat>, k: nat, r: seq<Buf>, i: nat)
    requires Linked(bufs, c) && 0 < k < |c| && Unlinked(bufs, c[k], r) && i < |c| - 1
    ensures var d := Without(c, k); d[i] <= NBUF && r[d[i]].next == After(d, i) && r[d[i]].prev == Before(d, i)
  {
    var d := Without(c, k);
    var j := if i < k then i else i + 1;
    assert d[i] == c[j] && bufs[c[j]].next == After(c, j) && bufs[c[j]].prev == Before(c, j);
    assert bufs[c[k]].next == After(c, k) && bufs[c[k]].prev == Before(c, k);
    assert c[j] == Before(c, k) <==> j == k - 1;
    assert c[j] == After(c, k) <==> j == if k + 1 < |c| then k + 1 else 0;
  }

  lemma PushFrontKeepsRing(bufs: seq<Buf>, c: seq<nat>, b: nat, r: seq<Buf>)
    requires Linked(bufs, c) && b < NBUF && b !in c && PushedFront(bufs, b, r)
    ensures Linked(r, ToFront(c, b))
  {
    var d := ToFront(c, b);
    ToFrontDistinct(c, b);
    assert |r| == NBUF + 1 && c[0] == HEAD;
    hide Linked, PushedFront, ToFront, Distinct;
    forall i | 0 <= i < |d| ensures d[i] <= NBUF && r[d[i]].next == After(d, i) && r[d[i]].prev == Before(d, i) {
      PushFrontAt(bufs, c, b, r, i);
    }
    hide After, Before;
    LinkedIs(r, d);
  }

  lemma ToFrontDistinct(c: seq<nat>, b: nat)
    requires |c| > 0 && Distinct(c) && b !in c
    ensures var d := ToFront(c, b); |d| == |c| + 1 && d[0] == c[0] && Distinct(d)
  {
  }

  lemma LinkedIs(bufs: seq<Buf>, c: seq<nat>)
    requires |bufs| == NBUF + 1 && |c| > 0 && c[0] == HEAD && Distinct(c)
    requires forall i :: 0 <= i < |c| ==> c[i] <= NBUF && bufs[c[i]].next == After(c, i) && bufs[c[i]].prev == Before(c, i)
    ensures Linked(bufs, c)
  {
  }

  lemma PushFrontAt(bufs: seq<Buf>, c: seq<nat>, b: nat, r: seq<Buf>, i: nat)
    requires Linked(bufs, c) && b < NBUF && b !in c && PushedFront(bufs, b, r) && i <= |c|
    ensures var d := ToFront(c, b); d[i] <= NBUF && r[d[i]].next == After(d, i) && r[d[i]].prev == Before(d, i)
  {
    var d := ToFront(c, b);
    assert bufs[c[0]].next == After(c, 0) && bufs[c[0]].prev == Before(c, 0);
    if i != 1 {
      var i' := if i == 0 then 0 else i - 1;
      assert d[i] == c[i'] && bufs[c[i']].next == After(c, i') && bufs[c[i']].prev == Before(c, i');
    }
  }

  /** Every buffer is on the ring: c lists the head and then all buffers, most recent first. */
  ghost predicate Ring(bufs: seq<Buf>, c: seq<nat>) {
    Linked(bufs, c) && |c| == NBUF + 1 && forall b: nat :: b < NBUF ==> b in c
  }

  // ---------- What bget does to the table ----------

  ghost predicate Present(bufs: seq<Buf>, dev: nat, bno: nat) {
    exists j :: 0 <= j < NBUF < |bufs| && Holds(bufs[j], dev, bno)
  }

  /** b is the least recently released buffer that may be recycled. */
  ghost predicate Oldest(bufs: seq<Buf>, ring: seq<nat>, b: nat) {
    exists k :: 0 < k < |ring| && ring[k] == b && b < NBUF < |bufs| && Recyclable(bufs[b])
                && forall i :: k < i < |ring| && ring[i] < NBUF ==> !Recyclable(bufs[ring[i]])
  }

  /** bget(dev, bno) chose buffer b and turned the table bufs into bufs'. */
  ghost predicate Got(bufs: seq<Buf>, ring: seq<nat>, dev: nat, bno: nat, b: nat, bufs': seq<Buf>) {
    && b < NBUF < |bufs|
    && if Present(bufs, dev, bno) then
         Holds(bufs[b], dev, bno) && bufs' == bufs[b := Referenced(bufs[b])]
       else
         Oldest(bufs, ring, b) && bufs' == bufs[b := Recycled(bufs[b], dev, bno)]
  }

  function Referenced(b: Buf): Buf {
    b.(refcnt := b.refcnt + 1)
  }

  function Recycled(b: Buf, dev: nat, bno: nat): Buf {
    b.(dev := dev, blockno := bno, valid := false, dirty := false, refcnt := 1)
  }

  /** bget keeps the cache coherent and, although it may evict a buffer, nothing it shows changes. */
  lemma GotKeepsView(bufs: seq<Buf>, disk: Image, ring: seq<nat>, dev: nat, bno: nat, b: nat, bufs': seq<Buf>)
    requires Coherent(bufs, disk) && Got(bufs, ring, dev, bno, b, bufs')
    ensures Coherent(bufs', disk)
    ensures View(bufs', disk) == View(bufs, disk)
    ensures Dirty(bufs') == Dirty(bufs)
  {
    forall bn: nat | bn < |disk| ensures Look(bufs', disk, bn) == Look(bufs, disk, bn) {
      GotKeepsLook(bufs, disk, ring, dev, bno, b, bufs', bn);
    }
    forall x ensures x in Dirty(bufs) <==> x in Dirty(bufs') {
      if x in Dirty(bufs) {
        var j :| 0 <= j < NBUF && DirtyAt(bufs, j) && bufs[j].blockno == x;
        assert DirtyAt(bufs', j);
      }
      if x in Dirty(bufs') {
        var j :| 0 <= j < NBUF && DirtyAt(bufs', j) && bufs'[j].blockno == x;
        assert DirtyAt(bufs, j);
      }
    }
  }

  lemma GotKeeps(bufs: seq<Buf>, disk: Image, ring: seq<nat>, dev: nat, bno: nat, b: nat, bufs': seq<Buf>)
    requires Coherent(bufs, disk) && Ring(bufs, ring) && Got(bufs, ring, dev, bno, b, bufs')
    ensures Coherent(bufs', disk) && Ring(bufs', ring)
    ensures View(bufs', disk) == View(bufs, disk)
    ensures Dirty(bufs') == Dirty(bufs)
  {
    LinksOnly(bufs, bufs', ring);
    GotKeepsView(bufs, disk, ring, dev, bno, b, bufs');
  }

  lemma GotKeepsLook(bufs: seq<Buf>, disk: Image, ring: seq<nat>, dev: nat, bno: nat, b: nat, bufs': seq<Buf>, bn: nat)
    requires Coherent(bufs, disk) && Got(bufs, ring, dev, bno, b, bufs') && bn < |disk|
    ensures Coherent(bufs', disk)
    ensures Look(bufs', disk, bn) == Look(bufs, disk, bn)
  {
    if j :| Caches(bufs, j, bn) {
      LookCached(bufs, disk, j);
      if Caches(bufs', j, bn) {
        LookCached(bufs', disk, j);
      } else {
        assert forall i :: Caches(bufs', i, bn) ==> Caches(bufs, i, bn);
      }
    } else {
      assert forall i :: Caches(bufs', i, bn) ==> Caches(bufs, i, bn);
    }
  }

  /** The cache and the disk below it. The table of buffers and the disk are fields that the
      operations update entry by entry. */
  class Cache {
    var buf: seq<Buf>
    var disk: Image
    ghost var ring: seq<nat>       // the head, then all buffers from most to least recently released
    var waiting: Waiting           // which buffer each process in acquiresleep is to get
    ghost var trace: seq<Image>    // every image the disk has gone through

    ghost predicate Valid()
      reads this
    {
      && |buf| == NBUF + 1
      && Ring(buf, ring)
      && Coherent(buf, disk)
      && Counted(buf, waiting)
      && |trace| > 0 && trace[|trace| - 1] == disk
    }

    /** binit, on a disk that survived from before. */
    constructor (memdisk: Image)
      ensures Valid() && disk == memdisk && trace == [memdisk] && waiting == map[]
      ensures View(buf, disk) == memdisk && Dirty(buf) == {} && Idle(buf) && Agrees(buf, disk, {})
    {
      disk := memdisk;
      trace := [memdisk];
      waiting := map[];
      buf := seq(NBUF + 1, _ => Buf(0, 0, false, false, 0, 0, ZeroBlock(), HEAD, HEAD, 0));
      ring := [HEAD];
      new;
      LinkAll();
      BlankTable(buf, disk);
    }

    /** The loop of binit. */
    method LinkAll()
      requires Linked(buf, ring) && ring == [HEAD]
      modifies `buf, `ring
      ensures Ring(buf, ring)
      ensures SameButLinks(old(buf), buf)
    {
      var b := 0;
      while b < NBUF
        invariant 0 <= b <= NBUF
        invariant Linked(buf, ring) && |ring| == b + 1
        invariant forall x: nat :: x < b ==> x in ring
        invariant forall i :: 0 < i < |ring| ==> ring[i] < b
        invariant SameButLinks(old(buf), buf)
      {
        ghost var c := ring;
        AddFront(b);
        assert forall x: nat :: x in ring <==> x == b || x in c;
        b := b + 1;
      }
    }

    /** Insert b after the head of the list. */
    method AddFront(b: nat)
      requires Linked(buf, ring) && b < NBUF && b !in ring
      modifies `buf, `ring
      ensures Linked(buf, ring) && ring == ToFront(old(ring), b)
      ensures SameButLinks(old(buf), buf)
    {
      ghost var was := buf;
      assert was[ring[0]].next == After(ring, 0);
      buf := buf[b := buf[b].(next := buf[HEAD].next)];
      buf := buf[b := buf[b].(prev := HEAD)];
      buf := buf[buf[HEAD].next := buf[buf[HEAD].next].(prev := b)];
      buf := buf[HEAD := buf[HEAD].(next := b)];
      assert buf == PushFront(was, b);
      PushFrontKeepsRing(was, ring, b, buf);
      ring := ToFront(ring, b);
    }

    /** First loop of bget: from the most recently released buffer on, look for the block. */
    method FindCached(dev: nat, blockno: nat) returns (b: nat)
      requires Ring(buf, ring)
      ensures b <= NBUF
      ensures b == HEAD <==> !Present(buf, dev, blockno)
      ensures b != HEAD ==> Holds(buf[b], dev, blockno)
    {
      assert buf[ring[0]].next == After(ring, 0);
      b := buf[HEAD].next;
      ghost var k := 1;
      while b != HEAD
        invariant 1 <= k <= |ring| && b == if k < |ring| then ring[k] else HEAD
        invariant forall i :: 0 < i < k ==> !Holds(buf[ring[i]], dev, blockno)
        decreases |ring| - k
      {
        if buf[b].dev == dev && buf[b].blockno == blockno {
          return;
        }
        assert buf[ring[k]].next == After(ring, k);
        b, k := buf[b].next, k + 1;
      }
      forall j: nat | j < NBUF ensures !Holds(buf[j], dev, blockno) {
        assert j in ring;
      }
    }

    /** Second loop of bget: from the least recently released buffer on, look for an unused one. */
    method FindUnused() returns (b: nat)
      requires Ring(buf, ring)
      ensures b <= NBUF
      ensures b == HEAD <==> forall j :: 0 <= j < NBUF ==> !Recyclable(buf[j])
      ensures b != HEAD ==> Oldest(buf, ring, b)
    {
      assert buf[ring[0]].prev == Before(ring, 0);
      b := buf[HEAD].prev;
      ghost var k := |ring| - 1;
      while b != HEAD
        invariant 0 <= k < |ring| && b == ring[k]
        invariant forall i :: k < i < |ring| ==> !Recyclable(buf[ring[i]])
        decreases k
      {
        if buf[b].refcnt == 0 && !buf[b].dirty {
          return;
        }
        assert buf[ring[k]].prev == Before(ring, k);
        b, k := buf[b].prev, k - 1;
      }
      forall j: nat | j < NBUF ensures !Recyclable(buf[j]) {
        assert j in ring;
      }
    }

    /** The part of bget that runs under bcache.lock: process pid then waits for the buffer's lock. */
    method Bget(pid: nat, dev: nat, blockno: nat) returns (r: Attempt<nat>)
      requires Valid() && pid != 0 && pid !in waiting
      modifies `buf, `waiting
      ensures Valid()
      ensures !r.Wait?
      ensures r.Done? ==> Got(old(buf), ring, dev, blockno, r.value, buf) && waiting == old(waiting)[pid := r.value]
      ensures r.Panic? <==> !Present(old(buf), dev, blockno) && NoneUnused(old(buf))
      ensures r.Panic? ==> buf == old(buf) && waiting == old(waiting)
      ensures View(buf, disk) == View(old(buf), disk) && Dirty(buf) == Dirty(old(buf))
    {
      hide Linked, View, Dirty;
      var b := FindCached(dev, blockno);
      if b != HEAD {
        GotKeeps(buf, disk, ring, dev, blockno, b, buf[b := Referenced(buf[b])]);
        CountedUp(buf, waiting, b, Referenced(buf[b]), pid);
        buf, waiting := buf[b := Referenced(buf[b])], waiting[pid := b];
        return Done(b);
      }
      b := FindUnused();
      if b != HEAD {
        GotKeeps(buf, disk, ring, dev, blockno, b, buf[b := Recycled(buf[b], dev, blockno)]);
        CountedUp(buf, waiting, b, Recycled(buf[b], dev, blockno), pid);
        buf, waiting := buf[b := Recycled(buf[b], dev, blockno)], waiting[pid := b];
        return Done(b);
      }
      return Panic;
    }

    /** acquiresleep on the buffer bget chose, and the read from the disk if it is not valid; also
        where a process that had to sleep goes on. */
    method Acquire(pid: nat, b: nat) returns (r: Attempt<nat>)
      requires Valid() && pid != 0 && pid in waiting && waiting[pid] == b
      modifies `buf, `disk, `trace, `waiting
      ensures Valid() && b < NBUF && disk == old(disk) && trace == old(trace)
      ensures r.Wait? <==> old(buf[b]).holder != 0
      ensures r.Wait? ==> r.buffer == b && buf == old(buf) && waiting == old(waiting)
      ensures !r.Wait? ==> waiting == old(waiting) - {pid}
      ensures r.Done? ==> r.value == b && buf == old(buf)[b := Acquired(old(buf)[b], pid, disk)]
      ensures r.Panic? ==> buf == old(buf[b := buf[b].(holder := pid)])
      ensures View(buf, disk) == View(old(buf), disk) && Dirty(buf) == Dirty(old(buf))
      ensures r.Panic? <==> old(buf[b]).holder == 0 && !old(buf[b]).valid
                            && old(buf[b].dev != ROOTDEV || buf[b].blockno >= |disk|)
    {
      hide Linked, View, Dirty;
      WaitedFor(buf, waiting, pid);
      if buf[b].holder != 0 {
        return Wait(b);
      }
      AcquiredKeeps(buf, disk, ring, pid, b);
      CountedOver(buf, waiting, buf[b := buf[b].(holder := pid)], b, pid);
      CountedOver(buf, waiting, buf[b := Acquired(buf[b], pid, disk)], b, pid);
      buf, waiting := buf[b := buf[b].(holder := pid)], waiting - {pid};
      if !buf[b].valid {
        var _ :- Iderw(pid, b);
      }
      assert buf == old(buf)[b := Acquired(old(buf)[b], pid, disk)];
      return Done(b);
    }

    /** bread: both steps, when nothing comes between. */
    method Bread(pid: nat, dev: nat, blockno: nat) returns (r: Attempt<nat>)
      requires Valid() && pid != 0 && pid !in waiting
      modifies `buf, `disk, `trace, `waiting
      ensures Valid() && disk == old(disk) && trace == old(trace)
      ensures r.Done? ==> waiting == old(waiting) && exists g ::
          Got(old(buf), ring, dev, blockno, r.value, g) && buf == g[r.value := Acquired(g[r.value], pid, disk)]
      ensures r.Wait? ==> waiting == old(waiting)[pid := r.buffer]
                          && Got(old(buf), ring, dev, blockno, r.buffer, buf) && buf[r.buffer].holder != 0
      ensures View(buf, disk) == View(old(buf), disk) && Dirty(buf) == Dirty(old(buf))
      ensures r.Panic? ==> dev != ROOTDEV || blockno >= |disk|
                           || (!Present(old(buf), dev, blockno) && NoneUnused(old(buf)))
    {
      var b :- Bget(pid, dev, blockno);
      assert Holds(buf[b], dev, blockno);
      assert old(waiting)[pid := b] - {pid} == old(waiting);
      r := Acquire(pid, b);
    }

    /** iderw of memide.c: a dirty buffer is written, otherwise the block is read. */
    method Iderw(pid: nat, b: nat) returns (r: Attempt<()>)
      requires b < NBUF < |buf|
      modifies `buf, `disk, `trace
      ensures !r.Wait?
      ensures r.Panic? <==> old(buf[b].holder != pid || (buf[b].valid && !buf[b].dirty)
                            || buf[b].dev != ROOTDEV || buf[b].blockno >= |disk|)
      ensures r.Panic? ==> buf == old(buf) && disk == old(disk) && trace == old(trace)
      ensures r.Done? && old(buf[b]).dirty ==>
          && disk == old(disk[buf[b].blockno := buf[b].data]) && trace == old(trace) + [disk]
          && buf == old(buf[b := buf[b].(valid := true, dirty := false)])
      ensures r.Done? && !old(buf[b]).dirty ==>
          && disk == old(disk) && trace == old(trace)
          && buf == old(buf[b := buf[b].(valid := true, data := disk[buf[b].blockno])])
    {
      if buf[b].holder != pid || (buf[b].valid && !buf[b].dirty) || buf[b].dev != ROOTDEV || buf[b].blockno >= |disk| {
        return Panic;
      }
      if buf[b].dirty {
        buf := buf[b := buf[b].(dirty := false)];
        disk := disk[buf[b].blockno := buf[b].data];
        trace := trace + [disk];
      } else {
        buf := buf[b := buf[b].(data := disk[buf[b].blockno])];
      }
      buf := buf[b := buf[b].(valid := true)];
      return Done(());
    }

    /** The holder of a buffer stores into its data. */
    method SetData(pid: nat, b: nat, data: Block)
      requires Valid() && b < NBUF && pid != 0 && buf[b].holder == pid && buf[b].valid
      modifies `buf
      ensures Valid() && buf == old(buf[b := buf[b].(data := data)])
      ensures View(buf, disk) == View(old(buf), disk)[buf[b].blockno := data] && Dirty(buf) == Dirty(old(buf))
    {
      hide Linked, View;
      UpdateKeeps(buf, disk, ring, b, buf[b].(data := data), disk);
      buf := buf[b := buf[b].(data := data)];
    }

    /** B_DIRTY pins the buffer until the log has written it. */
    method MarkDirty(b: nat)
      requires Valid() && b < NBUF && buf[b].holder != 0 && buf[b].valid
      modifies `buf
      ensures Valid() && buf == old(buf[b := buf[b].(dirty := true)])
      ensures View(buf, disk) == View(old(buf), disk) && Dirty(buf) == Dirty(old(buf)) + {buf[b].blockno}
    {
      hide Linked, View;
      LookCached(buf, disk, b);
      UpdateKeeps(buf, disk, ring, b, buf[b].(dirty := true), disk);
      buf := buf[b := buf[b].(dirty := true)];
    }

    /** bwrite: one block goes to the disk, and what the cache shows does not change. */
    method Bwrite(pid: nat, b: nat) returns (r: Attempt<()>)
      requires Valid() && b < NBUF && pid != 0 && buf[b].valid
      modifies `buf, `disk, `trace
      ensures !r.Wait? && (r.Done? <==> old(buf[b]).holder == pid)
      ensures r.Panic? ==> buf == old(buf) && disk == old(disk) && trace == old(trace)
      ensures Valid()
      ensures r.Done? ==>
          && buf == old(buf[b := buf[b].(dirty := false)])
          && disk == old(disk[buf[b].blockno := buf[b].data]) && trace == old(trace) + [disk]
          && View(buf, disk) == old(View(buf, disk)) && Dirty(buf) == old(Dirty(buf)) - {buf[b].blockno}
    {
      if buf[b].holder != pid {
        return Panic;
      }
      ghost var was, d := buf, disk;
      assert buf[b].dev == ROOTDEV && buf[b].blockno < |disk|;
      LookCached(was, d, b);
      UpdateKeeps(was, d, ring, b, was[b].(dirty := false), d[was[b].blockno := was[b].data]);
      CountedSame(was, waiting, b, was[b].(dirty := false));
      hide Ring, Coherent, Counted, View, Dirty;
      buf := buf[b := buf[b].(dirty := true)];
      r := Iderw(pid, b);
      assert buf == was[b := was[b].(dirty := false)];
    }

    /** The first part of brelse, releasesleep. The cache stays coherent if and only if the caller has
        handed what it changed to bwrite or to the log before. */
    method Unlock(pid: nat, b: nat) returns (r: Attempt<()>)
      requires Valid() && b < NBUF && pid != 0
      modifies `buf
      ensures !r.Wait? && (r.Done? <==> old(buf[b]).holder == pid)
      ensures r.Panic? ==> buf == old(buf)
      ensures r.Done? ==> buf == old(buf)[b := Released(old(buf)[b])]
      ensures Ring(buf, ring) && Counted(buf, waiting)
      ensures Valid() <==> r.Panic? || Settled(old(buf)[b], disk)
      ensures Valid() ==> View(buf, disk) == View(old(buf), disk) && Dirty(buf) == Dirty(old(buf))
    {
      hide Linked, View, Dirty;
      if buf[b].holder != pid {
        return Panic;
      }
      ghost var was := buf;
      LinksOnly(buf, buf[b := Released(buf[b])], ring);
      CountedDown(buf, waiting, b);
      buf := buf[b := buf[b].(holder := 0, leaving := buf[b].leaving + 1)];
      ReleasedKeeps(was, disk, ring, b, buf);
      return Done(());
    }

    /** The second part of brelse, under bcache.lock: a process that has released buffer b gives up its
        reference. */
    method Unref(b: nat)
      requires |buf| == NBUF + 1 && Ring(buf, ring) && Counted(buf, waiting) && b < NBUF && buf[b].leaving > 0
      modifies `buf, `ring
      ensures SameButLinks(old(buf)[b := Unreferenced(old(buf)[b])], buf)
      ensures ring == if old(buf)[b].refcnt == 1 then ToFrontOf(old(ring), b) else old(ring)
      ensures Ring(buf, ring) && Counted(buf, waiting) && (Valid() <==> old(Valid()))
      ensures Valid() ==> View(buf, disk) == View(old(buf), disk) && Dirty(buf) == Dirty(old(buf))
    {
      hide Linked, View, Dirty, Coherent;
      ghost var was := buf;
      LinksOnly(buf, buf[b := Unreferenced(buf[b])], ring);
      CountedDown(buf, waiting, b);
      buf := buf[b := buf[b].(refcnt := buf[b].refcnt - 1, leaving := buf[b].leaving - 1)];
      if buf[b].refcnt == 0 {
        MoveToFront(b);
      }
      UnreferencedKeeps(was, disk, b, buf);
    }

    /** brelse: both parts, when nothing comes between. */
    method Brelse(pid: nat, b: nat) returns (r: Attempt<()>)
      requires Valid() && b < NBUF && pid != 0
      modifies `buf, `ring
      ensures !r.Wait? && (r.Done? <==> old(buf[b]).holder == pid)
      ensures r.Panic? ==> buf == old(buf) && ring == old(ring)
      ensures r.Done? ==> SameButLinks(old(buf)[b := Unreferenced(Released(old(buf)[b]))], buf)
      ensures r.Done? ==> ring == if old(buf)[b].refcnt == 1 then ToFrontOf(old(ring), b) else old(ring)
      ensures Ring(buf, ring) && Counted(buf, waiting)
      ensures Valid() <==> r.Panic? || Settled(old(buf)[b], disk)
      ensures Valid() ==> View(buf, disk) == View(old(buf), disk) && Dirty(buf) == Dirty(old(buf))
    {
      hide Ring, Coherent, View, Dirty, Settled;
      ghost var was := buf;
      r := Unlock(pid, b);
      if r.Done? {
        Unref(b);
        assert was[b := Released(was[b])][b := Unreferenced(Released(was[b]))] == was[b := Unreferenced(Released(was[b]))];
      }
    }

    /** The part of brelse that moves the buffer to the front of the ring. */
    method MoveToFront(b: nat)
      requires Ring(buf, ring) && b < NBUF
      modifies `buf, `ring
      ensures Ring(buf, ring) && ring == ToFrontOf(old(ring), b)
      ensures SameButLinks(old(buf), buf)
    {
      ghost var was, c := buf, ring;
      ghost var k := IndexOf(c, b);
      assert was[c[k]].next == After(c, k) && was[c[k]].prev == Before(c, k);
      buf := buf[buf[b].next := buf[buf[b].next].(prev := buf[b].prev)];
      buf := buf[buf[b].prev := buf[buf[b].prev].(next := buf[b].next)];
      assert buf == Unlink(was, b);
      UnlinkKeepsRing(was, c, k, buf);
      WithoutDistinct(c, k);
      ring := Without(c, k);
      AddFront(b);
      assert forall x: nat :: x < NBUF ==> x in c ==> x in ring;
    }
  }

  ghost predicate NoneUnused(bufs: seq<Buf>) {
    forall j :: 0 <= j < NBUF < |bufs| ==> !Recyclable(bufs[j])
  }

  ghost predicate Blank(b: Buf) {
    b.dev == 0 && b.refcnt == 0 && b.holder == 0 && !b.valid && !b.dirty && b.leaving == 0
  }

  lemma BlankTable(bufs: seq<Buf>, disk: Image)
    requires |bufs| == NBUF + 1 && forall j :: 0 <= j < NBUF ==> Blank(bufs[j])
    ensures Coherent(bufs, disk) && View(bufs, disk) == disk && Dirty(bufs) == {} && Idle(bufs)
    ensures Agrees(bufs, disk, {}) && Counted(bufs, map[])
  {
    assert forall j :: Waiters(map[], j) == {};
    assert forall j, bn :: !Caches(bufs, j, bn);
    assert forall j :: !DirtyAt(bufs, j);
  }

  /** The ring depends on the links alone. */
  lemma LinksOnly(a: seq<Buf>, b: seq<Buf>, c: seq<nat>)
    requires Ring(a, c) && |a| == |b|
    requires forall j :: 0 <= j < |a| ==> b[j].prev == a[j].prev && b[j].next == a[j].next
    ensures Ring(b, c)
  {
    assert Linked(b, c);
  }

  /** A buffer after acquiresleep and, if it was not valid, a read from the disk. */
  ghost function Acquired(b: Buf, pid: nat, disk: Image): Buf {
    if b.valid || b.blockno >= |disk| then b.(holder := pid)
    else b.(holder := pid, valid := true, data := disk[b.blockno])
  }

  lemma AcquiredSame(b: Buf, pid: nat, disk: Image)
    ensures var a := Acquired(b, pid, disk); a.holder == pid && a.refcnt == b.refcnt && Holds(a, b.dev, b.blockno)
  {
  }

  ghost predicate Readable(b: Buf, disk: Image) {
    b.valid || (b.dev == ROOTDEV && b.blockno < |disk|)
  }

  lemma AcquiredKeeps(bufs: seq<Buf>, disk: Image, ring: seq<nat>, pid: nat, b: nat)
    requires Coherent(bufs, disk) && Ring(bufs, ring)
    requires b < NBUF && pid != 0 && bufs[b].refcnt > 0 && bufs[b].holder == 0
    ensures var bufs' := bufs[b := bufs[b].(holder := pid)];
        && Coherent(bufs', disk) && Ring(bufs', ring)
        && View(bufs', disk) == View(bufs, disk) && Dirty(bufs') == Dirty(bufs)
    ensures Readable(bufs[b], disk) ==>
        var bufs' := bufs[b := Acquired(bufs[b], pid, disk)];
        && Coherent(bufs', disk) && Ring(bufs', ring)
        && View(bufs', disk) == View(bufs, disk) && Dirty(bufs') == Dirty(bufs)
  {
    var held := bufs[b := bufs[b].(holder := pid)];
    LinksOnly(bufs, held, ring);
    SameContents(bufs, held, disk);
    LinksOnly(bufs, bufs[b := Acquired(bufs[b], pid, disk)], ring);
    hide Ring, View, Dirty;
    if Readable(bufs[b], disk) && !bufs[b].valid {
      ReadKeeps(held, disk, b);
      assert bufs[b := Acquired(bufs[b], pid, disk)] == held[b := held[b].(valid := true, data := disk[held[b].blockno])];
    }
  }

  /** Reading a block in shows nothing new. */
  lemma ReadKeeps(bufs: seq<Buf>, disk: Image, b: nat)
    requires Coherent(bufs, disk) && b < NBUF && !bufs[b].valid && bufs[b].dev == ROOTDEV && bufs[b].blockno < |disk|
    ensures var bufs' := bufs[b := bufs[b].(valid := true, data := disk[bufs[b].blockno])];
        Coherent(bufs', disk) && View(bufs', disk) == View(bufs, disk) && Dirty(bufs') == Dirty(bufs)
  {
    var bufs' := bufs[b := bufs[b].(valid := true, data := disk[bufs[b].blockno])];
    assert Coherent(bufs', disk);
    assert forall j :: DirtyAt(bufs', j) <==> DirtyAt(bufs, j);
    forall bn: nat | bn < |disk| ensures Look(bufs', disk, bn) == Look(bufs, disk, bn) {
      if j :| Caches(bufs', j, bn) {
        LookCached(bufs', disk, j);
        if Caches(bufs, j, bn) {
          LookCached(bufs, disk, j);
        } else {
          assert j == b && forall i :: Caches(bufs, i, bn) ==> i == b;
        }
      } else {
        assert forall i :: Caches(bufs, i, bn) ==> Caches(bufs', i, bn);
      }
    }
  }

  /** After releasesleep. */
  ghost function Released(b: Buf): Buf {
    b.(holder := 0, leaving := b.leaving + 1)
  }

  /** After the refcnt-- of brelse. */
  ghost function Unreferenced(b: Buf): Buf {
    b.(refcnt := if b.refcnt > 0 then b.refcnt - 1 else 0, leaving := if b.leaving > 0 then b.leaving - 1 else 0)
  }

  ghost function IndexOf(c: seq<nat>, b: nat): (k: nat)
    requires b in c
    ensures k < |c| && c[k] == b
  {
    var k: nat :| k < |c| && c[k] == b; k
  }

  /** The ring after b has become the most recently released buffer. */
  ghost function ToFrontOf(c: seq<nat>, b: nat): seq<nat> {
    if b in c && c[0] != b then ToFront(Without(c, IndexOf(c, b)), b) else c
  }

  /** Replacing one valid buffer by nb, and its block on the disk by anything, keeps the cache
      coherent if nb is sound; the view then changes at this block alone, to nb's data. */
  lemma UpdateKeeps(bufs: seq<Buf>, disk: Image, ring: seq<nat>, b: nat, nb: Buf, disk': Image)
    requires Coherent(bufs, disk) && Ring(bufs, ring) && b < NBUF && bufs[b].valid
    requires nb == bufs[b].(dirty := nb.dirty, data := nb.data, holder := nb.holder, refcnt := nb.refcnt)
    requires |disk'| == |disk| && disk' == disk[nb.blockno := disk'[nb.blockno]]
    requires Sound(nb, disk')
    ensures var bufs' := bufs[b := nb];
      && Coherent(bufs', disk') && Ring(bufs', ring)
      && View(bufs', disk') == View(bufs, disk)[nb.blockno := nb.data]
      && Dirty(bufs') == if nb.dirty then Dirty(bufs) + {nb.blockno} else Dirty(bufs) - {nb.blockno}
  {
    var bufs' := bufs[b := nb];
    LinksOnly(bufs, bufs', ring);
    assert Coherent(bufs', disk');
    LookCached(bufs', disk', b);
    forall bn: nat | bn < |disk| && bn != nb.blockno ensures Look(bufs', disk', bn) == Look(bufs, disk, bn) {
      assert forall i :: Caches(bufs', i, bn) <==> Caches(bufs, i, bn);
      if j :| Caches(bufs, j, bn) {
        LookCached(bufs, disk, j);
        LookCached(bufs', disk', j);
      }
    }
    DirtyUpdate(bufs, disk, b, nb);
  }

  lemma DirtyUpdate(bufs: seq<Buf>, disk: Image, b: nat, nb: Buf)
    requires Coherent(bufs, disk) && b < NBUF && bufs[b].valid
    requires Holds(nb, bufs[b].dev, bufs[b].blockno)
    ensures Dirty(bufs[b := nb]) == if nb.dirty then Dirty(bufs) + {nb.blockno} else Dirty(bufs) - {nb.blockno}
  {
    var bufs' := bufs[b := nb];
    forall x ensures x in Dirty(bufs') <==> if x == nb.blockno then nb.dirty else x in Dirty(bufs) {
      if x in Dirty(bufs') {
        var j :| 0 <= j < NBUF && DirtyAt(bufs', j) && bufs'[j].blockno == x;
        assert j != b ==> DirtyAt(bufs, j) && !Holds(bufs[j], bufs[b].dev, bufs[b].blockno);
      }
      if x in Dirty(bufs) {
        var j :| 0 <= j < NBUF && DirtyAt(bufs, j) && bufs[j].blockno == x;
        assert j != b ==> DirtyAt(bufs', j);
      }
      assert nb.dirty ==> DirtyAt(bufs', b);
    }
  }

  lemma ReleasedKeeps(bufs: seq<Buf>, disk: Image, ring: seq<nat>, b: nat, bufs': seq<Buf>)
    requires Coherent(bufs, disk) && Ring(bufs', ring) && b < NBUF && bufs[b].holder != 0
    requires SameButLinks(bufs[b := Released(bufs[b])], bufs')
    ensures Coherent(bufs', disk) <==> Settled(bufs[b], disk)
    ensures Settled(bufs[b], disk) ==> View(bufs', disk) == View(bufs, disk) && Dirty(bufs') == Dirty(bufs)
  {
    assert Sound(bufs'[b], disk) <==> Settled(bufs[b], disk);
    if Settled(bufs[b], disk) {
      SameContents(bufs, bufs', disk);
    }
  }

  lemma UnreferencedKeeps(bufs: seq<Buf>, disk: Image, b: nat, bufs': seq<Buf>)
    requires |bufs| == NBUF + 1 && b < NBUF && (bufs[b].holder != 0 ==> bufs[b].refcnt > 1)
    requires SameButLinks(bufs[b := Unreferenced(bufs[b])], bufs')
    ensures Coherent(bufs', disk) <==> Coherent(bufs, disk)
    ensures Coherent(bufs, disk) ==> View(bufs', disk) == View(bufs, disk) && Dirty(bufs') == Dirty(bufs)
  {
    assert forall j :: 0 <= j < NBUF ==> (Sound(bufs'[j], disk) <==> Sound(bufs[j], disk));
    if Coherent(bufs, disk) {
      SameContents(bufs, bufs', disk);
    }
  }

  lemma SameContents(bufs: seq<Buf>, bufs': seq<Buf>, disk: Image)
    requires Coherent(bufs, disk) && |bufs'| == |bufs|
    requires forall j | 0 <= j < NBUF ::
        bufs'[j] == bufs[j].(refcnt := bufs'[j].refcnt, holder := bufs'[j].holder, leaving := bufs'[j].leaving, prev := bufs'[j].prev, next := bufs'[j].next)
    requires forall j :: 0 <= j < NBUF ==> Sound(bufs'[j], disk)
    ensures Coherent(bufs', disk) && View(bufs', disk) == View(bufs, disk) && Dirty(bufs') == Dirty(bufs)
  {
    assert Coherent(bufs', disk);
    forall bn: nat | bn < |disk| ensures Look(bufs', disk, bn) == Look(bufs, disk, bn) {
      assert forall i :: Caches(bufs', i, bn) <==> Caches(bufs, i, bn);
      if j :| Caches(bufs, j, bn) {
        LookCached(bufs, disk, j);
        LookCached(bufs', disk, j);
      }
    }
    assert forall i :: DirtyAt(bufs', i) <==> DirtyAt(bufs, i);
  }

  // ---------- References ----------

  lemma CountedUp(bufs: seq<Buf>, waiting: Waiting, b: nat, nb: Buf, pid: nat)
    requires Counted(bufs, waiting) && |bufs| == NBUF + 1 && b < NBUF && pid !in waiting
    requires nb.refcnt == bufs[b].refcnt + 1 && nb.holder == bufs[b].holder && nb.leaving == bufs[b].leaving
    ensures Counted(bufs[b := nb], waiting[pid := b])
  {
    var w := waiting[pid := b];
    assert Waiters(w, b) == Waiters(waiting, b) + {pid};
    assert forall j :: j != b ==> Waiters(w, j) == Waiters(waiting, j);
  }

  /** The process that gets the lock is no longer one of those that wait for it. */
  lemma CountedOver(bufs: seq<Buf>, waiting: Waiting, bufs': seq<Buf>, b: nat, pid: nat)
    requires Counted(bufs, waiting) && |bufs| == NBUF + 1 && b < NBUF && pid in waiting && waiting[pid] == b && pid != 0
    requires bufs[b].holder == 0 && |bufs'| == |bufs| && bufs' == bufs[b := bufs'[b]] && bufs'[b].holder == pid
    requires bufs'[b].refcnt == bufs[b].refcnt && bufs'[b].leaving == bufs[b].leaving
    ensures Counted(bufs', waiting - {pid})
  {
    var w := waiting - {pid};
    assert Waiters(waiting, b) == Waiters(w, b) + {pid};
    assert forall j :: j != b ==> Waiters(w, j) == Waiters(waiting, j);
  }

  lemma CountedSame(bufs: seq<Buf>, waiting: Waiting, b: nat, nb: Buf)
    requires Counted(bufs, waiting) && b < NBUF < |bufs| && nb.refcnt == bufs[b].refcnt && nb.holder == bufs[b].holder
    requires nb.leaving == bufs[b].leaving
    ensures Counted(bufs[b := nb], waiting)
  {
  }

  lemma CountedDown(bufs: seq<Buf>, waiting: Waiting, b: nat)
    requires Counted(bufs, waiting) && |bufs| == NBUF + 1 && b < NBUF
    ensures bufs[b].holder != 0 ==> Counted(bufs[b := Released(bufs[b])], waiting)
    ensures bufs[b].leaving > 0 ==> bufs[b].refcnt >= 1 && Counted(bufs[b := Unreferenced(bufs[b])], waiting)
  {
  }

  /** A buffer that somebody waits for is referenced, so bget does not recycle it. */
  lemma WaitedFor(bufs: seq<Buf>, waiting: Waiting, pid: nat)
    requires Counted(bufs, waiting) && |bufs| == NBUF + 1 && pid in waiting
    ensures waiting[pid] < NBUF && bufs[waiting[pid]].refcnt > 0
  {
    assert pid in Waiters(waiting, waiting[pid]);
  }

  /** Different pinned buffers pin different blocks. */
  lemma {:induction false} PinnedBuffers(bufs: seq<Buf>, disk: Image, S: set<nat>, D: set<nat>)
    requires Coherent(bufs, disk) && forall j :: j in S ==> DirtyAt(bufs, j) && bufs[j].blockno in D
    ensures |S| <= |D|
    decreases S
  {
    if j :| j in S {
      PinnedBuffers(bufs, disk, S - {j}, D - {bufs[j].blockno});
    }
  }

  /** As long as fewer blocks are pinned or referenced than there are buffers, bget finds one. */
  lemma UnusedExists(bufs: seq<Buf>, disk: Image, H: set<nat>)
    requires Coherent(bufs, disk) && (forall j :: 0 <= j < NBUF && bufs[j].refcnt > 0 ==> j in H) && |Dirty(bufs)| + |H| < NBUF
    ensures !NoneUnused(bufs)
  {
    if NoneUnused(bufs) {
      var S := set j | j in Range(NBUF) && DirtyAt(bufs, j);
      PinnedBuffers(bufs, disk, S, Dirty(bufs));
      IntervalSize(0, NBUF);
      assert Range(NBUF) <= S + H;
      SubsetSize(Range(NBUF), S + H);
    }
  }

  // ---------- Agreement with the disk ----------

  /** Where every buffer is settled, a block that is not pinned looks as it is on the disk. */
  lemma CleanView(bufs: seq<Buf>, disk: Image, x: nat)
    requires Coherent(bufs, disk) && Agrees(bufs, disk, {}) && x < |disk| && x !in Dirty(bufs)
    ensures View(bufs, disk)[x] == disk[x]
  {
    if j :| Caches(bufs, j, x) {
      LookCached(bufs, disk, j);
      assert !DirtyAt(bufs, j);
    }
  }

  lemma AgreesAt(bufs: seq<Buf>, disk: Image, b: nat)
    requires Agrees(bufs, disk, {}) && b < NBUF < |bufs|
    ensures Settled(bufs[b], disk)
  {
  }

  lemma AgreesMore(bufs: seq<Buf>, disk: Image, writers: set<nat>, more: set<nat>)
    requires Agrees(bufs, disk, writers) && writers <= more
    ensures Agrees(bufs, disk, more)
  {
  }

  /** A writer that has settled everything it holds is no longer one. */
  lemma AgreesLess(bufs: seq<Buf>, disk: Image, writers: set<nat>, p: nat)
    requires Agrees(bufs, disk, writers)
    requires forall j :: 0 <= j < NBUF < |bufs| && bufs[j].holder == p ==> Settled(bufs[j], disk)
    ensures Agrees(bufs, disk, writers - {p})
  {
  }

  lemma GotAgrees(bufs: seq<Buf>, disk: Image, writers: set<nat>, ring: seq<nat>, dev: nat, bno: nat, b: nat, bufs': seq<Buf>)
    requires Agrees(bufs, disk, writers) && Got(bufs, ring, dev, bno, b, bufs')
    ensures Agrees(bufs', disk, writers)
  {
  }

  lemma AcquiredAgrees(bufs: seq<Buf>, disk: Image, writers: set<nat>, b: nat, pid: nat)
    requires Agrees(bufs, disk, writers) && 0 !in writers && b < NBUF < |bufs| && bufs[b].holder == 0
    ensures Agrees(bufs[b := Acquired(bufs[b], pid, disk)], disk, writers)
    ensures Agrees(bufs[b := bufs[b].(holder := pid)], disk, writers)
  {
  }

  lemma ReleasedAgrees(bufs: seq<Buf>, disk: Image, writers: set<nat>, b: nat, bufs': seq<Buf>)
    requires Agrees(bufs, disk, writers) && b < NBUF < |bufs| && Settled(bufs[b], disk)
    requires SameButLinks(bufs[b := Released(bufs[b])], bufs')
    ensures Agrees(bufs', disk, writers)
  {
  }

  lemma UnrefAgrees(bufs: seq<Buf>, disk: Image, writers: set<nat>, b: nat, bufs': seq<Buf>)
    requires Agrees(bufs, disk, writers) && b < NBUF < |bufs| && SameButLinks(bufs[b := Unreferenced(bufs[b])], bufs')
    ensures Agrees(bufs', disk, writers)
  {
  }

  /** A buffer that is written to the disk, or marked for the log, or changed by one of the writers. */
  lemma UpdateAgrees(bufs: seq<Buf>, disk: Image, writers: set<nat>, b: nat, nb: Buf, disk': Image)
    requires Coherent(bufs, disk) && Agrees(bufs, disk, writers) && b < NBUF && bufs[b].valid
    requires Holds(nb, bufs[b].dev, bufs[b].blockno) && |disk'| == |disk| && disk' == disk[nb.blockno := disk'[nb.blockno]]
    requires nb.holder in writers || Settled(nb, disk')
    ensures Agrees(bufs[b := nb], disk', writers)
  {
    forall j | 0 <= j < NBUF && j != b && bufs[j].holder !in writers ensures Settled(bufs[j], disk') {
      assert bufs[j].valid ==> !Holds(bufs[j], bufs[b].dev, bufs[b].blockno);
    }
  }

  /** A buffer that bget has taken from a cache that nobody uses. */
  lemma GotIdle(bufs: seq<Buf>, ring: seq<nat>, dev: nat, bno: nat, b: nat, bufs': seq<Buf>)
    requires |bufs| == NBUF + 1 && Counted(bufs, map[]) && Idle(bufs) && Got(bufs, ring, dev, bno, b, bufs')
    ensures b < NBUF && |bufs'| == NBUF + 1 && bufs'[b].dev == dev && bufs'[b].blockno == bno
    ensures bufs'[b].refcnt == 1 && bufs'[b].holder == 0
    ensures forall j :: 0 <= j < NBUF && j != b ==> bufs'[j].refcnt == 0
  {
    assert Waiters(map[], b) == {};
    hide Oldest, Present;
  }

  lemma RoomInIdle(bufs: seq<Buf>)
    requires |bufs| == NBUF + 1 && Idle(bufs) && Dirty(bufs) == {}
    ensures !NoneUnused(bufs)
  {
    NotPinned(bufs, 0);
  }

  /** A process changes a buffer and releases it without log_write: the cache, which was in order
      before, then shows for a block that is not pinned what is not on the disk. */
  method ReleaseUnlogged() returns (c: Cache, r: Attempt<()>)
    ensures fresh(c) && r.Done? && !c.Valid()
  {
    hide Coherent, Ring, Counted, View, Got, Present, NoneUnused, Idle, Agrees;
    var zero, one := ZeroBlock(), ZeroBlock()[0 := 1];
    c := new Cache([zero]);
    ghost var buf0 := c.buf;
    TableThere(c);
    RoomInIdle(buf0);
    var got := c.Bget(1, ROOTDEV, 0);
    var b := got.value;
    GotIdle(buf0, c.ring, ROOTDEV, 0, b, c.buf);
    got := c.Acquire(1, b);
    TableThere(c);
    NotPinned(c.buf, b);
    c.SetData(1, b, one);
    assert one[0] != zero[0];
    r := c.Brelse(1, b);
  }

  lemma TableThere(c: Cache)
    requires c.Valid()
    ensures |c.buf| == NBUF + 1 && Counted(c.buf, c.waiting)
  {
  }

  lemma NotPinned(bufs: seq<Buf>, b: nat)
    requires b < NBUF < |bufs| && Dirty(bufs) == {}
    ensures !bufs[b].dirty
  {
    var x := bufs[b].blockno;
    assert DirtyAt(bufs, b) ==> x in Dirty(bufs);
  }
}
