/** The user-level allocator (umalloc.c): a circular, address-ordered free list.
    Addresses count units of sizeof(Header) = 8 bytes. */
module Umalloc {

  const HEADER := 8
  const WORD := 0x1_0000_0000
  const MAXUNITS := 0x1000_0000   // KERNBASE in units: no user memory lies above

  /** A run of units that starts with its header. */
  datatype Chunk = Chunk(addr: nat, size: nat)

  /** A chunk with its header at hdr (the caller gets hdr + 1), no memory, or a byte count that
      overflows the argument of sbrk, after which morecore writes a header into memory that
      sbrk never delivered. */
  datatype Outcome = Block(hdr: nat) | Null | Broken

  predicate Has(c: Chunk, u: nat) { c.addr <= u < c.addr + c.size }

  // ---------- The free list as a value ----------

  /** In address order, base (of size 0) first, and no two chunks touch. */
  ghost predicate Sorted(list: seq<Chunk>) {
    && |list| > 0 && list[0].size == 0
    && (forall i :: 0 < i < |list| ==> list[i].size > 0)
    && (forall i, j :: 0 <= i < j < |list| ==> list[i].addr + list[i].size < list[j].addr)
  }

  ghost predicate Listed(list: seq<Chunk>, u: nat) {
    exists i :: 0 <= i < |list| && Has(list[i], u)
  }

  /** list[i] is the last chunk below c, and c overlaps no chunk. */
  ghost predicate Gap(list: seq<Chunk>, i: nat, c: Chunk) {
    && i < |list| && c.size > 0
    && list[i].addr < c.addr && list[i].addr + list[i].size <= c.addr
    && (i + 1 < |list| ==> c.addr + c.size <= list[i + 1].addr)
  }

  predicate JoinsUp(list: seq<Chunk>, i: nat, c: Chunk)
    requires i < |list|
  {
    i + 1 < |list| && c.addr + c.size == list[i + 1].addr
  }

  predicate JoinsDown(list: seq<Chunk>, i: nat, c: Chunk)
    requires i < |list|
  {
    list[i].addr + list[i].size == c.addr
  }

  /** c, together with the chunk that follows it if they touch. */
  function Grown(list: seq<Chunk>, i: nat, c: Chunk): Chunk
    requires i < |list|
  {
    if JoinsUp(list, i, c) then Chunk(c.addr, c.size + list[i + 1].size) else c
  }

  /** The chunk of the new list that contains c. */
  function Merged(list: seq<Chunk>, i: nat, c: Chunk): Chunk
    requires i < |list|
  {
    var g := Grown(list, i, c);
    if JoinsDown(list, i, c) then Chunk(list[i].addr, list[i].size + g.size) else g
  }

  /** list[lo..hi] replaced by the single chunk m. */
  function Splice(list: seq<Chunk>, lo: nat, hi: nat, m: Chunk): seq<Chunk>
    requires lo <= hi <= |list|
  {
    list[..lo] + [m] + list[hi..]
  }

  /** The list after c has been returned behind list[i], joined to the neighbours it touches. */
  function Returned(list: seq<Chunk>, i: nat, c: Chunk): seq<Chunk>
    requires i < |list|
  {
    Splice(list, if JoinsDown(list, i, c) then i else i + 1, if JoinsUp(list, i, c) then i + 2 else i + 1, Merged(list, i, c))
  }

  lemma SpliceSorted(list: seq<Chunk>, lo: nat, hi: nat, m: Chunk)
    requires Sorted(list) && 0 < lo <= hi <= |list| && m.size > 0
    requires list[lo - 1].addr + list[lo - 1].size < m.addr
    requires hi < |list| ==> m.addr + m.size < list[hi].addr
    ensures Sorted(Splice(list, lo, hi, m)) && Splice(list, lo, hi, m)[0] == list[0]
  {
    var r := Splice(list, lo, hi, m);
    forall i, j | 0 <= i < j < |r| ensures r[i].addr + r[i].size < r[j].addr {
      assert i < lo - 1 ==> list[i].addr + list[i].size < list[lo - 1].addr;
    }
  }

  ghost predicate ListedOutside(list: seq<Chunk>, lo: nat, hi: nat, u: nat) {
    exists j :: 0 <= j < |list| && !(lo <= j < hi) && Has(list[j], u)
  }

  lemma SpliceCovers(list: seq<Chunk>, lo: nat, hi: nat, m: Chunk, u: nat)
    requires lo <= hi <= |list|
    ensures Listed(Splice(list, lo, hi, m), u) <==> Has(m, u) || ListedOutside(list, lo, hi, u)
  {
    var r := Splice(list, lo, hi, m);
    assert r[lo] == m;
    if j :| 0 <= j < |list| && !(lo <= j < hi) && Has(list[j], u) {
      assert r[if j < lo then j else j - hi + lo + 1] == list[j];
    }
    if j :| 0 <= j < |r| && Has(r[j], u) {
      if j != lo {
        var k := if j < lo then j else j + hi - lo - 1;
        assert list[k] == r[j] && Has(list[k], u);
      }
    }
  }

  lemma ReturnedSorted(list: seq<Chunk>, i: nat, c: Chunk)
    requires Sorted(list) && Gap(list, i, c)
    ensures Sorted(Returned(list, i, c)) && Returned(list, i, c)[0] == list[0]
  {
    SpliceSorted(list, if JoinsDown(list, i, c) then i else i + 1, if JoinsUp(list, i, c) then i + 2 else i + 1,
                 Merged(list, i, c));
  }

  /** Returning c adds exactly the units of c. */
  lemma ReturnedCovers(list: seq<Chunk>, i: nat, c: Chunk, u: nat)
    requires Sorted(list) && Gap(list, i, c)
    ensures Listed(Returned(list, i, c), u) <==> Listed(list, u) || Has(c, u)
  {
    var lo := if JoinsDown(list, i, c) then i else i + 1;
    var hi := if JoinsUp(list, i, c) then i + 2 else i + 1;
    SpliceCovers(list, lo, hi, Merged(list, i, c), u);
    assert JoinsUp(list, i, c) ==> Has(list[i + 1], u) ==> Listed(list, u);
    assert JoinsDown(list, i, c) ==> Has(list[i], u) ==> Listed(list, u);
    if j :| 0 <= j < |list| && Has(list[j], u) {
      assert lo <= j < hi ==> Has(Merged(list, i, c), u);
    }
  }

  // ---------- The list in memory ----------

  ghost function Succ(list: seq<Chunk>, i: nat): nat
    requires i < |list|
  {
    if i + 1 < |list| then list[i + 1].addr else list[0].addr
  }

  /** The headers in memory spell the circular list. */
  ghost predicate Linked(list: seq<Chunk>, ptr: map<nat, nat>, size: map<nat, nat>) {
    && (forall i :: 0 <= i < |list| ==> list[i].addr in ptr && list[i].addr in size && size[list[i].addr] == list[i].size)
    && (forall i {:trigger Succ(list, i)} :: 0 <= i < |list| ==> ptr[list[i].addr] == Succ(list, i))
  }

  /** Splicing in memory: list[lo - 1] points to m, and m to what follows. */
  lemma SpliceLinked(list: seq<Chunk>, lo: nat, hi: nat, m: Chunk,
                     ptr: map<nat, nat>, size: map<nat, nat>, ptr': map<nat, nat>, size': map<nat, nat>)
    requires Sorted(list) && Linked(list, ptr, size) && 0 < lo <= hi <= |list|
    requires Sorted(Splice(list, lo, hi, m))
    requires forall x :: x in ptr ==> x in ptr'
    requires forall x :: x in size ==> x in size'
    requires m.addr in ptr' && m.addr in size' && size'[m.addr] == m.size
    requires ptr'[m.addr] == Succ(list, hi - 1)
    requires ptr'[list[lo - 1].addr] == m.addr
    requires forall j :: 0 <= j < |list| && !(lo <= j < hi) ==> size'[list[j].addr] == list[j].size
    requires forall j :: 0 <= j < |list| && !(lo - 1 <= j < hi) ==> ptr'[list[j].addr] == ptr[list[j].addr]
    ensures Linked(Splice(list, lo, hi, m), ptr', size')
  {
    var r := Splice(list, lo, hi, m);
    forall j | 0 <= j < |r|
      ensures r[j].addr in ptr' && r[j].addr in size' && size'[r[j].addr] == r[j].size
      ensures ptr'[r[j].addr] == Succ(r, j)
    {
      if j != lo {
        var k := if j < lo then j else j + hi - lo - 1;
        assert r[j] == list[k] && ptr[list[k].addr] == Succ(list, k);
      }
    }
  }

  // ---------- Free and live chunks together ----------

  type Live = map<nat, nat>   // header address to size, for the chunks handed out

  ghost predicate InLive(live: Live, u: nat) {
    exists a :: Owns(live, a, u)
  }

  /** Free and live chunks partition the units obtained from sbrk. */
  ghost predicate Partition(list: seq<Chunk>, live: Live, obtained: set<nat>) {
    && (forall u: nat :: u in obtained <==> Listed(list, u) || InLive(live, u))
    && (forall u: nat :: InLive(live, u) ==> !Listed(list, u))
    && OneOwner(live)
  }

  /** No two chunks handed out overlap, and none overlaps a free chunk. */
  lemma LiveDisjoint(list: seq<Chunk>, live: Live, obtained: set<nat>, a: nat, b: nat, k: nat)
    requires Partition(list, live, obtained) && a in live && b in live && a != b && live[a] > 0 && live[b] > 0
    requires k < |list| && list[k].size > 0
    ensures a + live[a] <= b || b + live[b] <= a
    ensures a + live[a] <= list[k].addr || list[k].addr + list[k].size <= a
  {
    var c, d := Chunk(a, live[a]), Chunk(b, live[b]);
    var u := if a < b then b else a;
    assert OneOwnerAt(live, u) && (Has(c, u) ==> Owns(live, a, u)) && (Has(d, u) ==> Owns(live, b, u));
    var w := if a < list[k].addr then list[k].addr else a;
    assert (Has(c, w) ==> Owns(live, a, w)) && (Has(list[k], w) ==> Listed(list, w));
  }

  /** Chunks of a sorted list that share no unit with c leave it a gap. */
  lemma GapExists(list: seq<Chunk>, i: nat, c: Chunk)
    requires Sorted(list) && i < |list| && c.size > 0
    requires list[i].addr < c.addr && (i + 1 < |list| ==> c.addr < list[i + 1].addr)
    requires forall u: nat :: Has(c, u) ==> !Listed(list, u)
    ensures Gap(list, i, c)
  {
    if list[i].addr + list[i].size > c.addr {
      assert Has(c, c.addr) && Has(list[i], c.addr);
    }
    if i + 1 < |list| && c.addr + c.size > list[i + 1].addr {
      assert Has(c, list[i + 1].addr) && Has(list[i + 1], list[i + 1].addr);
    }
  }

  lemma FreePartition(list: seq<Chunk>, i: nat, live: Live, a: nat, obtained: set<nat>)
    requires Sorted(list) && a in live && Gap(list, i, Chunk(a, live[a])) && Partition(list, live, obtained)
    ensures Partition(Returned(list, i, Chunk(a, live[a])), live - {a}, obtained)
  {
    hide Returned;
    var r, live' := Returned(list, i, Chunk(a, live[a])), live - {a};
    forall u: nat ensures Listed(r, u) <==> Listed(list, u) || Has(Chunk(a, live[a]), u) {
      ReturnedCovers(list, i, Chunk(a, live[a]), u);
    }
    forall u: nat ensures InLive(live, u) <==> InLive(live', u) || Has(Chunk(a, live[a]), u) {
      assert forall b :: b != a ==> (Owns(live, b, u) <==> Owns(live', b, u));
      assert Owns(live, a, u) <==> Has(Chunk(a, live[a]), u);
    }
    forall u: nat ensures OneOwnerAt(live', u) && (InLive(live', u) ==> !Listed(r, u)) {
      assert OneOwnerAt(live, u);
      assert forall b :: Owns(live', b, u) ==> Owns(live, b, u);
      assert Owns(live, a, u) <==> Has(Chunk(a, live[a]), u);
    }
  }

  ghost predicate OneOwner(live: Live) {
    forall u: nat :: OneOwnerAt(live, u)
  }

  ghost predicate Owns(live: Live, a: nat, u: nat) {
    a in live && Has(Chunk(a, live[a]), u)
  }

  ghost predicate OneOwnerAt(live: Live, u: nat) {
    forall a, b :: Owns(live, a, u) && Owns(live, b, u) ==> a == b
  }

  lemma AddOwner(live: Live, c: Chunk, u: nat, live': Live)
    requires c.addr !in live && (Has(c, u) ==> !InLive(live, u)) && OneOwnerAt(live, u)
    requires live' == live[c.addr := c.size]
    ensures InLive(live', u) <==> InLive(live, u) || Has(c, u)
    ensures OneOwnerAt(live', u)
  {
    assert Owns(live', c.addr, u) <==> Has(c, u);
    forall b | b != c.addr ensures Owns(live', b, u) <==> Owns(live, b, u) {
    }
  }

  lemma AddLive(live: Live, c: Chunk)
    requires c.size > 0 && OneOwner(live) && forall a :: a in live ==> live[a] > 0
    requires forall u: nat :: Has(c, u) ==> !InLive(live, u)
    ensures c.addr !in live && OneOwner(live[c.addr := c.size])
    ensures forall u: nat :: InLive(live[c.addr := c.size], u) <==> InLive(live, u) || Has(c, u)
  {
    LiveHeaders(live);
    assert Has(c, c.addr);
    forall u: nat
      ensures InLive(live[c.addr := c.size], u) <==> InLive(live, u) || Has(c, u)
      ensures OneOwnerAt(live[c.addr := c.size], u)
    {
      AddOwner(live, c, u, live[c.addr := c.size]);
    }
  }

  /** sbrk delivers the units of c, which become one live chunk. */
  lemma GrowPartition(list: seq<Chunk>, live: Live, obtained: set<nat>, c: Chunk)
    requires Partition(list, live, obtained) && forall u :: u in obtained ==> u < c.addr
    requires c.size > 0 && forall a :: a in live ==> live[a] > 0
    ensures c.addr !in live && Partition(list, live[c.addr := c.size], obtained + Units(c))
  {
    AddLive(live, c);
  }

  ghost function Units(c: Chunk): (s: set<nat>)
    ensures forall u: nat :: u in s <==> Has(c, u)
  {
    set u: nat | c.addr <= u < c.addr + c.size && Has(c, u)
  }

  lemma LiveHeaders(live: Live)
    requires forall a :: a in live ==> live[a] > 0
    ensures forall a :: a in live ==> InLive(live, a)
  {
    forall a | a in live ensures InLive(live, a) {
      assert Owns(live, a, a);
    }
  }

  /** list[k] after its last n units have been cut off. */
  function Taken(list: seq<Chunk>, k: nat, n: nat): seq<Chunk>
    requires k < |list| && n <= list[k].size
  {
    if list[k].size == n then list[..k] + list[k + 1..]
    else list[k := Chunk(list[k].addr, list[k].size - n)]
  }

  function Tail(c: Chunk, n: nat): Chunk
    requires n <= c.size
  {
    Chunk(c.addr + c.size - n, n)
  }

  lemma TakenSorted(list: seq<Chunk>, k: nat, n: nat)
    requires Sorted(list) && k < |list| && 0 < n <= list[k].size
    ensures Sorted(Taken(list, k, n)) && Taken(list, k, n)[0] == list[0]
  {
  }

  lemma TakenCovers(list: seq<Chunk>, k: nat, n: nat, u: nat)
    requires Sorted(list) && k < |list| && 0 < n <= list[k].size
    ensures Listed(list, u) <==> Listed(Taken(list, k, n), u) || Has(Tail(list[k], n), u)
    ensures !(Listed(Taken(list, k, n), u) && Has(Tail(list[k], n), u))
  {
    var r, d := Taken(list, k, n), if list[k].size == n then 1 else 0;
    if j :| 0 <= j < |list| && Has(list[j], u) {
      if j != k {
        assert r[if j < k then j else j - d] == list[j];
      } else if d == 0 && !Has(Tail(list[k], n), u) {
        assert Has(r[k], u);
      }
    }
    if j :| 0 <= j < |r| && Has(r[j], u) {
      if j == k && d == 0 {
        assert Has(list[k], u);
      } else {
        assert list[if j < k then j else j + d] == r[j];
      }
    }
  }

  lemma TakePartition(list: seq<Chunk>, k: nat, n: nat, live: Live, obtained: set<nat>)
    requires Sorted(list) && Partition(list, live, obtained) && k < |list| && 0 < n <= list[k].size
    requires forall a :: a in live ==> live[a] > 0
    ensures var c := Tail(list[k], n);
            c.addr !in live && Partition(Taken(list, k, n), live[c.addr := n], obtained)
  {
    hide Taken;
    var c := Tail(list[k], n);
    var r, live' := Taken(list, k, n), live[c.addr := n];
    forall u: nat ensures Has(c, u) ==> Listed(list, u) && !InLive(live, u)
                  ensures Listed(list, u) <==> Listed(r, u) || Has(c, u)
                  ensures !(Listed(r, u) && Has(c, u)) {
      TakenCovers(list, k, n, u);
      if Has(c, u) {
        assert Has(list[k], u);
      }
    }
    AddLive(live, c);
  }

  /** Cutting a chunk in memory, or unlinking it when nothing of it is left. */
  lemma TakeLinked(list: seq<Chunk>, k: nat, n: nat,
                   ptr: map<nat, nat>, size: map<nat, nat>, ptr': map<nat, nat>, size': map<nat, nat>)
    requires Sorted(list) && Linked(list, ptr, size) && 0 < k < |list| && 0 < n <= list[k].size
    requires list[k].size == n ==> ptr' == ptr[list[k - 1].addr := ptr[list[k].addr]] && size' == size
    requires list[k].size > n ==> ptr' == ptr
                                  && size' == size[list[k].addr := list[k].size - n][Tail(list[k], n).addr := n]
    ensures Linked(Taken(list, k, n), ptr', size')
  {
    var r, d := Taken(list, k, n), if list[k].size == n then 1 else 0;
    assert ptr[list[k].addr] == Succ(list, k);
    forall j | 0 <= j < |r|
      ensures r[j].addr in ptr' && r[j].addr in size' && size'[r[j].addr] == r[j].size
      ensures ptr'[r[j].addr] == Succ(r, j)
    {
      var m := if d == 1 && j >= k then j + 1 else j;
      assert r[j].addr == list[m].addr && ptr[list[m].addr] == Succ(list, m);
      assert list[k].size > n && m > k ==> list[k].addr + list[k].size < list[m].addr;
    }
  }

  /** The headers of the live blocks, with the block cut off chunk k among them. */
  lemma TakenLive(list: seq<Chunk>, k: nat, n: nat, live: Live, size: map<nat, nat>, size': map<nat, nat>)
    requires k < |list| && 0 < n <= list[k].size && list[k].addr !in live && list[k].addr in size
    requires forall a :: a in live ==> a in size && size[a] == live[a] > 0
    requires size[list[k].addr] == list[k].size && Tail(list[k], n).addr !in live
    requires size' == if list[k].size == n then size else size[list[k].addr := list[k].size - n][Tail(list[k], n).addr := n]
    ensures var live' := live[Tail(list[k], n).addr := n];
      forall a :: a in live' ==> a in size' && size'[a] == live'[a] > 0
  {
  }

  /** The free list is linked through the headers, sorted and apart; it and the live blocks
      partition what was obtained; and live blocks still have their headers. */
  ghost predicate HeapOk(base: nat, brk: nat, freep: nat, ptr: map<nat, nat>, size: map<nat, nat>,
                         list: seq<Chunk>, live: Live, obtained: set<nat>) {
    && 0 < base < brk <= MAXUNITS
    && Sorted(list) && list[0] == Chunk(base, 0)
    && (freep == 0 ==> |list| == 1 && live == map[] && obtained == {})
    && (freep != 0 ==> Linked(list, ptr, size) && exists k :: 0 <= k < |list| && list[k].addr == freep)
    && (forall a :: a in live ==> a in size && size[a] == live[a] > 0)
    && (forall u :: u in obtained ==> base < u < brk)
    && Partition(list, live, obtained)
  }

  /** Cutting n units off chunk k, or all of it, leaves the heap in order. */
  lemma TakenOk(base: nat, brk: nat, freep: nat, ptr: map<nat, nat>, size: map<nat, nat>, list: seq<Chunk>, live: Live,
                obtained: set<nat>, k: nat, n: nat, ptr': map<nat, nat>, size': map<nat, nat>)
    requires HeapOk(base, brk, freep, ptr, size, list, live, obtained) && freep != 0
    requires 0 < k < |list| && 0 < n <= list[k].size
    requires list[k].addr in ptr && list[k - 1].addr in ptr && list[k].addr in size
    requires ptr' == if list[k].size == n then ptr[list[k - 1].addr := ptr[list[k].addr]] else ptr
    requires size' == if list[k].size == n then size else size[list[k].addr := list[k].size - n][Tail(list[k], n).addr := n]
    ensures Tail(list[k], n).addr !in live && list[k - 1].addr != 0
    ensures HeapOk(base, brk, list[k - 1].addr, ptr', size', Taken(list, k, n), live[Tail(list[k], n).addr := n], obtained)
  {
    hide Partition, Linked, Taken;
    LinkedAt(list, ptr, size, k);
    TakePartition(list, k, n, live, obtained);
    TakenSorted(list, k, n);
    LiveApart(list, live, obtained);
    TakenLive(list, k, n, live, size, size');
    TakeLinked(list, k, n, ptr, size, ptr', size');
    TakenKeepsFront(list, k, n);
    hide Sorted, Tail;
    assert Taken(list, k, n)[k - 1].addr == list[k - 1].addr;
  }

  class Heap {
    const base: nat
    var freep: nat            // 0 is the null pointer
    var ptr: map<nat, nat>    // s.ptr and s.size of the header at each address
    var size: map<nat, nat>
    var brk: nat              // end of the process's memory
    ghost var list: seq<Chunk>
    ghost var live: Live
    ghost var obtained: set<nat>

    ghost predicate Valid()
      reads this
    {
      HeapOk(base, brk, freep, ptr, size, list, live, obtained)
    }

    constructor (base: nat, brk: nat)
      requires 0 < base < brk <= MAXUNITS
      ensures Valid() && live == map[] && obtained == {}
    {
      this.base, this.brk := base, brk;
      freep, ptr, size := 0, map[], map[];
      list, live, obtained := [Chunk(base, 0)], map[], {};
    }

    /** The search loop of free: the list chunk below bp. */
    method FindPlace(bp: nat) returns (p: nat, ghost i: nat)
      requires Valid() && freep != 0 && bp > base
      requires forall k :: 0 <= k < |list| ==> list[k].addr != bp
      ensures i < |list| && p == list[i].addr
      ensures p < bp && (i + 1 < |list| ==> bp < list[i + 1].addr)
    {
      ghost var target := Below(list, bp);
      ghost var k: nat :| k < |list| && list[k].addr == freep;
      p := freep;
      while !(bp > p && bp < ptr[p])
        invariant k < |list| && p == list[k].addr && p in ptr && ptr[p] == Succ(list, k)
        decreases if k <= target then target - k else target + |list| - k
      {
        if p >= ptr[p] && (bp > p || bp < ptr[p]) {
          break;
        }
        k := if k + 1 < |list| then k + 1 else 0;
        p := ptr[p];
        assert ptr[p] == Succ(list, k);
      }
      i := k;
    }

    /** The four assignments of free. */
    method Relink(p: nat, bp: nat, ghost i: nat)
      requires Sorted(list) && Linked(list, ptr, size) && i < |list| && p == list[i].addr
      requires bp in size && Gap(list, i, Chunk(bp, size[bp])) && Sorted(Returned(list, i, Chunk(bp, size[bp])))
      requires forall j :: 0 <= j < |list| ==> list[j].addr != bp
      modifies `ptr, `size, `freep
      ensures Linked(Returned(list, i, Chunk(bp, old(size)[bp])), ptr, size) && freep == p
      ensures forall a :: a in old(size) && a != p && a != bp ==> a in size && size[a] == old(size)[a]
    {
      ghost var ptr0: map<nat, nat>, size0: map<nat, nat> := ptr, size;
      ghost var c := Chunk(bp, size[bp]);
      Neighbour(list, ptr, size, i);
      JoinTests(list, i, c);
      hide Linked, Sorted, Gap, Returned, Succ, JoinsUp, JoinsDown;
      if bp + size[bp] == ptr[p] {
        size := size[bp := size[bp] + size[ptr[p]]];
        ptr := ptr[bp := ptr[ptr[p]]];
      } else {
        ptr := ptr[bp := ptr[p]];
      }
      ghost var next: nat := if JoinsUp(list, i, c) then Succ(list, i + 1) else Succ(list, i);
      ghost var g := Grown(list, i, c);
      assert ptr == ptr0[bp := next] && size == size0[bp := g.size] && size[p] == list[i].size;
      hide Grown;
      if p + size[p] == bp {
        size := size[p := size[p] + size[bp]];
        ptr := ptr[p := ptr[bp]];
      } else {
        ptr := ptr[p := bp];
      }
      ghost var back: nat := if JoinsDown(list, i, c) then next else c.addr;
      assert ptr == ptr0[bp := next][p := back];
      freep := p;
      RelinkedList(list, i, c, ptr0, size0, ptr, size);
    }

    /** free, given the header address of the chunk. */
    method Free(bp: nat)
      requires Valid() && bp in live
      modifies this
      ensures Valid() && brk == old(brk) && freep != 0
      ensures live == old(live) - {bp} && obtained == old(obtained)
      ensures Fits(list, old(live)[bp])
    {
      hide Partition, Returned, Linked;
      ghost var c := Chunk(bp, live[bp]);
      LiveApart(list, live, obtained);
      var p, i := FindPlace(bp);
      LiveGap(list, i, live, bp, obtained);
      FreePartition(list, i, live, bp, obtained);
      ReturnedSorted(list, i, c);
      ReturnedHolds(list, i, c);
      Relink(p, bp, i);
      list, live := Returned(list, i, c), live - {bp};
    }

    /** morecore; memory says whether sbrk finds memory for a request below KERNBASE. */
    method Morecore(nunits: nat, memory: bool) returns (r: nat)
      requires Valid() && freep != 0 && 0 < nunits < MAXUNITS
      modifies this
      ensures Valid() && freep != 0 && live == old(live)
      ensures var nu := if nunits < 4096 then 4096 else nunits;
        if memory && old(brk) + nu < MAXUNITS then
          && r == freep && brk == old(brk) + nu && obtained == old(obtained) + Units(Chunk(old(brk), nu))
          && Fits(list, nunits)
        else
          r == 0 && brk == old(brk) && freep == old(freep) && list == old(list) && obtained == old(obtained)
    {
      hide Partition, Linked;
      var nu := if nunits < 4096 then 4096 else nunits;
      if !memory || brk + nu >= MAXUNITS {   // growproc and allocuvm refuse
        return 0;
      }
      var hp := brk;
      brk := brk + nu;
      LinkedElsewhere(list, ptr, size, hp, nu, obtained, live);
      size := size[hp := nu];
      GrowPartition(list, live, obtained, Chunk(hp, nu));
      live, obtained := live[hp := nu], obtained + Units(Chunk(hp, nu));
      Free(hp);
      return freep;
    }

    /** malloc has found list[k], at p behind prevp, to be large enough. */
    method Take(prevp: nat, p: nat, nunits: nat, ghost k: nat) returns (hdr: nat)
      requires Valid() && freep != 0 && 0 < k < |list| && 0 < nunits <= list[k].size
      requires p == list[k].addr && prevp == list[k - 1].addr
      modifies this
      ensures Valid() && freep != 0 && brk == old(brk) && obtained == old(obtained)
      ensures hdr !in old(live) && live == old(live)[hdr := nunits]
      ensures list == Taken(old(list), k, nunits) && Chunk(hdr, nunits) == Tail(old(list)[k], nunits)
    {
      LinkedAt(list, ptr, size, k);
      LinkedAt(list, ptr, size, k - 1);
      hide HeapOk, Linked, Taken;
      ghost var ptr0: map<nat, nat>, size0: map<nat, nat> := ptr, size;
      hdr := p;
      if size[p] == nunits {
        ptr := ptr[prevp := ptr[p]];
      } else {
        size := size[p := size[p] - nunits];
        hdr := hdr + size[p];
        size := size[hdr := nunits];
      }
      assert hdr == Tail(list[k], nunits).addr;
      TakenOk(base, brk, freep, ptr0, size0, list, live, obtained, k, nunits, ptr, size);
      hide Tail, Succ;
      freep := prevp;
      list, live := Taken(list, k, nunits), live[hdr := nunits];
    }

    /** malloc, for every request; memory says whether a request for more memory would be met. */
    method Malloc(nbytes: nat, memory: bool) returns (r: Outcome)
      requires Valid() && nbytes < WORD
      modifies this
      ensures Valid()
      ensures r.Broken? <==> UnitsFor(nbytes) >= MAXUNITS
      ensures r.Block? ==> r.hdr !in old(live) && live == old(live)[r.hdr := UnitsFor(nbytes)]
      ensures !r.Block? ==> live == old(live)
      ensures old(Fits(list, UnitsFor(nbytes))) ==> r.Block? && obtained == old(obtained) && brk == old(brk)
      ensures !old(Fits(list, UnitsFor(nbytes))) && !r.Broken? ==>
        var nu := if UnitsFor(nbytes) < 4096 then 4096 else UnitsFor(nbytes);
        if memory && old(brk) + nu < MAXUNITS then
          r.Block? && brk == old(brk) + nu && obtained == old(obtained) + Units(Chunk(old(brk), nu))
        else r.Null? && obtained == old(obtained) && brk == old(brk)
    {
      hide HeapOk, Partition, Linked, Taken, Sorted, Fits, SmallBefore, Prev, Next;
      var nunits := (nbytes + HEADER - 1) % WORD / HEADER + 1;
      if freep == 0 {
        Start();
      }
      ghost var f: nat := HeapShape();
      ghost var k: nat := Next(list, f);
      ghost var grown := false;
      LinkedAt(list, ptr, size, f);
      SmallStart(list, f, nunits);
      var prevp, p := freep, ptr[freep];
      while true
        invariant Valid() && freep != 0 && live == old(live) && Linked(list, ptr, size) && Sorted(list)
        invariant f < |list| && list[f].addr == freep
        invariant k < |list| && p == list[k].addr && prevp == list[Prev(list, k)].addr
        invariant SmallBefore(list, f, k, nunits)
        invariant !grown ==> list == old(list) && obtained == old(obtained) && brk == old(brk)
        invariant grown ==> Fits(list, nunits) && !Fits(old(list), nunits) && nunits < MAXUNITS
        invariant grown ==> var nu := if nunits < 4096 then 4096 else nunits;
                            memory && old(brk) + nu < MAXUNITS && brk == old(brk) + nu
                            && obtained == old(obtained) + Units(Chunk(old(brk), nu))
        decreases !grown, if k > f then |list| - k + f + 1 else f - k + 1
      {
        LinkedAt(list, ptr, size, k);
        SmallStep(list, f, k, nunits);
        if size[p] >= nunits {
          InMemory(k);
          var hdr := Take(prevp, p, nunits, k);
          return Block(hdr);
        }
        if p == freep {
          SortedInjective(list, k, f);
          if nunits * HEADER >= 0x8000_0000 {   // sbrk takes a signed byte count
            return Broken;
          }
          p := Morecore(nunits, memory);
          if p == 0 {
            return Null;
          }
          grown := true;
          f := HeapShape();
          k := f;
          LinkedAt(list, ptr, size, k);
          SmallStart(list, f, nunits);
        }
        prevp, p, k := p, ptr[p], Next(list, k);
      }
    }

    lemma HeapShape() returns (f: nat)
      requires Valid() && freep != 0
      ensures Sorted(list) && Linked(list, ptr, size) && f < |list| && list[f].addr == freep
    {
      hide Partition, Linked, Sorted;
      f :| f < |list| && list[f].addr == freep;
    }

    lemma InMemory(k: nat)
      requires Valid() && k < |list| && list[k].size > 0
      ensures list[k].size < MAXUNITS
    {
      hide Linked, Sorted;
      ChunkBound(list, live, obtained, k, base, brk);
    }

    /** The first call of malloc sets up the list. */
    method Start()
      requires Valid() && freep == 0
      modifies `ptr, `size, `freep
      ensures Valid() && freep != 0
    {
      freep := base;
      ptr := ptr[base := base];
      size := size[base := 0];
      assert list == [Chunk(base, 0)] && ptr[base] == Succ(list, 0);
    }
  }

  /** Index of the last chunk that starts below bp. */
  ghost function Below(list: seq<Chunk>, bp: nat): (i: nat)
    requires Sorted(list) && list[0].addr < bp
    ensures i < |list| && list[i].addr < bp
    ensures forall j :: i < j < |list| ==> list[j].addr >= bp
  {
    if list[|list| - 1].addr < bp then |list| - 1 else Below(list[..|list| - 1], bp)
  }

  /** The headers after free's four assignments. */
  /** The headers of a chunk of the list and of its successor. */
  lemma Neighbour(list: seq<Chunk>, ptr: map<nat, nat>, size: map<nat, nat>, i: nat)
    requires Linked(list, ptr, size) && i < |list|
    ensures list[i].addr in ptr && list[i].addr in size && size[list[i].addr] == list[i].size
    ensures ptr[list[i].addr] == Succ(list, i)
    ensures i + 1 < |list| ==>
      var a := list[i + 1].addr; a in ptr && a in size && size[a] == list[i + 1].size && ptr[a] == Succ(list, i + 1)
  {
    assert i + 1 < |list| ==> Succ(list, i + 1) == ptr[list[i + 1].addr];
  }

  /** What free compares addresses for. */
  lemma JoinTests(list: seq<Chunk>, i: nat, c: Chunk)
    requires Sorted(list) && Gap(list, i, c)
    ensures c.addr + c.size == Succ(list, i) <==> JoinsUp(list, i, c)
    ensures JoinsUp(list, i, c) ==> i + 1 < |list| && Succ(list, i) == list[i + 1].addr && Succ(list, i) != c.addr
    ensures list[i].addr + list[i].size == c.addr <==> JoinsDown(list, i, c)
    ensures list[i].addr != c.addr && (i + 1 < |list| ==> list[i + 1].addr != list[i].addr)
  {
  }

  lemma RelinkedList(list: seq<Chunk>, i: nat, c: Chunk, ptr: map<nat, nat>, size: map<nat, nat>,
                     ptr': map<nat, nat>, size': map<nat, nat>)
    requires Sorted(list) && Linked(list, ptr, size) && Gap(list, i, c) && c.addr in size && size[c.addr] == c.size
    requires Sorted(Returned(list, i, c))
    requires forall j :: 0 <= j < |list| ==> list[j].addr != c.addr
    requires var g, p := Grown(list, i, c), list[i].addr;
      var next := if JoinsUp(list, i, c) then Succ(list, i + 1) else Succ(list, i);
      && ptr' == ptr[c.addr := next][p := if JoinsDown(list, i, c) then next else c.addr]
      && size' == (var s := size[c.addr := g.size];
                   if JoinsDown(list, i, c) then s[p := list[i].size + g.size] else s)
    ensures Linked(Returned(list, i, c), ptr', size')
  {
    var lo := if JoinsDown(list, i, c) then i else i + 1;
    var hi := if JoinsUp(list, i, c) then i + 2 else i + 1;
    assert lo < |list| && lo > 0 ==> ptr[list[lo - 1].addr] == Succ(list, lo - 1);
    SpliceLinked(list, lo, hi, Merged(list, i, c), ptr, size, ptr', size');
  }

  lemma ReturnedHolds(list: seq<Chunk>, i: nat, c: Chunk)
    requires Gap(list, i, c)
    ensures var r := Returned(list, i, c);
      && Fits(r, c.size)
      && i < |r| && r[i].addr == list[i].addr
  {
    var lo := if JoinsDown(list, i, c) then i else i + 1;
    assert Returned(list, i, c)[lo] == Merged(list, i, c);
  }

  /** Live chunks hold units from sbrk, and none starts where a free chunk starts. */
  lemma LiveApart(list: seq<Chunk>, live: Live, obtained: set<nat>)
    requires Sorted(list) && Partition(list, live, obtained)
    requires (forall a :: a in live ==> live[a] > 0) && forall u :: u in obtained ==> list[0].addr < u
    ensures forall a :: a in live ==> a in obtained && a > list[0].addr
    ensures forall a, k :: a in live && 0 <= k < |list| ==> list[k].addr != a
  {
    LiveHeaders(live);
    forall a, k | a in live && 0 < k < |list| ensures list[k].addr != a {
      assert Has(list[k], list[k].addr);
    }
  }

  lemma LiveGap(list: seq<Chunk>, i: nat, live: Live, a: nat, obtained: set<nat>)
    requires Sorted(list) && Partition(list, live, obtained) && a in live && live[a] > 0 && i < |list|
    requires list[i].addr < a && (i + 1 < |list| ==> a < list[i + 1].addr)
    ensures Gap(list, i, Chunk(a, live[a]))
  {
    assert forall u: nat :: Has(Chunk(a, live[a]), u) ==> Owns(live, a, u);
    GapExists(list, i, Chunk(a, live[a]));
  }

  /** A header written above everything obtained so far disturbs no header of the list. */
  lemma LinkedElsewhere(list: seq<Chunk>, ptr: map<nat, nat>, size: map<nat, nat>, hp: nat, n: nat,
                        obtained: set<nat>, live: Live)
    requires Sorted(list) && Linked(list, ptr, size) && Partition(list, live, obtained)
    requires list[0].addr < hp && forall u :: u in obtained ==> u < hp
    ensures Linked(list, ptr, size[hp := n])
  {
    forall k | 0 <= k < |list| ensures list[k].addr != hp {
      if k > 0 {
        assert Has(list[k], list[k].addr) && Listed(list, list[k].addr);
      }
    }
  }

  /** No free chunk is larger than what was obtained. */
  lemma ChunkBound(list: seq<Chunk>, live: Live, obtained: set<nat>, k: nat, lo: nat, hi: nat)
    requires Partition(list, live, obtained) && k < |list| && list[k].size > 0
    requires forall u :: u in obtained ==> lo < u < hi
    ensures lo < list[k].addr && list[k].addr + list[k].size <= hi
  {
    assert Has(list[k], list[k].addr) && Has(list[k], list[k].addr + list[k].size - 1);
    assert Listed(list, list[k].addr) && Listed(list, list[k].addr + list[k].size - 1);
  }

  /** nunits of malloc, computed in 32-bit unsigned arithmetic. */
  function UnitsFor(nbytes: nat): (n: nat)
    requires nbytes < WORD
    ensures n > 0
  {
    (nbytes + HEADER - 1) % WORD / HEADER + 1
  }

  /** What malloc hands out has room for the request, exactly if rounding up does not overflow. */
  lemma EnoughRoom(nbytes: nat)
    requires nbytes < WORD
    ensures (UnitsFor(nbytes) - 1) * HEADER >= nbytes <==> nbytes + HEADER - 1 < WORD
  {
  }

  /** malloc(0xfffffff9) computes a request of one unit, the header, and succeeds on any free block. */
  lemma WrappedRequest()
    ensures UnitsFor(0xffff_fff9) == 1 && (UnitsFor(0xffff_fff9) - 1) * HEADER < 0xffff_fff9
  {
  }

  ghost predicate Fits(list: seq<Chunk>, n: nat) {
    exists k :: 0 <= k < |list| && list[k].size >= n
  }

  ghost function Next(list: seq<Chunk>, k: nat): (n: nat)
    requires k < |list|
    ensures n < |list|
  {
    if k + 1 < |list| then k + 1 else 0
  }

  ghost function Prev(list: seq<Chunk>, k: nat): (p: nat)
    requires k < |list|
    ensures p < |list|
  {
    if k > 0 then k - 1 else |list| - 1
  }

  /** Going round a list of n chunks from f + 1 on, m comes before k. */
  ghost predicate Passed(n: nat, f: nat, k: nat, m: nat) {
    if k > f then f < m < k else f < m < n || m < k
  }

  /** The chunks passed since freep are all too small. */
  ghost predicate SmallBefore(list: seq<Chunk>, f: nat, k: nat, n: nat) {
    forall m :: 0 <= m < |list| && Passed(|list|, f, k, m) ==> list[m].size < n
  }

  lemma SmallStart(list: seq<Chunk>, f: nat, n: nat)
    requires f < |list|
    ensures SmallBefore(list, f, Next(list, f), n)
    ensures Next(list, f) < |list| && Prev(list, Next(list, f)) == f
  {
  }

  lemma SmallStep(list: seq<Chunk>, f: nat, k: nat, n: nat)
    requires Sorted(list) && n > 0 && f < |list| && k < |list| && SmallBefore(list, f, k, n)
    ensures list[k].size < n && k != f ==> SmallBefore(list, f, Next(list, k), n)
    ensures list[k].size < n && k == f ==> !Fits(list, n)
    ensures list[k].size >= n ==> Fits(list, n) && k > 0 && Prev(list, k) == k - 1
    ensures Next(list, k) < |list| && Prev(list, Next(list, k)) == k && (Next(list, k) == k + 1 || (Next(list, k) == 0 && k == |list| - 1))
  {
  }

  lemma LinkedAt(list: seq<Chunk>, ptr: map<nat, nat>, size: map<nat, nat>, k: nat)
    requires Linked(list, ptr, size) && k < |list|
    ensures list[k].addr in ptr && list[k].addr in size
    ensures ptr[list[k].addr] == list[Next(list, k)].addr && size[list[k].addr] == list[k].size
  {
    assert ptr[list[k].addr] == Succ(list, k);
  }

  lemma SortedInjective(list: seq<Chunk>, i: nat, j: nat)
    requires Sorted(list) && i < |list| && j < |list| && list[i].addr == list[j].addr
    ensures i == j
  {
  }

  lemma TakenKeepsFront(list: seq<Chunk>, k: nat, n: nat)
    requires 0 < k < |list| && 0 < n <= list[k].size
    ensures |Taken(list, k, n)| > k - 1 && Taken(list, k, n)[k - 1] == list[k - 1]
  {
  }
}
