/** Physical pages, two-level page tables in them, and who owns which page (kalloc.c, vm.c). */
module PageTables {
  import opened Blocks

  const PGSIZE := 4096
  const NENTRIES := 1024         // entries of a page directory or a page table
  const KERNBASE := 0x8000_0000
  const USERPAGES := 0x8_0000    // KERNBASE / PGSIZE
  const ALLPAGES := 0x10_0000    // pages of the virtual address space
  const PTE_P := 1
  const PTE_WU := 6              // PTE_W | PTE_U

  /** A page of physical memory, as its words. */
  type Frame = f: seq<uint32> | |f| == 1024 witness seq(1024, _ => 0)

  function Filled(w: uint32): (f: Frame)
    ensures forall i :: 0 <= i < NENTRIES ==> f[i] == w
  {
    seq(NENTRIES, _ => w)
  }

  predicate Present(w: uint32) { w % 2 == 1 }

  /** PTE_ADDR as a page number, and PTE_FLAGS. */
  function PN(w: uint32): (n: nat)
    ensures n < ALLPAGES
  {
    w / PGSIZE
  }

  function Flags(w: uint32): nat { w % PGSIZE }

  /** pa | flags | PTE_P for the page p. */
  function Pte(p: nat, flags: nat): (w: uint32)
    requires p < ALLPAGES && flags < PGSIZE
    ensures Present(w) && PN(w) == p && Flags(w) == if flags % 2 == 1 then flags else flags + 1
  {
    p * PGSIZE + if flags % 2 == 1 then flags else flags + 1
  }

  /** The page table entry of virtual page v in the address space of directory d; 0 if no table. */
  function Leaf(m: seq<Frame>, d: nat, v: nat): uint32
    requires d < |m| && v < ALLPAGES
  {
    var e := m[d][v / NENTRIES];
    if Present(e) && PN(e) < |m| then m[PN(e)][v % NENTRIES] else 0
  }

  /** What of an address space takes up a page: the directory, a table, a page of user memory. */
  datatype Slot = Root | Table(i: nat) | User(v: nat)

  ghost predicate Owns(m: seq<Frame>, d: nat, s: Slot, p: nat) {
    && d < |m|
    && match s
       case Root => p == d
       case Table(i) => i < NENTRIES && Present(m[d][i]) && PN(m[d][i]) == p
       case User(v) => v < USERPAGES && Present(Leaf(m, d, v)) && PN(Leaf(m, d, v)) == p
  }

  /** Memory: the free list, the page directories in use, and pages in other hands (kernel stacks,
      pipes, and pages between kalloc and their place in a page table). */
  datatype Mem = Mem(m: seq<Frame>, free: seq<nat>, roots: set<nat>, other: set<nat>)

  ghost predicate Owned(s: Mem, p: nat) { exists d, k :: d in s.roots && Owns(s.m, d, k, p) }

  /** No page is in two places. */
  ghost predicate Exclusive(s: Mem, lo: nat) {
    && (forall d, k, p: nat :: d in s.roots && Owns(s.m, d, k, p) ==> lo <= p < |s.m| && p !in s.free && p !in s.other)
    && (forall d, k, e, l, p :: d in s.roots && e in s.roots && Owns(s.m, d, k, p) && Owns(s.m, e, l, p) ==> d == e && k == l)
    && (forall i, j :: 0 <= i < j < |s.free| ==> s.free[i] != s.free[j])
    && (forall p :: p in s.free ==> lo <= p < |s.m| && p !in s.other)
    && (forall p :: p in s.other ==> lo <= p < |s.m|)
  }

  /** Every page from lo on is on the free list once, or owned once, or in other hands. */
  ghost predicate Conserved(s: Mem, lo: nat) {
    && 0 < lo <= |s.m| <= ALLPAGES && Exclusive(s, lo) && (forall d :: d in s.roots ==> d < |s.m|)
    && forall p :: lo <= p < |s.m| ==> p in s.free || p in s.other || Owned(s, p)
  }

  // ---------- Steps ----------

  lemma SameOwners(s: Mem, s': Mem, lo: nat)
    requires Conserved(s, lo) && |s'.m| == |s.m| && s'.roots == s.roots
    requires forall d, k, p :: d in s.roots ==> (Owns(s'.m, d, k, p) <==> Owns(s.m, d, k, p))
    requires forall p :: lo <= p < |s.m| ==> ((p in s'.free || p in s'.other) <==> (p in s.free || p in s.other))
    requires forall i, j :: 0 <= i < j < |s'.free| ==> s'.free[i] != s'.free[j]
    requires forall p :: p in s'.free ==> lo <= p < |s.m| && p !in s'.other
    requires forall p :: p in s'.other ==> lo <= p < |s.m|
    ensures Conserved(s', lo)
  {
    forall p: nat ensures Owned(s', p) <==> Owned(s, p) {
      if d, k :| d in s.roots && Owns(s.m, d, k, p) {
        assert Owns(s'.m, d, k, p);
      }
      if d, k :| d in s.roots && Owns(s'.m, d, k, p) {
        assert Owns(s.m, d, k, p);
      }
    }
  }

  /** A page that holds no directory and no table may change. */
  lemma DataWrite(s: Mem, lo: nat, x: nat, f: Frame)
    requires Conserved(s, lo) && x < |s.m| && forall d, k :: d in s.roots && Owns(s.m, d, k, x) ==> k.User?
    ensures var s' := s.(m := s.m[x := f]);
      && Conserved(s', lo) && (forall d, k, p :: d in s.roots ==> (Owns(s'.m, d, k, p) <==> Owns(s.m, d, k, p)))
      && (forall d, v :: d in s.roots && 0 <= v < ALLPAGES ==> Leaf(s'.m, d, v) == Leaf(s.m, d, v))
  {
    var s' := s.(m := s.m[x := f]);
    forall d: nat, v: nat | d in s.roots && v < ALLPAGES ensures Leaf(s'.m, d, v) == Leaf(s.m, d, v) && s'.m[d] == s.m[d] {
      assert Owns(s.m, d, Root, d);
      if Present(s.m[d][v / NENTRIES]) {
        assert Owns(s.m, d, Table(v / NENTRIES), PN(s.m[d][v / NENTRIES]));
      }
    }
    forall d: nat, k: Slot, p: nat | d in s.roots ensures Owns(s'.m, d, k, p) <==> Owns(s.m, d, k, p) {
      assert Owns(s.m, d, Root, d);
      assert k.User? && k.v < USERPAGES ==> Leaf(s'.m, d, k.v) == Leaf(s.m, d, k.v);
    }
    SameOwners(s, s', lo);
  }

  /** kalloc: the first page of the free list changes hands. */
  lemma Taken(s: Mem, lo: nat)
    requires Conserved(s, lo) && s.free != []
    ensures Conserved(s.(free := s.free[1..], other := s.other + {s.free[0]}), lo)
    ensures lo <= s.free[0] < |s.m| && s.free[0] !in s.other && !Owned(s, s.free[0])
  {
    assert s.free[0] in s.free;
    forall p | p in s.free[1..] ensures p in s.free && p != s.free[0] {
      var i :| 0 <= i < |s.free[1..]| && s.free[1..][i] == p;
      assert s.free[i + 1] == p;
    }
    SameOwners(s, s.(free := s.free[1..], other := s.other + {s.free[0]}), lo);
  }

  /** kfree: a page in other hands goes to the front of the free list, filled with junk. */
  lemma Given(s: Mem, lo: nat, p: nat, f: Frame)
    requires Conserved(s, lo) && p in s.other
    ensures Conserved(s.(m := s.m[p := f], free := [p] + s.free, other := s.other - {p}), lo)
  {
    assert forall d, k :: d in s.roots ==> !Owns(s.m, d, k, p);
    DataWrite(s, lo, p, f);
    SameOwners(s.(m := s.m[p := f]), s.(m := s.m[p := f], free := [p] + s.free, other := s.other - {p}), lo);
  }

  /** s' owns what s owns, and page p in slot k of directory d besides. */
  ghost predicate OwnerAdded(s: Mem, s': Mem, d: nat, k: Slot, p: nat) {
    && !(exists q :: Owns(s.m, d, k, q)) && d in s.roots
    && forall e, l, q :: e in s.roots ==> (Owns(s'.m, e, l, q) <==> Owns(s.m, e, l, q) || (e == d && l == k && q == p))
  }

  lemma AddedKeeps(s: Mem, s': Mem, lo: nat, d: nat, k: Slot, p: nat)
    requires Conserved(s, lo) && OwnerAdded(s, s', d, k, p) && |s'.m| == |s.m| && p in s.other
    requires s'.free == s.free && s'.roots == s.roots && s'.other == s.other - {p}
    ensures Conserved(s', lo)
  {
    assert Owns(s'.m, d, k, p);
    forall q: nat ensures Owned(s', q) <==> Owned(s, q) || q == p {
      if e, l :| e in s.roots && Owns(s.m, e, l, q) {
        assert Owns(s'.m, e, l, q);
      }
    }
    assert Exclusive(s', lo) by {
      forall e, l, e', l', q | e in s.roots && e' in s.roots && Owns(s'.m, e, l, q) && Owns(s'.m, e', l', q) ensures e == e' && l == l' {
        if q == p {
          assert !Owns(s.m, e, l, p) && !Owns(s.m, e', l', p);
        }
      }
    }
  }

  /** s' owns what s owns, except page p in slot k of directory d. */
  ghost predicate OwnerGone(s: Mem, s': Mem, d: nat, k: Slot, p: nat) {
    && Owns(s.m, d, k, p) && d in s.roots
    && forall e, l, q :: e in s.roots ==> (Owns(s'.m, e, l, q) <==> Owns(s.m, e, l, q) && !(e == d && l == k))
  }

  lemma GoneKeeps(s: Mem, s': Mem, lo: nat, d: nat, k: Slot, p: nat)
    requires Conserved(s, lo) && OwnerGone(s, s', d, k, p) && |s'.m| == |s.m|
    requires s'.free == [p] + s.free && s'.roots == s.roots && s'.other == s.other
    ensures Conserved(s', lo)
  {
    forall q: nat ensures Owned(s', q) <==> Owned(s, q) && q != p {
      if e, l :| e in s.roots && Owns(s.m, e, l, q) {
        if q != p {
          assert !(e == d && l == k);
          assert Owns(s'.m, e, l, q);
        }
      }
    }
  }

  /** A page holding a directory or a table of some address space. */
  /** Writing an entry of a table of d changes one leaf of d and nothing else. */
  lemma LeafWritten(s: Mem, lo: nat, d: nat, v: nat, w: uint32)
    requires Conserved(s, lo) && d in s.roots && v < ALLPAGES && Present(s.m[d][v / NENTRIES])
    ensures PN(s.m[d][v / NENTRIES]) < |s.m|
    ensures var t := PN(s.m[d][v / NENTRIES]);
      var s' := s.(m := s.m[t := s.m[t][v % NENTRIES := w]]);
      && (forall e, u :: e in s.roots && 0 <= u < ALLPAGES ==>
            Leaf(s'.m, e, u) == if e == d && u == v then w else Leaf(s.m, e, u))
      && (forall e :: e in s.roots ==> s'.m[e] == s.m[e])
  {
    var t := PN(s.m[d][v / NENTRIES]);
    assert Owns(s.m, d, Table(v / NENTRIES), t);
    var s' := s.(m := s.m[t := s.m[t][v % NENTRIES := w]]);
    forall e: nat | e in s.roots ensures s'.m[e] == s.m[e] {
      assert Owns(s.m, e, Root, e);
    }
    forall e: nat, u: nat | e in s.roots && u < ALLPAGES
      ensures Leaf(s'.m, e, u) == if e == d && u == v then w else Leaf(s.m, e, u)
    {
      var x := s.m[e][u / NENTRIES];
      if Present(x) {
        assert Owns(s.m, e, Table(u / NENTRIES), PN(x));
        if PN(x) == t {
          assert e == d && u / NENTRIES == v / NENTRIES;
        }
      }
    }
  }

  /** A user page is mapped. */
  lemma Mapped(s: Mem, lo: nat, d: nat, v: nat, p: nat, flags: nat)
    requires Conserved(s, lo) && d in s.roots && v < USERPAGES && Present(s.m[d][v / NENTRIES]) && !Present(Leaf(s.m, d, v))
    requires p in s.other && flags < PGSIZE
    ensures PN(s.m[d][v / NENTRIES]) < |s.m| && p < ALLPAGES
    ensures var t := PN(s.m[d][v / NENTRIES]);
      var s' := s.(m := s.m[t := s.m[t][v % NENTRIES := Pte(p, flags)]], other := s.other - {p});
      Conserved(s', lo) && OwnerAdded(s, s', d, User(v), p)
  {
    var w, t := Pte(p, flags), PN(s.m[d][v / NENTRIES]);
    LeafWritten(s, lo, d, v, w);
    var s' := s.(m := s.m[t := s.m[t][v % NENTRIES := w]], other := s.other - {p});
    forall e: nat, k: Slot, q: nat | e in s.roots
      ensures Owns(s'.m, e, k, q) <==> Owns(s.m, e, k, q) || (e == d && k == User(v) && q == p)
    {
      assert k.User? && k.v < USERPAGES ==> Leaf(s'.m, e, k.v) == if e == d && k.v == v then w else Leaf(s.m, e, k.v);
    }
    AddedKeeps(s, s', lo, d, User(v), p);
  }

  /** A page of kernel memory is mapped; the address space does not own it. */
  lemma KernelMapped(s: Mem, lo: nat, d: nat, v: nat, w: uint32)
    requires Conserved(s, lo) && d in s.roots && USERPAGES <= v < ALLPAGES && Present(s.m[d][v / NENTRIES])
    ensures PN(s.m[d][v / NENTRIES]) < |s.m|
    ensures var t := PN(s.m[d][v / NENTRIES]);
      var s' := s.(m := s.m[t := s.m[t][v % NENTRIES := w]]);
      Conserved(s', lo) && forall e, k, q :: e in s.roots ==> (Owns(s'.m, e, k, q) <==> Owns(s.m, e, k, q))
  {
    var t := PN(s.m[d][v / NENTRIES]);
    LeafWritten(s, lo, d, v, w);
    var s' := s.(m := s.m[t := s.m[t][v % NENTRIES := w]]);
    forall e: nat, k: Slot, q: nat | e in s.roots ensures Owns(s'.m, e, k, q) <==> Owns(s.m, e, k, q) {
      assert k.User? && k.v < USERPAGES ==> Leaf(s'.m, e, k.v) == Leaf(s.m, e, k.v);
    }
    SameOwners(s, s', lo);
  }

  /** A zeroed page becomes a page table; no leaf changes. */
  lemma TableAdded(s: Mem, lo: nat, d: nat, i: nat, t: nat)
    requires Conserved(s, lo) && d in s.roots && i < NENTRIES && !Present(s.m[d][i]) && t in s.other && s.m[t] == Filled(0)
    ensures t < ALLPAGES
    ensures var s' := s.(m := s.m[d := s.m[d][i := Pte(t, PTE_WU)]], other := s.other - {t});
      && Conserved(s', lo) && OwnerAdded(s, s', d, Table(i), t)
      && forall e, u :: e in s.roots && 0 <= u < ALLPAGES ==> Leaf(s'.m, e, u) == Leaf(s.m, e, u)
  {
    var s' := s.(m := s.m[d := s.m[d][i := Pte(t, PTE_WU)]], other := s.other - {t});
    assert Owns(s.m, d, Root, d);
    forall e: nat, u: nat | e in s.roots && u < ALLPAGES ensures Leaf(s'.m, e, u) == Leaf(s.m, e, u) {
      assert Owns(s.m, e, Root, e);
      var x := s.m[e][u / NENTRIES];
      assert Present(x) ==> Owns(s.m, e, Table(u / NENTRIES), PN(x));
    }
    forall e: nat, k: Slot, q: nat | e in s.roots
      ensures Owns(s'.m, e, k, q) <==> Owns(s.m, e, k, q) || (e == d && k == Table(i) && q == t)
    {
      assert Owns(s.m, e, Root, e);
      assert k.User? && k.v < USERPAGES ==> Leaf(s'.m, e, k.v) == Leaf(s.m, e, k.v);
    }
    AddedKeeps(s, s', lo, d, Table(i), t);
  }

  /** A user page is unmapped and freed. */
  lemma Unmapped(s: Mem, lo: nat, d: nat, v: nat, junk: Frame)
    requires Conserved(s, lo) && d in s.roots && v < USERPAGES && Present(Leaf(s.m, d, v))
    ensures var t, p := PN(s.m[d][v / NENTRIES]), PN(Leaf(s.m, d, v));
      && t < |s.m| && lo <= p < |s.m| && t != p && p != d
    ensures var t, p := PN(s.m[d][v / NENTRIES]), PN(Leaf(s.m, d, v));
      var s' := s.(m := s.m[p := junk][t := s.m[t][v % NENTRIES := 0]], free := [p] + s.free);
      && Conserved(s', lo) && OwnerGone(s, s', d, User(v), p)
      && (forall e, u :: e in s.roots && 0 <= u < ALLPAGES ==>
            Leaf(s'.m, e, u) == if e == d && u == v then 0 else Leaf(s.m, e, u))
      && (forall e :: e in s.roots ==> s'.m[e] == s.m[e])
  {
    var t, p := PN(s.m[d][v / NENTRIES]), PN(Leaf(s.m, d, v));
    assert Owns(s.m, d, Table(v / NENTRIES), t) && Owns(s.m, d, User(v), p) && Owns(s.m, d, Root, d);
    DataWrite(s, lo, p, junk);
    var s1 := s.(m := s.m[p := junk]);
    forall e: nat | e in s.roots ensures s1.m[e] == s.m[e] {
      assert Owns(s.m, e, Root, e);
    }
    LeafWritten(s1, lo, d, v, 0);
    var s' := s.(m := s.m[p := junk][t := s.m[t][v % NENTRIES := 0]], free := [p] + s.free);
    forall e: nat, k: Slot, q: nat | e in s.roots
      ensures Owns(s'.m, e, k, q) <==> Owns(s.m, e, k, q) && !(e == d && k == User(v))
    {
      assert k.User? && k.v < USERPAGES ==> Leaf(s'.m, e, k.v) == if e == d && k.v == v then 0 else Leaf(s.m, e, k.v);
    }
    GoneKeeps(s, s', lo, d, User(v), p);
  }

  /** A zeroed page becomes the directory of an empty address space. */
  lemma RootAdded(s: Mem, lo: nat, d: nat)
    requires Conserved(s, lo) && d in s.other && s.m[d] == Filled(0)
    ensures var s' := s.(roots := s.roots + {d}, other := s.other - {d});
      Conserved(s', lo) && forall v :: 0 <= v < ALLPAGES ==> Leaf(s'.m, d, v) == 0
  {
    var s' := s.(roots := s.roots + {d}, other := s.other - {d});
    assert forall k, p :: Owns(s.m, d, k, p) <==> k == Root && p == d;
    assert Owns(s.m, d, Root, d);
    assert d !in s.roots;
    forall q: nat ensures Owned(s', q) <==> Owned(s, q) || q == d {
      if e, l :| e in s.roots && Owns(s.m, e, l, q) {
        assert e in s'.roots && Owns(s'.m, e, l, q);
      }
      assert Owns(s'.m, d, Root, d);
    }
    assert Exclusive(s', lo) by {
      forall e, l, e', l', q | e in s'.roots && e' in s'.roots && Owns(s'.m, e, l, q) && Owns(s'.m, e', l', q) ensures e == e' && l == l' {
      }
    }
  }

  /** The directory and the tables of an address space. */
  ghost function Skeleton(m: seq<Frame>, d: nat): (r: set<nat>)
    requires d < |m|
    ensures d in r && forall i :: 0 <= i < NENTRIES && Present(m[d][i]) ==> PN(m[d][i]) in r
    ensures forall p :: p in r ==> Owns(m, d, Root, p) || exists i :: Owns(m, d, Table(i), p)
  {
    var tables := set i | 0 <= i < NENTRIES && Present(m[d][i]) :: PN(m[d][i]);
    assert forall i :: 0 <= i < NENTRIES && Present(m[d][i]) ==> Owns(m, d, Table(i), PN(m[d][i]));
    {d} + tables
  }

  /** An address space without user pages is given up: its skeleton is in other hands now. */
  lemma RootDropped(s: Mem, lo: nat, d: nat)
    requires Conserved(s, lo) && d in s.roots && forall v :: 0 <= v < USERPAGES ==> !Present(Leaf(s.m, d, v))
    ensures Conserved(s.(roots := s.roots - {d}, other := s.other + Skeleton(s.m, d)), lo)
    ensures forall p :: p in Skeleton(s.m, d) ==> lo <= p < |s.m| && p !in s.other && p !in s.free
  {
    var r := Skeleton(s.m, d);
    var s' := s.(roots := s.roots - {d}, other := s.other + r);
    forall p | p in r ensures lo <= p < |s.m| && p !in s.other && p !in s.free && !Owned(s', p) {
      var k :| Owns(s.m, d, k, p);
      assert forall e, l :: e in s'.roots ==> !Owns(s.m, e, l, p);
    }
    forall q: nat | lo <= q < |s.m| ensures q in s'.free || q in s'.other || Owned(s', q) {
      if e, l :| e in s.roots && Owns(s.m, e, l, q) {
        if e == d {
          assert q in r;
        } else {
          assert e in s'.roots && Owns(s'.m, e, l, q);
        }
      }
    }
  }

  // ---------- The page-by-page sweep ----------

  const JUNK: uint32 := 0x0101_0101

  /** Unmap and free virtual page v, if it is mapped. */
  ghost function SweepPage(s: Mem, d: nat, v: nat): (s': Mem)
    requires d < |s.m| && v < USERPAGES
    ensures |s'.m| == |s.m| && s'.roots == s.roots && s'.other == s.other
  {
    var w, t := Leaf(s.m, d, v), PN(s.m[d][v / NENTRIES]);
    if !Present(w) || PN(w) >= |s.m| then s
    else
      var m := s.m[PN(w) := Filled(JUNK)];
      s.(m := m[t := m[t][v % NENTRIES := 0]], free := [PN(w)] + s.free)
  }

  ghost function Sweep(s: Mem, d: nat, a: nat, b: nat): (s': Mem)
    requires d < |s.m| && b <= USERPAGES
    ensures |s'.m| == |s.m| && s'.roots == s.roots && s'.other == s.other
    decreases b - a
  {
    if a >= b then s else Sweep(SweepPage(s, d, a), d, a + 1, b)
  }

  lemma SweepPageKeeps(s: Mem, lo: nat, d: nat, v: nat)
    requires Conserved(s, lo) && d in s.roots && v < USERPAGES
    ensures var s' := SweepPage(s, d, v);
      && Conserved(s', lo) && s'.m[d] == s.m[d] && !Present(Leaf(s'.m, d, v))
      && (forall u :: 0 <= u < ALLPAGES && u != v ==> Leaf(s'.m, d, u) == Leaf(s.m, d, u))
      && (forall e, u :: e in s.roots && e != d && 0 <= u < ALLPAGES ==> Leaf(s'.m, e, u) == Leaf(s.m, e, u))
      && (forall k, p: nat :: Owns(s'.m, d, k, p) <==> Owns(s.m, d, k, p) && k != User(v))
      && (forall p :: p in s'.free <==> p in s.free || Owns(s.m, d, User(v), p))
  {
    var w := Leaf(s.m, d, v);
    if Present(w) {
      assert Owns(s.m, d, User(v), PN(w));
      Unmapped(s, lo, d, v, Filled(JUNK));
    }
  }

  /** Page x is not among what the sweep of a .. b of d changes. */
  ghost predicate Spared(m: seq<Frame>, d: nat, a: nat, b: nat, x: nat) {
    forall k :: Owns(m, d, k, x) ==> k.User? && !(a <= k.v < b)
  }

  lemma SweepPageSpares(s: Mem, lo: nat, d: nat, v: nat, x: nat)
    requires Conserved(s, lo) && d in s.roots && v < USERPAGES && x < |s.m| && Spared(s.m, d, v, v + 1, x)
    ensures SweepPage(s, d, v).m[x] == s.m[x]
  {
    var w, t := Leaf(s.m, d, v), PN(s.m[d][v / NENTRIES]);
    if Present(w) {
      assert Owns(s.m, d, User(v), PN(w));
      assert Owns(s.m, d, Table(v / NENTRIES), t);
    }
  }

  /** Pages of other owners, and user pages out of the range, keep their contents. */
  lemma {:induction false} SweepSpares(s: Mem, lo: nat, d: nat, a: nat, b: nat, x: nat)
    requires Conserved(s, lo) && d in s.roots && b <= USERPAGES && x < |s.m| && Spared(s.m, d, a, b, x)
    ensures Sweep(s, d, a, b).m[x] == s.m[x]
    decreases b - a
  {
    assert d < |s.m|;
    hide Conserved, Leaf, Owns;
    if a < b {
      var s1 := SweepPage(s, d, a);
      SweepPageKeeps(s, lo, d, a);
      SweepPageSpares(s, lo, d, a, x);
      SweepSpares(s1, lo, d, a + 1, b, x);
    }
  }

  /** What d owns after a sweep. */
  lemma {:induction false} SweepOwners(s: Mem, lo: nat, d: nat, a: nat, b: nat, k: Slot, p: nat)
    requires Conserved(s, lo) && d in s.roots && b <= USERPAGES
    ensures Owns(Sweep(s, d, a, b).m, d, k, p) <==> Owns(s.m, d, k, p) && !(k.User? && a <= k.v < b)
    decreases b - a
  {
    assert d < |s.m|;
    hide Conserved, Leaf, Owns;
    if a < b {
      var s1 := SweepPage(s, d, a);
      SweepPageKeeps(s, lo, d, a);
      SweepOwners(s1, lo, d, a + 1, b, k, p);
    }
  }

  /** Exactly the pages that were mapped in the range have become free. */
  lemma {:induction false} SweepFrees(s: Mem, lo: nat, d: nat, a: nat, b: nat, p: nat)
    requires Conserved(s, lo) && d in s.roots && b <= USERPAGES
    ensures p in Sweep(s, d, a, b).free <==> p in s.free || exists v :: a <= v < b && Owns(s.m, d, User(v), p)
    decreases b - a
  {
    assert d < |s.m|;
    hide Conserved, Leaf, Owns;
    if a < b {
      var s1 := SweepPage(s, d, a);
      SweepPageKeeps(s, lo, d, a);
      SweepFrees(s1, lo, d, a + 1, b, p);
      if v :| a + 1 <= v < b && Owns(s.m, d, User(v), p) {
        assert Owns(s1.m, d, User(v), p);
      }
      if v :| a + 1 <= v < b && Owns(s1.m, d, User(v), p) {
        assert Owns(s.m, d, User(v), p);
      }
    }
  }

  /** What a sweep does: the pages in the range are unmapped, all other entries stay. */
  lemma {:induction false} SweepKeeps(s: Mem, lo: nat, d: nat, a: nat, b: nat)
    requires Conserved(s, lo) && d in s.roots && b <= USERPAGES
    ensures var s' := Sweep(s, d, a, b);
      && Conserved(s', lo) && s'.m[d] == s.m[d]
      && (forall v :: a <= v < b ==> !Present(Leaf(s'.m, d, v)))
      && (forall v :: 0 <= v < ALLPAGES && !(a <= v < b) ==> Leaf(s'.m, d, v) == Leaf(s.m, d, v))
      && (forall e, u :: e in s.roots && e != d && 0 <= u < ALLPAGES ==> Leaf(s'.m, e, u) == Leaf(s.m, e, u))
    decreases b - a
  {
    if a < b {
      SweepPageKeeps(s, lo, d, a);
      SweepKeeps(SweepPage(s, d, a), lo, d, a + 1, b);
    }
  }

  /** Where there is no page table there is nothing to sweep. */
  lemma {:induction false} SweepSkips(s: Mem, d: nat, a: nat, c: nat, b: nat)
    requires d < |s.m| && a <= c <= b <= USERPAGES && forall v :: a <= v < c ==> !Present(Leaf(s.m, d, v))
    ensures Sweep(s, d, a, b) == Sweep(s, d, c, b)
    decreases c - a
  {
    if a < c {
      SweepSkips(s, d, a + 1, c, b);
    }
  }

  // ---------- What conservation gives ----------

  /** Pages that were not free have kept their contents. */
  ghost predicate Untouched(s: Mem, s': Mem) {
    |s'.m| == |s.m| && forall x: nat :: x < |s.m| && x !in s.free ==> s'.m[x] == s.m[x]
  }

  /** So every address space there was is what it was. */
  lemma SpacesKept(s: Mem, s': Mem, lo: nat, d: nat)
    requires Conserved(s, lo) && Untouched(s, s') && d in s.roots
    ensures d < |s.m| && s'.m[d] == s.m[d]
    ensures forall v :: 0 <= v < ALLPAGES ==> Leaf(s'.m, d, v) == Leaf(s.m, d, v)
    ensures forall k, p :: Owns(s'.m, d, k, p) <==> Owns(s.m, d, k, p)
    ensures forall v :: 0 <= v < USERPAGES && Present(Leaf(s.m, d, v)) ==>
      PN(Leaf(s.m, d, v)) < |s.m| && s'.m[PN(Leaf(s.m, d, v))] == s.m[PN(Leaf(s.m, d, v))]
  {
    assert Owns(s.m, d, Root, d);
    forall v: nat | v < ALLPAGES ensures Leaf(s'.m, d, v) == Leaf(s.m, d, v) {
      var x := s.m[d][v / NENTRIES];
      assert Present(x) ==> Owns(s.m, d, Table(v / NENTRIES), PN(x));
    }
    forall v: nat | v < USERPAGES && Present(Leaf(s.m, d, v))
      ensures PN(Leaf(s.m, d, v)) < |s.m| && s'.m[PN(Leaf(s.m, d, v))] == s.m[PN(Leaf(s.m, d, v))]
    {
      assert Owns(s.m, d, User(v), PN(Leaf(s.m, d, v)));
    }
  }

  /** When no address space and no page in hand has come or gone, every page that was taken from the
      free list is back on it. */
  lemma AllGivenBack(s: Mem, s': Mem, lo: nat)
    requires Conserved(s, lo) && Conserved(s', lo) && Untouched(s, s') && s'.roots == s.roots && s'.other == s.other
    ensures forall p :: p in s'.free <==> p in s.free
  {
    forall d: nat, k: Slot, p: nat | d in s.roots ensures Owns(s'.m, d, k, p) <==> Owns(s.m, d, k, p) {
      SpacesKept(s, s', lo, d);
    }
    forall p: nat ensures Owned(s', p) <==> Owned(s, p) {
      if d, k :| d in s.roots && Owns(s.m, d, k, p) {
        assert Owns(s'.m, d, k, p);
      }
      if d, k :| d in s.roots && Owns(s'.m, d, k, p) {
        assert Owns(s.m, d, k, p);
      }
    }
  }

  /** When address space d is gone and nothing else has changed, the free pages are those that were
      free and all the pages of d. */
  lemma AllReturned(s: Mem, s': Mem, lo: nat, d: nat)
    requires Conserved(s, lo) && Conserved(s', lo) && |s'.m| == |s.m| && d in s.roots
    requires s'.roots == s.roots - {d} && s'.other == s.other
    requires forall x: nat :: x < |s.m| && x !in s.free && (forall k :: !Owns(s.m, d, k, x)) ==> s'.m[x] == s.m[x]
    ensures forall p: nat :: p in s'.free <==> p in s.free || exists k :: Owns(s.m, d, k, p)
  {
    forall e: nat, k: Slot, p: nat | e in s'.roots ensures Owns(s'.m, e, k, p) <==> Owns(s.m, e, k, p) {
      OtherSpaceKept(s, s', lo, d, e);
    }
    forall p: nat ensures Owned(s', p) <==> Owned(s, p) && !exists k :: Owns(s.m, d, k, p) {
      if e, k :| e in s'.roots && Owns(s'.m, e, k, p) {
        assert e in s.roots && Owns(s.m, e, k, p);
      }
      if e, k :| e in s.roots && Owns(s.m, e, k, p) {
        if e != d {
          assert e in s'.roots && Owns(s'.m, e, k, p);
        }
      }
    }
    forall p: nat | exists k :: Owns(s.m, d, k, p) ensures Owned(s, p) && lo <= p < |s.m| {
      var k :| Owns(s.m, d, k, p);
    }
  }

  lemma OtherSpaceKept(s: Mem, s': Mem, lo: nat, d: nat, e: nat)
    requires Conserved(s, lo) && |s'.m| == |s.m| && d in s.roots && e in s.roots && e != d
    requires forall x: nat :: x < |s.m| && x !in s.free && (forall k :: !Owns(s.m, d, k, x)) ==> s'.m[x] == s.m[x]
    ensures forall k, p :: Owns(s'.m, e, k, p) <==> Owns(s.m, e, k, p)
  {
    assert Owns(s.m, e, Root, e);
    assert s'.m[e] == s.m[e];
    forall v: nat | v < ALLPAGES ensures Leaf(s'.m, e, v) == Leaf(s.m, e, v) {
      var x := s.m[e][v / NENTRIES];
      assert Present(x) ==> Owns(s.m, e, Table(v / NENTRIES), PN(x));
    }
  }
}
