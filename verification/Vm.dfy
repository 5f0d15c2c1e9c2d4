/** The page allocator (kalloc.c) and the operations on address spaces (vm.c). */
module Vm {
  import opened Blocks
  import opened PageTables

  const DIRSPAN := 0x40_0000     // bytes mapped by one page table

  /** A row of kmap: kernel memory that every address space maps. */
  datatype Region = Region(virt: nat, size: nat, phys: nat, perm: nat)

  function PageUp(a: nat): nat { (a + PGSIZE - 1) / PGSIZE }

  /** The bytes below a lie in exactly the pages below PageUp(a). */
  lemma PageUpIs(a: nat, v: nat)
    ensures v < PageUp(a) <==> v * PGSIZE < a
  {
  }

  /** The rows of kmap lie in the upper half of the address space and do not overlap. */
  ghost predicate KmapOk(kmap: seq<Region>) {
    && (forall k :: 0 <= k < |kmap| ==> RegionOk(kmap[k]))
    && (forall j, k, v :: 0 <= j < k < |kmap| ==> !(InRegion(kmap[j], v) && InRegion(kmap[k], v)))
  }

  predicate RegionOk(r: Region) {
    && r.size > 0 && r.virt / PGSIZE >= USERPAGES && r.virt + r.size <= PGSIZE * ALLPAGES
    && r.phys % PGSIZE == 0 && r.phys / PGSIZE + PageSpan(r.virt, r.size) <= ALLPAGES && r.perm < PGSIZE
  }

  predicate InRegion(r: Region, v: nat) { r.size > 0 && r.virt / PGSIZE <= v < r.virt / PGSIZE + PageSpan(r.virt, r.size) }

  const EXTMEM := 0x10_0000
  const KERNLINK := 0x8010_0000
  const PHYSTOP := 0xE00_0000
  const DEVSPACE := 0xFE00_0000

  /** The kmap of vm.c, for the address data at which the kernel's data begin. */
  function Kmap(data: nat): seq<Region>
    requires KERNLINK < data < KERNBASE + PHYSTOP
  {
    [Region(KERNBASE, EXTMEM, 0, 2),
     Region(KERNLINK, data - KERNLINK, KERNLINK - KERNBASE, 0),
     Region(data, PHYSTOP - (data - KERNBASE), data - KERNBASE, 2),
     Region(DEVSPACE, PGSIZE * ALLPAGES - DEVSPACE, DEVSPACE, 2)]
  }

  /** It can be mapped: data is the start of a page, and PHYSTOP lies below the devices. */
  lemma KmapFits(data: nat)
    requires KERNLINK < data < KERNBASE + PHYSTOP && data % PGSIZE == 0
    ensures KmapOk(Kmap(data))
  {
    var q, k := data / PGSIZE, Kmap(data);
    WholePages(k[0], 0x8_0000, 0x100);
    WholePages(k[1], 0x8_0100, q - 0x8_0100);
    WholePages(k[2], q, 0x8_E000 - q);
    WholePages(k[3], 0xF_E000, 0x2000);
    hide InRegion, PageSpan;
  }

  /** What is mapped where, by page: physical memory from 0 up to PHYSTOP at KERNBASE, all of it writable
      but the text of the kernel, and the devices at their own addresses. */
  lemma KernelMap(data: nat, j: nat, v: nat)
    requires KERNLINK < data < KERNBASE + PHYSTOP && data % PGSIZE == 0 && j < |Kmap(data)| && InRegion(Kmap(data)[j], v)
    ensures 0x8_0000 <= v < 0x8_E000 || 0xF_E000 <= v < 0x10_0000
    ensures var r := Kmap(data)[j];
      && r.phys / PGSIZE + (v - r.virt / PGSIZE) == (if v < 0x8_E000 then v - 0x8_0000 else v)
      && r.perm == if 0x8_0100 <= v < data / PGSIZE then 0 else 2
  {
    var q, k := data / PGSIZE, Kmap(data);
    WholePages(k[0], 0x8_0000, 0x100);
    WholePages(k[1], 0x8_0100, q - 0x8_0100);
    WholePages(k[2], q, 0x8_E000 - q);
    WholePages(k[3], 0xF_E000, 0x2000);
    hide InRegion, PageSpan;
  }

  /** No page of these ranges is left out. */
  lemma KernelMapAll(data: nat, v: nat) returns (j: nat)
    requires KERNLINK < data < KERNBASE + PHYSTOP && data % PGSIZE == 0
    requires 0x8_0000 <= v < 0x8_E000 || 0xF_E000 <= v < 0x10_0000
    ensures j < |Kmap(data)| && InRegion(Kmap(data)[j], v)
  {
    var q, k := data / PGSIZE, Kmap(data);
    WholePages(k[0], 0x8_0000, 0x100);
    WholePages(k[1], 0x8_0100, q - 0x8_0100);
    WholePages(k[2], q, 0x8_E000 - q);
    WholePages(k[3], 0xF_E000, 0x2000);
    j := if v < 0x8_0100 then 0 else if v < q then 1 else if v < 0x8_E000 then 2 else 3;
  }

  lemma WholePages(r: Region, v0: nat, n: nat)
    requires r.virt == v0 * PGSIZE && r.size == n * PGSIZE && n > 0
    ensures PageSpan(r.virt, r.size) == n && r.virt / PGSIZE == v0 && forall v: nat :: InRegion(r, v) <==> v0 <= v < v0 + n
  {
  }

  class Kmem {
    const lo: nat                  // the first page behind the kernel
    const kmap: seq<Region>        // the kernel memory that every address space maps
    var m: seq<Frame>
    var free: seq<nat>
    ghost var roots: set<nat>
    ghost var other: set<nat>

    /** freerange: all pages between two addresses, as physical ones, go on the free list. */
    constructor (vstart: nat, vend: nat, kmap: seq<Region>)
      requires KmapOk(kmap) && 0 < vstart && PageUp(vstart) < vend / PGSIZE <= ALLPAGES
      ensures this.kmap == kmap && lo == PageUp(vstart) && |m| == vend / PGSIZE && roots == {} && other == {} && Valid()
      ensures forall p :: p in free <==> lo <= p < |m|
    {
      lo, this.kmap := PageUp(vstart), kmap;
      m := seq(vend / PGSIZE, _ => Filled(0));
      free, roots, other := [], {}, {};
      new;
      var p := PageUp(vstart) * PGSIZE;
      while p + PGSIZE <= vend
        invariant p % PGSIZE == 0 && lo <= p / PGSIZE <= |m| && |m| == vend / PGSIZE && roots == {} && other == {}
        invariant forall q :: q in free <==> lo <= q < p / PGSIZE
        invariant forall i, j :: 0 <= i < j < |free| ==> free[i] != free[j]
        decreases vend - p
      {
        ghost var was := free;
        Kfree(p / PGSIZE);
        assert forall i :: 0 < i < |free| ==> free[i] == was[i - 1] && was[i - 1] in was;
        p := p + PGSIZE;
      }
    }

    ghost function S(): Mem
      reads this
    {
      Mem(m, free, roots, other)
    }

    ghost predicate Valid()
      reads this
    {
      Conserved(S(), lo)
    }

    /** Free a page: junk is written over it, and it becomes the head of the list. */
    method Kfree(p: nat)
      requires lo <= p < |m|        // else a panic
      modifies `m, `free
      ensures m == old(m)[p := Filled(JUNK)] && free == [p] + old(free)
    {
      m := m[p := Filled(JUNK)];
      free := [p] + free;
    }

    /** The first free page, or 0. */
    method Kalloc() returns (p: nat)
      requires Valid()
      modifies `free, `other
      ensures Valid()
      ensures old(free) == [] ==> p == 0 && S() == old(S())
      ensures old(free) != [] ==> p == old(free)[0] && 0 < lo <= p < |m| && free == old(free)[1..] && other == old(other) + {p}
    {
      if free == [] {
        return 0;
      }
      Taken(S(), lo);
      p := free[0];
      free, other := free[1..], other + {p};
    }

    /** kfree of a page that kalloc has handed out. */
    method GiveBack(p: nat)
      requires Valid() && p in other
      modifies `m, `free, `other
      ensures Valid() && m == old(m)[p := Filled(JUNK)] && free == [p] + old(free) && other == old(other) - {p}
    {
      Given(S(), lo, p, Filled(JUNK));
      Kfree(p);
      other := other - {p};
    }

    /** The page table that holds the entry for va; with alloc, it is made if need be. */
    method Walkpgdir(d: nat, va: nat, alloc: bool) returns (ok: bool, t: nat, e: nat)
      requires Valid() && d in roots && va < PGSIZE * ALLPAGES
      modifies `m, `free, `other
      ensures Valid() && |m| == |old(m)| && d < |m|
      ensures ok ==> var w := m[d][va / DIRSPAN]; Present(w) && t == PN(w) < |m| && e == va / PGSIZE % NENTRIES
      ensures Present(old(m[d][va / DIRSPAN])) || !alloc || old(free) == [] ==> S() == old(S())
      ensures ok <==> Present(old(m[d][va / DIRSPAN])) || (alloc && old(free) != [])
      ensures alloc ==> Walked(old(S()), S(), d)
    {
      ghost var s := S();
      WalkedSelf(s, lo, d);
      TableInside(s, lo, d, va / DIRSPAN);
      var i := va / DIRSPAN;
      var pde := m[d][i];
      if Present(pde) {
        return true, PN(pde), va / PGSIZE % NENTRIES;
      }
      if !alloc {
        return false, 0, 0;
      }
      var pgtab := Kalloc();
      if pgtab == 0 {
        return false, 0, 0;
      }
      ghost var s1 := S();
      NotStructural(s, lo, pgtab);
      DataWrite(s1, lo, pgtab, Filled(0));
      m := m[pgtab := Filled(0)];                      // memset
      ghost var s2 := S();
      TableAdded(s2, lo, d, i, pgtab);
      m, other := m[d := m[d][i := Pte(pgtab, PTE_WU)]], other - {pgtab};
      WalkedTable(s, s1, s2, S(), lo, d, i, pgtab);
      return true, pgtab, va / PGSIZE % NENTRIES;
    }
  
    /** One turn of mappages: the entry for va is made to lead to page p. */
    method MapOne(d: nat, va: nat, p: nat, perm: nat) returns (ok: bool)
      requires Valid() && d in roots && va < PGSIZE * ALLPAGES && p < ALLPAGES && perm < PGSIZE
      requires d < |m| && !Present(Leaf(m, d, va / PGSIZE))                         // else a panic: remap
      requires va / PGSIZE < USERPAGES ==> p in other
      modifies `m, `free, `other
      ensures Valid() && Grew(old(S()), S(), d)
      ensures !ok ==> S() == old(S()) && free == []
      ensures ok ==> LeafSet(old(S()), S(), d, va / PGSIZE, Pte(p, perm))
      ensures ok ==> other == old(other) - (if va / PGSIZE < USERPAGES then {p} else {})
    {
      hide Conserved, Owns, Leaf, Walked, OwnerAdded, Grew;
      ghost var s := S();
      GrewSelf(s, lo, d);
      var found, t, e := Walkpgdir(d, va, true);
      if !found {
        return false;
      }
      ghost var s1, v := S(), va / PGSIZE;
      WalkedGives(s, s1, lo, d);
      DirIndex(va);
      LeafWritten(s1, lo, d, v, Pte(p, perm));
      if v < USERPAGES {
        Mapped(s1, lo, d, v, p, perm);
      } else {
        KernelMapped(s1, lo, d, v, Pte(p, perm));
      }
      m := m[t := m[t][e := Pte(p, perm)]];
      other := other - if v < USERPAGES then {p} else {};
      assert S() == s1.(m := m, other := if v < USERPAGES then s1.other - {p} else s1.other);
      EntryWritten(s, s1, S(), lo, d, v, t, Pte(p, perm));
      return true;
    }
  
    /** Map the pages of va .. va + size to the physical pages from pa on; false when memory runs out. */
    method Mappages(d: nat, va: nat, size: nat, pa: nat, perm: nat) returns (ok: bool, ghost c: nat)
      requires Valid() && d in roots && size > 0 && va + size <= PGSIZE * ALLPAGES && pa % PGSIZE == 0 && perm < PGSIZE
      requires pa / PGSIZE + PageSpan(va, size) <= ALLPAGES && d < |m|
      requires forall v :: va / PGSIZE <= v < va / PGSIZE + PageSpan(va, size) ==> !Present(Leaf(m, d, v))
      requires UserPart(va / PGSIZE, PageSpan(va, size), pa / PGSIZE) <= other
      modifies `m, `free, `other
      ensures Valid() && Grew(old(S()), S(), d) && c <= PageSpan(va, size) && (ok <==> c == PageSpan(va, size))
      ensures LeafRange(old(S()), S(), d, va / PGSIZE, c, pa / PGSIZE, perm)
      ensures other == old(other) - UserPart(va / PGSIZE, c, pa / PGSIZE)
      ensures !ok ==> free == []
    {
      hide Conserved, Owns, Leaf, OwnerAdded, Grew;
      ghost var s0 := S();
      GrewSelf(s0, lo, d);
      c := 0;
      ghost var n, v0, p0 := PageSpan(va, size), va / PGSIZE, pa / PGSIZE;
      var a, last := va / PGSIZE * PGSIZE, (va + size - 1) / PGSIZE * PGSIZE;
      var p := pa;
      while true
        invariant Valid() && Grew(s0, S(), d) && d in roots && c < n
        invariant a == (v0 + c) * PGSIZE <= last == (v0 + n - 1) * PGSIZE && p == (p0 + c) * PGSIZE
        invariant LeafRange(s0, S(), d, v0, c, p0, perm) && other == s0.other - UserPart(v0, c, p0)
        decreases last - a
      {
        ghost var s := S();
        LeafNext(s0, s, d, v0, c, n, p0, perm);
        var done := MapOne(d, a, p / PGSIZE, perm);
        GrewChain(s0, s, S(), d);
        if !done {
          return false, c;
        }
        LeafRangeStep(s0, s, S(), d, v0, c, p0, perm);
        UserNext(v0, c, p0);
        c := c + 1;
        if a == last {
          break;
        }
        a := a + PGSIZE;
        p := p + PGSIZE;
      }
      return true, c;
    }
  
    /** Unmap and free user pages to bring the size down from oldsz to newsz, skipping what has no
        page table: it comes to the same as a sweep page by page. */
    method Deallocuvm(d: nat, oldsz: nat, newsz: nat) returns (r: nat)
      requires Valid() && d in roots && oldsz <= KERNBASE && d < |m|
      modifies `m, `free
      ensures Valid() && r == if newsz >= oldsz then oldsz else newsz
      ensures S() == if newsz >= oldsz then old(S()) else Sweep(old(S()), d, PageUp(newsz), PageUp(oldsz))
    {
      if newsz >= oldsz {
        return oldsz;
      }
      hide Conserved, Leaf, Sweep, PN;
      ghost var goal, v, b := Sweep(S(), d, PageUp(newsz), PageUp(oldsz)), PageUp(newsz), PageUp(oldsz);
      var a := PageUp(newsz) * PGSIZE;
      while a < oldsz
        invariant Valid() && d in roots && |m| == |old(m)| && a == v * PGSIZE
        invariant goal == Sweep(S(), d, v, b)
        decreases oldsz - a
      {
        PageIndex(a, v, oldsz);
        a, v := DeallocStep(d, a, v, b);
      }
      SweepDone(S(), d, v, b);
      return newsz;
    }

    /** One turn of deallocuvm, at the page of address a: the address to go on with. */
    method DeallocStep(d: nat, a: nat, ghost v: nat, ghost b: nat) returns (next: nat, ghost u: nat)
      requires Valid() && d in roots && d < |m| && a == v * PGSIZE && v < b <= USERPAGES && a / DIRSPAN == v / NENTRIES && a / PGSIZE == v
      modifies `m, `free
      ensures Valid() && |m| == |old(m)| && next == u * PGSIZE > a && Sweep(S(), d, u, b) == Sweep(old(S()), d, v, b)
    {
      hide Conserved, Leaf, Sweep, PN;
      var found, t, e := Walkpgdir0(d, a);
      if !found {
        NoTable(S(), d, v, b);
        SkipIndex(a, v);
        next := (a / DIRSPAN + 1) * DIRSPAN - PGSIZE;
        u := (v / NENTRIES + 1) * NENTRIES - 1;
      } else {
        FreeEntry(d, t, e, v, b);
        next, u := a, v;
      }
      next, u := next + PGSIZE, u + 1;
    }

    /** The part of deallocuvm for an entry of a page table. */
    method FreeEntry(d: nat, t: nat, e: nat, ghost v: nat, ghost b: nat)
      requires Valid() && d in roots && d < |m| && v < b <= USERPAGES
      requires Present(m[d][v / NENTRIES]) && t == PN(m[d][v / NENTRIES]) < |m| && e == v % NENTRIES
      modifies `m, `free
      ensures Valid() && |m| == |old(m)| && Sweep(S(), d, v + 1, b) == Sweep(old(S()), d, v, b)
    {
      hide Conserved, Owns, Leaf, Sweep, SweepPage;
      ghost var s := S();
      LeafAt(s, d, v, t, e);
      if Present(m[t][e]) {
        SweepOne(s, lo, d, v, b);
        Kfree(PN(m[t][e]));
        m := m[t := m[t][e := 0]];
        SweptAs(s, d, v, t, e, m, free);
        assert S() == s.(m := m, free := free);
      } else {
        SweepNone(s, d, v, b);
      }
    }

    /** walkpgdir without alloc. */
    method Walkpgdir0(d: nat, va: nat) returns (ok: bool, t: nat, e: nat)
      requires Valid() && d in roots && va < PGSIZE * ALLPAGES && d < |m|
      ensures ok <==> Present(m[d][va / DIRSPAN])
      ensures ok ==> t == PN(m[d][va / DIRSPAN]) < |m| && t != d && e == va / PGSIZE % NENTRIES
    {
      TableInside(S(), lo, d, va / DIRSPAN);
      var pde := m[d][va / DIRSPAN];
      return Present(pde), if Present(pde) then PN(pde) else 0, va / PGSIZE % NENTRIES;
    }
  
    /** kalloc and memset: a zeroed page in hand, or 0. */
    method Zalloc(ghost d: nat) returns (p: nat)
      requires Valid() && d in roots
      modifies `m, `free, `other
      ensures Valid() && Grew(old(S()), S(), d)
      ensures old(free) == [] ==> p == 0 && S() == old(S())
      ensures old(free) != [] ==> p != 0 && Zeroed(old(S()), S(), d, p)
    {
      hide Leaf, Owns, Grew, Zeroed;
      ghost var s := S();
      GrewSelf(s, lo, d);
      p := Kalloc();
      if p != 0 {
        NotStructural(s, lo, p);
        DataWrite(S(), lo, p, Filled(0));
        ZeroedGrew(s, S().(m := m[p := Filled(0)]), lo, d, p);
        m := m[p := Filled(0)];
      }
    }

    /** Out of memory: deallocuvm, and kfree of the page in hand if there is one. */
    method Undo(d: nat, oldsz: nat, newsz: nat, mem: nat, ghost s0: Mem, ghost v: nat)
      requires Valid() && d in roots && d < |m| && oldsz < newsz < KERNBASE && v <= PageUp(newsz)
      requires Gained(s0, S(), d, PageUp(oldsz), v, if mem == 0 then {} else {mem})
      requires d < |s0.m| && forall u :: PageUp(oldsz) <= u < PageUp(newsz) ==> !Present(Leaf(s0.m, d, u))
      modifies `m, `free, `other
      ensures Valid() && Restored(s0, S(), d, PageUp(oldsz), PageUp(newsz), {})
    {
      hide Conserved, Leaf, Sweep, Restored, Gained;
      ghost var hand := if mem == 0 then {} else {mem};
      HandFree(s0, S(), d, PageUp(oldsz), v, hand);
      GainedSwept(s0, S(), lo, d, PageUp(oldsz), v, PageUp(newsz), hand);
      var _ := Deallocuvm(d, newsz, oldsz);
      if mem != 0 {
        GivenBack(s0, S(), lo, d, PageUp(oldsz), PageUp(newsz), mem);
        GiveBack(mem);
      }
    }

    /** One turn of allocuvm: kalloc, memset and mappages. A page that could not be mapped is in hand. */
    method AllocPage(d: nat, a: nat, ghost v0: nat, ghost v: nat, ghost b: nat, ghost s0: Mem) returns (mem: nat, mapped: bool)
      requires Valid() && d in roots && d < |m| && a == v * PGSIZE && v0 <= v < b <= USERPAGES
      requires Gained(s0, S(), d, v0, v, {}) && d < |s0.m| && forall u :: v0 <= u < b ==> !Present(Leaf(s0.m, d, u))
      modifies `m, `free, `other
      ensures Valid() && |m| == |old(m)| && roots == old(roots)
      ensures mapped ==> Gained(s0, S(), d, v0, v + 1, {})
      ensures !mapped ==> Gained(s0, S(), d, v0, v, if mem == 0 then {} else {mem})
    {
      hide Conserved, Owns, Leaf, Grew, Gained, Zeroed;
      ghost var s1 := S();
      NotYet(s0, s1, d, v0, v, b);
      GainedShape(s0, s1, d, v0, v, {});
      mem := Zalloc(d);
      if mem == 0 {
        return mem, false;
      }
      ghost var s2 := S();
      GainedHand(s0, s1, s2, lo, d, v0, v, mem);
      OnePage(a, mem, v);
      NotYet1(s1, s2, d, v, mem);
      var done, c := Mappages(d, a, PGSIZE, mem * PGSIZE, PTE_WU);
      if done {
        GainedOne(s0, s1, s2, S(), lo, d, v0, v, mem);
        GainedShape(s0, S(), d, v0, v + 1, {});
      } else {
        GainedStill(s0, s2, S(), lo, d, v0, v, mem, c);
        GainedShape(s0, S(), d, v0, v, {mem});
      }
      return mem, done;
    }

    /** Grow an address space: its new pages are zeroed and were free; if memory runs out, its
        entries are what they were. */
    method Allocuvm(d: nat, oldsz: nat, newsz: nat) returns (r: nat, ghost ok: bool)
      requires Valid() && d in roots && d < |m| && oldsz <= PGSIZE * ALLPAGES && newsz < PGSIZE * ALLPAGES
      requires newsz < KERNBASE ==> forall v :: PageUp(oldsz) <= v < PageUp(newsz) ==> !Present(Leaf(m, d, v))
      modifies `m, `free, `other
      ensures Valid()
      ensures newsz >= KERNBASE ==> r == 0 && S() == old(S())
      ensures newsz < KERNBASE && newsz < oldsz ==> r == oldsz && S() == old(S())
      ensures newsz < KERNBASE && newsz >= oldsz && ok ==> r == newsz && Gained(old(S()), S(), d, PageUp(oldsz), PageUp(newsz), {})
      ensures newsz < KERNBASE && newsz >= oldsz && !ok ==> r == 0 && Restored(old(S()), S(), d, PageUp(oldsz), PageUp(newsz), {})
      ensures newsz < KERNBASE && newsz >= oldsz && !ok ==> forall p: nat :: p in free <==> p in old(free) && !InSkeleton(m, d, p)
    {
      ok := false;
      if newsz >= KERNBASE {
        return 0, ok;
      }
      if newsz < oldsz {
        return oldsz, ok;
      }
      hide Conserved, Owns, Leaf, Grew, Gained, Restored, Sweep;
      ghost var s0, v0, v, b := S(), PageUp(oldsz), PageUp(oldsz), PageUp(newsz);
      GainedNone(s0, lo, d, v0);
      var a := PageUp(oldsz) * PGSIZE;
      while a < newsz
        invariant Valid() && d in roots && d < |m| && a == v * PGSIZE && v0 <= v && (v <= b || v == v0)
        invariant Gained(s0, S(), d, v0, v, {})
        decreases newsz - a
      {
        PageIndex(a, v, newsz);
        var mem, mapped := AllocPage(d, a, v0, v, b, s0);
        if !mapped {
          Undo(d, oldsz, newsz, mem, s0, v);
          FreeAgain(s0, S(), lo, d, v0, b);
          return 0, ok;
        }
        a := a + PGSIZE;
        v := v + 1;
      }
      ok := true;
      AllGained(s0, S(), d, v0, v, b);
      return newsz, ok;
    }
  
    /** Free an address space: all its user pages, its tables and its directory. */
    method Freevm(d: nat)
      requires Valid() && d in roots && d < |m|
      modifies `m, `free, `roots, `other
      ensures Valid() && |m| == |old(m)| && roots == old(roots) - {d} && other == old(other)
      ensures forall x: nat :: x < |m| && x !in old(free) && (forall k :: !Owns(old(m), d, k, x)) ==> m[x] == old(m)[x]
      ensures forall p: nat :: p in free <==> p in old(free) || exists k :: Owns(old(m), d, k, p)
    {
      hide Conserved, Leaf, Owns, Sweep, Skeleton;
      ghost var s0 := S();
      var _ := Deallocuvm(d, KERNBASE, 0);
      ghost var s1 := S();
      AllSwept(s0, s1, lo, d);
      RootDropped(s1, lo, d);
      ghost var left := Skeleton(m, d);
      roots, other := roots - {d}, other + left;
      SkeletonTables(s1, lo, d);
      var i := 0;
      while i < NENTRIES
        invariant i <= NENTRIES && Valid() && |m| == |s1.m| && m[d] == s1.m[d] && roots == s0.roots - {d}
        invariant other == s0.other + left && left !! s0.other && d in left
        invariant left == TablesFrom(s1.m, d, i) + {d}
        invariant forall x: nat :: x < |m| && x !in Skeleton(s1.m, d) ==> m[x] == s1.m[x]
      {
        TableNext(s1, lo, d, i);
        if Present(m[d][i]) {
          ghost var p := PN(m[d][i]);
          assert p in left && p != d;
          GiveBack(PN(m[d][i]));
          left := left - {p};
        }
        i := i + 1;
      }
      NoTables(s1.m, d);
      GiveBack(d);
      FreedContents(s0, s1, lo, d);
      AllReturned(s0, S(), lo, d);
    }
  
    /** A new address space with the kernel part of the page table, or 0; then nothing is lost. */
    method Setupkvm() returns (d: nat)
      requires Valid() && KmapOk(kmap)
      modifies `m, `free, `roots, `other
      ensures Valid() && Untouched(old(S()), S()) && other == old(other)
      ensures d == 0 ==> roots == old(roots) && forall p :: p in free <==> p in old(free)
      ensures d != 0 ==> NewSpace(old(S()), S(), d) && KernelOnly(S(), d, kmap, |kmap|)
    {
      hide Conserved, Leaf, Owns, Untouched, NewSpace, KernelOnly, Zeroed, Grew, KmapOk;
      ghost var s0 := S();
      d := Kalloc();
      if d == 0 {
        SelfUntouched(s0);
        return 0;
      }
      ghost var s1 := S();
      RootTaken(s0, s1, lo, d);
      m := m[d := Filled(0)];                                    // memset
      ghost var s2 := S();
      RootAdded(s2, lo, d);
      roots, other := roots + {d}, other - {d};
      ghost var s3 := S();
      RootStarts(s0, s1, s2, s3, lo, d, kmap);
      var k := 0;
      while k < |kmap|
        invariant k <= |kmap| && Valid() && other == s0.other
        invariant NewSpace(s0, S(), d) && KernelOnly(S(), d, kmap, k)
      {
        var r := kmap[k];
        ghost var s := S();
        NewSpaceGives(s0, s, d);
        RegionFree(s, d, kmap, k);
        var ok, c := Mappages(d, r.virt, r.size, r.phys, r.perm);
        KernelPart(r.virt / PGSIZE, c, r.phys / PGSIZE);
        NewSpaceGrows(s0, s, S(), lo, d);
        if !ok {
          ghost var s4 := S();
          RegionPartial(s, s4, d, kmap, k, c);
          NewSpaceGives(s0, s4, d);
          Freevm(d);
          SpaceDropped(s0, s4, S(), lo, d);
          return 0;
        }
        RegionDone(s, S(), d, kmap, k);
        k := k + 1;
      }
      NewSpaceUntouched(s0, S(), d);
    }
  
    /** One turn of copyuvm: kalloc, memmove and mappages. */
    method CopyPage(d: nat, c: nat, i: nat, ghost s0: Mem, ghost v: nat) returns (done: bool)
      requires Valid() && Conserved(s0, lo) && d in s0.roots && NewSpace(s0, S(), c) && other == s0.other
      requires i == v * PGSIZE && v < USERPAGES && d < |s0.m| && Present(Leaf(s0.m, d, v)) && Copied(s0, S(), d, c, kmap, v)
      modifies `m, `free, `other
      ensures Valid() && other == s0.other && NewSpace(s0, S(), c)
      ensures Copied(s0, S(), d, c, kmap, if done then v + 1 else v)
    {
      hide Conserved, Leaf, Owns, Untouched, NewSpace, Copied, Grew;
      ghost var s := S();
      NewSpaceGives(s0, s, c);
      Source(s0, s, lo, d, c, v);
      PageIndex(i, v, i + 1);
      var found, t, e := Walkpgdir0(d, i);
      LeafAt(s, d, v, t, e);
      var pte := m[t][e];
      var mem := Kalloc();
      if mem == 0 {
        return false;
      }
      ghost var s1 := S();
      TakenInNew(s0, s, s1, lo, d, c, kmap, v, mem);
      HandWritten(s0, s1, lo, d, c, kmap, v, mem, m[PN(pte)]);
      m := m[mem := m[PN(pte)]];
      ghost var s2 := S();
      OnePage(i, mem, v);
      CopiedNext(s0, s2, d, c, kmap, v);
      var ok, n := Mappages(c, i, PGSIZE, mem * PGSIZE, Flags(pte));
      NewSpaceGrows(s0, s2, S(), lo, c);
      NewSpaceGives(s0, S(), c);
      if !ok {
        CopiedStill(s0, s2, S(), lo, d, c, kmap, v, mem, Flags(pte));
        HandGiven(s0, S(), lo, d, c, kmap, v, mem, Filled(JUNK));
        GiveBack(mem);
        return false;
      }
      CopiedOne(s0, s, s2, S(), lo, d, c, kmap, v, mem);
      return true;
    }

    /** A copy of an address space for a child: the same bytes and flags on pages of its own; or 0, and
        then every page is given back. */
    method Copyuvm(d: nat, sz: nat) returns (c: nat)
      requires Valid() && KmapOk(kmap) && d in roots && d < |m| && sz <= KERNBASE
      requires forall v :: 0 <= v < PageUp(sz) ==> Present(Leaf(m, d, v))     // else a panic
      modifies `m, `free, `roots, `other
      ensures Valid() && Untouched(old(S()), S()) && other == old(other)
      ensures c == 0 ==> roots == old(roots) && forall p :: p in free <==> p in old(free)
      ensures c != 0 ==> NewSpace(old(S()), S(), c) && Copied(old(S()), S(), d, c, kmap, PageUp(sz))
    {
      hide Conserved, Leaf, Owns, Untouched, NewSpace, KernelOnly, Copied, KmapOk;
      ghost var s0 := S();
      c := Setupkvm();
      if c == 0 {
        return 0;
      }
      CopiedNone(s0, S(), d, c, kmap);
      var i := 0;
      ghost var v := 0;
      while i < sz
        invariant Valid() && other == s0.other && i == v * PGSIZE && (v == 0 || v <= PageUp(sz))
        invariant NewSpace(s0, S(), c) && Copied(s0, S(), d, c, kmap, v)
      {
        PageIndex(i, v, sz);
        var done := CopyPage(d, c, i, s0, v);
        if !done {
          ghost var s := S();
          NewSpaceGives(s0, s, c);
          CopiedPages(s0, s, d, c, kmap, v);
          Freevm(c);
          SpaceDropped(s0, s, S(), lo, c);
          return 0;
        }
        i := i + PGSIZE;
        v := v + 1;
      }
      CopiedAll(v, sz, i);
      NewSpaceUntouched(s0, S(), c);
    }
  }

  lemma PageIndex(a: nat, v: nat, oldsz: nat)
    requires a == v * PGSIZE && a < oldsz <= KERNBASE
    ensures a / PGSIZE == v && a / DIRSPAN == v / NENTRIES && v < PageUp(oldsz) <= USERPAGES
  {
  }

  lemma SkipIndex(a: nat, v: nat)
    requires a == v * PGSIZE
    ensures (a / DIRSPAN + 1) * DIRSPAN - PGSIZE == ((v / NENTRIES + 1) * NENTRIES - 1) * PGSIZE >= a
    ensures (v / NENTRIES + 1) * NENTRIES >= 1
  {
  }

  lemma LeafAt(s: Mem, d: nat, v: nat, t: nat, e: nat)
    requires d < |s.m| && v < ALLPAGES && Present(s.m[d][v / NENTRIES]) && t == PN(s.m[d][v / NENTRIES]) < |s.m| && e == v % NENTRIES
    ensures Leaf(s.m, d, v) == s.m[t][e]
  {
  }

  /** From page v to the end of its directory entry there is nothing to sweep. */
  lemma NoTable(s: Mem, d: nat, v: nat, b: nat)
    requires d < |s.m| && v < b <= USERPAGES && !Present(s.m[d][v / NENTRIES])
    ensures Sweep(s, d, v, b) == Sweep(s, d, (v / NENTRIES + 1) * NENTRIES, b)
  {
    var c := (v / NENTRIES + 1) * NENTRIES;
    forall u | v <= u < c && u < b ensures !Present(Leaf(s.m, d, u)) {
      assert u / NENTRIES == v / NENTRIES;
    }
    SweepSkips(s, d, v, if c < b then c else b, b);
  }

  lemma SweepNone(s: Mem, d: nat, v: nat, b: nat)
    requires d < |s.m| && v < b <= USERPAGES && !Present(Leaf(s.m, d, v))
    ensures Sweep(s, d, v, b) == Sweep(s, d, v + 1, b)
  {
  }

  lemma SweepOne(s: Mem, lo: nat, d: nat, v: nat, b: nat)
    requires Conserved(s, lo) && d in s.roots && d < |s.m| && v < b <= USERPAGES && Present(Leaf(s.m, d, v))
    ensures lo <= PN(Leaf(s.m, d, v)) < |s.m| && PN(Leaf(s.m, d, v)) != PN(s.m[d][v / NENTRIES])
    ensures Sweep(s, d, v, b) == Sweep(SweepPage(s, d, v), d, v + 1, b) && Conserved(SweepPage(s, d, v), lo)
  {
    SweepPageKeeps(s, lo, d, v);
    Unmapped(s, lo, d, v, Filled(JUNK));
  }

  /** What the body of deallocuvm does to a mapped page. */
  lemma SweptAs(s: Mem, d: nat, v: nat, t: nat, e: nat, m: seq<Frame>, free: seq<nat>)
    requires d < |s.m| && v < USERPAGES && Present(s.m[d][v / NENTRIES]) && t == PN(s.m[d][v / NENTRIES]) < |s.m| && e == v % NENTRIES
    requires Present(Leaf(s.m, d, v)) && PN(Leaf(s.m, d, v)) < |s.m| && PN(Leaf(s.m, d, v)) != t
    requires var p := PN(Leaf(s.m, d, v)); m == s.m[p := Filled(JUNK)][t := s.m[t][e := 0]] && free == [p] + s.free
    ensures SweepPage(s, d, v) == s.(m := m, free := free)
  {
  }

  lemma SweepDone(s: Mem, d: nat, a: nat, b: nat)
    requires d < |s.m| && a >= b && b <= USERPAGES
    ensures Sweep(s, d, a, b) == s
  {
  }

  /** How many pages the bytes va .. va + size touch. */
  function PageSpan(va: nat, size: nat): (n: nat)
    requires size > 0
    ensures n > 0
  {
    (va + size - 1) / PGSIZE - va / PGSIZE + 1
  }

  /** Those of the pages p0 .. p0 + c that come to lie in user memory when mapped from v0 on. */
  ghost function UserPart(v0: nat, c: nat, p0: nat): (r: set<nat>)
    ensures forall q: nat {:trigger q in r} :: q in r <==> p0 <= q < p0 + c && v0 + (q - p0) < USERPAGES
  {
    set q: nat {:trigger InUser(v0, p0, q)} | p0 <= q < p0 + c && InUser(v0, p0, q)
  }

  predicate InUser(v0: nat, p0: nat, q: nat) { v0 + (q - p0) < USERPAGES }

  lemma UserNext(v0: nat, c: nat, p0: nat)
    ensures UserPart(v0, c + 1, p0) == UserPart(v0, c, p0) + if v0 + c < USERPAGES then {p0 + c} else {}
  {
  }

  /** The entries of the virtual pages v0 .. v0 + c lead to the pages from p0 on, all others are as before. */
  ghost predicate LeafRange(s: Mem, s': Mem, d: nat, v0: nat, c: nat, p0: nat, perm: nat) {
    && d < |s.m| && d < |s'.m| && p0 + c <= ALLPAGES && perm < PGSIZE
    && forall u: nat :: u < ALLPAGES ==> Leaf(s'.m, d, u) == if v0 <= u < v0 + c then Pte(p0 + (u - v0), perm) else Leaf(s.m, d, u)
  }

  lemma LeafNext(s0: Mem, s: Mem, d: nat, v0: nat, c: nat, n: nat, p0: nat, perm: nat)
    requires LeafRange(s0, s, d, v0, c, p0, perm) && c < n && v0 + n <= ALLPAGES
    requires forall v :: v0 <= v < v0 + n ==> !Present(Leaf(s0.m, d, v))
    ensures !Present(Leaf(s.m, d, v0 + c))
  {
  }

  lemma LeafRangeStep(s0: Mem, s: Mem, s': Mem, d: nat, v0: nat, c: nat, p0: nat, perm: nat)
    requires LeafRange(s0, s, d, v0, c, p0, perm) && p0 + c < ALLPAGES && LeafSet(s, s', d, v0 + c, Pte(p0 + c, perm))
    ensures LeafRange(s0, s', d, v0, c + 1, p0, perm)
  {
    hide Leaf;
  }

  /** walkpgdir may have made a page table for d: no entry of any space changes, nor the contents of
      any page but the directory and the new table. */
  ghost predicate Walked(s: Mem, s': Mem, d: nat) {
    && |s'.m| == |s.m| && s'.roots == s.roots && s'.other == s.other && d < |s.m|
    && Suffix(s'.free, s.free)
    && (forall e, v :: e in s.roots && 0 <= v < ALLPAGES ==> e < |s.m| && Leaf(s'.m, e, v) == Leaf(s.m, e, v))
    && (forall x: nat :: x < |s.m| && x !in s.free && x != d ==> s'.m[x] == s.m[x])
    && (forall k, p: nat :: Owns(s'.m, d, k, p) ==> Owns(s.m, d, k, p) || (k.Table? && p in s.free))
    && (forall k, p: nat :: Owns(s.m, d, k, p) ==> Owns(s'.m, d, k, p))
  }

  ghost predicate Suffix(a: seq<nat>, b: seq<nat>) { |a| <= |b| && a == b[|b| - |a|..] }

  lemma WalkedSelf(s: Mem, lo: nat, d: nat)
    requires Conserved(s, lo) && d in s.roots
    ensures Walked(s, s, d)
  {
  }

  lemma TableInside(s: Mem, lo: nat, d: nat, i: nat)
    requires Conserved(s, lo) && d in s.roots && i < NENTRIES
    ensures Present(s.m[d][i]) ==> lo <= PN(s.m[d][i]) < |s.m| && PN(s.m[d][i]) != d
  {
    if Present(s.m[d][i]) {
      assert Owns(s.m, d, Table(i), PN(s.m[d][i])) && Owns(s.m, d, Root, d);
    }
  }

  lemma NotStructural(s: Mem, lo: nat, p: nat)
    requires Conserved(s, lo) && p in s.free
    ensures forall d, k :: d in s.roots ==> !Owns(s.m, d, k, p)
  {
  }

  lemma WalkedTable(s: Mem, s1: Mem, s2: Mem, s3: Mem, lo: nat, d: nat, i: nat, t: nat)
    requires Conserved(s, lo) && d in s.roots && s.free != [] && t == s.free[0] && t < ALLPAGES
    requires s1 == s.(free := s.free[1..], other := s.other + {t})
    requires s2 == s1.(m := s1.m[t := Filled(0)])
    requires i < NENTRIES && t < |s.m| && s3 == s2.(m := s2.m[d := s2.m[d][i := Pte(t, PTE_WU)]], other := s2.other - {t})
    requires forall e, v :: e in s.roots && 0 <= v < ALLPAGES ==> Leaf(s2.m, e, v) == Leaf(s1.m, e, v) && Leaf(s3.m, e, v) == Leaf(s2.m, e, v)
    requires forall e, k, p :: e in s.roots ==> (Owns(s2.m, e, k, p) <==> Owns(s1.m, e, k, p))
    requires OwnerAdded(s2, s3, d, Table(i), t)
    ensures Walked(s, s3, d)
  {
    assert t !in s.other by {
      assert t in s.free;
    }
    assert s3.other == s.other;
  }

  lemma DirIndex(va: nat)
    requires va < PGSIZE * ALLPAGES
    ensures va / DIRSPAN == va / PGSIZE / NENTRIES < NENTRIES && va / PGSIZE < ALLPAGES
  {
  }

  /** The address space of d has grown: pages came from the free list, other spaces and all contents
      but those of free pages and of the directory and tables of d are as before. */
  ghost predicate Grew(s: Mem, s': Mem, d: nat) {
    && |s'.m| == |s.m| && s'.roots == s.roots && d < |s.m| && Suffix(s'.free, s.free) && (forall e :: e in s.roots ==> e < |s.m|)
    && (forall e, v :: e in s.roots && e != d && 0 <= v < ALLPAGES ==> Leaf(s'.m, e, v) == Leaf(s.m, e, v))
    && (forall x: nat :: x < |s.m| && x !in s.free && !InSkeleton(s.m, d, x) ==> s'.m[x] == s.m[x])
    && (forall x: nat :: InSkeleton(s'.m, d, x) ==> InSkeleton(s.m, d, x) || x in s.free)
    && (forall x: nat :: InSkeleton(s.m, d, x) ==> InSkeleton(s'.m, d, x))
  }

  /** Page x holds the directory or a table of d. */
  ghost predicate InSkeleton(m: seq<Frame>, d: nat, x: nat) { Owns(m, d, Root, x) || exists i :: Owns(m, d, Table(i), x) }

  lemma GrewSelf(s: Mem, lo: nat, d: nat)
    requires Conserved(s, lo) && d in s.roots
    ensures Grew(s, s, d)
  {
  }

  lemma SuffixIn(a: seq<nat>, b: seq<nat>)
    requires Suffix(a, b)
    ensures forall x :: x in a ==> x in b
  {
  }

  lemma SuffixChain(a: seq<nat>, b: seq<nat>, c: seq<nat>)
    requires Suffix(c, b) && Suffix(b, a)
    ensures Suffix(c, a)
  {
    assert a[|a| - |b|..][|b| - |c|..] == a[|a| - |c|..];
  }

  lemma GrewChain(s: Mem, t: Mem, u: Mem, d: nat)
    requires Grew(s, t, d) && Grew(t, u, d)
    ensures Grew(s, u, d)
  {
    SuffixIn(t.free, s.free);
    SuffixChain(s.free, t.free, u.free);
    hide Leaf, InSkeleton, Suffix;
    forall e, v | e in s.roots && e != d && 0 <= v < ALLPAGES ensures Leaf(u.m, e, v) == Leaf(s.m, e, v) {
      assert Leaf(t.m, e, v) == Leaf(s.m, e, v);
    }
    forall x: nat | x < |s.m| && x !in s.free && !InSkeleton(s.m, d, x) ensures u.m[x] == s.m[x] {
      assert !InSkeleton(t.m, d, x);
      assert t.m[x] == s.m[x];
    }
  }

  lemma WalkedGives(s: Mem, s': Mem, lo: nat, d: nat)
    requires Walked(s, s', d) && Conserved(s, lo) && d in s.roots
    ensures Grew(s, s', d) && s'.other == s.other && s'.roots == s.roots
    ensures forall v :: 0 <= v < ALLPAGES ==> Leaf(s'.m, d, v) == Leaf(s.m, d, v)
  {
    assert Owns(s.m, d, Root, d);
    hide Conserved, Leaf;
    forall x: nat | InSkeleton(s'.m, d, x) ensures InSkeleton(s.m, d, x) || x in s.free {
      if i :| Owns(s'.m, d, Table(i), x) {
        assert Owns(s.m, d, Table(i), x) || x in s.free;
      } else {
        assert Owns(s.m, d, Root, x) || x in s.free;
      }
    }
    hide Owns;
    forall x: nat | x < |s.m| && x !in s.free && !InSkeleton(s.m, d, x) ensures s'.m[x] == s.m[x] {
      assert x != d;
    }
  }

  /** Of d's entries only that of page v has changed, to w. */
  ghost predicate LeafSet(s: Mem, s': Mem, d: nat, v: nat, w: uint32) {
    && d < |s.m| && d < |s'.m|
    && forall u :: 0 <= u < ALLPAGES ==> Leaf(s'.m, d, u) == if u == v then w else Leaf(s.m, d, u)
  }

  lemma EntryWritten(s: Mem, s1: Mem, s2: Mem, lo: nat, d: nat, v: nat, t: nat, w: uint32)
    requires Grew(s, s1, d) && Conserved(s1, lo) && d in s.roots && v < ALLPAGES
    requires d < |s.m| && (forall u :: 0 <= u < ALLPAGES ==> Leaf(s1.m, d, u) == Leaf(s.m, d, u))
    requires Present(s1.m[d][v / NENTRIES]) && t == PN(s1.m[d][v / NENTRIES]) < |s1.m|
    requires s2.m == s1.m[t := s1.m[t][v % NENTRIES := w]] && s2.free == s1.free && s2.roots == s1.roots
    ensures Grew(s, s2, d) && LeafSet(s, s2, d, v, w)
  {
    LeafWritten(s1, lo, d, v, w);
    assert Owns(s1.m, d, Table(v / NENTRIES), t);
    forall k: Slot, x: nat | !k.User? ensures Owns(s2.m, d, k, x) <==> Owns(s1.m, d, k, x) {
    }
    hide Conserved, Leaf;
    GrewStep(s, s1, s2, d, t);
  }

  lemma GrewStep(s: Mem, s1: Mem, s2: Mem, d: nat, t: nat)
    requires Grew(s, s1, d) && |s2.m| == |s1.m| && s2.free == s1.free && s2.roots == s1.roots && InSkeleton(s1.m, d, t)
    requires forall x: nat :: x < |s1.m| && x != t ==> s2.m[x] == s1.m[x]
    requires forall x: nat, k: Slot :: !k.User? ==> (Owns(s2.m, d, k, x) <==> Owns(s1.m, d, k, x))
    requires forall e, v :: e in s1.roots && e != d && 0 <= v < ALLPAGES ==> e < |s1.m| && Leaf(s2.m, e, v) == Leaf(s1.m, e, v)
    ensures Grew(s, s2, d)
  {
    hide Leaf, Owns, Suffix;
    forall x: nat ensures InSkeleton(s2.m, d, x) <==> InSkeleton(s1.m, d, x) {
      assert Owns(s2.m, d, Root, x) <==> Owns(s1.m, d, Root, x);
      assert forall i :: Owns(s2.m, d, Table(i), x) <==> Owns(s1.m, d, Table(i), x);
    }
    forall e, v | e in s.roots && e != d && 0 <= v < ALLPAGES ensures Leaf(s2.m, e, v) == Leaf(s.m, e, v) {
      assert Leaf(s1.m, e, v) == Leaf(s.m, e, v);
    }
    forall x: nat | x < |s.m| && x !in s.free && !InSkeleton(s.m, d, x) ensures s2.m[x] == s.m[x] {
      assert !InSkeleton(s1.m, d, x);
      assert s1.m[x] == s.m[x];
    }
  }

  /** Page p has been taken from the free list and zeroed. */
  ghost predicate Zeroed(s: Mem, s': Mem, d: nat, p: nat) {
    && p in s.free && p < |s.m| == |s'.m| && p !in s.other && s'.other == s.other + {p} && p !in s'.free
    && s'.m == s.m[p := Filled(0)] && d < |s.m| && (forall v :: 0 <= v < ALLPAGES ==> Leaf(s'.m, d, v) == Leaf(s.m, d, v))
  }

  lemma ZeroedGrew(s: Mem, s': Mem, lo: nat, d: nat, p: nat)
    requires Conserved(s, lo) && d in s.roots && s.free != [] && p == s.free[0]
    requires s' == s.(m := s.m[p := Filled(0)], free := s.free[1..], other := s.other + {p}) && p < |s.m|
    requires forall e, k, q :: e in s.roots ==> (Owns(s'.m, e, k, q) <==> Owns(s.m, e, k, q))
    requires forall e, v :: e in s.roots && 0 <= v < ALLPAGES ==> e < |s.m| && Leaf(s'.m, e, v) == Leaf(s.m, e, v)
    ensures Grew(s, s', d) && Zeroed(s, s', d, p)
  {
    assert p in s.free;
    forall x: nat ensures InSkeleton(s'.m, d, x) <==> InSkeleton(s.m, d, x) {
      assert forall k :: Owns(s'.m, d, k, x) <==> Owns(s.m, d, k, x);
    }
    assert forall i :: 0 < i < |s.free| ==> s.free[i] != p;
  }

  /** The pages v0 .. v of d have been mapped to pages that were free and are zero; the rest of the
      space, all other spaces and all other pages but tables of d are what they were. The pages in
      hand were free before. */
  ghost predicate Gained(s: Mem, s': Mem, d: nat, v0: nat, v: nat, hand: set<nat>) {
    && Grew(s, s', d) && s'.other == s.other + hand && (forall p :: p in hand ==> p in s.free && p !in s.other)
    && (forall u: nat :: u < ALLPAGES && !(v0 <= u < v) ==> Leaf(s'.m, d, u) == Leaf(s.m, d, u))
    && (forall u: nat {:trigger NewPage(s, s', d, u)} :: v0 <= u < v && u < ALLPAGES ==> NewPage(s, s', d, u))
  }

  ghost predicate NewPage(s: Mem, s': Mem, d: nat, u: nat)
    requires d < |s'.m| && u < ALLPAGES
  {
    var w := Leaf(s'.m, d, u);
    Present(w) && Flags(w) == 7 && PN(w) in s.free && PN(w) < |s'.m| && s'.m[PN(w)] == Filled(0)
  }

  /** No entry of d is mapped that was not, and none has gone; nothing else has changed but free pages
      and tables of d. */
  ghost predicate Restored(s: Mem, s': Mem, d: nat, v0: nat, b: nat, hand: set<nat>) {
    && |s'.m| == |s.m| && s'.roots == s.roots && s'.other == s.other + hand && d < |s.m|
    && (forall u: nat :: v0 <= u < b && u < ALLPAGES ==> !Present(Leaf(s'.m, d, u)))
    && (forall u: nat :: u < ALLPAGES && !(v0 <= u < b) ==> Leaf(s'.m, d, u) == Leaf(s.m, d, u))
    && (forall x: nat :: x < |s.m| && x !in s.free && !InSkeleton(s.m, d, x) ==> s'.m[x] == s.m[x])
    && (forall x: nat :: InSkeleton(s.m, d, x) ==> InSkeleton(s'.m, d, x))
  }

  /** What allocuvm has given back when memory has run out: every page it took but those that have
      become page tables of d. */
  lemma FreeAgain(s: Mem, s': Mem, lo: nat, d: nat, v0: nat, b: nat)
    requires Conserved(s, lo) && Conserved(s', lo) && d in s.roots && Restored(s, s', d, v0, b, {}) && b <= USERPAGES
    requires forall u :: v0 <= u < b ==> !Present(Leaf(s.m, d, u))
    ensures forall p: nat :: p in s'.free <==> p in s.free && !InSkeleton(s'.m, d, p)
  {
    hide Conserved, Leaf;
    forall e, k, p: nat | e in s.roots && e != d ensures Owns(s'.m, e, k, p) <==> Owns(s.m, e, k, p) {
      RestoredSpaces(s, s', lo, d, v0, b, e);
    }
    forall p: nat ensures p in s'.free <==> p in s.free && !InSkeleton(s'.m, d, p) {
      FreePage(s, s', lo, d, v0, b, p);
    }
  }

  lemma RestoredSpaces(s: Mem, s': Mem, lo: nat, d: nat, v0: nat, b: nat, e: nat)
    requires Conserved(s, lo) && d in s.roots && Restored(s, s', d, v0, b, {}) && e in s.roots && e != d
    ensures forall k, p: nat :: Owns(s'.m, e, k, p) <==> Owns(s.m, e, k, p)
  {
    hide Conserved, Leaf;
    forall x: nat | x < |s.m| && x !in s.free && (forall k :: !Owns(s.m, d, k, x)) ensures s'.m[x] == s.m[x] {
      assert !InSkeleton(s.m, d, x);
    }
    OtherSpaceKept(s, s', lo, d, e);
  }

  lemma FreePage(s: Mem, s': Mem, lo: nat, d: nat, v0: nat, b: nat, p: nat)
    requires Conserved(s, lo) && Conserved(s', lo) && d in s.roots && Restored(s, s', d, v0, b, {}) && b <= USERPAGES
    requires forall u :: v0 <= u < b ==> !Present(Leaf(s.m, d, u))
    requires forall e, k, q: nat :: e in s.roots && e != d ==> (Owns(s'.m, e, k, q) <==> Owns(s.m, e, k, q))
    ensures p in s'.free <==> p in s.free && !InSkeleton(s'.m, d, p)
  {
    hide Leaf;
    forall v: nat | v < USERPAGES ensures Owns(s'.m, d, User(v), p) <==> Owns(s.m, d, User(v), p) {
      assert v0 <= v < b ==> !Present(Leaf(s.m, d, v)) && !Present(Leaf(s'.m, d, v));
    }
    assert InSkeleton(s'.m, d, p) ==> exists k :: Owns(s'.m, d, k, p);
    if e, k :| e in s.roots && Owns(s'.m, e, k, p) {
      assert e == d ==> (k.User? || InSkeleton(s'.m, d, p));
    }
    if e, k :| e in s.roots && Owns(s.m, e, k, p) {
      assert e == d ==> (k.User? || InSkeleton(s.m, d, p));
    }
  }

  lemma GainedNone(s: Mem, lo: nat, d: nat, v: nat)
    requires Conserved(s, lo) && d in s.roots
    ensures Gained(s, s, d, v, v, {})
  {
    GrewSelf(s, lo, d);
  }

  lemma AllGained(s: Mem, s': Mem, d: nat, v0: nat, v: nat, b: nat)
    requires Gained(s, s', d, v0, v, {}) && (v == b || (v == v0 && v0 >= b))
    ensures Gained(s, s', d, v0, b, {})
  {
  }

  /** Pages still to come are not mapped yet. */
  lemma NotYet(s: Mem, s': Mem, d: nat, v0: nat, v: nat, b: nat)
    requires Gained(s, s', d, v0, v, {}) && v < b <= USERPAGES && v0 <= v
    requires forall u :: v0 <= u < b ==> !Present(Leaf(s.m, d, u))
    ensures !Present(Leaf(s'.m, d, v))
  {
  }

  lemma NotYet1(s: Mem, s': Mem, d: nat, v: nat, p: nat)
    requires Zeroed(s, s', d, p) && v < ALLPAGES && !Present(Leaf(s.m, d, v))
    ensures !Present(Leaf(s'.m, d, v)) && p in s'.other && d < |s'.m|
  {
  }

  lemma OnePage(a: nat, p: nat, v: nat)
    requires a == v * PGSIZE && v < USERPAGES
    ensures PageSpan(a, PGSIZE) == 1 && a / PGSIZE == v && p * PGSIZE / PGSIZE == p && p * PGSIZE % PGSIZE == 0
    ensures UserPart(v, 1, p) == {p} && UserPart(v, 0, p) == {}
  {
    UserNext(v, 0, p);
  }

  lemma GainedHand(s0: Mem, s1: Mem, s2: Mem, lo: nat, d: nat, v0: nat, v: nat, p: nat)
    requires Gained(s0, s1, d, v0, v, {}) && Grew(s1, s2, d) && Zeroed(s1, s2, d, p) && Conserved(s1, lo)
    ensures Gained(s0, s2, d, v0, v, {p}) && p in s0.free && p < ALLPAGES
  {
    GrewChain(s0, s1, s2, d);
    SuffixIn(s1.free, s0.free);
    hide Grew, Leaf;
    assert s2.other == s0.other + {p};
    forall u: nat | v0 <= u < v && u < ALLPAGES ensures NewPage(s0, s2, d, u) {
      assert NewPage(s0, s1, d, u);
    }
  }

  /** The pages gained so far keep their contents while the space grows further. */
  lemma NewPageStays(s0: Mem, s: Mem, s': Mem, lo: nat, d: nat, u: nat)
    requires Conserved(s, lo) && d in s.roots && Grew(s, s', d) && u < USERPAGES && NewPage(s0, s, d, u)
    requires Leaf(s'.m, d, u) == Leaf(s.m, d, u)
    ensures NewPage(s0, s', d, u)
  {
    var x := PN(Leaf(s.m, d, u));
    assert Owns(s.m, d, User(u), x);
    assert !InSkeleton(s.m, d, x) by {
      if i :| Owns(s.m, d, Table(i), x) {
        assert false;
      }
    }
  }

  lemma HandStays(s: Mem, s': Mem, lo: nat, d: nat, p: nat)
    requires Conserved(s, lo) && d in s.roots && Grew(s, s', d) && p in s.other
    ensures p < |s.m| && s'.m[p] == s.m[p]
  {
    assert !InSkeleton(s.m, d, p);
  }

  lemma GainedStill(s0: Mem, s: Mem, s': Mem, lo: nat, d: nat, v0: nat, v: nat, p: nat, c: nat)
    requires Gained(s0, s, d, v0, v, {p}) && Conserved(s, lo) && d in s.roots && v < USERPAGES
    requires Grew(s, s', d) && c == 0 && LeafRange(s, s', d, v, c, p, PTE_WU) && s'.other == s.other
    ensures Gained(s0, s', d, v0, v, {p})
  {
    GrewChain(s0, s, s', d);
    hide Grew, Leaf, Conserved;
    forall u: nat | v0 <= u < v && u < ALLPAGES ensures NewPage(s0, s', d, u) {
      assert NewPage(s0, s, d, u);
      NewPageStays(s0, s, s', lo, d, u);
    }
  }

  lemma GainedOne(s0: Mem, s1: Mem, s2: Mem, s3: Mem, lo: nat, d: nat, v0: nat, v: nat, p: nat)
    requires Gained(s0, s2, d, v0, v, {p}) && Zeroed(s1, s2, d, p) && Conserved(s2, lo) && d in s2.roots && v0 <= v < USERPAGES
    requires p < ALLPAGES && Grew(s2, s3, d) && LeafRange(s2, s3, d, v, 1, p, PTE_WU) && s3.other == s2.other - {p}
    ensures Gained(s0, s3, d, v0, v + 1, {})
  {
    GrewChain(s0, s2, s3, d);
    HandStays(s2, s3, lo, d, p);
    hide Grew, Leaf, Conserved;
    assert s3.other == s0.other;
    assert Leaf(s3.m, d, v) == Pte(p, PTE_WU);
    forall u: nat | v0 <= u < v + 1 && u < ALLPAGES ensures NewPage(s0, s3, d, u) {
      if u < v {
        assert NewPage(s0, s2, d, u);
        NewPageStays(s0, s2, s3, lo, d, u);
      }
    }
  }

  /** When memory runs out, sweeping the range restores the entries. */
  lemma GainedSwept(s0: Mem, s: Mem, lo: nat, d: nat, v0: nat, v: nat, b: nat, hand: set<nat>)
    requires Gained(s0, s, d, v0, v, hand) && Conserved(s, lo) && d in s.roots && v <= b <= USERPAGES
    requires forall u :: v0 <= u < b ==> !Present(Leaf(s0.m, d, u))
    ensures Restored(s0, Sweep(s, d, v0, b), d, v0, b, hand)
  {
    hide Sweep, Leaf, Conserved;
    var s' := Sweep(s, d, v0, b);
    forall x: nat | x < |s0.m| && x !in s0.free && !InSkeleton(s0.m, d, x) ensures s'.m[x] == s0.m[x] {
      OldPageKept(s0, s, lo, d, v0, v, b, hand, x);
    }
    SweepKeeps(s, lo, d, v0, b);
  }

  lemma OldPageKept(s0: Mem, s: Mem, lo: nat, d: nat, v0: nat, v: nat, b: nat, hand: set<nat>, x: nat)
    requires Gained(s0, s, d, v0, v, hand) && Conserved(s, lo) && d in s.roots && v <= b <= USERPAGES
    requires forall u :: v0 <= u < b ==> !Present(Leaf(s0.m, d, u))
    requires x < |s0.m| && x !in s0.free && !InSkeleton(s0.m, d, x)
    ensures Sweep(s, d, v0, b).m[x] == s0.m[x]
  {
    OldPageSpared(s0, s, d, v0, v, b, hand, x);
    hide Leaf, Conserved, Sweep;
    SweepSpares(s, lo, d, v0, b, x);
    assert s.m[x] == s0.m[x];
  }

  lemma OldPageSpared(s0: Mem, s: Mem, d: nat, v0: nat, v: nat, b: nat, hand: set<nat>, x: nat)
    requires Gained(s0, s, d, v0, v, hand) && x < |s.m| && x !in s0.free && !InSkeleton(s0.m, d, x) && b <= USERPAGES
    requires forall u :: v0 <= u < b ==> !Present(Leaf(s0.m, d, u))
    ensures Spared(s.m, d, v0, b, x)
  {
    assert !InSkeleton(s.m, d, x);
    forall u: nat | v0 <= u < b ensures !Owns(s.m, d, User(u), x) {
      assert u < v ==> NewPage(s0, s, d, u);
    }
  }

  lemma GivenBack(s0: Mem, s: Mem, lo: nat, d: nat, v0: nat, b: nat, p: nat)
    requires Restored(s0, s, d, v0, b, {p}) && Conserved(s, lo) && d in s.roots && p in s0.free && p !in s0.other
    ensures p in s.other && p < |s.m|
    ensures Restored(s0, s.(m := s.m[p := Filled(JUNK)], free := [p] + s.free, other := s.other - {p}), d, v0, b, {})
  {
    assert forall e, k :: e in s.roots ==> !Owns(s.m, e, k, p);
    DataWrite(s, lo, p, Filled(JUNK));
    hide Leaf, Conserved;
    assert s.other - {p} == s0.other;
  }

  lemma HandFree(s: Mem, s': Mem, d: nat, v0: nat, v: nat, hand: set<nat>)
    requires Gained(s, s', d, v0, v, hand)
    ensures forall p :: p in hand ==> p in s.free && p !in s.other
  {
  }

  lemma GainedShape(s: Mem, s': Mem, d: nat, v0: nat, v: nat, hand: set<nat>)
    requires Gained(s, s', d, v0, v, hand)
    ensures |s'.m| == |s.m| && s'.roots == s.roots
  {
  }

  /** The tables of the directory entries from i on. */
  ghost function TablesFrom(m: seq<Frame>, d: nat, i: nat): (r: set<nat>)
    requires d < |m|
    ensures forall p :: p in r <==> exists j :: i <= j < NENTRIES && Owns(m, d, Table(j), p)
  {
    var r := set j | i <= j < NENTRIES && Present(m[d][j]) :: PN(m[d][j]);
    assert forall j :: i <= j < NENTRIES && Present(m[d][j]) ==> Owns(m, d, Table(j), PN(m[d][j]));
    r
  }

  lemma SkeletonTables(s: Mem, lo: nat, d: nat)
    requires Conserved(s, lo) && d in s.roots
    ensures d < |s.m| && Skeleton(s.m, d) == TablesFrom(s.m, d, 0) + {d}
    ensures Skeleton(s.m, d) !! s.other
  {
    forall p | p in Skeleton(s.m, d) ensures p !in s.other {
      assert Owns(s.m, d, Root, d);
    }
  }

  lemma TableNext(s: Mem, lo: nat, d: nat, i: nat)
    requires Conserved(s, lo) && d in s.roots && i < NENTRIES
    ensures d < |s.m|
    ensures TablesFrom(s.m, d, i) == TablesFrom(s.m, d, i + 1) + if Present(s.m[d][i]) then {PN(s.m[d][i])} else {}
    ensures Present(s.m[d][i]) ==> PN(s.m[d][i]) !in TablesFrom(s.m, d, i + 1) && PN(s.m[d][i]) != d && PN(s.m[d][i]) in Skeleton(s.m, d)
    ensures d !in TablesFrom(s.m, d, i + 1)
  {
    assert Owns(s.m, d, Root, d);
    assert Present(s.m[d][i]) ==> Owns(s.m, d, Table(i), PN(s.m[d][i]));
  }

  lemma NoTables(m: seq<Frame>, d: nat)
    requires d < |m|
    ensures TablesFrom(m, d, NENTRIES) == {} && d in Skeleton(m, d)
  {
  }

  lemma AllSwept(s0: Mem, s1: Mem, lo: nat, d: nat)
    requires Conserved(s0, lo) && d in s0.roots && d < |s0.m| && s1 == Sweep(s0, d, PageUp(0), PageUp(KERNBASE))
    ensures PageUp(0) == 0 && PageUp(KERNBASE) == USERPAGES
    ensures Conserved(s1, lo) && forall v :: 0 <= v < USERPAGES ==> !Present(Leaf(s1.m, d, v))
    ensures |s1.m| == |s0.m| && s1.roots == s0.roots && s1.other == s0.other
  {
    SweepKeeps(s0, lo, d, 0, USERPAGES);
  }

  lemma FreedContents(s0: Mem, s1: Mem, lo: nat, d: nat)
    requires Conserved(s0, lo) && d in s0.roots && d < |s0.m| && s1 == Sweep(s0, d, 0, USERPAGES)
    ensures forall x: nat :: x < |s0.m| && (forall k :: !Owns(s0.m, d, k, x)) ==> s1.m[x] == s0.m[x] && x !in Skeleton(s1.m, d)
  {
    hide Sweep;
    forall x: nat | x < |s0.m| && (forall k :: !Owns(s0.m, d, k, x)) ensures s1.m[x] == s0.m[x] && x !in Skeleton(s1.m, d) {
      assert Spared(s0.m, d, 0, USERPAGES, x);
      SweepSpares(s0, lo, d, 0, USERPAGES, x);
      forall k ensures !Owns(s1.m, d, k, x) {
        SweepOwners(s0, lo, d, 0, USERPAGES, k, x);
      }
    }
  }

  // ---------- New address spaces ----------

  lemma SelfUntouched(s: Mem)
    ensures Untouched(s, s)
  {
  }

  /** d is a new address space all of whose pages were free; nothing but free pages has changed. */
  ghost predicate NewSpace(s0: Mem, s: Mem, d: nat) {
    && Untouched(s0, s) && d in s0.free && d != 0 && d !in s0.roots && s.roots == s0.roots + {d} && d < |s.m|
    && (forall p :: p in s.free ==> p in s0.free)
    && (forall x: nat :: InSkeleton(s.m, d, x) ==> x in s0.free)
  }

  /** The entry of virtual page v for the kernel's memory, after the first k rows. */
  ghost predicate KernelOnly(s: Mem, d: nat, kmap: seq<Region>, k: nat) {
    && k <= |kmap| && d < |s.m|
    && (forall v: nat :: v < USERPAGES ==> Leaf(s.m, d, v) == 0)
    && (forall j, v: nat :: 0 <= j < k && v < ALLPAGES && InRegion(kmap[j], v) && RegionOk(kmap[j]) ==>
          Leaf(s.m, d, v) == Pte(kmap[j].phys / PGSIZE + (v - kmap[j].virt / PGSIZE), kmap[j].perm))
    && (forall v: nat {:trigger Leaf(s.m, d, v)} :: v < ALLPAGES && (forall j :: 0 <= j < k ==> !InRegion(kmap[j], v)) ==> Leaf(s.m, d, v) == 0)
  }

  lemma RootTaken(s0: Mem, s1: Mem, lo: nat, d: nat)
    requires Conserved(s0, lo) && s0.free != [] && d == s0.free[0] && s1 == s0.(free := s0.free[1..], other := s0.other + {d})
    requires Conserved(s1, lo)
    ensures d < |s0.m| && d != 0 && d !in s0.other
    ensures Conserved(s1.(m := s1.m[d := Filled(0)]), lo) && d in s1.other
  {
    assert d in s0.free;
    NotStructural(s0, lo, d);
    DataWrite(s1, lo, d, Filled(0));
  }

  lemma RootStarts(s0: Mem, s1: Mem, s2: Mem, s3: Mem, lo: nat, d: nat, kmap: seq<Region>)
    requires Conserved(s0, lo) && s0.free != [] && d == s0.free[0] && d != 0 && d < |s0.m| && d !in s0.other
    requires s1 == s0.(free := s0.free[1..], other := s0.other + {d}) && s2 == s1.(m := s1.m[d := Filled(0)])
    requires s3 == s2.(roots := s2.roots + {d}, other := s2.other - {d})
    requires forall v :: 0 <= v < ALLPAGES ==> Leaf(s3.m, d, v) == 0
    ensures NewSpace(s0, s3, d) && KernelOnly(s3, d, kmap, 0) && s3.other == s0.other
  {
    assert d in s0.free;
    assert d !in s0.roots by {
      NotStructural(s0, lo, d);
      assert Owns(s0.m, d, Root, d);
    }
    hide Leaf;
    forall x: nat | InSkeleton(s3.m, d, x) ensures x == d {
    }
  }

  lemma RegionFree(s: Mem, d: nat, kmap: seq<Region>, k: nat)
    requires KmapOk(kmap) && k < |kmap| && KernelOnly(s, d, kmap, k)
    ensures RegionOk(kmap[k])
    ensures forall v :: kmap[k].virt / PGSIZE <= v < kmap[k].virt / PGSIZE + PageSpan(kmap[k].virt, kmap[k].size) ==> !Present(Leaf(s.m, d, v))
    ensures UserPart(kmap[k].virt / PGSIZE, PageSpan(kmap[k].virt, kmap[k].size), kmap[k].phys / PGSIZE) == {}
  {
    hide Leaf;
    assert RegionOk(kmap[k]);
    forall v: nat | InRegion(kmap[k], v) ensures v < ALLPAGES && Leaf(s.m, d, v) == 0 {
      assert forall j :: 0 <= j < k ==> !InRegion(kmap[j], v);
    }
    KernelPart(kmap[k].virt / PGSIZE, PageSpan(kmap[k].virt, kmap[k].size), kmap[k].phys / PGSIZE);
    forall v: nat | kmap[k].virt / PGSIZE <= v < kmap[k].virt / PGSIZE + PageSpan(kmap[k].virt, kmap[k].size)
      ensures !Present(Leaf(s.m, d, v))
    {
      assert InRegion(kmap[k], v);
    }
  }

  lemma KernelPart(v0: nat, c: nat, p0: nat)
    ensures v0 >= USERPAGES ==> UserPart(v0, c, p0) == {}
  {
  }

  lemma RegionDone(s: Mem, s': Mem, d: nat, kmap: seq<Region>, k: nat)
    requires KmapOk(kmap) && k < |kmap| && KernelOnly(s, d, kmap, k) && RegionOk(kmap[k])
    requires LeafRange(s, s', d, kmap[k].virt / PGSIZE, PageSpan(kmap[k].virt, kmap[k].size), kmap[k].phys / PGSIZE, kmap[k].perm)
    ensures KernelOnly(s', d, kmap, k + 1)
  {
    RegionLeaf(s, s', d, kmap[k]);
    hide Leaf, Pte, RegionOk, InRegion, LeafRange;
    forall j: nat, v: nat | j < k + 1 && v < ALLPAGES && InRegion(kmap[j], v) && RegionOk(kmap[j])
      ensures kmap[j].phys / PGSIZE + (v - kmap[j].virt / PGSIZE) < ALLPAGES && kmap[j].perm < PGSIZE
      ensures Leaf(s'.m, d, v) == Pte(kmap[j].phys / PGSIZE + (v - kmap[j].virt / PGSIZE), kmap[j].perm)
    {
      RegionPte(kmap[j], v);
      assert j < k ==> !InRegion(kmap[k], v);
    }
    forall v: nat | v < ALLPAGES && (forall j :: 0 <= j < k + 1 ==> !InRegion(kmap[j], v)) ensures Leaf(s'.m, d, v) == 0 {
      assert !InRegion(kmap[k], v);
      assert forall j :: 0 <= j < k ==> !InRegion(kmap[j], v);
    }
  }

  lemma RegionLeaf(s: Mem, s': Mem, d: nat, r: Region)
    requires RegionOk(r) && LeafRange(s, s', d, r.virt / PGSIZE, PageSpan(r.virt, r.size), r.phys / PGSIZE, r.perm)
    ensures d < |s.m| && d < |s'.m|
    ensures forall v: nat :: v < ALLPAGES && !InRegion(r, v) ==> Leaf(s'.m, d, v) == Leaf(s.m, d, v)
    ensures forall v: nat :: v < ALLPAGES && InRegion(r, v) ==> r.phys / PGSIZE + (v - r.virt / PGSIZE) < ALLPAGES
    ensures forall v: nat :: v < ALLPAGES && InRegion(r, v) ==> Leaf(s'.m, d, v) == Pte(r.phys / PGSIZE + (v - r.virt / PGSIZE), r.perm)
    ensures forall v: nat :: v < USERPAGES ==> !InRegion(r, v)
  {
    hide Leaf, Pte;
  }

  lemma RegionPte(r: Region, v: nat)
    requires RegionOk(r) && InRegion(r, v)
    ensures r.phys / PGSIZE + (v - r.virt / PGSIZE) < ALLPAGES && r.perm < PGSIZE
  {
  }

  lemma RegionPartial(s: Mem, s': Mem, d: nat, kmap: seq<Region>, k: nat, c: nat)
    requires k < |kmap| && KernelOnly(s, d, kmap, k) && RegionOk(kmap[k])
    requires LeafRange(s, s', d, kmap[k].virt / PGSIZE, c, kmap[k].phys / PGSIZE, kmap[k].perm)
    ensures d < |s'.m| && forall v: nat :: v < USERPAGES ==> !Present(Leaf(s'.m, d, v))
  {
    hide Leaf;
  }

  lemma NewSpaceGrows(s0: Mem, s: Mem, s': Mem, lo: nat, d: nat)
    requires NewSpace(s0, s, d) && Grew(s, s', d)
    ensures NewSpace(s0, s', d)
  {
    SuffixIn(s'.free, s.free);
    hide Leaf, InSkeleton;
    forall x: nat | x < |s0.m| && x !in s0.free ensures s'.m[x] == s0.m[x] {
      assert s.m[x] == s0.m[x];
      assert !InSkeleton(s.m, d, x);
    }
  }

  lemma NewSpaceGives(s0: Mem, s: Mem, d: nat)
    requires NewSpace(s0, s, d)
    ensures s.roots == s0.roots + {d} && d < |s.m| == |s0.m| && d in s.roots && d !in s0.roots
  {
  }

  lemma NewSpaceUntouched(s0: Mem, s: Mem, d: nat)
    requires NewSpace(s0, s, d)
    ensures Untouched(s0, s)
  {
  }

  /** Freeing the new space again gives every page back. */
  lemma SpaceDropped(s0: Mem, s: Mem, s': Mem, lo: nat, d: nat)
    requires Conserved(s0, lo) && NewSpace(s0, s, d) && Conserved(s', lo) && s.other == s0.other
    requires forall v: nat :: v < USERPAGES && Present(Leaf(s.m, d, v)) ==> PN(Leaf(s.m, d, v)) in s0.free
    requires |s'.m| == |s.m| && s'.roots == s.roots - {d} && s'.other == s.other
    requires forall x: nat :: x < |s.m| && x !in s.free && (forall k :: !Owns(s.m, d, k, x)) ==> s'.m[x] == s.m[x]
    ensures Untouched(s0, s') && s'.roots == s0.roots && forall p :: p in s'.free <==> p in s0.free
  {
    hide Conserved;
    forall x: nat | x < |s0.m| && x !in s0.free ensures s'.m[x] == s0.m[x] {
      forall k ensures !Owns(s.m, d, k, x) {
        assert !InSkeleton(s.m, d, x);
      }
      assert s.m[x] == s0.m[x];
    }
    AllGivenBack(s0, s', lo);
  }

  // ---------- Copies ----------

  /** The first n pages of c hold what those of d held at first, under the same flags, in pages that
      were free then; the rest of c is kernel memory. */
  ghost predicate Copied(s0: Mem, s: Mem, d: nat, c: nat, kmap: seq<Region>, n: nat) {
    && d < |s0.m| && c < |s.m|
    && (forall v: nat {:trigger SamePage(s0, s.m, d, c, v)} :: v < n && v < USERPAGES ==> SamePage(s0, s.m, d, c, v))
    && (forall v: nat :: n <= v < USERPAGES ==> Leaf(s.m, c, v) == 0)
    && KernelHalf(s, c, kmap)
  }

  ghost predicate SamePage(s0: Mem, m: seq<Frame>, d: nat, c: nat, v: nat)
    requires d < |s0.m| && c < |m| && v < USERPAGES
  {
    var w, w' := Leaf(s0.m, d, v), Leaf(m, c, v);
    && Present(w') && Flags(w') == Flags(w) && PN(w') in s0.free
    && PN(w) < |s0.m| && PN(w') < |m| && m[PN(w')] == s0.m[PN(w)]
  }

  /** The entries for kernel memory are those of kmap. */
  ghost predicate KernelHalf(s: Mem, c: nat, kmap: seq<Region>)
    requires c < |s.m|
  {
    && (forall j, v: nat :: 0 <= j < |kmap| && v < ALLPAGES && InRegion(kmap[j], v) && RegionOk(kmap[j]) ==>
          Leaf(s.m, c, v) == Pte(kmap[j].phys / PGSIZE + (v - kmap[j].virt / PGSIZE), kmap[j].perm))
    && (forall v: nat {:trigger Leaf(s.m, c, v)} :: USERPAGES <= v < ALLPAGES && (forall j :: 0 <= j < |kmap| ==> !InRegion(kmap[j], v)) ==>
          Leaf(s.m, c, v) == 0)
  }

  lemma CopiedNone(s0: Mem, s: Mem, d: nat, c: nat, kmap: seq<Region>)
    requires KernelOnly(s, c, kmap, |kmap|) && d < |s0.m|
    ensures Copied(s0, s, d, c, kmap, 0)
  {
  }

  lemma CopiedAll(v: nat, sz: nat, i: nat)
    requires i == v * PGSIZE && i >= sz && (v == 0 || v <= PageUp(sz))
    ensures v == PageUp(sz)
  {
  }

  lemma CopiedPages(s0: Mem, s: Mem, d: nat, c: nat, kmap: seq<Region>, n: nat)
    requires Copied(s0, s, d, c, kmap, n)
    ensures c < |s.m| && forall v: nat :: v < USERPAGES && Present(Leaf(s.m, c, v)) ==> PN(Leaf(s.m, c, v)) in s0.free
  {
    forall v: nat | v < USERPAGES && Present(Leaf(s.m, c, v)) ensures PN(Leaf(s.m, c, v)) in s0.free {
      assert v < n ==> SamePage(s0, s.m, d, c, v);
    }
  }

  /** The page to copy is where it was, and has kept its contents. */
  lemma Source(s0: Mem, s: Mem, lo: nat, d: nat, c: nat, v: nat)
    requires Conserved(s0, lo) && d in s0.roots && NewSpace(s0, s, c) && v < USERPAGES
    requires d < |s0.m| && Present(Leaf(s0.m, d, v))
    ensures d < |s.m| && Leaf(s.m, d, v) == Leaf(s0.m, d, v) && Present(s.m[d][v / NENTRIES]) && d in s.roots
    ensures PN(Leaf(s0.m, d, v)) < |s0.m| && s.m[PN(Leaf(s0.m, d, v))] == s0.m[PN(Leaf(s0.m, d, v))]
  {
    SpacesKept(s0, s, lo, d);
  }

  lemma TakenInNew(s0: Mem, s: Mem, s1: Mem, lo: nat, d: nat, c: nat, kmap: seq<Region>, v: nat, p: nat)
    requires Conserved(s, lo) && NewSpace(s0, s, c) && Copied(s0, s, d, c, kmap, v) && s.free != [] && p == s.free[0] && s.other == s0.other
    requires s1 == s.(free := s.free[1..], other := s.other + {p})
    ensures NewSpace(s0, s1, c) && Copied(s0, s1, d, c, kmap, v) && p in s0.free && p !in s.other && p in s1.other
  {
    assert p in s.free;
  }

  /** Writing to a page in hand leaves the new space as it is. */
  lemma HandWritten(s0: Mem, s: Mem, lo: nat, d: nat, c: nat, kmap: seq<Region>, v: nat, p: nat, f: Frame)
    requires Conserved(s, lo) && NewSpace(s0, s, c) && Copied(s0, s, d, c, kmap, v) && p in s.other && p in s0.free && p < |s.m|
    ensures var s' := s.(m := s.m[p := f]);
      && Conserved(s', lo) && NewSpace(s0, s', c) && Copied(s0, s', d, c, kmap, v)
      && c < |s.m| && forall u :: 0 <= u < ALLPAGES ==> Leaf(s'.m, c, u) == Leaf(s.m, c, u)
  {
    var s' := s.(m := s.m[p := f]);
    assert forall e, k :: e in s.roots ==> !Owns(s.m, e, k, p);
    DataWrite(s, lo, p, f);
    forall x: nat ensures InSkeleton(s'.m, c, x) <==> InSkeleton(s.m, c, x) {
      assert forall k :: Owns(s'.m, c, k, x) <==> Owns(s.m, c, k, x);
    }
    forall u: nat | u < v && u < USERPAGES ensures SamePage(s0, s'.m, d, c, u) {
      assert SamePage(s0, s.m, d, c, u);
      assert Owns(s.m, c, User(u), PN(Leaf(s.m, c, u)));
    }
  }

  lemma HandGiven(s0: Mem, s: Mem, lo: nat, d: nat, c: nat, kmap: seq<Region>, v: nat, p: nat, f: Frame)
    requires Conserved(s, lo) && NewSpace(s0, s, c) && Copied(s0, s, d, c, kmap, v) && p in s.other && p in s0.free && p < |s.m|
    requires s.other == s0.other + {p} && p !in s0.other
    ensures var s' := s.(m := s.m[p := f], free := [p] + s.free, other := s.other - {p});
      NewSpace(s0, s', c) && Copied(s0, s', d, c, kmap, v) && s'.other == s0.other
  {
    HandWritten(s0, s, lo, d, c, kmap, v, p, f);
    assert s.other - {p} == s0.other;
  }

  lemma CopiedNext(s0: Mem, s: Mem, d: nat, c: nat, kmap: seq<Region>, v: nat)
    requires Copied(s0, s, d, c, kmap, v) && v < USERPAGES
    ensures c < |s.m| && !Present(Leaf(s.m, c, v))
  {
  }

  /** Pages copied so far stay when the new space grows. */
  lemma CopiedPageStays(s0: Mem, s: Mem, s': Mem, lo: nat, d: nat, c: nat, u: nat)
    requires Conserved(s, lo) && c in s.roots && Grew(s, s', c) && u < USERPAGES && d < |s0.m| && c < |s'.m| && SamePage(s0, s.m, d, c, u)
    requires Leaf(s'.m, c, u) == Leaf(s.m, c, u)
    ensures SamePage(s0, s'.m, d, c, u)
  {
    var x := PN(Leaf(s.m, c, u));
    assert Owns(s.m, c, User(u), x);
    assert forall i :: !Owns(s.m, c, Table(i), x);
    assert !InSkeleton(s.m, c, x);
  }

  lemma CopiedStill(s0: Mem, s: Mem, s': Mem, lo: nat, d: nat, c: nat, kmap: seq<Region>, v: nat, p: nat, flags: nat)
    requires Conserved(s, lo) && c in s.roots && Copied(s0, s, d, c, kmap, v) && v < USERPAGES && Grew(s, s', c)
    requires LeafRange(s, s', c, v, 0, p, flags)
    ensures Copied(s0, s', d, c, kmap, v)
  {
    hide Conserved, Grew, Leaf, SamePage;
    forall u: nat | u < v && u < USERPAGES ensures SamePage(s0, s'.m, d, c, u) {
      assert SamePage(s0, s.m, d, c, u);
      CopiedPageStays(s0, s, s', lo, d, c, u);
    }
  }

  lemma CopiedOne(s0: Mem, s: Mem, s2: Mem, s3: Mem, lo: nat, d: nat, c: nat, kmap: seq<Region>, v: nat, p: nat)
    requires Conserved(s2, lo) && c in s2.roots && Copied(s0, s2, d, c, kmap, v) && v < USERPAGES && Grew(s2, s3, c)
    requires d < |s0.m| && Present(Leaf(s0.m, d, v)) && PN(Leaf(s0.m, d, v)) < |s0.m|
    requires p < ALLPAGES && LeafRange(s2, s3, c, v, 1, p, Flags(Leaf(s0.m, d, v)))
    requires p in s2.other && p in s0.free && p < |s2.m| && s2.m[p] == s0.m[PN(Leaf(s0.m, d, v))]
    requires forall j :: 0 <= j < |kmap| && RegionOk(kmap[j]) ==> !InRegion(kmap[j], v)
    ensures Copied(s0, s3, d, c, kmap, v + 1)
  {
    HandStays(s2, s3, lo, c, p);
    FlagsPresent(Leaf(s0.m, d, v));
    hide Conserved, Grew, Leaf;
    assert Leaf(s3.m, c, v) == Pte(p, Flags(Leaf(s0.m, d, v)));
    forall u: nat | u < v + 1 && u < USERPAGES ensures SamePage(s0, s3.m, d, c, u) {
      if u < v {
        assert SamePage(s0, s2.m, d, c, u);
        CopiedPageStays(s0, s2, s3, lo, d, c, u);
      }
    }
  }

  lemma FlagsPresent(w: uint32)
    requires Present(w)
    ensures Flags(w) % 2 == 1
  {
  }
}
