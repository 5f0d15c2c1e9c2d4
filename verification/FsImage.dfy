/** The file system on disk (fs.h, fs.c) as a value: free map, inodes and data blocks, who owns
    which block, and what a file contains. */
module FsImage {
  import opened Blocks
  import opened ByteView

  const BSIZE := 512
  const NDIRECT := 12
  const NINDIRECT := 128
  const MAXFILE := 140        // NDIRECT + NINDIRECT
  const SLOTS := 141          // 12 direct, the indirect block, and its entries
  const IPB := 8              // inodes per block
  const BPB := 4096           // bitmap bits per block

  /** addrs has NDIRECT + 1 entries, the last of which is the indirect block; 0 means none. */
  datatype Dinode = Dinode(typ: int, nlink: int, size: nat, addrs: Addrs)

  type Addrs = a: seq<nat> | |a| == 13 witness seq(13, _ => 0)

  /** Where the regions start; blocks below nmeta are boot block, superblock, log, inodes and map. */
  datatype Geometry = Geometry(inodestart: nat, bmapstart: nat, nmeta: nat)

  datatype FsState = FsState(bitmap: seq<bool>, blocks: seq<Block>, inodes: seq<Dinode>)

  /** The block of the free map with the bit of block b. */
  function MapBlock(g: Geometry, b: nat): nat { g.bmapstart + b / BPB }

  ghost predicate WellFormed(s: FsState, g: Geometry) {
    |s.bitmap| == |s.blocks| <= 0x1_0000_0000 && 0 < g.nmeta <= |s.blocks|
  }

  /** The k-th block pointer of an inode: direct, indirect block, or entry of the indirect block. */
  function Addr(blocks: seq<Block>, ino: Dinode, k: nat): nat {
    if k <= NDIRECT then ino.addrs[k]
    else if k < SLOTS && 0 != ino.addrs[NDIRECT] < |blocks| then blocks[ino.addrs[NDIRECT]][k - NDIRECT - 1]
    else 0
  }

  /** The pointer to the bn-th block of the file's contents. */
  function DataSlot(bn: nat): nat { if bn < NDIRECT then bn else bn + 1 }

  ghost predicate Owns(s: FsState, i: nat, k: nat, b: nat) {
    && i < |s.inodes| && s.inodes[i].typ != 0
    && k < SLOTS && b != 0 && Addr(s.blocks, s.inodes[i], k) == b
  }

  ghost predicate Owned(s: FsState, b: nat) { exists i, k :: Owns(s, i, k, b) }

  /** Pointers lead to data blocks, and no two lead to the same one. */
  ghost predicate Exclusive(s: FsState, g: Geometry) {
    && (forall i, k, b: nat :: Owns(s, i, k, b) ==> g.nmeta <= b < |s.blocks|)
    && (forall i, k, j, l, b :: Owns(s, i, k, b) && Owns(s, j, l, b) ==> i == j && k == l)
  }

  /** The set bits of the free map are the metadata blocks and the owned blocks; extra are blocks
      allocated but not yet linked in, freed are blocks freed but not yet unlinked. */
  ghost predicate MapMatches(s: FsState, g: Geometry, extra: set<nat>, freed: set<nat>) {
    && (forall b :: 0 <= b < |s.bitmap| ==> (s.bitmap[b] <==> b < g.nmeta || b in extra || (Owned(s, b) && b !in freed)))
    && (forall b :: b in extra ==> g.nmeta <= b < |s.bitmap| && !Owned(s, b))
  }

  ghost predicate Conserved(s: FsState, g: Geometry, extra: set<nat>, freed: set<nat>) {
    WellFormed(s, g) && Exclusive(s, g) && MapMatches(s, g, extra, freed)
  }

  // ---------- Steps that leave ownership alone ----------

  lemma SameOwners(s: FsState, s': FsState, g: Geometry, extra: set<nat>, freed: set<nat>)
    requires Conserved(s, g, extra, freed) && WellFormed(s', g) && s'.bitmap == s.bitmap
    requires forall i, k, b :: Owns(s', i, k, b) <==> Owns(s, i, k, b)
    ensures Conserved(s', g, extra, freed)
  {
    assert forall b :: Owned(s', b) <==> Owned(s, b);
  }

  /** A block that is nobody's indirect block may change without changing any pointer. */
  lemma StoreKeepsOwners(s: FsState, a: nat, x: Block)
    requires a < |s.blocks| && forall i :: !Owns(s, i, NDIRECT, a)
    ensures var s' := s.(blocks := s.blocks[a := x]);
            forall i, k, b :: Owns(s', i, k, b) <==> Owns(s, i, k, b)
  {
    var s' := s.(blocks := s.blocks[a := x]);
    forall i: nat, k: nat | i < |s.inodes| && s.inodes[i].typ != 0
      ensures Addr(s'.blocks, s.inodes[i], k) == Addr(s.blocks, s.inodes[i], k)
    {
      assert !Owns(s, i, NDIRECT, a);
    }
  }

  /** Overwriting a data block of a file keeps all ownership. */
  lemma DataStoreKeeps(s: FsState, g: Geometry, extra: set<nat>, freed: set<nat>, i: nat, k: nat, a: nat, x: Block)
    requires Conserved(s, g, extra, freed) && Owns(s, i, k, a) && k != NDIRECT
    ensures a < |s.blocks|
    ensures var s' := s.(blocks := s.blocks[a := x]);
            Conserved(s', g, extra, freed) && forall j, l, b :: Owns(s', j, l, b) <==> Owns(s, j, l, b)
  {
    StoreKeepsOwners(s, a, x);
    SameOwners(s, s.(blocks := s.blocks[a := x]), g, extra, freed);
  }

  /** balloc: a clear bit is set and its block zeroed. */
  lemma AllocKeeps(s: FsState, g: Geometry, extra: set<nat>, b: nat)
    requires Conserved(s, g, extra, {}) && b < |s.bitmap| && !s.bitmap[b]
    ensures !Owned(s, b) && b !in extra && b >= g.nmeta
    ensures var s' := s.(bitmap := s.bitmap[b := true], blocks := s.blocks[b := ZeroBlock()]);
            Conserved(s', g, extra + {b}, {}) && forall i, k, a :: Owns(s', i, k, a) <==> Owns(s, i, k, a)
  {
    var s' := s.(bitmap := s.bitmap[b := true], blocks := s.blocks[b := ZeroBlock()]);
    assert forall i :: !Owns(s, i, NDIRECT, b);
    StoreKeepsOwners(s, b, ZeroBlock());
    assert forall i, k, a :: Owns(s', i, k, a) <==> Owns(s.(blocks := s'.blocks), i, k, a);
    assert forall a :: Owned(s', a) <==> Owned(s, a);
  }

  // ---------- Steps that link and unlink blocks ----------

  /** s' owns what s owns, and block b through pointer k of inode i besides. */
  ghost predicate Linked(s: FsState, s': FsState, i: nat, k: nat, b: nat) {
    forall j, l, a :: Owns(s', j, l, a) <==> Owns(s, j, l, a) || (j == i && l == k && a == b)
  }

  lemma LinkKeeps(s: FsState, s': FsState, g: Geometry, extra: set<nat>, i: nat, k: nat, b: nat)
    requires Conserved(s, g, extra, {}) && WellFormed(s', g) && s'.bitmap == s.bitmap
    requires b in extra && Linked(s, s', i, k, b) && forall a :: !Owns(s, i, k, a)
    ensures Conserved(s', g, extra - {b}, {})
  {
    assert Owns(s', i, k, b);
    forall a: nat ensures Owned(s', a) <==> Owned(s, a) || a == b {
      if j, l :| Owns(s, j, l, a) {
        assert Owns(s', j, l, a);
      }
    }
    assert Exclusive(s', g) by {
      forall j, l, j', l', a | Owns(s', j, l, a) && Owns(s', j', l', a) ensures j == j' && l == l' {
        if a == b {
          assert !Owns(s, j, l, b) && !Owns(s, j', l', b);
        }
      }
    }
  }

  /** A pointer in the inode itself is set to a block that is all zero if it is to hold pointers. */
  lemma LinkDirect(s: FsState, g: Geometry, extra: set<nat>, i: nat, k: nat, b: nat)
    requires Conserved(s, g, extra, {}) && i < |s.inodes| && s.inodes[i].typ != 0 && k <= NDIRECT
    requires s.inodes[i].addrs[k] == 0 && b in extra && b < |s.blocks| && (k == NDIRECT ==> s.blocks[b] == ZeroBlock())
    ensures var s' := s.(inodes := s.inodes[i := s.inodes[i].(addrs := s.inodes[i].addrs[k := b])]);
            Conserved(s', g, extra - {b}, {}) && Linked(s, s', i, k, b)
  {
    var s' := s.(inodes := s.inodes[i := s.inodes[i].(addrs := s.inodes[i].addrs[k := b])]);
    forall l: nat ensures Addr(s'.blocks, s'.inodes[i], l) == if l == k then b else Addr(s.blocks, s.inodes[i], l) {
    }
    LinkKeeps(s, s', g, extra, i, k, b);
  }

  /** An entry of the indirect block is set. */
  lemma LinkEntry(s: FsState, g: Geometry, extra: set<nat>, i: nat, e: nat, b: nat)
    requires Conserved(s, g, extra, {}) && i < |s.inodes| && s.inodes[i].typ != 0 && e < NINDIRECT
    requires var ind := s.inodes[i].addrs[NDIRECT]; ind != 0 && ind < |s.blocks| && s.blocks[ind][e] == 0
    requires b in extra && b < |s.blocks|
    ensures var ind := s.inodes[i].addrs[NDIRECT];
            var s' := s.(blocks := s.blocks[ind := s.blocks[ind][e := b]]);
            Conserved(s', g, extra - {b}, {}) && Linked(s, s', i, NDIRECT + 1 + e, b)
  {
    var ind := s.inodes[i].addrs[NDIRECT];
    var s' := s.(blocks := s.blocks[ind := s.blocks[ind][e := b]]);
    assert Owns(s, i, NDIRECT, ind);
    forall j: nat, l: nat | j < |s.inodes| && s.inodes[j].typ != 0
      ensures Addr(s'.blocks, s'.inodes[j], l)
           == if j == i && l == NDIRECT + 1 + e then b else Addr(s.blocks, s.inodes[j], l)
    {
      assert j != i ==> !Owns(s, j, NDIRECT, ind);
    }
    LinkKeeps(s, s', g, extra, i, NDIRECT + 1 + e, b);
  }

  /** bfree of an owned block that is about to be unlinked: its bit was set. */
  lemma FreeKeeps(s: FsState, g: Geometry, freed: set<nat>, b: nat)
    requires Conserved(s, g, {}, freed) && Owned(s, b) && b !in freed
    ensures g.nmeta <= b < |s.bitmap| && s.bitmap[b]
    ensures Conserved(s.(bitmap := s.bitmap[b := false]), g, {}, freed + {b})
  {
    var s' := s.(bitmap := s.bitmap[b := false]);
    assert forall i, k, a :: Owns(s', i, k, a) <==> Owns(s, i, k, a);
    assert forall a :: Owned(s', a) <==> Owned(s, a);
  }

  /** s' owns what s owns, except what pointers lo .. hi of inode i lead to. */
  ghost predicate Unlinked(s: FsState, s': FsState, i: nat, lo: nat, hi: nat) {
    forall j: nat, l: nat, a: nat :: Owns(s', j, l, a) <==> Owns(s, j, l, a) && !(j == i && lo <= l < hi)
  }

  /** These are the blocks behind pointers lo .. hi of inode i. */
  ghost predicate Behind(s: FsState, i: nat, lo: nat, hi: nat, freed: set<nat>) {
    forall a :: a in freed <==> exists l :: lo <= l < hi && Owns(s, i, l, a)
  }

  /** Pointers are dropped once exactly the blocks they led to have been freed. */
  lemma UnlinkKeeps(s: FsState, s': FsState, g: Geometry, freed: set<nat>, i: nat, lo: nat, hi: nat)
    requires Conserved(s, g, {}, freed) && WellFormed(s', g) && s'.bitmap == s.bitmap
    requires Unlinked(s, s', i, lo, hi) && Behind(s, i, lo, hi, freed)
    ensures Conserved(s', g, {}, {})
  {
    forall a: nat ensures Owned(s', a) <==> Owned(s, a) && a !in freed {
      if j, l :| Owns(s, j, l, a) {
        if a !in freed {
          assert Owns(s', j, l, a);
        }
      }
    }
  }

  // ---------- What a file contains ----------

  /** Exactly the first n blocks of file i have addresses. */
  ghost predicate DataMapped(s: FsState, i: nat, n: nat) {
    && i < |s.inodes| && n <= MAXFILE
    && forall bn: nat :: bn < MAXFILE ==> (Addr(s.blocks, s.inodes[i], DataSlot(bn)) != 0 <==> bn < n)
  }

  /** No holes: data blocks as above, and an indirect block just when it is needed. */
  ghost predicate NoHoles(s: FsState, i: nat, n: nat) {
    DataMapped(s, i, n) && (s.inodes[i].addrs[NDIRECT] != 0 <==> n > NDIRECT)
  }

  function BlocksFor(size: nat): nat { (size + BSIZE - 1) / BSIZE }

  /** Block bn of file i. */
  function FileBlock(s: FsState, i: nat, bn: nat): (b: nat)
    requires i < |s.inodes|
  {
    Addr(s.blocks, s.inodes[i], DataSlot(bn))
  }

  /** Byte p of file i. */
  ghost function FileByte(s: FsState, i: nat, p: nat): byte
    requires i < |s.inodes|
  {
    var a := FileBlock(s, i, p / BSIZE);
    if a < |s.blocks| then ToBytes(s.blocks[a])[p % BSIZE] else 0
  }

  /** The contents of file i. */
  ghost function Contents(s: FsState, i: nat): (c: seq<byte>)
    requires i < |s.inodes|
    ensures |c| == s.inodes[i].size && forall p :: 0 <= p < |c| ==> c[p] == FileByte(s, i, p)
  {
    seq(s.inodes[i].size, p requires 0 <= p < s.inodes[i].size => FileByte(s, i, p))
  }

  /** A file or directory between system calls. */
  ghost predicate FileOk(s: FsState, i: nat) {
    && i < |s.inodes| && s.inodes[i].typ != 0
    && s.inodes[i].size <= MAXFILE * BSIZE && NoHoles(s, i, BlocksFor(s.inodes[i].size))
  }

  lemma MappedOwns(s: FsState, g: Geometry, extra: set<nat>, freed: set<nat>, i: nat, n: nat, bn: nat)
    requires Conserved(s, g, extra, freed) && DataMapped(s, i, n) && bn < n && s.inodes[i].typ != 0
    ensures var a := FileBlock(s, i, bn); Owns(s, i, DataSlot(bn), a) && g.nmeta <= a < |s.blocks|
  {
    var a := FileBlock(s, i, bn);
    assert Owns(s, i, DataSlot(bn), a);
  }

  /** Linking the n-th data block in leaves no hole. */
  lemma LinkExtends(s: FsState, s': FsState, i: nat, n: nat, b: nat)
    requires i < |s.inodes| == |s'.inodes| && s'.inodes[i].typ != 0
    requires s.inodes[i].typ != 0 && n < MAXFILE && b != 0
    requires DataMapped(s, i, n) && Linked(s, s', i, DataSlot(n), b)
    ensures DataMapped(s', i, n + 1) && FileBlock(s', i, n) == b
    ensures forall bn: nat :: bn < MAXFILE && bn != n ==> FileBlock(s', i, bn) == FileBlock(s, i, bn)
  {
    forall bn: nat | bn < MAXFILE
      ensures FileBlock(s', i, bn) == if bn == n then b else FileBlock(s, i, bn)
    {
      var k, a, a' := DataSlot(bn), FileBlock(s, i, bn), FileBlock(s', i, bn);
      assert Owns(s, i, k, a) <==> a != 0;
      assert Owns(s', i, k, a') <==> a' != 0;
      assert Owns(s', i, k, a) || a == 0;
      assert bn == n ==> Owns(s', i, k, b);
    }
    forall bn: nat | bn < MAXFILE ensures Addr(s'.blocks, s'.inodes[i], DataSlot(bn)) != 0 <==> bn < n + 1 {
      assert FileBlock(s, i, bn) != 0 <==> bn < n;
      assert FileBlock(s', i, bn) == if bn == n then b else FileBlock(s, i, bn);
    }
  }

  /** What bmap reads on its way to block bn of a file of n blocks. */
  lemma BlockAt(s: FsState, g: Geometry, i: nat, n: nat, bn: nat)
    requires Conserved(s, g, {}, {}) && NoHoles(s, i, n) && s.inodes[i].typ != 0 && bn < MAXFILE
    ensures bn < NDIRECT ==> s.inodes[i].addrs[bn] == FileBlock(s, i, bn)
    ensures bn >= NDIRECT ==> var ind := s.inodes[i].addrs[NDIRECT];
      && (ind == 0 <==> n <= NDIRECT)
      && (ind != 0 ==> Owns(s, i, NDIRECT, ind) && ind < |s.blocks| && s.blocks[ind][bn - NDIRECT] == FileBlock(s, i, bn))
    ensures bn < n ==> Owns(s, i, DataSlot(bn), FileBlock(s, i, bn)) && g.nmeta <= FileBlock(s, i, bn) < |s.blocks|
    ensures bn >= n ==> FileBlock(s, i, bn) == 0
  {
    var ind := s.inodes[i].addrs[NDIRECT];
    if ind != 0 {
      assert Owns(s, i, NDIRECT, ind);
    }
    if bn < n {
      MappedOwns(s, g, {}, {}, i, n, bn);
    }
  }

  /** Of all files other than i, nothing changes: not the inode, not a pointer, not a byte. */
  ghost predicate OthersKept(s: FsState, s': FsState, i: nat) {
    && |s'.inodes| == |s.inodes| && |s'.blocks| == |s.blocks|
    && (forall j :: 0 <= j < |s.inodes| && j != i ==> s'.inodes[j] == s.inodes[j])
    && (forall j: nat, k: nat, b: nat :: j != i && Owns(s, j, k, b) ==>
          Owns(s', j, k, b) && b < |s.blocks| && s'.blocks[b] == s.blocks[b])
  }

  lemma OthersKeptTransitive(s: FsState, t: FsState, u: FsState, i: nat)
    requires OthersKept(s, t, i) && OthersKept(t, u, i)
    ensures OthersKept(s, u, i)
  {
  }

  /** Other files keep their contents. */
  lemma OthersContents(s: FsState, s': FsState, g: Geometry, i: nat, j: nat)
    requires OthersKept(s, s', i) && j != i && Conserved(s, g, {}, {}) && FileOk(s, j)
    ensures Contents(s', j) == Contents(s, j)
  {
    forall p: nat | p < s.inodes[j].size ensures FileByte(s', j, p) == FileByte(s, j, p) {
      var bn := p / BSIZE;
      MappedOwns(s, g, {}, {}, j, BlocksFor(s.inodes[j].size), bn);
      assert Owns(s', j, DataSlot(bn), FileBlock(s, j, bn));
    }
  }

  /** memmove into block bn of file i changes these bytes of the file and nothing else. */
  lemma StoreInFile(s: FsState, g: Geometry, i: nat, n: nat, bn: nat, o: nat, src: seq<byte>)
    requires Conserved(s, g, {}, {}) && NoHoles(s, i, n) && bn < n && s.inodes[i].typ != 0 && o + |src| <= BSIZE
    ensures var a := FileBlock(s, i, bn); a < |s.blocks|
    ensures var a := FileBlock(s, i, bn);
      var s' := s.(blocks := s.blocks[a := Store(s.blocks[a], o, src)]);
      && Conserved(s', g, {}, {}) && NoHoles(s', i, n) && OthersKept(s, s', i)
      && Patched(s, s', i, n * BSIZE, bn * BSIZE + o, src)
  {
    var a, k := FileBlock(s, i, bn), DataSlot(bn);
    MappedOwns(s, g, {}, {}, i, n, bn);
    var s' := s.(blocks := s.blocks[a := Store(s.blocks[a], o, src)]);
    DataStoreKeeps(s, g, {}, {}, i, k, a, Store(s.blocks[a], o, src));
    StoreOthers(s, g, i, k, a, Store(s.blocks[a], o, src));
    SamePointers(s, s', g, i, n);
    hide FileByte, Conserved, NoHoles, OthersKept;
    forall p: nat | p < n * BSIZE ensures FileByte(s', i, p) == PatchedByte(s, i, bn * BSIZE + o, src, p) {
      if p / BSIZE != bn {
        DistinctBlocks(s, g, i, n, p / BSIZE, bn);
      }
      StoreAtByte(s, s', i, bn, a, o, src, p);
    }
  }

  ghost function PatchedByte(s: FsState, i: nat, at: nat, src: seq<byte>, p: nat): byte
    requires i < |s.inodes|
  {
    if at <= p < at + |src| then src[p - at] else FileByte(s, i, p)
  }

  /** Below limit, the bytes of file i in s' are those in s, with src written at position at. */
  ghost predicate Patched(s: FsState, s': FsState, i: nat, limit: nat, at: nat, src: seq<byte>) {
    && i < |s.inodes| && i < |s'.inodes|
    && forall p: nat :: p < limit ==> FileByte(s', i, p) == PatchedByte(s, i, at, src, p)
  }

  lemma StoreOthers(s: FsState, g: Geometry, i: nat, k: nat, a: nat, x: Block)
    requires Conserved(s, g, {}, {}) && Owns(s, i, k, a) && k != NDIRECT && a < |s.blocks|
    ensures OthersKept(s, s.(blocks := s.blocks[a := x]), i)
  {
    DataStoreKeeps(s, g, {}, {}, i, k, a, x);
  }

  /** The same pointers mean the same block map. */
  lemma SamePointers(s: FsState, s': FsState, g: Geometry, i: nat, n: nat)
    requires Conserved(s, g, {}, {}) && NoHoles(s, i, n) && s.inodes[i].typ != 0 && s'.inodes == s.inodes
    requires forall j, l, b :: Owns(s', j, l, b) <==> Owns(s, j, l, b)
    ensures NoHoles(s', i, n) && forall bn: nat :: bn < MAXFILE ==> FileBlock(s', i, bn) == FileBlock(s, i, bn)
  {
    forall bn: nat | bn < MAXFILE ensures FileBlock(s', i, bn) == FileBlock(s, i, bn) {
      var x, x' := FileBlock(s, i, bn), FileBlock(s', i, bn);
      assert Owns(s, i, DataSlot(bn), x) <==> x != 0;
      assert Owns(s', i, DataSlot(bn), x') <==> x' != 0;
    }
    forall bn: nat | bn < MAXFILE ensures Addr(s'.blocks, s'.inodes[i], DataSlot(bn)) != 0 <==> bn < n {
      assert FileBlock(s', i, bn) == FileBlock(s, i, bn);
    }
  }

  lemma DistinctBlocks(s: FsState, g: Geometry, i: nat, n: nat, c: nat, bn: nat)
    requires Conserved(s, g, {}, {}) && NoHoles(s, i, n) && c < n && bn < n && c != bn && s.inodes[i].typ != 0
    ensures FileBlock(s, i, c) != FileBlock(s, i, bn)
  {
    MappedOwns(s, g, {}, {}, i, n, c);
    MappedOwns(s, g, {}, {}, i, n, bn);
    assert DataSlot(c) != DataSlot(bn);
  }

  lemma StoreAtByte(s: FsState, s': FsState, i: nat, bn: nat, a: nat, o: nat, src: seq<byte>, p: nat)
    requires i < |s.inodes| && a < |s.blocks| && o + |src| <= BSIZE && FileBlock(s, i, bn) == a
    requires s' == s.(blocks := s.blocks[a := Store(s.blocks[a], o, src)])
    requires FileBlock(s', i, p / BSIZE) == FileBlock(s, i, p / BSIZE)
    requires p / BSIZE != bn ==> FileBlock(s, i, p / BSIZE) != a
    ensures FileByte(s', i, p) == PatchedByte(s, i, bn * BSIZE + o, src, p)
  {
    hide FileBlock, Store, ToBytes;
    var c, r := p / BSIZE, p % BSIZE;
    assert p == c * BSIZE + r;
    if c == bn {
      StoredByte(s.blocks[a], o, src, r);
    }
  }
}
