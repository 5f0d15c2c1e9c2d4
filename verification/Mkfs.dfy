/** mkfs.c: the first image. Blocks and inodes are handed out in order, and the free map is written
    at the end. */
module Mkfs {
  import opened Blocks
  import opened ByteView
  import opened FsImage
  import opened FileSys
  import opened Names
  import opened Directory
  import opened Paths
  import opened Sysfile
  import L = Links

  /** The free map that balloc(used) writes. */
  function Below(n: nat, size: nat): (s: seq<bool>)
    ensures |s| == size && forall b :: 0 <= b < size ==> (s[b] <==> b < n)
  {
    seq(size, b => b < n)
  }

  /** The image under way, with the map it would get now; blocks not yet handed out are zero. */
  ghost predicate Good(s: FsState, g: Geometry, fb: nat) {
    && Conserved(s, g, {}, {}) && fb <= |s.blocks| && s.bitmap == Below(fb, |s.blocks|)
    && forall b :: fb <= b < |s.blocks| ==> s.blocks[b] == ZeroBlock()
  }

  /** The next block belongs to nobody, and handing it out is an allocation. */
  lemma Bumped(s: FsState, g: Geometry, fb: nat)
    requires Good(s, g, fb) && fb < |s.blocks|
    ensures !Owned(s, fb) && fb >= g.nmeta > 0
    ensures var t := s.(bitmap := Below(fb + 1, |s.blocks|));
            Conserved(t, g, {fb}, {}) && forall i, k, a :: Owns(t, i, k, a) <==> Owns(s, i, k, a)
  {
    AllocKeeps(s, g, {}, fb);
    assert s.blocks[fb := ZeroBlock()] == s.blocks;
    assert s.bitmap[fb := true] == Below(fb + 1, |s.blocks|);
    assert {} + {fb} == {fb};
  }

  /** A pointer of the inode gets the next block. */
  lemma PointerSet(s: FsState, g: Geometry, fb: nat, i: nat, k: nat)
    requires Good(s, g, fb) && fb < |s.blocks| && i < |s.inodes| && s.inodes[i].typ != 0 && k <= NDIRECT && s.inodes[i].addrs[k] == 0
    ensures var u := s.(bitmap := Below(fb + 1, |s.blocks|), inodes := s.inodes[i := s.inodes[i].(addrs := s.inodes[i].addrs[k := fb])]);
            Good(u, g, fb + 1) && Linked(s, u, i, k, fb) && u.blocks == s.blocks[fb := ZeroBlock()]
    ensures !Owned(s, fb) && fb > 0
  {
    Bumped(s, g, fb);
    var t := s.(bitmap := Below(fb + 1, |s.blocks|));
    LinkDirect(t, g, {fb}, i, k, fb);
    assert {fb} - {fb} == {};
    LinkedFrom(s, t, t.(inodes := t.inodes[i := t.inodes[i].(addrs := t.inodes[i].addrs[k := fb])]), i, k, fb);
  }

  /** An entry of the indirect block gets the next block. */
  lemma EntrySet(s: FsState, g: Geometry, fb: nat, i: nat, e: nat)
    requires Good(s, g, fb) && fb < |s.blocks| && i < |s.inodes| && s.inodes[i].typ != 0 && e < NINDIRECT
    requires 0 != s.inodes[i].addrs[NDIRECT] < |s.blocks| && s.blocks[s.inodes[i].addrs[NDIRECT]][e] == 0
    ensures var ind := s.inodes[i].addrs[NDIRECT];
            var u := s.(bitmap := Below(fb + 1, |s.blocks|), blocks := s.blocks[ind := s.blocks[ind][e := fb]]);
            Good(u, g, fb + 1) && Linked(s, u, i, NDIRECT + 1 + e, fb) && g.nmeta <= ind < fb && s.blocks == s.blocks[fb := ZeroBlock()]
    ensures !Owned(s, fb) && fb > 0 && fb < 0x1_0000_0000
  {
    var ind := s.inodes[i].addrs[NDIRECT];
    assert Owns(s, i, NDIRECT, ind);
    assert Owned(s, ind) && s.bitmap[ind];
    Bumped(s, g, fb);
    var t := s.(bitmap := Below(fb + 1, |s.blocks|));
    LinkEntry(t, g, {fb}, i, e, fb);
    assert {fb} - {fb} == {};
    LinkedFrom(s, t, t.(blocks := t.blocks[ind := t.blocks[ind][e := fb]]), i, NDIRECT + 1 + e, fb);
  }

  lemma GoodGives(s: FsState, g: Geometry, fb: nat)
    requires Good(s, g, fb)
    ensures Conserved(s, g, {}, {}) && fb <= |s.blocks| == |s.bitmap| <= 0x1_0000_0000
  {
  }

  /** The layout: boot block, superblock, log, inodes, free map, data. */
  function Laid(size: nat, ninodes: nat): Geometry {
    var inodestart := 2 + LOGSIZE;
    var bmapstart := inodestart + ninodes / IPB + 1;
    Geometry(inodestart, bmapstart, bmapstart + size / BPB + 1)
  }

  lemma LaidIs(size: nat, ninodes: nat)
    ensures Laid(size, ninodes) == Geometry(32, 33 + ninodes / 8, 34 + ninodes / 8 + size / 4096)
  {
  }

  /** struct superblock: size, nblocks, ninodes, nlog, logstart, inodestart, bmapstart. */
  function Superblock(size: nat, ninodes: nat): Block
    requires Laid(size, ninodes).nmeta <= size < 0x1_0000_0000 && ninodes < 0x1_0000_0000
  {
    var g := Laid(size, ninodes);
    ZeroBlock()[0 := size][1 := size - g.nmeta][2 := ninodes][3 := LOGSIZE][4 := 2][5 := g.inodestart][6 := g.bmapstart]
  }

  /** The blocks of a file of this size, the indirect block among them. */
  function Cost(size: nat): nat {
    var n := BlocksFor(size);
    if n > NDIRECT then n + 1 else n
  }

  /** How many blocks are new when block bn of a file of n blocks is asked for. */
  function New(n: nat, bn: nat): nat { if bn < n then 0 else if n == NDIRECT then 2 else 1 }

  lemma CostStep(size: nat, m: nat)
    requires m > 0 && size % BSIZE + m <= BSIZE
    ensures Cost(size + m) == Cost(size) + New(BlocksFor(size), size / BSIZE)
  {
    AppendCounts(size, m);
    hide BlocksFor;
  }

  /** The blocks in use after these files, fb being those of the metadata. */
  function Total(contents: seq<seq<byte>>, fb: nat): nat { fb + Cost(ENTRY * (2 + |contents|)) + Sum(contents) }

  function Sum(contents: seq<seq<byte>>): nat {
    if contents == [] then 0 else Sum(contents[..|contents| - 1]) + Cost(|contents[|contents| - 1]|)
  }

  /** There is room for one more file, n being there. */
  predicate FileFits(name: seq<byte>, data: seq<byte>, n: nat, fb: nat, size: nat, ninodes: nat) {
    && SLASH !in Text(name) && 3 + n <= ninodes && ENTRY * (3 + n) <= MAXFILE * BSIZE && |data| <= MAXFILE * BSIZE
    && fb + Cost(ENTRY * (3 + n)) - Cost(ENTRY * (2 + n)) + Cost(|data|) <= size
  }

  /** There is room for the root and the first k files. */
  ghost predicate FitSoFar(names: seq<seq<byte>>, contents: seq<seq<byte>>, fb: nat, size: nat, ninodes: nat, k: nat) {
    && k <= |contents| == |names| && 2 + k <= ninodes && ENTRY * (2 + k) <= MAXFILE * BSIZE && Total(contents[..k], fb) <= size
    && forall j :: 0 <= j < k ==> |contents[j]| <= MAXFILE * BSIZE && SLASH !in Text(names[j])
  }

  ghost predicate AllFit(names: seq<seq<byte>>, contents: seq<seq<byte>>, fb: nat, size: nat, ninodes: nat) {
    FitSoFar(names, contents, fb, size, ninodes, |names|) && Total(contents, fb) < BPB
  }

  lemma EmptyCost(n: nat)
    ensures Cost(0) == 0 && Cost(n) - Cost(0) == Cost(n)
  {
  }

  lemma SumOne(contents: seq<seq<byte>>, k: nat)
    requires k < |contents|
    ensures Sum(contents[..k + 1]) == Sum(contents[..k]) + Cost(|contents[k]|)
  {
    assert contents[..k + 1][..k] == contents[..k];
  }

  lemma {:induction false} FitFewer(names: seq<seq<byte>>, contents: seq<seq<byte>>, fb: nat, size: nat, ninodes: nat, k: nat, m: nat)
    requires k <= m && FitSoFar(names, contents, fb, size, ninodes, m)
    ensures FitSoFar(names, contents, fb, size, ninodes, k)
    decreases m - k
  {
    if k < m {
      SumOne(contents, m - 1);
      CostGrows(ENTRY * (1 + m), ENTRY * (2 + m));
      hide Cost, Sum;
      FitFewer(names, contents, fb, size, ninodes, k, m - 1);
    }
  }

  lemma NothingYet(names: seq<seq<byte>>, contents: seq<seq<byte>>, fb: nat, size: nat, ninodes: nat)
    requires |names| == |contents|
    ensures Total(contents[..0], fb) == fb + Cost(2 * ENTRY)
    ensures AllFit(names, contents, fb, size, ninodes) ==> FitSoFar(names, contents, fb, size, ninodes, 0)
    ensures FitSoFar(names, contents, fb, size, ninodes, 0) <==> 2 <= ninodes && fb + Cost(2 * ENTRY) <= size
  {
    assert contents[..0] == [];
    hide Cost;
    if AllFit(names, contents, fb, size, ninodes) {
      FitFewer(names, contents, fb, size, ninodes, 0, |names|);
    }
  }

  lemma NextFile(names: seq<seq<byte>>, contents: seq<seq<byte>>, fb: nat, size: nat, ninodes: nat, k: nat)
    requires k < |names| && FitSoFar(names, contents, fb, size, ninodes, k)
    ensures var now := Total(contents[..k], fb);
      && (FileFits(names[k], contents[k], k, now, size, ninodes) <==> FitSoFar(names, contents, fb, size, ninodes, k + 1))
      && Total(contents[..k + 1], fb) == now + Cost(ENTRY * (3 + k)) - Cost(ENTRY * (2 + k)) + Cost(|contents[k]|)
    ensures AllFit(names, contents, fb, size, ninodes) ==> FitSoFar(names, contents, fb, size, ninodes, k + 1)
  {
    SumOne(contents, k);
    hide Cost, Sum;
    if AllFit(names, contents, fb, size, ninodes) {
      FitFewer(names, contents, fb, size, ninodes, k + 1, |names|);
    }
  }

  lemma FitInAll(names: seq<seq<byte>>, contents: seq<seq<byte>>, fb: nat, size: nat, ninodes: nat)
    requires FitSoFar(names, contents, fb, size, ninodes, |names|)
    ensures Total(contents, fb) <= size && (AllFit(names, contents, fb, size, ninodes) <==> Total(contents, fb) < BPB)
  {
    assert contents[..|names|] == contents;
  }

  lemma CostGrows(a: nat, b: nat)
    requires a <= b
    ensures Cost(a) <= Cost(b)
  {
  }

  /** The blocks before the data, the superblock among them, are the same. */
  ghost predicate SameMeta(g: Geometry, a: seq<Block>, b: seq<Block>) {
    |a| == |b| && forall k :: 0 <= k < g.nmeta && k < |a| ==> b[k] == a[k]
  }

  /** The block that iappend stores into is no metadata. */
  lemma DataBlock(s: FsState, t: FsState, g: Geometry, i: nat, n: nat, bn: nat, a: nat)
    requires Extended(s, t, g, i, n, bn, a) && bn <= n && t.inodes[i].typ != 0 && bn < MAXFILE
    ensures a >= g.nmeta
  {
    MappedOwns(t, g, {}, {}, i, if bn == n then n + 1 else n, bn);
    assert Owned(t, a);
  }

  /** Every number is in the range of its field in struct dinode. */
  predicate Fits(d: Dinode) {
    && 0 <= d.typ < 0x1_0000 && 0 <= d.nlink < 0x1_0000 && d.size < 0x1_0000_0000
    && forall k :: 0 <= k <= NDIRECT ==> d.addrs[k] < 0x1_0000_0000
  }

  /** No inodes but these have changed. */
  ghost predicate SameInodes(a: seq<Dinode>, b: seq<Dinode>, but: set<nat>) {
    |a| == |b| && forall i: nat :: i < |a| && i !in but ==> b[i] == a[i]
  }

  /** A C string up to its NUL. */
  function Text(name: seq<byte>): seq<byte> { Cut(name, |name|) }

  /** The name in the file system: on the host those of user programs begin with an underscore. */
  function Stem(name: seq<byte>): (stem: seq<byte>)
    ensures 0 in name ==> 0 in stem
  {
    if name != [] && name[0] == UNDERSCORE then name[1..] else name
  }

  const UNDERSCORE: byte := 95

  /** "_cat" becomes "cat", and "README" stays. */
  lemma StemIs(name: seq<byte>)
    ensures Stem([95] + name) == name
    ensures name == [] || name[0] != 95 ==> Stem(name) == name
  {
    assert ([95] + name)[1..] == name;
  }

  class Image {
    const g: Geometry
    var blocks: seq<Block>
    var inodes: seq<Dinode>
    var freeinode: nat
    var freeblock: nat
    var bitmap: seq<bool>     // the free map on the disk
    var super: Block          // what the superblock, sector 1, holds

    /** An image of nothing but zeros and the superblock. */
    constructor (size: nat, ninodes: nat)
      requires Laid(size, ninodes).nmeta <= size < 0x1_0000_0000 && ninodes < 0x1_0000_0000
      ensures g == Laid(size, ninodes) && freeinode == 1 && freeblock == g.nmeta && |blocks| == size && |inodes| == ninodes
      ensures super == Superblock(size, ninodes) && |bitmap| == size && forall b :: 0 <= b < size ==> !bitmap[b]
      ensures Good(S(), g, freeblock) && forall i :: 0 <= i < ninodes ==> inodes[i].typ == 0 && Fits(inodes[i])
      ensures forall b :: 0 <= b < size ==> blocks[b] == ZeroBlock()
    {
      g := Laid(size, ninodes);
      freeinode, freeblock := 1, Laid(size, ninodes).nmeta;
      blocks, super := seq(size, _ => ZeroBlock()), Superblock(size, ninodes);
      inodes := seq(ninodes, _ => Dinode(0, 0, 0, seq(13, _ => 0)));
      bitmap := seq(size, _ => false);
      new;
      assert forall i, k, b :: !Owns(S(), i, k, b);
    }

    /** The image as it is. */
    ghost function Disk(): FsState
      reads this
    {
      FsState(bitmap, blocks, inodes)
    }

    /** The image with the free map that it is going to get. */
    ghost function S(): FsState
      reads this
    {
      FsState(Below(freeblock, |blocks|), blocks, inodes)
    }

    /** The image with this inode as inode i. */
    ghost function With(i: nat, d: Dinode): FsState
      reads this
      requires i < |inodes|
    {
      FsState(Below(freeblock, |blocks|), blocks, inodes[i := d])
    }

    /** The block of the image for block bn of inode i, as iappend finds or allots it. */
    method FindBlock(i: nat, d: Dinode, bn: nat, ghost n: nat) returns (r: Result<nat>, d': Dinode)
      requires i < |inodes| && Good(With(i, d), g, freeblock) && d.typ != 0
      requires NoHoles(With(i, d), i, n) && bn <= n && bn < MAXFILE
      modifies `blocks, `freeblock
      ensures r.Panic? <==> old(freeblock) + New(n, bn) > |blocks|
      ensures r.Done? ==> freeblock == old(freeblock) + New(n, bn)
      ensures r.Done? ==> Good(With(i, d'), g, freeblock) && Extended(old(With(i, d)), With(i, d'), g, i, n, bn, r.value)
      ensures r.Done? ==> d' == d.(addrs := d'.addrs) && r.value < |blocks|
      ensures SameMeta(g, old(blocks), blocks)
    {
      hide Conserved, NoHoles, Linked, Owned, Addr, FileBlock, Extended, Good;
      ghost var s := With(i, d);
      d' := d;
      GoodGives(s, g, freeblock);
      BlockAt(s, g, i, n, bn);
      ExtendedSelf(s, g, i, n, bn);
      if bn < NDIRECT {
        if d'.addrs[bn] == 0 {
          if freeblock == |blocks| {
            return Panic, d';
          }
          PointerSet(s, g, freeblock, i, bn);
          d', freeblock := d'.(addrs := d'.addrs[bn := freeblock]), freeblock + 1;
          assert With(i, d').inodes == s.inodes[i := d'];
          GoodGives(With(i, d'), g, freeblock);
          DirectExtends(s, With(i, d'), g, i, n, freeblock - 1);
        }
        ExtendedGives(s, With(i, d'), g, i, n, bn, d'.addrs[bn]);
        return Done(d'.addrs[bn]), d';
      }
      r, d' := FindEntry(i, d, bn, n);
    }

    /** The same, behind the direct blocks. */
    method FindEntry(i: nat, d: Dinode, bn: nat, ghost n: nat) returns (r: Result<nat>, d': Dinode)
      requires i < |inodes| && Good(With(i, d), g, freeblock) && d.typ != 0
      requires NoHoles(With(i, d), i, n) && NDIRECT <= bn <= n && bn < MAXFILE
      modifies `blocks, `freeblock
      ensures r.Panic? <==> old(freeblock) + New(n, bn) > |blocks|
      ensures r.Done? ==> freeblock == old(freeblock) + New(n, bn)
      ensures r.Done? ==> Good(With(i, d'), g, freeblock) && Extended(old(With(i, d)), With(i, d'), g, i, n, bn, r.value)
      ensures r.Done? ==> d' == d.(addrs := d'.addrs) && r.value < |blocks|
      ensures SameMeta(g, old(blocks), blocks)
    {
      hide Conserved, NoHoles, Linked, Owned, Addr, FileBlock, Extended, Good;
      ghost var s := With(i, d);
      d' := d;
      GoodGives(s, g, freeblock);
      BlockAt(s, g, i, n, bn);
      ExtendedSelf(s, g, i, n, bn);
      var e := bn - NDIRECT;
      if d'.addrs[NDIRECT] == 0 {
        if freeblock == |blocks| {
          return Panic, d';
        }
        PointerSet(s, g, freeblock, i, NDIRECT);
        d', freeblock := d'.(addrs := d'.addrs[NDIRECT := freeblock]), freeblock + 1;
        assert With(i, d').inodes == s.inodes[i := d'];
        IndirectZero(s, With(i, d'), g, i, n, freeblock - 1);
      }
      var ind := d'.addrs[NDIRECT];
      ghost var t := With(i, d');
      var x := blocks[ind][e];
      if x == 0 {
        if freeblock == |blocks| {
          return Panic, d';
        }
        EntrySet(t, g, freeblock, i, e);
        x := freeblock;
        blocks, freeblock := blocks[ind := blocks[ind][e := x]], freeblock + 1;
        GoodGives(With(i, d'), g, freeblock);
        EntryExtends(s, t, With(i, d'), g, i, n, ind, x);
      }
      ExtendedGives(s, With(i, d'), g, i, n, bn, x);
      return Done(x), d';
    }

    /** Take the next inode, with one link. */
    method NextInode(typ: int) returns (r: Result<nat>)
      requires Good(S(), g, freeblock) && typ != 0
      requires forall i :: freeinode <= i < |inodes| ==> inodes[i].typ == 0
      modifies `inodes, `freeinode
      ensures |inodes| == |old(inodes)| && (r.Panic? <==> old(freeinode) >= |inodes|)
      ensures r.Done? ==> r.value == old(freeinode) < |old(inodes)| && freeinode == old(freeinode) + 1
      ensures r.Done? ==> inodes == old(inodes)[r.value := Dinode(typ, 1, 0, seq(13, _ => 0))]
      ensures r.Done? ==> Good(S(), g, freeblock) && FileHolds(S(), r.value, []) && OthersKept(old(S()), S(), r.value)
    {
      var i := freeinode;
      if i >= |inodes| {
        return Panic;
      }
      ghost var s := S();
      freeinode := freeinode + 1;
      inodes := inodes[i := Dinode(typ, 1, 0, seq(13, _ => 0))];
      EmptyInode(s, S(), g, freeblock, i, typ);
      return Done(i);
    }

    /** Append data to file i. */
    method Iappend(i: nat, data: seq<byte>, ghost c: seq<byte>) returns (r: Result<()>)
      requires Good(S(), g, freeblock) && FileHolds(S(), i, c)
      modifies `blocks, `freeblock, `inodes
      ensures r.Panic? <==> |c| + |data| > MAXFILE * BSIZE || old(freeblock) + Cost(|c| + |data|) - Cost(|c|) > |blocks|
      ensures r.Done? ==> freeblock == old(freeblock) + Cost(|c| + |data|) - Cost(|c|)
      ensures r.Done? ==> Good(S(), g, freeblock) && FileHolds(S(), i, c + data) && OthersKept(old(S()), S(), i)
      ensures r.Done? ==> inodes[i] == old(inodes)[i].(addrs := inodes[i].addrs, size := |c| + |data|)
      ensures |inodes| == |old(inodes)| && SameMeta(g, old(blocks), blocks)
    {
      hide Good, Holds, Conserved, NoHoles, OthersKept, Extended, Store, FileHolds, Cost;
      FileHoldsGives(S(), g, freeblock, i, c);
      var d := inodes[i];
      var off := d.size;
      ghost var s0, d0, i0 := S(), d, inodes;
      assert With(i, d) == s0 by {
        assert inodes[i := d] == inodes;
      }
      OthersKeptSelf(s0, g, i);
      assert c + data[..0] == c;
      var tot := 0;
      while tot < |data|
        invariant tot <= |data| && off == |c| + tot <= MAXFILE * BSIZE && d == d0.(addrs := d.addrs) && inodes == i0 && SameMeta(g, s0.blocks, blocks)
        invariant Appending(s0, With(i, d), g, freeblock, i, c + data[..tot])
        invariant freeblock == old(freeblock) + Cost(off) - Cost(|c|)
      {
        var bn := off / BSIZE;
        if bn >= MAXFILE {
          return Panic;
        }
        ghost var s := With(i, d);
        GoodGives(s, g, freeblock);
        CostGrows(off, |c| + |data|);
        var n1 := Min(|data| - tot, (bn + 1) * BSIZE - off);
        CostStep(off, n1);
        CostGrows(off + n1, |c| + |data|);
        var x, d' := FindBlock(i, d, bn, BlocksFor(off));
        if x.Panic? {
          return Panic;
        }
        ghost var t := With(i, d');
        d := d';
        DataBlock(s, t, g, i, BlocksFor(off), bn, x.value);
        blocks := blocks[x.value := Store(blocks[x.value], off - bn * BSIZE, data[tot..tot + n1])];
        AppendStep(s0, s, t, With(i, d), g, freeblock, i, c + data[..tot], data[tot..tot + n1], x.value);
        assert c + data[..tot] + data[tot..tot + n1] == c + data[..tot + n1];
        tot := tot + n1;
        off := off + n1;
      }
      assert data[..tot] == data;
      ghost var s := With(i, d);
      d := d.(size := off);
      inodes := inodes[i := d];
      AppendEnd(s0, s, S(), g, freeblock, i, c + data);
      return Done(());
    }
  
    /** A file of mkfs's command line, which names no directory: its inode, its entry in the root, its contents. */
    method AddFile(name: seq<byte>, data: seq<byte>, ghost files: seq<File>, ghost c: seq<byte>)
      returns (r: Result<()>, ghost c': seq<byte>)
      requires Built(S(), g, freeblock, files, c) && freeinode == 2 + |files| && 0 in name && |inodes| <= 0x1_0000
      modifies `blocks, `freeblock, `inodes, `freeinode
      ensures |inodes| == |old(inodes)| && SameMeta(g, old(blocks), blocks)
      ensures r.Panic? <==> !FileFits(name, data, |files|, old(freeblock), |blocks|, |inodes|)
      ensures r.Done? ==> freeblock == old(freeblock) + Cost(ENTRY * (3 + |files|)) - Cost(ENTRY * (2 + |files|)) + Cost(|data|)
      ensures r.Done? ==> freeinode == 3 + |files| && Built(S(), g, freeblock, files + [(Cut(Stem(name), DIRSIZ), data)], c')
      ensures r.Done? ==> SameInodes(old(inodes), inodes, {ROOTINO, 2 + |files|})
    {
      hide Built, FileHolds, Good, OthersKept, Cut, Slots, Padded, Cost, Text, Stem;
      ghost var s, fb := S(), freeblock;
      EmptyCost(|data|);
      BuiltGives(s, g, freeblock, files, c);
      c' := c;
      if SLASH in Text(name) {
        return Panic, c';
      }
      var i := NextInode(T_FILE);
      if i.Panic? {
        return Panic, c';
      }
      ghost var s1 := S();
      RootKept(s, s1, g, freeblock, i.value, c);
      var raw := Strncpy(Stem(name), DIRSIZ);
      var entry := Encode(Dirent(i.value, raw));
      var done := Iappend(ROOTINO, entry, c);
      if done.Panic? {
        return Panic, c';
      }
      ghost var s2 := S();
      ghost var fb2 := freeblock;
      EmptyKept(s1, s2, g, fb, i.value);
      done := Iappend(i.value, data, []);
      if done.Panic? {
        return Panic, c';
      }
      assert [] + data == data;
      KeptInodes(s1, s2, ROOTINO);
      KeptInodes(s2, S(), i.value);
      GoodGives(s1, g, fb);
      GoodGives(s2, g, fb2);
      FileAdded(s, s1, s2, S(), g, fb, freeblock, files, c, (Cut(Stem(name), DIRSIZ), data));
      return Done(()), c + entry;
    }
  
    /** main: the root with its two entries, the files, the size of the root rounded up, and the map. It
        succeeds if and only if there are enough inodes and blocks, no file or the root gets too large,
        no name has a slash, and the blocks in use have their bits in the first block of the map. */
    method Build(names: seq<seq<byte>>, contents: seq<seq<byte>>) returns (r: Result<()>, ghost files: seq<File>)
      requires freeinode == 1 && Good(S(), g, freeblock) && forall i :: 0 <= i < |inodes| ==> inodes[i].typ == 0
      requires |names| == |contents| && |inodes| <= 0x1_0000 && forall j :: 0 <= j < |names| ==> 0 in names[j]
      requires |bitmap| == |blocks| && forall b :: 0 <= b < |bitmap| ==> !bitmap[b]
      modifies `blocks, `freeblock, `inodes, `freeinode, `bitmap
      ensures |files| == |names| && forall j :: 0 <= j < |names| ==> files[j] == (Cut(Stem(names[j]), DIRSIZ), contents[j])
      ensures r.Done? <==> AllFit(names, contents, old(freeblock), |blocks|, |inodes|)
      ensures r.Done? ==> Finished(Disk(), g, freeblock, files) && freeblock == Total(contents, old(freeblock))
      ensures |inodes| == |old(inodes)| && SameMeta(g, old(blocks), blocks)
      ensures r.Done? && (forall i :: 0 <= i < |inodes| ==> Fits(old(inodes)[i])) ==> forall i :: 0 <= i < |inodes| ==> Fits(inodes[i])
    {
      hide Built, FileHolds, Good, OthersKept, Cut, Slots, Padded, Finished, Fits, Cost, Total, AllFit, Text, Stem, Below;
      files := seq(|names|, j requires 0 <= j < |names| => (Cut(Stem(names[j]), DIRSIZ), contents[j]));
      ghost var c, fb0 := [], freeblock;
      NothingYet(names, contents, fb0, |blocks|, |inodes|);
      r, c := MakeRoot();
      if r.Panic? {
        return Panic, files;
      }
      var k := 0;
      assert files[..0] == [] && contents[..0] == [];
      while k < |names|
        invariant k <= |names| && Built(S(), g, freeblock, files[..k], c) && freeinode == 2 + k
        invariant |inodes| == |old(inodes)| && SameMeta(g, old(blocks), blocks) && bitmap == old(bitmap)
        invariant forall i :: 0 <= i < |inodes| && (i < ROOTINO || i >= 2 + k) ==> inodes[i] == old(inodes)[i]
        invariant freeblock == Total(contents[..k], fb0) && FitSoFar(names, contents, fb0, |blocks|, |inodes|, k)
      {
        assert files[..k + 1] == files[..k] + [files[k]];
        NextFile(names, contents, fb0, |blocks|, |inodes|, k);
        r, c := AddFile(names[k], contents[k], files[..k], c);
        if r.Panic? {
          return Panic, files;
        }
        k := k + 1;
      }
      assert files[..k] == files && contents[..k] == contents;
      FitInAll(names, contents, fb0, |blocks|, |inodes|);
      FixRoot(files, c);
      r := Balloc(freeblock);
      return r, files;
    }

    /** The first used blocks are marked in the one block that mkfs writes of the free map. */
    method Balloc(used: nat) returns (r: Result<()>)
      requires used <= |bitmap| && forall b :: 0 <= b < |bitmap| ==> !bitmap[b]
      modifies `bitmap
      ensures r.Panic? <==> used >= BPB
      ensures r.Done? ==> bitmap == Below(used, |old(bitmap)|)
      ensures r.Panic? ==> bitmap == old(bitmap)
    {
      if used >= BPB {
        return Panic;
      }
      var i := 0;
      while i < used
        invariant i <= used && bitmap == Below(i, |old(bitmap)|)
      {
        bitmap := bitmap[i := true];
        i := i + 1;
      }
      return Done(());
    }

    /** The size of the root is rounded up. */
    method FixRoot(ghost files: seq<File>, ghost c: seq<byte>)
      requires Built(S(), g, freeblock, files, c)
      modifies `inodes
      ensures Finished(S(), g, freeblock, files) && |inodes| == |old(inodes)|
      ensures (forall i :: 0 <= i < |inodes| && (i < ROOTINO || i >= 2 + |files|) ==> Fits(old(inodes)[i])) && |inodes| <= 0x1_0000
        ==> forall i :: 0 <= i < |inodes| ==> Fits(inodes[i])
    {
      hide Built, FileHolds, Good, Finished;
      BuiltGives(S(), g, freeblock, files, c);
      RootSize(S(), c);
      ghost var s := S();
      var off := inodes[ROOTINO].size;
      inodes := inodes[ROOTINO := inodes[ROOTINO].(size := (off / BSIZE + 1) * BSIZE)];
      Completed(s, S(), g, freeblock, files, c);
      if (forall i :: 0 <= i < |inodes| && (i < ROOTINO || i >= 2 + |files|) ==> Fits(s.inodes[i])) && |inodes| <= 0x1_0000 {
        BuiltFits(s, g, freeblock, files, c);
        assert Fits(inodes[ROOTINO]);
      }
    }

    /** The root directory with its two entries. */
    method MakeRoot() returns (r: Result<()>, ghost c: seq<byte>)
      requires freeinode == 1 && Good(S(), g, freeblock) && forall i :: 0 <= i < |inodes| ==> inodes[i].typ == 0
      modifies `blocks, `freeblock, `inodes, `freeinode
      ensures |inodes| == |old(inodes)| && SameMeta(g, old(blocks), blocks)
      ensures r.Panic? <==> |inodes| < 2 || old(freeblock) + Cost(2 * ENTRY) > |blocks|
      ensures r.Done? ==> freeblock == old(freeblock) + Cost(2 * ENTRY)
      ensures r.Done? ==> freeinode == 2 && Built(S(), g, freeblock, [], c)
      ensures r.Done? ==> SameInodes(old(inodes), inodes, {ROOTINO})
    {
      hide FileHolds, Good, OthersKept, Cut, Slots, Padded;
      c := [];
      var i := NextInode(T_DIR);
      if i.Panic? {
        return Panic, c;
      }
      ghost var s := S();
      var dot, dotdot := Encode(L.Entry(i.value, L.Dot())), Encode(L.Entry(i.value, L.DotDot()));
      assert [] + dot == dot;
      r := Iappend(i.value, dot, []);
      if r.Panic? {
        return Panic, c;
      }
      ghost var s1 := S();
      r := Iappend(i.value, dotdot, dot);
      if r.Panic? {
        return Panic, c;
      }
      KeptInodes(s, s1, ROOTINO);
      KeptInodes(s1, S(), ROOTINO);
      c := dot + dotdot;
      RootBuilt(s, S(), g, freeblock, c);
      return Done(()), c;
    }
  }

  /** The first n blocks of file i hold c and then zeros. */
  ghost predicate Holds(s: FsState, i: nat, n: nat, c: seq<byte>) {
    && i < |s.inodes| && |c| <= n * BSIZE
    && forall p: nat :: p < n * BSIZE ==> FileByte(s, i, p) == if p < |c| then c[p] else 0
  }

  /** File i contains c, and zeros up to the end of its last block. */
  ghost predicate FileHolds(s: FsState, i: nat, c: seq<byte>) {
    FileOk(s, i) && s.inodes[i].size == |c| && Holds(s, i, BlocksFor(|c|), c)
  }

  lemma FileContents(s: FsState, i: nat, c: seq<byte>)
    requires FileHolds(s, i, c)
    ensures Contents(s, i) == c
  {
    assert forall p: nat :: p < |c| ==> FileByte(s, i, p) == c[p];
  }

  lemma FileHoldsGives(s: FsState, g: Geometry, fb: nat, i: nat, c: seq<byte>)
    requires FileHolds(s, i, c) && Good(s, g, fb)
    ensures i < |s.inodes| && s.inodes[i].size == |c| <= MAXFILE * BSIZE && s.inodes[i].typ != 0 && Conserved(s, g, {}, {})
    ensures OthersKept(s, s, i) ==> Appending(s, s, g, fb, i, c)
  {
  }

  /** The image s of an iappend that has got as far as contents c. */
  ghost predicate Appending(s0: FsState, s: FsState, g: Geometry, fb: nat, i: nat, c: seq<byte>) {
    && Good(s, g, fb) && NoHoles(s, i, BlocksFor(|c|)) && Holds(s, i, BlocksFor(|c|), c) && OthersKept(s0, s, i)
    && i < |s0.inodes| == |s.inodes| && s.inodes[i] == s0.inodes[i].(addrs := s.inodes[i].addrs) && s.inodes[i].typ != 0
  }

  lemma AppendStep(s0: FsState, s: FsState, t: FsState, u: FsState, g: Geometry, fb: nat, i: nat, c: seq<byte>, piece: seq<byte>, a: nat)
    requires Good(t, g, fb) && piece != [] && |c| % BSIZE + |piece| <= BSIZE && |c| / BSIZE < MAXFILE
    requires i < |s0.inodes| == |s.inodes| && s.inodes[i].typ != 0 && NoHoles(s, i, BlocksFor(|c|)) && Conserved(s, g, {}, {})
    requires Holds(s, i, BlocksFor(|c|), c) && OthersKept(s0, s, i) && s.inodes[i] == s0.inodes[i].(addrs := s.inodes[i].addrs)
    requires Extended(s, t, g, i, BlocksFor(|c|), |c| / BSIZE, a) && a < |t.blocks|
    requires t.inodes[i] == s.inodes[i].(addrs := t.inodes[i].addrs)
    requires u == t.(blocks := t.blocks[a := Store(t.blocks[a], |c| % BSIZE, piece)])
    ensures Appending(s0, u, g, fb, i, c + piece)
  {
    hide Good, Holds, Conserved, NoHoles, OthersKept, Extended, Store, Patched;
    var n, bn := BlocksFor(|c|), |c| / BSIZE;
    AppendCounts(|c|, |piece|);
    ExtendedGives(s, t, g, i, n, bn, a);
    ExtendedKeeps(s, t, g, i, n, bn, a);
    var n' := BlocksFor(|c| + |piece|);
    StoreInFile(t, g, i, n', bn, |c| % BSIZE, piece);
    OthersKeptTransitive(s0, s, t, i);
    OthersKeptTransitive(s0, t, u, i);
    StoreGood(t, u, g, fb, i, n', bn, a);
    HoldsMore(s, t, u, g, i, n, n', bn, a, c, piece);
  }

  lemma AppendCounts(c: nat, m: nat)
    requires m > 0 && c % BSIZE + m <= BSIZE
    ensures var n, bn := BlocksFor(c), c / BSIZE;
      bn <= n && BlocksFor(c + m) == (if bn == n then n + 1 else n) && bn < BlocksFor(c + m) && bn * BSIZE + c % BSIZE == c
      && (bn == n ==> c == n * BSIZE) && c <= n * BSIZE && c + m <= BlocksFor(c + m) * BSIZE
  {
  }

  /** Blocks not yet handed out stay zero. */
  lemma StoreGood(t: FsState, u: FsState, g: Geometry, fb: nat, i: nat, n: nat, bn: nat, a: nat)
    requires Good(t, g, fb) && NoHoles(t, i, n) && bn < n && t.inodes[i].typ != 0 && FileBlock(t, i, bn) == a && a < |t.blocks|
    requires u.bitmap == t.bitmap && Conserved(u, g, {}, {}) && |u.blocks| == |t.blocks|
    requires forall b :: 0 <= b < |t.blocks| && b != a ==> u.blocks[b] == t.blocks[b]
    ensures Good(u, g, fb)
  {
    MappedOwns(t, g, {}, {}, i, n, bn);
    assert Owned(t, a) && t.bitmap[a];
  }

  lemma HoldsMore(s: FsState, t: FsState, u: FsState, g: Geometry, i: nat, n: nat, n': nat, bn: nat, a: nat, c: seq<byte>, piece: seq<byte>)
    requires Holds(s, i, n, c) && Patched(s, t, i, n * BSIZE, 0, []) && Patched(t, u, i, n' * BSIZE, |c|, piece)
    requires n' == (if bn == n then n + 1 else n) && (bn == n ==> |c| == n * BSIZE) && |c| + |piece| <= n' * BSIZE
    requires Extended(s, t, g, i, n, bn, a)
    ensures Holds(u, i, n', c + piece)
  {
    hide FileByte;
    forall p: nat | p < n' * BSIZE ensures FileByte(u, i, p) == if p < |c| + |piece| then (c + piece)[p] else 0 {
      assert FileByte(u, i, p) == PatchedByte(t, i, |c|, piece, p);
      if p < n * BSIZE {
        assert FileByte(t, i, p) == PatchedByte(s, i, 0, [], p);
      } else {
        NewByte(s, t, g, i, n, a, p);
      }
    }
  }

  lemma NewByte(s: FsState, t: FsState, g: Geometry, i: nat, n: nat, a: nat, p: nat)
    requires Extended(s, t, g, i, n, n, a) && n * BSIZE <= p < (n + 1) * BSIZE
    ensures FileByte(t, i, p) == 0
  {
    assert p / BSIZE == n;
    ZeroBytes(p % BSIZE);
  }

  lemma ZeroBytes(r: nat)
    requires r < BYTES
    ensures ToBytes(ZeroBlock())[r] == 0
  {
  }

  lemma AppendEnd(s0: FsState, s: FsState, u: FsState, g: Geometry, fb: nat, i: nat, c: seq<byte>)
    requires Appending(s0, s, g, fb, i, c) && |c| <= MAXFILE * BSIZE
    requires u == s.(inodes := s0.inodes[i := s.inodes[i].(size := |c|)])
    requires forall j :: 0 <= j < |s.inodes| && j != i ==> s.inodes[j] == s0.inodes[j]
    ensures Good(u, g, fb) && FileHolds(u, i, c) && OthersKept(s0, u, i)
  {
    forall j: nat, k: nat, b: nat ensures Owns(u, j, k, b) <==> Owns(s, j, k, b) {
    }
    SameOwners(s, u, g, {}, {});
    assert forall p: nat :: FileByte(u, i, p) == FileByte(s, i, p);
    assert u.inodes == s.inodes[i := s.inodes[i].(size := |c|)];
  }

  lemma EmptyInode(s: FsState, s': FsState, g: Geometry, fb: nat, i: nat, typ: int)
    requires Good(s, g, fb) && i < |s.inodes| && s.inodes[i].typ == 0 && typ != 0
    requires s' == s.(inodes := s.inodes[i := Dinode(typ, 1, 0, seq(13, _ => 0))])
    ensures Good(s', g, fb) && FileHolds(s', i, []) && OthersKept(s, s', i)
  {
    forall j: nat, l: nat, a: nat ensures Owns(s', j, l, a) <==> Owns(s, j, l, a) {
    }
    SameOwners(s, s', g, {}, {});
  }

  /** Other files hold what they held. */
  lemma OtherHolds(s: FsState, s': FsState, g: Geometry, i: nat, j: nat, c: seq<byte>)
    requires OthersKept(s, s', i) && Conserved(s, g, {}, {}) && j != i && FileHolds(s, j, c)
    ensures FileHolds(s', j, c)
  {
    forall k: nat ensures Addr(s'.blocks, s'.inodes[j], k) == Addr(s.blocks, s.inodes[j], k) {
      var ind := s.inodes[j].addrs[NDIRECT];
      assert ind != 0 ==> Owns(s, j, NDIRECT, ind);
    }
    forall p: nat | p < BlocksFor(|c|) * BSIZE ensures FileByte(s', j, p) == FileByte(s, j, p) {
      MappedOwns(s, g, {}, {}, j, BlocksFor(|c|), p / BSIZE);
    }
  }

  // ---------- The size of the root ----------

  /** The root is stretched to a whole number of blocks, one more than it has if it fills them: it
      is a file without holes just when its entries do not fill their last block. */
  lemma RootRounded(s: FsState, g: Geometry, fb: nat, c: seq<byte>)
    requires Good(s, g, fb) && FileHolds(s, ROOTINO, c)
    ensures var size := (|c| / BSIZE + 1) * BSIZE;
            var u := s.(inodes := s.inodes[ROOTINO := s.inodes[ROOTINO].(size := size)]);
            && Good(u, g, fb) && OthersKept(s, u, ROOTINO)
            && (FileOk(u, ROOTINO) <==> |c| % BSIZE != 0)
            && (|c| % BSIZE != 0 ==> Contents(u, ROOTINO) == c + Zeros(size - |c|))
  {
    var size := (|c| / BSIZE + 1) * BSIZE;
    var u := s.(inodes := s.inodes[ROOTINO := s.inodes[ROOTINO].(size := size)]);
    forall j: nat, k: nat, b: nat ensures Owns(u, j, k, b) <==> Owns(s, j, k, b) {
    }
    SameOwners(s, u, g, {}, {});
    var n := BlocksFor(|c|);
    assert BlocksFor(size) == |c| / BSIZE + 1;
    RoundedMap(s, u, n, BlocksFor(size));
    if |c| % BSIZE != 0 {
      assert forall p: nat :: FileByte(u, ROOTINO, p) == FileByte(s, ROOTINO, p);
      assert size == n * BSIZE;
    }
  }

  lemma RoundedMap(s: FsState, u: FsState, n: nat, m: nat)
    requires NoHoles(s, ROOTINO, n) && ROOTINO < |u.inodes| && u.blocks == s.blocks && n <= m <= n + 1
    requires u.inodes[ROOTINO].addrs == s.inodes[ROOTINO].addrs
    ensures m == n ==> NoHoles(u, ROOTINO, m)
    ensures m > n ==> !NoHoles(u, ROOTINO, m)
  {
    if m > n && m <= MAXFILE {
      assert Addr(u.blocks, u.inodes[ROOTINO], DataSlot(n)) == 0;
    }
  }

  // ---------- The files of the image ----------

  type File = (Name, seq<byte>)

  function NamesOf(files: seq<File>): (n: seq<Name>)
    ensures |n| == |files|
  {
    seq(|files|, j requires 0 <= j < |files| => files[j].0)
  }

  /** The entries of the root once these files are there. */
  ghost predicate RootHolds(slots: seq<Dirent>, files: seq<File>) {
    && |slots| == 2 + |files| && slots[0] == L.Entry(ROOTINO, L.Dot()) && slots[1] == L.Entry(ROOTINO, L.DotDot())
    && forall j :: 0 <= j < |files| ==> slots[2 + j] == L.Entry(2 + j, files[j].0)
  }

  /** The image with these files; c is what the root contains. */
  ghost predicate Built(s: FsState, g: Geometry, fb: nat, files: seq<File>, c: seq<byte>) {
    && Good(s, g, fb) && |s.inodes| >= 2 + |files| && FileHolds(s, ROOTINO, c)
    && |c| == ENTRY * (2 + |files|) && RootHolds(Slots(c), files)
    && (forall j :: 0 <= j < |files| ==> FileHolds(s, 2 + j, files[j].1))
    && (forall i :: 0 <= i < |s.inodes| ==>
          s.inodes[i].typ == (if i == ROOTINO then T_DIR else if 2 <= i < 2 + |files| then T_FILE else 0)
          && (s.inodes[i].typ != 0 ==> s.inodes[i].nlink == 1))
  }

  lemma BuiltGives(s: FsState, g: Geometry, fb: nat, files: seq<File>, c: seq<byte>)
    requires Built(s, g, fb, files, c)
    ensures Good(s, g, fb) && FileHolds(s, ROOTINO, c) && |c| == ENTRY * (2 + |files|)
    ensures forall i :: 2 + |files| <= i < |s.inodes| ==> s.inodes[i].typ == 0
  {
  }

  lemma BuiltFits(s: FsState, g: Geometry, fb: nat, files: seq<File>, c: seq<byte>)
    requires Built(s, g, fb, files, c) && |s.inodes| <= 0x1_0000
    requires forall i :: 0 <= i < |s.inodes| && (i < ROOTINO || i >= 2 + |files|) ==> Fits(s.inodes[i])
    ensures forall i :: 0 <= i < |s.inodes| ==> Fits(s.inodes[i]) && (i == ROOTINO ==> s.inodes[i].size <= 0x20_0000)
  {
    forall i: nat | i < |s.inodes| ensures Fits(s.inodes[i]) && (i == ROOTINO ==> s.inodes[i].size <= 0x20_0000) {
      if 1 <= i < 2 + |files| {
        AddrsFit(s, g, fb, i);
        assert i >= 2 ==> FileHolds(s, 2 + (i - 2), files[i - 2].1);
        hide Good;
      }
    }
  }

  lemma AddrsFit(s: FsState, g: Geometry, fb: nat, i: nat)
    requires Good(s, g, fb) && i < |s.inodes| && s.inodes[i].typ != 0
    ensures forall k :: 0 <= k <= NDIRECT ==> s.inodes[i].addrs[k] < 0x1_0000_0000
  {
    forall k: nat | k <= NDIRECT ensures s.inodes[i].addrs[k] < 0x1_0000_0000 {
      var b := s.inodes[i].addrs[k];
      assert b != 0 ==> Owns(s, i, k, b);
    }
  }

  lemma RootKept(s: FsState, s': FsState, g: Geometry, fb: nat, i: nat, c: seq<byte>)
    requires Good(s, g, fb) && OthersKept(s, s', i) && i != ROOTINO && FileHolds(s, ROOTINO, c)
    ensures FileHolds(s', ROOTINO, c)
  {
    OtherHolds(s, s', g, i, ROOTINO, c);
  }

  lemma EmptyKept(s: FsState, s': FsState, g: Geometry, fb: nat, i: nat)
    requires OthersKept(s, s', ROOTINO) && i != ROOTINO && FileHolds(s, i, []) && Good(s, g, fb)
    ensures FileHolds(s', i, [])
  {
    OtherHolds(s, s', g, ROOTINO, i, []);
  }

  /** An entry appended to the contents of a directory is one more slot. */
  lemma EntryAppended(c: seq<byte>, d: Dirent)
    requires |c| % ENTRY == 0 && d.inum < 0x1_0000
    ensures Slots(c + Encode(d)) == Slots(c) + [d]
  {
    SlotWritten(c, |c| / ENTRY, d);
    assert Spliced(c, |c|, Encode(d)) == c + Encode(d);
  }

  lemma FileAdded(s: FsState, s1: FsState, s2: FsState, s3: FsState, g: Geometry, fb: nat, fb': nat, files: seq<File>, c: seq<byte>,
                  f: File)
    requires Built(s, g, fb, files, c) && Good(s1, g, fb) && Good(s3, g, fb')
    requires 2 + |files| < |s.inodes| <= 0x1_0000 && |s1.inodes| == |s2.inodes| == |s3.inodes| == |s.inodes|
    requires Conserved(s1, g, {}, {}) && Conserved(s2, g, {}, {})
    requires OthersKept(s, s1, 2 + |files|) && OthersKept(s1, s2, ROOTINO) && OthersKept(s2, s3, 2 + |files|)
    requires s1.inodes[2 + |files|].typ == T_FILE && s1.inodes[2 + |files|].nlink == 1
    requires s2.inodes[ROOTINO] == s1.inodes[ROOTINO].(addrs := s2.inodes[ROOTINO].addrs, size := s2.inodes[ROOTINO].size)
    requires s3.inodes[2 + |files|] == s2.inodes[2 + |files|].(addrs := s3.inodes[2 + |files|].addrs, size := s3.inodes[2 + |files|].size)
    requires FileHolds(s2, ROOTINO, c + Encode(L.Entry(2 + |files|, f.0))) && FileHolds(s3, 2 + |files|, f.1)
    ensures Built(s3, g, fb', files + [f], c + Encode(L.Entry(2 + |files|, f.0)))
  {
    hide Good, OthersKept, Conserved, FileHolds, Cut, Slots;
    BuiltGives(s, g, fb, files, c);
    GoodGives(s, g, fb);
    var i, files' := 2 + |files|, files + [f];
    var c' := c + Encode(L.Entry(i, f.0));
    OtherHolds(s2, s3, g, i, ROOTINO, c');
    EntryAppended(c, L.Entry(i, f.0));
    forall j: nat | j < |files| ensures FileHolds(s3, 2 + j, files[j].1) {
      OtherHolds(s, s1, g, i, 2 + j, files[j].1);
      OtherHolds(s1, s2, g, ROOTINO, 2 + j, files[j].1);
      OtherHolds(s2, s3, g, i, 2 + j, files[j].1);
    }
    KeptInodes(s, s1, i);
    KeptInodes(s1, s2, ROOTINO);
    KeptInodes(s2, s3, i);
  }

  lemma KeptInodes(s: FsState, s': FsState, i: nat)
    requires OthersKept(s, s', i)
    ensures |s'.inodes| == |s.inodes| && forall j :: 0 <= j < |s.inodes| && j != i ==> s'.inodes[j] == s.inodes[j]
  {
  }

  /** The image that mkfs leaves. */
  ghost predicate Finished(s: FsState, g: Geometry, fb: nat, files: seq<File>) {
    && Good(s, g, fb) && |s.inodes| >= 2 + |files|
    && (forall j :: 0 <= j < |files| ==> FileOk(s, 2 + j) && Contents(s, 2 + j) == files[j].1)
    && (FileOk(s, ROOTINO) <==> ENTRY * (2 + |files|) % BSIZE != 0)
    && (FileOk(s, ROOTINO) ==> L.FreshRoot(Dir(s, ROOTINO), NamesOf(files)))
    && (FileOk(s, ROOTINO) && L.GoodNames(NamesOf(files)) ==> FsInv(s, g, map[]))
  }

  /** The slots of the stretched root: those of c, and free ones. */
  lemma StretchedSlots(c: seq<byte>, z: nat, files: seq<File>)
    requires |c| == ENTRY * (2 + |files|) && RootHolds(Slots(c), files) && z % ENTRY == 0
    ensures L.FreshRoot(Slots(c + Zeros(z)), NamesOf(files))
  {
    var d := c + Zeros(z);
    forall k: nat | k < |Slots(d)|
      ensures k < 2 + |files| ==> Slots(d)[k] == Slots(c)[k]
      ensures k >= 2 + |files| ==> !Slots(d)[k].Live()
    {
      SlotOf(c, z, k);
    }
  }

  lemma SlotOf(c: seq<byte>, z: nat, k: nat)
    requires |c| % ENTRY == 0 && ENTRY * k + ENTRY <= |c| + z
    ensures var e := (c + Zeros(z))[ENTRY * k..ENTRY * k + ENTRY];
      if ENTRY * k + ENTRY <= |c| then e == c[ENTRY * k..ENTRY * k + ENTRY] else !Decode(e).Live()
  {
    var d := c + Zeros(z);
    if ENTRY * k + ENTRY <= |c| {
      assert d[ENTRY * k..ENTRY * k + ENTRY] == c[ENTRY * k..ENTRY * k + ENTRY];
    } else {
      assert d[ENTRY * k] == 0 && d[ENTRY * k + 1] == 0;
    }
  }

  /** Rounding up the size of the root completes the image. */
  lemma Completed(s: FsState, u: FsState, g: Geometry, fb: nat, files: seq<File>, c: seq<byte>)
    requires Built(s, g, fb, files, c)
    requires u == s.(inodes := s.inodes[ROOTINO := s.inodes[ROOTINO].(size := (|c| / BSIZE + 1) * BSIZE)])
    ensures Finished(u, g, fb, files)
  {
    hide Good, Conserved, OthersKept, FileOk, Slots, Cut, L.FreshRoot, L.GoodNames, FsInv, Dir, FileHolds;
    RootRounded(s, g, fb, c);
    GoodGives(s, g, fb);
    forall i: nat | 2 <= i < 2 + |files| ensures FileOk(u, i) && Contents(u, i) == files[i - 2].1 {
      FileStays(s, u, g, i, files[i - 2].1);
    }
    if FileOk(u, ROOTINO) {
      var z: nat := (|c| / BSIZE + 1) * BSIZE - |c|;
      Padding(|c| / BSIZE + 1, 2 + |files|, z);
      RootStretched(u, files, c, z);
      if L.GoodNames(NamesOf(files)) {
        FreshImage(s, u, g, fb, files, c);
      }
    }
  }

  lemma FileStays(s: FsState, u: FsState, g: Geometry, i: nat, c: seq<byte>)
    requires OthersKept(s, u, ROOTINO) && Conserved(s, g, {}, {}) && i != ROOTINO && FileHolds(s, i, c)
    ensures i < |u.inodes| && FileOk(u, i) && Contents(u, i) == c
  {
    hide Conserved, OthersKept;
    OtherHolds(s, u, g, ROOTINO, i, c);
    FileContents(u, i, c);
  }

  lemma RootStretched(u: FsState, files: seq<File>, c: seq<byte>, z: nat)
    requires |c| == ENTRY * (2 + |files|) && RootHolds(Slots(c), files) && ROOTINO < |u.inodes|
    requires Contents(u, ROOTINO) == c + Zeros(z) && z % ENTRY == 0
    ensures L.FreshRoot(Dir(u, ROOTINO), NamesOf(files))
  {
    assert Dir(u, ROOTINO) == Slots(c + Zeros(z));
    hide *;
    StretchedSlots(c, z, files);
  }

  lemma Padding(blocks: nat, entries: nat, z: nat)
    requires z == BSIZE * blocks - ENTRY * entries
    ensures z % ENTRY == 0
  {
    assert z == ENTRY * (BSIZE / ENTRY * blocks - entries);
  }

  lemma FreshImage(s: FsState, u: FsState, g: Geometry, fb: nat, files: seq<File>, c: seq<byte>)
    requires Built(s, g, fb, files, c) && Good(u, g, fb) && |u.inodes| == |s.inodes|
    requires u.inodes == s.inodes[ROOTINO := s.inodes[ROOTINO].(size := (|c| / BSIZE + 1) * BSIZE)]
    requires FileOk(u, ROOTINO) && L.FreshRoot(Dir(u, ROOTINO), NamesOf(files)) && L.GoodNames(NamesOf(files))
    requires forall i :: 2 <= i < 2 + |files| ==> FileOk(u, i)
    ensures FsInv(u, g, map[])
  {
    hide FileOk, L.FreshRoot, L.GoodNames, Slots, FileHolds, RootHolds;
    forall i: nat | i < |u.inodes| ensures FileNode(u, i) && TreeOf(u)[i] == NodeOf(u, i) {
      assert 2 <= i < 2 + |files| ==> FileOk(u, i);
    }
    L.FreshInv(TreeOf(u), NamesOf(files));
  }

  lemma TwoSlots(d: Dirent, e: Dirent)
    requires d.inum < 0x1_0000 && e.inum < 0x1_0000
    ensures Slots(Encode(d) + Encode(e)) == [d, e]
  {
    EntryAppended([], d);
    assert [] + Encode(d) == Encode(d);
    EntryAppended(Encode(d), e);
  }

  lemma RootBuilt(s: FsState, u: FsState, g: Geometry, fb: nat, c: seq<byte>)
    requires c == Encode(L.Entry(ROOTINO, L.Dot())) + Encode(L.Entry(ROOTINO, L.DotDot()))
    requires Good(u, g, fb) && FileHolds(u, ROOTINO, c) && |s.inodes| == |u.inodes| >= 2
    requires forall i :: 0 <= i < |s.inodes| && i != ROOTINO ==> u.inodes[i].typ == 0
    requires u.inodes[ROOTINO].typ == T_DIR && u.inodes[ROOTINO].nlink == 1
    ensures Built(u, g, fb, [], c)
  {
    hide Good, FileHolds, Slots, Cut;
    TwoSlots(L.Entry(ROOTINO, L.Dot()), L.Entry(ROOTINO, L.DotDot()));
  }

  lemma RootSize(s: FsState, c: seq<byte>)
    requires FileHolds(s, ROOTINO, c)
    ensures ROOTINO < |s.inodes| && s.inodes[ROOTINO].size == |c|
  {
  }

  /** mkfs with 30 empty files: with "." and ".." their entries fill a block, and the size that mkfs
      gives to the root stands for a second block, which the root does not have. */
  method ThirtyFiles() returns (img: Image, r: Result<()>)
    ensures fresh(img) && r.Done? && |img.blocks| == 1000 && !FileOk(img.Disk(), ROOTINO)
  {
    img := new Image(1000, 200);
    var names: seq<seq<byte>> := seq(30, j requires 0 <= j < 30 => [1 + j, 0]);
    var contents: seq<seq<byte>> := seq(30, _ => []);
    ThirtyFit(names, contents);
    ghost var files;
    r, files := img.Build(names, contents);
    FullBlock(img.Disk(), img.g, img.freeblock, files);
  }

  lemma FullBlock(u: FsState, g: Geometry, fb: nat, files: seq<File>)
    requires Finished(u, g, fb, files) && |files| == 30
    ensures !FileOk(u, ROOTINO)
  {
    hide FileOk, Good, Contents, Dir, FsInv, L.FreshRoot, L.GoodNames, NamesOf;
  }

  lemma ThirtyFit(names: seq<seq<byte>>, contents: seq<seq<byte>>)
    requires |names| == |contents| == 30 && forall j :: 0 <= j < 30 ==> names[j] == [1 + j, 0] && contents[j] == []
    ensures AllFit(names, contents, Laid(1000, 200).nmeta, 1000, 200) && Laid(1000, 200).nmeta <= 1000
  {
    NoBlocks(contents);
    forall j | 0 <= j < 30 ensures SLASH !in Text(names[j]) {
      CutIs(names[j], 2, 1);
    }
    assert contents[..30] == contents;
  }

  lemma {:induction false} NoBlocks(contents: seq<seq<byte>>)
    requires forall j :: 0 <= j < |contents| ==> contents[j] == []
    ensures Sum(contents) == 0
  {
    if contents != [] {
      NoBlocks(contents[..|contents| - 1]);
    }
  }

  /** 31 files of 140 blocks on 10000 blocks: there is room for all of them, but the blocks in use
      have more bits than the one block of the map that mkfs writes, and it aborts. */
  lemma FullMap(names: seq<seq<byte>>, contents: seq<seq<byte>>)
    requires |names| == |contents| == 31 && forall j :: 0 <= j < 31 ==> names[j] == [1 + j, 0] && |contents[j]| == MAXFILE * BSIZE
    ensures var fb := Laid(10000, 200).nmeta;
      FitSoFar(names, contents, fb, 10000, 200, 31) && !AllFit(names, contents, fb, 10000, 200)
  {
    LargeFiles(contents);
    forall j | 0 <= j < 31 ensures SLASH !in Text(names[j]) {
      CutIs(names[j], 2, 1);
    }
    assert contents[..31] == contents;
  }

  lemma {:induction false} LargeFiles(contents: seq<seq<byte>>)
    requires forall j :: 0 <= j < |contents| ==> |contents[j]| == MAXFILE * BSIZE
    ensures Sum(contents) == 141 * |contents|
  {
    if contents != [] {
      LargeFiles(contents[..|contents| - 1]);
    }
  }
}
