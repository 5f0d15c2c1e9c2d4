/** Small disks on which something shows that need not happen on others. */
module Disks {
  import opened Blocks
  import opened ByteView
  import opened Names
  import opened FsImage
  import opened Directory
  import opened Paths
  import opened Sysfile
  import L = Links
  import M = Mkfs

  // ---------- Directories of which only the first block is written ----------

  function Part(c: seq<byte>): Block
    requires |c| <= BSIZE
  {
    OfBytes(c + Zeros(BSIZE - |c|))
  }

  lemma ZeroBytes(k: nat)
    requires k < BSIZE
    ensures ToBytes(ZeroBlock())[k] == 0
  {
  }

  /** A file whose first block begins with c, and all of whose other bytes are 0. */
  ghost predicate Begins(s: FsState, i: nat, c: seq<byte>) {
    && FileOk(s, i) && |c| <= BSIZE && |c| <= s.inodes[i].size
    && FileBlock(s, i, 0) < |s.blocks| && s.blocks[FileBlock(s, i, 0)] == Part(c)
    && forall bn: nat :: 0 < bn < BlocksFor(s.inodes[i].size) ==>
         FileBlock(s, i, bn) < |s.blocks| && s.blocks[FileBlock(s, i, bn)] == ZeroBlock()
  }

  lemma BeginsWith(s: FsState, i: nat, c: seq<byte>)
    requires Begins(s, i, c)
    ensures Contents(s, i) == c + Zeros(s.inodes[i].size - |c|)
  {
    hide FileByte;
    var size := s.inodes[i].size;
    forall p: nat | p < size ensures FileByte(s, i, p) == (c + Zeros(size - |c|))[p] {
      ByteThere(s, i, c, p);
    }
  }

  lemma ByteThere(s: FsState, i: nat, c: seq<byte>, p: nat)
    requires Begins(s, i, c) && p < s.inodes[i].size
    ensures FileByte(s, i, p) == if p < |c| then c[p] else 0
  {
    BytesRoundTrip(c + Zeros(BSIZE - |c|));
    BlockBelow(p, s.inodes[i].size);
    hide OfBytes, ToBytes, FileBlock, FileOk, BlocksFor;
    if p / BSIZE > 0 {
      ZeroBytes(p % BSIZE);
    }
  }

  lemma BlockBelow(p: nat, size: nat)
    requires p < size
    ensures p / BSIZE < BlocksFor(size) && p % BSIZE < BSIZE && (p / BSIZE == 0 ==> p % BSIZE == p) && (p / BSIZE > 0 ==> p >= BSIZE)
  {
  }

  /** Zeros read as free slots. */
  lemma SlotsPadded(c: seq<byte>, z: nat)
    requires |c| % ENTRY == 0 && z % ENTRY == 0
    ensures Slots(c) <= Slots(c + Zeros(z)) && |Slots(c + Zeros(z))| == (|c| + z) / ENTRY
    ensures forall k :: |Slots(c)| <= k < |Slots(c + Zeros(z))| ==> !Slots(c + Zeros(z))[k].Live()
  {
    var d := c + Zeros(z);
    forall k: nat | k < |Slots(d)|
      ensures k < |Slots(c)| ==> Slots(d)[k] == Slots(c)[k]
      ensures k >= |Slots(c)| ==> !Slots(d)[k].Live()
    {
      M.SlotOf(c, z, k);
    }
  }

  lemma ThreeSlots(d: Dirent, e: Dirent, f: Dirent)
    requires d.inum < 0x1_0000 && e.inum < 0x1_0000 && f.inum < 0x1_0000
    ensures Slots(Encode(d) + Encode(e) + Encode(f)) == [d, e, f]
  {
    M.TwoSlots(d, e);
    M.EntryAppended(Encode(d) + Encode(e), f);
  }

  // ---------- A directory spread over the disk ----------

  const G := Geometry(32, 58, 70)
  const DIR: nat := 8             // an inode that is not in the block of the root's
  const NOADDRS: Addrs := [0, 0, 0, 0, 0, 0, 0, 0, 0, 0, 0, 0, 0]

  /** Block k of m, each in another part of the free map, the last in the part that begins with it. */
  function WideAddr(k: int, m: nat): nat {
    if 0 <= k < m - 1 then 100 + BPB * k else if 0 <= k == m - 1 then BPB * k else 0
  }

  function RootC(): seq<byte> { Encode(L.Entry(1, L.Dot())) + Encode(L.Entry(1, L.DotDot())) + Encode(L.Entry(DIR, [97])) }

  function DirC(): seq<byte> { Encode(L.Entry(DIR, L.Dot())) + Encode(L.Entry(1, L.DotDot())) }

  function WideBlock(b: int): Block {
    if b == 99 then Part(RootC()) else if b == 100 then Part(DirC()) else ZeroBlock()
  }

  function WideInode(i: int, m: nat): Dinode {
    if i == ROOTINO then Dinode(T_DIR, 2, 3 * ENTRY, NOADDRS[0 := 99])
    else if i == DIR then Dinode(T_DIR, 1, m * BSIZE, seq(13, k => WideAddr(k, m)))
    else Dinode(0, 0, 0, NOADDRS)
  }

  /** n blocks; "/a" is an empty directory of m blocks. */
  ghost function Wide(n: nat, m: nat): FsState {
    FsState(seq(n, b => b < G.nmeta || b == 99 || exists k :: 0 <= k < m && b == WideAddr(k, m)),
            seq(n, b => WideBlock(b)), seq(DIR + 1, i => WideInode(i, m)))
  }

  ghost predicate Wideness(n: nat, m: nat) { 2 <= m <= 10 && BPB * (m - 1) < n <= 0x1_0000_0000 }

  lemma WideAddrs(n: nat, m: nat, k: nat)
    requires Wideness(n, m)
    ensures k < m ==> G.nmeta <= WideAddr(k, m) < n && WideAddr(k, m) != 99 && WideAddr(k, m) / BPB == k
    ensures k >= m ==> WideAddr(k, m) == 0
  {
  }

  lemma WideOwners(n: nat, m: nat, i: nat, k: nat, b: nat)
    requires Wideness(n, m)
    ensures Owns(Wide(n, m), i, k, b) <==> (i == 1 && k == 0 && b == 99) || (i == DIR && k < m && b == WideAddr(k, m))
  {
    WideAddrs(n, m, k);
    WideAddrs(n, m, NDIRECT);
    hide WideBlock, WideAddr;
  }

  lemma WideConserved(n: nat, m: nat)
    requires Wideness(n, m)
    ensures Conserved(Wide(n, m), G, {}, {})
  {
    var s := Wide(n, m);
    forall i: nat, k: nat, b: nat
      ensures Owns(s, i, k, b) <==> (i == 1 && k == 0 && b == 99) || (i == DIR && k < m && b == WideAddr(k, m))
    {
      WideOwners(n, m, i, k, b);
    }
    forall k: nat ensures k < m ==> G.nmeta <= WideAddr(k, m) < n && WideAddr(k, m) != 99 && WideAddr(k, m) / BPB == k {
      WideAddrs(n, m, k);
    }
    hide WideAddr, WideInode, WideBlock, Owns;
    assert Owns(s, 1, 0, 99);
    forall b | 0 <= b < n ensures s.bitmap[b] <==> b < G.nmeta || Owned(s, b) {
      if k :| 0 <= k < m && b == WideAddr(k, m) {
        assert Owns(s, DIR, k, b);
      }
    }
  }

  lemma WideMapped(n: nat, m: nat, bn: nat)
    requires Wideness(n, m) && bn < MAXFILE
    ensures FileBlock(Wide(n, m), DIR, bn) == WideAddr(bn, m)
    ensures FileBlock(Wide(n, m), ROOTINO, bn) == if bn == 0 then 99 else 0
  {
    WideAddrs(n, m, NDIRECT);
    WideAddrs(n, m, bn);
    hide WideAddr, WideBlock;
  }

  lemma WideOk(n: nat, m: nat)
    requires Wideness(n, m)
    ensures FileOk(Wide(n, m), ROOTINO) && FileOk(Wide(n, m), DIR)
    ensures BlocksFor(m * BSIZE) == m && BlocksFor(3 * ENTRY) == 1 && NDIRECT == 12 && m <= MAXFILE
  {
    var s := Wide(n, m);
    forall bn: nat | bn < MAXFILE
      ensures FileBlock(s, DIR, bn) != 0 <==> bn < m
      ensures FileBlock(s, ROOTINO, bn) != 0 <==> bn < 1
    {
      WideMapped(n, m, bn);
      WideAddrs(n, m, bn);
    }
    WideAddrs(n, m, NDIRECT);
    hide WideAddr, Addr, WideBlock;
  }

  lemma WideBegins(n: nat, m: nat)
    requires Wideness(n, m)
    ensures Begins(Wide(n, m), ROOTINO, RootC()) && Begins(Wide(n, m), DIR, DirC())
    ensures |RootC()| == 3 * ENTRY && |DirC()| == 2 * ENTRY
  {
    hide Wide, Wideness, FileOk, FileBlock, RootC, DirC;
    var s := Wide(n, m);
    WideShape(n, m);
    WideOk(n, m);
    WideMapped(n, m, 0);
    hide Part;
    forall bn: nat | 0 < bn < m ensures FileBlock(s, DIR, bn) < n && s.blocks[FileBlock(s, DIR, bn)] == ZeroBlock() {
      WideMapped(n, m, bn);
    }
  }

  lemma WideShape(n: nat, m: nat)
    requires Wideness(n, m)
    ensures var s := Wide(n, m);
      && |s.blocks| == n > 100 && |s.inodes| == DIR + 1 && s.inodes[ROOTINO].size == 3 * ENTRY && s.inodes[DIR].size == m * BSIZE
      && (forall b :: 0 <= b < n ==> s.blocks[b] == WideBlock(b))
    ensures |RootC()| == 3 * ENTRY && |DirC()| == 2 * ENTRY && ENTRY == 16 && BSIZE == 512 && m >= 2
    ensures WideAddr(0, m) == 100 && forall k: nat :: 0 < k < m ==> 100 < WideAddr(k, m) < n
  {
    hide L.Entry, Encode, WideBlock;
  }

  /** What that says of a directory. */
  lemma BeginsDir(s: FsState, i: nat, c: seq<byte>)
    requires Begins(s, i, c) && s.inodes[i].size % ENTRY == 0 && |c| % ENTRY == 0
    ensures Slots(c) <= Dir(s, i) && forall k :: |Slots(c)| <= k < |Dir(s, i)| ==> !Dir(s, i)[k].Live()
    ensures |Dir(s, i)| == s.inodes[i].size / ENTRY
  {
    var size := s.inodes[i].size;
    BeginsWith(s, i, c);
    hide Begins;
    WholeEntries(size, |c|, size - |c|);
    PaddedDir(s, i, c, size - |c|);
  }

  lemma PaddedDir(s: FsState, i: nat, c: seq<byte>, z: nat)
    requires i < |s.inodes| && Contents(s, i) == c + Zeros(z) && z % ENTRY == 0 && |c| % ENTRY == 0
    ensures Slots(c) <= Dir(s, i) && forall k :: |Slots(c)| <= k < |Dir(s, i)| ==> !Dir(s, i)[k].Live()
    ensures |Dir(s, i)| == (|c| + z) / ENTRY
  {
    assert Dir(s, i) == Slots(c + Zeros(z));
    hide *;
    SlotsPadded(c, z);
  }

  lemma WholeEntries(size: nat, c: nat, z: nat)
    requires size % ENTRY == 0 && c % ENTRY == 0 && c + z == size
    ensures z % ENTRY == 0
  {
  }

  lemma WideDirs(n: nat, m: nat)
    requires Wideness(n, m)
    ensures var s := Wide(n, m);
      && Dir(s, ROOTINO) == [L.Entry(1, L.Dot()), L.Entry(1, L.DotDot()), L.Entry(DIR, [97])]
      && [L.Entry(DIR, L.Dot()), L.Entry(1, L.DotDot())] <= Dir(s, DIR)
      && forall k :: 2 <= k < |Dir(s, DIR)| ==> !Dir(s, DIR)[k].Live()
  {
    var s := Wide(n, m);
    WideBegins(n, m);
    BeginsDir(s, ROOTINO, RootC());
    BeginsDir(s, DIR, DirC());
    ThreeSlots(L.Entry(1, L.Dot()), L.Entry(1, L.DotDot()), L.Entry(DIR, [97]));
    M.TwoSlots(L.Entry(DIR, L.Dot()), L.Entry(1, L.DotDot()));
    hide Dir, Begins, Slots, L.Entry, Encode;
    assert s.inodes[ROOTINO].size / ENTRY == 3;
  }

  lemma WideFiles(n: nat, m: nat)
    requires Wideness(n, m)
    ensures Files(Wide(n, m), G)
  {
    WideConserved(n, m);
    WideBegins(n, m);
    hide Conserved, FileOk;
    forall i: nat ensures FileNode(Wide(n, m), i) {
    }
  }

  ghost function WideTree(n: nat, m: nat): seq<L.Node> {
    var t := L.OneDir(DIR + 1, DIR);
    t[DIR := t[DIR].(slots := Dir(Wide(n, m), DIR))]
  }

  lemma WideTreeOf(n: nat, m: nat)
    requires Wideness(n, m)
    ensures TreeOf(Wide(n, m)) == WideTree(n, m)
  {
    WideDirs(n, m);
    hide L.Entry, Dir;
    assert forall i :: 0 <= i <= DIR ==> TreeOf(Wide(n, m))[i] == WideTree(n, m)[i];
  }

  lemma WideTreeInv(slots: seq<Dirent>)
    requires [L.Entry(DIR, L.Dot()), L.Entry(1, L.DotDot())] <= slots && forall k :: 2 <= k < |slots| ==> !slots[k].Live()
    ensures var t := L.OneDir(DIR + 1, DIR); L.Inv(L.State(t[DIR := t[DIR].(slots := slots)], map[]))
  {
    var t := L.OneDir(DIR + 1, DIR);
    assert t[DIR] == L.Node(T_DIR, 1, [L.Entry(DIR, L.Dot()), L.Entry(1, L.DotDot())]);
    L.OneDirInv(DIR + 1, DIR);
    hide L.Inv, L.Entry, L.OneDir;
    L.Stretched(L.State(t, map[]), DIR, slots);
  }

  lemma WideTreeCan(slots: seq<Dirent>)
    requires forall k :: 2 <= k < |slots| ==> !slots[k].Live()
    ensures var t := L.OneDir(DIR + 1, DIR); L.Enabled(L.State(t[DIR := t[DIR].(slots := slots)], map[]), L.Unlink(ROOTINO, 2))
  {
    L.EntryIs(DIR, [97]);
    hide L.Entry;
  }

  /** It is a file system in order, in which "/a" can be unlinked. */
  lemma WideInv(n: nat, m: nat)
    requires Wideness(n, m)
    ensures CanUnlink(Wide(n, m), G, map[], ROOTINO, 2, DIR)
  {
    WideEntry(n, m);
    WideDirs(n, m);
    hide Wide, Wideness, L.Inv, L.Entry, Dir, Files, TreeOf, L.OneDir, L.Enabled;
    WideFiles(n, m);
    WideTreeOf(n, m);
    WideTreeInv(Dir(Wide(n, m), DIR));
    WideTreeCan(Dir(Wide(n, m), DIR));
  }

  lemma WideEntry(n: nat, m: nat)
    requires Wideness(n, m)
    ensures var s := Wide(n, m); |s.inodes| == DIR + 1 && |Dir(s, ROOTINO)| == 3 && Dir(s, ROOTINO)[2].inum == DIR != ROOTINO
  {
    WideDirs(n, m);
    hide Dir;
  }

  // ---------- The root and one directory ----------

  /** x is the third slot of the root; directory d has the parent p; the others are link counts. */
  datatype Pair = Pair(x: Dirent, d: nat, p: nat, rootlinks: int, links: int)

  function PairRoot(y: Pair): seq<byte>
    requires y.x.inum < 0x1_0000
  {
    Encode(L.Entry(1, L.Dot())) + Encode(L.Entry(1, L.DotDot())) + Encode(y.x)
  }

  function PairDir(y: Pair): seq<byte>
    requires y.d < 0x1_0000 && y.p < 0x1_0000
  {
    Encode(L.Entry(y.d, L.Dot())) + Encode(L.Entry(y.p, L.DotDot()))
  }

  ghost predicate PairOk(y: Pair) { 1 < y.d < 4 && y.p < 4 && y.x.inum < 4 }

  function PairBlock(y: Pair, b: int): Block
    requires y.x.inum < 0x1_0000 && y.d < 0x1_0000 && y.p < 0x1_0000
  {
    if b == 99 then Part(PairRoot(y)) else if b == 100 then Part(PairDir(y)) else ZeroBlock()
  }

  function PairInode(y: Pair, i: int): Dinode {
    if i == ROOTINO then Dinode(T_DIR, y.rootlinks, 3 * ENTRY, NOADDRS[0 := 99])
    else if i == y.d then Dinode(T_DIR, y.links, 2 * ENTRY, NOADDRS[0 := 100])
    else Dinode(0, 0, 0, NOADDRS)
  }

  function PairDisk(y: Pair): FsState
    requires y.x.inum < 0x1_0000 && y.d < 0x1_0000 && y.p < 0x1_0000
  {
    FsState(seq(200, b => b < G.nmeta || b == 99 || b == 100), seq(200, b => PairBlock(y, b)), seq(4, i => PairInode(y, i)))
  }

  lemma PairOwners(y: Pair, i: nat, k: nat, b: nat)
    requires PairOk(y)
    ensures Owns(PairDisk(y), i, k, b) <==> (i == 1 && k == 0 && b == 99) || (i == y.d && k == 0 && b == 100)
  {
    hide PairBlock;
  }

  lemma PairConserved(y: Pair)
    requires PairOk(y)
    ensures Conserved(PairDisk(y), G, {}, {})
  {
    var s := PairDisk(y);
    forall i: nat, k: nat, b: nat ensures Owns(s, i, k, b) <==> (i == 1 && k == 0 && b == 99) || (i == y.d && k == 0 && b == 100) {
      PairOwners(y, i, k, b);
    }
    hide PairInode, PairBlock, Owns;
    assert Owns(s, 1, 0, 99) && Owns(s, y.d, 0, 100);
  }

  lemma PairBegins(y: Pair)
    requires PairOk(y)
    ensures Begins(PairDisk(y), ROOTINO, PairRoot(y)) && Begins(PairDisk(y), y.d, PairDir(y))
    ensures |PairRoot(y)| == 3 * ENTRY && |PairDir(y)| == 2 * ENTRY
  {
    hide *;
    RootBegins(y);
    DirBegins(y);
  }

  lemma RootBegins(y: Pair)
    requires PairOk(y)
    ensures Begins(PairDisk(y), ROOTINO, PairRoot(y)) && |PairRoot(y)| == 3 * ENTRY
  {
    var s := PairDisk(y);
    forall bn: nat | bn < MAXFILE ensures FileBlock(s, ROOTINO, bn) == if bn == 0 then 99 else 0 {
    }
    assert |PairRoot(y)| == 3 * ENTRY;
    hide Addr, Part, PairRoot, PairDir;
    assert BlocksFor(3 * ENTRY) == 1;
  }

  lemma DirBegins(y: Pair)
    requires PairOk(y)
    ensures Begins(PairDisk(y), y.d, PairDir(y)) && |PairDir(y)| == 2 * ENTRY
  {
    var s := PairDisk(y);
    forall bn: nat | bn < MAXFILE ensures FileBlock(s, y.d, bn) == if bn == 0 then 100 else 0 {
    }
    assert |PairDir(y)| == 2 * ENTRY;
    hide Addr, Part, PairRoot, PairDir;
    assert BlocksFor(2 * ENTRY) == 1;
  }

  lemma PairDirs(y: Pair)
    requires PairOk(y)
    ensures Dir(PairDisk(y), ROOTINO) == [L.Entry(1, L.Dot()), L.Entry(1, L.DotDot()), y.x]
    ensures Dir(PairDisk(y), y.d) == [L.Entry(y.d, L.Dot()), L.Entry(y.p, L.DotDot())]
  {
    var s := PairDisk(y);
    PairBegins(y);
    BeginsDir(s, ROOTINO, PairRoot(y));
    BeginsDir(s, y.d, PairDir(y));
    ThreeSlots(L.Entry(1, L.Dot()), L.Entry(1, L.DotDot()), y.x);
    M.TwoSlots(L.Entry(y.d, L.Dot()), L.Entry(y.p, L.DotDot()));
    hide Dir, Begins, Slots, L.Entry, Encode;
    assert s.inodes[ROOTINO].size / ENTRY == 3 && s.inodes[y.d].size / ENTRY == 2;
  }

  lemma PairFiles(y: Pair)
    requires PairOk(y)
    ensures Files(PairDisk(y), G)
  {
    PairConserved(y);
    PairBegins(y);
    hide Conserved, FileOk;
    forall i: nat ensures FileNode(PairDisk(y), i) {
    }
  }

  lemma PairTree(y: Pair)
    requires PairOk(y)
    ensures var t := TreeOf(PairDisk(y));
      && |t| == 4 && t[1] == L.Kid(1, 1, y.rootlinks, [y.x]) && t[y.d] == L.Kid(y.d, y.p, y.links, [])
      && forall i :: 0 <= i < 4 && i != 1 && i != y.d ==> t[i] == L.NONE
  {
    PairDirs(y);
    L.KidBare(y.d, y.p, y.links);
    hide L.Entry, Dir;
    assert L.Kid(1, 1, y.rootlinks, [y.x]).slots == [L.Entry(1, L.Dot()), L.Entry(1, L.DotDot()), y.x];
  }

  /** The tree is that of the run L.OrphanRun after n steps, so the disk is in order. */
  lemma PairInv(y: Pair, n: nat)
    requires PairOk(y) && n <= 5 && TreeOf(PairDisk(y)) == L.OrphanTree(n)
    ensures FsInv(PairDisk(y), G, map[])
  {
    PairFiles(y);
    L.OrphanRun();
    hide L.Inv, Files, L.Run, PairDisk, L.OrphanTree;
    assert L.Inv(L.OrphanState(n));
  }

  // ---------- An absolute path and a relative one ----------

  /** "/a" */
  const SLASHA: Path := [SLASH, 97]

  /** The root with a directory "a" in it, inode 2, which is empty. */
  function Home(): Pair { Pair(L.Entry(2, [97]), 2, 1, 2, 1) }

  /** A file system in order, reached by one mkdir from mkfs's: to a process in "a", "/a" is inode 2,
      as to any other, and not what its own directory has under that name, which is nothing. */
  lemma RootAndHere()
    ensures PairOk(Home()) && FsInv(PairDisk(Home()), G, map[]) && TreeOf(PairDisk(Home())) == L.OrphanTree(1)
    ensures Walk(PairDisk(Home()), 1, Elements(SLASHA)) == At(2)
    ensures Walk(PairDisk(Home()), 2, Elements(SLASHA)) == NotThere
    ensures Elements(SLASHA) == [[97]]
  {
    L.EntryIs(2, [97]);
    HomeTree();
    PairInv(Home(), 1);
    SlashA();
    HomeLook();
    hide *;
    WalkOne(PairDisk(Home()), 1, [97]);
    WalkOne(PairDisk(Home()), 2, [97]);
  }

  lemma HomeTree()
    ensures PairOk(Home()) && TreeOf(PairDisk(Home())) == L.OrphanTree(1)
  {
    L.EntryIs(2, [97]);
    PairTree(Home());
    hide L.Entry, PairDisk, TreeOf;
  }

  lemma SlashA()
    ensures Elements(SLASHA) == [[97]] && Cut([97], DIRSIZ) == [97]
  {
    var x: seq<byte> := [97];
    EndIs(x, 1);
    assert SLASHA[1..] == x && x[..1] == x && x[1..] == [];
    assert Elements(x[1..]) == [];
    assert Elements(x) == [x];
    CutIs(x, DIRSIZ, 1);
  }

  lemma WalkOne(s: FsState, i: nat, n: Name)
    requires i < |s.inodes| && Cut(n, DIRSIZ) == n
    ensures Walk(s, i, [n]) == Step(s, i, n)
  {
    hide Step;
  }

  lemma HomeLook()
    ensures |PairDisk(Home()).inodes| == 4
    ensures Step(PairDisk(Home()), 1, [97]) == At(2) && Step(PairDisk(Home()), 2, [97]) == NotThere
  {
    var s := PairDisk(Home());
    L.EntryIs(2, [97]);
    PairDirs(Home());
    HomeSlots();
    L.FrontMap(2, 1, [97]);
    hide Dir, MapOf, L.Entry, FirstAt;
    MapAt(Dir(s, 1), [97], 2);
  }

  lemma HomeSlots()
    ensures FirstAt([L.Entry(1, L.Dot()), L.Entry(1, L.DotDot()), L.Entry(2, [97])], [97], 2) && L.Entry(2, [97]).inum == 2
  {
    L.EntryIs(1, L.Dot());
    L.EntryIs(1, L.DotDot());
    L.EntryIs(2, [97]);
    hide L.Entry;
  }

  // ---------- A current directory whose parent is gone ----------

  /** The disk at the end of that run: inode 3 has lost its name, and its ".." names inode 2, which is
      free. */
  function Gone(): Pair { Pair(FREE, 3, 2, 1, 0) }

  function Orphan(): FsState { PairDisk(Gone()) }

  lemma OrphanInv()
    ensures FsInv(Orphan(), G, map[]) && TreeOf(Orphan()) == L.OrphanTree(5)
  {
    OrphanTreeOf();
    PairInv(Gone(), 5);
  }

  lemma OrphanTreeOf()
    ensures PairOk(Gone()) && TreeOf(Orphan()) == L.OrphanTree(5)
  {
    PairTree(Gone());
    hide L.Entry, PairDisk, TreeOf;
  }

  /** "../x" */
  const UPANDX: Path := [DOT, DOT, SLASH, 120]

  /** A file system in order, and reached by a run from mkfs's; a process whose current directory is
      inode 3 follows "../x", and namex panics at the free inode. */
  lemma LostBelow()
    ensures FsInv(Orphan(), G, map[]) && TreeOf(Orphan()) == L.OrphanTree(5)
    ensures Lost(Orphan(), Start(UPANDX, 3), Elements(UPANDX), false)
  {
    OrphanInv();
    UpAndX();
    UpFromOrphan();
    hide Dir, MapOf, Elements, TreeOf, FsInv, Orphan, Cut;
    var es := Elements(UPANDX);
    assert es[1..] == [[120]] && Lost(Orphan(), 2, es[1..], false);
  }

  lemma UpAndX()
    ensures Elements(UPANDX) == [L.DotDot(), [120]]
  {
    var p: seq<byte>, x: seq<byte> := [SLASH, 120], [120];
    EndIs(UPANDX, 2);
    EndIs(x, 1);
    assert UPANDX[2..] == p && UPANDX[..2] == L.DotDot() && p[1..] == x && x[..1] == x && x[1..] == [];
    assert Elements(x[1..]) == [];
    assert Elements(x) == [x];
    assert Elements(p) == [x];
  }

  lemma UpFromOrphan()
    ensures |Orphan().inodes| == 4 && Unused(Orphan(), 2) && !Unused(Orphan(), 3)
    ensures Step(Orphan(), 3, Cut(L.DotDot(), DIRSIZ)) == At(2)
  {
    PairDirs(Gone());
    var slots := Dir(Orphan(), 3);
    DotDotSecond(slots);
    hide L.Entry, Cut, MapOf, Dir, FirstAt;
    CutIs(L.DotDot(), DIRSIZ, 2);
    assert Cut(L.DotDot(), DIRSIZ) == L.DotDot();
    MapAt(slots, L.DotDot(), 1);
  }

  lemma DotDotSecond(slots: seq<Dirent>)
    requires slots == [L.Entry(3, L.Dot()), L.Entry(2, L.DotDot())]
    ensures FirstAt(slots, L.DotDot(), 1) && slots[1].inum == 2
  {
    L.EntryIs(3, L.Dot());
    L.EntryIs(2, L.DotDot());
    hide L.Entry;
  }
}
