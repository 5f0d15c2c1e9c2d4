/** The sectors that mkfs writes, and what the kernel reads from them. */
module NewDisk {
  import opened Blocks
  import opened LogImages
  import opened ByteView
  import opened Names
  import opened FsImage
  import opened FileSys
  import opened Sysfile
  import opened Durable
  import M = Mkfs

  /** struct superblock, of fs.h: seven words. */
  datatype Super = Super(size: nat, nblocks: nat, ninodes: nat, nlog: nat, logstart: nat, inodestart: nat, bmapstart: nat)

  /** readsb. */
  function ReadSuper(b: Block): Super { Super(b[0], b[1], b[2], b[3], b[4], b[5], b[6]) }

  /** Where the kernel finds the regions; the data begin nblocks before the end. */
  function Regions(sb: Super): Geometry { Geometry(sb.inodestart, sb.bmapstart, if sb.nblocks <= sb.size then sb.size - sb.nblocks else 0) }

  /** What mkfs computes: boot block and superblock, 30 blocks of log, 8 inodes to a block, 4096 bits
      to a block, and the data. */
  lemma SuperIs(size: nat, ninodes: nat)
    requires M.Laid(size, ninodes).nmeta <= size < 0x1_0000_0000 && ninodes < 0x1_0000_0000
    ensures var b := M.Superblock(size, ninodes);
      && b[0] == size && b[1] == size - (34 + ninodes / 8 + size / 4096) && b[2] == ninodes && b[3] == 30 && b[4] == 2
      && b[5] == 32 && b[6] == 33 + ninodes / 8
    ensures var sb := ReadSuper(M.Superblock(size, ninodes));
      && sb.size == size && sb.ninodes == ninodes && sb.nlog == 30 && sb.logstart == 2 && sb.inodestart == 32
      && sb.bmapstart == 33 + ninodes / 8 && sb.nblocks == size - (34 + ninodes / 8 + size / 4096)
      && Regions(sb) == M.Laid(size, ninodes)
  {
  }

  // ---------- Packing ----------

  /** The number whose binary digits these are, the lowest first. */
  function Number(bits: seq<bool>): nat {
    if bits == [] then 0 else (if bits[0] then 1 else 0) + 2 * Number(bits[1..])
  }

  ghost function Power(n: nat): nat { if n == 0 then 1 else 2 * Power(n - 1) }

  lemma {:induction false} NumberBound(bits: seq<bool>)
    ensures Number(bits) < Power(|bits|)
  {
    if bits != [] {
      NumberBound(bits[1..]);
    }
  }

  lemma Power32()
    ensures Power(32) == 0x1_0000_0000
  {
    assert Power(8) == 0x100;
    assert Power(16) == 0x1_0000;
    assert Power(24) == 0x100_0000;
  }

  lemma {:induction false} NumberBit(bits: seq<bool>, k: nat)
    requires k < |bits|
    ensures Half(Number(bits), k) % 2 == 1 <==> bits[k]
  {
    if k > 0 {
      NumberBit(bits[1..], k - 1);
      assert Number(bits) / 2 == Number(bits[1..]);
    }
  }

  /** Bits from k on, 32 of them; behind the last they are 0. */
  function Bits(bits: seq<bool>, k: nat): (r: seq<bool>)
    ensures |r| == 32
  {
    seq(32, j requires 0 <= j => k + j < |bits| && bits[k + j])
  }

  function Word32(bits: seq<bool>): (w: uint32)
    requires |bits| == 32
  {
    NumberBound(bits);
    Power32();
    Number(bits)
  }

  /** Block b of the free map. */
  function MapSector(bits: seq<bool>, b: nat): Block {
    seq(WORDS, i requires 0 <= i => Word32(Bits(bits, BPB * b + 32 * i)))
  }

  /** Word k of struct dinode: type and major, minor and nlink, size, addresses. */
  function DinodeWord(d: Dinode, k: nat): uint32
    requires M.Fits(d) && k < 16
  {
    if k == 0 then d.typ else if k == 1 then 0x1_0000 * d.nlink else if k == 2 then d.size else d.addrs[k - 3]
  }

  const NONE: Dinode := Dinode(0, 0, 0, [0, 0, 0, 0, 0, 0, 0, 0, 0, 0, 0, 0, 0])

  function InodeAt(inodes: seq<Dinode>, i: nat): (d: Dinode)
    requires forall j :: 0 <= j < |inodes| ==> M.Fits(inodes[j])
    ensures M.Fits(d)
  {
    if i < |inodes| then inodes[i] else NONE
  }

  /** Block b of the inodes. */
  function InodeSector(inodes: seq<Dinode>, b: nat): Block
    requires forall j :: 0 <= j < |inodes| ==> M.Fits(inodes[j])
  {
    seq(WORDS, w requires 0 <= w < WORDS => DinodeWord(InodeAt(inodes, IPB * b + w / 16), w % 16))
  }

  /** What mkfs has written to sector b. */
  function Sector(s: FsState, super: Block, g: Geometry, b: nat): Block
    requires b < |s.blocks| && forall j :: 0 <= j < |s.inodes| ==> M.Fits(s.inodes[j])
  {
    if b == 1 then super
    else if g.inodestart <= b < g.bmapstart then InodeSector(s.inodes, b - g.inodestart)
    else if g.bmapstart <= b < g.nmeta then MapSector(s.bitmap, b - g.bmapstart)
    else s.blocks[b]
  }

  function Sectors(s: FsState, super: Block, g: Geometry): (v: Image)
    requires forall j :: 0 <= j < |s.inodes| ==> M.Fits(s.inodes[j])
    ensures |v| == |s.blocks| && forall b :: 0 <= b < |v| ==> v[b] == Sector(s, super, g, b)
  {
    seq(|s.blocks|, b requires 0 <= b < |s.blocks| => Sector(s, super, g, b))
  }

  /** A transaction that has logged all it has changed has logged every sector that differs on the disk. */
  lemma SectorsCovered(s: FsState, s': FsState, l: set<nat>, super: Block, g: Geometry, b: nat)
    requires Covers(s, s', l, g) && b < |s.blocks| && |s.bitmap| == |s.blocks| && b !in l
    requires (forall j :: 0 <= j < |s.inodes| ==> M.Fits(s.inodes[j])) && forall j :: 0 <= j < |s'.inodes| ==> M.Fits(s'.inodes[j])
    ensures Sectors(s, super, g)[b] == Sectors(s', super, g)[b]
  {
    hide M.Fits, Word32;
    if b == 1 {
    } else if g.inodestart <= b < g.bmapstart {
      InodesCovered(s, s', l, g, b - g.inodestart);
    } else if g.bmapstart <= b < g.nmeta {
      MapCovered(s, s', l, g, b - g.bmapstart);
    }
  }

  lemma InodesCovered(s: FsState, s': FsState, l: set<nat>, g: Geometry, k: nat)
    requires Covers(s, s', l, g) && g.inodestart + k !in l
    requires (forall j :: 0 <= j < |s.inodes| ==> M.Fits(s.inodes[j])) && forall j :: 0 <= j < |s'.inodes| ==> M.Fits(s'.inodes[j])
    ensures InodeSector(s.inodes, k) == InodeSector(s'.inodes, k)
  {
    hide M.Fits, DinodeWord;
    forall w | 0 <= w < WORDS ensures InodeAt(s.inodes, IPB * k + w / 16) == InodeAt(s'.inodes, IPB * k + w / 16) {
      assert (IPB * k + w / 16) / IPB == k;
    }
  }

  lemma MapCovered(s: FsState, s': FsState, l: set<nat>, g: Geometry, k: nat)
    requires Covers(s, s', l, g) && g.bmapstart + k !in l
    ensures MapSector(s.bitmap, k) == MapSector(s'.bitmap, k)
  {
    hide Word32;
    forall i | 0 <= i < WORDS ensures Bits(s.bitmap, BPB * k + 32 * i) == Bits(s'.bitmap, BPB * k + 32 * i) {
      var a, b := Bits(s.bitmap, BPB * k + 32 * i), Bits(s'.bitmap, BPB * k + 32 * i);
      forall j | 0 <= j < 32 ensures a[j] == b[j] {
        assert (BPB * k + 32 * i + j) / BPB == k;
      }
    }
  }

  // ---------- Unpacking gives the same ----------

  lemma MapRead(bits: seq<bool>, b: nat, k: nat)
    requires k < BPB
    ensures BitAt(MapSector(bits, b), k) <==> BPB * b + k < |bits| && bits[BPB * b + k]
  {
    NumberBit(Bits(bits, BPB * b + 32 * (k / 32)), k % 32);
  }

  lemma InodeRead(inodes: seq<Dinode>, b: nat, slot: nat)
    requires (forall j :: 0 <= j < |inodes| ==> M.Fits(inodes[j])) && slot < IPB
    ensures DinodeAt(InodeSector(inodes, b), slot) == InodeAt(inodes, IPB * b + slot)
  {
    hide InodeSector, InodeAt, DinodeAt, M.Fits;
    var block, d := InodeSector(inodes, b), InodeAt(inodes, IPB * b + slot);
    forall k: nat | k < 16 ensures block[16 * slot + k] == DinodeWord(d, k) {
      SectorWord(inodes, b, slot, k);
    }
    FromWords(block, slot, d);
  }

  lemma SectorWord(inodes: seq<Dinode>, b: nat, slot: nat, k: nat)
    requires (forall j :: 0 <= j < |inodes| ==> M.Fits(inodes[j])) && slot < IPB && k < 16
    ensures InodeSector(inodes, b)[16 * slot + k] == DinodeWord(InodeAt(inodes, IPB * b + slot), k)
  {
    assert (16 * slot + k) / 16 == slot && (16 * slot + k) % 16 == k;
  }

  lemma FromWords(block: Block, slot: nat, d: Dinode)
    requires slot < IPB && M.Fits(d) && forall k: nat :: k < 16 ==> block[16 * slot + k] == DinodeWord(d, k)
    ensures DinodeAt(block, slot) == d
  {
    var u := DinodeAt(block, slot);
    assert block[16 * slot + 0] == DinodeWord(d, 0) && block[16 * slot + 1] == DinodeWord(d, 1) && block[16 * slot + 2] == DinodeWord(d, 2);
    forall k: nat | k < 13 ensures u.addrs[k] == d.addrs[k] {
      assert block[16 * slot + (3 + k)] == DinodeWord(d, 3 + k);
    }
    assert u.addrs == d.addrs;
  }

  /** All that is needed for an image to be read back. */
  ghost predicate CanPack(s: FsState, g: Geometry, start: nat, size: nat) {
    && (forall j :: 0 <= j < |s.inodes| ==> M.Fits(s.inodes[j])) && |s.bitmap| == |s.blocks|
    && start > 0 && size > 0 && (forall b :: 0 <= b < g.nmeta && b < |s.blocks| ==> s.blocks[b] == ZeroBlock())
    && Layout(s.blocks, g, |s.inodes|, start, size) && g.inodestart > 1
  }

  /** The file system that an image decodes to is the one it was packed from. */
  lemma SectorsDecode(s: FsState, super: Block, g: Geometry, start: nat, size: nat)
    requires CanPack(s, g, start, size)
    ensures var v := Sectors(s, super, g);
      Layout(v, g, |s.inodes|, start, size) && Decode(v, g, |s.inodes|) == s
  {
    var v := Sectors(s, super, g);
    hide InodeSector, MapSector, DinodeAt, BitAt, M.Fits, Sector;
    forall b: nat | b < |v| ensures BitAt(v[MapBlock(g, b)], b % BPB) == s.bitmap[b] {
      BitDecoded(s, super, g, start, size, b);
    }
    forall i: nat | i < |s.inodes| ensures DinodeAt(v[g.inodestart + i / IPB], i % IPB) == s.inodes[i] {
      InodeDecoded(s, super, g, start, size, i);
    }
    forall b: nat | b < |v| ensures DataAt(v, g, b) == s.blocks[b] {
      DataDecoded(s, super, g, start, size, b);
    }
    var u := Decode(v, g, |s.inodes|);
    hide DataAt;
    assert u.bitmap == s.bitmap && u.inodes == s.inodes && u.blocks == s.blocks;
  }

  lemma BitDecoded(s: FsState, super: Block, g: Geometry, start: nat, size: nat, b: nat)
    requires CanPack(s, g, start, size) && b < |s.blocks|
    ensures BitAt(Sectors(s, super, g)[MapBlock(g, b)], b % BPB) == s.bitmap[b]
  {
    MapRead(s.bitmap, b / BPB, b % BPB);
    hide InodeSector, MapSector, BitAt, M.Fits;
    assert b / BPB <= |s.blocks| / BPB;
    assert Sectors(s, super, g)[MapBlock(g, b)] == MapSector(s.bitmap, b / BPB);
  }

  lemma InodeDecoded(s: FsState, super: Block, g: Geometry, start: nat, size: nat, i: nat)
    requires CanPack(s, g, start, size) && i < |s.inodes|
    ensures DinodeAt(Sectors(s, super, g)[g.inodestart + i / IPB], i % IPB) == s.inodes[i]
  {
    hide InodeSector, MapSector, DinodeAt, M.Fits;
    InodeRead(s.inodes, i / IPB, i % IPB);
    assert i / IPB <= |s.inodes| / IPB;
    assert Sectors(s, super, g)[g.inodestart + i / IPB] == InodeSector(s.inodes, i / IPB);
  }

  lemma DataDecoded(s: FsState, super: Block, g: Geometry, start: nat, size: nat, b: nat)
    requires CanPack(s, g, start, size) && b < |s.blocks|
    ensures DataAt(Sectors(s, super, g), g, b) == s.blocks[b]
  {
    hide InodeSector, MapSector, M.Fits;
  }

  /** What is true of an image that a kernel can start from: its superblock describes it, its log is
      empty and in order, and it holds the file system s. */
  ghost predicate Describes(v: Image, s: FsState) {
    && |v| > 1
    && var sb := ReadSuper(v[1]);
       && sb.size == |v| && sb.ninodes == |s.inodes| && Layout(v, Regions(sb), sb.ninodes, sb.logstart, sb.nlog)
       && Decode(v, Regions(sb), sb.ninodes) == s
       && sb.nlog == 30 && LogOk(v, sb.logstart, sb.nlog) && HeadN(v[sb.logstart]) == 0
  }

  /** main of mkfs, down to the sectors. */
  method MakeDisk(size: nat, ninodes: nat, names: seq<seq<byte>>, contents: seq<seq<byte>>)
    returns (r: Result<Image>, ghost s: FsState, ghost fb: nat, ghost files: seq<M.File>)
    requires M.Laid(size, ninodes).nmeta <= size < 0x1_0000_0000 && ninodes <= 0x1_0000
    requires |names| == |contents| && forall j :: 0 <= j < |names| ==> 0 in names[j]
    ensures r.Done? <==> M.AllFit(names, contents, M.Laid(size, ninodes).nmeta, size, ninodes)
    ensures r.Done? ==> |r.value| == size && Describes(r.value, s) && |s.inodes| == ninodes
    ensures r.Done? ==> M.Finished(s, Regions(ReadSuper(r.value[1])), fb, files) && |files| == |names|
    ensures r.Done? ==> forall j :: 0 <= j < |names| ==> files[j] == (Cut(M.Stem(names[j]), DIRSIZ), contents[j])
  {
    hide M.Finished, M.AllFit, M.Good, M.Fits, M.Superblock;
    var img := new M.Image(size, ninodes);
    var done, list := img.Build(names, contents);
    s, fb, files := img.Disk(), img.freeblock, list;
    if done.Panic? {
      return Panic, s, fb, files;
    }
    var v := Sectors(FsState(img.bitmap, img.blocks, img.inodes), img.super, img.g);
    Bitmaps(s, img.g, fb, files);
    Packed(s, img.super, img.g, size, ninodes, v);
    return Done(v), s, fb, files;
  }

  lemma Bitmaps(s: FsState, g: Geometry, fb: nat, files: seq<M.File>)
    requires M.Finished(s, g, fb, files)
    ensures |s.bitmap| == |s.blocks|
  {
    hide M.L.FreshRoot, M.L.GoodNames, FsInv, FileOk, Contents;
  }

  lemma Packed(s: FsState, super: Block, g: Geometry, size: nat, ninodes: nat, v: Image)
    requires (forall j :: 0 <= j < |s.inodes| ==> M.Fits(s.inodes[j])) && |s.bitmap| == |s.blocks| == size && |s.inodes| == ninodes
    requires g == M.Laid(size, ninodes) && g.nmeta <= size < 0x1_0000_0000 && ninodes <= 0x1_0000
    requires super == M.Superblock(size, ninodes) && forall b :: 0 <= b < g.nmeta ==> s.blocks[b] == ZeroBlock()
    requires v == Sectors(s, super, g)
    ensures Describes(v, s) && Regions(ReadSuper(v[1])) == g
  {
    SuperIs(size, ninodes);
    hide M.Superblock, M.Fits, Decode;
    M.LaidIs(size, ninodes);
    assert CanPack(s, g, 2, LOGSIZE);
    SectorsDecode(s, super, g, 2, LOGSIZE);
    hide InodeSector, MapSector, CanPack;
    assert v[1] == super && v[2] == ZeroBlock();
    EmptyLog(v, 2, LOGSIZE);
  }

  /** A kernel that boots from such an image recovers nothing, and finds that file system; if it is in
      order on the image it is in order then. */
  lemma FirstBoot(v: Image, s: FsState)
    requires Describes(v, s)
    ensures var sb := ReadSuper(v[1]); var r := Recovered(v, sb.logstart, sb.nlog);
      && SameHome(r, v, sb.logstart, sb.nlog) && Layout(r, Regions(sb), sb.ninodes, sb.logstart, sb.nlog)
      && Decode(r, Regions(sb), sb.ninodes) == s
      && (FsInv(s, Regions(sb), map[]) ==> Consistent(r, Regions(sb), sb.ninodes, sb.logstart, sb.nlog))
  {
    var sb := ReadSuper(v[1]);
    EmptyLog(v, sb.logstart, sb.nlog);
    var r := Recovered(v, sb.logstart, sb.nlog);
    HomeSymmetric(r, v, sb.logstart, sb.nlog);
    hide Recovered, LogOk, Decode, FsInv;
    SameDecode(v, r, Regions(sb), sb.ninodes, sb.logstart, sb.nlog);
  }
}
