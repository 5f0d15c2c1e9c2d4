/** The file system that a disk image holds, and what a crash leaves of it. */
module Durable {
  import opened Blocks
  import opened LogImages
  import opened ByteView
  import opened FsImage
  import opened Sysfile
  import M = Mkfs

  /** struct dinode is 16 words: type and major, minor and nlink, size, and 13 addresses. */
  function DinodeAt(b: Block, slot: nat): Dinode
    requires slot < IPB
  {
    var w := 16 * slot;
    Dinode(b[w] % 0x1_0000, b[w + 1] / 0x1_0000, b[w + 2], seq(13, k requires 0 <= k < 13 => b[w + 3 + k]))
  }

  function Half(w: nat, n: nat): nat { if n == 0 then w else Half(w / 2, n - 1) }

  /** Bit k of a block of the free map. */
  predicate BitAt(b: Block, k: nat)
    requires k < BPB
  {
    Half(b[k / 32], k % 32) % 2 == 1
  }

  /** The bytes of struct dinode: type, major, minor and nlink are two each, size and each address four,
      the least significant first. */
  lemma DinodeBytes(b: Block, slot: nat)
    requires slot < IPB
    ensures var d, s: seq<int>, o := DinodeAt(b, slot), ToBytes(b), 64 * slot;
      && d.typ == s[o] + 0x100 * s[o + 1] && d.nlink == s[o + 6] + 0x100 * s[o + 7] && d.size == FourBytes(s, o + 8)
      && forall k :: 0 <= k < |d.addrs| ==> d.addrs[k] == FourBytes(s, o + 12 + 4 * k)
  {
    hide ToBytes;
    var w := 16 * slot;
    Halves(b, w);
    Halves(b, w + 1);
    Halves(b, w + 2);
    var d := DinodeAt(b, slot);
    hide FourBytes;
    forall k | 0 <= k < |d.addrs| ensures d.addrs[k] == FourBytes(ToBytes(b), 64 * slot + 12 + 4 * k) {
      Halves(b, w + 3 + k);
    }
  }

  lemma Halves(b: Block, i: nat)
    requires i < WORDS
    ensures var s: seq<int> := ToBytes(b);
      && b[i] == FourBytes(s, 4 * i)
      && b[i] % 0x1_0000 == s[4 * i] + 0x100 * s[4 * i + 1] && b[i] / 0x1_0000 == s[4 * i + 2] + 0x100 * s[4 * i + 3]
  {
    hide ToBytes;
    LittleEndian(b, i);
    var s: seq<int> := ToBytes(b);
    assert b[i] == s[4 * i] + 0x100 * s[4 * i + 1] + 0x1_0000 * (s[4 * i + 2] + 0x100 * s[4 * i + 3]);
    assert forall x :: 0 <= x < BYTES ==> 0 <= s[x] < 256;
  }

  function FourBytes(s: seq<int>, i: nat): int
    requires i + 3 < |s|
  {
    s[i] + 0x100 * s[i + 1] + 0x1_0000 * s[i + 2] + 0x100_0000 * s[i + 3]
  }

  /** Bit k of the free map is bit k % 8 of byte k / 8. */
  lemma MapBytes(b: Block, k: nat)
    requires k < BPB
    ensures BitAt(b, k) <==> (ToBytes(b)[k / 8] / [1, 2, 4, 8, 16, 32, 64, 128][k % 8]) % 2 == 1
  {
    var w, j, r := b[k / 32], k / 8 % 4, k % 8;
    hide ToBytes;
    assert ToBytes(b)[k / 8] == ByteOf(w, j) by {
      ByteAt(b, k / 8);
      assert k / 8 / 4 == k / 32;
    }
    ByteHalf(w, j);
    HalfTwice(w, 8 * j, r);
    assert 8 * j + r == k % 32;
    LowBit(Half(w, 8 * j), r);
  }

  lemma ByteAt(b: Block, i: nat)
    requires i < BYTES
    ensures ToBytes(b)[i] == ByteOf(b[i / 4], i % 4)
  {
  }

  lemma {:induction false} HalfTwice(w: nat, m: nat, n: nat)
    ensures Half(w, m + n) == Half(Half(w, m), n)
  {
    if m > 0 {
      HalfTwice(w / 2, m - 1, n);
    }
  }

  lemma HalfByte(w: nat)
    ensures Half(w, 8) == w / 0x100
  {
    HalfIs(w / 2, 7);
  }

  lemma ByteHalf(w: uint32, j: nat)
    requires j < 4
    ensures Half(w, 8 * j) % 0x100 == ByteOf(w, j)
  {
    HalfByte(w);
    HalfByte(w / 0x100);
    HalfByte(w / 0x100 / 0x100);
    HalfTwice(w, 8, 8);
    HalfTwice(w, 16, 8);
  }

  lemma LowBit(u: nat, r: nat)
    requires r < 8
    ensures Half(u, r) % 2 == 1 <==> (u % 0x100 / [1, 2, 4, 8, 16, 32, 64, 128][r]) % 2 == 1
  {
    HalfIs(u, r);
    HalfIs(u % 0x100, r);
    SameBit(u / 0x100, u % 0x100, r, 8);
    assert u == 0x100 * (u / 0x100) + u % 0x100;
  }

  /** The digits above bit 8 make no difference to the eight below. */
  lemma {:induction false} SameBit(q: nat, v: nat, r: nat, n: nat)
    requires r < n <= 8
    ensures Half([1, 2, 4, 8, 16, 32, 64, 128, 256][n] * q + v, r) % 2 == Half(v, r) % 2
  {
    var h := [1, 2, 4, 8, 16, 32, 64, 128, 256][n - 1] * q;
    assert [1, 2, 4, 8, 16, 32, 64, 128, 256][n] * q == 2 * h;
    if r > 0 {
      assert (2 * h + v) / 2 == h + v / 2;
      SameBit(q, v / 2, r - 1, n - 1);
    }
  }

  lemma {:induction false} HalfIs(u: nat, r: nat)
    requires r < 8
    ensures Half(u, r) == u / [1, 2, 4, 8, 16, 32, 64, 128][r]
  {
    if r > 0 {
      HalfIs(u / 2, r - 1);
    }
  }

  /** As mkfs lays it out: the log, the inodes, the free map, and then the data. */
  predicate Layout(v: Image, g: Geometry, ninodes: nat, start: nat, size: nat) {
    && start + size <= g.inodestart && g.inodestart + ninodes / IPB + 1 <= g.bmapstart
    && g.bmapstart + |v| / BPB + 1 <= g.nmeta <= |v|
  }

  lemma MkfsLayout(v: Image, ninodes: nat)
    requires M.Laid(|v|, ninodes).nmeta <= |v|
    ensures Layout(v, M.Laid(|v|, ninodes), ninodes, 2, LOGSIZE)
  {
  }

  function DataAt(v: Image, g: Geometry, b: nat): Block
    requires b < |v|
  {
    if b < g.nmeta then ZeroBlock() else v[b]
  }

  /** The file system on an image; blocks below the data belong to nobody. */
  function Decode(v: Image, g: Geometry, ninodes: nat): FsState
    requires g.inodestart + ninodes / IPB < |v| && g.bmapstart + |v| / BPB < |v|
  {
    FsState(seq(|v|, b requires 0 <= b < |v| => BitAt(v[MapBlock(g, b)], b % BPB)),
            seq(|v|, b requires 0 <= b < |v| => DataAt(v, g, b)),
            seq(ninodes, i requires 0 <= i < ninodes => DinodeAt(v[g.inodestart + i / IPB], i % IPB)))
  }

  /** The log area is no part of it. */
  lemma SameDecode(a: Image, b: Image, g: Geometry, ninodes: nat, start: nat, size: nat)
    requires SameHome(a, b, start, size) && Layout(a, g, ninodes, start, size)
    ensures Layout(b, g, ninodes, start, size) && Decode(a, g, ninodes) == Decode(b, g, ninodes)
  {
    hide BitAt, DinodeAt;
    forall i | 0 <= i < ninodes ensures a[g.inodestart + i / IPB] == b[g.inodestart + i / IPB] {
    }
    forall x | 0 <= x < |a| ensures a[MapBlock(g, x)] == b[MapBlock(g, x)] {
    }
  }

  /** Power fails at any time, also while recovering: if the file system was consistent at every
      commit point, the next recovery finds it exactly as it was at one of them, and consistent.
      Commit points are views of the disk at moments when no call is inside a transaction. */
  lemma RecoveredFileSystem(trace: seq<Image>, epoch: seq<nat>, commits: seq<Image>, start: nat, size: nat,
                            g: Geometry, ninodes: nat, i: nat, ds: seq<Image>)
    requires Explains(trace, epoch, commits, start, size) && i < |trace|
    requires CrashRun(ds, start, size) && ds[0] == trace[i]
    requires forall c :: c in commits ==> Consistent(c, g, ninodes, start, size)
    ensures |ds| > 0 && epoch[i] < |commits| && LogOk(ds[|ds| - 1], start, size)
    ensures var c, r := commits[epoch[i]], Recovered(ds[|ds| - 1], start, size);
      && Consistent(c, g, ninodes, start, size) && Consistent(r, g, ninodes, start, size)
      && Decode(r, g, ninodes) == Decode(c, g, ninodes)
  {
    CrashAnywhere(trace, epoch, commits, i, ds, start, size);
    hide FsInv, Recovered, LogOk, Decode, CrashRun, RecoversTo;
    var c, r := commits[epoch[i]], Recovered(ds[|ds| - 1], start, size);
    assert c in commits;
    HomeSymmetric(r, c, start, size);
    SameDecode(c, r, g, ninodes, start, size);
  }

  ghost predicate Consistent(v: Image, g: Geometry, ninodes: nat, start: nat, size: nat) {
    Layout(v, g, ninodes, start, size) && FsInv(Decode(v, g, ninodes), g, map[])
  }

  lemma HomeSymmetric(a: Image, b: Image, start: nat, size: nat)
    requires SameHome(a, b, start, size)
    ensures SameHome(b, a, start, size)
  {
  }
}
