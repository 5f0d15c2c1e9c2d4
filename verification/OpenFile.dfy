/** Open files (file.c): reads and writes at the file offset, a write being cut into transactions
    small enough for the log. */
module OpenFile {
  import opened Blocks
  import opened ByteView
  import opened FsImage
  import opened FileSys

  const CHUNK := 1536     // ((MAXOPBLOCKS - 1 - 1 - 2) / 2) * 512

  /** A write of at most CHUNK bytes at any offset within a file logs at most MAXOPBLOCKS blocks,
      however many blocks the free map has. */
  lemma TransactionBound(size: nat, off: nat, n: nat)
    requires off <= size <= MAXFILE * BSIZE && 0 < n <= CHUNK && off + n <= MAXFILE * BSIZE
    ensures WriteBound(size, off, n) <= MAXOPBLOCKS
  {
    var first, past, have := off / BSIZE, BlocksFor(off + n), BlocksFor(size);
    assert past - first <= 4;
    if past - first == 4 {
      // the write starts inside a block, which the file then has
      assert off % BSIZE != 0;
      assert have >= first + 1;
    } else {
      assert have >= first;
    }
  }

  /** How many bytes of a write of n bytes get written: all, or the whole chunks that fit. */
  function Accepted(size: nat, off: nat, n: nat): (k: nat)
    requires size <= MAXFILE * BSIZE
  {
    if off > size then 0
    else if off + n <= MAXFILE * BSIZE then n
    else (MAXFILE * BSIZE - off) / CHUNK * CHUNK
  }

  /** 4000 bytes at the end of a file that has room for 2000 more: one chunk is stored, and the call
      returns -1. */
  lemma PartlyAccepted()
    ensures var size := MAXFILE * BSIZE - 2000; Accepted(size, size, 4000) == CHUNK && 0 < CHUNK < 4000
  {
  }

  lemma ChunkRefused(size: nat, off: nat, n: nat, i: nat)
    requires off <= size <= MAXFILE * BSIZE && i < n && i % CHUNK == 0 && off + i <= MAXFILE * BSIZE
    requires off + i + Min(n - i, CHUNK) > MAXFILE * BSIZE
    ensures i == Accepted(size, off, n)
  {
  }

  lemma AllAccepted(size: nat, off: nat, n: nat)
    requires off <= size <= MAXFILE * BSIZE && off + n <= MAXFILE * BSIZE
    ensures Accepted(size, off, n) == n
  {
  }

  lemma PastEnd(size: nat, off: nat, n: nat)
    requires size <= MAXFILE * BSIZE && off > size
    ensures Accepted(size, off, n) == 0
  {
  }

  /** Two writes in a row are one write. */
  lemma WroteChain(s0: FsState, s: FsState, u: FsState, g: Geometry, i: nat, off: nat, a: seq<byte>, b: seq<byte>)
    requires Wrote(s0, s, g, i, off, a) && Wrote(s, u, g, i, off + |a|, b)
    ensures Wrote(s0, u, g, i, off, a + b)
  {
    OthersKeptTransitive(s0, s, u, i);
    SplicedTwice(Contents(s0, i), off, a, b);
  }

  lemma SplicedTwice(c: seq<byte>, off: nat, a: seq<byte>, b: seq<byte>)
    requires off <= |c|
    ensures Spliced(Spliced(c, off, a), off + |a|, b) == Spliced(c, off, a + b)
  {
  }

  lemma WroteNothing(s: FsState, g: Geometry, i: nat, off: nat)
    requires Conserved(s, g, {}, {}) && FileOk(s, i) && off <= s.inodes[i].size
    ensures Wrote(s, s, g, i, off, [])
  {
    OthersKeptSelf(s, g, i);
    assert Spliced(Contents(s, i), off, []) == Contents(s, i);
  }

  lemma WroteGives(s0: FsState, s: FsState, g: Geometry, i: nat, off: nat, a: seq<byte>)
    requires Wrote(s0, s, g, i, off, a)
    ensures Conserved(s, g, {}, {}) && FileOk(s, i) && i < |s0.inodes| == |s.inodes| && off <= s0.inodes[i].size
    ensures s.inodes[i].typ == s0.inodes[i].typ && off + |a| <= s.inodes[i].size <= MAXFILE * BSIZE
    ensures s.inodes[i].size == Max(s0.inodes[i].size, off + |a|)
  {
    assert |Contents(s, i)| == |Spliced(Contents(s0, i), off, a)|;
  }

  /** Where a write that started in state s0 at offset off0 stands after the bytes a. */
  ghost predicate Progress(s0: FsState, s: FsState, g: Geometry, i: nat, off0: nat, off: nat, a: seq<byte>) {
    && i < |s0.inodes| && off == off0 + |a|
    && if off0 > s0.inodes[i].size then a == [] && s == s0 else Wrote(s0, s, g, i, off0, a)
  }

  lemma ProgressStarts(s: FsState, g: Geometry, i: nat, off: nat)
    requires Conserved(s, g, {}, {}) && FileOk(s, i)
    ensures Progress(s, s, g, i, off, off, [])
  {
    if off <= s.inodes[i].size {
      WroteNothing(s, g, i, off);
    }
  }

  lemma Advanced(s0: FsState, s: FsState, u: FsState, g: Geometry, i: nat, off0: nat, off: nat, a: seq<byte>, b: seq<byte>)
    requires Progress(s0, s, g, i, off0, off, a) && Wrote(s, u, g, i, off, b)
    ensures Progress(s0, u, g, i, off0, off + |b|, a + b)
  {
    hide Wrote;
    WroteGives(s, u, g, i, off, b);
    if off0 <= s0.inodes[i].size {
      WroteChain(s0, s, u, g, i, off0, a, b);
    }
  }

  lemma Refused(s0: FsState, s: FsState, g: Geometry, i: nat, off0: nat, off: nat, src: seq<byte>, done: nat)
    requires done < |src| && done % CHUNK == 0 && Progress(s0, s, g, i, off0, off, src[..done]) && FileOk(s0, i) && FileOk(s, i)
    requires off > s.inodes[i].size || off + Min(|src| - done, CHUNK) > MAXFILE * BSIZE
    ensures Accepted(s0.inodes[i].size, off0, |src|) == done
  {
    hide Wrote;
    if off0 <= s0.inodes[i].size {
      WroteGives(s0, s, g, i, off0, src[..done]);
      ChunkRefused(s0.inodes[i].size, off0, |src|, done);
    } else {
      PastEnd(s0.inodes[i].size, off0, |src|);
    }
  }

  lemma Finished(s0: FsState, s: FsState, g: Geometry, i: nat, off0: nat, off: nat, src: seq<byte>)
    requires Progress(s0, s, g, i, off0, off, src) && FileOk(s0, i)
    ensures Accepted(s0.inodes[i].size, off0, |src|) == |src|
  {
    if off0 <= s0.inodes[i].size {
      WroteGives(s0, s, g, i, off0, src);
      AllAccepted(s0.inodes[i].size, off0, |src|);
    }
  }

  /** An open file of type FD_INODE. */
  class File {
    const fs: FileSys
    const ip: Inode
    const readable: bool
    const writable: bool
    var off: nat

    constructor (fs: FileSys, ip: Inode, readable: bool, writable: bool)
      ensures this.fs == fs && this.ip == ip && this.readable == readable && this.writable == writable && off == 0
    {
      this.fs, this.ip, this.readable, this.writable, off := fs, ip, readable, writable, 0;
    }

    /** Between system calls: blocks conserved, and the file a regular one, in memory as on disk. */
    ghost predicate Ready()
      reads this, fs, ip
    {
      && ip.inum < |fs.inodes| && fs.inodes[ip.inum] == ip.d
      && Conserved(fs.S(), fs.g, {}, {}) && FileOk(fs.S(), ip.inum)
      && ip.d.typ != T_DEV && off < WRAP
    }

    lemma ReadyGives()
      requires Ready()
      ensures FileOk(fs.S(), ip.inum) && ip.inum < |fs.S().inodes| && fs.S().inodes[ip.inum] == ip.d
      ensures Progress(fs.S(), fs.S(), fs.g, ip.inum, off, off, [])
    {
      ProgressStarts(fs.S(), fs.g, ip.inum, off);
    }

    /** fileread: the bytes at the offset, which moves behind them. */
    method Read(n: nat) returns (r: ReadResult)
      requires Ready() && n < WRAP
      modifies fs`bitmap, fs`blocks, fs`logged, ip`d, `off
      ensures Ready() && fs.S() == old(fs.S())
      ensures r.ReadError? <==> !readable || old(off) > ip.d.size || (old(off) + n) % WRAP < old(off)
      ensures r.ReadError? ==> off == old(off)
      ensures r.Bytes? ==> r.bytes == Slice(Contents(fs.S(), ip.inum), old(off), n) && off == old(off) + |r.bytes|
    {
      if !readable {
        return ReadError;
      }
      assert fs.Eff(ip) == fs.S() by {
        assert fs.inodes[ip.inum := ip.d] == fs.inodes;
      }
      r := fs.Readi(ip, off, n);
      assert fs.inodes == old(fs.S()).inodes;
      assert fs.Eff(ip) == fs.S() by {
        assert fs.inodes[ip.inum := ip.d] == fs.inodes;
      }
      if r.Bytes? {
        SizeBound(fs.S(), ip.inum);
        off := off + |r.bytes|;
      }
    }

    /** One transaction of filewrite. */
    method WriteChunk(src: seq<byte>) returns (r: Result<bool>)
      requires Ready() && 0 < |src| <= CHUNK
      modifies fs`bitmap, fs`blocks, fs`inodes, fs`logged, fs`begun, fs`inside, ip`d, `off
      ensures r.Panic? ==> fs.Full()
      ensures r.Done? ==> Ready()
      ensures r == Done(true) ==> Wrote(old(fs.S()), fs.S(), fs.g, ip.inum, old(off), src) && off == old(off) + |src|
      ensures r == Done(false) ==> fs.S() == old(fs.S()) && off == old(off)
      ensures r.Done? ==> (r.value <==> old(off) <= old(ip.d.size) && old(off) + |src| <= MAXFILE * BSIZE)
      ensures r.Done? ==> Covers(old(fs.S()), fs.S(), fs.logged, fs.g) && |fs.logged| <= MAXOPBLOCKS && !fs.inside
    {
      hide Covers;
      ghost var s := fs.S();
      SizeBound(s, ip.inum);
      fs.BeginOp();
      var done :- fs.Writei(ip, src, off);
      if done {
        WroteGives(s, fs.S(), fs.g, ip.inum, off, src);
        TransactionBound(s.inodes[ip.inum].size, off, |src|);
        off := off + |src|;
      }
      fs.EndOp();
      return Done(done);
    }

    /** filewrite: the accepted bytes replace or extend the contents at the offset; the result is
        their number only if that is all of them. No transaction outgrows its reservation, and no
        panic occurs unless the disk is full. */
    method Write(src: seq<byte>) returns (r: Result<int>)
      requires Ready() && |src| < 0x8000_0000
      modifies fs`bitmap, fs`blocks, fs`inodes, fs`logged, fs`begun, fs`inside, ip`d, `off
      ensures r.Panic? ==> fs.Full()
      ensures r.Done? ==> Ready()
      ensures !writable ==> r == Done(-1) && fs.S() == old(fs.S()) && off == old(off)
      ensures writable && r.Done? ==> var k := Accepted(old(ip.d.size), old(off), |src|);
        && k <= |src| && Progress(old(fs.S()), fs.S(), fs.g, ip.inum, old(off), off, src[..k])
        && r.value == (if k == |src| then k else -1)
    {
      hide Covers, Ready, Conserved, Wrote, FileOk, Accepted, Progress;
      if !writable {
        return Done(-1);
      }
      ghost var s0, off0 := fs.S(), off;
      ReadyGives();
      assert src[..0] == [];
      var i := 0;
      while i < |src|
        invariant i <= |src| && (i % CHUNK == 0 || i == |src|)
        invariant Ready() && Progress(s0, fs.S(), fs.g, ip.inum, off0, off, src[..i])
      {
        var n1 := |src| - i;
        if n1 > CHUNK {
          n1 := CHUNK;
        }
        ghost var s, off1 := fs.S(), off;
        ReadyGives();
        var done :- WriteChunk(src[i..i + n1]);
        if !done {
          Refused(s0, s, fs.g, ip.inum, off0, off1, src, i);
          return Done(-1);
        }
        Advanced(s0, s, fs.S(), fs.g, ip.inum, off0, off1, src[..i], src[i..i + n1]);
        assert src[..i] + src[i..i + n1] == src[..i + n1];
        i := i + n1;
      }
      assert src[..i] == src;
      Finished(s0, fs.S(), fs.g, ip.inum, off0, off, src);
      return Done(i);
    }
  }
}
