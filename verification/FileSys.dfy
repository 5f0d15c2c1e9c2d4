/** Block allocation, block maps and file contents (fs.c, file.c). The locked in-memory inode is an
    object; free map, blocks and on-disk inodes are what the buffer cache shows. */
module FileSys {
  import opened Blocks
  import opened Sets
  import opened ByteView
  import opened FsImage

  /** A panic halts the machine. */
  datatype Result<+T> = Done(value: T) | Panic {
    predicate IsFailure() { Panic? }
    function PropagateFailure<U>(): Result<U>
      requires Panic?
    {
      Panic
    }
    function Extract(): T
      requires Done?
    {
      value
    }
  }

  const T_DEV := 3
  const WRAP := 0x1_0000_0000

  /** readi: the bytes, or -1. */
  datatype ReadResult = Bytes(bytes: seq<byte>) | ReadError

  function Min(a: nat, b: nat): nat { if a < b then a else b }

  /** c[off .. off + n], cut off at the end of c. */
  ghost function Slice(c: seq<byte>, off: nat, n: nat): seq<byte>
    requires off <= |c|
  {
    c[off..Min(off + n, |c|)]
  }

  /** struct inode: a locked, valid copy of inode inum. */
  class Inode {
    const inum: nat
    var d: Dinode

    constructor (inum: nat, d: Dinode)
      ensures this.inum == inum && this.d == d
    {
      this.inum, this.d := inum, d;
    }
  }

  /** Whatever of the disk differs between s and s' lies in a block of l: a bit of the free map, a block,
      or an inode. */
  ghost predicate Covers(s: FsState, s': FsState, l: set<nat>, g: Geometry) {
    && |s'.bitmap| == |s.bitmap| && |s'.blocks| == |s.blocks| && |s'.inodes| == |s.inodes|
    && (forall b :: 0 <= b < |s.bitmap| && s'.bitmap[b] != s.bitmap[b] ==> MapBlock(g, b) in l)
    && (forall b :: 0 <= b < |s.blocks| && s'.blocks[b] != s.blocks[b] ==> b in l)
    && (forall i :: 0 <= i < |s.inodes| && s'.inodes[i] != s.inodes[i] ==> g.inodestart + i / IPB in l)
  }

  class FileSys {
    const g: Geometry
    var bitmap: seq<bool>
    var blocks: seq<Block>
    var inodes: seq<Dinode>
    ghost var logged: set<nat>     // blocks given to log_write in the transaction so far
    ghost var begun: FsState       // what was on disk when the transaction began
    var inside: bool               // between begin_op and end_op

    constructor (g: Geometry, s: FsState)
      ensures this.g == g && S() == s && logged == {} && begun == s && !inside
    {
      this.g := g;
      bitmap, blocks, inodes, logged, begun, inside := s.bitmap, s.blocks, s.inodes, {}, s, false;
    }

    /** All that the transaction has changed so far it has given to log_write. */
    ghost predicate Covered()
      reads this
    {
      Covers(begun, S(), logged, g)
    }

    /** What is on disk, as the buffer cache shows it. */
    ghost function S(): FsState
      reads this
    {
      FsState(bitmap, blocks, inodes)
    }

    /** The same with the in-memory inode in place of its on-disk copy. */
    ghost function Eff(ip: Inode): FsState
      reads this, ip
      requires ip.inum < |inodes|
    {
      FsState(bitmap, blocks, inodes[ip.inum := ip.d])
    }

    /** No block is left: the only reason for balloc to panic. */
    ghost predicate Full()
      reads this
    {
      forall b :: 0 <= b < |bitmap| ==> bitmap[b]
    }

    function BitBlock(b: nat): nat { MapBlock(g, b) }

    function InodeBlock(i: nat): nat { g.inodestart + i / IPB }

    /** begin_op, as far as the blocks of this operation go. */
    method BeginOp()
      modifies `logged, `begun, `inside
      ensures logged == {} && begun == S() && Covered() && inside
    {
      logged, begun, inside := {}, S(), true;
    }

    /** end_op: an operation that logged more than it reserved would endanger the log, and what it
        changed and did not log would be lost. */
    method EndOp()
      requires inside && |logged| <= MAXOPBLOCKS && Covered()
      modifies `inside
      ensures !inside
    {
      inside := false;
    }

    /** Allocate a zeroed disk block: the lowest free one. */
    method Balloc() returns (r: Result<nat>)
      requires |bitmap| == |blocks|
      modifies `bitmap, `blocks, `logged
      ensures old(Covered()) ==> Covered()
      ensures r.Panic? <==> old(Full())
      ensures r.Panic? ==> S() == old(S()) && logged == old(logged)
      ensures r.Done? ==> var b := r.value;
        && b < |old(bitmap)| && !old(bitmap)[b] && (forall c :: 0 <= c < b ==> old(bitmap)[c])
        && bitmap == old(bitmap)[b := true] && blocks == old(blocks)[b := ZeroBlock()]
        && logged == old(logged) + {BitBlock(b), b}
    {
      var b := 0;
      while b < |bitmap|
        invariant old(Covered()) ==> Covered()
        invariant b % BPB == 0
        invariant forall c :: 0 <= c < b && c < |bitmap| ==> bitmap[c]
      {
        var bi := 0;
        while bi < BPB && b + bi < |bitmap|
          invariant old(Covered()) ==> Covered()
          invariant 0 <= bi <= BPB
          invariant forall c :: 0 <= c < b + bi && c < |bitmap| ==> bitmap[c]
        {
          if !bitmap[b + bi] {
            bitmap := bitmap[b + bi := true];
            logged := logged + {BitBlock(b + bi)};
            blocks := blocks[b + bi := ZeroBlock()];     // bzero
            logged := logged + {b + bi};
            return Done(b + bi);
          }
          bi := bi + 1;
        }
        b := b + BPB;
      }
      return Panic;
    }

    /** Free a disk block; freeing a free one panics. */
    method Bfree(b: nat) returns (r: Result<()>)
      requires b < |bitmap|
      modifies `bitmap, `logged
      ensures old(Covered()) ==> Covered()
      ensures r.Panic? <==> !old(bitmap)[b]
      ensures r.Done? ==> bitmap == old(bitmap)[b := false] && logged == old(logged) + {BitBlock(b)}
      ensures r.Panic? ==> bitmap == old(bitmap) && logged == old(logged)
    {
      if !bitmap[b] {
        return Panic;
      }
      bitmap := bitmap[b := false];
      logged := logged + {BitBlock(b)};
      return Done(());
    }

    /** ip->addrs[k] = balloc(dev), for a direct pointer or the indirect block. */
    method AllocPointer(ip: Inode, k: nat) returns (r: Result<nat>)
      requires ip.inum < |inodes| && Conserved(Eff(ip), g, {}, {}) && ip.d.typ != 0
      requires k <= NDIRECT && ip.d.addrs[k] == 0
      modifies `bitmap, `blocks, `logged, ip`d
      ensures old(Covered()) ==> Covered()
      ensures r.Panic? ==> Full()
      ensures r.Done? ==> var b := r.value;
        && Conserved(Eff(ip), g, {}, {}) && Linked(old(Eff(ip)), Eff(ip), ip.inum, k, b)
        && g.nmeta <= b < |old(blocks)| && !Owned(old(Eff(ip)), b) && blocks == old(blocks)[b := ZeroBlock()]
        && ip.d == old(ip.d).(addrs := old(ip.d).addrs[k := b])
        && logged == old(logged) + {BitBlock(b), b}
    {
      hide Covers, Conserved, Linked, Owned, Addr;
      ghost var s := Eff(ip);
      ConservedShape(s, g, {}, {});
      var b :- Balloc();
      AllocKeeps(s, g, {}, b);
      ghost var t := Eff(ip);
      assert {} + {b} - {b} == {};
      LinkDirect(t, g, {} + {b}, ip.inum, k, b);
      ip.d := ip.d.(addrs := ip.d.addrs[k := b]);
      assert Eff(ip) == t.(inodes := t.inodes[ip.inum := ip.d]);
      LinkedFrom(s, t, Eff(ip), ip.inum, k, b);
      return Done(b);
    }

    /** The last part of bmap: an entry of the indirect block gets a new block. */
    method AllocEntry(ip: Inode, e: nat) returns (r: Result<nat>)
      requires ip.inum < |inodes| && Conserved(Eff(ip), g, {}, {}) && ip.d.typ != 0 && e < NINDIRECT
      requires 0 != ip.d.addrs[NDIRECT] < |blocks| && blocks[ip.d.addrs[NDIRECT]][e] == 0
      modifies `bitmap, `blocks, `logged
      ensures old(Covered()) ==> Covered()
      ensures r.Panic? ==> Full()
      ensures r.Done? ==> var b, ind := r.value, ip.d.addrs[NDIRECT];
        && Conserved(Eff(ip), g, {}, {}) && Linked(old(Eff(ip)), Eff(ip), ip.inum, NDIRECT + 1 + e, b)
        && g.nmeta <= b < |old(blocks)| && b != ind && !Owned(old(Eff(ip)), b)
        && blocks == old(blocks)[b := ZeroBlock()][ind := old(blocks)[ind][e := b]]
        && logged == old(logged) + {BitBlock(b), b, ind}
    {
      ghost var s := Eff(ip);
      var ind := ip.d.addrs[NDIRECT];
      assert Owns(s, ip.inum, NDIRECT, ind);
      assert Owned(s, ind);
      ConservedShape(s, g, {}, {});
      hide Conserved, Linked, Owned, Addr;
      var b :- Balloc();
      AllocKeeps(s, g, {}, b);
      ghost var t := Eff(ip);
      assert {} + {b} - {b} == {};
      LinkEntry(t, g, {} + {b}, ip.inum, e, b);
      blocks := blocks[ind := blocks[ind][e := b]];
      logged := logged + {ind};
      assert Eff(ip) == t.(blocks := blocks);
      LinkedFrom(s, t, Eff(ip), ip.inum, NDIRECT + 1 + e, b);
      return Done(b);
    }

    /** The disk block of block bn of the inode; if there is none, bmap allocates one. In a file
        of n blocks without holes, bn is at most n. */
    method Bmap(ip: Inode, bn: nat, ghost n: nat) returns (r: Result<nat>, ghost maps: set<nat>)
      requires ip.inum < |inodes| && Conserved(Eff(ip), g, {}, {}) && ip.d.typ != 0
      requires NoHoles(Eff(ip), ip.inum, n) && bn <= n && bn < MAXFILE
      modifies `bitmap, `blocks, `logged, ip`d
      ensures old(Covered()) ==> Covered()
      ensures r.Panic? ==> bn == n && Full()
      ensures r.Done? ==> Extended(old(Eff(ip)), Eff(ip), g, ip.inum, n, bn, r.value)
      ensures r.Done? && bn < n ==> S() == old(S()) && ip.d == old(ip.d) && logged == old(logged) && maps == {}
      ensures r.Done? && bn == n ==>
        && ip.d == old(ip.d).(addrs := ip.d.addrs) && (n > NDIRECT ==> ip.d.addrs[NDIRECT] == old(ip.d).addrs[NDIRECT])
        && logged <= old(logged) + {r.value, ip.d.addrs[NDIRECT]} + maps
        && |maps| <= (if n == NDIRECT then 2 else 1) && (n < NDIRECT ==> logged <= old(logged) + {r.value} + maps)
    {
      hide Covers, Conserved, NoHoles, Linked, Owned, Addr, FileBlock, Extended;
      ghost var s := Eff(ip);
      maps := {};
      ConservedShape(s, g, {}, {});
      BlockAt(s, g, ip.inum, n, bn);
      ExtendedSelf(s, g, ip.inum, n, bn);
      if bn < NDIRECT {
        var addr := ip.d.addrs[bn];
        if addr == 0 {
          addr :- AllocPointer(ip, bn);
          DirectExtends(s, Eff(ip), g, ip.inum, n, addr);
          maps := {BitBlock(addr)};
        }
        return Done(addr), maps;
      }
      var e := bn - NDIRECT;
      var ind := ip.d.addrs[NDIRECT];
      if ind == 0 {
        ind :- AllocPointer(ip, NDIRECT);
        IndirectZero(s, Eff(ip), g, ip.inum, n, ind);
        maps := {BitBlock(ind)};
      }
      ghost var t := Eff(ip);
      var addr := blocks[ind][e];
      if addr == 0 {
        addr :- AllocEntry(ip, e);
        EntryExtends(s, t, Eff(ip), g, ip.inum, n, ind, addr);
        maps := maps + {BitBlock(addr)};
      }
      return Done(addr), maps;
    }

    /** readi on a file or directory: the slice of the contents, and no allocation. */
    method Readi(ip: Inode, off: nat, n: nat) returns (r: ReadResult)
      requires ip.inum < |inodes| && Conserved(Eff(ip), g, {}, {}) && FileOk(Eff(ip), ip.inum)
      requires ip.d.typ != T_DEV && off < WRAP && n < WRAP
      modifies `bitmap, `blocks, `logged, ip`d
      ensures S() == old(S()) && ip.d == old(ip.d) && logged == old(logged)
      ensures r.ReadError? <==> off > ip.d.size || (off + n) % WRAP < off
      ensures r.Bytes? ==> r.bytes == Slice(Contents(Eff(ip), ip.inum), off, n)
    {
      if off > ip.d.size || (off + n) % WRAP < off {
        return ReadError;
      }
      var want := if off + n > ip.d.size then ip.d.size - off else n;
      ghost var s := Eff(ip);
      hide Conserved, FileOk, FileByte, Slice;
      var dst: seq<byte> := [];
      while |dst| < want
        invariant |dst| <= want && Eff(ip) == s && S() == old(S()) && ip.d == old(ip.d) && logged == old(logged)
        invariant forall k :: 0 <= k < |dst| ==> dst[k] == FileByte(s, ip.inum, off + k)
        decreases want - |dst|
      {
        var piece := ReadPiece(ip, off + |dst|, want - |dst|);
        dst := dst + piece;
      }
      ReadWhole(s, ip.inum, off, n, dst);
      return Bytes(dst);
    }

    /** One turn of the loop of readi: bmap and memmove. */
    method ReadPiece(ip: Inode, pos: nat, left: nat) returns (piece: seq<byte>)
      requires ip.inum < |inodes| && Conserved(Eff(ip), g, {}, {}) && FileOk(Eff(ip), ip.inum)
      requires left > 0 && pos + left <= ip.d.size
      modifies `bitmap, `blocks, `logged, ip`d
      ensures S() == old(S()) && ip.d == old(ip.d) && logged == old(logged)
      ensures 0 < |piece| <= left && forall k :: 0 <= k < |piece| ==> piece[k] == FileByte(old(Eff(ip)), ip.inum, pos + k)
    {
      ghost var s, blks := Eff(ip), BlocksFor(ip.d.size);
      SizeBound(s, ip.inum);
      NoHolesNow(s, ip.inum);
      ChunkBounds(pos, ip.d.size, left);
      hide Conserved, NoHoles, FileOk, FileByte, FileBlock, ToBytes, BlocksFor, Extended;
      BlockAt(s, g, ip.inum, blks, pos / BSIZE);
      var got, _ := Bmap(ip, pos / BSIZE, blks);
      var a := got.value;
      ExtendedGives(s, Eff(ip), g, ip.inum, blks, pos / BSIZE, a);
      var m := Min(left, BSIZE - pos % BSIZE);
      piece := ToBytes(blocks[a])[pos % BSIZE..pos % BSIZE + m];
      ReadChunk(s, ip.inum, pos, m, a, piece);
    }

    /** Copy the in-memory inode to disk. */
    method Iupdate(ip: Inode)
      requires ip.inum < |inodes|
      modifies `inodes, `logged
      ensures old(Covered()) ==> Covered()
      ensures S() == old(Eff(ip)) && Eff(ip) == old(Eff(ip)) && logged == old(logged) + {InodeBlock(ip.inum)}
    {
      inodes := inodes[ip.inum := ip.d];
      logged := logged + {InodeBlock(ip.inum)};
      assert inodes[ip.inum := ip.d] == inodes;
    }

    /** One turn of the loop of writei: bmap, memmove and log_write. */
    method WriteBlock(ip: Inode, pos: nat, piece: seq<byte>, ghost n: nat)
      returns (r: Result<nat>, ghost t: FsState, ghost maps: set<nat>)
      requires ip.inum < |inodes| && Conserved(Eff(ip), g, {}, {}) && ip.d.typ != 0
      requires NoHoles(Eff(ip), ip.inum, n) && pos / BSIZE <= n && pos / BSIZE < MAXFILE && pos % BSIZE + |piece| <= BSIZE
      modifies `bitmap, `blocks, `logged, ip`d
      ensures old(Covered()) ==> Covered()
      ensures r.Panic? ==> Full()
      ensures r.Done? ==> Extended(old(Eff(ip)), t, g, ip.inum, n, pos / BSIZE, r.value)
      ensures r.Done? ==> r.value < |t.blocks|
                          && Eff(ip) == t.(blocks := t.blocks[r.value := Store(t.blocks[r.value], pos % BSIZE, piece)])
      ensures r.Done? ==> ip.d == old(ip.d).(addrs := ip.d.addrs) && (pos / BSIZE < n ==> ip.d == old(ip.d))
      ensures r.Done? ==> Accounted(old(logged), logged, n, pos / BSIZE, old(ip.d.addrs[NDIRECT]), ip.d.addrs[NDIRECT], r.value, maps)
      ensures r.Done? && pos / BSIZE < n ==> logged == old(logged) + {FileBlock(old(Eff(ip)), ip.inum, pos / BSIZE)}
    {
      hide Conserved, NoHoles;
      var got, m := Bmap(ip, pos / BSIZE, n);
      t, maps := Eff(ip), m;
      if got.Panic? {
        return Panic, t, maps;
      }
      var a := got.value;
      blocks := blocks[a := Store(blocks[a], pos % BSIZE, piece)];
      logged := logged + {a};
      return Done(a), t, maps;
    }

    /** The loop of writei. */
    method WriteLoop(ip: Inode, src: seq<byte>, off: nat) returns (r: Result<()>)
      requires ip.inum < |inodes| && off <= ip.d.size <= MAXFILE * BSIZE && off + |src| <= MAXFILE * BSIZE
      requires ip.d.typ != 0 && Writing(Eff(ip), Eff(ip), g, ip.inum, off, src, 0)
      modifies `bitmap, `blocks, `logged, ip`d
      ensures old(Covered()) ==> Covered()
      ensures r.Panic? ==> Full()
      ensures r.Done? ==> Writing(old(Eff(ip)), Eff(ip), g, ip.inum, off, src, |src|)
      ensures r.Done? ==> Account(old(logged), logged, old(ip.d.size), off, |src|, ip.d.addrs[NDIRECT])
      ensures r.Done? && off + |src| <= old(ip.d.size) ==> ip.d == old(ip.d)
      ensures r.Done? ==> ip.d == old(ip.d).(addrs := ip.d.addrs)
      ensures r.Done? && InOneBlock(old(ip.d.size), off, |src|) ==> logged == old(logged) + {FileBlock(old(Eff(ip)), ip.inum, off / BSIZE)}
    {
      hide Covers, BlocksSoFar, Account, Accounted, Writing, Extended, Conserved, NoHoles, Store, FileOk, FileBlock, InOneBlock, BlocksFor;
      ghost var s0, i, d0 := Eff(ip), ip.inum, ip.d;
      if InOneBlock(d0.size, off, |src|) {
        OneTurn(d0.size, off, |src|);
      }
      AccountStart(logged, d0.size, off, ip.d.addrs[NDIRECT]);
      var tot := 0;
      while tot < |src|
        invariant old(Covered()) ==> Covered()
        invariant 0 <= tot <= |src|
        invariant Writing(s0, Eff(ip), g, i, off, src, tot)
        invariant ip.d == d0.(addrs := ip.d.addrs) && (off + tot <= d0.size ==> ip.d == d0)
        invariant 0 < tot < |src| ==> (off + tot) % BSIZE == 0
        invariant Account(old(logged), logged, d0.size, off, tot, ip.d.addrs[NDIRECT])
        invariant InOneBlock(d0.size, off, |src|) ==>
          if tot == 0 then Eff(ip) == s0 && logged == old(logged)
          else tot == |src| && logged == old(logged) + {FileBlock(s0, i, off / BSIZE)}
      {
        var m := Min(|src| - tot, BSIZE - (off + tot) % BSIZE);
        PositionBounds(d0.size, off, tot, m, |src|);
        ghost var s, n, l, ind := Eff(ip), BlocksSoFar(d0.size, off + tot), logged, ip.d.addrs[NDIRECT];
        WritingGives(s0, s, g, i, off, src, tot);
        var got, t, maps := WriteBlock(ip, off + tot, src[tot..tot + m], n);
        if got.Panic? {
          return Panic;
        }
        WriteStep(s0, s, t, Eff(ip), g, i, off, src, tot, m, got.value);
        AccountStep(old(logged), l, logged, d0.size, off, tot, m, |src|, ind, ip.d.addrs[NDIRECT], got.value, maps);
        tot := tot + m;
      }
      return Done(());
    }

    /** writei on a file or directory. */
    method Writei(ip: Inode, src: seq<byte>, off: nat) returns (r: Result<bool>)
      requires ip.inum < |inodes| && inodes[ip.inum] == ip.d && Conserved(S(), g, {}, {}) && FileOk(S(), ip.inum)
      requires ip.d.typ != T_DEV && off < WRAP && |src| < WRAP
      modifies `bitmap, `blocks, `inodes, `logged, ip`d
      ensures old(Covered()) ==> Covered()
      ensures r.Panic? ==> Full()
      ensures r.Done? ==> (r.value <==> !(off > old(ip.d.size) || (off + |src|) % WRAP < off || off + |src| > MAXFILE * BSIZE))
      ensures r == Done(false) ==> S() == old(S()) && ip.d == old(ip.d) && logged == old(logged)
      ensures r == Done(true) ==> Wrote(old(S()), S(), g, ip.inum, off, src) && inodes[ip.inum] == ip.d
      ensures r == Done(true) ==> |logged| <= |old(logged)| + WriteBound(old(ip.d.size), off, |src|)
      ensures r == Done(true) ==> LogsWithin(old(logged), logged, {InodeBlock(ip.inum)}, DataBound(old(ip.d.size), off, |src|))
      ensures r == Done(true) && InOneBlock(old(ip.d.size), off, |src|) ==>
        logged == old(logged) + {FileBlock(old(S()), ip.inum, off / BSIZE)} && ip.d == old(ip.d)
    {
      hide Covers;
      if off > ip.d.size || (off + |src|) % WRAP < off {
        return Done(false);
      }
      if off + |src| > MAXFILE * BSIZE {
        return Done(false);
      }
      hide Conserved, NoHoles, FileOk, Writing, Wrote, Account, LogsWithin, DataBound, WriteBound, InOneBlock, FileBlock, BlocksFor;
      ghost var s0, i := Eff(ip), ip.inum;
      if InOneBlock(ip.d.size, off, |src|) {
        OneTurn(ip.d.size, off, |src|);
      }
      SizeBound(S(), i);
      assert s0 == S();
      WritingStarts(s0, g, i, off, src);
      var _ :- WriteLoop(ip, src, off);
      AccountEnd(old(logged), logged, old(ip.d.size), off, |src|, ip.d.addrs[NDIRECT]);
      AccountData(old(logged), logged, old(ip.d.size), off, |src|, ip.d.addrs[NDIRECT], InodeBlock(i));
      ghost var s1 := Eff(ip);
      if |src| > 0 && off + |src| > ip.d.size {
        ip.d := ip.d.(size := off + |src|);
        Iupdate(ip);
      }
      assert inodes[ip.inum := ip.d] == inodes;
      WritingEnds(s0, s1, S(), g, i, off, src);
      return Done(true);
    }
  }

  lemma ConservedShape(s: FsState, g: Geometry, extra: set<nat>, freed: set<nat>)
    requires Conserved(s, g, extra, freed)
    ensures WellFormed(s, g)
  {
  }

  lemma LinkedFrom(s: FsState, t: FsState, u: FsState, i: nat, k: nat, b: nat)
    requires forall j, l, a :: Owns(t, j, l, a) <==> Owns(s, j, l, a)
    requires Linked(t, u, i, k, b)
    ensures Linked(s, u, i, k, b)
  {
  }

  /** bmap for a direct block that has to be allocated. */
  lemma DirectExtends(s: FsState, s': FsState, g: Geometry, i: nat, n: nat, b: nat)
    requires Conserved(s, g, {}, {}) && Conserved(s', g, {}, {}) && NoHoles(s, i, n) && n < NDIRECT
    requires s.inodes[i].typ != 0 && b < |s.blocks| && b != 0 && !Owned(s, b)
    requires s'.inodes == s.inodes[i := s.inodes[i].(addrs := s.inodes[i].addrs[n := b])]
    requires s'.blocks == s.blocks[b := ZeroBlock()] && Linked(s, s', i, n, b)
    ensures Extended(s, s', g, i, n, n, b)
  {
    LinkExtends(s, s', i, n, b);
    forall j, k, a | Owns(s, j, k, a) ensures a != b {
      assert Owned(s, a);
    }
  }

  /** What bmap of block bn does to a file of n blocks: nothing if the block is there, else one
      zeroed block is appended; no other block that holds data changes. */
  ghost predicate Extended(s: FsState, s': FsState, g: Geometry, i: nat, n: nat, bn: nat, a: nat)
  {
    && Conserved(s', g, {}, {}) && i < |s.inodes| == |s'.inodes|
    && NoHoles(s', i, if bn == n then n + 1 else n)
    && FileBlock(s', i, bn) == a && a < |s'.blocks| == |s.blocks|
    && (bn < n ==> s' == s)
    && (bn == n ==> s'.blocks[a] == ZeroBlock() && !Owned(s, a))
    && (forall j: nat, k: nat, b: nat :: Owns(s, j, k, b) ==> Owns(s', j, k, b))
    && (forall j: nat, k: nat, b: nat :: Owns(s, j, k, b) && (j != i || k != NDIRECT) ==>
          b < |s.blocks| && s'.blocks[b] == s.blocks[b])
    && (forall j :: 0 <= j < |s.inodes| && j != i ==> s'.inodes[j] == s.inodes[j])
  }

  lemma ExtendedSelf(s: FsState, g: Geometry, i: nat, n: nat, bn: nat)
    requires Conserved(s, g, {}, {}) && NoHoles(s, i, n) && s.inodes[i].typ != 0
    ensures bn < n ==> Extended(s, s, g, i, n, bn, FileBlock(s, i, bn))
  {
    if bn < n {
      BlockAt(s, g, i, n, bn);
    }
  }

  /** What an indirect block allocated for block NDIRECT changes. */
  ghost predicate IndirectAdded(s: FsState, t: FsState, g: Geometry, i: nat, ind: nat) {
    && i < |s.inodes| && 0 < ind < |s.blocks| && !Owned(s, ind) && Linked(s, t, i, NDIRECT, ind)
    && t.blocks == s.blocks[ind := ZeroBlock()] && DataMapped(t, i, NDIRECT)
    && t.inodes == s.inodes[i := s.inodes[i].(addrs := s.inodes[i].addrs[NDIRECT := ind])]
  }

  lemma IndirectZero(s: FsState, t: FsState, g: Geometry, i: nat, n: nat, ind: nat)
    requires Conserved(s, g, {}, {}) && NoHoles(s, i, n) && s.inodes[i].typ != 0 && s.inodes[i].addrs[NDIRECT] == 0
    requires n >= NDIRECT && 0 < ind < |s.blocks| && !Owned(s, ind) && Linked(s, t, i, NDIRECT, ind)
    requires t.blocks == s.blocks[ind := ZeroBlock()]
    requires t.inodes == s.inodes[i := s.inodes[i].(addrs := s.inodes[i].addrs[NDIRECT := ind])]
    ensures n == NDIRECT && IndirectAdded(s, t, g, i, ind) && 0 != t.inodes[i].addrs[NDIRECT] < |t.blocks|
    ensures forall e :: 0 <= e < NINDIRECT ==> t.blocks[ind][e] == 0
  {
    forall bn: nat | bn < MAXFILE ensures Addr(t.blocks, t.inodes[i], DataSlot(bn)) != 0 <==> bn < NDIRECT {
      assert Addr(s.blocks, s.inodes[i], DataSlot(bn)) != 0 <==> bn < NDIRECT;
    }
  }

  /** bmap for a block behind the direct ones that has to be allocated. */
  lemma EntryExtends(s: FsState, t: FsState, u: FsState, g: Geometry, i: nat, n: nat, ind: nat, b: nat)
    requires Conserved(s, g, {}, {}) && Conserved(u, g, {}, {}) && NoHoles(s, i, n) && s.inodes[i].typ != 0
    requires NDIRECT <= n < MAXFILE && (t == s || (n == NDIRECT && IndirectAdded(s, t, g, i, ind)))
    requires i < |t.inodes| && t.inodes[i].addrs[NDIRECT] == ind && 0 < ind < |t.blocks| && |t.blocks| == |s.blocks|
    requires Linked(t, u, i, NDIRECT + 1 + (n - NDIRECT), b) && u.inodes == t.inodes && !Owned(t, b) && b != ind && 0 < b < |t.blocks|
    requires u.blocks == t.blocks[b := ZeroBlock()][ind := t.blocks[ind][n - NDIRECT := b]]
    ensures Extended(s, u, g, i, n, n, b)
  {
    LinkExtends(t, u, i, n, b);
    assert Owns(t, i, NDIRECT, ind);
    forall j: nat, k: nat, a: nat | Owns(s, j, k, a)
      ensures Owns(u, j, k, a) && (j != i || k != NDIRECT ==> a < |s.blocks| && u.blocks[a] == s.blocks[a])
    {
      OwnerFrame(s, t, g, i, n, ind, j, k, a);
      assert Owns(t, j, k, a) && Owned(t, a);
    }
    forall j: nat, k: nat ensures !Owns(s, j, k, b) {
      if Owns(s, j, k, b) {
        OwnerFrame(s, t, g, i, n, ind, j, k, b);
      }
    }
  }

  lemma OwnerFrame(s: FsState, t: FsState, g: Geometry, i: nat, n: nat, ind: nat, j: nat, k: nat, a: nat)
    requires Conserved(s, g, {}, {}) && i < |s.inodes| && s.inodes[i].typ != 0 && Owns(s, j, k, a)
    requires t == s || IndirectAdded(s, t, g, i, ind)
    requires i < |t.inodes| && t.inodes[i].addrs[NDIRECT] == ind && 0 < ind < |t.blocks|
    ensures Owns(t, j, k, a) && a < |s.blocks|
    ensures j != i || k != NDIRECT ==> a != ind && t.blocks[a] == s.blocks[a]
  {
    assert Owned(s, a);
    if t == s {
      assert Owns(s, i, NDIRECT, ind);
    }
  }

  /** The file's bytes so far and all other files are as before. */
  lemma ExtendedKeeps(s: FsState, s': FsState, g: Geometry, i: nat, n: nat, bn: nat, a: nat)
    requires Conserved(s, g, {}, {}) && NoHoles(s, i, n) && s.inodes[i].typ != 0 && bn < MAXFILE
    requires Extended(s, s', g, i, n, bn, a) && s'.inodes[i].typ != 0
    ensures OthersKept(s, s', i) && Patched(s, s', i, n * BSIZE, 0, [])
  {
    forall p: nat | p < n * BSIZE ensures FileByte(s', i, p) == PatchedByte(s, i, 0, [], p) {
      var c := p / BSIZE;
      MappedOwns(s, g, {}, {}, i, n, c);
      assert Owns(s', i, DataSlot(c), FileBlock(s, i, c));
    }
  }

  /** A position below the size lies in a mapped block. */
  lemma ChunkBounds(pos: nat, size: nat, left: nat)
    requires left > 0 && pos + left <= size <= MAXFILE * BSIZE
    ensures pos / BSIZE < BlocksFor(size) && pos / BSIZE < MAXFILE
  {
  }

  lemma NoHolesNow(s: FsState, i: nat)
    requires FileOk(s, i)
    ensures i < |s.inodes| && NoHoles(s, i, BlocksFor(s.inodes[i].size))
  {
  }

  /** What readi has put together is the slice asked for. */
  lemma ReadWhole(s: FsState, i: nat, off: nat, n: nat, dst: seq<byte>)
    requires i < |s.inodes| && off <= s.inodes[i].size && |dst| == Min(n, s.inodes[i].size - off)
    requires forall k :: 0 <= k < |dst| ==> dst[k] == FileByte(s, i, off + k)
    ensures dst == Slice(Contents(s, i), off, n)
  {
    hide FileByte;
  }

  /** The bytes of one block that readi copies. */
  lemma ReadChunk(s: FsState, i: nat, pos: nat, m: nat, a: nat, piece: seq<byte>)
    requires i < |s.inodes| && a < |s.blocks| && FileBlock(s, i, pos / BSIZE) == a && pos % BSIZE + m <= BSIZE
    requires piece == ToBytes(s.blocks[a])[pos % BSIZE..pos % BSIZE + m]
    ensures forall q: nat :: pos <= q < pos + m ==> FileByte(s, i, q) == piece[q - pos]
  {
    forall q: nat | pos <= q < pos + m ensures FileByte(s, i, q) == piece[q - pos] {
      assert q / BSIZE == pos / BSIZE && q % BSIZE == pos % BSIZE + (q - pos);
    }
  }

  function Max(a: nat, b: nat): nat { if a < b then b else a }

  /** Blocks of a file of this size once everything below pos has been written. */
  function BlocksSoFar(size: nat, pos: nat): nat { Max(BlocksFor(size), BlocksFor(pos)) }

  /** Blocks touched by the first tot bytes written from off on. */
  function Touched(off: nat, tot: nat): int {
    if tot == 0 then 0 else BlocksFor(off + tot) - off / BSIZE
  }

  /** Blocks allocated on the way, counting the indirect block. */
  function Allocated(size: nat, pos: nat): int {
    BlocksSoFar(size, pos) - BlocksFor(size)
    + if BlocksSoFar(size, pos) > NDIRECT && BlocksFor(size) <= NDIRECT then 1 else 0
  }

  /** Log blocks of a writei: data, free map, indirect block, inode. */
  function WriteBound(size: nat, off: nat, n: nat): int {
    Touched(off, n) + Allocated(size, off + n) + 2
  }

  /** The blocks that writei logs besides the inode's own. */
  function DataBound(size: nat, off: nat, n: nat): int {
    Touched(off, n) + Allocated(size, off + n) + if BlocksSoFar(size, off + n) > NDIRECT then 1 else 0
  }

  /** The state s of a writei that has written src[..tot], from s0 on. */
  ghost predicate Writing(s0: FsState, s: FsState, g: Geometry, i: nat, off: nat, src: seq<byte>, tot: nat) {
    && i < |s0.inodes| && tot <= |src| && Conserved(s, g, {}, {}) && OthersKept(s0, s, i)
    && NoHoles(s, i, BlocksSoFar(s0.inodes[i].size, off + tot))
    && s.inodes[i] == s0.inodes[i].(addrs := s.inodes[i].addrs)
    && Patched(s0, s, i, Max(s0.inodes[i].size, off + tot), off, src[..tot])
  }

  /** A successful writei: the bytes at off .. off + |src| of the file are src, all others are what
      they were, the file has grown if it had to, and no other file has changed. */
  ghost predicate Wrote(s0: FsState, s: FsState, g: Geometry, i: nat, off: nat, src: seq<byte>) {
    && i < |s0.inodes| && Conserved(s, g, {}, {}) && OthersKept(s0, s, i) && FileOk(s, i)
    && s.inodes[i] == s0.inodes[i].(addrs := s.inodes[i].addrs, size := s.inodes[i].size)
    && off <= s0.inodes[i].size
    && Contents(s, i) == Spliced(Contents(s0, i), off, src)
  }

  ghost function Spliced(c: seq<byte>, off: nat, src: seq<byte>): seq<byte>
    requires off <= |c|
  {
    c[..off] + src + c[Min(off + |src|, |c|)..]
  }

  lemma WritingGives(s0: FsState, s: FsState, g: Geometry, i: nat, off: nat, src: seq<byte>, tot: nat)
    requires Writing(s0, s, g, i, off, src, tot)
    ensures Conserved(s, g, {}, {}) && NoHoles(s, i, BlocksSoFar(s0.inodes[i].size, off + tot))
  {
  }

  lemma ExtendedGives(s: FsState, s': FsState, g: Geometry, i: nat, n: nat, bn: nat, a: nat)
    requires Extended(s, s', g, i, n, bn, a)
    ensures Conserved(s', g, {}, {}) && i < |s.inodes| == |s'.inodes| && |s'.blocks| == |s.blocks|
    ensures NoHoles(s', i, if bn == n then n + 1 else n) && FileBlock(s', i, bn) == a && a < |s'.blocks|
  {
  }

  /** A write that changes bytes of one block of the file, and none else. */
  predicate InOneBlock(size: nat, off: nat, n: nat) { 0 < n && off % BSIZE + n <= BSIZE && off + n <= size }

  lemma OneTurn(size: nat, off: nat, n: nat)
    requires InOneBlock(size, off, n)
    ensures n > 0 && off + n <= size && Min(n, BSIZE - off % BSIZE) == n && off / BSIZE < BlocksSoFar(size, off)
  {
  }

  /** What one turn of writei adds to the log: the data block, the map blocks of what it allocated
      and, if it allocated behind the direct blocks, the indirect block. */
  ghost predicate Accounted(l: set<nat>, l': set<nat>, n: nat, bn: nat, ind: nat, ind': nat, a: nat, maps: set<nat>) {
    && l' <= l + {a} + maps + (if bn == n && n >= NDIRECT then {ind'} else {})
    && |maps| <= (if bn < n then 0 else if n == NDIRECT then 2 else 1)
    && (bn < n || n > NDIRECT ==> ind' == ind)
  }

  /** The log blocks of a writei that has written tot bytes: D data, M free map, I indirect. */
  ghost predicate Account(l0: set<nat>, l: set<nat>, size: nat, off: nat, tot: nat, ind: nat) {
    exists D, M, I :: Booked(l0, l, D, M, I, size, off, tot, ind)
  }

  ghost predicate Booked(l0: set<nat>, l: set<nat>, D: set<nat>, M: set<nat>, I: set<nat>,
                         size: nat, off: nat, tot: nat, ind: nat) {
    Ledger(l0, l, D, M, I, Touched(off, tot), Allocated(size, off + tot), BlocksSoFar(size, off + tot), ind)
  }

  ghost predicate Ledger(l0: set<nat>, l: set<nat>, D: set<nat>, M: set<nat>, I: set<nat>,
                         touched: int, added: int, blks: nat, ind: nat) {
    && l <= l0 + D + M + I
    && |D| <= touched && |M| <= added
    && I <= {ind} && (I != {} ==> blks > NDIRECT)
  }

  lemma AccountStart(l: set<nat>, size: nat, off: nat, ind: nat)
    requires off <= size
    ensures Account(l, l, size, off, 0, ind)
  {
    assert BlocksFor(off) <= BlocksFor(size);
    assert Booked(l, l, {}, {}, {}, size, off, 0, ind);
  }

  lemma AccountStep(l0: set<nat>, l: set<nat>, l': set<nat>, size: nat, off: nat, tot: nat, m: nat, n: nat,
                    ind: nat, ind': nat, a: nat, maps: set<nat>)
    requires Account(l0, l, size, off, tot, ind)
    requires off <= size <= MAXFILE * BSIZE && tot < n && off + n <= MAXFILE * BSIZE
    requires m == Min(n - tot, BSIZE - (off + tot) % BSIZE) && (0 < tot ==> (off + tot) % BSIZE == 0)
    requires Accounted(l, l', BlocksSoFar(size, off + tot), (off + tot) / BSIZE, ind, ind', a, maps)
    ensures Account(l0, l', size, off, tot + m, ind')
  {
    CountsStep(size, off, tot, m, n);
    BookStep(l0, l, l', size, off, tot, m, (off + tot) / BSIZE, ind, ind', a, maps);
  }

  lemma BookStep(l0: set<nat>, l: set<nat>, l': set<nat>, size: nat, off: nat, tot: nat, m: nat, bn: nat,
                 ind: nat, ind': nat, a: nat, maps: set<nat>)
    requires Account(l0, l, size, off, tot, ind)
    requires Accounted(l, l', BlocksSoFar(size, off + tot), bn, ind, ind', a, maps)
    requires var b := BlocksSoFar(size, off + tot);
      && Touched(off, tot + m) == Touched(off, tot) + 1
      && Allocated(size, off + tot + m) == Allocated(size, off + tot) + (if bn < b then 0 else if b == NDIRECT then 2 else 1)
      && bn <= b <= BlocksSoFar(size, off + tot + m) && (bn == b ==> BlocksSoFar(size, off + tot + m) == b + 1)
    ensures Account(l0, l', size, off, tot + m, ind')
  {
    hide BlocksSoFar, Touched, Allocated, Ledger, Accounted;
    var D, M, I :| Booked(l0, l, D, M, I, size, off, tot, ind);
    var blks, tot' := BlocksSoFar(size, off + tot), tot + m;
    assert off + tot' == off + tot + m;
    LedgerStep(l0, l, l', D, M, I, Touched(off, tot), Allocated(size, off + tot), blks, BlocksSoFar(size, off + tot'), bn,
               ind, ind', a, maps);
    var I' := if bn == blks && blks >= NDIRECT then {ind'} else I;
    assert Booked(l0, l', D + {a}, M + maps, I', size, off, tot', ind');
  }

  lemma LedgerStep(l0: set<nat>, l: set<nat>, l': set<nat>, D: set<nat>, M: set<nat>, I: set<nat>,
                   touched: int, added: int, blks: nat, blks': nat, bn: nat, ind: nat, ind': nat, a: nat, maps: set<nat>)
    requires Ledger(l0, l, D, M, I, touched, added, blks, ind) && Accounted(l, l', blks, bn, ind, ind', a, maps)
    requires blks <= blks' && bn <= blks && (bn == blks ==> blks' == blks + 1)
    ensures Ledger(l0, l', D + {a}, M + maps, if bn == blks && blks >= NDIRECT then {ind'} else I,
                   touched + 1, added + (if bn < blks then 0 else if blks == NDIRECT then 2 else 1), blks', ind')
  {
    assert |D + {a}| <= |D| + 1 && |M + maps| <= |M| + |maps|;
  }

  lemma AccountEnd(l0: set<nat>, l: set<nat>, size: nat, off: nat, n: nat, ind: nat)
    requires Account(l0, l, size, off, n, ind)
    ensures |l| + 1 <= |l0| + WriteBound(size, off, n)
  {
    var D, M, I :| Booked(l0, l, D, M, I, size, off, n, ind);
    hide Touched, Allocated;
    SubsetSize(l, l0 + D + M + I);
    SubsetSize(I, {ind});
  }

  /** The same bound, with the inode's own block told apart. */
  lemma AccountData(l0: set<nat>, l: set<nat>, size: nat, off: nat, n: nat, ind: nat, own: nat)
    requires Account(l0, l, size, off, n, ind)
    ensures LogsWithin(l0, l, {own}, DataBound(size, off, n)) && LogsWithin(l0, l + {own}, {own}, DataBound(size, off, n))
  {
    var D, M, I :| Booked(l0, l, D, M, I, size, off, n, ind);
    hide Touched, Allocated, BlocksSoFar;
    SubsetSize(I, {ind});
    assert |D + M + I| <= DataBound(size, off, n);
    assert LogsThese(l0, l, {own}, DataBound(size, off, n), D + M + I);
    assert LogsThese(l0, l + {own}, {own}, DataBound(size, off, n), D + M + I);
  }

  /** Between l0 and l only the fixed blocks and at most n others have been logged. */
  ghost predicate LogsWithin(l0: set<nat>, l: set<nat>, fixed: set<nat>, n: int) {
    exists X :: LogsThese(l0, l, fixed, n, X)
  }

  ghost predicate LogsThese(l0: set<nat>, l: set<nat>, fixed: set<nat>, n: int, X: set<nat>) {
    |X| <= n && l <= l0 + X + fixed
  }

  lemma LogsNothing(l: set<nat>)
    ensures LogsWithin(l, l, {}, 0)
  {
    assert LogsThese(l, l, {}, 0, {});
  }

  lemma LogsOne(l: set<nat>, b: nat)
    ensures LogsWithin(l, l + {b}, {b}, 0)
  {
    assert LogsThese(l, l + {b}, {b}, 0, {});
  }

  lemma LogsThen(l0: set<nat>, l1: set<nat>, l2: set<nat>, f1: set<nat>, f2: set<nat>, n1: int, n2: int)
    requires LogsWithin(l0, l1, f1, n1) && LogsWithin(l1, l2, f2, n2)
    ensures LogsWithin(l0, l2, f1 + f2, n1 + n2)
  {
    var X1 :| LogsThese(l0, l1, f1, n1, X1);
    var X2 :| LogsThese(l1, l2, f2, n2, X2);
    assert LogsThese(l0, l2, f1 + f2, n1 + n2, X1 + X2);
  }

  lemma LogsMore(l0: set<nat>, l: set<nat>, f: set<nat>, n: int, f': set<nat>, n': int)
    requires LogsWithin(l0, l, f, n) && f <= f' && n <= n'
    ensures LogsWithin(l0, l, f', n')
  {
    var X :| LogsThese(l0, l, f, n, X);
    assert LogsThese(l0, l, f', n', X);
  }

  lemma LogsCount(l0: set<nat>, l: set<nat>, f: set<nat>, n: int)
    requires LogsWithin(l0, l, f, n)
    ensures |l| <= |l0| + n + |f|
  {
    var X :| LogsThese(l0, l, f, n, X);
    SubsetSize(l, l0 + X + f);
  }

  lemma WritingStarts(s: FsState, g: Geometry, i: nat, off: nat, src: seq<byte>)
    requires Conserved(s, g, {}, {}) && FileOk(s, i) && off <= s.inodes[i].size
    ensures Writing(s, s, g, i, off, src, 0)
  {
    OthersKeptSelf(s, g, i);
    assert BlocksFor(off) <= BlocksFor(s.inodes[i].size);
  }

  lemma SizeBound(s: FsState, i: nat)
    requires FileOk(s, i)
    ensures i < |s.inodes| && s.inodes[i].size <= MAXFILE * BSIZE && s.inodes[i].typ != 0
  {
  }

  lemma OthersKeptSelf(s: FsState, g: Geometry, i: nat)
    requires Conserved(s, g, {}, {})
    ensures OthersKept(s, s, i)
  {
  }

  lemma PositionBounds(size: nat, off: nat, tot: nat, m: nat, n: nat)
    requires off <= size <= MAXFILE * BSIZE && tot < n && off + n <= MAXFILE * BSIZE
    requires m == Min(n - tot, BSIZE - (off + tot) % BSIZE) && (0 < tot ==> (off + tot) % BSIZE == 0)
    ensures var pos := off + tot;
      var bn, b, b' := pos / BSIZE, BlocksSoFar(size, pos), BlocksSoFar(size, pos + m);
      && 0 < m && bn <= b && bn < MAXFILE && b' == (if bn == b then b + 1 else b)
      && (pos + m <= size ==> bn < b) && tot + m <= n && pos % BSIZE + m <= BSIZE
      && (tot + m < n ==> (pos + m) % BSIZE == 0)
  {
  }

  lemma CountsStep(size: nat, off: nat, tot: nat, m: nat, n: nat)
    requires off <= size <= MAXFILE * BSIZE && tot < n && off + n <= MAXFILE * BSIZE
    requires m == Min(n - tot, BSIZE - (off + tot) % BSIZE) && (0 < tot ==> (off + tot) % BSIZE == 0)
    ensures var pos := off + tot;
      var bn, b := pos / BSIZE, BlocksSoFar(size, pos);
      && Touched(off, tot + m) == Touched(off, tot) + 1
      && Allocated(size, pos + m) == Allocated(size, pos) + (if bn < b then 0 else if b == NDIRECT then 2 else 1)
      && bn <= b <= BlocksSoFar(size, pos + m) && (bn == b ==> BlocksSoFar(size, pos + m) == b + 1)
  {
    PositionBounds(size, off, tot, m, n);
  }

  lemma WriteStep(s0: FsState, s: FsState, t: FsState, u: FsState, g: Geometry, i: nat, off: nat, src: seq<byte>,
                  tot: nat, m: nat, a: nat)
    requires tot < |src| && Writing(s0, s, g, i, off, src, tot) && off <= s0.inodes[i].size && s0.inodes[i].typ != 0
    requires m == Min(|src| - tot, BSIZE - (off + tot) % BSIZE)
    requires var pos := off + tot;
      var bn, n := pos / BSIZE, BlocksSoFar(s0.inodes[i].size, pos);
      && bn <= n && bn < MAXFILE && BlocksSoFar(s0.inodes[i].size, pos + m) == (if bn == n then n + 1 else n)
      && Extended(s, t, g, i, n, bn, a) && t.inodes[i] == s.inodes[i].(addrs := t.inodes[i].addrs)
      && u == t.(blocks := t.blocks[a := Store(t.blocks[a], pos % BSIZE, src[tot..tot + m])])
    ensures Writing(s0, u, g, i, off, src, tot + m)
  {
    hide Conserved, OthersKept, NoHoles, Patched, Extended, BlocksSoFar;
    var pos, size := off + tot, s0.inodes[i].size;
    var bn, n, piece := pos / BSIZE, BlocksSoFar(size, pos), src[tot..tot + m];
    var n' := if bn == n then n + 1 else n;
    StepBounds(size, pos, m);
    ExtendedGives(s, t, g, i, n, bn, a);
    ExtendedKeeps(s, t, g, i, n, bn, a);
    StoreInFile(t, g, i, n', bn, pos % BSIZE, piece);
    OthersKeptTransitive(s0, s, t, i);
    OthersKeptTransitive(s0, t, u, i);
    PatchChain(s0, s, t, u, i, off, src, tot, m, n, n', size);
  }

  lemma StepBounds(size: nat, pos: nat, m: nat)
    ensures Max(size, pos) <= BlocksSoFar(size, pos) * BSIZE && Max(size, pos + m) <= BlocksSoFar(size, pos + m) * BSIZE
    ensures pos == pos / BSIZE * BSIZE + pos % BSIZE
  {
  }

  lemma PatchChain(s0: FsState, s: FsState, t: FsState, u: FsState, i: nat, off: nat, src: seq<byte>, tot: nat, m: nat,
                   n: nat, n': nat, size: nat)
    requires tot + m <= |src| && Max(size, off + tot) <= n * BSIZE && Max(size, off + tot + m) <= n' * BSIZE
    requires Patched(s0, s, i, Max(size, off + tot), off, src[..tot]) && Patched(s, t, i, n * BSIZE, 0, [])
    requires Patched(t, u, i, n' * BSIZE, off + tot, src[tot..tot + m])
    ensures Patched(s0, u, i, Max(size, off + tot + m), off, src[..tot + m])
  {
    hide FileByte;
    forall p: nat | p < Max(size, off + tot + m) ensures FileByte(u, i, p) == PatchedByte(s0, i, off, src[..tot + m], p) {
      assert FileByte(u, i, p) == PatchedByte(t, i, off + tot, src[tot..tot + m], p);
      if !(off + tot <= p < off + tot + m) {
        assert FileByte(t, i, p) == PatchedByte(s, i, 0, [], p);
        assert FileByte(s, i, p) == PatchedByte(s0, i, off, src[..tot], p);
      }
    }
  }

  lemma EndBytes(s0: FsState, s: FsState, u: FsState, i: nat, off: nat, src: seq<byte>)
    requires i < |s0.inodes| && i < |s.inodes| && i < |u.inodes| && off <= s0.inodes[i].size
    requires Patched(s0, s, i, Max(s0.inodes[i].size, off + |src|), off, src)
    requires u.inodes[i].size == Max(s0.inodes[i].size, off + |src|) && forall p: nat :: FileByte(u, i, p) == FileByte(s, i, p)
    ensures Contents(u, i) == Spliced(Contents(s0, i), off, src)
  {
    hide FileByte;
    var c, c0 := Contents(u, i), Contents(s0, i);
    var d := Spliced(c0, off, src);
    forall p | 0 <= p < |c| ensures c[p] == d[p] {
      assert FileByte(s, i, p) == PatchedByte(s0, i, off, src, p);
    }
    assert c == d;
  }

  /** The state s after the loop, and u after the size has been updated. */
  lemma WritingEnds(s0: FsState, s: FsState, u: FsState, g: Geometry, i: nat, off: nat, src: seq<byte>)
    requires Writing(s0, s, g, i, off, src, |src|) && FileOk(s0, i) && off <= s0.inodes[i].size
    requires off + |src| <= MAXFILE * BSIZE
    requires u == s.(inodes := s.inodes[i := s.inodes[i].(size := Max(s0.inodes[i].size, off + |src|))])
    ensures Wrote(s0, u, g, i, off, src)
  {
    forall j: nat, k: nat, b: nat ensures Owns(u, j, k, b) <==> Owns(s, j, k, b) {
    }
    SameOwners(s, u, g, {}, {});
    assert src[..|src|] == src;
    assert forall p: nat :: FileByte(u, i, p) == FileByte(s, i, p);
    EndBytes(s0, s, u, i, off, src);
  }
}
