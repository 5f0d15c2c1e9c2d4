/** The life of an on-disk inode (fs.c): ialloc takes a free one, iput gives it back with all its
    blocks when neither a name nor a reference is left. */
module Inodes {
  import opened Blocks
  import opened FsImage
  import opened FileSys

  /** A pointer of the inode is freed and cleared. */
  lemma DropPointer(s: FsState, g: Geometry, i: nat, k: nat)
    requires Conserved(s, g, {}, {}) && i < |s.inodes| && s.inodes[i].typ != 0 && k < NDIRECT
    requires s.inodes[i].addrs[k] != 0
    ensures var b := s.inodes[i].addrs[k]; b < |s.bitmap| && s.bitmap[b]
    ensures var b, d := s.inodes[i].addrs[k], s.inodes[i];
            var s' := s.(bitmap := s.bitmap[b := false], inodes := s.inodes[i := d.(addrs := d.addrs[k := 0])]);
            Conserved(s', g, {}, {}) && Unlinked(s, s', i, k, k + 1)
  {
    var b, d := s.inodes[i].addrs[k], s.inodes[i];
    assert Owns(s, i, k, b);
    FreeKeeps(s, g, {}, b);
    assert {} + {b} == {b};
    var s1 := s.(bitmap := s.bitmap[b := false]);
    var s' := s1.(inodes := s.inodes[i := d.(addrs := d.addrs[k := 0])]);
    assert forall j, l, a :: Owns(s1, j, l, a) <==> Owns(s, j, l, a);
    forall l: nat ensures Addr(s'.blocks, s'.inodes[i], l) == if l == k then 0 else Addr(s.blocks, d, l) {
    }
    assert Unlinked(s, s', i, k, k + 1);
    assert Unlinked(s1, s', i, k, k + 1);
    assert Behind(s1, i, k, k + 1, {b}) by {
      assert Owns(s1, i, k, b);
    }
    UnlinkKeeps(s1, s', g, {b}, i, k, k + 1);
  }

  /** One more pointer of the inode is freed, but not cleared yet. */
  lemma FreeNext(s: FsState, g: Geometry, i: nat, lo: nat, k: nat, freed: set<nat>)
    requires Conserved(s, g, {}, freed) && Behind(s, i, lo, k, freed) && lo <= k && i < |s.inodes|
    ensures var b := Addr(s.blocks, s.inodes[i], k);
      if Owns(s, i, k, b) then
        var s' := s.(bitmap := s.bitmap[b := false]);
        b < |s.bitmap| && s.bitmap[b] && Conserved(s', g, {}, freed + {b}) && Behind(s', i, lo, k + 1, freed + {b})
      else Behind(s, i, lo, k + 1, freed)
  {
    var b := Addr(s.blocks, s.inodes[i], k);
    if Owns(s, i, k, b) {
      assert b !in freed;
      FreeKeeps(s, g, freed, b);
      var s' := s.(bitmap := s.bitmap[b := false]);
      assert forall j, l, a :: Owns(s', j, l, a) <==> Owns(s, j, l, a);
      assert Behind(s', i, lo, k + 1, freed + {b}) by {
        forall a: nat ensures a in freed + {b} <==> exists l :: lo <= l < k + 1 && Owns(s', i, l, a) {
          if l :| lo <= l < k + 1 && Owns(s', i, l, a) {
            assert Owns(s, i, l, a);
          }
        }
      }
    } else {
      assert Behind(s, i, lo, k + 1, freed) by {
        forall a: nat ensures a in freed <==> exists l :: lo <= l < k + 1 && Owns(s, i, l, a) {
          if l :| lo <= l < k + 1 && Owns(s, i, l, a) {
            assert l < k;
          }
        }
      }
    }
  }

  /** The indirect block is freed after all blocks its entries lead to, and its pointer cleared. */
  lemma DropIndirect(s: FsState, g: Geometry, i: nat, freed: set<nat>)
    requires i < |s.inodes| && s.inodes[i].typ != 0 && s.inodes[i].addrs[NDIRECT] != 0
    requires Conserved(s, g, {}, freed) && Behind(s, i, NDIRECT + 1, SLOTS, freed)
    ensures var b := s.inodes[i].addrs[NDIRECT]; b < |s.bitmap| && s.bitmap[b]
    ensures var b, d := s.inodes[i].addrs[NDIRECT], s.inodes[i];
            var s' := s.(bitmap := s.bitmap[b := false], inodes := s.inodes[i := d.(addrs := d.addrs[NDIRECT := 0])]);
            Conserved(s', g, {}, {}) && Unlinked(s, s', i, NDIRECT, SLOTS)
  {
    var b, d := s.inodes[i].addrs[NDIRECT], s.inodes[i];
    assert Owns(s, i, NDIRECT, b);
    assert b !in freed;
    FreeKeeps(s, g, freed, b);
    var s1 := s.(bitmap := s.bitmap[b := false]);
    var s' := s1.(inodes := s.inodes[i := d.(addrs := d.addrs[NDIRECT := 0])]);
    assert forall j, l, a :: Owns(s1, j, l, a) <==> Owns(s, j, l, a);
    forall l: nat ensures Addr(s'.blocks, s'.inodes[i], l) == if l >= NDIRECT then 0 else Addr(s.blocks, d, l) {
    }
    assert Behind(s1, i, NDIRECT, SLOTS, freed + {b}) by {
      forall a: nat ensures a in freed + {b} <==> exists l :: NDIRECT <= l < SLOTS && Owns(s1, i, l, a) {
        if a == b {
          assert Owns(s1, i, NDIRECT, a);
        } else if a in freed {
          var l :| NDIRECT + 1 <= l < SLOTS && Owns(s, i, l, a);
          assert Owns(s1, i, l, a);
        }
      }
    }
    UnlinkKeeps(s1, s', g, freed + {b}, i, NDIRECT, SLOTS);
  }

  /** What itrunc leaves: inode i owns nothing, all else is as before. */
  ghost predicate Truncated(s: FsState, s': FsState, g: Geometry, i: nat) {
    && Conserved(s', g, {}, {}) && i < |s.inodes| == |s'.inodes| && s'.blocks == s.blocks
    && s'.inodes == s.inodes[i := s.inodes[i].(size := 0, addrs := s'.inodes[i].addrs)]
    && Unlinked(s, s', i, 0, SLOTS) && s'.inodes[i].addrs[NDIRECT] == 0
  }

  /** Exactly the blocks of the inode have become free. */
  lemma FreedExactly(s: FsState, s': FsState, g: Geometry, i: nat, b: nat)
    requires Conserved(s, g, {}, {}) && Truncated(s, s', g, i) && b < |s.bitmap|
    ensures |s'.bitmap| == |s.bitmap|
    ensures s'.bitmap[b] <==> s.bitmap[b] && !exists k :: Owns(s, i, k, b)
  {
    if k :| Owns(s, i, k, b) {
      assert forall j, l :: !Owns(s', j, l, b);
    } else if j, l :| Owns(s, j, l, b) {
      assert Owns(s', j, l, b);
    } else {
      assert forall j, l :: !Owns(s', j, l, b);
    }
  }

  /** All other files keep their inode, their blocks and their contents. */
  lemma TruncatedOthers(s: FsState, s': FsState, g: Geometry, i: nat, j: nat)
    requires Conserved(s, g, {}, {}) && Truncated(s, s', g, i) && j != i && FileOk(s, j)
    ensures OthersKept(s, s', i) && FileOk(s', j) && Contents(s', j) == Contents(s, j)
  {
    assert OthersKept(s, s', i) by {
      forall j: nat, k: nat, b: nat | j != i && Owns(s, j, k, b)
        ensures Owns(s', j, k, b) && b < |s.blocks| && s'.blocks[b] == s.blocks[b]
      {
      }
    }
    OthersContents(s, s', g, i, j);
    assert forall k: nat :: Addr(s'.blocks, s'.inodes[j], k) == Addr(s.blocks, s.inodes[j], k);
  }

  /** The truncated inode is an empty file without holes. */
  lemma TruncatedEmpty(s: FsState, s': FsState, g: Geometry, i: nat)
    requires Conserved(s, g, {}, {}) && Truncated(s, s', g, i) && s.inodes[i].typ != 0
    ensures FileOk(s', i) && Contents(s', i) == []
  {
    forall k: nat | k < SLOTS ensures Addr(s'.blocks, s'.inodes[i], k) == 0 {
      assert !Owns(s', i, k, Addr(s'.blocks, s'.inodes[i], k));
    }
  }

  lemma UnlinkedMore(s: FsState, t: FsState, u: FsState, i: nat, lo: nat, k: nat, hi: nat)
    requires Unlinked(s, t, i, lo, k) && Unlinked(t, u, i, k, hi) && lo <= k <= hi
    ensures Unlinked(s, u, i, lo, hi)
  {
  }

  /** A null pointer counts as dropped. */
  lemma NullDropped(s: FsState, t: FsState, i: nat, k: nat)
    requires Unlinked(s, t, i, 0, k) && i < |t.inodes| && k < NDIRECT && t.inodes[i].addrs[k] == 0
    ensures Unlinked(s, t, i, 0, k + 1)
  {
    assert forall a :: !Owns(t, i, k, a);
  }

  /** The loop of itrunc over the direct blocks. */
  method DropDirect(fs: FileSys, ip: Inode)
    requires ip.inum < |fs.inodes| && Conserved(fs.Eff(ip), fs.g, {}, {}) && ip.d.typ != 0
    modifies fs`bitmap, fs`logged, ip`d
    ensures old(fs.Covered()) ==> fs.Covered()
    ensures ip.d == old(ip.d).(addrs := ip.d.addrs) && ip.d.addrs[NDIRECT] == old(ip.d).addrs[NDIRECT]
    ensures Conserved(fs.Eff(ip), fs.g, {}, {})
    ensures Unlinked(old(fs.Eff(ip)), fs.Eff(ip), ip.inum, 0, NDIRECT)
    ensures fs.logged == old(fs.logged) + MapBlocks(fs.blocks, old(ip.d), fs.g, 0, NDIRECT)
  {
    hide Covers, FileSys.Covered;
    ghost var s0, d0 := fs.Eff(ip), ip.d;
    hide Conserved, Unlinked, Addr, MapBlocks, MapBlock;
    var i := 0;
    UnlinkedNone(s0, ip.inum);
    MapNone(fs.blocks, d0, fs.g, 0);
    while i < NDIRECT
      invariant old(fs.Covered()) ==> fs.Covered()
      invariant i <= NDIRECT && forall k :: i <= k < NDIRECT ==> ip.d.addrs[k] == d0.addrs[k]
      invariant fs.logged == old(fs.logged) + MapBlocks(fs.blocks, d0, fs.g, 0, i)
      invariant ip.d == old(ip.d).(addrs := ip.d.addrs) && ip.d.addrs[NDIRECT] == old(ip.d).addrs[NDIRECT]
      invariant Conserved(fs.Eff(ip), fs.g, {}, {}) && Unlinked(s0, fs.Eff(ip), ip.inum, 0, i)
    {
      ghost var s := fs.Eff(ip);
      MapMore(fs.blocks, d0, fs.g, 0, i);
      DirectAddr(fs.blocks, d0, i);
      if ip.d.addrs[i] != 0 {
        DropOne(fs, ip, i);
        UnlinkedMore(s0, s, fs.Eff(ip), ip.inum, 0, i, i + 1);
      } else {
        NullDropped(s0, s, ip.inum, i);
      }
      i := i + 1;
    }
  }

  method DropOne(fs: FileSys, ip: Inode, i: nat)
    requires ip.inum < |fs.inodes| && Conserved(fs.Eff(ip), fs.g, {}, {}) && ip.d.typ != 0
    requires i < NDIRECT && ip.d.addrs[i] != 0
    modifies fs`bitmap, fs`logged, ip`d
    ensures old(fs.Covered()) ==> fs.Covered()
    ensures ip.d == old(ip.d).(addrs := old(ip.d).addrs[i := 0])
    ensures Conserved(fs.Eff(ip), fs.g, {}, {}) && Unlinked(old(fs.Eff(ip)), fs.Eff(ip), ip.inum, i, i + 1)
    ensures fs.logged == old(fs.logged) + {MapBlock(fs.g, old(ip.d).addrs[i])}
  {
    hide Covers, Conserved, Unlinked, Addr, MapBlock;
    ghost var s := fs.Eff(ip);
    DropPointer(s, fs.g, ip.inum, i);
    var freed := fs.Bfree(ip.d.addrs[i]);
    assert freed.Done?;
    ip.d := ip.d.(addrs := ip.d.addrs[i := 0]);
    assert fs.Eff(ip).inodes == s.inodes[ip.inum := ip.d];
  }

  lemma UnlinkedNone(s: FsState, i: nat)
    ensures Unlinked(s, s, i, 0, 0)
  {
  }

  /** The loop of itrunc over the entries of the indirect block, and the block itself. */
  method DropRest(fs: FileSys, ip: Inode)
    requires ip.inum < |fs.inodes| && Conserved(fs.Eff(ip), fs.g, {}, {}) && ip.d.typ != 0 && ip.d.addrs[NDIRECT] != 0
    modifies fs`bitmap, fs`logged, ip`d
    ensures old(fs.Covered()) ==> fs.Covered()
    ensures ip.d == old(ip.d).(addrs := old(ip.d).addrs[NDIRECT := 0])
    ensures Conserved(fs.Eff(ip), fs.g, {}, {})
    ensures Unlinked(old(fs.Eff(ip)), fs.Eff(ip), ip.inum, NDIRECT, SLOTS)
    ensures fs.logged == old(fs.logged) + MapBlocks(fs.blocks, old(ip.d), fs.g, NDIRECT, SLOTS)
  {
    hide Covers, FileSys.Covered;
    ghost var s0, d0 := fs.Eff(ip), ip.d;
    var ind := ip.d.addrs[NDIRECT];
    hide Conserved, Unlinked, Addr, Behind, Owns, MapBlocks, MapBlock;
    ghost var freed := DropEntries(fs, ip);
    ghost var s := fs.Eff(ip);
    DropIndirect(s, fs.g, ip.inum, freed);
    var done := fs.Bfree(ind);
    assert done.Done?;
    ip.d := ip.d.(addrs := ip.d.addrs[NDIRECT := 0]);
    assert fs.Eff(ip).inodes == s.inodes[ip.inum := ip.d];
    SameUnlinked(s0, s, fs.Eff(ip), ip.inum);
    DirectAddr(fs.blocks, d0, NDIRECT);
    MapJoin(fs.blocks, d0, fs.g, NDIRECT);
  }

  /** The loop over the entries, which keeps the indirect block itself. */
  method DropEntries(fs: FileSys, ip: Inode) returns (ghost freed: set<nat>)
    requires ip.inum < |fs.inodes| && Conserved(fs.Eff(ip), fs.g, {}, {}) && ip.d.typ != 0 && ip.d.addrs[NDIRECT] != 0
    modifies fs`bitmap, fs`logged
    ensures old(fs.Covered()) ==> fs.Covered()
    ensures fs.Eff(ip) == old(fs.Eff(ip)).(bitmap := fs.bitmap)
    ensures Conserved(fs.Eff(ip), fs.g, {}, freed) && Behind(fs.Eff(ip), ip.inum, NDIRECT + 1, SLOTS, freed)
    ensures fs.logged == old(fs.logged) + MapBlocks(fs.blocks, ip.d, fs.g, NDIRECT + 1, SLOTS)
  {
    hide Covers, FileSys.Covered;
    ghost var s0 := fs.Eff(ip);
    hide Conserved, Addr, Behind, Owns, MapBlocks, MapBlock;
    freed := {};
    var j := 0;
    BehindNone(s0, ip.inum, NDIRECT + 1);
    MapNone(fs.blocks, ip.d, fs.g, NDIRECT + 1);
    while j < NINDIRECT
      invariant old(fs.Covered()) ==> fs.Covered()
      invariant j <= NINDIRECT && fs.Eff(ip) == s0.(bitmap := fs.bitmap)
      invariant Conserved(fs.Eff(ip), fs.g, {}, freed) && Behind(fs.Eff(ip), ip.inum, NDIRECT + 1, NDIRECT + 1 + j, freed)
      invariant fs.logged == old(fs.logged) + MapBlocks(fs.blocks, ip.d, fs.g, NDIRECT + 1, NDIRECT + 1 + j)
    {
      MapMore(fs.blocks, ip.d, fs.g, NDIRECT + 1, NDIRECT + 1 + j);
      freed := DropEntry(fs, ip, j, freed);
      j := j + 1;
    }
  }

  /** One turn of that loop. */
  method DropEntry(fs: FileSys, ip: Inode, j: nat, ghost freed: set<nat>) returns (ghost freed': set<nat>)
    requires ip.inum < |fs.inodes| && Conserved(fs.Eff(ip), fs.g, {}, freed) && ip.d.typ != 0 && ip.d.addrs[NDIRECT] != 0
    requires j < NINDIRECT && Behind(fs.Eff(ip), ip.inum, NDIRECT + 1, NDIRECT + 1 + j, freed)
    modifies fs`bitmap, fs`logged
    ensures old(fs.Covered()) ==> fs.Covered()
    ensures fs.Eff(ip) == old(fs.Eff(ip)).(bitmap := fs.bitmap)
    ensures Conserved(fs.Eff(ip), fs.g, {}, freed') && Behind(fs.Eff(ip), ip.inum, NDIRECT + 1, NDIRECT + 2 + j, freed')
    ensures var b := Addr(fs.blocks, ip.d, NDIRECT + 1 + j);
      fs.logged == old(fs.logged) + if b != 0 then {MapBlock(fs.g, b)} else {}
  {
    hide Covers, FileSys.Covered;
    ghost var s := fs.Eff(ip);
    var ind := ip.d.addrs[NDIRECT];
    IndirectInside(s, fs.g, ip.inum, freed);
    FreeNext(s, fs.g, ip.inum, NDIRECT + 1, NDIRECT + 1 + j, freed);
    EntryAddr(s, ip.inum, j);
    hide Conserved, Addr, Behind, Owns, MapBlock;
    freed' := freed;
    if fs.blocks[ind][j] != 0 {
      var done := fs.Bfree(fs.blocks[ind][j]);
      assert done.Done?;
      freed' := freed + {fs.blocks[ind][j]};
      assert fs.Eff(ip) == s.(bitmap := fs.bitmap);
    }
  }

  lemma IndirectInside(s: FsState, g: Geometry, i: nat, freed: set<nat>)
    requires Conserved(s, g, {}, freed) && i < |s.inodes| && s.inodes[i].typ != 0 && s.inodes[i].addrs[NDIRECT] != 0
    ensures s.inodes[i].addrs[NDIRECT] < |s.blocks| == |s.bitmap|
  {
    assert Owns(s, i, NDIRECT, s.inodes[i].addrs[NDIRECT]);
  }

  lemma EntryAddr(s: FsState, i: nat, e: nat)
    requires i < |s.inodes| && e < NINDIRECT && 0 != s.inodes[i].addrs[NDIRECT] < |s.blocks| && s.inodes[i].typ != 0
    ensures var b := s.blocks[s.inodes[i].addrs[NDIRECT]][e];
            Addr(s.blocks, s.inodes[i], NDIRECT + 1 + e) == b && (Owns(s, i, NDIRECT + 1 + e, b) <==> b != 0)
  {
  }

  lemma BehindNone(s: FsState, i: nat, lo: nat)
    ensures Behind(s, i, lo, lo, {})
  {
  }

  lemma SameUnlinked(s: FsState, t: FsState, u: FsState, i: nat)
    requires t == s.(bitmap := t.bitmap) && Unlinked(t, u, i, NDIRECT, SLOTS)
    ensures Unlinked(s, u, i, NDIRECT, SLOTS)
  {
    assert forall j, l, a :: Owns(t, j, l, a) <==> Owns(s, j, l, a);
  }

  /** The blocks of the free map that hold the bits of what pointers lo to hi - 1 of an inode lead to. */
  ghost function MapBlocks(blocks: seq<Block>, d: Dinode, g: Geometry, lo: nat, hi: nat): set<nat> {
    set k | lo <= k < hi && Addr(blocks, d, k) != 0 :: MapBlock(g, Addr(blocks, d, k))
  }

  lemma MapNone(blocks: seq<Block>, d: Dinode, g: Geometry, lo: nat)
    ensures MapBlocks(blocks, d, g, lo, lo) == {}
  {
  }

  lemma MapMore(blocks: seq<Block>, d: Dinode, g: Geometry, lo: nat, k: nat)
    requires lo <= k
    ensures MapBlocks(blocks, d, g, lo, k + 1) == MapBlocks(blocks, d, g, lo, k)
            + if Addr(blocks, d, k) != 0 then {MapBlock(g, Addr(blocks, d, k))} else {}
  {
  }

  lemma MapJoin(blocks: seq<Block>, d: Dinode, g: Geometry, k: nat)
    requires k < SLOTS && Addr(blocks, d, k) != 0
    ensures MapBlocks(blocks, d, g, k, SLOTS)
            == MapBlocks(blocks, d, g, k + 1, SLOTS) + {MapBlock(g, Addr(blocks, d, k))}
  {
  }

  /** Cut at the indirect block, the pointers of an inode fall into those it keeps in itself, which
      itrunc drops first, and the rest. */
  lemma MapSplit(blocks: seq<Block>, d: Dinode, d': Dinode, g: Geometry)
    requires d'.addrs[NDIRECT] == d.addrs[NDIRECT]
    ensures MapBlocks(blocks, d, g, 0, SLOTS)
            == MapBlocks(blocks, d, g, 0, NDIRECT) + MapBlocks(blocks, d', g, NDIRECT, SLOTS)
  {
    assert forall k: nat :: NDIRECT <= k ==> Addr(blocks, d', k) == Addr(blocks, d, k);
  }

  lemma DirectAddr(blocks: seq<Block>, d: Dinode, k: nat)
    requires k <= NDIRECT
    ensures Addr(blocks, d, k) == d.addrs[k]
  {
  }

  /** Discard the contents of a file: all its blocks become free, none of them having been free. */
  method Itrunc(fs: FileSys, ip: Inode)
    requires ip.inum < |fs.inodes| && Conserved(fs.Eff(ip), fs.g, {}, {}) && ip.d.typ != 0
    modifies fs`bitmap, fs`inodes, fs`logged, ip`d
    ensures old(fs.Covered()) ==> fs.Covered()
    ensures ip.inum < |fs.inodes| && fs.S() == fs.Eff(ip) && Truncated(old(fs.Eff(ip)), fs.S(), fs.g, ip.inum)
    ensures fs.logged == old(fs.logged) + MapBlocks(fs.blocks, old(ip.d), fs.g, 0, SLOTS) + {fs.InodeBlock(ip.inum)}
  {
    hide Covers, FileSys.Covered;
    ghost var s0, d0 := fs.Eff(ip), ip.d;
    hide Conserved, Unlinked, Addr, MapBlocks, MapBlock;
    DropDirect(fs, ip);
    ghost var s1 := fs.Eff(ip);
    MapSplit(fs.blocks, d0, ip.d, fs.g);
    NothingMapped(fs.blocks, ip.d, fs.g);
    if ip.d.addrs[NDIRECT] != 0 {
      DropRest(fs, ip);
      UnlinkedMore(s0, s1, fs.Eff(ip), ip.inum, 0, NDIRECT, SLOTS);
    } else {
      NothingIndirect(s0, s1, ip.inum);
    }
    ghost var s2 := fs.Eff(ip);
    ip.d := ip.d.(size := 0);
    fs.Iupdate(ip);
    SizeAside(s0, s2, fs.S(), fs.g, ip.inum);
  }

  lemma NothingMapped(blocks: seq<Block>, d: Dinode, g: Geometry)
    ensures d.addrs[NDIRECT] == 0 ==> MapBlocks(blocks, d, g, NDIRECT, SLOTS) == {}
  {
  }

  lemma NothingIndirect(s: FsState, t: FsState, i: nat)
    requires Unlinked(s, t, i, 0, NDIRECT) && i < |t.inodes| && t.inodes[i].addrs[NDIRECT] == 0
    ensures Unlinked(s, t, i, 0, SLOTS)
  {
    assert forall l, a :: l >= NDIRECT ==> !Owns(t, i, l, a);
  }

  lemma SizeAside(s: FsState, t: FsState, u: FsState, g: Geometry, i: nat)
    requires i < |t.inodes| && u == t.(inodes := t.inodes[i := t.inodes[i].(size := 0)])
    requires Conserved(t, g, {}, {}) && Unlinked(s, t, i, 0, SLOTS)
    ensures Conserved(u, g, {}, {}) && Unlinked(s, u, i, 0, SLOTS)
  {
    assert forall j, l, a :: Owns(u, j, l, a) <==> Owns(t, j, l, a);
    SameOwners(t, u, g, {}, {});
  }

  /** Drop a reference: an inode with no link and no other reference is freed with all its blocks. */
  method Iput(fs: FileSys, ip: Inode, ref: nat) returns (left: nat)
    requires ip.inum < |fs.inodes| && fs.inodes[ip.inum] == ip.d && Conserved(fs.S(), fs.g, {}, {})
    requires ip.d.typ != 0 && ref >= 1
    modifies fs`bitmap, fs`inodes, fs`logged, ip`d
    ensures old(fs.Covered()) ==> fs.Covered()
    ensures left == ref - 1 && Conserved(fs.S(), fs.g, {}, {}) && |fs.inodes| == |old(fs.inodes)|
    ensures fs.inodes[ip.inum] == ip.d
    ensures old(ip.d.nlink) == 0 && ref == 1 ==> Released(old(fs.S()), fs.S(), fs.g, ip.inum)
    ensures old(ip.d.nlink) != 0 || ref > 1 ==> fs.S() == old(fs.S()) && fs.logged == old(fs.logged)
    ensures old(ip.d.nlink) == 0 && ref == 1 ==>
      fs.logged == old(fs.logged) + MapBlocks(fs.blocks, old(ip.d), fs.g, 0, SLOTS) + {fs.InodeBlock(ip.inum)}
  {
    hide Covers, MapBlocks;
    if ip.d.nlink == 0 && ref == 1 {
      ghost var s0 := fs.S();
      assert fs.Eff(ip) == s0 by {
        assert fs.inodes[ip.inum := ip.d] == fs.inodes;
      }
      Itrunc(fs, ip);
      ghost var s1 := fs.S();
      ip.d := ip.d.(typ := 0);
      fs.Iupdate(ip);
      TypeCleared(s0, s1, fs.S(), fs.g, ip.inum);
    }
    return ref - 1;
  }

  /** The inode is free and exactly its blocks have become free; all else is as before. */
  ghost predicate Released(s: FsState, s': FsState, g: Geometry, i: nat) {
    && i < |s.inodes| == |s'.inodes| && s'.inodes[i].typ == 0 && OthersKept(s, s', i)
    && |s'.bitmap| == |s.bitmap|
    && (forall b :: 0 <= b < |s.bitmap| ==> (s'.bitmap[b] <==> s.bitmap[b] && !exists k :: Owns(s, i, k, b)))
  }

  lemma TypeCleared(s: FsState, t: FsState, u: FsState, g: Geometry, i: nat)
    requires Conserved(s, g, {}, {}) && Truncated(s, t, g, i)
    requires u == t.(inodes := t.inodes[i := t.inodes[i].(typ := 0)])
    ensures Conserved(u, g, {}, {}) && Released(s, u, g, i)
  {
    assert forall j, l, a :: Owns(u, j, l, a) <==> Owns(t, j, l, a);
    SameOwners(t, u, g, {}, {});
    forall b | 0 <= b < |s.bitmap| ensures u.bitmap[b] <==> s.bitmap[b] && !exists k :: Owns(s, i, k, b) {
      FreedExactly(s, t, g, i, b);
    }
  }

  /** Take the first free inode; it has no contents and no links yet. */
  method Ialloc(fs: FileSys, typ: int) returns (r: Result<nat>)
    requires typ != 0 && Conserved(fs.S(), fs.g, {}, {})
    modifies fs`inodes, fs`logged
    ensures old(fs.Covered()) ==> fs.Covered()
    ensures r.Panic? <==> forall i :: 1 <= i < |old(fs.inodes)| ==> old(fs.inodes)[i].typ != 0
    ensures r.Done? ==> var i := r.value;
      && 1 <= i < |old(fs.inodes)| == |fs.inodes| && old(fs.inodes)[i].typ == 0 && (forall j :: 1 <= j < i ==> old(fs.inodes)[j].typ != 0)
      && fs.inodes[i].nlink == 0 && fs.inodes[i].typ == typ && FileOk(fs.S(), i) && Contents(fs.S(), i) == []
      && Conserved(fs.S(), fs.g, {}, {}) && OthersKept(old(fs.S()), fs.S(), i) && fs.bitmap == old(fs.bitmap)
      && fs.logged == old(fs.logged) + {fs.InodeBlock(i)}
  {
    var inum := 1;
    while inum < |fs.inodes|
      invariant old(fs.Covered()) ==> fs.Covered()
      invariant fs.S() == old(fs.S()) && fs.logged == old(fs.logged)
      invariant forall j :: 1 <= j < inum && j < |fs.inodes| ==> fs.inodes[j].typ != 0
    {
      if fs.inodes[inum].typ == 0 {
        ghost var s := fs.S();
        fs.inodes := fs.inodes[inum := Dinode(typ, 0, 0, seq(13, _ => 0))];
        fs.logged := fs.logged + {fs.InodeBlock(inum)};
        FreshInode(s, fs.S(), fs.g, inum, typ);
        return Done(inum);
      }
      inum := inum + 1;
    }
    return Panic;
  }

  lemma FreshInode(s: FsState, s': FsState, g: Geometry, i: nat, typ: int)
    requires Conserved(s, g, {}, {}) && i < |s.inodes| && s.inodes[i].typ == 0 && typ != 0
    requires s' == s.(inodes := s.inodes[i := Dinode(typ, 0, 0, seq(13, _ => 0))])
    ensures Conserved(s', g, {}, {}) && FileOk(s', i) && Contents(s', i) == [] && OthersKept(s, s', i)
  {
    forall j: nat, l: nat, a: nat ensures Owns(s', j, l, a) <==> Owns(s, j, l, a) {
    }
    SameOwners(s, s', g, {}, {});
  }
}
