/** How many blocks itrunc and unlink log, against the MAXOPBLOCKS that begin_op reserves for a call:
    the exact image sizes up to which they keep to it. */
module TransactionSize {
  import opened Blocks
  import opened FsImage
  import opened Directory
  import opened Paths
  import opened Sysfile
  import opened Inodes
  import opened Sets
  import opened Disks

  /** The blocks of the free map that blocks below n have their bits in. */
  function MapsOf(n: nat): nat { (n + BPB - 1) / BPB }

  lemma MapsBound(s: FsState, g: Geometry, i: nat)
    requires Conserved(s, g, {}, {}) && i < |s.inodes| && s.inodes[i].typ != 0
    ensures |MapBlocks(s.blocks, s.inodes[i], g, 0, SLOTS)| <= MapsOf(|s.blocks|)
  {
    var m, maps := MapBlocks(s.blocks, s.inodes[i], g, 0, SLOTS), MapsOf(|s.blocks|);
    forall x | x in m ensures x in Interval(g.bmapstart, maps) {
      var k :| 0 <= k < SLOTS && Addr(s.blocks, s.inodes[i], k) != 0 && x == MapBlock(g, Addr(s.blocks, s.inodes[i], k));
      assert Owns(s, i, k, Addr(s.blocks, s.inodes[i], k));
    }
    SubsetSize(m, Interval(g.bmapstart, maps));
    IntervalSize(g.bmapstart, maps);
  }

  /** All that itrunc logs, by its contract. */
  ghost function TruncLogs(s: FsState, g: Geometry, i: nat): set<nat>
    requires i < |s.inodes|
  {
    MapBlocks(s.blocks, s.inodes[i], g, 0, SLOTS) + {g.inodestart + i / IPB}
  }

  /** itrunc of inode i, on a consistent image of n blocks. */
  ghost predicate CanTruncate(s: FsState, g: Geometry, i: nat, n: nat) {
    Conserved(s, g, {}, {}) && i < |s.inodes| && s.inodes[i].typ != 0 && |s.blocks| == n
  }

  /** itrunc keeps to its share on all images of n blocks if and only if nine blocks of the free map
      are enough for them. */
  lemma TruncationThreshold(n: nat)
    requires n <= 0x1_0000_0000
    ensures (forall s: FsState, g: Geometry, i: nat :: CanTruncate(s, g, i, n) ==> |TruncLogs(s, g, i)| <= MAXOPBLOCKS)
            <==> n <= 9 * BPB
  {
    if n <= 9 * BPB {
      forall s: FsState, g: Geometry, i: nat | CanTruncate(s, g, i, n) ensures |TruncLogs(s, g, i)| <= MAXOPBLOCKS {
        TruncatesWithin(s, g, i, n);
      }
    } else {
      WideMaps(n, 10);
      WideTruncates(n);
    }
  }

  lemma TruncatesWithin(s: FsState, g: Geometry, i: nat, n: nat)
    requires CanTruncate(s, g, i, n) && n <= 9 * BPB
    ensures |TruncLogs(s, g, i)| <= MAXOPBLOCKS
  {
    MapsBound(s, g, i);
    hide Conserved, MapBlocks;
  }

  /** m blocks of the free map and some others make so many. */
  lemma AllOf(m: nat, others: set<nat>, logs: set<nat>)
    requires Interval(G.bmapstart, m) + others <= logs && Interval(G.bmapstart, m) !! others
    ensures |logs| >= m + |others|
  {
    SubsetSize(Interval(G.bmapstart, m) + others, logs);
    IntervalSize(G.bmapstart, m);
  }

  /** The blocks of the free map that the file of Wide lies in. */
  lemma WideMaps(n: nat, m: nat)
    requires Wideness(n, m)
    ensures Interval(G.bmapstart, m) <= MapBlocks(Wide(n, m).blocks, Wide(n, m).inodes[DIR], G, 0, SLOTS)
  {
    var s := Wide(n, m);
    forall x | x in Interval(G.bmapstart, m) ensures x in MapBlocks(s.blocks, s.inodes[DIR], G, 0, SLOTS) {
      var k: nat := x - G.bmapstart;
      WideOwners(n, m, DIR, k, WideAddr(k, m));
      WideAddrs(n, m, k);
    }
  }

  lemma WideTruncates(n: nat)
    requires Wideness(n, 10)
    requires Interval(G.bmapstart, 10) <= MapBlocks(Wide(n, 10).blocks, Wide(n, 10).inodes[DIR], G, 0, SLOTS)
    ensures CanTruncate(Wide(n, 10), G, DIR, n) && |TruncLogs(Wide(n, 10), G, DIR)| > MAXOPBLOCKS
  {
    hide MapBlocks, Conserved, WideAddr, WideBlock, Interval, Wideness;
    WideConserved(n, 10);
    AllOf(10, {33}, TruncLogs(Wide(n, 10), G, DIR));
  }

  /** unlink with its iput keeps to its share on all images of n blocks if and only if seven blocks
      of the free map are enough for them: besides, it logs the block of the entry, the inode, and
      for a directory that of the parent. */
  lemma UnlinkThreshold(n: nat)
    requires n <= 0x1_0000_0000
    ensures (forall s: FsState, g: Geometry, pending: map<nat, nat>, dp: nat, k: nat, i: nat, ref: nat ::
               CanUnlink(s, g, pending, dp, k, i) && |s.blocks| == n ==>
                 |UnlinkLogs(s, g, dp, k, i, Last(s, i, ref))| <= MAXOPBLOCKS)
            <==> n <= 7 * BPB
  {
    if n <= 7 * BPB {
      forall s: FsState, g: Geometry, pending: map<nat, nat>, dp: nat, k: nat, i: nat, ref: nat
        | CanUnlink(s, g, pending, dp, k, i) && |s.blocks| == n
        ensures |UnlinkLogs(s, g, dp, k, i, Last(s, i, ref))| <= MAXOPBLOCKS
      {
        CanUnlinkGives(s, g, pending, dp, k, i);
        CanUnlinkConserved(s, g, pending, dp, k, i);
        hide CanUnlink, Conserved, MapBlocks;
        MapsBound(s, g, i);
        EntryLogsSize(s, g, dp, k, i);
      }
    } else {
      WideInv(n, 8);
      WideMaps(n, 8);
      WideUnlinks(n);
    }
  }

  lemma CanUnlinkConserved(s: FsState, g: Geometry, pending: map<nat, nat>, dp: nat, k: nat, i: nat)
    requires CanUnlink(s, g, pending, dp, k, i)
    ensures Conserved(s, g, {}, {})
  {
  }

  lemma EntryLogsSize(s: FsState, g: Geometry, dp: nat, k: nat, i: nat)
    ensures |EntryLogs(s, g, dp, k, i)| <= 3
  {
    hide SlotBlock;
    var three := {SlotBlock(s, dp, k), g.inodestart + i / IPB, g.inodestart + dp / IPB};
    SubsetSize(EntryLogs(s, g, dp, k, i), three);
  }

  lemma WideUnlinks(n: nat)
    requires Wideness(n, 8)
    requires Interval(G.bmapstart, 8) <= MapBlocks(Wide(n, 8).blocks, Wide(n, 8).inodes[DIR], G, 0, SLOTS)
    ensures Last(Wide(n, 8), DIR, 1) && |UnlinkLogs(Wide(n, 8), G, ROOTINO, 2, DIR, true)| > MAXOPBLOCKS
  {
    hide MapBlocks, EntryLogs, Wide, Wideness, Interval;
    WideEntryLogs(n, 8);
    var three: set<nat> := {99, 33, 32};
    assert |three| == 3;
    AllOf(8, three, UnlinkLogs(Wide(n, 8), G, ROOTINO, 2, DIR, true));
  }

  lemma WideEntryLogs(n: nat, m: nat)
    requires Wideness(n, m)
    ensures var s := Wide(n, m);
      |s.inodes| == DIR + 1 && s.inodes[DIR].nlink == 1 && EntryLogs(s, G, ROOTINO, 2, DIR) == {99, 33, 32}
  {
    WideMapped(n, m, 0);
    hide FileBlock, WideAddr;
    assert SlotBlock(Wide(n, m), ROOTINO, 2) == 99;
  }
}
