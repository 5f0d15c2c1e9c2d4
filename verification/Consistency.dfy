/** What the file-system checker project asks of an image (File_Systems_Checker/README.html), read
    off the invariant that create, link, unlink and write keep. */
module Consistency {
  import opened Names
  import opened FsImage
  import opened Directory
  import opened Paths
  import opened Sysfile
  import L = Links

  predicate Used(s: FsState, i: nat) { i < |s.inodes| && s.inodes[i].typ != 0 }

  /** A directory that can be reached by a name. */
  predicate NamedDir(s: FsState, d: nat) { HasName(s, d) && s.inodes[d].typ == T_DIR }

  /** Slot k of directory d gives name n to inode i. */
  ghost predicate Gives(s: FsState, d: nat, k: nat, n: Name, i: nat) {
    NamedDir(s, d) && k < |Dir(s, d)| && Dir(s, d)[k].Live() && Dir(s, d)[k].Name() == n && Dir(s, d)[k].inum == i
  }

  /** Slot k of directory d refers to inode i, by a name other than ".". */
  ghost predicate Refers(s: FsState, d: nat, k: nat, i: nat) {
    exists n :: n != L.Dot() && Gives(s, d, k, n, i)
  }

  lemma RefersIsRef(s: FsState, d: nat, k: nat, i: nat)
    ensures Refers(s, d, k, i) <==> L.Ref(TreeOf(s), i, d, k)
  {
    if d < |s.inodes| {
      assert TreeOf(s)[d] == NodeOf(s, d);
      if L.Ref(TreeOf(s), i, d, k) {
        assert Gives(s, d, k, Dir(s, d)[k].Name(), i);
      }
    }
  }

  lemma NamedIsLive(s: FsState, g: Geometry, pending: map<nat, nat>, d: nat)
    requires FsInv(s, g, pending) && NamedDir(s, d)
    ensures TreeOf(s)[d] == NodeOf(s, d) && TreeOf(s)[d].slots == Dir(s, d)
    ensures L.LiveDir(TreeOf(s), d) && L.Dots(TreeOf(s), d) && L.Placed(TreeOf(s), d)
  {
    hide Files, Dir;
    L.InvDir(State(s, pending), d);
  }

  /** Every address in use lies in the data area, is marked in the bitmap, and is used once. */
  lemma AddressUsedOnce(s: FsState, g: Geometry, pending: map<nat, nat>, i: nat, k: nat, j: nat, l: nat)
    requires FsInv(s, g, pending) && Used(s, i) && k < SLOTS && Addr(s.blocks, s.inodes[i], k) != 0
    ensures var a := Addr(s.blocks, s.inodes[i], k); g.nmeta <= a < |s.blocks| == |s.bitmap| && s.bitmap[a]
    ensures Used(s, j) && l < SLOTS && Addr(s.blocks, s.inodes[j], l) == Addr(s.blocks, s.inodes[i], k) ==> i == j && k == l
  {
    hide L.Inv;
    var a := Addr(s.blocks, s.inodes[i], k);
    assert Owns(s, i, k, a);
    if Used(s, j) && l < SLOTS && Addr(s.blocks, s.inodes[j], l) == a {
      assert Owns(s, j, l, a);
    }
  }

  /** A block marked in the bitmap is a metadata block or is used by an inode. */
  lemma MarkedIsUsed(s: FsState, g: Geometry, pending: map<nat, nat>, b: nat) returns (i: nat, k: nat)
    requires FsInv(s, g, pending) && b < |s.bitmap| && s.bitmap[b] && b >= g.nmeta
    ensures Used(s, i) && k < SLOTS && Addr(s.blocks, s.inodes[i], k) == b
  {
    hide L.Inv, FileNode, Exclusive, Addr;
    assert MapMatches(s, g, {}, {});
    assert Owned(s, b);
    i, k :| Owns(s, i, k, b);
  }

  /** Inode 1 is a directory, and its own parent. */
  lemma RootThere(s: FsState, g: Geometry, pending: map<nat, nat>)
    requires FsInv(s, g, pending)
    ensures NamedDir(s, ROOTINO) && Gives(s, ROOTINO, 1, L.DotDot(), ROOTINO)
  {
    hide Files, Dir;
    assert TreeOf(s)[ROOTINO] == NodeOf(s, ROOTINO);
    NamedIsLive(s, g, pending, ROOTINO);
  }

  /** Those names are one dot and two. */
  lemma DotNames()
    ensures L.Dot() == [46] && L.DotDot() == [46, 46]
  {
  }

  /** Every directory begins with ".", for itself, and "..", and no other slot has either name. */
  lemma DirectoryFormed(s: FsState, g: Geometry, pending: map<nat, nat>, d: nat)
    requires FsInv(s, g, pending) && NamedDir(s, d)
    ensures Gives(s, d, 0, L.Dot(), d) && exists p: nat :: Gives(s, d, 1, L.DotDot(), p)
    ensures forall k: nat, i: nat :: (Gives(s, d, k, L.Dot(), i) ==> k == 0) && (Gives(s, d, k, L.DotDot(), i) ==> k == 1)
  {
    NamedIsLive(s, g, pending, d);
    hide L.Inv, Files, Dir, L.Placed, TreeOf, NodeOf, Cut;
    var slots := Dir(s, d);
    assert TreeOf(s)[d].slots == slots;
    assert Gives(s, d, 1, L.DotDot(), slots[1].inum);
    forall k: nat, i: nat
      ensures (Gives(s, d, k, L.Dot(), i) ==> k == 0) && (Gives(s, d, k, L.DotDot(), i) ==> k == 1)
    {
      OneSlot(slots, 0, k, L.Dot());
      OneSlot(slots, 1, k, L.DotDot());
    }
  }

  lemma OneSlot(slots: seq<Dirent>, j: nat, k: nat, n: Name)
    requires Distinct(slots) && j < |slots| && Named(slots[j], n)
    ensures k < |slots| && Named(slots[k], n) ==> k == j
  {
  }

  /** What a directory names is in use. */
  lemma EntryInUse(s: FsState, g: Geometry, pending: map<nat, nat>, d: nat, k: nat, n: Name, i: nat)
    requires FsInv(s, g, pending) && Gives(s, d, k, n, i)
    ensures Used(s, i)
  {
    EntryInTree(s, g, pending, d, k);
  }

  ghost function References(s: FsState, i: nat): (r: set<(nat, nat)>)
    ensures forall d: nat, k: nat :: (d, k) in r <==> Refers(s, d, k, i)
  {
    forall d: nat, k: nat ensures Refers(s, d, k, i) <==> L.Ref(TreeOf(s), i, d, k) {
      RefersIsRef(s, d, k, i);
    }
    L.Refs(TreeOf(s), i)
  }

  /** The link count of an inode in use is the number of directory entries for it, when no call of
      link is half-way through with it; so some entry names it if and only if the count is not 0. */
  lemma LinksAreEntries(s: FsState, g: Geometry, pending: map<nat, nat>, i: nat)
    requires FsInv(s, g, pending) && Used(s, i) && i !in pending
    ensures s.inodes[i].nlink == |References(s, i)|
    ensures s.inodes[i].nlink != 0 <==> exists d: nat, k: nat :: Refers(s, d, k, i)
  {
    var t := TreeOf(s);
    LinksAreRefs(s, g, pending, i);
    hide FsInv, TreeOf, Refers;
    var r := References(s, i);
    assert r == L.Refs(t, i) by {
      forall d: nat, k: nat ensures (d, k) in r <==> (d, k) in L.Refs(t, i) {
        RefersIsRef(s, d, k, i);
      }
    }
    if r != {} {
      var e :| e in r;
      assert (e.0, e.1) in r;
    }
    if d: nat, k: nat :| Refers(s, d, k, i) {
      assert (d, k) in r;
    }
  }

  lemma LinksAreRefs(s: FsState, g: Geometry, pending: map<nat, nat>, i: nat)
    requires FsInv(s, g, pending) && Used(s, i) && i !in pending
    ensures s.inodes[i].nlink == |L.Refs(TreeOf(s), i)|
  {
    hide Files, L.DirsOk, L.Targets, L.PendingOk, L.Refs, Dir;
    assert TreeOf(s)[i] == NodeOf(s, i) && L.Pending(State(s, pending), i) == 0;
  }

  /** So unlinking the only entry of a file that stays open leaves an inode in use that no directory
      names, until its last iput. */
  lemma UnlinkedOpen(s: FsState, s': FsState, g: Geometry, pending: map<nat, nat>, dp: nat, k: nat)
    requires Stepped(s, s', g, pending, pending, L.Unlink(dp, k)) && dp < |s.inodes| && k < |Dir(s, dp)|
    requires var i := Dir(s, dp)[k].inum; i < |s.inodes| && s.inodes[i].typ != T_DIR && s.inodes[i].nlink == 1 && i !in pending
    ensures var i := Dir(s, dp)[k].inum; Used(s', i) && forall d, l :: !Refers(s', d, l, i)
  {
    var i := Dir(s, dp)[k].inum;
    SteppedInv(s, s', g, pending, pending, L.Unlink(dp, k));
    UnlinkedCount(s, s', g, pending, dp, k, i);
    hide FsInv;
    LinksAreEntries(s', g, pending, i);
  }

  lemma UnlinkedCount(s: FsState, s': FsState, g: Geometry, pending: map<nat, nat>, dp: nat, k: nat, i: nat)
    requires Stepped(s, s', g, pending, pending, L.Unlink(dp, k)) && dp < |s.inodes| && k < |Dir(s, dp)|
    requires i == Dir(s, dp)[k].inum && i < |s.inodes| && s.inodes[i].typ != T_DIR && s.inodes[i].nlink == 1
    ensures Used(s', i) && s'.inodes[i].nlink == 0
  {
    hide L.Inv, L.Apply, L.Enabled, L.Shaped, Files, Dir;
    L.UnlinkEffect(State(s, pending), dp, k);
    var t, t' := TreeOf(s), TreeOf(s');
    assert t[dp] == NodeOf(s, dp) && t[i] == NodeOf(s, i) && t'[i] == NodeOf(s', i);
  }

  /** A directory other than the root has exactly one entry besides "..", and that entry is in the
      directory its own ".." names. */
  lemma OneParent(s: FsState, g: Geometry, pending: map<nat, nat>, d: nat) returns (p: nat, k: nat)
    requires FsInv(s, g, pending) && NamedDir(s, d) && d != ROOTINO
    ensures p != d && Gives(s, d, 1, L.DotDot(), p) && Refers(s, p, k, d) && k >= 2
    ensures forall q: nat, l: nat :: Refers(s, q, l, d) && l >= 2 ==> q == p && l == k
  {
    NamedIsLive(s, g, pending, d);
    hide Dir, Files, L.Inv, L.Dots, L.Ref, TreeOf, NodeOf;
    var t := TreeOf(s);
    p, k :| L.Hangs(t, d, p, k);
    RefersIsRef(s, p, k, d);
    DirectoryFormed(s, g, pending, d);
    forall q: nat, l: nat | Refers(s, q, l, d) && l >= 2 ensures q == p && l == k {
      RefersIsRef(s, q, l, d);
    }
  }
}
