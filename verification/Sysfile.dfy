/** create, link and unlink (sysfile.c) on the disk: each does the steps of module Links, or nothing. */
module Sysfile {
  import opened ByteView
  import opened Names
  import opened FsImage
  import opened FileSys
  import opened Directory
  import opened Paths
  import opened Inodes
  import L = Links

  // ---------- The tree that the disk holds ----------

  ghost function NodeOf(s: FsState, i: nat): L.Node
    requires i < |s.inodes|
  {
    var d := s.inodes[i];
    if d.typ == 0 then L.Node(0, 0, []) else L.Node(d.typ, d.nlink, if d.typ == T_DIR then Dir(s, i) else [])
  }

  ghost function TreeOf(s: FsState): (t: seq<L.Node>)
    ensures |t| == |s.inodes| && forall i :: 0 <= i < |t| ==> t[i] == NodeOf(s, i)
  {
    seq(|s.inodes|, i requires 0 <= i < |s.inodes| => NodeOf(s, i))
  }

  ghost function State(s: FsState, pending: map<nat, nat>): L.State { L.State(TreeOf(s), pending) }

  /** Between system calls. */
  ghost predicate FsInv(s: FsState, g: Geometry, pending: map<nat, nat>) {
    Files(s, g) && L.Inv(State(s, pending))
  }

  /** Another file of the disk is, after a change to file i, what it was. */
  lemma OtherFile(s: FsState, s': FsState, g: Geometry, i: nat, j: nat)
    requires OthersKept(s, s', i) && Conserved(s, g, {}, {}) && j != i && j < |s.inodes| && FileNode(s, j)
    ensures FileNode(s', j) && NodeOf(s', j) == NodeOf(s, j)
  {
    if s.inodes[j].typ != 0 {
      OthersContents(s, s', g, i, j);
      forall k: nat ensures Addr(s'.blocks, s'.inodes[j], k) == Addr(s.blocks, s.inodes[j], k) {
        var ind := s.inodes[j].addrs[NDIRECT];
        assert ind != 0 ==> Owns(s, j, NDIRECT, ind);
      }
    }
  }

  /** A change to file i changes one node of the tree. */
  lemma OneNode(s: FsState, s': FsState, g: Geometry, i: nat)
    requires OthersKept(s, s', i) && Files(s, g) && Conserved(s', g, {}, {}) && FileNode(s', i) && i < |s.inodes|
    ensures Files(s', g) && TreeOf(s') == TreeOf(s)[i := NodeOf(s', i)]
  {
    assert |s'.inodes| == |s.inodes|;
    hide Conserved, OthersKept, NodeOf, FileNode;
    forall j: nat | j < |s.inodes| && j != i ensures FileNode(s', j) && NodeOf(s', j) == NodeOf(s, j) {
      assert FileNode(s, j);
      OtherFile(s, s', g, i, j);
    }
    forall j: nat ensures FileNode(s', j) {
      if j >= |s.inodes| {
        NoFile(s, s', i, j);
      }
    }
  }

  lemma NoFile(s: FsState, s': FsState, i: nat, j: nat)
    requires OthersKept(s, s', i) && j >= |s.inodes|
    ensures FileNode(s', j)
  {
  }

  /** A directory got new slots. */
  lemma SlotsChanged(s: FsState, s': FsState, g: Geometry, i: nat, slots: seq<Dirent>)
    requires Became(s, s', g, i, slots) && Files(s, g) && s.inodes[i].typ == T_DIR
    ensures Files(s', g) && TreeOf(s') == TreeOf(s)[i := TreeOf(s)[i].(slots := slots)]
  {
    OneNode(s, s', g, i);
  }

  /** An inode got a new link count. */
  lemma LinksChanged(s: FsState, s': FsState, g: Geometry, i: nat, n: int)
    requires Files(s, g) && i < |s.inodes| && s.inodes[i].typ != 0
    requires s' == s.(inodes := s.inodes[i := s.inodes[i].(nlink := n)])
    ensures Files(s', g) && TreeOf(s') == TreeOf(s)[i := TreeOf(s)[i].(nlink := n)]
  {
    assert FileNode(s, i);
    forall j: nat, k: nat, b: nat ensures Owns(s', j, k, b) <==> Owns(s, j, k, b) {
    }
    SameOwners(s, s', g, {}, {});
    OthersKeptSelf(s, g, i);
    forall k: nat ensures Addr(s'.blocks, s'.inodes[i], k) == Addr(s.blocks, s.inodes[i], k) {
    }
    assert Contents(s', i) == Contents(s, i);
    OneNode(s, s', g, i);
  }

  /** Directories in the tree lead to inodes in the tree. */
  lemma InTree(s: FsState, g: Geometry, pending: map<nat, nat>)
    requires FsInv(s, g, pending)
    ensures TreeOk(s, g) && HasName(s, ROOTINO) && s.inodes[ROOTINO].typ == T_DIR
  {
    var st := State(s, pending);
    assert NodeOf(s, ROOTINO) == st.t[ROOTINO];
    forall i: nat | HasName(s, i) && s.inodes[i].typ == T_DIR ensures Entries(s, Dir(s, i)) {
      assert st.t[i] == NodeOf(s, i) && L.LiveDir(st.t, i);
      forall k | 0 <= k < |Dir(s, i)| && Dir(s, i)[k].Live() ensures HasName(s, Dir(s, i)[k].inum) {
        EntryInTree(s, g, pending, i, k);
      }
    }
  }

  lemma EntryInTree(s: FsState, g: Geometry, pending: map<nat, nat>, i: nat, k: nat)
    requires FsInv(s, g, pending) && HasName(s, i) && s.inodes[i].typ == T_DIR && k < |Dir(s, i)| && Dir(s, i)[k].Live()
    ensures HasName(s, Dir(s, i)[k].inum)
  {
    hide Files, L.Inv, Dir, Cut;
    var st, j := State(s, pending), Dir(s, i)[k].inum;
    assert st.t[i] == NodeOf(s, i);
    TargetInTree(st, i, k);
    assert st.t[j] == NodeOf(s, j);
  }

  lemma TargetInTree(st: L.State, i: nat, k: nat)
    requires L.Inv(st) && L.LiveDir(st.t, i) && k < |st.t[i].slots| && st.t[i].slots[k].Live()
    ensures var j := st.t[i].slots[k].inum; j < |st.t| && st.t[j].typ != 0 && st.t[j].nlink > 0
  {
    hide Cut;
    L.InvDir(st, i);
    hide L.Inv, L.Placed;
    var e := st.t[i].slots[k];
    if e.Name() == L.Dot() {
      assert k == 0;
    } else {
      assert L.Ref(st.t, e.inum, i, k);
      L.InvNode(st, e.inum, i, k);
    }
  }

  // ---------- Changing one inode ----------

  /** A locked inode, in memory as on disk. */
  ghost predicate Locked(fs: FileSys, ip: Inode)
    reads fs, ip
  {
    ip.inum < |fs.inodes| && ip.d == fs.inodes[ip.inum] && ip.d.typ != 0
  }

  lemma LockedReady(fs: FileSys, ip: Inode)
    requires Files(fs.S(), fs.g) && Locked(fs, ip) && ip.d.typ != T_DEV
    ensures Directory.Ready(fs, ip) && (ip.d.typ == T_DIR ==> ip.d.size % ENTRY == 0)
  {
    assert FileNode(fs.S(), ip.inum);
  }

  /** ip->nlink += n and iupdate(ip). */
  method SetLinks(fs: FileSys, ip: Inode, n: int)
    requires Files(fs.S(), fs.g) && Locked(fs, ip)
    modifies fs`inodes, fs`logged, ip`d
    ensures old(fs.Covered()) ==> fs.Covered()
    ensures Files(fs.S(), fs.g) && Locked(fs, ip) && ip.d.typ == old(ip.d.typ)
    ensures TreeOf(fs.S()) == L.AddLinks(old(TreeOf(fs.S())), ip.inum, n)
    ensures fs.inodes == old(fs.inodes)[ip.inum := old(ip.d).(nlink := old(ip.d.nlink) + n)]
    ensures fs.logged == old(fs.logged) + {fs.InodeBlock(ip.inum)}
  {
    hide Covers;
    ghost var s := fs.S();
    hide Files;
    assert TreeOf(s)[ip.inum] == NodeOf(s, ip.inum);
    ip.d := ip.d.(nlink := ip.d.nlink + n);
    LinksChanged(s, s.(inodes := s.inodes[ip.inum := s.inodes[ip.inum].(nlink := ip.d.nlink)]), fs.g, ip.inum, ip.d.nlink);
    fs.Iupdate(ip);
  }

  /** Write one slot of a directory. */
  method SetSlot(fs: FileSys, dp: Inode, k: nat, e: Dirent) returns (r: Result<bool>)
    requires Files(fs.S(), fs.g) && Locked(fs, dp) && dp.d.typ == T_DIR && k < |Dir(fs.S(), dp.inum)| && e.inum < 0x1_0000
    modifies fs`bitmap, fs`blocks, fs`inodes, fs`logged, dp`d
    ensures old(fs.Covered()) ==> fs.Covered()
    ensures r.Panic? ==> fs.Full()
    ensures r.Done? ==> (r.value <==> ENTRY * k < MAXFILE * BSIZE) && Locked(fs, dp)
    ensures r == Done(true) ==> Files(fs.S(), fs.g) && dp.d.typ == T_DIR && OthersKept(old(fs.S()), fs.S(), dp.inum)
    ensures r == Done(true) ==> TreeOf(fs.S()) == L.SetSlot(old(TreeOf(fs.S())), dp.inum, k, e)
    ensures r == Done(true) ==> fs.logged == old(fs.logged) + {SlotBlock(old(fs.S()), dp.inum, k)}
  {
    hide Covers;
    ghost var s := fs.S();
    LockedReady(fs, dp);
    DirLength(fs, dp);
    hide Files, LogsWithin, SlotBlock;
    var done :- WriteSlot(fs, dp, k, e);
    if done {
      SlotsChanged(s, fs.S(), fs.g, dp.inum, Put(Dir(s, dp.inum), k, e));
    }
    return Done(done);
  }

  // ---------- unlink ----------

  /** isdirempty: no entries besides "." and "..". */
  method Isdirempty(fs: FileSys, dp: Inode) returns (empty: bool)
    requires Directory.Ready(fs, dp) && dp.d.size % ENTRY == 0
    modifies fs`bitmap, fs`blocks, fs`logged, dp`d
    ensures Same(fs, dp, old(fs.S()), old(dp.d), old(fs.logged))
    ensures empty <==> L.IsEmpty(Dir(old(fs.S()), dp.inum))
  {
    hide Slots, Dir, Directory.Ready, Same;
    SameStarts(fs, dp);
    DirLength(fs, dp);
    ghost var s, d, l := fs.S(), dp.d, fs.logged;
    ghost var slots := Dir(s, dp.inum);
    var off := 2 * ENTRY;
    while off < dp.d.size
      invariant Same(fs, dp, s, d, l) && off % ENTRY == 0 && off >= 2 * ENTRY && dp.d == d
      invariant forall j :: 2 <= j < off / ENTRY && j < |slots| ==> !slots[j].Live()
      decreases d.size - off
    {
      SameGives(fs, dp, s, d, l);
      var got := ReadEntry(fs, dp, off / ENTRY);     // whole entries: no panic
      SameGives(fs, dp, s, d, l);
      var de := got.value;
      if de.inum != 0 {
        return false;
      }
      off := off + ENTRY;
    }
    return true;
  }

  lemma DirLength(fs: FileSys, dp: Inode)
    requires Directory.Ready(fs, dp)
    ensures |Dir(fs.S(), dp.inum)| == dp.d.size / ENTRY
  {
    ReadyGives(fs, dp);
  }

  /** The disk has gone from s to s' by one step on the tree. */
  ghost predicate Stepped(s: FsState, s': FsState, g: Geometry, pending: map<nat, nat>, pending': map<nat, nat>, step: L.Step) {
    && FsInv(s, g, pending) && L.Enabled(State(s, pending), step) && L.Shaped(State(s, pending), step)
    && Files(s', g) && State(s', pending') == L.Apply(State(s, pending), step)
  }

  /** So the invariant holds again. */
  lemma SteppedInv(s: FsState, s': FsState, g: Geometry, pending: map<nat, nat>, pending': map<nat, nat>, step: L.Step)
    requires Stepped(s, s', g, pending, pending', step)
    ensures FsInv(s', g, pending')
  {
    hide L.Inv, L.Enabled, L.Apply, L.Shaped, State, Files;
    L.StepKeeps(State(s, pending), step);
  }

  /** unlink has found that entry k of directory dp, for inode i, can go. */
  ghost predicate CanUnlink(s: FsState, g: Geometry, pending: map<nat, nat>, dp: nat, k: nat, i: nat) {
    && FsInv(s, g, pending) && L.Enabled(State(s, pending), L.Unlink(dp, k))
    && dp < |s.inodes| && k < |Dir(s, dp)| && Dir(s, dp)[k].inum == i && dp != i
  }

  /** The part of unlink that changes the disk: clear the entry, then count the links down. */
  method RemoveEntry(fs: FileSys, dp: Inode, ip: Inode, k: nat, ghost pending: map<nat, nat>) returns (r: Result<()>)
    requires Locked(fs, dp) && Locked(fs, ip) && CanUnlink(fs.S(), fs.g, pending, dp.inum, k, ip.inum)
    modifies fs`bitmap, fs`blocks, fs`inodes, fs`logged, dp`d, ip`d
    ensures old(fs.Covered()) ==> fs.Covered()
    ensures r.Panic? ==> fs.Full()
    ensures r.Done? ==> Stepped(old(fs.S()), fs.S(), fs.g, pending, pending, L.Unlink(dp.inum, k))
    ensures r.Done? ==> NameGone(old(fs.S()), fs.S(), dp.inum, k)
    ensures r.Done? ==> fs.logged == old(fs.logged) + EntryLogs(old(fs.S()), fs.g, dp.inum, k, ip.inum)
    ensures r.Done? ==> LostLink(old(fs.S()), fs.S(), ip.inum)
  {
    hide Covers, Files, TreeOf, CanUnlink, Stepped, Dir, NameGone, LogsWithin, SlotBlock, Addr;
    ghost var s, d := fs.S(), ip.d;
    UnlinkShape(s, fs.g, pending, dp.inum, k, ip.inum);
    var done :- SetSlot(fs, dp, k, FREE);
    OtherNode(s, fs.S(), dp.inum, ip.inum);
    OtherAddresses(s, fs.S(), dp.inum, ip.inum);
    if ip.d.typ == T_DIR {
      SetLinks(fs, dp, -1);
    }
    SetLinks(fs, ip, -1);
    LostLinkIs(s, fs.S(), ip.inum);
    UnlinkDone(s, fs.S(), fs.g, pending, dp.inum, k, ip.inum);
    NameRemoved(s, fs.S(), fs.g, pending, dp.inum, k);
    return Done(());
  }

  /** The blocks logged for clearing entry k of directory dp, which names inode i, and counting down. */
  ghost function EntryLogs(s: FsState, g: Geometry, dp: nat, k: nat, i: nat): set<nat> {
    {SlotBlock(s, dp, k), g.inodestart + i / IPB}
    + if i < |s.inodes| && s.inodes[i].typ == T_DIR then {g.inodestart + dp / IPB} else {}
  }

  /** Inode i has one link less, and the blocks it had. */
  ghost predicate LostLink(s: FsState, s': FsState, i: nat) {
    && i < |s.inodes| == |s'.inodes| && s'.inodes[i] == s.inodes[i].(nlink := s.inodes[i].nlink - 1)
    && forall k: nat :: Addr(s'.blocks, s'.inodes[i], k) == Addr(s.blocks, s.inodes[i], k)
  }

  lemma LostLinkIs(s: FsState, s': FsState, i: nat)
    requires i < |s.inodes| == |s'.inodes| && s'.inodes[i] == s.inodes[i].(nlink := s.inodes[i].nlink - 1)
    requires forall k: nat :: Addr(s'.blocks, s.inodes[i], k) == Addr(s.blocks, s.inodes[i], k)
    ensures LostLink(s, s', i)
  {
    forall k: nat ensures Addr(s'.blocks, s'.inodes[i], k) == Addr(s.blocks, s.inodes[i], k) {
      assert Addr(s'.blocks, s'.inodes[i], k) == Addr(s'.blocks, s.inodes[i], k);
    }
  }

  lemma OtherAddresses(s: FsState, s': FsState, d: nat, i: nat)
    requires OthersKept(s, s', d) && i != d && i < |s.inodes| && s.inodes[i].typ != 0
    ensures |s'.inodes| == |s.inodes| && forall k: nat :: Addr(s'.blocks, s.inodes[i], k) == Addr(s.blocks, s.inodes[i], k)
  {
    var ind := s.inodes[i].addrs[NDIRECT];
    assert ind != 0 ==> Owns(s, i, NDIRECT, ind);
  }

  /** The directory has lost exactly the name in slot k. */
  ghost predicate NameGone(s: FsState, s': FsState, d: nat, k: nat) {
    && d < |s.inodes| && d < |s'.inodes| && k < |Dir(s, d)|
    && MapOf(Dir(s', d)) == MapOf(Dir(s, d)) - {Dir(s, d)[k].Name()} && Distinct(Dir(s', d))
  }

  lemma NameRemoved(s: FsState, s': FsState, g: Geometry, pending: map<nat, nat>, dp: nat, k: nat)
    requires Stepped(s, s', g, pending, pending, L.Unlink(dp, k))
    ensures NameGone(s, s', dp, k)
  {
    hide L.Inv, L.Apply, L.Enabled, L.Shaped, Files, Dir, Cut;
    L.UnlinkEffect(State(s, pending), dp, k);
    assert TreeOf(s)[dp] == NodeOf(s, dp) && TreeOf(s')[dp] == NodeOf(s', dp);
    ClearMap(Dir(s, dp), k);
  }

  lemma OtherNode(s: FsState, s': FsState, i: nat, j: nat)
    requires OthersKept(s, s', i) && j != i && j < |s.inodes|
    ensures |s'.inodes| == |s.inodes| && s'.inodes[j] == s.inodes[j]
  {
  }

  lemma UnlinkShape(s: FsState, g: Geometry, pending: map<nat, nat>, dp: nat, k: nat, i: nat)
    requires CanUnlink(s, g, pending, dp, k, i)
    ensures Files(s, g) && dp < |s.inodes| && s.inodes[dp].typ == T_DIR && k < |Dir(s, dp)| && ENTRY * k < MAXFILE * BSIZE
    ensures dp != i && i < |s.inodes| && dp < |TreeOf(s)| && TreeOf(s)[dp].slots == Dir(s, dp)
  {
    hide L.Inv;
    assert TreeOf(s)[dp] == NodeOf(s, dp);
    assert FileNode(s, dp);
    assert |Contents(s, dp)| == s.inodes[dp].size;
  }

  /** What RemoveEntry has done to the tree. */
  lemma UnlinkDone(s: FsState, s': FsState, g: Geometry, pending: map<nat, nat>, dp: nat, k: nat, i: nat)
    requires CanUnlink(s, g, pending, dp, k, i) && Files(s', g)
    requires dp < |s.inodes| && i < |s.inodes| && k < |TreeOf(s)[dp].slots|
    requires var t := L.SetSlot(TreeOf(s), dp, k, FREE);
      TreeOf(s') == L.AddLinks(if s.inodes[i].typ == T_DIR then L.AddLinks(t, dp, -1) else t, i, -1)
    ensures Stepped(s, s', g, pending, pending, L.Unlink(dp, k))
  {
    hide L.Inv, Files;
    assert TreeOf(s)[dp] == NodeOf(s, dp) && TreeOf(s)[i] == NodeOf(s, i);
    assert TreeOf(s)[dp].slots == Dir(s, dp);
  }

  /** The path from inode i leads to entry k of directory dp, and the entry can be removed. */
  ghost predicate Removable(s: FsState, i: nat, es: seq<seq<byte>>, dp: nat, name: Name, k: nat) {
    && Parent(s, i, es) == To(dp, name) && dp < |s.inodes| && name != L.Dot() && name != L.DotDot()
    && FirstAt(Dir(s, dp), name, k)
    && var j := Dir(s, dp)[k].inum; j < |s.inodes| && (s.inodes[j].typ == T_DIR ==> L.IsEmpty(Dir(s, j)))
  }

  lemma RemovableCan(s: FsState, g: Geometry, pending: map<nat, nat>, i: nat, es: seq<seq<byte>>, dp: nat, name: Name, k: nat)
    requires FsInv(s, g, pending) && Removable(s, i, es, dp, name, k) && HasName(s, dp) && s.inodes[dp].typ == T_DIR
    ensures k < |Dir(s, dp)| && CanUnlink(s, g, pending, dp, k, Dir(s, dp)[k].inum)
  {
    hide Parent, Files, L.Inv, Cut, Dir;
    RemovableEnabled(s, pending, i, es, dp, name, k);
    var st, j := State(s, pending), Dir(s, dp)[k].inum;
    assert st.t[dp] == NodeOf(s, dp) && st.t[j] == NodeOf(s, j);
    hide L.Enabled, L.Removed;
    if s.inodes[j].typ == T_DIR {
      L.UnlinkDirRefs(st, dp, k);
    }
  }

  lemma RemovableEnabled(s: FsState, pending: map<nat, nat>, i: nat, es: seq<seq<byte>>, dp: nat, name: Name, k: nat)
    requires Removable(s, i, es, dp, name, k) && HasName(s, dp) && s.inodes[dp].typ == T_DIR
    ensures L.Enabled(State(s, pending), L.Unlink(dp, k))
  {
    hide Parent, Cut, Dir;
    var t, e := TreeOf(s), Dir(s, dp)[k];
    assert t[dp] == NodeOf(s, dp);
    assert t[e.inum] == NodeOf(s, e.inum);
    assert L.LiveDir(t, dp) && t[dp].slots[k] == e;
    assert L.Removable(t, e);
  }

  /** ilock and isdirempty. */
  method EmptyDir(fs: FileSys, i: nat) returns (empty: bool)
    requires Files(fs.S(), fs.g) && i < |fs.inodes| && fs.inodes[i].typ == T_DIR
    modifies fs`bitmap, fs`blocks, fs`logged
    ensures fs.S() == old(fs.S()) && fs.logged == old(fs.logged) && (empty <==> L.IsEmpty(Dir(old(fs.S()), i)))
  {
    hide Files, Directory.Ready, Same, Dir;
    var ip := new Inode(i, fs.inodes[i]);
    LockedReady(fs, ip);
    ghost var s, d, l := fs.S(), ip.d, fs.logged;
    empty := Isdirempty(fs, ip);
    SameGives(fs, ip, s, d, l);
  }

  ghost predicate NothingRemovable(s: FsState, i: nat, es: seq<seq<byte>>) {
    forall dp, name, k :: !Removable(s, i, es, dp, name, k)
  }

  lemma NothingThere(s: FsState, i: nat, es: seq<seq<byte>>, dp: nat, name: Name)
    requires Parent(s, i, es) == To(dp, name) && dp < |s.inodes|
    requires name == L.Dot() || name == L.DotDot() || name !in MapOf(Dir(s, dp))
    ensures NothingRemovable(s, i, es)
  {
    hide Parent, Dir, MapOf;
    forall d: nat, n: Name, k: nat ensures !Removable(s, i, es, d, n, k) {
      if Removable(s, i, es, d, n, k) {
        MapAt(Dir(s, d), n, k);
      }
    }
  }

  lemma NotEmptyThere(s: FsState, i: nat, es: seq<seq<byte>>, dp: nat, name: Name, k: nat)
    requires Parent(s, i, es) == To(dp, name) && dp < |s.inodes| && FirstAt(Dir(s, dp), name, k)
    requires var j := Dir(s, dp)[k].inum; j < |s.inodes| && s.inodes[j].typ == T_DIR && !L.IsEmpty(Dir(s, j))
    ensures NothingRemovable(s, i, es)
  {
    hide Parent, Dir, MapOf, Cut;
    forall d: nat, n: Name, l: nat ensures !Removable(s, i, es, d, n, l) {
    }
  }

  /** The part of unlink that looks: it changes nothing. */
  method FindEntry(fs: FileSys, path: Path, cwd: nat, ghost pending: map<nat, nat>)
    returns (found: bool, dp: nat, k: nat, i: nat, ghost name: Name)
    requires FsInv(fs.S(), fs.g, pending) && Reaches(fs.S(), Start(path, cwd), Elements(path), true)
    modifies fs`bitmap, fs`blocks, fs`logged
    ensures fs.S() == old(fs.S()) && fs.logged == old(fs.logged)
    ensures found ==> Removable(old(fs.S()), Start(path, cwd), Elements(path), dp, name, k)
    ensures found ==> CanUnlink(old(fs.S()), fs.g, pending, dp, k, i)
    ensures !found ==> NothingRemovable(old(fs.S()), Start(path, cwd), Elements(path))
  {
    hide Files, L.Inv, Reaches, Removable, NothingRemovable, CanUnlink, TreeOk, Parent, Start, Elements, Cut, Dir, Finds, Padded, FirstAt;
    ghost var s := fs.S();
    found, dp, k, i, name := false, 0, 0, 0, [];
    InTree(s, fs.g, pending);
    var at := Namei(fs, path, cwd, true);
    if at.Nowhere? {
      NoParent(s, Start(path, cwd), Elements(path));
      return;
    }
    dp, name := at.inum, at.name;
    var dot := Strncmp(Padded(at.name, DIRSIZ), [DOT, 0], DIRSIZ);
    var dotdot := Strncmp(Padded(at.name, DIRSIZ), [DOT, DOT, 0], DIRSIZ);
    DotNames(at.name);
    if dot == 0 || dotdot == 0 {
      NothingThere(s, Start(path, cwd), Elements(path), dp, name);
      return;
    }
    var look := FindIn(fs, dp, at.name);
    FindsWhere(Dir(s, dp), name, look);
    if look.Missing? {
      NothingThere(s, Start(path, cwd), Elements(path), dp, name);
      return;
    }
    i, k := look.inum, look.off / ENTRY;
    EntryUsed(s, fs.g, pending, dp, name, k);
    assert fs.inodes[i].nlink >= 1;      // else unlink would panic
    if fs.inodes[i].typ == T_DIR {
      var empty := EmptyDir(fs, i);
      if !empty {
        NotEmptyThere(s, Start(path, cwd), Elements(path), dp, name, k);
        return;
      }
    }
    found := true;
    Found(s, fs.g, pending, Start(path, cwd), Elements(path), dp, name, k);
  }

  lemma NoParent(s: FsState, i: nat, es: seq<seq<byte>>)
    requires Parent(s, i, es) == Nowhere
    ensures NothingRemovable(s, i, es)
  {
    hide Parent;
  }

  /** The comparisons with "." and "..". */
  lemma DotNames(n: Name)
    ensures Readable(Padded(n, DIRSIZ), DIRSIZ) && Readable([DOT, 0], DIRSIZ) && Readable([DOT, DOT, 0], DIRSIZ)
    ensures Cut(Padded(n, DIRSIZ), DIRSIZ) == n && Cut([DOT, 0], DIRSIZ) == L.Dot() && Cut([DOT, DOT, 0], DIRSIZ) == L.DotDot()
  {
    PaddedName(n, DIRSIZ);
    hide Cut;
    CutIs([DOT, 0], DIRSIZ, 1);
    CutIs([DOT, DOT, 0], DIRSIZ, 2);
  }

  lemma FindsWhere(slots: seq<Dirent>, n: Name, r: Lookup)
    requires Finds(slots, n, r)
    ensures r.Missing? ==> n !in MapOf(slots)
    ensures r.Found? ==> var k := r.off / ENTRY; FirstAt(slots, n, k) && k < |slots| && slots[k].inum == r.inum
  {
    hide MapOf;
    if r.Found? {
      MapAt(slots, n, r.off / ENTRY);
    }
  }

  lemma EntryUsed(s: FsState, g: Geometry, pending: map<nat, nat>, dp: nat, n: Name, k: nat)
    requires FsInv(s, g, pending) && HasName(s, dp) && s.inodes[dp].typ == T_DIR && FirstAt(Dir(s, dp), n, k)
    ensures k < |Dir(s, dp)| && HasName(s, Dir(s, dp)[k].inum)
  {
    EntryInTree(s, g, pending, dp, k);
  }

  lemma Found(s: FsState, g: Geometry, pending: map<nat, nat>, i: nat, es: seq<seq<byte>>, dp: nat, name: Name, k: nat)
    requires FsInv(s, g, pending) && HasName(s, dp) && s.inodes[dp].typ == T_DIR && Parent(s, i, es) == To(dp, name)
    requires name != L.Dot() && name != L.DotDot() && FirstAt(Dir(s, dp), name, k) && k < |Dir(s, dp)|
    requires var j := Dir(s, dp)[k].inum; j < |s.inodes| && (s.inodes[j].typ == T_DIR ==> L.IsEmpty(Dir(s, j)))
    ensures Removable(s, i, es, dp, name, k) && CanUnlink(s, g, pending, dp, k, Dir(s, dp)[k].inum)
  {
    RemovableCan(s, g, pending, i, es, dp, name, k);
  }

  /** unlink: the named entry goes, and the link counts with it; or nothing happens. */
  method Unlink(fs: FileSys, path: Path, cwd: nat, ghost pending: map<nat, nat>)
    returns (r: Result<bool>, inum: nat, ghost dp: nat, ghost k: nat, ghost name: Name)
    requires FsInv(fs.S(), fs.g, pending) && Reaches(fs.S(), Start(path, cwd), Elements(path), true)
    modifies fs`bitmap, fs`blocks, fs`inodes, fs`logged
    ensures old(fs.Covered()) ==> fs.Covered()
    ensures r.Panic? ==> fs.Full()
    ensures r == Done(false) ==> fs.S() == old(fs.S()) && NothingRemovable(old(fs.S()), Start(path, cwd), Elements(path))
    ensures r == Done(true) ==> Removable(old(fs.S()), Start(path, cwd), Elements(path), dp, name, k)
    ensures r == Done(true) ==> Stepped(old(fs.S()), fs.S(), fs.g, pending, pending, L.Unlink(dp, k))
    ensures r == Done(true) ==> NameGone(old(fs.S()), fs.S(), dp, k)
    ensures r == Done(true) ==> CanUnlink(old(fs.S()), fs.g, pending, dp, k, inum)
    ensures r == Done(true) ==> fs.logged == old(fs.logged) + EntryLogs(old(fs.S()), fs.g, dp, k, inum)
    ensures r == Done(true) ==> LostLink(old(fs.S()), fs.S(), inum)
    ensures r == Done(false) ==> fs.logged == old(fs.logged)
  {
    hide Covers, LogsWithin, Files, L.Inv, FsInv, Removable, NothingRemovable, CanUnlink, Start, Elements, Stepped, NameGone, Reaches, EntryLogs, LostLink;
    var found, d, slot, i, n := FindEntry(fs, path, cwd, pending);
    inum, dp, k, name := i, d, slot, n;
    if !found {
      return Done(false), i, dp, k, name;
    }
    CanUnlinkGives(fs.S(), fs.g, pending, d, slot, i);
    var dpi := new Inode(d, fs.inodes[d]);
    var ip := new Inode(i, fs.inodes[i]);
    var done := RemoveEntry(fs, dpi, ip, slot, pending);
    if done.Panic? {
      return Panic, i, dp, k, name;
    }
    return Done(true), i, dp, k, name;
  }

  /** The whole of unlink in its one transaction: the name goes, then iput drops the reference to the
      inode, ref being the count of them, and frees the inode if nothing holds it any more. */
  method UnlinkPut(fs: FileSys, path: Path, cwd: nat, ref: nat, ghost pending: map<nat, nat>)
    returns (r: Result<bool>, ghost i: nat, ghost dp: nat, ghost k: nat, ghost s1: FsState)
    requires FsInv(fs.S(), fs.g, pending) && Reaches(fs.S(), Start(path, cwd), Elements(path), true) && ref >= 1
    modifies fs`bitmap, fs`blocks, fs`inodes, fs`logged
    ensures old(fs.Covered()) ==> fs.Covered()
    ensures r.Panic? ==> fs.Full()
    ensures r == Done(false) ==> fs.S() == old(fs.S()) && NothingRemovable(old(fs.S()), Start(path, cwd), Elements(path))
    ensures r == Done(true) ==> CanUnlink(old(fs.S()), fs.g, pending, dp, k, i)
    ensures r == Done(true) ==> exists name :: Removable(old(fs.S()), Start(path, cwd), Elements(path), dp, name, k)
    ensures r == Done(true) ==> Stepped(old(fs.S()), s1, fs.g, pending, pending, L.Unlink(dp, k))
    ensures r == Done(true) ==> Dropped(s1, fs.S(), fs.g, pending, i, ref)
    ensures r == Done(false) ==> fs.logged == old(fs.logged)
    ensures r == Done(true) ==> fs.logged == old(fs.logged) + UnlinkLogs(old(fs.S()), fs.g, dp, k, i, Last(old(fs.S()), i, ref))
  {
    hide Covers, LogsWithin, Files, L.Inv, FsInv, CanUnlink, Removable, NothingRemovable, Start, Elements, Stepped, NameGone, Reaches, MapBlocks, Released, Conserved, EntryLogs, Addr;
    ghost var l0, s0 := fs.logged, fs.S();
    var done, inum, d, slot, n := Unlink(fs, path, cwd, pending);
    i, dp, k, s1 := inum, d, slot, fs.S();
    if done.Panic? {
      return Panic, i, dp, k, s1;
    } else if !done.value {
      assert done == Done(false);
      return Done(false), i, dp, k, s1;
    }
    ghost var l1 := fs.logged;
    UnlinkedInode(s0, s1, fs.g, pending, d, slot, inum);
    var ip := new Inode(inum, fs.inodes[inum]);
    var _ := Iput(fs, ip, ref);
    if s1.inodes[inum].nlink == 0 && ref == 1 && Unclaimed(pending, inum) {
      PutFrees(s1, fs.S(), fs.g, pending, inum);
    }
    SameMaps(s0, s1, fs.g, inum);
    InodeLogged(s0, fs.g, d, slot, inum);
    return Done(true), i, dp, k, s1;
  }

  /** No call of link has counted a link to i that it has yet to enter. */
  ghost predicate Unclaimed(pending: map<nat, nat>, i: nat) { i !in pending || pending[i] == 0 }

  /** What iput does to an inode that it has ref references to: free it, or nothing. */
  ghost predicate Dropped(s: FsState, s': FsState, g: Geometry, pending: map<nat, nat>, i: nat, ref: nat) {
    && i < |s.inodes|
    && if s.inodes[i].nlink == 0 && ref == 1 then
         Released(s, s', g, i) && (Unclaimed(pending, i) ==> Stepped(s, s', g, pending, pending, L.Free(i)))
       else s' == s
  }

  /** Inode i has one link, and no reference but that of unlink itself. */
  ghost predicate Last(s: FsState, i: nat, ref: nat) { i < |s.inodes| && s.inodes[i].nlink == 1 && ref == 1 }

  /** The blocks that unlink logs with its iput: none but these. */
  ghost function UnlinkLogs(s: FsState, g: Geometry, dp: nat, k: nat, i: nat, last: bool): set<nat> {
    EntryLogs(s, g, dp, k, i) + if last && i < |s.inodes| then MapBlocks(s.blocks, s.inodes[i], g, 0, SLOTS) else {}
  }

  lemma InodeLogged(s: FsState, g: Geometry, dp: nat, k: nat, i: nat)
    ensures g.inodestart + i / IPB in EntryLogs(s, g, dp, k, i)
  {
  }

  lemma SameMaps(s: FsState, s': FsState, g: Geometry, i: nat)
    requires LostLink(s, s', i)
    ensures MapBlocks(s'.blocks, s'.inodes[i], g, 0, SLOTS) == MapBlocks(s.blocks, s.inodes[i], g, 0, SLOTS)
  {
    hide Addr;
    assert forall k: nat :: Addr(s'.blocks, s'.inodes[i], k) == Addr(s.blocks, s.inodes[i], k);
  }

  /** The inode that lost its name is still in use. */
  lemma UnlinkedInode(s: FsState, s': FsState, g: Geometry, pending: map<nat, nat>, dp: nat, k: nat, i: nat)
    requires CanUnlink(s, g, pending, dp, k, i) && Stepped(s, s', g, pending, pending, L.Unlink(dp, k))
    ensures i < |s'.inodes| && s'.inodes[i].typ != 0 && Conserved(s', g, {}, {}) && FsInv(s', g, pending)
  {
    hide L.Inv, L.Apply, L.Enabled, L.Shaped, Dir, Conserved;
    SteppedInv(s, s', g, pending, pending, L.Unlink(dp, k));
    L.UnlinkEffect(State(s, pending), dp, k);
    assert TreeOf(s)[dp] == NodeOf(s, dp) && TreeOf(s')[i] == NodeOf(s', i);
  }

  lemma CanUnlinkGives(s: FsState, g: Geometry, pending: map<nat, nat>, dp: nat, k: nat, i: nat)
    requires CanUnlink(s, g, pending, dp, k, i)
    ensures dp < |s.inodes| && i < |s.inodes| && dp != i && s.inodes[dp].typ != 0 && s.inodes[i].typ != 0
  {
    var st := State(s, pending);
    hide Files, L.Inv, Dir;
    assert st.t[dp] == NodeOf(s, dp);
    L.UnlinkHasLink(st, dp, k);
    assert st.t[i] == NodeOf(s, i);
  }

  // ---------- Entering a name ----------

  /** Some directory has no room for another entry. */
  ghost predicate Crammed(s: FsState) { exists d :: 0 <= d < |s.inodes| && Crowded(Dir(s, d)) }

  /** ilock and dirlink. */
  method EnterName(fs: FileSys, d: nat, name: seq<byte>, i: nat) returns (r: Result<bool>, ghost k: nat)
    requires Files(fs.S(), fs.g) && d < |fs.inodes| && fs.inodes[d].typ == T_DIR && Readable(name, DIRSIZ) && 0 < i < 0x1_0000
    modifies fs`bitmap, fs`blocks, fs`inodes, fs`logged
    ensures old(fs.Covered()) ==> fs.Covered()
    ensures r.Panic? ==> fs.Full() || Crowded(Dir(old(fs.S()), d))
    ensures r.Done? && !r.value ==> fs.S() == old(fs.S()) && Cut(name, DIRSIZ) in MapOf(Dir(old(fs.S()), d))
    ensures r.Done? && r.value ==> Entered(old(fs.S()), fs.S(), fs.g, d, Cut(name, DIRSIZ), k, i)
    ensures r.Done? && !r.value ==> fs.logged == old(fs.logged)
    ensures r.Done? && r.value ==> LogsWithin(old(fs.logged), fs.logged, {fs.InodeBlock(d)}, EntryBound(old(fs.inodes)[d].size))
  {
    hide Covers, LogsWithin, EntryBound, Files, Directory.Ready, Dir, Cut, MapOf, Entered, Crowded, Became;
    ghost var s := fs.S();
    var dp := new Inode(d, fs.inodes[d]);
    LockedReady(fs, dp);
    var done := Dirlink(fs, dp, name, i);
    k := 0;
    if done.Panic? {
      return Panic, k;
    }
    if done.value {
      k :| FirstFree(Dir(s, d), k) && Became(s, fs.S(), fs.g, d, Put(Dir(s, d), k, Dirent(i, Padded(Cut(name, DIRSIZ), DIRSIZ))));
      EnteredBy(s, fs.S(), fs.g, d, Cut(name, DIRSIZ), k, i);
    }
    return done, k;
  }

  lemma PanicWhy(s: FsState, d: nat)
    requires d < |s.inodes|
    ensures Crowded(Dir(s, d)) ==> Crammed(s)
  {
  }

  /** Directory d has got the name n for inode i in slot k, and nothing else has changed. */
  ghost predicate Entered(s: FsState, s': FsState, g: Geometry, d: nat, n: Name, k: nat, i: nat) {
    && d < |s.inodes| && n !in MapOf(Dir(s, d)) && FirstFree(Dir(s, d), k) && k <= |TreeOf(s)[d].slots|
    && Files(s', g) && OthersKept(s, s', d) && TreeOf(s') == L.SetSlot(TreeOf(s), d, k, L.Entry(i, n))
    && TreeOf(s)[d].slots == Dir(s, d)
  }

  lemma EnteredBy(s: FsState, s': FsState, g: Geometry, d: nat, n: Name, k: nat, i: nat)
    requires Files(s, g) && d < |s.inodes| && s.inodes[d].typ == T_DIR && n !in MapOf(Dir(s, d)) && FirstFree(Dir(s, d), k)
    requires Became(s, s', g, d, Put(Dir(s, d), k, Dirent(i, Padded(n, DIRSIZ))))
    ensures Entered(s, s', g, d, n, k, i)
  {
    hide Files, MapOf, Dir;
    assert TreeOf(s)[d] == NodeOf(s, d);
    SlotsChanged(s, s', g, d, Put(Dir(s, d), k, Dirent(i, Padded(n, DIRSIZ))));
  }

  // ---------- link ----------

  /** Link counts play no part in path lookup. */
  lemma {:induction false} SameWalk(s: FsState, s': FsState, i: nat, es: seq<seq<byte>>)
    requires SameNames(s, s')
    ensures Walk(s', i, es) == Walk(s, i, es)
    decreases |es|
  {
    hide Cut, Dir, MapOf;
    if es != [] && i < |s.inodes| {
      var f := Step(s, i, Cut(es[0], DIRSIZ));
      assert Step(s', i, Cut(es[0], DIRSIZ)) == f;
      if f.At? {
        SameWalk(s, s', f.inum, es[1..]);
      }
    }
  }

  ghost predicate SameNames(s: FsState, s': FsState) {
    && |s'.inodes| == |s.inodes|
    && forall i :: 0 <= i < |s.inodes| ==> s'.inodes[i].typ == s.inodes[i].typ && Dir(s', i) == Dir(s, i)
  }

  lemma SameParent(s: FsState, s': FsState, i: nat, es: seq<seq<byte>>)
    requires SameNames(s, s')
    ensures Parent(s', i, es) == Parent(s, i, es)
  {
    hide Walk, Cut, Dir;
    if es != [] {
      SameWalk(s, s', i, es[..|es| - 1]);
    }
  }

  lemma {:induction false} SameLost(s: FsState, s': FsState, i: nat, es: seq<seq<byte>>, parent: bool)
    requires SameNames(s, s')
    ensures Lost(s', i, es, parent) <==> Lost(s, i, es, parent)
    decreases |es|
  {
    hide Cut, Dir, MapOf;
    if es != [] && i < |s.inodes| {
      var f := Step(s, i, Cut(es[0], DIRSIZ));
      assert Step(s', i, Cut(es[0], DIRSIZ)) == f;
      if f.At? {
        SameLost(s, s', f.inum, es[1..], parent);
      }
    }
  }

  lemma SameReaches(s: FsState, s': FsState, i: nat, es: seq<seq<byte>>)
    requires SameNames(s, s') && Reaches(s, i, es, true) && forall j :: HasName(s, j) ==> HasName(s', j)
    ensures Reaches(s', i, es, true)
  {
    SameParent(s, s', i, es);
    SameLost(s, s', i, es, true);
  }

  lemma LinksKeepNames(s: FsState, s': FsState, i: nat, n: int)
    requires i < |s.inodes| && s' == s.(inodes := s.inodes[i := s.inodes[i].(nlink := n)])
    ensures SameNames(s, s')
  {
    forall j | 0 <= j < |s.inodes| ensures Dir(s', j) == Dir(s, j) {
      forall k: nat ensures Addr(s'.blocks, s'.inodes[j], k) == Addr(s.blocks, s.inodes[j], k) {
      }
      assert Contents(s', j) == Contents(s, j);
    }
  }

  function OneMore(pending: map<nat, nat>, i: nat): map<nat, nat> {
    pending[i := (if i in pending then pending[i] else 0) + 1]
  }

  function OneLess(pending: map<nat, nat>, i: nat): map<nat, nat>
    requires i in pending && pending[i] > 0
  {
    pending[i := pending[i] - 1]
  }

  /** The first part of link: one more link is counted for the inode. */
  lemma LinkCounted(s: FsState, s': FsState, g: Geometry, pending: map<nat, nat>, i: nat)
    requires FsInv(s, g, pending) && Files(s', g) && 0 < i < |s.inodes| && s.inodes[i].typ !in {0, T_DIR}
    requires TreeOf(s') == L.AddLinks(TreeOf(s), i, 1)
    ensures Stepped(s, s', g, pending, OneMore(pending, i), L.LinkCount(i)) && FsInv(s', g, OneMore(pending, i))
  {
    hide Files, L.Inv;
    assert TreeOf(s)[i] == NodeOf(s, i);
    SteppedInv(s, s', g, pending, OneMore(pending, i), L.LinkCount(i));
  }

  /** The second part: the name is entered. */
  lemma LinkEntered(s: FsState, s': FsState, g: Geometry, pending: map<nat, nat>, i: nat, dp: nat, n: Name, k: nat)
    requires FsInv(s, g, OneMore(pending, i)) && Entered(s, s', g, dp, n, k, i) && HasName(s, dp) && s.inodes[dp].typ == T_DIR
    requires i > 0
    ensures Stepped(s, s', g, OneMore(pending, i), OneLess(OneMore(pending, i), i), L.LinkEnter(i, dp, n, k))
  {
    hide Files, L.Inv, MapOf, Dir, Cut, FirstFree;
    assert TreeOf(s)[dp] == NodeOf(s, dp);
    assert L.Pending(State(s, OneMore(pending, i)), i) == OneMore(pending, i)[i];
  }

  /** There is no such inode, or link does not accept it. */
  ghost predicate NoOld(s: FsState, f: Found) { f.NotThere? || (f.inum < |s.inodes| && s.inodes[f.inum].typ == T_DIR) }

  /** There is no directory for the new name, or it has the name. */
  ghost predicate NoNew(s: FsState, p: Resolved) { p.Nowhere? || (p.inum < |s.inodes| && p.name in MapOf(Dir(s, p.inum))) }

  /** nameiparent and dirlink. */
  method EnterPath(fs: FileSys, path: Path, cwd: nat, i: nat, ghost pending: map<nat, nat>)
    returns (r: Result<bool>, ghost dp: nat, ghost n: Name, ghost k: nat)
    requires FsInv(fs.S(), fs.g, pending) && Reaches(fs.S(), Start(path, cwd), Elements(path), true) && 0 < i < 0x1_0000
    modifies fs`bitmap, fs`blocks, fs`inodes, fs`logged
    ensures old(fs.Covered()) ==> fs.Covered()
    ensures r.Panic? ==> fs.Full() || Crammed(old(fs.S()))
    ensures r == Done(false) ==> fs.S() == old(fs.S()) && NoNew(old(fs.S()), Parent(old(fs.S()), Start(path, cwd), Elements(path)))
    ensures r == Done(true) ==> Parent(old(fs.S()), Start(path, cwd), Elements(path)) == To(dp, n)
    ensures r == Done(true) ==> Entered(old(fs.S()), fs.S(), fs.g, dp, n, k, i)
    ensures r == Done(true) ==> HasName(old(fs.S()), dp) && old(fs.S()).inodes[dp].typ == T_DIR
    ensures r == Done(false) ==> fs.logged == old(fs.logged)
    ensures r == Done(true) ==> LogsWithin(old(fs.logged), fs.logged, {fs.InodeBlock(dp)}, 4)
  {
    hide Covers, LogsWithin, Files, L.Inv, Reaches, Parent, Start, Elements, Entered, Crammed, Dir, MapOf, TreeOk, Cut, Padded, Walk;
    dp, n, k := 0, [], 0;
    InTree(fs.S(), fs.g, pending);
    var at := Namei(fs, path, cwd, true);
    if at.Nowhere? {
      return Done(false), dp, n, k;
    }
    dp, n := at.inum, at.name;
    DotNames(at.name);
    PanicWhy(fs.S(), at.inum);
    ghost var l, b := fs.logged, EntryBound(fs.inodes[dp].size);
    var done, slot := EnterName(fs, at.inum, Padded(at.name, DIRSIZ), i);
    if done == Done(true) {
      LogsMore(l, fs.logged, {fs.InodeBlock(dp)}, b, {fs.InodeBlock(dp)}, 4);
    }
    return done, dp, n, slot;
  }

  /** link: the new name is entered for the inode of the old, and counted; or, if that fails, the
      disk is what it was. */
  method Link(fs: FileSys, oldPath: Path, newPath: Path, cwd: nat, ghost pending: map<nat, nat>)
    returns (r: Result<bool>, ghost mid: FsState, ghost i: nat, ghost dp: nat, ghost n: Name, ghost k: nat)
    requires FsInv(fs.S(), fs.g, pending) && |fs.inodes| <= 0x1_0000
    requires Reaches(fs.S(), Start(oldPath, cwd), Elements(oldPath), false)
    requires Reaches(fs.S(), Start(newPath, cwd), Elements(newPath), true)
    modifies fs`bitmap, fs`blocks, fs`inodes, fs`logged
    ensures old(fs.Covered()) ==> fs.Covered()
    ensures r.Panic? ==> fs.Full() || Crammed(old(fs.S()))
    ensures r == Done(false) ==> fs.S() == old(fs.S())
    ensures r == Done(false) ==> NoOld(old(fs.S()), Walk(old(fs.S()), Start(oldPath, cwd), Elements(oldPath)))
                                 || NoNew(old(fs.S()), Parent(old(fs.S()), Start(newPath, cwd), Elements(newPath)))
    ensures r == Done(true) ==> Walk(old(fs.S()), Start(oldPath, cwd), Elements(oldPath)) == At(i)
    ensures r == Done(true) ==> Parent(old(fs.S()), Start(newPath, cwd), Elements(newPath)) == To(dp, n)
    ensures r == Done(true) ==> Stepped(old(fs.S()), mid, fs.g, pending, OneMore(pending, i), L.LinkCount(i))
    ensures r == Done(true) ==> Stepped(mid, fs.S(), fs.g, OneMore(pending, i), OneLess(OneMore(pending, i), i), L.LinkEnter(i, dp, n, k))
    ensures r.Done? ==> |fs.logged| <= |old(fs.logged)| + 6
  {
    hide Covers, LogsWithin, Files, L.Inv, Reaches, TreeOk, TreeOf, Walk, Parent, Start, Elements, Stepped, SameNames, Entered, MapOf, Dir, Crammed;
    ghost var s, l := fs.S(), fs.logged;
    mid, i, dp, n, k := s, 0, 0, [], 0;
    InTree(s, fs.g, pending);
    var at := Namei(fs, oldPath, cwd, false);
    if at.Nowhere? || fs.inodes[at.inum].typ == T_DIR {
      return Done(false), mid, i, dp, n, k;
    }
    var ip := new Inode(at.inum, fs.inodes[at.inum]);
    NonzeroInode(s, fs.g, pending, ip.inum);
    SetLinks(fs, ip, 1);
    mid, i := fs.S(), ip.inum;
    ghost var l1 := fs.logged;
    LogsOne(l, fs.InodeBlock(i));
    LinkCounted(s, mid, fs.g, pending, i);
    LinksKeepNames(s, mid, i, s.inodes[i].nlink + 1);
    SameReaches(s, mid, Start(newPath, cwd), Elements(newPath));
    var done, d, name, slot := EnterPath(fs, newPath, cwd, ip.inum, OneMore(pending, i));
    dp, n, k := d, name, slot;
    SameParent(s, mid, Start(newPath, cwd), Elements(newPath));
    if done.Panic? {
      SameCrammed(s, mid);
      return Panic, mid, i, dp, n, k;
    }
    if !done.value {      // bad:
      SameTaken(s, mid, Parent(s, Start(newPath, cwd), Elements(newPath)));
      SetLinks(fs, ip, -1);
      assert fs.inodes == s.inodes;
      assert fs.logged == l1;
      LogsCount(l, l1, {fs.InodeBlock(i)}, 0);
      return Done(false), mid, i, dp, n, k;
    }
    LinkEntered(mid, fs.S(), fs.g, pending, i, dp, n, k);
    LogsThen(l, l1, fs.logged, {fs.InodeBlock(i)}, {fs.InodeBlock(dp)}, 0, 4);
    LogsCount(l, fs.logged, {fs.InodeBlock(i)} + {fs.InodeBlock(dp)}, 4);
    return Done(true), mid, i, dp, n, k;
  }

  lemma NonzeroInode(s: FsState, g: Geometry, pending: map<nat, nat>, i: nat)
    requires FsInv(s, g, pending) && HasName(s, i)
    ensures i > 0
  {
    assert TreeOf(s)[i] == NodeOf(s, i);
    L.Nonzero(State(s, pending), i);
  }

  lemma SameCrammed(s: FsState, s': FsState)
    requires SameNames(s, s')
    ensures Crammed(s') ==> Crammed(s)
  {
  }

  lemma SameTaken(s: FsState, s': FsState, p: Resolved)
    requires SameNames(s, s') && NoNew(s', p)
    ensures NoNew(s, p)
  {
  }

  // ---------- create ----------

  /** ialloc and the first link. */
  method NewInode(fs: FileSys, typ: int) returns (r: Result<nat>)
    requires Files(fs.S(), fs.g) && typ != 0
    modifies fs`inodes, fs`logged
    ensures old(fs.Covered()) ==> fs.Covered()
    ensures r.Panic? ==> NoInodes(old(fs.S()))
    ensures r.Done? ==> Files(fs.S(), fs.g) && 0 < r.value < |old(fs.inodes)| && old(fs.inodes)[r.value].typ == 0
    ensures r.Done? ==> TreeOf(fs.S()) == old(TreeOf(fs.S()))[r.value := L.Node(typ, 1, [])]
    ensures r.Done? ==> fs.logged == old(fs.logged) + {fs.InodeBlock(r.value)}
  {
    hide Covers;
    ghost var s := fs.S();
    FilesConserved(s, fs.g);
    hide Files, Conserved, NodeOf, OthersKept, FileOk;
    var i :- Ialloc(fs, typ);
    FreshNode(s, fs.S(), fs.g, i, typ);
    var ip := new Inode(i, fs.inodes[i]);
    SetLinks(fs, ip, 1);
    return Done(i);
  }

  ghost predicate NoInodes(s: FsState) { forall i :: 1 <= i < |s.inodes| ==> s.inodes[i].typ != 0 }

  lemma FilesConserved(s: FsState, g: Geometry)
    requires Files(s, g)
    ensures Conserved(s, g, {}, {})
  {
  }

  lemma FreshNode(s: FsState, s': FsState, g: Geometry, i: nat, typ: int)
    requires Files(s, g) && Conserved(s', g, {}, {}) && OthersKept(s, s', i) && i < |s.inodes| == |s'.inodes|
    requires s'.inodes[i].typ == typ != 0 && s'.inodes[i].nlink == 0 && FileOk(s', i) && Contents(s', i) == []
    ensures Files(s', g) && TreeOf(s') == TreeOf(s)[i := L.Node(typ, 0, [])] && s'.inodes[i].typ != 0
  {
    hide Conserved, Files, OthersKept;
    assert |Contents(s', i)| == s'.inodes[i].size;
    OneNode(s, s', g, i);
  }

  /** "." and ".." of a new directory, and the link that ".." counts for. */
  method AddDots(fs: FileSys, i: nat, d: nat) returns (r: Result<()>)
    requires Files(fs.S(), fs.g) && i < |fs.inodes| <= 0x1_0000 && d < |fs.inodes| && 0 < i && 0 < d && d != i
    requires fs.inodes[i].typ == T_DIR && Dir(fs.S(), i) == [] && fs.inodes[d].typ == T_DIR
    modifies fs`bitmap, fs`blocks, fs`inodes, fs`logged
    ensures old(fs.Covered()) ==> fs.Covered()
    ensures r.Panic? ==> fs.Full()
    ensures r.Done? ==> Files(fs.S(), fs.g) && TreeOf(fs.S()) == WithDots(old(TreeOf(fs.S())), i, d)
    ensures r.Done? ==> LogsWithin(old(fs.logged), fs.logged, {fs.InodeBlock(d), fs.InodeBlock(i)}, 3)
  {
    hide Covers, LogsWithin, Files, TreeOf, NodeOf, Entered, MapOf, Dir, Cut;
    ghost var s := fs.S();
    DotNames([]);
    var dp := new Inode(d, fs.inodes[d]);
    SetLinks(fs, dp, 1);
    ghost var s1, l, l1 := fs.S(), old(fs.logged), fs.logged;
    LogsOne(l, fs.InodeBlock(d));
    LinksKeepNames(s, s1, d, s.inodes[d].nlink + 1);
    NewSize(s1, fs.g, i, []);
    DotsRoom([], L.Dot());
    var dot, k0 := EnterName(fs, i, [DOT, 0], i);
    if dot.Panic? {
      return Panic;
    }
    ghost var s2, l2 := fs.S(), fs.logged;
    assert dot.value;        // or create would panic
    FirstEntered(s1, s2, fs.g, i, L.Dot(), k0, i);
    NewSize(s2, fs.g, i, [L.Entry(i, L.Dot())]);
    L.EntryIs(i, L.Dot());
    DotsRoom([L.Entry(i, L.Dot())], L.DotDot());
    var dotdot, k1 := EnterName(fs, i, [DOT, DOT, 0], d);
    if dotdot.Panic? {
      return Panic;
    }
    assert dotdot.value;
    DotsDone(s, s1, s2, fs.S(), fs.g, i, d, k0, k1);
    DotsLogs(l, l1, l2, fs.logged, fs.InodeBlock(d), fs.InodeBlock(i));
    return Done(());
  }

  lemma NewSize(s: FsState, g: Geometry, i: nat, slots: seq<Dirent>)
    requires Files(s, g) && i < |s.inodes| && s.inodes[i].typ == T_DIR && Dir(s, i) == slots
    ensures s.inodes[i].size == ENTRY * |slots|
    ensures slots == [] ==> EntryBound(s.inodes[i].size) == 2
    ensures |slots| == 1 ==> EntryBound(s.inodes[i].size) == 1
  {
    assert FileNode(s, i);
    assert |Contents(s, i)| == s.inodes[i].size;
    assert |Dir(s, i)| == s.inodes[i].size / ENTRY;
  }

  lemma DotsLogs(l0: set<nat>, l1: set<nat>, l2: set<nat>, l3: set<nat>, d: nat, i: nat)
    requires LogsWithin(l0, l1, {d}, 0) && LogsWithin(l1, l2, {i}, 2) && LogsWithin(l2, l3, {i}, 1)
    ensures LogsWithin(l0, l3, {d, i}, 3)
  {
    LogsThen(l0, l1, l2, {d}, {i}, 0, 2);
    LogsThen(l0, l2, l3, {d} + {i}, {i}, 2, 1);
    LogsMore(l0, l3, {d} + {i} + {i}, 3, {d, i}, 3);
  }

  ghost function WithDots(t: seq<L.Node>, i: nat, d: nat): seq<L.Node>
    requires i < |t| && d < |t|
  {
    L.AddLinks(t, d, 1)[i := t[i].(slots := [L.Entry(i, L.Dot()), L.Entry(d, L.DotDot())])]
  }

  /** There is room, and the name is new, in a directory that holds at most ".". */
  lemma DotsRoom(slots: seq<Dirent>, n: Name)
    requires slots == [] || (|slots| == 1 && slots[0].Live() && slots[0].Name() != n)
    ensures n !in MapOf(slots) && !Crowded(slots)
  {
    if n in MapOf(slots) {
      var k := MapHas(slots, n);
    }
  }

  lemma FirstEntered(s: FsState, s': FsState, g: Geometry, i: nat, n: Name, k: nat, e: nat)
    requires Entered(s, s', g, i, n, k, e) && Dir(s, i) == [] && s.inodes[i].typ == T_DIR
    ensures k == 0 && i < |s'.inodes| && Dir(s', i) == [L.Entry(e, n)] && s'.inodes[i].typ == T_DIR && Files(s', g)
    ensures forall j :: 0 <= j < |s.inodes| && j != i ==> s'.inodes[j] == s.inodes[j]
  {
    hide Files, MapOf, Dir;
    assert TreeOf(s')[i] == NodeOf(s', i);
    assert TreeOf(s)[i] == NodeOf(s, i);
  }

  lemma DotsDone(s: FsState, s1: FsState, s2: FsState, s3: FsState, g: Geometry, i: nat, d: nat, k0: nat, k1: nat)
    requires i < |s.inodes| && d < |s.inodes| && d != i && i > 0 && s.inodes[i].typ == T_DIR
    requires TreeOf(s1) == L.AddLinks(TreeOf(s), d, 1) && Entered(s1, s2, g, i, L.Dot(), k0, i) && k0 == 0 && Dir(s1, i) == []
    requires Dir(s2, i) == [L.Entry(i, L.Dot())] && Entered(s2, s3, g, i, L.DotDot(), k1, d)
    ensures Files(s3, g) && TreeOf(s3) == WithDots(TreeOf(s), i, d)
  {
    hide Files, MapOf, Dir, Cut;
    L.EntryIs(i, L.Dot());
    hide L.Entry, NodeOf;
    assert k1 == 1;
    assert TreeOf(s2)[i].slots == [L.Entry(i, L.Dot())];
    assert TreeOf(s3)[i].slots == [L.Entry(i, L.Dot()), L.Entry(d, L.DotDot())];
  }

  function CreateStep(d: nat, n: Name, typ: int, i: nat, k: nat): L.Step {
    if typ == T_DIR then L.CreateDir(d, n, i, k) else L.CreateFile(d, n, typ, i, k)
  }

  /** The part of create that changes the disk, once the name is known to be new: the inode, for a
      directory its two entries, and the name. */
  method MakeNode(fs: FileSys, d: nat, n: Name, typ: int, ghost pending: map<nat, nat>) returns (r: Result<nat>, ghost k: nat)
    requires FsInv(fs.S(), fs.g, pending) && HasName(fs.S(), d) && fs.inodes[d].typ == T_DIR && n !in MapOf(Dir(fs.S(), d))
    requires typ != 0 && |fs.inodes| <= 0x1_0000
    modifies fs`bitmap, fs`blocks, fs`inodes, fs`logged
    ensures old(fs.Covered()) ==> fs.Covered()
    ensures r.Panic? ==> NoInodes(old(fs.S())) || fs.Full() || Crowded(Dir(old(fs.S()), d))
    ensures r.Done? ==> Stepped(old(fs.S()), fs.S(), fs.g, pending, pending, CreateStep(d, n, typ, r.value, k))
    ensures r.Done? ==> LogsWithin(old(fs.logged), fs.logged, {fs.InodeBlock(d), fs.InodeBlock(r.value)}, 7)
  {
    hide Covers, LogsWithin, EntryBound, Files, L.Inv, TreeOf, NodeOf, Stepped, Entered, MapOf, Dir, Cut, Padded, WithDots, Crowded, NoInodes;
    ghost var s0 := fs.S();
    k := 0;
    NonzeroInode(s0, fs.g, pending, d);
    var made := NewInode(fs, typ);
    if made.Panic? {
      return Panic, k;
    }
    var i := made.value;
    ghost var s1, l, l1 := fs.S(), old(fs.logged), fs.logged;
    LogsOne(l, fs.InodeBlock(i));
    LogsNothing(l1);
    NodesAfter(s0, s1, i, d, typ);
    if typ == T_DIR {
      var dots := AddDots(fs, i, d);
      if dots.Panic? {
        return Panic, k;
      }
    }
    ghost var s2, l2 := fs.S(), fs.logged;
    ParentAfter(s0, s1, s2, i, d, typ);
    ghost var b := EntryBound(fs.inodes[d].size);
    EntryBoundMax(fs.inodes[d].size);
    DotNames(n);
    var done, slot := EnterName(fs, d, Padded(n, DIRSIZ), i);
    if done.Panic? {
      return Panic, k;
    }
    k := slot;
    assert done.value;       // or create would panic
    CreateDone(s0, s1, s2, fs.S(), fs.g, pending, d, n, typ, i, k);
    NodeLogs(l, l1, l2, fs.logged, fs.InodeBlock(d), fs.InodeBlock(i), b, typ == T_DIR);
    return Done(i), k;
  }

  lemma NodeLogs(l0: set<nat>, l1: set<nat>, l2: set<nat>, l3: set<nat>, d: nat, i: nat, b: nat, dir: bool)
    requires LogsWithin(l0, l1, {i}, 0) && (if dir then LogsWithin(l1, l2, {d, i}, 3) else l2 == l1)
    requires LogsWithin(l2, l3, {d}, b) && b <= 4
    ensures LogsWithin(l0, l3, {d, i}, 7)
  {
    LogsNothing(l1);
    if !dir {
      LogsMore(l1, l2, {}, 0, {d, i}, 3);
    }
    LogsThen(l0, l1, l2, {i}, {d, i}, 0, 3);
    LogsThen(l0, l2, l3, {i} + {d, i}, {d}, 3, b);
    LogsMore(l0, l3, {i} + {d, i} + {d}, 3 + b, {d, i}, 7);
  }

  lemma NodesAfter(s: FsState, s1: FsState, i: nat, d: nat, typ: int)
    requires i < |s.inodes| && d < |s.inodes| && i != d && typ != 0 && TreeOf(s1) == TreeOf(s)[i := L.Node(typ, 1, [])]
    requires s.inodes[d].typ == T_DIR
    ensures |s1.inodes| == |s.inodes| && s1.inodes[i].typ == typ && (typ == T_DIR ==> Dir(s1, i) == [])
    ensures s1.inodes[d].typ == T_DIR
  {
    hide Dir;
    assert TreeOf(s1)[i] == NodeOf(s1, i) && TreeOf(s1)[d] == NodeOf(s1, d) && TreeOf(s)[d] == NodeOf(s, d);
  }

  /** The directory that gets the new name still has the entries it had. */
  lemma ParentAfter(s: FsState, s1: FsState, s2: FsState, i: nat, d: nat, typ: int)
    requires i < |s.inodes| && d < |s.inodes| && i != d && TreeOf(s1) == TreeOf(s)[i := L.Node(typ, 1, [])]
    requires s.inodes[d].typ == T_DIR && TreeOf(s2) == if typ == T_DIR then WithDots(TreeOf(s1), i, d) else TreeOf(s1)
    ensures |s2.inodes| == |s.inodes| && s2.inodes[d].typ == T_DIR && Dir(s2, d) == Dir(s, d)
  {
    hide Dir;
    assert TreeOf(s2)[d] == NodeOf(s2, d) && TreeOf(s)[d] == NodeOf(s, d);
  }

  lemma CreateDone(s: FsState, s1: FsState, s2: FsState, s3: FsState, g: Geometry, pending: map<nat, nat>,
                   d: nat, n: Name, typ: int, i: nat, k: nat)
    requires FsInv(s, g, pending) && HasName(s, d) && s.inodes[d].typ == T_DIR && n !in MapOf(Dir(s, d))
    requires 0 < i < |s.inodes| && s.inodes[i].typ == 0 && typ != 0 && TreeOf(s1) == TreeOf(s)[i := L.Node(typ, 1, [])]
    requires TreeOf(s2) == if typ == T_DIR then WithDots(TreeOf(s1), i, d) else TreeOf(s1)
    requires Entered(s2, s3, g, d, n, k, i) && Dir(s2, d) == Dir(s, d)
    ensures Stepped(s, s3, g, pending, pending, CreateStep(d, n, typ, i, k))
  {
    hide Files, L.Inv, MapOf, Dir, Cut, L.Entry;
    assert TreeOf(s)[d] == NodeOf(s, d) && TreeOf(s)[i] == NodeOf(s, i);
    hide FirstFree;
    if typ == T_DIR {
      assert TreeOf(s3) == L.Apply(State(s, pending), L.CreateDir(d, n, i, k)).t;
    } else {
      assert TreeOf(s3) == L.Apply(State(s, pending), L.CreateFile(d, n, typ, i, k)).t;
    }
  }

  const T_FILE := 2

  datatype Made = Failed | Existing(inum: nat) | Fresh(inum: nat)

  /** What create does about a path whose last element n has the parent d. */
  ghost predicate Created(s: FsState, s': FsState, g: Geometry, pending: map<nat, nat>, p: Resolved, typ: int, r: Made, k: nat) {
    match p
    case Nowhere => r == Failed && s' == s
    case To(d, n) =>
      if d >= |s.inodes| then false
      else if n !in MapOf(Dir(s, d)) then
        r.Fresh? && Stepped(s, s', g, pending, pending, CreateStep(d, n, typ, r.inum, k))
      else
        var i := MapOf(Dir(s, d))[n];
        && s' == s && i < |s.inodes|
        && r == if typ == T_FILE && s.inodes[i].typ == T_FILE then Existing(i) else Failed
  }

  /** create: a new name gets a new inode; a regular file that is there is opened. */
  method Create(fs: FileSys, path: Path, cwd: nat, typ: int, ghost pending: map<nat, nat>) returns (r: Result<Made>, ghost k: nat)
    requires FsInv(fs.S(), fs.g, pending) && Reaches(fs.S(), Start(path, cwd), Elements(path), true) && typ != 0 && |fs.inodes| <= 0x1_0000
    modifies fs`bitmap, fs`blocks, fs`inodes, fs`logged
    ensures old(fs.Covered()) ==> fs.Covered()
    ensures r.Panic? ==> NoInodes(old(fs.S())) || fs.Full() || Crammed(old(fs.S()))
    ensures r.Done? ==> Created(old(fs.S()), fs.S(), fs.g, pending, Parent(old(fs.S()), Start(path, cwd), Elements(path)), typ, r.value, k)
    ensures r.Done? ==> |fs.logged| <= |old(fs.logged)| + 9
  {
    hide Covers, LogsWithin, Files, L.Inv, Reaches, TreeOk, Parent, Start, Elements, Stepped, MapOf, Dir, Cut, Finds, NoInodes, Crammed, Crowded;
    ghost var s := fs.S();
    k := 0;
    InTree(s, fs.g, pending);
    var at := Namei(fs, path, cwd, true);
    if at.Nowhere? {
      return Done(Failed), k;
    }
    var look := FindIn(fs, at.inum, at.name);
    FindsWhere(Dir(s, at.inum), at.name, look);
    FindsInum(Dir(s, at.inum), at.name, look);
    if look.Found? {
      EntryUsed(s, fs.g, pending, at.inum, at.name, look.off / ENTRY);
      if typ == T_FILE && fs.inodes[look.inum].typ == T_FILE {
        return Done(Existing(look.inum)), k;
      }
      return Done(Failed), k;
    }
    PanicWhy(s, at.inum);
    ghost var l := fs.logged;
    var made, slot := MakeNode(fs, at.inum, at.name, typ, pending);
    k := slot;
    if made.Panic? {
      return Panic, k;
    }
    LogsCount(l, fs.logged, {fs.InodeBlock(at.inum), fs.InodeBlock(made.value)}, 7);
    return Done(Fresh(made.value)), k;
  }

  lemma FindsInum(slots: seq<Dirent>, n: Name, r: Lookup)
    requires Finds(slots, n, r)
    ensures r.Found? <==> n in MapOf(slots)
    ensures r.Found? ==> MapOf(slots)[n] == r.inum
  {
  }

  /** iput of the last reference to an inode without a name is the step Free. */
  lemma PutFrees(s: FsState, s': FsState, g: Geometry, pending: map<nat, nat>, i: nat)
    requires FsInv(s, g, pending) && Released(s, s', g, i) && Conserved(s', g, {}, {})
    requires s.inodes[i].typ != 0 && s.inodes[i].nlink == 0 && (i !in pending || pending[i] == 0)
    ensures Stepped(s, s', g, pending, pending, L.Free(i))
  {
    hide L.Inv, Conserved;
    assert TreeOf(s)[i] == NodeOf(s, i);
    OneNode(s, s', g, i);
  }

  /** Writing to a regular file leaves the tree alone. */
  lemma WriteKeepsTree(s: FsState, s': FsState, g: Geometry, pending: map<nat, nat>, i: nat, off: nat, src: seq<byte>)
    requires FsInv(s, g, pending) && Wrote(s, s', g, i, off, src) && s.inodes[i].typ !in {0, T_DIR}
    ensures FsInv(s', g, pending) && TreeOf(s') == TreeOf(s)
  {
    hide L.Inv, Conserved;
    OneNode(s, s', g, i);
    assert TreeOf(s)[i] == NodeOf(s, i) == NodeOf(s', i);
    assert TreeOf(s') == TreeOf(s);
  }
}
