/** Link counts and the shape of the directory tree: what create, link and unlink of sysfile.c do
    to inodes and directory slots, between any two of which other processes may run. */
module Links {
  import opened Names
  import opened Directory

  const ROOT := 1

  /** An inode: free if typ is 0; slots only of a directory. */
  datatype Node = Node(typ: int, nlink: int, slots: seq<Dirent>)

  /** pending: for each inode, how many calls of link have counted a link they have not entered yet. */
  datatype State = State(t: seq<Node>, pending: map<nat, nat>)

  function Dot(): Name { [DOT] }
  function DotDot(): Name { [DOT, DOT] }

  ghost predicate LiveDir(t: seq<Node>, d: nat) { d < |t| && t[d].typ == T_DIR && t[d].nlink > 0 }

  /** Slot k of directory d is an entry, other than ".", for inode i. */
  ghost predicate Ref(t: seq<Node>, i: nat, d: nat, k: nat) {
    LiveDir(t, d) && k < |t[d].slots| && t[d].slots[k].Live() && t[d].slots[k].inum == i && t[d].slots[k].Name() != Dot()
  }

  ghost function Refs(t: seq<Node>, i: nat): (r: set<(nat, nat)>)
    ensures forall d: nat, k: nat :: (d, k) in r <==> Ref(t, i, d, k)
  {
    set d: nat, k: nat | d < |t| && k < |t[d].slots| && Ref(t, i, d, k) :: (d, k)
  }

  function Pending(s: State, i: nat): nat { if i in s.pending then s.pending[i] else 0 }

  /** The link count of an inode in use is the number of its entries, plus links under way. */
  ghost predicate Counts(s: State) {
    forall i :: 0 <= i < |s.t| && s.t[i].typ != 0 ==> s.t[i].nlink == |Refs(s.t, i)| + Pending(s, i)
  }

  /** Slots 0 and 1 of a directory are "." and "..", and no other slot is. */
  ghost predicate Dots(t: seq<Node>, d: nat)
    requires d < |t|
  {
    var slots := t[d].slots;
    && |slots| >= 2 && slots[0].Live() && slots[0].Name() == Dot() && slots[0].inum == d
    && slots[1].Live() && slots[1].Name() == DotDot()
    && Distinct(slots)
  }

  /** Entry k of directory p is the one place where directory d hangs in the tree. */
  ghost predicate Hangs(t: seq<Node>, d: nat, p: nat, k: nat) {
    && p != d && k >= 2 && Ref(t, d, p, k) && d < |t| && |t[d].slots| >= 2 && t[d].slots[1].inum == p
    && forall q: nat, l: nat :: Ref(t, d, q, l) && l >= 2 ==> q == p && l == k
  }

  /** The root is its own parent and has no entry; any other directory hangs in its parent. */
  ghost predicate Placed(t: seq<Node>, d: nat)
    requires d < |t|
  {
    if d == ROOT then |t[d].slots| >= 2 && t[d].slots[1].inum == ROOT && forall q: nat, l: nat :: Ref(t, d, q, l) ==> l < 2
    else exists p: nat, k: nat :: Hangs(t, d, p, k)
  }

  ghost predicate DirOk(t: seq<Node>, d: nat) { LiveDir(t, d) && Dots(t, d) && Placed(t, d) }

  ghost predicate DirsOk(t: seq<Node>) {
    LiveDir(t, ROOT) && forall d: nat {:trigger DirOk(t, d)} :: LiveDir(t, d) ==> DirOk(t, d)
  }

  /** Entries name inodes in use. */
  ghost predicate Targets(t: seq<Node>) {
    forall i: nat, d: nat, k: nat :: Ref(t, i, d, k) ==> i < |t| && t[i].typ != 0
  }

  /** Links under way are to inodes in use that are no directories. */
  ghost predicate PendingOk(s: State) {
    forall i: nat {:trigger Pending(s, i)} :: Pending(s, i) > 0 ==> 0 < i < |s.t| && s.t[i].typ !in {0, T_DIR}
  }

  ghost predicate Inv(s: State) { Counts(s) && DirsOk(s.t) && Targets(s.t) && PendingOk(s) }

  // ---------- The steps ----------

  datatype Step =
    | CreateFile(dp: nat, name: Name, typ: int, i: nat, k: nat)
    | CreateDir(dp: nat, name: Name, i: nat, k: nat)
    | LinkCount(i: nat)
    | LinkEnter(i: nat, dp: nat, name: Name, k: nat)
    | LinkUndo(i: nat)
    | Unlink(dp: nat, k: nat)
    | Free(i: nat)

  function Entry(i: nat, n: Name): (d: Dirent)
  {
    Dirent(i, Padded(n, DIRSIZ))
  }

  function SetSlot(t: seq<Node>, d: nat, k: nat, e: Dirent): (r: seq<Node>)
    requires d < |t| && k <= |t[d].slots|
    ensures |r| == |t|
  {
    t[d := t[d].(slots := Put(t[d].slots, k, e))]
  }

  function AddLinks(t: seq<Node>, i: nat, n: int): (r: seq<Node>)
    requires i < |t|
    ensures |r| == |t|
  {
    t[i := t[i].(nlink := t[i].nlink + n)]
  }

  /** dirlink(dp, name, i) may enter the name in slot k. */
  ghost predicate CanEnter(t: seq<Node>, dp: nat, name: Name, k: nat, i: nat) {
    LiveDir(t, dp) && name !in MapOf(t[dp].slots) && FirstFree(t[dp].slots, k) && i > 0
  }

  /** isdirempty */
  predicate IsEmpty(slots: seq<Dirent>) { forall k :: 2 <= k < |slots| ==> !slots[k].Live() }

  /** unlink goes ahead with this entry. */
  predicate Removable(t: seq<Node>, e: Dirent) {
    && e.Live() && e.Name() !in {Dot(), DotDot()} && e.inum < |t|
    && (t[e.inum].typ == T_DIR ==> IsEmpty(t[e.inum].slots))
  }

  ghost predicate Enabled(s: State, step: Step) {
    match step
    case CreateFile(dp, name, typ, i, k) =>
      CanEnter(s.t, dp, name, k, i) && i < |s.t| && s.t[i].typ == 0 && typ !in {0, T_DIR}
    case CreateDir(dp, name, i, k) => CanEnter(s.t, dp, name, k, i) && i < |s.t| && s.t[i].typ == 0
    case LinkCount(i) => 0 < i < |s.t| && s.t[i].typ !in {0, T_DIR}
    case LinkEnter(i, dp, name, k) => CanEnter(s.t, dp, name, k, i) && Pending(s, i) > 0
    case LinkUndo(i) => Pending(s, i) > 0
    case Unlink(dp, k) =>
      && LiveDir(s.t, dp) && k < |s.t[dp].slots| && Removable(s.t, s.t[dp].slots[k])
    case Free(i) => i < |s.t| && s.t[i].typ != 0 && s.t[i].nlink == 0 && Pending(s, i) == 0
  }

  function Apply(s: State, step: Step): State
    requires Shaped(s, step)
  {
    match step
    case CreateFile(dp, name, typ, i, k) => s.(t := SetSlot(s.t[i := Node(typ, 1, [])], dp, k, Entry(i, name)))
    case CreateDir(dp, name, i, k) =>
      var slots := [Entry(i, Dot()), Entry(dp, DotDot())];
      s.(t := SetSlot(AddLinks(s.t[i := Node(T_DIR, 1, slots)], dp, 1), dp, k, Entry(i, name)))
    case LinkCount(i) => State(AddLinks(s.t, i, 1), s.pending[i := Pending(s, i) + 1])
    case LinkEnter(i, dp, name, k) => State(SetSlot(s.t, dp, k, Entry(i, name)), s.pending[i := Pending(s, i) - 1])
    case LinkUndo(i) => State(AddLinks(s.t, i, -1), s.pending[i := Pending(s, i) - 1])
    case Unlink(dp, k) =>
      var i := s.t[dp].slots[k].inum;
      var t := SetSlot(s.t, dp, k, FREE);
      s.(t := AddLinks(if s.t[i].typ == T_DIR then AddLinks(t, dp, -1) else t, i, -1))
    case Free(i) => s.(t := s.t[i := Node(0, 0, [])])
  }

  /** The indices of a step are in range. */
  predicate Shaped(s: State, step: Step) {
    match step
    case CreateFile(dp, name, typ, i, k) => dp < |s.t| && i < |s.t| && dp != i && k <= |s.t[dp].slots|
    case CreateDir(dp, name, i, k) => dp < |s.t| && i < |s.t| && dp != i && k <= |s.t[dp].slots|
    case LinkCount(i) => i < |s.t|
    case LinkEnter(i, dp, name, k) => dp < |s.t| && k <= |s.t[dp].slots| && Pending(s, i) > 0
    case LinkUndo(i) => i < |s.t| && Pending(s, i) > 0
    case Unlink(dp, k) => dp < |s.t| && k < |s.t[dp].slots| && s.t[dp].slots[k].inum < |s.t|
    case Free(i) => i < |s.t|
  }

  lemma EnabledShaped(s: State, step: Step)
    requires Inv(s) && Enabled(s, step)
    ensures Shaped(s, step)
  {
  }

  // ---------- How entries change ----------

  ghost predicate Added(t: seq<Node>, t': seq<Node>, i: nat, d: nat, k: nat) {
    !Ref(t, i, d, k) && forall j: nat, q: nat, l: nat :: Ref(t', j, q, l) <==> Ref(t, j, q, l) || (j == i && q == d && l == k)
  }

  ghost predicate Removed(t: seq<Node>, t': seq<Node>, i: nat, d: nat, k: nat) {
    Ref(t, i, d, k) && forall j: nat, q: nat, l: nat :: Ref(t', j, q, l) <==> Ref(t, j, q, l) && !(j == i && q == d && l == k)
  }

  ghost predicate SameRefs(t: seq<Node>, t': seq<Node>) {
    forall j: nat, q: nat, l: nat :: Ref(t', j, q, l) <==> Ref(t, j, q, l)
  }

  lemma CountAdded(t: seq<Node>, t': seq<Node>, i: nat, d: nat, k: nat, j: nat)
    requires Added(t, t', i, d, k)
    ensures |Refs(t', j)| == |Refs(t, j)| + if j == i then 1 else 0
  {
    if j == i {
      assert Refs(t', j) == Refs(t, j) + {(d, k)};
    } else {
      assert Refs(t', j) == Refs(t, j);
    }
  }

  lemma CountRemoved(t: seq<Node>, t': seq<Node>, i: nat, d: nat, k: nat, j: nat)
    requires Removed(t, t', i, d, k)
    ensures |Refs(t', j)| == |Refs(t, j)| - if j == i then 1 else 0
  {
    if j == i {
      assert Refs(t', j) == Refs(t, j) - {(d, k)};
    } else {
      assert Refs(t', j) == Refs(t, j);
    }
  }

  lemma CountSame(t: seq<Node>, t': seq<Node>, j: nat)
    requires SameRefs(t, t')
    ensures |Refs(t', j)| == |Refs(t, j)|
  {
    assert Refs(t', j) == Refs(t, j);
  }

  /** A free slot gets an entry. */
  lemma SlotFilled(t: seq<Node>, d: nat, k: nat, e: Dirent)
    requires LiveDir(t, d) && FirstFree(t[d].slots, k) && e.Live() && e.Name() != Dot()
    ensures Added(t, SetSlot(t, d, k, e), e.inum, d, k)
  {
  }

  /** An entry is cleared. */
  lemma SlotCleared(t: seq<Node>, d: nat, k: nat)
    requires LiveDir(t, d) && k < |t[d].slots| && t[d].slots[k].Live() && t[d].slots[k].Name() != Dot()
    ensures Removed(t, SetSlot(t, d, k, FREE), t[d].slots[k].inum, d, k)
  {
  }

  /** A link count changes, but not whether its inode is a directory in the tree. */
  lemma LinksChanged(t: seq<Node>, i: nat, n: int)
    requires i < |t| && (LiveDir(t, i) <==> LiveDir(AddLinks(t, i, n), i))
    ensures SameRefs(t, AddLinks(t, i, n))
  {
  }

  /** A free inode becomes a file, or a file without links a free inode. */
  lemma NodeReplaced(t: seq<Node>, i: nat, node: Node)
    requires i < |t| && !LiveDir(t, i) && !LiveDir(t[i := node], i)
    ensures SameRefs(t, t[i := node])
  {
  }

  // ---------- Consequences of the invariant ----------

  lemma NoRefs(s: State, i: nat)
    requires Inv(s) && i < |s.t| && s.t[i].typ == 0
    ensures Pending(s, i) == 0 && Refs(s.t, i) == {} && forall d: nat, k: nat :: !Ref(s.t, i, d, k)
  {
  }

  /** Inode 0 is never in use under a name. */
  lemma Nonzero(s: State, i: nat)
    requires Inv(s) && i < |s.t| && s.t[i].typ != 0 && s.t[i].nlink > 0
    ensures i > 0
  {
    if Pending(s, i) == 0 {
      assert |Refs(s.t, i)| > 0;
      var r :| r in Refs(s.t, i);
      assert Ref(s.t, i, r.0, r.1);
    }
  }

  lemma EntryIs(i: nat, n: Name)
    ensures Entry(i, n).inum == i && Entry(i, n).Name() == n && (Entry(i, n).Live() <==> i != 0)
  {
    PaddedName(n, DIRSIZ);
  }

  lemma InvDir(s: State, d: nat)
    requires Inv(s) && LiveDir(s.t, d)
    ensures Dots(s.t, d) && Placed(s.t, d)
  {
    assert DirOk(s.t, d);
  }

  lemma InvNode(s: State, i: nat, d: nat, k: nat)
    requires Inv(s) && Ref(s.t, i, d, k)
    ensures i < |s.t| && s.t[i].typ != 0 && s.t[i].nlink > 0
    ensures s.t[i].nlink == |Refs(s.t, i)| + Pending(s, i) && (s.t[i].typ == T_DIR ==> Pending(s, i) == 0)
  {
    assert (d, k) in Refs(s.t, i);
    assert |Refs(s.t, i)| > 0;
  }

  /** Where a directory hangs, and what its ".." says. */
  lemma HangsAt(s: State, d: nat) returns (p: nat, k: nat)
    requires Inv(s) && LiveDir(s.t, d)
    ensures Dots(s.t, d) && if d == ROOT then s.t[d].slots[1].inum == ROOT && forall q: nat, l: nat :: Ref(s.t, d, q, l) ==> l < 2
            else Hangs(s.t, d, p, k)
  {
    InvDir(s, d);
    p, k := 0, 0;
    if d != ROOT {
      p, k :| Hangs(s.t, d, p, k);
    }
  }

  /** Slots 0 and 1 of a directory, seen as entries. */
  lemma DotRefs(t: seq<Node>, d: nat)
    requires LiveDir(t, d) && Dots(t, d)
    ensures forall j: nat :: !Ref(t, j, d, 0) && (Ref(t, j, d, 1) <==> j == t[d].slots[1].inum)
  {
    assert Dot() != DotDot();
  }

  lemma DotsTaken(slots: seq<Dirent>, name: Name, k: nat)
    requires |slots| >= 2 && slots[0].Live() && slots[0].Name() == Dot() && slots[1].Live() && slots[1].Name() == DotDot()
    requires name !in MapOf(slots) && FirstFree(slots, k)
    ensures k >= 2 && name != Dot() && name != DotDot()
  {
    hide MapOf;
    SomeFirst(slots, Dot(), 0);
    SomeFirst(slots, DotDot(), 1);
  }

  /** A new entry goes behind "..", under a name that the directory does not have. */
  lemma EnterSlot(s: State, dp: nat, name: Name, k: nat, i: nat)
    requires Inv(s) && CanEnter(s.t, dp, name, k, i)
    ensures k >= 2 && name != Dot() && name != DotDot() && Dots(s.t, dp)
    ensures Distinct(Put(s.t[dp].slots, k, Entry(i, name)))
  {
    InvDir(s, dp);
    hide Inv, MapOf, Cut, Placed, Entry;
    DotsTaken(s.t[dp].slots, name, k);
    EntryIs(i, name);
    PutDistinct(s.t[dp].slots, k, Entry(i, name));
  }

  /** No child names an empty directory. */
  lemma NoChild(s: State, i: nat, q: nat, m: nat)
    requires Inv(s) && i < |s.t| && IsEmpty(s.t[i].slots) && i != ROOT && Ref(s.t, i, q, m)
    ensures m >= 2
  {
    hide Inv, Cut, Distinct;
    var p, l := HangsAt(s, q);
    DotRefs(s.t, q);
    if m < 2 && q != ROOT {
      ParentEntry(s.t, q, p, l);
    }
  }

  lemma ParentEntry(t: seq<Node>, d: nat, p: nat, k: nat)
    requires Hangs(t, d, p, k)
    ensures |t[d].slots| >= 2 && t[d].slots[1].inum == p && LiveDir(t, p) && !IsEmpty(t[p].slots)
  {
  }

  /** Only its own entry names an empty directory. */
  lemma EmptyDirRefs(s: State, dp: nat, k: nat, i: nat)
    requires Inv(s) && LiveDir(s.t, dp) && k >= 2 && Ref(s.t, i, dp, k)
    requires i < |s.t| && s.t[i].typ == T_DIR && IsEmpty(s.t[i].slots)
    ensures LiveDir(s.t, i) && i != ROOT && Hangs(s.t, i, dp, k) && s.t[i].nlink == 1
  {
    InvNode(s, i, dp, k);
    hide Inv, Cut, Distinct;
    var p, l := HangsAt(s, i);
    forall q: nat, m: nat | Ref(s.t, i, q, m) ensures q == dp && m == k {
      NoChild(s, i, q, m);
    }
    assert Refs(s.t, i) == {(dp, k)};
  }

  // ---------- Every step keeps the invariant ----------

  /** The first two slots are those of s, and no name is there twice. */
  ghost predicate FrontKept(t: seq<Node>, t': seq<Node>, d: nat) {
    && d < |t| && d < |t'| && |t[d].slots| >= 2 && |t'[d].slots| >= 2
    && t'[d].slots[0] == t[d].slots[0] && t'[d].slots[1] == t[d].slots[1] && Distinct(t'[d].slots)
  }

  /** A directory stays where it is as long as no entry for it comes or goes. */
  lemma DirKept(s: State, t': seq<Node>, d: nat)
    requires Inv(s) && LiveDir(s.t, d) && LiveDir(t', d) && FrontKept(s.t, t', d)
    requires forall q: nat, l: nat :: l >= 2 ==> (Ref(t', d, q, l) <==> Ref(s.t, d, q, l))
    ensures DirOk(t', d)
  {
    hide Inv, Cut, Distinct, Ref;
    var p, k := HangsAt(s, d);
    if d != ROOT {
      assert Hangs(t', d, p, k);
    }
  }

  lemma FrontPut(t: seq<Node>, t': seq<Node>, d: nat, k: nat, e: Dirent)
    requires d < |t| == |t'| && Dots(t, d) && 2 <= k <= |t[d].slots| && t'[d].slots == Put(t[d].slots, k, e)
    requires Distinct(Put(t[d].slots, k, e))
    ensures FrontKept(t, t', d)
  {
  }

  lemma FrontSame(t: seq<Node>, t': seq<Node>, d: nat)
    requires d < |t| == |t'| && Dots(t, d) && t'[d].slots == t[d].slots
    ensures FrontKept(t, t', d)
  {
  }

  /** Inode i aside, only slot k of dp has changed, and no directory has come or gone. */
  ghost predicate OneSlot(t: seq<Node>, t': seq<Node>, i: nat, dp: nat, k: nat, e: Dirent)
    requires dp < |t| && k <= |t[dp].slots|
  {
    && |t'| == |t|
    && (forall d {:trigger t'[d]} :: 0 <= d < |t| && d != i ==>
          t'[d].slots == (if d == dp then Put(t[d].slots, k, e) else t[d].slots) && (LiveDir(t', d) <==> LiveDir(t, d)))
    && (forall d: nat, q: nat, l: nat {:trigger Ref(t', d, q, l)} :: d != i && l >= 2 ==> (Ref(t', d, q, l) <==> Ref(t, d, q, l)))
  }

  lemma OneSlotAdded(t: seq<Node>, t': seq<Node>, i: nat, dp: nat, k: nat, e: Dirent)
    requires dp < |t| && k <= |t[dp].slots| && i < |t| == |t'| && Added(t, t', i, dp, k)
    requires forall d: nat :: d < |t| && d != i ==> t'[d] == if d == dp then t[d].(slots := Put(t[d].slots, k, e)) else t[d]
    ensures OneSlot(t, t', i, dp, k, e)
  {
    hide Ref, Put;
    forall d: nat | d < |t| && d != i
      ensures t'[d].slots == (if d == dp then Put(t[d].slots, k, e) else t[d].slots) && (LiveDir(t', d) <==> LiveDir(t, d))
    {
      assert t'[d] == if d == dp then t[d].(slots := Put(t[d].slots, k, e)) else t[d];
    }
    forall d: nat, q: nat, l: nat | d != i ensures Ref(t', d, q, l) <==> Ref(t, d, q, l) {
    }
  }

  lemma OneSlotDirs(s: State, t': seq<Node>, i: nat, dp: nat, k: nat, e: Dirent)
    requires Inv(s) && LiveDir(s.t, dp) && 2 <= k <= |s.t[dp].slots| && Distinct(Put(s.t[dp].slots, k, e))
    requires i != ROOT && OneSlot(s.t, t', i, dp, k, e) && (LiveDir(t', i) ==> DirOk(t', i))
    ensures DirsOk(t')
  {
    hide Distinct, Ref, Dots, Placed, FrontKept;
    assert LiveDir(s.t, ROOT) && t'[ROOT] == t'[ROOT];
    forall d: nat | LiveDir(t', d) && d != i ensures DirOk(t', d) {
      hide Counts, Targets, PendingOk;
      assert LiveDir(s.t, d) && t'[d] == t'[d];
      InvDir(s, d);
      if d == dp {
        FrontPut(s.t, t', d, k, e);
      } else {
        FrontSame(s.t, t', d);
      }
      DirKept(s, t', d);
    }
  }

  ghost predicate InUse(t: seq<Node>, i: nat) { i < |t| && t[i].typ != 0 }

  /** All inodes in use stay in use. */
  ghost predicate UseKept(t: seq<Node>, t': seq<Node>) {
    |t'| == |t| && forall i: nat {:trigger InUse(t', i)} :: InUse(t, i) ==> InUse(t', i)
  }

  lemma TargetsAdded(t: seq<Node>, t': seq<Node>, i: nat, d: nat, k: nat)
    requires Targets(t) && Added(t, t', i, d, k) && InUse(t', i) && UseKept(t, t')
    ensures Targets(t')
  {
    hide Ref;
    forall j: nat, q: nat, l: nat | Ref(t', j, q, l) ensures InUse(t', j) {
      assert Ref(t, j, q, l) ==> InUse(t, j);
    }
  }

  lemma CreateFileRefs(t: seq<Node>, dp: nat, name: Name, typ: int, i: nat, k: nat)
    requires LiveDir(t, dp) && i < |t| && t[i].typ == 0 && typ !in {0, T_DIR} && FirstFree(t[dp].slots, k)
    requires i > 0 && name != Dot()
    ensures Added(t, SetSlot(t[i := Node(typ, 1, [])], dp, k, Entry(i, name)), i, dp, k)
  {
    hide Cut, Entry;
    EntryIs(i, name);
    NodeReplaced(t, i, Node(typ, 1, []));
    SlotFilled(t[i := Node(typ, 1, [])], dp, k, Entry(i, name));
  }

  lemma CreateFileKeeps(s: State, dp: nat, name: Name, typ: int, i: nat, k: nat)
    requires Inv(s) && Enabled(s, CreateFile(dp, name, typ, i, k)) && Shaped(s, CreateFile(dp, name, typ, i, k))
    ensures Inv(Apply(s, CreateFile(dp, name, typ, i, k)))
  {
    hide Cut, Distinct, MapOf, Entry, FrontKept, Ref, Dots, Placed, Refs, DirOk;
    var s' := Apply(s, CreateFile(dp, name, typ, i, k));
    EnterSlot(s, dp, name, k, i);
    CreateFileRefs(s.t, dp, name, typ, i, k);
    NoRefs(s, i);
    assert Counts(s') by {
      forall j: nat ensures |Refs(s'.t, j)| == |Refs(s.t, j)| + if j == i then 1 else 0 {
        CountAdded(s.t, s'.t, i, dp, k, j);
      }
    }
    TargetsAdded(s.t, s'.t, i, dp, k);
    OneSlotAdded(s.t, s'.t, i, dp, k, Entry(i, name));
    OneSlotDirs(s, s'.t, i, dp, k, Entry(i, name));
    assert PendingOk(s') by {
      assert forall j: nat {:trigger Pending(s', j)} :: Pending(s', j) == Pending(s, j);
    }
  }

  lemma LinkEnterKeeps(s: State, i: nat, dp: nat, name: Name, k: nat)
    requires Inv(s) && Enabled(s, LinkEnter(i, dp, name, k)) && Shaped(s, LinkEnter(i, dp, name, k))
    ensures Inv(Apply(s, LinkEnter(i, dp, name, k)))
  {
    hide Cut, Distinct, MapOf, Entry, FrontKept, Ref, Dots, Placed, Refs, DirOk;
    var s' := Apply(s, LinkEnter(i, dp, name, k));
    EnterSlot(s, dp, name, k, i);
    EntryIs(i, name);
    SlotFilled(s.t, dp, k, Entry(i, name));
    assert Counts(s') by {
      forall j: nat ensures |Refs(s'.t, j)| == |Refs(s.t, j)| + if j == i then 1 else 0 {
        CountAdded(s.t, s'.t, i, dp, k, j);
      }
      assert forall j: nat {:trigger Pending(s', j)} :: Pending(s', j) == Pending(s, j) - if j == i then 1 else 0;
    }
    TargetsAdded(s.t, s'.t, i, dp, k);
    OneSlotAdded(s.t, s'.t, i, dp, k, Entry(i, name));
    OneSlotDirs(s, s'.t, i, dp, k, Entry(i, name));
    assert PendingOk(s') by {
      assert forall j: nat {:trigger Pending(s', j)} :: Pending(s', j) > 0 ==> Pending(s, j) > 0;
    }
  }

  /** A change of links or of a file leaves all directories in place. */
  lemma SameDirs(s: State, s': State, i: nat)
    requires Inv(s) && |s'.t| == |s.t| && i < |s.t| && !LiveDir(s.t, i) && !LiveDir(s'.t, i) && SameRefs(s.t, s'.t)
    requires forall d :: 0 <= d < |s.t| && d != i ==> s'.t[d] == s.t[d]
    ensures DirsOk(s'.t)
  {
    hide Distinct, Ref, Dots, Placed, FrontKept;
    assert LiveDir(s'.t, ROOT);
    forall d: nat | LiveDir(s'.t, d) ensures DirOk(s'.t, d) {
      hide Counts, Targets, PendingOk;
      assert LiveDir(s.t, d);
      InvDir(s, d);
      FrontSame(s.t, s'.t, d);
      DirKept(s, s'.t, d);
    }
  }

  lemma TargetsSame(t: seq<Node>, t': seq<Node>)
    requires Targets(t) && SameRefs(t, t')
    requires |t'| == |t| && forall i: nat, d: nat, k: nat :: Ref(t, i, d, k) && InUse(t, i) ==> InUse(t', i)
    ensures Targets(t')
  {
    hide Ref;
    forall j: nat, q: nat, l: nat | Ref(t', j, q, l) ensures InUse(t', j) {
      assert Ref(t, j, q, l);
    }
  }

  /** link counts one more, or takes it back. */
  lemma LinkCountKeeps(s: State, i: nat, n: int)
    requires Inv(s) && 0 < i < |s.t| && s.t[i].typ !in {0, T_DIR} && (n == 1 || (n == -1 && Pending(s, i) > 0))
    ensures Inv(State(AddLinks(s.t, i, n), s.pending[i := Pending(s, i) + n]))
  {
    hide Cut, Distinct, MapOf, Entry, FrontKept, Ref, Dots, Placed, Refs, DirOk;
    var s' := State(AddLinks(s.t, i, n), s.pending[i := Pending(s, i) + n]);
    LinksChanged(s.t, i, n);
    assert Counts(s') by {
      forall j: nat ensures |Refs(s'.t, j)| == |Refs(s.t, j)| {
        CountSame(s.t, s'.t, j);
      }
      assert forall j: nat {:trigger Pending(s', j)} :: Pending(s', j) == Pending(s, j) + if j == i then n else 0;
    }
    TargetsSame(s.t, s'.t);
    SameDirs(s, s', i);
    assert PendingOk(s') by {
      assert forall j: nat {:trigger Pending(s', j)} :: Pending(s', j) > 0 ==> Pending(s, j) > 0 || j == i;
    }
  }

  /** iput frees an inode without links and references. */
  lemma FreeKeeps(s: State, i: nat)
    requires Inv(s) && Enabled(s, Free(i))
    ensures Inv(Apply(s, Free(i)))
  {
    hide Cut, Distinct, MapOf, Entry, FrontKept, Ref, Dots, Placed, Refs, DirOk;
    var s' := Apply(s, Free(i));
    NodeReplaced(s.t, i, Node(0, 0, []));
    assert Counts(s') by {
      forall j: nat ensures |Refs(s'.t, j)| == |Refs(s.t, j)| {
        CountSame(s.t, s'.t, j);
      }
      assert forall j: nat {:trigger Pending(s', j)} :: Pending(s', j) == Pending(s, j);
    }
    assert |Refs(s.t, i)| == 0;
    forall q: nat, l: nat ensures !Ref(s.t, i, q, l) {
      assert (q, l) !in Refs(s.t, i);
    }
    TargetsSame(s.t, s'.t);
    SameDirs(s, s', i);
    assert PendingOk(s') by {
      assert forall j: nat {:trigger Pending(s', j)} :: Pending(s', j) == Pending(s, j);
    }
  }

  lemma DirNonzero(t: seq<Node>, d: nat)
    requires d < |t| && Dots(t, d)
    ensures d > 0
  {
  }

  /** The new directory with its two slots. */
  function NewDir(i: nat, dp: nat): Node { Node(T_DIR, 1, [Entry(i, Dot()), Entry(dp, DotDot())]) }

  lemma NewDirRefs(t: seq<Node>, i: nat, dp: nat)
    requires i < |t| && t[i].typ == 0 && dp > 0 && (forall k: nat :: !Ref(t, dp, i, k))
    ensures Added(t, t[i := NewDir(i, dp)], dp, i, 1)
  {
    EntryIs(i, Dot());
    EntryIs(dp, DotDot());
    hide Cut, Entry;
    assert Dot() != DotDot();
  }

  lemma CreateDirRefs(t: seq<Node>, dp: nat, name: Name, i: nat, k: nat)
    requires LiveDir(t, dp) && i < |t| && t[i].typ == 0 && FirstFree(t[dp].slots, k) && i > 0 && dp > 0 && name != Dot()
    requires forall d: nat, l: nat :: !Ref(t, i, d, l)
    ensures var t1, t2 := t[i := NewDir(i, dp)], AddLinks(t[i := NewDir(i, dp)], dp, 1);
      Added(t, t1, dp, i, 1) && SameRefs(t1, t2) && Added(t2, SetSlot(t2, dp, k, Entry(i, name)), i, dp, k)
  {
    NewDirRefs(t, i, dp);
    var t1 := t[i := NewDir(i, dp)];
    var t2 := AddLinks(t1, dp, 1);
    LinksChanged(t1, dp, 1);
    EntryIs(i, name);
    hide Cut, Entry;
    SlotFilled(t2, dp, k, Entry(i, name));
  }

  lemma NewDirOk(t: seq<Node>, dp: nat, k: nat, i: nat)
    requires i < |t| && t[i] == NewDir(i, dp) && i != ROOT && i > 0 && dp > 0 && dp != i && k >= 2 && Ref(t, i, dp, k)
    requires forall q: nat, l: nat :: Ref(t, i, q, l) && l >= 2 ==> q == dp && l == k
    ensures DirOk(t, i)
  {
    EntryIs(i, Dot());
    EntryIs(dp, DotDot());
    hide Cut, Entry;
    assert Dot() != DotDot();
    assert Hangs(t, i, dp, k);
  }

  lemma FarRefs(t: seq<Node>, t1: seq<Node>, t2: seq<Node>, t': seq<Node>, dp: nat, i: nat, k: nat)
    requires Added(t, t1, dp, i, 1) && SameRefs(t1, t2) && Added(t2, t', i, dp, k)
    ensures forall d: nat, q: nat, l: nat {:trigger Ref(t', d, q, l)} :: d != i && l >= 2 ==> (Ref(t', d, q, l) <==> Ref(t, d, q, l))
  {
    hide Ref;
    forall d: nat, q: nat, l: nat | d != i && l >= 2 ensures Ref(t', d, q, l) <==> Ref(t, d, q, l) {
      assert Ref(t', d, q, l) <==> Ref(t2, d, q, l);
      assert Ref(t2, d, q, l) <==> Ref(t1, d, q, l);
      assert Ref(t1, d, q, l) <==> Ref(t, d, q, l);
    }
  }

  lemma CreateDirDirs(s: State, t': seq<Node>, dp: nat, name: Name, i: nat, k: nat)
    requires Inv(s) && LiveDir(s.t, dp) && i < |s.t| && s.t[i].typ == 0 && FirstFree(s.t[dp].slots, k) && i > 0 && dp > 0
    requires k >= 2 && Distinct(Put(s.t[dp].slots, k, Entry(i, name))) && name != Dot()
    requires t' == SetSlot(AddLinks(s.t[i := NewDir(i, dp)], dp, 1), dp, k, Entry(i, name))
    ensures DirsOk(t')
  {
    hide Cut, Distinct, MapOf, Entry, FrontKept, Ref, Dots, Placed, Refs, DirOk;
    NoRefs(s, i);
    CreateDirRefs(s.t, dp, name, i, k);
    FarRefs(s.t, s.t[i := NewDir(i, dp)], AddLinks(s.t[i := NewDir(i, dp)], dp, 1), t', dp, i, k);
    NewDirOk(t', dp, k, i);
    assert dp != i && OneSlot(s.t, t', i, dp, k, Entry(i, name)) by {
      forall d: nat | d < |s.t| && d != i
        ensures t'[d].slots == if d == dp then Put(s.t[d].slots, k, Entry(i, name)) else s.t[d].slots
        ensures LiveDir(t', d) <==> LiveDir(s.t, d)
      {
        assert d != dp ==> t'[d] == s.t[d];
      }
    }
    OneSlotDirs(s, t', i, dp, k, Entry(i, name));
  }

  lemma CreateDirKeeps(s: State, dp: nat, name: Name, i: nat, k: nat)
    requires Inv(s) && Enabled(s, CreateDir(dp, name, i, k)) && Shaped(s, CreateDir(dp, name, i, k))
    ensures Inv(Apply(s, CreateDir(dp, name, i, k)))
  {
    hide Cut, Distinct, MapOf, Entry, FrontKept, Ref, Dots, Placed, Refs, DirOk;
    var s' := Apply(s, CreateDir(dp, name, i, k));
    EnterSlot(s, dp, name, k, i);
    InvDir(s, dp);
    DirNonzero(s.t, dp);
    NoRefs(s, i);
    CreateDirRefs(s.t, dp, name, i, k);
    var t1 := s.t[i := NewDir(i, dp)];
    var t2 := AddLinks(t1, dp, 1);
    assert Counts(s') by {
      forall j: nat ensures |Refs(s'.t, j)| == |Refs(s.t, j)| + (if j == i then 1 else 0) + (if j == dp then 1 else 0) {
        CountAdded(s.t, t1, dp, i, 1, j);
        CountSame(t1, t2, j);
        CountAdded(t2, s'.t, i, dp, k, j);
      }
    }
    TargetsAdded(s.t, t1, dp, i, 1);
    TargetsSame(t1, t2);
    TargetsAdded(t2, s'.t, i, dp, k);
    assert PendingOk(s') by {
      assert forall j: nat {:trigger Pending(s', j)} :: Pending(s', j) == Pending(s, j);
    }
    CreateDirDirs(s, s'.t, dp, name, i, k);
  }

  // ---------- unlink ----------

  lemma CountsLower(s: State, s': State, i: nat)
    requires Counts(s) && |s'.t| == |s.t| && (forall j: nat {:trigger Pending(s', j)} :: Pending(s', j) == Pending(s, j))
    requires forall j: nat {:trigger Refs(s'.t, j)} :: j < |s.t| ==>
      s'.t[j].typ == s.t[j].typ && s'.t[j].nlink - |Refs(s'.t, j)| == s.t[j].nlink - |Refs(s.t, j)|
    ensures Counts(s')
  {
    hide Refs;
    forall j: nat | j < |s'.t| && s'.t[j].typ != 0 ensures s'.t[j].nlink == |Refs(s'.t, j)| + Pending(s', j) {
      var r := Refs(s'.t, j);
      assert s.t[j].nlink == |Refs(s.t, j)| + Pending(s, j);
    }
  }

  lemma TargetsFewer(t: seq<Node>, t': seq<Node>, i: nat, d: nat, k: nat)
    requires Targets(t) && Removed(t, t', i, d, k) && |t'| == |t| && forall j :: 0 <= j < |t| ==> t'[j].typ == t[j].typ
    ensures Targets(t')
  {
    hide Ref;
    forall j: nat, q: nat, l: nat | Ref(t', j, q, l) ensures InUse(t', j) {
      assert Ref(t, j, q, l);
    }
  }

  /** The entry that unlink clears. */
  lemma UnlinkedEntry(s: State, dp: nat, k: nat)
    requires Inv(s) && Enabled(s, Unlink(dp, k))
    ensures var e := s.t[dp].slots[k];
      k >= 2 && Ref(s.t, e.inum, dp, k) && Removed(s.t, SetSlot(s.t, dp, k, FREE), e.inum, dp, k)
    ensures Put(s.t[dp].slots, k, FREE) == s.t[dp].slots[k := FREE] && Distinct(s.t[dp].slots[k := FREE])
  {
    hide Inv, Cut, MapOf, Placed;
    InvDir(s, dp);
    ClearMap(s.t[dp].slots, k);
    hide Distinct;
    SlotCleared(s.t, dp, k);
  }

  /** unlink never meets an inode whose link count is already below one. */
  lemma UnlinkHasLink(s: State, dp: nat, k: nat)
    requires Inv(s) && Enabled(s, Unlink(dp, k))
    ensures var i := s.t[dp].slots[k].inum; i < |s.t| && s.t[i].typ != 0 && s.t[i].nlink >= 1
  {
    UnlinkedEntry(s, dp, k);
    InvNode(s, s.t[dp].slots[k].inum, dp, k);
  }

  /** What unlink does to the directory and to a file. */
  lemma UnlinkEffect(s: State, dp: nat, k: nat)
    requires Inv(s) && Enabled(s, Unlink(dp, k))
    ensures Shaped(s, Unlink(dp, k)) && Distinct(s.t[dp].slots)
    ensures var i, t' := s.t[dp].slots[k].inum, Apply(s, Unlink(dp, k)).t;
      && |t'| == |s.t| && dp < |s.t| && i < |s.t| && k < |s.t[dp].slots| && s.t[dp].slots[k].Live()
      && t'[dp].slots == s.t[dp].slots[k := FREE] && t'[dp].typ == s.t[dp].typ == T_DIR
      && t'[i].typ == s.t[i].typ != 0 && (s.t[i].typ != T_DIR ==> t'[i].nlink == s.t[i].nlink - 1)
  {
    UnlinkedEntry(s, dp, k);
    UnlinkHasLink(s, dp, k);
    InvDir(s, dp);
    hide Inv, Dots, Placed, Ref, Removed;
  }

  lemma OneSlotRemoved(t: seq<Node>, t1: seq<Node>, t': seq<Node>, i: nat, dp: nat, k: nat)
    requires dp < |t| && k < |t[dp].slots| && i < |t| == |t'| && Removed(t, t1, i, dp, k) && SameRefs(t1, t')
    requires forall d: nat :: d < |t| && d != i ==> t'[d] == if d == dp then t[d].(slots := Put(t[d].slots, k, FREE)) else t[d]
    ensures OneSlot(t, t', i, dp, k, FREE)
  {
    hide Ref, Put;
    forall d: nat | d < |t| && d != i
      ensures t'[d].slots == (if d == dp then Put(t[d].slots, k, FREE) else t[d].slots) && (LiveDir(t', d) <==> LiveDir(t, d))
    {
      assert t'[d] == if d == dp then t[d].(slots := Put(t[d].slots, k, FREE)) else t[d];
    }
    forall d: nat, q: nat, l: nat | d != i ensures Ref(t', d, q, l) <==> Ref(t, d, q, l) {
      assert Ref(t', d, q, l) <==> Ref(t1, d, q, l);
    }
  }

  lemma UnlinkFileKeeps(s: State, dp: nat, k: nat)
    requires Inv(s) && Enabled(s, Unlink(dp, k)) && Shaped(s, Unlink(dp, k))
    requires s.t[s.t[dp].slots[k].inum].typ != T_DIR
    ensures Inv(Apply(s, Unlink(dp, k)))
  {
    hide Cut, Distinct, MapOf, FrontKept, Ref, Dots, Placed, Refs, DirOk;
    var s', i := Apply(s, Unlink(dp, k)), s.t[dp].slots[k].inum;
    var t1 := SetSlot(s.t, dp, k, FREE);
    UnlinkedEntry(s, dp, k);
    LinksChanged(t1, i, -1);
    forall j: nat ensures |Refs(s'.t, j)| == |Refs(s.t, j)| - if j == i then 1 else 0 {
      CountRemoved(s.t, t1, i, dp, k, j);
      CountSame(t1, s'.t, j);
    }
    assert forall j: nat {:trigger Pending(s', j)} :: Pending(s', j) == Pending(s, j);
    CountsLower(s, s', i);
    TargetsFewer(s.t, t1, i, dp, k);
    TargetsSame(t1, s'.t);
    OneSlotRemoved(s.t, t1, s'.t, i, dp, k);
    OneSlotDirs(s, s'.t, i, dp, k, FREE);
  }

  /** A directory with a child has a link count of at least two. */
  lemma ParentLinks(s: State, dp: nat, i: nat, k: nat)
    requires Inv(s) && LiveDir(s.t, dp) && LiveDir(s.t, i) && i != ROOT && Hangs(s.t, i, dp, k)
    ensures s.t[dp].nlink >= 2 && Ref(s.t, dp, i, 1)
  {
    var p, l := HangsAt(s, dp);
    InvDir(s, i);
    DotRefs(s.t, i);
    DotRefs(s.t, dp);
    InvNode(s, dp, i, 1);
    var other := if dp == ROOT then (ROOT, 1) else (p, l);
    assert Refs(s.t, dp) >= {(i, 1), other};
    AtLeastTwo(Refs(s.t, dp), (i, 1), other);
  }

  lemma AtLeastTwo(a: set<(nat, nat)>, x: (nat, nat), y: (nat, nat))
    requires x in a && y in a && x != y
    ensures |a| >= 2
  {
    assert |a - {x}| == |a| - 1;
    assert y in a - {x};
  }

  /** When an empty directory loses its last link, its "..", and only that, no longer counts. */
  lemma DirGone(t: seq<Node>, i: nat, dp: nat)
    requires LiveDir(t, i) && Dots(t, i) && IsEmpty(t[i].slots) && t[i].slots[1].inum == dp && t[i].nlink == 1
    ensures Removed(t, AddLinks(t, i, -1), dp, i, 1)
  {
    DotRefs(t, i);
    hide Cut, Distinct;
    var t' := AddLinks(t, i, -1);
    forall j: nat, q: nat, l: nat ensures Ref(t', j, q, l) <==> Ref(t, j, q, l) && !(j == dp && q == i && l == 1) {
      if q == i {
        assert !Ref(t', j, q, l);
        assert Ref(t, j, i, l) ==> l < 2;
      }
    }
  }

  lemma UnlinkDirRefs(s: State, dp: nat, k: nat)
    requires Inv(s) && Enabled(s, Unlink(dp, k)) && s.t[s.t[dp].slots[k].inum].typ == T_DIR
    ensures var i, t1 := s.t[dp].slots[k].inum, SetSlot(s.t, dp, k, FREE); var t2 := AddLinks(t1, dp, -1);
      && Removed(s.t, t1, i, dp, k) && SameRefs(t1, t2) && Removed(t2, AddLinks(t2, i, -1), dp, i, 1)
      && i != ROOT && i != dp && LiveDir(t2, dp) && s.t[i].nlink == 1
  {
    hide Cut, Distinct, MapOf, Refs, Inv;
    var i, t1 := s.t[dp].slots[k].inum, SetSlot(s.t, dp, k, FREE);
    UnlinkedEntry(s, dp, k);
    EmptyDirRefs(s, dp, k, i);
    ParentLinks(s, dp, i, k);
    InvDir(s, i);
    LinksChanged(t1, dp, -1);
    DirGone(AddLinks(t1, dp, -1), i, dp);
  }

  lemma OneSlotRemovedDir(t: seq<Node>, t1: seq<Node>, t2: seq<Node>, t': seq<Node>, i: nat, dp: nat, k: nat)
    requires dp < |t| && k < |t[dp].slots| && i < |t| && dp != i && t1 == SetSlot(t, dp, k, FREE) && t2 == AddLinks(t1, dp, -1)
    requires t' == AddLinks(t2, i, -1) && LiveDir(t, dp) && LiveDir(t2, dp)
    requires Removed(t, t1, i, dp, k) && SameRefs(t1, t2) && Removed(t2, t', dp, i, 1)
    ensures OneSlot(t, t', i, dp, k, FREE)
  {
    hide Ref, Put;
    forall d: nat | d < |t| && d != i
      ensures t'[d].slots == (if d == dp then Put(t[d].slots, k, FREE) else t[d].slots) && (LiveDir(t', d) <==> LiveDir(t, d))
    {
      assert d != dp ==> t'[d] == t[d];
    }
    forall d: nat, q: nat, l: nat | d != i && l >= 2 ensures Ref(t', d, q, l) <==> Ref(t, d, q, l) {
      assert Ref(t', d, q, l) <==> Ref(t2, d, q, l);
      assert Ref(t2, d, q, l) <==> Ref(t1, d, q, l);
    }
  }

  lemma UnlinkDirKeeps(s: State, dp: nat, k: nat)
    requires Inv(s) && Enabled(s, Unlink(dp, k)) && Shaped(s, Unlink(dp, k))
    requires s.t[s.t[dp].slots[k].inum].typ == T_DIR
    ensures Inv(Apply(s, Unlink(dp, k)))
  {
    hide Cut, Distinct, MapOf, FrontKept, Ref, Dots, Placed, Refs, DirOk;
    var s', i := Apply(s, Unlink(dp, k)), s.t[dp].slots[k].inum;
    var t1 := SetSlot(s.t, dp, k, FREE);
    var t2 := AddLinks(t1, dp, -1);
    UnlinkedEntry(s, dp, k);
    UnlinkDirRefs(s, dp, k);
    forall j: nat ensures |Refs(s'.t, j)| == |Refs(s.t, j)| - (if j == i then 1 else 0) - (if j == dp then 1 else 0) {
      CountRemoved(s.t, t1, i, dp, k, j);
      CountSame(t1, t2, j);
      CountRemoved(t2, s'.t, dp, i, 1, j);
    }
    assert forall j: nat {:trigger Pending(s', j)} :: Pending(s', j) == Pending(s, j);
    CountsLower(s, s', i);
    TargetsFewer(s.t, t1, i, dp, k);
    TargetsSame(t1, t2);
    TargetsFewer(t2, s'.t, dp, i, 1);
    OneSlotRemovedDir(s.t, t1, t2, s'.t, i, dp, k);
    OneSlotDirs(s, s'.t, i, dp, k, FREE);
  }

  // ---------- Runs ----------

  lemma StepKeeps(s: State, step: Step)
    requires Inv(s) && Enabled(s, step)
    ensures Shaped(s, step) && Inv(Apply(s, step))
  {
    EnabledShaped(s, step);
    hide Inv, Enabled, Shaped, Apply;
    match step {
      case CreateFile(dp, name, typ, i, k) => CreateFileKeeps(s, dp, name, typ, i, k);
      case CreateDir(dp, name, i, k) => CreateDirKeeps(s, dp, name, i, k);
      case LinkCount(i) => LinkCountStep(s, i);
      case LinkEnter(i, dp, name, k) => LinkEnterKeeps(s, i, dp, name, k);
      case LinkUndo(i) => LinkUndoStep(s, i);
      case Unlink(dp, k) => UnlinkKeeps(s, dp, k);
      case Free(i) => FreeKeeps(s, i);
    }
  }

  lemma LinkCountStep(s: State, i: nat)
    requires Inv(s) && Enabled(s, LinkCount(i))
    ensures Inv(Apply(s, LinkCount(i)))
  {
    hide Inv;
    LinkCountKeeps(s, i, 1);
  }

  lemma PendingTyped(s: State, i: nat)
    requires Inv(s) && Pending(s, i) > 0
    ensures 0 < i < |s.t| && s.t[i].typ !in {0, T_DIR}
  {
    hide Counts, DirsOk, Targets;
  }

  lemma LinkUndoStep(s: State, i: nat)
    requires Inv(s) && Enabled(s, LinkUndo(i)) && Shaped(s, LinkUndo(i))
    ensures Inv(Apply(s, LinkUndo(i)))
  {
    hide Inv;
    PendingTyped(s, i);
    LinkCountKeeps(s, i, -1);
  }

  lemma UnlinkKeeps(s: State, dp: nat, k: nat)
    requires Inv(s) && Enabled(s, Unlink(dp, k)) && Shaped(s, Unlink(dp, k))
    ensures Inv(Apply(s, Unlink(dp, k)))
  {
    hide Inv, Apply;
    if s.t[s.t[dp].slots[k].inum].typ == T_DIR {
      UnlinkDirKeeps(s, dp, k);
    } else {
      UnlinkFileKeeps(s, dp, k);
    }
  }

  /** A run of steps of any number of processes. */
  ghost predicate Run(states: seq<State>, steps: seq<Step>) {
    && |states| == |steps| + 1
    && forall n :: 0 <= n < |steps| ==>
         Enabled(states[n], steps[n]) && Shaped(states[n], steps[n]) && states[n + 1] == Apply(states[n], steps[n])
  }

  /** The invariant holds throughout every run. */
  lemma {:induction false} RunKeeps(states: seq<State>, steps: seq<Step>, n: nat)
    requires Run(states, steps) && Inv(states[0]) && n < |states|
    ensures Inv(states[n])
  {
    if n > 0 {
      RunKeeps(states, steps, n - 1);
      StepKeeps(states[n - 1], steps[n - 1]);
    }
  }

  /** A failed link leaves the tree as it was. */
  lemma LinkCompensated(s: State, i: nat)
    requires i < |s.t|
    ensures var s1 := Apply(s, LinkCount(i));
      Enabled(s1, LinkUndo(i)) && Shaped(s1, LinkUndo(i))
      && Apply(s1, LinkUndo(i)).t == s.t && forall j: nat :: Pending(Apply(s1, LinkUndo(i)), j) == Pending(s, j)
  {
    hide FirstFree, MapOf, Put, SetSlot, LiveDir, CanEnter;
    var s1 := Apply(s, LinkCount(i));
    assert Pending(s1, i) == Pending(s, i) + 1;
  }

  // ---------- The first tree ----------

  /** The tree of a new disk: the root directory, and a regular file for each name. */
  ghost predicate Fresh(t: seq<Node>, names: seq<Name>) {
    && |t| >= 2 + |names| && t[ROOT].typ == T_DIR && t[ROOT].nlink == 1
    && (forall i :: 0 <= i < |t| && i != ROOT ==> t[i].typ == (if 2 <= i < 2 + |names| then 2 else 0)
                                                  && (t[i].typ != 0 ==> t[i].nlink == 1))
    && FreshRoot(t[ROOT].slots, names)
  }

  ghost predicate FreshRoot(slots: seq<Dirent>, names: seq<Name>) {
    && |slots| >= 2 + |names| && slots[0] == Entry(ROOT, Dot()) && slots[1] == Entry(ROOT, DotDot())
    && (forall j :: 0 <= j < |names| ==> slots[2 + j] == Entry(2 + j, names[j]))
    && (forall k :: 2 + |names| <= k < |slots| ==> !slots[k].Live())
  }

  /** Names that can stand side by side in the root directory. */
  predicate GoodNames(names: seq<Name>) {
    && (forall i, j :: 0 <= i < j < |names| ==> names[i] != names[j])
    && (forall j :: 0 <= j < |names| ==> names[j] != Dot() && names[j] != DotDot())
  }

  /** Name and target of each slot of the new root. */
  lemma FreshSlot(slots: seq<Dirent>, names: seq<Name>, k: nat)
    requires FreshRoot(slots, names) && k < |slots|
    ensures slots[k].Live() <==> k < 2 + |names|
    ensures k < 2 + |names| ==> slots[k].inum == if k < 2 then ROOT else k
    ensures k < 2 + |names| ==> slots[k].Name() == if k == 0 then Dot() else if k == 1 then DotDot() else names[k - 2]
  {
    EntryIs(ROOT, Dot());
    EntryIs(ROOT, DotDot());
    if 2 <= k < 2 + |names| {
      assert slots[2 + (k - 2)] == slots[k];
      EntryIs(k, names[k - 2]);
    }
  }

  lemma FreshRefs(t: seq<Node>, names: seq<Name>, i: nat, d: nat, k: nat)
    requires Fresh(t, names) && GoodNames(names)
    ensures Ref(t, i, d, k) <==> d == ROOT && ((i == ROOT && k == 1) || (i == k && 2 <= i < 2 + |names|))
  {
    hide Cut, Entry;
    if LiveDir(t, d) && k < |t[d].slots| {
      assert d == ROOT;
      FreshSlot(t[d].slots, names, k);
      assert Dot() != DotDot();
    }
  }

  lemma FreshDots(t: seq<Node>, names: seq<Name>)
    requires Fresh(t, names) && GoodNames(names)
    ensures Dots(t, ROOT)
  {
    hide Cut, Entry;
    var slots := t[ROOT].slots;
    FreshSlot(slots, names, 0);
    FreshSlot(slots, names, 1);
    forall i: nat, j: nat | i < j < |slots| && slots[i].Live() && slots[j].Live() ensures slots[i].Name() != slots[j].Name() {
      FreshSlot(slots, names, i);
      FreshSlot(slots, names, j);
      assert Dot() != DotDot();
    }
  }

  lemma FreshInv(t: seq<Node>, names: seq<Name>)
    requires Fresh(t, names) && GoodNames(names)
    ensures Inv(State(t, map[]))
  {
    hide Cut, Entry, Ref, Dots, FreshRoot, Distinct;
    FreshDots(t, names);
    forall i: nat, d: nat, k: nat
      ensures Ref(t, i, d, k) <==> d == ROOT && ((i == ROOT && k == 1) || (i == k && 2 <= i < 2 + |names|))
    {
      FreshRefs(t, names, i, d, k);
    }
    forall i: nat | i < |t| && t[i].typ != 0 ensures t[i].nlink == |Refs(t, i)| {
      assert Refs(t, i) == {(ROOT, if i == ROOT then 1 else i)};
    }
    FreshDotDot(t, names);
    assert DirOk(t, ROOT);
  }

  lemma FreshDotDot(t: seq<Node>, names: seq<Name>)
    requires Fresh(t, names)
    ensures |t[ROOT].slots| >= 2 && t[ROOT].slots[1].inum == ROOT
  {
  }

  /** A file system of one file. */
  lemma OneFile() returns (t: seq<Node>)
    ensures |t| == 3 && t[2] == Node(2, 1, []) && t[1].typ == T_DIR && t[1].nlink == 1 && |t[1].slots| == 3
    ensures t[1].slots[2] == Entry(2, [97]) && Inv(State(t, map[]))
  {
    hide Entry, Cut, Inv;
    t := [Node(0, 0, []), Node(T_DIR, 1, [Entry(1, Dot()), Entry(1, DotDot()), Entry(2, [97])]), Node(2, 1, [])];
    FreshInv(t, [[97]]);
  }

  /** A file that is unlinked while it is open: in use, with link count 0, and named by nobody. */
  lemma UnlinkedOpen() returns (s: State)
    ensures Inv(s) && |s.t| == 3 && s.t[2].typ == 2 && s.t[2].nlink == 0 && Refs(s.t, 2) == {}
  {
    hide Inv, Entry, Cut, Refs;
    var t := OneFile();
    EntryIs(2, [97]);
    var s0 := State(t, map[]);
    assert Enabled(s0, Unlink(1, 2));
    StepKeeps(s0, Unlink(1, 2));
    UnlinkEffect(s0, 1, 2);
    s := Apply(s0, Unlink(1, 2));
    CountsAll(s, 2);
  }

  lemma CountsAll(s: State, i: nat)
    requires Inv(s) && i < |s.t| && s.t[i].typ != 0 && s.t[i].nlink == 0
    ensures Refs(s.t, i) == {}
  {
    hide DirsOk, Targets, PendingOk, Refs;
  }

  /** Free slots behind the last make no difference. */
  lemma Stretched(s: State, d: nat, slots: seq<Dirent>)
    requires Inv(s) && LiveDir(s.t, d) && s.t[d].slots <= slots
    requires forall k :: |s.t[d].slots| <= k < |slots| ==> !slots[k].Live()
    ensures Inv(s.(t := s.t[d := s.t[d].(slots := slots)]))
  {
    var t' := s.t[d := s.t[d].(slots := slots)];
    StretchedRefs(s.t, d, slots);
    StretchedCounts(s, d, slots);
    forall q: nat | LiveDir(t', q) ensures DirOk(t', q) {
      StretchedDir(s, d, slots, q);
    }
    StretchedRest(s, d, slots);
    hide Counts, Targets, PendingOk, DirOk;
    assert LiveDir(t', ROOT);
  }

  lemma StretchedCounts(s: State, d: nat, slots: seq<Dirent>)
    requires Counts(s) && d < |s.t| && SameRefs(s.t, s.t[d := s.t[d].(slots := slots)])
    ensures Counts(s.(t := s.t[d := s.t[d].(slots := slots)]))
  {
    var t' := s.t[d := s.t[d].(slots := slots)];
    hide SameRefs;
    forall i: nat | i < |t'| && t'[i].typ != 0 ensures t'[i].nlink == |Refs(t', i)| + Pending(s, i) {
      CountSame(s.t, t', i);
    }
  }

  lemma StretchedRest(s: State, d: nat, slots: seq<Dirent>)
    requires Targets(s.t) && PendingOk(s) && d < |s.t| && SameRefs(s.t, s.t[d := s.t[d].(slots := slots)])
    ensures Targets(s.t[d := s.t[d].(slots := slots)]) && PendingOk(s.(t := s.t[d := s.t[d].(slots := slots)]))
  {
    hide Ref;
    var s' := s.(t := s.t[d := s.t[d].(slots := slots)]);
    forall i: nat | Pending(s', i) > 0 ensures 0 < i < |s'.t| && s'.t[i].typ !in {0, T_DIR} {
      assert Pending(s, i) > 0;
    }
  }

  lemma StretchedDir(s: State, d: nat, slots: seq<Dirent>, q: nat)
    requires Inv(s) && LiveDir(s.t, d) && s.t[d].slots <= slots
    requires forall k :: |s.t[d].slots| <= k < |slots| ==> !slots[k].Live()
    requires SameRefs(s.t, s.t[d := s.t[d].(slots := slots)]) && LiveDir(s.t[d := s.t[d].(slots := slots)], q)
    ensures DirOk(s.t[d := s.t[d].(slots := slots)], q)
  {
    InvDir(s, q);
    hide Inv, Ref, Dots, Placed, DirOk;
    StretchedFront(s.t, d, slots, q);
    DirKept(s, s.t[d := s.t[d].(slots := slots)], q);
  }

  lemma StretchedRefs(t: seq<Node>, d: nat, slots: seq<Dirent>)
    requires d < |t| && t[d].slots <= slots && forall k :: |t[d].slots| <= k < |slots| ==> !slots[k].Live()
    ensures SameRefs(t, t[d := t[d].(slots := slots)])
  {
    var t' := t[d := t[d].(slots := slots)];
    forall j: nat, q: nat, l: nat ensures Ref(t', j, q, l) <==> Ref(t, j, q, l) {
      if q == d && l < |t[d].slots| {
        assert slots[l] == t[d].slots[l];
      }
    }
  }

  lemma StretchedFront(t: seq<Node>, d: nat, slots: seq<Dirent>, q: nat)
    requires d < |t| && t[d].slots <= slots && forall k :: |t[d].slots| <= k < |slots| ==> !slots[k].Live()
    requires q < |t| && Dots(t, q)
    ensures FrontKept(t, t[d := t[d].(slots := slots)], q)
  {
    assert forall k :: 0 <= k < |t[d].slots| ==> slots[k] == t[d].slots[k];
  }

  // ---------- Trees with a directory in the root ----------

  /** n inodes, of which 1 is the root and i a directory "a" in it. */
  function OneDir(n: nat, i: nat): (t: seq<Node>)
    ensures |t| == n
  {
    seq(n, j => if j == ROOT then Node(T_DIR, 2, [Entry(ROOT, Dot()), Entry(ROOT, DotDot()), Entry(i, [97])])
                else if j == i then Node(T_DIR, 1, [Entry(i, Dot()), Entry(ROOT, DotDot())]) else Node(0, 0, []))
  }

  function NoDir(n: nat): (t: seq<Node>)
    ensures |t| == n
  {
    seq(n, j => if j == ROOT then Node(T_DIR, 1, [Entry(ROOT, Dot()), Entry(ROOT, DotDot())]) else Node(0, 0, []))
  }

  lemma FrontMap(i: nat, p: nat, name: Name)
    requires i > 0 && p > 0 && name != Dot() && name != DotDot()
    ensures var slots := [Entry(i, Dot()), Entry(p, DotDot())]; name !in MapOf(slots) && FirstFree(slots, 2)
  {
    EntryIs(i, Dot());
    EntryIs(p, DotDot());
    hide Entry, Cut;
    var slots := [Entry(i, Dot()), Entry(p, DotDot())];
    if name in MapOf(slots) {
      var k := MapHas(slots, name);
    }
  }

  lemma NoDirInv(n: nat)
    requires n >= 2
    ensures Inv(State(NoDir(n), map[]))
  {
    hide Entry, Inv;
    FreshInv(NoDir(n), []);
  }

  lemma OneDirInv(n: nat, i: nat)
    requires 2 <= i < n
    ensures Inv(State(OneDir(n, i), map[]))
  {
    NoDirInv(n);
    FrontMap(ROOT, ROOT, [97]);
    DirCreated(n, i);
    hide *;
    StepKeeps(State(NoDir(n), map[]), CreateDir(ROOT, [97], i, 2));
  }

  lemma DirCreated(n: nat, i: nat)
    requires 2 <= i < n && [97] !in MapOf([Entry(ROOT, Dot()), Entry(ROOT, DotDot())])
    requires FirstFree([Entry(ROOT, Dot()), Entry(ROOT, DotDot())], 2)
    ensures var s, step := State(NoDir(n), map[]), CreateDir(ROOT, [97], i, 2);
      Enabled(s, step) && Shaped(s, step) && Apply(s, step) == State(OneDir(n, i), map[])
  {
    hide Entry, MapOf, FirstFree;
    var t := Apply(State(NoDir(n), map[]), CreateDir(ROOT, [97], i, 2)).t;
    assert t[ROOT].slots == [Entry(ROOT, Dot()), Entry(ROOT, DotDot()), Entry(i, [97])];
    assert forall j :: 0 <= j < n ==> t[j] == OneDir(n, i)[j];
  }

  // ---------- A directory that outlives its parent ----------

  function Kid(i: nat, p: nat, nlink: int, rest: seq<Dirent>): Node {
    Node(T_DIR, nlink, [Entry(i, Dot()), Entry(p, DotDot())] + rest)
  }

  const NONE := Node(0, 0, [])

  lemma KidBare(i: nat, p: nat, nlink: int)
    ensures Kid(i, p, nlink, []) == Node(T_DIR, nlink, [Entry(i, Dot()), Entry(p, DotDot())])
  {
  }

  lemma KidPut(i: nat, p: nat, nlink: int, rest: seq<Dirent>, e: Dirent)
    requires |rest| <= 1
    ensures Put(Kid(i, p, nlink, rest).slots, 2, e) == Kid(i, p, nlink, [e]).slots
  {
  }

  /** mkdir a, mkdir a/b, cd a/b, rmdir a/b, rmdir a, of inodes 2 and 3; then inode 2 is freed, while
      3 is still the current directory of the process. */
  function OrphanTree(n: nat): seq<Node> {
    var a, b := [Entry(2, [97])], [Entry(3, [98])];
    if n == 0 then [NONE, Kid(1, 1, 1, []), NONE, NONE]
    else if n == 1 then [NONE, Kid(1, 1, 2, a), Kid(2, 1, 1, []), NONE]
    else if n == 2 then [NONE, Kid(1, 1, 2, a), Kid(2, 1, 2, b), Kid(3, 2, 1, [])]
    else if n == 3 then [NONE, Kid(1, 1, 2, a), Kid(2, 1, 1, [FREE]), Kid(3, 2, 0, [])]
    else if n == 4 then [NONE, Kid(1, 1, 1, [FREE]), Kid(2, 1, 0, [FREE]), Kid(3, 2, 0, [])]
    else [NONE, Kid(1, 1, 1, [FREE]), NONE, Kid(3, 2, 0, [])]
  }

  function OrphanState(n: nat): State { State(OrphanTree(n), map[]) }

  function OrphanStep(n: nat): Step {
    if n == 0 then CreateDir(1, [97], 2, 2) else if n == 1 then CreateDir(2, [98], 3, 2)
    else if n == 2 then Unlink(2, 2) else if n == 3 then Unlink(1, 2) else Free(2)
  }

  /** The step is one that can be done, and leads to the next state. */
  ghost predicate Does(s: State, step: Step, s': State) {
    Enabled(s, step) && Shaped(s, step) && s' == Apply(s, step)
  }

  lemma OrphanRun()
    ensures Run(seq(6, n requires 0 <= n => OrphanState(n)), seq(5, n requires 0 <= n => OrphanStep(n)))
    ensures forall n: nat :: n <= 5 ==> Inv(OrphanState(n))
  {
    var states, steps := seq(6, n requires 0 <= n => OrphanState(n)), seq(5, n requires 0 <= n => OrphanStep(n));
    OrphanStarts();
    forall n: nat | n < 5 ensures Does(OrphanState(n), OrphanStep(n), OrphanState(n + 1)) {
      OrphanDoes(n);
    }
    hide *;
    RunOf(states, steps);
    forall n: nat | n <= 5 ensures Inv(OrphanState(n)) {
      RunKeeps(states, steps, n);
      assert states[n] == OrphanState(n);
    }
  }

  lemma RunOf(states: seq<State>, steps: seq<Step>)
    requires |states| == |steps| + 1 && forall n :: 0 <= n < |steps| ==> Does(states[n], steps[n], states[n + 1])
    ensures Run(states, steps)
  {
    hide Enabled, Shaped, Apply;
    forall n | 0 <= n < |steps|
      ensures Enabled(states[n], steps[n]) && Shaped(states[n], steps[n]) && states[n + 1] == Apply(states[n], steps[n])
    {
      assert Does(states[n], steps[n], states[n + 1]);
    }
  }

  lemma OrphanStarts()
    ensures Inv(OrphanState(0))
  {
    NoDirInv(4);
    KidBare(1, 1, 1);
    hide Inv, Entry;
    assert OrphanTree(0) == NoDir(4);
  }

  lemma OrphanDoes(n: nat)
    requires n < 5
    ensures Does(OrphanState(n), OrphanStep(n), OrphanState(n + 1))
  {
    hide Does;
    if n == 0 {
      MakesA();
    } else if n == 1 {
      MakesB();
    } else if n == 2 {
      RemovesB();
    } else if n == 3 {
      RemovesA();
    } else {
      FreesA();
    }
  }

  lemma MakesA()
    ensures Does(OrphanState(0), OrphanStep(0), OrphanState(1))
  {
    FrontMap(1, 1, [97]);
    KidBare(1, 1, 1);
    KidBare(2, 1, 1);
    KidPut(1, 1, 2, [], Entry(2, [97]));
    hide Entry, MapOf, FirstFree;
    assert Apply(OrphanState(0), OrphanStep(0)).t == OrphanTree(1);
  }

  lemma MakesB()
    ensures Does(OrphanState(1), OrphanStep(1), OrphanState(2))
  {
    FrontMap(2, 1, [98]);
    KidBare(2, 1, 1);
    KidBare(3, 2, 1);
    KidPut(2, 1, 2, [], Entry(3, [98]));
    hide Entry, MapOf, FirstFree;
    assert Apply(OrphanState(1), OrphanStep(1)).t == OrphanTree(2);
  }

  lemma RemovesB()
    ensures Does(OrphanState(2), OrphanStep(2), OrphanState(3))
  {
    EntryIs(3, [98]);
    KidPut(2, 1, 1, [Entry(3, [98])], FREE);
    hide Entry;
    assert Apply(OrphanState(2), OrphanStep(2)).t == OrphanTree(3);
  }

  lemma RemovesA()
    ensures Does(OrphanState(3), OrphanStep(3), OrphanState(4))
  {
    EntryIs(2, [97]);
    KidPut(1, 1, 1, [Entry(2, [97])], FREE);
    hide Entry;
    assert Apply(OrphanState(3), OrphanStep(3)).t == OrphanTree(4);
  }

  lemma FreesA()
    ensures Does(OrphanState(4), OrphanStep(4), OrphanState(5))
  {
    hide Entry;
    assert Apply(OrphanState(4), OrphanStep(4)).t == OrphanTree(5);
  }
}
