/** Path lookup (namex, namei and nameiparent of fs.c). */
module Paths {
  import opened ByteView
  import opened Names
  import opened FsImage
  import opened FileSys
  import opened Directory

  const ROOTINO := 1

  /** Every inode in use is a file without holes, and every directory a sequence of whole entries. */
  ghost predicate Files(s: FsState, g: Geometry) {
    Conserved(s, g, {}, {}) && forall i: nat {:trigger FileNode(s, i)} :: FileNode(s, i)
  }

  ghost predicate FileNode(s: FsState, i: nat) {
    i < |s.inodes| && s.inodes[i].typ != 0 ==> FileOk(s, i) && (s.inodes[i].typ == T_DIR ==> s.inodes[i].size % ENTRY == 0)
  }

  /** An inode with a name; a directory without one has been removed and may hold stale entries. */
  predicate HasName(s: FsState, i: nat) { i < |s.inodes| && s.inodes[i].typ != 0 && s.inodes[i].nlink > 0 }

  /** The entries of directories in the tree lead to inodes in the tree. */
  ghost predicate NamesOk(s: FsState) {
    forall i: nat {:trigger HasName(s, i)} :: HasName(s, i) && s.inodes[i].typ == T_DIR ==> Entries(s, Dir(s, i))
  }

  ghost predicate Entries(s: FsState, slots: seq<Dirent>) {
    forall k :: 0 <= k < |slots| && slots[k].Live() ==> HasName(s, slots[k].inum)
  }

  ghost predicate TreeOk(s: FsState, g: Geometry) { Files(s, g) && NamesOk(s) }

  datatype Found = NotThere | At(inum: nat)

  /** Where a name leads from inode i. */
  ghost function Step(s: FsState, i: nat, n: Name): Found
    requires i < |s.inodes|
  {
    if s.inodes[i].typ == T_DIR && n in MapOf(Dir(s, i)) then At(MapOf(Dir(s, i))[n]) else NotThere
  }

  lemma StepNamed(s: FsState, g: Geometry, i: nat, n: Name)
    requires TreeOk(s, g) && HasName(s, i)
    ensures var f := Step(s, i, n); f.At? ==> HasName(s, f.inum)
  {
    if Step(s, i, n).At? {
      var k := MapHas(Dir(s, i), n);
      MapAt(Dir(s, i), n, k);
    }
  }

  /** Where a sequence of path elements leads from inode i. */
  ghost function Walk(s: FsState, i: nat, es: seq<seq<byte>>): Found
    decreases |es|
  {
    if es == [] then At(i)
    else if i >= |s.inodes| then NotThere
    else
      var f := Step(s, i, Cut(es[0], DIRSIZ));
      if f.At? then Walk(s, f.inum, es[1..]) else NotThere
  }

  /** Following a path in two parts. */
  lemma {:induction false} WalkInParts(s: FsState, i: nat, a: seq<seq<byte>>, b: seq<seq<byte>>)
    ensures Walk(s, i, a + b) == var f := Walk(s, i, a); if f.At? then Walk(s, f.inum, b) else NotThere
    decreases |a|
  {
    if a == [] {
      assert a + b == b;
    } else if i < |s.inodes| {
      assert (a + b)[1..] == a[1..] + b;
      var f := Step(s, i, Cut(a[0], DIRSIZ));
      if f.At? {
        WalkInParts(s, f.inum, a[1..], b);
      }
    }
  }

  datatype Resolved = Nowhere | To(inum: nat, name: Name)

  /** The directory that holds, or would hold, the last element of a path, and that element. */
  ghost function Parent(s: FsState, i: nat, es: seq<seq<byte>>): Resolved {
    if es == [] then Nowhere else
    var f, last := Walk(s, i, es[..|es| - 1]), Cut(es[|es| - 1], DIRSIZ);
    if f.At? && f.inum < |s.inodes| && s.inodes[f.inum].typ == T_DIR then To(f.inum, last) else Nowhere
  }

  lemma LockedReady(fs: FileSys, ip: Inode)
    requires Files(fs.S(), fs.g) && ip.inum < |fs.inodes| && ip.d == fs.inodes[ip.inum] && ip.d.typ == T_DIR
    ensures Ready(fs, ip) && ip.d.size % ENTRY == 0
  {
    assert FileNode(fs.S(), ip.inum);
  }

  /** ilock and dirlookup of a directory. */
  method FindIn(fs: FileSys, i: nat, name: Name) returns (r: Lookup)
    requires Files(fs.S(), fs.g) && i < |fs.inodes| && fs.inodes[i].typ == T_DIR
    modifies fs`bitmap, fs`blocks, fs`logged
    ensures fs.S() == old(fs.S()) && fs.logged == old(fs.logged) && Finds(Dir(old(fs.S()), i), name, r)
  {
    hide Files, Directory.Ready, Finds, Same, Dir, Cut, Padded;
    var ip := new Inode(i, fs.inodes[i]);
    LockedReady(fs, ip);
    PaddedName(name, DIRSIZ);
    ghost var s, d, l := fs.S(), ip.d, fs.logged;
    var found := Dirlookup(fs, ip, Padded(name, DIRSIZ));
    SameGives(fs, ip, s, d, l);
    return found.value;
  }

  lemma StepFound(s: FsState, i: nat, n: Name, r: Lookup)
    requires i < |s.inodes| && s.inodes[i].typ == T_DIR && Finds(Dir(s, i), n, r)
    ensures Step(s, i, n) == if r.Found? then At(r.inum) else NotThere
  {
  }

  /** A free inode, or none: ilock panics. An entry of a removed directory can lead there. */
  predicate Unused(s: FsState, i: nat) { i >= |s.inodes| || s.inodes[i].typ == 0 }

  /** Following es from inode i locks an unused inode; the last one, and with parent set the last
      element, are not looked into. */
  ghost predicate Lost(s: FsState, i: nat, es: seq<seq<byte>>, parent: bool)
    decreases |es|
  {
    es != [] &&
    (Unused(s, i) || (!(parent && |es| == 1) &&
      var f := Step(s, i, Cut(es[0], DIRSIZ)); f.At? && Lost(s, f.inum, es[1..], parent)))
  }

  /** From an inode that has a name nothing is lost, and what is found has a name. */
  lemma {:induction false} NamedWay(s: FsState, g: Geometry, i: nat, es: seq<seq<byte>>, parent: bool)
    requires TreeOk(s, g) && HasName(s, i)
    ensures !Lost(s, i, es, parent) && var f := Walk(s, i, es); f.At? ==> HasName(s, f.inum)
    decreases |es|
  {
    hide TreeOk;
    if es != [] {
      var n := Cut(es[0], DIRSIZ);
      StepNamed(s, g, i, n);
      var f := Step(s, i, n);
      if f.At? {
        NamedWay(s, g, f.inum, es[1..], parent);
      }
    }
  }

  /** Absolute paths start at the root, others at the current directory. */
  function Start(path: Path, cwd: nat): nat { if path != [] && path[0] == SLASH then ROOTINO else cwd }

  /** So for an absolute path it does not matter who asks. */
  lemma StartIs(path: Path, cwd: nat)
    ensures path != [] && path[0] == 47 ==> Start(path, cwd) == 1
    ensures path == [] || path[0] != 47 ==> Start(path, cwd) == cwd
  {
  }

  /** What namei and nameiparent report for the path elements es followed from inode i. */
  ghost predicate Resolves(s: FsState, i: nat, es: seq<seq<byte>>, parent: bool, r: Resolved) {
    if parent then r == Parent(s, i, es)
    else match Walk(s, i, es)
      case NotThere => r == Nowhere
      case At(j) => r.To? && r.inum == j
  }

  /** Following es from i and left from j comes to the same. */
  ghost predicate SamePath(s: FsState, i: nat, es: seq<seq<byte>>, j: nat, left: seq<seq<byte>>, parent: bool) {
    if parent then Parent(s, i, es) == Parent(s, j, left) else Walk(s, i, es) == Walk(s, j, left)
  }

  lemma SamePathSelf(s: FsState, i: nat, es: seq<seq<byte>>, parent: bool)
    ensures SamePath(s, i, es, i, es, parent)
  {
  }

  /** The loop of namex ends at inode j with no element left. */
  lemma PathEnd(s: FsState, i: nat, es: seq<seq<byte>>, j: nat, parent: bool, name: Name)
    requires SamePath(s, i, es, j, [], parent)
    ensures Resolves(s, i, es, parent, if parent then Nowhere else To(j, name))
  {
  }

  /** Where the path leads once the next element has been looked up. */
  ghost predicate GoesOn(s: FsState, i: nat, es: seq<seq<byte>>, f: Found, left: seq<seq<byte>>, parent: bool) {
    match f
    case NotThere => Resolves(s, i, es, parent, Nowhere)
    case At(k) => SamePath(s, i, es, k, left, parent)
  }

  lemma NoStep(s: FsState, i: nat, n: Name)
    requires i < |s.inodes|
    ensures s.inodes[i].typ != T_DIR ==> Step(s, i, n) == NotThere
  {
  }

  /** The cases of the loop of namex at inode j with more elements left. */
  lemma PathStep(s: FsState, i: nat, es: seq<seq<byte>>, j: nat, left: seq<seq<byte>>, parent: bool)
    requires SamePath(s, i, es, j, left, parent) && !Unused(s, j) && left != []
    ensures s.inodes[j].typ != T_DIR ==> Resolves(s, i, es, parent, Nowhere) && !Lost(s, j, left, parent)
    ensures s.inodes[j].typ == T_DIR && parent && |left| == 1 ==>
              Resolves(s, i, es, parent, To(j, Cut(left[0], DIRSIZ))) && !Lost(s, j, left, parent)
    ensures !(parent && |left| == 1) ==>
      var f := Step(s, j, Cut(left[0], DIRSIZ));
      && GoesOn(s, i, es, f, left[1..], parent)
      && (Lost(s, j, left, parent) <==> f.At? && Lost(s, f.inum, left[1..], parent))
  {
    NoStep(s, j, Cut(left[0], DIRSIZ));
    hide Step, Cut;
    if |left| > 1 {
      var init := left[..|left| - 1];
      assert init[1..] == left[1..][..|left| - 2] && init[0] == left[0];
    }
  }

  /** Look up a path from any current directory, be it removed; with parent set, find its last
      directory and element instead. */
  method Namex(fs: FileSys, path: Path, cwd: nat, parent: bool) returns (r: Result<Resolved>)
    requires Files(fs.S(), fs.g)
    modifies fs`bitmap, fs`blocks, fs`logged
    ensures fs.S() == old(fs.S()) && fs.logged == old(fs.logged)
    ensures r.Panic? <==> Lost(old(fs.S()), Start(path, cwd), Elements(path), parent)
    ensures r.Done? ==> Resolves(old(fs.S()), Start(path, cwd), Elements(path), parent, r.value)
    ensures path != [] && path[0] == 47 ==>     // '/': from inode 1
      && (r.Panic? <==> Lost(old(fs.S()), 1, Elements(path), parent))
      && (r.Done? ==> Resolves(old(fs.S()), 1, Elements(path), parent, r.value))
    ensures path == [] || path[0] != 47 ==>
      && (r.Panic? <==> Lost(old(fs.S()), cwd, Elements(path), parent))
      && (r.Done? ==> Resolves(old(fs.S()), cwd, Elements(path), parent, r.value))
  {
    ghost var s := fs.S();
    StartIs(path, cwd);
    hide Resolves, SamePath, Step, Files, Elements, Cut, Start, Lost, Finds, Dir;
    var inum: nat := Start(path, cwd);
    ghost var start, es := inum, Elements(path);
    var rest, name: Name := path, [];
    SamePathSelf(s, start, es, parent);
    while true
      invariant fs.S() == s && fs.logged == old(fs.logged)
      invariant SamePath(s, start, es, inum, Elements(rest), parent)
      invariant Lost(s, start, es, parent) <==> Lost(s, inum, Elements(rest), parent)
      decreases |rest|
    {
      LostHere(s, inum, Elements(rest), parent);
      var e := Skipelem(rest);
      if e.NoElement? {
        PathEnd(s, start, es, inum, parent, name);
        return Done(if parent then Nowhere else To(inum, name));
      }
      if inum >= |fs.inodes| || fs.inodes[inum].typ == 0 {
        return Panic;
      }
      PathStep(s, start, es, inum, Elements(rest), parent);
      name, rest := e.name, e.rest;
      if fs.inodes[inum].typ != T_DIR {
        return Done(Nowhere);
      }
      if parent && rest == [] {
        return Done(To(inum, name));
      }
      var next := FindIn(fs, inum, name);
      StepFound(s, inum, name, next);
      if next.Missing? {
        return Done(Nowhere);
      }
      inum := next.inum;
    }
  }

  lemma LostHere(s: FsState, i: nat, es: seq<seq<byte>>, parent: bool)
    ensures Lost(s, i, es, parent) ==> es != []
    ensures es != [] && Unused(s, i) ==> Lost(s, i, es, parent)
  {
  }

  /** The path can be followed, and what it leads to has a name. From a directory that has a name
      every path does; from one that has been removed, "." and ".." may not. */
  ghost predicate Reaches(s: FsState, i: nat, es: seq<seq<byte>>, parent: bool) {
    && !Lost(s, i, es, parent)
    && if parent then var p := Parent(s, i, es); p.To? ==> HasName(s, p.inum)
       else var f := Walk(s, i, es); f.At? ==> HasName(s, f.inum)
  }

  lemma NamedReaches(s: FsState, g: Geometry, i: nat, es: seq<seq<byte>>, parent: bool)
    requires TreeOk(s, g) && HasName(s, i)
    ensures Reaches(s, i, es, parent)
  {
    hide TreeOk, Lost, Walk, Cut;
    NamedWay(s, g, i, es, parent);
    if parent && es != [] {
      NamedWay(s, g, i, es[..|es| - 1], parent);
    }
  }

  /** namei and nameiparent, of a path that leads to something with a name. */
  method Namei(fs: FileSys, path: Path, cwd: nat, parent: bool) returns (r: Resolved)
    requires Files(fs.S(), fs.g) && Reaches(fs.S(), Start(path, cwd), Elements(path), parent)
    modifies fs`bitmap, fs`blocks, fs`logged
    ensures fs.S() == old(fs.S()) && fs.logged == old(fs.logged)
    ensures Resolves(old(fs.S()), Start(path, cwd), Elements(path), parent, r)
    ensures Resolves(old(fs.S()), if path != [] && path[0] == 47 then 1 else cwd, Elements(path), parent, r)
    ensures r.To? ==> HasName(old(fs.S()), r.inum) && (parent ==> old(fs.S()).inodes[r.inum].typ == T_DIR)
  {
    hide Files, Walk, Elements, Lost, Cut, Dir, Start;
    StartIs(path, cwd);
    var found := Namex(fs, path, cwd, parent);
    return found.value;
  }
}
