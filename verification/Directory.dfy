/** Directories (fs.c): a file of 16-byte entries is a finite map from names to inode numbers. */
module Directory {
  import opened ByteView
  import opened Names
  import opened FsImage
  import opened FileSys

  const T_DIR := 1
  const ENTRY := 16      // sizeof(struct dirent)

  type Name = n: seq<byte> | |n| <= DIRSIZ && 0 !in n witness []
  type RawName = n: seq<byte> | |n| == DIRSIZ witness Zeros(DIRSIZ)

  /** struct dirent: inum 0 marks a free slot; a name shorter than 14 bytes ends in a NUL. */
  datatype Dirent = Dirent(inum: nat, raw: RawName) {
    predicate Live() { inum != 0 }
    function Name(): Name { Cut(raw, DIRSIZ) }
  }

  const FREE := Dirent(0, Zeros(DIRSIZ))

  // ---------- The map that a sequence of slots stands for ----------

  /** Slot k is where dirlookup finds name n. */
  ghost predicate FirstAt(slots: seq<Dirent>, n: Name, k: nat) {
    && k < |slots| && slots[k].Live() && slots[k].Name() == n
    && forall j :: 0 <= j < k ==> !(slots[j].Live() && slots[j].Name() == n)
  }

  ghost function MapOf(slots: seq<Dirent>): map<Name, nat> {
    if slots == [] then map[] else
    var m, d := MapOf(slots[..|slots| - 1]), slots[|slots| - 1];
    if d.Live() && d.Name() !in m then m[d.Name() := d.inum] else m
  }

  lemma {:induction false} MapAt(slots: seq<Dirent>, n: Name, k: nat)
    requires FirstAt(slots, n, k)
    ensures n in MapOf(slots) && MapOf(slots)[n] == slots[k].inum
    decreases |slots|, 0, 0
  {
    var init := slots[..|slots| - 1];
    if k < |init| {
      MapAt(init, n, k);
    } else if n in MapOf(init) {
      var j := MapHas(init, n);
    }
  }

  lemma {:induction false} MapHas(slots: seq<Dirent>, n: Name) returns (k: nat)
    requires n in MapOf(slots)
    ensures FirstAt(slots, n, k)
    decreases |slots|, 0, 0
  {
    var init := slots[..|slots| - 1];
    if n in MapOf(init) {
      k := MapHas(init, n);
    } else {
      k := |slots| - 1;
      forall j | 0 <= j < k ensures !(slots[j].Live() && slots[j].Name() == n) {
        if slots[j].Live() && slots[j].Name() == n {
          SomeFirst(init, n, j);
        }
      }
    }
  }

  /** A live name is in the map. */
  lemma {:induction false} SomeFirst(slots: seq<Dirent>, n: Name, j: nat)
    requires j < |slots| && slots[j].Live() && slots[j].Name() == n
    ensures n in MapOf(slots)
    decreases |slots|, 1, j
  {
    if i :| 0 <= i < j && slots[i].Live() && slots[i].Name() == n {
      SomeFirst(slots, n, i);
    } else {
      MapAt(slots, n, j);
    }
  }

  /** No name is live twice. */
  ghost predicate Distinct(slots: seq<Dirent>) {
    forall i, j :: 0 <= i < j < |slots| && slots[i].Live() && slots[j].Live() ==> slots[i].Name() != slots[j].Name()
  }

  /** Write slot k, appending if need be. */
  function Put(slots: seq<Dirent>, k: nat, d: Dirent): seq<Dirent>
    requires k <= |slots|
  {
    if k < |slots| then slots[k := d] else slots + [d]
  }

  predicate Named(d: Dirent, n: Name) { d.Live() && d.Name() == n }

  /** A write to slot k leaves alone every name that was not and is not in that slot. */
  lemma OtherName(slots: seq<Dirent>, k: nat, d: Dirent, n: Name)
    requires k <= |slots| && !Named(d, n) && (k < |slots| ==> !Named(slots[k], n))
    ensures var m, m' := MapOf(slots), MapOf(Put(slots, k, d));
            (n in m' <==> n in m) && (n in m ==> m'[n] == m[n])
  {
    hide MapOf;
    var slots' := Put(slots, k, d);
    if n in MapOf(slots) {
      var j := MapHas(slots, n);
      MapAt(slots', n, j);
      MapAt(slots, n, j);
    } else if n in MapOf(slots') {
      var j := MapHas(slots', n);
      SomeFirst(slots, n, j);
    }
  }

  /** Filling a free slot with a new name adds that name to the map and changes no other. */
  lemma PutMap(slots: seq<Dirent>, k: nat, d: Dirent)
    requires k <= |slots| && (k < |slots| ==> !slots[k].Live()) && d.Live() && d.Name() !in MapOf(slots)
    ensures MapOf(Put(slots, k, d)) == MapOf(slots)[d.Name() := d.inum]
  {
    hide MapOf;
    var slots', m := Put(slots, k, d), MapOf(slots)[d.Name() := d.inum];
    forall j | 0 <= j < |slots| ensures !Named(slots[j], d.Name()) {
      if Named(slots[j], d.Name()) {
        SomeFirst(slots, d.Name(), j);
      }
    }
    assert FirstAt(slots', d.Name(), k);
    MapAt(slots', d.Name(), k);
    forall n: Name | n != d.Name() ensures n in MapOf(slots') <==> n in m
      ensures n in m ==> MapOf(slots')[n] == m[n]
    {
      OtherName(slots, k, d, n);
    }
  }

  lemma PutDistinct(slots: seq<Dirent>, k: nat, d: Dirent)
    requires k <= |slots| && (k < |slots| ==> !slots[k].Live()) && d.Name() !in MapOf(slots) && Distinct(slots)
    ensures Distinct(Put(slots, k, d))
  {
    forall j | 0 <= j < |slots| ensures !Named(slots[j], d.Name()) {
      if Named(slots[j], d.Name()) {
        SomeFirst(slots, d.Name(), j);
      }
    }
  }

  /** Clearing a slot removes its name from the map and changes no other. */
  lemma ClearMap(slots: seq<Dirent>, k: nat)
    requires Distinct(slots) && k < |slots| && slots[k].Live()
    ensures MapOf(slots[k := FREE]) == MapOf(slots) - {slots[k].Name()} && Distinct(slots[k := FREE])
  {
    hide MapOf;
    var x := slots[k].Name();
    var slots', m := slots[k := FREE], MapOf(slots) - {x};
    if x in MapOf(slots') {
      var j := MapHas(slots', x);
    }
    forall n: Name | n != x ensures n in MapOf(slots') <==> n in m
      ensures n in m ==> MapOf(slots')[n] == m[n]
    {
      OtherName(slots, k, FREE, n);
    }
  }

  // ---------- Slots as bytes ----------

  function Encode(d: Dirent): (b: seq<byte>)
    requires d.inum < 0x1_0000
    ensures |b| == ENTRY
  {
    [d.inum % 0x100, d.inum / 0x100] + d.raw
  }

  function Decode(b: seq<byte>): (d: Dirent)
    requires |b| == ENTRY
  {
    var lo: int, hi: int := b[0], b[1];
    Dirent(lo + 0x100 * hi, b[2..])
  }

  /** struct dirent: the inode number in two bytes, the lower one first, and the name behind it. */
  lemma EntryLayout(d: Dirent)
    requires d.inum < 0x1_0000
    ensures var b := Encode(d); var lo: int, hi: int := b[0], b[1]; lo + 0x100 * hi == d.inum && b[2..] == d.raw
  {
  }

  lemma EntryRoundTrip(d: Dirent)
    requires d.inum < 0x1_0000
    ensures Decode(Encode(d)) == d
  {
    assert Encode(d)[2..] == d.raw;
  }

  function Slots(c: seq<byte>): (s: seq<Dirent>)
    ensures |s| == |c| / ENTRY && forall k :: 0 <= k < |s| ==> s[k] == Decode(c[ENTRY * k..ENTRY * k + ENTRY])
  {
    seq(|c| / ENTRY, k requires 0 <= k < |c| / ENTRY => Decode(c[ENTRY * k..ENTRY * k + ENTRY]))
  }

  /** Writing an entry over slot k, or behind the last, is Put. */
  lemma SlotWritten(c: seq<byte>, k: nat, d: Dirent)
    requires |c| % ENTRY == 0 && ENTRY * k <= |c| && d.inum < 0x1_0000
    ensures Slots(Spliced(c, ENTRY * k, Encode(d))) == Put(Slots(c), k, d)
    ensures |Spliced(c, ENTRY * k, Encode(d))| % ENTRY == 0
  {
    EntryRoundTrip(d);
    var b := Encode(d);
    var c' := Spliced(c, ENTRY * k, b);
    forall j | 0 <= j < |Put(Slots(c), k, d)|
      ensures c'[ENTRY * j..ENTRY * j + ENTRY] == if j == k then b else c[ENTRY * j..ENTRY * j + ENTRY]
    {
      EntryBytes(c, k, b, j);
    }
  }

  lemma EntryBytes(c: seq<byte>, k: nat, b: seq<byte>, j: nat)
    requires |c| % ENTRY == 0 && ENTRY * k <= |c| && |b| == ENTRY && (j == k || ENTRY * j + ENTRY <= |c|)
    ensures var c' := Spliced(c, ENTRY * k, b);
      && ENTRY * j + ENTRY <= |c'|
      && c'[ENTRY * j..ENTRY * j + ENTRY] == if j == k then b else c[ENTRY * j..ENTRY * j + ENTRY]
  {
  }

  // ---------- dirlookup and dirlink ----------

  /** The slots of directory i. */
  ghost function Dir(s: FsState, i: nat): seq<Dirent>
    requires i < |s.inodes|
  {
    Slots(Contents(s, i))
  }

  datatype Lookup = Missing | Found(inum: nat, off: nat)

  /** What dirlookup reports for name n: its inode number and where it stands. */
  ghost predicate Finds(slots: seq<Dirent>, n: Name, r: Lookup) {
    if n in MapOf(slots) then
      && r.Found? && r.inum == MapOf(slots)[n] && r.off % ENTRY == 0 && FirstAt(slots, n, r.off / ENTRY)
    else r.Missing?
  }

  lemma FindsAt(slots: seq<Dirent>, n: Name, k: nat)
    requires FirstAt(slots, n, k)
    ensures Finds(slots, n, Found(slots[k].inum, ENTRY * k))
  {
    MapAt(slots, n, k);
  }

  lemma FindsNothing(slots: seq<Dirent>, n: Name)
    requires forall j :: 0 <= j < |slots| ==> !Named(slots[j], n)
    ensures Finds(slots, n, Missing)
  {
    if n in MapOf(slots) {
      var j := MapHas(slots, n);
    }
  }

  ghost predicate Ready(fs: FileSys, ip: Inode)
    reads fs, ip
  {
    && ip.inum < |fs.inodes| && fs.inodes[ip.inum] == ip.d
    && Conserved(fs.S(), fs.g, {}, {}) && FileOk(fs.S(), ip.inum) && ip.d.typ != T_DEV
  }

  /** Nothing has changed since this was disk, inode and log. */
  ghost predicate Same(fs: FileSys, ip: Inode, s: FsState, d: Dinode, logged: set<nat>)
    reads fs, ip
  {
    fs.S() == s && ip.d == d && fs.logged == logged && Ready(fs, ip)
  }

  lemma ReadyGives(fs: FileSys, ip: Inode)
    requires Ready(fs, ip)
    ensures fs.Eff(ip) == fs.S() && ip.d.size <= MAXFILE * BSIZE && |Contents(fs.S(), ip.inum)| == ip.d.size
  {
    assert fs.inodes[ip.inum := ip.d] == fs.inodes;
  }

  lemma EntrySlice(c: seq<byte>, k: nat)
    requires ENTRY * k < |c|
    ensures |Slice(c, ENTRY * k, ENTRY)| == ENTRY <==> ENTRY * k + ENTRY <= |c|
    ensures ENTRY * k + ENTRY <= |c| ==> k < |Slots(c)| && Decode(Slice(c, ENTRY * k, ENTRY)) == Slots(c)[k]
    ensures ENTRY * k + ENTRY == |c| ==> k + 1 == |Slots(c)|
  {
  }

  /** Read entry k: as dirlookup and dirlink do, with a panic if it is cut short. */
  method ReadEntry(fs: FileSys, dp: Inode, k: nat) returns (r: Result<Dirent>)
    requires Ready(fs, dp) && ENTRY * k < dp.d.size
    modifies fs`bitmap, fs`blocks, fs`logged, dp`d
    ensures Same(fs, dp, old(fs.S()), old(dp.d), old(fs.logged))
    ensures r.Panic? <==> ENTRY * k + ENTRY > old(dp.d).size
    ensures r.Done? ==> var slots := Dir(old(fs.S()), dp.inum);
      k < |slots| && r.value == slots[k] && (ENTRY * k + ENTRY >= old(dp.d).size ==> k + 1 == |slots|)
  {
    ReadyGives(fs, dp);
    hide Conserved, FileOk, Slots, Slice, Decode;
    ghost var s, c := fs.S(), Contents(fs.S(), dp.inum);
    EntrySlice(c, k);
    var got := fs.Readi(dp, ENTRY * k, ENTRY);
    assert fs.Eff(dp) == s;
    var de := got.bytes;
    if |de| != ENTRY {
      return Panic;
    }
    return Done(Decode(de));
  }

  /** Look for a directory entry: the first live one of this name. */
  method Dirlookup(fs: FileSys, dp: Inode, name: seq<byte>) returns (r: Result<Lookup>)
    requires Ready(fs, dp) && Readable(name, DIRSIZ)
    modifies fs`bitmap, fs`blocks, fs`logged, dp`d
    ensures Same(fs, dp, old(fs.S()), old(dp.d), old(fs.logged))
    ensures r.Panic? ==> old(dp.d).typ != T_DIR || old(dp.d).size % ENTRY != 0
    ensures r.Done? ==> old(dp.d).typ == T_DIR && Finds(Dir(old(fs.S()), dp.inum), Cut(name, DIRSIZ), r.value)
  {
    hide Finds, Slots, Dir, Ready, Cut, Readable, Same;
    SameStarts(fs, dp);
    if dp.d.typ != T_DIR {
      return Panic;
    }
    ghost var s, d, l := fs.S(), dp.d, fs.logged;
    ghost var slots, n := Dir(s, dp.inum), Cut(name, DIRSIZ);
    var off := 0;
    ghost var k: nat := 0;
    while off < dp.d.size
      invariant Same(fs, dp, s, d, l) && off == ENTRY * k && k <= |slots| && (off >= d.size ==> k == |slots|)
      invariant forall j :: 0 <= j < k ==> !Named(slots[j], n)
      decreases d.size - off
    {
      SameGives(fs, dp, s, d, l);
      var de :- ReadEntry(fs, dp, off / ENTRY);
      SameGives(fs, dp, s, d, l);
      if de.inum != 0 {
        var c := Strncmp(name, de.raw, DIRSIZ);
        if c == 0 {
          FindsAt(slots, n, k);
          return Done(Found(de.inum, off));
        }
      }
      off := off + ENTRY;
      k := k + 1;
    }
    SameGives(fs, dp, s, d, l);
    FindsNothing(slots, n);
    return Done(Missing);
  }

  lemma SameStarts(fs: FileSys, ip: Inode)
    requires Ready(fs, ip)
    ensures Same(fs, ip, fs.S(), ip.d, fs.logged) && ip.inum < |fs.S().inodes|
    ensures ip.d.size == 0 ==> |Dir(fs.S(), ip.inum)| == 0
  {
    ReadyGives(fs, ip);
  }

  lemma SameGives(fs: FileSys, ip: Inode, s: FsState, d: Dinode, logged: set<nat>)
    requires Same(fs, ip, s, d, logged)
    ensures fs.S() == s && ip.d == d && fs.logged == logged && Ready(fs, ip)
  {
  }

  /** The first free slot of a directory, or the end. */
  method FreeSlot(fs: FileSys, dp: Inode) returns (r: Result<nat>)
    requires Ready(fs, dp)
    modifies fs`bitmap, fs`blocks, fs`logged, dp`d
    ensures Same(fs, dp, old(fs.S()), old(dp.d), old(fs.logged))
    ensures r.Panic? ==> old(dp.d).size % ENTRY != 0
    ensures r.Done? ==> FirstFree(Dir(old(fs.S()), dp.inum), r.value)
  {
    hide Slots, Dir, Ready, Same;
    SameStarts(fs, dp);
    ghost var s, d, l := fs.S(), dp.d, fs.logged;
    ghost var slots := Dir(s, dp.inum);
    var off := 0;
    while off < dp.d.size
      invariant Same(fs, dp, s, d, l) && off % ENTRY == 0 && off / ENTRY <= |slots|
      invariant (off >= d.size ==> off / ENTRY == |slots|) && forall j :: 0 <= j < off / ENTRY ==> slots[j].Live()
      decreases d.size - off
    {
      SameGives(fs, dp, s, d, l);
      var de :- ReadEntry(fs, dp, off / ENTRY);
      SameGives(fs, dp, s, d, l);
      if de.inum == 0 {
        break;
      }
      off := off + ENTRY;
    }
    SameGives(fs, dp, s, d, l);
    return Done(off / ENTRY);
  }

  ghost predicate FirstFree(slots: seq<Dirent>, k: nat) {
    k <= |slots| && (k < |slots| ==> !slots[k].Live()) && forall j :: 0 <= j < k ==> slots[j].Live()
  }

  /** No free slot, and no room for another. */
  ghost predicate Crowded(slots: seq<Dirent>) {
    ENTRY * |slots| >= MAXFILE * BSIZE && forall k :: 0 <= k < |slots| ==> slots[k].Live()
  }

  /** Directory i has become this sequence of slots; no other file has changed. */
  ghost predicate Became(s: FsState, s': FsState, g: Geometry, i: nat, slots: seq<Dirent>) {
    && Conserved(s', g, {}, {}) && i < |s.inodes| && OthersKept(s, s', i) && FileOk(s', i)
    && s'.inodes[i] == s.inodes[i].(addrs := s'.inodes[i].addrs, size := s'.inodes[i].size)
    && s'.inodes[i].size % ENTRY == 0 && Dir(s', i) == slots
  }

  lemma WroteSlot(s: FsState, s': FsState, g: Geometry, i: nat, k: nat, d: Dirent)
    requires i < |s.inodes| && s.inodes[i].size % ENTRY == 0 && k <= |Dir(s, i)| && d.inum < 0x1_0000
    requires Wrote(s, s', g, i, ENTRY * k, Encode(d))
    ensures Became(s, s', g, i, Put(Dir(s, i), k, d))
  {
    hide Conserved, FileOk;
    SlotWritten(Contents(s, i), k, d);
  }

  /** The block of directory i that has slot k. */
  function SlotBlock(s: FsState, i: nat, k: nat): nat {
    if i < |s.inodes| then FileBlock(s, i, ENTRY * k / BSIZE) else 0
  }

  /** Write slot k of a directory. */
  method WriteSlot(fs: FileSys, dp: Inode, k: nat, d: Dirent) returns (r: Result<bool>)
    requires Ready(fs, dp) && dp.d.size % ENTRY == 0 && k <= |Dir(fs.S(), dp.inum)| && d.inum < 0x1_0000
    modifies fs`bitmap, fs`blocks, fs`inodes, fs`logged, dp`d
    ensures old(fs.Covered()) ==> fs.Covered()
    ensures r.Panic? ==> fs.Full()
    ensures r.Done? ==> (r.value <==> ENTRY * k < MAXFILE * BSIZE) && Ready(fs, dp)
    ensures r == Done(true) ==> Became(old(fs.S()), fs.S(), fs.g, dp.inum, Put(Dir(old(fs.S()), dp.inum), k, d))
    ensures r == Done(false) ==> fs.S() == old(fs.S()) && dp.d == old(dp.d) && fs.logged == old(fs.logged)
    ensures r == Done(true) ==> LogsWithin(old(fs.logged), fs.logged, {fs.InodeBlock(dp.inum)}, EntryBound(old(dp.d.size)))
    ensures r == Done(true) && ENTRY * k < old(dp.d.size) ==> fs.logged == old(fs.logged) + {SlotBlock(old(fs.S()), dp.inum, k)}
  {
    hide Covers;
    ReadyGives(fs, dp);
    EntryBlocks(dp.d.size, k);
    if ENTRY * k < dp.d.size {
      EntryInBlock(dp.d.size, k);
    }
    hide LogsWithin, DataBound, EntryBound, InOneBlock, FileBlock;
    ghost var s, l, size := fs.S(), fs.logged, dp.d.size;
    var done :- fs.Writei(dp, Encode(d), ENTRY * k);
    if done {
      WroteSlot(s, fs.S(), fs.g, dp.inum, k, d);
      LogsMore(l, fs.logged, {fs.InodeBlock(dp.inum)}, DataBound(size, ENTRY * k, ENTRY), {fs.InodeBlock(dp.inum)}, EntryBound(size));
    }
    return Done(done);
  }

  /** How many blocks besides its inode's own an entry of a directory of this size can cost. */
  function EntryBound(size: nat): nat { if size == 0 then 2 else if size < BSIZE then 1 else 4 }

  lemma EntryBoundMax(size: nat)
    ensures EntryBound(size) <= 4
  {
  }

  lemma EntryBlocks(size: nat, k: nat)
    requires size % ENTRY == 0 && ENTRY * k <= size
    ensures DataBound(size, ENTRY * k, ENTRY) <= EntryBound(size) <= 4
  {
  }

  /** An entry that is there lies in one block. */
  lemma EntryInBlock(size: nat, k: nat)
    requires size % ENTRY == 0 && ENTRY * k < size
    ensures InOneBlock(size, ENTRY * k, ENTRY)
  {
    assert ENTRY * k == BSIZE * (k / 32) + ENTRY * (k % 32);
    assert size == ENTRY * (size / ENTRY);
  }

  /** Add an entry (name, inum) to the directory, or fail if the name is there. */
  method Dirlink(fs: FileSys, dp: Inode, name: seq<byte>, inum: nat) returns (r: Result<bool>)
    requires Ready(fs, dp) && dp.d.size % ENTRY == 0 && Readable(name, DIRSIZ) && inum < 0x1_0000
    modifies fs`bitmap, fs`blocks, fs`inodes, fs`logged, dp`d
    ensures old(fs.Covered()) ==> fs.Covered()
    ensures r.Panic? ==> fs.Full() || old(dp.d).typ != T_DIR || Crowded(Dir(old(fs.S()), dp.inum))
    ensures r == Done(false) ==> Cut(name, DIRSIZ) in MapOf(Dir(old(fs.S()), dp.inum)) && fs.S() == old(fs.S())
                                 && fs.logged == old(fs.logged)
    ensures r == Done(true) ==> LogsWithin(old(fs.logged), fs.logged, {fs.InodeBlock(dp.inum)}, EntryBound(old(dp.d.size)))
    ensures r == Done(true) ==> var slots, n := Dir(old(fs.S()), dp.inum), Cut(name, DIRSIZ);
      && n !in MapOf(slots)
      && exists k :: FirstFree(slots, k) && Became(old(fs.S()), fs.S(), fs.g, dp.inum, Put(slots, k, Dirent(inum, Padded(n, DIRSIZ))))
    ensures r == Done(true) && inum != 0 ==> var slots, slots' := Dir(old(fs.S()), dp.inum), Dir(fs.S(), dp.inum);
      && MapOf(slots') == MapOf(slots)[Cut(name, DIRSIZ) := inum] && (Distinct(slots) ==> Distinct(slots'))
    ensures r.Done? ==> Ready(fs, dp)
  {
    hide Covers, Slots, Dir, Ready, Same, Finds, Became, MapOf, LogsWithin, EntryBound;
    ghost var s, d, l := fs.S(), dp.d, fs.logged;
    SameStarts(fs, dp);
    var got := Dirlookup(fs, dp, name);
    SameGives(fs, dp, s, d, l);
    var found :- got;
    FindsGives(Dir(s, dp.inum), Cut(name, DIRSIZ), found);
    if found.Found? {
      return Done(false);
    }
    var free := FreeSlot(fs, dp);     // dirlookup got to the end without a panic
    var k := free.value;
    SameGives(fs, dp, s, d, l);
    var raw := Strncpy(name, DIRSIZ);
    var done :- WriteSlot(fs, dp, k, Dirent(inum, raw));
    if !done {
      SizeLimit(s, dp.inum, k);
      return Panic;
    }
    EntryAdded(s, fs.S(), fs.g, dp.inum, k, inum, Cut(name, DIRSIZ));
    return Done(true);
  }

  lemma FindsGives(slots: seq<Dirent>, n: Name, r: Lookup)
    requires Finds(slots, n, r)
    ensures n in MapOf(slots) <==> r.Found?
  {
  }

  lemma SizeLimit(s: FsState, i: nat, k: nat)
    requires FileOk(s, i) && FirstFree(Dir(s, i), k) && ENTRY * k >= MAXFILE * BSIZE
    ensures Crowded(Dir(s, i))
  {
    assert |Contents(s, i)| == s.inodes[i].size;
  }

  /** dirlink adds one name to the map of the directory. */
  lemma EntryAdded(s: FsState, s': FsState, g: Geometry, i: nat, k: nat, inum: nat, n: Name)
    requires i < |s.inodes| && FirstFree(Dir(s, i), k) && n !in MapOf(Dir(s, i))
    requires Became(s, s', g, i, Put(Dir(s, i), k, Dirent(inum, Padded(n, DIRSIZ))))
    ensures i < |s'.inodes|
    ensures inum != 0 ==> MapOf(Dir(s', i)) == MapOf(Dir(s, i))[n := inum]
    ensures inum != 0 && Distinct(Dir(s, i)) ==> Distinct(Dir(s', i))
  {
    hide MapOf, Slots, Conserved, FileOk, Distinct;
    PaddedName(n, DIRSIZ);
    var d := Dirent(inum, Padded(n, DIRSIZ));
    if inum != 0 {
      PutMap(Dir(s, i), k, d);
      if Distinct(Dir(s, i)) {
        PutDistinct(Dir(s, i), k, d);
      }
    }
  }
}
