/** File names and path names: the string functions of string.c that fs.c uses on directory
    entries, and the splitting of a path into its elements. */
module Names {
  import opened ByteView

  const DIRSIZ := 14
  const SLASH: byte := 47
  const DOT: byte := 46

  /** The string at p, cut after n bytes. */
  function Cut(p: seq<byte>, n: nat): (s: seq<byte>)
    ensures |s| <= n && |s| <= |p| && s == p[..|s|] && (forall k :: 0 <= k < |s| ==> s[k] != 0)
    ensures |s| < n && |s| < |p| ==> p[|s|] == 0
  {
    if n == 0 || p == [] || p[0] == 0 then [] else [p[0]] + Cut(p[1..], n - 1)
  }

  /** n bytes can be read from p, or a NUL comes first. */
  predicate Readable(p: seq<byte>, n: nat) { |p| >= n || 0 in p }

  /** The cut of p is as long as the NUL-free start of p. */
  lemma {:induction false} CutIs(p: seq<byte>, n: nat, m: nat)
    requires m <= n && m <= |p| && (forall k :: 0 <= k < m ==> p[k] != 0)
    requires m == n || m == |p| || p[m] == 0
    ensures Cut(p, n) == p[..m]
  {
    if m > 0 {
      CutIs(p[1..], n - 1, m - 1);
      assert p[1..][..m - 1] == p[1..m];
      assert p[..m] == [p[0]] + p[1..m];
    }
  }

  /** The strings agree before k, where they do not, within n bytes and not after a NUL. */
  predicate FirstDifference(p: seq<byte>, q: seq<byte>, n: nat, k: nat) {
    && k < n && k < |p| && k < |q| && p[k] != q[k] && p[..k] == q[..k] && 0 !in p[..k]
  }

  function CharAt(p: seq<byte>, k: nat): int { if k < |p| then p[k] else 0 }

  method Strncmp(p: seq<byte>, q: seq<byte>, n: nat) returns (r: int)
    requires Readable(p, n) && Readable(q, n)
    ensures r == 0 <==> Cut(p, n) == Cut(q, n)
    ensures r != 0 ==> exists k :: FirstDifference(p, q, n, k) && r == CharAt(p, k) - CharAt(q, k)
  {
    var i := 0;
    while i < n && p[i] != 0 && p[i] == q[i]
      invariant i <= n && i <= |p| && i <= |q| && p[..i] == q[..i] && (forall k :: 0 <= k < i ==> p[k] != 0)
      invariant i < n ==> i < |p| && i < |q|
    {
      assert p[..i + 1] == p[..i] + [p[i]] && q[..i + 1] == q[..i] + [q[i]];
      i := i + 1;
      NextReadable(p, n, i);
      NextReadable(q, n, i);
    }
    if i == n {
      CutIs(p, n, i);
      CutIs(q, n, i);
      return 0;
    }
    CutsDiffer(p, q, n, i);
    assert p[i] != q[i] ==> FirstDifference(p, q, n, i);
    var a: int, b: int := p[i], q[i];
    return a - b;
  }

  lemma NextReadable(p: seq<byte>, n: nat, i: nat)
    requires Readable(p, n) && i <= |p| && forall k :: 0 <= k < i ==> p[k] != 0
    ensures i < n ==> i < |p|
  {
  }

  lemma CutsDiffer(p: seq<byte>, q: seq<byte>, n: nat, i: nat)
    requires i < n && i < |p| && i < |q| && p[..i] == q[..i] && (forall k :: 0 <= k < i ==> p[k] != 0)
    requires p[i] == 0 || p[i] != q[i]
    ensures p[i] == q[i] <==> Cut(p, n) == Cut(q, n)
  {
    assert forall k :: 0 <= k < i ==> q[k] == q[..i][k] == p[k];
    if p[i] == q[i] {
      CutIs(p, n, i);
      CutIs(q, n, i);
    } else if p[i] == 0 {
      CutIs(p, n, i);
      CutLonger(q, n, i);
    } else if q[i] == 0 {
      CutIs(q, n, i);
      CutLonger(p, n, i);
    } else {
      CutLonger(p, n, i);
      CutLonger(q, n, i);
    }
  }

  lemma CutLonger(p: seq<byte>, n: nat, i: nat)
    requires i < n && i < |p| && forall k :: 0 <= k <= i ==> p[k] != 0
    ensures |Cut(p, n)| > i && Cut(p, n)[i] == p[i]
  {
  }

  function Zeros(n: nat): (s: seq<byte>)
    ensures |s| == n
  {
    seq(n, _ => 0)
  }

  /** The n bytes that strncpy leaves at its destination. */
  method Strncpy(t: seq<byte>, n: nat) returns (s: seq<byte>)
    requires Readable(t, n)
    ensures s == Padded(Cut(t, n), n)
  {
    s := [];
    var i := 0;
    while i < n && t[i] != 0
      invariant i <= n && i <= |t| && s == t[..i] && (forall k :: 0 <= k < i ==> t[k] != 0) && (i < n ==> i < |t|)
    {
      s := s + [t[i]];
      i := i + 1;
      NextReadable(t, n, i);
    }
    CutIs(t, n, i);
    while |s| < n
      invariant i <= |s| <= n && s == t[..i] + Zeros(|s| - i)
    {
      s := s + [0];
    }
  }

  function Padded(s: seq<byte>, n: nat): (p: seq<byte>)
    requires |s| <= n
    ensures |p| == n
  {
    s + Zeros(n - |s|)
  }

  /** A padded name reads back as the name. */
  lemma PaddedName(s: seq<byte>, n: nat)
    requires |s| <= n && 0 !in s
    ensures Cut(Padded(s, n), n) == s
  {
    hide Cut;
    var p := Padded(s, n);
    assert forall k :: 0 <= k < |s| ==> p[k] == s[k];
    assert |s| < n ==> p[|s|] == Zeros(n - |s|)[0];
    CutIs(p, n, |s|);
  }

  // ---------- Paths ----------

  /** A path as its bytes up to the NUL. */
  type Path = p: seq<byte> | 0 !in p witness []

  predicate Slashes(p: seq<byte>, i: nat, j: nat) { i <= j <= |p| && forall k :: i <= k < j ==> p[k] == SLASH }

  /** How far the first element of a path without leading slashes reaches. */
  function ElementEnd(p: seq<byte>): (n: nat)
    ensures n <= |p| && (forall k :: 0 <= k < n ==> p[k] != SLASH) && (n < |p| ==> p[n] == SLASH)
  {
    if p == [] || p[0] == SLASH then 0 else 1 + ElementEnd(p[1..])
  }

  /** The elements of a path, each as long as it is written. */
  function Elements(p: seq<byte>): (es: seq<seq<byte>>)
    ensures forall e :: e in es ==> e != [] && SLASH !in e
    decreases |p|
  {
    if p == [] then []
    else if p[0] == SLASH then Elements(p[1..])
    else [p[..ElementEnd(p)]] + Elements(p[ElementEnd(p)..])
  }

  lemma {:induction false} EndIs(p: seq<byte>, n: nat)
    requires n <= |p| && (forall k :: 0 <= k < n ==> p[k] != SLASH) && (n < |p| ==> p[n] == SLASH)
    ensures ElementEnd(p) == n
  {
    if n > 0 {
      EndIs(p[1..], n - 1);
    }
  }

  lemma {:induction false} SkipSlashes(p: seq<byte>, i: nat, j: nat)
    requires Slashes(p, i, j)
    ensures Elements(p[i..]) == Elements(p[j..])
    decreases j - i
  {
    if i < j {
      assert p[i..][1..] == p[i + 1..];
      SkipSlashes(p, i + 1, j);
    }
  }

  /** The elements of two paths joined by slashes, whatever their number. */
  lemma {:induction false} ElementsJoin(a: seq<byte>, n: nat, b: seq<byte>)
    requires n > 0
    ensures Elements(a + seq(n, _ => SLASH) + b) == Elements(a) + Elements(b)
    decreases |a|
  {
    var s := seq(n, _ => SLASH);
    var p := a + s + b;
    if a == [] {
      SkipSlashes(p, 0, n);
      assert p[0..] == p && p[n..] == b;
    } else if a[0] == SLASH {
      assert p[1..] == a[1..] + s + b;
      ElementsJoin(a[1..], n, b);
    } else {
      var m := ElementEnd(a);
      EndIs(p, m);
      assert p[..m] == a[..m] && p[m..] == a[m..] + s + b;
      ElementsJoin(a[m..], n, b);
    }
  }

  datatype Skipped = NoElement | Element(name: seq<byte>, rest: Path)

  method PastSlashes(path: seq<byte>, i: nat) returns (j: nat)
    requires i <= |path|
    ensures Slashes(path, i, j) && (j < |path| ==> path[j] != SLASH)
  {
    j := i;
    while j < |path| && path[j] == SLASH
      invariant Slashes(path, i, j)
    {
      j := j + 1;
    }
  }

  /** The next element, cut to DIRSIZ bytes, and the path behind it without leading slashes. */
  method Skipelem(path: Path) returns (r: Skipped)
    ensures r.NoElement? <==> Elements(path) == []
    ensures r.Element? ==> r.name == Cut(Elements(path)[0], DIRSIZ) && Elements(r.rest) == Elements(path)[1..]
    ensures r.Element? ==> |r.rest| < |path| && (r.rest == [] <==> |Elements(path)| == 1)
    ensures r.Element? ==> r.rest == [] || r.rest[0] != SLASH
  {
    hide Elements, Cut;
    var i := PastSlashes(path, 0);
    NotEmpty(path[i..]);
    SkipSlashes(path, 0, i);
    assert path[0..] == path;
    if i == |path| {
      return NoElement;
    }
    var j := i;
    while j < |path| && path[j] != SLASH
      invariant i <= j <= |path| && forall k :: i <= k < j ==> path[k] != SLASH
    {
      j := j + 1;
    }
    var len := j - i;
    var name := if len >= DIRSIZ then path[i..i + DIRSIZ] else path[i..j];
    var e := PastSlashes(path, j);
    FirstElement(path, i, j, e);
    FirstBytes(path[i..j], name);
    return Element(name, path[e..]);
  }

  /** The bytes i .. j of the path are its first element, the slashes behind it end at e. */
  lemma FirstElement(path: Path, i: nat, j: nat, e: nat)
    requires i < j <= |path| && (forall k :: i <= k < j ==> path[k] != SLASH) && (j < |path| ==> path[j] == SLASH)
    requires Slashes(path, j, e) && (e < |path| ==> path[e] != SLASH) && Elements(path) == Elements(path[i..])
    ensures Elements(path) != [] && Elements(path)[0] == path[i..j]
    ensures Elements(path[e..]) == Elements(path)[1..] && (e == |path| <==> |Elements(path)| == 1)
  {
    hide Elements, ElementEnd;
    LeadingElement(path[i..], j - i);
    assert path[i..][..j - i] == path[i..j] && path[i..][j - i..] == path[j..];
    SkipSlashes(path, j, e);
    NotEmpty(path[e..]);
  }

  lemma FirstBytes(e: seq<byte>, name: seq<byte>)
    requires 0 !in e && name == if |e| >= DIRSIZ then e[..DIRSIZ] else e
    ensures name == Cut(e, DIRSIZ)
  {
    CutIs(e, DIRSIZ, |name|);
  }

  lemma LeadingElement(p: seq<byte>, n: nat)
    requires 0 < n <= |p| && (forall k :: 0 <= k < n ==> p[k] != SLASH) && (n < |p| ==> p[n] == SLASH)
    ensures Elements(p) == [p[..n]] + Elements(p[n..])
  {
    EndIs(p, n);
  }

  lemma NotEmpty(p: seq<byte>)
    requires p != [] ==> p[0] != SLASH
    ensures Elements(p) != [] <==> p != []
  {
  }
}
