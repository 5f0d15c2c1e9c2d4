/** The regular expression matcher of grep.c, after Kernighan and Pike. */
module Grep {

  // ---------- What patterns mean ----------

  /** c stands for itself, '.' for any character; Star(c) for any run of such characters. */
  datatype Item = Lit(c: char) | Star(c: char)

  /** A pattern without a leading '^': items, and whether it ends in an anchoring '$'. */
  datatype Pattern = Pattern(items: seq<Item>, anchored: bool)

  predicate Accepts(c: char, t: char) { c == '.' || c == t }

  /** How the matcher reads a pattern: a character followed by '*' is a star, whatever the
      character is; a final '$' anchors; everything else, also '*', '^' and '$', is literal. */
  function Read(re: string): Pattern {
    if re == "" then Pattern([], false)
    else if |re| >= 2 && re[1] == '*' then
      var p := Read(re[2..]); Pattern([Star(re[0])] + p.items, p.anchored)
    else if re == "$" then Pattern([], true)
    else
      var p := Read(re[1..]); Pattern([Lit(re[0])] + p.items, p.anchored)
  }

  /** The language of a list of items. */
  ghost predicate InLanguage(items: seq<Item>, w: string)
    decreases |items|
  {
    if items == [] then w == ""
    else
      match items[0]
      case Lit(c) => w != "" && Accepts(c, w[0]) && InLanguage(items[1..], w[1..])
      case Star(c) => exists k :: 0 <= k <= |w| && Run(c, w[..k]) && InLanguage(items[1..], w[k..])
  }

  predicate Run(c: char, w: string) {
    forall i :: 0 <= i < |w| ==> Accepts(c, w[i])
  }

  predicate RunBetween(c: char, text: string, t: int, k: int)
    requires 0 <= t <= k <= |text|
  {
    forall i :: t <= i < k ==> Accepts(c, text[i])
  }

  /** text[i..] begins with a word of the language, which is all of it if the pattern anchors. */
  ghost predicate MatchesAt(p: Pattern, text: string, i: nat) {
    exists j :: i <= j <= |text| && InLanguage(p.items, text[i..j]) && (p.anchored ==> j == |text|)
  }

  /** What grep promises for a line. */
  ghost predicate Found(re: string, text: string) {
    if re != "" && re[0] == '^' then MatchesAt(Read(re[1..]), text, 0)
    else exists i :: 0 <= i <= |text| && MatchesAt(Read(re), text, i)
  }

  // ---------- The matcher ----------

  /** C strings end in a NUL character and do not contain one. */
  predicate CString(s: string) { forall i :: 0 <= i < |s| ==> s[i] != '\0' }

  /** s[i] of a C string: reading the terminating NUL is allowed, reading past it is not. */
  function At(s: string, i: nat): char
    requires i <= |s|
  {
    if i < |s| then s[i] else '\0'
  }

  method Match(re: string, text: string) returns (found: bool)
    requires CString(re) && CString(text)
    ensures found <==> Found(re, text)
  {
    if At(re, 0) == '^' {
      found := MatchHere(re, 1, text, 0);
      return;
    }
    var t := 0;
    while true   // must look at empty string
      invariant 0 <= t <= |text|
      invariant forall i :: 0 <= i < t ==> !MatchesAt(Read(re), text, i)
      decreases |text| - t
    {
      assert re[0..] == re;
      var here := MatchHere(re, 0, text, t);
      if here {
        return true;
      }
      if At(text, t) == '\0' {
        return false;
      }
      t := t + 1;
    }
  }

  /** Search for re[r..] at the beginning of text[t..]. */
  method MatchHere(re: string, r: nat, text: string, t: nat) returns (found: bool)
    requires CString(re) && CString(text) && r <= |re| && t <= |text|
    ensures found <==> MatchesAt(Read(re[r..]), text, t)
    decreases |re| - r, 0
  {
    hide InLanguage, MatchesAt;
    if At(re, r) == '\0' {
      NoItems(text, t);
      return true;
    }
    if At(re, r + 1) == '*' {
      found := MatchStar(At(re, r), re, r + 2, text, t);
      assert re[r..][2..] == re[r + 2..];
      StarSplits(At(re, r), Read(re[r + 2..]), text, t);
      return;
    }
    assert re[r..][1..] == re[r + 1..];
    if At(re, r) == '$' && At(re, r + 1) == '\0' {
      NoItems(text, t);
      return At(text, t) == '\0';
    }
    LitConsumes(At(re, r), Read(re[r + 1..]), text, t);
    if At(text, t) != '\0' && (At(re, r) == '.' || At(re, r) == At(text, t)) {
      found := MatchHere(re, r + 1, text, t + 1);
      return;
    }
    return false;
  }

  /** Search for c*re[r..] at the beginning of text[t..]. */
  method MatchStar(c: char, re: string, r: nat, text: string, t: nat) returns (found: bool)
    requires CString(re) && CString(text) && r <= |re| && t <= |text| && c != '\0'
    ensures found <==> exists k :: t <= k <= |text| && RunBetween(c, text, t, k) && MatchesAt(Read(re[r..]), text, k)
    decreases |re| - r, 1
  {
    hide InLanguage, MatchesAt, Read;
    var u := t;
    while true   // a * matches zero or more instances
      invariant t <= u <= |text|
      invariant RunBetween(c, text, t, u)
      invariant forall k :: t <= k < u ==> !MatchesAt(Read(re[r..]), text, k)
      decreases |text| - u
    {
      var here := MatchHere(re, r, text, u);
      if here {
        return true;
      }
      if At(text, u) == '\0' || !(At(text, u) == c || c == '.') {
        return false;
      }
      u := u + 1;
    }
  }

  lemma NoItems(text: string, t: nat)
    requires t <= |text|
    ensures MatchesAt(Pattern([], false), text, t)
    ensures MatchesAt(Pattern([], true), text, t) <==> t == |text|
  {
    assert InLanguage([], text[t..t]);
  }

  /** A literal matches where the next character fits and the rest matches behind it. */
  lemma LitConsumes(c: char, p: Pattern, text: string, t: nat)
    requires t <= |text|
    ensures MatchesAt(Pattern([Lit(c)] + p.items, p.anchored), text, t)
            <==> t < |text| && Accepts(c, text[t]) && MatchesAt(p, text, t + 1)
  {
    var items := [Lit(c)] + p.items;
    assert items[1..] == p.items;
    if MatchesAt(Pattern(items, p.anchored), text, t) {
      var j :| t <= j <= |text| && InLanguage(items, text[t..j]) && (p.anchored ==> j == |text|);
      assert text[t..j][1..] == text[t + 1..j];
    }
    if t < |text| && Accepts(c, text[t]) && MatchesAt(p, text, t + 1) {
      var j :| t + 1 <= j <= |text| && InLanguage(p.items, text[t + 1..j]) && (p.anchored ==> j == |text|);
      assert text[t..j][1..] == text[t + 1..j];
      assert InLanguage(items, text[t..j]);
    }
  }

  /** A star matches where, after some run of its character, the rest matches. */
  lemma StarSplits(c: char, p: Pattern, text: string, t: nat)
    requires t <= |text|
    ensures MatchesAt(Pattern([Star(c)] + p.items, p.anchored), text, t)
            <==> exists k :: t <= k <= |text| && RunBetween(c, text, t, k) && MatchesAt(p, text, k)
  {
    var items := [Star(c)] + p.items;
    if MatchesAt(Pattern(items, p.anchored), text, t) {
      var j :| t <= j <= |text| && InLanguage(items, text[t..j]) && (p.anchored ==> j == |text|);
      var w := text[t..j];
      var k :| 0 <= k <= |w| && Run(c, w[..k]) && InLanguage(items[1..], w[k..]);
      assert items[1..] == p.items && w[..k] == text[t..t + k] && w[k..] == text[t + k..j];
      assert forall i :: t <= i < t + k ==> w[..k][i - t] == text[i];
      assert RunBetween(c, text, t, t + k) && MatchesAt(p, text, t + k);
    }
    if k :| t <= k <= |text| && RunBetween(c, text, t, k) && MatchesAt(p, text, k) {
      var j :| k <= j <= |text| && InLanguage(p.items, text[k..j]) && (p.anchored ==> j == |text|);
      var w := text[t..j];
      assert items[1..] == p.items && w[..k - t] == text[t..k] && w[k - t..] == text[k..j];
      assert InLanguage(items, w);
    }
  }
}
