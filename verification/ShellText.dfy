/** Where a command of the shell stands in the text that it was read from. */
module ShellText {
  import opened ShellGrammar
  import opened ShellCommand

  /** The command is written in bytes lo .. hi of s. The two parts of a pipe lie before and behind a
      '|', those of a list before and behind a ';', and what runs in the background before a '&'. The
      arguments of a command come in their order. */
  ghost predicate Placed(s: seq<char>, cmd: Cmd, lo: nat, hi: nat)
    requires lo <= hi <= |s|
    decreases cmd, 1
  {
    match cmd
    case Exec(argv) =>
      && (forall i :: 0 <= i < |argv| ==> lo <= argv[i].q && argv[i].eq <= hi && IsWord(s, argv[i].q, argv[i].eq))
      && (forall i, j :: 0 <= i < j < |argv| ==> argv[i].eq <= argv[j].q)
    case Redir(c, file, mode, fd) =>
      && lo <= file.q && file.eq <= hi && IsWord(s, file.q, file.eq) && Placed(s, c, lo, hi)
      && exists m :: lo <= m < file.q && OpenedAt(s, m, cmd)
    case Pipe(_, _) => exists m :: lo <= m < hi && Apart(s, cmd, lo, m, hi)
    case List(_, _) => exists m :: lo <= m < hi && Apart(s, cmd, lo, m, hi)
    case Back(c) => exists m :: lo <= m < hi && s[m] == '&' && Placed(s, c, lo, m)
  }

  ghost predicate Apart(s: seq<char>, cmd: Cmd, lo: nat, m: nat, hi: nat)
    requires (cmd.Pipe? || cmd.List?) && lo <= m < hi <= |s|
    decreases cmd, 0
  {
    s[m] == (if cmd.Pipe? then '|' else ';') && Placed(s, cmd.left, lo, m) && Placed(s, cmd.right, m + 1, hi)
  }

  /** Only white space stands between the symbol at m and the file; redirections come in their order. */
  ghost predicate OpenedAt(s: seq<char>, m: nat, cmd: Cmd)
    requires cmd.Redir? && m < cmd.file.q <= |s|
  {
    && Opens(s[m], cmd.mode, cmd.fd) && (cmd.cmd.Redir? ==> cmd.cmd.file.eq <= m)
    && forall k :: m < k < cmd.file.q ==> White(s[k])
  }

  /** What the symbol before the file says: '<' is O_RDONLY on fd 0, '>' is O_WRONLY|O_CREATE on fd 1. */
  predicate Opens(c: char, mode: nat, fd: nat) {
    (c == '<' && mode == 0 && fd == 0) || (c == '>' && mode == 0x201 && fd == 1)
  }

  /** How many nodes of the tree the symbol c stands for. */
  function Nodes(cmd: Cmd, c: char): nat {
    match cmd
    case Exec(_) => 0
    case Redir(x, _, _, fd) => Nodes(x, c) + if c == '<' && fd == 0 then 1 else 0
    case Pipe(l, r) => Nodes(l, c) + Nodes(r, c) + if c == '|' then 1 else 0
    case List(l, r) => Nodes(l, c) + Nodes(r, c) + if c == ';' then 1 else 0
    case Back(x) => Nodes(x, c) + if c == '&' then 1 else 0
  }

  const Marks: set<char> := {'|', ';', '&', '<'}

  /** The tree stands in the text in that way, with a node for each of these symbols. */
  ghost predicate Stands(s: seq<char>, cmd: Cmd) {
    Placed(s, cmd, 0, |s|) && forall c :: c in Marks ==> Nodes(cmd, c) == multiset(s)[c]
  }

  // ---------- Spans of parts ----------

  lemma CoversSplit(s: seq<char>, lo: nat, hi: nat, ts: seq<Tok>, sp: seq<Span>, m: nat)
    requires Covers(s, lo, hi, ts, sp) && m < |ts|
    ensures Covers(s, lo, sp[m].from, ts[..m], sp[..m]) && Covers(s, sp[m].to, hi, ts[m + 1..], sp[m + 1..])
  {
    assert forall n :: 0 <= n < |ts| ==> sp[n].from < sp[n].to <= |s|;
    hide Reads, White;
    WhiteBefore(s, lo, hi, ts, sp, m);
    WhiteBehind(s, lo, hi, ts, sp, m);
  }

  lemma WhiteBefore(s: seq<char>, lo: nat, hi: nat, ts: seq<Tok>, sp: seq<Span>, m: nat)
    requires Covers(s, lo, hi, ts, sp) && m < |ts|
    ensures forall k :: lo <= k < sp[m].from ==> (White(s[k]) <==> !exists n :: 0 <= n < m && Within(sp[..m][n], k))
  {
    assert sp[m].from < sp[m].to <= |s|;
    hide Reads, White;
    forall k | lo <= k < sp[m].from ensures White(s[k]) <==> !exists n :: 0 <= n < m && Within(sp[..m][n], k) {
      if n :| 0 <= n < |ts| && Within(sp[n], k) {
        assert n < m && sp[..m][n] == sp[n];
      }
    }
  }

  lemma WhiteBehind(s: seq<char>, lo: nat, hi: nat, ts: seq<Tok>, sp: seq<Span>, m: nat)
    requires Covers(s, lo, hi, ts, sp) && m < |ts|
    ensures var b := sp[m + 1..];
      forall k :: sp[m].to <= k < hi ==> (White(s[k]) <==> !exists n :: 0 <= n < |b| && Within(b[n], k))
  {
    var b := sp[m + 1..];
    assert sp[m].from < sp[m].to <= |s|;
    hide Reads, White;
    forall k | sp[m].to <= k < hi ensures White(s[k]) <==> !exists n :: 0 <= n < |b| && Within(b[n], k) {
      InTail(sp, m, k);
    }
  }

  lemma InTail(sp: seq<Span>, m: nat, k: nat)
    requires m < |sp| && sp[m].to <= k && forall n :: 0 <= n < m ==> sp[n].to <= sp[m].from <= sp[m].to
    ensures var b := sp[m + 1..];
      (exists n :: 0 <= n < |b| && Within(b[n], k)) <==> exists n :: 0 <= n < |sp| && Within(sp[n], k)
  {
    var b := sp[m + 1..];
    if n :| 0 <= n < |b| && Within(b[n], k) {
      assert Within(sp[m + 1 + n], k);
    }
    if n :| 0 <= n < |sp| && Within(sp[n], k) {
      assert Within(b[n - (m + 1)], k);
    }
  }

  /** Only white space lies between two tokens that follow each other. */
  lemma Gap(s: seq<char>, lo: nat, hi: nat, ts: seq<Tok>, sp: seq<Span>, m: nat, k: nat)
    requires Covers(s, lo, hi, ts, sp) && m + 1 < |ts| && sp[m].to <= k < sp[m + 1].from
    ensures White(s[k])
  {
    assert Reads(s, ts[m], sp[m]) && Reads(s, ts[m + 1], sp[m + 1]);
    hide Reads, White;
    InNone(sp, m, k);
  }

  lemma InNone(sp: seq<Span>, m: nat, k: nat)
    requires m + 1 < |sp| && sp[m].from <= sp[m].to <= k < sp[m + 1].from <= sp[m + 1].to
    requires forall m, n :: 0 <= m < n < |sp| ==> sp[m].to <= sp[n].from
    ensures !exists n :: 0 <= n < |sp| && Within(sp[n], k)
  {
  }

  // ---------- Parts of commands ----------

  lemma {:induction false} PlacedWiden(s: seq<char>, cmd: Cmd, lo: nat, hi: nat, lo': nat, hi': nat)
    requires lo' <= lo <= hi <= hi' <= |s| && Placed(s, cmd, lo, hi)
    ensures Placed(s, cmd, lo', hi')
    decreases cmd, 1
  {
    match cmd
    case Exec(argv) =>
    case Redir(c, file, mode, fd) =>
      PlacedWiden(s, c, lo, hi, lo', hi');
      hide IsWord, OpenedAt;
      var m :| lo <= m < file.q && OpenedAt(s, m, cmd);
      assert lo' <= m < file.q;
    case Pipe(l, r) => ApartWiden(s, cmd, lo, hi, lo', hi');
    case List(l, r) => ApartWiden(s, cmd, lo, hi, lo', hi');
    case Back(c) =>
      var m :| lo <= m < hi && s[m] == '&' && Placed(s, c, lo, m);
      PlacedWiden(s, c, lo, m, lo', m);
  }

  lemma {:induction false} ApartWiden(s: seq<char>, cmd: Cmd, lo: nat, hi: nat, lo': nat, hi': nat)
    requires lo' <= lo <= hi <= hi' <= |s| && (cmd.Pipe? || cmd.List?) && Placed(s, cmd, lo, hi)
    ensures Placed(s, cmd, lo', hi')
    decreases cmd, 0
  {
    var m :| lo <= m < hi && Apart(s, cmd, lo, m, hi);
    PlacedWiden(s, cmd.left, lo, m, lo', m);
    PlacedWiden(s, cmd.right, m + 1, hi, m + 1, hi');
    assert Apart(s, cmd, lo', m, hi');
  }

  /** One more argument behind all that is there. */
  lemma {:induction false} ArgPlaced(s: seq<char>, cmd: Cmd, lo: nat, m: nat, hi: nat)
    requires lo <= m <= hi <= |s| && Argv(cmd) != []
    requires var n := |Argv(cmd)| - 1; var w := Argv(cmd)[n];
      m <= w.q && w.eq <= hi && IsWord(s, w.q, w.eq) && Placed(s, WithArgv(cmd, Argv(cmd)[..n]), lo, m)
    ensures Placed(s, cmd, lo, hi)
    decreases cmd
  {
    match cmd
    case Exec(argv) =>
      hide IsWord;
      var init := argv[..|argv| - 1];
      forall i | 0 <= i < |argv| - 1 ensures lo <= argv[i].q && argv[i].eq <= m && IsWord(s, argv[i].q, argv[i].eq) {
        assert init[i] == argv[i];
      }
      forall i, j | 0 <= i < j < |argv| ensures argv[i].eq <= argv[j].q {
        assert init[i] == argv[i] && (j < |init| ==> init[j] == argv[j]);
      }
    case Redir(c, file, mode, fd) =>
      ArgPlaced(s, c, lo, m, hi);
      var shorter := WithArgv(cmd, Argv(cmd)[..|Argv(cmd)| - 1]);
      var o :| lo <= o < file.q && OpenedAt(s, o, shorter);
      assert OpenedAt(s, o, cmd);
  }

  /** One more redirection. */
  lemma RedirPlaced(s: seq<char>, lo: nat, hi: nat, cmd: Cmd, ts: seq<Tok>, sp: seq<Span>)
    requires Covers(s, lo, hi, ts, sp) && |ts| >= 2 && RedirectedBy(cmd, ts[|ts| - 2], ts[|ts| - 1])
    requires Placed(s, cmd.cmd, lo, sp[|ts| - 2].from)
    ensures Placed(s, cmd, lo, hi)
  {
    var n := |ts| - 2;
    var m, file := sp[n].to - 1, cmd.file;
    assert Reads(s, ts[n], sp[n]) && Reads(s, ts[n + 1], sp[n + 1]);
    assert Opens(s[m], cmd.mode, cmd.fd) by {
      assert s[m] == s[sp[n].from..sp[n].to][m - sp[n].from];
    }
    forall k | m < k < file.q ensures White(s[k]) {
      Gap(s, lo, hi, ts, sp, n, k);
    }
    FileBefore(s, cmd.cmd, lo, sp[n].from);
    PlacedWiden(s, cmd.cmd, lo, sp[n].from, lo, hi);
    hide IsWord, White, Covers, Reads, RedirectedBy;
    assert OpenedAt(s, m, cmd);
  }

  lemma FileBefore(s: seq<char>, cmd: Cmd, lo: nat, hi: nat)
    requires lo <= hi <= |s| && Placed(s, cmd, lo, hi)
    ensures cmd.Redir? ==> cmd.file.eq <= hi
  {
  }

  // ---------- A command that the tokens write stands in the text ----------

  lemma {:induction false} LinePlaced(s: seq<char>, lo: nat, hi: nat, cmd: Cmd, ts: seq<Tok>, sp: seq<Span>)
    requires LineOf(cmd, ts) && Covers(s, lo, hi, ts, sp)
    ensures Placed(s, cmd, lo, hi)
    decreases |ts|, 5
  {
    hide Covers, BackedOf;
    if BackedOf(cmd, ts) {
      BackedPlaced(s, lo, hi, cmd, ts, sp);
    } else {
      var m :| 0 <= m < |ts| && ts[m] == Sym(';') && BackedOf(cmd.left, ts[..m]) && LineOf(cmd.right, ts[m + 1..]);
      SymAt(s, lo, hi, ts, sp, m);
      BackedPlaced(s, lo, sp[m].from, cmd.left, ts[..m], sp[..m]);
      LinePlaced(s, sp[m].to, hi, cmd.right, ts[m + 1..], sp[m + 1..]);
      assert Apart(s, cmd, lo, sp[m].from, hi);
    }
  }

  /** A symbol of one character, and the parts before and behind it. */
  lemma SymAt(s: seq<char>, lo: nat, hi: nat, ts: seq<Tok>, sp: seq<Span>, m: nat)
    requires Covers(s, lo, hi, ts, sp) && m < |ts| && ts[m].Sym? && ts[m].c != '+'
    ensures |sp| == |ts| && lo <= sp[m].from < sp[m].to == sp[m].from + 1 <= hi <= |s| && s[sp[m].from] == ts[m].c
    ensures Covers(s, lo, sp[m].from, ts[..m], sp[..m]) && Covers(s, sp[m].to, hi, ts[m + 1..], sp[m + 1..])
  {
    CoversSplit(s, lo, hi, ts, sp, m);
    assert Reads(s, ts[m], sp[m]) && s[sp[m].from..sp[m].to][0] == s[sp[m].from];
  }

  lemma {:induction false} BackedPlaced(s: seq<char>, lo: nat, hi: nat, cmd: Cmd, ts: seq<Tok>, sp: seq<Span>)
    requires BackedOf(cmd, ts) && Covers(s, lo, hi, ts, sp)
    ensures Placed(s, cmd, lo, hi)
    decreases |ts|, 4
  {
    hide Covers, PipeOf;
    if PipeOf(cmd, ts) {
      PipePlaced(s, lo, hi, cmd, ts, sp);
    } else {
      var m := |ts| - 1;
      SymAt(s, lo, hi, ts, sp, m);
      BackedPlaced(s, lo, sp[m].from, cmd.cmd, ts[..m], sp[..m]);
    }
  }

  lemma {:induction false} PipePlaced(s: seq<char>, lo: nat, hi: nat, cmd: Cmd, ts: seq<Tok>, sp: seq<Span>)
    requires PipeOf(cmd, ts) && Covers(s, lo, hi, ts, sp)
    ensures Placed(s, cmd, lo, hi)
    decreases |ts|, 3
  {
    hide Covers, ExecOf;
    if ExecOf(cmd, ts) {
      ExecPlaced(s, lo, hi, cmd, ts, sp);
    } else {
      var m :| 0 <= m < |ts| && ts[m] == Sym('|') && ExecOf(cmd.left, ts[..m]) && PipeOf(cmd.right, ts[m + 1..]);
      SymAt(s, lo, hi, ts, sp, m);
      ExecPlaced(s, lo, sp[m].from, cmd.left, ts[..m], sp[..m]);
      PipePlaced(s, sp[m].to, hi, cmd.right, ts[m + 1..], sp[m + 1..]);
      assert Apart(s, cmd, lo, sp[m].from, hi);
    }
  }

  lemma {:induction false} ExecPlaced(s: seq<char>, lo: nat, hi: nat, cmd: Cmd, ts: seq<Tok>, sp: seq<Span>)
    requires ExecOf(cmd, ts) && Covers(s, lo, hi, ts, sp)
    ensures Placed(s, cmd, lo, hi)
    decreases |ts|, 2
  {
    hide Covers, SimpleOf, BlockOf;
    if SimpleOf(cmd, ts) {
      SimplePlaced(s, lo, hi, cmd, ts, sp);
    } else {
      BlockPlaced(s, lo, hi, cmd, ts, sp);
    }
  }

  lemma {:induction false} BlockPlaced(s: seq<char>, lo: nat, hi: nat, cmd: Cmd, ts: seq<Tok>, sp: seq<Span>)
    requires BlockOf(cmd, ts) && Covers(s, lo, hi, ts, sp)
    ensures Placed(s, cmd, lo, hi)
    decreases |ts|, 1
  {
    hide Covers, LineOf, Placed;
    var n := |ts| - 1;
    if ts[0] == Sym('(') && ts[n] == Sym(')') && LineOf(cmd, ts[1..n]) {
      SymAt(s, lo, hi, ts, sp, n);
      SymAt(s, lo, sp[n].from, ts[..n], sp[..n], 0);
      assert ts[..n][1..] == ts[1..n];
      LinePlaced(s, sp[0].to, sp[n].from, cmd, ts[1..n], sp[..n][1..]);
      PlacedWiden(s, cmd, sp[0].to, sp[n].from, lo, hi);
    } else {
      TwoLess(s, lo, hi, ts, sp);
      BlockPlaced(s, lo, sp[n - 1].from, cmd.cmd, ts[..n - 1], sp[..n - 1]);
      RedirPlaced(s, lo, hi, cmd, ts, sp);
    }
  }

  lemma TwoLess(s: seq<char>, lo: nat, hi: nat, ts: seq<Tok>, sp: seq<Span>)
    requires Covers(s, lo, hi, ts, sp) && |ts| >= 2
    ensures var n := |ts| - 2; |sp| == |ts| && lo <= sp[n].from <= hi <= |s| && Covers(s, lo, sp[n].from, ts[..n], sp[..n])
  {
    CoversSplit(s, lo, hi, ts, sp, |ts| - 2);
    assert Reads(s, ts[|ts| - 2], sp[|ts| - 2]);
  }

  lemma {:induction false} SimplePlaced(s: seq<char>, lo: nat, hi: nat, cmd: Cmd, ts: seq<Tok>, sp: seq<Span>)
    requires SimpleOf(cmd, ts) && Covers(s, lo, hi, ts, sp)
    ensures lo <= hi <= |s| && Placed(s, cmd, lo, hi)
    decreases |ts|, 0
  {
    var n := |ts| - 1;
    if ts != [] {
      if |ts| >= 2 && ts[|ts| - 2] in {Sym('<'), Sym('>'), Sym('+')} {
        TwoLess(s, lo, hi, ts, sp);
        hide Covers, Placed;
        SimplePlaced(s, lo, sp[n - 1].from, cmd.cmd, ts[..n - 1], sp[..n - 1]);
        RedirPlaced(s, lo, hi, cmd, ts, sp);
      } else {
        CoversSplit(s, lo, hi, ts, sp, n);
        assert Reads(s, ts[n], sp[n]) && lo <= sp[n].from && sp[n].to <= hi <= |s|;
        hide Covers, Placed;
        SimplePlaced(s, lo, sp[n].from, WithArgv(cmd, Argv(cmd)[..|Argv(cmd)| - 1]), ts[..n], sp[..n]);
        ArgPlaced(s, cmd, lo, sp[n].from, hi);
      }
    }
  }

  // ---------- As many nodes as symbols ----------

  lemma {:induction false} LineNodes(cmd: Cmd, ts: seq<Tok>, c: char)
    requires LineOf(cmd, ts) && c in Marks
    ensures Nodes(cmd, c) == multiset(ts)[Sym(c)]
    decreases |ts|, 5
  {
    hide BackedOf;
    if BackedOf(cmd, ts) {
      BackedNodes(cmd, ts, c);
    } else {
      var m :| 0 <= m < |ts| && ts[m] == Sym(';') && BackedOf(cmd.left, ts[..m]) && LineOf(cmd.right, ts[m + 1..]);
      BackedNodes(cmd.left, ts[..m], c);
      LineNodes(cmd.right, ts[m + 1..], c);
      CountAround(ts, m);
    }
  }

  lemma CountAround(ts: seq<Tok>, m: nat)
    requires m < |ts|
    ensures multiset(ts) == multiset(ts[..m]) + multiset{ts[m]} + multiset(ts[m + 1..])
  {
    assert ts == ts[..m] + [ts[m]] + ts[m + 1..];
  }

  lemma {:induction false} BackedNodes(cmd: Cmd, ts: seq<Tok>, c: char)
    requires BackedOf(cmd, ts) && c in Marks
    ensures Nodes(cmd, c) == multiset(ts)[Sym(c)]
    decreases |ts|, 4
  {
    hide PipeOf;
    if PipeOf(cmd, ts) {
      PipeNodes(cmd, ts, c);
    } else {
      BackedNodes(cmd.cmd, ts[..|ts| - 1], c);
      CountAround(ts, |ts| - 1);
    }
  }

  lemma {:induction false} PipeNodes(cmd: Cmd, ts: seq<Tok>, c: char)
    requires PipeOf(cmd, ts) && c in Marks
    ensures Nodes(cmd, c) == multiset(ts)[Sym(c)]
    decreases |ts|, 3
  {
    hide ExecOf;
    if ExecOf(cmd, ts) {
      ExecNodes(cmd, ts, c);
    } else {
      var m :| 0 <= m < |ts| && ts[m] == Sym('|') && ExecOf(cmd.left, ts[..m]) && PipeOf(cmd.right, ts[m + 1..]);
      ExecNodes(cmd.left, ts[..m], c);
      PipeNodes(cmd.right, ts[m + 1..], c);
      CountAround(ts, m);
    }
  }

  lemma {:induction false} ExecNodes(cmd: Cmd, ts: seq<Tok>, c: char)
    requires ExecOf(cmd, ts) && c in Marks
    ensures Nodes(cmd, c) == multiset(ts)[Sym(c)]
    decreases |ts|, 2
  {
    hide SimpleOf, BlockOf;
    if SimpleOf(cmd, ts) {
      SimpleNodes(cmd, ts, c);
    } else {
      BlockNodes(cmd, ts, c);
    }
  }

  lemma {:induction false} BlockNodes(cmd: Cmd, ts: seq<Tok>, c: char)
    requires BlockOf(cmd, ts) && c in Marks
    ensures Nodes(cmd, c) == multiset(ts)[Sym(c)]
    decreases |ts|, 1
  {
    hide LineOf;
    var n := |ts| - 1;
    CountAround(ts, n);
    if ts[0] == Sym('(') && ts[n] == Sym(')') && LineOf(cmd, ts[1..n]) {
      LineNodes(cmd, ts[1..n], c);
      CountAround(ts[..n], 0);
      assert ts[..n][1..] == ts[1..n] && ts[..n][..0] == [] && ts[n + 1..] == [];
    } else {
      BlockNodes(cmd.cmd, ts[..n - 1], c);
      RedirNode(cmd, ts, c);
    }
  }

  lemma RedirNode(cmd: Cmd, ts: seq<Tok>, c: char)
    requires |ts| >= 2 && RedirectedBy(cmd, ts[|ts| - 2], ts[|ts| - 1]) && c in Marks
    requires Nodes(cmd.cmd, c) == multiset(ts[..|ts| - 2])[Sym(c)]
    ensures Nodes(cmd, c) == multiset(ts)[Sym(c)]
  {
    var n := |ts| - 2;
    assert ts == ts[..n] + [ts[n], ts[n + 1]];
  }

  lemma {:induction false} SimpleNodes(cmd: Cmd, ts: seq<Tok>, c: char)
    requires SimpleOf(cmd, ts) && c in Marks
    ensures Nodes(cmd, c) == multiset(ts)[Sym(c)]
    decreases |ts|, 0
  {
    if ts != [] {
      var n := |ts| - 1;
      if |ts| >= 2 && ts[|ts| - 2] in {Sym('<'), Sym('>'), Sym('+')} {
        SimpleNodes(cmd.cmd, ts[..n - 1], c);
        RedirNode(cmd, ts, c);
      } else {
        var init := Argv(cmd)[..|Argv(cmd)| - 1];
        SimpleNodes(WithArgv(cmd, init), ts[..n], c);
        ArgvNodes(cmd, init, c);
        CountAround(ts, n);
      }
    }
  }

  lemma {:induction false} ArgvNodes(cmd: Cmd, argv: seq<Str>, c: char)
    ensures Nodes(WithArgv(cmd, argv), c) == Nodes(cmd, c)
    decreases cmd
  {
    if cmd.Redir? {
      ArgvNodes(cmd.cmd, argv, c);
    }
  }

  /** These symbols stand in the text as often as their tokens were read. */
  lemma {:induction false} TextCount(s: seq<char>, lo: nat, hi: nat, ts: seq<Tok>, sp: seq<Span>, c: char)
    requires Covers(s, lo, hi, ts, sp) && c in Marks
    ensures lo <= hi <= |s| && multiset(s[lo..hi])[c] == multiset(ts)[Sym(c)]
    decreases |ts|
  {
    if ts == [] {
      NoMark(s, lo, hi, ts, sp, c);
    } else {
      var n := |ts| - 1;
      CoversSplit(s, lo, hi, ts, sp, n);
      var a, b := sp[n].from, sp[n].to;
      assert Reads(s, ts[n], sp[n]) && lo <= a < b <= hi <= |s|;
      OneToken(s, ts[n], sp[n], c);
      assert ts[n + 1..] == [];
      hide Covers, Reads;
      TextCount(s, lo, a, ts[..n], sp[..n], c);
      NoMark(s, b, hi, ts[n + 1..], sp[n + 1..], c);
      InParts(s, lo, a, b, hi);
      CountAround(ts, n);
    }
  }

  lemma InParts(s: seq<char>, lo: nat, a: nat, b: nat, hi: nat)
    requires lo <= a <= b <= hi <= |s|
    ensures multiset(s[lo..hi]) == multiset(s[lo..a]) + multiset(s[a..b]) + multiset(s[b..hi])
  {
    assert s[lo..hi] == s[lo..a] + s[a..b] + s[b..hi];
  }

  lemma NoMark(s: seq<char>, lo: nat, hi: nat, ts: seq<Tok>, sp: seq<Span>, c: char)
    requires Covers(s, lo, hi, ts, sp) && ts == [] && c in Marks
    ensures c !in s[lo..hi]
  {
    forall k | lo <= k < hi ensures s[k] != c {
      assert White(s[k]);
    }
  }

  lemma OneToken(s: seq<char>, t: Tok, p: Span, c: char)
    requires Reads(s, t, p) && c in Marks
    ensures multiset(s[p.from..p.to])[c] == if t == Sym(c) then 1 else 0
  {
    if t.Word? {
      forall k | p.from <= k < p.to ensures s[k] != c {
        assert WordChar(s[k]);
      }
    }
  }

  // ---------- The command that the parser returns ----------

  /** The command whose tokens a text has, said of the tree and the text alone. */
  lemma CommandStands(text: seq<char>, cmd: Cmd)
    requires LineOf(cmd, Lex(text, 0))
    ensures Stands(text, cmd)
  {
    var ts := Lex(text, 0);
    var sp := LexCovers(text, 0);
    LinePlaced(text, 0, |text|, cmd, ts, sp);
    hide LineOf, Lex, Covers, Placed, Nodes;
    forall c | c in Marks ensures Nodes(cmd, c) == multiset(text)[c] {
      LineNodes(cmd, ts, c);
      TextCount(text, 0, |text|, ts, sp, c);
      assert text[0..|text|] == text;
    }
  }

  /** All strings of a command lie where it stands. */
  lemma {:induction false} PlacedWithin(s: seq<char>, cmd: Cmd, lo: nat, hi: nat, x: Str)
    requires lo <= hi <= |s| && Placed(s, cmd, lo, hi) && x in Strings(cmd)
    ensures lo <= x.q && x.eq <= hi && IsWord(s, x.q, x.eq)
    decreases cmd, 1
  {
    match cmd
    case Exec(argv) =>
    case Redir(c, file, _, _) =>
      if x != file {
        PlacedWithin(s, c, lo, hi, x);
      }
    case Pipe(l, r) => WithinParts(s, cmd, lo, hi, x);
    case List(l, r) => WithinParts(s, cmd, lo, hi, x);
    case Back(c) =>
      var m :| lo <= m < hi && s[m] == '&' && Placed(s, c, lo, m);
      PlacedWithin(s, c, lo, m, x);
  }

  lemma {:induction false} WithinParts(s: seq<char>, cmd: Cmd, lo: nat, hi: nat, x: Str)
    requires lo <= hi <= |s| && (cmd.Pipe? || cmd.List?) && Placed(s, cmd, lo, hi) && x in Strings(cmd)
    ensures lo <= x.q && x.eq <= hi && IsWord(s, x.q, x.eq)
    decreases cmd, 0
  {
    var m :| lo <= m < hi && Apart(s, cmd, lo, m, hi);
    if x in Strings(cmd.left) {
      PlacedWithin(s, cmd.left, lo, m, x);
    } else {
      PlacedWithin(s, cmd.right, m + 1, hi, x);
    }
  }

  /** In a pipe or a list every string of the left part ends before every string of the right one,
      with the symbol between them. */
  lemma LeftBeforeRight(s: seq<char>, cmd: Cmd, lo: nat, hi: nat, a: Str, b: Str) returns (m: nat)
    requires lo <= hi <= |s| && Placed(s, cmd, lo, hi) && (cmd.Pipe? || cmd.List?)
    requires a in Strings(cmd.left) && b in Strings(cmd.right)
    ensures a.eq <= m < b.q < |s| && s[m] == if cmd.Pipe? then '|' else ';'
  {
    m :| lo <= m < hi && Apart(s, cmd, lo, m, hi);
    PlacedWithin(s, cmd.left, lo, m, a);
    PlacedWithin(s, cmd.right, m + 1, hi, b);
  }
}
