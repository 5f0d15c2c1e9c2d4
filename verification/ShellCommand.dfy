/** The commands of the shell (struct cmd of sh.c), and how they are written. */
module ShellCommand {
  import opened ShellGrammar

  /** A string in the buffer, bytes q .. eq; struct cmd. */
  datatype Str = Str(q: nat, eq: nat)

  datatype Cmd =
    | Exec(argv: seq<Str>)
    | Redir(cmd: Cmd, file: Str, mode: nat, fd: nat)
    | Pipe(left: Cmd, right: Cmd)
    | List(left: Cmd, right: Cmd)
    | Back(cmd: Cmd)

  const O_RDONLY := 0
  const O_WRONLY_CREATE := 0x201

  /** redircmd for one redirection. */
  function Redirected(cmd: Cmd, r: Redirect): Cmd {
    if r.op == '<' then Cmd.Redir(cmd, Str(r.q, r.eq), O_RDONLY, 0) else Cmd.Redir(cmd, Str(r.q, r.eq), O_WRONLY_CREATE, 1)
  }

  /** The redirections around a command, the last outermost. */
  function Wrap(cmd: Cmd, rs: seq<Redirect>): Cmd
    decreases |rs|
  {
    if rs == [] then cmd else Redirected(Wrap(cmd, rs[..|rs| - 1]), rs[|rs| - 1])
  }

  function Backs(cmd: Cmd, n: nat): Cmd { if n == 0 then cmd else Back(Backs(cmd, n - 1)) }

  function Args(items: seq<Item>): seq<Str> {
    if items == [] then [] else (if items[0].Arg? then [Str(items[0].q, items[0].eq)] else []) + Args(items[1..])
  }

  function RedirsOf(items: seq<Item>): seq<Redirect> {
    if items == [] then [] else (if items[0].Redir? then [items[0].r] else []) + RedirsOf(items[1..])
  }

  // ---------- The command that a derivation stands for ----------

  function LineCmd(l: Line): Cmd {
    var c := Backs(PipeCmd(l.pipe), l.amps);
    if l.more.Then? then List(c, LineCmd(l.more.line)) else c
  }

  function PipeCmd(p: ShellGrammar.Pipe): Cmd {
    if p.more.Into? then Cmd.Pipe(ExecCmd(p.exec), PipeCmd(p.more.pipe)) else ExecCmd(p.exec)
  }

  function ExecCmd(e: ShellGrammar.Exec): Cmd {
    match e
    case Block(line, redirs) => Wrap(LineCmd(line), redirs)
    case Simple(items) => Wrap(Exec(Args(items)), RedirsOf(items))
  }

  /** The strings of a command. */
  function Strings(cmd: Cmd): set<Str> {
    match cmd
    case Exec(argv) => set s | s in argv
    case Redir(c, file, _, _) => Strings(c) + {file}
    case Pipe(l, r) => Strings(l) + Strings(r)
    case List(l, r) => Strings(l) + Strings(r)
    case Back(c) => Strings(c)
  }

  lemma {:induction false} ArgsAppend(a: seq<Item>, b: seq<Item>)
    ensures Args(a + b) == Args(a) + Args(b)
  {
    if a == [] {
      assert a + b == b;
    } else {
      ArgsAppend(a[1..], b);
      assert (a + b)[1..] == a[1..] + b;
      Assoc(if a[0].Arg? then [Str(a[0].q, a[0].eq)] else [], Args(a[1..]), Args(b));
    }
  }

  lemma {:induction false} RedirsAppend(a: seq<Item>, b: seq<Item>)
    ensures RedirsOf(a + b) == RedirsOf(a) + RedirsOf(b)
  {
    if a == [] {
      assert a + b == b;
    } else {
      RedirsAppend(a[1..], b);
      assert (a + b)[1..] == a[1..] + b;
      Assoc(if a[0].Redir? then [a[0].r] else [], RedirsOf(a[1..]), RedirsOf(b));
    }
  }

  // ---------- How a command is written ----------

  // What follows is said of the tree and the tokens alone. ';' separates the two parts of a list,
  // '|' those of a pipe, '&' stands behind what runs in the background, and parentheses go around a
  // line that stands where a simple command could.

  ghost predicate LineOf(cmd: Cmd, ts: seq<Tok>)
    decreases |ts|, 5
  {
    || BackedOf(cmd, ts)
    || (cmd.List? && exists m :: 0 <= m < |ts| && ts[m] == Sym(';') && BackedOf(cmd.left, ts[..m]) && LineOf(cmd.right, ts[m + 1..]))
  }

  ghost predicate BackedOf(cmd: Cmd, ts: seq<Tok>)
    decreases |ts|, 4
  {
    || PipeOf(cmd, ts)
    || (cmd.Back? && ts != [] && ts[|ts| - 1] == Sym('&') && BackedOf(cmd.cmd, ts[..|ts| - 1]))
  }

  ghost predicate PipeOf(cmd: Cmd, ts: seq<Tok>)
    decreases |ts|, 3
  {
    || ExecOf(cmd, ts)
    || (cmd.Pipe? && exists m :: 0 <= m < |ts| && ts[m] == Sym('|') && ExecOf(cmd.left, ts[..m]) && PipeOf(cmd.right, ts[m + 1..]))
  }

  ghost predicate ExecOf(cmd: Cmd, ts: seq<Tok>)
    decreases |ts|, 2
  {
    SimpleOf(cmd, ts) || BlockOf(cmd, ts)
  }

  ghost predicate BlockOf(cmd: Cmd, ts: seq<Tok>)
    decreases |ts|, 1
  {
    |ts| >= 2 && (
      || (ts[0] == Sym('(') && ts[|ts| - 1] == Sym(')') && LineOf(cmd, ts[1..|ts| - 1]))
      || (RedirectedBy(cmd, ts[|ts| - 2], ts[|ts| - 1]) && BlockOf(cmd.cmd, ts[..|ts| - 2])))
  }

  /** Words and redirections; the last redirection is the outermost, the last word the last of argv. */
  ghost predicate SimpleOf(cmd: Cmd, ts: seq<Tok>)
    decreases |ts|, 0
  {
    if ts == [] then cmd == Exec([])
    else if |ts| >= 2 && ts[|ts| - 2] in {Sym('<'), Sym('>'), Sym('+')} then
      RedirectedBy(cmd, ts[|ts| - 2], ts[|ts| - 1]) && SimpleOf(cmd.cmd, ts[..|ts| - 2])
    else
      && ts[|ts| - 1].Word? && Argv(cmd) != [] && Argv(cmd)[|Argv(cmd)| - 1] == Str(ts[|ts| - 1].q, ts[|ts| - 1].eq)
      && SimpleOf(WithArgv(cmd, Argv(cmd)[..|Argv(cmd)| - 1]), ts[..|ts| - 1])
  }

  /** '<' opens the file O_RDONLY as fd 0, '>' and ">>" open it O_WRONLY|O_CREATE as fd 1. */
  predicate RedirectedBy(cmd: Cmd, op: Tok, file: Tok) {
    && cmd.Redir? && file == Word(cmd.file.q, cmd.file.eq)
    && ((op == Sym('<') && cmd.mode == 0 && cmd.fd == 0)
        || (op in {Sym('>'), Sym('+')} && cmd.mode == 0x201 && cmd.fd == 1))
  }

  /** The arguments under the redirections of a simple command. */
  function Argv(cmd: Cmd): seq<Str> {
    match cmd
    case Exec(argv) => argv
    case Redir(c, _, _, _) => Argv(c)
    case _ => []
  }

  function WithArgv(cmd: Cmd, argv: seq<Str>): Cmd {
    match cmd
    case Exec(_) => Exec(argv)
    case Redir(c, file, mode, fd) => Cmd.Redir(WithArgv(c, argv), file, mode, fd)
    case _ => cmd
  }

  // ---------- The command of a derivation is written as the derivation reads ----------

  lemma {:induction false} LineWritten(l: Line)
    requires LineOk(l)
    ensures LineOf(LineCmd(l), LineYield(l))
    decreases l, 1
  {
    PipeWritten(l.pipe);
    BacksWritten(PipeCmd(l.pipe), PipeYield(l.pipe), l.amps);
    var c, ts := Backs(PipeCmd(l.pipe), l.amps), PipeYield(l.pipe) + Amps(l.amps);
    hide PipeCmd, PipeYield, Backs, BackedOf;
    if l.more.Then? {
      LineWritten(l.more.line);
      Split(ts, Sym(';'), LineYield(l.more.line));
      assert LineYield(l) == ts + ([Sym(';')] + LineYield(l.more.line));
    } else {
      assert LineYield(l) == ts;
    }
  }

  /** Two parts with a token between them, and where it is. */
  lemma Split(a: seq<Tok>, x: Tok, b: seq<Tok>)
    ensures var ts := a + ([x] + b); |a| < |ts| && ts[|a|] == x && ts[..|a|] == a && ts[|a| + 1..] == b
  {
  }

  lemma {:induction false} BacksWritten(cmd: Cmd, ts: seq<Tok>, n: nat)
    requires PipeOf(cmd, ts)
    ensures BackedOf(Backs(cmd, n), ts + Amps(n))
  {
    if n == 0 {
      assert ts + Amps(0) == ts;
    } else {
      BacksWritten(cmd, ts, n - 1);
      var all := ts + Amps(n);
      assert all[..|all| - 1] == ts + Amps(n - 1);
    }
  }

  lemma {:induction false} PipeWritten(p: ShellGrammar.Pipe)
    requires PipeOk(p)
    ensures PipeOf(PipeCmd(p), PipeYield(p))
    decreases p, 1
  {
    ExecWritten(p.exec);
    hide ExecOf, ExecCmd, ExecYield;
    if p.more.Into? {
      PipeWritten(p.more.pipe);
      Split(ExecYield(p.exec), Sym('|'), PipeYield(p.more.pipe));
    } else {
      assert PipeYield(p) == ExecYield(p.exec);
    }
  }

  lemma {:induction false} ExecWritten(e: ShellGrammar.Exec)
    requires ExecOk(e)
    ensures ExecOf(ExecCmd(e), ExecYield(e))
    decreases e, 1
  {
    match e
    case Block(line, redirs) =>
      InParens(e);
    case Simple(items) =>
      ItemsWritten(items);
      hide SimpleOf, Wrap, BlockOf;
  }

  lemma {:induction false} InParens(e: ShellGrammar.Exec)
    requires e.Block? && ExecOk(e)
    ensures BlockOf(ExecCmd(e), ExecYield(e))
    decreases e, 0
  {
    LineWritten(e.line);
    BlockWritten(LineCmd(e.line), LineYield(e.line), e.redirs);
  }

  lemma {:induction false} BlockWritten(cmd: Cmd, ts: seq<Tok>, rs: seq<Redirect>)
    requires LineOf(cmd, ts) && forall i :: 0 <= i < |rs| ==> RedirOk(rs[i])
    ensures BlockOf(Wrap(cmd, rs), [Sym('(')] + ts + [Sym(')')] + RedirsYield(rs))
    decreases |rs|
  {
    var block := [Sym('(')] + ts + [Sym(')')];
    assert block[1..|block| - 1] == ts;
    hide LineOf, RedirsYield;
    if rs == [] {
      RedirsLast(rs);
      assert block + [] == block;
    } else {
      var init, r := rs[..|rs| - 1], rs[|rs| - 1];
      BlockWritten(cmd, ts, init);
      RedirsLast(rs);
      var inner, last := block + RedirsYield(init), [Sym(r.op), Word(r.q, r.eq)];
      OneMoreRedir(Wrap(cmd, init), inner, r);
      assert block + RedirsYield(rs) == inner + last;
      hide BlockOf, Redirected;
    }
  }

  lemma OneMoreRedir(cmd: Cmd, ts: seq<Tok>, r: Redirect)
    requires BlockOf(cmd, ts) && RedirOk(r)
    ensures BlockOf(Redirected(cmd, r), ts + [Sym(r.op), Word(r.q, r.eq)])
  {
    var all := ts + [Sym(r.op), Word(r.q, r.eq)];
    assert all[..|all| - 2] == ts;
    hide LineOf;
  }

  /** The yield of redirections, from the end. */
  lemma {:induction false} RedirsLast(rs: seq<Redirect>)
    ensures rs == [] ==> RedirsYield(rs) == []
    ensures rs != [] ==> var r := rs[|rs| - 1]; RedirsYield(rs) == RedirsYield(rs[..|rs| - 1]) + [Sym(r.op), Word(r.q, r.eq)]
  {
    if |rs| == 1 {
      assert rs[1..] == [] && rs[..0] == [];
    } else if rs != [] {
      RedirsLast(rs[1..]);
      var init := rs[..|rs| - 1];
      assert init[1..] == rs[1..][..|rs| - 2] && init[0] == rs[0];
      Assoc(RedirYield(rs[0]), RedirsYield(init[1..]), RedirYield(rs[|rs| - 1]));
    }
  }

  function ItemYield(x: Item): seq<Tok> { if x.Arg? then [Word(x.q, x.eq)] else RedirYield(x.r) }

  lemma {:induction false} ItemsLast(items: seq<Item>, x: Item)
    ensures ItemsYield(items + [x]) == ItemsYield(items) + ItemYield(x)
  {
    if items == [] {
      assert items + [x] == [x] && ItemsYield([x][1..]) == [];
    } else {
      ItemsLast(items[1..], x);
      assert (items + [x])[1..] == items[1..] + [x];
    }
  }

  /** Words and redirections end in a word. */
  lemma EndsInWord(items: seq<Item>)
    requires items != []
    ensures var ts := ItemsYield(items); ts != [] && ts[|ts| - 1].Word?
  {
    ItemsLast(items[..|items| - 1], items[|items| - 1]);
    assert items[..|items| - 1] + [items[|items| - 1]] == items;
  }

  lemma {:induction false} ItemsWritten(items: seq<Item>)
    requires forall i :: 0 <= i < |items| ==> items[i].Arg? || RedirOk(items[i].r)
    ensures SimpleOf(Wrap(Exec(Args(items)), RedirsOf(items)), ItemsYield(items))
    decreases |items|
  {
    if items != [] {
      var init, x := items[..|items| - 1], items[|items| - 1];
      assert items == init + [x];
      ItemsWritten(init);
      ItemsLast(init, x);
      ArgsAppend(init, [x]);
      RedirsAppend(init, [x]);
      if init != [] {
        EndsInWord(init);
      }
      ItemWritten(Args(init), RedirsOf(init), ItemsYield(init), x);
    }
  }

  lemma {:induction false} ItemWritten(argv: seq<Str>, rs: seq<Redirect>, ts: seq<Tok>, x: Item)
    requires SimpleOf(Wrap(Exec(argv), rs), ts) && (ts != [] ==> ts[|ts| - 1].Word?) && (x.Arg? || RedirOk(x.r))
    ensures SimpleOf(Wrap(Exec(argv + Args([x])), rs + RedirsOf([x])), ts + ItemYield(x))
  {
    var all := ts + ItemYield(x);
    OneItem(x);
    if x.Arg? {
      var more := argv + [Str(x.q, x.eq)];
      assert rs + [] == rs && all[..|all| - 1] == ts && more[..|more| - 1] == argv;
      WrapArgv(more, argv, rs);
    } else {
      assert argv + [] == argv && all[..|all| - 2] == ts && (rs + [x.r])[..|rs|] == rs;
    }
  }

  lemma OneItem(x: Item)
    ensures Args([x]) == (if x.Arg? then [Str(x.q, x.eq)] else []) && RedirsOf([x]) == if x.Arg? then [] else [x.r]
  {
    assert [x][1..] == [];
  }

  lemma {:induction false} WrapArgv(a: seq<Str>, b: seq<Str>, rs: seq<Redirect>)
    ensures Argv(Wrap(Exec(a), rs)) == a && WithArgv(Wrap(Exec(a), rs), b) == Wrap(Exec(b), rs)
    decreases |rs|
  {
    if rs != [] {
      WrapArgv(a, b, rs[..|rs| - 1]);
    }
  }
}
