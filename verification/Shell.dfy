/** The shell's parser (sh.c) on its input buffer. */
module Shell {
  import opened ShellGrammar
  import opened ShellCommand
  import opened ShellText

  /** What gettoken reports for a token. */
  predicate IsTok(t: Tok, ret: char, q: nat, eq: nat) {
    match t
    case Word(a, b) => ret == 'a' && a == q && b == eq
    case Sym(c) => ret == c && ret !in ['\0', 'a']
  }

  datatype Parsed<T> = Value(value: T) | Panic(why: Error)

  class Parser {
    const buf: array<char>
    const es: nat
    var ps: nat

    ghost predicate Valid()
      reads this, buf
    {
      ps <= es < buf.Length && buf[es] == '\0' && '\0' !in buf[..es]
    }

    ghost function Text(): seq<char>
      reads this, buf
      requires es <= buf.Length
    {
      buf[..es]
    }

    /** The tokens still to come. */
    ghost function Toks(): seq<Tok>
      reads this, buf
      requires Valid()
    {
      Lex(buf[..es], ps)
    }

    /** es = s + strlen(s) */
    constructor (buf: array<char>)
      requires '\0' in buf[..]
      ensures this.buf == buf && ps == 0 && Valid()
    {
      this.buf := buf;
      ps := 0;
      var n := 0;
      while buf[n] != '\0'
        invariant n < buf.Length && '\0' !in buf[..n]
        decreases buf.Length - n
      {
        assert buf[..n + 1] == buf[..n] + [buf[n]];
        assert buf[..] == buf[..n + 1] + buf[n + 1..];
        n := n + 1;
      }
      es := n;
    }

    method Skip(s: nat) returns (t: nat)
      requires es < buf.Length && s <= es
      ensures t == SkipWhite(buf[..es], s)
    {
      t := s;
      while t < es && White(buf[t])
        invariant t <= es && SkipWhite(buf[..es], t) == SkipWhite(buf[..es], s)
      {
        t := t + 1;
      }
    }

    /** The next token: its kind, and for a word where it is. */
    method Gettoken() returns (ret: char, q: nat, eq: nat)
      requires Valid()
      modifies `ps
      ensures Valid()
      ensures old(Toks()) == [] ==> ret == '\0' && Toks() == []
      ensures old(Toks()) != [] ==> Toks() == old(Toks())[1..] && IsTok(old(Toks())[0], ret, q, eq)
      ensures ps < es ==> !White(buf[ps])
    {
      hide TokenAt, SkipWhite, Lex;
      ghost var text := buf[..es];
      q := Skip(ps);
      LexStep(text, ps);
      ret, eq := ReadToken(q);
      ps := Skip(eq);
      LexSkips(text, eq, ps);
      LexStep(text, ps);
    }

    /** The switch of gettoken. */
    method ReadToken(q: nat) returns (ret: char, eq: nat)
      requires Valid() && q <= es && (q < es ==> !White(buf[q]))
      ensures q == es ==> ret == '\0' && eq == es
      ensures q < es ==> TokenAt(buf[..es], q).1 == eq && IsTok(TokenAt(buf[..es], q).0, ret, q, eq)
    {
      ghost var text := buf[..es];
      assert forall k :: 0 <= k < es ==> buf[k] == text[k] && buf[k] in buf[..es];
      var s := q;
      ret := buf[s];
      if ret == '\0' {
      } else if ret in ['|', '(', ')', ';', '&', '<'] {
        s := s + 1;
      } else if ret == '>' {
        s := s + 1;
        if buf[s] == '>' {
          ret := '+';
          s := s + 1;
        }
      } else {
        ret := 'a';
        while s < es && WordChar(buf[s])
          invariant q <= s <= es && WordEnd(text, s) == WordEnd(text, q)
        {
          s := s + 1;
        }
      }
      eq := s;
    }

    /** Whether the next token starts with one of these symbols. */
    method Peek(toks: seq<char>) returns (found: bool)
      requires Valid() && forall c :: c in toks ==> Symbol(c)
      modifies `ps
      ensures Valid() && Toks() == old(Toks()) && (found <==> Head(Toks(), toks)) && (ps == es <==> Toks() == [])
    {
      ghost var text := buf[..es];
      var s := Skip(ps);
      LexSkips(text, ps, s);
      ps := s;
      return buf[s] != '\0' && buf[s] in toks;
    }

    /** parseredirs: the redirections that come next. */
    method Parseredirs() returns (r: Parsed<seq<Redirect>>)
      requires Valid()
      modifies `ps
      ensures Valid() && Matches(ParseRedirs(old(Toks())), r, Toks())
    {
      hide Lex;
      ghost var ts0 := Toks();
      var rs: seq<Redirect> := [];
      RedirsStart(ts0);
      var more := Peek(['<', '>']);
      while more
        invariant Valid() && (more <==> Head(Toks(), ['<', '>'])) && RedirsSoFar(ts0, rs, Toks())
        decreases |Toks()|
      {
        ghost var ts := Toks();
        RedirsNext(ts0, rs, ts);
        var tok, _, _ := Gettoken();
        var kind, q, eq := Gettoken();
        if kind != 'a' {
          return Panic(MissingFile);
        }
        rs := rs + [Redirect(tok, q, eq)];
        more := Peek(['<', '>']);
      }
      RedirsDone(ts0, rs, Toks());
      return Value(rs);
    }
  
    /** parseblock: a line in parentheses, and redirections of the whole. */
    method Parseblock() returns (r: Parsed<Cmd>)
      requires Valid()
      modifies `ps
      ensures Valid() && Comes(ParseBlock(old(Toks())), r, Toks())
      ensures r.Value? ==> BlockOf(r.value, Taken(old(Toks()), Toks()))
      decreases |Toks()|, 0
    {
      hide Lex, ParseLine, ParseRedirs, BlockOf, LineOf, LineCmd, Wrap;
      ghost var ts0 := Toks();
      var starts := Peek(['(']);
      if !starts {
        return Panic(NoBlock);
      }
      var _, _, _ := Gettoken();
      var cmd := Parseline();
      if cmd.Panic? {
        return cmd;
      }
      var closed := Peek([')']);
      if !closed {
        return Panic(MissingParen);
      }
      var _, _, _ := Gettoken();
      var redirs := Parseredirs();
      if redirs.Panic? {
        return Panic(redirs.why);
      }
      r := Value(Wrap(cmd.value, redirs.value));
      BlockRead(ts0, r, Toks());
    }

    /** parsepipe */
    method Parsepipe() returns (r: Parsed<Cmd>)
      requires Valid()
      modifies `ps
      ensures Valid() && ComesPipe(ParsePipe(old(Toks())), r, Toks())
      ensures r.Value? ==> PipeOf(r.value, Taken(old(Toks()), Toks()))
      decreases |Toks()|, 2
    {
      hide Lex, ParseExec, ExecOf, PipeOf, ExecCmd, Taken;
      ghost var ts0 := Toks();
      r := Parseexec();
      if r.Panic? {
        return;
      }
      var piped := Peek(['|']);
      if piped {
        var _, _, _ := Gettoken();
        var right := Parsepipe();
        if right.Panic? {
          return right;
        }
        r := Value(Cmd.Pipe(r.value, right.value));
      }
      PipeRead(ts0, r, Toks());
    }

    /** parseline */
    method Parseline() returns (r: Parsed<Cmd>)
      requires Valid()
      modifies `ps
      ensures Valid() && ComesLine(ParseLine(old(Toks())), r, Toks())
      ensures r.Value? ==> LineOf(r.value, Taken(old(Toks()), Toks()))
      decreases |Toks()|, 3
    {
      hide Lex, ParsePipe, ParseLine, LineCmd, PipeCmd, ComesLine, White, IsTok, PipeOf, LineOf, Taken;
      ghost var ts0 := Toks();
      NoPipeNoLine(ts0);
      r := Parsepipe();
      if r.Panic? {
        return;
      }
      ghost var p, left := ParsePipe(ts0).value, Toks();
      ghost var n := 0;
      var amp := Peek(['&']);
      while amp
        invariant Valid() && (amp <==> Head(Toks(), ['&'])) && n <= |left| && Toks() == left[n..]
        invariant r == Value(Backs(PipeCmd(p), n)) && CountAmps(left) == n + CountAmps(Toks())
        decreases |Toks()|
      {
        var _, _, _ := Gettoken();
        r := Value(Back(r.value));
        n := n + 1;
        amp := Peek(['&']);
      }
      LineIs(ts0, p, left, n);
      var semi := Peek([';']);
      if semi {
        var _, _, _ := Gettoken();
        ghost var ts := Toks();
        var next := Parseline();
        LineThen(ts0, ts, next, Toks(), r.value);
        if next.Panic? {
          return next;
        }
        r := Value(List(r.value, next.value));
      }
      LineRead(ts0, r, Toks());
    }

    /** parseexec: a block, or the words and redirections of a command. */
    method Parseexec() returns (r: Parsed<Cmd>)
      requires Valid()
      modifies `ps
      ensures Valid() && Comes(ParseExec(old(Toks())), r, Toks())
      ensures r.Value? ==> ExecOf(r.value, Taken(old(Toks()), Toks()))
      decreases |Toks()|, 1
    {
      hide Lex, ParseBlock, ParseItems, ParseRedirs, ParseExec, Comes, ItemsSoFar, Args, RedirsOf, AsItems, BlockOf, ExecOf, Taken;
      ghost var ts0 := Toks();
      var block := Peek(['(']);
      ExecIs(ts0);
      if block {
        r := Parseblock();
        ExecRead(ts0, r, Toks());
        return;
      }
      var argv: seq<Str> := [];
      ghost var items: seq<Item> := [];
      ItemsStart(ts0);
      var redirs := Parseredirs();
      if redirs.Panic? {
        RedirItems(ts0, 0);
        return Panic(redirs.why);
      }
      var rs := redirs.value;
      items := [] + AsItems(rs);
      ItemsRedirs(ts0, [], 0, ts0, rs, Toks());
      assert [] + rs == rs;
      var stop := Peek(['|', ')', '&', ';']);
      while !stop
        invariant Valid() && (stop <==> Head(Toks(), ['|', ')', '&', ';'])) && !Head(Toks(), ['<', '>'])
        invariant ItemsSoFar(ts0, items, |argv|, Toks()) && argv == Args(items) && rs == RedirsOf(items)
        decreases |Toks()|
      {
        ghost var ts := Toks();
        ItemsNext(ts0, items, |argv|, ts);
        var tok, q, eq := Gettoken();
        if tok == '\0' {
          break;
        }
        if tok != 'a' {
          return Panic(Syntax);
        }
        argv := argv + [Str(q, eq)];
        if |argv| >= MAXARGS {
          return Panic(TooManyArgs);
        }
        ArgAppended(items, q, eq);
        items := items + [Arg(q, eq)];
        ts := Toks();
        redirs := Parseredirs();
        if redirs.Panic? {
          RedirItems(ts, |argv|);
          return Panic(redirs.why);
        }
        ItemsRedirs(ts0, items, |argv|, ts, redirs.value, Toks());
        rs := rs + redirs.value;
        items := items + AsItems(redirs.value);
        stop := Peek(['|', ')', '&', ';']);
      }
      ItemsDone(ts0, items, |argv|, Toks());
      r := Value(Wrap(Cmd.Exec(argv), rs));
      ExecRead(ts0, r, Toks());
    }
  
    /** nulterminate: a NUL behind every string of the command, and nowhere else. */
    method Nulterminate(cmd: Cmd)
      requires forall s :: s in Strings(cmd) ==> s.eq < buf.Length
      modifies buf
      ensures Marked(old(buf[..]), buf[..], cmd)
      decreases cmd
    {
      match cmd
      case Exec(argv) =>
        var i := 0;
        while i < |argv|
          invariant i <= |argv|
          invariant forall k :: 0 <= k < buf.Length ==> buf[k] == if EndsAt(argv[..i], k) then '\0' else old(buf[k])
        {
          assert argv[i] in Strings(cmd);
          assert argv[..i + 1] == argv[..i] + [argv[i]];
          buf[argv[i].eq] := '\0';
          i := i + 1;
        }
        assert argv[..i] == argv;
      case Redir(c, file, _, _) =>
        Nulterminate(c);
        buf[file.eq] := '\0';
      case Pipe(left, right) =>
        Nulterminate(left);
        Nulterminate(right);
      case List(left, right) =>
        Nulterminate(left);
        Nulterminate(right);
      case Back(c) =>
        Nulterminate(c);
    }

    /** parsecmd: the command that the whole input means, its strings NUL-terminated in place; a panic
        if and only if the input is not in the grammar. */
    method Parsecmd() returns (r: Parsed<Cmd>)
      requires Valid() && ps == 0
      modifies this, buf
      ensures r.Value? ==> Means(old(Text()), r.value)
      ensures r.Value? ==> LineOf(r.value, Lex(old(Text()), 0)) && Stands(old(Text()), r.value)
      ensures r.Value? ==> forall s :: s in Strings(r.value) ==>
        s.q < s.eq <= es && StringAt(buf[..], s.q, old(Text())[s.q..s.eq])
      ensures r.Panic? ==> buf[..] == old(buf[..]) && forall l :: LineOk(l) ==> LineYield(l) != Lex(old(Text()), 0)
    {
      hide Lex, ParseLine, LineYield, LineOk, LineCmd, LineOf, Stands, Strings, Means, StringAt, Marked;
      ghost var text, before := Text(), buf[..];
      ParserExact(Lex(text, 0));
      r := Parseline();
      if r.Panic? {
        return;
      }
      var _ := Peek([]);
      if ps != es {
        return Panic(Leftovers);
      }
      ghost var l := ParseLine(Lex(text, 0)).value;
      MeansBy(text, l);
      CommandWords(text, l);
      LineWritten(l);
      CommandStands(text, r.value);
      Nulterminate(r.value);
      forall s | s in Strings(r.value) ensures s.q < s.eq <= es && StringAt(buf[..], s.q, text[s.q..s.eq]) {
        StringsMarked(before, buf[..], text, r.value, s);
      }
    }
  }

  /** A parsing method has come to the same as the parser on tokens. */
  ghost predicate Matches<T>(o: Out<T>, r: Parsed<T>, rest: seq<Tok>) {
    match o
    case Ok(v, left) => r == Value(v) && rest == left
    case Err(e) => r == Panic(e)
  }

  /** The tokens read before these were left. */
  function Taken(ts: seq<Tok>, left: seq<Tok>): seq<Tok> {
    if |left| <= |ts| then ts[..|ts| - |left|] else []
  }

  lemma TakenIs(read: seq<Tok>, left: seq<Tok>)
    ensures Taken(read + left, left) == read
  {
  }

  lemma BlockRead(ts: seq<Tok>, r: Parsed<Cmd>, rest: seq<Tok>)
    requires Comes(ParseBlock(ts), r, rest)
    ensures r.Value? ==> BlockOf(r.value, Taken(ts, rest))
  {
    if r.Value? {
      ExecSound(ts);
      var x := ParseBlock(ts).value;
      InParens(x);
      hide *;
      TakenIs(ExecYield(x), rest);
    }
  }

  lemma ExecRead(ts: seq<Tok>, r: Parsed<Cmd>, rest: seq<Tok>)
    requires Comes(ParseExec(ts), r, rest)
    ensures r.Value? ==> ExecOf(r.value, Taken(ts, rest))
  {
    if r.Value? {
      ExecSound(ts);
      ExecWritten(ParseExec(ts).value);
      TakenIs(ExecYield(ParseExec(ts).value), rest);
    }
  }

  lemma PipeRead(ts: seq<Tok>, r: Parsed<Cmd>, rest: seq<Tok>)
    requires ComesPipe(ParsePipe(ts), r, rest)
    ensures r.Value? ==> PipeOf(r.value, Taken(ts, rest))
  {
    if r.Value? {
      PipeSound(ts);
      PipeWritten(ParsePipe(ts).value);
      TakenIs(PipeYield(ParsePipe(ts).value), rest);
    }
  }

  lemma LineRead(ts: seq<Tok>, r: Parsed<Cmd>, rest: seq<Tok>)
    requires ComesLine(ParseLine(ts), r, rest)
    ensures r.Value? ==> LineOf(r.value, Taken(ts, rest))
  {
    if r.Value? {
      LineSound(ts);
      LineWritten(ParseLine(ts).value);
      TakenIs(LineYield(ParseLine(ts).value), rest);
    }
  }

  /** rs has been read of ts0, ts is left. */
  ghost predicate RedirsSoFar(ts0: seq<Tok>, rs: seq<Redirect>, ts: seq<Tok>) {
    match ParseRedirs(ts)
    case Ok(more, left) => ParseRedirs(ts0) == Ok(rs + more, left)
    case Err(e) => ParseRedirs(ts0) == Err(e)
  }

  lemma RedirsNext(ts0: seq<Tok>, rs: seq<Redirect>, ts: seq<Tok>)
    requires RedirsSoFar(ts0, rs, ts) && Head(ts, ['<', '>'])
    ensures |ts| < 2 || !ts[1].Word? ==> ParseRedirs(ts0) == Err(MissingFile)
    ensures |ts| >= 2 && ts[1].Word? ==> RedirsSoFar(ts0, rs + [Redirect(ts[0].c, ts[1].q, ts[1].eq)], ts[2..])
  {
    if |ts| >= 2 && ts[1].Word? && ParseRedirs(ts[2..]).Ok? {
      var x, more := Redirect(ts[0].c, ts[1].q, ts[1].eq), ParseRedirs(ts[2..]).value;
      assert rs + ([x] + more) == rs + [x] + more;
    }
  }

  lemma RedirsDone(ts0: seq<Tok>, rs: seq<Redirect>, ts: seq<Tok>)
    requires RedirsSoFar(ts0, rs, ts) && !Head(ts, ['<', '>'])
    ensures ParseRedirs(ts0) == Ok(rs, ts)
  {
    assert rs + [] == rs;
  }

  lemma RedirsStart(ts: seq<Tok>)
    ensures RedirsSoFar(ts, [], ts)
  {
    if ParseRedirs(ts).Ok? {
      assert [] + ParseRedirs(ts).value == ParseRedirs(ts).value;
    }
  }

  /** parseexec has come to the same as the parser on tokens. */
  ghost predicate Comes(o: Out<ShellGrammar.Exec>, r: Parsed<Cmd>, rest: seq<Tok>) {
    match o
    case Ok(x, left) => r == Value(ExecCmd(x)) && rest == left
    case Err(e) => r == Panic(e)
  }

  ghost predicate ComesPipe(o: Out<ShellGrammar.Pipe>, r: Parsed<Cmd>, rest: seq<Tok>) {
    match o
    case Ok(p, left) => r == Value(PipeCmd(p)) && rest == left
    case Err(e) => r == Panic(e)
  }

  ghost predicate ComesLine(o: Out<Line>, r: Parsed<Cmd>, rest: seq<Tok>) {
    match o
    case Ok(l, left) => r == Value(LineCmd(l)) && rest == left
    case Err(e) => r == Panic(e)
  }

  /** The cases of parseline. */
  lemma NoPipeNoLine(ts: seq<Tok>)
    ensures ParsePipe(ts).Err? ==> forall rest :: ComesLine(ParseLine(ts), Panic(ParsePipe(ts).why), rest)
  {
  }

  lemma LineIs(ts: seq<Tok>, p: ShellGrammar.Pipe, left: seq<Tok>, n: nat)
    requires ParsePipe(ts) == Ok(p, left) && n == CountAmps(left)
    ensures !Head(left[n..], [';']) ==> ComesLine(ParseLine(ts), Value(Backs(PipeCmd(p), n)), left[n..])
    ensures Head(left[n..], [';']) ==> LineGoesOn(ts, Backs(PipeCmd(p), n), left[n + 1..])
  {
    hide PipeCmd, Backs, ParsePipe, CountAmps;
  }

  /** The line ts is the command c and whatever ts' is parsed to. */
  ghost predicate LineGoesOn(ts: seq<Tok>, c: Cmd, ts': seq<Tok>) {
    match ParseLine(ts')
    case Err(e) => ParseLine(ts) == Err(e)
    case Ok(l, left) => ParseLine(ts).Ok? && ParseLine(ts).rest == left && LineCmd(ParseLine(ts).value) == List(c, LineCmd(l))
  }

  lemma LineThen(ts: seq<Tok>, ts': seq<Tok>, next: Parsed<Cmd>, rest: seq<Tok>, c: Cmd)
    requires LineGoesOn(ts, c, ts') && ComesLine(ParseLine(ts'), next, rest)
    ensures ComesLine(ParseLine(ts), if next.Panic? then next else Value(List(c, next.value)), rest)
  {
    hide ParseLine, LineCmd;
  }

  function AsItems(rs: seq<Redirect>): seq<Item> {
    if rs == [] then [] else [Item.Redir(rs[0])] + AsItems(rs[1..])
  }

  /** items have been read of ts0, argc of them words; ts is left. */
  ghost predicate ItemsSoFar(ts0: seq<Tok>, items: seq<Item>, argc: nat, ts: seq<Tok>) {
    match ParseItems(ts, argc)
    case Ok(more, left) => ParseItems(ts0, 0) == Ok(items + more, left)
    case Err(e) => ParseItems(ts0, 0) == Err(e)
  }

  ghost predicate ItemsCome(ts: seq<Tok>, o: Out<seq<Item>>) {
    match o
    case Err(e) => forall rest :: Comes(ParseExec(ts), Panic(e), rest)
    case Ok(items, left) => Comes(ParseExec(ts), Value(Wrap(Cmd.Exec(Args(items)), RedirsOf(items))), left)
  }

  /** The two cases of parseexec. */
  lemma ExecIs(ts: seq<Tok>)
    ensures Head(ts, ['(']) ==> ParseExec(ts) == ParseBlock(ts)
    ensures Args([]) == [] && RedirsOf([]) == []
    ensures !Head(ts, ['(']) ==> ItemsCome(ts, ParseItems(ts, 0))
  {
  }

  lemma ItemsStart(ts: seq<Tok>)
    ensures ItemsSoFar(ts, [], 0, ts)
  {
    hide ParseItems;
    if ParseItems(ts, 0).Ok? {
      assert [] + ParseItems(ts, 0).value == ParseItems(ts, 0).value;
    }
  }

  /** Redirections among the items are read by parseredirs. */
  lemma {:induction false} RedirItems(ts: seq<Tok>, argc: nat)
    ensures RedirsAhead(ts, argc)
  {
    if Head(ts, ['<', '>']) {
      if |ts| >= 2 && ts[1].Word? {
        RedirItems(ts[2..], argc);
        RedirItem(ts, argc);
      }
    } else if ParseItems(ts, argc).Ok? {
      assert [] + ParseItems(ts, argc).value == ParseItems(ts, argc).value;
    }
  }

  /** o is o', with these items in front. */
  predicate Prefixed(o: Out<seq<Item>>, items: seq<Item>, o': Out<seq<Item>>) {
    match o'
    case Err(e) => o == Err(e)
    case Ok(more, left) => o == Ok(items + more, left)
  }

  /** The items of ts are the redirections that parseredirs finds, and those behind them. */
  ghost predicate RedirsAhead(ts: seq<Tok>, argc: nat) {
    match ParseRedirs(ts)
    case Err(e) => ParseItems(ts, argc) == Err(e)
    case Ok(rs, left) => !Head(left, ['<', '>']) && Prefixed(ParseItems(ts, argc), AsItems(rs), ParseItems(left, argc))
  }

  lemma RedirItem(ts: seq<Tok>, argc: nat)
    requires Head(ts, ['<', '>']) && |ts| >= 2 && ts[1].Word?
    requires RedirsAhead(ts[2..], argc)
    ensures RedirsAhead(ts, argc)
  {
    var x, tail := Redirect(ts[0].c, ts[1].q, ts[1].eq), ParseRedirs(ts[2..]);
    if tail.Ok? {
      assert ([x] + tail.value)[1..] == tail.value;
      if ParseItems(tail.rest, argc).Ok? {
        Assoc([Item.Redir(x)], AsItems(tail.value), ParseItems(tail.rest, argc).value);
      }
    }
  }

  lemma ArgAppended(a: seq<Item>, q: nat, eq: nat)
    ensures Args(a + [Arg(q, eq)]) == Args(a) + [Str(q, eq)] && RedirsOf(a + [Arg(q, eq)]) == RedirsOf(a)
  {
    ArgsAppend(a, [Arg(q, eq)]);
    RedirsAppend(a, [Arg(q, eq)]);
  }

  lemma {:induction false} AsItemsOf(rs: seq<Redirect>)
    ensures Args(AsItems(rs)) == [] && RedirsOf(AsItems(rs)) == rs
  {
    if rs != [] {
      AsItemsOf(rs[1..]);
      assert AsItems(rs)[1..] == AsItems(rs[1..]);
    }
  }

  lemma ItemsRedirs(ts0: seq<Tok>, items: seq<Item>, argc: nat, ts: seq<Tok>, rs: seq<Redirect>, left: seq<Tok>)
    requires ItemsSoFar(ts0, items, argc, ts) && ParseRedirs(ts) == Ok(rs, left)
    ensures ItemsSoFar(ts0, items + AsItems(rs), argc, left) && !Head(left, ['<', '>'])
    ensures Args(items + AsItems(rs)) == Args(items) && RedirsOf(items + AsItems(rs)) == RedirsOf(items) + rs
  {
    hide ParseItems, ParseRedirs;
    RedirItems(ts, argc);
    ArgsAppend(items, AsItems(rs));
    RedirsAppend(items, AsItems(rs));
    AsItemsOf(rs);
    if ParseItems(left, argc).Ok? {
      Assoc(items, AsItems(rs), ParseItems(left, argc).value);
    }
  }

  /** The next token of a command that does not end here. */
  lemma ItemsNext(ts0: seq<Tok>, items: seq<Item>, argc: nat, ts: seq<Tok>)
    requires ItemsSoFar(ts0, items, argc, ts) && !Head(ts, ['<', '>']) && !Head(ts, ['|', ')', '&', ';'])
    ensures ts != [] && !ts[0].Word? ==> ParseItems(ts0, 0) == Err(Syntax)
    ensures ts != [] && ts[0].Word? && argc + 1 >= MAXARGS ==> ParseItems(ts0, 0) == Err(TooManyArgs)
    ensures ts != [] && ts[0].Word? && argc + 1 < MAXARGS ==>
      ItemsSoFar(ts0, items + [Arg(ts[0].q, ts[0].eq)], argc + 1, ts[1..])
  {
    if ts != [] && ts[0].Word? && argc + 1 < MAXARGS {
      var more := ParseItems(ts[1..], argc + 1);
      if more.Ok? {
        var x := Arg(ts[0].q, ts[0].eq);
        assert items + ([x] + more.value) == items + [x] + more.value;
      }
    }
  }

  lemma ItemsDone(ts0: seq<Tok>, items: seq<Item>, argc: nat, ts: seq<Tok>)
    requires ItemsSoFar(ts0, items, argc, ts) && !Head(ts, ['<', '>']) && (ts == [] || Head(ts, ['|', ')', '&', ';']))
    ensures ParseItems(ts0, 0) == Ok(items, ts)
  {
    assert items + [] == items;
  }

  /** Some string of these ends at k. */
  predicate EndsAt(argv: seq<Str>, k: nat) { exists j :: 0 <= j < |argv| && argv[j].eq == k }

  /** b is a, with a NUL wherever a string of the command ends. */
  ghost predicate Marked(a: seq<char>, b: seq<char>, cmd: Cmd) {
    |b| == |a| && forall k :: 0 <= k < |a| ==> b[k] == if StringEnds(cmd, k) then '\0' else a[k]
  }

  predicate StringEnds(cmd: Cmd, k: nat) {
    match cmd
    case Exec(argv) => EndsAt(argv, k)
    case Redir(c, file, _, _) => StringEnds(c, k) || file.eq == k
    case Pipe(l, r) => StringEnds(l, k) || StringEnds(r, k)
    case List(l, r) => StringEnds(l, k) || StringEnds(r, k)
    case Back(c) => StringEnds(c, k)
  }

  /** The C string at q is t. */
  predicate StringAt(b: seq<char>, q: nat, t: seq<char>) {
    q + |t| < |b| && b[q..q + |t|] == t && '\0' !in t && b[q + |t|] == '\0'
  }

  /** The text derives from the grammar as a line that means this command. */
  ghost predicate Means(text: seq<char>, cmd: Cmd) {
    exists l :: LineOk(l) && LineYield(l) == Lex(text, 0) && LineCmd(l) == cmd
  }

  lemma MeansBy(text: seq<char>, l: Line)
    requires LineOk(l) && LineYield(l) == Lex(text, 0)
    ensures Means(text, LineCmd(l))
  {
  }

  // ---------- The strings of a command are words of the input ----------

  lemma {:induction false} WrapStrings(cmd: Cmd, rs: seq<Redirect>, s: Str)
    requires s in Strings(Wrap(cmd, rs))
    ensures s in Strings(cmd) || exists i :: 0 <= i < |rs| && s == Str(rs[i].q, rs[i].eq)
    decreases |rs|
  {
    if rs != [] {
      var n := |rs| - 1;
      if s == Str(rs[n].q, rs[n].eq) {
      } else {
        WrapStrings(cmd, rs[..n], s);
      }
    }
  }

  lemma {:induction false} BacksStrings(cmd: Cmd, n: nat)
    ensures Strings(Backs(cmd, n)) == Strings(cmd)
  {
    if n > 0 {
      BacksStrings(cmd, n - 1);
    }
  }

  lemma {:induction false} RedirsWords(rs: seq<Redirect>, i: nat)
    requires i < |rs|
    ensures Word(rs[i].q, rs[i].eq) in RedirsYield(rs)
  {
    if i == 0 {
      assert RedirYield(rs[0])[1] == Word(rs[0].q, rs[0].eq);
    } else {
      RedirsWords(rs[1..], i - 1);
    }
  }

  lemma {:induction false} ArgsWords(items: seq<Item>, s: Str)
    requires s in Args(items)
    ensures Word(s.q, s.eq) in ItemsYield(items)
  {
    var x := items[0];
    if x.Arg? && s == Str(x.q, x.eq) {
      assert ItemsYield(items)[0] == Word(s.q, s.eq);
    } else {
      ArgsWords(items[1..], s);
    }
  }

  lemma {:induction false} RedirWords(items: seq<Item>, i: nat)
    requires i < |RedirsOf(items)|
    ensures var r := RedirsOf(items)[i]; Word(r.q, r.eq) in ItemsYield(items)
  {
    var x := items[0];
    if x.Redir? && i == 0 {
      assert RedirYield(x.r)[1] == Word(x.r.q, x.r.eq);
    } else {
      RedirWords(items[1..], if x.Redir? then i - 1 else i);
    }
  }

  lemma {:induction false} LineWords(l: Line, s: Str)
    requires s in Strings(LineCmd(l))
    ensures Word(s.q, s.eq) in LineYield(l)
    decreases l, 3
  {
    BacksStrings(PipeCmd(l.pipe), l.amps);
    if s in Strings(PipeCmd(l.pipe)) {
      PipeWords(l.pipe, s);
    } else {
      LineWords(l.more.line, s);
    }
  }

  lemma {:induction false} PipeWords(p: ShellGrammar.Pipe, s: Str)
    requires s in Strings(PipeCmd(p))
    ensures Word(s.q, s.eq) in PipeYield(p)
    decreases p, 2
  {
    if s in Strings(ExecCmd(p.exec)) {
      ExecWords(p.exec, s);
    } else {
      PipeWords(p.more.pipe, s);
    }
  }

  lemma {:induction false} ExecWords(e: ShellGrammar.Exec, s: Str)
    requires s in Strings(ExecCmd(e))
    ensures Word(s.q, s.eq) in ExecYield(e)
    decreases e, 1
  {
    match e
    case Block(line, redirs) =>
      WrapStrings(LineCmd(line), redirs, s);
      if s in Strings(LineCmd(line)) {
        LineWords(line, s);
      } else {
        var i :| 0 <= i < |redirs| && s == Str(redirs[i].q, redirs[i].eq);
        RedirsWords(redirs, i);
      }
    case Simple(items) =>
      var argv, rs := Args(items), RedirsOf(items);
      WrapStrings(Cmd.Exec(argv), rs, s);
      if s in Strings(Cmd.Exec(argv)) {
        ArgsWords(items, s);
      } else {
        var i :| 0 <= i < |rs| && s == Str(rs[i].q, rs[i].eq);
        RedirWords(items, i);
      }
  }

  /** So they are maximal runs of word characters. */
  lemma CommandWords(text: seq<char>, l: Line)
    requires LineYield(l) == Lex(text, 0)
    ensures forall s :: s in Strings(LineCmd(l)) ==> IsWord(text, s.q, s.eq)
  {
    forall s | s in Strings(LineCmd(l)) ensures IsWord(text, s.q, s.eq) {
      LineWords(l, s);
      LexWords(text, 0, Word(s.q, s.eq));
    }
  }

  lemma {:induction false} EndsExactly(cmd: Cmd, k: nat)
    ensures StringEnds(cmd, k) <==> exists s :: s in Strings(cmd) && s.eq == k
    decreases cmd
  {
    match cmd
    case Exec(argv) =>
      if EndsAt(argv, k) {
        var j :| 0 <= j < |argv| && argv[j].eq == k;
        assert argv[j] in Strings(cmd);
      }
    case Redir(c, file, _, _) =>
      EndsExactly(c, k);
      assert file in Strings(cmd);
    case Pipe(l, r) =>
      EndsExactly(l, k);
      EndsExactly(r, k);
    case List(l, r) =>
      EndsExactly(l, k);
      EndsExactly(r, k);
    case Back(c) =>
      EndsExactly(c, k);
  }

  /** No NUL falls into a string: each one reads back as its word. */
  lemma StringsMarked(a: seq<char>, b: seq<char>, text: seq<char>, cmd: Cmd, s: Str)
    requires Marked(a, b, cmd) && |text| < |a| && a[..|text|] == text && '\0' !in text
    requires (forall x :: x in Strings(cmd) ==> IsWord(text, x.q, x.eq)) && s in Strings(cmd)
    ensures s.q < s.eq <= |text| && StringAt(b, s.q, text[s.q..s.eq])
  {
    var t := text[s.q..s.eq];
    EndsExactly(cmd, s.eq);
    forall k | s.q <= k < s.eq ensures b[k] == text[k] {
      assert a[k] == a[..|text|][k];
      EndsExactly(cmd, k);
    }
    assert b[s.q..s.q + |t|] == t;
  }
}
