/** The command language of the shell (sh.c): its tokens, its grammar, and the parser as a function
    on tokens. */
module ShellGrammar {

  const MAXARGS := 10

  predicate White(c: char) { c in [' ', '\t', '\r', '\n', '\U{0B}'] }

  predicate Symbol(c: char) { c in ['<', '|', '>', '&', ';', '(', ')'] }

  /** A word is bytes q .. eq of the text; a symbol is its character, '+' standing for ">>". */
  datatype Tok = Word(q: nat, eq: nat) | Sym(c: char)

  // ---------- Tokens of a text ----------

  function SkipWhite(s: seq<char>, i: nat): (j: nat)
    requires i <= |s|
    ensures i <= j <= |s| && (forall k :: i <= k < j ==> White(s[k])) && (j < |s| ==> !White(s[j]))
    decreases |s| - i
  {
    if i < |s| && White(s[i]) then SkipWhite(s, i + 1) else i
  }

  predicate WordChar(c: char) { !White(c) && !Symbol(c) }

  function WordEnd(s: seq<char>, i: nat): (j: nat)
    requires i <= |s|
    ensures i <= j <= |s| && (forall k :: i <= k < j ==> WordChar(s[k])) && (j < |s| ==> !WordChar(s[j]))
    decreases |s| - i
  {
    if i < |s| && WordChar(s[i]) then WordEnd(s, i + 1) else i
  }

  /** The token that starts at i, and where it ends. */
  function TokenAt(s: seq<char>, i: nat): (r: (Tok, nat))
    requires i < |s| && !White(s[i])
    ensures i < r.1 <= |s| && (r.0.Sym? ==> r.0.c in ['|', '(', ')', ';', '&', '<', '>', '+'])
  {
    if s[i] == '>' then
      if i + 1 < |s| && s[i + 1] == '>' then (Sym('+'), i + 2) else (Sym('>'), i + 1)
    else if Symbol(s[i]) then (Sym(s[i]), i + 1)
    else (Word(i, WordEnd(s, i)), WordEnd(s, i))
  }

  /** The tokens of the text from i on. */
  function Lex(s: seq<char>, i: nat): seq<Tok>
    requires i <= |s|
    decreases |s| - i
  {
    var j := SkipWhite(s, i);
    if j == |s| then [] else [TokenAt(s, j).0] + Lex(s, TokenAt(s, j).1)
  }

  /** A maximal run of word characters. */
  predicate IsWord(s: seq<char>, q: nat, eq: nat) {
    q < eq <= |s| && (forall k :: q <= k < eq ==> WordChar(s[k])) && (eq < |s| ==> !WordChar(s[eq]))
  }

  lemma {:induction false} LexWords(s: seq<char>, i: nat, t: Tok)
    requires i <= |s| && t in Lex(s, i) && t.Word?
    ensures IsWord(s, t.q, t.eq)
    decreases |s| - i
  {
    var j := SkipWhite(s, i);
    if t != TokenAt(s, j).0 {
      LexWords(s, TokenAt(s, j).1, t);
    }
  }

  // What the tokens are, said of the text: each is read off a span of it, and the spans lie one
  // after the other and leave out white space alone.

  datatype Span = Span(from: nat, to: nat)

  /** The text of token t: a maximal word, ">>", or one symbol, which for '>' is not followed by
      another. */
  ghost predicate Reads(s: seq<char>, t: Tok, p: Span) {
    p.from < p.to <= |s| &&
    match t
    case Word(q, eq) => q == p.from && eq == p.to && IsWord(s, q, eq)
    case Sym(c) =>
      if c == '+' then s[p.from..p.to] == ">>"
      else s[p.from..p.to] == [c] && Symbol(c) && (c == '>' ==> p.to == |s| || s[p.to] != '>')
  }

  /** The spans of the tokens in the text from lo to hi. */
  ghost predicate Covers(s: seq<char>, lo: nat, hi: nat, ts: seq<Tok>, spans: seq<Span>) {
    && lo <= hi <= |s| && |spans| == |ts|
    && (forall n :: 0 <= n < |ts| ==> lo <= spans[n].from && spans[n].to <= hi && Reads(s, ts[n], spans[n]))
    && (forall m, n :: 0 <= m < n < |ts| ==> spans[m].to <= spans[n].from)
    && (forall k :: lo <= k < hi ==> (White(s[k]) <==> !exists n :: 0 <= n < |ts| && Within(spans[n], k)))
  }

  predicate Within(p: Span, k: int) { p.from <= k < p.to }

  /** Every character that is not white space lies in the span of exactly one token. */
  lemma {:induction false} LexCovers(s: seq<char>, i: nat) returns (spans: seq<Span>)
    requires i <= |s|
    ensures Covers(s, i, |s|, Lex(s, i), spans)
    decreases |s| - i
  {
    var j := SkipWhite(s, i);
    if j == |s| {
      return [];
    }
    var r := TokenAt(s, j);
    var rest := LexCovers(s, r.1);
    spans := [Span(j, r.1)] + rest;
    TokenReads(s, j);
    hide TokenAt, SkipWhite, Lex, Reads;
    OneMoreSpan(s, i, j, r.0, r.1, Lex(s, r.1), rest);
  }

  lemma OneMoreSpan(s: seq<char>, i: nat, j: nat, t: Tok, e: nat, ts: seq<Tok>, spans: seq<Span>)
    requires i <= j < e <= |s| && Covers(s, e, |s|, ts, spans) && Reads(s, t, Span(j, e))
    requires (forall k :: i <= k < j ==> White(s[k])) && forall k :: j <= k < e ==> !White(s[k])
    ensures Covers(s, i, |s|, [t] + ts, [Span(j, e)] + spans)
  {
    hide Reads, White;
    var all := [Span(j, e)] + spans;
    forall k | i <= k < |s| ensures White(s[k]) <==> !exists n :: 0 <= n < |all| && Within(all[n], k) {
      if j <= k < e {
        assert Within(all[0], k);
      } else if k >= e && !White(s[k]) {
        var n :| 0 <= n < |spans| && Within(spans[n], k);
        assert all[n + 1] == spans[n];
      } else if n :| 0 <= n < |all| && Within(all[n], k) {
        assert n > 0 && all[n] == spans[n - 1];
      }
    }
  }

  lemma TokenReads(s: seq<char>, j: nat)
    requires j < |s| && !White(s[j])
    ensures var r := TokenAt(s, j); Reads(s, r.0, Span(j, r.1)) && forall k :: j <= k < r.1 ==> !White(s[k])
  {
  }

  /** Leading white space makes no difference. */
  lemma LexSkips(s: seq<char>, i: nat, j: nat)
    requires i <= |s| && i <= j <= SkipWhite(s, i)
    ensures SkipWhite(s, j) == SkipWhite(s, i) && Lex(s, j) == Lex(s, i)
    decreases j - i
  {
    if i < j {
      LexSkips(s, i + 1, j);
    }
  }

  lemma LexStep(s: seq<char>, i: nat)
    requires i <= |s|
    ensures var j := SkipWhite(s, i);
      Lex(s, i) == if j == |s| then [] else [TokenAt(s, j).0] + Lex(s, TokenAt(s, j).1)
  {
  }

  /** What peek sees: the first character of the next token is one of these symbols. */
  predicate Head(ts: seq<Tok>, toks: seq<char>) {
    ts != [] && ts[0].Sym? && (if ts[0].c == '+' then '>' else ts[0].c) in toks
  }

  // ---------- The grammar ----------

  datatype Redirect = Redirect(op: char, q: nat, eq: nat)

  datatype Item = Arg(q: nat, eq: nat) | Redir(r: Redirect)

  /** line: pipe, any number of '&', and perhaps ';' and another line */
  datatype Line = Line(pipe: Pipe, amps: nat, more: LineTail)
  datatype LineTail = NoLine | Then(line: Line)

  /** pipe: exec, and perhaps '|' and another pipe */
  datatype Pipe = Pipe(exec: Exec, more: PipeTail)
  datatype PipeTail = NoPipe | Into(pipe: Pipe)

  /** exec: '(' line ')' redirections, or words and redirections in any order */
  datatype Exec = Block(line: Line, redirs: seq<Redirect>) | Simple(items: seq<Item>)

  function Amps(n: nat): seq<Tok> { seq(n, _ => Sym('&')) }

  function RedirYield(r: Redirect): seq<Tok> { [Sym(r.op), Word(r.q, r.eq)] }

  function RedirsYield(rs: seq<Redirect>): seq<Tok> {
    if rs == [] then [] else RedirYield(rs[0]) + RedirsYield(rs[1..])
  }

  function ItemsYield(items: seq<Item>): seq<Tok> {
    if items == [] then []
    else (if items[0].Arg? then [Word(items[0].q, items[0].eq)] else RedirYield(items[0].r)) + ItemsYield(items[1..])
  }

  function LineYield(l: Line): seq<Tok> {
    PipeYield(l.pipe) + Amps(l.amps) + if l.more.Then? then [Sym(';')] + LineYield(l.more.line) else []
  }

  function PipeYield(p: Pipe): seq<Tok> {
    ExecYield(p.exec) + if p.more.Into? then [Sym('|')] + PipeYield(p.more.pipe) else []
  }

  function ExecYield(e: Exec): seq<Tok> {
    match e
    case Block(line, redirs) => [Sym('(')] + LineYield(line) + [Sym(')')] + RedirsYield(redirs)
    case Simple(items) => ItemsYield(items)
  }

  function ArgCount(items: seq<Item>): nat {
    if items == [] then 0 else (if items[0].Arg? then 1 else 0) + ArgCount(items[1..])
  }

  predicate RedirOk(r: Redirect) { r.op in ['<', '>', '+'] }

  /** Redirections by <, > and >>, and fewer than MAXARGS words to a command. */
  predicate LineOk(l: Line) { PipeOk(l.pipe) && (l.more.Then? ==> LineOk(l.more.line)) }

  predicate PipeOk(p: Pipe) { ExecOk(p.exec) && (p.more.Into? ==> PipeOk(p.more.pipe)) }

  predicate ExecOk(e: Exec) {
    match e
    case Block(line, redirs) => LineOk(line) && forall i :: 0 <= i < |redirs| ==> RedirOk(redirs[i])
    case Simple(items) => ArgCount(items) < MAXARGS && forall i :: 0 <= i < |items| ==> items[i].Arg? || RedirOk(items[i].r)
  }

  // ---------- The parser on tokens ----------

  datatype Error = MissingFile | NoBlock | MissingParen | Syntax | TooManyArgs | Leftovers

  datatype Out<T> = Ok(value: T, rest: seq<Tok>) | Err(why: Error)

  function ParseLine(ts: seq<Tok>): (o: Out<Line>)
    ensures o.Ok? ==> |o.rest| <= |ts|
    decreases |ts|, 3
  {
    match ParsePipe(ts)
    case Err(e) => Err(e)
    case Ok(p, r) =>
      var n := CountAmps(r);
      if Head(r[n..], [';']) then
        match ParseLine(r[n + 1..])
        case Err(e) => Err(e)
        case Ok(l, r') => Ok(Line(p, n, Then(l)), r')
      else Ok(Line(p, n, NoLine), r[n..])
  }

  function CountAmps(ts: seq<Tok>): (n: nat)
    ensures n <= |ts| && ts[..n] == Amps(n) && !Head(ts[n..], ['&'])
  {
    if Head(ts, ['&']) then 1 + CountAmps(ts[1..]) else 0
  }

  function ParsePipe(ts: seq<Tok>): (o: Out<Pipe>)
    ensures o.Ok? ==> |o.rest| <= |ts|
    decreases |ts|, 2
  {
    match ParseExec(ts)
    case Err(e) => Err(e)
    case Ok(x, r) =>
      if Head(r, ['|']) then
        match ParsePipe(r[1..])
        case Err(e) => Err(e)
        case Ok(p, r') => Ok(Pipe(x, Into(p)), r')
      else Ok(Pipe(x, NoPipe), r)
  }

  function ParseExec(ts: seq<Tok>): (o: Out<Exec>)
    ensures o.Ok? ==> |o.rest| <= |ts|
    decreases |ts|, 1
  {
    if Head(ts, ['(']) then ParseBlock(ts)
    else match ParseItems(ts, 0)
      case Err(e) => Err(e)
      case Ok(items, r) => Ok(Simple(items), r)
  }

  function ParseBlock(ts: seq<Tok>): (o: Out<Exec>)
    ensures o.Ok? ==> |o.rest| <= |ts|
    decreases |ts|, 0
  {
    if !Head(ts, ['(']) then Err(NoBlock)
    else match ParseLine(ts[1..])
    case Err(e) => Err(e)
    case Ok(l, r) =>
      if !Head(r, [')']) then Err(MissingParen)
      else match ParseRedirs(r[1..])
        case Err(e) => Err(e)
        case Ok(rs, r') => Ok(Block(l, rs), r')
  }

  function ParseRedirs(ts: seq<Tok>): (o: Out<seq<Redirect>>)
    ensures o.Ok? ==> |o.rest| <= |ts|
  {
    if !Head(ts, ['<', '>']) then Ok([], ts)
    else if |ts| < 2 || !ts[1].Word? then Err(MissingFile)
    else match ParseRedirs(ts[2..])
      case Err(e) => Err(e)
      case Ok(rs, r) => Ok([Redirect(ts[0].c, ts[1].q, ts[1].eq)] + rs, r)
  }

  /** argc words have been read before. */
  function ParseItems(ts: seq<Tok>, argc: nat): (o: Out<seq<Item>>)
    ensures o.Ok? ==> |o.rest| <= |ts|
  {
    if Head(ts, ['<', '>']) then
      if |ts| < 2 || !ts[1].Word? then Err(MissingFile)
      else match ParseItems(ts[2..], argc)
        case Err(e) => Err(e)
        case Ok(items, r) => Ok([Redir(Redirect(ts[0].c, ts[1].q, ts[1].eq))] + items, r)
    else if ts == [] || Head(ts, ['|', ')', '&', ';']) then Ok([], ts)
    else if !ts[0].Word? then Err(Syntax)
    else if argc + 1 >= MAXARGS then Err(TooManyArgs)
    else match ParseItems(ts[1..], argc + 1)
      case Err(e) => Err(e)
      case Ok(items, r) => Ok([Arg(ts[0].q, ts[0].eq)] + items, r)
  }

  /** The whole input has to be one line. */
  function ParseAll(ts: seq<Tok>): Out<Line> {
    match ParseLine(ts)
    case Err(e) => Err(e)
    case Ok(l, r) => if r == [] then Ok(l, r) else Err(Leftovers)
  }

  // ---------- What is parsed derives from the grammar ----------

  lemma {:induction false} RedirsSound(ts: seq<Tok>)
    ensures var o := ParseRedirs(ts);
      o.Ok? ==> RedirsYield(o.value) + o.rest == ts && forall i :: 0 <= i < |o.value| ==> RedirOk(o.value[i])
  {
    if Head(ts, ['<', '>']) && |ts| >= 2 && ts[1].Word? {
      RedirsSound(ts[2..]);
      var o, o' := ParseRedirs(ts), ParseRedirs(ts[2..]);
      if o'.Ok? {
        var r := Redirect(ts[0].c, ts[1].q, ts[1].eq);
        assert o == Ok([r] + o'.value, o'.rest);
        RedirsMore(ts, r, o'.value, o'.rest);
      }
    }
  }

  lemma RedirsMore(ts: seq<Tok>, r: Redirect, rs: seq<Redirect>, rest: seq<Tok>)
    requires |ts| >= 2 && Head(ts, ['<', '>']) && ts[1].Word? && r == Redirect(ts[0].c, ts[1].q, ts[1].eq)
    requires RedirsYield(rs) + rest == ts[2..] && forall i :: 0 <= i < |rs| ==> RedirOk(rs[i])
    ensures RedirsYield([r] + rs) + rest == ts && forall i :: 0 <= i < |[r] + rs| ==> RedirOk(([r] + rs)[i])
  {
    assert ([r] + rs)[1..] == rs;
    assert [ts[0], ts[1]] + ts[2..] == ts;
  }

  lemma {:induction false} ItemsSound(ts: seq<Tok>, argc: nat)
    ensures var o := ParseItems(ts, argc);
      && (o.Ok? ==> ItemsYield(o.value) + o.rest == ts && (argc < MAXARGS ==> argc + ArgCount(o.value) < MAXARGS))
      && (o.Ok? ==> forall i :: 0 <= i < |o.value| ==> o.value[i].Arg? || RedirOk(o.value[i].r))
  {
    var o := ParseItems(ts, argc);
    if Head(ts, ['<', '>']) {
      if |ts| >= 2 && ts[1].Word? && o.Ok? {
        ItemsSound(ts[2..], argc);
        ItemsMore(ts, Redir(Redirect(ts[0].c, ts[1].q, ts[1].eq)), ParseItems(ts[2..], argc).value, o.rest);
      }
    } else if ts != [] && !Head(ts, ['|', ')', '&', ';']) && o.Ok? {
      ItemsSound(ts[1..], argc + 1);
      ItemsMore(ts, Arg(ts[0].q, ts[0].eq), ParseItems(ts[1..], argc + 1).value, o.rest);
    }
  }

  lemma ItemsMore(ts: seq<Tok>, item: Item, items: seq<Item>, rest: seq<Tok>)
    requires forall i :: 0 <= i < |items| ==> items[i].Arg? || RedirOk(items[i].r)
    requires if item.Arg? then ts != [] && ts[0] == Word(item.q, item.eq) && ItemsYield(items) + rest == ts[1..]
             else |ts| >= 2 && RedirOk(item.r) && ts[..2] == RedirYield(item.r) && ItemsYield(items) + rest == ts[2..]
    ensures ItemsYield([item] + items) + rest == ts
    ensures ArgCount([item] + items) == ArgCount(items) + if item.Arg? then 1 else 0
    ensures forall i :: 0 <= i < |[item] + items| ==> ([item] + items)[i].Arg? || RedirOk(([item] + items)[i].r)
  {
    assert ([item] + items)[1..] == items;
    if item.Arg? {
      assert [ts[0]] + ts[1..] == ts;
    } else {
      assert ts[..2] + ts[2..] == ts;
    }
  }

  lemma Assoc4<T>(a: seq<T>, b: seq<T>, c: seq<T>, d: seq<T>)
    ensures a + b + c + d == a + (b + (c + d))
  {
  }

  lemma Assoc<T>(a: seq<T>, b: seq<T>, c: seq<T>)
    ensures a + b + c == a + (b + c)
  {
  }

  lemma {:induction false} LineSound(ts: seq<Tok>)
    ensures var o := ParseLine(ts); o.Ok? ==> LineYield(o.value) + o.rest == ts && LineOk(o.value)
    decreases |ts|, 3
  {
    PipeSound(ts);
    var p := ParsePipe(ts);
    hide ParsePipe, PipeYield, PipeOk, Amps, LineYield, CountAmps;
    if p.Ok? {
      var r, n := p.rest, CountAmps(p.rest);
      if Head(r[n..], [';']) {
        LineSound(r[n + 1..]);
        var l := ParseLine(r[n + 1..]);
        if l.Ok? {
          LineGlue(ts, Line(p.value, n, Then(l.value)), r, l.rest);
        }
      } else {
        LineGlue(ts, Line(p.value, n, NoLine), r, r[n..]);
      }
    }
  }

  lemma LineGlue(ts: seq<Tok>, l: Line, r: seq<Tok>, rest: seq<Tok>)
    requires ts == PipeYield(l.pipe) + r && l.amps <= |r| && r[..l.amps] == Amps(l.amps)
    requires if l.more.Then? then l.amps < |r| && r[l.amps] == Sym(';') && LineYield(l.more.line) + rest == r[l.amps + 1..]
             else rest == r[l.amps..]
    ensures LineYield(l) + rest == ts
  {
    var n, t := l.amps, if l.more.Then? then [Sym(';')] + LineYield(l.more.line) else [];
    Assoc4(PipeYield(l.pipe), Amps(n), t, rest);
    hide PipeYield, Amps;
    assert r == r[..n] + r[n..];
    if l.more.Then? {
      Assoc([Sym(';')], LineYield(l.more.line), rest);
      assert r[n..] == [Sym(';')] + r[n + 1..];
    } else {
      assert t + rest == rest;
    }
  }

  lemma {:induction false} PipeSound(ts: seq<Tok>)
    ensures var o := ParsePipe(ts); o.Ok? ==> PipeYield(o.value) + o.rest == ts && PipeOk(o.value)
    decreases |ts|, 2
  {
    ExecSound(ts);
    var x := ParseExec(ts);
    if x.Ok? && Head(x.rest, ['|']) {
      PipeSound(x.rest[1..]);
      assert x.rest == [Sym('|')] + x.rest[1..];
    }
  }

  lemma {:induction false} ExecSound(ts: seq<Tok>)
    ensures var o := ParseExec(ts); o.Ok? ==> ExecYield(o.value) + o.rest == ts && ExecOk(o.value)
    decreases |ts|, 1
  {
    if Head(ts, ['(']) {
      BlockSound(ts);
    } else {
      ItemsSound(ts, 0);
    }
  }

  lemma {:induction false} BlockSound(ts: seq<Tok>)
    requires Head(ts, ['('])
    ensures var o := ParseBlock(ts); o.Ok? ==> ExecYield(o.value) + o.rest == ts && ExecOk(o.value)
    decreases |ts|, 0
  {
    LineSound(ts[1..]);
    var l := ParseLine(ts[1..]);
    hide ParseLine, LineYield, LineOk;
    if l.Ok? && Head(l.rest, [')']) {
      RedirsSound(l.rest[1..]);
      BlockPieces(ts, l.value, l.rest);
      var rs := ParseRedirs(l.rest[1..]);
      hide ParseRedirs, RedirsYield;
      if rs.Ok? {
        Assoc([Sym('(')] + LineYield(l.value) + [Sym(')')], RedirsYield(rs.value), rs.rest);
      }
    }
  }

  lemma BlockPieces(ts: seq<Tok>, l: Line, r: seq<Tok>)
    requires Head(ts, ['(']) && ts[1..] == LineYield(l) + r && Head(r, [')'])
    ensures ts == [Sym('(')] + LineYield(l) + [Sym(')')] + r[1..]
  {
    hide LineYield;
    assert ts == [Sym('(')] + ts[1..];
    assert r == [Sym(')')] + r[1..];
  }

  // ---------- Whatever derives from the grammar is parsed ----------

  lemma {:induction false} RedirsComplete(rs: seq<Redirect>, r: seq<Tok>)
    requires (forall i :: 0 <= i < |rs| ==> RedirOk(rs[i])) && !Head(r, ['<', '>'])
    ensures ParseRedirs(RedirsYield(rs) + r) == Ok(rs, r)
  {
    hide ParseRedirs;
    if rs == [] {
      assert RedirsYield(rs) + r == r;
      RedirsEnd(r);
    } else {
      RedirsComplete(rs[1..], r);
      Assoc(RedirYield(rs[0]), RedirsYield(rs[1..]), r);
      assert rs == [rs[0]] + rs[1..] && RedirOk(rs[0]);
      hide RedirsYield;
      RedirsStep(RedirYield(rs[0]) + (RedirsYield(rs[1..]) + r), rs[0], rs[1..], RedirsYield(rs[1..]) + r, r);
    }
  }

  lemma RedirsEnd(r: seq<Tok>)
    requires !Head(r, ['<', '>'])
    ensures ParseRedirs(r) == Ok([], r)
  {
  }

  lemma RedirsStep(ts: seq<Tok>, x: Redirect, rest: seq<Redirect>, ts': seq<Tok>, r: seq<Tok>)
    requires RedirOk(x) && ts == RedirYield(x) + ts' && ParseRedirs(ts') == Ok(rest, r)
    ensures ParseRedirs(ts) == Ok([x] + rest, r)
  {
    assert ts[2..] == ts';
  }

  lemma {:induction false} ItemsComplete(items: seq<Item>, argc: nat, r: seq<Tok>)
    requires argc + ArgCount(items) < MAXARGS && forall i :: 0 <= i < |items| ==> items[i].Arg? || RedirOk(items[i].r)
    requires r == [] || Head(r, ['|', ')', '&', ';'])
    ensures ParseItems(ItemsYield(items) + r, argc) == Ok(items, r)
  {
    hide ParseItems;
    if items == [] {
      assert ItemsYield(items) + r == r;
      ItemsEnd(r, argc);
    } else {
      var item, rest := items[0], items[1..];
      assert items == [item] + rest;
      ItemsStep(item, rest, r);
      ItemsComplete(rest, if item.Arg? then argc + 1 else argc, r);
      hide ItemsYield;
      if item.Arg? {
        ItemsArg(ItemsYield(items) + r, argc, item, rest, r);
      } else {
        ItemsRedir(ItemsYield(items) + r, argc, item.r, rest, r);
      }
    }
  }

  lemma ItemsEnd(r: seq<Tok>, argc: nat)
    requires r == [] || Head(r, ['|', ')', '&', ';'])
    ensures ParseItems(r, argc) == Ok([], r)
  {
  }

  lemma ItemsStep(item: Item, rest: seq<Item>, r: seq<Tok>)
    ensures ItemsYield([item] + rest) + r
         == (if item.Arg? then [Word(item.q, item.eq)] else RedirYield(item.r)) + (ItemsYield(rest) + r)
  {
    assert ([item] + rest)[1..] == rest;
    Assoc(if item.Arg? then [Word(item.q, item.eq)] else RedirYield(item.r), ItemsYield(rest), r);
  }

  lemma ItemsArg(ts: seq<Tok>, argc: nat, item: Item, rest: seq<Item>, r: seq<Tok>)
    requires item.Arg? && ts == [Word(item.q, item.eq)] + (ItemsYield(rest) + r) && argc + 1 < MAXARGS
    requires ParseItems(ItemsYield(rest) + r, argc + 1) == Ok(rest, r)
    ensures ParseItems(ts, argc) == Ok([item] + rest, r)
  {
    hide ItemsYield;
    assert ts[1..] == ItemsYield(rest) + r;
  }

  lemma ItemsRedir(ts: seq<Tok>, argc: nat, x: Redirect, rest: seq<Item>, r: seq<Tok>)
    requires RedirOk(x) && ts == RedirYield(x) + (ItemsYield(rest) + r)
    requires ParseItems(ItemsYield(rest) + r, argc) == Ok(rest, r)
    ensures ParseItems(ts, argc) == Ok([Redir(x)] + rest, r)
  {
    hide ItemsYield;
    assert ts[2..] == ItemsYield(rest) + r;
  }

  lemma {:induction false} ItemsHead(items: seq<Item>, r: seq<Tok>)
    requires (forall i :: 0 <= i < |items| ==> items[i].Arg? || RedirOk(items[i].r)) && (r == [] || Head(r, ['|', ')', '&', ';']))
    ensures !Head(ItemsYield(items) + r, ['('])
  {
    if items == [] {
      assert ItemsYield(items) + r == r;
    } else {
      assert items[0].Redir? ==> RedirOk(items[0].r);
    }
  }

  lemma {:induction false} AmpsComplete(n: nat, r: seq<Tok>)
    requires !Head(r, ['&'])
    ensures CountAmps(Amps(n) + r) == n
  {
    var ts := Amps(n) + r;
    if n == 0 {
      assert ts == r;
    } else {
      AmpsComplete(n - 1, r);
      assert ts[1..] == Amps(n - 1) + r;
    }
  }

  lemma {:induction false} LineComplete(l: Line, r: seq<Tok>)
    requires LineOk(l) && (r == [] || Head(r, [')']))
    ensures ParseLine(LineYield(l) + r) == Ok(l, r)
    decreases l, 3
  {
    var t := if l.more.Then? then [Sym(';')] + LineYield(l.more.line) else [];
    var n, tail := l.amps, t + r;
    assert l.more.NoLine? ==> tail == r;
    Assoc4(PipeYield(l.pipe), Amps(n), t, r);
    PipeComplete(l.pipe, Amps(n) + tail);
    AmpsComplete(n, tail);
    assert (Amps(n) + tail)[n..] == tail;
    if l.more.Then? {
      LineComplete(l.more.line, r);
      Assoc([Sym(';')], LineYield(l.more.line), r);
    }
    LineParsed(l, PipeYield(l.pipe) + (Amps(n) + tail), Amps(n) + tail, tail, r);
  }

  lemma LineParsed(l: Line, ts: seq<Tok>, r1: seq<Tok>, tail: seq<Tok>, r: seq<Tok>)
    requires ParsePipe(ts) == Ok(l.pipe, r1) && CountAmps(r1) == l.amps && r1[l.amps..] == tail
    requires if l.more.Then? then |tail| > 0 && tail[0] == Sym(';') && ParseLine(tail[1..]) == Ok(l.more.line, r)
             else tail == r && !Head(r, [';'])
    ensures ParseLine(ts) == Ok(l, r)
  {
    hide ParsePipe, CountAmps;
    if l.more.Then? {
      assert r1[l.amps + 1..] == tail[1..];
    }
  }

  lemma {:induction false} PipeComplete(p: Pipe, r: seq<Tok>)
    requires PipeOk(p) && (r == [] || Head(r, [')', '&', ';']))
    ensures ParsePipe(PipeYield(p) + r) == Ok(p, r)
    decreases p, 2
  {
    hide ParsePipe, ParseExec, ExecYield, ExecOk;
    var more := if p.more.Into? then [Sym('|')] + PipeYield(p.more.pipe) else [];
    var tail := more + r;
    Assoc(ExecYield(p.exec), more, r);
    ExecComplete(p.exec, tail);
    if p.more.Into? {
      PipeComplete(p.more.pipe, r);
      assert tail[1..] == PipeYield(p.more.pipe) + r;
    } else {
      assert tail == r;
    }
    PipeParsed(p, PipeYield(p) + r, tail, r);
  }

  lemma PipeParsed(p: Pipe, ts: seq<Tok>, tail: seq<Tok>, r: seq<Tok>)
    requires ParseExec(ts) == Ok(p.exec, tail)
    requires if p.more.Into? then |tail| > 0 && tail[0] == Sym('|') && ParsePipe(tail[1..]) == Ok(p.more.pipe, r)
             else tail == r && !Head(r, ['|'])
    ensures ParsePipe(ts) == Ok(p, r)
  {
  }

  lemma {:induction false} ExecComplete(e: Exec, r: seq<Tok>)
    requires ExecOk(e) && (r == [] || Head(r, ['|', ')', '&', ';']))
    ensures ParseExec(ExecYield(e) + r) == Ok(e, r)
    decreases e, 1
  {
    match e
    case Block(line, redirs) =>
      var tail := [Sym(')')] + (RedirsYield(redirs) + r);
      var ts := [Sym('(')] + (LineYield(line) + tail);
      Assoc4([Sym('(')], LineYield(line), [Sym(')')] + RedirsYield(redirs), r);
      Assoc([Sym(')')], RedirsYield(redirs), r);
      Assoc([Sym('(')] + LineYield(line), [Sym(')')], RedirsYield(redirs));
      LineComplete(line, tail);
      RedirsComplete(redirs, r);
      BlockParsed(line, redirs, ts, tail, r);
    case Simple(items) =>
      ItemsComplete(items, 0, r);
      ItemsHead(items, r);
  }

  lemma BlockParsed(line: Line, redirs: seq<Redirect>, ts: seq<Tok>, tail: seq<Tok>, r: seq<Tok>)
    requires ts != [] && ts[0] == Sym('(') && ParseLine(ts[1..]) == Ok(line, tail)
    requires tail != [] && tail[0] == Sym(')') && ParseRedirs(tail[1..]) == Ok(redirs, r)
    ensures ParseExec(ts) == Ok(Block(line, redirs), r)
  {
    hide ParseLine, ParseRedirs;
  }

  /** The parser accepts exactly what derives from the grammar, and finds the one derivation. */
  lemma ParserExact(ts: seq<Tok>)
    ensures var o := ParseAll(ts); o.Ok? ==> LineYield(o.value) == ts && LineOk(o.value)
    ensures forall l :: LineOk(l) && LineYield(l) == ts ==> ParseAll(ts) == Ok(l, [])
  {
    LineSound(ts);
    forall l | LineOk(l) && LineYield(l) == ts ensures ParseAll(ts) == Ok(l, []) {
      LineComplete(l, []);
      assert ts + [] == ts;
    }
  }
}
