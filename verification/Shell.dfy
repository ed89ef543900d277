/** The command parser of user/sh.c: tokens, recursive descent, and the NUL-termination of the
    words in the line. */
module Shell {
  import opened Common

  const MAXARGS: nat := 10

  /** A symbol or a word. '+' stands for ">>". */
  datatype Tok = Word(w: string) | Sym(c: char)

  datatype Mode = In | Out | Append

  /** A command over words W: strings, or places in the line. */
  datatype Cmd<W> =
    | Exec(args: seq<W>)
    | Redir(cmd: Cmd<W>, file: W, mode: Mode)
    | Pipe(left: Cmd<W>, right: Cmd<W>)
    | List(left: Cmd<W>, right: Cmd<W>)
    | Back(cmd: Cmd<W>)

  predicate Space(c: char) { c == ' ' || c == '\t' || c == '\r' || c == '\n' || c == '\U{0B}' }

  predicate Symbol(c: char) { c == '<' || c == '|' || c == '>' || c == '&' || c == ';' || c == '(' || c == ')' }

  predicate WordChar(c: char) { !Space(c) && !Symbol(c) }

  // ---------------------------------------------------------------------- tokens

  function Skip(text: string, i: nat): (j: nat)
    requires i <= |text|
    ensures i <= j <= |text| && (j < |text| ==> !Space(text[j])) && forall k: nat :: i <= k < j ==> Space(text[k])
    decreases |text| - i
  {
    if i < |text| && Space(text[i]) then Skip(text, i + 1) else i
  }

  function WordEnd(text: string, i: nat): (j: nat)
    requires i <= |text|
    ensures i <= j <= |text| && (j < |text| ==> !WordChar(text[j])) && forall k: nat :: i <= k < j ==> WordChar(text[k])
    decreases |text| - i
  {
    if i < |text| && WordChar(text[i]) then WordEnd(text, i + 1) else i
  }

  function TokenEnd(text: string, j: nat): (e: nat)
    requires j < |text| && !Space(text[j])
    ensures j < e <= |text|
  {
    if text[j] == '>' && j + 1 < |text| && text[j + 1] == '>' then j + 2 else if Symbol(text[j]) then j + 1
      else WordEnd(text, j)
  }

  function Token(text: string, j: nat): (t: Tok)
    requires j < |text| && !Space(text[j])
  {
    if text[j] == '>' && j + 1 < |text| && text[j + 1] == '>' then Sym('+')
      else if Symbol(text[j]) then Sym(text[j]) else Word(text[j..WordEnd(text, j)])
  }

  function Lex(text: string, i: nat): (toks: seq<Tok>)
    requires i <= |text|
    decreases |text| - i
  {
    var j := Skip(text, i);
    if j == |text| then [] else [Token(text, j)] + Lex(text, TokenEnd(text, j))
  }

  lemma LexSkip(text: string, i: nat)
    requires i <= |text|
    ensures Lex(text, Skip(text, i)) == Lex(text, i)
  {
    assert Skip(text, Skip(text, i)) == Skip(text, i);
  }

  // ---------------------------------------------------------------------- grammar

  datatype Parsed = Ok(cmd: Cmd<string>, rest: seq<Tok>) | Panic

  predicate At(toks: seq<Tok>, cs: set<char>) { toks != [] && toks[0].Sym? && toks[0].c in cs }

  function ModeOf(c: char): (m: Mode) { if c == '<' then In else if c == '>' then Out else Append }

  /** Redirections wrap a command from the first on. */
  function Wrap<W>(c: Cmd<W>, redirs: seq<(W, Mode)>): (r: Cmd<W>)
    decreases |redirs|
  {
    if redirs == [] then c else Wrap(Redir(c, redirs[0].0, redirs[0].1), redirs[1..])
  }

  /** The redirections at the front. */
  function RedirList(toks: seq<Tok>): (r: Option<(seq<(string, Mode)>, seq<Tok>)>)
    ensures r.Some? ==> |r.value.1| <= |toks|
    decreases |toks|
  {
    if !At(toks, {'<', '>', '+'}) then Some(([], toks))
    else if |toks| < 2 || !toks[1].Word? then None
    else
      var r := RedirList(toks[2..]);
      if r.None? then None else Some(([(toks[1].w, ModeOf(toks[0].c))] + r.value.0, r.value.1))
  }

  function PArgs(args: seq<string>, redirs: seq<(string, Mode)>, toks: seq<Tok>): (r: Parsed)
    ensures r.Ok? ==> |r.rest| <= |toks|
    decreases |toks|
  {
    if toks == [] || At(toks, {'|', ')', '&', ';'}) then Ok(Wrap(Exec(args), redirs), toks)
    else if !toks[0].Word? || |args| + 1 >= MAXARGS then Panic
    else
      var r := RedirList(toks[1..]);
      if r.None? then Panic else PArgs(args + [toks[0].w], redirs + r.value.0, r.value.1)
  }

  function PExec(toks: seq<Tok>): (r: Parsed)
    ensures r.Ok? ==> |r.rest| <= |toks|
    decreases |toks|, 0
  {
    if At(toks, {'('}) then
      var r := PLine(toks[1..]);
      if r.Panic? || !At(r.rest, {')'}) then Panic else
        var d := RedirList(r.rest[1..]);
        if d.None? then Panic else Ok(Wrap(r.cmd, d.value.0), d.value.1)
    else
      var r := RedirList(toks);
      if r.None? then Panic else PArgs([], r.value.0, r.value.1)
  }

  function PPipe(toks: seq<Tok>): (r: Parsed)
    ensures r.Ok? ==> |r.rest| <= |toks|
    decreases |toks|, 1
  {
    var l := PExec(toks);
    if l.Panic? || !At(l.rest, {'|'}) then l else
      var r := PPipe(l.rest[1..]);
      if r.Panic? then r else Ok(Pipe(l.cmd, r.cmd), r.rest)
  }

  function PBacks(cmd: Cmd<string>, toks: seq<Tok>): (r: Parsed)
    ensures r.Ok? && |r.rest| <= |toks| && !At(r.rest, {'&'})
    decreases |toks|
  {
    if At(toks, {'&'}) then PBacks(Back(cmd), toks[1..]) else Ok(cmd, toks)
  }

  function PLine(toks: seq<Tok>): (r: Parsed)
    ensures r.Ok? ==> |r.rest| <= |toks|
    decreases |toks|, 2
  {
    var p := PPipe(toks);
    if p.Panic? then p else
      var l := PBacks(p.cmd, p.rest);
      if !At(l.rest, {';'}) then l else
        var r := PLine(l.rest[1..]);
        if r.Panic? then r else Ok(List(l.cmd, r.cmd), r.rest)
  }

  // ------------------------------------------------------------------- printing

  /** How loosely a command binds: 0 exec, 1 pipe, 2 background, 3 list. */
  function Kind<W>(c: Cmd<W>): (k: nat) { if c.Pipe? then 1 else if c.Back? then 2 else if c.List? then 3 else 0 }

  function RedirToks(redirs: seq<(string, Mode)>): (toks: seq<Tok>)
  {
    if redirs == [] then [] else [Sym(SymOf(redirs[0].1)), Word(redirs[0].0)] + RedirToks(redirs[1..])
  }

  function SymOf(m: Mode): (c: char) { match m case In => '<' case Out => '>' case Append => '+' }

  function Words(args: seq<string>): (toks: seq<Tok>) { seq(|args|, i requires 0 <= i < |args| => Word(args[i])) }

  /** A command in a place that takes commands up to a level, with parentheses only where it
      binds more loosely than that. */
  function Print(c: Cmd<string>, level: nat): (toks: seq<Tok>)
    requires level <= 3
    decreases c, if Kind(c) > level then 1 else 0
  {
    if Kind(c) > level then [Sym('(')] + Print(c, 3) + [Sym(')')] else
      match c
      case Exec(args) => Words(args)
      case Redir(x, file, mode) => Print(x, 0) + [Sym(SymOf(mode)), Word(file)]
      case Pipe(l, r) => Print(l, 0) + [Sym('|')] + Print(r, 1)
      case Back(x) => Print(x, 2) + [Sym('&')]
      case List(l, r) => Print(l, 2) + [Sym(';')] + Print(r, 3)
  }

  /** At most nine arguments everywhere. */
  predicate Small<W>(c: Cmd<W>)
  {
    match c
    case Exec(args) => |args| < MAXARGS
    case Redir(x, _, _) => Small(x)
    case Pipe(l, r) => Small(l) && Small(r)
    case Back(x) => Small(x)
    case List(l, r) => Small(l) && Small(r)
  }

  /** Nothing that would go on with an exec, a pipe or a line. */
  predicate EndsExec(rest: seq<Tok>) { rest == [] || At(rest, {'|', ')', '&', ';'}) }

  predicate EndsPipe(rest: seq<Tok>) { rest == [] || At(rest, {')', '&', ';'}) }

  predicate EndsLine(rest: seq<Tok>) { rest == [] || At(rest, {')'}) }

  lemma {:induction false} RedirsRead(redirs: seq<(string, Mode)>, rest: seq<Tok>)
    requires !At(rest, {'<', '>', '+'})
    ensures RedirList(RedirToks(redirs) + rest) == Some((redirs, rest))
  {
    hide RedirList, At, RedirToks;
    var toks := RedirToks(redirs) + rest;
    if redirs == [] {
      RedirToksNone();
      assert toks == rest;
      NoRedirs(rest);
    } else {
      RedirToksFrom(redirs, rest);
      RedirsRead(redirs[1..], rest);
      RedirFirst(toks, redirs[0].0, redirs[0].1);
      assert [redirs[0]] + redirs[1..] == redirs;
    }
  }

  lemma RedirToksFrom(redirs: seq<(string, Mode)>, rest: seq<Tok>)
    requires redirs != []
    ensures var toks := RedirToks(redirs) + rest;
      && |toks| >= 2 && toks[0] == Sym(SymOf(redirs[0].1)) && toks[1] == Word(redirs[0].0)
      && toks[2..] == RedirToks(redirs[1..]) + rest
  {
    hide RedirToks;
    RedirToksIs(redirs);
    TwoFirst(Sym(SymOf(redirs[0].1)), Word(redirs[0].0), RedirToks(redirs[1..]), rest);
  }

  lemma RedirToksIs(redirs: seq<(string, Mode)>)
    requires redirs != []
    ensures RedirToks(redirs) == [Sym(SymOf(redirs[0].1)), Word(redirs[0].0)] + RedirToks(redirs[1..])
  {}

  lemma RedirToksNone()
    ensures RedirToks([]) == []
  {}

  lemma TwoFirst(a: Tok, b: Tok, more: seq<Tok>, rest: seq<Tok>)
    ensures var toks := [a, b] + more + rest;
      |toks| >= 2 && toks[0] == a && toks[1] == b && toks[2..] == more + rest
  {}

  lemma RedirFirst(toks: seq<Tok>, file: string, mode: Mode)
    requires |toks| >= 2 && toks[0] == Sym(SymOf(mode)) && toks[1] == Word(file)
    ensures var r := RedirList(toks[2..]);
      RedirList(toks) == if r.None? then None else Some(([(file, mode)] + r.value.0, r.value.1))
  {}

  lemma NoRedirs(toks: seq<Tok>)
    requires !At(toks, {'<', '>', '+'})
    ensures RedirList(toks) == Some(([], toks))
  {}

  lemma ArgFirst(args: seq<string>, redirs: seq<(string, Mode)>, toks: seq<Tok>, more: seq<(string, Mode)>,
      rest: seq<Tok>)
    requires toks != [] && toks[0].Word? && |args| + 1 < MAXARGS && RedirList(toks[1..]) == Some((more, rest))
    ensures PArgs(args, redirs, toks) == PArgs(args + [toks[0].w], redirs + more, rest)
  {
    hide RedirList;
  }

  lemma ArgsDone(args: seq<string>, redirs: seq<(string, Mode)>, rest: seq<Tok>)
    requires EndsExec(rest)
    ensures PArgs(args, redirs, rest) == Ok(Wrap(Exec(args), redirs), rest)
  {}

  lemma {:induction false} ArgsRead(done: seq<string>, args: seq<string>, redirs: seq<(string, Mode)>, rest: seq<Tok>)
    requires |done| + |args| < MAXARGS && args != [] && EndsExec(rest)
    ensures PArgs(done, [], Words(args) + RedirToks(redirs) + rest) == Ok(Wrap(Exec(done + args), redirs), rest)
    decreases |args|
  {
    hide PArgs, RedirList, RedirToks, Wrap;
    var toks := Words(args) + RedirToks(redirs) + rest;
    assert toks[0] == Word(args[0]);
    var none: seq<(string, Mode)> := [];
    if |args| == 1 {
      assert toks[1..] == RedirToks(redirs) + rest;
      RedirsRead(redirs, rest);
      ArgFirst(done, none, toks, redirs, rest);
      assert none + redirs == redirs && done + [args[0]] == done + args;
      ArgsDone(done + args, redirs, rest);
    } else {
      var tail := Words(args[1..]) + RedirToks(redirs) + rest;
      assert toks[1..] == tail;
      assert tail[0] == Word(args[1]);
      NoRedirs(tail);
      ArgFirst(done, none, toks, none, tail);
      assert none + none == none;
      ArgsRead(done + [args[0]], args[1..], redirs, rest);
      assert done + [args[0]] + args[1..] == done + args;
    }
  }

  lemma ExecRead(args: seq<string>, redirs: seq<(string, Mode)>, rest: seq<Tok>)
    requires |args| < MAXARGS && EndsExec(rest)
    ensures PExec(Words(args) + RedirToks(redirs) + rest) == Ok(Wrap(Exec(args), redirs), rest)
  {
    var toks := Words(args) + RedirToks(redirs) + rest;
    if args == [] {
      assert toks == RedirToks(redirs) + rest;
      RedirsRead(redirs, rest);
    } else {
      assert RedirList(toks) == Some(([], toks));
      ArgsRead([], args, redirs, rest);
      assert [] + args == args;
    }
  }

  /** What is printed for an exec, a pipe, a background command or a line is read back as
      such, up to what follows. */
  lemma {:induction false} ExecBack(c: Cmd<string>, redirs: seq<(string, Mode)>, rest: seq<Tok>)
    requires Small(c) && EndsExec(rest)
    ensures PExec(Print(c, 0) + RedirToks(redirs) + rest) == Ok(Wrap(c, redirs), rest)
    decreases c, 3
  {
    if c.Exec? {
      ExecRead(c.args, redirs, rest);
    } else if c.Redir? {
      var more := [(c.file, c.mode)] + redirs;
      RedirMore(c.cmd, c.file, c.mode, redirs, rest);
      ExecBack(c.cmd, more, rest);
    } else {
      LineBack(c, [Sym(')')] + (RedirToks(redirs) + rest));
      BlockRead(c, Print(c, 3), redirs, rest);
    }
  }

  lemma RedirMore(x: Cmd<string>, file: string, mode: Mode, redirs: seq<(string, Mode)>, rest: seq<Tok>)
    ensures Print(Redir(x, file, mode), 0) + RedirToks(redirs) + rest == Print(x, 0)
      + RedirToks([(file, mode)] + redirs) + rest
    ensures Wrap(x, [(file, mode)] + redirs) == Wrap(Redir(x, file, mode), redirs)
  {
    var more := [(file, mode)] + redirs;
    assert more[1..] == redirs;
    var two := [Sym(SymOf(mode)), Word(file)];
    assert RedirToks(more) == two + RedirToks(redirs);
    var p := Print(x, 0);
    assert (p + two) + RedirToks(redirs) == p + (two + RedirToks(redirs));
  }

  lemma BlockRead(c: Cmd<string>, body: seq<Tok>, redirs: seq<(string, Mode)>, rest: seq<Tok>)
    requires EndsExec(rest) && PLine(body + ([Sym(')')] + (RedirToks(redirs) + rest)))
      == Ok(c, [Sym(')')] + (RedirToks(redirs) + rest))
    ensures PExec([Sym('(')] + body + [Sym(')')] + RedirToks(redirs) + rest) == Ok(Wrap(c, redirs), rest)
  {
    hide PLine, RedirToks, RedirList, Wrap;
    RedirsRead(redirs, rest);
    var tail := [Sym(')')] + (RedirToks(redirs) + rest);
    var toks := [Sym('(')] + body + [Sym(')')] + RedirToks(redirs) + rest;
    assert toks[1..] == body + tail;
    assert tail[1..] == RedirToks(redirs) + rest;
  }

  lemma {:induction false} PipeBack(c: Cmd<string>, rest: seq<Tok>)
    requires Small(c) && EndsPipe(rest)
    ensures PPipe(Print(c, 1) + rest) == Ok(c, rest)
    decreases c, if c.Pipe? then 0 else 4
  {
    var toks := Print(c, 1) + rest;
    if c.Pipe? {
      var tail := [Sym('|')] + (Print(c.right, 1) + rest);
      assert toks == Print(c.left, 0) + RedirToks([]) + tail;
      ExecBack(c.left, [], tail);
      assert tail[1..] == Print(c.right, 1) + rest;
      PipeBack(c.right, rest);
    } else {
      assert toks == Print(c, 0) + RedirToks([]) + rest;
      ExecBack(c, [], rest);
    }
  }

  lemma {:induction false} BackBack(c: Cmd<string>, rest: seq<Tok>)
    requires Small(c) && EndsPipe(rest)
    ensures var p := PPipe(Print(c, 2) + rest); p.Ok? && PBacks(p.cmd, p.rest) == PBacks(c, rest)
    decreases c, if c.Back? || c.Pipe? then 1 else 5
  {
    if c.Back? {
      var tail := [Sym('&')] + rest;
      assert Print(c, 2) + rest == Print(c.cmd, 2) + tail;
      BackBack(c.cmd, tail);
      assert tail[1..] == rest;
    } else {
      PipeBack(c, rest);
    }
  }

  lemma {:induction false} LineBack(c: Cmd<string>, rest: seq<Tok>)
    requires Small(c) && EndsLine(rest)
    ensures PLine(Print(c, 3) + rest) == Ok(c, rest)
    decreases c, if Kind(c) > 0 then 2 else 6
  {
    if c.List? {
      var tail := [Sym(';')] + (Print(c.right, 3) + rest);
      assert Print(c, 3) + rest == Print(c.left, 2) + tail;
      BackBack(c.left, tail);
      assert tail[1..] == Print(c.right, 3) + rest;
      LineBack(c.right, rest);
    } else {
      BackBack(c, rest);
    }
  }

  lemma {:induction false} WrapSmall(c: Cmd<string>, redirs: seq<(string, Mode)>)
    ensures Small(Wrap(c, redirs)) == Small(c)
    decreases |redirs|
  {
    if redirs != [] { WrapSmall(Redir(c, redirs[0].0, redirs[0].1), redirs[1..]); }
  }

  lemma {:induction false} ArgsSmall(args: seq<string>, redirs: seq<(string, Mode)>, toks: seq<Tok>)
    requires |args| < MAXARGS
    ensures var r := PArgs(args, redirs, toks); r.Ok? ==> Small(r.cmd)
    decreases |toks|
  {
    WrapSmall(Exec(args), redirs);
    if toks != [] && toks[0].Word? && |args| + 1 < MAXARGS {
      var r := RedirList(toks[1..]);
      if r.Some? { ArgsSmall(args + [toks[0].w], redirs + r.value.0, r.value.1); }
    }
  }

  lemma {:induction false} ExecSmall(toks: seq<Tok>)
    ensures var r := PExec(toks); r.Ok? ==> Small(r.cmd)
    decreases |toks|, 0
  {
    if At(toks, {'('}) {
      LineSmall(toks[1..]);
      var r := PLine(toks[1..]);
      if r.Ok? && At(r.rest, {')'}) {
        var d := RedirList(r.rest[1..]);
        if d.Some? { WrapSmall(r.cmd, d.value.0); }
      }
    } else {
      var r := RedirList(toks);
      if r.Some? { ArgsSmall([], r.value.0, r.value.1); }
    }
  }

  lemma {:induction false} PipeSmall(toks: seq<Tok>)
    ensures var r := PPipe(toks); r.Ok? ==> Small(r.cmd)
    decreases |toks|, 1
  {
    ExecSmall(toks);
    var l := PExec(toks);
    if l.Ok? && At(l.rest, {'|'}) { PipeSmall(l.rest[1..]); }
  }

  lemma {:induction false} BacksSmall(cmd: Cmd<string>, toks: seq<Tok>)
    requires Small(cmd)
    ensures Small(PBacks(cmd, toks).cmd)
    decreases |toks|
  {
    if At(toks, {'&'}) { BacksSmall(Back(cmd), toks[1..]); }
  }

  lemma {:induction false} LineSmall(toks: seq<Tok>)
    ensures var r := PLine(toks); r.Ok? ==> Small(r.cmd)
    decreases |toks|, 2
  {
    PipeSmall(toks);
    var p := PPipe(toks);
    if p.Ok? {
      BacksSmall(p.cmd, p.rest);
      var l := PBacks(p.cmd, p.rest);
      if At(l.rest, {';'}) { LineSmall(l.rest[1..]); }
    }
  }

  /** Reading a printed command gives it back exactly when no exec in it has ten arguments. */
  lemma RoundTrip(c: Cmd<string>)
    ensures PLine(Print(c, 3)) == Ok(c, []) <==> Small(c)
  {
    assert Print(c, 3) + [] == Print(c, 3);
    if Small(c) { LineBack(c, []); }
    LineSmall(Print(c, 3));
  }

  // ------------------------------------------------------------------ as text

  predicate GoodWord(w: string) { w != [] && forall i: nat :: i < |w| ==> WordChar(w[i]) }

  predicate GoodTok(t: Tok) { if t.Word? then GoodWord(t.w) else Symbol(t.c) || t.c == '+' }

  predicate Gap(g: string) { forall i: nat :: i < |g| ==> Space(g[i]) }

  /** Two words, or '>' before '>' or ">>", would run together. */
  predicate Meet(t: Tok, u: Tok) { (t.Word? && u.Word?) || (t == Sym('>') && (u == Sym('>') || u == Sym('+'))) }

  function Spell(t: Tok): (w: string) { if t.Word? then t.w else if t.c == '+' then ">>" else [t.c] }

  /** The tokens as text, each followed by its own gap. */
  function Render(toks: seq<Tok>, gaps: seq<string>): (text: string)
    requires |gaps| == |toks|
  {
    if toks == [] then "" else Spell(toks[0]) + gaps[0] + Render(toks[1..], gaps[1..])
  }

  lemma {:induction false} LexSpaces(text: string, i: nat, n: nat)
    requires i + n <= |text| && forall k: nat :: i <= k < i + n ==> Space(text[k])
    ensures Lex(text, i) == Lex(text, i + n)
    decreases n
  {
    if n > 0 {
      LexSpaces(text, i + 1, n - 1);
      assert Skip(text, i) == Skip(text, i + 1);
    }
  }

  lemma {:induction false} WordEndIs(text: string, i: nat, e: nat)
    requires i <= e <= |text| && (e < |text| ==> !WordChar(text[e]))
      && forall k: nat :: i <= k < e ==> WordChar(text[k])
    ensures WordEnd(text, i) == e
    decreases e - i
  {
    if i < e { WordEndIs(text, i + 1, e); }
  }

  /** A token read so far ends at e. */
  predicate Stops(t: Tok, text: string, e: nat)
    requires e <= |text|
  {
    e == |text| || ((t.Word? ==> !WordChar(text[e])) && (t == Sym('>') ==> text[e] != '>'))
  }

  lemma TokenRead(text: string, i: nat, t: Tok)
    requires GoodTok(t) && i + |Spell(t)| <= |text| && text[i..i + |Spell(t)|] == Spell(t)
      && Stops(t, text, i + |Spell(t)|)
    ensures i < |text| && !Space(text[i]) && Token(text, i) == t && TokenEnd(text, i) == i + |Spell(t)|
  {
    var e := i + |Spell(t)|;
    assert text[i] == Spell(t)[0];
    if t.Word? {
      forall k: nat | i <= k < e ensures WordChar(text[k]) { assert text[k] == t.w[k - i]; }
      WordEndIs(text, i, e);
    } else if t.c == '+' {
      assert text[i + 1] == Spell(t)[1];
    }
  }

  /** What follows a token ends it. */
  lemma NextStops(text: string, i: nat, toks: seq<Tok>, gaps: seq<string>)
    requires |gaps| == |toks| && toks != [] && AllGood(toks) && AllGaps(toks, gaps)
    requires i <= |text| && text[i..] == Render(toks, gaps)
    ensures i + |Spell(toks[0])| <= |text| && Stops(toks[0], text, i + |Spell(toks[0])|)
  {
    hide Render, AllGood, AllGaps, Spell, GoodTok, Stops, Meet, Gap;
    var w, g, more := Spell(toks[0]), gaps[0], Render(toks[1..], gaps[1..]);
    Peel(toks, gaps);
    Slices(text, i, w, g, more);
    var e := i + |w|;
    if g != [] {
      assert text[e] == g[0];
      BlankStops(toks[0], text, e, g);
    } else if |toks| > 1 {
      Peel(toks[1..], gaps[1..]);
      SpellSome(toks[1]);
      FirstOf(more, Spell(toks[1]), gaps[1], Render(toks[1..][1..], gaps[1..][1..]));
      assert text[e] == text[i + |w| + |g|..][0];
      KeptApart(toks, gaps);
      TokenStops(toks[0], toks[1], text, e);
    } else {
      NothingLeft(toks[1..], gaps[1..]);
      AtEndStops(toks[0], text);
    }
  }

  lemma BlankStops(t: Tok, text: string, e: nat, g: string)
    requires e < |text| && Gap(g) && g != [] && text[e] == g[0]
    ensures Stops(t, text, e)
  {}

  lemma TokenStops(t: Tok, u: Tok, text: string, e: nat)
    requires GoodTok(u) && !Meet(t, u) && e < |text| && Spell(u) != [] && text[e] == Spell(u)[0]
    ensures Stops(t, text, e)
  {}

  lemma AtEndStops(t: Tok, text: string)
    ensures Stops(t, text, |text|)
  {}

  lemma SpellSome(t: Tok)
    requires GoodTok(t)
    ensures Spell(t) != []
  {}

  lemma NothingLeft(toks: seq<Tok>, gaps: seq<string>)
    requires |gaps| == |toks| == 0
    ensures Render(toks, gaps) == ""
  {}

  lemma FirstOf(more: string, w: string, g: string, rest: string)
    requires w != [] && more == w + g + rest
    ensures more != [] && more[0] == w[0]
  {}

  lemma KeptApart(toks: seq<Tok>, gaps: seq<string>)
    requires |gaps| == |toks| > 1 && AllGaps(toks, gaps) && gaps[0] == []
    ensures !Meet(toks[0], toks[1])
  {
    hide Meet;
    assert toks[0 + 1] == toks[1];
  }

  predicate AllGood(toks: seq<Tok>) { forall k: nat :: k < |toks| ==> GoodTok(toks[k]) }

  /** Blanks after each token, at least one where it would run into the next. */
  predicate AllGaps(toks: seq<Tok>, gaps: seq<string>)
    requires |gaps| == |toks|
  {
    && (forall k: nat :: k < |gaps| ==> Gap(gaps[k]))
    && (forall k: nat :: k + 1 < |gaps| && Meet(toks[k], toks[k + 1]) ==> gaps[k] != [])
  }

  lemma Peel(toks: seq<Tok>, gaps: seq<string>)
    requires |gaps| == |toks| && toks != [] && AllGood(toks) && AllGaps(toks, gaps)
    ensures Render(toks, gaps) == Spell(toks[0]) + gaps[0] + Render(toks[1..], gaps[1..])
    ensures GoodTok(toks[0]) && Gap(gaps[0]) && AllGood(toks[1..])
      && AllGaps(toks[1..], gaps[1..])
  {
    forall k: nat | k + 1 < |gaps[1..]| && Meet(toks[1..][k], toks[1..][k + 1]) ensures gaps[1..][k] != [] {
      assert Meet(toks[k + 1], toks[k + 1 + 1]);
    }
  }

  lemma {:induction false} LexRender(text: string, i: nat, toks: seq<Tok>, gaps: seq<string>)
    requires |gaps| == |toks| && i <= |text| && text[i..] == Render(toks, gaps)
    requires AllGood(toks) && AllGaps(toks, gaps)
    ensures Lex(text, i) == toks
    decreases |toks|
  {
    hide Lex, Token, TokenEnd, GoodTok, Gap, Skip, Render, AllGood, AllGaps, Spell, Stops;
    if toks == [] {
      LexEnd(text, i);
    } else {
      var w, g := Spell(toks[0]), gaps[0];
      Peel(toks, gaps);
      NextStops(text, i, toks, gaps);
      Slices(text, i, w, g, Render(toks[1..], gaps[1..]));
      LexRender(text, i + |w| + |g|, toks[1..], gaps[1..]);
      LexOne(text, i, toks, g);
    }
  }

  lemma LexEnd(text: string, i: nat)
    requires i <= |text| && text[i..] == Render([], [])
    ensures Lex(text, i) == []
  {
    assert i == |text|;
  }

  lemma LexOne(text: string, i: nat, toks: seq<Tok>, g: string)
    requires toks != [] && GoodTok(toks[0]) && Gap(g)
    requires var w := Spell(toks[0]);
      i + |w| + |g| <= |text| && text[i..i + |w|] == w && text[i + |w|..i + |w| + |g|] == g
        && Stops(toks[0], text, i + |w|) && Lex(text, i + |w| + |g|) == toks[1..]
    ensures Lex(text, i) == toks
  {
    hide Lex, Token, TokenEnd, GoodTok, Gap, Skip, Spell, Stops;
    TokenRead(text, i, toks[0]);
    GapRead(text, i + |Spell(toks[0])|, g);
    LexStep(text, i);
    assert [toks[0]] + toks[1..] == toks;
  }

  lemma LexAtEnd(text: string)
    ensures Lex(text, |text|) == []
  {}

  lemma LexStep(text: string, i: nat)
    requires i < |text| && !Space(text[i])
    ensures Lex(text, i) == [Token(text, i)] + Lex(text, TokenEnd(text, i))
  {}

  lemma Slices(text: string, i: nat, w: string, g: string, more: string)
    requires i <= |text| && text[i..] == w + g + more
    ensures i + |w| + |g| <= |text| && text[i..i + |w|] == w && text[i + |w|..i + |w| + |g|] == g
      && text[i + |w| + |g|..] == more
  {
    var t, e, f := text[i..], |w|, |w| + |g|;
    assert t[..e] == w && t[e..f] == g && t[f..] == more;
    assert text[i..i + e] == t[..e] && text[i + e..i + f] == t[e..f] && text[i + f..] == t[f..];
  }

  lemma GapRead(text: string, e: nat, g: string)
    requires Gap(g) && e + |g| <= |text| && text[e..e + |g|] == g
    ensures Lex(text, e) == Lex(text, e + |g|)
  {
    forall k: nat | e <= k < e + |g| ensures Space(text[k]) { assert text[k] == g[k - e]; }
    LexSpaces(text, e, |g|);
  }

  predicate GoodCmd(c: Cmd<string>)
  {
    match c
    case Exec(args) => forall i: nat :: i < |args| ==> GoodWord(args[i])
    case Redir(x, file, _) => GoodCmd(x) && GoodWord(file)
    case Pipe(l, r) => GoodCmd(l) && GoodCmd(r)
    case Back(x) => GoodCmd(x)
    case List(l, r) => GoodCmd(l) && GoodCmd(r)
  }

  lemma {:induction false} PrintGood(c: Cmd<string>, level: nat)
    requires level <= 3 && GoodCmd(c)
    ensures AllGood(Print(c, level))
    decreases c, if Kind(c) > level then 1 else 0
  {
    if Kind(c) > level { PrintGood(c, 3); } else {
      match c
      case Exec(args) =>
      case Redir(x, _, _) => PrintGood(x, 0);
      case Pipe(l, r) => PrintGood(l, 0); PrintGood(r, 1);
      case Back(x) => PrintGood(x, 2);
      case List(l, r) => PrintGood(l, 2); PrintGood(r, 3);
    }
  }

  /** A command with good words is what the parser reads from its text, with any blanks before
      and between the tokens that keep them apart, exactly when no exec in it has ten arguments. */
  lemma TextRoundTrip(c: Cmd<string>, lead: string, gaps: seq<string>)
    requires GoodCmd(c) && Gap(lead) && |gaps| == |Print(c, 3)| && AllGaps(Print(c, 3), gaps)
    ensures PLine(Lex(lead + Render(Print(c, 3), gaps), 0)) == Ok(c, []) <==> Small(c)
  {
    hide AllGaps, Print, Render, Lex, PLine, GoodCmd, Small;
    var text := lead + Render(Print(c, 3), gaps);
    PrintGood(c, 3);
    assert text[|lead|..] == Render(Print(c, 3), gaps);
    LexRender(text, |lead|, Print(c, 3), gaps);
    LexSpaces(text, 0, |lead|);
    RoundTrip(c);
  }

  // ------------------------------------------------------------- places in the line

  datatype Span = Span(q: nat, eq: nat)

  function Str(text: string, sp: Span): (w: string) { if sp.q <= sp.eq <= |text| then text[sp.q..sp.eq] else "" }

  /** The command with the text its places show. */
  function Shown(text: string, c: Cmd<Span>): (r: Cmd<string>)
  {
    match c
    case Exec(args) => Exec(Strs(text, args))
    case Redir(x, file, mode) => Redir(Shown(text, x), Str(text, file), mode)
    case Pipe(l, r) => Pipe(Shown(text, l), Shown(text, r))
    case Back(x) => Back(Shown(text, x))
    case List(l, r) => List(Shown(text, l), Shown(text, r))
  }

  function Strs(text: string, args: seq<Span>): (r: seq<string>)
  {
    seq(|args|, i requires 0 <= i < |args| => Str(text, args[i]))
  }

  function RedirStrs(text: string, redirs: seq<(Span, Mode)>): (r: seq<(string, Mode)>)
  {
    seq(|redirs|, i requires 0 <= i < |redirs| => (Str(text, redirs[i].0), redirs[i].1))
  }

  /** A whole word: it stops where the line ends or at a character that is not a word's. */
  ghost predicate WordAt(text: string, sp: Span)
  {
    sp.q < sp.eq <= |text| && (forall k: nat :: sp.q <= k < sp.eq ==> WordChar(text[k]))
      && (sp.eq < |text| ==> !WordChar(text[sp.eq]))
  }

  ghost function Spans(c: Cmd<Span>): (s: set<Span>)
  {
    match c
    case Exec(args) => SpanSet(args)
    case Redir(x, file, _) => Spans(x) + {file}
    case Pipe(l, r) => Spans(l) + Spans(r)
    case Back(x) => Spans(x)
    case List(l, r) => Spans(l) + Spans(r)
  }

  ghost function SpanSet(args: seq<Span>): (s: set<Span>) { set sp | sp in args }

  ghost predicate AllWords(text: string, spans: set<Span>) { forall sp :: sp in spans ==> WordAt(text, sp) }

  lemma {:induction false} ShownWrap(text: string, c: Cmd<Span>, redirs: seq<(Span, Mode)>)
    ensures Shown(text, Wrap(c, redirs)) == Wrap(Shown(text, c), RedirStrs(text, redirs))
    ensures Spans(Wrap(c, redirs)) == Spans(c) + set r | r in redirs :: r.0
    decreases |redirs|
  {
    if redirs != [] {
      ShownWrap(text, Redir(c, redirs[0].0, redirs[0].1), redirs[1..]);
      assert RedirStrs(text, redirs)[1..] == RedirStrs(text, redirs[1..]);
      assert (set r | r in redirs :: r.0) == (set r | r in redirs[1..] :: r.0) + {redirs[0].0};
    }
  }

  // --------------------------------------------------------------------- the parser

  /** A parse that read a command over places, against the grammar over tokens. */
  ghost predicate Reads(text: string, s: nat, r: Option<Cmd<Span>>, p: Parsed)
  {
    && s <= |text| && r.Some? == p.Ok?
    && (r.Some? ==> Shown(text, r.value) == p.cmd && Lex(text, s) == p.rest && AllWords(text, Spans(r.value)))
  }

  /** peek looks at a character: '>' also begins ">>". */
  predicate Starts(toks: seq<Tok>, cs: set<char>)
  {
    toks != [] && toks[0].Sym? && (toks[0].c in cs || (toks[0].c == '+' && '>' in cs))
  }

  lemma PeekSees(text: string, i: nat, cs: set<char>)
    requires i <= |text| && (i < |text| ==> !Space(text[i])) && forall c :: c in cs ==> Symbol(c)
    ensures i < |text| && text[i] in cs <==> Starts(Lex(text, i), cs)
  {
    assert Skip(text, i) == i;
  }

  function Prepend(acc: seq<(string, Mode)>, r: Option<(seq<(string, Mode)>, seq<Tok>)>)
      : (o: Option<(seq<(string, Mode)>, seq<Tok>)>)
  {
    if r.None? then None else Some((acc + r.value.0, r.value.1))
  }

  ghost predicate RedirWords(text: string, redirs: seq<(Span, Mode)>)
  {
    forall i: nat :: i < |redirs| ==> WordAt(text, redirs[i].0)
  }

  ghost predicate Collected(text: string, s: nat, r: Option<seq<(Span, Mode)>>,
      d: Option<(seq<(string, Mode)>, seq<Tok>)>)
  {
    && s <= |text| && r.Some? == d.Some?
    && (r.Some? ==> RedirStrs(text, r.value) == d.value.0 && Lex(text, s) == d.value.1 && RedirWords(text, r.value))
  }

  lemma RedirsNone(text: string, all: Option<(seq<(string, Mode)>, seq<Tok>)>)
    ensures Prepend(RedirStrs(text, []), all) == all && RedirWords(text, [])
  {
    assert RedirStrs(text, []) == [];
    if all.Some? { assert [] + all.value.0 == all.value.0; }
  }

  lemma RedirsMore(text: string, redirs: seq<(Span, Mode)>, sp: Span, m: Mode)
    ensures RedirStrs(text, redirs + [(sp, m)]) == RedirStrs(text, redirs) + [(Str(text, sp), m)]
    ensures RedirWords(text, redirs) && WordAt(text, sp) ==> RedirWords(text, redirs + [(sp, m)])
  {}

  /** One more redirection, none, or one without a file. */
  lemma RedirNext(acc: seq<(string, Mode)>, toks: seq<Tok>)
    ensures var p := Prepend(acc, RedirList(toks));
      if !At(toks, {'<', '>', '+'}) then p == Some((acc, toks))
      else if |toks| < 2 || !toks[1].Word? then p == None
      else p == Prepend(acc + [(toks[1].w, ModeOf(toks[0].c))], RedirList(toks[2..]))
  {
    if At(toks, {'<', '>', '+'}) && |toks| >= 2 && toks[1].Word? {
      RedirUnfold(toks);
      hide RedirList;
      var x, r := [(toks[1].w, ModeOf(toks[0].c))], RedirList(toks[2..]);
      if r.Some? { assert acc + (x + r.value.0) == (acc + x) + r.value.0; }
    } else {
      assert acc + [] == acc;
    }
  }

  lemma RedirUnfold(toks: seq<Tok>)
    requires At(toks, {'<', '>', '+'}) && |toks| >= 2 && toks[1].Word?
    ensures RedirList(toks) == Prepend([(toks[1].w, ModeOf(toks[0].c))], RedirList(toks[2..]))
  {}

  ghost predicate ArgWords(text: string, args: seq<Span>) { forall i: nat :: i < |args| ==> WordAt(text, args[i]) }

  lemma ArgsNone(text: string)
    ensures Strs(text, []) == [] && ArgWords(text, [])
  {}

  lemma ArgsMore(text: string, args: seq<Span>, sp: Span)
    ensures Strs(text, args + [sp]) == Strs(text, args) + [Str(text, sp)] && |Strs(text, args)| == |args|
    ensures ArgWords(text, args) && WordAt(text, sp) ==> ArgWords(text, args + [sp])
  {}

  /** One word and the redirections after it. */
  lemma ArgsNext(text: string, args: seq<Span>, redirs: seq<(Span, Mode)>, toks: seq<Tok>)
    requires !At(toks, {'|', ')', '&', ';'})
    ensures toks != [] ==>
      var p := PArgs(Strs(text, args), RedirStrs(text, redirs), toks);
      if !toks[0].Word? || |args| + 1 >= MAXARGS then p == Panic else
        var r := RedirList(toks[1..]);
        if r.None? then p == Panic else p == PArgs(Strs(text, args) + [toks[0].w],
          RedirStrs(text, redirs) + r.value.0, r.value.1)
  {}

  lemma RedirsJoin(text: string, s: nat, redirs: seq<(Span, Mode)>, d: Option<seq<(Span, Mode)>>, toks: seq<Tok>)
    requires Collected(text, s, d, RedirList(toks)) && RedirWords(text, redirs)
    ensures d.Some? == RedirList(toks).Some?
    ensures d.Some? ==> var r := RedirList(toks).value;
      RedirStrs(text, redirs + d.value) == RedirStrs(text, redirs) + r.0 && Lex(text, s) == r.1
        && RedirWords(text, redirs + d.value)
  {
    hide RedirList, Lex;
  }

  lemma NotRead(text: string, s: nat, all: Parsed)
    requires s <= |text| && all.Panic?
    ensures Reads(text, s, None, all)
  {}

  lemma ArgsEnd(text: string, s: nat, args: seq<Span>, redirs: seq<(Span, Mode)>, all: Parsed)
    requires s <= |text| && EndsExec(Lex(text, s)) && PArgs(Strs(text, args), RedirStrs(text, redirs), Lex(text, s))
      == all
    requires ArgWords(text, args) && RedirWords(text, redirs)
    ensures Reads(text, s, Some(Wrap(Exec(args), redirs)), all)
  {
    ShownWrap(text, Exec(args), redirs);
    hide Lex, Wrap;
  }

  lemma ExecStart(text: string, s: nat, toks: seq<Tok>, d: Option<seq<(Span, Mode)>>)
    requires s <= |text| && !At(toks, {'('}) && d.Some? == RedirList(toks).Some?
    ensures d.None? ==> Reads(text, s, None, PExec(toks))
    ensures d.Some? ==> PExec(toks) == PArgs([], RedirList(toks).value.0, RedirList(toks).value.1)
  {
    hide RedirList, PArgs;
  }

  lemma BlockFails(text: string, s1: nat, s: nat, toks: seq<Tok>, body: Option<Cmd<Span>>)
    requires s <= |text| && At(toks, {'('}) && Reads(text, s1, body, PLine(toks[1..]))
      && (body.Some? ==> !At(Lex(text, s1), {')'}))
    ensures Reads(text, s, None, PExec(toks))
  {
    hide PLine, Lex;
  }

  lemma BlockWraps(text: string, s1: nat, s: nat, toks: seq<Tok>, body: Option<Cmd<Span>>, d: Option<seq<(Span, Mode)>>)
    requires At(toks, {'('}) && Reads(text, s1, body, PLine(toks[1..])) && body.Some? && At(Lex(text, s1), {')'})
    requires Collected(text, s, d, RedirList(Lex(text, s1)[1..]))
    ensures Reads(text, s, if d.None? then None else Some(Wrap(body.value, d.value)), PExec(toks))
  {
    if d.Some? { ShownWrap(text, body.value, d.value); }
    hide PLine, Lex, RedirList, Wrap;
  }

  lemma SpansTwo(text: string, l: Cmd<Span>, r: Cmd<Span>)
    requires AllWords(text, Spans(l)) && AllWords(text, Spans(r))
    ensures AllWords(text, Spans(Pipe(l, r))) && AllWords(text, Spans(List(l, r)))
  {}

  class Parser {
    const text: string
    var s: nat

    constructor (text: string)
      ensures this.text == text && s == 0
    {
      this.text, s := text, 0;
    }

    method SkipSpace()
      requires s <= |text|
      modifies this
      ensures s == Skip(text, old(s)) && Lex(text, s) == Lex(text, old(s))
    {
      LexSkip(text, s);
      while s < |text| && Space(text[s])
        invariant s <= |text| && Skip(text, s) == Skip(text, old(s))
      {
        s := s + 1;
      }
    }

    /** The next token: 'a' for a word, 0 at the end of the line. */
    method Gettoken() returns (tok: char, sp: Span)
      requires s <= |text|
      modifies this
      ensures old(s) <= s <= |text| && (Lex(text, old(s)) != [] ==> s > old(s))
      ensures var toks := Lex(text, old(s));
        if toks == [] then tok == '\0' && Lex(text, s) == []
        else Lex(text, s) == toks[1..] && if toks[0].Word? then tok == 'a' && WordAt(text, sp)
          && Str(text, sp) == toks[0].w else tok == toks[0].c && tok != 'a' && tok != '\0'
    {
      hide Lex, Skip;
      SkipSpace();
      var q := s;
      if s == |text| {
        LexAtEnd(text);
        return '\0', Span(q, q);
      }
      LexStep(text, q);
      tok := text[s];
      if tok == '>' && s + 1 < |text| && text[s + 1] == '>' {
        tok := '+';
        s := s + 2;
      } else if Symbol(tok) {
        s := s + 1;
      } else {
        tok := 'a';
        while s < |text| && !Space(text[s]) && !Symbol(text[s])
          invariant q <= s <= |text| && WordEnd(text, s) == WordEnd(text, q)
        {
          s := s + 1;
        }
      }
      sp := Span(q, s);
      SkipSpace();
    }

    method Peek(cs: set<char>) returns (b: bool)
      requires s <= |text| && forall c :: c in cs ==> Symbol(c)
      modifies this
      ensures old(s) <= s <= |text| && Lex(text, s) == Lex(text, old(s)) && b == Starts(Lex(text, s), cs)
    {
      SkipSpace();
      PeekSees(text, s, cs);
      b := s < |text| && text[s] in cs;
    }

    /** The redirections in the order they wrap. */
    method ParseRedirs() returns (r: Option<seq<(Span, Mode)>>)
      requires s <= |text|
      modifies this
      ensures old(s) <= s <= |text| && Collected(text, s, r, RedirList(Lex(text, old(s))))
    {
      hide Lex, RedirList, Prepend, RedirStrs, RedirWords, WordAt, Str;
      ghost var all := RedirList(Lex(text, s));
      var redirs: seq<(Span, Mode)> := [];
      RedirsNone(text, all);
      var b := Peek({'<', '>'});
      while b
        invariant old(s) <= s <= |text| && b == At(Lex(text, s), {'<', '>', '+'})
        invariant Prepend(RedirStrs(text, redirs), RedirList(Lex(text, s))) == all && RedirWords(text, redirs)
        decreases |text| - s
      {
        ghost var toks := Lex(text, s);
        var tok, sp0 := Gettoken();
        var tok2, sp := Gettoken();
        RedirNext(RedirStrs(text, redirs), toks);
        if tok2 != 'a' { return None; }
        assert toks[2..] == toks[1..][1..];
        var m := if tok == '<' then In else if tok == '>' then Out else Append;
        RedirsMore(text, redirs, sp, m);
        redirs := redirs + [(sp, m)];
        b := Peek({'<', '>'});
      }
      RedirNext(RedirStrs(text, redirs), Lex(text, s));
      return Some(redirs);
    }

    method ParseExec() returns (r: Option<Cmd<Span>>)
      requires s <= |text|
      modifies this
      ensures old(s) <= s <= |text| && Reads(text, s, r, PExec(Lex(text, old(s))))
      decreases |text| - s, 2
    {
      hide Lex, RedirList, PArgs, PExec, PLine, Reads, RedirStrs, RedirWords;
      ghost var toks := Lex(text, s);
      var b := Peek({'('});
      if b {
        r := ParseBlock();
        return;
      }
      var d := ParseRedirs();
      if d.None? {
        ExecStart(text, s, toks, d);
        return None;
      }
      r := ParseArgs(d.value);
      ExecStart(text, s, toks, d);
    }

    /** The words of a command with the redirections between them. */
    method ParseArgs(first: seq<(Span, Mode)>) returns (r: Option<Cmd<Span>>)
      requires s <= |text| && RedirWords(text, first)
      modifies this
      ensures old(s) <= s <= |text| && Reads(text, s, r, PArgs([], RedirStrs(text, first), Lex(text, old(s))))
    {
      hide Lex, RedirList, PArgs, Reads, Strs, RedirStrs, RedirWords, ArgWords, WordAt, Str, Wrap, Collected;
      var args: seq<Span>, redirs := [], first;
      ghost var all := PArgs([], RedirStrs(text, first), Lex(text, s));
      ArgsNone(text);
      var b := Peek({'|', ')', '&', ';'});
      while !b
        invariant old(s) <= s <= |text| && |args| < MAXARGS && b == At(Lex(text, s), {'|', ')', '&', ';'})
        invariant PArgs(Strs(text, args), RedirStrs(text, redirs), Lex(text, s)) == all && ArgWords(text, args)
          && RedirWords(text, redirs)
        decreases |text| - s
      {
        ghost var toks, before := Lex(text, s), args;
        ArgsNext(text, args, redirs, toks);
        var tok, sp := Gettoken();
        if tok == '\0' { break; }
        if tok != 'a' {
          NotRead(text, s, all);
          return None;
        }
        args := args + [sp];
        if |args| >= MAXARGS {
          NotRead(text, s, all);
          return None;
        }
        ArgsMore(text, before, sp);
        var d := ParseRedirs();
        RedirsJoin(text, s, redirs, d, toks[1..]);
        if d.None? {
          NotRead(text, s, all);
          return None;
        }
        redirs := redirs + d.value;
        b := Peek({'|', ')', '&', ';'});
      }
      ArgsEnd(text, s, args, redirs, all);
      return Some(Wrap(Exec(args), redirs));
    }

    method ParseBlock() returns (r: Option<Cmd<Span>>)
      requires s <= |text| && At(Lex(text, s), {'('})
      modifies this
      ensures old(s) <= s <= |text| && Reads(text, s, r, PExec(Lex(text, old(s))))
      decreases |text| - s, 1
    {
      hide Lex, RedirList, PArgs, PExec, PLine, Reads, Collected;
      ghost var toks := Lex(text, s);
      var tok, sp := Gettoken();
      var body := ParseLine();
      ghost var s1 := s;
      if body.None? {
        BlockFails(text, s1, s, toks, body);
        return None;
      }
      var b := Peek({')'});
      if !b {
        BlockFails(text, s1, s, toks, body);
        return None;
      }
      var tok2, sp2 := Gettoken();
      var d := ParseRedirs();
      BlockWraps(text, s1, s, toks, body, d);
      if d.None? { return None; }
      return Some(Wrap(body.value, d.value));
    }

    method ParsePipe() returns (r: Option<Cmd<Span>>)
      requires s <= |text|
      modifies this
      ensures old(s) <= s <= |text| && Reads(text, s, r, PPipe(Lex(text, old(s))))
      decreases |text| - s, 3
    {
      hide Lex, PExec, Spans;
      var l := ParseExec();
      if l.None? { return None; }
      var b := Peek({'|'});
      if !b { return l; }
      var tok, sp := Gettoken();
      var right := ParsePipe();
      if right.None? { return None; }
      SpansTwo(text, l.value, right.value);
      return Some(Pipe(l.value, right.value));
    }

    method ParseLine() returns (r: Option<Cmd<Span>>)
      requires s <= |text|
      modifies this
      ensures old(s) <= s <= |text| && Reads(text, s, r, PLine(Lex(text, old(s))))
      decreases |text| - s, 4
    {
      hide Lex, PPipe, Spans, PBacks;
      var p := ParsePipe();
      if p.None? { return None; }
      var c := ParseBacks(p.value);
      var b := Peek({';'});
      if !b { return Some(c); }
      var tok, sp := Gettoken();
      var right := ParseLine();
      if right.None? { return None; }
      SpansTwo(text, c, right.value);
      return Some(List(c, right.value));
    }

    method ParseBacks(cmd: Cmd<Span>) returns (c: Cmd<Span>)
      requires s <= |text| && AllWords(text, Spans(cmd))
      modifies this
      ensures old(s) <= s <= |text| && Reads(text, s, Some(c), PBacks(Shown(text, cmd), Lex(text, old(s))))
    {
      hide Lex;
      ghost var all := PBacks(Shown(text, cmd), Lex(text, s));
      c := cmd;
      var b := Peek({'&'});
      while b
        invariant old(s) <= s <= |text| && b == At(Lex(text, s), {'&'})
        invariant PBacks(Shown(text, c), Lex(text, s)) == all && AllWords(text, Spans(c))
        decreases |text| - s
      {
        var tok, sp := Gettoken();
        c := Back(c);
        b := Peek({'&'});
      }
    }

    /** A command is read when the whole line is. */
    method ParseCmd() returns (r: Option<Cmd<Span>>)
      requires s == 0
      modifies this
      ensures var p := PLine(Lex(text, 0));
        && r.Some? == (p.Ok? && p.rest == [])
        && (r.Some? ==> Shown(text, r.value) == p.cmd && AllWords(text, Spans(r.value)))
    {
      hide PLine;
      r := ParseLine();
      if r.None? { return; }
      SkipSpace();
      if s != |text| { r := None; }
    }
  }

  // ----------------------------------------------------------------- NUL-termination

  ghost function Ends(spans: set<Span>): (s: set<nat>) { set sp | sp in spans :: sp.eq }

  /** A buffer with NULs put at some places. */
  ghost predicate CutAt(was: seq<char>, now: seq<char>, ends: set<nat>)
  {
    |now| == |was| && forall i: nat :: i < |was| ==> now[i] == if i in ends then '\0' else was[i]
  }

  lemma CutTwice(a: seq<char>, b: seq<char>, c: seq<char>, x: set<nat>, y: set<nat>)
    requires CutAt(a, b, x) && CutAt(b, c, y)
    ensures CutAt(a, c, x + y)
  {}

  ghost predicate InBuf(n: nat, spans: set<Span>) { forall sp :: sp in spans ==> sp.eq < n }

  /** nulterminate writes a NUL after each word, and nothing else. */
  method NulTerminate(buf: array<char>, c: Cmd<Span>)
    requires InBuf(buf.Length, Spans(c))
    modifies buf
    ensures CutAt(old(buf[..]), buf[..], Ends(Spans(c)))
    decreases c
  {
    match c
    case Exec(args) =>
      var i := 0;
      assert CutAt(buf[..], buf[..], Ends({}));
      while i < |args|
        invariant i <= |args| && CutAt(old(buf[..]), buf[..], Ends(SpanSet(args[..i])))
      {
        assert args[i] in args;
        buf[args[i].eq] := '\0';
        assert args[..i + 1] == args[..i] + [args[i]];
        assert SpanSet(args[..i + 1]) == SpanSet(args[..i]) + {args[i]};
        assert Ends(SpanSet(args[..i + 1])) == Ends(SpanSet(args[..i])) + {args[i].eq};
        i := i + 1;
      }
      assert args[..i] == args;
    case Redir(x, file, _) =>
      NulTerminate(buf, x);
      buf[file.eq] := '\0';
      assert Ends(Spans(c)) == Ends(Spans(x)) + {file.eq};
    case Pipe(l, r) =>
      NulTerminate(buf, l);
      ghost var mid := buf[..];
      NulTerminate(buf, r);
      CutTwice(old(buf[..]), mid, buf[..], Ends(Spans(l)), Ends(Spans(r)));
      assert Ends(Spans(c)) == Ends(Spans(l)) + Ends(Spans(r));
    case Back(x) =>
      NulTerminate(buf, x);
    case List(l, r) =>
      NulTerminate(buf, l);
      ghost var mid := buf[..];
      NulTerminate(buf, r);
      CutTwice(old(buf[..]), mid, buf[..], Ends(Spans(l)), Ends(Spans(r)));
      assert Ends(Spans(c)) == Ends(Spans(l)) + Ends(Spans(r));
  }

  /** The C string that starts at q. */
  function CString(buf: seq<char>, q: nat): (w: string)
    requires q <= |buf|
    decreases |buf| - q
  {
    if q == |buf| || buf[q] == '\0' then "" else [buf[q]] + CString(buf, q + 1)
  }

  lemma {:induction false} CStringIs(buf: seq<char>, q: nat, eq: nat)
    requires q <= eq < |buf| && buf[eq] == '\0' && forall k: nat :: q <= k < eq ==> buf[k] != '\0'
    ensures CString(buf, q) == buf[q..eq]
    decreases eq - q
  {
    if q < eq { CStringIs(buf, q + 1, eq); }
  }

  /** After nulterminate every argument and file name, read as a C string, is the word that
      stood in the line: no NUL falls into another word. */
  lemma WordsSurvive(text: string, buf: seq<char>, spans: set<Span>, sp: Span)
    requires AllWords(text, spans) && sp in spans && (forall i: nat :: i < |text| ==> text[i] != '\0')
    requires CutAt(text + ['\0'], buf, Ends(spans))
    ensures sp.q <= |buf| && CString(buf, sp.q) == Str(text, sp)
  {
    assert WordAt(text, sp);
    forall k: nat | sp.q <= k < sp.eq ensures buf[k] == text[k] {
      forall other | other in spans ensures other.eq != k { assert WordAt(text, other); }
    }
    assert sp.eq in Ends(spans);
    CStringIs(buf, sp.q, sp.eq);
  }
}
