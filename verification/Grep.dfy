/** The regular-expression matcher of user/grep.c (copied in user/find.c) and the
    line filter built on it.

    The matcher is proved against the textbook meaning of regular expressions: a
    pattern is parsed to an `Rx`, an `Rx` denotes a language (`In`), and `Match`
    answers whether some substring, anchored as the pattern says, is in it. */
module Grep {

  /** A C string without its terminator. */
  type CString = s: string | forall i :: 0 <= i < |s| ==> s[i] != '\0'

  // ---------------------------------------------------------------- languages

  datatype Rx = Eps | Sym(c: char) | Cat(l: Rx, r: Rx) | Star(r: Rx)

  /** Symbol c accepts x; the symbol '.' accepts every character. */
  predicate SymOk(c: char, x: char) { c == '.' || x == c }

  /** s is in the language of rx. */
  ghost predicate In(rx: Rx, s: string)
    decreases rx, |s|
  {
    match rx
    case Eps => s == ""
    case Sym(c) => |s| == 1 && SymOk(c, s[0])
    case Cat(l, r) => exists k :: 0 <= k <= |s| && In(l, s[..k]) && In(r, s[k..])
    case Star(r) => s == "" || exists k :: 0 < k <= |s| && In(r, s[..k]) && In(rx, s[k..])
  }

  /** An expression, and whether its match must reach the end of the text. */
  datatype Pattern = Pattern(rx: Rx, toEnd: bool)

  /** The grammar: '*' binds to the character before it, '.' is any character, a
      final '$' anchors, and every other character ('*' in front, '$' inside)
      stands for itself. */
  function Parse(re: string): (p: Pattern)
  {
    if re == "" then Pattern(Eps, false)
    else if |re| >= 2 && re[1] == '*' then
      var p := Parse(re[2..]);
      Pattern(Cat(Star(Sym(re[0])), p.rx), p.toEnd)
    else if re == "$" then Pattern(Eps, true)
    else
      var p := Parse(re[1..]);
      Pattern(Cat(Sym(re[0]), p.rx), p.toEnd)
  }

  /** Some prefix of the text is in the language of p. */
  ghost predicate MatchesHere(p: Pattern, text: string)
  {
    exists j :: 0 <= j <= |text| && (p.toEnd ==> j == |text|) && In(p.rx, text[..j])
  }

  /** Some substring of the text is in the language of the pattern, where a leading
      '^' pins its start and a final '$' pins its end. */
  ghost predicate Matches(re: string, text: string)
  {
    if re != "" && re[0] == '^' then MatchesHere(Parse(re[1..]), text)
    else exists i :: 0 <= i <= |text| && MatchesHere(Parse(re), text[i..])
  }

  // ------------------------------------------------------------------- lemmas

  lemma {:induction false} StarOfSym(c: char, s: string)
    ensures In(Star(Sym(c)), s) <==> forall i :: 0 <= i < |s| ==> SymOk(c, s[i])
    decreases |s|
  {
    var rx := Star(Sym(c));
    if s != "" {
      StarOfSym(c, s[1..]);
      if In(rx, s) {
        var k :| 0 < k <= |s| && In(rx.r, s[..k]) && In(rx, s[k..]);
        assert k == 1 && s[..1][0] == s[0];
        forall i | 0 <= i < |s| ensures SymOk(c, s[i]) {
          if i > 0 { assert s[1..][i - 1] == s[i]; }
        }
      }
      if forall i :: 0 <= i < |s| ==> SymOk(c, s[i]) {
        assert In(rx.r, s[..1]) && In(rx, s[1..]);
      }
    }
  }

  lemma OneStep(c: char, rx: Rx, toEnd: bool, text: string)
    ensures MatchesHere(Pattern(Cat(Sym(c), rx), toEnd), text)
       <==> text != "" && SymOk(c, text[0]) && MatchesHere(Pattern(rx, toEnd), text[1..])
  {
    var cat := Cat(Sym(c), rx);
    if MatchesHere(Pattern(cat, toEnd), text) {
      var j :| 0 <= j <= |text| && (toEnd ==> j == |text|) && In(cat, text[..j]);
      var k :| 0 <= k <= |text[..j]| && In(cat.l, text[..j][..k]) && In(rx, text[..j][k..]);
      assert text[..j][k..] == text[1..][..j - 1];
    }
    if text != "" && SymOk(c, text[0]) && MatchesHere(Pattern(rx, toEnd), text[1..]) {
      var j :| 0 <= j <= |text[1..]| && (toEnd ==> j == |text[1..]|) && In(rx, text[1..][..j]);
      assert text[..j + 1][1..] == text[1..][..j] && In(cat.l, text[..j + 1][..1]);
      assert In(cat, text[..j + 1]);
    }
  }

  /** The first k characters all satisfy the symbol, and p matches from there. */
  ghost predicate StarThen(c: char, p: Pattern, text: string, k: nat)
  {
    && k <= |text|
    && (forall i :: 0 <= i < k ==> SymOk(c, text[i]))
    && MatchesHere(p, text[k..])
  }

  lemma StarStep(c: char, p: Pattern, text: string)
    ensures MatchesHere(Pattern(Cat(Star(Sym(c)), p.rx), p.toEnd), text)
       <==> exists k: nat :: StarThen(c, p, text, k)
  {
    var cat := Cat(Star(Sym(c)), p.rx);
    if MatchesHere(Pattern(cat, p.toEnd), text) {
      var j :| 0 <= j <= |text| && (p.toEnd ==> j == |text|) && In(cat, text[..j]);
      var k :| 0 <= k <= |text[..j]| && In(cat.l, text[..j][..k]) && In(p.rx, text[..j][k..]);
      StarOfSym(c, text[..j][..k]);
      assert forall i :: 0 <= i < k ==> text[..j][..k][i] == text[i];
      assert text[..j][k..] == text[k..][..j - k];
      assert StarThen(c, p, text, k);
    }
    if k: nat :| StarThen(c, p, text, k) {
      var j :| 0 <= j <= |text[k..]| && (p.toEnd ==> j == |text[k..]|) && In(p.rx, text[k..][..j]);
      var whole := text[..k + j];
      assert whole[..k] == text[..k] && whole[k..] == text[k..][..j];
      StarOfSym(c, text[..k]);
      assert In(cat, whole);
    }
  }

  // ------------------------------------------------------------------ the code

  /** matchhere: search for re at the beginning of text. */
  method MatchHere(re: CString, text: CString) returns (found: bool)
    ensures found <==> MatchesHere(Parse(re), text)
    decreases |re|, 0
  {
    if re == "" {
      assert In(Eps, text[..0]);
      return true;
    }
    if |re| >= 2 && re[1] == '*' {
      found := MatchStar(re[0], re[2..], text);
      StarStep(re[0], Parse(re[2..]), text);
      assert Parse(re) == Pattern(Cat(Star(Sym(re[0])), Parse(re[2..]).rx), Parse(re[2..]).toEnd);
      return;
    }
    if re[0] == '$' && |re| == 1 {
      assert text[..|text|] == text;
      return text == "";
    }
    OneStep(re[0], Parse(re[1..]).rx, Parse(re[1..]).toEnd, text);
    if text != "" && (re[0] == '.' || re[0] == text[0]) {
      found := MatchHere(re[1..], text[1..]);
      return;
    }
    return false;
  }

  /** matchstar: search for c*re at the beginning of text. */
  method MatchStar(c: char, re: CString, text: CString) returns (found: bool)
    ensures found <==> exists k: nat :: StarThen(c, Parse(re), text, k)
    decreases |re|, 1
  {
    var t := 0;
    while true
      invariant 0 <= t <= |text|
      invariant forall i :: 0 <= i < t ==> SymOk(c, text[i])
      invariant forall k: nat :: k < t ==> !StarThen(c, Parse(re), text, k)
      decreases |text| - t
    {
      var here := MatchHere(re, text[t..]);
      if here {
        assert StarThen(c, Parse(re), text, t);
        return true;
      }
      if t == |text| || !(text[t] == c || c == '.') {
        return false;
      }
      t := t + 1;
    }
  }

  /** match: search for re anywhere in text. */
  method Match(re: CString, text: CString) returns (found: bool)
    ensures found <==> Matches(re, text)
  {
    if re != "" && re[0] == '^' {
      found := MatchHere(re[1..], text);
      return;
    }
    var t := 0;
    while true
      invariant 0 <= t <= |text|
      invariant forall i :: 0 <= i < t ==> !MatchesHere(Parse(re), text[i..])
      decreases |text| - t
    {
      var here := MatchHere(re, text[t..]);
      if here {
        return true;
      }
      if t == |text| {
        return false;
      }
      t := t + 1;
    }
  }

  // ----------------------------------------------------------- the line filter

  const BUFSIZE: nat := 1024

  /** Where the first line of s stops: its first newline or NUL, or |s|. */
  function LineEnd(s: string): (k: nat)
    ensures k <= |s|
    ensures forall i :: 0 <= i < k ==> s[i] != '\n' && s[i] != '\0'
    ensures k < |s| ==> s[k] == '\n' || s[k] == '\0'
  {
    if s == "" || s[0] == '\n' || s[0] == '\0' then 0 else 1 + LineEnd(s[1..])
  }

  /** s starts with a line that a buffer of the given size can hold. */
  predicate HasLine(s: string, limit: nat)
  {
    LineEnd(s) < |s| && LineEnd(s) < limit && s[LineEnd(s)] == '\n'
  }

  /** What a filter that can hold lines of fewer than `limit` characters prints: the
      matching lines, in order, up to the first one it cannot hold. */
  ghost function Filtered(re: string, s: string, limit: nat): (out: string)
    decreases |s|
  {
    if !HasLine(s, limit) then ""
    else
      var k := LineEnd(s);
      (if Matches(re, s[..k]) then s[..k + 1] else "") + Filtered(re, s[k + 1..], limit)
  }

  lemma LineEndIs(s: string, k: nat)
    requires k < |s| && (s[k] == '\n' || s[k] == '\0')
    requires forall i :: 0 <= i < k ==> s[i] != '\n' && s[i] != '\0'
    ensures LineEnd(s) == k
  {}

  /** What grep prints, and what a filter with room for any line would print. */
  ghost function Printed(re: string, s: string): (out: string) { Filtered(re, s, BUFSIZE - 1) }

  ghost function Ideal(re: string, s: string): (out: string) { Filtered(re, s, |s| + 1) }

  /** read(fd, buf, cap): some further part of the input, nothing at its end. */
  method Read(input: string, pos: nat, cap: nat) returns (n: nat)
    requires pos <= |input|
    ensures n <= cap && pos + n <= |input|
    ensures n == 0 <==> cap == 0 || pos == |input|
  {
    if cap == 0 || pos == |input| {
      n := 0;
    } else {
      n :| 0 < n <= cap && pos + n <= |input|;
    }
  }

  /** strchr(buf + p, '\n') in a buffer terminated at m. */
  method FindNewline(buf: array<char>, p: nat, m: nat) returns (found: bool, q: nat)
    requires p <= m < buf.Length && buf[m] == '\0'
    ensures p <= q <= m && q == p + LineEnd(buf[p..m])
    ensures found <==> HasLine(buf[p..m], m - p + 1)
    ensures found ==> q < m && buf[q] == '\n' && forall i :: p <= i < q ==> buf[i] != '\0'
  {
    q := p;
    while buf[q] != '\0' && buf[q] != '\n'
      invariant p <= q <= m
      invariant forall i :: p <= i < q ==> buf[i] != '\n' && buf[i] != '\0'
      decreases m - q
    {
      q := q + 1;
    }
    found := buf[q] == '\n';
    if q < m {
      LineEndIs(buf[p..m], q - p);
    }
  }

  /** grep(): filter the whole input through a fixed buffer, whatever sizes read()
      hands back. */
  method Run(re: CString, input: string) returns (out: string)
    ensures out == Printed(re, input)
  {
    var buf := new char[BUFSIZE];
    var m: nat, pos: nat := 0, 0;
    out := "";
    assert input[0..] == input;
    while true
      invariant m < BUFSIZE && m <= pos <= |input|
      invariant buf[..m] <= input[pos - m..]
      invariant !HasLine(buf[..m], BUFSIZE)
      invariant out + Printed(re, input[pos - m..]) == Printed(re, input)
      decreases |input| - pos
    {
      ghost var rest := input[pos - m..];
      var n := Read(input, pos, BUFSIZE - m - 1);
      if n == 0 {
        NothingLeft(rest, buf[..m]);
        break;
      }
      forall i | 0 <= i < n {
        buf[m + i] := input[pos + i];
      }
      m, pos := m + n, pos + n;
      buf[m] := '\0';
      assert buf[..m] == rest[..m];
      var lines, kept := Lines(re, rest, buf, m);
      assert rest[m - kept..] == input[pos - kept..];
      Regroup(out, lines, Printed(re, input[pos - kept..]));
      out, m := out + lines, kept;
    }
  }

  lemma Regroup(a: string, b: string, c: string)
    ensures (a + b) + c == a + (b + c)
  {}

  lemma NothingLeft(rest: string, held: string)
    requires held <= rest && |held| < BUFSIZE && !HasLine(held, BUFSIZE)
    requires held == rest || |held| == BUFSIZE - 1
    ensures !HasLine(rest, BUFSIZE - 1)
  {
    if HasLine(rest, BUFSIZE - 1) {
      LineEndIs(held, LineEnd(rest));
    }
  }

  /** The first line of a prefix of s is the first line of s. */
  lemma FilterFirst(re: string, s: string, held: string, k: nat)
    requires held <= s && |held| < BUFSIZE && HasLine(held, |held| + 1) && k == LineEnd(held)
    ensures Printed(re, s)
         == (if Matches(re, held[..k]) then held[..k + 1] else "") + Printed(re, s[k + 1..])
  {
    LineEndIs(s, k);
    assert s[..k] == held[..k] && s[..k + 1] == held[..k + 1];
  }

  /** The inner loop of grep(): print the matching complete lines among the first m
      characters of the buffer and move the rest to the front. */
  method Lines(re: CString, ghost rest: string, buf: array<char>, m: nat) returns (out: string, kept: nat)
    requires m < buf.Length == BUFSIZE && buf[m] == '\0' && m <= |rest|
    requires buf[..m] <= rest
    modifies buf
    ensures kept <= m && buf[..kept] <= rest[m - kept..]
    ensures !HasLine(buf[..kept], BUFSIZE)
    ensures out + Printed(re, rest[m - kept..]) == Printed(re, rest)
  {
    hide *;
    var p: nat, more := 0, true;
    out := "";
    assert rest[0..] == rest && buf[0..m] == buf[..m];
    while more
      invariant p <= m && buf[m] == '\0'
      invariant buf[p..m] <= rest[p..]
      invariant !more ==> !HasLine(buf[p..m], BUFSIZE)
      invariant out + Printed(re, rest[p..]) == Printed(re, rest)
      decreases m - p, more
    {
      var line;
      more, line, p := NextLine(re, rest, buf, p, m);
      Regroup(out, line, Printed(re, rest[p..]));
      out := out + line;
    }
    kept := MoveDown(buf, p, m);
  }

  /** One turn of that loop: the next complete line is printed if it matches. */
  method NextLine(re: CString, ghost rest: string, buf: array<char>, p: nat, m: nat)
      returns (more: bool, line: string, p': nat)
    requires p <= m < buf.Length == BUFSIZE && buf[m] == '\0' && m <= |rest|
    requires buf[p..m] <= rest[p..]
    modifies buf
    ensures buf[m] == '\0' && p <= p' <= m && (more ==> p < p')
    ensures buf[p'..m] <= rest[p'..]
    ensures !more ==> p' == p && !HasLine(buf[p'..m], BUFSIZE)
    ensures line + Printed(re, rest[p'..]) == Printed(re, rest[p..])
  {
    var q;
    more, q := FindNewline(buf, p, m);
    if !more {
      return more, "", p;
    }
    hide Filtered, HasLine, Matches, LineEnd;
    Split(re, rest, buf, p, q, m);
    line := PrintIf(re, buf, p, q, m);
    p' := q + 1;
  }

  lemma Split(re: string, rest: string, buf: array<char>, p: nat, q: nat, m: nat)
    requires p <= q < m < buf.Length == BUFSIZE && p <= |rest| && buf[p..m] <= rest[p..]
    requires HasLine(buf[p..m], m - p + 1) && q == p + LineEnd(buf[p..m])
    ensures q < |rest| && buf[q + 1..m] <= rest[q + 1..]
    ensures Printed(re, rest[p..]) == (if Matches(re, buf[p..q]) then buf[p..q + 1] else "")
      + Printed(re, rest[q + 1..])
  {
    hide Filtered, HasLine, Matches, LineEnd;
    var held := buf[p..m];
    LineAt(re, rest, held, p, q);
    assert buf[p..q] == held[..q - p];
    assert buf[p..q + 1] == held[..q - p + 1];
    assert buf[q + 1..m] == held[q - p + 1..];
  }

  /** The rest of the buffer, moved to its start. */
  method MoveDown(buf: array<char>, p: nat, m: nat) returns (kept: nat)
    requires p <= m <= buf.Length
    modifies buf
    ensures kept == m - p && buf[..kept] == old(buf[p..m])
  {
    kept := m - p;
    forall i | 0 <= i < kept {
      buf[i] := buf[p + i];
    }
  }

  /** The line that ends at q, seen from the text still to be filtered. */
  lemma LineAt(re: string, rest: string, held: string, p: nat, q: nat)
    requires p <= q && p <= |rest| && |held| < BUFSIZE && held <= rest[p..]
    requires HasLine(held, |held| + 1) && q == p + LineEnd(held)
    ensures q < |rest| && held[q - p + 1..] <= rest[q + 1..]
    ensures Printed(re, rest[p..])
         == (if Matches(re, held[..q - p]) then held[..q - p + 1] else "") + Printed(re, rest[q + 1..])
  {
    hide Printed, Matches, LineEnd;
    var s := rest[p..];
    assert s[q - p + 1..] == rest[q + 1..];
    FilterFirst(re, s, held, q - p);
  }

  /** Cut the line at q off with a NUL, match it, and print it if it matches. */
  method PrintIf(re: CString, buf: array<char>, p: nat, q: nat, m: nat) returns (out: string)
    requires p <= q < m < buf.Length && buf[q] == '\n'
    requires forall i :: p <= i < q ==> buf[i] != '\0'
    modifies buf
    ensures buf[q + 1..m] == old(buf[q + 1..m]) && buf[m] == old(buf[m])
    ensures out == if Matches(re, old(buf[p..q])) then old(buf[p..q + 1]) else ""
  {
    buf[q] := '\0';
    out := "";
    var hit := Match(re, buf[p..q]);
    if hit {
      buf[q] := '\n';
      out := buf[p..q + 1];
    }
  }

  /** Every complete line before the first NUL is shorter than limit. */
  ghost predicate LinesFit(s: string, limit: nat)
    decreases |s|
  {
    HasLine(s, |s| + 1) ==> LineEnd(s) < limit && LinesFit(s[LineEnd(s) + 1..], limit)
  }

  /** A limit that every line respects loses nothing, for any pattern ... */
  lemma {:induction false} FitIsEnough(re: string, s: string, limit: nat, big: nat)
    requires big > |s| && LinesFit(s, limit)
    ensures Filtered(re, s, limit) == Filtered(re, s, big)
    decreases |s|
  {
    if HasLine(s, |s| + 1) {
      FitIsEnough(re, s[LineEnd(s) + 1..], limit, big);
    }
  }

  lemma EmptyMatches(text: string)
    ensures Matches("", text)
  {
    assert In(Eps, text[0..][..0]);
    assert MatchesHere(Parse(""), text[0..]);
  }

  /** ... and one that some line breaks loses that line under the empty pattern. */
  lemma {:induction false} MisfitLoses(s: string, limit: nat, big: nat)
    requires big > |s| && !LinesFit(s, limit)
    ensures |Filtered("", s, limit)| < |Filtered("", s, big)|
    decreases |s|
  {
    var k := LineEnd(s);
    EmptyMatches(s[..k]);
    if k < limit {
      MisfitLoses(s[k + 1..], limit, big);
    }
  }

  /** grep prints what an unbounded filter would, for every pattern, exactly when each
      complete line is shorter than its buffer. */
  lemma ExactWhenLinesFit(s: string)
    ensures (forall re :: Printed(re, s) == Ideal(re, s))
       <==> LinesFit(s, BUFSIZE - 1)
  {
    if LinesFit(s, BUFSIZE - 1) {
      forall re ensures Printed(re, s) == Ideal(re, s) {
        FitIsEnough(re, s, BUFSIZE - 1, |s| + 1);
      }
    } else {
      MisfitLoses(s, BUFSIZE - 1, |s| + 1);
      assert Printed("", s) != Ideal("", s);
    }
  }
}
