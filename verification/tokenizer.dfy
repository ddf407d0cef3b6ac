/** The tokenizer: splits the file into lines and lexes each line by dispatching
    on its next character. It stops at the first character it does not know. */
module Tokenizer {
  import opened Wrappers
  import opened Text
  import opened Position
  import opened Tokens

  const UnexpectedToken := "Unexpected token"

  predicate IsWhitespace(c: char) {
    c == ' ' || c == '\t' || c == '\r' || c == '\n'
  }

  /** The seven characters that are tokens on their own. */
  predicate IsPunctuation(c: char) {
    c == ';' || c == '+' || c == '-' || c == '*' || c == '/' || c == '(' || c == ')'
  }

  /** The texts of a sequence of lines. */
  function Texts(lines: seq<Line>): seq<string> {
    seq(|lines|, i requires 0 <= i < |lines| => lines[i].text)
  }

  /** Splits the file on '\n'; line `i` (0-based) is numbered `i + 1`. */
  function ToLines(filename: string, file: string): (lines: seq<Line>)
    ensures |lines| >= 1
    ensures forall i :: 0 <= i < |lines| ==>
              lines[i].filename == filename && lines[i].lineNumber == i + 1 && '\n' !in lines[i].text
    ensures Join(Texts(lines), '\n') == file
  {
    var pieces := Split(file, '\n');
    var lines := seq(|pieces|, i requires 0 <= i < |pieces| => Line(filename, pieces[i], i + 1));
    assert Texts(lines) == pieces;
    JoinSplit(file, '\n');
    lines
  }

  // ---------------------------------------------------------------------------
  // What a correct lexing of one line looks like

  /** The column just past a token. */
  function End(t: Token): int {
    t.location.position + t.location.length
  }

  /** The character a punctuation token stands for. */
  function SymbolOf(t: Token): char {
    match t
    case Semicolon(_) => ';'
    case Plus(_) => '+'
    case Minus(_) => '-'
    case Asterisk(_) => '*'
    case Frontslash(_) => '/'
    case OpenParen(_) => '('
    case CloseParen(_) => ')'
    case _ => '\0'
  }

  /** `text[from..to]` exists and is all whitespace. */
  predicate AllWhitespace(text: string, from: int, to: int) {
    0 <= from <= to <= |text| && forall i :: from <= i < to ==> IsWhitespace(text[i])
  }

  /** `t` is a token of `line` whose kind matches the text it covers: a maximal
      run of digits for a number literal, the token's own character for
      punctuation. Nothing else is ever produced. */
  predicate Spelled(t: Token, line: Line) {
    var p := t.location.position;
    var n := t.location.length;
    && t.location.line == line && 0 <= p && 1 <= n && p + n <= |line.text|
    && match t
       case NumberLiteral(_, digits) =>
         && digits == line.text[p..p + n]
         && (forall i :: p <= i < p + n ==> IsDigit(line.text[i]))
         && (p + n == |line.text| || !IsDigit(line.text[p + n]))
       case Unknown(_) => false
       case EndOfFile(_) => false
       case _ => n == 1 && line.text[p] == SymbolOf(t)
  }

  /** `toks` lexes `line.text[from..to]`: spelled tokens in order, with nothing
      but whitespace before, between and after them. */
  predicate Lexed(line: Line, from: int, toks: seq<Token>, to: int)
    decreases |toks|
  {
    if |toks| == 0 then AllWhitespace(line.text, from, to)
    else
      && Spelled(toks[0], line)
      && AllWhitespace(line.text, from, toks[0].location.position)
      && Lexed(line, End(toks[0]), toks[1..], to)
  }

  /** A character that starts no token: the tokenizer gives up on it. */
  predicate Unexpected(c: char) {
    !IsWhitespace(c) && !IsDigit(c) && !IsPunctuation(c)
  }

  lemma WidenLexed(line: Line, a: int, b: int, toks: seq<Token>, to: int)
    requires AllWhitespace(line.text, a, b) && Lexed(line, b, toks, to)
    ensures Lexed(line, a, toks, to)
  {}

  // ---------------------------------------------------------------------------
  // The recognisers

  /** End of the run of whitespace starting at `position`. */
  function WhitespaceRunEnd(line: Line, position: nat): (r: nat)
    requires position <= |line.text|
    ensures AllWhitespace(line.text, position, r)
    ensures r == |line.text| || !IsWhitespace(line.text[r])
    decreases |line.text| - position
  {
    match CharAt(line, position)
    case Some(c) => if IsWhitespace(c) then WhitespaceRunEnd(line, position + 1) else position
    case None => position
  }

  /** `TryEatWhitespace`: the position after the whitespace run, if there is one. */
  function TryEatWhitespace(line: Line, position: nat): (r: Option<nat>)
    requires position <= |line.text|
    ensures r.Some? <==> position < |line.text| && IsWhitespace(line.text[position])
    ensures r.Some? ==> position < r.value && AllWhitespace(line.text, position, r.value)
                        && (r.value == |line.text| || !IsWhitespace(line.text[r.value]))
  {
    var next := WhitespaceRunEnd(line, position);
    if next > position then Some(next) else None
  }

  /** End of the run of ASCII digits starting at `position`. */
  function DigitRunEnd(line: Line, position: nat): (r: nat)
    requires position <= |line.text|
    ensures position <= r <= |line.text|
    ensures forall i :: position <= i < r ==> IsDigit(line.text[i])
    ensures r == |line.text| || !IsDigit(line.text[r])
    decreases |line.text| - position
  {
    match CharAt(line, position)
    case Some(c) => if IsDigit(c) then DigitRunEnd(line, position + 1) else position
    case None => position
  }

  /** `TryGetNumberLiteral`: the maximal digit run at `position` as one token,
      and the position after it. */
  function TryGetNumberLiteral(line: Line, position: nat): (r: Option<(Token, nat)>)
    requires position <= |line.text|
    ensures r.Some? <==> position < |line.text| && IsDigit(line.text[position])
    ensures r.Some? ==> var (t, next) := r.value;
              t.NumberLiteral? && t.location == Location(line, position, next - position)
              && position < next && next == End(t) && Spelled(t, line)
  {
    var next := DigitRunEnd(line, position);
    if next > position then
      var location := Location(line, position, next - position);
      Some((NumberLiteral(location, GetTokenString(location)), next))
    else None
  }

  /** The seven single-character recognisers (`TryGetSemicolon` to
      `TryGetCloseParen`). Their characters are distinct, so trying them in the
      source's order is one match on the character. */
  function TryGetPunctuation(line: Line, position: nat): (r: Option<Token>)
    ensures r.Some? <==> position < |line.text| && IsPunctuation(line.text[position])
    ensures r.Some? ==> r.value.location == Location(line, position, DefaultLength) && Spelled(r.value, line)
  {
    var location := Location(line, position, DefaultLength);
    match CharAt(line, position)
    case Some(';') => Some(Semicolon(location))
    case Some('+') => Some(Plus(location))
    case Some('-') => Some(Minus(location))
    case Some('*') => Some(Asterisk(location))
    case Some('/') => Some(Frontslash(location))
    case Some('(') => Some(OpenParen(location))
    case Some(')') => Some(CloseParen(location))
    case _ => None
  }

  // ---------------------------------------------------------------------------
  // Lines and files

  /** Tokens produced so far, and the error that stopped tokenizing, if any. */
  datatype Lexing = Lexing(tokens: seq<Token>, failure: Option<Error>)

  /** The error `TokenizeLine` records at an unexpected character in column `p`. */
  predicate StoppedAt(line: Line, e: Error, p: int) {
    && e == Error(Location(line, p, DefaultLength), UnexpectedToken)
    && 0 <= p < |line.text| && Unexpected(line.text[p])
  }

  /** `TokenizeLine`'s loop from `position` on. Each iteration either moves
      `position` forward or stops the loop with an error. */
  function TokenizeLineFrom(line: Line, position: nat): (r: Lexing)
    requires position <= |line.text|
    ensures r.failure.None? ==> Lexed(line, position, r.tokens, |line.text|)
    ensures r.failure.Some? ==>
              var p := r.failure.value.location.position;
              position <= p && StoppedAt(line, r.failure.value, p) && Lexed(line, position, r.tokens, p)
    decreases |line.text| - position
  {
    if position >= |line.text| then Lexing([], None)
    else
      match TryEatWhitespace(line, position)
      case Some(next) =>
        var r := TokenizeLineFrom(line, next);
        if r.failure.None? then
          WidenLexed(line, position, next, r.tokens, |line.text|); r
        else
          WidenLexed(line, position, next, r.tokens, r.failure.value.location.position); r
      case None =>
        match TryGetNumberLiteral(line, position)
        case Some((token, next)) =>
          var r := TokenizeLineFrom(line, next);
          assert ([token] + r.tokens)[1..] == r.tokens;
          Lexing([token] + r.tokens, r.failure)
        case None =>
          match TryGetPunctuation(line, position)
          case Some(token) =>
            var r := TokenizeLineFrom(line, position + 1);
            assert ([token] + r.tokens)[1..] == r.tokens;
            Lexing([token] + r.tokens, r.failure)
          case None =>
            Lexing([], Some(Error(Location(line, position, DefaultLength), UnexpectedToken)))
  }

  /** `TokenizeLine`: lex a whole line. */
  function TokenizeLine(line: Line): (r: Lexing)
    ensures r.failure.None? ==> Lexed(line, 0, r.tokens, |line.text|)
    ensures r.failure.Some? ==>
              var p := r.failure.value.location.position;
              StoppedAt(line, r.failure.value, p) && Lexed(line, 0, r.tokens, p)
  {
    TokenizeLineFrom(line, 0)
  }

  /** Everything a lexing of one line guarantees about each of its tokens. */
  lemma {:induction false} LexedFacts(line: Line, from: int, toks: seq<Token>, to: int)
    requires Lexed(line, from, toks, to)
    ensures forall k :: 0 <= k < |toks| ==>
              Spelled(toks[k], line) && from <= toks[k].location.position && End(toks[k]) <= to
    ensures forall j, k :: 0 <= j < k < |toks| ==> End(toks[j]) <= toks[k].location.position
    decreases |toks|
  {
    if |toks| > 0 {
      LexedFacts(line, End(toks[0]), toks[1..], to);
      forall k | 0 < k < |toks| ensures toks[k] == toks[1..][k - 1] {}
    }
  }

  /** `a` ends before `b` starts: on an earlier line, or further left on the same line. */
  predicate Precedes(a: Location, b: Location) {
    var m := a.line.lineNumber;
    var n := b.line.lineNumber;
    m < n || (m == n && a.position + a.length <= b.position)
  }

  /** Tokens in source order, with disjoint spans. */
  predicate InSourceOrder(toks: seq<Token>) {
    forall j, k :: 0 <= j < k < |toks| ==> Precedes(toks[j].location, toks[k].location)
  }

  /** `t` is a spelled token of one of `lines[i..]`. */
  predicate Placed(t: Token, lines: seq<Line>, i: nat) {
    var n := t.location.line.lineNumber;
    i < n <= |lines| && Spelled(t, lines[n - 1])
  }

  /** `e` is the error for an unexpected character on one of `lines[i..]`, and
      every token in `toks` comes before it. */
  predicate FailedAfter(e: Error, toks: seq<Token>, lines: seq<Line>, i: nat) {
    var n := e.location.line.lineNumber;
    && i < n <= |lines| && StoppedAt(lines[n - 1], e, e.location.position)
    && forall k :: 0 <= k < |toks| ==> Precedes(toks[k].location, e.location)
  }

  predicate NumberedFromOne(lines: seq<Line>) {
    forall j :: 0 <= j < |lines| ==> lines[j].lineNumber == j + 1
  }

  /** `Tokenize`'s loop over `lines[i..]`, stopping at the first line that fails. */
  function TokenizeLines(lines: seq<Line>, i: nat): (r: Lexing)
    requires i <= |lines| && NumberedFromOne(lines)
    ensures forall k :: 0 <= k < |r.tokens| ==> Placed(r.tokens[k], lines, i)
    ensures InSourceOrder(r.tokens)
    ensures r.failure.Some? ==> FailedAfter(r.failure.value, r.tokens, lines, i)
    decreases |lines| - i
  {
    if i == |lines| then Lexing([], None)
    else
      var l := TokenizeLine(lines[i]);
      if l.failure.Some? then
        var p := l.failure.value.location.position;
        LineTokensPlaced(lines, i, l.tokens, p);
        l
      else
        LineTokensPlaced(lines, i, l.tokens, |lines[i].text|);
        var rest := TokenizeLines(lines, i + 1);
        LaterLinesFollow(lines, i, l.tokens, rest);
        Lexing(l.tokens + rest.tokens, rest.failure)
  }

  /** The tokens lexed on `lines[i]` up to column `to` are placed on that line,
      in order, and end by `to`. */
  lemma LineTokensPlaced(lines: seq<Line>, i: nat, toks: seq<Token>, to: int)
    requires i < |lines| && NumberedFromOne(lines) && Lexed(lines[i], 0, toks, to)
    ensures forall k :: 0 <= k < |toks| ==>
              Placed(toks[k], lines, i) && toks[k].location.line == lines[i] && End(toks[k]) <= to
    ensures InSourceOrder(toks)
  {
    LexedFacts(lines[i], 0, toks, to);
  }

  /** Appending the tokens and outcome of the later lines to those of line `i`
      keeps every guarantee of `TokenizeLines` for `lines[i..]`. */
  lemma LaterLinesFollow(lines: seq<Line>, i: nat, toks: seq<Token>, rest: Lexing)
    requires i < |lines| && NumberedFromOne(lines)
    requires forall k :: 0 <= k < |toks| ==> Placed(toks[k], lines, i) && toks[k].location.line == lines[i]
    requires InSourceOrder(toks)
    requires forall k :: 0 <= k < |rest.tokens| ==> Placed(rest.tokens[k], lines, i + 1)
    requires InSourceOrder(rest.tokens)
    requires rest.failure.Some? ==> FailedAfter(rest.failure.value, rest.tokens, lines, i + 1)
    ensures var all := toks + rest.tokens;
            && (forall k :: 0 <= k < |all| ==> Placed(all[k], lines, i))
            && InSourceOrder(all)
            && (rest.failure.Some? ==> FailedAfter(rest.failure.value, all, lines, i))
  {
    var all := toks + rest.tokens;
    forall k | 0 <= k < |all| ensures Placed(all[k], lines, i) {
      if k >= |toks| {
        assert all[k] == rest.tokens[k - |toks|];
      }
    }
    forall j, k | 0 <= j < k < |all| ensures Precedes(all[j].location, all[k].location) {
      if k < |toks| {
        assert Precedes(toks[j].location, toks[k].location);
      } else if j >= |toks| {
        assert Precedes(rest.tokens[j - |toks|].location, rest.tokens[k - |toks|].location);
      } else {
        assert Placed(rest.tokens[k - |toks|], lines, i + 1);
      }
    }
    if rest.failure.Some? {
      var e := rest.failure.value;
      forall k | 0 <= k < |all| ensures Precedes(all[k].location, e.location) {
        if k >= |toks| {
          assert all[k] == rest.tokens[k - |toks|];
        }
      }
    }
  }

  /** What `Tokenize` returns: the tokens and the errors, in order. */
  datatype Tokenized = Tokenized(tokens: seq<Token>, errors: seq<Error>)

  /** The token appended after the last line when every line lexed: it sits just
      past the end of the last line's text. */
  function EndOfFileAfter(lines: seq<Line>): (t: Token)
    requires |lines| >= 1
    ensures t.EndOfFile? && t.location.line == lines[|lines| - 1]
    ensures t.location.position == |lines[|lines| - 1].text| && t.location.length == DefaultLength
  {
    var last := lines[|lines| - 1];
    EndOfFile(Location(last, |last.text|, DefaultLength))
  }

  /** `Tokenize`: lex every line of `file` in order. On success the token list
      ends with an end-of-file token; at the first unexpected character the one
      error is returned with the tokens read before it, and no end-of-file token. */
  function Tokenize(filename: string, file: string): (r: Tokenized)
    ensures |r.errors| <= 1
    ensures r.errors == [] ==> |r.tokens| >= 1 && r.tokens[|r.tokens| - 1] == EndOfFileAfter(ToLines(filename, file))
    ensures forall k :: 0 <= k < |r.tokens| - (if r.errors == [] then 1 else 0) ==>
              Placed(r.tokens[k], ToLines(filename, file), 0)
    ensures InSourceOrder(r.tokens)
    ensures r.errors != [] ==> FailedAfter(r.errors[0], r.tokens, ToLines(filename, file), 0)
  {
    var lines := ToLines(filename, file);
    var r := TokenizeLines(lines, 0);
    if r.failure.Some? then Tokenized(r.tokens, [r.failure.value])
    else
      EndOfFileFollows(lines, r.tokens);
      Tokenized(r.tokens + [EndOfFileAfter(lines)], [])
  }

  /** The end-of-file token comes after every token placed on the lines. */
  lemma EndOfFileFollows(lines: seq<Line>, toks: seq<Token>)
    requires |lines| >= 1 && NumberedFromOne(lines)
    requires forall k :: 0 <= k < |toks| ==> Placed(toks[k], lines, 0)
    requires InSourceOrder(toks)
    ensures var all := toks + [EndOfFileAfter(lines)];
            && InSourceOrder(all)
            && forall k :: 0 <= k < |all| - 1 ==> Placed(all[k], lines, 0)
  {
    var eof := EndOfFileAfter(lines);
    var all := toks + [eof];
    forall j, k | 0 <= j < k < |all| ensures Precedes(all[j].location, all[k].location) {
      if k < |toks| {
        assert Precedes(toks[j].location, toks[k].location);
      } else {
        assert Placed(toks[j], lines, 0);
      }
    }
    forall k | 0 <= k < |all| - 1 ensures Placed(all[k], lines, 0) {
      assert all[k] == toks[k];
    }
  }

  /** The tokens of `toks` that sit on line number `n`, in order. */
  function OnLine(toks: seq<Token>, n: int): (r: seq<Token>)
    decreases |toks|
  {
    if |toks| == 0 then []
    else (if toks[0].location.line.lineNumber == n then [toks[0]] else []) + OnLine(toks[1..], n)
  }

  lemma {:induction false} OnLineAppend(a: seq<Token>, b: seq<Token>, n: int)
    ensures OnLine(a + b, n) == OnLine(a, n) + OnLine(b, n)
    decreases |a|
  {
    if |a| > 0 {
      assert (a + b)[1..] == a[1..] + b;
      OnLineAppend(a[1..], b, n);
    } else {
      assert a + b == b;
    }
  }

  lemma {:induction false} OnLineKeepsAll(a: seq<Token>, n: int)
    requires forall k :: 0 <= k < |a| ==> a[k].location.line.lineNumber == n
    ensures OnLine(a, n) == a
    decreases |a|
  {
    if |a| > 0 {
      OnLineKeepsAll(a[1..], n);
    }
  }

  lemma {:induction false} OnLineDropsAll(a: seq<Token>, n: int)
    requires forall k :: 0 <= k < |a| ==> a[k].location.line.lineNumber != n
    ensures OnLine(a, n) == []
    decreases |a|
  {
    if |a| > 0 {
      OnLineDropsAll(a[1..], n);
    }
  }

  /** Tokens all on line `m` do not show up among the tokens of another line. */
  lemma OnLineSkipsPrefix(a: seq<Token>, b: seq<Token>, m: int, n: int)
    requires m != n && forall k :: 0 <= k < |a| ==> a[k].location.line.lineNumber == m
    ensures OnLine(a + b, n) == OnLine(b, n)
  {
    OnLineDropsAll(a, n);
    OnLineAppend(a, b, n);
  }

  /** Each of `lines[i..]` before the failing one (all of them on success) is
      lexed completely by its tokens in `r`. */
  predicate CoveredLines(lines: seq<Line>, r: Lexing, i: nat) {
    forall n :: i < n <= |lines| && (r.failure.None? || n < r.failure.value.location.line.lineNumber) ==>
      Lexed(lines[n - 1], 0, OnLine(r.tokens, n), |lines[n - 1].text|)
  }

  /** The failing line, if any, is lexed by its tokens in `r` up to the error. */
  predicate CoveredUpToError(lines: seq<Line>, r: Lexing) {
    r.failure.Some? ==>
      var e := r.failure.value;
      var n := e.location.line.lineNumber;
      0 < n <= |lines| && Lexed(lines[n - 1], 0, OnLine(r.tokens, n), e.location.position)
  }

  /** Lines before the one that failed are lexed completely by their tokens, and
      the failing line is lexed up to the error. */
  lemma {:induction false} TokenizeLinesCovers(lines: seq<Line>, i: nat)
    requires i <= |lines| && NumberedFromOne(lines)
    ensures CoveredLines(lines, TokenizeLines(lines, i), i)
    ensures CoveredUpToError(lines, TokenizeLines(lines, i))
    decreases |lines| - i
  {
    if i < |lines| {
      if TokenizeLine(lines[i]).failure.Some? {
        CoversFailingLine(lines, i);
      } else {
        TokenizeLinesCovers(lines, i + 1);
        CoversLexedLine(lines, i);
      }
    }
  }

  lemma CoversFailingLine(lines: seq<Line>, i: nat)
    requires i < |lines| && NumberedFromOne(lines) && TokenizeLine(lines[i]).failure.Some?
    ensures CoveredLines(lines, TokenizeLines(lines, i), i)
    ensures CoveredUpToError(lines, TokenizeLines(lines, i))
  {
    var l := TokenizeLine(lines[i]);
    assert TokenizeLines(lines, i) == l;
    LexedFacts(lines[i], 0, l.tokens, l.failure.value.location.position);
    OnLineKeepsAll(l.tokens, i + 1);
  }

  lemma CoversLexedLine(lines: seq<Line>, i: nat)
    requires i < |lines| && NumberedFromOne(lines) && TokenizeLine(lines[i]).failure.None?
    requires CoveredLines(lines, TokenizeLines(lines, i + 1), i + 1)
    requires CoveredUpToError(lines, TokenizeLines(lines, i + 1))
    ensures CoveredLines(lines, TokenizeLines(lines, i), i)
    ensures CoveredUpToError(lines, TokenizeLines(lines, i))
  {
    var l := TokenizeLine(lines[i]);
    LexedFacts(lines[i], 0, l.tokens, |lines[i].text|);
    var rest := TokenizeLines(lines, i + 1);
    var r := TokenizeLines(lines, i);
    assert r == Lexing(l.tokens + rest.tokens, rest.failure);
    assert OnLine(r.tokens, i + 1) == l.tokens by {
      OnLineKeepsAll(l.tokens, i + 1);
      OnLineDropsAll(rest.tokens, i + 1);
      OnLineAppend(l.tokens, rest.tokens, i + 1);
    }
    forall n | i + 1 < n <= |lines| ensures OnLine(r.tokens, n) == OnLine(rest.tokens, n) {
      OnLineSkipsPrefix(l.tokens, rest.tokens, i + 1, n);
    }
    if rest.failure.Some? {
      assert i + 1 < rest.failure.value.location.line.lineNumber;
    }
  }

  /** After a successful `Tokenize`, the tokens on each line (the end-of-file
      token aside) lex that whole line; after a failed one, every line before
      the error's line is lexed completely and the error's line up to the error. */
  lemma TokenizeCovers(filename: string, file: string)
    ensures var lines := ToLines(filename, file);
            var r := Tokenize(filename, file);
            r.errors == [] ==>
              forall j :: 0 <= j < |lines| ==>
                Lexed(lines[j], 0, OnLine(r.tokens[..|r.tokens| - 1], j + 1), |lines[j].text|)
    ensures var lines := ToLines(filename, file);
            var r := Tokenize(filename, file);
            r.errors != [] ==>
              var e := r.errors[0];
              var n := e.location.line.lineNumber;
              && (forall j :: 0 <= j < n - 1 ==> Lexed(lines[j], 0, OnLine(r.tokens, j + 1), |lines[j].text|))
              && Lexed(lines[n - 1], 0, OnLine(r.tokens, n), e.location.position)
  {
    var lines := ToLines(filename, file);
    TokenizeLinesCovers(lines, 0);
    var r := Tokenize(filename, file);
    if r.errors == [] {
      assert r.tokens[..|r.tokens| - 1] == TokenizeLines(lines, 0).tokens;
    }
  }

  /** `1 @ 2;`: the literal before `@` is kept, the error points at column 3, and
      nothing after it is tokenized, not even the end-of-file token. */
  lemma StopsAtUnexpectedCharacter()
    ensures var line := Line("f", "1 @ 2;", 1);
            Tokenize("f", "1 @ 2;")
            == Tokenized([NumberLiteral(Location(line, 0, 1), "1")], [Error(Location(line, 2, 1), UnexpectedToken)])
  {
    var line := Line("f", "1 @ 2;", 1);
    SampleIsOneLine();
    SampleLineStops();
    assert TokenizeLines([line], 0)
        == Lexing([NumberLiteral(Location(line, 0, 1), "1")], Some(Error(Location(line, 2, 1), UnexpectedToken)));
  }

  lemma SampleIsOneLine()
    ensures ToLines("f", "1 @ 2;") == [Line("f", "1 @ 2;", 1)]
  {
    SplitNoSeparator("1 @ 2;", '\n');
  }

  lemma SampleLineStops()
    ensures var line := Line("f", "1 @ 2;", 1);
            TokenizeLine(line)
            == Lexing([NumberLiteral(Location(line, 0, 1), "1")], Some(Error(Location(line, 2, 1), UnexpectedToken)))
  {
    var line := Line("f", "1 @ 2;", 1);
    var one := NumberLiteral(Location(line, 0, 1), "1");
    var err := Error(Location(line, 2, 1), UnexpectedToken);
    assert TokenizeLineFrom(line, 2) == Lexing([], Some(err)) by {
      assert TryEatWhitespace(line, 2) == None;
      assert TryGetNumberLiteral(line, 2) == None;
      assert TryGetPunctuation(line, 2) == None;
    }
    assert TokenizeLineFrom(line, 1) == Lexing([], Some(err)) by {
      assert TryEatWhitespace(line, 1) == Some(2);
    }
    assert TryEatWhitespace(line, 0) == None;
    assert DigitRunEnd(line, 1) == 1;
    assert DigitRunEnd(line, 0) == 1;
    assert GetTokenString(Location(line, 0, 1)) == "1";
    assert TryGetNumberLiteral(line, 0) == Some((one, 1));
  }
}
