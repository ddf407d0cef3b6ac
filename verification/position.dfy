/** Where a span of source text lives (`Line`, `Location`) and how a diagnostic
    (`Error`) is rendered against it. */
module Position {
  import opened Wrappers
  import opened Text

  /** One physical line of a source file; `lineNumber` is 1-based. */
  datatype Line = Line(filename: string, text: string, lineNumber: int)

  /** The line indexer: the character at `index`, or nothing past the end of the text. */
  function CharAt(line: Line, index: nat): (r: Option<char>)
    ensures r.Some? <==> index < |line.text|
    ensures r.Some? ==> r.value == line.text[index]
  {
    if index >= |line.text| then None else Some(line.text[index])
  }

  /** `Length` when a location is built without one. */
  const DefaultLength := 1

  /** A span of `length` characters starting at 0-based column `position` of `line`. */
  datatype Location = Location(line: Line, position: int, length: int)

  /** The characters a location covers (`Substring`, which throws outside the text). */
  function GetTokenString(loc: Location): (r: string)
    requires 0 <= loc.position && 0 <= loc.length
    requires loc.position + loc.length <= |loc.line.text|
    ensures |r| == loc.length
    ensures forall i :: 0 <= i < |r| ==> CharAt(loc.line, loc.position + i) == Some(r[i])
  {
    loc.line.text[loc.position..loc.position + loc.length]
  }

  /** The characters `TrimEnd` strips from the echoed source line. */
  const LineBreaks: set<char> := {'\r', '\n'}

  /** First line of a diagnostic: `file:line:column: message`, column 1-based. */
  function Header(loc: Location, message: string): string {
    loc.line.filename + ":" + IntToDecimal(loc.line.lineNumber) + ":"
      + IntToDecimal(loc.position + 1) + ": " + message
  }

  /** Third line of a diagnostic: `position` spaces, then `length` carets. */
  function CaretLine(position: nat, length: nat): (r: string)
    ensures |r| == position + length
    ensures forall i :: 0 <= i < position ==> r[i] == ' '
    ensures forall i :: position <= i < |r| ==> r[i] == '^'
  {
    Repeat(' ', position) + Repeat('^', length)
  }

  /** The three-line diagnostic for `message` at `loc` (`PadRight` throws on a
      negative width, hence the requirement). */
  function EnhanceMessage(loc: Location, message: string): (r: string)
    requires 0 <= loc.position && 0 <= loc.length
    ensures Framed(r, Header(loc, message), TrimEnd(loc.line.text, LineBreaks), CaretLine(loc.position, loc.length))
  {
    var h := Header(loc, message);
    var c := CaretLine(loc.position, loc.length);
    var t := TrimEnd(loc.line.text, LineBreaks);
    ThreeLineLayout(h, t, c);
    h + "\n" + t + "\n" + c + "\n"
  }

  /** `r` starts with the line `h` and ends with the line `c`, each terminated
      by a newline, and holds `t` and one more newline between them. */
  predicate Framed(r: string, h: string, t: string, c: string) {
    && |r| == |h| + |t| + |c| + 3 && r[|r| - 1] == '\n'
    && r[|r| - 2 - |c|] == '\n'
    && r[|r| - 1 - |c|..|r| - 1] == c
    && r[..|h| + 1] == h + "\n"
    && r[|h| + 1..|r| - 2 - |c|] == t
  }

  /** Where the pieces of three newline-terminated lines sit in their concatenation. */
  lemma ThreeLineLayout(h: string, t: string, c: string)
    ensures Framed(h + "\n" + t + "\n" + c + "\n", h, t, c)
  {
    var front := h + "\n" + t + "\n";
    var r := front + c + "\n";
    assert r == (h + "\n") + (t + "\n" + c + "\n");
    assert r[|front| - 1] == front[|front| - 1];
    assert r[|front|..|r| - 1] == c;
    assert r[|h| + 1..|front| - 1] == t;
  }

  /** Read back line by line, a diagnostic is exactly: the header, the source line
      without its trailing line breaks, the caret line, and nothing after the
      final newline. */
  lemma RenderedLines(loc: Location, message: string)
    requires 0 <= loc.position && 0 <= loc.length
    requires '\n' !in loc.line.filename && '\n' !in message && '\n' !in TrimEnd(loc.line.text, LineBreaks)
    ensures Split(EnhanceMessage(loc, message), '\n')
         == [Header(loc, message), TrimEnd(loc.line.text, LineBreaks), CaretLine(loc.position, loc.length), ""]
  {
    var h := Header(loc, message);
    var t := TrimEnd(loc.line.text, LineBreaks);
    var c := CaretLine(loc.position, loc.length);
    HeaderHasNoNewline(loc, message);
    assert '\n' !in c;
    var tail1 := t + "\n" + (c + "\n" + "");
    RenderedPieces(loc, message, tail1);
    SplitThreeLines(h, t, c);
  }

  /** Three lines, each followed by a newline, split back into the lines and
      the empty remainder. */
  lemma SplitThreeLines(a: string, b: string, c: string)
    requires '\n' !in a && '\n' !in b && '\n' !in c
    ensures Split(a + "\n" + (b + "\n" + (c + "\n" + "")), '\n') == [a, b, c, ""]
  {
    var last := Split("", '\n');
    assert last == [""];
    SplitAfterPiece(c, '\n', "");
    var third := Split(c + "\n" + "", '\n');
    assert third == [c, ""];
    SplitAfterPiece(b, '\n', c + "\n" + "");
    var second := Split(b + "\n" + (c + "\n" + ""), '\n');
    assert second == [b] + third;
    SplitAfterPiece(a, '\n', b + "\n" + (c + "\n" + ""));
  }

  lemma RenderedPieces(loc: Location, message: string, tail: string)
    requires 0 <= loc.position && 0 <= loc.length
    requires tail == TrimEnd(loc.line.text, LineBreaks) + "\n" + (CaretLine(loc.position, loc.length) + "\n" + "")
    ensures EnhanceMessage(loc, message) == Header(loc, message) + "\n" + tail
  {
  }

  lemma HeaderHasNoNewline(loc: Location, message: string)
    requires '\n' !in loc.line.filename && '\n' !in message
    ensures '\n' !in Header(loc, message)
  {
    var n := IntToDecimal(loc.line.lineNumber);
    var p := IntToDecimal(loc.position + 1);
    assert '\n' !in n && '\n' !in p;
    assert '\n' !in loc.line.filename + ":" + n;
    assert '\n' !in loc.line.filename + ":" + n + ":" + p;
  }


  /** A diagnostic: what went wrong and where. */
  datatype Error = Error(location: Location, message: string)

  /** `Error.ToString` renders the message against the error's location: the
      header names the message, the caret line marks the location's span. */
  function ErrorToString(e: Error): (r: string)
    requires 0 <= e.location.position && 0 <= e.location.length
    ensures Framed(r, Header(e.location, e.message), TrimEnd(e.location.line.text, LineBreaks),
                   CaretLine(e.location.position, e.location.length))
  {
    EnhanceMessage(e.location, e.message)
  }

  /** A two-character span at line 3, column 5 renders as `f:3:5: m`, the line,
      and a caret line of four spaces followed by two carets. */
  lemma CaretExample()
    ensures Split(ErrorToString(Error(Location(Line("f", "1 + 22;", 3), 4, 2), "m")), '\n')
         == ["f:3:5: m", "1 + 22;", "    ^^", ""]
  {
    var loc := Location(Line("f", "1 + 22;", 3), 4, 2);
    RenderedLines(loc, "m");
    ExampleHeader();
    ExampleTrim();
    ExampleCarets();
  }

  lemma ExampleHeader()
    ensures Header(Location(Line("f", "1 + 22;", 3), 4, 2), "m") == "f:3:5: m"
  {
    assert NatToDecimal(3) == "3";
    assert NatToDecimal(5) == "5";
  }

  lemma ExampleTrim()
    ensures TrimEnd("1 + 22;", LineBreaks) == "1 + 22;"
  {}

  lemma ExampleCarets()
    ensures CaretLine(4, 2) == "    ^^"
  {
    assert Repeat(' ', 4) == "    ";
    assert Repeat('^', 2) == "^^";
  }
}
