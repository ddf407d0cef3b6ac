/** `CharHandle`: an immutable cursor over a whole source file and its lines.
    Every operation returns a new cursor; the receiver is never changed. */
module CharCursor {
  import opened Wrappers
  import opened Position

  /** `line` and `linePos` are the 0-based line index and column, `filePos` the
      offset into `file`. */
  datatype CharHandle = CharHandle(file: string, lines: seq<Line>, line: nat, linePos: nat, filePos: nat)

  function NewCharHandle(file: string, lines: seq<Line>): (h: CharHandle)
    ensures h.file == file && h.lines == lines
    ensures h.filePos == 0 && CurrentLineNumber(h) == 1 && CurrentLinePosition(h) == 1
  {
    CharHandle(file, lines, 0, 0, 0)
  }

  /** The line the cursor is on: the one its line number names. Indexing past
      the last line throws in the source, hence the requirement. */
  function CurrentLine(h: CharHandle): (r: Line)
    requires h.line < |h.lines|
    ensures 1 <= CurrentLineNumber(h) <= |h.lines| && r == h.lines[CurrentLineNumber(h) - 1]
    ensures (forall i :: 0 <= i < |h.lines| ==> h.lines[i].lineNumber == i + 1) ==> r.lineNumber == CurrentLineNumber(h)
  {
    h.lines[h.line]
  }

  /** 1-based line number and column, for humans. */
  function CurrentLineNumber(h: CharHandle): int { h.line + 1 }
  function CurrentLinePosition(h: CharHandle): int { h.linePos + 1 }

  /** The indexer: the character `offset` places ahead, or nothing past the end of
      the file. A negative offset is a caller error in the source (it throws), so
      `offset` is a `nat` here. */
  function Peek(h: CharHandle, offset: nat): (r: Option<char>)
    ensures r.Some? <==> h.filePos + offset < |h.file|
    ensures r.Some? ==> r.value == h.file[h.filePos + offset]
  {
    var index := offset + h.filePos;
    if index >= |h.file| then None else Some(h.file[index])
  }

  function Min(a: int, b: int): int { if a <= b then a else b }

  /** The body of `Advance`'s loop from iteration `i` on, over the loop locals.
      As in the source, the wrap test compares with the length of the line the
      RECEIVER is on (`CurrentLine` of `h`), and its guard `h.line < |h.lines|`
      reads the receiver's line index, so it always holds. */
  function AdvanceLoop(h: CharHandle, offset: int, i: int, line: nat, linePos: nat, filePos: nat): (r: (nat, nat, nat))
    requires i >= offset || filePos >= |h.file| || h.line < |h.lines|
    ensures r.2 == (if i >= offset || filePos >= |h.file| then filePos else Min(filePos + (offset - i), |h.file|))
    ensures r.0 >= line
    ensures i < offset && filePos + (offset - i) <= |h.file| && linePos + (offset - i) < |CurrentLine(h).text|
            ==> r.0 == line && r.1 == linePos + (offset - i)
    ensures i < offset && filePos + (offset - i) <= |h.file| && linePos + (offset - i) == |CurrentLine(h).text|
            ==> r.0 == line + 1 && r.1 == 0
    decreases offset - i
  {
    if i >= offset || filePos >= |h.file| then (line, linePos, filePos)
    else
      var filePos' := filePos + 1;
      var linePos' := linePos + 1;
      if linePos' >= |CurrentLine(h).text| && h.line < |h.lines| then
        AdvanceLoop(h, offset, i + 1, line + 1, 0, filePos')
      else
        AdvanceLoop(h, offset, i + 1, line, linePos', filePos')
  }

  /** Moves `offset` characters forward, stopping at the end of the file. */
  function Advance(h: CharHandle, offset: int): (r: CharHandle)
    requires offset <= 0 || h.filePos >= |h.file| || h.line < |h.lines|
    ensures r.file == h.file && r.lines == h.lines
    ensures r.filePos == (if offset <= 0 || h.filePos >= |h.file| then h.filePos else Min(h.filePos + offset, |h.file|))
    ensures offset <= 0 || h.filePos >= |h.file| ==> r == h
    ensures r.line >= h.line
    ensures offset == 1 && h.filePos < |h.file| ==>
              if h.linePos + 1 >= |CurrentLine(h).text|
              then r.line == h.line + 1 && r.linePos == 0
              else r.line == h.line && r.linePos == h.linePos + 1
  {
    var (line, linePos, filePos) := AdvanceLoop(h, offset, 0, h.line, h.linePos, h.filePos);
    h.(line := line, linePos := linePos, filePos := filePos)
  }

  /** True once the cursor has reached the end of the file. */
  function EndOfStream(h: CharHandle): (r: bool)
    ensures r <==> Peek(h, 0).None?
  {
    h.filePos >= |h.file|
  }

  /** The span from this cursor to `end` (one character without `end`). If `end`
      is on another line the span is cut at the end of this cursor's line. An
      `end` before this cursor throws in the source; here it is a precondition. */
  function Location(h: CharHandle, end: Option<CharHandle>): (r: Position.Location)
    requires h.line < |h.lines|
    requires end.Some? ==> end.value.filePos >= h.filePos
    ensures r.line == CurrentLine(h) && r.position == h.linePos
    ensures end.None? ==> r.length == DefaultLength
    ensures end.Some? && end.value.line == h.line ==> r.position + r.length == end.value.linePos
    ensures end.Some? && end.value.line != h.line ==> r.position + r.length == |CurrentLine(h).text|
  {
    var length :=
      if end.None? then 1
      else if end.value.line != h.line then |CurrentLine(h).text| - h.linePos
      else end.value.linePos - h.linePos;
    Position.Location(CurrentLine(h), h.linePos, length)
  }

  /** The text between this cursor and `end` (`Substring`, which throws when `end`
      is before this cursor or past the end of the file). */
  function GetString(h: CharHandle, end: CharHandle): (r: string)
    requires h.filePos <= end.filePos <= |h.file|
    ensures |r| == end.filePos - h.filePos
    ensures forall i :: 0 <= i < |r| ==> Peek(h, i) == Some(r[i])
  {
    h.file[h.filePos..end.filePos]
  }

  /** A diagnostic at `Location(h, end)`. */
  function Error(h: CharHandle, message: string, end: Option<CharHandle>): (r: Position.Error)
    requires h.line < |h.lines|
    requires end.Some? ==> end.value.filePos >= h.filePos
    ensures r.message == message
    ensures r.location.line == CurrentLine(h) && r.location.position == h.linePos
    ensures end.None? ==> r.location.length == DefaultLength
    ensures r.location == Location(h, end)
  {
    Position.Error(Location(h, end), message)
  }

  /** A new cursor reads the file from its first character. */
  lemma NewStartsAtFirstCharacter(file: string, lines: seq<Line>, k: nat)
    ensures Peek(NewCharHandle(file, lines), k) == (if k < |file| then Some(file[k]) else None)
    ensures EndOfStream(NewCharHandle(file, lines)) <==> |file| == 0
  {}

  /** Peeking after an advance is peeking further ahead before it. */
  lemma {:induction false} PeekAfterAdvance(h: CharHandle, n: nat, k: nat)
    requires h.filePos <= |h.file|
    requires n == 0 || h.filePos >= |h.file| || h.line < |h.lines|
    ensures Peek(Advance(h, n), k) == Peek(h, n + k)
  {}

  /** Within one line, the span `Location` reports and the text `GetString`
      returns are the same characters, provided the line's text agrees with the
      file over the span. */
  lemma SpanMatchesText(h: CharHandle, n: nat)
    requires h.line < |h.lines| && h.filePos + n <= |h.file|
    requires h.linePos + n <= |CurrentLine(h).text|
    requires forall k :: h.linePos <= k < h.linePos + n ==> CurrentLine(h).text[k] == h.file[h.filePos + (k - h.linePos)]
    ensures Location(h, Some(Advance(h, n))).position + Location(h, Some(Advance(h, n))).length == h.linePos + n
         && GetTokenString(Location(h, Some(Advance(h, n)))) == GetString(h, Advance(h, n))
  {
    var e := Advance(h, n);
    var loc := Location(h, Some(e));
    assert loc.position + loc.length == h.linePos + n;
    var a := GetTokenString(loc);
    var b := GetString(h, e);
    assert |a| == |b| == n;
    forall i | 0 <= i < n ensures a[i] == b[i] {
      assert CharAt(loc.line, loc.position + i) == Some(a[i]);
      assert Peek(h, i) == Some(b[i]);
    }
  }

  /* As written, `Advance` wraps against the length of the line the cursor
     started on, so advancing several characters at once across lines of
     different lengths ends on a different line than advancing one at a time,
     and crossing the end of the last line leaves a line index with no line. */

  const SampleFile := "ab\nc\nd"
  const SampleLines := [Line("f", "ab\n", 1), Line("f", "c\n", 2), Line("f", "d", 3)]

  /** Five characters at once: line 1, column 2, although offset 5 ('d') is on line 2. */
  lemma AdvanceUsesStartingLine()
    ensures Advance(NewCharHandle(SampleFile, SampleLines), 5) == CharHandle(SampleFile, SampleLines, 1, 2, 5)
    ensures Advance(Advance(NewCharHandle(SampleFile, SampleLines), 3), 2) == CharHandle(SampleFile, SampleLines, 2, 0, 5)
  {}

  /** Reaching the end of a one-line file moves to line index 1, which does not exist. */
  lemma AdvancePastLastLine()
    ensures Advance(NewCharHandle("a", [Line("f", "a", 1)]), 1).line == 1
  {}

  /** One step of the advance loop as evidently intended: wrap against the line
      the cursor is on now, and only when there is a next line. */
  function StepIntended(h: CharHandle): (r: CharHandle)
    requires h.line < |h.lines|
    ensures r.file == h.file && r.lines == h.lines && r.line < |r.lines|
    ensures r.filePos == (if h.filePos >= |h.file| then h.filePos else h.filePos + 1)
  {
    if h.filePos >= |h.file| then h
    else if h.linePos + 1 >= |h.lines[h.line].text| && h.line + 1 < |h.lines| then
      h.(line := h.line + 1, linePos := 0, filePos := h.filePos + 1)
    else
      h.(linePos := h.linePos + 1, filePos := h.filePos + 1)
  }

  /** `Advance` as evidently intended: `offset` single steps. */
  function AdvanceIntended(h: CharHandle, offset: int): (r: CharHandle)
    requires h.line < |h.lines|
    ensures r.file == h.file && r.lines == h.lines && r.line < |r.lines|
    ensures r.filePos == (if offset <= 0 || h.filePos >= |h.file| then h.filePos else Min(h.filePos + offset, |h.file|))
    decreases offset
  {
    if offset <= 0 then h else AdvanceIntended(StepIntended(h), offset - 1)
  }

  /** Advancing `a` then `b` characters is advancing `a + b`. */
  lemma {:induction false} AdvanceIntendedComposes(h: CharHandle, a: nat, b: nat)
    requires h.line < |h.lines|
    ensures AdvanceIntended(AdvanceIntended(h, a), b) == AdvanceIntended(h, a + b)
    decreases a
  {
    if a > 0 {
      AdvanceIntendedComposes(StepIntended(h), a - 1, b);
    }
  }

  /** The intended advance ends the sample on the line holding offset 5, and
      keeps a one-line file on its only line. */
  lemma AdvanceIntendedOnSamples()
    ensures AdvanceIntended(NewCharHandle(SampleFile, SampleLines), 5) == CharHandle(SampleFile, SampleLines, 2, 0, 5)
    ensures AdvanceIntended(NewCharHandle("a", [Line("f", "a", 1)]), 1) == CharHandle("a", [Line("f", "a", 1)], 0, 1, 1)
  {}
}
