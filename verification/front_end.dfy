/** The tokenizer and the parser together. */
module FrontEnd {
  import opened Position
  import opened Tokens
  import opened Tokenizer
  import opened TokenCursor
  import opened Parser

  /** On success the tokenizer's own end-of-file token is the very token the
      cursor would produce as its sentinel, yet the cursor reads it as a real
      element: at its index the stream has not ended. */
  lemma EndOfFileTokenIsAnElement(filename: string, file: string)
    ensures var r := Tokenize(filename, file);
            r.errors == [] ==>
              var last := |r.tokens| - 1;
              && r.tokens[last] == EndOfFileToken(r.tokens)
              && !EndOfStream(TokenHandle(r.tokens, last))
              && At(TokenHandle(r.tokens, last), 0) == r.tokens[last]
  {
  }

  /** Parsing a token list that ends with an end-of-file token from any point
      before that token: the last statement is an unknown one, so at least one
      error is reported. No statement can consume the end-of-file token and
      succeed, because a print statement always ends just after a `;`. */
  lemma {:induction false} EndsWithUnknown(h: TokenHandle)
    requires h.position < |h.tokens| && h.tokens[|h.tokens| - 1].EndOfFile?
    ensures var r := ParseFrom(h);
            |r.statements| >= 1 && r.statements[|r.statements| - 1].UnknownStatement? && |r.errors| >= 1
    decreases Remaining(h)
  {
    var step := ParseStatement(h);
    var rest := ParseFrom(step.next);
    ParseFromStep(h);
    var r := ParseFrom(h);
    assert r.statements == [step.statement] + rest.statements;
    if step.next.position < |h.tokens| {
      EndsWithUnknown(step.next);
      assert r.statements[|r.statements| - 1] == rest.statements[|rest.statements| - 1];
    } else {
      assert step.next.position == |h.tokens|;
      assert !step.statement.Print?;
      assert rest == Parsed([], []);
    }
  }

  /** Parsing a whole token list that ends with an end-of-file token ends with
      an unknown statement and reports at least one error. */
  lemma ParseEndsWithUnknown(tokens: seq<Token>)
    requires |tokens| > 0 && tokens[|tokens| - 1].EndOfFile?
    ensures var p := Parse(tokens);
            |p.statements| >= 1 && p.statements[|p.statements| - 1].UnknownStatement? && |p.errors| >= 1
  {
    EndsWithUnknown(NewTokenHandle(tokens));
    assert Parse(tokens) == ParseFrom(NewTokenHandle(tokens));
  }

  /** Whatever file the tokenizer accepts, the parser reports an error for it:
      the end-of-file token it appended always ends up in an unknown statement. */
  lemma AcceptedFilesFailToParse(filename: string, file: string)
    ensures var r := Tokenize(filename, file);
            r.errors == [] ==>
              var p := Parse(r.tokens);
              p.statements[|p.statements| - 1].UnknownStatement? && |p.errors| >= 1
  {
    var r := Tokenize(filename, file);
    if r.errors == [] {
      var tokens := r.tokens;
      var eof := EndOfFileAfter(ToLines(filename, file));
      assert |tokens| >= 1 && tokens[|tokens| - 1] == eof;
      assert eof.EndOfFile?;
      ParseEndsWithUnknown(tokens);
    }
  }
}
