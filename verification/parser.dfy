/** The recursive-descent parser.

    Grammar:
      Statement             := ExpressionAny Semicolon
      ExpressionAny         := ExpressionAddSubtract
      ExpressionAddSubtract := ExpressionMulDiv ((Plus | Minus) ExpressionMulDiv)*
      ExpressionMulDiv      := ExpressionLiteralOrParen ((Asterisk | Frontslash) ExpressionLiteralOrParen)*
      ExpressionLiteralOrParen := ExpressionLiteral | ExpressionParen
      ExpressionLiteral     := NumberLiteral
      ExpressionParen       := OpenParen ExpressionAny CloseParen

    The source keeps the token cursor and the error list in mutable fields and
    signals a committed failure by throwing a panic that only `ParseStatement`
    catches. Here the cursor is threaded through, and every `TryParse*` returns
    one of three outcomes together with the cursor as the source leaves it. */
module Parser {
  import opened Wrappers
  import opened Position
  import opened Tokens
  import opened TokenCursor

  const ExpectedStatement := "Expected statement"
  const ExpectedSemicolon := "Expected semicolon"
  const ExpectedExpression := "Expected expression"
  const ExpectedCloseParen := "Expected ')'"

  /** The outcome of one parse attempt. `rest` is the cursor after it: unchanged
      for no match, past the match, or where the panic was thrown. An `Errored`
      outcome carries the one error recorded just before the panic. */
  datatype ParseResult =
    | Unmatched(rest: TokenHandle)
    | Matched(expr: Expression, rest: TokenHandle)
    | Errored(error: Error, rest: TokenHandle)

  /** Tokens not yet consumed; every recursive call that goes deeper into the
      grammar without consuming one climbs a level instead. */
  function Remaining(h: TokenHandle): nat {
    if h.position <= |h.tokens| then |h.tokens| - h.position else 0
  }

  predicate IsAddOperator(t: Token) { t.Plus? || t.Minus? }
  predicate IsMulOperator(t: Token) { t.Asterisk? || t.Frontslash? }

  /** A panic inside an expression: its error names the current token of the
      cursor it was thrown at, and that token is why the parse failed. */
  predicate Panicked(e: Error, at: TokenHandle) {
    && e == TokenCursor.Error(at, e.message)
    && (e.message == ExpectedExpression || e.message == ExpectedCloseParen)
    && (e.message == ExpectedExpression ==> !At(at, 0).NumberLiteral?)
    && (e.message == ExpectedCloseParen ==> !At(at, 0).CloseParen?)
  }

  /** The contract of every `TryParse*`: no match leaves the cursor where it was;
      a match consumes at least one token and yields a well-formed tree; a panic
      is thrown at or after the start. Neither goes past the end of the list. */
  predicate Tried(h: TokenHandle, r: ParseResult) {
    && r.rest.tokens == h.tokens
    && (r.Unmatched? ==> r.rest == h)
    && (r.Matched? ==> h.position < r.rest.position <= |h.tokens| && WellFormed(r.expr))
    && (r.Errored? ==> h.position <= r.rest.position <= |h.tokens| && Panicked(r.error, r.rest))
  }

  /** The contract of the operator loops, entered after a first operand. */
  predicate Looped(h: TokenHandle, r: ParseResult) {
    && r.rest.tokens == h.tokens
    && !r.Unmatched?
    && (r.Matched? ==> h.position <= r.rest.position <= |h.tokens| && WellFormed(r.expr))
    && (r.Errored? ==> h.position <= r.rest.position <= |h.tokens| && Panicked(r.error, r.rest))
  }

  function TryParseExpressionAny(h: TokenHandle): (r: ParseResult)
    ensures Tried(h, r)
    ensures r.Matched? ==> !IsAddOperator(At(r.rest, 0)) && !IsMulOperator(At(r.rest, 0))
    decreases Remaining(h), 5
  {
    TryParseExpressionAddSubtract(h)
  }

  /** A first product, then `+`/`-` products folded to the left. */
  function TryParseExpressionAddSubtract(h: TokenHandle): (r: ParseResult)
    ensures Tried(h, r)
    ensures r.Matched? ==> !IsAddOperator(At(r.rest, 0)) && !IsMulOperator(At(r.rest, 0))
    decreases Remaining(h), 4
  {
    match TryParseExpressionMulDiv(h)
    case Unmatched(_) => Unmatched(h)
    case Errored(e, at) => Errored(e, at)
    case Matched(lhs, next) => AddSubtractLoop(lhs, next)
  }

  /** The `while (true)` loop of `TryParseExpressionAddSubtract`, with `lhs` the
      accumulated left operand. After an operator a missing operand panics. */
  function AddSubtractLoop(lhs: Expression, h: TokenHandle): (r: ParseResult)
    requires h.position <= |h.tokens| && WellFormed(lhs)
    requires !IsMulOperator(At(h, 0))
    ensures Looped(h, r)
    ensures r.Matched? ==> !IsAddOperator(At(r.rest, 0)) && !IsMulOperator(At(r.rest, 0))
    decreases Remaining(h), 4
  {
    var operator := At(h, 0);
    if !IsAddOperator(operator) then Matched(lhs, h)
    else
      var afterOperator := Advance(h, 1);
      match TryParseExpressionMulDiv(afterOperator)
      case Unmatched(_) =>
        Errored(TokenCursor.Error(afterOperator, ExpectedExpression), afterOperator)
      case Errored(e, at) => Errored(e, at)
      case Matched(rhs, next) =>
        var combined :=
          if operator.Plus? then DoubleAdd(operator, lhs, rhs) else DoubleSubtract(operator, lhs, rhs);
        AddSubtractLoop(combined, next)
  }

  /** A first atom, then `*`/`/` atoms folded to the left. */
  function TryParseExpressionMulDiv(h: TokenHandle): (r: ParseResult)
    ensures Tried(h, r)
    ensures r.Matched? ==> !IsMulOperator(At(r.rest, 0))
    ensures At(h, 0).NumberLiteral? ==> !r.Unmatched?
    decreases Remaining(h), 3
  {
    match TryParseExpressionLiteralOrParen(h)
    case Unmatched(_) => Unmatched(h)
    case Errored(e, at) => Errored(e, at)
    case Matched(lhs, next) => MulDivLoop(lhs, next)
  }

  /** The `while (true)` loop of `TryParseExpressionMulDiv`. */
  function MulDivLoop(lhs: Expression, h: TokenHandle): (r: ParseResult)
    requires h.position <= |h.tokens| && WellFormed(lhs)
    ensures Looped(h, r)
    ensures r.Matched? ==> !IsMulOperator(At(r.rest, 0))
    decreases Remaining(h), 3
  {
    var operator := At(h, 0);
    if !IsMulOperator(operator) then Matched(lhs, h)
    else
      var afterOperator := Advance(h, 1);
      match TryParseExpressionLiteralOrParen(afterOperator)
      case Unmatched(_) =>
        Errored(TokenCursor.Error(afterOperator, ExpectedExpression), afterOperator)
      case Errored(e, at) => Errored(e, at)
      case Matched(rhs, next) =>
        var combined :=
          if operator.Asterisk? then DoubleMultiply(operator, lhs, rhs) else DoubleDivide(operator, lhs, rhs);
        MulDivLoop(combined, next)
  }

  /** A literal, else a parenthesised expression. */
  function TryParseExpressionLiteralOrParen(h: TokenHandle): (r: ParseResult)
    ensures Tried(h, r)
    ensures !At(h, 0).NumberLiteral? && !At(h, 0).OpenParen? ==> r.Unmatched?
    ensures At(h, 0).NumberLiteral? ==> r.Matched?
    decreases Remaining(h), 2
  {
    var literal := TryParseExpressionLiteral(h);
    if literal.Matched? then literal
    else
      var paren := TryParseExpressionParen(h);
      if paren.Unmatched? then Unmatched(h) else paren
  }

  /** A number literal token becomes a literal node. */
  function TryParseExpressionLiteral(h: TokenHandle): (r: ParseResult)
    ensures Tried(h, r) && !r.Errored?
    ensures r.Matched? <==> At(h, 0).NumberLiteral?
    ensures r.Matched? ==> r.expr == DoubleLiteral(At(h, 0)) && r.rest.position == h.position + 1
    decreases Remaining(h), 1
  {
    var current := At(h, 0);
    if current.NumberLiteral? then Matched(DoubleLiteral(current), Advance(h, 1)) else Unmatched(h)
  }

  /** `( e )` yields `e` itself. An open parenthesis without an expression after
      it is no match; an expression without `)` after it is a panic. */
  function TryParseExpressionParen(h: TokenHandle): (r: ParseResult)
    ensures Tried(h, r)
    ensures !At(h, 0).OpenParen? ==> r == Unmatched(h)
    ensures r.Matched? ==> At(h, 0).OpenParen? && h.tokens[r.rest.position - 1].CloseParen?
    decreases Remaining(h), 1
  {
    var current := At(h, 0);
    if !current.OpenParen? then Unmatched(h)
    else
      match TryParseExpressionAny(Advance(h, 1))
      case Unmatched(_) => Unmatched(h)
      case Errored(e, at) => Errored(e, at)
      case Matched(e, inner) =>
        if At(inner, 0).CloseParen? then Matched(e, Advance(inner, 1))
        else Errored(TokenCursor.Error(inner, ExpectedCloseParen), inner)
  }

  /** How a parenthesised expression ends, in terms of the expression after the
      `(`: no wrapper node on a match, no match without an expression, and a
      panic at the token that should have been `)`. */
  lemma ParenOutcomes(h: TokenHandle)
    requires At(h, 0).OpenParen?
    ensures var inner := TryParseExpressionAny(Advance(h, 1));
            var r := TryParseExpressionParen(h);
            && (inner.Unmatched? ==> r == Unmatched(h))
            && (inner.Errored? ==> r == inner)
            && (inner.Matched? && At(inner.rest, 0).CloseParen? ==>
                  r == Matched(inner.expr, Advance(inner.rest, 1)))
            && (inner.Matched? && !At(inner.rest, 0).CloseParen? ==>
                  r == Errored(TokenCursor.Error(inner.rest, ExpectedCloseParen), inner.rest))
  {
  }

  /** One statement's worth of parsing: the statement, the error recorded for it
      if it failed, and the cursor to continue from. */
  datatype StatementStep = StatementStep(statement: Statement, error: Option<Error>, next: TokenHandle)

  /** The messages a statement can fail with. */
  predicate StatementMessage(m: string) {
    m == ExpectedStatement || m == ExpectedSemicolon || m == ExpectedExpression || m == ExpectedCloseParen
  }

  /** The `catch (ParserPanic)` block: skip through the next semicolon, or to
      the end when there is none, and leave an unknown statement. */
  function Recover(e: Error, at: TokenHandle): (r: StatementStep)
    ensures r.statement == UnknownStatement && r.error == Some(e)
    ensures r.next.tokens == at.tokens && at.position <= r.next.position
    ensures at.position < |at.tokens| ==> at.position < r.next.position <= |at.tokens|
    ensures at.position < r.next.position < |at.tokens| ==> at.tokens[r.next.position - 1].Semicolon?
  {
    StatementStep(UnknownStatement, Some(e), AdvanceThrough(at, {SemicolonType}))
  }

  /** An expression followed by `;` becomes a print statement. Otherwise exactly
      one error is recorded, at the token where the statement went wrong, and
      the tokens through the next `;` are skipped. */
  function ParseStatement(h: TokenHandle): (r: StatementStep)
    ensures r.next.tokens == h.tokens && h.position <= r.next.position
    ensures h.position < |h.tokens| ==> h.position < r.next.position <= |h.tokens|
    ensures r.statement.UnknownStatement? <==> r.error.Some?
    ensures r.error.Some? ==> StatementMessage(r.error.value.message)
    ensures r.statement.Print? ==>
              WellFormed(r.statement.expression) && 0 < r.next.position <= |h.tokens|
              && h.tokens[r.next.position - 1].Semicolon?
    ensures r.statement.UnknownStatement? && r.next.position < |h.tokens| ==> h.tokens[r.next.position - 1].Semicolon?
  {
    match TryParseExpressionAny(h)
    case Unmatched(_) => Recover(TokenCursor.Error(h, ExpectedStatement), h)
    case Errored(e, at) => Recover(e, at)
    case Matched(e, next) =>
      if !At(next, 0).Semicolon? then Recover(TokenCursor.Error(next, ExpectedSemicolon), next)
      else StatementStep(Print(e), None, Advance(next, 1))
  }

  /** No expression at the start of a statement: "Expected statement" at its
      first token, then recovery from there. */
  lemma NoExpressionReported(h: TokenHandle)
    requires TryParseExpressionAny(h).Unmatched?
    ensures ParseStatement(h)
         == StatementStep(UnknownStatement, Some(TokenCursor.Error(h, ExpectedStatement)), AdvanceThrough(h, {SemicolonType}))
  {
  }

  /** An expression not followed by `;`: "Expected semicolon" at the token after
      the expression, then recovery from there. */
  lemma MissingSemicolonReported(h: TokenHandle)
    requires TryParseExpressionAny(h).Matched? && !At(TryParseExpressionAny(h).rest, 0).Semicolon?
    ensures var next := TryParseExpressionAny(h).rest;
            ParseStatement(h) == StatementStep(UnknownStatement, Some(TokenCursor.Error(next, ExpectedSemicolon)),
                                               AdvanceThrough(next, {SemicolonType}))
  {
  }

  /** A `+` or `-` without a product after it: the loop panics with "Expected
      expression" at the token after the operator. */
  lemma MissingAddOperandReported(lhs: Expression, h: TokenHandle)
    requires h.position <= |h.tokens| && WellFormed(lhs) && !IsMulOperator(At(h, 0))
    requires IsAddOperator(At(h, 0)) && TryParseExpressionMulDiv(Advance(h, 1)).Unmatched?
    ensures AddSubtractLoop(lhs, h) == Errored(TokenCursor.Error(Advance(h, 1), ExpectedExpression), Advance(h, 1))
  {
  }

  /** A `*` or `/` without an atom after it: the loop panics with "Expected
      expression" at the token after the operator. */
  lemma MissingMulOperandReported(lhs: Expression, h: TokenHandle)
    requires h.position <= |h.tokens| && WellFormed(lhs)
    requires IsMulOperator(At(h, 0)) && TryParseExpressionLiteralOrParen(Advance(h, 1)).Unmatched?
    ensures MulDivLoop(lhs, h) == Errored(TokenCursor.Error(Advance(h, 1), ExpectedExpression), Advance(h, 1))
  {
  }

  /** The statements and errors of a parse, each in source order. */
  datatype Parsed = Parsed(statements: seq<Statement>, errors: seq<Error>)

  function CountUnknown(statements: seq<Statement>): nat {
    if |statements| == 0 then 0
    else (if statements[0].UnknownStatement? then 1 else 0) + CountUnknown(statements[1..])
  }

  /** `Parse`'s loop: one statement at a time until the end of the token list. */
  function ParseFrom(h: TokenHandle): (r: Parsed)
    ensures |r.errors| == CountUnknown(r.statements)
    ensures |r.statements| <= Remaining(h)
    ensures h.position < |h.tokens| ==> |r.statements| >= 1
    decreases Remaining(h)
  {
    if EndOfStream(h) then Parsed([], [])
    else
      var step := ParseStatement(h);
      var rest := ParseFrom(step.next);
      var errors := (if step.error.Some? then [step.error.value] else []) + rest.errors;
      var statements := [step.statement] + rest.statements;
      assert statements[1..] == rest.statements;
      Parsed(statements, errors)
  }

  /** `ParseFrom` before a token: the statement there, then the rest. */
  lemma ParseFromStep(h: TokenHandle)
    requires h.position < |h.tokens|
    ensures var step := ParseStatement(h);
            var rest := ParseFrom(step.next);
            ParseFrom(h) == Parsed([step.statement] + rest.statements,
                                   (if step.error.Some? then [step.error.value] else []) + rest.errors)
  {
  }

  /** Parse a whole token list. There is one error per unknown statement, and
      every statement consumes at least one token. */
  function Parse(tokens: seq<Token>): (r: Parsed)
    ensures |r.errors| == CountUnknown(r.statements)
    ensures |r.statements| <= |tokens|
    ensures |tokens| > 0 ==> |r.statements| >= 1
  {
    ParseFrom(NewTokenHandle(tokens))
  }

  /** Every error of a parse carries one of the statement messages, and every
      print statement holds a well-formed expression. */
  lemma {:induction false} ParseFromReports(h: TokenHandle)
    ensures var r := ParseFrom(h);
            && (forall k :: 0 <= k < |r.errors| ==> StatementMessage(r.errors[k].message))
            && (forall k :: 0 <= k < |r.statements| && r.statements[k].Print? ==> WellFormed(r.statements[k].expression))
    decreases Remaining(h)
  {
    if !EndOfStream(h) {
      var step := ParseStatement(h);
      ParseFromReports(step.next);
      ParseFromStep(h);
    }
  }

  /** `ParseFromReports` for a whole token list. */
  lemma ParseReports(tokens: seq<Token>)
    ensures var r := Parse(tokens);
            && (forall k :: 0 <= k < |r.errors| ==> StatementMessage(r.errors[k].message))
            && (forall k :: 0 <= k < |r.statements| && r.statements[k].Print? ==> WellFormed(r.statements[k].expression))
  {
    ParseFromReports(NewTokenHandle(tokens));
    assert Parse(tokens) == ParseFrom(NewTokenHandle(tokens));
  }
}
