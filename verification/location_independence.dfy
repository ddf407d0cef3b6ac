/** The parser reads a token's location only to copy it into an error. Token
    lists that agree on every token's kind and digits therefore parse to trees
    of the same shape, stop at the same places and report the same messages,
    wherever their tokens sit in the file. */
module LocationIndependence {
  import opened Wrappers
  import opened Position
  import opened Tokens
  import opened TokenCursor
  import opened Parser
  import opened ParserProperties

  /** Two tokens that differ at most in their locations. */
  predicate SameKind(a: Token, b: Token) {
    TypeOf(a) == TypeOf(b) && (a.NumberLiteral? && b.NumberLiteral? ==> a.digits == b.digits)
  }

  /** Two token lists that differ at most in their tokens' locations. */
  predicate Similar(a: seq<Token>, b: seq<Token>) {
    |a| == |b| && forall k :: 0 <= k < |a| ==> SameKind(a[k], b[k])
  }

  /** Two parse outcomes that agree on everything but locations. */
  predicate Corresponds(r1: ParseResult, r2: ParseResult) {
    && r1.rest.position == r2.rest.position
    && (r1.Unmatched? <==> r2.Unmatched?)
    && (r1.Matched? <==> r2.Matched?)
    && (r1.Matched? && r2.Matched? ==> Shape(r1.expr) == Shape(r2.expr))
    && (r1.Errored? && r2.Errored? ==> r1.error.message == r2.error.message)
  }

  /** The cursors of similar lists read tokens of the same kind, the
      sentinels included. */
  lemma SimilarAt(a: seq<Token>, b: seq<Token>, p: nat, k: nat)
    requires Similar(a, b)
    ensures SameKind(At(CursorAt(a, p), k), At(CursorAt(b, p), k))
  {
  }

  lemma {:induction false} LiteralSimilar(a: seq<Token>, b: seq<Token>, p: nat)
    requires Similar(a, b)
    ensures Corresponds(TryParseExpressionLiteral(CursorAt(a, p)), TryParseExpressionLiteral(CursorAt(b, p)))
  {
    SimilarAt(a, b, p, 0);
  }

  /** `ParenOutcomes` at an index of a token list. */
  lemma ParenRound(toks: seq<Token>, p: nat)
    requires At(CursorAt(toks, p), 0).OpenParen?
    ensures var inner := TryParseExpressionAny(CursorAt(toks, p + 1));
            var r := TryParseExpressionParen(CursorAt(toks, p));
            && (inner.Unmatched? ==> r.Unmatched? && r.rest.position == p)
            && (inner.Errored? ==> r == inner)
            && (inner.Matched? && At(inner.rest, 0).CloseParen? ==>
                  r.Matched? && r.expr == inner.expr && r.rest.position == inner.rest.position + 1)
            && (inner.Matched? && !At(inner.rest, 0).CloseParen? ==>
                  r.Errored? && r.error.message == ExpectedCloseParen && r.rest == inner.rest)
  {
    assert Advance(CursorAt(toks, p), 1) == CursorAt(toks, p + 1);
    ParenOutcomes(CursorAt(toks, p));
  }

  lemma {:induction false} ParenSimilar(a: seq<Token>, b: seq<Token>, p: nat)
    requires Similar(a, b)
    ensures Corresponds(TryParseExpressionParen(CursorAt(a, p)), TryParseExpressionParen(CursorAt(b, p)))
    decreases Remaining(CursorAt(a, p)), 1
  {
    SimilarAt(a, b, p, 0);
    if At(CursorAt(a, p), 0).OpenParen? {
      assert At(CursorAt(b, p), 0).OpenParen?;
      AnySimilar(a, b, p + 1);
      ParenRound(a, p);
      ParenRound(b, p);
      var inner := TryParseExpressionAny(CursorAt(a, p + 1));
      if inner.Matched? {
        SimilarAt(a, b, inner.rest.position, 0);
        var other := TryParseExpressionAny(CursorAt(b, p + 1));
        assert At(inner.rest, 0).CloseParen? <==> At(other.rest, 0).CloseParen?;
      }
    } else {
      assert !At(CursorAt(b, p), 0).OpenParen?;
    }
  }

  lemma {:induction false} LiteralOrParenSimilar(a: seq<Token>, b: seq<Token>, p: nat)
    requires Similar(a, b)
    ensures Corresponds(TryParseExpressionLiteralOrParen(CursorAt(a, p)),
                        TryParseExpressionLiteralOrParen(CursorAt(b, p)))
    decreases Remaining(CursorAt(a, p)), 2
  {
    LiteralSimilar(a, b, p);
    ParenSimilar(a, b, p);
  }

  lemma {:induction false} MulDivSimilar(a: seq<Token>, b: seq<Token>, p: nat)
    requires Similar(a, b)
    ensures Corresponds(TryParseExpressionMulDiv(CursorAt(a, p)), TryParseExpressionMulDiv(CursorAt(b, p)))
    decreases Remaining(CursorAt(a, p)), 3
  {
    LiteralOrParenSimilar(a, b, p);
    var r1 := TryParseExpressionLiteralOrParen(CursorAt(a, p));
    var r2 := TryParseExpressionLiteralOrParen(CursorAt(b, p));
    if r1.Matched? {
      MulLoopSimilar(r1.expr, r2.expr, a, b, r1.rest.position);
    }
  }

  /** The node the `* /` loop builds for operator `op`. */
  function MulNode(op: Token, l: Expression, r: Expression): Expression {
    if op.Asterisk? then DoubleMultiply(op, l, r) else DoubleDivide(op, l, r)
  }

  /** Nodes built from operators of the same kind and operands of the same
      shapes have the same shape. */
  lemma MulNodesAlike(op1: Token, op2: Token, l1: Expression, l2: Expression, r1: Expression, r2: Expression)
    requires IsMulOperator(op1) && SameKind(op1, op2)
    requires WellFormed(l1) && WellFormed(l2) && WellFormed(r1) && WellFormed(r2)
    requires Shape(l1) == Shape(l2) && Shape(r1) == Shape(r2)
    ensures WellFormed(MulNode(op1, l1, r1)) && WellFormed(MulNode(op2, l2, r2))
    ensures Shape(MulNode(op1, l1, r1)) == Shape(MulNode(op2, l2, r2))
  {
    if op1.Asterisk? {
      assert op2.Asterisk?;
    } else {
      assert op1.Frontslash? && op2.Frontslash?;
    }
  }

  /** One round of the `* /` loop, in terms of the atom after the operator. */
  lemma MulLoopRound(l: Expression, toks: seq<Token>, p: nat)
    requires p <= |toks| && WellFormed(l)
    ensures var r := MulDivLoop(l, CursorAt(toks, p));
            var op := At(CursorAt(toks, p), 0);
            var o := TryParseExpressionLiteralOrParen(CursorAt(toks, p + 1));
            && (!IsMulOperator(op) ==> r == Matched(l, CursorAt(toks, p)))
            && (IsMulOperator(op) && o.Unmatched? ==>
                  r == Errored(TokenCursor.Error(CursorAt(toks, p + 1), ExpectedExpression), CursorAt(toks, p + 1)))
            && (IsMulOperator(op) && o.Errored? ==> r == o)
            && (IsMulOperator(op) && o.Matched? ==> r == MulDivLoop(MulNode(op, l, o.expr), o.rest))
  {
    assert Advance(CursorAt(toks, p), 1) == CursorAt(toks, p + 1);
  }

  /** The two loops, entered at the same index of similar lists, correspond. */
  predicate MulLoopsCorrespond(l1: Expression, l2: Expression, a: seq<Token>, b: seq<Token>, p: nat) {
    && p <= |a| && p <= |b| && WellFormed(l1) && WellFormed(l2)
    && Corresponds(MulDivLoop(l1, CursorAt(a, p)), MulDivLoop(l2, CursorAt(b, p)))
  }

  /** The `* /` loops run in step from left operands of the same shape. */
  lemma {:induction false} MulLoopSimilar(l1: Expression, l2: Expression, a: seq<Token>, b: seq<Token>, p: nat)
    requires Similar(a, b) && p <= |a|
    requires WellFormed(l1) && WellFormed(l2) && Shape(l1) == Shape(l2)
    ensures Corresponds(MulDivLoop(l1, CursorAt(a, p)), MulDivLoop(l2, CursorAt(b, p)))
    decreases Remaining(CursorAt(a, p)), 3
  {
    SimilarAt(a, b, p, 0);
    if IsMulOperator(At(CursorAt(a, p), 0)) {
      MulOperandSimilar(l1, l2, a, b, p);
    }
  }

  /** After a `*` or `/`, the operands correspond, and so do the loops. */
  lemma {:induction false} MulOperandSimilar(l1: Expression, l2: Expression, a: seq<Token>, b: seq<Token>, p: nat)
    requires Similar(a, b) && p <= |a|
    requires WellFormed(l1) && WellFormed(l2) && Shape(l1) == Shape(l2)
    requires IsMulOperator(At(CursorAt(a, p), 0)) && SameKind(At(CursorAt(a, p), 0), At(CursorAt(b, p), 0))
    ensures MulLoopsCorrespond(l1, l2, a, b, p)
    decreases Remaining(CursorAt(a, p)), 2
  {
    LiteralOrParenSimilar(a, b, p + 1);
    if TryParseExpressionLiteralOrParen(CursorAt(a, p + 1)).Matched? {
      MulContinues(l1, l2, a, b, p);
    } else {
      MulStops(l1, l2, a, b, p);
    }
  }

  /** A `*` or `/` without an atom after it stops both loops alike. */
  lemma {:induction false} MulStops(l1: Expression, l2: Expression, a: seq<Token>, b: seq<Token>, p: nat)
    requires Similar(a, b) && p <= |a|
    requires WellFormed(l1) && WellFormed(l2) && Shape(l1) == Shape(l2)
    requires IsMulOperator(At(CursorAt(a, p), 0)) && SameKind(At(CursorAt(a, p), 0), At(CursorAt(b, p), 0))
    requires Corresponds(TryParseExpressionLiteralOrParen(CursorAt(a, p + 1)), TryParseExpressionLiteralOrParen(CursorAt(b, p + 1)))
    requires !TryParseExpressionLiteralOrParen(CursorAt(a, p + 1)).Matched?
    ensures MulLoopsCorrespond(l1, l2, a, b, p)
  {
    assert IsMulOperator(At(CursorAt(b, p), 0));
    MulLoopRound(l1, a, p);
    MulLoopRound(l2, b, p);
  }

  /** After a `*` or `/` and an atom, the loops go on from nodes of the same shape. */
  lemma {:induction false} MulContinues(l1: Expression, l2: Expression, a: seq<Token>, b: seq<Token>, p: nat)
    requires Similar(a, b) && p <= |a|
    requires WellFormed(l1) && WellFormed(l2) && Shape(l1) == Shape(l2)
    requires IsMulOperator(At(CursorAt(a, p), 0)) && SameKind(At(CursorAt(a, p), 0), At(CursorAt(b, p), 0))
    requires Corresponds(TryParseExpressionLiteralOrParen(CursorAt(a, p + 1)), TryParseExpressionLiteralOrParen(CursorAt(b, p + 1)))
    requires TryParseExpressionLiteralOrParen(CursorAt(a, p + 1)).Matched?
    ensures MulLoopsCorrespond(l1, l2, a, b, p)
    decreases Remaining(CursorAt(a, p)), 1
  {
    MulLoopRound(l1, a, p);
    MulLoopRound(l2, b, p);
    var r1 := TryParseExpressionLiteralOrParen(CursorAt(a, p + 1));
    var r2 := TryParseExpressionLiteralOrParen(CursorAt(b, p + 1));
    var q := r1.rest.position;
    assert r1.rest == CursorAt(a, q) && r2.rest == CursorAt(b, q);
    var op1 := At(CursorAt(a, p), 0);
    var op2 := At(CursorAt(b, p), 0);
    MulNodesAlike(op1, op2, l1, l2, r1.expr, r2.expr);
    MulLoopSimilar(MulNode(op1, l1, r1.expr), MulNode(op2, l2, r2.expr), a, b, q);
  }

  lemma {:induction false} AddSubtractSimilar(a: seq<Token>, b: seq<Token>, p: nat)
    requires Similar(a, b)
    ensures Corresponds(TryParseExpressionAddSubtract(CursorAt(a, p)), TryParseExpressionAddSubtract(CursorAt(b, p)))
    decreases Remaining(CursorAt(a, p)), 4
  {
    MulDivSimilar(a, b, p);
    var r1 := TryParseExpressionMulDiv(CursorAt(a, p));
    var r2 := TryParseExpressionMulDiv(CursorAt(b, p));
    if r1.Matched? {
      AddLoopSimilar(r1.expr, r2.expr, a, b, r1.rest.position);
    }
  }

  /** The node the `+ -` loop builds for operator `op`. */
  function AddNode(op: Token, l: Expression, r: Expression): Expression {
    if op.Plus? then DoubleAdd(op, l, r) else DoubleSubtract(op, l, r)
  }

  /** Nodes built from operators of the same kind and operands of the same
      shapes have the same shape. */
  lemma AddNodesAlike(op1: Token, op2: Token, l1: Expression, l2: Expression, r1: Expression, r2: Expression)
    requires IsAddOperator(op1) && SameKind(op1, op2)
    requires WellFormed(l1) && WellFormed(l2) && WellFormed(r1) && WellFormed(r2)
    requires Shape(l1) == Shape(l2) && Shape(r1) == Shape(r2)
    ensures WellFormed(AddNode(op1, l1, r1)) && WellFormed(AddNode(op2, l2, r2))
    ensures Shape(AddNode(op1, l1, r1)) == Shape(AddNode(op2, l2, r2))
  {
    if op1.Plus? {
      assert op2.Plus?;
    } else {
      assert op1.Minus? && op2.Minus?;
    }
  }

  /** One round of the `+ -` loop, in terms of the product after the operator. */
  lemma AddLoopRound(l: Expression, toks: seq<Token>, p: nat)
    requires p <= |toks| && WellFormed(l) && !IsMulOperator(At(CursorAt(toks, p), 0))
    ensures var r := AddSubtractLoop(l, CursorAt(toks, p));
            var op := At(CursorAt(toks, p), 0);
            var o := TryParseExpressionMulDiv(CursorAt(toks, p + 1));
            && (!IsAddOperator(op) ==> r == Matched(l, CursorAt(toks, p)))
            && (IsAddOperator(op) && o.Unmatched? ==>
                  r == Errored(TokenCursor.Error(CursorAt(toks, p + 1), ExpectedExpression), CursorAt(toks, p + 1)))
            && (IsAddOperator(op) && o.Errored? ==> r == o)
            && (IsAddOperator(op) && o.Matched? ==> r == AddSubtractLoop(AddNode(op, l, o.expr), o.rest))
  {
    assert Advance(CursorAt(toks, p), 1) == CursorAt(toks, p + 1);
  }

  /** The two loops, entered at the same index of similar lists, correspond. */
  predicate AddLoopsCorrespond(l1: Expression, l2: Expression, a: seq<Token>, b: seq<Token>, p: nat) {
    && p <= |a| && p <= |b| && WellFormed(l1) && WellFormed(l2) && !IsMulOperator(At(CursorAt(a, p), 0)) && !IsMulOperator(At(CursorAt(b, p), 0))
    && Corresponds(AddSubtractLoop(l1, CursorAt(a, p)), AddSubtractLoop(l2, CursorAt(b, p)))
  }

  /** The `+ -` loops run in step from left operands of the same shape. */
  lemma {:induction false} AddLoopSimilar(l1: Expression, l2: Expression, a: seq<Token>, b: seq<Token>, p: nat)
    requires Similar(a, b) && p <= |a|
    requires !IsMulOperator(At(CursorAt(a, p), 0)) && !IsMulOperator(At(CursorAt(b, p), 0))
    requires WellFormed(l1) && WellFormed(l2) && Shape(l1) == Shape(l2)
    ensures Corresponds(AddSubtractLoop(l1, CursorAt(a, p)), AddSubtractLoop(l2, CursorAt(b, p)))
    decreases Remaining(CursorAt(a, p)), 4
  {
    SimilarAt(a, b, p, 0);
    if IsAddOperator(At(CursorAt(a, p), 0)) {
      AddOperandSimilar(l1, l2, a, b, p);
    }
  }

  /** After a `+` or `-`, the operands correspond, and so do the loops. */
  lemma {:induction false} AddOperandSimilar(l1: Expression, l2: Expression, a: seq<Token>, b: seq<Token>, p: nat)
    requires Similar(a, b) && p <= |a|
    requires !IsMulOperator(At(CursorAt(a, p), 0)) && !IsMulOperator(At(CursorAt(b, p), 0))
    requires WellFormed(l1) && WellFormed(l2) && Shape(l1) == Shape(l2)
    requires IsAddOperator(At(CursorAt(a, p), 0)) && SameKind(At(CursorAt(a, p), 0), At(CursorAt(b, p), 0))
    ensures AddLoopsCorrespond(l1, l2, a, b, p)
    decreases Remaining(CursorAt(a, p)), 2
  {
    MulDivSimilar(a, b, p + 1);
    if TryParseExpressionMulDiv(CursorAt(a, p + 1)).Matched? {
      AddContinues(l1, l2, a, b, p);
    } else {
      AddStops(l1, l2, a, b, p);
    }
  }

  /** A `+` or `-` without a product after it stops both loops alike. */
  lemma {:induction false} AddStops(l1: Expression, l2: Expression, a: seq<Token>, b: seq<Token>, p: nat)
    requires Similar(a, b) && p <= |a|
    requires !IsMulOperator(At(CursorAt(a, p), 0)) && !IsMulOperator(At(CursorAt(b, p), 0))
    requires WellFormed(l1) && WellFormed(l2) && Shape(l1) == Shape(l2)
    requires IsAddOperator(At(CursorAt(a, p), 0)) && SameKind(At(CursorAt(a, p), 0), At(CursorAt(b, p), 0))
    requires Corresponds(TryParseExpressionMulDiv(CursorAt(a, p + 1)), TryParseExpressionMulDiv(CursorAt(b, p + 1)))
    requires !TryParseExpressionMulDiv(CursorAt(a, p + 1)).Matched?
    ensures AddLoopsCorrespond(l1, l2, a, b, p)
  {
    assert IsAddOperator(At(CursorAt(b, p), 0));
    AddLoopRound(l1, a, p);
    AddLoopRound(l2, b, p);
  }

  /** After a `+` or `-` and a product, the loops go on from nodes of the same shape. */
  lemma {:induction false} AddContinues(l1: Expression, l2: Expression, a: seq<Token>, b: seq<Token>, p: nat)
    requires Similar(a, b) && p <= |a|
    requires !IsMulOperator(At(CursorAt(a, p), 0)) && !IsMulOperator(At(CursorAt(b, p), 0))
    requires WellFormed(l1) && WellFormed(l2) && Shape(l1) == Shape(l2)
    requires IsAddOperator(At(CursorAt(a, p), 0)) && SameKind(At(CursorAt(a, p), 0), At(CursorAt(b, p), 0))
    requires Corresponds(TryParseExpressionMulDiv(CursorAt(a, p + 1)), TryParseExpressionMulDiv(CursorAt(b, p + 1)))
    requires TryParseExpressionMulDiv(CursorAt(a, p + 1)).Matched?
    ensures AddLoopsCorrespond(l1, l2, a, b, p)
    decreases Remaining(CursorAt(a, p)), 1
  {
    AddLoopRound(l1, a, p);
    AddLoopRound(l2, b, p);
    var r1 := TryParseExpressionMulDiv(CursorAt(a, p + 1));
    var r2 := TryParseExpressionMulDiv(CursorAt(b, p + 1));
    var q := r1.rest.position;
    assert r1.rest == CursorAt(a, q) && r2.rest == CursorAt(b, q);
    var op1 := At(CursorAt(a, p), 0);
    var op2 := At(CursorAt(b, p), 0);
    AddNodesAlike(op1, op2, l1, l2, r1.expr, r2.expr);
    AddLoopSimilar(AddNode(op1, l1, r1.expr), AddNode(op2, l2, r2.expr), a, b, q);
  }

  /** An expression parses the same way in similar lists. */
  lemma {:induction false} AnySimilar(a: seq<Token>, b: seq<Token>, p: nat)
    requires Similar(a, b)
    ensures Corresponds(TryParseExpressionAny(CursorAt(a, p)), TryParseExpressionAny(CursorAt(b, p)))
    decreases Remaining(CursorAt(a, p)), 5
  {
    AddSubtractSimilar(a, b, p);
  }

  /** The scan for a token type stops at the same index in similar lists. */
  lemma {:induction false} FirstOfTypesSimilar(a: seq<Token>, b: seq<Token>, types: set<TokenType>, i: nat)
    requires Similar(a, b)
    ensures FirstOfTypes(a, types, i) == FirstOfTypes(b, types, i)
    decreases |a| - i
  {
    if i < |a| && TypeOf(a[i]) !in types {
      FirstOfTypesSimilar(a, b, types, i + 1);
    }
  }

  /** Two statement steps that agree on everything but locations. */
  predicate StepsCorrespond(s1: StatementStep, s2: StatementStep) {
    && s1.next.position == s2.next.position
    && (s1.statement.Print? <==> s2.statement.Print?)
    && (s1.statement.Print? && s2.statement.Print? ==> Shape(s1.statement.expression) == Shape(s2.statement.expression))
    && (s1.error.Some? <==> s2.error.Some?)
    && (s1.error.Some? && s2.error.Some? ==> s1.error.value.message == s2.error.value.message)
  }

  /** A statement parses the same way in similar lists, recovery included. */
  lemma {:induction false} StatementSimilar(a: seq<Token>, b: seq<Token>, p: nat)
    requires Similar(a, b)
    ensures StepsCorrespond(ParseStatement(CursorAt(a, p)), ParseStatement(CursorAt(b, p)))
  {
    AnySimilar(a, b, p);
    var r1 := TryParseExpressionAny(CursorAt(a, p));
    FirstOfTypesSimilar(a, b, {SemicolonType}, r1.rest.position);
    if r1.Matched? {
      SimilarAt(a, b, r1.rest.position, 0);
    }
  }

  /** A statement's shape, or nothing for an unknown statement. */
  function Outline(s: Statement): Option<Tree> {
    if s.Print? then Some(Shape(s.expression)) else None
  }

  /** The shapes of a parse's statements, in order. */
  function Outlines(statements: seq<Statement>): (r: seq<Option<Tree>>)
    ensures |r| == |statements|
  {
    if |statements| == 0 then [] else [Outline(statements[0])] + Outlines(statements[1..])
  }

  /** The messages of a parse's errors, in order. */
  function Messages(errors: seq<Position.Error>): (r: seq<string>)
    ensures |r| == |errors|
  {
    if |errors| == 0 then [] else [errors[0].message] + Messages(errors[1..])
  }

  lemma {:induction false} OutlinesAt(statements: seq<Statement>, k: nat)
    requires k < |statements|
    ensures Outlines(statements)[k] == Outline(statements[k])
    decreases k
  {
    if k > 0 {
      OutlinesAt(statements[1..], k - 1);
    }
  }

  lemma {:induction false} OutlinesCons(s: Statement, rest: seq<Statement>)
    ensures Outlines([s] + rest) == [Outline(s)] + Outlines(rest)
  {
    assert ([s] + rest)[1..] == rest;
  }

  lemma {:induction false} MessagesAt(errors: seq<Position.Error>, k: nat)
    requires k < |errors|
    ensures Messages(errors)[k] == errors[k].message
    decreases k
  {
    if k > 0 {
      MessagesAt(errors[1..], k - 1);
    }
  }

  lemma {:induction false} MessagesCons(e: Option<Position.Error>, rest: seq<Position.Error>)
    ensures Messages((if e.Some? then [e.value] else []) + rest)
         == (if e.Some? then [e.value.message] else []) + Messages(rest)
  {
    if e.Some? {
      assert ([e.value] + rest)[1..] == rest;
    } else {
      assert [] + rest == rest;
    }
  }

  /** Parsing from the same index of similar lists gives statements of the
      same shapes and errors with the same messages. */
  lemma {:induction false} ParseFromSimilar(a: seq<Token>, b: seq<Token>, p: nat)
    requires Similar(a, b)
    ensures Outlines(ParseFrom(CursorAt(a, p)).statements) == Outlines(ParseFrom(CursorAt(b, p)).statements)
    ensures Messages(ParseFrom(CursorAt(a, p)).errors) == Messages(ParseFrom(CursorAt(b, p)).errors)
    decreases Remaining(CursorAt(a, p))
  {
    if p < |a| {
      StatementSimilar(a, b, p);
      var s1 := ParseStatement(CursorAt(a, p));
      var s2 := ParseStatement(CursorAt(b, p));
      var q := s1.next.position;
      ParseFromSimilar(a, b, q);
      ParseFromStep(CursorAt(a, p));
      ParseFromStep(CursorAt(b, p));
      var t1 := ParseFrom(CursorAt(a, q));
      var t2 := ParseFrom(CursorAt(b, q));
      OutlinesCons(s1.statement, t1.statements);
      OutlinesCons(s2.statement, t2.statements);
      MessagesCons(s1.error, t1.errors);
      MessagesCons(s2.error, t2.errors);
    }
  }

  /** `ParseFromSimilar` for whole token lists. */
  lemma {:induction false} ParseSimilar(a: seq<Token>, b: seq<Token>)
    requires Similar(a, b)
    ensures Outlines(Parse(a).statements) == Outlines(Parse(b).statements)
    ensures Messages(Parse(a).errors) == Messages(Parse(b).errors)
  {
    ParseFromSimilar(a, b, 0);
    ParseStarts(a);
    ParseStarts(b);
  }

  /** Any token list that renders a program up to its tokens' locations, with
      any extra parentheses its groups ask for, parses without errors into one
      print statement per tree, of that tree's shape once groups are dropped. */
  lemma {:induction false} SimilarProgramParses(ts: seq<Tree>, loc: Location, toks: seq<Token>)
    requires Similar(toks, Program(ts, loc))
    ensures Parse(toks).errors == [] && |Parse(toks).statements| == |ts|
    ensures forall k :: 0 <= k < |ts| ==>
              Parse(toks).statements[k].Print? && Shape(Parse(toks).statements[k].expression) == Strip(ts[k])
  {
    ParseSimilar(toks, Program(ts, loc));
    ParseProgram(ts, loc);
    var r := Parse(toks);
    forall k | 0 <= k < |ts|
      ensures r.statements[k].Print? && Shape(r.statements[k].expression) == Strip(ts[k])
    {
      OutlinesAt(r.statements, k);
      OutlinesAt(Prints(ts, loc), k);
      PrintsAt(ts, loc, k);
      ShapeOfBuild(ts[k], loc);
    }
  }

  /** After such a program, whatever end-of-file token ends the list is parsed
      as one more, unknown, statement, the only one with an error, which is
      "Expected statement". */
  lemma {:induction false} SimilarTrailingEndOfFile(ts: seq<Tree>, loc: Location, toks: seq<Token>)
    requires Similar(toks, Program(ts, loc) + [EndOfFile(loc)])
    ensures Messages(Parse(toks).errors) == [ExpectedStatement]
    ensures |Parse(toks).statements| == |ts| + 1 && Parse(toks).statements[|ts|].UnknownStatement?
    ensures forall k :: 0 <= k < |ts| ==>
              Parse(toks).statements[k].Print? && Shape(Parse(toks).statements[k].expression) == Strip(ts[k])
  {
    var eof := EndOfFile(loc);
    var program := Program(ts, loc) + [eof];
    ParseSimilar(toks, program);
    TrailingEndOfFile(ts, loc, eof);
    var expected := Prints(ts, loc) + [UnknownStatement];
    assert Messages([Position.Error(eof.location, ExpectedStatement)]) == [ExpectedStatement];
    var r := Parse(toks);
    OutlinesAt(r.statements, |ts|);
    OutlinesAt(expected, |ts|);
    forall k | 0 <= k < |ts|
      ensures r.statements[k].Print? && Shape(r.statements[k].expression) == Strip(ts[k])
    {
      OutlinesAt(r.statements, k);
      OutlinesAt(expected, k);
      PrintsAt(ts, loc, k);
      ShapeOfBuild(ts[k], loc);
    }
  }
}
