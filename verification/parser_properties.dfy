/** What the parser builds, stated against an independent description of
    arithmetic trees: rendering a tree as tokens (with the fewest parentheses
    that keep its shape) and parsing the tokens gives the tree back. Left
    associativity and precedence follow. */
module ParserProperties {
  import opened Wrappers
  import opened Position
  import opened Tokens
  import opened TokenCursor
  import opened Parser

  datatype Operator = AddOp | SubtractOp | MultiplyOp | DivideOp

  /** An arithmetic tree without tokens or locations. A `Group` asks for its
      subtree to be written in parentheses even where none are needed. */
  datatype Tree = Number(digits: string) | Binary(op: Operator, left: Tree, right: Tree) | Group(inner: Tree)

  predicate Additive(op: Operator) { op == AddOp || op == SubtractOp }

  /** The tree an expression denotes, forgetting its tokens. */
  function Shape(e: Expression): Tree {
    match e
    case DoubleLiteral(t) => Number(if t.NumberLiteral? then t.digits else "")
    case DoubleAdd(_, l, r) => Binary(AddOp, Shape(l), Shape(r))
    case DoubleSubtract(_, l, r) => Binary(SubtractOp, Shape(l), Shape(r))
    case DoubleMultiply(_, l, r) => Binary(MultiplyOp, Shape(l), Shape(r))
    case DoubleDivide(_, l, r) => Binary(DivideOp, Shape(l), Shape(r))
  }

  function OperatorToken(op: Operator, loc: Location): Token {
    match op
    case AddOp => Plus(loc)
    case SubtractOp => Minus(loc)
    case MultiplyOp => Asterisk(loc)
    case DivideOp => Frontslash(loc)
  }

  /** The tree without its groups: what parentheses leave once parsed. */
  function Strip(t: Tree): Tree {
    match t
    case Number(_) => t
    case Binary(op, l, r) => Binary(op, Strip(l), Strip(r))
    case Group(inner) => Strip(inner)
  }

  /** The expression with the shape of `t` whose tokens all sit at `loc`. */
  function Build(t: Tree, loc: Location): (e: Expression)
    ensures WellFormed(e)
  {
    match t
    case Number(d) => DoubleLiteral(NumberLiteral(loc, d))
    case Group(inner) => Build(inner, loc)
    case Binary(op, l, r) =>
      match op
      case AddOp => DoubleAdd(Plus(loc), Build(l, loc), Build(r, loc))
      case SubtractOp => DoubleSubtract(Minus(loc), Build(l, loc), Build(r, loc))
      case MultiplyOp => DoubleMultiply(Asterisk(loc), Build(l, loc), Build(r, loc))
      case DivideOp => DoubleDivide(Frontslash(loc), Build(l, loc), Build(r, loc))
  }

  lemma {:induction false} ShapeOfBuild(t: Tree, loc: Location)
    ensures Shape(Build(t, loc)) == Strip(t)
  {
    match t
    case Number(_) =>
    case Binary(_, l, r) =>
      ShapeOfBuild(l, loc);
      ShapeOfBuild(r, loc);
    case Group(inner) =>
      ShapeOfBuild(inner, loc);
  }

  // Ranks that let a rendering level hand the same tree to the next level.
  function SumRank(t: Tree): nat { if t.Binary? then (if Additive(t.op) then 6 else 10) else if t.Group? then 5 else 4 }
  function ProductRank(t: Tree): nat { if t.Binary? then (if Additive(t.op) then 10 else 8) else if t.Group? then 3 else 2 }
  function AtomRank(t: Tree): nat { if t.Binary? then (if Additive(t.op) then 8 else 12) else if t.Group? then 1 else 0 }

  /** Rendering at the `+ -` level: a left operand at the same level, a right
      operand one level tighter. */
  function UnparseSum(t: Tree, loc: Location): seq<Token>
    decreases t, SumRank(t)
  {
    if t.Binary? && Additive(t.op) then
      UnparseSum(t.left, loc) + [OperatorToken(t.op, loc)] + UnparseProduct(t.right, loc)
    else UnparseProduct(t, loc)
  }

  /** Rendering at the `* /` level. */
  function UnparseProduct(t: Tree, loc: Location): seq<Token>
    decreases t, ProductRank(t)
  {
    if t.Binary? && !Additive(t.op) then
      UnparseProduct(t.left, loc) + [OperatorToken(t.op, loc)] + UnparseAtom(t.right, loc)
    else UnparseAtom(t, loc)
  }

  /** Rendering as an atom: a literal, a group's subtree in parentheses, or
      any other tree in parentheses. */
  function UnparseAtom(t: Tree, loc: Location): seq<Token>
    decreases t, AtomRank(t)
  {
    match t
    case Number(d) => [NumberLiteral(loc, d)]
    case Binary(_, _, _) => Bracketed(t, loc)
    case Group(inner) => Bracketed(inner, loc)
  }

  /** A sum in parentheses. */
  function Bracketed(t: Tree, loc: Location): seq<Token>
    decreases t, SumRank(t) + 1
  {
    [OpenParen(loc)] + UnparseSum(t, loc) + [CloseParen(loc)]
  }

  /** `u` sits in `toks` starting at index `p`. */
  predicate Occurs(toks: seq<Token>, p: nat, u: seq<Token>) {
    p + |u| <= |toks| && forall k :: 0 <= k < |u| ==> toks[p + k] == u[k]
  }

  lemma {:induction false} OccursParts(toks: seq<Token>, p: nat, a: seq<Token>, b: seq<Token>)
    requires Occurs(toks, p, a + b)
    ensures Occurs(toks, p, a) && Occurs(toks, p + |a|, b)
  {
    forall k | 0 <= k < |a| ensures toks[p + k] == a[k] {
      assert (a + b)[k] == a[k];
    }
    forall k | 0 <= k < |b| ensures toks[p + |a| + k] == b[k] {
      assert (a + b)[|a| + k] == b[k];
    }
  }

  lemma {:induction false} OccursThree(toks: seq<Token>, p: nat, a: seq<Token>, x: Token, b: seq<Token>)
    requires Occurs(toks, p, a + [x] + b)
    ensures Occurs(toks, p, a) && p + |a| < |toks| && toks[p + |a|] == x
    ensures Occurs(toks, p + |a| + 1, b)
  {
    OccursParts(toks, p, a + [x], b);
    OccursParts(toks, p, a, [x]);
    assert toks[p + |a| + 0] == [x][0];
  }

  /** Both halves of a concatenation occur in it. */
  lemma {:induction false} OccursInConcat(a: seq<Token>, b: seq<Token>)
    ensures Occurs(a + b, 0, a) && Occurs(a + b, |a|, b)
  {
    forall k | 0 <= k < |b| ensures (a + b)[|a| + k] == b[k] {}
  }

  /** A cursor on `toks` at index `p`. */
  function CursorAt(toks: seq<Token>, p: nat): TokenHandle { TokenHandle(toks, p) }

  /** An atom's rendering parses back, as an atom, to the same tree. */
  lemma {:induction false} AtomParses(t: Tree, loc: Location, toks: seq<Token>, p: nat)
    requires Occurs(toks, p, UnparseAtom(t, loc))
    ensures TryParseExpressionLiteralOrParen(CursorAt(toks, p))
         == Matched(Build(t, loc), CursorAt(toks, p + |UnparseAtom(t, loc)|))
    decreases t, AtomRank(t)
  {
    match t
    case Number(d) => NumberParses(d, loc, toks, p);
    case Binary(_, _, _) => ParenParses(t, loc, toks, p);
    case Group(_) => GroupParses(t, loc, toks, p);
  }

  /** A number's rendering is its literal token. */
  lemma {:induction false} NumberParses(d: string, loc: Location, toks: seq<Token>, p: nat)
    requires Occurs(toks, p, UnparseAtom(Number(d), loc))
    ensures TryParseExpressionLiteralOrParen(CursorAt(toks, p))
         == Matched(Build(Number(d), loc), CursorAt(toks, p + |UnparseAtom(Number(d), loc)|))
  {
    OccursThree(toks, p, [], NumberLiteral(loc, d), []);
    LiteralStep(d, loc, toks, p);
  }

  /** A binary node as an atom is its sum in parentheses. */
  lemma {:induction false} ParenParses(t: Tree, loc: Location, toks: seq<Token>, p: nat)
    requires t.Binary? && Occurs(toks, p, UnparseAtom(t, loc))
    ensures TryParseExpressionLiteralOrParen(CursorAt(toks, p))
         == Matched(Build(t, loc), CursorAt(toks, p + |UnparseAtom(t, loc)|))
    decreases t, AtomRank(t) - 1
  {
    assert UnparseAtom(t, loc) == Bracketed(t, loc);
    ParenLayout(t, loc, toks, p);
    SumToLoop(t, loc, toks, p + 1);
    ParenStep(t, loc, toks, p);
  }

  /** A group is its subtree in parentheses, which leave no node. */
  lemma {:induction false} GroupParses(t: Tree, loc: Location, toks: seq<Token>, p: nat)
    requires t.Group? && Occurs(toks, p, UnparseAtom(t, loc))
    ensures TryParseExpressionLiteralOrParen(CursorAt(toks, p))
         == Matched(Build(t, loc), CursorAt(toks, p + |UnparseAtom(t, loc)|))
    decreases t, 0
  {
    var s := t.inner;
    assert UnparseAtom(t, loc) == Bracketed(s, loc);
    ParenLayout(s, loc, toks, p);
    SumToLoop(s, loc, toks, p + 1);
    ParenStep(s, loc, toks, p);
    assert Build(t, loc) == Build(s, loc);
  }

  /** Where the parentheses and the sum between them sit. */
  lemma {:induction false} ParenLayout(t: Tree, loc: Location, toks: seq<Token>, p: nat)
    requires Occurs(toks, p, Bracketed(t, loc))
    ensures p + |Bracketed(t, loc)| == p + 1 + |UnparseSum(t, loc)| + 1 <= |toks|
    ensures toks[p] == OpenParen(loc) && toks[p + 1 + |UnparseSum(t, loc)|] == CloseParen(loc)
    ensures Occurs(toks, p + 1, UnparseSum(t, loc))
    ensures !IsMulOperator(At(CursorAt(toks, p + 1 + |UnparseSum(t, loc)|), 0))
  {
    var inner := UnparseSum(t, loc);
    assert Bracketed(t, loc) == [] + [OpenParen(loc)] + (inner + [CloseParen(loc)]);
    OccursThree(toks, p, [], OpenParen(loc), inner + [CloseParen(loc)]);
    OccursThree(toks, p + 1, inner, CloseParen(loc), []);
  }

  /** A literal token parses as a literal. */
  lemma {:induction false} LiteralStep(d: string, loc: Location, toks: seq<Token>, p: nat)
    requires p < |toks| && toks[p] == NumberLiteral(loc, d)
    ensures TryParseExpressionLiteralOrParen(CursorAt(toks, p)) == Matched(Build(Number(d), loc), CursorAt(toks, p + 1))
  {
  }

  /** `(`, a sum that the `+ -` loop ends on `)`, then `)`. */
  lemma {:induction false} ParenStep(t: Tree, loc: Location, toks: seq<Token>, p: nat)
    requires p + 1 + |UnparseSum(t, loc)| < |toks|
    requires toks[p] == OpenParen(loc) && toks[p + 1 + |UnparseSum(t, loc)|] == CloseParen(loc)
    requires TryParseExpressionAddSubtract(CursorAt(toks, p + 1))
          == AddSubtractLoop(Build(t, loc), CursorAt(toks, p + 1 + |UnparseSum(t, loc)|))
    ensures TryParseExpressionLiteralOrParen(CursorAt(toks, p)) == Matched(Build(t, loc), CursorAt(toks, p + 1 + |UnparseSum(t, loc)| + 1))
  {
    var close := p + 1 + |UnparseSum(t, loc)|;
    assert AddSubtractLoop(Build(t, loc), CursorAt(toks, close)) == Matched(Build(t, loc), CursorAt(toks, close));
    assert TryParseExpressionParen(CursorAt(toks, p)) == Matched(Build(t, loc), CursorAt(toks, close + 1));
  }

  /** A product's rendering takes `TryParseExpressionMulDiv` to its operator loop
      with the whole tree accumulated, right after the rendering. */
  lemma {:induction false} ProductToLoop(t: Tree, loc: Location, toks: seq<Token>, p: nat)
    requires Occurs(toks, p, UnparseProduct(t, loc))
    ensures TryParseExpressionMulDiv(CursorAt(toks, p))
         == MulDivLoop(Build(t, loc), CursorAt(toks, p + |UnparseProduct(t, loc)|))
    decreases t, ProductRank(t)
  {
    if t.Binary? && !Additive(t.op) {
      ProductOfProduct(t, loc, toks, p);
    } else {
      assert UnparseProduct(t, loc) == UnparseAtom(t, loc);
      ProductOfAtom(t, loc, toks, p);
    }
  }

  /** A `*` or `/` node: its left operand's loop, then one more turn. */
  lemma {:induction false} ProductOfProduct(t: Tree, loc: Location, toks: seq<Token>, p: nat)
    requires t.Binary? && !Additive(t.op)
    requires Occurs(toks, p, UnparseProduct(t, loc))
    ensures TryParseExpressionMulDiv(CursorAt(toks, p))
         == MulDivLoop(Build(t, loc), CursorAt(toks, p + |UnparseProduct(t, loc)|))
    decreases t, 1
  {
    var left := UnparseProduct(t.left, loc);
    var right := UnparseAtom(t.right, loc);
    assert UnparseProduct(t, loc) == left + [OperatorToken(t.op, loc)] + right;
    OccursThree(toks, p, left, OperatorToken(t.op, loc), right);
    var ql := p + |left|;
    var end := p + |UnparseProduct(t, loc)|;
    assert ql + 1 + |right| == end;
    ProductToLoop(t.left, loc, toks, p);
    ProductOperand(t, loc, toks, ql);
  }

  /** A product that is a single atom. */
  lemma {:induction false} ProductOfAtom(t: Tree, loc: Location, toks: seq<Token>, p: nat)
    requires !(t.Binary? && !Additive(t.op))
    requires Occurs(toks, p, UnparseAtom(t, loc))
    ensures TryParseExpressionMulDiv(CursorAt(toks, p)) == MulDivLoop(Build(t, loc), CursorAt(toks, p + |UnparseAtom(t, loc)|))
    decreases t, AtomRank(t) + 1
  {
    AtomParses(t, loc, toks, p);
    FirstFactor(t, loc, toks, p, p + |UnparseAtom(t, loc)|);
  }

  /** The right operand of a `*` or `/` node, after its operator at `i`. */
  lemma {:induction false} ProductOperand(t: Tree, loc: Location, toks: seq<Token>, i: nat)
    requires t.Binary? && !Additive(t.op)
    requires i < |toks| && toks[i] == OperatorToken(t.op, loc)
    requires Occurs(toks, i + 1, UnparseAtom(t.right, loc))
    ensures MulDivLoop(Build(t.left, loc), CursorAt(toks, i))
         == MulDivLoop(Build(t, loc), CursorAt(toks, i + 1 + |UnparseAtom(t.right, loc)|))
    decreases t, 0
  {
    AtomParses(t.right, loc, toks, i + 1);
    MulStep(t.op, t.left, t.right, loc, toks, i, i + 1 + |UnparseAtom(t.right, loc)|);
  }

  /** The right operand of a `+` or `-` node, after its operator at `i`. */
  lemma {:induction false} SumOperand(t: Tree, loc: Location, toks: seq<Token>, i: nat)
    requires t.Binary? && Additive(t.op)
    requires i < |toks| && toks[i] == OperatorToken(t.op, loc)
    requires Occurs(toks, i + 1, UnparseProduct(t.right, loc))
    requires !IsMulOperator(At(CursorAt(toks, i + 1 + |UnparseProduct(t.right, loc)|), 0))
    ensures AddSubtractLoop(Build(t.left, loc), CursorAt(toks, i))
         == AddSubtractLoop(Build(t, loc), CursorAt(toks, i + 1 + |UnparseProduct(t.right, loc)|))
    decreases t, 0
  {
    ProductToLoop(t.right, loc, toks, i + 1);
    AddStep(t.op, t.left, t.right, loc, toks, i, i + 1 + |UnparseProduct(t.right, loc)|);
  }

  /** The first operand of a product, then its loop. */
  lemma {:induction false} FirstFactor(t: Tree, loc: Location, toks: seq<Token>, p: nat, q: nat)
    requires q <= |toks|
    requires TryParseExpressionLiteralOrParen(CursorAt(toks, p)) == Matched(Build(t, loc), CursorAt(toks, q))
    ensures TryParseExpressionMulDiv(CursorAt(toks, p)) == MulDivLoop(Build(t, loc), CursorAt(toks, q))
  {
  }

  /** The first operand of a sum, then its loop. */
  lemma {:induction false} FirstTerm(t: Tree, loc: Location, toks: seq<Token>, p: nat, q: nat)
    requires q <= |toks| && !IsMulOperator(At(CursorAt(toks, q), 0))
    requires TryParseExpressionMulDiv(CursorAt(toks, p)) == MulDivLoop(Build(t, loc), CursorAt(toks, q))
    ensures TryParseExpressionAddSubtract(CursorAt(toks, p)) == AddSubtractLoop(Build(t, loc), CursorAt(toks, q))
  {
    assert MulDivLoop(Build(t, loc), CursorAt(toks, q)) == Matched(Build(t, loc), CursorAt(toks, q));
  }

  /** One turn of the `+ -` loop over operands built from trees. */
  lemma {:induction false} AddStep(op: Operator, l: Tree, r: Tree, loc: Location, toks: seq<Token>, i: nat, j: nat)
    requires Additive(op) && i < |toks| && toks[i] == OperatorToken(op, loc)
    requires j <= |toks| && !IsMulOperator(At(CursorAt(toks, j), 0))
    requires TryParseExpressionMulDiv(CursorAt(toks, i + 1)) == MulDivLoop(Build(r, loc), CursorAt(toks, j))
    ensures AddSubtractLoop(Build(l, loc), CursorAt(toks, i)) == AddSubtractLoop(Build(Binary(op, l, r), loc), CursorAt(toks, j))
  {
    var h := CursorAt(toks, i);
    assert At(h, 0) == OperatorToken(op, loc);
    assert Advance(h, 1) == CursorAt(toks, i + 1);
    assert MulDivLoop(Build(r, loc), CursorAt(toks, j)) == Matched(Build(r, loc), CursorAt(toks, j));
    assert Build(Binary(op, l, r), loc)
        == if op == AddOp then DoubleAdd(Plus(loc), Build(l, loc), Build(r, loc))
           else DoubleSubtract(Minus(loc), Build(l, loc), Build(r, loc));
  }

  /** One turn of the `* /` loop over operands built from trees. */
  lemma {:induction false} MulStep(op: Operator, l: Tree, r: Tree, loc: Location, toks: seq<Token>, i: nat, j: nat)
    requires !Additive(op) && i < |toks| && toks[i] == OperatorToken(op, loc)
    requires TryParseExpressionLiteralOrParen(CursorAt(toks, i + 1)) == Matched(Build(r, loc), CursorAt(toks, j))
    ensures MulDivLoop(Build(l, loc), CursorAt(toks, i)) == MulDivLoop(Build(Binary(op, l, r), loc), CursorAt(toks, j))
  {
    var h := CursorAt(toks, i);
    assert At(h, 0) == OperatorToken(op, loc);
    assert Advance(h, 1) == CursorAt(toks, i + 1);
    assert Build(Binary(op, l, r), loc)
        == if op == MultiplyOp then DoubleMultiply(Asterisk(loc), Build(l, loc), Build(r, loc))
           else DoubleDivide(Frontslash(loc), Build(l, loc), Build(r, loc));
  }

  /** A sum's rendering, followed by anything but `*` or `/`, takes
      `TryParseExpressionAddSubtract` to its operator loop with the whole tree
      accumulated, right after the rendering. */
  lemma {:induction false} SumToLoop(t: Tree, loc: Location, toks: seq<Token>, p: nat)
    requires Occurs(toks, p, UnparseSum(t, loc))
    requires !IsMulOperator(At(CursorAt(toks, p + |UnparseSum(t, loc)|), 0))
    ensures TryParseExpressionAddSubtract(CursorAt(toks, p))
         == AddSubtractLoop(Build(t, loc), CursorAt(toks, p + |UnparseSum(t, loc)|))
    decreases t, SumRank(t)
  {
    if t.Binary? && Additive(t.op) {
      SumOfSum(t, loc, toks, p);
    } else {
      assert UnparseSum(t, loc) == UnparseProduct(t, loc);
      SumOfProduct(t, loc, toks, p);
    }
  }

  /** A `+` or `-` node: its left operand's loop, then one more turn. */
  lemma {:induction false} SumOfSum(t: Tree, loc: Location, toks: seq<Token>, p: nat)
    requires t.Binary? && Additive(t.op)
    requires Occurs(toks, p, UnparseSum(t, loc))
    requires !IsMulOperator(At(CursorAt(toks, p + |UnparseSum(t, loc)|), 0))
    ensures TryParseExpressionAddSubtract(CursorAt(toks, p))
         == AddSubtractLoop(Build(t, loc), CursorAt(toks, p + |UnparseSum(t, loc)|))
    decreases t, 1
  {
    var left := UnparseSum(t.left, loc);
    var right := UnparseProduct(t.right, loc);
    assert UnparseSum(t, loc) == left + [OperatorToken(t.op, loc)] + right;
    OccursThree(toks, p, left, OperatorToken(t.op, loc), right);
    var ql := p + |left|;
    var end := p + |UnparseSum(t, loc)|;
    assert ql + 1 + |right| == end;
    SumToLoop(t.left, loc, toks, p);
    SumOperand(t, loc, toks, ql);
  }

  /** A sum that is a single product. */
  lemma {:induction false} SumOfProduct(t: Tree, loc: Location, toks: seq<Token>, p: nat)
    requires !(t.Binary? && Additive(t.op))
    requires Occurs(toks, p, UnparseProduct(t, loc))
    requires !IsMulOperator(At(CursorAt(toks, p + |UnparseProduct(t, loc)|), 0))
    ensures TryParseExpressionAddSubtract(CursorAt(toks, p))
         == AddSubtractLoop(Build(t, loc), CursorAt(toks, p + |UnparseProduct(t, loc)|))
    decreases t, ProductRank(t) + 1
  {
    ProductToLoop(t, loc, toks, p);
    FirstTerm(t, loc, toks, p, p + |UnparseProduct(t, loc)|);
  }

  /** A sum's rendering followed by anything but an operator parses back to the
      same tree, consuming exactly the rendering. */
  lemma {:induction false} AnyParses(t: Tree, loc: Location, toks: seq<Token>, p: nat)
    requires Occurs(toks, p, UnparseSum(t, loc))
    requires var next := At(CursorAt(toks, p + |UnparseSum(t, loc)|), 0); !IsMulOperator(next) && !IsAddOperator(next)
    ensures TryParseExpressionAny(CursorAt(toks, p)) == Matched(Build(t, loc), CursorAt(toks, p + |UnparseSum(t, loc)|))
  {
    SumToLoop(t, loc, toks, p);
  }

  /** Round trip: every tree, rendered with the fewest parentheses, parses back
      to itself. */
  lemma {:induction false} ParseUnparse(t: Tree, loc: Location)
    ensures var r := TryParseExpressionAny(CursorAt(UnparseSum(t, loc), 0));
            r.Matched? && Shape(r.expr) == Strip(t) && r.rest.position == |UnparseSum(t, loc)|
  {
    var toks := UnparseSum(t, loc);
    OccursInConcat(toks, []);
    assert toks + [] == toks;
    AnyParses(t, loc, toks, 0);
    ShapeOfBuild(t, loc);
  }

  /** Trees rendered as statements, each followed by `;`. */
  function Program(ts: seq<Tree>, loc: Location): seq<Token> {
    if ts == [] then [] else UnparseSum(ts[0], loc) + [Semicolon(loc)] + Program(ts[1..], loc)
  }

  /** The print statements of the trees, in order. */
  function Prints(ts: seq<Tree>, loc: Location): (r: seq<Statement>)
    ensures |r| == |ts|
  {
    if ts == [] then [] else [Print(Build(ts[0], loc))] + Prints(ts[1..], loc)
  }

  /** The `k`-th print statement prints the `k`-th tree. */
  lemma {:induction false} PrintsAt(ts: seq<Tree>, loc: Location, k: nat)
    requires k < |ts|
    ensures Prints(ts, loc)[k] == Print(Build(ts[k], loc))
    decreases k
  {
    if k > 0 {
      PrintsAt(ts[1..], loc, k - 1);
      assert ts[1..][k - 1] == ts[k];
    }
  }

  /** A statement whose expression matches and is followed by `;`. */
  lemma {:induction false} PrintStatement(h: TokenHandle, e: Expression, next: TokenHandle)
    requires TryParseExpressionAny(h) == Matched(e, next) && At(next, 0).Semicolon?
    ensures ParseStatement(h) == StatementStep(Print(e), None, Advance(next, 1))
  {
  }

  /** A statement whose expression panics is skipped through the next `;`. */
  lemma {:induction false} FailedStatement(h: TokenHandle, e: Position.Error, at: TokenHandle)
    requires TryParseExpressionAny(h) == Errored(e, at)
    ensures ParseStatement(h) == StatementStep(UnknownStatement, Some(e), AdvanceThrough(at, {SemicolonType}))
  {
  }

  /** Recovery from just before a `;` lands just after it. */
  lemma {:induction false} ThroughSemicolon(toks: seq<Token>, i: nat)
    requires i < |toks| && toks[i].Semicolon?
    ensures AdvanceThrough(CursorAt(toks, i), {SemicolonType}) == CursorAt(toks, i + 1)
  {
    assert FirstOfTypes(toks, {SemicolonType}, i) == i;
  }

  /** `Parse` starts its loop at the first token. */
  lemma {:induction false} ParseStarts(toks: seq<Token>)
    ensures Parse(toks) == ParseFrom(CursorAt(toks, 0))
  {
  }

  /** Nothing is left to parse at the end of the list. */
  lemma {:induction false} ParseAtEnd(toks: seq<Token>)
    ensures ParseFrom(CursorAt(toks, |toks|)) == Parsed([], [])
  {
  }

  /** The first statement of a rendered program. */
  lemma {:induction false} FirstPrint(t: Tree, loc: Location, toks: seq<Token>, p: nat)
    requires Occurs(toks, p, UnparseSum(t, loc))
    requires p + |UnparseSum(t, loc)| < |toks| && toks[p + |UnparseSum(t, loc)|] == Semicolon(loc)
    ensures ParseStatement(CursorAt(toks, p)) == StatementStep(Print(Build(t, loc)), None, CursorAt(toks, p + |UnparseSum(t, loc)| + 1))
  {
    var q := p + |UnparseSum(t, loc)|;
    AnyParses(t, loc, toks, p);
    PrintStatement(CursorAt(toks, p), Build(t, loc), CursorAt(toks, q));
  }

  lemma {:induction false} ProgramCons(ts: seq<Tree>, loc: Location)
    requires ts != []
    ensures Program(ts, loc) == UnparseSum(ts[0], loc) + [Semicolon(loc)] + Program(ts[1..], loc)
  {
  }

  /** Parsing from `h` on gives `r`. */
  predicate ParsesTo(h: TokenHandle, r: Parsed) {
    ParseFrom(h) == r
  }

  /** A rendered program, from `p` up to `end`, parses into its print
      statements, then carries on with whatever follows it. */
  lemma {:induction false} ProgramParses(ts: seq<Tree>, loc: Location, toks: seq<Token>, p: nat, end: nat, tail: Parsed)
    requires Occurs(toks, p, Program(ts, loc)) && end == p + |Program(ts, loc)|
    requires ParsesTo(CursorAt(toks, end), tail)
    ensures ParsesTo(CursorAt(toks, p), Parsed(Prints(ts, loc) + tail.statements, tail.errors))
    decreases |ts|
  {
    if ts != [] {
      ProgramCons(ts, loc);
      OccursThree(toks, p, UnparseSum(ts[0], loc), Semicolon(loc), Program(ts[1..], loc));
      FirstPrint(ts[0], loc, toks, p);
      ProgramParses(ts[1..], loc, toks, p + |UnparseSum(ts[0], loc)| + 1, end, tail);
      ProgramStep(ts, loc, toks, p, tail);
    } else {
      assert Prints(ts, loc) == [] && end == p;
      assert Parsed([] + tail.statements, tail.errors) == tail;
    }
  }

  /** Stitches the first print statement onto the rest of a program's parse. */
  lemma {:induction false} ProgramStep(ts: seq<Tree>, loc: Location, toks: seq<Token>, p: nat, tail: Parsed)
    requires ts != [] && p < |toks|
    requires ParseStatement(CursorAt(toks, p))
          == StatementStep(Print(Build(ts[0], loc)), None, CursorAt(toks, p + |UnparseSum(ts[0], loc)| + 1))
    requires ParsesTo(CursorAt(toks, p + |UnparseSum(ts[0], loc)| + 1), Parsed(Prints(ts[1..], loc) + tail.statements, tail.errors))
    ensures ParsesTo(CursorAt(toks, p), Parsed(Prints(ts, loc) + tail.statements, tail.errors))
  {
    var n := p + |UnparseSum(ts[0], loc)| + 1;
    ParseFromStep(CursorAt(toks, p));
    PrependPrint(ts, loc, tail.statements);
    assert [] + tail.errors == tail.errors;
  }

  lemma {:induction false} PrependPrint(ts: seq<Tree>, loc: Location, more: seq<Statement>)
    requires ts != []
    ensures [Print(Build(ts[0], loc))] + (Prints(ts[1..], loc) + more) == Prints(ts, loc) + more
  {
    var a := [Print(Build(ts[0], loc))];
    var b := Prints(ts[1..], loc);
    assert Prints(ts, loc) == a + b;
    assert (a + b) + more == a + (b + more);
  }

  /** A rendered program that runs to the end of the list parses into exactly
      its print statements. */
  lemma {:induction false} ProgramToEnd(ts: seq<Tree>, loc: Location, toks: seq<Token>, p: nat)
    requires Occurs(toks, p, Program(ts, loc)) && p + |Program(ts, loc)| == |toks|
    ensures ParseFrom(CursorAt(toks, p)) == Parsed(Prints(ts, loc), [])
  {
    ParseAtEnd(toks);
    ProgramParses(ts, loc, toks, p, |toks|, Parsed([], []));
    assert Prints(ts, loc) + [] == Prints(ts, loc);
  }

  /** Parsing a rendered program reports no errors and yields exactly its
      print statements. */
  lemma {:induction false} ParseProgram(ts: seq<Tree>, loc: Location)
    ensures Parse(Program(ts, loc)) == Parsed(Prints(ts, loc), [])
    ensures forall k :: 0 <= k < |ts| ==>
              Parse(Program(ts, loc)).statements[k].Print? && Shape(Parse(Program(ts, loc)).statements[k].expression) == Strip(ts[k])
  {
    var toks := Program(ts, loc);
    OccursInConcat(toks, []);
    assert toks + [] == toks;
    ProgramToEnd(ts, loc, toks, 0);
    ParseStarts(toks);
    forall k | 0 <= k < |ts|
      ensures Parse(toks).statements[k].Print? && Shape(Parse(toks).statements[k].expression) == Strip(ts[k])
    {
      PrintsAt(ts, loc, k);
      ShapeOfBuild(ts[k], loc);
    }
  }

  /** A statement that panics is skipped through its `;`, leaving one unknown
      statement and one error, and the statements after it parse as usual.
      Here `1 +` is followed by `;` where an operand was expected. */
  lemma {:induction false} RecoversAtSemicolon(d: string, loc: Location, semicolon: Location, ts: seq<Tree>)
    ensures var toks := [NumberLiteral(loc, d), Plus(loc), Semicolon(semicolon)] + Program(ts, loc);
            Parse(toks) == Parsed([UnknownStatement] + Prints(ts, loc), [Position.Error(semicolon, ExpectedExpression)])
  {
    var head := [NumberLiteral(loc, d), Plus(loc), Semicolon(semicolon)];
    var toks := head + Program(ts, loc);
    var e := Position.Error(semicolon, ExpectedExpression);
    assert toks[..3] == head;
    MissingOperand(toks, loc, d, semicolon);
    FailedStatement(CursorAt(toks, 0), e, CursorAt(toks, 2));
    ThroughSemicolon(toks, 2);
    ParseFromStep(CursorAt(toks, 0));
    OccursInConcat(head, Program(ts, loc));
    ProgramToEnd(ts, loc, toks, 3);
    ParseStarts(toks);
  }

  /** `1 + ;`: after the operator, the `;` is not an operand, so the `+` loop
      panics there. */
  lemma {:induction false} MissingOperand(toks: seq<Token>, loc: Location, d: string, semicolon: Location)
    requires |toks| >= 3 && toks[..3] == [NumberLiteral(loc, d), Plus(loc), Semicolon(semicolon)]
    ensures TryParseExpressionAny(CursorAt(toks, 0))
         == Errored(Position.Error(semicolon, ExpectedExpression), CursorAt(toks, 2))
  {
    assert toks[0] == toks[..3][0] && toks[1] == toks[..3][1] && toks[2] == toks[..3][2];
    var literal := DoubleLiteral(NumberLiteral(loc, d));
    assert TryParseExpressionLiteralOrParen(CursorAt(toks, 2)) == Unmatched(CursorAt(toks, 2));
    assert TryParseExpressionMulDiv(CursorAt(toks, 2)) == Unmatched(CursorAt(toks, 2));
    assert AddSubtractLoop(literal, CursorAt(toks, 1))
        == Errored(Position.Error(semicolon, ExpectedExpression), CursorAt(toks, 2));
    assert TryParseExpressionLiteralOrParen(CursorAt(toks, 0)) == Matched(literal, CursorAt(toks, 1));
    assert MulDivLoop(literal, CursorAt(toks, 1)) == Matched(literal, CursorAt(toks, 1));
    assert TryParseExpressionMulDiv(CursorAt(toks, 0)) == Matched(literal, CursorAt(toks, 1));
    assert TryParseExpressionAddSubtract(CursorAt(toks, 0)) == AddSubtractLoop(literal, CursorAt(toks, 1));
  }

  /** The tokenizer ends a successful run with an end-of-file token, and the
      cursor treats it as a real element: after a well-formed program it is
      parsed as one more statement, which fails with "Expected statement". */
  lemma {:induction false} TrailingEndOfFile(ts: seq<Tree>, loc: Location, eof: Token)
    requires eof.EndOfFile?
    ensures Parse(Program(ts, loc) + [eof])
         == Parsed(Prints(ts, loc) + [UnknownStatement], [Position.Error(eof.location, ExpectedStatement)])
  {
    var toks := Program(ts, loc) + [eof];
    OccursInConcat(Program(ts, loc), [eof]);
    assert toks[|toks| - 1] == eof;
    EndOfFileStatement(toks, eof);
    ProgramParses(ts, loc, toks, 0, |toks| - 1, Parsed([UnknownStatement], [Position.Error(eof.location, ExpectedStatement)]));
    ParseStarts(toks);
  }

  /** A lone end-of-file token left over is parsed as an unknown statement. */
  lemma {:induction false} EndOfFileStatement(toks: seq<Token>, eof: Token)
    requires eof.EndOfFile? && |toks| > 0 && toks[|toks| - 1] == eof
    ensures ParseFrom(CursorAt(toks, |toks| - 1))
         == Parsed([UnknownStatement], [Position.Error(eof.location, ExpectedStatement)])
  {
    var n := |toks| - 1;
    var h := CursorAt(toks, n);
    assert At(h, 0) == eof;
    assert TryParseExpressionLiteralOrParen(h) == Unmatched(h);
    assert TryParseExpressionMulDiv(h) == Unmatched(h);
    assert TryParseExpressionAddSubtract(h) == Unmatched(h);
    assert TryParseExpressionAny(h) == Unmatched(h);
    assert AdvanceThrough(h, {SemicolonType}) == CursorAt(toks, n + 1);
    assert ParseStatement(h)
        == StatementStep(UnknownStatement, Some(Position.Error(eof.location, ExpectedStatement)), CursorAt(toks, n + 1));
    ParseFromStep(h);
    assert ParseFrom(CursorAt(toks, n + 1)) == Parsed([], []);
  }

  const One := Number("1")
  const Two := Number("2")
  const Three := Number("3")

  lemma {:induction false} SingleStatement(t: Tree, loc: Location)
    ensures Program([t], loc) == UnparseSum(t, loc) + [Semicolon(loc)]
  {
    assert [t][1..] == [];
  }

  /** `1 - 2 - 3 ;` groups to the left. */
  lemma {:induction false} SubtractionGroupsLeft(loc: Location)
    ensures var toks := [NumberLiteral(loc, "1"), Minus(loc), NumberLiteral(loc, "2"), Minus(loc),
                         NumberLiteral(loc, "3"), Semicolon(loc)];
            var r := Parse(toks);
            r.errors == [] && |r.statements| == 1
            && Shape(r.statements[0].expression) == Binary(SubtractOp, Binary(SubtractOp, One, Two), Three)
  {
    var inner := Binary(SubtractOp, One, Two);
    var t := Binary(SubtractOp, inner, Three);
    assert UnparseSum(inner, loc) == [NumberLiteral(loc, "1"), Minus(loc), NumberLiteral(loc, "2")];
    assert UnparseSum(t, loc) == UnparseSum(inner, loc) + [Minus(loc), NumberLiteral(loc, "3")];
    SingleStatement(t, loc);
    assert Program([t], loc) == [NumberLiteral(loc, "1"), Minus(loc), NumberLiteral(loc, "2"), Minus(loc),
                                   NumberLiteral(loc, "3"), Semicolon(loc)];
    ParseProgram([t], loc);
  }

  /** `1 + 2 * 3 ;` multiplies first. */
  lemma {:induction false} MultiplicationBindsTighter(loc: Location)
    ensures var toks := [NumberLiteral(loc, "1"), Plus(loc), NumberLiteral(loc, "2"), Asterisk(loc),
                         NumberLiteral(loc, "3"), Semicolon(loc)];
            var r := Parse(toks);
            r.errors == [] && |r.statements| == 1
            && Shape(r.statements[0].expression) == Binary(AddOp, One, Binary(MultiplyOp, Two, Three))
  {
    var inner := Binary(MultiplyOp, Two, Three);
    var t := Binary(AddOp, One, inner);
    assert UnparseProduct(inner, loc) == [NumberLiteral(loc, "2"), Asterisk(loc), NumberLiteral(loc, "3")];
    assert UnparseSum(t, loc) == [NumberLiteral(loc, "1"), Plus(loc)] + UnparseProduct(inner, loc);
    SingleStatement(t, loc);
    assert Program([t], loc) == [NumberLiteral(loc, "1"), Plus(loc), NumberLiteral(loc, "2"), Asterisk(loc),
                                   NumberLiteral(loc, "3"), Semicolon(loc)];
    ParseProgram([t], loc);
  }

  /** `( 1 + 2 ) * 3 ;` adds first, and the parentheses leave no node. */
  lemma {:induction false} ParenthesesGroup(loc: Location)
    ensures var toks := [OpenParen(loc), NumberLiteral(loc, "1"), Plus(loc), NumberLiteral(loc, "2"),
                         CloseParen(loc), Asterisk(loc), NumberLiteral(loc, "3"), Semicolon(loc)];
            var r := Parse(toks);
            r.errors == [] && |r.statements| == 1
            && Shape(r.statements[0].expression) == Binary(MultiplyOp, Binary(AddOp, One, Two), Three)
  {
    var inner := Binary(AddOp, One, Two);
    var t := Binary(MultiplyOp, inner, Three);
    assert UnparseSum(inner, loc) == [NumberLiteral(loc, "1"), Plus(loc), NumberLiteral(loc, "2")];
    assert UnparseAtom(inner, loc) == [OpenParen(loc)] + UnparseSum(inner, loc) + [CloseParen(loc)];
    assert UnparseProduct(t, loc) == UnparseAtom(inner, loc) + [Asterisk(loc), NumberLiteral(loc, "3")];
    SingleStatement(t, loc);
    assert Program([t], loc) == [OpenParen(loc), NumberLiteral(loc, "1"), Plus(loc), NumberLiteral(loc, "2"),
                                   CloseParen(loc), Asterisk(loc), NumberLiteral(loc, "3"), Semicolon(loc)];
    ParseProgram([t], loc);
  }

  /** `( ( 1 ) ) ;` is the number alone: parentheses never leave a node. */
  lemma {:induction false} NestedParentheses(loc: Location)
    ensures var toks := [OpenParen(loc), OpenParen(loc), NumberLiteral(loc, "1"), CloseParen(loc), CloseParen(loc), Semicolon(loc)];
            var r := Parse(toks);
            r.errors == [] && |r.statements| == 1 && Shape(r.statements[0].expression) == One
  {
    var inner := Group(One);
    var t := Group(inner);
    assert UnparseSum(inner, loc) == [OpenParen(loc), NumberLiteral(loc, "1"), CloseParen(loc)];
    assert UnparseSum(t, loc) == [OpenParen(loc)] + UnparseSum(inner, loc) + [CloseParen(loc)];
    SingleStatement(t, loc);
    assert Program([t], loc) == [OpenParen(loc), OpenParen(loc), NumberLiteral(loc, "1"), CloseParen(loc),
                                   CloseParen(loc), Semicolon(loc)];
    ParseProgram([t], loc);
  }
}
