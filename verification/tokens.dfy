/** The token records and the expression and statement trees built from them. */
module Tokens {
  import opened Position

  /** One variant per token record; every token knows its location. A number
      literal keeps the digits it was spelled with (the source also parses them
      into a `double`, which is not modelled). */
  datatype Token =
    | NumberLiteral(location: Location, digits: string)
    | Semicolon(location: Location)
    | Plus(location: Location)
    | Minus(location: Location)
    | Asterisk(location: Location)
    | Frontslash(location: Location)
    | OpenParen(location: Location)
    | CloseParen(location: Location)
    | Unknown(location: Location)
    | EndOfFile(location: Location)

  /** The runtime type of a token, which the token cursor's scans match against. */
  datatype TokenType =
    | NumberLiteralType | SemicolonType | PlusType | MinusType | AsteriskType
    | FrontslashType | OpenParenType | CloseParenType | UnknownType | EndOfFileType

  function TypeOf(t: Token): TokenType {
    match t
    case NumberLiteral(_, _) => NumberLiteralType
    case Semicolon(_) => SemicolonType
    case Plus(_) => PlusType
    case Minus(_) => MinusType
    case Asterisk(_) => AsteriskType
    case Frontslash(_) => FrontslashType
    case OpenParen(_) => OpenParenType
    case CloseParen(_) => CloseParenType
    case Unknown(_) => UnknownType
    case EndOfFile(_) => EndOfFileType
  }

  /** The expression tree. Each binary node keeps its operator token. */
  datatype Expression =
    | DoubleLiteral(token: Token)
    | DoubleAdd(token: Token, left: Expression, right: Expression)
    | DoubleSubtract(token: Token, left: Expression, right: Expression)
    | DoubleMultiply(token: Token, left: Expression, right: Expression)
    | DoubleDivide(token: Token, left: Expression, right: Expression)

  /** Every node holds the token its kind calls for: a number literal under a
      literal node, the matching operator under a binary node. */
  predicate WellFormed(e: Expression) {
    match e
    case DoubleLiteral(t) => t.NumberLiteral?
    case DoubleAdd(t, l, r) => t.Plus? && WellFormed(l) && WellFormed(r)
    case DoubleSubtract(t, l, r) => t.Minus? && WellFormed(l) && WellFormed(r)
    case DoubleMultiply(t, l, r) => t.Asterisk? && WellFormed(l) && WellFormed(r)
    case DoubleDivide(t, l, r) => t.Frontslash? && WellFormed(l) && WellFormed(r)
  }

  /** A parsed statement, or the placeholder left where one could not be parsed. */
  datatype Statement = Print(expression: Expression) | UnknownStatement
}
