/**
 * The grammar of src/parser/parser.cpp as functions over a token list and
 * a cursor position:
 *
 *   expression -> equality -> comparison -> term -> factor -> unary -> primary
 *
 * Each function returns the tree it built and where the cursor ends, or the
 * ParseError the source throws together with the cursor at the throw (the
 * source's `current`, which stays where the failing check left it).
 * The four binary levels share one definition, `Level`, parameterised by the
 * operator list each level matches; `Fold` is their `while` loop.
 */
module Grammar {
  import opened Wrappers
  import opened Tokens

  /**
   * The expression tree, with the classes and fields of the AST generator's
   * specification (BinaryExpr, GroupingExpr, Literal, UnaryExpr).
   */
  datatype Expr =
    | BinaryExpr(left: Expr, operator: Token, right: Expr)
    | GroupingExpr(expression: Expr)
    | Literal(value: string)
    | UnaryExpr(operator: Token, right: Expr)

  /** ParseError: the message and the token the parser was looking at. */
  datatype ParseError = ParseError(message: string, token: Token)

  /** The result of a grammar rule started at some cursor position. */
  datatype Outcome =
    | Success(expr: Expr, next: nat)
    | Failure(error: ParseError, at: nat)

  const MissingParen: string := "Exppect ')' after expression."
  const NoExpression: string := "Expect expression."

  /** The binary levels, tightest first. */
  const FactorLevel: nat := 1
  const TermLevel: nat := 2
  const ComparisonLevel: nat := 3
  const EqualityLevel: nat := 4

  /** The operators each binary level matches, in the order `match` tries them. */
  function Operators(level: nat): seq<TokenType>
    requires 1 <= level <= 4
  {
    if level == FactorLevel then [Slash, Star]
    else if level == TermLevel then [Minus, Plus]
    else if level == ComparisonLevel then [Greater, Less, LessEqual]
    else [BangEqual, EqualEqual]
  }

  const UnaryOperators: seq<TokenType> := [Bang, Minus]

  /** What the parser needs of its token list: a last token that ends the input. */
  predicate Wellformed(ts: seq<Token>) {
    |ts| > 0 && ts[|ts| - 1].kind == EndOfFile
  }

  /** isAtEnd at `pos` */
  predicate AtEnd(ts: seq<Token>, pos: nat)
    requires pos < |ts|
  {
    ts[pos].kind == EndOfFile
  }

  /** check: never true at the end of input, whatever the kind asked for. */
  predicate Checks(ts: seq<Token>, pos: nat, kind: TokenType)
    requires pos < |ts|
  {
    if AtEnd(ts, pos) then false else ts[pos].kind == kind
  }

  /**
   * match's test: `check` holds for one of `kinds`, that is, the token at
   * `pos` is one of them and is not the end of input.
   */
  predicate Matches(ts: seq<Token>, pos: nat, kinds: seq<TokenType>)
    requires pos < |ts|
  {
    !AtEnd(ts, pos) && ts[pos].kind in kinds
  }

  /** The cursor discipline every rule keeps: it stays inside the list and only moves forward. */
  predicate Sound(ts: seq<Token>, pos: nat, r: Outcome) {
    match r
    case Success(_, next) => pos <= next < |ts|
    case Failure(err, at) => pos <= at < |ts| && err.token == ts[at]
  }

  /** expression */
  function Expression(ts: seq<Token>, pos: nat): (r: Outcome)
    requires Wellformed(ts) && pos < |ts|
    ensures Sound(ts, pos, r)
    decreases |ts| - pos, 11
  {
    Level(ts, pos, EqualityLevel)
  }

  /**
   * equality, comparison, term and factor (levels 4 to 1); level 0 is
   * unary. One operand of the next tighter level, then the loop.
   */
  function Level(ts: seq<Token>, pos: nat, level: nat): (r: Outcome)
    requires Wellformed(ts) && pos < |ts| && level <= 4
    ensures Sound(ts, pos, r)
    decreases |ts| - pos, 2 * level + 2
  {
    if level == 0 then Unary(ts, pos)
    else
      match Level(ts, pos, level - 1)
      case Failure(err, at) => Failure(err, at)
      case Success(left, next) => Fold(ts, level, left, next)
  }

  /**
   * The `while (match(...))` loop of a binary level: while the cursor is on
   * one of the level's operators, take it and one more operand and fold to
   * the left, `expr = Binary(expr, operator, right)`.
   */
  function Fold(ts: seq<Token>, level: nat, left: Expr, pos: nat): (r: Outcome)
    requires Wellformed(ts) && pos < |ts| && 1 <= level <= 4
    ensures Sound(ts, pos, r)
    decreases |ts| - pos, 2 * level + 1
  {
    if !Matches(ts, pos, Operators(level)) then Success(left, pos)
    else
      match Level(ts, pos + 1, level - 1)
      case Failure(err, at) => Failure(err, at)
      case Success(right, next) => Fold(ts, level, BinaryExpr(left, ts[pos], right), next)
  }

  /** unary: `!` or `-` and another unary, nesting to the right; otherwise primary. */
  function Unary(ts: seq<Token>, pos: nat): (r: Outcome)
    requires Wellformed(ts) && pos < |ts|
    ensures Sound(ts, pos, r)
    decreases |ts| - pos, 1
  {
    if Matches(ts, pos, UnaryOperators) then
      match Unary(ts, pos + 1)
      case Failure(err, at) => Failure(err, at)
      case Success(right, next) => Success(UnaryExpr(ts[pos], right), next)
    else Primary(ts, pos)
  }

  /** primary: a literal, or a parenthesised expression, or the "Expect expression." error. */
  function Primary(ts: seq<Token>, pos: nat): (r: Outcome)
    requires Wellformed(ts) && pos < |ts|
    ensures Sound(ts, pos, r)
    decreases |ts| - pos, 0
  {
    if Checks(ts, pos, False) then Success(Literal("false"), pos + 1)
    else if Checks(ts, pos, True) then Success(Literal("true"), pos + 1)
    else if Checks(ts, pos, Nil) then Success(Literal("nil"), pos + 1)
    else if Matches(ts, pos, [Number, String]) then Success(Literal(ts[pos].literal), pos + 1)
    else if Checks(ts, pos, LeftParen) then
      match Expression(ts, pos + 1)
      case Failure(err, at) => Failure(err, at)
      case Success(inner, next) =>
        // consume(RIGHT_PAREN, ...)
        if Checks(ts, next, RightParen) then Success(GroupingExpr(inner), next + 1)
        else Failure(ParseError(MissingParen, ts[next]), next)
    else Failure(ParseError(NoExpression, ts[pos]), pos)
  }

  /** parse: the expression at `pos`, or nothing on a ParseError; later tokens are not looked at. */
  function Parse(ts: seq<Token>, pos: nat): Option<Expr>
    requires Wellformed(ts) && pos < |ts|
  {
    match Expression(ts, pos)
    case Success(e, _) => Some(e)
    case Failure(_, _) => None
  }
}
