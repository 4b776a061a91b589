/**
 * What the grammar of src/parser/parser.cpp promises about the trees it
 * builds: operators of one level group to the left, tighter levels bind
 * first, prefix operators nest to the right, tokens after a complete
 * expression are not looked at, and the two error messages come exactly
 * where a `)` or an operand is missing.
 *
 * The partner of the parser is `Unparse`, which lays a tree out as tokens
 * again (without any parentheses a Grouping does not have). The trees the
 * parser builds are exactly the `Canonical` ones, and on those parsing
 * undoes unparsing.
 */
module GrammarProperties {
  import opened Wrappers
  import opened Tokens
  import opened Grammar
  import Lexer
  import opened Seqs

  /**
   * The binary level whose `match` list holds `kind` (1 factor, 2 term,
   * 3 comparison, 4 equality), and 5 for every other kind.
   */
  function LevelOf(kind: TokenType): (level: nat)
    ensures 1 <= level <= EqualityLevel + 1
  {
    match kind
    case Slash | Star => FactorLevel
    case Minus | Plus => TermLevel
    case Greater | Less | LessEqual => ComparisonLevel
    case BangEqual | EqualEqual => EqualityLevel
    case _ => EqualityLevel + 1
  }

  /** A kind's level is the binary level whose `match` list holds it. */
  lemma InItsLevel(kind: TokenType)
    ensures LevelOf(kind) <= EqualityLevel ==> kind in Operators(LevelOf(kind))
  {
  }

  /** No kind is in two `match` lists: a kind belongs to no level but its own. */
  lemma OnlyItsLevel(kind: TokenType, level: nat)
    requires 1 <= level <= EqualityLevel && kind in Operators(level)
    ensures LevelOf(kind) == level
  {
  }

  /** The rule a tree's root belongs to: -1 primary, 0 unary, 1 to 4 the binary levels. */
  function Binding(e: Expr): int {
    match e
    case Literal(_) => -1
    case GroupingExpr(_) => -1
    case UnaryExpr(_, _) => 0
    case BinaryExpr(_, op, _) => LevelOf(op.kind)
  }

  /**
   * The shape of the trees the grammar builds: binary operators come from
   * the four `match` lists, a left operand is of the same level or a tighter
   * one (left grouping), a right operand of a strictly tighter one, and a
   * prefix operator applies to a unary or primary tree.
   */
  predicate Canonical(e: Expr) {
    match e
    case Literal(_) => true
    case GroupingExpr(x) => Canonical(x)
    case UnaryExpr(op, r) => op.kind in UnaryOperators && Canonical(r) && Binding(r) <= 0
    case BinaryExpr(l, op, r) =>
      LevelOf(op.kind) <= EqualityLevel && Canonical(l) && Canonical(r)
      && Binding(l) <= LevelOf(op.kind) && Binding(r) < LevelOf(op.kind)
  }

  /** A number token that `primary` turns into `Literal(v)`. */
  function Num(v: string): Token {
    Token(Number, v, v, 1)
  }

  const OpenParen: Token := Token(LeftParen, "(", "", 1)
  const CloseParen: Token := Token(RightParen, ")", "", 1)

  /**
   * The tokens `primary` turns into `Literal(v)`: `false`, `true` and `nil`,
   * and any NUMBER or STRING token whose literal is `v`, on any line and with
   * any lexeme.
   */
  predicate ReadsAs(t: Token, v: string) {
    || (t.kind in [Number, String] && t.literal == v)
    || (t.kind == False && v == "false")
    || (t.kind == True && v == "true")
    || (t.kind == Nil && v == "nil")
  }

  /** How many tokens a tree is read from. */
  function Width(e: Expr): nat {
    match e
    case Literal(_) => 1
    case GroupingExpr(x) => Width(x) + 2
    case UnaryExpr(_, r) => 1 + Width(r)
    case BinaryExpr(l, _, r) => Width(l) + 1 + Width(r)
  }

  /** The tokens a tree is read from, in source order. */
  function Unparse(e: Expr): (r: seq<Token>)
    ensures |r| == Width(e)
  {
    match e
    case Literal(v) => [Num(v)]
    case GroupingExpr(x) => [OpenParen] + Unparse(x) + [CloseParen]
    case UnaryExpr(op, r) => [op] + Unparse(r)
    case BinaryExpr(l, op, r) => Unparse(l) + [op] + Unparse(r)
  }

  /** A binary level's loop stops on any token that is not one of its operators. */
  lemma {:induction false} FoldStops(ts: seq<Token>, level: nat, e: Expr, end: nat)
    requires Wellformed(ts) && end < |ts| && 1 <= level <= EqualityLevel
    requires LevelOf(ts[end].kind) != level
    ensures Fold(ts, level, e, end) == Success(e, end)
  {
    if ts[end].kind in Operators(level) {
      OnlyItsLevel(ts[end].kind, level);
    }
  }

  /**
   * `ts` holds the tokens of `e` from `pos` on, and one more token after
   * them: token by token, the tokens of `Unparse(e)` or any others the
   * parser reads the same way (any literal token for a literal, any `(` and
   * `)` for a grouping).
   */
  predicate LaidOut(ts: seq<Token>, pos: nat, e: Expr)
    decreases e
  {
    pos + Width(e) < |ts| &&
    match e
    case Literal(v) => ReadsAs(ts[pos], v)
    case GroupingExpr(x) =>
      ts[pos].kind == LeftParen && LaidOut(ts, pos + 1, x) && ts[pos + 1 + Width(x)].kind == RightParen
    case UnaryExpr(op, r) => ts[pos] == op && LaidOut(ts, pos + 1, r)
    case BinaryExpr(l, op, r) =>
      LaidOut(ts, pos, l) && ts[pos + Width(l)] == op && LaidOut(ts, pos + Width(l) + 1, r)
  }

  /** The tokens of `e`, with any tokens before them and some after, lay `e` out. */
  lemma {:induction false} UnparseLaidOut(before: seq<Token>, e: Expr, after: seq<Token>)
    requires |after| > 0
    ensures LaidOut(before + Unparse(e) + after, |before|, e)
    decreases e
  {
    var ts := before + Unparse(e) + after;
    var p := |before|;
    match e
    case Literal(v) =>
      assert ts[p] == Unparse(e)[0] == Num(v);
    case GroupingExpr(x) =>
      AppendAssoc(before, [OpenParen] + Unparse(x), [CloseParen]);
      AppendAssoc(before, [OpenParen], Unparse(x));
      AppendAssoc(before + [OpenParen] + Unparse(x), [CloseParen], after);
      UnparseLaidOut(before + [OpenParen], x, [CloseParen] + after);
      assert ts[p].kind == LeftParen;
      assert ts[p + 1 + Width(x)].kind == RightParen;
    case UnaryExpr(op, r) =>
      AppendAssoc(before, [op], Unparse(r));
      UnparseLaidOut(before + [op], r, after);
      assert ts[p] == op;
    case BinaryExpr(l, op, r) =>
      AppendAssoc(before, Unparse(l) + [op], Unparse(r));
      AppendAssoc(before, Unparse(l), [op]);
      AppendAssoc(before + Unparse(l), [op] + Unparse(r), after);
      AppendAssoc(before + Unparse(l), [op], Unparse(r));
      UnparseLaidOut(before, l, [op] + Unparse(r) + after);
      UnparseLaidOut(before + Unparse(l) + [op], r, after);
      assert ts[p + Width(l)] == op;
  }

  /** `primary` on any `(`, a complete expression and any `)`. */
  lemma {:induction false} GroupRead(ts: seq<Token>, pos: nat, x: Expr, inner: nat)
    requires Wellformed(ts) && pos < inner < |ts|
    requires ts[pos].kind == LeftParen && ts[inner].kind == RightParen
    requires Expression(ts, pos + 1) == Success(x, inner)
    ensures Unary(ts, pos) == Success(GroupingExpr(x), inner + 1)
  {
  }

  /** `unary` on `(` and a complete expression that no `)` follows. */
  lemma {:induction false} GroupUnclosed(ts: seq<Token>, pos: nat, x: Expr, inner: nat)
    requires Wellformed(ts) && pos < inner < |ts|
    requires ts[pos].kind == LeftParen && ts[inner].kind != RightParen
    requires Expression(ts, pos + 1) == Success(x, inner)
    ensures Unary(ts, pos) == Failure(ParseError(MissingParen, ts[inner]), inner)
  {
  }

  /** `unary` on a literal token: `false`, `true`, `nil`, or a number or string with its literal. */
  lemma {:induction false} LiteralRead(ts: seq<Token>, pos: nat, v: string)
    requires Wellformed(ts) && pos < |ts| && ReadsAs(ts[pos], v)
    ensures Unary(ts, pos) == Success(Literal(v), pos + 1)
  {
  }

  /** `unary` on a prefix operator and the unary expression after it. */
  lemma {:induction false} PrefixRead(ts: seq<Token>, pos: nat, r: Expr, end: nat)
    requires Wellformed(ts) && pos + 1 < |ts| && ts[pos].kind in UnaryOperators
    requires Unary(ts, pos + 1) == Success(r, end)
    ensures Unary(ts, pos) == Success(UnaryExpr(ts[pos], r), end)
  {
  }

  /** A canonical unary or primary tree laid out at `pos` is what `unary` reads there. */
  lemma {:induction false} UnparsedUnary(ts: seq<Token>, pos: nat, e: Expr)
    requires Placed(ts, pos, e, 0)
    ensures Unary(ts, pos) == Success(e, pos + Width(e))
    decreases e, 0, 0
  {
    InnerPlaced(ts, pos, e);
    match e
    case Literal(v) =>
      LiteralRead(ts, pos, v);
    case GroupingExpr(x) =>
      var inner := pos + 1 + Width(x);
      UnparsedComplete(ts, pos + 1, x, EqualityLevel);
      GroupRead(ts, pos, x, inner);
    case UnaryExpr(op, r) =>
      UnparsedUnary(ts, pos + 1, r);
      PrefixRead(ts, pos, r, pos + Width(e));
  }

  /** `e` is canonical, of level at most `level`, and laid out in `ts` from `pos` on. */
  predicate Placed(ts: seq<Token>, pos: nat, e: Expr, level: int) {
    Wellformed(ts) && level <= EqualityLevel && Canonical(e) && Binding(e) <= level && LaidOut(ts, pos, e)
  }

  /**
   * The core of the round trip: a canonical tree of level at most `level`,
   * laid out at `pos` and followed by a token that no tighter level takes,
   * is read back by `Level(.., level)`, which then goes on with its loop.
   */
  lemma {:induction false} UnparsedLevel(ts: seq<Token>, pos: nat, e: Expr, level: nat)
    requires Placed(ts, pos, e, level)
    requires LevelOf(ts[pos + Width(e)].kind) >= level
    ensures level == 0 ==> Level(ts, pos, level) == Success(e, pos + Width(e))
    ensures level >= 1 ==> Level(ts, pos, level) == Fold(ts, level, e, pos + Width(e))
    decreases e, level + 1, 1
  {
    match e
    case BinaryExpr(l, op, r) =>
      if LevelOf(op.kind) == level {
        BinaryPlaced(ts, pos, l, op, r, level);
        UnparsedBinary(ts, pos, l, op, r, level);
      } else {
        UnparsedTighter(ts, pos, e, level);
      }
    case _ =>
      if level == 0 {
        UnparsedUnary(ts, pos, e);
      } else {
        UnparsedTighter(ts, pos, e, level);
      }
  }

  /**
   * A canonical tree followed by a token that neither `level` nor a tighter
   * level takes is all that `Level(.., level)` reads.
   */
  lemma {:induction false} UnparsedComplete(ts: seq<Token>, pos: nat, e: Expr, level: nat)
    requires Placed(ts, pos, e, level)
    requires LevelOf(ts[pos + Width(e)].kind) > level
    ensures Level(ts, pos, level) == Success(e, pos + Width(e))
    decreases e, level + 1, 2
  {
    UnparsedLevel(ts, pos, e, level);
    if level >= 1 {
      FoldStops(ts, level, e, pos + Width(e));
    }
  }

  /** A tree of a tighter level is the first operand of `level`, and the loop goes on after it. */
  lemma {:induction false} UnparsedTighter(ts: seq<Token>, pos: nat, e: Expr, level: nat)
    requires 1 <= level <= EqualityLevel && Placed(ts, pos, e, level - 1)
    requires LevelOf(ts[pos + Width(e)].kind) >= level
    ensures Level(ts, pos, level) == Fold(ts, level, e, pos + Width(e))
    decreases e, level + 1, 0
  {
    UnparsedComplete(ts, pos, e, level - 1);
    OperandThenLoop(ts, pos, level, e, pos + Width(e));
  }

  /**
   * A binary tree of `level` itself, given by its parts: its left side is
   * read by the level, then one turn of the loop reads the operator and the
   * right side.
   */
  lemma {:induction false} UnparsedBinary(ts: seq<Token>, pos: nat, l: Expr, op: Token, r: Expr, level: nat)
    requires 1 <= level && LevelOf(op.kind) == level
    requires Placed(ts, pos, l, level) && ts[pos + Width(l)] == op
    requires Placed(ts, pos + Width(l) + 1, r, level - 1)
    requires LevelOf(ts[pos + Width(l) + 1 + Width(r)].kind) >= level
    ensures Level(ts, pos, level) == Fold(ts, level, BinaryExpr(l, op, r), pos + Width(l) + 1 + Width(r))
    decreases BinaryExpr(l, op, r), level + 1, 0
  {
    var m := pos + Width(l);
    var end := m + 1 + Width(r);
    assert ts[m] == op && LevelOf(ts[m].kind) == level;
    UnparsedLevel(ts, pos, l, level);
    UnparsedComplete(ts, m + 1, r, level - 1);
    FoldStep(ts, level, l, m, r, end);
    assert BinaryExpr(l, ts[m], r) == BinaryExpr(l, op, r);
    assert Level(ts, pos, level) == Fold(ts, level, l, m);
    assert Fold(ts, level, l, m) == Fold(ts, level, BinaryExpr(l, op, r), end);
    assert end == pos + Width(l) + 1 + Width(r);
  }

  /** The operands of a binary tree of `level` are placed where its layout puts them. */
  lemma BinaryPlaced(ts: seq<Token>, pos: nat, l: Expr, op: Token, r: Expr, level: nat)
    requires level >= 1 && LevelOf(op.kind) == level && Placed(ts, pos, BinaryExpr(l, op, r), level)
    ensures Placed(ts, pos, l, level) && ts[pos + Width(l)] == op
    ensures Placed(ts, pos + Width(l) + 1, r, level - 1)
    ensures pos + Width(BinaryExpr(l, op, r)) == pos + Width(l) + 1 + Width(r)
  {
    var e := BinaryExpr(l, op, r);
    assert Binding(e) == level && LaidOut(ts, pos, e);
    assert Width(e) == Width(l) + 1 + Width(r);
    assert Canonical(l) && Canonical(r) && Binding(l) <= level && Binding(r) < level;
    assert LaidOut(ts, pos, l) && ts[pos + Width(l)] == op && LaidOut(ts, pos + Width(l) + 1, r);
  }

  /** The operand of a prefix tree, and the inside of a grouping, are placed after its first token. */
  lemma InnerPlaced(ts: seq<Token>, pos: nat, e: Expr)
    requires Placed(ts, pos, e, 0)
    ensures e.GroupingExpr? ==>
      (Placed(ts, pos + 1, e.expression, EqualityLevel)
       && ts[pos].kind == LeftParen && ts[pos + 1 + Width(e.expression)].kind == RightParen)
    ensures e.UnaryExpr? ==>
      (Placed(ts, pos + 1, e.right, 0) && ts[pos] == e.operator
       && pos + Width(e) == pos + 1 + Width(e.right))
  {
    if e.GroupingExpr? {
      CanonicalBinding(e.expression);
    }
  }

  /** A binary level reads one operand of the next tighter level, then runs its loop. */
  lemma OperandThenLoop(ts: seq<Token>, pos: nat, level: nat, e: Expr, end: nat)
    requires Wellformed(ts) && pos < |ts| && 1 <= level <= EqualityLevel
    requires Level(ts, pos, level - 1) == Success(e, end)
    ensures Level(ts, pos, level) == Fold(ts, level, e, end)
  {
  }

  /** One turn of a binary level's loop: an operator of the level at `m` and the operand after it. */
  lemma FoldStep(ts: seq<Token>, level: nat, l: Expr, m: nat, r: Expr, end: nat)
    requires Wellformed(ts) && m + 1 < |ts| && 1 <= level <= EqualityLevel
    requires LevelOf(ts[m].kind) == level
    requires Level(ts, m + 1, level - 1) == Success(r, end)
    ensures Fold(ts, level, l, m) == Fold(ts, level, BinaryExpr(l, ts[m], r), end)
  {
    InItsLevel(ts[m].kind);
  }

  /**
   * Round trip: an expression parses back from its tokens whatever comes
   * after them, so long as that is not a binary operator (`parse` looks at
   * nothing past the expression it found).
   */
  lemma {:induction false} ParseUnparsed(e: Expr, rest: seq<Token>)
    requires Canonical(e) && Wellformed(rest) && LevelOf(rest[0].kind) > EqualityLevel
    ensures Wellformed(Unparse(e) + rest)
    ensures Parse(Unparse(e) + rest, 0) == Some(e)
  {
    ExpressionUnparsed(e, rest);
  }

  /**
   * The round trip on any token list that lays a canonical tree out,
   * whichever literal tokens, parentheses, lexemes and lines it uses, so long
   * as the token after it is not a binary operator.
   */
  lemma {:induction false} ParseLaidOut(ts: seq<Token>, pos: nat, e: Expr)
    requires Wellformed(ts) && Canonical(e) && LaidOut(ts, pos, e)
    requires LevelOf(ts[pos + Width(e)].kind) > EqualityLevel
    ensures Expression(ts, pos) == Success(e, pos + Width(e))
    ensures Parse(ts, pos) == Some(e)
  {
    CanonicalBinding(e);
    UnparsedComplete(ts, pos, e, EqualityLevel);
    assert Expression(ts, pos) == Level(ts, pos, EqualityLevel);
  }

  /** The round trip at the level of `expression`: the tree, and the cursor just after its tokens. */
  lemma {:induction false} ExpressionUnparsed(e: Expr, rest: seq<Token>)
    requires Canonical(e) && Wellformed(rest) && LevelOf(rest[0].kind) > EqualityLevel
    ensures Wellformed(Unparse(e) + rest)
    ensures Expression(Unparse(e) + rest, 0) == Success(e, |Unparse(e)|)
  {
    var ts := Unparse(e) + rest;
    UnparsedFollowed([], e, rest);
    assert [] + Unparse(e) + rest == ts by { EmptyBefore(Unparse(e)); }
    CanonicalBinding(e);
    assert Placed(ts, 0, e, EqualityLevel) && ts[Width(e)] == rest[0];
    UnparsedComplete(ts, 0, e, EqualityLevel);
    assert Expression(ts, 0) == Level(ts, 0, EqualityLevel);
  }

  /** The tokens of `e` between some before and a well-formed rest: laid out, and followed by `rest[0]`. */
  lemma {:induction false} UnparsedFollowed(before: seq<Token>, e: Expr, rest: seq<Token>)
    requires Wellformed(rest)
    ensures Wellformed(before + Unparse(e) + rest)
    ensures LaidOut(before + Unparse(e) + rest, |before|, e)
    ensures (before + Unparse(e) + rest)[|before| + Width(e)] == rest[0]
  {
    var ts := before + Unparse(e) + rest;
    UnparseLaidOut(before, e, rest);
    assert ts[|ts| - 1] == rest[|rest| - 1];
  }

  /** A canonical tree is of one of the grammar's levels. */
  lemma CanonicalBinding(e: Expr)
    requires Canonical(e)
    ensures Binding(e) <= EqualityLevel
  {
  }

  /** Every tree a rule builds is canonical and of that rule's level or tighter. */
  predicate Builds(r: Outcome, level: int) {
    r.Success? ==> Canonical(r.expr) && Binding(r.expr) <= level
  }

  lemma {:induction false} LevelBuildsCanonical(ts: seq<Token>, pos: nat, level: nat)
    requires Wellformed(ts) && pos < |ts| && level <= EqualityLevel
    ensures Builds(Level(ts, pos, level), level)
    decreases |ts| - pos, 2 * level + 2
  {
    if level == 0 {
      UnaryBuildsCanonical(ts, pos);
    } else {
      LevelBuildsCanonical(ts, pos, level - 1);
      match Level(ts, pos, level - 1)
      case Failure(_, _) =>
      case Success(left, next) => FoldBuildsCanonical(ts, level, left, next);
    }
  }

  lemma {:induction false} FoldBuildsCanonical(ts: seq<Token>, level: nat, left: Expr, pos: nat)
    requires Wellformed(ts) && pos < |ts| && 1 <= level <= EqualityLevel
    requires Canonical(left) && Binding(left) <= level
    ensures Builds(Fold(ts, level, left, pos), level)
    decreases |ts| - pos, 2 * level + 1
  {
    if Matches(ts, pos, Operators(level)) {
      OnlyItsLevel(ts[pos].kind, level);
      LevelBuildsCanonical(ts, pos + 1, level - 1);
      match Level(ts, pos + 1, level - 1)
      case Failure(_, _) =>
      case Success(right, next) =>
        FoldBuildsCanonical(ts, level, BinaryExpr(left, ts[pos], right), next);
    }
  }

  lemma {:induction false} UnaryBuildsCanonical(ts: seq<Token>, pos: nat)
    requires Wellformed(ts) && pos < |ts|
    ensures Builds(Unary(ts, pos), 0)
    decreases |ts| - pos, 1
  {
    if Matches(ts, pos, UnaryOperators) {
      UnaryBuildsCanonical(ts, pos + 1);
    } else {
      PrimaryBuildsCanonical(ts, pos);
    }
  }

  lemma {:induction false} PrimaryBuildsCanonical(ts: seq<Token>, pos: nat)
    requires Wellformed(ts) && pos < |ts|
    ensures Builds(Primary(ts, pos), -1)
    decreases |ts| - pos, 0
  {
    if Checks(ts, pos, LeftParen) {
      LevelBuildsCanonical(ts, pos + 1, EqualityLevel);
    }
  }

  /** What `parse` returns is canonical, so `Unparse` followed by parsing gives it back. */
  lemma {:induction false} ParsedIsCanonical(ts: seq<Token>, pos: nat)
    requires Wellformed(ts) && pos < |ts|
    ensures Parse(ts, pos).Some? ==> Canonical(Parse(ts, pos).value)
  {
    LevelBuildsCanonical(ts, pos, EqualityLevel);
  }

  /** The tokens of `(a op1 b) op2 c`, in a row. */
  lemma LeftNestedTokens(a: Expr, op1: Token, b: Expr, op2: Token, c: Expr, rest: seq<Token>)
    ensures Unparse(BinaryExpr(BinaryExpr(a, op1, b), op2, c)) + rest
         == Unparse(a) + [op1] + Unparse(b) + [op2] + Unparse(c) + rest
  {
  }

  /** The tokens of `a op1 (b op2 c)`, in a row. */
  lemma RightNestedTokens(a: Expr, op1: Token, b: Expr, op2: Token, c: Expr, rest: seq<Token>)
    ensures Unparse(BinaryExpr(a, op1, BinaryExpr(b, op2, c))) + rest
         == Unparse(a) + [op1] + Unparse(b) + [op2] + Unparse(c) + rest
  {
    var ua, ub, uc := Unparse(a), Unparse(b), Unparse(c);
    assert ua + [op1] + (ub + [op2] + uc) == ua + [op1] + ub + [op2] + uc;
  }

  /** The tokens of `op1 op2 x`, in a row. */
  lemma PrefixedTokens(op1: Token, op2: Token, x: Expr, rest: seq<Token>)
    ensures Unparse(UnaryExpr(op1, UnaryExpr(op2, x))) + rest == [op1, op2] + Unparse(x) + rest
  {
    assert [op1] + ([op2] + Unparse(x)) == [op1, op2] + Unparse(x);
  }

  /** Operators of one level group to the left: `a - b - c` is `(a - b) - c`. */
  lemma {:induction false} LeftAssociative(a: Expr, op1: Token, b: Expr, op2: Token, c: Expr, rest: seq<Token>)
    requires LevelOf(op1.kind) <= EqualityLevel && LevelOf(op2.kind) == LevelOf(op1.kind)
    requires Canonical(a) && Canonical(b) && Canonical(c)
    requires Binding(a) <= LevelOf(op1.kind) && Binding(b) < LevelOf(op1.kind) && Binding(c) < LevelOf(op1.kind)
    requires Wellformed(rest) && LevelOf(rest[0].kind) > EqualityLevel
    ensures Parse(Unparse(a) + [op1] + Unparse(b) + [op2] + Unparse(c) + rest, 0)
         == Some(BinaryExpr(BinaryExpr(a, op1, b), op2, c))
  {
    var e := BinaryExpr(BinaryExpr(a, op1, b), op2, c);
    LeftNestedTokens(a, op1, b, op2, c, rest);
    ParseUnparsed(e, rest);
  }

  /** A tighter operator after a looser one binds first: `a + b * c` is `a + (b * c)`. */
  lemma {:induction false} TighterOnRight(a: Expr, looser: Token, b: Expr, tighter: Token, c: Expr, rest: seq<Token>)
    requires LevelOf(tighter.kind) < LevelOf(looser.kind) <= EqualityLevel
    requires Canonical(a) && Canonical(b) && Canonical(c)
    requires Binding(a) <= LevelOf(looser.kind) && Binding(b) < LevelOf(tighter.kind) && Binding(c) < LevelOf(tighter.kind)
    requires Wellformed(rest) && LevelOf(rest[0].kind) > EqualityLevel
    ensures Parse(Unparse(a) + [looser] + Unparse(b) + [tighter] + Unparse(c) + rest, 0)
         == Some(BinaryExpr(a, looser, BinaryExpr(b, tighter, c)))
  {
    var e := BinaryExpr(a, looser, BinaryExpr(b, tighter, c));
    RightNestedTokens(a, looser, b, tighter, c, rest);
    ParseUnparsed(e, rest);
  }

  /** A tighter operator before a looser one binds first: `a * b + c` is `(a * b) + c`. */
  lemma {:induction false} TighterOnLeft(a: Expr, tighter: Token, b: Expr, looser: Token, c: Expr, rest: seq<Token>)
    requires LevelOf(tighter.kind) < LevelOf(looser.kind) <= EqualityLevel
    requires Canonical(a) && Canonical(b) && Canonical(c)
    requires Binding(a) <= LevelOf(tighter.kind) && Binding(b) < LevelOf(tighter.kind) && Binding(c) < LevelOf(looser.kind)
    requires Wellformed(rest) && LevelOf(rest[0].kind) > EqualityLevel
    ensures Parse(Unparse(a) + [tighter] + Unparse(b) + [looser] + Unparse(c) + rest, 0)
         == Some(BinaryExpr(BinaryExpr(a, tighter, b), looser, c))
  {
    var e := BinaryExpr(BinaryExpr(a, tighter, b), looser, c);
    LeftNestedTokens(a, tighter, b, looser, c, rest);
    ParseUnparsed(e, rest);
  }

  /** Prefix operators nest to the right: `- ! x` is `-(!x)`. */
  lemma {:induction false} PrefixNests(op1: Token, op2: Token, x: Expr, rest: seq<Token>)
    requires op1.kind in UnaryOperators && op2.kind in UnaryOperators
    requires Canonical(x) && Binding(x) <= 0
    requires Wellformed(rest) && LevelOf(rest[0].kind) > EqualityLevel
    ensures Parse([op1, op2] + Unparse(x) + rest, 0) == Some(UnaryExpr(op1, UnaryExpr(op2, x)))
  {
    var e := UnaryExpr(op1, UnaryExpr(op2, x));
    PrefixedTokens(op1, op2, x, rest);
    ParseUnparsed(e, rest);
  }

  /** A failure of `unary` is passed up unchanged through every binary level. */
  lemma {:induction false} UnaryFailurePropagates(ts: seq<Token>, pos: nat, level: nat)
    requires Wellformed(ts) && pos < |ts| && level <= EqualityLevel
    requires Unary(ts, pos).Failure?
    ensures Level(ts, pos, level) == Unary(ts, pos)
  {
    if level > 0 {
      UnaryFailurePropagates(ts, pos, level - 1);
    }
  }

  /**
   * An operand that `unary` reads and that is followed by no binary
   * operator is the whole expression at every level.
   */
  lemma {:induction false} UnaryOperandStops(ts: seq<Token>, pos: nat, level: nat)
    requires Wellformed(ts) && pos < |ts| && level <= EqualityLevel
    requires Unary(ts, pos).Success? && LevelOf(ts[Unary(ts, pos).next].kind) > EqualityLevel
    ensures Level(ts, pos, level) == Unary(ts, pos)
  {
    if level > 0 {
      UnaryOperandStops(ts, pos, level - 1);
      FoldStops(ts, level, Unary(ts, pos).expr, Unary(ts, pos).next);
    }
  }

  /**
   * "Expect expression.": a token that starts no operand (neither a literal,
   * nor `(`, nor a prefix operator; the end of input included) is reported
   * where it stands.
   */
  lemma {:induction false} NoOperand(ts: seq<Token>, pos: nat)
    requires Wellformed(ts) && pos < |ts|
    requires ts[pos].kind !in [False, True, Nil, Number, String, LeftParen, Bang, Minus]
    ensures Expression(ts, pos) == Failure(ParseError(NoExpression, ts[pos]), pos)
    ensures Parse(ts, pos) == None
  {
    UnaryFailurePropagates(ts, pos, EqualityLevel);
  }

  /**
   * "Exppect ')' after expression.": a complete expression after `(` that is
   * followed by anything but `)` fails at that token.
   */
  lemma {:induction false} UnclosedGroup(open: Token, e: Expr, rest: seq<Token>)
    requires open.kind == LeftParen && Canonical(e)
    requires Wellformed(rest) && LevelOf(rest[0].kind) > EqualityLevel && rest[0].kind != RightParen
    ensures Wellformed([open] + Unparse(e) + rest)
    ensures Expression([open] + Unparse(e) + rest, 0)
         == Failure(ParseError(MissingParen, rest[0]), 1 + |Unparse(e)|)
  {
    var ts := [open] + Unparse(e) + rest;
    var end := 1 + Width(e);
    UnparsedFollowed([open], e, rest);
    CanonicalBinding(e);
    UnparsedComplete(ts, 1, e, EqualityLevel);
    GroupUnclosed(ts, 0, e, end);
    UnaryFailurePropagates(ts, 0, EqualityLevel);
  }

  /**
   * With no literal token anywhere in the list, every rule fails: there is
   * nothing for `primary` to stop on.
   */
  predicate NoLiterals(ts: seq<Token>) {
    forall i :: 0 <= i < |ts| ==> ts[i].kind !in [False, True, Nil, Number, String]
  }

  lemma {:induction false} LevelFailsWithoutLiterals(ts: seq<Token>, pos: nat, level: nat)
    requires Wellformed(ts) && pos < |ts| && level <= EqualityLevel && NoLiterals(ts)
    ensures Level(ts, pos, level).Failure?
    decreases |ts| - pos, 2 * level + 2
  {
    if level == 0 {
      UnaryFailsWithoutLiterals(ts, pos);
    } else {
      LevelFailsWithoutLiterals(ts, pos, level - 1);
    }
  }

  lemma {:induction false} UnaryFailsWithoutLiterals(ts: seq<Token>, pos: nat)
    requires Wellformed(ts) && pos < |ts| && NoLiterals(ts)
    ensures Unary(ts, pos).Failure?
    decreases |ts| - pos, 1
  {
    if Matches(ts, pos, UnaryOperators) {
      UnaryFailsWithoutLiterals(ts, pos + 1);
    } else {
      assert ts[pos].kind !in [False, True, Nil, Number, String];
      if Checks(ts, pos, LeftParen) {
        LevelFailsWithoutLiterals(ts, pos + 1, EqualityLevel);
        assert Expression(ts, pos + 1).Failure?;
      }
    }
  }

  /**
   * The scanner of src/scanner/scanner.cpp emits no literal or keyword
   * tokens, so nothing it produces parses: the pipeline as written accepts
   * no source text.
   */
  lemma {:induction false} ScannedTextNeverParses(src: string)
    ensures Wellformed(Lexer.Scan(src))
    ensures Parse(Lexer.Scan(src), 0) == None
  {
    var ts := Lexer.Scan(src);
    Lexer.EndsWithSingleEof(src, 0, 1);
    Lexer.ScannedTokenText(src, 0, 1);
    forall i | 0 <= i < |ts| ensures ts[i].kind !in [False, True, Nil, Number, String] {
      assert ts[i] in ts;
    }
    LevelFailsWithoutLiterals(ts, 0, EqualityLevel);
  }

  /** `true == "s"` on line 3: a keyword literal and a string literal compared. */
  lemma LiteralsOnAnyLine()
    ensures var eq := Token(EqualEqual, "==", "", 3);
      Parse([Token(True, "true", "", 3), eq, Token(String, "\"s\"", "s", 3), EofToken(3)], 0)
      == Some(BinaryExpr(Literal("true"), eq, Literal("s")))
  {
    var eq := Token(EqualEqual, "==", "", 3);
    var ts := [Token(True, "true", "", 3), eq, Token(String, "\"s\"", "s", 3), EofToken(3)];
    var e := BinaryExpr(Literal("true"), eq, Literal("s"));
    assert LaidOut(ts, 0, e);
    ParseLaidOut(ts, 0, e);
  }

  const Plus1: Token := Token(Plus, "+", "", 1)
  const Minus1: Token := Token(Minus, "-", "", 1)
  const Star1: Token := Token(Star, "*", "", 1)
  const Bang1: Token := Token(Bang, "!", "", 1)
  const True1: Token := Token(True, "true", "", 1)
  const GreaterEqual1: Token := Token(GreaterEqual, ">=", "", 1)

  /** `1 + 2 * 3` is `1 + (2 * 3)`. */
  lemma {:induction false} PrecedenceExample()
    ensures Parse([Num("1"), Plus1, Num("2"), Star1, Num("3"), EofToken(1)], 0)
         == Some(BinaryExpr(Literal("1"), Plus1, BinaryExpr(Literal("2"), Star1, Literal("3"))))
  {
    var ts := [Num("1"), Plus1, Num("2"), Star1, Num("3"), EofToken(1)];
    assert ts == Unparse(Literal("1")) + [Plus1] + Unparse(Literal("2")) + [Star1] + Unparse(Literal("3")) + [EofToken(1)];
    TighterOnRight(Literal("1"), Plus1, Literal("2"), Star1, Literal("3"), [EofToken(1)]);
  }

  /** `1 - 2 - 3` is `(1 - 2) - 3`. */
  lemma {:induction false} AssociativityExample()
    ensures Parse([Num("1"), Minus1, Num("2"), Minus1, Num("3"), EofToken(1)], 0)
         == Some(BinaryExpr(BinaryExpr(Literal("1"), Minus1, Literal("2")), Minus1, Literal("3")))
  {
    var ts := [Num("1"), Minus1, Num("2"), Minus1, Num("3"), EofToken(1)];
    assert ts == Unparse(Literal("1")) + [Minus1] + Unparse(Literal("2")) + [Minus1] + Unparse(Literal("3")) + [EofToken(1)];
    LeftAssociative(Literal("1"), Minus1, Literal("2"), Minus1, Literal("3"), [EofToken(1)]);
  }

  /** `- ! true` is `-(!true)`. */
  lemma {:induction false} PrefixExample()
    ensures Parse([Minus1, Bang1, True1, EofToken(1)], 0)
         == Some(UnaryExpr(Minus1, UnaryExpr(Bang1, Literal("true"))))
  {
    var ts := [Minus1, Bang1, True1, EofToken(1)];
    assert Unary(ts, 2) == Success(Literal("true"), 3);
    assert Unary(ts, 0) == Success(UnaryExpr(Minus1, UnaryExpr(Bang1, Literal("true"))), 3);
    UnaryOperandStops(ts, 0, EqualityLevel);
  }

  /** `>=` is in no level's list, so `1 >= 2` parses as just `1`. */
  lemma {:induction false} GreaterEqualEndsExpression()
    ensures Parse([Num("1"), GreaterEqual1, Num("2"), EofToken(1)], 0) == Some(Literal("1"))
  {
    assert [Num("1"), GreaterEqual1, Num("2"), EofToken(1)] == Unparse(Literal("1")) + [GreaterEqual1, Num("2"), EofToken(1)];
    ParseUnparsed(Literal("1"), [GreaterEqual1, Num("2"), EofToken(1)]);
  }

  /** `( 1 + 2` with no `)` fails with the misspelt message at the end-of-input token. */
  lemma {:induction false} MissingParenExample()
    ensures Expression([OpenParen, Num("1"), Plus1, Num("2"), EofToken(1)], 0)
         == Failure(ParseError("Exppect ')' after expression.", EofToken(1)), 4)
  {
    var e := BinaryExpr(Literal("1"), Plus1, Literal("2"));
    assert [OpenParen, Num("1"), Plus1, Num("2"), EofToken(1)] == [OpenParen] + Unparse(e) + [EofToken(1)];
    UnclosedGroup(OpenParen, e, [EofToken(1)]);
  }
}
