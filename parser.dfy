/**
 * The Parser object of src/parser/parser.cpp: a token list and a `current`
 * cursor that advance/match/consume move forward. Each grammar method is
 * proved to return what the Grammar function of the same rule gives for
 * the cursor it started at, and to leave `current` where that function says.
 * A thrown ParseError is an `Err` result that every caller passes on.
 */
module Parsing {
  import opened Wrappers
  import opened Tokens
  import opened Grammar

  class Parser {
    const tokens: seq<Token>
    var current: nat

    ghost predicate Valid()
      reads this
    {
      Wellformed(tokens) && current < |tokens|
    }

    /** The method's result and final cursor are those of the Grammar outcome `spec`. */
    ghost predicate Reached(r: Result<Expr, ParseError>, spec: Outcome)
      reads this
    {
      match spec
      case Success(e, next) => r == Ok(e) && current == next
      case Failure(err, at) => r == Err(err) && current == at
    }

    constructor (tokens: seq<Token>)
      ensures this.tokens == tokens && current == 0
    {
      this.tokens := tokens;
      current := 0;
    }

    /** peek */
    function Peek(): (t: Token)
      reads this
      requires Valid()
      ensures current == |tokens| - 1 ==> t.kind == EndOfFile
    {
      tokens[current]
    }

    /** previous: only defined once something has been consumed. */
    function Previous(): Token
      reads this
      requires Valid() && current >= 1
    {
      tokens[current - 1]
    }

    /** isAtEnd */
    predicate IsAtEnd()
      reads this
      requires Valid()
      ensures current == |tokens| - 1 ==> IsAtEnd()
    {
      Peek().kind == EndOfFile
    }

    /** check: false at the end of input for every kind. */
    predicate Check(kind: TokenType)
      reads this
      requires Valid()
      ensures Check(kind) ==> Peek().kind == kind && Peek().kind != EndOfFile && current + 1 < |tokens|
    {
      if IsAtEnd() then false else Peek().kind == kind
    }

    /**
     * advance: step over the current token unless it ends the input, and
     * return the token just passed. At position 0 on the end-of-input token
     * `previous()` would read before the list, so that call is excluded.
     */
    method Advance() returns (t: Token)
      requires Valid() && (current >= 1 || !IsAtEnd())
      modifies this
      ensures Valid()
      ensures current == if old(IsAtEnd()) then old(current) else old(current) + 1
      ensures t == tokens[current - 1]
    {
      if !IsAtEnd() {
        current := current + 1;
      }
      t := Previous();
    }

    /**
     * match: consume one token when it is one of `kinds`, and say so; the
     * cursor does not move otherwise, and the end-of-input token is never consumed.
     */
    method Match(kinds: seq<TokenType>) returns (matched: bool)
      requires Valid()
      modifies this
      ensures Valid()
      ensures matched == Matches(tokens, old(current), kinds)
      ensures current == if matched then old(current) + 1 else old(current)
      ensures matched ==> tokens[old(current)].kind in kinds && tokens[old(current)].kind != EndOfFile
    {
      for i := 0 to |kinds|
        invariant current == old(current)
        invariant forall j :: 0 <= j < i ==> !Check(kinds[j])
      {
        if Check(kinds[i]) {
          var passed := Advance();
          return true;
        }
      }
      return false;
    }

    /** consume: take a token of `kind`, or fail with `message` at the current token. */
    method Consume(kind: TokenType, message: string) returns (r: Result<Token, ParseError>)
      requires Valid()
      modifies this
      ensures Valid()
      ensures Checks(tokens, old(current), kind) ==>
        r == Ok(tokens[old(current)]) && current == old(current) + 1
      ensures !Checks(tokens, old(current), kind) ==>
        r == Err(ParseError(message, tokens[old(current)])) && current == old(current)
    {
      if Check(kind) {
        var t := Advance();
        return Ok(t);
      }
      return Err(Error(Peek(), message));
    }

    /**
     * error: builds the ParseError for `token`; both branches of its
     * end-of-input test are empty, so nothing is reported anywhere.
     */
    function Error(token: Token, message: string): ParseError {
      ParseError(message, token)
    }

    /** expression */
    method Expression() returns (r: Result<Expr, ParseError>)
      requires Valid()
      modifies this
      ensures Valid() && Reached(r, Grammar.Expression(tokens, old(current)))
      decreases |tokens| - current, 11
    {
      r := Equality();
    }

    /** equality: comparison { ("!=" | "==") comparison } */
    method Equality() returns (r: Result<Expr, ParseError>)
      requires Valid()
      modifies this
      ensures Valid() && Reached(r, Level(tokens, old(current), EqualityLevel))
      decreases |tokens| - current, 10
    {
      r := Comparison();
      if r.Err? {
        return;
      }
      var expr := r.value;
      while true
        invariant Valid() && old(current) <= current
        invariant Fold(tokens, EqualityLevel, expr, current) == Level(tokens, old(current), EqualityLevel)
        decreases |tokens| - current
      {
        var more := Match([BangEqual, EqualEqual]);
        if !more {
          break;
        }
        var operator := Previous();
        var right := Comparison();
        if right.Err? {
          return right;
        }
        expr := BinaryExpr(expr, operator, right.value);
      }
      return Ok(expr);
    }

    /** comparison: term { (">" | "<" | "<=") term }, without ">=" */
    method Comparison() returns (r: Result<Expr, ParseError>)
      requires Valid()
      modifies this
      ensures Valid() && Reached(r, Level(tokens, old(current), ComparisonLevel))
      decreases |tokens| - current, 8
    {
      r := Term();
      if r.Err? {
        return;
      }
      var expr := r.value;
      while true
        invariant Valid() && old(current) <= current
        invariant Fold(tokens, ComparisonLevel, expr, current) == Level(tokens, old(current), ComparisonLevel)
        decreases |tokens| - current
      {
        var more := Match([Greater, Less, LessEqual]);
        if !more {
          break;
        }
        var operator := Previous();
        var right := Term();
        if right.Err? {
          return right;
        }
        expr := BinaryExpr(expr, operator, right.value);
      }
      return Ok(expr);
    }

    /** term: factor { ("-" | "+") factor } */
    method Term() returns (r: Result<Expr, ParseError>)
      requires Valid()
      modifies this
      ensures Valid() && Reached(r, Level(tokens, old(current), TermLevel))
      decreases |tokens| - current, 6
    {
      r := Factor();
      if r.Err? {
        return;
      }
      var expr := r.value;
      while true
        invariant Valid() && old(current) <= current
        invariant Fold(tokens, TermLevel, expr, current) == Level(tokens, old(current), TermLevel)
        decreases |tokens| - current
      {
        var more := Match([Minus, Plus]);
        if !more {
          break;
        }
        var operator := Previous();
        var right := Factor();
        if right.Err? {
          return right;
        }
        expr := BinaryExpr(expr, operator, right.value);
      }
      return Ok(expr);
    }

    /** factor: unary { ("/" | "*") unary } */
    method Factor() returns (r: Result<Expr, ParseError>)
      requires Valid()
      modifies this
      ensures Valid() && Reached(r, Level(tokens, old(current), FactorLevel))
      decreases |tokens| - current, 4
    {
      r := Unary();
      if r.Err? {
        return;
      }
      var expr := r.value;
      while true
        invariant Valid() && old(current) <= current
        invariant Fold(tokens, FactorLevel, expr, current) == Level(tokens, old(current), FactorLevel)
        decreases |tokens| - current
      {
        var more := Match([Slash, Star]);
        if !more {
          break;
        }
        var operator := Previous();
        var right := Unary();
        if right.Err? {
          return right;
        }
        expr := BinaryExpr(expr, operator, right.value);
      }
      return Ok(expr);
    }

    /** unary: ("!" | "-") unary | primary */
    method Unary() returns (r: Result<Expr, ParseError>)
      requires Valid()
      modifies this
      ensures Valid() && Reached(r, Grammar.Unary(tokens, old(current)))
      decreases |tokens| - current, 2
    {
      var prefixed := Match([Bang, Minus]);
      if prefixed {
        var operator := Previous();
        var right := Unary();
        if right.Err? {
          return right;
        }
        return Ok(UnaryExpr(operator, right.value));
      }
      r := Primary();
    }

    /** primary */
    method Primary() returns (r: Result<Expr, ParseError>)
      requires Valid()
      modifies this
      ensures Valid() && Reached(r, Grammar.Primary(tokens, old(current)))
      decreases |tokens| - current, 1
    {
      ghost var pos := current;
      ghost var spec := Grammar.Primary(tokens, pos);
      var found := Match([False]);
      assert found == Checks(tokens, pos, False);
      if found {
        assert spec == Success(Literal("false"), pos + 1);
        return Ok(Literal("false"));
      }
      found := Match([True]);
      assert found == Checks(tokens, pos, True);
      if found {
        assert spec == Success(Literal("true"), pos + 1);
        return Ok(Literal("true"));
      }
      found := Match([Nil]);
      assert found == Checks(tokens, pos, Nil);
      if found {
        assert spec == Success(Literal("nil"), pos + 1);
        return Ok(Literal("nil"));
      }
      found := Match([Number, String]);
      if found {
        assert spec == Success(Literal(tokens[pos].literal), pos + 1);
        return Ok(Literal(Previous().literal));
      }
      found := Match([LeftParen]);
      assert found == Checks(tokens, pos, LeftParen);
      if found {
        var inner := Expression();
        if inner.Err? {
          return inner;
        }
        var closing := Consume(RightParen, MissingParen);
        if closing.Err? {
          return Err(closing.error);
        }
        return Ok(GroupingExpr(inner.value));
      }
      assert spec == Failure(ParseError(NoExpression, tokens[pos]), pos);
      return Err(Error(Peek(), NoExpression));
    }

    /** parse: the expression, or nothing (the null pointer) when a ParseError was thrown. */
    method Parse() returns (e: Option<Expr>)
      requires Valid()
      modifies this
      ensures Valid()
      ensures e == Grammar.Parse(tokens, old(current))
      ensures match Grammar.Expression(tokens, old(current))
        case Success(_, next) => current == next
        case Failure(_, at) => current == at
    {
      var r := Expression();
      match r
      case Ok(x) => e := Some(x);
      case Err(_) => e := None;
    }
  }
}
