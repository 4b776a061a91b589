/**
 * Tokens of the Lox front end (src/scanner/token.hpp, src/scanner/token.cpp).
 * A token is an immutable value: the constructor stores its four arguments
 * and nothing ever changes them, so a Dafny datatype is the whole story.
 */
module Tokens {

  /** The token kinds, in the order and groups of the enum. */
  datatype TokenType =
    // single-character tokens
    | LeftParen | RightParen | LeftBrace | RightBrace | Comma | Dot
    | Minus | Plus | Semicolon | Slash | Star
    // one- or two-character tokens
    | Bang | BangEqual | Equal | EqualEqual
    | Greater | GreaterEqual | Less | LessEqual
    // literals
    | Identifier | String | Number
    // reserved keywords
    | And | Class | Else | False | Fun | For | If | Nil | Or
    | Print | Return | Super | This | True | Var | While
    | EndOfFile

  /** The literal text is kept (not converted) for these three kinds only. */
  predicate HasLiteral(kind: TokenType) {
    kind == Identifier || kind == String || kind == Number
  }

  /** The reserved keywords: identifiers with a kind of their own. */
  predicate IsKeyword(kind: TokenType) {
    kind in {And, Class, Else, False, Fun, For, If, Nil, Or,
             Print, Return, Super, This, True, Var, While}
  }

  /**
   * type, lexeme, literal text and line; `line` is the C++ `int`, taken as
   * unbounded here.
   */
  datatype Token = Token(kind: TokenType, lexeme: string, literal: string, line: int)
  {
    /** Token::toString: the literal for literal kinds, the lexeme otherwise. */
    function ToString(): string {
      if HasLiteral(kind) then literal else lexeme
    }
  }

  /**
   * toString by kind: the literal text for identifiers, strings and
   * numbers, the lexeme for every other kind, reserved keywords and the end
   * of input included.
   */
  lemma ToStringByKind(t: Token)
    ensures t.kind in {Identifier, String, Number} ==> t.ToString() == t.literal
    ensures t.kind !in {Identifier, String, Number} ==> t.ToString() == t.lexeme
    ensures IsKeyword(t.kind) || t.kind == EndOfFile ==> t.ToString() == t.lexeme
  {
  }

  /** The end-of-input token the scanner appends, on the line it ends on. */
  function EofToken(line: int): Token {
    Token(EndOfFile, "", "", line)
  }
}
