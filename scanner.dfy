/**
 * The scanner of src/scanner/scanner.cpp.
 *
 * `ScanFrom` is the specification: what the scanner produces from a cursor
 * position and a line number, one lexeme at a time. The class `Scanner`
 * is the source's object, with its `start`/`current`/`line` cursors and its
 * growing token list, and its methods are proved to follow `ScanFrom`.
 *
 * Only the cases the switch lists are modelled: string, number and
 * identifier lexing and the keyword table have no bodies in the source.
 */
module Lexer {
  import opened Wrappers
  import opened Tokens
  import opened Seqs

  /** The characters the switch has a case for; every other one is skipped. */
  const Listed: set<char> :=
    {'(', ')', '{', '}', ',', '.', '-', '+', ';', '*', '!', '=', '<', '>', '/',
     ' ', '\r', '\t', '\n'}

  /** Every lexeme the scanner can emit, with its kind. */
  const LexemeKinds: map<string, TokenType> :=
    map["(" := LeftParen, ")" := RightParen, "{" := LeftBrace, "}" := RightBrace,
        "," := Comma, "." := Dot, "-" := Minus, "+" := Plus, ";" := Semicolon,
        "*" := Star, "/" := Slash,
        "!" := Bang, "!=" := BangEqual, "=" := Equal, "==" := EqualEqual,
        "<" := Less, "<=" := LessEqual, ">" := Greater, ">=" := GreaterEqual]

  /** One iteration of the scan loop: the kind emitted, if any, and where the next lexeme starts. */
  datatype Step = Step(kind: Option<TokenType>, end: nat)

  /** matchAndAdvance's test: the character at `i` exists and is `expected`. */
  predicate NextIs(src: string, i: nat, expected: char) {
    i < |src| && src[i] == expected
  }

  /** `c` or `c=`: the two-character kind when an `=` follows. */
  function OneOrTwo(src: string, start: nat, two: TokenType, one: TokenType): Step {
    if NextIs(src, start + 1, '=') then Step(Some(two), start + 2) else Step(Some(one), start + 1)
  }

  /**
   * Where a `//` comment whose text starts at `i` stops: at the first
   * newline (which is left for the next lexeme) or at the end of input.
   */
  function CommentEnd(src: string, i: nat): (e: nat)
    requires i <= |src|
    ensures i <= e <= |src|
    ensures e == |src| || src[e] == '\n'
    ensures forall k :: i <= k < e ==> src[k] != '\n'
    decreases |src| - i
  {
    if i == |src| || src[i] == '\n' then i else CommentEnd(src, i + 1)
  }

  /**
   * The lexeme starting at `start` (scanAndAddToken). Each step consumes at
   * least one character, and only its first character can be a newline.
   */
  function ScanStep(src: string, start: nat): (s: Step)
    requires start < |src|
    ensures start < s.end <= |src|
    ensures forall k :: start < k < s.end ==> src[k] != '\n'
    ensures s.kind != Some(EndOfFile)
  {
    match src[start]
    case '(' => Step(Some(LeftParen), start + 1)
    case ')' => Step(Some(RightParen), start + 1)
    case '{' => Step(Some(LeftBrace), start + 1)
    case '}' => Step(Some(RightBrace), start + 1)
    case ',' => Step(Some(Comma), start + 1)
    case '.' => Step(Some(Dot), start + 1)
    case '-' => Step(Some(Minus), start + 1)
    case '+' => Step(Some(Plus), start + 1)
    case ';' => Step(Some(Semicolon), start + 1)
    case '*' => Step(Some(Star), start + 1)
    case '!' => OneOrTwo(src, start, BangEqual, Bang)
    case '=' => OneOrTwo(src, start, EqualEqual, Equal)
    case '<' => OneOrTwo(src, start, LessEqual, Less)
    case '>' => OneOrTwo(src, start, GreaterEqual, Greater)
    case '/' =>
      if NextIs(src, start + 1, '/') then Step(None, CommentEnd(src, start + 2))
      else Step(Some(Slash), start + 1)
    case _ => Step(None, start + 1)
  }

  /** The line counter after the lexeme at `start`: only a newline character moves it. */
  function LineAfter(src: string, start: nat, line: int): int
    requires start < |src|
  {
    if src[start] == '\n' then line + 1 else line
  }

  /** The token a step adds (addToken), with an empty literal, or nothing. */
  function Emitted(src: string, start: nat, s: Step, line: int): seq<Token>
    requires start <= s.end <= |src|
  {
    if s.kind.Some? then [Token(s.kind.value, src[start..s.end], "", line)] else []
  }

  /** The tokens scanned from position `pos` on line `line`, end-of-input token included. */
  function ScanFrom(src: string, pos: nat, line: int): seq<Token>
    requires pos <= |src|
    decreases |src| - pos
  {
    if pos == |src| then [EofToken(line)]
    else
      var s := ScanStep(src, pos);
      Emitted(src, pos, s, line) + ScanFrom(src, s.end, LineAfter(src, pos, line))
  }

  /** What a fresh scanner returns for `src`. */
  function Scan(src: string): seq<Token> {
    ScanFrom(src, 0, 1)
  }

  /** Where each emitted lexeme of ScanFrom(src, pos, _) starts. */
  ghost function Starts(src: string, pos: nat): seq<nat>
    requires pos <= |src|
    decreases |src| - pos
  {
    if pos == |src| then []
    else
      var s := ScanStep(src, pos);
      (if s.kind.Some? then [pos] else []) + Starts(src, s.end)
  }

  // ---------------------------------------------------------------------
  // Properties of the specification
  // ---------------------------------------------------------------------

  /** Exactly one end-of-input token, last, with empty lexeme and literal. */
  predicate EndsWithEof(ts: seq<Token>) {
    && |ts| >= 1
    && ts[|ts| - 1].kind == EndOfFile && ts[|ts| - 1].lexeme == "" && ts[|ts| - 1].literal == ""
    && forall i :: 0 <= i < |ts| - 1 ==> ts[i].kind != EndOfFile
  }

  lemma {:induction false} EndsWithSingleEof(src: string, pos: nat, line: int)
    requires pos <= |src|
    ensures EndsWithEof(ScanFrom(src, pos, line))
    decreases |src| - pos
  {
    if pos < |src| {
      var s := ScanStep(src, pos);
      var emitted, rest := Emitted(src, pos, s, line), ScanFrom(src, s.end, LineAfter(src, pos, line));
      EndsWithSingleEof(src, s.end, LineAfter(src, pos, line));
      assert ScanFrom(src, pos, line) == emitted + rest;
      assert forall t | t in emitted :: t.kind != EndOfFile;
    }
  }

  /** Skipping characters that are not newlines leaves the newline count of the rest unchanged. */
  lemma NoNewlineBetween(src: string, i: nat, j: nat)
    requires i <= j <= |src|
    requires forall k :: i <= k < j ==> src[k] != '\n'
    ensures multiset(src[i..])['\n'] == multiset(src[j..])['\n']
  {
    assert src[i..] == src[i..j] + src[j..];
    assert '\n' !in src[i..j];
  }

  /** The end-of-input token's line is the starting line plus the number of newlines scanned. */
  lemma {:induction false} FinalLineCountsNewlines(src: string, pos: nat, line: int)
    requires pos <= |src|
    ensures |ScanFrom(src, pos, line)| >= 1
    ensures Last(ScanFrom(src, pos, line)).line == line + multiset(src[pos..])['\n']
    decreases |src| - pos
  {
    if pos < |src| {
      var s := ScanStep(src, pos);
      FinalLineCountsNewlines(src, s.end, LineAfter(src, pos, line));
      NewlinesAfterStep(src, pos, s.end);
    }
  }

  /** The newlines from `pos` on are the step's own (only its first character) and those after it. */
  lemma NewlinesAfterStep(src: string, pos: nat, e: nat)
    requires pos < e <= |src|
    requires forall k :: pos < k < e ==> src[k] != '\n'
    ensures multiset(src[pos..])['\n'] == (if src[pos] == '\n' then 1 else 0) + multiset(src[e..])['\n']
  {
    NoNewlineBetween(src, pos + 1, e);
    assert src[pos..] == [src[pos]] + src[pos + 1..];
  }

  function Last<T>(s: seq<T>): T
    requires |s| > 0
  {
    s[|s| - 1]
  }

  /** For a whole source: the last line is 1 plus the newlines of the source. */
  lemma ScanLineCount(src: string)
    ensures |Scan(src)| >= 1 && Last(Scan(src)).line == 1 + multiset(src)['\n']
  {
    FinalLineCountsNewlines(src, 0, 1);
    assert src[0..] == src;
  }

  /** No token line is below `line`, and lines never decrease along the list. */
  predicate LinesFrom(ts: seq<Token>, line: int) {
    && (forall i :: 0 <= i < |ts| ==> line <= ts[i].line)
    && (forall i :: 0 < i < |ts| ==> ts[i - 1].line <= ts[i].line)
  }

  lemma {:induction false} LinesNonDecreasing(src: string, pos: nat, line: int)
    requires pos <= |src|
    ensures LinesFrom(ScanFrom(src, pos, line), line)
    decreases |src| - pos
  {
    if pos < |src| {
      var s := ScanStep(src, pos);
      var emitted, rest := Emitted(src, pos, s, line), ScanFrom(src, s.end, LineAfter(src, pos, line));
      LinesNonDecreasing(src, s.end, LineAfter(src, pos, line));
      EndsWithSingleEof(src, s.end, LineAfter(src, pos, line));
      var ts := ScanFrom(src, pos, line);
      assert ts == emitted + rest;
      if emitted != [] {
        assert ts[0].line == line && ts[1] == rest[0];
        forall i | 1 <= i < |ts| ensures ts[i] == rest[i - 1] {}
      }
    }
  }

  /** An emitted lexeme is in the lexeme table under the kind the step gives it. */
  lemma StepKind(src: string, start: nat)
    requires start < |src|
    ensures var s := ScanStep(src, start);
      s.kind.Some? ==>
        src[start..s.end] in LexemeKinds && LexemeKinds[src[start..s.end]] == s.kind.value
  {
    var s := ScanStep(src, start);
    if s.kind.Some? {
      if s.end == start + 1 {
        assert src[start..s.end] == [src[start]];
      } else {
        assert src[start..s.end] == [src[start], '='];
      }
    }
  }

  /** A token the scanner emits: its lexeme is in the table, its kind is the table's, its literal is empty. */
  predicate FromTable(t: Token) {
    t.lexeme in LexemeKinds && LexemeKinds[t.lexeme] == t.kind && t.literal == ""
  }

  /** No kind in the table is a literal, keyword or end-of-input kind. */
  lemma TableKinds(lexeme: string)
    requires lexeme in LexemeKinds
    ensures var k := LexemeKinds[lexeme]; !HasLiteral(k) && !IsKeyword(k) && k != EndOfFile
  {
  }

  /**
   * Every token before the end-of-input token has a lexeme from the table
   * and exactly the table's kind for it, with an empty literal.
   */
  lemma {:induction false} ScannedKinds(src: string, pos: nat, line: int)
    requires pos <= |src|
    ensures forall i :: 0 <= i < |ScanFrom(src, pos, line)| - 1 ==> FromTable(ScanFrom(src, pos, line)[i])
    decreases |src| - pos
  {
    if pos < |src| {
      var s := ScanStep(src, pos);
      var emitted, rest := Emitted(src, pos, s, line), ScanFrom(src, s.end, LineAfter(src, pos, line));
      StepKind(src, pos);
      ScannedKinds(src, s.end, LineAfter(src, pos, line));
      var ts := ScanFrom(src, pos, line);
      assert ts == emitted + rest;
      forall i | 0 <= i < |ts| - 1 ensures FromTable(ts[i]) {
        if i < |emitted| {
          assert ts[i] == emitted[i];
        } else {
          assert ts[i] == rest[i - |emitted|];
        }
      }
    }
  }

  /**
   * So the scanner never emits a literal, identifier or keyword kind, and
   * toString of each of its tokens is the lexeme: the empty string for the
   * end-of-input token.
   */
  lemma ScannedTokenText(src: string, pos: nat, line: int)
    requires pos <= |src|
    ensures |ScanFrom(src, pos, line)| >= 1
    ensures forall t | t in ScanFrom(src, pos, line) :: !HasLiteral(t.kind) && !IsKeyword(t.kind)
    ensures forall t | t in ScanFrom(src, pos, line) :: t.ToString() == t.lexeme
    ensures Last(ScanFrom(src, pos, line)).ToString() == ""
  {
    var ts := ScanFrom(src, pos, line);
    ScannedKinds(src, pos, line);
    EndsWithSingleEof(src, pos, line);
    forall t | t in ts ensures !HasLiteral(t.kind) && !IsKeyword(t.kind) {
      var i :| 0 <= i < |ts| && ts[i] == t;
      if i < |ts| - 1 {
        TableKinds(t.lexeme);
      }
    }
  }

  /**
   * `st` gives where each lexeme of `ts` (all but the last token) was cut
   * from: non-empty slices of `src` from `pos` on, in order, not overlapping.
   */
  predicate Tiles(src: string, pos: nat, ts: seq<Token>, st: seq<nat>) {
    && |st| == |ts| - 1
    && (forall i :: 0 <= i < |st| ==>
          && pos <= st[i] && 0 < |ts[i].lexeme| && st[i] + |ts[i].lexeme| <= |src|
          && ts[i].lexeme == src[st[i]..st[i] + |ts[i].lexeme|])
    && (forall i :: 0 < i < |st| ==> st[i - 1] + |ts[i - 1].lexeme| <= st[i])
  }

  /** Prepending the lexeme src[pos..e) to a tiling of src from e gives a tiling from pos. */
  lemma TilesCons(src: string, pos: nat, e: nat, t: Token, ts: seq<Token>, st: seq<nat>, ts': seq<Token>, st': seq<nat>)
    requires pos < e <= |src| && t.lexeme == src[pos..e]
    requires Tiles(src, e, ts, st)
    requires ts' == [t] + ts && st' == [pos] + st
    ensures Tiles(src, pos, ts', st')
  {
    forall i | 1 <= i < |st'| ensures ts'[i] == ts[i - 1] && st'[i] == st[i - 1] {}
  }

  /** A tiling of src from `e` is one from any earlier `pos`. */
  lemma TilesLater(src: string, pos: nat, e: nat, ts: seq<Token>, st: seq<nat>, ts': seq<Token>, st': seq<nat>)
    requires pos <= e && Tiles(src, e, ts, st)
    requires ts' == ts && st' == st
    ensures Tiles(src, pos, ts', st')
  {
  }

  /** Lexemes tile the source left to right, so there are at most |src| - pos of them. */
  lemma {:induction false} LexemesTile(src: string, pos: nat, line: int)
    requires pos <= |src|
    ensures Tiles(src, pos, ScanFrom(src, pos, line), Starts(src, pos))
    ensures |ScanFrom(src, pos, line)| <= |src| - pos + 1
    decreases |src| - pos
  {
    if pos < |src| {
      var s := ScanStep(src, pos);
      var rest := ScanFrom(src, s.end, LineAfter(src, pos, line));
      LexemesTile(src, s.end, LineAfter(src, pos, line));
      if s.kind.Some? {
        var t := Token(s.kind.value, src[pos..s.end], "", line);
        TilesCons(src, pos, s.end, t, rest, Starts(src, s.end), ScanFrom(src, pos, line), Starts(src, pos));
      } else {
        TilesLater(src, pos, s.end, rest, Starts(src, s.end), ScanFrom(src, pos, line), Starts(src, pos));
      }
    }
  }

  /**
   * Each token carries the line its lexeme starts on: the starting line
   * plus the newlines between `pos` and the lexeme's first character.
   */
  lemma {:induction false} TokenLines(src: string, pos: nat, line: int)
    requires pos <= |src|
    ensures |Starts(src, pos)| == |ScanFrom(src, pos, line)| - 1
    ensures forall i :: 0 <= i < |Starts(src, pos)| ==>
      pos <= Starts(src, pos)[i] <= |src| &&
      ScanFrom(src, pos, line)[i].line == line + multiset(src[pos..Starts(src, pos)[i]])['\n']
    decreases |src| - pos
  {
    if pos < |src| {
      var s := ScanStep(src, pos);
      var next := LineAfter(src, pos, line);
      TokenLines(src, s.end, next);
      var ts, st := ScanFrom(src, pos, line), Starts(src, pos);
      var rest, later := ScanFrom(src, s.end, next), Starts(src, s.end);
      var skip := if s.kind.Some? then 1 else 0;
      assert ts == Emitted(src, pos, s, line) + rest;
      assert st == (if s.kind.Some? then [pos] else []) + later;
      forall i | 0 <= i < |st|
        ensures pos <= st[i] <= |src| && ts[i].line == line + multiset(src[pos..st[i]])['\n']
      {
        if i < skip {
          assert st[i] == pos && ts[i].line == line;
        } else {
          assert st[i] == later[i - skip] && ts[i] == rest[i - skip];
          NewlinesAcrossStep(src, pos, s.end, st[i]);
        }
      }
    }
  }

  /** The newlines from `pos` to `q` are the step's own (only its first character) and those after it. */
  lemma NewlinesAcrossStep(src: string, pos: nat, e: nat, q: nat)
    requires pos < e <= q <= |src|
    requires forall k :: pos < k < e ==> src[k] != '\n'
    ensures multiset(src[pos..q])['\n'] == (if src[pos] == '\n' then 1 else 0) + multiset(src[e..q])['\n']
  {
    assert src[pos..q] == [src[pos]] + src[pos + 1..e] + src[e..q];
    assert '\n' !in src[pos + 1..e];
  }

  /**
   * `!`, `=`, `<` and `>` take a following `=` into a two-character lexeme
   * and stand alone otherwise; the kind is the one the table gives the lexeme.
   */
  lemma OperatorMunch(src: string, pos: nat, line: int)
    requires pos < |src| && src[pos] in {'!', '=', '<', '>'}
    ensures |ScanFrom(src, pos, line)| >= 2
    ensures var t := ScanFrom(src, pos, line)[0];
      && t.lexeme == (if NextIs(src, pos + 1, '=') then [src[pos], '='] else [src[pos]])
      && t.lexeme in LexemeKinds && t.kind == LexemeKinds[t.lexeme]
      && t.line == line
  {
    StepKind(src, pos);
    var s := ScanStep(src, pos);
    EndsWithSingleEof(src, s.end, line);
    if NextIs(src, pos + 1, '=') {
      assert src[pos..s.end] == [src[pos], '='];
    } else {
      assert src[pos..s.end] == [src[pos]];
    }
  }

  /** A `/` not followed by `/` is a Slash token. */
  lemma LoneSlash(src: string, pos: nat, line: int)
    requires pos < |src| && src[pos] == '/' && !NextIs(src, pos + 1, '/')
    ensures ScanFrom(src, pos, line) == [Token(Slash, "/", "", line)] + ScanFrom(src, pos + 1, line)
  {
    assert src[pos..pos + 1] == "/";
  }

  /**
   * `//` discards everything up to, not including, the next newline (or to
   * the end of input) and emits nothing.
   */
  lemma LineComment(src: string, pos: nat, line: int, e: nat)
    requires pos + 2 <= e <= |src| && src[pos] == '/' && src[pos + 1] == '/'
    requires forall k :: pos + 2 <= k < e ==> src[k] != '\n'
    requires e == |src| || src[e] == '\n'
    ensures ScanFrom(src, pos, line) == ScanFrom(src, e, line)
  {
    assert CommentEnd(src, pos + 2) == e;
  }

  /** A character with no case in the switch produces no token and does not move the line. */
  lemma UnlistedSkipped(src: string, pos: nat, line: int)
    requires pos < |src| && src[pos] !in Listed
    ensures ScanFrom(src, pos, line) == ScanFrom(src, pos + 1, line)
  {
  }

  /** Whitespace and newlines produce no token; a newline counts one line. */
  lemma WhitespaceSkipped(src: string, pos: nat, line: int)
    requires pos < |src| && src[pos] in {' ', '\r', '\t', '\n'}
    ensures ScanFrom(src, pos, line)
         == ScanFrom(src, pos + 1, if src[pos] == '\n' then line + 1 else line)
  {
  }

  /** A source with no listed character at all scans to the end-of-input token alone. */
  lemma {:induction false} NothingListedOnlyEof(src: string, pos: nat, line: int)
    requires pos <= |src|
    requires forall k :: pos <= k < |src| ==> src[k] !in Listed
    ensures ScanFrom(src, pos, line) == [EofToken(line)]
    decreases |src| - pos
  {
    if pos < |src| {
      NothingListedOnlyEof(src, pos + 1, line);
    }
  }

  /** Punctuation-only input: each character becomes its own token, in order. */
  lemma PunctuationExample()
    ensures Scan("(+ 1 2)")
         == [Token(LeftParen, "(", "", 1), Token(Plus, "+", "", 1),
             Token(RightParen, ")", "", 1), EofToken(1)]
  {
    var src := "(+ 1 2)";
    assert ScanFrom(src, 7, 1) == [EofToken(1)];
    assert ScanFrom(src, 6, 1) == [Token(RightParen, ")", "", 1), EofToken(1)] by {
      assert src[6..7] == ")";
    }
    assert ScanStep(src, 5) == Step(None, 6);
    assert ScanStep(src, 4) == Step(None, 5);
    assert ScanStep(src, 3) == Step(None, 4);
    assert ScanStep(src, 2) == Step(None, 3);
    assert ScanFrom(src, 2, 1) == ScanFrom(src, 6, 1);
    assert ScanFrom(src, 1, 1) == [Token(Plus, "+", "", 1)] + ScanFrom(src, 2, 1) by {
      assert src[1..2] == "+";
    }
    assert ScanFrom(src, 0, 1) == [Token(LeftParen, "(", "", 1)] + ScanFrom(src, 1, 1) by {
      assert src[0..1] == "(";
    }
  }

  // ---------------------------------------------------------------------
  // The scanner object
  // ---------------------------------------------------------------------

  class Scanner {
    /** The whole source text; never changed after construction. */
    const source: string
    /** Index of the first character of the lexeme being scanned. */
    var start: nat
    /** Index of the next character to read. */
    var current: nat
    /** Line of the lexeme being scanned (size_t in the source, unbounded here). */
    var line: int
    /** The tokens added so far. */
    var tokens: seq<Token>

    ghost predicate Valid()
      reads this
    {
      start <= current <= |source|
    }

    constructor (aSource: string)
      ensures Valid()
      ensures source == aSource && start == 0 && current == 0 && line == 1 && tokens == []
    {
      source := aSource;
      start, current, line := 0, 0, 1;
      tokens := [];
    }

    /** isAtEnd */
    predicate IsAtEnd()
      reads this
      ensures Valid() ==> (IsAtEnd() <==> current == |source|)
    {
      current >= |source|
    }

    /** peek: the next character without consuming it, '\0' at the end. */
    function Peek(): (c: char)
      reads this
      requires Valid()
    {
      if IsAtEnd() then '\0' else source[current]
    }

    /** advanceAndGetChar: consume one character and return it. */
    method AdvanceAndGetChar() returns (c: char)
      requires Valid() && current < |source|
      modifies this`current
      ensures Valid()
      ensures current == old(current) + 1 && c == source[old(current)]
    {
      current := current + 1;
      c := source[current - 1];
    }

    /** matchAndAdvance: consume the next character exactly when it is `expected`. */
    method MatchAndAdvance(expected: char) returns (matched: bool)
      requires Valid()
      modifies this`current
      ensures Valid()
      ensures matched <==> NextIs(source, old(current), expected)
      ensures current == if matched then old(current) + 1 else old(current)
    {
      if IsAtEnd() {
        return false;
      }
      if source[current] != expected {
        return false;
      }
      current := current + 1;
      return true;
    }

    /** addToken: the lexeme is source[start..current), the literal is empty. */
    method AddToken(kind: TokenType)
      requires Valid()
      modifies this`tokens
      ensures tokens == old(tokens) + [Token(kind, source[start..current], "", line)]
    {
      var lexeme := source[start..current];
      tokens := tokens + [Token(kind, lexeme, "", line)];
    }

    /** scanAndAddToken: one step of ScanStep, adding its token and counting its newline. */
    method ScanAndAddToken()
      requires Valid() && start == current < |source|
      modifies this`current, this`line, this`tokens
      ensures Valid()
      ensures var s := ScanStep(source, old(current));
        && current == s.end
        && line == LineAfter(source, old(current), old(line))
        && tokens == old(tokens) + Emitted(source, old(current), s, old(line))
    {
      var c := AdvanceAndGetChar();
      match c
      case '(' => AddToken(LeftParen);
      case ')' => AddToken(RightParen);
      case '{' => AddToken(LeftBrace);
      case '}' => AddToken(RightBrace);
      case ',' => AddToken(Comma);
      case '.' => AddToken(Dot);
      case '-' => AddToken(Minus);
      case '+' => AddToken(Plus);
      case ';' => AddToken(Semicolon);
      case '*' => AddToken(Star);
      case '!' =>
        var two := MatchAndAdvance('=');
        AddToken(if two then BangEqual else Bang);
      case '=' =>
        var two := MatchAndAdvance('=');
        AddToken(if two then EqualEqual else Equal);
      case '<' =>
        var two := MatchAndAdvance('=');
        AddToken(if two then LessEqual else Less);
      case '>' =>
        var two := MatchAndAdvance('=');
        AddToken(if two then GreaterEqual else Greater);
      case '/' =>
        var comment := MatchAndAdvance('/');
        if comment {
          // a comment goes until the end of the line
          while Peek() != '\n' && !IsAtEnd()
            invariant Valid() && start + 2 <= current
            invariant CommentEnd(source, current) == CommentEnd(source, start + 2)
            invariant line == old(line) && tokens == old(tokens)
            decreases |source| - current
          {
            var skipped := AdvanceAndGetChar();
          }
        } else {
          AddToken(Slash);
        }
      case ' ' | '\r' | '\t' =>
        // whitespace is ignored
      case '\n' =>
        line := line + 1;
      case _ =>
        // every other character is skipped without a token
    }

    /**
     * scanAndGetTokens: scan the rest of the source, append the end-of-input
     * token and return the whole list. Each iteration advances `current`.
     */
    method ScanAndGetTokens() returns (result: seq<Token>)
      requires Valid()
      modifies this`start, this`current, this`line, this`tokens
      ensures Valid() && current == |source|
      ensures result == tokens
      ensures tokens == old(tokens) + ScanFrom(source, old(current), old(line))
      ensures |tokens| > 0 && line == Last(tokens).line
      ensures line == old(line) + multiset(source[old(current)..])['\n']
      ensures old(current) < |source| ==> start < |source|
    {
      while !IsAtEnd()
        invariant Valid()
        invariant current == old(current) || start < current
        invariant tokens + ScanFrom(source, current, line)
               == old(tokens) + ScanFrom(source, old(current), old(line))
        decreases |source| - current
      {
        // we are at the beginning of the next lexeme
        start := current;
        ghost var before, lineBefore := tokens, line;
        ScanAndAddToken();
        ghost var emitted := Emitted(source, start, ScanStep(source, start), lineBefore);
        assert ScanFrom(source, start, lineBefore) == emitted + ScanFrom(source, current, line);
        AppendAssoc(before, emitted, ScanFrom(source, current, line));
      }
      tokens := tokens + [EofToken(line)];
      result := tokens;
      FinalLineCountsNewlines(source, old(current), old(line));
    }
  }
}
