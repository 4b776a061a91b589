# Lox front end (lox-cpp) in Dafny

A Dafny model of the front end of lox-cpp, a C++ interpreter for a small
expression language. It covers five pieces:

- **Tokens** (`tokens.dfy`, module `Tokens`). This is the `TokenType` enum and the
  immutable `Token` value with its `toString`.
- **Scanner** (`scanner.dfy`, module `Lexer`).
  - `ScanFrom` is a pure specification of what the single-pass lexer emits from
    a cursor and a line number.
  - The class `Lexer.Scanner` has the source's `start`/`current`/`line` cursors
    and its growing `tokens` list. Its methods are proved to follow `ScanFrom`.
  - Lemmas state what the output looks like.
- **Parser** (`grammar.dfy`, module `Grammar`; `parser.dfy`, module `Parsing`).
  - `Grammar` is the recursive-descent grammar written as functions on a token
    list and a cursor. Each function gives an `Outcome`: the tree and the
    cursor after it, or the `ParseError` and the cursor where it was thrown.
  - The class `Parsing.Parser` keeps the source's `current` cursor. It has
    `advance`/`match`/`consume`, the four binary-level methods as `while`
    loops, and the recursive `unary`/`primary`. Each method is proved to
    return exactly what the grammar function of its rule gives, and to leave
    `current` where that function says.
  - `GrammarProperties` (`grammar_props.dfy`) proves what the grammar promises:
    - `Unparse` lays a tree out as tokens. Parsing undoes it on every
      `Canonical` tree, and every tree the parser builds is canonical.
    - Binary levels group to the left, and tighter levels bind first.
    - Prefix operators nest to the right.
    - Only the first token after a complete expression is examined. It ends
      the expression unless it is a binary operator, and tokens beyond it are
      never looked at.
    - The two error messages come exactly where a `)` or an operand is
      missing.
    - Nothing the scanner emits can ever parse, because the modelled scanner
      emits no literal tokens.
- **Error handler** (`error_handler.dfy`, module `Errors`).
  - The class `Errors.ErrorHandler` has `errorList` and the sticky
    `foundError` flag.
  - A ghost history of `add`/`clear` calls ties both fields to pure
    functions of that history.
- **AST generator strings** (`ast_generator.dfy`, module `AstGenerator`).
  - `so_utils::split` is the `do`/`while` method `Split`, proved equal to a
    pure definition (`Pieces`).
  - It also covers how a specification line `Name :Type field,...` is cut into
    a class name and its fields, and how each field becomes a declaration,
    with a `*` when the type is the base class.
  - `std::string::find` is modelled as `Find` and `FindPos` (with `npos`), and
    `substr` as `Substr`.
  - `size_t` wrap-around is written out where the source relies on it: with no
    `':'`, `npos + 1` is 0.

`wrappers.dfy` holds the `Option` and `Result` datatypes.

The code is followed where it differs from the intended language:
- `comparison` has no `GREATER_EQUAL`, so `>=` ends an expression.
- The missing-`)` message is spelled "Exppect ')' after expression.".
- A comment stops before its newline, so the newline still counts a line.
- The scanner builds its tokens with three arguments while the `Token`
  constructor takes four. Scanned tokens are modelled with an empty literal.

## Model

| member | source | states |
|---|---|---|
| Tokens.Token.ToString | src/scanner/token.cpp:12-20 | toString; what it returns for each kind is stated by Tokens.ToStringByKind |
| Tokens.ToStringByKind | src/scanner/token.cpp:12-20 | toString is the literal text for IDENTIFIER, STRING and NUMBER, and the lexeme for every other kind, keywords and END_OF_FILE included |
| Lexer.CommentEnd | src/scanner/scanner.cpp:65-69 | a `//` comment runs to the first newline or the end of input: no newline before the stop, and the stop is a newline or the end |
| Lexer.ScanStep | src/scanner/scanner.cpp:16-83 | one iteration of the scan loop consumes at least one character and never goes past the end; only its first character can be a newline; it never emits END_OF_FILE |
| Lexer.StepKind | src/scanner/scanner.cpp:19-73 | an emitted lexeme is `source[start..current)` and has the kind the switch gives it (the lexeme table) |
| Lexer.TableKinds | src/scanner/scanner.cpp:19-73 | no kind the switch emits is a literal, keyword or END_OF_FILE kind |
| Lexer.ScanFrom | src/scanner/scanner.cpp:108-117 | the tokens the scan loop emits from a cursor and a line, END_OF_FILE included; what they are is stated by the lemma rows that follow |
| Lexer.Scan | src/scanner/scanner.cpp:5-9 | what a fresh scanner (cursors 0, line 1) returns; stated by Lexer.ScanLineCount and Lexer.PunctuationExample |
| Lexer.EndsWithSingleEof | src/scanner/scanner.cpp:108-116 | the output ends with exactly one END_OF_FILE token, with empty lexeme and literal, and no earlier token has that kind |
| Lexer.NoNewlineBetween | src/scanner/scanner.cpp:79-81 | skipping characters that are not newlines leaves the count of newlines still ahead unchanged |
| Lexer.NewlinesAfterStep | src/scanner/scanner.cpp:79-81 | the newlines from a lexeme's start on are its first character's, if that is one, and those after it |
| Lexer.FinalLineCountsNewlines | src/scanner/scanner.cpp:79-81 | the END_OF_FILE token's line is the starting line plus the number of newlines in the rest of the source |
| Lexer.ScanLineCount | src/scanner/scanner.cpp:108-116 | for a fresh scanner, the last line is 1 plus the number of newlines in the source |
| Lexer.LinesNonDecreasing | src/scanner/scanner.cpp:79-88 | every token's line is at least the starting line, and lines never decrease along the output |
| Lexer.TokenLines | src/scanner/scanner.cpp:79-88 | every token's line is the starting line plus the number of newlines between the scan's start and the first character of its lexeme |
| Lexer.NewlinesAcrossStep | src/scanner/scanner.cpp:79-81 | the newlines between a lexeme's start and any later position are its first character's, if that is one, and those after the lexeme |
| Lexer.ScannedKinds | src/scanner/scanner.cpp:19-88 | every token before END_OF_FILE has a lexeme from the switch's table, exactly the table's kind for it, and an empty literal |
| Lexer.ScannedTokenText | src/scanner/token.cpp:12-20 | no scanned token is a literal or keyword kind, so toString of every scanned token is its lexeme, and the END_OF_FILE token's is "" |
| Lexer.LexemesTile | src/scanner/scanner.cpp:85-88 | each lexeme is the source slice where it starts; the slices are non-empty, in order and do not overlap; there are at most `|source|` of them plus END_OF_FILE |
| Lexer.TilesCons | src/scanner/scanner.cpp:85-88 | a lexeme cut from the source just before a tiling extends it |
| Lexer.TilesLater | src/scanner/scanner.cpp:74-81 | a character that emits nothing leaves the tiling of the rest as it is |
| Lexer.OperatorMunch | src/scanner/scanner.cpp:49-64 | `!`, `=`, `<`, `>` give the two-character kind with lexeme `c=` when `=` follows, and the one-character kind otherwise |
| Lexer.LoneSlash | src/scanner/scanner.cpp:65-73 | a `/` not followed by `/` emits SLASH and scanning goes on after it |
| Lexer.LineComment | src/scanner/scanner.cpp:65-69 | `//` up to (not including) the next newline or the end emits nothing |
| Lexer.UnlistedSkipped | src/scanner/scanner.cpp:18-82 | a character the switch does not list emits nothing and is consumed |
| Lexer.WhitespaceSkipped | src/scanner/scanner.cpp:74-81 | space, `\r`, `\t` and newline emit nothing; only the newline counts a line |
| Lexer.NothingListedOnlyEof | src/scanner/scanner.cpp:18-82 | a source with no listed character scans to END_OF_FILE alone |
| Lexer.PunctuationExample | src/scanner/scanner.cpp:16-117 | `(+ 1 2)` scans to `(`, `+`, `)` and END_OF_FILE, with the digits skipped |
| Lexer.Scanner.constructor | src/scanner/scanner.cpp:5-9 | the cursors start at 0, the line at 1, the token list empty, the source stored |
| Lexer.Scanner.IsAtEnd | src/scanner/scanner.cpp:91 | at the end exactly when `current` has reached the size of the source |
| Lexer.Scanner.Peek | src/scanner/scanner.cpp:102-106 | the next character, or '\0' at the end; its use in the comment loop is stated by Lexer.Scanner.ScanAndAddToken and Lexer.CommentEnd |
| Lexer.Scanner.AdvanceAndGetChar | src/scanner/scanner.cpp:11-14 | `current` moves one ahead and the character passed over is returned |
| Lexer.Scanner.MatchAndAdvance | src/scanner/scanner.cpp:93-100 | consumes one character exactly when not at the end and it is the expected one; otherwise `current` is unchanged |
| Lexer.Scanner.AddToken | src/scanner/scanner.cpp:85-89 | appends one token with the given kind, lexeme `source[start..current)`, empty literal and the current line |
| Lexer.Scanner.ScanAndAddToken | src/scanner/scanner.cpp:16-83 | moves `current` to the end of `ScanStep`, counts a newline, and appends exactly the token that step emits |
| Lexer.Scanner.ScanAndGetTokens | src/scanner/scanner.cpp:108-117 | the loop ends at the end of the source (it always advances) and the list gained is `ScanFrom` of the old cursor and line; the list is returned; `line` is that of the END_OF_FILE token and has grown by the newlines scanned; `start` ends before the end of the source when the loop ran |
| Errors.AddedIn | src/error_handler/error_handler.cpp:18-20 | every entry the adds of a history leave comes from one of its add calls, and there are no more entries than calls |
| Errors.FlagAfter | src/error_handler/error_handler.cpp:6-26 | after a history the flag is set exactly when some add call was made: clear never resets it |
| Errors.ListAfter | src/error_handler/error_handler.cpp:18-26 | a non-empty list implies the flag is set; without a clear, the list is every added entry in order |
| Errors.ClearForgets | src/error_handler/error_handler.cpp:24-25 | after a clear, the list holds exactly the entries added since that clear |
| Errors.ErrorHandler.constructor | src/error_handler/error_handler.cpp:6-8 | a fresh handler has an empty list and `foundError` false |
| Errors.ErrorHandler.Add | src/error_handler/error_handler.cpp:18-22 | appends exactly `{line, where, message}`, keeps earlier entries, sets `foundError` |
| Errors.ErrorHandler.Clear | src/error_handler/error_handler.cpp:24-26 | empties the list and leaves `foundError` as it was |
| Grammar.Parse | src/parser/parser.cpp:86-92 | parse on a token list; its round trip and its failures are stated by GrammarProperties.ParseUnparsed, GrammarProperties.NoOperand and GrammarProperties.ParsedIsCanonical |
| Grammar.Expression | src/parser/parser.cpp:14-16 | expression is equality; the outcome keeps the cursor inside the list and only moves it forward, and an error carries the token at its cursor |
| Grammar.Level | src/parser/parser.cpp:18-57 | a binary level is one operand of the next tighter level followed by its loop, with the same cursor discipline |
| Grammar.Fold | src/parser/parser.cpp:18-57 | the `while (match(...))` loop folds to the left; the cursor stays inside the list and moves forward |
| Grammar.Unary | src/parser/parser.cpp:59-66 | `!`/`-` and a unary, otherwise primary; the same cursor discipline |
| Grammar.Primary | src/parser/parser.cpp:68-97 | the literal, grouping and "Expect expression." cases, with the same cursor discipline |
| Parsing.Parser.constructor | src/parser/parser.cpp:10-12 | stores the token list and starts the cursor at 0 |
| Parsing.Parser.Peek | src/parser/parser.cpp:126-128 | the token under the cursor, which is END_OF_FILE on the last position |
| Parsing.Parser.Previous | src/parser/parser.cpp:116-118 | the token before the cursor; that it is the token just consumed is stated by Parsing.Parser.Advance |
| Parsing.Parser.IsAtEnd | src/parser/parser.cpp:130-132 | true on the last position of a well-formed list, whose token is END_OF_FILE |
| Parsing.Parser.Error | src/parser/parser.cpp:99-104 | the ParseError with the message and the token; where each message is raised is stated by GrammarProperties.NoOperand and GrammarProperties.UnclosedGroup |
| Parsing.Parser.Check | src/parser/parser.cpp:134-138 | check holds only off the end of input, on the asked kind, with a token still after it |
| Parsing.Parser.Advance | src/parser/parser.cpp:120-124 | the cursor moves one step unless on END_OF_FILE, never past it, and the token just passed is returned |
| Parsing.Parser.Match | src/parser/parser.cpp:106-114 | succeeds exactly when the current token is one of the kinds and not END_OF_FILE; then it consumes exactly one token, else the cursor is unchanged |
| Parsing.Parser.Consume | src/parser/parser.cpp:93-104 | on the expected kind it consumes and returns that token; otherwise an error with the message at the current token and the cursor unchanged |
| Parsing.Parser.Expression | src/parser/parser.cpp:14-16 | result and final cursor are those of `Grammar.Expression` at the starting cursor |
| Parsing.Parser.Equality | src/parser/parser.cpp:18-26 | result and final cursor are those of the equality level, BANG_EQUAL and EQUAL_EQUAL |
| Parsing.Parser.Comparison | src/parser/parser.cpp:28-37 | result and final cursor are those of the comparison level, GREATER, LESS and LESS_EQUAL only |
| Parsing.Parser.Term | src/parser/parser.cpp:39-47 | result and final cursor are those of the term level, MINUS and PLUS |
| Parsing.Parser.Factor | src/parser/parser.cpp:49-57 | result and final cursor are those of the factor level, SLASH and STAR |
| Parsing.Parser.Unary | src/parser/parser.cpp:59-66 | result and final cursor are those of `Grammar.Unary` |
| Parsing.Parser.Primary | src/parser/parser.cpp:68-84 | result and final cursor are those of `Grammar.Primary`, both error messages included |
| Parsing.Parser.Parse | src/parser/parser.cpp:86-92 | the tree of `Grammar.Expression` on success and nothing on any error; tokens after the expression are left unread |
| GrammarProperties.LevelOf | src/parser/parser.cpp:20-51 | a kind's level is one of the four binary levels, or the one past them |
| GrammarProperties.InItsLevel | src/parser/parser.cpp:20-51 | a kind's level is the binary level whose match list holds it |
| GrammarProperties.OnlyItsLevel | src/parser/parser.cpp:20-51 | no kind is in two match lists |
| GrammarProperties.Unparse | src/parser/parser.cpp:14-84 | laying a tree out takes exactly as many tokens as the parser reads for it |
| GrammarProperties.FoldStops | src/parser/parser.cpp:20-51 | a binary level's loop stops, consuming nothing, on any token that is not one of its operators |
| GrammarProperties.UnparseLaidOut | src/parser/parser.cpp:14-84 | the tokens of a tree, between any tokens before and after, are laid out token by token where the parser reads them |
| GrammarProperties.GroupRead | src/parser/parser.cpp:77-80 | any LEFT_PAREN, a complete expression and any RIGHT_PAREN read as a grouping, whatever their lexemes and lines |
| GrammarProperties.GroupUnclosed | src/parser/parser.cpp:77-97 | `(` and a complete expression with no `)` after it fail with the missing-paren message at the token after the expression |
| GrammarProperties.LiteralRead | src/parser/parser.cpp:68-76 | FALSE, TRUE and NIL read as the literals "false", "true" and "nil", and any NUMBER or STRING token as a literal of its literal text, on any line and with any lexeme |
| GrammarProperties.PrefixRead | src/parser/parser.cpp:60-63 | a prefix operator and the unary after it read as a unary tree |
| GrammarProperties.UnparsedUnary | src/parser/parser.cpp:59-84 | a canonical unary or primary tree, laid out, is exactly what `unary` reads there |
| GrammarProperties.UnparsedLevel | src/parser/parser.cpp:18-57 | a canonical tree of at most a given level, followed by a token no tighter level takes, is read by that level, which then goes on with its loop |
| GrammarProperties.UnparsedComplete | src/parser/parser.cpp:18-57 | a canonical tree followed by a token its level does not take is all the level reads |
| GrammarProperties.UnparsedTighter | src/parser/parser.cpp:18-57 | a tree of a tighter level is the first operand of a level, and the loop goes on after it |
| GrammarProperties.UnparsedBinary | src/parser/parser.cpp:18-57 | a binary tree of the level itself is its left side read by the level, then one turn of the loop |
| GrammarProperties.BinaryPlaced | src/parser/parser.cpp:18-57 | the operands of a laid-out binary tree are laid out where the parser reads them, each at its level |
| GrammarProperties.InnerPlaced | src/parser/parser.cpp:59-81 | the operand of a laid-out prefix tree, and the inside of a grouping, are laid out after its first token |
| GrammarProperties.OperandThenLoop | src/parser/parser.cpp:18-57 | a binary level reads one operand of the next tighter level, then runs its loop |
| GrammarProperties.FoldStep | src/parser/parser.cpp:20-24 | one turn of the loop: an operator of the level and the operand after it, folded to the left |
| GrammarProperties.ParseUnparsed | src/parser/parser.cpp:86-92 | round trip: every canonical tree parses back from its tokens, whatever follows that is not a binary operator |
| GrammarProperties.ParseLaidOut | src/parser/parser.cpp:14-92 | round trip on any token list laying a canonical tree out, with any literal tokens, parentheses, lexemes and lines: `expression` reads exactly the tree and `parse` returns it, when no binary operator follows |
| GrammarProperties.LiteralsOnAnyLine | src/parser/parser.cpp:18-76 | `true == "s"` on line 3 parses to the equality of the two literals |
| GrammarProperties.ExpressionUnparsed | src/parser/parser.cpp:14-16 | round trip at `expression`: the tree, with the cursor just after its tokens |
| GrammarProperties.LevelBuildsCanonical | src/parser/parser.cpp:18-57 | every tree a binary level builds is canonical and of at most that level |
| GrammarProperties.FoldBuildsCanonical | src/parser/parser.cpp:18-57 | the loop only builds canonical trees of its level from a canonical start |
| GrammarProperties.UnaryBuildsCanonical | src/parser/parser.cpp:59-66 | every tree `unary` builds is a canonical unary or primary tree |
| GrammarProperties.PrimaryBuildsCanonical | src/parser/parser.cpp:68-84 | every tree `primary` builds is a canonical literal or grouping |
| GrammarProperties.ParsedIsCanonical | src/parser/parser.cpp:86-92 | every tree `parse` returns is canonical, so the parser's trees are exactly the canonical ones |
| GrammarProperties.LeftNestedTokens | src/parser/parser.cpp:18-57 | the tokens of a left-nested pair of binary trees are `a op1 b op2 c` |
| GrammarProperties.RightNestedTokens | src/parser/parser.cpp:18-57 | the tokens of a right-nested pair of binary trees are also `a op1 b op2 c` |
| GrammarProperties.PrefixedTokens | src/parser/parser.cpp:59-64 | two nested prefix trees are laid out as the two operators then the operand |
| GrammarProperties.LeftAssociative | src/parser/parser.cpp:39-47 | `a op b op c` with two operators of one level parses as `(a op b) op c` |
| GrammarProperties.TighterOnRight | src/parser/parser.cpp:14-57 | `a + b * c` parses as `a + (b * c)` for every looser and tighter pair of levels |
| GrammarProperties.TighterOnLeft | src/parser/parser.cpp:14-57 | `a * b + c` parses as `(a * b) + c` for every tighter and looser pair of levels |
| GrammarProperties.PrefixNests | src/parser/parser.cpp:59-64 | two prefix operators nest to the right: `- ! x` is `-(!x)` |
| GrammarProperties.UnaryFailurePropagates | src/parser/parser.cpp:18-57 | a ParseError in the first operand is the error of every level above it |
| GrammarProperties.UnaryOperandStops | src/parser/parser.cpp:18-57 | an operand followed by a non-operator is all every level reads |
| GrammarProperties.NoOperand | src/parser/parser.cpp:82-92 | on a token that starts no operand, the expression fails with "Expect expression." at that token and parse gives nothing |
| GrammarProperties.UnclosedGroup | src/parser/parser.cpp:77-79 | `(` and a complete expression followed by anything but `)` fail with "Exppect ')' after expression." at that token |
| GrammarProperties.LevelFailsWithoutLiterals | src/parser/parser.cpp:18-57 | with no literal token anywhere, every level fails |
| GrammarProperties.UnaryFailsWithoutLiterals | src/parser/parser.cpp:59-84 | with no literal token anywhere, unary fails |
| GrammarProperties.ScannedTextNeverParses | src/scanner/scanner.cpp:16-117 | the scanner's output is a well-formed token list, and parse gives nothing on it, since the modelled scanner emits no literal tokens |
| GrammarProperties.PrecedenceExample | src/parser/parser.cpp:14-57 | `1 + 2 * 3` parses to `Binary(1, +, Binary(2, *, 3))` |
| GrammarProperties.AssociativityExample | src/parser/parser.cpp:39-47 | `1 - 2 - 3` parses to `Binary(Binary(1, -, 2), -, 3)` |
| GrammarProperties.PrefixExample | src/parser/parser.cpp:59-74 | `- ! true` parses to `Unary(-, Unary(!, "true"))` |
| GrammarProperties.GreaterEqualEndsExpression | src/parser/parser.cpp:30-31 | `1 >= 2` parses to just `1`, since comparison has no GREATER_EQUAL and parse ignores the rest |
| GrammarProperties.MissingParenExample | src/parser/parser.cpp:77-79 | `( 1 + 2` fails with "Exppect ')' after expression." at END_OF_FILE |
| AstGenerator.Find | src/tools/ast_generator.cpp:15 | a position find gives is at or after the start, and the delimiter occurs there |
| AstGenerator.AgreesOccurs | src/tools/ast_generator.cpp:15 | comparing character by character is comparing the slice |
| AstGenerator.FindFirst | src/tools/ast_generator.cpp:15 | find gives the first occurrence: there is none between the start and the result, and none at all when it finds nothing |
| AstGenerator.FindPos | src/tools/ast_generator.cpp:15-17 | find as a `size_t` is `npos` or a position where the delimiter occurs; `npos + 1` wraps to 0 |
| AstGenerator.Substr | src/tools/ast_generator.cpp:63-64 | substr gives `count` characters from `pos`, or up to the end when fewer remain |
| AstGenerator.FieldsLackDelimiter | src/tools/ast_generator.cpp:13-22 | no field between delimiters contains the delimiter |
| AstGenerator.NonEmptyKeeps | src/tools/ast_generator.cpp:19-20 | dropping empty strings keeps exactly the non-empty ones |
| AstGenerator.JoinFields | src/tools/ast_generator.cpp:13-22 | the fields joined back with the delimiter are the string: they are its pieces, left to right |
| AstGenerator.PiecesAreFields | src/tools/ast_generator.cpp:13-22 | split never returns an empty piece or one containing the delimiter, and every piece is a field of the string |
| AstGenerator.NoDelimiter | src/tools/ast_generator.cpp:15-20 | a string without the delimiter splits into itself, or into nothing when it is empty |
| AstGenerator.Split | src/tools/ast_generator.cpp:10-24 | the `do`/`while` loop returns exactly the non-empty fields of the string, in order |
| AstGenerator.TurnsKeepFields | src/tools/ast_generator.cpp:14-22 | the loop's remaining turns keep the non-empty fields from the cursor on |
| AstGenerator.TurnsArePieces | src/tools/ast_generator.cpp:14-22 | the turns of the loop from the start give the pieces |
| AstGenerator.CharOccurs | src/tools/ast_generator.cpp:63-64 | a one-character delimiter occurs where the character is |
| AstGenerator.FirstOccurrence | src/tools/ast_generator.cpp:63-64 | the first occurrence is what find returns |
| AstGenerator.ClassName | src/tools/ast_generator.cpp:62 | the text before the first `':'`; stated by AstGenerator.SpecLine, AstGenerator.ClassNameThenFields and AstGenerator.NoColon |
| AstGenerator.FieldsText | src/tools/ast_generator.cpp:63 | the text after the first `':'`, or the whole line without one; stated by the same three lemmas |
| AstGenerator.SpecLine | src/tools/ast_generator.cpp:63-64 | `name:fields` with no `':'` in the name gives back `name` as class name and `fields` as field list |
| AstGenerator.ClassNameThenFields | src/tools/ast_generator.cpp:63-64 | a line with a `':'` is its class name, the `':'`, and its field list, and the class name has no `':'` |
| AstGenerator.NoColon | src/tools/ast_generator.cpp:63-64 | a line without `':'` is both the class name and the field list, because `npos + 1` wraps to 0 |
| AstGenerator.ContainsChar | src/tools/ast_generator.cpp:83-84 | a one-character delimiter occurs in a string exactly when the character does |
| AstGenerator.TwoWords | src/tools/ast_generator.cpp:83-84 | two words joined by one space split back into the two words |
| AstGenerator.FieldType | src/tools/ast_generator.cpp:83 | a field's first space-separated piece; stated by AstGenerator.TwoWords and AstGenerator.DeclarationSplits |
| AstGenerator.FieldName | src/tools/ast_generator.cpp:84 | a field's second space-separated piece; stated by the same two lemmas |
| AstGenerator.Declaration | src/tools/ast_generator.cpp:108-114 | `Type* name` when the type is the base class, `Type name` otherwise; stated by AstGenerator.DeclarationSplits and the two field examples |
| AstGenerator.DeclarationSplits | src/tools/ast_generator.cpp:83-89 | a declaration splits back into the field's name and its type, with a `*` exactly when the type is the base class |
| AstGenerator.BinarySpecExample | src/tools/ast_generator.cpp:63-64 | the Binary line's class name keeps its padding, `"BinaryExpr   "`, and its field list is the rest |
| AstGenerator.PointerFieldExample | src/tools/ast_generator.cpp:83-86 | `Expr left` is declared `Expr* left` |
| AstGenerator.ValueFieldExample | src/tools/ast_generator.cpp:83-88 | `Token Operator` is declared by value |

## Left out

- String, number and identifier lexing, and the reserved-keyword table. They are declared in src/scanner/scanner.hpp, but their bodies are not part of this model. The scanner model therefore never emits literal or keyword tokens.
- `ErrorHandler::report`. It only writes to the console.
- src/main.cpp and src/tools/ast_printer.cpp. They are file and console I/O, and visitor dispatch over a header that is not part of this model.
- The stream output of ast_generator.cpp: `generate`, file opening in `defineAST`, `defineVisitor`, the `<<` emission in `defineType`, and `main`. Only the strings they compute are modelled: class name, field list, field type and name, and declaration.
- Heap allocation and pointers. Trees are an inductive datatype, and `new` and the leaked `*new ParseError` have no counterpart.
- C++ exceptions. A thrown `ParseError` is a `Failure` outcome in `Grammar` and an `Err` result in `Parsing.Parser`. Every caller passes it on, and `parse` turns it into `None`.
- `Parser::error` is the pure function `Parsing.Parser.Error`. It only builds the error value, and its empty branch on END_OF_FILE does nothing.
- The `ErrorHandler&` parameters in the headers are not wired into the scanner or the parser. Their constructors in the .cpp files take none, and no modelled body calls the handler.
- Bytes: a `std::string` is a sequence of bytes, and here it is a sequence of Dafny characters. This changes no behaviour: every character the scanner and the generator test for is ASCII, and any other character is unlisted and skipped. A multi-byte character is skipped byte by byte in the source and in one step here, and it emits nothing either way.
- Integer widths: lines and cursors are unbounded. The one place where `size_t` wrap-around changes the result is `npos + 1`, and that is modelled.
- Parsing.Parser.Advance: requires that the cursor is past 0 or not on END_OF_FILE. Otherwise `previous()` would read before the list, which is undefined behaviour in the source; no caller reaches it.
- Parsing.Parser.constructor: does not state `Valid()`. A token list that does not end in END_OF_FILE is accepted, as in the source, and the other methods require a well-formed list.
- AstGenerator.Split: requires a non-empty delimiter or an empty string. With an empty delimiter and a non-empty string, the source's loop never ends.
- AstGenerator.SpecLine, AstGenerator.ClassNameThenFields and AstGenerator.NoColon: require the line to be shorter than `npos`. Otherwise `npos + 1` and the positions could collide.
- AstGenerator.FieldType, AstGenerator.FieldName and AstGenerator.Declaration: require at least one or two space-separated pieces. The source indexes the split result unchecked, which is undefined behaviour for a field without a space.
