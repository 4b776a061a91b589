/**
 * The string handling of src/tools/ast_generator.cpp: `so_utils::split`,
 * and the way a specification line such as
 * "BinaryExpr   :Expr left,Token Operator,Expr right" is taken apart into a
 * class name, a field list, and for each field a type and a name, with the
 * type decorated as a pointer when it is the base class.
 *
 * `std::string::find` is `Find` (the position of the first occurrence at or
 * after a start, if any); its `size_t` result, with `npos` for "none", is
 * `FindPos`; `substr` is `Substr`.
 */
module AstGenerator {
  import opened Wrappers
  import opened Seqs

  /** `std::string::npos`: the largest 64-bit `size_t`. */
  const NPos: nat := 0xFFFF_FFFF_FFFF_FFFF
  /** `size_t` arithmetic wraps modulo 2^64. */
  const SizeModulus: nat := 0x1_0000_0000_0000_0000

  /** `d` occurs in `s` at index `i`. */
  predicate OccursAt(s: string, d: string, i: nat) {
    i + |d| <= |s| && s[i..i + |d|] == d
  }

  /** `d` occurs somewhere in `s`. */
  predicate Contains(s: string, d: string) {
    exists i :: 0 <= i <= |s| && OccursAt(s, d, i)
  }

  /** find(d, from): the first index at or after `from` where `d` occurs. */
  function Find(s: string, d: string, from: nat): (r: Option<nat>)
    requires from <= |s|
    ensures r.Some? ==> from <= r.value && OccursAt(s, d, r.value)
    decreases |s| - from
  {
    if from + |d| > |s| then None
    else if Agrees(s, d, from) then AgreesOccurs(s, d, from); Some(from)
    else Find(s, d, from + 1)
  }

  /** `d` agrees with `s` character by character from index `i` on. */
  predicate Agrees(s: string, d: string, i: nat)
    decreases |d|
  {
    |d| == 0 || (i < |s| && s[i] == d[0] && Agrees(s, d[1..], i + 1))
  }

  /** Comparing character by character is comparing the slice. */
  lemma {:induction false} AgreesOccurs(s: string, d: string, i: nat)
    requires i + |d| <= |s|
    ensures Agrees(s, d, i) <==> OccursAt(s, d, i)
    decreases |d|
  {
    if |d| > 0 {
      AgreesOccurs(s, d[1..], i + 1);
      assert s[i..i + |d|] == [s[i]] + s[i + 1..i + 1 + |d[1..]|];
      assert d == [d[0]] + d[1..];
    }
  }

  /** find gives the first occurrence: `d` occurs nowhere from `from` up to the result. */
  lemma {:induction false} FindFirst(s: string, d: string, from: nat)
    requires from <= |s|
    ensures forall i :: from <= i <= |s| && (Find(s, d, from).None? || i < Find(s, d, from).value) ==> !OccursAt(s, d, i)
    decreases |s| - from
  {
    if from + |d| <= |s| {
      AgreesOccurs(s, d, from);
      if !Agrees(s, d, from) {
        FindFirst(s, d, from + 1);
      }
    }
  }

  /** find as a `size_t`: the index, or npos. */
  function FindPos(s: string, d: string, from: nat): (r: nat)
    requires from <= |s|
    ensures r == NPos || (from <= r && OccursAt(s, d, r))
    ensures (r + 1) % SizeModulus <= |s| || |d| == 0
  {
    match Find(s, d, from)
    case Some(i) => i
    case None => NPos
  }

  /** substr(pos, count): at most `count` characters from `pos`. */
  function Substr(s: string, pos: nat, count: nat): (r: string)
    requires pos <= |s|
    ensures |r| == if pos + count <= |s| then count else |s| - pos
    ensures r == s[pos..pos + |r|]
  {
    s[pos..if pos + count <= |s| then pos + count else |s|]
  }

  /**
   * Every text between consecutive occurrences of `d`, empty ones included,
   * from `from` on: the pieces `split` looks at, before it drops the empty ones.
   */
  function FieldsFrom(s: string, d: string, from: nat): (r: seq<string>)
    requires |d| > 0 && from <= |s|
    ensures |r| > 0
    decreases |s| - from
  {
    match Find(s, d, from)
    case None => [s[from..]]
    case Some(p) => [s[from..p]] + FieldsFrom(s, d, p + |d|)
  }

  /** No field contains the delimiter. */
  lemma {:induction false} FieldsLackDelimiter(s: string, d: string, from: nat)
    requires |d| > 0 && from <= |s|
    ensures forall k :: 0 <= k < |FieldsFrom(s, d, from)| ==> !Contains(FieldsFrom(s, d, from)[k], d)
    decreases |s| - from
  {
    FindFirst(s, d, from);
    match Find(s, d, from)
    case None =>
      NoOccurrenceInside(s, d, from, |s|);
      assert s[from..] == s[from..|s|];
    case Some(p) =>
      NoOccurrenceInside(s, d, from, p);
      FieldsLackDelimiter(s, d, p + |d|);
      var fs, rest := FieldsFrom(s, d, from), FieldsFrom(s, d, p + |d|);
      assert fs == [s[from..p]] + rest;
      forall k | 1 <= k < |fs| ensures fs[k] == rest[k - 1] {
      }
  }

  /** A slice of `s` before which `d` does not start contains no `d`. */
  lemma NoOccurrenceInside(s: string, d: string, from: nat, to: nat)
    requires from <= to <= |s|
    requires |d| > 0
    requires forall i :: from <= i <= |s| && i < to ==> !OccursAt(s, d, i)
    ensures !Contains(s[from..to], d)
  {
    var piece := s[from..to];
    forall j | 0 <= j <= |piece| && OccursAt(piece, d, j)
      ensures false
    {
      forall k | 0 <= k < |d| ensures s[from + j..from + j + |d|][k] == d[k] {
        assert piece[j..j + |d|][k] == d[k];
      }
      assert s[from + j..from + j + |d|] == d;
      assert OccursAt(s, d, from + j);
    }
  }

  /** The non-empty strings of `xs`, in order. */
  function NonEmpty(xs: seq<string>): (r: seq<string>)
    ensures |r| <= |xs|
  {
    if xs == [] then []
    else (if xs[0] == "" then [] else [xs[0]]) + NonEmpty(xs[1..])
  }

  /** What `NonEmpty` keeps: exactly the non-empty strings of `xs`. */
  lemma {:induction false} NonEmptyKeeps(xs: seq<string>)
    ensures forall x :: x in NonEmpty(xs) <==> x in xs && x != ""
  {
    if xs != [] {
      NonEmptyKeeps(xs[1..]);
      assert forall x :: x in xs <==> x == xs[0] || x in xs[1..];
    }
  }

  /** The pieces `split(s, d)` returns. */
  function Pieces(s: string, d: string): seq<string>
    requires |d| > 0 || s == ""
  {
    if |d| == 0 then [] else NonEmpty(FieldsFrom(s, d, 0))
  }

  /** The pieces joined back with `d` in between. */
  function Join(xs: seq<string>, d: string): string
    requires |xs| > 0
  {
    if |xs| == 1 then xs[0] else xs[0] + d + Join(xs[1..], d)
  }

  /** Joining the fields with the delimiter gives the text back: the pieces are `s`, in order. */
  lemma {:induction false} JoinFields(s: string, d: string, from: nat)
    requires |d| > 0 && from <= |s|
    ensures Join(FieldsFrom(s, d, from), d) == s[from..]
    decreases |s| - from
  {
    match Find(s, d, from)
    case None =>
    case Some(p) =>
      JoinFields(s, d, p + |d|);
      var rest := FieldsFrom(s, d, p + |d|);
      assert FieldsFrom(s, d, from) == [s[from..p]] + rest;
      assert ([s[from..p]] + rest)[1..] == rest;
      assert s[from..] == s[from..p] + s[p..p + |d|] + s[p + |d|..];
  }

  /**
   * split never returns an empty piece, no piece contains `d`, and every
   * piece is a field of `s`.
   */
  lemma PiecesAreFields(s: string, d: string)
    requires |d| > 0
    ensures forall k :: 0 <= k < |Pieces(s, d)| ==> Pieces(s, d)[k] != "" && !Contains(Pieces(s, d)[k], d)
    ensures forall x :: x in Pieces(s, d) ==> x in FieldsFrom(s, d, 0)
    ensures Join(FieldsFrom(s, d, 0), d) == s
  {
    var fs := FieldsFrom(s, d, 0);
    NonEmptyKeeps(fs);
    FieldsLackDelimiter(s, d, 0);
    forall k | 0 <= k < |Pieces(s, d)| ensures Pieces(s, d)[k] != "" && !Contains(Pieces(s, d)[k], d) {
      var x := Pieces(s, d)[k];
      assert x in Pieces(s, d);
      var j :| 0 <= j < |fs| && fs[j] == x;
    }
    JoinFields(s, d, 0);
  }

  /** Without `d` in it, `s` splits into itself, or into nothing when it is empty. */
  lemma NoDelimiter(s: string, d: string)
    requires |d| > 0 && !Contains(s, d)
    ensures Pieces(s, d) == if s == "" then [] else [s]
  {
    assert Find(s, d, 0).None?;
    assert FieldsFrom(s, d, 0) == [s[0..]];
    assert s[0..] == s;
    assert NonEmpty([s]) == (if s == "" then [] else [s]) + NonEmpty([]);
  }

  /**
   * so_utils::split, a do/while loop: look for `delim` from `prev` (the end
   * of the string when it is missing), keep the text in between when it is
   * not empty, and go on after the delimiter while both cursors are still
   * inside the string. With an empty `delim` and a non-empty `str` the loop
   * never ends, so that call is excluded.
   */
  method Split(str: string, delim: string) returns (tokens: seq<string>)
    requires |delim| > 0 || str == ""
    ensures tokens == Pieces(str, delim)
  {
    tokens := [];
    var prev: nat := 0;
    var pos: nat := 0;
    while true
      invariant prev <= |str| && Turns(str, delim, prev, tokens) == Turns(str, delim, 0, [])
      decreases |str| - prev
    {
      var found := Find(str, delim, prev);
      pos := if found.None? then |str| else found.value;
      var token := str[prev..pos];
      ghost var kept := tokens;
      if token != "" {
        tokens := tokens + [token];
      }
      assert tokens == kept + Keep(token);
      prev := pos + |delim|;
      if !(pos < |str| && prev < |str|) {
        break;
      }
    }
    TurnsArePieces(str, delim);
  }

  /** Where the field that starts at `from` ends: at the next `d`, or at the end of `s`. */
  function Cut(s: string, d: string, from: nat): (p: nat)
    requires from <= |s|
    ensures from <= p <= |s|
  {
    match Find(s, d, from)
    case None => |s|
    case Some(p) => p
  }

  /**
   * What `split`'s loop returns when a turn starts at `prev` with `kept`
   * already collected: the field up to the next delimiter is kept unless
   * empty, and the loop goes on after the delimiter while both cursors are
   * inside the string.
   */
  ghost function Turns(s: string, d: string, prev: nat, kept: seq<string>): seq<string>
    requires (|d| > 0 || s == "") && prev <= |s|
    decreases |s| - prev
  {
    var pos := Cut(s, d, prev);
    var now := kept + Keep(s[prev..pos]);
    if pos < |s| && pos + |d| < |s| then Turns(s, d, pos + |d|, now) else now
  }

  /** The turns of the loop from `prev` on keep exactly the non-empty fields from `prev` on. */
  lemma {:induction false} TurnsKeepFields(s: string, d: string, prev: nat, kept: seq<string>)
    requires |d| > 0 && prev <= |s|
    ensures Turns(s, d, prev, kept) == kept + NonEmpty(FieldsFrom(s, d, prev))
    decreases |s| - prev
  {
    match Find(s, d, prev)
    case None =>
      StepLast(s, d, prev);
    case Some(p) =>
      var now := kept + Keep(s[prev..p]);
      StepFound(s, d, prev, p);
      AppendAssoc(kept, Keep(s[prev..p]), NonEmpty(FieldsFrom(s, d, p + |d|)));
      if p + |d| < |s| {
        TurnsKeepFields(s, d, p + |d|, now);
      } else {
        EndEmpty(s, d);
      }
  }

  /** `split`'s loop, run from the start, returns the pieces. */
  lemma TurnsArePieces(s: string, d: string)
    requires |d| > 0 || s == ""
    ensures Turns(s, d, 0, []) == Pieces(s, d)
  {
    if |d| > 0 {
      TurnsKeepFields(s, d, 0, []);
    } else {
      assert Find(s, d, 0) == Some(0);
    }
  }

  /** The piece `split` keeps of a field: itself unless it is empty. */
  function Keep(x: string): seq<string> {
    if x == "" then [] else [x]
  }

  /** A field that ends at an occurrence of `d`, and the rest after it. */
  lemma StepFound(s: string, d: string, from: nat, p: nat)
    requires |d| > 0 && from <= |s| && Find(s, d, from) == Some(p)
    ensures NonEmpty(FieldsFrom(s, d, from)) == Keep(s[from..p]) + NonEmpty(FieldsFrom(s, d, p + |d|))
  {
    var fs := FieldsFrom(s, d, from);
    assert fs == [s[from..p]] + FieldsFrom(s, d, p + |d|);
    assert fs[1..] == FieldsFrom(s, d, p + |d|);
  }

  /** The last field, when `d` does not occur again. */
  lemma StepLast(s: string, d: string, from: nat)
    requires |d| > 0 && from <= |s| && Find(s, d, from).None?
    ensures NonEmpty(FieldsFrom(s, d, from)) == Keep(s[from..|s|])
  {
    var fs := FieldsFrom(s, d, from);
    assert fs == [s[from..]];
    assert s[from..] == s[from..|s|];
    assert fs[1..] == [];
  }

  /** After a delimiter that ends the text there is nothing left to keep. */
  lemma EndEmpty(s: string, d: string)
    requires |d| > 0
    ensures NonEmpty(FieldsFrom(s, d, |s|)) == []
  {
    StepLast(s, d, |s|);
  }

  /** The class name: everything before the first ':', spaces included. */
  function ClassName(spec: string): string {
    Substr(spec, 0, FindPos(spec, ":", 0))
  }

  /**
   * The field list: everything after the first ':'. Without a ':' find
   * gives npos, npos + 1 wraps round to 0, and the whole line is the field list.
   */
  function FieldsText(spec: string): string {
    var start := (FindPos(spec, ":", 0) + 1) % SizeModulus;
    Substr(spec, start, |spec|)
  }

  /** A one-character `d` occurs at `j` when the character there is it. */
  lemma CharOccurs(s: string, c: char, j: nat)
    ensures OccursAt(s, [c], j) <==> j < |s| && s[j] == c
  {
    if j < |s| {
      assert s[j..j + 1] == [s[j]];
    }
  }

  /** The first occurrence is what find returns. */
  lemma FirstOccurrence(s: string, d: string, from: nat, i: nat)
    requires from <= i <= |s| && OccursAt(s, d, i)
    requires forall j :: from <= j < i ==> !OccursAt(s, d, j)
    ensures Find(s, d, from) == Some(i)
  {
    FindFirst(s, d, from);
  }

  /** A line written as `name:fields`, with no ':' in the name, gives back `name` and `fields`. */
  lemma SpecLine(name: string, fields: string)
    requires ':' !in name && |name| + 1 + |fields| < NPos
    ensures ClassName(name + ":" + fields) == name
    ensures FieldsText(name + ":" + fields) == fields
  {
    var spec := name + ":" + fields;
    var i := |name|;
    CharOccurs(spec, ':', i);
    forall j | 0 <= j < i ensures !OccursAt(spec, ":", j) {
      CharOccurs(spec, ':', j);
      assert spec[j] == name[j];
    }
    FirstOccurrence(spec, ":", 0, i);
    assert FindPos(spec, ":", 0) == i;
    assert (i + 1) % SizeModulus == i + 1;
    assert spec[..i] == name;
    assert spec[i + 1..] == fields;
  }

  /** A line with a ':' is its class name, the ':', and its field list. */
  lemma ClassNameThenFields(spec: string)
    requires ':' in spec && |spec| < NPos
    ensures ClassName(spec) + ":" + FieldsText(spec) == spec
    ensures ':' !in ClassName(spec)
  {
    var k :| 0 <= k < |spec| && spec[k] == ':';
    CharOccurs(spec, ':', k);
    FindFirst(spec, ":", 0);
    var i := Find(spec, ":", 0).value;
    CharOccurs(spec, ':', i);
    forall j | 0 <= j < i ensures spec[j] != ':' {
      CharOccurs(spec, ':', j);
    }
    assert spec == spec[..i] + ":" + spec[i + 1..];
    SpecLine(spec[..i], spec[i + 1..]);
  }

  /** A line without a ':' is both the class name and the field list (npos + 1 is 0). */
  lemma NoColon(spec: string)
    requires ':' !in spec && |spec| < NPos
    ensures ClassName(spec) == spec && FieldsText(spec) == spec
  {
    forall j | 0 <= j <= |spec| ensures !OccursAt(spec, ":", j) {
      CharOccurs(spec, ':', j);
    }
    assert FindPos(spec, ":", 0) == NPos;
  }

  /** A field's type: the first space-separated piece. */
  function FieldType(field: string): string
    requires |Pieces(field, " ")| >= 1
  {
    Pieces(field, " ")[0]
  }

  /** A field's name: the second space-separated piece. */
  function FieldName(field: string): string
    requires |Pieces(field, " ")| >= 2
  {
    Pieces(field, " ")[1]
  }

  /** The member or parameter declaration for a field: `Type* name` for the base class, `Type name` otherwise. */
  function Declaration(baseName: string, field: string): string
    requires |Pieces(field, " ")| >= 2
  {
    var fieldType := FieldType(field);
    var fieldName := FieldName(field);
    if fieldType == baseName then fieldType + "* " + fieldName else fieldType + " " + fieldName
  }

  /** For a one-character delimiter, containing it means containing the character. */
  lemma ContainsChar(s: string, c: char)
    ensures Contains(s, [c]) <==> c in s
  {
    if c in s {
      var i :| 0 <= i < |s| && s[i] == c;
      assert OccursAt(s, [c], i);
    }
    if Contains(s, [c]) {
      var i :| 0 <= i <= |s| && OccursAt(s, [c], i);
      assert s[i..i + 1] == [c];
      assert s[i] == c;
    }
  }

  /** Two words joined by one space split back into the two words. */
  lemma TwoWords(a: string, b: string)
    requires a != "" && b != "" && ' ' !in a && ' ' !in b
    ensures Pieces(a + " " + b, " ") == [a, b]
  {
    var s := a + " " + b;
    assert OccursAt(s, " ", |a|);
    forall i | 0 <= i < |a| ensures !OccursAt(s, " ", i) {
      assert s[i] == a[i];
      assert s[i..i + 1] == [s[i]];
    }
    FirstOccurrence(s, " ", 0, |a|);
    assert s[0..|a|] == a;
    var rest := |a| + 1;
    assert s[rest..] == b;
    forall i | rest <= i <= |s| ensures !OccursAt(s, " ", i) {
      if i < |s| {
        assert s[i] == b[i - rest];
        assert s[i..i + 1] == [s[i]];
      }
    }
    assert Find(s, " ", rest).None?;
    assert FieldsFrom(s, " ", rest) == [b];
    assert FieldsFrom(s, " ", 0) == [a, b];
    assert NonEmpty([a, b]) == [a] + NonEmpty([b]);
    assert NonEmpty([b]) == [b] + NonEmpty([]);
  }

  /**
   * A declaration is again a "type name" pair: splitting it at spaces gives
   * the field's name and its type, with a `*` added exactly when the type
   * is the base class.
   */
  lemma DeclarationSplits(baseName: string, field: string)
    requires |Pieces(field, " ")| >= 2
    ensures Pieces(Declaration(baseName, field), " ")
         == [if FieldType(field) == baseName then FieldType(field) + "*" else FieldType(field), FieldName(field)]
  {
    var t, n := FieldType(field), FieldName(field);
    PiecesAreFields(field, " ");
    ContainsChar(t, ' ');
    ContainsChar(n, ' ');
    if t == baseName {
      assert t + "* " + n == (t + "*") + " " + n;
      TwoWords(t + "*", n);
    } else {
      TwoWords(t, n);
    }
  }

  /** The specification of the expression classes the generator writes. */
  const BaseName: string := "Expr"
  const BinarySpec: string := "BinaryExpr   :Expr left,Token Operator,Expr right"

  /** The Binary line: its class name keeps the padding before the ':'. */
  lemma BinarySpecExample()
    ensures ClassName(BinarySpec) == "BinaryExpr   "
    ensures FieldsText(BinarySpec) == "Expr left,Token Operator,Expr right"
  {
    var name, fields := "BinaryExpr   ", "Expr left,Token Operator,Expr right";
    BinarySpecParts(name, fields);
    SpecLine(name, fields);
  }

  lemma BinarySpecParts(name: string, fields: string)
    requires name == "BinaryExpr   " && fields == "Expr left,Token Operator,Expr right"
    ensures ':' !in name && BinarySpec == name + ":" + fields
  {
  }

  /** A field of the base type is declared through a pointer. */
  lemma PointerFieldExample()
    ensures Pieces("Expr left", " ") == ["Expr", "left"]
    ensures Declaration(BaseName, "Expr left") == "Expr* left"
  {
    assert "Expr" + " " + "left" == "Expr left";
    assert "Expr" + "* " + "left" == "Expr* left";
    TwoWords("Expr", "left");
  }

  /** A field of any other type is declared by value. */
  lemma ValueFieldExample()
    ensures Pieces("Token Operator", " ") == ["Token", "Operator"]
    ensures Declaration(BaseName, "Token Operator") == "Token Operator"
  {
    assert "Token" + " " + "Operator" == "Token Operator";
    TwoWords("Token", "Operator");
  }
}
