/**
  The `Schema` derive macro (derive/src/lib.rs): it finds the struct's name in the
  item's tokens, parses the field list out of the brace group with a three-state
  machine, and emits the `impl yoshino_core::Schema` block as text.

  A token is the plain datatype `Token`; the generated code is a string, and its
  final parse back into tokens is not modelled.
 */
module Derive {
  import opened Wrappers
  import opened SqlText

  datatype Delimiter = Parenthesis | Brace | Bracket | NoDelimiter

  /** A token tree: identifier, punctuation character, delimited group or literal. */
  datatype Token =
    | Ident(ident: string)
    | Punct(ch: char)
    | Group(delim: Delimiter, stream: seq<Token>)
    | Literal(lit: string)

  /** `to_string` of a token, for the identifiers and punctuation the macro reads. */
  function TokenText(t: Token): string
  {
    match t
    case Ident(s) => s
    case Punct(c) => [c]
    case Literal(s) => s
    case Group(_, _) => ""
  }

  // ---------------------------------------------------------------------------
  // get_next_struct_name
  // ---------------------------------------------------------------------------

  /**
    The token after the first `struct` identifier, and the tokens left after it;
    `None` with nothing left when there is no `struct` or it is the last token.
   */
  function NextStructName(ts: seq<Token>): (r: (Option<Token>, seq<Token>))
    ensures r.0.None? ==> r.1 == []
    ensures |r.1| <= |ts| && r.1 == ts[|ts| - |r.1|..]
    ensures r.0.Some? ==> |r.1| + 2 <= |ts| && ts[|ts| - |r.1| - 2] == Ident("struct")
                          && ts[|ts| - |r.1| - 1] == r.0.value
  {
    if |ts| == 0 then (None, [])
    else if ts[0] == Ident("struct") then
      (if |ts| > 1 then (Some(ts[1]), ts[2..]) else (None, []))
    else
      var tail := ts[1..];
      var r := NextStructName(tail);
      var n := |ts| - |r.1|;
      assert tail[n - 1..] == ts[n..];
      assert r.0.Some? ==> tail[n - 3] == ts[n - 2] && tail[n - 2] == ts[n - 1];
      r
  }

  /**
    `NextStructName` finds the first `struct`: the name is the token right after
    it and the rest follows the name; there is no name exactly when no `struct`
    stands before the last token.
   */
  lemma {:induction false} NextStructNameSpec(ts: seq<Token>)
    ensures NextStructName(ts).0.Some? ==>
      exists k :: 0 <= k < |ts| - 1 && ts[k] == Ident("struct") &&
        (forall j :: 0 <= j < k ==> ts[j] != Ident("struct")) &&
        NextStructName(ts).0.value == ts[k + 1] && NextStructName(ts).1 == ts[k + 2..]
    ensures NextStructName(ts).0.None? <==> forall k :: 0 <= k < |ts| - 1 ==> ts[k] != Ident("struct")
  {
    NextStructNameFound(ts);
    NextStructNameMissing(ts);
  }

  /** A name found follows the first `struct`, and the rest follows the name. */
  lemma {:induction false} NextStructNameFound(ts: seq<Token>)
    ensures NextStructName(ts).0.Some? ==>
      exists k :: 0 <= k < |ts| - 1 && ts[k] == Ident("struct") &&
        (forall j :: 0 <= j < k ==> ts[j] != Ident("struct")) &&
        NextStructName(ts).0.value == ts[k + 1] && NextStructName(ts).1 == ts[k + 2..]
  {
    var r := NextStructName(ts);
    if r.0.Some? {
      FirstStruct(ts);
      var k := |ts| - |r.1| - 2;
      assert ts[k + 2..] == r.1;
    }
  }

  /** No name is found exactly when no `struct` stands before the last token. */
  lemma {:induction false} NextStructNameMissing(ts: seq<Token>)
    ensures NextStructName(ts).0.None? <==> forall k :: 0 <= k < |ts| - 1 ==> ts[k] != Ident("struct")
  {
    NoStructBeforeLast(ts);
    if NextStructName(ts).0.None? {
      forall k | 0 <= k < |ts| - 1 ensures ts[k] != Ident("struct") {
        NoStructAtNone(ts, k);
      }
    }
  }

  /** No `struct` stands before the one whose successor is the name. */
  lemma {:induction false} FirstStruct(ts: seq<Token>)
    ensures NextStructName(ts).0.Some? ==>
      forall j :: 0 <= j < |ts| - |NextStructName(ts).1| - 2 ==> ts[j] != Ident("struct")
    decreases |ts|
  {
    if |ts| > 0 && ts[0] != Ident("struct") {
      var rest := ts[1..];
      FirstStruct(rest);
      var r := NextStructName(rest);
      assert NextStructName(ts) == r;
      if r.0.Some? {
        forall j | 1 <= j < |ts| - |r.1| - 2 ensures ts[j] != Ident("struct") {
          assert ts[j] == rest[j - 1];
        }
      }
    }
  }

  /** With no name found, no position before the last token holds `struct`. */
  lemma {:induction false} NoStructAtNone(ts: seq<Token>, k: nat)
    requires NextStructName(ts).0.None? && k < |ts| - 1
    ensures ts[k] != Ident("struct")
    decreases k
  {
    if k > 0 {
      assert ts[0] != Ident("struct");
      NoStructAtNone(ts[1..], k - 1);
    }
  }

  /** Without a `struct` before the last token there is no name. */
  lemma {:induction false} NoStructBeforeLast(ts: seq<Token>)
    ensures (forall k :: 0 <= k < |ts| - 1 ==> ts[k] != Ident("struct")) ==> NextStructName(ts).0.None?
    decreases |ts|
  {
    if |ts| > 0 && ts[0] != Ident("struct") && forall k :: 0 <= k < |ts| - 1 ==> ts[k] != Ident("struct") {
      var rest := ts[1..];
      forall k | 0 <= k < |rest| - 1 ensures rest[k] != Ident("struct") {
        assert rest[k] == ts[k + 1];
      }
      NoStructBeforeLast(rest);
    }
  }

  /** `get_next_struct_name`, consuming the token iterator up to and including the name. */
  method GetNextStructName(ts: seq<Token>) returns (name: Option<Token>, rest: seq<Token>)
    ensures (name, rest) == NextStructName(ts)
  {
    var i := 0;
    while i < |ts|
      invariant 0 <= i <= |ts|
      invariant NextStructName(ts) == NextStructName(ts[i..])
    {
      var token := ts[i];
      i := i + 1;
      if token == Ident("struct") {
        if i < |ts| {
          return Some(ts[i]), ts[i + 1..];
        }
        return None, [];
      }
      assert ts[i..] == ts[i - 1..][1..];
    }
    return None, [];
  }

  // ---------------------------------------------------------------------------
  // get_struct_fields_from_stream
  // ---------------------------------------------------------------------------

  /**
    The parser's variables: `state` (0 waits for a field name, 1 for `:`, 2 reads
    the type), the current field name and type text, and the fields emitted so far.
   */
  datatype Parser = Parser(state: nat, name: string, ty: string, fields: seq<(string, string)>)

  const Start: Parser := Parser(0, "", "", [])

  /** The type text a token adds in state 2: `<` becomes `::<`. */
  function TypeTokenText(t: Token): string
  {
    match t
    case Ident(s) => s
    case Punct(c) => if c == '<' then "::<" else [c]
    case _ => ""
  }

  /**
    One iteration of the parsing loop. It only ever appends a field, exactly on a
    comma in state 2, and that field is the name and type text read so far.
   */
  function Step(p: Parser, t: Token): (q: Parser)
    ensures p.state <= 2 ==> q.state <= 2
    ensures |p.fields| <= |q.fields| <= |p.fields| + 1 && q.fields[..|p.fields|] == p.fields
    ensures |q.fields| == |p.fields| + 1 <==> p.state == 2 && t == Punct(',')
    ensures |q.fields| == |p.fields| + 1 ==> q.fields[|p.fields|] == (p.name, p.ty) && q.state == 0
  {
    if p.state == 0 then
      if t.Ident? && t.ident != "pub" then p.(name := t.ident, state := 1) else p
    else if p.state == 1 then
      if t == Punct(':') then p.(state := 2) else p
    else if p.state == 2 then
      if t == Punct(',') then Parser(0, "", "", p.fields + [(p.name, p.ty)])
      else p.(ty := p.ty + TypeTokenText(t))
    else p
  }

  /** The parser after the given tokens, from the given state. */
  function Run(p: Parser, ts: seq<Token>): Parser
    decreases |ts|
  {
    if |ts| == 0 then p else Step(Run(p, ts[..|ts| - 1]), ts[|ts| - 1])
  }

  /** What the parser returns: a field still open in state 2 is emitted too. */
  function Finish(p: Parser): seq<(string, string)>
  {
    if p.state == 2 then p.fields + [(p.name, p.ty)] else p.fields
  }

  /**
    `get_struct_fields_from_stream` as a function: every field name it returns is an
    identifier of the stream other than `pub`.
   */
  function StructFields(ts: seq<Token>): (fs: seq<(string, string)>)
    ensures forall i :: 0 <= i < |fs| ==> Ident(fs[i].0) in ts && fs[i].0 != "pub"
  {
    RunNames(ts);
    Finish(Run(Start, ts))
  }

  /** Every name the parser holds, emitted or current, is a non-`pub` identifier of the tokens read. */
  predicate NamesFrom(p: Parser, ts: seq<Token>)
  {
    (forall i :: 0 <= i < |p.fields| ==> Ident(p.fields[i].0) in ts && p.fields[i].0 != "pub") &&
    (p.state > 0 ==> Ident(p.name) in ts && p.name != "pub")
  }

  /** The parser started from `Start` only holds names it read from the tokens. */
  lemma {:induction false} RunNames(ts: seq<Token>)
    ensures NamesFrom(Run(Start, ts), ts)
    decreases |ts|
  {
    if |ts| > 0 {
      var init := ts[..|ts| - 1];
      RunNames(init);
      assert ts == init + [ts[|ts| - 1]];
      var p := Run(Start, init);
      var q := Step(p, ts[|ts| - 1]);
      assert forall t :: t in init ==> t in ts;
      forall i | 0 <= i < |q.fields|
        ensures Ident(q.fields[i].0) in ts && q.fields[i].0 != "pub"
      {
        if i < |p.fields| {
          assert q.fields[i] == q.fields[..|p.fields|][i] == p.fields[i];
        }
      }
    }
  }

  /** `get_struct_fields_from_stream`. */
  method GetStructFieldsFromStream(src: seq<Token>) returns (fields: seq<(string, string)>)
    ensures fields == StructFields(src)
  {
    fields := [];
    var state: nat := 0;
    var currentFieldName, currentFieldType := "", "";
    for i := 0 to |src|
      invariant Parser(state, currentFieldName, currentFieldType, fields) == Run(Start, src[..i])
    {
      assert src[..i + 1][..i] == src[..i];
      var it := src[i];
      if state == 0 {
        if it.Ident? && it.ident != "pub" {
          currentFieldName := it.ident;
          state := 1;
        }
      } else if state == 1 {
        if it.Punct? && it.ch == ':' {
          state := 2;
        }
      } else if state == 2 {
        if it.Ident? {
          currentFieldType := currentFieldType + it.ident;
        } else if it.Punct? {
          if it.ch == ',' {
            fields := fields + [(currentFieldName, currentFieldType)];
            currentFieldName, currentFieldType := "", "";
            state := 0;
          } else if it.ch == '<' {
            currentFieldType := currentFieldType + "::<";
          } else {
            currentFieldType := currentFieldType + [it.ch];
          }
        }
      }
    }
    assert src[..|src|] == src;
    if state == 2 {
      fields := fields + [(currentFieldName, currentFieldType)];
    }
  }

  /** Running over a concatenation runs over each part in turn. */
  lemma {:induction false} RunAppend(p: Parser, a: seq<Token>, b: seq<Token>)
    ensures Run(p, a + b) == Run(Run(p, a), b)
    decreases |b|
  {
    if |b| == 0 {
      assert a + b == a;
    } else {
      var b' := b[..|b| - 1];
      assert (a + b)[..|a + b| - 1] == a + b';
      RunAppend(p, a, b');
    }
  }

  // ---------------------------------------------------------------------------
  // The parser reads back the fields a struct declares
  // ---------------------------------------------------------------------------

  /** A field as written in the struct: optional `pub`, its name, and its type's tokens. */
  datatype FieldSrc = FieldSrc(isPub: bool, name: string, ty: seq<Token>)

  /** A name other than `pub`, and a type without a top-level comma. */
  predicate ValidField(f: FieldSrc)
  {
    f.name != "pub" && forall i :: 0 <= i < |f.ty| ==> f.ty[i] != Punct(',')
  }

  /** The type text the macro builds from a type's tokens. */
  function TypeText(ty: seq<Token>): string
    decreases |ty|
  {
    if |ty| == 0 then "" else TypeText(ty[..|ty| - 1]) + TypeTokenText(ty[|ty| - 1])
  }

  /** The tokens of one field: `[pub] name : type`. */
  function FieldTokens(f: FieldSrc): seq<Token>
  {
    (if f.isPub then [Ident("pub")] else []) + [Ident(f.name), Punct(':')] + f.ty
  }

  /** The body of a struct with the given fields, each followed by a comma. */
  function Body(fs: seq<FieldSrc>): seq<Token>
    decreases |fs|
  {
    if |fs| == 0 then [] else Body(fs[..|fs| - 1]) + FieldTokens(fs[|fs| - 1]) + [Punct(',')]
  }

  /** The pairs the macro should extract: each field's name and type text, in order. */
  function Declared(fs: seq<FieldSrc>): (r: seq<(string, string)>)
    ensures |r| == |fs|
    decreases |fs|
  {
    if |fs| == 0 then [] else Declared(fs[..|fs| - 1]) + [(fs[|fs| - 1].name, TypeText(fs[|fs| - 1].ty))]
  }

  /** The i-th extracted pair is the i-th field's name and type text. */
  lemma {:induction false} DeclaredAt(fs: seq<FieldSrc>, i: nat)
    requires i < |fs|
    ensures Declared(fs)[i] == (fs[i].name, TypeText(fs[i].ty))
    decreases |fs|
  {
    if i < |fs| - 1 {
      DeclaredAt(fs[..|fs| - 1], i);
    }
  }

  /** In state 2, a comma-free type's tokens append exactly its type text. */
  lemma {:induction false} RunType(name: string, t: string, acc: seq<(string, string)>, ty: seq<Token>)
    requires forall i :: 0 <= i < |ty| ==> ty[i] != Punct(',')
    ensures Run(Parser(2, name, t, acc), ty) == Parser(2, name, t + TypeText(ty), acc)
    decreases |ty|
  {
    if |ty| > 0 {
      var ty' := ty[..|ty| - 1];
      RunType(name, t, acc, ty');
      assert t + TypeText(ty') + TypeTokenText(ty[|ty| - 1]) == t + TypeText(ty);
    }
  }

  /** A valid field's tokens take an idle parser to state 2 holding that field. */
  lemma RunField(acc: seq<(string, string)>, f: FieldSrc)
    requires ValidField(f)
    ensures Run(Parser(0, "", "", acc), FieldTokens(f)) == Parser(2, f.name, TypeText(f.ty), acc)
  {
    var p0 := Parser(0, "", "", acc);
    var lead := if f.isPub then [Ident("pub")] else [];
    var head := lead + [Ident(f.name), Punct(':')];
    assert Run(p0, lead) == p0 by {
      if f.isPub {
        assert lead[..0] == [];
      }
    }
    assert head[..|head| - 1] == lead + [Ident(f.name)];
    assert (lead + [Ident(f.name)])[..|lead|] == lead;
    assert Run(p0, head) == Parser(2, f.name, "", acc);
    RunAppend(p0, head, f.ty);
    RunType(f.name, "", acc, f.ty);
    assert "" + TypeText(f.ty) == TypeText(f.ty);
  }

  /** A body of valid, comma-terminated fields leaves the parser idle with every field emitted. */
  lemma {:induction false} RunBody(fs: seq<FieldSrc>)
    requires forall i :: 0 <= i < |fs| ==> ValidField(fs[i])
    ensures Run(Start, Body(fs)) == Parser(0, "", "", Declared(fs))
    decreases |fs|
  {
    if |fs| > 0 {
      var fs' := fs[..|fs| - 1];
      var f := fs[|fs| - 1];
      RunBody(fs');
      RunAppend(Start, Body(fs'), FieldTokens(f));
      RunField(Declared(fs'), f);
      var b := Body(fs') + FieldTokens(f);
      assert (b + [Punct(',')])[..|b|] == b;
    }
  }

  /** The parser reads back every declared field, in order. */
  lemma ParseBody(fs: seq<FieldSrc>)
    requires forall i :: 0 <= i < |fs| ==> ValidField(fs[i])
    ensures StructFields(Body(fs)) == Declared(fs)
  {
    RunBody(fs);
  }

  /** A last field without a trailing comma is still read back. */
  lemma ParseBodyWithoutTrailingComma(fs: seq<FieldSrc>)
    requires |fs| > 0 && forall i :: 0 <= i < |fs| ==> ValidField(fs[i])
    ensures StructFields(Body(fs[..|fs| - 1]) + FieldTokens(fs[|fs| - 1])) == Declared(fs)
  {
    var fs' := fs[..|fs| - 1];
    var f := fs[|fs| - 1];
    assert forall i :: 0 <= i < |fs'| ==> fs'[i] == fs[i];
    RunBody(fs');
    RunAppend(Start, Body(fs'), FieldTokens(f));
    RunField(Declared(fs'), f);
  }

  // ---------------------------------------------------------------------------
  // The generated code
  // ---------------------------------------------------------------------------

  /** ASCII lowercasing: `A`..`Z` become `a`..`z`, every other character stays. */
  function Lower(s: string): (r: string)
    ensures |r| == |s|
    ensures forall i :: 0 <= i < |s| ==> !('A' <= r[i] <= 'Z')
    ensures forall i :: 0 <= i < |s| ==> (r[i] == s[i] <==> !('A' <= s[i] <= 'Z'))
    ensures forall i :: 0 <= i < |s| && 'A' <= s[i] <= 'Z' ==> r[i] as int == s[i] as int + 32
  {
    seq(|s|, i requires 0 <= i < |s| =>
      if 'A' <= s[i] <= 'Z' then (s[i] as int - 'A' as int + 'a' as int) as char else s[i])
  }

  /** The table name of a struct: `y_` and its name lowercased. */
  function SchemaName(structName: string): (r: string)
    ensures |r| == |structName| + 2 && r[..2] == "y_"
    ensures r[2..] == Lower(structName)
  {
    "y_" + Lower(structName)
  }

  /** Two struct names that differ only in letter case share one table. */
  lemma SchemaNameIgnoresCase(a: string, b: string)
    requires |a| == |b|
    requires forall i :: 0 <= i < |a| ==> Lower([a[i]]) == Lower([b[i]])
    ensures SchemaName(a) == SchemaName(b)
  {
    forall i | 0 <= i < |a| ensures Lower(a)[i] == Lower(b)[i] {
      assert Lower([a[i]])[0] == Lower(a)[i];
      assert Lower([b[i]])[0] == Lower(b)[i];
    }
  }

  /** `("name".to_string(), Type::db_field_type())`. */
  function FieldEntry(f: (string, string)): string
  {
    "(\"" + f.0 + "\".to_string(), " + f.1 + "::db_field_type())"
  }

  /** `Box::new(self.name.to_db_data())`. */
  function ValueEntry(f: (string, string)): string
  {
    "Box::new(self." + f.0 + ".to_db_data())"
  }

  /** `name: Type::from_db_data(&values[i])`. */
  function CtorEntry(f: (string, string), i: nat): string
  {
    f.0 + ": " + f.1 + "::from_db_data(&values[" + NatToString(i) + "])"
  }

  function FieldEntries(fields: seq<(string, string)>): (r: seq<string>)
    ensures |r| == |fields| && forall i :: 0 <= i < |fields| ==> r[i] == FieldEntry(fields[i])
  {
    seq(|fields|, i requires 0 <= i < |fields| => FieldEntry(fields[i]))
  }

  function ValueEntries(fields: seq<(string, string)>): (r: seq<string>)
    ensures |r| == |fields| && forall i :: 0 <= i < |fields| ==> r[i] == ValueEntry(fields[i])
  {
    seq(|fields|, i requires 0 <= i < |fields| => ValueEntry(fields[i]))
  }

  function CtorEntries(fields: seq<(string, string)>): (r: seq<string>)
    ensures |r| == |fields| && forall i :: 0 <= i < |fields| ==> r[i] == CtorEntry(fields[i], i)
  {
    seq(|fields|, i requires 0 <= i < |fields| => CtorEntry(fields[i], i))
  }

  /** The i-th constructor entry reads `values[i]`: its index text denotes i, and no other entry's does. */
  lemma CtorEntryIndex(fields: seq<(string, string)>, i: nat, j: nat)
    requires i < |fields| && j < |fields|
    ensures CtorEntries(fields)[i] == fields[i].0 + ": " + fields[i].1 + "::from_db_data(&values[" + NatToString(i) + "])"
    ensures DigitsValue(NatToString(i)) == i
    ensures NatToString(i) == NatToString(j) ==> i == j
  {
    NatToStringRoundTrip(i);
    if NatToString(i) == NatToString(j) {
      NatToStringInjective(i, j);
    }
  }

  /** The `vec![..]` of (name, data type) pairs that `get_fields` returns. */
  function FieldsVecCode(fields: seq<(string, string)>): string
  {
    "vec![" + Join(FieldEntries(fields), ", ") + "]"
  }

  /** The `vec![..]` of boxed cells that `get_values` returns. */
  function ValuesVecCode(fields: seq<(string, string)>): string
  {
    "vec![" + Join(ValueEntries(fields), ", ") + "]"
  }

  /** The struct literal that `create_with_values` returns. */
  function CreateWithValuesCode(structName: string, fields: seq<(string, string)>): string
  {
    structName + "{" + Join(CtorEntries(fields), ", ") + "}"
  }

  /** `get_fields_vec_code`. */
  method GetFieldsVecCode(fields: seq<(string, string)>) returns (s: string)
    ensures s == FieldsVecCode(fields)
  {
    var entries := FieldEntries(fields);
    s := "vec![";
    for i := 0 to |fields|
      invariant s == "vec![" + Join(entries[..i], ", ")
    {
      JoinSnoc(entries, ", ", i);
      if i != 0 {
        s := s + ", ";
      }
      s := s + FieldEntry(fields[i]);
    }
    assert entries[..|fields|] == entries;
    s := s + "]";
  }

  /** `get_values_vec_code`. */
  method GetValuesVecCode(fields: seq<(string, string)>) returns (s: string)
    ensures s == ValuesVecCode(fields)
  {
    var entries := ValueEntries(fields);
    s := "vec![";
    for i := 0 to |fields|
      invariant s == "vec![" + Join(entries[..i], ", ")
    {
      JoinSnoc(entries, ", ", i);
      if i != 0 {
        s := s + ", ";
      }
      s := s + ValueEntry(fields[i]);
    }
    assert entries[..|fields|] == entries;
    s := s + "]";
  }

  /** `get_create_with_values_code`. */
  method GetCreateWithValuesCode(structName: string, fields: seq<(string, string)>) returns (s: string)
    ensures s == CreateWithValuesCode(structName, fields)
  {
    var entries := CtorEntries(fields);
    var head := structName + "{";
    s := head;
    for i := 0 to |fields|
      invariant s == head + Join(entries[..i], ", ")
    {
      JoinSnoc(entries, ", ", i);
      if i != 0 {
        s := s + ", ";
      }
      s := s + CtorEntry(fields[i], i);
    }
    assert entries[..|fields|] == entries;
    s := s + "}";
  }

  // The fixed text of the generated impl block, between the pieces inserted into it.
  const ImplHead := "impl yoshino_core::Schema for "
  const SchemaNameHead := " {\n    fn get_schema_name() -> String {\n        \""
  const FieldsHead := "\".to_owned()\n    }\n    fn get_fields() -> Vec<(String, yoshino_core::db::DbDataType)> {\n        "
  const ValuesHead := "\n    }\n    fn get_values(&self) -> Vec<Box<dyn yoshino_core::db::DbData>> {\n        "
  const CtorHead := "\n    }\n    fn create_with_values(values: Vec<Box<dyn yoshino_core::db::DbData>>) -> "
  const CtorBodyHead := " {\n        "
  const ImplTail := "\n    }\n}"

  /** The `impl yoshino_core::Schema` text around the three generated bodies. */
  function ImplText(structName: string, fieldsCode: string, valuesCode: string, ctorCode: string): string
  {
    ImplHead + structName + SchemaNameHead + SchemaName(structName) + FieldsHead + fieldsCode
    + ValuesHead + valuesCode + CtorHead + structName + CtorBodyHead + ctorCode + ImplTail
  }

  /** The `impl yoshino_core::Schema` block for a struct and its parsed fields. */
  function ImplCode(structName: string, fields: seq<(string, string)>): string
  {
    ImplText(structName, FieldsVecCode(fields), ValuesVecCode(fields), CreateWithValuesCode(structName, fields))
  }

  // ---------------------------------------------------------------------------
  // derive_schema_fn
  // ---------------------------------------------------------------------------

  /** The macro's two panics. */
  datatype DeriveError = NoStructName | NotStructStruct

  /**
    The tokens after the name, scanned left to right: the last brace group is
    kept, any other group is an error, and every other token is ignored.
   */
  function ScanItem(ts: seq<Token>, found: Option<seq<Token>>): (r: Result<Option<seq<Token>>, DeriveError>)
    ensures r.Failure? <==> exists i :: 0 <= i < |ts| && ts[i].Group? && ts[i].delim != Brace
    ensures r.Failure? ==> r.error == NotStructStruct
    ensures r.Success? && r.value != found ==> r.value.Some? && Group(Brace, r.value.value) in ts
    ensures (forall i :: 0 <= i < |ts| ==> !ts[i].Group?) ==> r == Success(found)
    decreases |ts|
  {
    if |ts| == 0 then Success(found)
    else match ts[0]
      case Group(d, stream) =>
        if d == Brace then ScanItem(ts[1..], Some(stream))
        else Failure(NotStructStruct)
      case _ => ScanItem(ts[1..], found)
  }

  /** What the macro learns from an item: the struct's name and the body of its last brace group. */
  datatype Expansion = Expansion(structName: string, body: Option<seq<Token>>)

  /** The name and the struct body of an item, or the panic the macro raises on it. */
  function Expand(ts: seq<Token>): Result<Expansion, DeriveError>
  {
    var (name, rest) := NextStructName(ts);
    if name.None? then Failure(NoStructName)
    else match ScanItem(rest, None)
      case Failure(e) => Failure(e)
      case Success(found) => Success(Expansion(TokenText(name.value), found))
  }

  /** The generated code: empty when no brace group was seen, else the impl for the fields parsed out of it. */
  function CodeFor(structName: string, body: Option<seq<Token>>): string
  {
    match body
    case None => ""
    case Some(stream) => ImplCode(structName, StructFields(stream))
  }

  /** What the macro expands an item to, before the text is parsed back into tokens. */
  function DeriveSchema(ts: seq<Token>): (r: Result<string, DeriveError>)
    ensures r == Failure(NoStructName) <==> NextStructName(ts).0.None?
    ensures r == Failure(NotStructStruct) <==>
      NextStructName(ts).0.Some? &&
      exists i :: 0 <= i < |NextStructName(ts).1| && NextStructName(ts).1[i].Group? && NextStructName(ts).1[i].delim != Brace
    ensures NextStructName(ts).0.Some? && (forall i :: 0 <= i < |NextStructName(ts).1| ==> !NextStructName(ts).1[i].Group?)
            ==> r == Success("")
  {
    match Expand(ts)
    case Failure(e) => Failure(e)
    case Success(x) => Success(CodeFor(x.structName, x.body))
  }

  /** The impl generated for one brace group, as the loop body of `derive_schema_fn` builds it. */
  method ImplForGroup(structName: string, stream: seq<Token>) returns (code: string)
    ensures code == ImplCode(structName, StructFields(stream))
  {
    var fields := GetStructFieldsFromStream(stream);
    var fieldsCode := GetFieldsVecCode(fields);
    var valuesCode := GetValuesVecCode(fields);
    var ctorCode := GetCreateWithValuesCode(structName, fields);
    code := ImplText(structName, fieldsCode, valuesCode, ctorCode);
  }

  /** One step of `ScanItem` from position `i` of the remaining tokens. */
  lemma ScanItemStep(ts: seq<Token>, i: nat, found: Option<seq<Token>>)
    requires i < |ts|
    ensures ScanItem(ts[i..], found)
         == if !ts[i].Group? then ScanItem(ts[i + 1..], found)
            else if ts[i].delim == Brace then ScanItem(ts[i + 1..], Some(ts[i].stream))
            else Failure(NotStructStruct)
  {
    assert ts[i..][1..] == ts[i + 1..];
  }

  /** `derive_schema_fn`. */
  method DeriveSchemaFn(src: seq<Token>) returns (r: Result<string, DeriveError>)
    ensures r == DeriveSchema(src)
  {
    var name, rest := GetNextStructName(src);
    if name.None? {
      return Failure(NoStructName);
    }
    var structName := TokenText(name.value);
    var derivedCode := "";
    ghost var found: Option<seq<Token>> := None;
    for i := 0 to |rest|
      invariant ScanItem(rest, None) == ScanItem(rest[i..], found)
      invariant derivedCode == CodeFor(structName, found)
    {
      ScanItemStep(rest, i, found);
      match rest[i] {
        case Group(d, stream) =>
          if d == Brace {
            derivedCode := ImplForGroup(structName, stream);
            found := Some(stream);
          } else {
            return Failure(NotStructStruct);
          }
        case Ident(_) =>
        case Punct(_) =>
        case Literal(_) =>
      }
    }
    return Success(derivedCode);
  }

  /**
    For `[pub] struct Name { fields }` the macro reads the name `Name` and exactly
    the declared fields, in order.
   */
  lemma DeriveStruct(isPub: bool, structName: string, fs: seq<FieldSrc>)
    requires forall i :: 0 <= i < |fs| ==> ValidField(fs[i])
    ensures Expand(StructItem(isPub, structName, Body(fs))) == Success(Expansion(structName, Some(Body(fs))))
    ensures StructFields(Body(fs)) == Declared(fs)
  {
    DeriveItem(isPub, structName, Body(fs));
    ParseBody(fs);
  }

  /** For `[pub] struct Name { body }` the macro reads the name `Name` and the fields parsed out of the body. */
  lemma DeriveItem(isPub: bool, structName: string, body: seq<Token>)
    ensures Expand(StructItem(isPub, structName, body)) == Success(Expansion(structName, Some(body)))
  {
    StructItemName(isPub, structName, body);
    var g := [Group(Brace, body)];
    assert g[1..] == [];
    assert ScanItem(g, None) == Success(Some(body));
    assert TokenText(Ident(structName)) == structName;
  }

  /** The tokens of `[pub] struct Name { body }`. */
  function StructItem(isPub: bool, structName: string, body: seq<Token>): seq<Token>
  {
    (if isPub then [Ident("pub")] else []) + [Ident("struct"), Ident(structName), Group(Brace, body)]
  }

  /** The name of `[pub] struct Name { body }` is `Name`, followed by the body group. */
  lemma StructItemName(isPub: bool, structName: string, body: seq<Token>)
    ensures NextStructName(StructItem(isPub, structName, body)) == (Some(Ident(structName)), [Group(Brace, body)])
  {
    var ts := StructItem(isPub, structName, body);
    var tail := [Ident("struct"), Ident(structName), Group(Brace, body)];
    assert tail[2..] == [Group(Brace, body)];
    if isPub {
      assert ts[1..] == tail;
    } else {
      assert ts == tail;
    }
  }

  /** The code generated for `[pub] struct Name { fields }` is the impl for `Name` and exactly its declared fields. */
  lemma DeriveStructCode(isPub: bool, structName: string, fs: seq<FieldSrc>)
    requires forall i :: 0 <= i < |fs| ==> ValidField(fs[i])
    ensures DeriveSchema(StructItem(isPub, structName, Body(fs))) == Success(ImplCode(structName, Declared(fs)))
  {
    DeriveStruct(isPub, structName, fs);
    ExpansionCode(StructItem(isPub, structName, Body(fs)), structName, Body(fs));
  }

  /** An item whose expansion has a brace body generates the impl for the fields parsed out of it. */
  lemma ExpansionCode(ts: seq<Token>, structName: string, body: seq<Token>)
    requires Expand(ts) == Success(Expansion(structName, Some(body)))
    ensures DeriveSchema(ts) == Success(ImplCode(structName, StructFields(body)))
  {
  }

  /** An item with no `struct` keyword before its last token makes the macro panic for want of a name. */
  lemma DeriveWithoutStruct(ts: seq<Token>)
    requires forall k :: 0 <= k < |ts| - 1 ==> ts[k] != Ident("struct")
    ensures DeriveSchema(ts) == Failure(NoStructName)
  {
    NextStructNameSpec(ts);
  }

  /** A tuple struct `[pub] struct Name(..);` makes the macro panic: only brace-bodied structs derive. */
  lemma {:induction false} DeriveTupleStruct(isPub: bool, structName: string, body: seq<Token>)
    ensures DeriveSchema(StructItem(isPub, structName, body)[..|StructItem(isPub, structName, body)| - 1]
      + [Group(Parenthesis, body), Punct(';')]) == Failure(NotStructStruct)
  {
    var item := StructItem(isPub, structName, body);
    var ts := item[..|item| - 1] + [Group(Parenthesis, body), Punct(';')];
    var tail := [Ident("struct"), Ident(structName), Group(Parenthesis, body), Punct(';')];
    assert tail[2..] == [Group(Parenthesis, body), Punct(';')];
    if isPub {
      assert ts[1..] == tail;
    } else {
      assert ts == tail;
    }
    assert NextStructName(ts) == (Some(Ident(structName)), [Group(Parenthesis, body), Punct(';')]);
  }
}
