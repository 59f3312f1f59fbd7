/**
  Storage kinds, typed value cells, the per-kind field codecs and the schema
  contract of Yoshino's core crate (core/src/types.rs).

  The source moves values through `Box<dyn DbData>` objects read back through raw
  pointers; here a value cell is the tagged datatype `DbData`, whose variant is
  its storage kind and whose payload is the value itself.
 */
module Types {
  import opened Wrappers

  type byte = x: int | 0 <= x < 256
  type i64 = x: int | -0x8000_0000_0000_0000 <= x < 0x8000_0000_0000_0000

  /** The eight storage kinds (`DbDataType`). */
  datatype DbDataType = Int | NullableInt | Text | NullableText | Float | RowID | Binary | NullableBinary

  predicate IsNullableKind(k: DbDataType)
  {
    k == NullableInt || k == NullableText || k == NullableBinary
  }

  /** The auto-increment row id: not yet stored, or the id the database assigned. */
  datatype RowId = New | Id(id: i64)

  /** A 64-bit float, kept as its bit pattern: the model does no arithmetic on floats. */
  datatype Float64 = Float64(bits: bv64)

  /** One field's value in erased form: the variant is the storage kind. */
  datatype DbData =
    | IntData(i: i64)
    | NullableIntData(oi: Option<i64>)
    | TextData(s: string)
    | NullableTextData(os: Option<string>)
    | FloatData(f: Float64)
    | RowIdData(rid: RowId)
    | BinaryData(b: seq<byte>)
    | NullableBinaryData(ob: Option<seq<byte>>)

  function KindOf(d: DbData): DbDataType
  {
    match d
    case IntData(_) => Int
    case NullableIntData(_) => NullableInt
    case TextData(_) => Text
    case NullableTextData(_) => NullableText
    case FloatData(_) => Float
    case RowIdData(_) => RowID
    case BinaryData(_) => Binary
    case NullableBinaryData(_) => NullableBinary
  }

  /**
    The cell has no value: where the source hands out a null data pointer (an absent
    nullable value, or a row id that is still `NEW`).
   */
  predicate IsAbsent(d: DbData)
  {
    d == NullableIntData(None) || d == NullableTextData(None) ||
    d == NullableBinaryData(None) || d == RowIdData(New)
  }

  /** The byte length the backends bind with: the payload's size, 0 when absent. */
  function DataLen(d: DbData): nat
  {
    match d
    case IntData(_) => 8
    case NullableIntData(oi) => if oi.Some? then 8 else 0
    case TextData(s) => |s|
    case NullableTextData(os) => if os.Some? then |os.value| else 0
    case FloatData(_) => 8
    case RowIdData(r) => if r.Id? then 8 else 0
    case BinaryData(b) => |b|
    case NullableBinaryData(ob) => if ob.Some? then |ob.value| else 0
  }

  // ---------------------------------------------------------------------------
  // Field traits and their built-in implementations
  // ---------------------------------------------------------------------------

  /** The field traits a schema field's type implements (`TextField`, ..., and `RowID`'s own). */
  datatype FieldTrait =
    | TextField | NullableTextField | IntegerField | NullableIntegerField
    | FloatField | BinaryField | NullableBinaryField | RowIdField

  /** `db_field_type()`: the fixed storage kind of every type implementing the trait. */
  function DbFieldType(t: FieldTrait): DbDataType
  {
    match t
    case TextField => Text
    case NullableTextField => NullableText
    case IntegerField => Int
    case NullableIntegerField => NullableInt
    case FloatField => Float
    case BinaryField => Binary
    case NullableBinaryField => NullableBinary
    case RowIdField => RowID
  }

  /** Each storage kind is the kind of exactly one field trait. */
  lemma DbFieldTypeBijective(k: DbDataType, t1: FieldTrait, t2: FieldTrait)
    ensures exists t :: DbFieldType(t) == k
    ensures DbFieldType(t1) == DbFieldType(t2) ==> t1 == t2
  {
    match k
    case Int => assert DbFieldType(IntegerField) == k;
    case NullableInt => assert DbFieldType(NullableIntegerField) == k;
    case Text => assert DbFieldType(TextField) == k;
    case NullableText => assert DbFieldType(NullableTextField) == k;
    case Float => assert DbFieldType(FloatField) == k;
    case RowID => assert DbFieldType(RowIdField) == k;
    case Binary => assert DbFieldType(BinaryField) == k;
    case NullableBinary => assert DbFieldType(NullableBinaryField) == k;
  }

  /**
    A value of one of the built-in field types: `String`, `Option<String>`, `i64`,
    `Option<i64>`, `f64`, `Vec<u8>`, `Option<Vec<u8>>` and `RowID`.
   */
  datatype Native =
    | StringValue(s: string)
    | OptStringValue(os: Option<string>)
    | I64Value(i: i64)
    | OptI64Value(oi: Option<i64>)
    | F64Value(f: Float64)
    | BytesValue(b: seq<byte>)
    | OptBytesValue(ob: Option<seq<byte>>)
    | RowIdValue(r: RowId)

  /** The field trait each built-in type implements. */
  function TraitOf(v: Native): FieldTrait
  {
    match v
    case StringValue(_) => TextField
    case OptStringValue(_) => NullableTextField
    case I64Value(_) => IntegerField
    case OptI64Value(_) => NullableIntegerField
    case F64Value(_) => FloatField
    case BytesValue(_) => BinaryField
    case OptBytesValue(_) => NullableBinaryField
    case RowIdValue(_) => RowIdField
  }

  datatype DecodeError = KindMismatch(expected: DbDataType, found: DbDataType) | MissingValue

  /** `to_db_data()` of the built-in types: the value itself, copied or cloned into a cell. */
  function ToDbData(v: Native): (d: DbData)
    ensures KindOf(d) == DbFieldType(TraitOf(v))
    ensures IsAbsent(d) <==> v in {OptStringValue(None), OptI64Value(None), OptBytesValue(None), RowIdValue(New)}
  {
    match v
    case StringValue(s) => TextData(s)
    case OptStringValue(os) => NullableTextData(os)
    case I64Value(i) => IntData(i)
    case OptI64Value(oi) => NullableIntData(oi)
    case F64Value(f) => FloatData(f)
    case BytesValue(b) => BinaryData(b)
    case OptBytesValue(ob) => NullableBinaryData(ob)
    case RowIdValue(r) => RowIdData(r)
  }

  /**
    `from_db_data()`: reads a cell back as the trait's type. A cell of another kind
    is a checked error here (the source reinterprets the pointer).
   */
  function FromDbData(t: FieldTrait, d: DbData): (r: Result<Native, DecodeError>)
    ensures r.Success? <==> KindOf(d) == DbFieldType(t)
    ensures r.Success? ==> TraitOf(r.value) == t
    ensures r.Failure? ==> r.error == KindMismatch(DbFieldType(t), KindOf(d))
  {
    match (t, d)
    case (TextField, TextData(s)) => Success(StringValue(s))
    case (NullableTextField, NullableTextData(os)) => Success(OptStringValue(os))
    case (IntegerField, IntData(i)) => Success(I64Value(i))
    case (NullableIntegerField, NullableIntData(oi)) => Success(OptI64Value(oi))
    case (FloatField, FloatData(f)) => Success(F64Value(f))
    case (BinaryField, BinaryData(b)) => Success(BytesValue(b))
    case (NullableBinaryField, NullableBinaryData(ob)) => Success(OptBytesValue(ob))
    case (RowIdField, RowIdData(r)) => Success(RowIdValue(r))
    case _ => Failure(KindMismatch(DbFieldType(t), KindOf(d)))
  }

  /** Every built-in value survives encoding and decoding, absent values and empty payloads included. */
  lemma CodecRoundTrip(v: Native)
    ensures FromDbData(TraitOf(v), ToDbData(v)) == Success(v)
  {
  }

  /** Every cell a trait can decode is re-encoded to itself. */
  lemma CellRoundTrip(t: FieldTrait, d: DbData)
    requires KindOf(d) == DbFieldType(t)
    ensures FromDbData(t, d).Success? && ToDbData(FromDbData(t, d).value) == d
  {
  }

  // ---------------------------------------------------------------------------
  // The schema contract
  // ---------------------------------------------------------------------------

  /** A `(field name, storage kind)` pair of `get_fields()`. */
  type Field = (string, DbDataType)

  function ColumnNames(fields: seq<Field>): (r: seq<string>)
    ensures |r| == |fields|
    ensures forall i :: 0 <= i < |fields| ==> r[i] == fields[i].0
  {
    seq(|fields|, i requires 0 <= i < |fields| => fields[i].0)
  }

  /** `get_values()` follows `get_fields()`: one cell per field, of the field's kind. */
  predicate Conforms(fields: seq<Field>, values: seq<DbData>)
  {
    |values| == |fields| && forall i :: 0 <= i < |fields| ==> KindOf(values[i]) == fields[i].1
  }

  /** A struct field as the generated impl sees it: its name and the field trait of its type. */
  datatype FieldDecl = FieldDecl(name: string, fieldTrait: FieldTrait)

  /** Generated `get_fields()`: each field's name with its type's `db_field_type()`. */
  function SchemaFields(decls: seq<FieldDecl>): (r: seq<Field>)
    ensures |r| == |decls|
    ensures forall i :: 0 <= i < |decls| ==> r[i] == (decls[i].name, DbFieldType(decls[i].fieldTrait))
  {
    seq(|decls|, i requires 0 <= i < |decls| => (decls[i].name, DbFieldType(decls[i].fieldTrait)))
  }

  /** A record value fits the declarations: one value per field, of the field's type. */
  predicate IsRecordOf(decls: seq<FieldDecl>, record: seq<Native>)
  {
    |record| == |decls| && forall i :: 0 <= i < |decls| ==> TraitOf(record[i]) == decls[i].fieldTrait
  }

  /** Generated `get_values()`: `to_db_data()` of every field, in field order. */
  function RecordValues(record: seq<Native>): (r: seq<DbData>)
    ensures |r| == |record|
    ensures forall i :: 0 <= i < |record| ==> r[i] == ToDbData(record[i])
  {
    seq(|record|, i requires 0 <= i < |record| => ToDbData(record[i]))
  }

  /** The values of a record conform to its schema's field list. */
  lemma RecordValuesConform(decls: seq<FieldDecl>, record: seq<Native>)
    requires IsRecordOf(decls, record)
    ensures Conforms(SchemaFields(decls), RecordValues(record))
  {
  }

  /**
    Generated `create_with_values()`: field i is `from_db_data(&values[i])`, decoded in
    field order; a missing cell is the index panic, surplus cells are ignored.
   */
  function CreateWithValues(decls: seq<FieldDecl>, cells: seq<DbData>): (r: Result<seq<Native>, DecodeError>)
    ensures r.Success? ==> IsRecordOf(decls, r.value)
    ensures |cells| < |decls| ==> r.Failure?
    decreases |decls|
  {
    if |decls| == 0 then Success([])
    else if |cells| == 0 then Failure(MissingValue)
    else match FromDbData(decls[0].fieldTrait, cells[0])
      case Failure(e) => Failure(e)
      case Success(v) =>
        match CreateWithValues(decls[1..], cells[1..])
        case Failure(e) => Failure(e)
        case Success(vs) => Success([v] + vs)
  }

  /**
    Cells that conform to a schema's field list always rebuild a record, and that
    record's values are the cells again.
   */
  lemma {:induction false} CreateWithValuesConforming(decls: seq<FieldDecl>, cells: seq<DbData>)
    requires Conforms(SchemaFields(decls), cells)
    ensures CreateWithValues(decls, cells).Success?
    ensures RecordValues(CreateWithValues(decls, cells).value) == cells
    decreases |decls|
  {
    if |decls| > 0 {
      CellRoundTrip(decls[0].fieldTrait, cells[0]);
      assert SchemaFields(decls[1..]) == SchemaFields(decls)[1..];
      CreateWithValuesConforming(decls[1..], cells[1..]);
      var v := FromDbData(decls[0].fieldTrait, cells[0]).value;
      var vs := CreateWithValues(decls[1..], cells[1..]).value;
      assert RecordValues([v] + vs) == [ToDbData(v)] + RecordValues(vs);
      assert cells == [cells[0]] + cells[1..];
    }
  }

  /** Rebuilding a record from its own values gives the record back, field for field. */
  lemma {:induction false} RecordRoundTrip(decls: seq<FieldDecl>, record: seq<Native>)
    requires IsRecordOf(decls, record)
    ensures CreateWithValues(decls, RecordValues(record)) == Success(record)
    decreases |decls|
  {
    if |decls| > 0 {
      CodecRoundTrip(record[0]);
      RecordRoundTrip(decls[1..], record[1..]);
      assert RecordValues(record)[1..] == RecordValues(record[1..]);
      assert [record[0]] + record[1..] == record;
    }
  }

  // ---------------------------------------------------------------------------
  // get_row_id_field
  // ---------------------------------------------------------------------------

  datatype SchemaError = MultipleRowIdFields(schemaName: string)

  /** The panic message, naming the schema. */
  function ErrorMessage(e: SchemaError): string
  {
    "Multiple Row ID fields found in " + e.schemaName
  }

  /** The positions of the RowID fields, in ascending order. */
  function RowIdIndices(fields: seq<Field>): (r: seq<nat>)
    ensures forall k :: 0 <= k < |r| ==> r[k] < |fields| && fields[r[k]].1 == RowID
    decreases |fields|
  {
    if |fields| == 0 then []
    else
      var init := fields[..|fields| - 1];
      RowIdIndices(init) + (if fields[|fields| - 1].1 == RowID then [|fields| - 1] else [])
  }

  /** `RowIdIndices` lists exactly the RowID positions, each once, in ascending order. */
  lemma {:induction false} RowIdIndicesSound(fields: seq<Field>)
    ensures forall k :: 0 <= k < |RowIdIndices(fields)| ==>
      RowIdIndices(fields)[k] < |fields| && fields[RowIdIndices(fields)[k]].1 == RowID
    ensures forall i :: 0 <= i < |fields| && fields[i].1 == RowID ==> i in RowIdIndices(fields)
    ensures forall k, l :: 0 <= k < l < |RowIdIndices(fields)| ==>
      RowIdIndices(fields)[k] < RowIdIndices(fields)[l]
    decreases |fields|
  {
    if |fields| > 0 {
      var init := fields[..|fields| - 1];
      RowIdIndicesSound(init);
      assert forall i :: 0 <= i < |init| ==> init[i] == fields[i];
    }
  }

  /** The RowID positions of a prefix are a prefix of the RowID positions. */
  lemma {:induction false} RowIdIndicesPrefix(fields: seq<Field>, j: nat)
    requires j <= |fields|
    ensures RowIdIndices(fields[..j]) <= RowIdIndices(fields)
    decreases |fields| - j
  {
    if j < |fields| {
      RowIdIndicesPrefix(fields, j + 1);
      assert fields[..j + 1][..j] == fields[..j];
    } else {
      assert fields[..j] == fields;
    }
  }

  /** What `get_row_id_field` returns, as a function of the field list and the values. */
  function RowIdFieldOf(schemaName: string, fields: seq<Field>, values: seq<DbData>)
    : (r: Result<Option<(string, RowId)>, SchemaError>)
    requires Conforms(fields, values)
    ensures r.Success? && r.value.None? ==> forall i :: 0 <= i < |fields| ==> fields[i].1 != RowID
    ensures r.Success? && r.value.Some? ==>
      (exists i :: 0 <= i < |fields| && fields[i] == (r.value.value.0, RowID) && values[i] == RowIdData(r.value.value.1))
    ensures r.Failure? ==> r.error == MultipleRowIdFields(schemaName)
  {
    RowIdIndicesSound(fields);
    var idx := RowIdIndices(fields);
    if |idx| == 0 then Success(None)
    else if |idx| == 1 then Success(Some((fields[idx[0]].0, values[idx[0]].rid)))
    else Failure(MultipleRowIdFields(schemaName))
  }

  /** Without RowID fields there are no RowID positions. */
  lemma {:induction false} RowIdIndicesNone(fields: seq<Field>)
    requires forall i :: 0 <= i < |fields| ==> fields[i].1 != RowID
    ensures RowIdIndices(fields) == []
    decreases |fields|
  {
    if |fields| > 0 {
      RowIdIndicesNone(fields[..|fields| - 1]);
    }
  }

  /** With a single RowID field at i, i is the only RowID position. */
  lemma {:induction false} RowIdIndicesOne(fields: seq<Field>, i: nat)
    requires i < |fields| && fields[i].1 == RowID
    requires forall j :: 0 <= j < |fields| && j != i ==> fields[j].1 != RowID
    ensures RowIdIndices(fields) == [i]
    decreases |fields|
  {
    var init := fields[..|fields| - 1];
    if i == |fields| - 1 {
      RowIdIndicesNone(init);
    } else {
      RowIdIndicesOne(init, i);
    }
  }

  /** No RowID field: the answer is `None`. */
  lemma RowIdFieldAbsent(schemaName: string, fields: seq<Field>, values: seq<DbData>)
    requires Conforms(fields, values)
    requires forall i :: 0 <= i < |fields| ==> fields[i].1 != RowID
    ensures RowIdFieldOf(schemaName, fields, values) == Success(None)
  {
    RowIdIndicesNone(fields);
  }

  /** Exactly one RowID field, at i: the answer is its name and the row id stored in `values[i]`. */
  lemma RowIdFieldUnique(schemaName: string, fields: seq<Field>, values: seq<DbData>, i: nat)
    requires Conforms(fields, values)
    requires i < |fields| && fields[i].1 == RowID
    requires forall j :: 0 <= j < |fields| && j != i ==> fields[j].1 != RowID
    ensures values[i] == RowIdData(values[i].rid)
    ensures RowIdFieldOf(schemaName, fields, values) == Success(Some((fields[i].0, values[i].rid)))
  {
    RowIdIndicesOne(fields, i);
  }

  /** Two RowID fields: the call is the fatal error naming the schema. */
  lemma RowIdFieldMultiple(schemaName: string, fields: seq<Field>, values: seq<DbData>, i: nat, j: nat)
    requires Conforms(fields, values)
    requires i < j < |fields| && fields[i].1 == RowID && fields[j].1 == RowID
    ensures RowIdFieldOf(schemaName, fields, values) == Failure(MultipleRowIdFields(schemaName))
    ensures ErrorMessage(RowIdFieldOf(schemaName, fields, values).error) == "Multiple Row ID fields found in " + schemaName
  {
    RowIdIndicesSound(fields);
    var idx := RowIdIndices(fields);
    assert i in idx && j in idx;
    var k :| 0 <= k < |idx| && idx[k] == i;
    var l :| 0 <= l < |idx| && idx[l] == j;
    assert k != l;
  }

  /** Inserting a field at k shifts the later fields by one and keeps the row conforming. */
  lemma InsertField(fields: seq<Field>, values: seq<DbData>, k: nat, f: Field, v: DbData)
    requires Conforms(fields, values)
    requires k <= |fields| && KindOf(v) == f.1
    ensures var fs := fields[..k] + [f] + fields[k..];
      |fs| == |fields| + 1 && fs[k] == f &&
      (forall i :: 0 <= i < k ==> fs[i] == fields[i]) &&
      (forall i :: k < i < |fs| ==> fs[i] == fields[i - 1])
    ensures Conforms(fields[..k] + [f] + fields[k..], values[..k] + [v] + values[k..])
  {
    var fs, vs := fields[..k] + [f] + fields[k..], values[..k] + [v] + values[k..];
    assert forall i :: 0 <= i < k ==> fs[i] == fields[i] && vs[i] == values[i];
    assert forall i :: k < i < |fs| ==> fs[i] == fields[i - 1] && vs[i] == values[i - 1];
  }

  /**
    Fields of the other kinds do not matter: inserting one anywhere (with its value)
    leaves the answer unchanged.
   */
  lemma {:induction false} RowIdFieldIgnoresOtherKinds(schemaName: string, fields: seq<Field>, values: seq<DbData>,
                                    k: nat, f: Field, v: DbData)
    requires Conforms(fields, values)
    requires k <= |fields| && f.1 != RowID && KindOf(v) == f.1
    ensures Conforms(fields[..k] + [f] + fields[k..], values[..k] + [v] + values[k..])
    ensures RowIdFieldOf(schemaName, fields[..k] + [f] + fields[k..], values[..k] + [v] + values[k..])
         == RowIdFieldOf(schemaName, fields, values)
  {
    InsertField(fields, values, k, f, v);
    var fs, vs := fields[..k] + [f] + fields[k..], values[..k] + [v] + values[k..];
    RowIdIndicesSound(fields);
    var idx := RowIdIndices(fields);
    if |idx| == 0 {
      forall j | 0 <= j < |fields| ensures fields[j].1 != RowID {
        assert fields[j].1 == RowID ==> j in idx;
      }
      forall j | 0 <= j < |fs| ensures fs[j].1 != RowID {
        assert j < k || j == k || fs[j] == fields[j - 1];
      }
      RowIdFieldAbsent(schemaName, fields, values);
      RowIdFieldAbsent(schemaName, fs, vs);
    } else if |idx| == 1 {
      var i := idx[0];
      forall j | 0 <= j < |fields| && j != i ensures fields[j].1 != RowID {
        assert fields[j].1 == RowID ==> j in idx;
      }
      RowIdFieldUnique(schemaName, fields, values, i);
      var i' := if i < k then i else i + 1;
      forall j | 0 <= j < |fs| && j != i' ensures fs[j].1 != RowID {
        assert j < k || j == k || fs[j] == fields[j - 1];
      }
      assert vs[i'] == values[i];
      RowIdFieldUnique(schemaName, fs, vs, i');
    } else {
      var i, j := idx[0], idx[1];
      RowIdFieldMultiple(schemaName, fields, values, i, j);
      var i', j' := (if i < k then i else i + 1), (if j < k then j else j + 1);
      RowIdFieldMultiple(schemaName, fs, vs, i', j');
    }
  }

  /** The RowID positions of a prefix one field longer. */
  lemma RowIdIndicesSnoc(fields: seq<Field>, i: nat)
    requires i < |fields|
    ensures RowIdIndices(fields[..i + 1])
         == RowIdIndices(fields[..i]) + (if fields[i].1 == RowID then [i] else [])
  {
    assert fields[..i + 1][..i] == fields[..i];
  }

  /** In a conforming row, the values at the RowID fields are row ids. */
  lemma ConformsRowIds(fields: seq<Field>, values: seq<DbData>)
    requires Conforms(fields, values)
    ensures forall i :: 0 <= i < |fields| && fields[i].1 == RowID ==> values[i].RowIdData?
  {
  }

  /**
    `Schema::get_row_id_field`: scans the fields in order, keeps the first RowID
    field's name and decoded value, and fails with the schema's name on a second one.
   */
  method GetRowIdField(schemaName: string, fields: seq<Field>, values: seq<DbData>)
    returns (r: Result<Option<(string, RowId)>, SchemaError>)
    requires Conforms(fields, values)
    ensures r == RowIdFieldOf(schemaName, fields, values)
  {
    var answer: Option<(string, RowId)> := None;
    ConformsRowIds(fields, values);
    for i := 0 to |fields|
      invariant |RowIdIndices(fields[..i])| <= 1
      invariant answer == (if |RowIdIndices(fields[..i])| == 0 then None
                           else var j := RowIdIndices(fields[..i])[0]; Some((fields[j].0, values[j].rid)))
    {
      RowIdIndicesSnoc(fields, i);
      if fields[i].1 == RowID {
        if answer.None? {
          answer := Some((fields[i].0, values[i].rid));
        } else {
          RowIdIndicesPrefix(fields, i + 1);
          return Failure(MultipleRowIdFields(schemaName));
        }
      }
    }
    assert fields[..|fields|] == fields;
    r := Success(answer);
  }
}
