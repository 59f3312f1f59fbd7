/**
  Yoshino's query conditions (core/src/query_cond.rs): the predicate tree the
  database adaptors compile into a WHERE clause, its builders, and the condition
  that selects a record by its row id.
 */
module QueryCond {
  import opened Wrappers
  import opened SqlText
  import opened Types

  /**
    A query condition. The variants are the twelve both SQL compilers match on:
    null tests, text equality, the six integer comparisons, and the three
    connectives.
   */
  datatype Cond =
    | IsNull(fieldName: string)
    | IsNotNull(fieldName: string)
    | TextEqualTo(fieldName: string, text: string)
    | IntegerEqualTo(fieldName: string, value: i64)
    | IntegerNotEqualTo(fieldName: string, value: i64)
    | IntegerGreaterThan(fieldName: string, value: i64)
    | IntegerLessThan(fieldName: string, value: i64)
    | IntegerGreaterThanOrEqualTo(fieldName: string, value: i64)
    | IntegerLessThanOrEqualTo(fieldName: string, value: i64)
    | And(left: Cond, right: Cond)
    | Or(left: Cond, right: Cond)
    | Not(cond: Cond)

  /** A comparison of an integer field with a literal. */
  predicate IsIntegerComparison(c: Cond)
  {
    c.IntegerEqualTo? || c.IntegerNotEqualTo? || c.IntegerGreaterThan? ||
    c.IntegerLessThan? || c.IntegerGreaterThanOrEqualTo? || c.IntegerLessThanOrEqualTo?
  }

  /**
    The literals of the leaves, left to right: an `i64` cell for an integer
    comparison, a text cell for a text equality, nothing for a null test. These are
    the values a compiled condition binds.
   */
  function Literals(c: Cond): (r: seq<DbData>)
    ensures IsIntegerComparison(c) ==> r == [IntData(c.value)]
    ensures c.IsNull? || c.IsNotNull? ==> r == []
  {
    match c
    case IsNull(_) => []
    case IsNotNull(_) => []
    case TextEqualTo(_, t) => [TextData(t)]
    case IntegerEqualTo(_, v) => [IntData(v)]
    case IntegerNotEqualTo(_, v) => [IntData(v)]
    case IntegerGreaterThan(_, v) => [IntData(v)]
    case IntegerLessThan(_, v) => [IntData(v)]
    case IntegerGreaterThanOrEqualTo(_, v) => [IntData(v)]
    case IntegerLessThanOrEqualTo(_, v) => [IntData(v)]
    case And(l, r) => Literals(l) + Literals(r)
    case Or(l, r) => Literals(l) + Literals(r)
    case Not(c') => Literals(c')
  }

  /** The field names the leaves test, left to right. */
  function FieldNames(c: Cond): seq<string>
  {
    match c
    case And(l, r) => FieldNames(l) + FieldNames(r)
    case Or(l, r) => FieldNames(l) + FieldNames(r)
    case Not(c') => FieldNames(c')
    case _ => [c.fieldName]
  }

  /** No field name of the condition holds a `?`, the placeholder mark. */
  predicate FieldsUnmarked(c: Cond)
  {
    forall i :: 0 <= i < |FieldNames(c)| ==> Unmarked(FieldNames(c)[i])
  }

  /** An unmarked composite has unmarked children. */
  lemma FieldsUnmarkedChildren(c: Cond)
    requires FieldsUnmarked(c)
    ensures c.And? || c.Or? ==> FieldsUnmarked(c.left) && FieldsUnmarked(c.right)
    ensures c.Not? ==> FieldsUnmarked(c.cond)
    ensures !(c.And? || c.Or? || c.Not?) ==> Unmarked(c.fieldName)
  {
    if c.And? || c.Or? {
      var l, r := FieldNames(c.left), FieldNames(c.right);
      assert FieldNames(c) == l + r;
      assert forall i :: 0 <= i < |l| ==> l[i] == FieldNames(c)[i];
      assert forall i :: 0 <= i < |r| ==> r[i] == FieldNames(c)[|l| + i];
    } else if c.Not? {
      assert FieldNames(c) == FieldNames(c.cond);
    } else {
      assert FieldNames(c)[0] == c.fieldName;
    }
  }

  // ---------------------------------------------------------------------------
  // Builders
  // ---------------------------------------------------------------------------

  /** `Cond::or`: the two conditions become the children, unchanged and in order. */
  function Disjunction(left: Cond, right: Cond): (c: Cond)
    ensures c.Or? && c.left == left && c.right == right
    ensures Literals(c) == Literals(left) + Literals(right)
    ensures FieldNames(c) == FieldNames(left) + FieldNames(right)
  {
    Or(left, right)
  }

  /** `Cond::and`: the two conditions become the children, unchanged and in order. */
  function Conjunction(left: Cond, right: Cond): (c: Cond)
    ensures c.And? && c.left == left && c.right == right
    ensures Literals(c) == Literals(left) + Literals(right)
    ensures FieldNames(c) == FieldNames(left) + FieldNames(right)
  {
    And(left, right)
  }

  /** `Cond::is_null`: a leaf on the given field that carries no literal. */
  function FieldIsNull(fieldName: string): (c: Cond)
    ensures c.IsNull? && FieldNames(c) == [fieldName] && Literals(c) == []
  {
    IsNull(fieldName)
  }

  /** `Cond::is_not_null`: a leaf on the given field that carries no literal. */
  function FieldIsNotNull(fieldName: string): (c: Cond)
    ensures c.IsNotNull? && FieldNames(c) == [fieldName] && Literals(c) == []
  {
    IsNotNull(fieldName)
  }

  /** `Cond::integer_equal_to`: the field name and the value, verbatim. */
  function IntegerEquals(fieldName: string, value: i64): (c: Cond)
    ensures c.IntegerEqualTo? && FieldNames(c) == [fieldName] && Literals(c) == [IntData(value)]
  {
    IntegerEqualTo(fieldName, value)
  }

  /** `Cond::integer_not_equal_to`: the field name and the value, verbatim. */
  function IntegerNotEquals(fieldName: string, value: i64): (c: Cond)
    ensures c.IntegerNotEqualTo? && FieldNames(c) == [fieldName] && Literals(c) == [IntData(value)]
  {
    IntegerNotEqualTo(fieldName, value)
  }

  /** `Cond::text_equal_to`: the field name and the text, verbatim. */
  function TextEquals(fieldName: string, text: string): (c: Cond)
    ensures c.TextEqualTo? && FieldNames(c) == [fieldName] && Literals(c) == [TextData(text)]
  {
    TextEqualTo(fieldName, text)
  }

  // ---------------------------------------------------------------------------
  // is_row_id_equal_to
  // ---------------------------------------------------------------------------

  /**
    `Cond::is_row_id_equal_to`: the condition selecting the record by its stored row
    id, or `None` when the schema has no RowID field or the id is still `NEW`. The
    fatal error of a schema with two RowID fields passes through.
   */
  function IsRowIdEqualTo(schemaName: string, fields: seq<Field>, values: seq<DbData>)
    : (r: Result<Option<Cond>, SchemaError>)
    requires Conforms(fields, values)
    ensures r.Failure? <==> RowIdFieldOf(schemaName, fields, values).Failure?
    ensures r.Failure? ==> r.error == MultipleRowIdFields(schemaName)
    ensures r.Success? && r.value.Some? ==>
      r.value.value.IntegerEqualTo? && Literals(r.value.value) == [IntData(r.value.value.value)]
  {
    match RowIdFieldOf(schemaName, fields, values)
    case Failure(e) => Failure(e)
    case Success(None) => Success(None)
    case Success(Some((name, New))) => Success(None)
    case Success(Some((name, Id(v)))) => Success(Some(IntegerEqualTo(name, v)))
  }

  /** A schema without a RowID field gives no condition. */
  lemma IsRowIdEqualToNoRowIdField(schemaName: string, fields: seq<Field>, values: seq<DbData>)
    requires Conforms(fields, values)
    requires forall i :: 0 <= i < |fields| ==> fields[i].1 != RowID
    ensures IsRowIdEqualTo(schemaName, fields, values) == Success(None)
  {
    RowIdFieldAbsent(schemaName, fields, values);
  }

  /** A record whose row id is still `NEW` gives no condition. */
  lemma IsRowIdEqualToNew(schemaName: string, fields: seq<Field>, values: seq<DbData>, i: nat)
    requires Conforms(fields, values)
    requires i < |fields| && fields[i].1 == RowID
    requires forall j :: 0 <= j < |fields| && j != i ==> fields[j].1 != RowID
    requires values[i] == RowIdData(New)
    ensures IsRowIdEqualTo(schemaName, fields, values) == Success(None)
  {
    RowIdFieldUnique(schemaName, fields, values, i);
  }

  /** A record stored under id v at RowID field f gives `f = v`. */
  lemma IsRowIdEqualToId(schemaName: string, fields: seq<Field>, values: seq<DbData>, i: nat, v: i64)
    requires Conforms(fields, values)
    requires i < |fields| && fields[i].1 == RowID
    requires forall j :: 0 <= j < |fields| && j != i ==> fields[j].1 != RowID
    requires values[i] == RowIdData(Id(v))
    ensures IsRowIdEqualTo(schemaName, fields, values) == Success(Some(IntegerEqualTo(fields[i].0, v)))
  {
    RowIdFieldUnique(schemaName, fields, values, i);
  }
}
