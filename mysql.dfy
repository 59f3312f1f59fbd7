/**
  The MySQL adaptor (mysql/src/lib.rs): the statement text it builds for a schema,
  the WHERE fragment and parameter list it compiles from a condition, the bind list
  it hands to `mysql_stmt_bind_param`, and the result iterator that decodes each
  fetched row into cells.

  The client library is not modelled: a statement is its text plus the cells bound
  to it, and a fetched row is what `mysql_stmt_fetch` writes through the bound
  length and null pointers together with what `mysql_stmt_fetch_column` copies out
  for each column.
 */
module Mysql {
  import opened Wrappers
  import opened SqlText
  import opened Types
  import opened QueryCond

  /** No `?` in the table name or any column name. */
  predicate NamesUnmarked(name: string, fields: seq<Field>)
  {
    Unmarked(name) && forall i :: 0 <= i < |fields| ==> Unmarked(fields[i].0)
  }

  // ---------------------------------------------------------------------------
  // Statement text
  // ---------------------------------------------------------------------------

  /** The MySQL column type of each of the eight kinds. */
  function ColumnType(k: DbDataType): string
  {
    match k
    case Int => "BIGINT NOT NULL"
    case NullableInt => "BIGINT"
    case Text => "TEXT NOT NULL"
    case NullableText => "TEXT"
    case Float => "DOUBLE"
    case RowID => "BIGINT NOT NULL AUTO_INCREMENT PRIMARY KEY"
    case Binary => "BLOB NOT NULL"
    case NullableBinary => "BLOB"
  }

  /** Distinct kinds get distinct column types: the table definition records every kind. */
  lemma ColumnTypeInjective(k1: DbDataType, k2: DbDataType)
    ensures ColumnType(k1) == ColumnType(k2) <==> k1 == k2
  {
    if ColumnType(k1) == ColumnType(k2) {
      assert |ColumnType(k1)| == |ColumnType(k2)|;
      assert ColumnType(k1)[1] == ColumnType(k2)[1];
    }
  }

  /** `name TYPE` for every field, in field order. */
  function ColumnDefs(fields: seq<Field>): (r: seq<string>)
    ensures |r| == |fields|
    ensures forall i :: 0 <= i < |fields| ==> r[i] == fields[i].0 + " " + ColumnType(fields[i].1)
  {
    seq(|fields|, i requires 0 <= i < |fields| => fields[i].0 + " " + ColumnType(fields[i].1))
  }

  function CreateTableSql(schemaName: string, fields: seq<Field>): string
  {
    "CREATE TABLE IF NOT EXISTS " + schemaName + " (" + Join(ColumnDefs(fields), ", ") + ");"
  }

  /** One anonymous `?` per field. */
  function QuestionMarks(n: nat): (r: seq<string>)
    ensures |r| == n
    ensures forall i :: 0 <= i < n ==> r[i] == "?"
  {
    seq(n, i requires 0 <= i < n => "?")
  }

  function InsertSql(schemaName: string, fields: seq<Field>): string
  {
    "INSERT INTO " + schemaName + " (" + Join(ColumnNames(fields), ", ") + ") VALUES ("
      + Join(QuestionMarks(|fields|), ", ") + ");"
  }

  function QueryClauseSql(schemaName: string, fields: seq<Field>): string
  {
    "SELECT " + Join(ColumnNames(fields), ", ") + " FROM " + schemaName
  }

  /** `name=?` for every field, in field order. */
  function Assignments(fields: seq<Field>): (r: seq<string>)
    ensures |r| == |fields|
    ensures forall i :: 0 <= i < |fields| ==> r[i] == fields[i].0 + "=?"
  {
    seq(|fields|, i requires 0 <= i < |fields| => fields[i].0 + "=?")
  }

  function UpdateClauseSql(schemaName: string, fields: seq<Field>): string
  {
    "UPDATE " + schemaName + " SET " + Join(Assignments(fields), ", ")
  }

  /** `get_create_table_stmt_code`. */
  method GetCreateTableStmtCode(schemaName: string, fields: seq<Field>) returns (s: string)
    ensures s == CreateTableSql(schemaName, fields)
  {
    var defs := ColumnDefs(fields);
    var head := "CREATE TABLE IF NOT EXISTS " + schemaName + " (";
    s := head;
    for i := 0 to |fields|
      invariant s == head + Join(defs[..i], ", ")
    {
      JoinPush(head, defs, ", ", i, fields[i].0 + " ", ColumnType(fields[i].1));
      if i != 0 {
        s := s + ", ";
      }
      s := s + fields[i].0 + " ";
      s := s + ColumnType(fields[i].1);
    }
    assert defs[..|fields|] == defs;
    s := s + ");";
  }

  /**
    `get_insert_value_stmt_code`: the column list and the `?` list grow side by side
    in one loop, so they always have the same number of entries.
   */
  method GetInsertValueStmtCode(schemaName: string, fields: seq<Field>) returns (s: string)
    ensures s == InsertSql(schemaName, fields)
  {
    var names, marks := ColumnNames(fields), QuestionMarks(|fields|);
    var fieldsPart, valueTokens := "", "";
    for i := 0 to |fields|
      invariant fieldsPart == Join(names[..i], ", ")
      invariant valueTokens == Join(marks[..i], ", ")
    {
      JoinSnoc(names, ", ", i);
      JoinSnoc(marks, ", ", i);
      if i != 0 {
        fieldsPart := fieldsPart + ", ";
        valueTokens := valueTokens + ", ";
      }
      fieldsPart := fieldsPart + fields[i].0;
      valueTokens := valueTokens + "?";
    }
    assert names[..|fields|] == names;
    assert marks[..|fields|] == marks;
    s := "INSERT INTO " + schemaName + " (" + fieldsPart + ") VALUES (" + valueTokens + ");";
  }

  /** `get_query_clause_code`. */
  method GetQueryClauseCode(schemaName: string, fields: seq<Field>) returns (s: string)
    ensures s == QueryClauseSql(schemaName, fields)
  {
    var names := ColumnNames(fields);
    var fieldsStr := "";
    for i := 0 to |fields|
      invariant fieldsStr == Join(names[..i], ", ")
    {
      JoinSnoc(names, ", ", i);
      if i != 0 {
        fieldsStr := fieldsStr + ", ";
      }
      fieldsStr := fieldsStr + fields[i].0;
    }
    assert names[..|fields|] == names;
    s := "SELECT " + fieldsStr + " FROM " + schemaName;
  }

  /** `get_update_clause_code`. */
  method GetUpdateClauseCode(schemaName: string, fields: seq<Field>) returns (s: string)
    ensures s == UpdateClauseSql(schemaName, fields)
  {
    var sets := Assignments(fields);
    var fieldsStr := "";
    for i := 0 to |fields|
      invariant fieldsStr == Join(sets[..i], ", ")
    {
      JoinSnoc(sets, ", ", i);
      if i != 0 {
        fieldsStr := fieldsStr + ", ";
      }
      fieldsStr := fieldsStr + (fields[i].0 + "=?");
    }
    assert sets[..|fields|] == sets;
    s := "UPDATE " + schemaName + " SET " + fieldsStr;
  }

  // ---------------------------------------------------------------------------
  // Properties of the statement text
  // ---------------------------------------------------------------------------

  /** An INSERT has one mark per field, so it expects one parameter per field. */
  lemma InsertSqlMarks(schemaName: string, fields: seq<Field>)
    requires NamesUnmarked(schemaName, fields)
    ensures Marks(InsertSql(schemaName, fields)) == |fields|
  {
    var names, marks := ColumnNames(fields), QuestionMarks(|fields|);
    JoinUnmarked(names, ", ");
    forall i | 0 <= i < |fields| ensures Marks(marks[i]) == 1 {
      assert marks[i] == "?";
    }
    JoinOneMarkEach(marks, ", ");
    var head := "INSERT INTO " + schemaName + " (" + Join(names, ", ") + ") VALUES (";
    MarksWrapped(head, Join(marks, ", "), ");");
  }

  /**
    The INSERT's anonymous marks take the parameters in order: filling them gives
    the column list followed by the parameters, one per column, in the same order.
   */
  lemma {:induction false} InsertOrder(schemaName: string, fields: seq<Field>, ps: seq<string>)
    requires NamesUnmarked(schemaName, fields) && |ps| == |fields|
    ensures Substitute(InsertSql(schemaName, fields), ps)
         == "INSERT INTO " + schemaName + " (" + Join(ColumnNames(fields), ", ") + ") VALUES ("
            + Join(ps, ", ") + ");"
  {
    var names, marks := ColumnNames(fields), QuestionMarks(|fields|);
    JoinUnmarked(names, ", ");
    forall i | 0 <= i < |fields| ensures Marks(marks[i]) == 1 && Substitute(marks[i], [ps[i]]) == ps[i] {
      SubstituteTrailingMark("", ps[i]);
      assert "" + "?" == "?" && "" + ps[i] == ps[i];
    }
    JoinOneMarkEach(marks, ", ");
    SubstituteJoin(marks, ", ", ps);
    assert FillEach(marks, ps) == ps;
    var head := "INSERT INTO " + schemaName + " (" + Join(names, ", ") + ") VALUES (";
    InsertHeadUnmarked(schemaName, Join(names, ", "));
    SubstituteWrapped(head, Join(marks, ", "), ");", ps);
  }

  /** The INSERT text before its marks holds none when the table name and column list hold none. */
  lemma InsertHeadUnmarked(schemaName: string, columns: string)
    requires Unmarked(schemaName) && Unmarked(columns)
    ensures Unmarked("INSERT INTO " + schemaName + " (" + columns + ") VALUES (")
  {
  }

  /** The SELECT clause holds no mark: a bare query binds nothing. */
  lemma QueryClauseUnmarked(schemaName: string, fields: seq<Field>)
    requires NamesUnmarked(schemaName, fields)
    ensures Unmarked(QueryClauseSql(schemaName, fields))
  {
    JoinUnmarked(ColumnNames(fields), ", ");
  }

  /** The assignment of each field holds one mark. */
  lemma AssignmentsOneMarkEach(fields: seq<Field>)
    requires forall i :: 0 <= i < |fields| ==> Unmarked(fields[i].0)
    ensures forall i :: 0 <= i < |fields| ==> Marks(Assignments(fields)[i]) == 1
  {
    forall i | 0 <= i < |fields| ensures Marks(Assignments(fields)[i]) == 1 {
      SubstituteTrailingMark(fields[i].0 + "=", "");
      assert fields[i].0 + "=" + "?" == fields[i].0 + "=?";
    }
  }

  /** An UPDATE clause has one mark per field. */
  lemma UpdateClauseMarks(schemaName: string, fields: seq<Field>)
    requires NamesUnmarked(schemaName, fields)
    ensures Marks(UpdateClauseSql(schemaName, fields)) == |fields|
  {
    AssignmentsOneMarkEach(fields);
    JoinOneMarkEach(Assignments(fields), ", ");
    MarksWrapped("UPDATE " + schemaName + " SET ", Join(Assignments(fields), ", "), "");
    assert "UPDATE " + schemaName + " SET " + Join(Assignments(fields), ", ") + ""
        == UpdateClauseSql(schemaName, fields);
  }

  // ---------------------------------------------------------------------------
  // The condition compiler
  // ---------------------------------------------------------------------------

  /**
    `get_cond_expression_code_and_data`: the WHERE fragment, with an anonymous `?`
    per literal and operators set off by spaces, and the literals to bind, left
    operand's before right operand's.
   */
  function CompileCond(c: Cond): (r: (string, seq<DbData>))
    ensures r.1 == Literals(c)
  {
    match c
    case IntegerEqualTo(f, v) => (f + " = ?", [IntData(v)])
    case IntegerNotEqualTo(f, v) => (f + " <> ?", [IntData(v)])
    case IntegerGreaterThan(f, v) => (f + " > ?", [IntData(v)])
    case IntegerGreaterThanOrEqualTo(f, v) => (f + " >= ?", [IntData(v)])
    case IntegerLessThan(f, v) => (f + " < ?", [IntData(v)])
    case IntegerLessThanOrEqualTo(f, v) => (f + " <= ?", [IntData(v)])
    case IsNotNull(f) => (f + " IS NOT NULL", [])
    case IsNull(f) => (f + " IS NULL", [])
    case TextEqualTo(f, t) => (f + " = ?", [TextData(t)])
    case Not(c') =>
      var (s, p) := CompileCond(c');
      ("NOT (" + s + ")", p)
    case And(l, r) =>
      var (ls, lp) := CompileCond(l);
      var (rs, rp) := CompileCond(r);
      ("(" + ls + ") AND (" + rs + ")", lp + rp)
    case Or(l, r) =>
      var (ls, lp) := CompileCond(l);
      var (rs, rp) := CompileCond(r);
      ("(" + ls + ") OR (" + rs + ")", lp + rp)
  }

  /** The operator text of a comparison leaf, spaces included. */
  function Operator(c: Cond): string
    requires IsIntegerComparison(c) || c.TextEqualTo?
  {
    match c
    case IntegerEqualTo(_, _) => " = "
    case IntegerNotEqualTo(_, _) => " <> "
    case IntegerGreaterThan(_, _) => " > "
    case IntegerLessThan(_, _) => " < "
    case IntegerGreaterThanOrEqualTo(_, _) => " >= "
    case IntegerLessThanOrEqualTo(_, _) => " <= "
    case TextEqualTo(_, _) => " = "
  }

  /**
    The fragment with each literal written in its mark's place by `render`: what
    the server evaluates once the parameters are bound.
   */
  function InlineCond(c: Cond, render: DbData -> string): string
  {
    match c
    case IsNull(f) => f + " IS NULL"
    case IsNotNull(f) => f + " IS NOT NULL"
    case And(l, r) => "(" + InlineCond(l, render) + ") AND (" + InlineCond(r, render) + ")"
    case Or(l, r) => "(" + InlineCond(l, render) + ") OR (" + InlineCond(r, render) + ")"
    case Not(c') => "NOT (" + InlineCond(c', render) + ")"
    case _ => c.fieldName + Operator(c) + render(Literals(c)[0])
  }

  /** A comparison leaf compiles to its field, its spaced operator and one mark. */
  lemma CompileLeaf(c: Cond)
    requires IsIntegerComparison(c) || c.TextEqualTo?
    ensures CompileCond(c).0 == c.fieldName + Operator(c) + "?"
    ensures |Literals(c)| == 1
    ensures Unmarked(Operator(c))
  {
  }

  /** A comparison leaf on an unmarked field holds exactly its one mark. */
  lemma LeafMarks(c: Cond)
    requires IsIntegerComparison(c) || c.TextEqualTo?
    requires Unmarked(c.fieldName)
    ensures Marks(CompileCond(c).0) == 1
  {
    CompileLeaf(c);
    SubstituteTrailingMark(c.fieldName + Operator(c), "");
  }

  /** A null test compiles to unmarked text equal to its inlined form. */
  lemma NullTestUnmarked(c: Cond)
    requires c.IsNull? || c.IsNotNull?
    requires Unmarked(c.fieldName)
    ensures Unmarked(CompileCond(c).0) && CompileCond(c).1 == []
    ensures forall render: DbData -> string :: InlineCond(c, render) == CompileCond(c).0
  {
  }

  /** With unmarked field names, the fragment holds one mark per parameter. */
  lemma {:induction false} CompileCondMarks(c: Cond)
    requires FieldsUnmarked(c)
    ensures Marks(CompileCond(c).0) == |CompileCond(c).1|
  {
    FieldsUnmarkedChildren(c);
    if c.And? {
      CompileCondMarks(c.left);
      CompileCondMarks(c.right);
      MarksBinary("(", CompileCond(c.left).0, ") AND (", CompileCond(c.right).0, ")");
    } else if c.Or? {
      CompileCondMarks(c.left);
      CompileCondMarks(c.right);
      MarksBinary("(", CompileCond(c.left).0, ") OR (", CompileCond(c.right).0, ")");
    } else if c.Not? {
      CompileCondMarks(c.cond);
      MarksWrapped("NOT (", CompileCond(c.cond).0, ")");
    } else if c.IsNull? || c.IsNotNull? {
      NullTestUnmarked(c);
      NoMarks(CompileCond(c).0);
    } else {
      LeafMarks(c);
    }
  }

  /** A comparison leaf takes its one parameter in its mark's place. */
  lemma LeafOrder(c: Cond, render: DbData -> string)
    requires IsIntegerComparison(c) || c.TextEqualTo?
    requires Unmarked(c.fieldName)
    ensures Substitute(CompileCond(c).0, MapText(CompileCond(c).1, render)) == InlineCond(c, render)
  {
    CompileLeaf(c);
    SubstituteTrailingMark(c.fieldName + Operator(c), render(Literals(c)[0]));
    assert MapText(CompileCond(c).1, render) == [render(Literals(c)[0])];
  }

  /**
    Binding the parameters to the fragment's marks in order puts every literal in
    its own leaf: the i-th mark receives the i-th parameter.
   */
  lemma {:induction false} CompileCondOrder(c: Cond, render: DbData -> string)
    requires FieldsUnmarked(c)
    ensures Substitute(CompileCond(c).0, MapText(CompileCond(c).1, render)) == InlineCond(c, render)
  {
    FieldsUnmarkedChildren(c);
    if c.And? || c.Or? {
      CompileCondOrder(c.left, render);
      CompileCondOrder(c.right, render);
      BinaryOrder(c, render, if c.And? then ") AND (" else ") OR (");
    } else if c.Not? {
      CompileCondOrder(c.cond, render);
      NotOrder(c, render);
    } else if c.IsNull? || c.IsNotNull? {
      NullTestUnmarked(c);
      SubstituteUnmarked(CompileCond(c).0, MapText(CompileCond(c).1, render));
    } else {
      LeafOrder(c, render);
    }
  }

  /** The step of `CompileCondOrder` for `Not`, given the child's. */
  lemma NotOrder(c: Cond, render: DbData -> string)
    requires c.Not? && FieldsUnmarked(c.cond)
    requires Substitute(CompileCond(c.cond).0, MapText(CompileCond(c.cond).1, render)) == InlineCond(c.cond, render)
    ensures Substitute(CompileCond(c).0, MapText(CompileCond(c).1, render)) == InlineCond(c, render)
  {
    CompileCondMarks(c.cond);
    SubstituteWrapped("NOT (", CompileCond(c.cond).0, ")", MapText(CompileCond(c.cond).1, render));
  }

  /** The step of `CompileCondOrder` for `And` and `Or`, given the children's. */
  lemma BinaryOrder(c: Cond, render: DbData -> string, op: string)
    requires c.And? || c.Or?
    requires op == if c.And? then ") AND (" else ") OR ("
    requires FieldsUnmarked(c.left) && FieldsUnmarked(c.right)
    requires Substitute(CompileCond(c.left).0, MapText(CompileCond(c.left).1, render)) == InlineCond(c.left, render)
    requires Substitute(CompileCond(c.right).0, MapText(CompileCond(c.right).1, render)) == InlineCond(c.right, render)
    ensures Substitute(CompileCond(c).0, MapText(CompileCond(c).1, render)) == InlineCond(c, render)
  {
    var (ls, lp) := CompileCond(c.left);
    var (rs, rp) := CompileCond(c.right);
    CompileCondMarks(c.left);
    CompileCondMarks(c.right);
    assert MapText(lp + rp, render) == MapText(lp, render) + MapText(rp, render);
    SubstituteBinary("(", ls, op, rs, ")", MapText(lp, render), MapText(rp, render));
  }

  // ---------------------------------------------------------------------------
  // The adaptor operations: statement text and bound parameters
  // ---------------------------------------------------------------------------

  /** A prepared statement: its text and the cells bound to it, in mark order. */
  datatype Statement = Statement(sql: string, params: seq<DbData>)

  /** `insert_record`: the INSERT for the schema, binding the record's values. */
  method InsertRecord(schemaName: string, fields: seq<Field>, values: seq<DbData>) returns (st: Statement)
    requires Conforms(fields, values)
    ensures st.sql == InsertSql(schemaName, fields) && st.params == values
    ensures NamesUnmarked(schemaName, fields) ==> Marks(st.sql) == |st.params|
  {
    var sql := GetInsertValueStmtCode(schemaName, fields);
    if NamesUnmarked(schemaName, fields) {
      InsertSqlMarks(schemaName, fields);
    }
    st := Statement(sql, values);
  }

  /** `query_all`: the SELECT clause and `;`, binding nothing. */
  method QueryAll(schemaName: string, fields: seq<Field>) returns (st: Statement)
    ensures st.sql == QueryClauseSql(schemaName, fields) + ";" && st.params == []
    ensures NamesUnmarked(schemaName, fields) ==> Marks(st.sql) == 0
  {
    var clause := GetQueryClauseCode(schemaName, fields);
    if NamesUnmarked(schemaName, fields) {
      QueryClauseUnmarked(schemaName, fields);
      NoMarks(clause + ";");
    }
    st := Statement(clause + ";", []);
  }

  /** `query_with_cond`: `SELECT ... WHERE <fragment>;`, binding only the condition's literals. */
  method QueryWithCond(schemaName: string, fields: seq<Field>, c: Cond) returns (st: Statement)
    ensures st.sql == QueryClauseSql(schemaName, fields) + " WHERE " + CompileCond(c).0 + ";"
    ensures st.params == Literals(c)
    ensures NamesUnmarked(schemaName, fields) && FieldsUnmarked(c) ==> Marks(st.sql) == |st.params|
  {
    var (cs, cp) := CompileCond(c);
    var clause := GetQueryClauseCode(schemaName, fields);
    if NamesUnmarked(schemaName, fields) && FieldsUnmarked(c) {
      QueryClauseUnmarked(schemaName, fields);
      CompileCondMarks(c);
      MarksWrapped(clause + " WHERE ", cs, ";");
    }
    st := Statement(clause + " WHERE " + cs + ";", cp);
  }

  /** `delete_with_cond`: `DELETE FROM name WHERE <fragment>;`, binding only the condition's literals. */
  method DeleteWithCond(schemaName: string, c: Cond) returns (st: Statement)
    ensures st.sql == "DELETE FROM " + schemaName + " WHERE " + CompileCond(c).0 + ";"
    ensures st.params == Literals(c)
    ensures Unmarked(schemaName) && FieldsUnmarked(c) ==> Marks(st.sql) == |st.params|
  {
    var (cs, cp) := CompileCond(c);
    if Unmarked(schemaName) && FieldsUnmarked(c) {
      CompileCondMarks(c);
      MarksWrapped("DELETE FROM " + schemaName + " WHERE ", cs, ";");
    }
    st := Statement("DELETE FROM " + schemaName + " WHERE " + cs + ";", cp);
  }

  /**
    `update_with_cond`: `UPDATE ... SET ... WHERE <fragment>;`, binding the record's
    values and then the condition's literals, the order of the marks.
   */
  method UpdateWithCond(schemaName: string, fields: seq<Field>, values: seq<DbData>, c: Cond)
    returns (st: Statement)
    requires Conforms(fields, values)
    ensures st.sql == UpdateClauseSql(schemaName, fields) + " WHERE " + CompileCond(c).0 + ";"
    ensures st.params == values + Literals(c)
    ensures NamesUnmarked(schemaName, fields) && FieldsUnmarked(c) ==> Marks(st.sql) == |st.params|
  {
    var (cs, cp) := CompileCond(c);
    var clause := GetUpdateClauseCode(schemaName, fields);
    var params := values;
    params := params + cp;
    if NamesUnmarked(schemaName, fields) && FieldsUnmarked(c) {
      UpdateClauseMarks(schemaName, fields);
      CompileCondMarks(c);
      MarksBinary("", clause, " WHERE ", cs, ";");
      assert "" + clause + " WHERE " + cs + ";" == clause + " WHERE " + cs + ";";
    }
    st := Statement(clause + " WHERE " + cs + ";", params);
  }

  /**
    In an UPDATE, the record's values land in the SET assignments, field by field,
    and the condition's literals in the WHERE fragment.
   */
  lemma {:induction false} UpdateWithCondOrder(schemaName: string, fields: seq<Field>, values: seq<DbData>, c: Cond,
                            render: DbData -> string)
    requires |values| == |fields|
    requires NamesUnmarked(schemaName, fields) && FieldsUnmarked(c)
    ensures Substitute(UpdateClauseSql(schemaName, fields) + " WHERE " + CompileCond(c).0 + ";",
                       MapText(values + Literals(c), render))
         == "UPDATE " + schemaName + " SET "
            + Join(FillEach(Assignments(fields), MapText(values, render)), ", ")
            + " WHERE " + InlineCond(c, render) + ";"
  {
    var head := "UPDATE " + schemaName + " SET ";
    var sets := Join(Assignments(fields), ", ");
    var cs := CompileCond(c).0;
    var vp, cp := MapText(values, render), MapText(Literals(c), render);
    assert MapText(values + Literals(c), render) == vp + cp;
    FillAssignments(fields, vp);
    FillCond(c, render);
    SubstituteWhere(head, sets, cs, vp, cp, Join(FillEach(Assignments(fields), vp), ", "), InlineCond(c, render));
  }

  /** A compiled condition holds one mark per literal, and filling them in gives the inlined condition. */
  lemma FillCond(c: Cond, render: DbData -> string)
    requires FieldsUnmarked(c)
    ensures Marks(CompileCond(c).0) == |MapText(Literals(c), render)|
    ensures Substitute(CompileCond(c).0, MapText(Literals(c), render)) == InlineCond(c, render)
  {
    CompileCondMarks(c);
    CompileCondOrder(c, render);
  }

  /** The SET list holds one mark per field, and substituting fills each assignment with its own value. */
  lemma FillAssignments(fields: seq<Field>, ps: seq<string>)
    requires forall i :: 0 <= i < |fields| ==> Unmarked(fields[i].0)
    requires |ps| == |fields|
    ensures Marks(Join(Assignments(fields), ", ")) == |ps|
    ensures Substitute(Join(Assignments(fields), ", "), ps) == Join(FillEach(Assignments(fields), ps), ", ")
  {
    AssignmentsOneMarkEach(fields);
    JoinOneMarkEach(Assignments(fields), ", ");
    SubstituteJoin(Assignments(fields), ", ", ps);
  }

  // ---------------------------------------------------------------------------
  // The parameter bind list
  // ---------------------------------------------------------------------------

  /**
    The `enum_field_types` values the adaptor uses; `TypeDecimal` is the zero value
    a zeroed bind holds.
   */
  datatype BufferType = TypeDecimal | TypeLongLong | TypeDouble | TypeString | TypeBlob

  /**
    The buffer type a value of each kind is sent as: never the zeroed type, and an
    integer or double buffer always holds a present value of eight bytes.
   */
  function BufferTypeOf(k: DbDataType): (t: BufferType)
    ensures t != TypeDecimal
    ensures (t == TypeLongLong || t == TypeDouble) ==>
      forall d :: KindOf(d) == k && !IsAbsent(d) ==> DataLen(d) == 8
    ensures (t == TypeString || t == TypeBlob) <==> !FixedWidth(k)
  {
    match k
    case Int => TypeLongLong
    case NullableInt => TypeLongLong
    case RowID => TypeLongLong
    case Text => TypeString
    case NullableText => TypeString
    case Float => TypeDouble
    case Binary => TypeBlob
    case NullableBinary => TypeBlob
  }

  /** The kinds whose present values always take eight bytes. */
  predicate FixedWidth(k: DbDataType)
  {
    k == Int || k == NullableInt || k == RowID || k == Float
  }

  /** One parameter bind: the cell its buffer points at, its buffer type and its null flag. */
  datatype ParamBind = ParamBind(buffer: DbData, bufferType: BufferType, isNull: bool)

  /**
    `MySQLBindList`: the length of every value, and the binds; bind i reads its
    length from entry i of the length list.
   */
  datatype BindList = BindList(lengthList: seq<nat>, binds: seq<ParamBind>)

  /**
    `MySQLBindList::from_boxed_db_data_list`: one bind per value, in order, pointing
    at the value, typed by its kind, and flagged null exactly when the value is
    absent; the length list holds each value's length.
   */
  method FromBoxedDbDataList(data: seq<DbData>) returns (list: BindList)
    ensures |list.lengthList| == |data| && |list.binds| == |data|
    ensures forall i :: 0 <= i < |data| ==>
      list.lengthList[i] == DataLen(data[i]) &&
      list.binds[i].buffer == data[i] &&
      list.binds[i].bufferType == BufferTypeOf(KindOf(data[i])) &&
      (list.binds[i].isNull <==> IsAbsent(data[i]))
  {
    var lengthList := seq(|data|, i requires 0 <= i < |data| => DataLen(data[i]));
    var binds: seq<ParamBind> := [];
    for i := 0 to |data|
      invariant |binds| == i
      invariant forall j :: 0 <= j < i ==>
        binds[j].buffer == data[j] &&
        binds[j].bufferType == BufferTypeOf(KindOf(data[j])) &&
        (binds[j].isNull <==> IsAbsent(data[j]))
    {
      var bufferType: BufferType;
      match KindOf(data[i]) {
        case Int => bufferType := TypeLongLong;
        case NullableInt => bufferType := TypeLongLong;
        case RowID => bufferType := TypeLongLong;
        case Text => bufferType := TypeString;
        case NullableText => bufferType := TypeString;
        case Float => bufferType := TypeDouble;
        case Binary => bufferType := TypeBlob;
        case NullableBinary => bufferType := TypeBlob;
      }
      var isNull := IsAbsent(data[i]);
      binds := binds + [ParamBind(data[i], bufferType, isNull)];
    }
    list := BindList(lengthList, binds);
  }

  /** A bind flagged null carries no bytes: an absent value has length 0. */
  lemma NullBindHasNoLength(d: DbData)
    ensures IsAbsent(d) ==> DataLen(d) == 0
  {
  }

  // ---------------------------------------------------------------------------
  // Result rows
  // ---------------------------------------------------------------------------

  /** `MYSQL_NO_DATA`: `mysql_stmt_fetch` found no further row. */
  const MYSQL_NO_DATA: int := 100

  /**
    One column of a fetched row: the null flag and length `mysql_stmt_fetch` writes
    through the bound pointers, and the value `mysql_stmt_fetch_column` copies out
    into a buffer of each type.
   */
  datatype FetchedColumn = FetchedColumn(
    isNull: bool, length: nat, int64: i64, double: Float64, text: string, bytes: seq<byte>)

  /**
    A fetched column fits its field's kind: a non-null text or byte column carries
    exactly `length` characters or bytes, the size `mysql_stmt_fetch` reported and
    the size of the buffer `mysql_stmt_fetch_column` fills.
   */
  predicate Fits(k: DbDataType, col: FetchedColumn)
  {
    !col.isNull ==>
      ((k == Text || k == NullableText) ==> |col.text| == col.length) &&
      ((k == Binary || k == NullableBinary) ==> |col.bytes| == col.length)
  }

  /** Every column of a fetched row fits its field. */
  predicate RowFits(fields: seq<Field>, row: seq<FetchedColumn>)
  {
    |row| == |fields| && forall i :: 0 <= i < |fields| ==> Fits(fields[i].1, row[i])
  }

  /**
    The decode of `MySQLResultIterator::next` as written: an Int or RowID column is
    read into a plain `i64` cell, so every kind but RowID keeps its kind.
   */
  function DecodeColumnAsWritten(k: DbDataType, col: FetchedColumn): (d: DbData)
    requires Fits(k, col)
    ensures k != RowID ==> KindOf(d) == k
    ensures k == RowID ==> KindOf(d) == Int
    ensures IsNullableKind(k) ==> (IsAbsent(d) <==> col.isNull)
  {
    match k
    case Int => IntData(col.int64)
    case RowID => IntData(col.int64)
    case NullableInt => NullableIntData(if col.isNull then None else Some(col.int64))
    case Text => TextData(if col.length == 0 then "" else col.text)
    case NullableText => NullableTextData(if col.isNull then None else Some(col.text))
    case Float => FloatData(col.double)
    case Binary => BinaryData(if col.length == 0 then [] else col.bytes)
    case NullableBinary =>
      NullableBinaryData(if col.isNull then None else if col.length == 0 then Some([]) else Some(col.bytes))
  }

  /** The decode with the RowID case corrected: the value read is the stored row id. */
  function DecodeColumn(k: DbDataType, col: FetchedColumn): (d: DbData)
    requires Fits(k, col)
    ensures KindOf(d) == k
    ensures k != RowID ==> d == DecodeColumnAsWritten(k, col)
    ensures IsNullableKind(k) ==> (IsAbsent(d) <==> col.isNull)
    ensures !FixedWidth(k) && !col.isNull ==> DataLen(d) == col.length
  {
    if k == RowID then RowIdData(Id(col.int64)) else DecodeColumnAsWritten(k, col)
  }

  /**
    As written, a RowID column decodes to a cell of kind Int, where the SQLite
    adaptor builds `RowID::ID(v)`. The model's checked `FromDbData` rejects that
    cell; what `<RowID as DbData>::from_boxed_db_data` does with a boxed `i64` is
    not part of this model.
   */
  lemma DecodeRowIdAsWritten(col: FetchedColumn)
    ensures KindOf(DecodeColumnAsWritten(RowID, col)) == Int
    ensures FromDbData(RowIdField, DecodeColumnAsWritten(RowID, col)) == Failure(KindMismatch(RowID, Int))
  {
  }

  /**
    What the server reports for a stored cell: null exactly when absent, the
    cell's length, and its payload.
   */
  function Stored(d: DbData): FetchedColumn
  {
    var none := FetchedColumn(IsAbsent(d), DataLen(d), 0, Float64(0), "", []);
    match d
    case IntData(i) => none.(int64 := i)
    case NullableIntData(oi) => if oi.Some? then none.(int64 := oi.value) else none
    case TextData(s) => none.(text := s)
    case NullableTextData(os) => if os.Some? then none.(text := os.value) else none
    case FloatData(f) => none.(double := f)
    case RowIdData(r) => if r.Id? then none.(int64 := r.id) else none
    case BinaryData(b) => none.(bytes := b)
    case NullableBinaryData(ob) => if ob.Some? then none.(bytes := ob.value) else none
  }

  /**
    Decoding inverts storage: every stored cell comes back as itself, including an
    empty text or byte string (length 0) and a present but empty NullableBinary.
    A RowID still `NEW` is stored as NULL and so is excluded.
   */
  lemma DecodeStored(d: DbData)
    requires d != RowIdData(New)
    ensures Fits(KindOf(d), Stored(d))
    ensures DecodeColumn(KindOf(d), Stored(d)) == d
  {
    match d
    case TextData(s) =>
      if |s| == 0 { assert s == ""; }
    case BinaryData(b) =>
      if |b| == 0 { assert b == []; }
    case NullableBinaryData(ob) =>
      if ob.Some? && |ob.value| == 0 { assert ob.value == []; }
    case _ =>
  }

  /** The cells of a row, one per field, decoded by the field's kind. */
  function DecodeRow(fields: seq<Field>, row: seq<FetchedColumn>): (cells: seq<DbData>)
    requires RowFits(fields, row)
    ensures |cells| == |fields|
    ensures forall i :: 0 <= i < |fields| ==> cells[i] == DecodeColumn(fields[i].1, row[i])
  {
    seq(|fields|, i requires 0 <= i < |fields| => DecodeColumn(fields[i].1, row[i]))
  }

  /** A decoded row always rebuilds a record of the schema, whose values are the cells. */
  lemma DecodeRowRebuilds(decls: seq<FieldDecl>, row: seq<FetchedColumn>)
    requires RowFits(SchemaFields(decls), row)
    ensures CreateWithValues(decls, DecodeRow(SchemaFields(decls), row)).Success?
    ensures RecordValues(CreateWithValues(decls, DecodeRow(SchemaFields(decls), row)).value)
         == DecodeRow(SchemaFields(decls), row)
  {
    CreateWithValuesConforming(decls, DecodeRow(SchemaFields(decls), row));
  }

  /** The null flags the fetch writes, column by column. */
  function NullFlags(row: seq<FetchedColumn>): (r: seq<bool>)
    ensures |r| == |row| && forall i :: 0 <= i < |row| ==> r[i] == row[i].isNull
  {
    seq(|row|, i requires 0 <= i < |row| => row[i].isNull)
  }

  /** The lengths the fetch writes, column by column. */
  function Lengths(row: seq<FetchedColumn>): (r: seq<nat>)
    ensures |r| == |row| && forall i :: 0 <= i < |row| ==> r[i] == row[i].length
  {
    seq(|row|, i requires 0 <= i < |row| => row[i].length)
  }

  /**
    `MySQLResultIterator`: the schema's fields and the per-column result buffers
    bound to the statement — the length list, the null-flag list, and the buffer
    type of each result bind.
   */
  class ResultIterator {
    const fields: seq<Field>
    var lengthList: seq<nat>
    var isNullList: seq<bool>
    var bufferTypes: seq<BufferType>

    /** One length, null flag and bind per field. */
    predicate Valid()
      reads this
    {
      |lengthList| == |fields| && |isNullList| == |fields| && |bufferTypes| == |fields|
    }

    /** `MySQLResultIterator::new`: zeroed lengths, flags and binds, one per field. */
    constructor (fields: seq<Field>)
      ensures Valid() && this.fields == fields
      ensures lengthList == seq(|fields|, _ => 0)
      ensures isNullList == seq(|fields|, _ => false)
      ensures bufferTypes == seq(|fields|, _ => TypeDecimal)
    {
      this.fields := fields;
      lengthList := seq(|fields|, _ => 0);
      isNullList := seq(|fields|, _ => false);
      bufferTypes := seq(|fields|, _ => TypeDecimal);
    }

    /** `clear_binds`: every length back to 0 and every bind's buffer type zeroed; the null flags stay. */
    method ClearBinds()
      requires Valid()
      modifies this
      ensures Valid()
      ensures lengthList == seq(|fields|, _ => 0)
      ensures bufferTypes == seq(|fields|, _ => TypeDecimal)
      ensures isNullList == old(isNullList)
    {
      for i := 0 to |lengthList|
        invariant Valid() && isNullList == old(isNullList)
        invariant forall j :: 0 <= j < i ==> lengthList[j] == 0 && bufferTypes[j] == TypeDecimal
      {
        lengthList := lengthList[i := 0];
        bufferTypes := bufferTypes[i := TypeDecimal];
      }
    }

    /**
      `next`, given the fetch's status and the row it fetched: no row on
      `MYSQL_NO_DATA` or on error (status 1); otherwise the row's cells, after which
      the lengths and buffer types are cleared for the next fetch.
     */
    method Next(status: int, row: seq<FetchedColumn>) returns (r: Option<seq<DbData>>)
      requires Valid() && RowFits(fields, row)
      modifies this
      ensures Valid()
      ensures r.None? <==> status == MYSQL_NO_DATA || status == 1
      ensures r.None? ==> lengthList == old(lengthList) && isNullList == old(isNullList)
                          && bufferTypes == old(bufferTypes)
      ensures r.Some? ==> r.value == DecodeRow(fields, row)
      ensures r.Some? ==> lengthList == seq(|fields|, _ => 0)
                          && bufferTypes == seq(|fields|, _ => TypeDecimal)
                          && isNullList == NullFlags(row)
    {
      if status == MYSQL_NO_DATA || status == 1 {
        return None;
      }
      // The fetch writes each column's length and null flag through the bound pointers.
      lengthList := Lengths(row);
      isNullList := NullFlags(row);
      var values: seq<DbData> := [];
      for i := 0 to |fields|
        invariant Valid()
        invariant lengthList == Lengths(row) && isNullList == NullFlags(row)
        invariant values == DecodeRow(fields, row)[..i]
      {
        var col := row[i];
        var v: DbData;
        match fields[i].1 {
          case Int =>
            bufferTypes := bufferTypes[i := TypeLongLong];
            v := IntData(col.int64);
          case RowID =>
            bufferTypes := bufferTypes[i := TypeLongLong];
            v := RowIdData(Id(col.int64));
          case NullableInt =>
            if isNullList[i] {
              v := NullableIntData(None);
            } else {
              bufferTypes := bufferTypes[i := TypeLongLong];
              v := NullableIntData(Some(col.int64));
            }
          case Text =>
            if lengthList[i] == 0 {
              v := TextData("");
            } else {
              bufferTypes := bufferTypes[i := TypeString];
              v := TextData(col.text);
            }
          case NullableText =>
            if isNullList[i] {
              v := NullableTextData(None);
            } else {
              bufferTypes := bufferTypes[i := TypeString];
              v := NullableTextData(Some(col.text));
            }
          case Float =>
            bufferTypes := bufferTypes[i := TypeDouble];
            v := FloatData(col.double);
          case Binary =>
            if lengthList[i] == 0 {
              v := BinaryData([]);
            } else {
              bufferTypes := bufferTypes[i := TypeBlob];
              v := BinaryData(col.bytes);
            }
          case NullableBinary =>
            if isNullList[i] {
              v := NullableBinaryData(None);
            } else if lengthList[i] == 0 {
              v := NullableBinaryData(Some([]));
            } else {
              bufferTypes := bufferTypes[i := TypeBlob];
              v := NullableBinaryData(Some(col.bytes));
            }
        }
        values := values + [v];
      }
      assert DecodeRow(fields, row)[..|fields|] == DecodeRow(fields, row);
      ClearBinds();
      return Some(values);
    }
  }
}
