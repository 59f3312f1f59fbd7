/**
  The SQLite adaptor (sqlite/src/lib.rs): the statement text it builds for a schema,
  the WHERE fragment and parameter list it compiles from a condition, the bind call
  it issues for each parameter, and how it decodes a result row into cells.

  SQLite itself is not modelled: a statement is its text plus the cells bound to
  it, binding is the list of `sqlite3_bind_*` calls made, and a result row is a
  list of columns as `sqlite3_column_*` reports them.
 */
module Sqlite {
  import opened Wrappers
  import opened SqlText
  import opened Types
  import opened QueryCond

  /** The adaptor handles every kind but the two binary ones. */
  predicate SqliteKind(k: DbDataType)
  {
    k != Binary && k != NullableBinary
  }

  predicate SqliteFields(fields: seq<Field>)
  {
    forall i :: 0 <= i < |fields| ==> SqliteKind(fields[i].1)
  }

  /** No `?` in the table name or any column name. */
  predicate NamesUnmarked(name: string, fields: seq<Field>)
  {
    Unmarked(name) && forall i :: 0 <= i < |fields| ==> Unmarked(fields[i].0)
  }

  // ---------------------------------------------------------------------------
  // Statement text
  // ---------------------------------------------------------------------------

  /** The SQLite column type of each kind. */
  function ColumnType(k: DbDataType): string
    requires SqliteKind(k)
  {
    match k
    case Int => "INTEGER NOT NULL"
    case NullableInt => "INTEGER"
    case Text => "TEXT NOT NULL"
    case NullableText => "TEXT"
    case Float => "REAL"
    case RowID => "INTEGER PRIMARY KEY"
  }

  /** Distinct kinds get distinct column types: the table definition records every kind. */
  lemma ColumnTypeInjective(k1: DbDataType, k2: DbDataType)
    requires SqliteKind(k1) && SqliteKind(k2)
    ensures ColumnType(k1) == ColumnType(k2) ==> k1 == k2
  {
    if ColumnType(k1) == ColumnType(k2) {
      assert |ColumnType(k1)| == |ColumnType(k2)|;
      assert ColumnType(k1)[0] == ColumnType(k2)[0];
    }
  }

  /** `name TYPE` for every field, in field order. */
  function ColumnDefs(fields: seq<Field>): (r: seq<string>)
    requires SqliteFields(fields)
    ensures |r| == |fields|
    ensures forall i :: 0 <= i < |fields| ==> r[i] == fields[i].0 + " " + ColumnType(fields[i].1)
  {
    seq(|fields|, i requires 0 <= i < |fields| => fields[i].0 + " " + ColumnType(fields[i].1))
  }

  function CreateTableSql(schemaName: string, fields: seq<Field>): string
    requires SqliteFields(fields)
  {
    "CREATE TABLE IF NOT EXISTS " + schemaName + " (" + Join(ColumnDefs(fields), ", ") + ");"
  }

  /** The numbered placeholders `?1`, ..., `?n`. */
  function Placeholders(n: nat): (r: seq<string>)
    ensures |r| == n
    ensures forall i :: 0 <= i < n ==> r[i] == "?" + NatToString(i + 1)
  {
    seq(n, i requires 0 <= i < n => "?" + NatToString(i + 1))
  }

  function InsertSql(schemaName: string, fields: seq<Field>): string
  {
    "INSERT INTO " + schemaName + " (" + Join(ColumnNames(fields), ", ") + ") VALUES ("
      + Join(Placeholders(|fields|), ", ") + ");"
  }

  function QueryClauseSql(schemaName: string, fields: seq<Field>): string
  {
    "SELECT " + Join(ColumnNames(fields), ", ") + " FROM " + schemaName
  }

  /** `name = ?` for every field, in field order. */
  function Assignments(fields: seq<Field>): (r: seq<string>)
    ensures |r| == |fields|
    ensures forall i :: 0 <= i < |fields| ==> r[i] == fields[i].0 + " = ?"
  {
    seq(|fields|, i requires 0 <= i < |fields| => fields[i].0 + " = ?")
  }

  function UpdateClauseSql(schemaName: string, fields: seq<Field>): string
  {
    "UPDATE " + schemaName + " SET " + Join(Assignments(fields), ", ")
  }

  /** `get_delete_clause`: the clause adds no placeholder of its own. */
  function DeleteClauseSql(schemaName: string): (r: string)
    ensures Unmarked(r) <==> Unmarked(schemaName)
  {
    "DELETE FROM " + schemaName
  }

  /** `get_create_table_stmt_code`. */
  method GetCreateTableStmtCode(schemaName: string, fields: seq<Field>) returns (s: string)
    requires SqliteFields(fields)
    ensures s == CreateTableSql(schemaName, fields)
  {
    var defs := ColumnDefs(fields);
    var head := "CREATE TABLE IF NOT EXISTS " + schemaName + " (";
    s := head;
    for i := 0 to |fields|
      invariant s == head + Join(defs[..i], ", ")
    {
      JoinPush(head, defs, ", ", i, fields[i].0 + " ", ColumnType(fields[i].1));
      if i != 0 {
        s := s + ", ";
      }
      s := s + fields[i].0 + " ";
      s := s + ColumnType(fields[i].1);
    }
    assert defs[..|fields|] == defs;
    s := s + ");";
  }

  /** `get_insert_value_stmt_code`: the column names, then `?1` to `?N`. */
  method GetInsertValueStmtCode(schemaName: string, fields: seq<Field>) returns (s: string)
    ensures s == InsertSql(schemaName, fields)
  {
    var names, marks := ColumnNames(fields), Placeholders(|fields|);
    var head := "INSERT INTO " + schemaName + " (";
    s := head;
    for i := 0 to |fields|
      invariant s == head + Join(names[..i], ", ")
    {
      JoinSnoc(names, ", ", i);
      if i != 0 {
        s := s + ", ";
      }
      s := s + fields[i].0;
    }
    assert names[..|fields|] == names;
    s := s + ") VALUES (";
    var mid := s;
    for i := 0 to |fields|
      invariant s == mid + Join(marks[..i], ", ")
    {
      JoinPush(mid, marks, ", ", i, "?", NatToString(i + 1));
      if i != 0 {
        s := s + ", ";
      }
      s := s + "?" + NatToString(i + 1);
    }
    assert marks[..|fields|] == marks;
    s := s + ");";
  }

  /** `get_query_clause`. */
  method GetQueryClause(schemaName: string, fields: seq<Field>) returns (s: string)
    ensures s == QueryClauseSql(schemaName, fields)
  {
    var names := ColumnNames(fields);
    s := "SELECT ";
    for i := 0 to |fields|
      invariant s == "SELECT " + Join(names[..i], ", ")
    {
      JoinSnoc(names, ", ", i);
      if i != 0 {
        s := s + ", ";
      }
      s := s + fields[i].0;
    }
    assert names[..|fields|] == names;
    s := s + " FROM " + schemaName;
  }

  /** `get_update_clause`. */
  method GetUpdateClause(schemaName: string, fields: seq<Field>) returns (s: string)
    ensures s == UpdateClauseSql(schemaName, fields)
  {
    var sets := Assignments(fields);
    var head := "UPDATE " + schemaName + " SET ";
    s := head;
    for i := 0 to |fields|
      invariant s == head + Join(sets[..i], ", ")
    {
      JoinSnoc(sets, ", ", i);
      if i != 0 {
        s := s + ", ";
      }
      s := s + fields[i].0 + " = ?";
    }
    assert sets[..|fields|] == sets;
  }

  // ---------------------------------------------------------------------------
  // Properties of the statement text
  // ---------------------------------------------------------------------------

  /** Placeholder i is numbered i + 1, so it carries the parameter bound at position i + 1. */
  lemma PlaceholdersNumbered(n: nat, i: nat, j: nat)
    requires i < n && j < n
    ensures Marks(Placeholders(n)[i]) == 1
    ensures Placeholders(n)[i] == Placeholders(n)[j] ==> i == j
  {
    var p := Placeholders(n);
    NatToStringUnmarked(i + 1);
    MarksWrapped("", "?", NatToString(i + 1));
    assert "" + "?" + NatToString(i + 1) == p[i];
    assert Marks("?") == 1;
    if p[i] == p[j] {
      assert NatToString(i + 1) == p[i][1..];
      assert NatToString(j + 1) == p[j][1..];
      NatToStringInjective(i + 1, j + 1);
    }
  }

  /** An INSERT has one mark per field, so it expects one parameter per field. */
  lemma InsertSqlMarks(schemaName: string, fields: seq<Field>)
    requires NamesUnmarked(schemaName, fields)
    ensures Marks(InsertSql(schemaName, fields)) == |fields|
  {
    var names, marks := ColumnNames(fields), Placeholders(|fields|);
    JoinUnmarked(names, ", ");
    forall i | 0 <= i < |fields| ensures Marks(marks[i]) == 1 {
      PlaceholdersNumbered(|fields|, i, i);
    }
    JoinOneMarkEach(marks, ", ");
    var head := "INSERT INTO " + schemaName + " (" + Join(names, ", ") + ") VALUES (";
    MarksWrapped(head, Join(marks, ", "), ");");
  }

  /** The SELECT clause holds no mark: a bare query binds nothing. */
  lemma QueryClauseUnmarked(schemaName: string, fields: seq<Field>)
    requires NamesUnmarked(schemaName, fields)
    ensures Unmarked(QueryClauseSql(schemaName, fields))
  {
    JoinUnmarked(ColumnNames(fields), ", ");
  }

  /** The assignment of each field holds one mark. */
  lemma AssignmentsOneMarkEach(fields: seq<Field>)
    requires forall i :: 0 <= i < |fields| ==> Unmarked(fields[i].0)
    ensures forall i :: 0 <= i < |fields| ==> Marks(Assignments(fields)[i]) == 1
  {
    forall i | 0 <= i < |fields| ensures Marks(Assignments(fields)[i]) == 1 {
      MarksWrapped(fields[i].0 + " = ", "?", "");
      assert fields[i].0 + " = " + "?" + "" == fields[i].0 + " = ?";
      assert Marks("?") == 1;
    }
  }

  /** An UPDATE clause has one mark per field. */
  lemma UpdateClauseMarks(schemaName: string, fields: seq<Field>)
    requires NamesUnmarked(schemaName, fields)
    ensures Marks(UpdateClauseSql(schemaName, fields)) == |fields|
  {
    AssignmentsOneMarkEach(fields);
    JoinOneMarkEach(Assignments(fields), ", ");
    MarksWrapped("UPDATE " + schemaName + " SET ", Join(Assignments(fields), ", "), "");
    assert "UPDATE " + schemaName + " SET " + Join(Assignments(fields), ", ") + ""
        == UpdateClauseSql(schemaName, fields);
  }

  /** The fields of the adaptor's own test schema. */
  function TestFields(): seq<Field>
  {
    [("row_id", RowID), ("name", Text), ("desc", NullableText), ("counter", Int)]
  }

  /** The column definitions of the test schema, joined. */
  lemma ColumnDefsExample()
    ensures Join(ColumnDefs(TestFields()), ", ")
         == ("row_id" + " " + "INTEGER PRIMARY KEY") + ", " + ("name" + " " + "TEXT NOT NULL") + ", "
            + ("desc" + " " + "TEXT") + ", " + ("counter" + " " + "INTEGER NOT NULL")
  {
    var defs := ColumnDefs(TestFields());
    var d0, d1 := "row_id" + " " + "INTEGER PRIMARY KEY", "name" + " " + "TEXT NOT NULL";
    var d2, d3 := "desc" + " " + "TEXT", "counter" + " " + "INTEGER NOT NULL";
    assert defs[0] == d0 && defs[1] == d1 && defs[2] == d2 && defs[3] == d3;
    assert defs == [d0, d1, d2, d3];
    Join4(d0, d1, d2, d3, ", ");
  }

  /** The column names of the test schema, joined. */
  lemma ColumnNamesExample()
    ensures Join(ColumnNames(TestFields()), ", ") == "row_id" + ", " + "name" + ", " + "desc" + ", " + "counter"
  {
    var names := ColumnNames(TestFields());
    assert names == ["row_id", "name", "desc", "counter"];
    Join4(names[0], names[1], names[2], names[3], ", ");
  }

  /** Four placeholders, joined. */
  lemma PlaceholdersExample()
    ensures Join(Placeholders(4), ", ") == "?1" + ", " + "?2" + ", " + "?3" + ", " + "?4"
  {
    var marks := Placeholders(4);
    assert marks[0] == "?1" by { assert NatToString(1) == "1"; }
    assert marks[1] == "?2" by { assert NatToString(2) == "2"; }
    assert marks[2] == "?3" by { assert NatToString(3) == "3"; }
    assert marks[3] == "?4" by { assert NatToString(4) == "4"; }
    assert marks == [marks[0], marks[1], marks[2], marks[3]];
    Join4(marks[0], marks[1], marks[2], marks[3], ", ");
  }

  /**
    The CREATE TABLE text the adaptor's test expects (written piecewise: read the
    right-hand side as one string).
   */
  lemma CreateTableSqlExample()
    ensures CreateTableSql("test_table_name", TestFields())
         == "CREATE TABLE IF NOT EXISTS " + "test_table_name" + " ("
            + ("row_id" + " " + "INTEGER PRIMARY KEY" + ", " + "name" + " " + "TEXT NOT NULL" + ", "
               + "desc" + " " + "TEXT" + ", " + "counter" + " " + "INTEGER NOT NULL") + ");"
  {
    ColumnDefsExample();
  }

  /** The INSERT text the adaptor's test expects. */
  lemma InsertSqlExample()
    ensures InsertSql("test_table_name", TestFields())
         == "INSERT INTO " + "test_table_name" + " ("
            + ("row_id" + ", " + "name" + ", " + "desc" + ", " + "counter")
            + ") VALUES (" + ("?1" + ", " + "?2" + ", " + "?3" + ", " + "?4") + ");"
  {
    ColumnNamesExample();
    PlaceholdersExample();
  }

  /** The SELECT text the adaptor's test expects. */
  lemma QueryClauseSqlExample()
    ensures QueryClauseSql("test_table_name", TestFields())
         == "SELECT " + ("row_id" + ", " + "name" + ", " + "desc" + ", " + "counter") + " FROM " + "test_table_name"
  {
    ColumnNamesExample();
  }

  // ---------------------------------------------------------------------------
  // The condition compiler
  // ---------------------------------------------------------------------------

  /**
    `get_condition_stmt_and_params`: the WHERE fragment, with an anonymous `?` per
    literal, and the literals to bind, left operand's before right operand's.
   */
  function CompileCond(c: Cond): (r: (string, seq<DbData>))
    ensures r.1 == Literals(c)
  {
    match c
    case IsNull(f) => (f + " IS NULL", [])
    case IsNotNull(f) => (f + " IS NOT NULL", [])
    case IntegerEqualTo(f, v) => (f + "=?", [IntData(v)])
    case IntegerNotEqualTo(f, v) => (f + "<>?", [IntData(v)])
    case IntegerGreaterThan(f, v) => (f + ">?", [IntData(v)])
    case IntegerLessThan(f, v) => (f + "<?", [IntData(v)])
    case IntegerGreaterThanOrEqualTo(f, v) => (f + ">=?", [IntData(v)])
    case IntegerLessThanOrEqualTo(f, v) => (f + "<=?", [IntData(v)])
    case TextEqualTo(f, t) => (f + "=?", [TextData(t)])
    case And(l, r) =>
      var (ls, lp) := CompileCond(l);
      var (rs, rp) := CompileCond(r);
      ("(" + ls + ") AND (" + rs + ")", lp + rp)
    case Or(l, r) =>
      var (ls, lp) := CompileCond(l);
      var (rs, rp) := CompileCond(r);
      ("(" + ls + ") OR (" + rs + ")", lp + rp)
    case Not(c') =>
      var (s, p) := CompileCond(c');
      ("NOT (" + s + ")", p)
  }

  /** The operator text of a comparison leaf. */
  function Operator(c: Cond): string
    requires IsIntegerComparison(c) || c.TextEqualTo?
  {
    match c
    case IntegerEqualTo(_, _) => "="
    case IntegerNotEqualTo(_, _) => "<>"
    case IntegerGreaterThan(_, _) => ">"
    case IntegerLessThan(_, _) => "<"
    case IntegerGreaterThanOrEqualTo(_, _) => ">="
    case IntegerLessThanOrEqualTo(_, _) => "<="
    case TextEqualTo(_, _) => "="
  }

  /**
    The fragment with each literal written in its mark's place by `render`: what
    the database evaluates once the parameters are bound.
   */
  function InlineCond(c: Cond, render: DbData -> string): string
  {
    match c
    case IsNull(f) => f + " IS NULL"
    case IsNotNull(f) => f + " IS NOT NULL"
    case And(l, r) => "(" + InlineCond(l, render) + ") AND (" + InlineCond(r, render) + ")"
    case Or(l, r) => "(" + InlineCond(l, render) + ") OR (" + InlineCond(r, render) + ")"
    case Not(c') => "NOT (" + InlineCond(c', render) + ")"
    case _ => c.fieldName + Operator(c) + render(Literals(c)[0])
  }

  /** A comparison leaf compiles to its field, its operator and one mark. */
  lemma CompileLeaf(c: Cond)
    requires IsIntegerComparison(c) || c.TextEqualTo?
    ensures CompileCond(c).0 == c.fieldName + Operator(c) + "?"
    ensures |Literals(c)| == 1
    ensures Unmarked(Operator(c))
  {
  }

  /** A comparison leaf on an unmarked field holds exactly its one mark. */
  lemma LeafMarks(c: Cond)
    requires IsIntegerComparison(c) || c.TextEqualTo?
    requires Unmarked(c.fieldName)
    ensures Marks(CompileCond(c).0) == 1
  {
    CompileLeaf(c);
    SubstituteTrailingMark(c.fieldName + Operator(c), "");
  }

  /** With unmarked field names, the fragment holds one mark per parameter. */
  lemma {:induction false} CompileCondMarks(c: Cond)
    requires FieldsUnmarked(c)
    ensures Marks(CompileCond(c).0) == |CompileCond(c).1|
  {
    FieldsUnmarkedChildren(c);
    if c.And? {
      CompileCondMarks(c.left);
      CompileCondMarks(c.right);
      MarksBinary("(", CompileCond(c.left).0, ") AND (", CompileCond(c.right).0, ")");
    } else if c.Or? {
      CompileCondMarks(c.left);
      CompileCondMarks(c.right);
      MarksBinary("(", CompileCond(c.left).0, ") OR (", CompileCond(c.right).0, ")");
    } else if c.Not? {
      CompileCondMarks(c.cond);
      MarksWrapped("NOT (", CompileCond(c.cond).0, ")");
    } else if c.IsNull? || c.IsNotNull? {
      NullTestUnmarked(c);
      NoMarks(CompileCond(c).0);
    } else {
      LeafMarks(c);
    }
  }

  /** A null test compiles to unmarked text equal to its inlined form. */
  lemma NullTestUnmarked(c: Cond)
    requires c.IsNull? || c.IsNotNull?
    requires Unmarked(c.fieldName)
    ensures Unmarked(CompileCond(c).0) && CompileCond(c).1 == []
    ensures forall render: DbData -> string :: InlineCond(c, render) == CompileCond(c).0
  {
  }

  /** A comparison leaf takes its one parameter in its mark's place. */
  lemma LeafOrder(c: Cond, render: DbData -> string)
    requires IsIntegerComparison(c) || c.TextEqualTo?
    requires Unmarked(c.fieldName)
    ensures Substitute(CompileCond(c).0, MapText(CompileCond(c).1, render)) == InlineCond(c, render)
  {
    CompileLeaf(c);
    SubstituteTrailingMark(c.fieldName + Operator(c), render(Literals(c)[0]));
    assert MapText(CompileCond(c).1, render) == [render(Literals(c)[0])];
  }

  /**
    Binding the parameters to the fragment's marks in order puts every literal in
    its own leaf: the i-th mark receives the i-th parameter.
   */
  lemma {:induction false} CompileCondOrder(c: Cond, render: DbData -> string)
    requires FieldsUnmarked(c)
    ensures Substitute(CompileCond(c).0, MapText(CompileCond(c).1, render)) == InlineCond(c, render)
  {
    FieldsUnmarkedChildren(c);
    if c.And? || c.Or? {
      CompileCondOrder(c.left, render);
      CompileCondOrder(c.right, render);
      BinaryOrder(c, render, if c.And? then ") AND (" else ") OR (");
    } else if c.Not? {
      CompileCondOrder(c.cond, render);
      NotOrder(c, render);
    } else if c.IsNull? || c.IsNotNull? {
      NullTestUnmarked(c);
      SubstituteUnmarked(CompileCond(c).0, MapText(CompileCond(c).1, render));
    } else {
      LeafOrder(c, render);
    }
  }

  /** The step of `CompileCondOrder` for `Not`, given the child's. */
  lemma NotOrder(c: Cond, render: DbData -> string)
    requires c.Not? && FieldsUnmarked(c.cond)
    requires Substitute(CompileCond(c.cond).0, MapText(CompileCond(c.cond).1, render)) == InlineCond(c.cond, render)
    ensures Substitute(CompileCond(c).0, MapText(CompileCond(c).1, render)) == InlineCond(c, render)
  {
    CompileCondMarks(c.cond);
    SubstituteWrapped("NOT (", CompileCond(c.cond).0, ")", MapText(CompileCond(c.cond).1, render));
  }

  /** The step of `CompileCondOrder` for `And` and `Or`, given the children's. */
  lemma BinaryOrder(c: Cond, render: DbData -> string, op: string)
    requires c.And? || c.Or?
    requires op == if c.And? then ") AND (" else ") OR ("
    requires FieldsUnmarked(c.left) && FieldsUnmarked(c.right)
    requires Substitute(CompileCond(c.left).0, MapText(CompileCond(c.left).1, render)) == InlineCond(c.left, render)
    requires Substitute(CompileCond(c.right).0, MapText(CompileCond(c.right).1, render)) == InlineCond(c.right, render)
    ensures Substitute(CompileCond(c).0, MapText(CompileCond(c).1, render)) == InlineCond(c, render)
  {
    var (ls, lp) := CompileCond(c.left);
    var (rs, rp) := CompileCond(c.right);
    CompileCondMarks(c.left);
    CompileCondMarks(c.right);
    assert MapText(lp + rp, render) == MapText(lp, render) + MapText(rp, render);
    SubstituteBinary("(", ls, op, rs, ")", MapText(lp, render), MapText(rp, render));
  }

  // ---------------------------------------------------------------------------
  // The adaptor operations: statement text and bound parameters
  // ---------------------------------------------------------------------------

  /** A prepared statement: its text and the cells bound to it, in position order. */
  datatype Statement = Statement(sql: string, params: seq<DbData>)

  /** `insert_record`: the INSERT for the schema, binding the record's values. */
  method InsertRecord(schemaName: string, fields: seq<Field>, values: seq<DbData>) returns (st: Statement)
    requires Conforms(fields, values)
    ensures st.sql == InsertSql(schemaName, fields) && st.params == values
    ensures NamesUnmarked(schemaName, fields) ==> Marks(st.sql) == |st.params|
  {
    var sql := GetInsertValueStmtCode(schemaName, fields);
    if NamesUnmarked(schemaName, fields) {
      InsertSqlMarks(schemaName, fields);
    }
    st := Statement(sql, values);
  }

  /** `query_all`: the SELECT clause and `;`, binding nothing. */
  method QueryAll(schemaName: string, fields: seq<Field>) returns (st: Statement)
    ensures st.sql == QueryClauseSql(schemaName, fields) + ";" && st.params == []
    ensures NamesUnmarked(schemaName, fields) ==> Marks(st.sql) == 0
  {
    var sql := GetQueryClause(schemaName, fields);
    if NamesUnmarked(schemaName, fields) {
      QueryClauseUnmarked(schemaName, fields);
      NoMarks(sql + ";");
    }
    st := Statement(sql + ";", []);
  }

  /** `query_with_cond`: `SELECT ... WHERE <fragment>;`, binding the condition's literals. */
  method QueryWithCond(schemaName: string, fields: seq<Field>, c: Cond) returns (st: Statement)
    ensures st.sql == QueryClauseSql(schemaName, fields) + " WHERE " + CompileCond(c).0 + ";"
    ensures st.params == Literals(c)
    ensures NamesUnmarked(schemaName, fields) && FieldsUnmarked(c) ==> Marks(st.sql) == |st.params|
  {
    var query := GetQueryClause(schemaName, fields);
    var (cs, cp) := CompileCond(c);
    if NamesUnmarked(schemaName, fields) && FieldsUnmarked(c) {
      QueryClauseUnmarked(schemaName, fields);
      CompileCondMarks(c);
      MarksWrapped(query + " WHERE ", cs, ";");
    }
    st := Statement(query + " WHERE " + cs + ";", cp);
  }

  /** `delete_with_cond`: `DELETE FROM name WHERE <fragment>;`, binding the condition's literals. */
  method DeleteWithCond(schemaName: string, c: Cond) returns (st: Statement)
    ensures st.sql == DeleteClauseSql(schemaName) + " WHERE " + CompileCond(c).0 + ";"
    ensures st.params == Literals(c)
    ensures Unmarked(schemaName) && FieldsUnmarked(c) ==> Marks(st.sql) == |st.params|
  {
    var clause := DeleteClauseSql(schemaName);
    var (cs, cp) := CompileCond(c);
    if Unmarked(schemaName) && FieldsUnmarked(c) {
      CompileCondMarks(c);
      MarksWrapped(clause + " WHERE ", cs, ";");
    }
    st := Statement(clause + " WHERE " + cs + ";", cp);
  }

  /**
    `update_with_cond`: `UPDATE ... SET ... WHERE <fragment>;`, binding the record's
    values and then the condition's literals, the order of the marks.
   */
  method UpdateWithCond(schemaName: string, fields: seq<Field>, values: seq<DbData>, c: Cond)
    returns (st: Statement)
    requires Conforms(fields, values)
    ensures st.sql == UpdateClauseSql(schemaName, fields) + " WHERE " + CompileCond(c).0 + ";"
    ensures st.params == values + Literals(c)
    ensures NamesUnmarked(schemaName, fields) && FieldsUnmarked(c) ==> Marks(st.sql) == |st.params|
  {
    var clause := GetUpdateClause(schemaName, fields);
    var (cs, cp) := CompileCond(c);
    var params := values;
    params := params + cp;
    if NamesUnmarked(schemaName, fields) && FieldsUnmarked(c) {
      UpdateClauseMarks(schemaName, fields);
      CompileCondMarks(c);
      MarksBinary("", clause, " WHERE ", cs, ";");
      assert "" + clause + " WHERE " + cs + ";" == clause + " WHERE " + cs + ";";
    }
    st := Statement(clause + " WHERE " + cs + ";", params);
  }

  /**
    In an UPDATE, the record's values land in the SET assignments, field by field,
    and the condition's literals in the WHERE fragment.
   */
  lemma {:induction false} UpdateWithCondOrder(schemaName: string, fields: seq<Field>, values: seq<DbData>, c: Cond,
                            render: DbData -> string)
    requires |values| == |fields|
    requires NamesUnmarked(schemaName, fields) && FieldsUnmarked(c)
    ensures Substitute(UpdateClauseSql(schemaName, fields) + " WHERE " + CompileCond(c).0 + ";",
                       MapText(values + Literals(c), render))
         == "UPDATE " + schemaName + " SET "
            + Join(FillEach(Assignments(fields), MapText(values, render)), ", ")
            + " WHERE " + InlineCond(c, render) + ";"
  {
    var head := "UPDATE " + schemaName + " SET ";
    var sets := Join(Assignments(fields), ", ");
    var cs := CompileCond(c).0;
    var vp, cp := MapText(values, render), MapText(Literals(c), render);
    assert MapText(values + Literals(c), render) == vp + cp;
    FillAssignments(fields, vp);
    FillCond(c, render);
    SubstituteWhere(head, sets, cs, vp, cp, Join(FillEach(Assignments(fields), vp), ", "), InlineCond(c, render));
  }

  /** A compiled condition holds one mark per literal, and filling them in gives the inlined condition. */
  lemma FillCond(c: Cond, render: DbData -> string)
    requires FieldsUnmarked(c)
    ensures Marks(CompileCond(c).0) == |MapText(Literals(c), render)|
    ensures Substitute(CompileCond(c).0, MapText(Literals(c), render)) == InlineCond(c, render)
  {
    CompileCondMarks(c);
    CompileCondOrder(c, render);
  }

  /** The SET list holds one mark per field, and substituting fills each assignment with its own value. */
  lemma FillAssignments(fields: seq<Field>, ps: seq<string>)
    requires forall i :: 0 <= i < |fields| ==> Unmarked(fields[i].0)
    requires |ps| == |fields|
    ensures Marks(Join(Assignments(fields), ", ")) == |ps|
    ensures Substitute(Join(Assignments(fields), ", "), ps) == Join(FillEach(Assignments(fields), ps), ", ")
  {
    AssignmentsOneMarkEach(fields);
    JoinOneMarkEach(Assignments(fields), ", ");
    SubstituteJoin(Assignments(fields), ", ", ps);
  }

  // ---------------------------------------------------------------------------
  // Binding
  // ---------------------------------------------------------------------------

  /**
    One `sqlite3_bind_*` call. `BindText` with no text is a null pointer, which binds
    NULL; its `len` is the byte count passed to `sqlite3_bind_text`.
   */
  datatype BindCall =
    | BindInt64(pos: nat, i: i64)
    | BindDouble(pos: nat, f: Float64)
    | BindNull(pos: nat)
    | BindText(pos: nat, text: Option<string>, len: int)

  const I32_LIMIT: int := 0x8000_0000

  /**
    `n as i32` for a `usize` length: the low 32 bits read in two's complement, so a
    length of 2^31 or more wraps.
   */
  function AsI32(n: nat): (v: int)
    ensures -I32_LIMIT <= v < I32_LIMIT
    ensures (v - n) % (2 * I32_LIMIT) == 0
    ensures v == n <==> n < I32_LIMIT
  {
    var m := n % (2 * I32_LIMIT);
    if m < I32_LIMIT then m else m - 2 * I32_LIMIT
  }

  predicate BindsNull(b: BindCall)
  {
    b.BindNull? || (b.BindText? && b.text.None?)
  }

  /** The call `bind_params_to_stmt` makes for one cell at one position, chosen by its kind. */
  function BindFor(d: DbData, pos: nat): (b: BindCall)
    requires SqliteKind(KindOf(d))
    ensures b.pos == pos
    ensures BindsNull(b) <==> IsAbsent(d)
    ensures b.BindText? ==> (b.len == DataLen(d) <==> DataLen(d) < I32_LIMIT)
  {
    match d
    case IntData(i) => BindInt64(pos, i)
    case FloatData(f) => BindDouble(pos, f)
    case NullableIntData(oi) => if oi.Some? then BindInt64(pos, oi.value) else BindNull(pos)
    case RowIdData(r) => if r.Id? then BindInt64(pos, r.id) else BindNull(pos)
    case TextData(s) => BindText(pos, Some(s), AsI32(DataLen(d)))
    case NullableTextData(os) => BindText(pos, os, AsI32(DataLen(d)))
  }

  /**
    The cell of kind `k` a bind call stores. A text bind stores its first `len`
    bytes; a negative `len` makes SQLite read up to a NUL the text does not carry,
    which the model leaves undefined (`None`).
   */
  function BoundCell(b: BindCall, k: DbDataType): Option<DbData>
  {
    match (k, b)
    case (Int, BindInt64(_, i)) => Some(IntData(i))
    case (Float, BindDouble(_, f)) => Some(FloatData(f))
    case (NullableInt, BindInt64(_, i)) => Some(NullableIntData(Some(i)))
    case (NullableInt, BindNull(_)) => Some(NullableIntData(None))
    case (RowID, BindInt64(_, i)) => Some(RowIdData(Id(i)))
    case (RowID, BindNull(_)) => Some(RowIdData(New))
    case (Text, BindText(_, Some(s), n)) => if 0 <= n <= |s| then Some(TextData(s[..n])) else None
    case (NullableText, BindText(_, None, _)) => Some(NullableTextData(None))
    case (NullableText, BindText(_, Some(s), n)) =>
      if 0 <= n <= |s| then Some(NullableTextData(Some(s[..n]))) else None
    case _ => None
  }

  /**
    A bind call goes to the given position, binds NULL exactly for an absent cell,
    and, for a text shorter than 2^31 bytes, loses nothing: with the column's kind
    it gives the cell back.
   */
  lemma BindForFaithful(d: DbData, pos: nat)
    requires SqliteKind(KindOf(d))
    ensures BindFor(d, pos).pos == pos
    ensures BindsNull(BindFor(d, pos)) <==> IsAbsent(d)
    ensures DataLen(d) < I32_LIMIT ==> BoundCell(BindFor(d, pos), KindOf(d)) == Some(d)
  {
    match d
    case TextData(s) => assert s[..|s|] == s;
    case NullableTextData(os) => if os.Some? { assert os.value[..|os.value|] == os.value; }
    case _ =>
  }

  /**
    A text of exactly 2^31 bytes is bound with a negative length, so the text is
    not what SQLite stores.
   */
  lemma BindLongText(s: string, pos: nat)
    requires |s| == I32_LIMIT
    ensures BindFor(TextData(s), pos).len == -I32_LIMIT
    ensures BoundCell(BindFor(TextData(s), pos), Text) == None
  {
  }

  /** `bind_params_to_stmt`: `params[k]` is bound at position k + 1. */
  method BindParamsToStmt(params: seq<DbData>) returns (calls: seq<BindCall>)
    requires forall k :: 0 <= k < |params| ==> SqliteKind(KindOf(params[k]))
    ensures |calls| == |params|
    ensures forall k :: 0 <= k < |params| ==> calls[k] == BindFor(params[k], k + 1)
  {
    calls := [];
    for ii := 0 to |params|
      invariant |calls| == ii
      invariant forall k :: 0 <= k < ii ==> calls[k] == BindFor(params[k], k + 1)
    {
      var i := ii + 1;
      var call: BindCall;
      match params[ii] {
        case IntData(v) => call := BindInt64(i, v);
        case FloatData(f) => call := BindDouble(i, f);
        case NullableIntData(oi) =>
          if oi.Some? { call := BindInt64(i, oi.value); } else { call := BindNull(i); }
        case RowIdData(r) =>
          if r.Id? { call := BindInt64(i, r.id); } else { call := BindNull(i); }
        case TextData(s) => call := BindText(i, Some(s), AsI32(|s|));
        case NullableTextData(os) => call := BindText(i, os, AsI32(if os.Some? then |os.value| else 0));
      }
      calls := calls + [call];
    }
  }

  // ---------------------------------------------------------------------------
  // Result rows
  // ---------------------------------------------------------------------------

  const SQLITE_INTEGER: int := 1
  const SQLITE_NULL: int := 5
  const SQLITE_ROW: int := 100
  const SQLITE_DONE: int := 101

  /**
    One column of the current row as the `sqlite3_column_*` readers report it: its
    storage class, and its value read as an integer, a double and text.
   */
  datatype Column = Column(typeCode: int, int64: i64, double: Float64, text: string)

  /**
    The decode of `SQLiteRowIterator::next` as written: both text kinds read the
    column's text into a plain `String` cell.
   */
  function DecodeColumnAsWritten(k: DbDataType, col: Column): (d: DbData)
    requires SqliteKind(k)
    ensures k != NullableText ==> KindOf(d) == k
    ensures k == NullableText ==> KindOf(d) == Text
  {
    match k
    case NullableInt => NullableIntData(if col.typeCode == SQLITE_INTEGER then Some(col.int64) else None)
    case Int => IntData(col.int64)
    case Float => FloatData(col.double)
    case RowID => RowIdData(Id(col.int64))
    case NullableText => TextData(col.text)
    case Text => TextData(col.text)
  }

  /**
    As written, a NullableText column never decodes to a NullableText cell, so a
    stored NULL can never come back as `None`.
   */
  lemma DecodeNullableTextAsWritten(col: Column)
    ensures KindOf(DecodeColumnAsWritten(NullableText, col)) == Text
    ensures DecodeColumnAsWritten(NullableText, col) != NullableTextData(None)
  {
  }

  /**
    The decode with the NullableText case corrected: a NULL column is `None`, any
    other is `Some` of its text.
   */
  function DecodeColumn(k: DbDataType, col: Column): (d: DbData)
    requires SqliteKind(k)
    ensures KindOf(d) == k
    ensures k != NullableText ==> d == DecodeColumnAsWritten(k, col)
    ensures k == NullableText ==> (d == NullableTextData(None) <==> col.typeCode == SQLITE_NULL)
    ensures k == NullableInt ==> (d == NullableIntData(None) <==> col.typeCode != SQLITE_INTEGER)
  {
    if k == NullableText then NullableTextData(if col.typeCode == SQLITE_NULL then None else Some(col.text))
    else DecodeColumnAsWritten(k, col)
  }

  /** The cells of a row, one per field, decoded by the field's kind. */
  function DecodeRow(fields: seq<Field>, row: seq<Column>): (cells: seq<DbData>)
    requires SqliteFields(fields) && |row| == |fields|
    ensures |cells| == |fields|
    ensures forall i :: 0 <= i < |fields| ==> cells[i] == DecodeColumn(fields[i].1, row[i])
  {
    seq(|fields|, i requires 0 <= i < |fields| => DecodeColumn(fields[i].1, row[i]))
  }

  /** A decoded row always rebuilds a record of the schema, whose values are the cells. */
  lemma DecodeRowRebuilds(decls: seq<FieldDecl>, row: seq<Column>)
    requires SqliteFields(SchemaFields(decls)) && |row| == |decls|
    ensures CreateWithValues(decls, DecodeRow(SchemaFields(decls), row)).Success?
    ensures RecordValues(CreateWithValues(decls, DecodeRow(SchemaFields(decls), row)).value)
         == DecodeRow(SchemaFields(decls), row)
  {
    CreateWithValuesConforming(decls, DecodeRow(SchemaFields(decls), row));
  }

  /**
    `SQLiteRowIterator::next`, from the step's result code and the current row: a
    row's cells on `SQLITE_ROW`, the end of the results on anything else.
   */
  method Next(stepCode: int, fields: seq<Field>, row: seq<Column>) returns (r: Option<seq<DbData>>)
    requires SqliteFields(fields) && |row| == |fields|
    ensures r.Some? <==> stepCode == SQLITE_ROW
    ensures r.Some? ==> r.value == DecodeRow(fields, row)
  {
    if stepCode == SQLITE_DONE {
      return None;
    } else if stepCode == SQLITE_ROW {
      var values: seq<DbData> := [];
      for i := 0 to |fields|
        invariant values == DecodeRow(fields, row)[..i]
      {
        var col := row[i];
        var v: DbData;
        match fields[i].1 {
          case NullableInt =>
            v := NullableIntData(if col.typeCode == SQLITE_INTEGER then Some(col.int64) else None);
          case Int => v := IntData(col.int64);
          case Float => v := FloatData(col.double);
          case RowID => v := RowIdData(Id(col.int64));
          case NullableText =>
            v := NullableTextData(if col.typeCode == SQLITE_NULL then None else Some(col.text));
          case Text => v := TextData(col.text);
        }
        values := values + [v];
      }
      return Some(values);
    } else {
      return None;
    }
  }
}
