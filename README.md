# Yoshino translation layer in Dafny

Yoshino is a small Rust ORM. A struct derives the `Schema` trait through a
procedural macro. Its values travel as typed cells, and two database adaptors
(SQLite and MySQL) turn a schema, a record or a query condition into SQL text
plus an ordered parameter list. A user crate stores salted password digests
in a text column.

This project models that translation layer, with one Dafny module per source file:

- `Types` (core/src/types.rs) covers:
  - the eight storage kinds;
  - `RowID`;
  - the field traits' `db_field_type` / `to_db_data` / `from_db_data`;
  - the schema contract;
  - `Schema::get_row_id_field`, as a loop proved against a specification function.
- `QueryCond` (core/src/query_cond.rs) covers the `Cond` tree, its builders and `is_row_id_equal_to`.
- `Sqlite` (sqlite/src/lib.rs) covers:
  - the statement builders, as loops proved against specification functions;
  - the condition compiler;
  - the `DbAdaptor` operations, each as a statement text and its bound cells;
  - the bind dispatch of `bind_params_to_stmt`;
  - the row decode of `SQLiteRowIterator::next`.
- `Mysql` (mysql/src/lib.rs) covers:
  - the statement builders and the condition compiler;
  - the `DbAdaptor` operations;
  - `MySQLBindList::from_boxed_db_data_list`;
  - the `MySQLResultIterator` class, with `new`, `clear_binds` and `next`.
- `Derive` (derive/src/lib.rs) covers:
  - `get_next_struct_name`;
  - the three-state field parser;
  - the three code emitters;
  - the generated impl text;
  - `derive_schema_fn`.
- `Authentication` (user/src/authentication.rs) covers:
  - `UserCredential::new` and `validate_credential`;
  - the big-endian frame written by `to_db_data`;
  - its reader in `from_db_data`, as a byte cursor class.
- `SqlText` holds shared text theory:
  - `Join`;
  - decimal rendering;
  - placeholder counting (`Marks`);
  - positional substitution (`Substitute`).

  Substitution states that the `?` marks of a statement and its parameter list agree in number and in order.
- `Wrappers` holds `Option` and `Result`.

A value cell (`Box<dyn DbData>` in the source) is the tagged datatype `Types.DbData`. A
database statement is its text plus the cells bound to it. A fetched row is a
sequence of column readings.

## Model

| member | source | states |
|---|---|---|
| SqlText.NatToStringRoundTrip | derive/src/lib.rs:170 | the decimal text written for a `values[i]` index reads back as i |
| SqlText.NatToStringInjective | derive/src/lib.rs:170 | distinct indices are written as distinct texts |
| Types.DbFieldTypeBijective | core/src/types.rs:21-102 | every storage kind is the `db_field_type` of some field trait, and two traits never share a kind |
| Types.ToDbData | core/src/types.rs:104-168 | `to_db_data` gives a cell of its trait's kind; the cell is absent exactly for `None` and for `RowID::NEW` |
| Types.FromDbData | core/src/types.rs:104-168 | `from_db_data` succeeds exactly on a cell of the trait's kind, yields a value of that trait, and otherwise reports the kind mismatch |
| Types.CodecRoundTrip | core/src/types.rs:104-191 | decoding the cell a built-in value encodes to gives the value back, `None`, empty text and `RowID` included |
| Types.CellRoundTrip | core/src/types.rs:104-191 | a cell of the trait's kind decodes, and re-encodes to the same cell |
| Types.SchemaFields | derive/src/lib.rs:144 | generated `get_fields` has one `(name, db_field_type())` pair per field, in order |
| Types.RecordValues | derive/src/lib.rs:157 | generated `get_values` has one `to_db_data()` cell per field, in order |
| Types.RecordValuesConform | core/src/types.rs:199-202 | a record's values match its field list in number and kind |
| Types.CreateWithValues | derive/src/lib.rs:170 | generated `create_with_values` builds a record of the declared field types, or fails when cells are missing |
| Types.CreateWithValuesConforming | core/src/types.rs:201-204 | cells matching the field list always rebuild a record whose values are those cells |
| Types.RecordRoundTrip | core/src/types.rs:201-204 | rebuilding a record from its own values gives the record back |
| Types.RowIdIndicesSound | core/src/types.rs:212-214 | the scan visits exactly the RowID positions, each once, in ascending order |
| Types.RowIdFieldAbsent | core/src/types.rs:208-228 | with no RowID field the answer is `None` |
| Types.RowIdFieldUnique | core/src/types.rs:212-219 | with one RowID field at i, the answer is its name and the row id held in `values[i]` |
| Types.RowIdFieldMultiple | core/src/types.rs:220-224 | a second RowID field is the fatal error, with the message naming the schema |
| Types.RowIdFieldIgnoresOtherKinds | core/src/types.rs:214 | inserting a field of any other kind anywhere leaves the answer unchanged |
| Types.GetRowIdField | core/src/types.rs:208-229 | the scanning loop returns exactly the answer above |
| Types.RowIdFieldOf | core/src/types.rs:208-229 | reference definition of `get_row_id_field`: no answer only without RowID fields; an answer names a RowID field and the id its value holds; the only failure is the multiple-fields error |
| QueryCond.Literals | core/src/query_cond.rs:10-25 | an integer comparison carries its one `i64` literal; a null test carries none |
| QueryCond.Disjunction | core/src/query_cond.rs:29-31 | `or(l, r)` has `l` as left child and `r` as right child; its literals and field names are l's followed by r's |
| QueryCond.Conjunction | core/src/query_cond.rs:34-36 | the same for `and(l, r)` |
| QueryCond.FieldIsNull | core/src/query_cond.rs:39-41 | a null-test leaf on exactly the given field, with no literal |
| QueryCond.FieldIsNotNull | core/src/query_cond.rs:44-46 | a not-null leaf on exactly the given field, with no literal |
| QueryCond.IntegerEquals | core/src/query_cond.rs:49-51 | an equality leaf holding the field name and value verbatim |
| QueryCond.IntegerNotEquals | core/src/query_cond.rs:54-56 | an inequality leaf holding the field name and value verbatim |
| QueryCond.TextEquals | core/src/query_cond.rs:59-61 | a text-equality leaf holding the field name and text verbatim |
| QueryCond.IsRowIdEqualTo | core/src/query_cond.rs:65-80 | fails exactly when `get_row_id_field` does; when present, the condition is an integer equality on one literal |
| QueryCond.IsRowIdEqualToNoRowIdField | core/src/query_cond.rs:65-78 | a schema without a RowID field gives `None` |
| QueryCond.IsRowIdEqualToNew | core/src/query_cond.rs:68-70 | a record whose row id is `NEW` gives `None` |
| QueryCond.IsRowIdEqualToId | core/src/query_cond.rs:71-75 | a record stored under `ID(v)` in field f gives `f = v` |
| Sqlite.ColumnTypeInjective | sqlite/src/lib.rs:43-62 | distinct kinds get distinct SQLite column types |
| Sqlite.ColumnDefs | sqlite/src/lib.rs:43-62 | one `name TYPE` definition per field, in field order |
| Sqlite.Placeholders | sqlite/src/lib.rs:64-82 | the i-th placeholder is `?` followed by i + 1 |
| Sqlite.Assignments | sqlite/src/lib.rs:97-107 | one `name = ?` per field, in field order |
| Sqlite.GetCreateTableStmtCode | sqlite/src/lib.rs:43-62 | the loop builds `CREATE TABLE IF NOT EXISTS name (defs);` with the definitions joined by `, ` |
| Sqlite.GetInsertValueStmtCode | sqlite/src/lib.rs:64-82 | the loops build the column list and `?1`..`?N`, in order |
| Sqlite.GetQueryClause | sqlite/src/lib.rs:84-95 | the loop builds `SELECT f1, ..., fN FROM name` |
| Sqlite.GetUpdateClause | sqlite/src/lib.rs:97-107 | the loop builds `UPDATE name SET f1 = ?, ..., fN = ?` |
| Sqlite.PlaceholdersNumbered | sqlite/src/lib.rs:64-82 | each placeholder holds one mark, and no two placeholders are equal |
| Sqlite.InsertSqlMarks | sqlite/src/lib.rs:64-82 | an INSERT holds exactly one mark per field |
| Sqlite.QueryClauseUnmarked | sqlite/src/lib.rs:84-95 | a SELECT clause holds no mark |
| Sqlite.AssignmentsOneMarkEach | sqlite/src/lib.rs:97-107 | each SET assignment holds one mark |
| Sqlite.UpdateClauseMarks | sqlite/src/lib.rs:97-107 | an UPDATE clause holds exactly one mark per field |
| Sqlite.DeleteClauseSql | sqlite/src/lib.rs:160-162 | reference definition of `get_delete_clause`: the clause holds a mark only when the table name does |
| Sqlite.ColumnDefsExample | sqlite/src/test.rs:5-18 | the column definitions of the test schema |
| Sqlite.ColumnNamesExample | sqlite/src/test.rs:5-30 | the column list of the test schema |
| Sqlite.PlaceholdersExample | sqlite/src/test.rs:21-25 | the placeholders `?1, ?2, ?3, ?4` |
| Sqlite.CreateTableSqlExample | sqlite/src/test.rs:15-19 | the exact CREATE TABLE text the test expects |
| Sqlite.InsertSqlExample | sqlite/src/test.rs:21-25 | the exact INSERT text the test expects |
| Sqlite.QueryClauseSqlExample | sqlite/src/test.rs:27-31 | the exact SELECT text the test expects |
| Sqlite.CompileCond | sqlite/src/lib.rs:109-158 | the parameter list is the leaves' literals, left to right |
| Sqlite.CompileLeaf | sqlite/src/lib.rs:118-138 | a comparison leaf compiles to field, operator and one `?` |
| Sqlite.LeafMarks | sqlite/src/lib.rs:118-138 | a comparison leaf holds exactly one mark |
| Sqlite.NullTestUnmarked | sqlite/src/lib.rs:112-117 | a null test compiles to `f IS NULL` or `f IS NOT NULL`, with no mark and no parameter |
| Sqlite.CompileCondMarks | sqlite/src/lib.rs:109-158 | with `?`-free field names, the fragment holds one mark per parameter |
| Sqlite.LeafOrder | sqlite/src/lib.rs:118-138 | a leaf's parameter fills its own mark |
| Sqlite.CompileCondOrder | sqlite/src/lib.rs:109-158 | filling the marks with the parameters in order puts every literal in its own leaf |
| Sqlite.NotOrder | sqlite/src/lib.rs:153-156 | `NOT (c)` keeps the child's parameters and their order |
| Sqlite.BinaryOrder | sqlite/src/lib.rs:139-152 | `(l) AND (r)` and `(l) OR (r)` bind l's parameters, then r's |
| Sqlite.InsertRecord | sqlite/src/lib.rs:308-330 | the INSERT text binds the record's values; marks equal parameters |
| Sqlite.QueryAll | sqlite/src/lib.rs:332-351 | the SELECT text with `;` binds nothing and holds no mark |
| Sqlite.QueryWithCond | sqlite/src/lib.rs:353-375 | `SELECT .. WHERE frag;` binds exactly the condition's literals; marks equal parameters |
| Sqlite.DeleteWithCond | sqlite/src/lib.rs:377-396 | `DELETE FROM name WHERE frag;` binds exactly the condition's literals; marks equal parameters |
| Sqlite.UpdateWithCond | sqlite/src/lib.rs:398-424 | `UPDATE .. WHERE frag;` binds the record's values, then the condition's literals; marks equal parameters |
| Sqlite.UpdateWithCondOrder | sqlite/src/lib.rs:401-405 | binding in that order fills the i-th SET assignment with the i-th value and the WHERE marks with the literals |
| Sqlite.FillCond | sqlite/src/lib.rs:109-158 | a compiled fragment has as many marks as literals, and filling them gives the inlined condition |
| Sqlite.FillAssignments | sqlite/src/lib.rs:97-107 | the SET list has one mark per field, and filling them fills each assignment with its own value |
| Sqlite.BindForFaithful | sqlite/src/lib.rs:164-197 | each bind call goes to its position and binds NULL exactly for an absent cell; a text shorter than 2^31 bytes loses no value |
| Sqlite.BindParamsToStmt | sqlite/src/lib.rs:164-197 | `params[k]` is bound at position k + 1 by the call its kind selects |
| Sqlite.BindFor | sqlite/src/lib.rs:168-193 | reference definition of the call made for one parameter: bound at the given position, NULL exactly for an absent cell, and a text length passed unchanged exactly when it is below 2^31 |
| Sqlite.AsI32 | sqlite/src/lib.rs:191-192 | `data_len as i32`: the result is a 32-bit signed value congruent to the length modulo 2^32, equal to it exactly when it is below 2^31 |
| Sqlite.BindLongText | sqlite/src/lib.rs:189-192 | a text of 2^31 bytes is bound with length -2^31, and SQLite does not store that text |
| Sqlite.DecodeNullableTextAsWritten | sqlite/src/lib.rs:258-267 | as written, a NullableText column decodes to a plain text cell, never to `None` |
| Sqlite.DecodeColumn | sqlite/src/lib.rs:226-267 | a decoded cell has the field's kind; a nullable column decodes to `None` exactly when it is NULL (corrected decode, see ## Findings) |
| Sqlite.DecodeRow | sqlite/src/lib.rs:222-269 | one cell per field, each decoded by `Sqlite.DecodeColumn` (corrected decode, see ## Findings) |
| Sqlite.DecodeRowRebuilds | sqlite/src/lib.rs:222-270 | every row decoded by `Sqlite.DecodeColumn` rebuilds a record of the schema (corrected decode, see ## Findings) |
| Sqlite.DecodeColumnAsWritten | sqlite/src/lib.rs:226-267 | the decode as written: every kind keeps its kind except NullableText, which becomes a Text cell |
| Sqlite.Next | sqlite/src/lib.rs:215-274 | a row's cells, decoded by `Sqlite.DecodeRow`, on `SQLITE_ROW`; no item on any other step result (corrected decode, see ## Findings) |
| Mysql.ColumnTypeInjective | mysql/src/lib.rs:118-127 | the eight kinds get eight distinct MySQL column types |
| Mysql.ColumnDefs | mysql/src/lib.rs:110-131 | one `name TYPE` definition per field, in field order |
| Mysql.QuestionMarks | mysql/src/lib.rs:133-149 | one anonymous `?` per field |
| Mysql.Assignments | mysql/src/lib.rs:163-173 | one `name=?` per field, in field order |
| Mysql.GetCreateTableStmtCode | mysql/src/lib.rs:110-131 | the loop builds `CREATE TABLE IF NOT EXISTS name (defs);` |
| Mysql.GetInsertValueStmtCode | mysql/src/lib.rs:133-149 | the shared loop builds the column list and a `?` list of the same length |
| Mysql.GetQueryClauseCode | mysql/src/lib.rs:151-161 | the loop builds `SELECT f1, ..., fN FROM name` |
| Mysql.GetUpdateClauseCode | mysql/src/lib.rs:163-173 | the loop builds `UPDATE name SET f1=?, ..., fN=?` |
| Mysql.InsertSqlMarks | mysql/src/lib.rs:133-149 | an INSERT holds exactly one mark per field |
| Mysql.InsertOrder | mysql/src/lib.rs:133-149 | filling the INSERT's anonymous marks in order gives the column list followed by the parameters in the same order, one per column |
| Mysql.QueryClauseUnmarked | mysql/src/lib.rs:151-161 | a SELECT clause holds no mark |
| Mysql.AssignmentsOneMarkEach | mysql/src/lib.rs:163-173 | each SET assignment holds one mark |
| Mysql.UpdateClauseMarks | mysql/src/lib.rs:163-173 | an UPDATE clause holds exactly one mark per field |
| Mysql.CompileCond | mysql/src/lib.rs:175-221 | the parameter list is the leaves' literals, left to right |
| Mysql.CompileLeaf | mysql/src/lib.rs:177-199 | a comparison leaf compiles to field, spaced operator and one `?` |
| Mysql.LeafMarks | mysql/src/lib.rs:177-199 | a comparison leaf holds exactly one mark |
| Mysql.NullTestUnmarked | mysql/src/lib.rs:195-196 | a null test compiles to `f IS NULL` or `f IS NOT NULL`, with no mark and no parameter |
| Mysql.CompileCondMarks | mysql/src/lib.rs:175-221 | with `?`-free field names, the fragment holds one mark per parameter |
| Mysql.LeafOrder | mysql/src/lib.rs:177-199 | a leaf's parameter fills its own mark |
| Mysql.CompileCondOrder | mysql/src/lib.rs:175-221 | filling the marks with the parameters in order puts every literal in its own leaf |
| Mysql.NotOrder | mysql/src/lib.rs:200-203 | `NOT (c)` keeps the child's parameters and their order |
| Mysql.BinaryOrder | mysql/src/lib.rs:204-219 | composite nodes bind the left parameters, then the right ones |
| Mysql.InsertRecord | mysql/src/lib.rs:259-290 | the INSERT text binds the record's values; marks equal parameters, and `Mysql.InsertOrder` gives their order |
| Mysql.QueryAll | mysql/src/lib.rs:292-316 | the SELECT text with `;` binds nothing and holds no mark |
| Mysql.QueryWithCond | mysql/src/lib.rs:318-351 | `SELECT .. WHERE frag;` binds only the condition's literals; marks equal parameters |
| Mysql.DeleteWithCond | mysql/src/lib.rs:353-386 | `DELETE FROM name WHERE frag;` binds only the condition's literals; marks equal parameters |
| Mysql.UpdateWithCond | mysql/src/lib.rs:388-422 | `UPDATE .. WHERE frag;` binds the record's values, then the condition's literals; marks equal parameters |
| Mysql.UpdateWithCondOrder | mysql/src/lib.rs:393-399 | binding in that order fills the i-th SET assignment with the i-th value and the WHERE marks with the literals |
| Mysql.FillCond | mysql/src/lib.rs:175-221 | a compiled fragment has as many marks as literals, and filling them gives the inlined condition |
| Mysql.FillAssignments | mysql/src/lib.rs:163-173 | the SET list has one mark per field, and filling them fills each assignment with its own value |
| Mysql.FromBoxedDbDataList | mysql/src/lib.rs:36-72 | one bind per value, in order: it points at the value, has the kind's buffer type and the value's length, and is flagged null exactly when the value is absent |
| Mysql.BufferTypeOf | mysql/src/lib.rs:52-61 | reference definition of the bind's buffer type: never the zeroed type; an integer or double buffer holds an eight-byte value; string and blob exactly for the variable-length kinds |
| Mysql.NullBindHasNoLength | mysql/src/lib.rs:37-66 | a bind flagged null has length 0 |
| Mysql.DecodeRowIdAsWritten | mysql/src/lib.rs:497-513 | as written, a RowID column decodes to a cell of kind Int, which the model's checked `Types.FromDbData` rejects |
| Mysql.DecodeColumnAsWritten | mysql/src/lib.rs:497-626 | the decode as written: every kind but RowID keeps its kind, RowID becomes Int, and a nullable column is `None` exactly when its null flag is set |
| Mysql.DecodeColumn | mysql/src/lib.rs:497-626 | for a column that fits its field (a non-null text or byte column carries `length` characters or bytes): a decoded cell has the field's kind, a nullable column decodes to `None` exactly when its null flag is set, and a variable-length cell has the reported length (corrected decode, see ## Findings) |
| Mysql.DecodeStored | mysql/src/lib.rs:497-626 | what the server reports for a stored cell fits its kind, and decoding it gives the cell back, including empty text and bytes, and `Some([])` |
| Mysql.DecodeRow | mysql/src/lib.rs:489-631 | one cell per field of a fitting row, each decoded by `Mysql.DecodeColumn` (corrected decode, see ## Findings) |
| Mysql.DecodeRowRebuilds | mysql/src/lib.rs:489-631 | every fitting row decoded by `Mysql.DecodeColumn` rebuilds a record of the schema (corrected decode, see ## Findings) |
| Mysql.ResultIterator.constructor | mysql/src/lib.rs:442-472 | one zeroed length, null flag and bind per field |
| Mysql.ResultIterator.ClearBinds | mysql/src/lib.rs:474-480 | every length becomes 0 and every buffer type is zeroed; the null flags are kept |
| Mysql.ResultIterator.Next | mysql/src/lib.rs:489-631 | no item, and nothing changed, on `MYSQL_NO_DATA` or 1; otherwise the cells `Mysql.DecodeRow` gives for the fitting row, with the binds cleared afterwards (corrected decode, see ## Findings) |
| Derive.NextStructNameSpec | derive/src/lib.rs:52-66 | the name is the token right after the first `struct`, and the rest follows it; there is no name exactly when no `struct` precedes the last token |
| Derive.GetNextStructName | derive/src/lib.rs:52-66 | the loop returns that name and rest |
| Derive.NextStructName | derive/src/lib.rs:52-66 | reference definition of `get_next_struct_name`: the rest is a suffix of the tokens; a name is the token right after a `struct`, and the rest follows it; no name leaves nothing |
| Derive.GetStructFieldsFromStream | derive/src/lib.rs:68-135 | the state-machine loop returns what the step function gives over the stream |
| Derive.Step | derive/src/lib.rs:74-129 | reference definition of one loop iteration: it only ever appends a field, exactly on a comma in state 2, and that field is the name and type text read so far |
| Derive.StructFields | derive/src/lib.rs:68-135 | reference definition of `get_struct_fields_from_stream`: every field name returned is an identifier of the stream other than `pub` |
| Derive.RunAppend | derive/src/lib.rs:74-128 | parsing a concatenation parses each part in turn |
| Derive.DeclaredAt | derive/src/lib.rs:68-135 | the i-th expected pair is the i-th field's name and type text |
| Derive.RunType | derive/src/lib.rs:101-124 | in state 2, a comma-free type appends its text, with `<` written `::<` |
| Derive.RunField | derive/src/lib.rs:76-124 | `[pub] name : type` takes an idle parser to state 2 holding that field |
| Derive.RunBody | derive/src/lib.rs:76-124 | comma-terminated fields leave the parser in state 0 with every field emitted |
| Derive.ParseBody | derive/src/lib.rs:68-135 | the parser returns exactly the declared fields, in order |
| Derive.ParseBodyWithoutTrailingComma | derive/src/lib.rs:130-133 | a last field without a trailing comma is still returned |
| Derive.Lower | derive/src/lib.rs:36 | lowercasing keeps the length and leaves no capital; each capital becomes its own lowercase letter (code point + 32) and every other character is unchanged |
| Derive.SchemaName | derive/src/lib.rs:22-24 | the schema name is `y_` followed by exactly `Derive.Lower` of the struct name |
| Derive.SchemaNameIgnoresCase | derive/src/lib.rs:36 | struct names differing only in case share a schema name |
| Derive.FieldEntries | derive/src/lib.rs:137-148 | one `("name".to_string(), Type::db_field_type())` entry per field |
| Derive.ValueEntries | derive/src/lib.rs:150-161 | one `Box::new(self.name.to_db_data())` entry per field |
| Derive.CtorEntries | derive/src/lib.rs:163-174 | one `name: Type::from_db_data(&values[i])` entry per field |
| Derive.CtorEntryIndex | derive/src/lib.rs:170 | the i-th constructor entry reads `values[i]`, and no other entry reads that index |
| Derive.GetFieldsVecCode | derive/src/lib.rs:137-148 | the loop builds `vec![..]` of the field entries, joined by `, ` |
| Derive.GetValuesVecCode | derive/src/lib.rs:150-161 | the loop builds `vec![..]` of the value entries, joined by `, ` |
| Derive.GetCreateWithValuesCode | derive/src/lib.rs:163-174 | the loop builds `Name{..}` of the constructor entries, joined by `, ` |
| Derive.ImplForGroup | derive/src/lib.rs:21-39 | the impl text for a brace group is the one generated from its parsed fields |
| Derive.ScanItem | derive/src/lib.rs:17-46 | reference definition of the scan after the name: fails exactly when a non-brace group occurs, with the StructStruct panic; a kept body is a brace group of the tokens; without groups nothing changes |
| Derive.DeriveSchema | derive/src/lib.rs:12-50 | reference definition of `derive_schema_fn`: the missing-name panic exactly when no name is found, the StructStruct panic exactly when a non-brace group follows the name, and empty code when no group follows |
| Derive.DeriveSchemaFn | derive/src/lib.rs:12-50 | the macro's loop yields the specified expansion, or one of its two panics |
| Derive.DeriveItem | derive/src/lib.rs:15-21 | `[pub] struct Name { body }` yields the name `Name` and that body |
| Derive.StructItemName | derive/src/lib.rs:52-66 | the name found in `[pub] struct Name { body }` is `Name` |
| Derive.DeriveStruct | derive/src/lib.rs:12-50 | a struct item yields its name and exactly its declared fields |
| Derive.DeriveStructCode | derive/src/lib.rs:12-50 | a struct item generates the impl for its name and exactly its declared fields |
| Derive.ExpansionCode | derive/src/lib.rs:17-39 | an item with a brace body generates the impl for the fields parsed out of it |
| Derive.DeriveWithoutStruct | derive/src/lib.rs:15 | an item with no `struct` before its last token is the missing-name panic |
| Derive.DeriveTupleStruct | derive/src/lib.rs:40-41 | a tuple struct is the "Only StructStruct" panic |
| Authentication.NewCredential | user/src/authentication.rs:37-48 | `new(p, Sha256WithSalt(s))` stores `sha256(p ++ s)` and keeps the hash type |
| Authentication.ValidateCredential | user/src/authentication.rs:23-34 | reference definition of `validate_credential`: a candidate is accepted exactly when making a credential from it under the stored hash type gives the stored credential |
| Authentication.ValidateNew | user/src/authentication.rs:99-108 | a credential accepts the plain text it was made from |
| Authentication.ValidateNewExactly | user/src/authentication.rs:23-34 | it accepts exactly the candidates with the same salted digest, and with an injective hash only the original |
| Authentication.U32Bytes | user/src/authentication.rs:56-59 | a 32-bit value is written as four bytes |
| Authentication.U32Value | user/src/authentication.rs:71-76 | four bytes read big-endian give a value below 2^32 |
| Authentication.I32Value | user/src/authentication.rs:68 | the two's complement reading of four bytes |
| Authentication.U32RoundTrip | user/src/authentication.rs:57-71 | a 32-bit value written big-endian reads back as itself |
| Authentication.ReadU32 | user/src/authentication.rs:57-76 | the four bytes written for a length read back as that length |
| Authentication.MagicRoundTrip | user/src/authentication.rs:56-70 | the written magic number reads back as 0x35A256 |
| Authentication.Frame | user/src/authentication.rs:53-62 | the frame is magic, salt length, salt, digest length, digest: 12 + \|salt\| + \|data\| bytes |
| Authentication.ToDbData | user/src/authentication.rs:52-64 | the appended buffer is that frame, and the result is its base64 text |
| Authentication.DecodeFrame | user/src/authentication.rs:65-90 | a decoded credential fits in the buffer and the buffer starts with the magic bytes |
| Authentication.FromDbData | user/src/authentication.rs:65-67 | reference definition of `from_db_data`: text that is not base64 is rejected, and a credential read back re-encodes to a prefix of the decoded bytes |
| Authentication.DecodeFrameReadsFrame | user/src/authentication.rs:65-85 | a decoded credential written again gives exactly the bytes the decoder consumed |
| Authentication.U32BytesOfValue | user/src/authentication.rs:56-71 | four bytes read as a 32-bit value and written again give the same four bytes |
| Authentication.MagicBytes | user/src/authentication.rs:68-70 | only the bytes written for the magic number read as it |
| Authentication.DecodeFrameRoundTrip | user/src/authentication.rs:65-85 | decoding a frame gives the credential back, whatever bytes follow it |
| Authentication.DbDataRoundTrip | user/src/authentication.rs:110-121 | `from_db_data(to_db_data(c)) == c` when base64 decoding inverts encoding |
| Authentication.StoredCredentialValidates | user/src/authentication.rs:110-121 | a stored and reloaded credential still accepts its plain text |
| Authentication.DecodeFrameBadMagic | user/src/authentication.rs:86-88 | a frame without the magic number is rejected as an unsupported credential type before any length is read |
| Authentication.ByteCursor.GetU8 | user/src/authentication.rs:74 | the next byte, advancing by one, or the underflow |
| Authentication.ByteCursor.GetU32 | user/src/authentication.rs:71 | the next four bytes big-endian, advancing by four, or the underflow |
| Authentication.ByteCursor.GetI32 | user/src/authentication.rs:68 | the next four bytes in two's complement, advancing by four, or the underflow |
| Authentication.ByteCursor.CopyBytes | user/src/authentication.rs:72-75 | the next n bytes, one `get_u8` at a time, or the underflow |
| Authentication.DecodeFrameFromCursor | user/src/authentication.rs:65-90 | reading through the cursor gives exactly the specified decode, errors included |

## Left out

- Native client calls are not modelled. This covers:
  - `sqlite3_*` and `mysql_*` prepare, step, fetch, finalize and close;
  - connecting and opening;
  - the `Drop` impls;
  - the `db_try!` / `db_stmt_try!` error paths.

  A statement is its text plus its bound cells. A fetched row is a sequence of column readings.
- `create_table_for_schema` in both adaptors is modelled only through the CREATE TABLE text it executes.
- Raw-pointer type erasure is replaced by the tagged cell `Types.DbData`. This covers `db_data_ptr`, `db_data_len` and `DbData::from_boxed_db_data`. core/src/db.rs is not part of this model.
  - `db_data_len` is taken as the payload's byte size, or 0 when absent (`Types.DataLen`).
  - A cell of the wrong kind is a checked `KindMismatch` error, not a reinterpreted pointer.
- The copy of SQLite column text through `malloc`/`strncpy`/`String::from_raw_parts` is not modelled. UTF-8 and `CString` conversions are not modelled either.
- Floating-point values are opaque bit patterns (`Types.Float64`). No arithmetic is done on them.
- Derive.Lower: lowercases ASCII letters only. Rust's `to_lowercase` also folds other Unicode letters.
- The proc-macro token API is replaced by the `Derive.Token` datatype. The final `derived_code.parse()` back into tokens is not modelled: the expansion is the generated string.
- Derive.ParseBody: proved for fields named other than `pub` whose type tokens contain no top-level comma. A generic type with several parameters (`HashMap<K, V>`) is split by the source's own parser, and the model reproduces that split.
- SHA-256 (`sha2`) and base64 (`base64::encode`/`decode`, section 4 of RFC 4648) are function parameters.
- Authentication.DbDataRoundTrip: assumes base64 decoding inverts encoding on the frame, as the library guarantees.
- Authentication.DecodeFrameRoundTrip: requires salt and digest shorter than 2^32 bytes, because `to_db_data` truncates both lengths to `u32` (`Authentication.Frame` writes them modulo 2^32).
- The mark-counting and order lemmas assume that table and field names contain no `?`. This applies to `Sqlite.InsertRecord`, `Sqlite.QueryWithCond`, `Sqlite.UpdateWithCondOrder` and their MySQL counterparts. The source splices names into the SQL unescaped.
- The SQLite adaptor members require fields and parameters of the six non-binary kinds. This applies to `Sqlite.ColumnDefs`, `Sqlite.BindParamsToStmt`, `Sqlite.DecodeRow` and `Sqlite.Next`. The source's matches at sqlite/src/lib.rs:51-58, 169-193 and 226-268 have no case for Binary or NullableBinary.
- `Cond` has the twelve variants the two compilers match on. core/src/query_cond.rs:10-25 declares only seven of them; the code of the compilers is followed.
- Panics are error results. This covers:
  - `get_row_id_field`'s second RowID field (`Types.SchemaError`);
  - the derive macro's missing name and non-brace body (`Derive.DeriveError`);
  - `from_db_data`'s bad base64, buffer underflow and unknown magic (`Authentication.CredentialError`).
- Sqlite.DecodeColumn, `Sqlite.DecodeRow`, `Sqlite.DecodeRowRebuilds`, `Sqlite.Next` and the MySQL members `Mysql.DecodeColumn`, `Mysql.DecodeRow`, `Mysql.DecodeRowRebuilds` and `Mysql.ResultIterator.Next` model the corrected decode of "## Findings", not the cited lines as written. The as-written decodes are `Sqlite.DecodeColumnAsWritten` and `Mysql.DecodeColumnAsWritten`.
- Mysql.DecodeColumn: requires a fetched column that fits its field (`Mysql.Fits`): a non-null text or byte column carries exactly `length` characters or bytes, the size the fetch reports and the size of the buffer it fills. Text is counted in characters, since UTF-8 is not modelled. The same holds for `Mysql.DecodeRow`, `Mysql.DecodeRowRebuilds` and `Mysql.ResultIterator.Next`.
- Sqlite.BindParamsToStmt: passes the text length through `data_len as i32` (sqlite/src/lib.rs:192), modelled by `Sqlite.AsI32`. A text of 2^31 bytes or more is bound with a wrapped length; when that is negative, SQLite reads up to a NUL byte that a Rust `String` does not carry. The model leaves what is then stored undefined (`Sqlite.BindLongText`).
- Sqlite.BindForFaithful: the round trip is promised only for texts shorter than 2^31 bytes, for the reason above.
- The mutable MySQL `bind_list` is modelled only by the buffer type of each bind. Its buffer pointers and `buffer_length` are not modelled.
- Several files are usage demos or re-exports and are not part of this model:
  - user/src/lib.rs (`User::new`);
  - prelude/src/lib.rs;
  - core/src/lib.rs;
  - the example and test applications.

## Findings

| source | as written | input that shows it | evidently intended | confidence | as-written member | corrected member |
|---|---|---|---|---|---|---|
| sqlite/src/lib.rs:258-267 | NullableText columns are read like Text columns, into a plain `String` | a NullableText column holding NULL: the cell is a text cell, never `None` (and `strlen` is called on a null pointer) | NULL decodes to `None`, any other value to `Some(text)` | not executed | Sqlite.DecodeNullableTextAsWritten | Sqlite.DecodeColumn |
| mysql/src/lib.rs:497-513 | a RowID column is read into a plain `i64` cell | any row of a schema with a RowID field: the cell has kind Int where the SQLite adaptor builds `RowID::ID(v)` (sqlite/src/lib.rs:254-257); the model's checked decode rejects it, and whether the source accepts it depends on `<RowID as DbData>::from_boxed_db_data`, which is not part of this model | the cell is `RowID::ID(v)`, as in the SQLite adaptor | not executed | Mysql.DecodeRowIdAsWritten | Mysql.DecodeColumn |
