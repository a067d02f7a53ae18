/** The statements the bulk operations emit, and what a database does with them. */
module BulkSql {
  import opened Prelude
  import opened SqlValues

  /** `$index::cast` on PostgreSQL (indices start at 1), `?` on MySQL. */
  datatype Param = Numbered(index: nat, cast: Option<string>) | Positional

  datatype When = When(test: Param, result: Param)

  /** `"column" = CASE "subject" WHEN .. THEN .. END` */
  datatype Assignment = Assignment(column: string, subject: string, whens: seq<When>)

  /** `UPDATE target SET sets WHERE "keyColumn" IN (keys)` */
  datatype Update = Update(target: string, sets: seq<Assignment>, keyColumn: string, keys: seq<Param>)

  /** `DELETE FROM target WHERE "keyColumn" IN (keys)` */
  datatype Delete = Delete(target: string, keyColumn: string, keys: seq<Param>)

  type Row = map<string, SqlValue>

  /** What a database decides for itself: how it compares two values, what a cast does to one, and how
      many parameters it takes in a statement (SQLite 999, PostgreSQL and MySQL 65535). */
  datatype Engine = Engine(
    compare: (SqlValue, SqlValue) -> Tri, convert: (string, SqlValue) -> SqlValue, limit: nat)

  /** The order in which one row's SET list is evaluated: all on the old row (the standard),
      or each on the row as left by the ones before it (MySQL). */
  datatype SetOrder = Simultaneous | LeftToRight

  datatype SqlError = SyntaxError | NoSuchTable | DuplicateColumn | TooManyParameters | ParameterMismatch

  function QualifyTable(schema: string, table: string): string {
    if schema == "" then "\"" + table + "\"" else "\"" + schema + "\".\"" + table + "\""
  }

  function UntilQuote(s: string): (name: string)
    ensures '"' !in name && name <= s && (name == s || s[|name|] == '"')
  {
    if s == "" || s[0] == '"' then "" else [s[0]] + UntilQuote(s[1..])
  }

  /** The schema and table that a target names, `"table"` or `"schema"."table"`. */
  function ReadTarget(target: string): Option<(string, string)> {
    if target == "" || target[0] != '"' then None
    else
      var first := UntilQuote(target[1..]);
      var rest := target[1..][|first|..];
      if rest == "\"" then Some(("", first))
      else if |rest| < 3 || rest[..3] != "\".\"" then None
      else
        var second := UntilQuote(rest[3..]);
        if rest[3..][|second|..] == "\"" then Some((first, second)) else None
  }

  lemma {:induction false} UntilQuoteStops(name: string, rest: string)
    requires '"' !in name && rest != "" && rest[0] == '"'
    ensures UntilQuote(name + rest) == name && (name + rest)[|name|..] == rest
  {
    if name == "" {
      assert name + rest == rest;
    } else {
      assert (name + rest)[1..] == name[1..] + rest && (name + rest)[0] == name[0] && name == [name[0]] + name[1..];
      UntilQuoteStops(name[1..], rest);
    }
  }

  /** The target reads back as the schema and table it was made from exactly when their names hold no
      double quote, which the code does not escape. */
  lemma TargetReadsBackIff(schema: string, table: string)
    ensures ReadTarget(QualifyTable(schema, table)) == Some((schema, table)) <==> '"' !in schema && '"' !in table
  {
    var target := QualifyTable(schema, table);
    if '"' !in schema && '"' !in table {
      UntilQuoteStops(table, "\"");
      if schema == "" {
        assert target[1..] == table + "\"";
      } else {
        var rest := "\".\"" + (table + "\"");
        assert target[1..] == schema + rest;
        UntilQuoteStops(schema, rest);
        assert rest[..3] == "\".\"" && rest[3..] == table + "\"";
      }
    }
  }

  function Cell(row: Row, column: string): SqlValue {
    if column in row then row[column] else Null
  }

  function Converted(e: Engine, cast: Option<string>, v: SqlValue): SqlValue {
    if cast.Some? then e.convert(cast.value, v) else v
  }

  predicate InRange(p: Param, count: nat) {
    p.Numbered? && 1 <= p.index <= count
  }

  function Value(e: Engine, p: Param, binds: seq<SqlValue>): SqlValue
    requires InRange(p, |binds|)
  {
    Converted(e, p.cast, binds[p.index - 1])
  }

  predicate WhensInRange(whens: seq<When>, count: nat) {
    forall i :: 0 <= i < |whens| ==> InRange(whens[i].test, count) && InRange(whens[i].result, count)
  }

  predicate KeysInRange(keys: seq<Param>, count: nat) {
    forall i :: 0 <= i < |keys| ==> InRange(keys[i], count)
  }

  predicate SetsInRange(sets: seq<Assignment>, count: nat) {
    forall i :: 0 <= i < |sets| ==> WhensInRange(sets[i].whens, count)
  }

  /** The first WHEN whose comparison is True. */
  function Arm(e: Engine, whens: seq<When>, binds: seq<SqlValue>, subject: SqlValue): Option<When>
    requires WhensInRange(whens, |binds|)
  {
    if whens == [] then None
    else if e.compare(subject, Value(e, whens[0].test, binds)) == True then Some(whens[0])
    else assert WhensInRange(whens[1..], |binds|); Arm(e, whens[1..], binds, subject)
  }

  lemma {:induction false} ArmIn(e: Engine, whens: seq<When>, binds: seq<SqlValue>, subject: SqlValue)
    requires WhensInRange(whens, |binds|)
    ensures var arm := Arm(e, whens, binds, subject);
            arm.Some? ==> arm.value in whens && InRange(arm.value.result, |binds|)
  {
    if whens == [] {
    } else {
      assert WhensInRange(whens[1..], |binds|);
      ArmIn(e, whens[1..], binds, subject);
    }
  }

  /** CASE without ELSE: no matching WHEN yields NULL. */
  function CaseValue(e: Engine, a: Assignment, binds: seq<SqlValue>, row: Row): SqlValue
    requires WhensInRange(a.whens, |binds|)
  {
    var arm := Arm(e, a.whens, binds, Cell(row, a.subject));
    ArmIn(e, a.whens, binds, Cell(row, a.subject));
    if arm.None? then Null else Value(e, arm.value.result, binds)
  }

  /** `v IN (keys)`: an OR of comparisons. */
  function InList(e: Engine, v: SqlValue, keys: seq<Param>, binds: seq<SqlValue>): Tri
    requires KeysInRange(keys, |binds|)
  {
    if keys == [] then False
    else
      assert KeysInRange(keys[1..], |binds|);
      Or(e.compare(v, Value(e, keys[0], binds)), InList(e, v, keys[1..], binds))
  }

  function Assign(row: Row, columns: seq<string>, values: seq<SqlValue>): Row
    requires |columns| == |values|
    decreases |columns|
  {
    if columns == [] then row else Assign(row[columns[0] := values[0]], columns[1..], values[1..])
  }

  function SetRow(e: Engine, order: SetOrder, sets: seq<Assignment>, binds: seq<SqlValue>, start: Row, row: Row): Row
    requires SetsInRange(sets, |binds|)
    decreases |sets|
  {
    if sets == [] then row
    else
      var source := if order.Simultaneous? then start else row;
      assert SetsInRange(sets[1..], |binds|);
      SetRow(e, order, sets[1..], binds, start, row[sets[0].column := CaseValue(e, sets[0], binds, source)])
  }

  function UpdateRow(e: Engine, order: SetOrder, stmt: Update, binds: seq<SqlValue>, row: Row): Row
    requires SetsInRange(stmt.sets, |binds|) && KeysInRange(stmt.keys, |binds|)
  {
    if InList(e, Cell(row, stmt.keyColumn), stmt.keys, binds) == True
    then SetRow(e, order, stmt.sets, binds, row, row)
    else row
  }

  function CountWhens(sets: seq<Assignment>): nat {
    if sets == [] then 0 else |sets[0].whens| + CountWhens(sets[1..])
  }

  function CountParams(stmt: Update): nat {
    2 * CountWhens(stmt.sets) + |stmt.keys|
  }

  /** A prepared statement runs only with as many binds as it has parameters. */
  predicate WellBound(stmt: Update, binds: seq<SqlValue>) {
    |binds| == CountParams(stmt) &&
    SetsInRange(stmt.sets, |binds|) && KeysInRange(stmt.keys, |binds|)
  }

  predicate DistinctColumns(sets: seq<Assignment>) {
    forall i, j :: 0 <= i < j < |sets| ==> sets[i].column != sets[j].column
  }

  function RunUpdate(e: Engine, order: SetOrder, stmt: Update, binds: seq<SqlValue>, table: seq<Row>)
    : Result<seq<Row>, SqlError>
  {
    if stmt.sets == [] then Err(SyntaxError)
    else if order.Simultaneous? && !DistinctColumns(stmt.sets) then Err(DuplicateColumn)
    else if CountParams(stmt) > e.limit then Err(TooManyParameters)
    else if !WellBound(stmt, binds) then Err(ParameterMismatch)
    else Ok(seq(|table|, i requires 0 <= i < |table| => UpdateRow(e, order, stmt, binds, table[i])))
  }

  /** The tables of a database, by schema and name; the schema of an unqualified name is "". */
  type Tables = map<(string, string), seq<Row>>

  /** The statement run on a database: on the table that its target names. */
  function UpdateTables(e: Engine, order: SetOrder, stmt: Update, binds: seq<SqlValue>, db: Tables)
    : Result<Tables, SqlError>
  {
    var target := ReadTarget(stmt.target);
    if target.None? then Err(SyntaxError)
    else if target.value !in db then Err(NoSuchTable)
    else
      var rows := RunUpdate(e, order, stmt, binds, db[target.value]);
      if rows.Err? then Err(rows.error) else Ok(db[target.value := rows.value])
  }

  // ---- positional parameters are numbered left to right ----

  function NumberWhens(whens: seq<When>, from: nat): seq<When> {
    if whens == [] then []
    else [When(Numbered(from + 1, None), Numbered(from + 2, None))] + NumberWhens(whens[1..], from + 2)
  }

  function NumberSets(sets: seq<Assignment>, from: nat): seq<Assignment> {
    if sets == [] then []
    else [sets[0].(whens := NumberWhens(sets[0].whens, from))] +
         NumberSets(sets[1..], from + 2 * |sets[0].whens|)
  }

  function NumberKeys(keys: seq<Param>, from: nat): seq<Param> {
    if keys == [] then [] else [Numbered(from + 1, None)] + NumberKeys(keys[1..], from + 1)
  }

  /** How a driver reads a statement written with `?`. */
  function NumberUpdate(stmt: Update): Update {
    stmt.(sets := NumberSets(stmt.sets, 0), keys := NumberKeys(stmt.keys, 2 * CountWhens(stmt.sets)))
  }
}
