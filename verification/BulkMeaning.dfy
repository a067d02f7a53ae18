/** What the bulk UPDATE statement does, stated against the single-row updates it replaces. */
module BulkMeaning {
  import opened Prelude
  import opened SqlValues
  import opened BulkSql
  import opened BulkUpdate

  /** The arguments of one `bulk_update` call. */
  datatype Job = Job(pkColumn: string, columns: seq<string>, fieldValues: seq<seq<SqlValue>>, pks: seq<SqlValue>) {
    predicate Valid() {
      pks != [] && columns != [] && pkColumn !in columns && Covers(fieldValues, |columns|, pks)
    }

    function Binds(): seq<SqlValue>
      requires Valid()
    {
      BulkUpdate.Binds(pks, fieldValues, |columns|)
    }
  }

  // ---- the reference: one single-row update after the other ----

  function Key(e: Engine, job: Job, castOf: string -> Option<string>, i: nat): SqlValue
    requires i < |job.pks|
  {
    Converted(e, castOf(job.pkColumn), job.pks[i])
  }

  function NewValues(e: Engine, job: Job, castOf: string -> Option<string>, i: nat): seq<SqlValue>
    requires job.Valid() && i < |job.pks|
  {
    seq(|job.columns|, fi requires 0 <= fi < |job.columns| =>
      Converted(e, castOf(job.columns[fi]), job.fieldValues[fi][i]))
  }

  /** `UPDATE t SET c1 = v1, .. WHERE pk = pks[i]`, on one row. */
  function UpdateOne(e: Engine, job: Job, castOf: string -> Option<string>, i: nat, row: Row): Row
    requires job.Valid() && i < |job.pks|
  {
    if e.compare(Cell(row, job.pkColumn), Key(e, job, castOf, i)) == True
    then Assign(row, job.columns, NewValues(e, job, castOf, i))
    else row
  }

  /** The single-row updates n-1, n-2, .., i in that order, each run on the whole table. */
  function Singles(e: Engine, job: Job, castOf: string -> Option<string>, i: nat, table: seq<Row>): (r: seq<Row>)
    requires job.Valid() && i <= |job.pks|
    ensures |r| == |table|
    decreases |job.pks| - i
  {
    if i == |job.pks| then table else
      var done := Singles(e, job, castOf, i + 1, table);
      seq(|done|, r requires 0 <= r < |done| => UpdateOne(e, job, castOf, i, done[r]))
  }

  /** The first update, from `i` on, whose key matches `v`. */
  function FirstMatch(e: Engine, job: Job, castOf: string -> Option<string>, v: SqlValue, i: nat): (r: Option<nat>)
    requires i <= |job.pks|
    ensures r.Some? ==> i <= r.value < |job.pks| && e.compare(v, Key(e, job, castOf, r.value)) == True &&
                        forall j :: i <= j < r.value ==> e.compare(v, Key(e, job, castOf, j)) != True
    ensures r.None? ==> forall j :: i <= j < |job.pks| ==> e.compare(v, Key(e, job, castOf, j)) != True
    decreases |job.pks| - i
  {
    if i == |job.pks| then None
    else if e.compare(v, Key(e, job, castOf, i)) == True then Some(i)
    else FirstMatch(e, job, castOf, v, i + 1)
  }

  lemma {:induction false} AssignMerges(row: Row, columns: seq<string>, values: seq<SqlValue>)
    requires |columns| == |values|
    ensures Assign(row, columns, values) == row + Assign(map[], columns, values)
    ensures Assign(map[], columns, values).Keys == set c | c in columns
    decreases |columns|
  {
    if columns == [] {
    } else {
      var c, v := columns[0], values[0];
      AssignMerges(row[c := v], columns[1..], values[1..]);
      AssignMerges(map[c := v], columns[1..], values[1..]);
      assert columns == [c] + columns[1..];
    }
  }

  /** Assigning the same columns again forgets the first assignment. */
  lemma AssignTwice(row: Row, columns: seq<string>, first: seq<SqlValue>, second: seq<SqlValue>)
    requires |columns| == |first| == |second|
    ensures Assign(Assign(row, columns, first), columns, second) == Assign(row, columns, second)
  {
    var m1, m2 := Assign(map[], columns, first), Assign(map[], columns, second);
    AssignMerges(row, columns, first);
    AssignMerges(row, columns, second);
    AssignMerges(row + m1, columns, second);
    assert row + m1 + m2 == row + m2;
  }

  /** One row under the single-row updates: the first matching update is the one that stays. */
  lemma {:induction false} SinglesKeepFirst(
    e: Engine, job: Job, castOf: string -> Option<string>, i: nat, table: seq<Row>, r: nat)
    requires job.Valid() && i <= |job.pks| && r < |table|
    ensures var v := Cell(table[r], job.pkColumn);
            var first := FirstMatch(e, job, castOf, v, i);
            Cell(Singles(e, job, castOf, i, table)[r], job.pkColumn) == v &&
            Singles(e, job, castOf, i, table)[r] ==
              if first.None? then table[r]
              else Assign(table[r], job.columns, NewValues(e, job, castOf, first.value))
    decreases |job.pks| - i
  {
    if i < |job.pks| {
      SinglesKeepFirst(e, job, castOf, i + 1, table, r);
      var row, v := table[r], Cell(table[r], job.pkColumn);
      var later := FirstMatch(e, job, castOf, v, i + 1);
      var mine := NewValues(e, job, castOf, i);
      AssignMerges(row, job.columns, mine);
      if later.Some? {
        AssignTwice(row, job.columns, NewValues(e, job, castOf, later.value), mine);
      }
    }
  }

  // ---- the emitted statement ----

  /** The statement's parameters in terms of the call's arguments. */
  lemma BoundParams(
    e: Engine, stmt: Update, target: string, job: Job, castOf: string -> Option<string>, fi: nat, i: nat)
    requires job.Valid() && PgLayout(stmt, target, job.pkColumn, job.columns, |job.pks|, castOf)
    requires fi < |job.columns| && i < |job.pks|
    ensures var binds, w := job.Binds(), stmt.sets[fi].whens[i];
            InRange(w.test, |binds|) && Value(e, w.test, binds) == Key(e, job, castOf, i) &&
            InRange(w.result, |binds|) && Value(e, w.result, binds) == NewValues(e, job, castOf, i)[fi] &&
            InRange(stmt.keys[i], |binds|) && Value(e, stmt.keys[i], binds) == Key(e, job, castOf, i)
  {
    CasesAt(job.pks, job.fieldValues, |job.columns|, fi, i);
  }

  lemma {:induction false} ArmIsFirst(
    e: Engine, job: Job, castOf: string -> Option<string>, whens: seq<When>, binds: seq<SqlValue>, v: SqlValue, i: nat)
    requires |whens| == |job.pks| && i <= |whens| && WhensInRange(whens, |binds|)
    requires forall j :: 0 <= j < |whens| ==> Value(e, whens[j].test, binds) == Key(e, job, castOf, j)
    ensures WhensInRange(whens[i..], |binds|)
    ensures var first := FirstMatch(e, job, castOf, v, i);
            Arm(e, whens[i..], binds, v) == if first.None? then None else Some(whens[first.value])
    decreases |whens| - i
  {
    if i < |whens| {
      assert whens[i..][1..] == whens[i + 1..];
      ArmIsFirst(e, job, castOf, whens, binds, v, i + 1);
    }
  }

  lemma {:induction false} InListIsFirst(
    e: Engine, job: Job, castOf: string -> Option<string>, keys: seq<Param>, binds: seq<SqlValue>, v: SqlValue, i: nat)
    requires |keys| == |job.pks| && i <= |keys| && KeysInRange(keys, |binds|)
    requires forall j :: 0 <= j < |keys| ==> Value(e, keys[j], binds) == Key(e, job, castOf, j)
    ensures KeysInRange(keys[i..], |binds|)
    ensures InList(e, v, keys[i..], binds) == True <==> FirstMatch(e, job, castOf, v, i).Some?
    decreases |keys| - i
  {
    if i < |keys| {
      assert keys[i..][1..] == keys[i + 1..];
      InListIsFirst(e, job, castOf, keys, binds, v, i + 1);
    }
  }

  /** A SET list of CASEs on a column it does not assign gives the same row in either order. */
  lemma {:induction false} SetRowAssigns(
    e: Engine, order: SetOrder, sets: seq<Assignment>, pkColumn: string, columns: seq<string>,
    values: seq<SqlValue>, binds: seq<SqlValue>, start: Row, row: Row)
    requires SetsInRange(sets, |binds|) && |sets| == |columns| == |values| && pkColumn !in columns
    requires forall k :: 0 <= k < |sets| ==> sets[k].column == columns[k] && sets[k].subject == pkColumn
    requires forall k :: 0 <= k < |sets| ==> CaseValue(e, sets[k], binds, start) == values[k]
    requires Cell(row, pkColumn) == Cell(start, pkColumn)
    ensures SetRow(e, order, sets, binds, start, row) == Assign(row, columns, values)
    decreases |sets|
  {
    if sets == [] {
    } else {
      var next := row[columns[0] := values[0]];
      assert SetsInRange(sets[1..], |binds|);
      SetRowAssigns(e, order, sets[1..], pkColumn, columns[1..], values[1..], binds, start, next);
    }
  }

  lemma {:induction false} CountUniform(sets: seq<Assignment>, n: nat)
    requires forall k :: 0 <= k < |sets| ==> |sets[k].whens| == n
    ensures 2 * CountWhens(sets) == Base(n, |sets|)
  {
    if sets == [] {
    } else {
      CountUniform(sets[1..], n);
    }
  }

  lemma LayoutInRange(stmt: Update, target: string, job: Job, castOf: string -> Option<string>)
    requires job.Valid() && PgLayout(stmt, target, job.pkColumn, job.columns, |job.pks|, castOf)
    ensures WellBound(stmt, job.Binds())
  {
    var count := |job.Binds()|;
    CasesLength(job.pks, job.fieldValues, |job.columns|);
    CountUniform(stmt.sets, |job.pks|);
    forall fi | 0 <= fi < |stmt.sets|
      ensures WhensInRange(stmt.sets[fi].whens, count)
    {
      BaseGrows(|job.pks|, fi, |job.columns|);
    }
  }

  /** A row matched by the IN list takes the THEN of its first matching WHEN in every CASE; the NULL
      of the missing ELSE is never reached. */
  lemma CaseNeverFallsThrough(
    e: Engine, stmt: Update, target: string, job: Job, castOf: string -> Option<string>, row: Row, fi: nat)
    requires job.Valid() && PgLayout(stmt, target, job.pkColumn, job.columns, |job.pks|, castOf)
    requires fi < |job.columns|
    ensures WellBound(stmt, job.Binds())
    ensures var v := Cell(row, stmt.keyColumn);
            var first := FirstMatch(e, job, castOf, v, 0);
            (InList(e, v, stmt.keys, job.Binds()) == True <==> first.Some?) &&
            Arm(e, stmt.sets[fi].whens, job.Binds(), v) ==
              (if first.None? then None else Some(stmt.sets[fi].whens[first.value])) &&
            (first.Some? ==>
              CaseValue(e, stmt.sets[fi], job.Binds(), row) == NewValues(e, job, castOf, first.value)[fi])
  {
    LayoutInRange(stmt, target, job, castOf);
    var binds, v, whens := job.Binds(), Cell(row, job.pkColumn), stmt.sets[fi].whens;
    forall i | 0 <= i < |job.pks|
      ensures Value(e, whens[i].test, binds) == Key(e, job, castOf, i)
      ensures Value(e, stmt.keys[i], binds) == Key(e, job, castOf, i)
      ensures Value(e, whens[i].result, binds) == NewValues(e, job, castOf, i)[fi]
    {
      BoundParams(e, stmt, target, job, castOf, fi, i);
    }
    ArmIsFirst(e, job, castOf, whens, binds, v, 0);
    InListIsFirst(e, job, castOf, stmt.keys, binds, v, 0);
    assert whens[0..] == whens && stmt.keys[0..] == stmt.keys;
  }

  lemma UpdateRowKeepsFirst(
    e: Engine, order: SetOrder, stmt: Update, target: string, job: Job, castOf: string -> Option<string>, row: Row)
    requires job.Valid() && PgLayout(stmt, target, job.pkColumn, job.columns, |job.pks|, castOf)
    ensures WellBound(stmt, job.Binds())
    ensures var first := FirstMatch(e, job, castOf, Cell(row, job.pkColumn), 0);
            UpdateRow(e, order, stmt, job.Binds(), row) ==
              if first.None? then row else Assign(row, job.columns, NewValues(e, job, castOf, first.value))
  {
    CaseNeverFallsThrough(e, stmt, target, job, castOf, row, 0);
    var first := FirstMatch(e, job, castOf, Cell(row, job.pkColumn), 0);
    if first.Some? {
      var values := NewValues(e, job, castOf, first.value);
      forall fi | 0 <= fi < |job.columns|
        ensures CaseValue(e, stmt.sets[fi], job.Binds(), row) == values[fi]
      {
        CaseNeverFallsThrough(e, stmt, target, job, castOf, row, fi);
      }
      SetRowAssigns(e, order, stmt.sets, job.pkColumn, job.columns, values, job.Binds(), row, row);
    }
  }

  lemma StatementMeansSingles(
    e: Engine, order: SetOrder, stmt: Update, target: string, job: Job, castOf: string -> Option<string>,
    table: seq<Row>)
    requires job.Valid() && PgLayout(stmt, target, job.pkColumn, job.columns, |job.pks|, castOf)
    ensures RunUpdate(e, order, stmt, Bound(job.Binds()), table) ==
            if order.Simultaneous? && !Unique(job.columns) then Err(DuplicateColumn)
            else if |job.Binds()| > e.limit then Err(TooManyParameters)
            else if !Bindable(job.Binds()) then Err(ParameterMismatch)
            else Ok(Singles(e, job, castOf, 0, table))
  {
    var binds := job.Binds();
    BoundAll(binds);
    LayoutInRange(stmt, target, job, castOf);
    assert DistinctColumns(stmt.sets) <==> Unique(job.columns);
    if Bindable(binds) {
      forall r | 0 <= r < |table|
        ensures UpdateRow(e, order, stmt, binds, table[r]) == Singles(e, job, castOf, 0, table)[r]
      {
        UpdateRowKeepsFirst(e, order, stmt, target, job, castOf, table[r]);
        SinglesKeepFirst(e, job, castOf, 0, table, r);
      }
      assert seq(|table|, i requires 0 <= i < |table| => UpdateRow(e, order, stmt, binds, table[i])) ==
             Singles(e, job, castOf, 0, table);
    }
  }

  /** The bulk statement, run with what the driver binds, against any table and under either SET
      order: it is refused exactly for a repeated column (where the standard forbids one), more than the
      database's number of parameters, or a List among the values (which the driver does not bind), and
      otherwise leaves the table that the single-row updates leave when run from the last to the first. */
  lemma BulkUpdateMeansSingles(
    e: Engine, order: SetOrder, stmt: Update, target: string, job: Job, castOf: string -> Option<string>,
    table: seq<Row>)
    requires job.Valid() && PgLayout(stmt, target, job.pkColumn, job.columns, |job.pks|, castOf)
    ensures RunUpdate(e, order, stmt, Bound(job.Binds()), table) ==
            if order.Simultaneous? && !Unique(job.columns) then Err(DuplicateColumn)
            else if |job.pks| * (2 * |job.columns| + 1) > e.limit then Err(TooManyParameters)
            else if !Bindable(job.Binds()) then Err(ParameterMismatch)
            else Ok(Singles(e, job, castOf, 0, table))
  {
    BindArithmetic(job.fieldValues, |job.columns|, job.pks, 0, 0);
    StatementMeansSingles(e, order, stmt, target, job, castOf, table);
  }

  /** On a database the bulk statement changes the table it was made for, as the single-row updates
      would, and no other. */
  lemma BulkUpdateChangesOneTable(
    e: Engine, order: SetOrder, stmt: Update, schema: string, table: string, job: Job,
    castOf: string -> Option<string>, db: Tables)
    requires '"' !in schema && '"' !in table && (schema, table) in db
    requires job.Valid() && PgLayout(stmt, QualifyTable(schema, table), job.pkColumn, job.columns, |job.pks|, castOf)
    ensures UpdateTables(e, order, stmt, Bound(job.Binds()), db) ==
            if order.Simultaneous? && !Unique(job.columns) then Err(DuplicateColumn)
            else if |job.pks| * (2 * |job.columns| + 1) > e.limit then Err(TooManyParameters)
            else if !Bindable(job.Binds()) then Err(ParameterMismatch)
            else Ok(db[(schema, table) := Singles(e, job, castOf, 0, db[(schema, table)])])
  {
    TargetReadsBackIff(schema, table);
    BulkUpdateMeansSingles(e, order, stmt, QualifyTable(schema, table), job, castOf, db[(schema, table)]);
  }

  predicate Unique(columns: seq<string>) {
    forall i, j :: 0 <= i < j < |columns| ==> columns[i] != columns[j]
  }

  // ---- the MySQL form ----

  lemma {:induction false} NumberWhensAt(whens: seq<When>, from: nat)
    ensures |NumberWhens(whens, from)| == |whens|
    ensures forall i :: 0 <= i < |whens| ==>
            NumberWhens(whens, from)[i] == When(Numbered(from + 2 * i + 1, None), Numbered(from + 2 * i + 2, None))
  {
    if whens == [] {
    } else {
      NumberWhensAt(whens[1..], from + 2);
    }
  }

  lemma {:induction false} NumberKeysAt(keys: seq<Param>, from: nat)
    ensures |NumberKeys(keys, from)| == |keys|
    ensures forall i :: 0 <= i < |keys| ==> NumberKeys(keys, from)[i] == Numbered(from + i + 1, None)
  {
    if keys == [] {
    } else {
      NumberKeysAt(keys[1..], from + 1);
    }
  }

  lemma {:induction false} NumberSetsAt(sets: seq<Assignment>, n: nat, fi: nat)
    requires fi <= |sets| && forall k :: 0 <= k < |sets| ==> |sets[k].whens| == n
    ensures |NumberSets(sets[fi..], Base(n, fi))| == |sets| - fi
    ensures forall k :: fi <= k < |sets| ==>
            NumberSets(sets[fi..], Base(n, fi))[k - fi] == sets[k].(whens := NumberWhens(sets[k].whens, Base(n, k)))
    decreases |sets| - fi
  {
    if fi < |sets| {
      assert sets[fi..][1..] == sets[fi + 1..];
      NumberSetsAt(sets, n, fi + 1);
    }
  }

  ghost function NoCast(): string -> Option<string> {
    (column: string) => None
  }

  lemma SetsNumber(sets: seq<Assignment>, pkColumn: string, columns: seq<string>, n: nat, fi: nat)
    requires |sets| == |columns| && fi < |columns|
    requires forall k :: 0 <= k < |columns| ==> sets[k] == MySqlClause(n, columns[k], pkColumn)
    ensures |NumberSets(sets, 0)| == |columns|
    ensures NumberSets(sets, 0)[fi] == PgClause(n, Base(n, fi), columns[fi], pkColumn, None, None)
  {
    NumberSetsAt(sets, n, 0);
    assert sets[0..] == sets;
    NumberWhensAt(MySqlClause(n, columns[fi], pkColumn).whens, Base(n, fi));
  }

  lemma {:induction false} NumberSetsLength(sets: seq<Assignment>, from: nat)
    ensures |NumberSets(sets, from)| == |sets|
  {
    if sets == [] {
    } else {
      NumberSetsLength(sets[1..], from + 2 * |sets[0].whens|);
    }
  }

  /** The MySQL statement, its `?` numbered left to right, is the PostgreSQL statement without casts. */
  lemma MySqlReadsAsPostgres(stmt: Update, target: string, pkColumn: string, columns: seq<string>, n: nat)
    requires MySqlLayout(stmt, target, pkColumn, columns, n)
    ensures PgLayout(NumberUpdate(stmt), target, pkColumn, columns, n, NoCast())
  {
    CountUniform(stmt.sets, n);
    NumberKeysAt(stmt.keys, Base(n, |columns|));
    NumberSetsLength(stmt.sets, 0);
    forall fi | 0 <= fi < |columns|
      ensures NumberSets(stmt.sets, 0)[fi] == PgClause(n, Base(n, fi), columns[fi], pkColumn, None, None)
    {
      SetsNumber(stmt.sets, pkColumn, columns, n, fi);
    }
  }

  /** Both back ends leave the same table when no column has a cast, though MySQL sets columns left to right. */
  lemma BackEndsAgree(
    e: Engine, pg: Update, my: Update, target: string, job: Job, castOf: string -> Option<string>, table: seq<Row>)
    requires job.Valid() && Unique(job.columns)
    requires PgLayout(pg, target, job.pkColumn, job.columns, |job.pks|, castOf)
    requires MySqlLayout(my, target, job.pkColumn, job.columns, |job.pks|)
    requires castOf(job.pkColumn).None? && forall c :: c in job.columns ==> castOf(c).None?
    ensures RunUpdate(e, LeftToRight, NumberUpdate(my), Bound(job.Binds()), table) ==
            RunUpdate(e, Simultaneous, pg, Bound(job.Binds()), table)
  {
    MySqlReadsAsPostgres(my, target, job.pkColumn, job.columns, |job.pks|);
    BulkUpdateMeansSingles(e, LeftToRight, NumberUpdate(my), target, job, NoCast(), table);
    BulkUpdateMeansSingles(e, Simultaneous, NumberUpdate(my), target, job, NoCast(), table);
    var n := NumberUpdate(my);
    assert n.sets == pg.sets && n.keys == pg.keys;
  }
}
