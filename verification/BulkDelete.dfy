/** `bulk_delete`: the back ends' DELETE by key list, and the batched caller in ryx/bulk.py. */
module BulkDelete {
  import opened Prelude
  import opened SqlValues
  import opened BulkSql

  // ---- what a DELETE does ----

  predicate Matches(e: Engine, v: SqlValue, keys: seq<SqlValue>) {
    exists i :: 0 <= i < |keys| && e.compare(v, keys[i]) == True
  }

  /** The rows that no key matches, in their order. */
  function Survivors(e: Engine, column: string, keys: seq<SqlValue>, table: seq<Row>): seq<Row> {
    if table == [] then []
    else if Matches(e, Cell(table[0], column), keys) then Survivors(e, column, keys, table[1..])
    else [table[0]] + Survivors(e, column, keys, table[1..])
  }

  function KeptRows(e: Engine, stmt: Delete, binds: seq<SqlValue>, table: seq<Row>): seq<Row>
    requires KeysInRange(stmt.keys, |binds|)
  {
    if table == [] then []
    else if InList(e, Cell(table[0], stmt.keyColumn), stmt.keys, binds) == True
    then KeptRows(e, stmt, binds, table[1..])
    else [table[0]] + KeptRows(e, stmt, binds, table[1..])
  }

  function RunDelete(e: Engine, stmt: Delete, binds: seq<SqlValue>, table: seq<Row>): Result<seq<Row>, SqlError> {
    if |stmt.keys| > e.limit then Err(TooManyParameters)
    else if |binds| != |stmt.keys| || !KeysInRange(stmt.keys, |binds|) then Err(ParameterMismatch)
    else Ok(KeptRows(e, stmt, binds, table))
  }

  /** The statement run on a database: on the table that its target names. */
  function DeleteTables(e: Engine, stmt: Delete, binds: seq<SqlValue>, db: Tables): Result<Tables, SqlError> {
    var target := ReadTarget(stmt.target);
    if target.None? then Err(SyntaxError)
    else if target.value !in db then Err(NoSuchTable)
    else
      var rows := RunDelete(e, stmt, binds, db[target.value]);
      if rows.Err? then Err(rows.error) else Ok(db[target.value := rows.value])
  }

  // ---- the back ends ----

  method BulkDeletePostgres(
    schema: string, table: string, pkColumn: string, pks: seq<SqlValue>, castOf: string -> Option<string>)
    returns (r: Option<Delete>)
    ensures r.None? <==> pks == []
    ensures r.Some? ==> r.value.target == QualifyTable(schema, table) && r.value.keyColumn == pkColumn
    ensures r.Some? ==> |r.value.keys| == |pks| &&
                        forall i :: 0 <= i < |pks| ==> r.value.keys[i] == Numbered(i + 1, castOf(pkColumn))
  {
    if |pks| == 0 {
      return None;
    }
    var pkCast := castOf(pkColumn);
    var keys: seq<Param> := [];
    var paramIdx := 0;
    for i := 0 to |pks|
      invariant paramIdx == i == |keys|
      invariant forall j :: 0 <= j < i ==> keys[j] == Numbered(j + 1, pkCast)
    {
      keys := keys + [Numbered(paramIdx + 1, pkCast)];
      paramIdx := paramIdx + 1;
    }
    r := Some(Delete(QualifyTable(schema, table), pkColumn, keys));
  }

  method BulkDeleteMySql(schema: string, table: string, pkColumn: string, pks: seq<SqlValue>)
    returns (r: Option<Delete>)
    ensures r.None? <==> pks == []
    ensures r.Some? ==> r.value == Delete(QualifyTable(schema, table), pkColumn, seq(|pks|, i => Positional))
  {
    if |pks| == 0 {
      return None;
    }
    r := Some(Delete(QualifyTable(schema, table), pkColumn, seq(|pks|, i => Positional)));
  }

  // ---- one statement ----

  function Keys(e: Engine, cast: Option<string>, pks: seq<SqlValue>): seq<SqlValue> {
    seq(|pks|, i requires 0 <= i < |pks| => Converted(e, cast, pks[i]))
  }

  lemma {:induction false} InListMatches(e: Engine, v: SqlValue, params: seq<Param>, binds: seq<SqlValue>, i: nat)
    requires KeysInRange(params, |binds|) && i <= |params|
    ensures KeysInRange(params[i..], |binds|)
    ensures InList(e, v, params[i..], binds) == True <==>
            exists j :: i <= j < |params| && e.compare(v, Value(e, params[j], binds)) == True
    decreases |params| - i
  {
    if i < |params| {
      assert params[i..][1..] == params[i + 1..];
      InListMatches(e, v, params, binds, i + 1);
    }
  }

  lemma {:induction false} KeptAreSurvivors(
    e: Engine, stmt: Delete, cast: Option<string>, pks: seq<SqlValue>, table: seq<Row>)
    requires |stmt.keys| == |pks| && forall i :: 0 <= i < |pks| ==> stmt.keys[i] == Numbered(i + 1, cast)
    ensures KeysInRange(stmt.keys, |pks|)
    ensures KeptRows(e, stmt, pks, table) == Survivors(e, stmt.keyColumn, Keys(e, cast, pks), table)
  {
    if table == [] {
    } else {
      KeptAreSurvivors(e, stmt, cast, pks, table[1..]);
      var v, keys := Cell(table[0], stmt.keyColumn), Keys(e, cast, pks);
      InListMatches(e, v, stmt.keys, pks, 0);
      assert stmt.keys[0..] == stmt.keys;
      assert forall j :: 0 <= j < |pks| ==> Value(e, stmt.keys[j], pks) == keys[j];
    }
  }

  /** The emitted DELETE removes exactly the rows some pk matches, unless there are more pks than the
      database takes parameters or a pk is a List. */
  lemma BulkDeleteMeaning(e: Engine, stmt: Delete, cast: Option<string>, pks: seq<SqlValue>, table: seq<Row>)
    requires |stmt.keys| == |pks| && forall i :: 0 <= i < |pks| ==> stmt.keys[i] == Numbered(i + 1, cast)
    ensures RunDelete(e, stmt, Bound(pks), table) ==
            if |pks| > e.limit then Err(TooManyParameters)
            else if !Bindable(pks) then Err(ParameterMismatch)
            else Ok(Survivors(e, stmt.keyColumn, Keys(e, cast, pks), table))
  {
    BoundAll(pks);
    KeptAreSurvivors(e, stmt, cast, pks, table);
  }

  /** On a database the rows go from the table that the statement was made for, and no other changes. */
  lemma BulkDeleteChangesOneTable(
    e: Engine, stmt: Delete, schema: string, table: string, cast: Option<string>, pks: seq<SqlValue>, db: Tables)
    requires '"' !in schema && '"' !in table && (schema, table) in db && stmt.target == QualifyTable(schema, table)
    requires |stmt.keys| == |pks| && forall i :: 0 <= i < |pks| ==> stmt.keys[i] == Numbered(i + 1, cast)
    ensures DeleteTables(e, stmt, Bound(pks), db) ==
            if |pks| > e.limit then Err(TooManyParameters)
            else if !Bindable(pks) then Err(ParameterMismatch)
            else Ok(db[(schema, table) := Survivors(e, stmt.keyColumn, Keys(e, cast, pks), db[(schema, table)])])
  {
    TargetReadsBackIff(schema, table);
    BulkDeleteMeaning(e, stmt, cast, pks, db[(schema, table)]);
  }

  /** The `?` of the MySQL statement name the same pks. */
  lemma {:induction false} MySqlKeysNumber(n: nat, from: nat)
    ensures NumberKeys(seq(n, i => Positional), from) == seq(n, i requires 0 <= i < n => Numbered(from + i + 1, None))
  {
    if n == 0 {
    } else {
      assert seq(n, i => Positional)[1..] == seq(n - 1, i => Positional);
      MySqlKeysNumber(n - 1, from + 1);
    }
  }

  // ---- the batched caller ----

  datatype ValueError = ValueError

  /** Why a batched delete stopped. */
  datatype Failure = BadBatchSize | Refused(error: SqlError)

  /** `_chunked`: slices at 0, n, 2n, ..; a zero step is refused and a negative one yields nothing. */
  method Chunked<T>(xs: seq<T>, n: int) returns (r: Result<seq<seq<T>>, ValueError>)
    ensures r.Err? <==> n == 0
    ensures n < 0 ==> r == Ok([])
    ensures n > 0 ==> Concat(r.value) == xs
    ensures n > 0 ==> forall i :: 0 <= i < |r.value| ==>
            0 < |r.value[i]| <= n && (i < |r.value| - 1 ==> |r.value[i]| == n)
  {
    if n == 0 {
      return Err(ValueError);
    }
    var chunks: seq<seq<T>> := [];
    if n > 0 {
      var i := 0;
      while i < |xs|
        invariant 0 <= i && Concat(chunks) == if i <= |xs| then xs[..i] else xs
        invariant forall k :: 0 <= k < |chunks| ==>
          0 < |chunks[k]| <= n && (k < |chunks| - 1 || i <= |xs| ==> |chunks[k]| == n)
      {
        var c := xs[i..if i + n < |xs| then i + n else |xs|];
        ConcatAppend(chunks, c);
        chunks := chunks + [c];
        i := i + n;
      }
    }
    r := Ok(chunks);
  }

  lemma MatchesConcat(e: Engine, v: SqlValue, a: seq<SqlValue>, b: seq<SqlValue>)
    ensures Matches(e, v, a + b) <==> Matches(e, v, a) || Matches(e, v, b)
  {
    if Matches(e, v, a) {
      var i :| 0 <= i < |a| && e.compare(v, a[i]) == True;
      assert (a + b)[i] == a[i];
    }
    if Matches(e, v, b) {
      var i :| 0 <= i < |b| && e.compare(v, b[i]) == True;
      assert (a + b)[|a| + i] == b[i];
    }
  }

  /** Deleting in two steps deletes what both key lists match. */
  lemma {:induction false} SurvivorsConcat(
    e: Engine, column: string, a: seq<SqlValue>, b: seq<SqlValue>, table: seq<Row>)
    ensures Survivors(e, column, b, Survivors(e, column, a, table)) == Survivors(e, column, a + b, table)
    ensures |Survivors(e, column, a + b, table)| <= |Survivors(e, column, a, table)|
  {
    if table == [] {
    } else {
      SurvivorsConcat(e, column, a, b, table[1..]);
      MatchesConcat(e, Cell(table[0], column), a, b);
    }
  }

  lemma {:induction false} SurvivorsOfNone(e: Engine, column: string, table: seq<Row>)
    ensures Survivors(e, column, [], table) == table
  {
    if table == [] {
    } else {
      SurvivorsOfNone(e, column, table[1..]);
    }
  }

  /** One back-end call: compile, bind, run. */
  method DeleteBatch(
    e: Engine, pkColumn: string, castOf: string -> Option<string>, batch: seq<SqlValue>, table: seq<Row>)
    returns (r: Result<seq<Row>, SqlError>)
    ensures r == if |batch| > e.limit then Err(TooManyParameters)
                 else if !Bindable(batch) then Err(ParameterMismatch)
                 else Ok(Survivors(e, pkColumn, Keys(e, castOf(pkColumn), batch), table))
  {
    var stmt := BulkDeletePostgres("", "", pkColumn, batch, castOf);
    if stmt.None? {
      SurvivorsOfNone(e, pkColumn, table);
      assert Keys(e, castOf(pkColumn), batch) == [];
      return Ok(table);
    }
    BulkDeleteMeaning(e, stmt.value, castOf(pkColumn), batch, table);
    var binds := BindValues(batch);
    r := RunDelete(e, stmt.value, binds, table);
  }

  /** What one statement for the first `done` pks leaves of the table. */
  function Left(
    e: Engine, column: string, cast: Option<string>, pks: seq<SqlValue>, done: nat, table: seq<Row>): seq<Row>
    requires done <= |pks|
  {
    Survivors(e, column, Keys(e, cast, pks[..done]), table)
  }

  lemma NoneDeleted(e: Engine, column: string, cast: Option<string>, pks: seq<SqlValue>, table: seq<Row>)
    ensures Left(e, column, cast, pks, 0, table) == table
  {
    assert Keys(e, cast, pks[..0]) == [];
    SurvivorsOfNone(e, column, table);
  }

  lemma BatchStep(
    e: Engine, column: string, cast: Option<string>, pks: seq<SqlValue>, done: nat, batch: seq<SqlValue>,
    table: seq<Row>)
    requires NextPks(pks, done, batch)
    ensures Survivors(e, column, Keys(e, cast, batch), Left(e, column, cast, pks, done, table)) ==
            Left(e, column, cast, pks, done + |batch|, table)
    ensures |Left(e, column, cast, pks, done + |batch|, table)| <= |Left(e, column, cast, pks, done, table)|
  {
    SurvivorsConcat(e, column, Keys(e, cast, pks[..done]), Keys(e, cast, batch), table);
    assert pks[..done + |batch|] == pks[..done] + batch;
    assert Keys(e, cast, pks[..done]) + Keys(e, cast, batch) == Keys(e, cast, pks[..done + |batch|]);
  }

  function Smaller(a: int, b: int): int {
    if a < b then a else b
  }

  /** Whole batches are done, and the next one cannot be sent: it is the first and has more pks than the
      database takes parameters, or a List is among its pks. */
  ghost predicate StoppedAt(e: Engine, pks: seq<SqlValue>, done: nat, size: int, error: SqlError) {
    size > 0 && (exists b: nat :: done == Times(size, b)) &&
    match error
    case TooManyParameters => done == 0 && Smaller(size, |pks|) > e.limit
    case ParameterMismatch => exists k :: done <= k < |pks| && k < done + size && pks[k].List?
    case _ => false
  }

  predicate NextPks(pks: seq<SqlValue>, done: nat, batch: seq<SqlValue>) {
    done + |batch| <= |pks| && pks[done..done + |batch|] == batch
  }

  /** The batches that `_chunked` made. */
  ghost predicate BatchesOf(pks: seq<SqlValue>, size: int, batches: seq<seq<SqlValue>>) {
    (size < 0 ==> batches == []) && (size > 0 ==> Concat(batches) == pks) &&
    forall i :: 0 <= i < |batches| ==> 0 < |batches[i]| <= size && (i < |batches| - 1 ==> |batches[i]| == size)
  }

  /** `b` batches, together the first `done` pks, were sent and accepted. */
  ghost predicate Sent(
    e: Engine, pks: seq<SqlValue>, size: int, batches: seq<seq<SqlValue>>, b: nat, done: nat)
  {
    b <= |batches| && done <= |pks| && BatchesOf(pks, size, batches) &&
    (if size < 0 then done == 0 else pks[done..] == Concat(batches[b..])) &&
    (b < |batches| ==> done == Times(size, b)) && (b > 0 ==> Smaller(size, |pks|) <= e.limit) &&
    Bindable(pks[..done])
  }

  /** The next batch goes, or the delete stops with the reason that it must have. */
  lemma NextSent(e: Engine, pks: seq<SqlValue>, size: int, batches: seq<seq<SqlValue>>, b: nat, done: nat)
    requires Sent(e, pks, size, batches, b, done) && b < |batches|
    ensures NextPks(pks, done, batches[b])
    ensures if |batches[b]| > e.limit
            then StoppedAt(e, pks, done, size, TooManyParameters) && Smaller(size, |pks|) > e.limit
            else if !Bindable(batches[b]) then StoppedAt(e, pks, done, size, ParameterMismatch) && !Bindable(pks)
            else Sent(e, pks, size, batches, b + 1, done + |batches[b]|)
  {
    var batch := batches[b];
    if !Bindable(batch) {
      var i :| 0 <= i < |batch| && batch[i].List?;
      assert pks[done + i] == batch[i];
    } else {
      assert pks[..done + |batch|] == pks[..done] + batch;
    }
  }

  /** What the next batch leaves, if it goes. */
  lemma NextLeft(
    e: Engine, column: string, cast: Option<string>, pks: seq<SqlValue>, size: int, batches: seq<seq<SqlValue>>,
    b: nat, done: nat, table: seq<Row>)
    requires Sent(e, pks, size, batches, b, done) && b < |batches|
    ensures done + |batches[b]| <= |pks|
    ensures var left, next := Left(e, column, cast, pks, done, table),
                              Left(e, column, cast, pks, done + |batches[b]|, table);
            Survivors(e, column, Keys(e, cast, batches[b]), left) == next && |next| <= |left|
  {
    NextSent(e, pks, size, batches, b, done);
    BatchStep(e, column, cast, pks, done, batches[b], table);
  }

  /** One pass of the batch loop. */
  method SendNext(
    e: Engine, pkColumn: string, castOf: string -> Option<string>, ghost pks: seq<SqlValue>, ghost size: int,
    batches: seq<seq<SqlValue>>, b: nat, ghost done: nat, left: seq<Row>, ghost table: seq<Row>)
    returns (r: Result<seq<Row>, SqlError>)
    requires Sent(e, pks, size, batches, b, done) && b < |batches|
    requires left == Left(e, pkColumn, castOf(pkColumn), pks, done, table)
    ensures done + |batches[b]| <= |pks|
    ensures r.Ok? ==>
            Sent(e, pks, size, batches, b + 1, done + |batches[b]|) && |r.value| <= |left| &&
            r.value == Left(e, pkColumn, castOf(pkColumn), pks, done + |batches[b]|, table)
    ensures r.Err? ==>
            StoppedAt(e, pks, done, size, r.error) && (Smaller(size, |pks|) > e.limit || !Bindable(pks))
  {
    NextSent(e, pks, size, batches, b, done);
    NextLeft(e, pkColumn, castOf(pkColumn), pks, size, batches, b, done, table);
    r := DeleteBatch(e, pkColumn, castOf, batches[b], left);
  }

  /** `bulk_delete` of ryx/bulk.py over a table: batches in turn, totals summed. With a positive batch
      size it deletes what one statement for all pks would, whatever the size, and returns how many rows
      went, exactly when no pk is a List and a batch has no more pks than the database takes parameters:
      so a small enough batch size makes any number of pks go. Otherwise it stops at the first batch that
      cannot be sent, the batches before that done. */
  method BulkDelete(
    e: Engine, pkColumn: string, castOf: string -> Option<string>, pks: seq<SqlValue>, batchSize: int, table: seq<Row>)
    returns (total: Result<nat, Failure>, left: seq<Row>, ghost done: nat)
    ensures total == Err(BadBatchSize) <==> batchSize == 0 && pks != []
    ensures batchSize <= 0 ==> left == table && (total.Ok? ==> total.value == 0)
    ensures batchSize > 0 ==> (total.Ok? <==> Bindable(pks) && Smaller(batchSize, |pks|) <= e.limit)
    ensures done <= |pks| && Bindable(pks[..done]) && (batchSize > 0 && total.Ok? ==> done == |pks|)
    ensures left == Left(e, pkColumn, castOf(pkColumn), pks, done, table)
    ensures total.Ok? ==> total.value == |table| - |left|
    ensures total.Err? && total.error.Refused? ==> StoppedAt(e, pks, done, batchSize, total.error.error)
  {
    left, done := table, 0;
    NoneDeleted(e, pkColumn, castOf(pkColumn), pks, table);
    if pks == [] {
      return Ok(0), left, done;
    }
    var chunks := Chunked(pks, batchSize);
    if chunks.Err? {
      return Err(BadBatchSize), left, done;
    }
    var batches := chunks.value;
    var count: nat := 0;
    for b := 0 to |batches|
      invariant Sent(e, pks, batchSize, batches, b, done) && count == |table| - |left|
      invariant left == Left(e, pkColumn, castOf(pkColumn), pks, done, table)
    {
      var outcome := SendNext(e, pkColumn, castOf, pks, batchSize, batches, b, done, left, table);
      if outcome.Err? {
        return Err(Refused(outcome.error)), left, done;
      }
      count := count + (|left| - |outcome.value|);
      left := outcome.value;
      done := done + |batches[b]|;
    }
    total := Ok(count);
  }
}
