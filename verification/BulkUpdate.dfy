/** `bulk_update` of the PostgreSQL and MySQL back ends: many single-row updates as one statement. */
module BulkUpdate {
  import opened Prelude
  import opened SqlValues
  import opened BulkSql

  /** Offset of the first bind of column `fi`, counted up column by column. */
  function Base(n: nat, fi: nat): nat {
    Times(2 * n, fi)
  }

  lemma BaseIs(n: nat, fi: nat)
    ensures Base(n, fi) == 2 * (n * fi)
  {
    TimesIs(2 * n, fi);
    assert 2 * n * fi == 2 * (n * fi);
  }

  lemma {:induction false} BaseGrows(n: nat, fi: nat, F: nat)
    requires fi < F
    ensures Base(n, fi) + 2 * n <= Base(n, F)
  {
    if fi < F - 1 {
      BaseGrows(n, fi, F - 1);
    }
  }

  // ---- the bind vector ----

  /** The WHEN/THEN binds of the first `i` rows of one column. */
  function Pairs(pks: seq<SqlValue>, values: seq<SqlValue>, i: nat): seq<SqlValue>
    requires i <= |pks| && i <= |values|
  {
    if i == 0 then [] else Pairs(pks, values, i - 1) + [pks[i - 1], values[i - 1]]
  }

  /** Every one of the first `F` columns has a value for every row: what the back ends index
      without checking, and panic without. */
  predicate Covers(fieldValues: seq<seq<SqlValue>>, F: nat, pks: seq<SqlValue>) {
    F <= |fieldValues| && forall k :: 0 <= k < F ==> |fieldValues[k]| >= |pks|
  }

  function Cases(pks: seq<SqlValue>, fieldValues: seq<seq<SqlValue>>, fi: nat): seq<SqlValue>
    requires Covers(fieldValues, fi, pks)
  {
    if fi == 0 then [] else Cases(pks, fieldValues, fi - 1) + Pairs(pks, fieldValues[fi - 1], |pks|)
  }

  lemma {:induction false} PairsLength(pks: seq<SqlValue>, values: seq<SqlValue>, m: nat)
    requires m <= |pks| && m <= |values|
    ensures |Pairs(pks, values, m)| == 2 * m
  {
    if m == 0 {
    } else {
      PairsLength(pks, values, m - 1);
    }
  }

  lemma {:induction false} PairAt(pks: seq<SqlValue>, values: seq<SqlValue>, m: nat, i: nat)
    requires i < m <= |pks| && m <= |values|
    ensures |Pairs(pks, values, m)| == 2 * m
    ensures Pairs(pks, values, m)[2 * i] == pks[i] && Pairs(pks, values, m)[2 * i + 1] == values[i]
  {
    PairsLength(pks, values, m - 1);
    if i < m - 1 {
      PairAt(pks, values, m - 1, i);
    }
  }

  lemma {:induction false} CasesLength(pks: seq<SqlValue>, fieldValues: seq<seq<SqlValue>>, F: nat)
    requires Covers(fieldValues, F, pks)
    ensures |Cases(pks, fieldValues, F)| == Base(|pks|, F)
  {
    if F == 0 {
    } else {
      CasesLength(pks, fieldValues, F - 1);
      PairsLength(pks, fieldValues[F - 1], |pks|);
    }
  }

  /** The binds of column `fi` stand right after those of the columns before it. */
  lemma {:induction false} CasesHold(pks: seq<SqlValue>, fieldValues: seq<seq<SqlValue>>, F: nat, fi: nat, i: nat)
    requires Covers(fieldValues, F, pks)
    requires fi < F && i < |pks|
    ensures var all, at := Cases(pks, fieldValues, F), |Cases(pks, fieldValues, fi)| + 2 * i;
            at + 1 < |all| && all[at] == pks[i] && all[at + 1] == fieldValues[fi][i]
  {
    var head, tail := Cases(pks, fieldValues, F - 1), Pairs(pks, fieldValues[F - 1], |pks|);
    assert Cases(pks, fieldValues, F) == head + tail;
    if fi < F - 1 {
      CasesHold(pks, fieldValues, F - 1, fi, i);
    } else {
      PairAt(pks, fieldValues[fi], |pks|, i);
      AtRight(head, tail, 2 * i);
      AtRight(head, tail, 2 * i + 1);
    }
  }

  lemma CasesAt(pks: seq<SqlValue>, fieldValues: seq<seq<SqlValue>>, F: nat, fi: nat, i: nat)
    requires Covers(fieldValues, F, pks)
    requires fi < F && i < |pks|
    ensures Base(|pks|, fi) + 2 * i + 1 < Base(|pks|, F) == |Cases(pks, fieldValues, F)|
    ensures Cases(pks, fieldValues, F)[Base(|pks|, fi) + 2 * i] == pks[i]
    ensures Cases(pks, fieldValues, F)[Base(|pks|, fi) + 2 * i + 1] == fieldValues[fi][i]
  {
    CasesHold(pks, fieldValues, F, fi, i);
    CasesLength(pks, fieldValues, fi);
    CasesLength(pks, fieldValues, F);
  }

  /** The whole bind vector: the cases column by column, then the IN list. */
  function Binds(pks: seq<SqlValue>, fieldValues: seq<seq<SqlValue>>, F: nat): seq<SqlValue>
    requires Covers(fieldValues, F, pks)
  {
    Cases(pks, fieldValues, F) + pks
  }

  // ---- the statement ----

  /** `render_placeholder`: offset `k` is written `$k+1`. */
  function Placeholder(k: nat, cast: Option<string>): Param {
    Numbered(k + 1, cast)
  }

  /** The clause of a column whose binds start at offset `base`. */
  function PgClause(n: nat, base: nat, column: string, pkColumn: string, pkCast: Option<string>, cast: Option<string>)
    : Assignment
  {
    Assignment(column, pkColumn,
      seq(n, i requires 0 <= i < n => When(Placeholder(base + 2 * i, pkCast), Placeholder(base + 2 * i + 1, cast))))
  }

  /** The emitted PostgreSQL statement, parameter by parameter. `castOf` is the cast the model
      registry gives for a column. */
  ghost predicate PgLayout(
    stmt: Update, target: string, pkColumn: string, columns: seq<string>, n: nat, castOf: string -> Option<string>)
  {
    stmt.target == target && stmt.keyColumn == pkColumn &&
    |stmt.sets| == |columns| && |stmt.keys| == n &&
    (forall fi :: 0 <= fi < |columns| ==>
      stmt.sets[fi] == PgClause(n, Base(n, fi), columns[fi], pkColumn, castOf(pkColumn), castOf(columns[fi]))) &&
    (forall i :: 0 <= i < n ==> stmt.keys[i] == Placeholder(Base(n, |columns|) + i, castOf(pkColumn)))
  }

  function MySqlClause(n: nat, column: string, pkColumn: string): Assignment {
    Assignment(column, pkColumn, seq(n, i => When(Positional, Positional)))
  }

  /** The emitted MySQL statement: the same shape, every parameter a `?`. */
  ghost predicate MySqlLayout(stmt: Update, target: string, pkColumn: string, columns: seq<string>, n: nat) {
    stmt.target == target && stmt.keyColumn == pkColumn &&
    |stmt.sets| == |columns| && stmt.keys == seq(n, i => Positional) &&
    forall fi :: 0 <= fi < |columns| ==> stmt.sets[fi] == MySqlClause(n, columns[fi], pkColumn)
  }

  datatype Compiled = Compiled(stmt: Update, values: seq<SqlValue>)

  /** One pass of the column loop. */
  method PostgresClause(
    pkColumn: string, column: string, values: seq<SqlValue>, pks: seq<SqlValue>, pkCast: Option<string>,
    cast: Option<string>, from: nat, before: seq<SqlValue>)
    returns (clause: Assignment, paramIdx: nat, allValues: seq<SqlValue>)
    requires |values| >= |pks|
    ensures clause == PgClause(|pks|, from, column, pkColumn, pkCast, cast)
    ensures paramIdx == from + 2 * |pks|
    ensures allValues == before + Pairs(pks, values, |pks|)
  {
    var whens: seq<When> := [];
    paramIdx, allValues := from, before;
    for i := 0 to |pks|
      invariant paramIdx == from + 2 * i
      invariant allValues == before + Pairs(pks, values, i)
      invariant |whens| == i
      invariant forall j :: 0 <= j < i ==>
        whens[j] == When(Placeholder(from + 2 * j, pkCast), Placeholder(from + 2 * j + 1, cast))
    {
      var whenPh := Placeholder(paramIdx, pkCast);
      paramIdx := paramIdx + 1;
      var thenPh := Placeholder(paramIdx, cast);
      paramIdx := paramIdx + 1;
      whens := whens + [When(whenPh, thenPh)];
      allValues := allValues + [pks[i]];
      allValues := allValues + [values[i]];
    }
    clause := Assignment(column, pkColumn, whens);
  }

  method PostgresKeys(n: nat, from: nat, pkCast: Option<string>) returns (keys: seq<Param>)
    ensures |keys| == n && forall i :: 0 <= i < n ==> keys[i] == Placeholder(from + i, pkCast)
  {
    keys := [];
    var paramIdx := from;
    for i := 0 to n
      invariant paramIdx == from + i && |keys| == i
      invariant forall j :: 0 <= j < i ==> keys[j] == Placeholder(from + j, pkCast)
    {
      keys := keys + [Placeholder(paramIdx, pkCast)];
      paramIdx := paramIdx + 1;
    }
  }

  method AppendKeys(before: seq<SqlValue>, pks: seq<SqlValue>) returns (allValues: seq<SqlValue>)
    ensures allValues == before + pks
  {
    allValues := before;
    for i := 0 to |pks|
      invariant allValues == before + pks[..i]
    {
      allValues := allValues + [pks[i]];
    }
  }

  function PgClauses(
    pkColumn: string, columns: seq<string>, n: nat, castOf: string -> Option<string>, fi: nat): seq<Assignment>
    requires fi <= |columns|
  {
    if fi == 0 then []
    else
      PgClauses(pkColumn, columns, n, castOf, fi - 1) +
      [PgClause(n, Base(n, fi - 1), columns[fi - 1], pkColumn, castOf(pkColumn), castOf(columns[fi - 1]))]
  }

  lemma {:induction false} PgClausesAt(
    pkColumn: string, columns: seq<string>, n: nat, castOf: string -> Option<string>, fi: nat)
    requires fi <= |columns|
    ensures |PgClauses(pkColumn, columns, n, castOf, fi)| == fi
    ensures forall k | 0 <= k < fi ::
            PgClauses(pkColumn, columns, n, castOf, fi)[k] ==
            PgClause(n, Base(n, k), columns[k], pkColumn, castOf(pkColumn), castOf(columns[k]))
  {
    if fi == 0 {
    } else {
      PgClausesAt(pkColumn, columns, n, castOf, fi - 1);
    }
  }

  /** The column loop. */
  method PostgresClauses(
    pkColumn: string, columns: seq<string>, fieldValues: seq<seq<SqlValue>>, pks: seq<SqlValue>,
    castOf: string -> Option<string>)
    returns (sets: seq<Assignment>, paramIdx: nat, allValues: seq<SqlValue>)
    requires Covers(fieldValues, |columns|, pks)
    ensures paramIdx == Base(|pks|, |columns|) && allValues == Cases(pks, fieldValues, |columns|)
    ensures sets == PgClauses(pkColumn, columns, |pks|, castOf, |columns|)
  {
    sets, allValues, paramIdx := [], [], 0;
    for fi := 0 to |columns|
      invariant paramIdx == Base(|pks|, fi) && allValues == Cases(pks, fieldValues, fi)
      invariant sets == PgClauses(pkColumn, columns, |pks|, castOf, fi)
    {
      var clause;
      clause, paramIdx, allValues := PostgresClause(
        pkColumn, columns[fi], fieldValues[fi], pks, castOf(pkColumn), castOf(columns[fi]), paramIdx, allValues);
      sets := sets + [clause];
    }
  }

  method BulkUpdatePostgres(
    schema: string, table: string, pkColumn: string, columns: seq<string>, fieldValues: seq<seq<SqlValue>>,
    pks: seq<SqlValue>, castOf: string -> Option<string>) returns (r: Option<Compiled>)
    requires pks == [] || fieldValues == [] || Covers(fieldValues, |columns|, pks)
    ensures r.None? <==> pks == [] || fieldValues == []
    ensures r.Some? ==> PgLayout(r.value.stmt, QualifyTable(schema, table), pkColumn, columns, |pks|, castOf)
    ensures r.Some? ==> r.value.values == Binds(pks, fieldValues, |columns|)
  {
    var n := |pks|;
    if n == 0 || |fieldValues| == 0 {
      return None;
    }
    var sets, paramIdx, allValues := PostgresClauses(pkColumn, columns, fieldValues, pks, castOf);
    PgClausesAt(pkColumn, columns, n, castOf, |columns|);
    var keys := PostgresKeys(n, paramIdx, castOf(pkColumn));
    allValues := AppendKeys(allValues, pks);
    r := Some(Compiled(Update(QualifyTable(schema, table), sets, pkColumn, keys), allValues));
  }

  method BulkUpdateMySql(
    schema: string, table: string, pkColumn: string, columns: seq<string>, fieldValues: seq<seq<SqlValue>>,
    pks: seq<SqlValue>) returns (r: Option<Compiled>)
    requires pks == [] || fieldValues == [] || Covers(fieldValues, |columns|, pks)
    ensures r.None? <==> pks == [] || fieldValues == []
    ensures r.Some? ==> MySqlLayout(r.value.stmt, QualifyTable(schema, table), pkColumn, columns, |pks|)
    ensures r.Some? ==> r.value.values == Binds(pks, fieldValues, |columns|)
  {
    var n := |pks|;
    if n == 0 || |fieldValues| == 0 {
      return None;
    }
    var sets: seq<Assignment> := [];
    var allValues: seq<SqlValue> := [];
    for fi := 0 to |columns|
      invariant allValues == Cases(pks, fieldValues, fi)
      invariant |sets| == fi
      invariant forall k :: 0 <= k < fi ==> sets[k] == MySqlClause(n, columns[k], pkColumn)
    {
      var whens: seq<When> := [];
      for i := 0 to n
        invariant allValues == Cases(pks, fieldValues, fi) + Pairs(pks, fieldValues[fi], i)
        invariant whens == seq(i, j => When(Positional, Positional))
      {
        whens := whens + [When(Positional, Positional)];
        allValues := allValues + [pks[i]];
        allValues := allValues + [fieldValues[fi][i]];
      }
      sets := sets + [Assignment(columns[fi], pkColumn, whens)];
    }
    allValues := AppendKeys(allValues, pks);
    r := Some(Compiled(Update(QualifyTable(schema, table), sets, pkColumn, seq(n, i => Positional)), allValues));
  }

  /** The parameters of field `fi` and row `i` of an n-row, F-column update are `$k+1` and `$k+2` with
      k = 2(n*fi + i), and the IN list starts at `$2nF+1`. */
  lemma ParameterArithmetic(
    stmt: Update, target: string, pkColumn: string, columns: seq<string>, n: nat,
    castOf: string -> Option<string>, fi: nat, i: nat)
    requires PgLayout(stmt, target, pkColumn, columns, n, castOf) && fi < |columns| && i < n
    ensures var k := 2 * (n * fi + i);
            stmt.sets[fi].whens[i] == When(Numbered(k + 1, castOf(pkColumn)), Numbered(k + 2, castOf(columns[fi])))
    ensures stmt.keys[i] == Numbered(2 * (n * |columns|) + i + 1, castOf(pkColumn))
  {
    BaseIs(n, fi);
    BaseIs(n, |columns|);
  }

  lemma AtLeft<T>(a: seq<T>, b: seq<T>, k: nat)
    requires k < |a|
    ensures (a + b)[k] == a[k]
  {
  }

  lemma AtRight<T>(a: seq<T>, b: seq<T>, i: nat)
    requires i < |b|
    ensures |a + b| == |a| + |b| && (a + b)[|a| + i] == b[i]
  {
  }

  lemma KeysLast(fieldValues: seq<seq<SqlValue>>, F: nat, pks: seq<SqlValue>, i: nat)
    requires Covers(fieldValues, F, pks) && i < |pks|
    ensures |Binds(pks, fieldValues, F)| == Base(|pks|, F) + |pks|
    ensures Binds(pks, fieldValues, F)[Base(|pks|, F) + i] == pks[i]
  {
    CasesLength(pks, fieldValues, F);
    AtRight(Cases(pks, fieldValues, F), pks, i);
  }

  lemma PairsFirst(fieldValues: seq<seq<SqlValue>>, F: nat, pks: seq<SqlValue>, fi: nat, i: nat)
    requires Covers(fieldValues, F, pks) && fi < F && i < |pks|
    ensures Base(|pks|, fi) + 2 * i + 1 < Base(|pks|, F) < |Binds(pks, fieldValues, F)|
    ensures Binds(pks, fieldValues, F)[Base(|pks|, fi) + 2 * i] == pks[i]
    ensures Binds(pks, fieldValues, F)[Base(|pks|, fi) + 2 * i + 1] == fieldValues[fi][i]
  {
    CasesAt(pks, fieldValues, F, fi, i);
    AtLeft(Cases(pks, fieldValues, F), pks, Base(|pks|, fi) + 2 * i);
    AtLeft(Cases(pks, fieldValues, F), pks, Base(|pks|, fi) + 2 * i + 1);
  }

  /** At those places the bind vector holds that row's pk and new value, and then the pks again;
      n(2F + 1) values in all. */
  lemma BindArithmetic(fieldValues: seq<seq<SqlValue>>, F: nat, pks: seq<SqlValue>, fi: nat, i: nat)
    requires Covers(fieldValues, F, pks) && fi < F && i < |pks|
    ensures |Binds(pks, fieldValues, F)| == |pks| * (2 * F + 1)
    ensures var values, k, keys := Binds(pks, fieldValues, F), 2 * (|pks| * fi + i), 2 * (|pks| * F);
            k + 1 < keys && |values| == keys + |pks| &&
            values[k] == pks[i] && values[k + 1] == fieldValues[fi][i] && values[keys + i] == pks[i]
  {
    BaseIs(|pks|, fi);
    BaseIs(|pks|, F);
    PairsFirst(fieldValues, F, pks, fi, i);
    KeysLast(fieldValues, F, pks, i);
    assert |pks| * (2 * F + 1) == 2 * (|pks| * F) + |pks|;
  }

  /** The driver binds every value exactly when neither a pk nor a value in use is a List. */
  lemma BindableIff(pks: seq<SqlValue>, fieldValues: seq<seq<SqlValue>>, F: nat)
    requires Covers(fieldValues, F, pks) && F > 0
    ensures Bindable(Binds(pks, fieldValues, F)) <==>
            Bindable(pks) && forall fi :: 0 <= fi < F ==> Bindable(fieldValues[fi][..|pks|])
  {
    CasesBindable(pks, fieldValues, F);
    BindableConcat(Cases(pks, fieldValues, F), pks);
  }

  lemma BindableConcat(a: seq<SqlValue>, b: seq<SqlValue>)
    ensures Bindable(a + b) <==> Bindable(a) && Bindable(b)
  {
    if Bindable(a + b) {
      assert forall i :: 0 <= i < |a| ==> a[i] == (a + b)[i];
      assert forall i :: 0 <= i < |b| ==> b[i] == (a + b)[|a| + i];
    }
  }

  lemma {:induction false} PairsBindable(pks: seq<SqlValue>, values: seq<SqlValue>, m: nat)
    requires m <= |pks| && m <= |values|
    ensures Bindable(Pairs(pks, values, m)) <==> Bindable(pks[..m]) && Bindable(values[..m])
  {
    if m == 0 {
    } else {
      PairsBindable(pks, values, m - 1);
      BindableConcat(Pairs(pks, values, m - 1), [pks[m - 1], values[m - 1]]);
      BindableConcat([pks[m - 1]], [values[m - 1]]);
      BindableConcat(pks[..m - 1], [pks[m - 1]]);
      BindableConcat(values[..m - 1], [values[m - 1]]);
      assert pks[..m] == pks[..m - 1] + [pks[m - 1]] && values[..m] == values[..m - 1] + [values[m - 1]];
      assert [pks[m - 1]] + [values[m - 1]] == [pks[m - 1], values[m - 1]];
    }
  }

  lemma {:induction false} CasesBindable(pks: seq<SqlValue>, fieldValues: seq<seq<SqlValue>>, F: nat)
    requires Covers(fieldValues, F, pks)
    ensures Bindable(Cases(pks, fieldValues, F)) <==>
            (F > 0 ==> Bindable(pks)) && forall fi :: 0 <= fi < F ==> Bindable(fieldValues[fi][..|pks|])
  {
    if F == 0 {
    } else {
      CasesBindable(pks, fieldValues, F - 1);
      PairsBindable(pks, fieldValues[F - 1], |pks|);
      assert pks[..|pks|] == pks;
      BindableConcat(Cases(pks, fieldValues, F - 1), Pairs(pks, fieldValues[F - 1], |pks|));
    }
  }
}
