/** `select_related`: relation columns aliased into one flat row, and taken apart again
    (ryx-rs/src/queryset.rs, ryx/queryset.py). */
module SelectRelated {
  import opened Prelude
  import opened SqlValues
  import opened LookupKeys

  /** A declared relation: its name, the joined table, and the joined model's columns. */
  datatype Relation = Relation(name: string, toTable: string, fkColumn: string, toField: string, columns: seq<string>)

  datatype Join = Join(table: string, alias: string, onLeft: string, onRight: string)

  // ---- building the query ----

  function FindRelation(all: seq<Relation>, name: string): Option<Relation> {
    if all == [] then None else if all[0].name == name then Some(all[0]) else FindRelation(all[1..], name)
  }

  /** The declared relations among those asked for, in the order asked; unknown names are ignored. */
  function Used(all: seq<Relation>, names: seq<string>): seq<Relation> {
    if names == [] then []
    else
      var r := FindRelation(all, names[|names| - 1]);
      Used(all, names[..|names| - 1]) + if r.Some? then [r.value] else []
  }

  function JoinOf(table: string, r: Relation): Join {
    Join(r.toTable, r.name, table + "." + r.fkColumn, r.name + "." + r.toField)
  }

  function JoinsOf(table: string, rs: seq<Relation>): seq<Join> {
    seq(|rs|, i requires 0 <= i < |rs| => JoinOf(table, rs[i]))
  }

  /** `"rel"."column" AS "rel__column"` */
  function AliasOf(r: Relation, column: string): (string, string) {
    (r.name + "." + column, Alias(r.name, column))
  }

  function Alias(rel: string, column: string): string {
    rel + "__" + column
  }

  function AliasesOf(rs: seq<Relation>): seq<(string, string)> {
    if rs == [] then []
    else
      var r := rs[|rs| - 1];
      AliasesOf(rs[..|rs| - 1]) + seq(|r.columns|, i requires 0 <= i < |r.columns| => AliasOf(r, r.columns[i]))
  }

  /** `i` is the place of the first relation of that name. */
  predicate FirstNamed(all: seq<Relation>, name: string, i: nat) {
    i < |all| && all[i].name == name && forall j :: 0 <= j < i ==> all[j].name != name
  }

  /** A name is looked up as the first relation of that name, and not found exactly when there is none. */
  lemma {:induction false} FindsFirst(all: seq<Relation>, name: string)
    ensures FindRelation(all, name).Some? <==> exists i :: 0 <= i < |all| && all[i].name == name
    ensures FindRelation(all, name).Some? ==>
            FindRelation(all, name).value.name == name &&
            exists i: nat :: FirstNamed(all, name, i) && all[i] == FindRelation(all, name).value
  {
    if all == [] {
    } else if all[0].name == name {
      assert FirstNamed(all, name, 0);
    } else {
      FindsFirst(all[1..], name);
      if FindRelation(all, name).Some? {
        var i: nat :| FirstNamed(all[1..], name, i) && all[1..][i] == FindRelation(all[1..], name).value;
        assert FirstNamed(all, name, i + 1);
      }
    }
  }

  /** The relations used are those of the names asked for that are declared, in the order asked. */
  lemma {:induction false} UsedAsAsked(all: seq<Relation>, names: seq<string>) returns (asked: seq<nat>)
    ensures |asked| == |Used(all, names)| && forall i :: 0 <= i < |asked| ==>
            asked[i] < |names| && FindRelation(all, names[asked[i]]) == Some(Used(all, names)[i])
    ensures forall i, j :: 0 <= i < j < |asked| ==> asked[i] < asked[j]
    ensures forall n :: 0 <= n < |names| ==> (n in asked <==> FindRelation(all, names[n]).Some?)
  {
    asked := [];
    if names == [] {
    } else {
      var last := |names| - 1;
      asked := UsedAsAsked(all, names[..last]);
      if FindRelation(all, names[last]).Some? {
        asked := asked + [last];
      }
    }
  }

  method BuildSelectRelated(table: string, fieldNames: seq<string>, all: seq<Relation>, names: seq<string>)
    returns (joins: seq<Join>, mainColumns: seq<string>, aliases: seq<(string, string)>)
    ensures mainColumns == seq(|fieldNames|, i requires 0 <= i < |fieldNames| => table + "." + fieldNames[i])
    ensures var used := Used(all, names);
            joins == JoinsOf(table, used) && aliases == AliasesOf(used)
  {
    joins := [];
    var relNamesUsed: seq<string> := [];
    ghost var used: seq<Relation> := [];
    for n := 0 to |names|
      invariant used == Used(all, names[..n]) && |relNamesUsed| == |joins| == |used|
      invariant forall i :: 0 <= i < |used| ==>
        joins[i] == JoinOf(table, used[i]) && FindRelation(all, relNamesUsed[i]) == Some(used[i])
    {
      assert names[..n + 1][..n] == names[..n];
      var rel := FindRelation(all, names[n]);
      if rel.Some? {
        assert rel.value.name == names[n] by { FindsFirst(all, names[n]); }
        joins := joins + [JoinOf(table, rel.value)];
        relNamesUsed := relNamesUsed + [rel.value.name];
        used := used + [rel.value];
      }
    }
    assert names[..|names|] == names;
    mainColumns := seq(|fieldNames|, i requires 0 <= i < |fieldNames| => table + "." + fieldNames[i]);
    aliases := [];
    for n := 0 to |relNamesUsed|
      invariant aliases == AliasesOf(used[..n])
    {
      assert used[..n + 1][..n] == used[..n];
      var rel := FindRelation(all, relNamesUsed[n]);
      if rel.Some? {
        ghost var before := aliases;
        for i := 0 to |rel.value.columns|
          invariant aliases == before + seq(i, k requires 0 <= k < i => AliasOf(rel.value, rel.value.columns[k]))
        {
          aliases := aliases + [AliasOf(rel.value, rel.value.columns[i])];
        }
      }
    }
    assert used[..|used|] == used;
  }

  // ---- the flat row ----

  type Pairs = seq<(string, SqlValue)>

  /** What the database returned for one relation: its row's values, or no matching row. */
  function RelationPairs(r: Relation, row: Option<seq<SqlValue>>): Pairs
    requires row.Some? ==> |row.value| == |r.columns|
  {
    seq(|r.columns|, i requires 0 <= i < |r.columns| =>
      (Alias(r.name, r.columns[i]), if row.Some? then row.value[i] else Null))
  }

  ghost predicate Fits(rs: seq<Relation>, rows: seq<Option<seq<SqlValue>>>) {
    |rs| == |rows| && forall i :: 0 <= i < |rs| && rows[i].Some? ==> |rows[i].value| == |rs[i].columns|
  }

  /** The columns of a LEFT JOIN row in SELECT order: the main table's, then each relation's aliases. */
  ghost function FlatRow(main: Pairs, rs: seq<Relation>, rows: seq<Option<seq<SqlValue>>>): Pairs
    requires Fits(rs, rows)
  {
    if rs == [] then main
    else FlatRow(main, rs[..|rs| - 1], rows[..|rs| - 1]) + RelationPairs(rs[|rs| - 1], rows[|rs| - 1])
  }

  /** Its column names after the main table's are the query's aliases, in order. */
  lemma {:induction false} RowUsesAliases(main: Pairs, rs: seq<Relation>, rows: seq<Option<seq<SqlValue>>>)
    requires Fits(rs, rows)
    ensures var row, aliases := FlatRow(main, rs, rows), AliasesOf(rs);
            |row| == |main| + |aliases| && row[..|main|] == main &&
            forall i :: 0 <= i < |aliases| ==> row[|main| + i].0 == aliases[i].1
  {
    if rs == [] {
    } else {
      RowUsesAliases(main, rs[..|rs| - 1], rows[..|rs| - 1]);
    }
  }

  /** A row as a dict: a repeated name keeps its last value. */
  function ToDict(pairs: Pairs): map<string, SqlValue> {
    if pairs == [] then map[] else ToDict(pairs[..|pairs| - 1])[pairs[|pairs| - 1].0 := pairs[|pairs| - 1].1]
  }

  // ---- taking it apart ----

  predicate StartsWith(s: string, p: string) {
    |p| <= |s| && s[..|p|] == p
  }

  /** `{k[len(prefix):]: v for k, v in row.items() if k.startswith(prefix)}` with prefix `rel__`. */
  function RelRow(row: map<string, SqlValue>, rel: string): map<string, SqlValue> {
    var prefix := rel + "__";
    StripsApart(prefix);
    map k | k in row && StartsWith(k, prefix) :: k[|prefix|..] := row[k]
  }

  lemma StripsApart(prefix: string)
    ensures forall a, b | StartsWith(a, prefix) && StartsWith(b, prefix) && a[|prefix|..] == b[|prefix|..] :: a == b
  {
    forall a, b | StartsWith(a, prefix) && StartsWith(b, prefix) && a[|prefix|..] == b[|prefix|..]
      ensures a == b
    {
      assert a == prefix + a[|prefix|..] && b == prefix + b[|prefix|..];
    }
  }

  /** Python's `v == 0`. */
  predicate EqualsZero(v: SqlValue) {
    v == Int(0) || v == Float(0.0) || v == Bool(false)
  }

  /** Python's `v is None or v == ""`; dates, numbers with a fixed point and the like arrive as strings. */
  predicate Blank(v: SqlValue) {
    v.Null? || ((v.Text? || v.Date? || v.DateTime? || v.Time? || v.Uuid? || v.Decimal? || v.Json?) && v.s == "")
  }

  /** Whether `_reconstruct_row` builds a related instance from the stripped row. */
  predicate Present(relRow: map<string, SqlValue>, pkColumn: string) {
    relRow != map[] && pkColumn in relRow && relRow[pkColumn] != Null && !EqualsZero(relRow[pkColumn]) &&
    exists k :: k in relRow && !Blank(relRow[k])
  }

  // ---- no leakage ----

  /** A relation name with no `__` in it and no `_` at its end. */
  predicate Plain(name: string) {
    FirstSeparator(name).None? && (name != "" ==> name[|name| - 1] != '_')
  }

  /** Neither name's prefix begins with the other's. */
  predicate Apart(a: string, b: string) {
    !StartsWith(a + "__", b + "__") && !StartsWith(b + "__", a + "__")
  }

  /** Some column makes an alias of `a` start with the prefix of `b` exactly when one of the two
      prefixes begins with the other. */
  lemma LeakIff(a: string, b: string)
    ensures (exists column :: StartsWith(Alias(a, column), b + "__")) <==> !Apart(a, b)
  {
    var p, q := a + "__", b + "__";
    forall column | StartsWith(Alias(a, column), q)
      ensures !Apart(a, b)
    {
      assert Alias(a, column) == p + column;
    }
    if StartsWith(p, q) {
      assert Alias(a, "") == p;
    } else if StartsWith(q, p) {
      assert Alias(a, q[|p|..]) == p + q[|p|..] == q;
    }
  }

  /** Different plain names are apart. */
  lemma PlainNamesApart(a: string, b: string)
    requires Plain(a) && Plain(b) && a != b
    ensures Apart(a, b)
  {
    if StartsWith(a + "__", b + "__") {
      assert a + "__" == Alias(a, "");
      PrefixesApart(a, b, "");
    }
    if StartsWith(b + "__", a + "__") {
      assert b + "__" == Alias(b, "");
      PrefixesApart(b, a, "");
    }
  }

  /** Under plain names, an alias of one relation never starts with the prefix of another. */
  lemma PrefixesApart(a: string, b: string, column: string)
    requires Plain(a) && Plain(b) && StartsWith(Alias(a, column), b + "__")
    ensures a == b
  {
    var s := Alias(a, column);
    assert s[|a|] == '_' && s[|a| + 1] == '_' && s[..|a|] == a;
    assert s[..|b| + 2] == b + "__";
    assert s[|b|] == (b + "__")[|b|] && s[|b| + 1] == (b + "__")[|b| + 1] && s[..|b|] == (b + "__")[..|b|];
  }

  lemma {:induction false} DictConcat(a: Pairs, b: Pairs)
    ensures ToDict(a + b) == ToDict(a) + ToDict(b)
  {
    if b == [] {
      assert a + b == a;
    } else {
      assert (a + b)[..|a + b| - 1] == a + b[..|b| - 1];
      DictConcat(a, b[..|b| - 1]);
    }
  }

  lemma {:induction false} DictKeys(pairs: Pairs)
    ensures forall k :: k in ToDict(pairs) <==> exists i :: 0 <= i < |pairs| && pairs[i].0 == k
  {
    if pairs == [] {
    } else {
      DictKeys(pairs[..|pairs| - 1]);
    }
  }

  /** A relation's own row as a dict, NULLs when unmatched. */
  function OwnPairs(r: Relation, row: Option<seq<SqlValue>>): Pairs
    requires row.Some? ==> |row.value| == |r.columns|
  {
    seq(|r.columns|, i requires 0 <= i < |r.columns| => (r.columns[i], if row.Some? then row.value[i] else Null))
  }

  /** Putting the prefix on every key and taking it off again. */
  lemma {:induction false} StripsOwn(rel: string, pairs: Pairs, aliased: Pairs)
    requires |pairs| == |aliased|
    requires forall i :: 0 <= i < |pairs| ==> aliased[i] == (Alias(rel, pairs[i].0), pairs[i].1)
    ensures RelRow(ToDict(aliased), rel) == ToDict(pairs)
    ensures forall k :: k in ToDict(aliased) ==> StartsWith(k, rel + "__")
  {
    if pairs == [] {
    } else {
      var last := |pairs| - 1;
      StripsOwn(rel, pairs[..last], aliased[..last]);
      PutStrips(ToDict(aliased[..last]), rel, pairs[last].0, pairs[last].1);
    }
  }

  lemma PutStrips(row: map<string, SqlValue>, rel: string, column: string, v: SqlValue)
    ensures RelRow(row[Alias(rel, column) := v], rel) == RelRow(row, rel)[column := v]
    ensures StartsWith(Alias(rel, column), rel + "__")
  {
    var prefix, alias := rel + "__", Alias(rel, column);
    assert alias[..|prefix|] == prefix && alias[|prefix|..] == column;
    var left, right := RelRow(row[alias := v], rel), RelRow(row, rel)[column := v];
    forall c
      ensures c in left <==> c in right
      ensures c in left ==> left[c] == right[c]
    {
      Stripped(row[alias := v], rel, c);
      Stripped(row, rel, c);
      assert Alias(rel, c) == alias ==> c == column by {
        assert Alias(rel, c)[|prefix|..] == c;
      }
    }
  }

  /** The stripped row holds `c` exactly when the row holds `rel__c`, with the same value. */
  lemma Stripped(row: map<string, SqlValue>, rel: string, c: string)
    ensures c in RelRow(row, rel) <==> Alias(rel, c) in row
    ensures c in RelRow(row, rel) ==> RelRow(row, rel)[c] == row[Alias(rel, c)]
  {
    var prefix := rel + "__";
    assert Alias(rel, c) == prefix + c;
    assert StartsWith(prefix + c, prefix) && (prefix + c)[|prefix|..] == c;
    forall k | k in row && StartsWith(k, prefix) && k[|prefix|..] == c
      ensures k == prefix + c
    {
      assert k == k[..|prefix|] + k[|prefix|..];
    }
  }

  /** No column name of the result starts with the prefix of a relation it does not belong to. */
  ghost predicate NoLeak(main: Pairs, rs: seq<Relation>) {
    (forall i, j :: 0 <= i < |main| && 0 <= j < |rs| ==> !StartsWith(main[i].0, rs[j].name + "__")) &&
    (forall i, j :: 0 <= i < |rs| && 0 <= j < |rs| && i != j ==> Silent(rs[i], rs[j].name))
  }

  /** None of the relation's aliases starts with the prefix of `rel`. */
  ghost predicate Silent(r: Relation, rel: string) {
    forall c :: 0 <= c < |r.columns| ==> !StartsWith(Alias(r.name, r.columns[c]), rel + "__")
  }

  /** Names that are pairwise apart, with main columns that begin with none of the prefixes, do not leak,
      whatever the relations' columns are. */
  lemma NamesApartNeverLeak(main: Pairs, rs: seq<Relation>)
    requires forall i, j :: 0 <= i < |main| && 0 <= j < |rs| ==> !StartsWith(main[i].0, rs[j].name + "__")
    requires forall i, j :: 0 <= i < |rs| && 0 <= j < |rs| && i != j ==> Apart(rs[i].name, rs[j].name)
    ensures NoLeak(main, rs)
  {
    forall i, j | 0 <= i < |rs| && 0 <= j < |rs| && i != j
      ensures Silent(rs[i], rs[j].name)
    {
    }
  }

  lemma OtherHasNothing(r: Relation, row: Option<seq<SqlValue>>, rel: string)
    requires (row.Some? ==> |row.value| == |r.columns|) && Silent(r, rel)
    ensures RelRow(ToDict(RelationPairs(r, row)), rel) == map[]
  {
    var pairs := RelationPairs(r, row);
    DictKeys(pairs);
    forall k | k in ToDict(pairs)
      ensures !StartsWith(k, rel + "__")
    {
      var i :| 0 <= i < |pairs| && pairs[i].0 == k;
    }
  }

  /** A prefix that names none of the relations strips nothing off the row. */
  lemma {:induction false} UnnamedHasNothing(
    main: Pairs, rs: seq<Relation>, rows: seq<Option<seq<SqlValue>>>, rel: string)
    requires Fits(rs, rows) && forall i :: 0 <= i < |rs| ==> Silent(rs[i], rel)
    requires forall i :: 0 <= i < |main| ==> !StartsWith(main[i].0, rel + "__")
    ensures RelRow(ToDict(FlatRow(main, rs, rows)), rel) == map[]
    decreases |rs|
  {
    if rs == [] {
      DictKeys(main);
    } else {
      var last := |rs| - 1;
      UnnamedHasNothing(main, rs[..last], rows[..last], rel);
      SplitsRow(FlatRow(main, rs[..last], rows[..last]), RelationPairs(rs[last], rows[last]), rel);
      OtherHasNothing(rs[last], rows[last], rel);
    }
  }

  /** Stripping a relation's prefix off the flat row gives that relation's own row, whatever the other
      relations and the main table contributed. */
  lemma {:induction false} DecodesOwnRow(main: Pairs, rs: seq<Relation>, rows: seq<Option<seq<SqlValue>>>, j: nat)
    requires Fits(rs, rows) && NoLeak(main, rs) && j < |rs|
    ensures RelRow(ToDict(FlatRow(main, rs, rows)), rs[j].name) == ToDict(OwnPairs(rs[j], rows[j]))
    decreases |rs|
  {
    var last := |rs| - 1;
    if j == last {
      UnnamedHasNothing(main, rs[..last], rows[..last], rs[last].name);
      LastOwn(FlatRow(main, rs[..last], rows[..last]), rs[last], rows[last]);
    } else {
      DecodesOwnRow(main, rs[..last], rows[..last], j);
      LastOther(FlatRow(main, rs[..last], rows[..last]), rs[last], rows[last], rs[j].name);
    }
  }

  lemma LastOwn(earlier: Pairs, r: Relation, row: Option<seq<SqlValue>>)
    requires (row.Some? ==> |row.value| == |r.columns|) && RelRow(ToDict(earlier), r.name) == map[]
    ensures RelRow(ToDict(earlier + RelationPairs(r, row)), r.name) == ToDict(OwnPairs(r, row))
  {
    SplitsRow(earlier, RelationPairs(r, row), r.name);
    StripsRelation(r, row);
  }

  lemma StripsRelation(r: Relation, row: Option<seq<SqlValue>>)
    requires row.Some? ==> |row.value| == |r.columns|
    ensures RelRow(ToDict(RelationPairs(r, row)), r.name) == ToDict(OwnPairs(r, row))
  {
    StripsOwn(r.name, OwnPairs(r, row), RelationPairs(r, row));
  }

  lemma LastOther(earlier: Pairs, r: Relation, row: Option<seq<SqlValue>>, rel: string)
    requires (row.Some? ==> |row.value| == |r.columns|) && Silent(r, rel)
    ensures RelRow(ToDict(earlier + RelationPairs(r, row)), rel) == RelRow(ToDict(earlier), rel)
  {
    SplitsRow(earlier, RelationPairs(r, row), rel);
    OtherHasNothing(r, row, rel);
  }

  lemma SplitsRow(a: Pairs, b: Pairs, rel: string)
    ensures RelRow(ToDict(a + b), rel) == RelRow(ToDict(a), rel) + RelRow(ToDict(b), rel)
  {
    DictConcat(a, b);
  }

  /** The main table's columns are not disturbed. */
  lemma {:induction false} MainRowKept(main: Pairs, rs: seq<Relation>, rows: seq<Option<seq<SqlValue>>>, k: string)
    requires Fits(rs, rows) && NoLeak(main, rs) && k in ToDict(main)
    ensures k in ToDict(FlatRow(main, rs, rows)) && ToDict(FlatRow(main, rs, rows))[k] == ToDict(main)[k]
    decreases |rs|
  {
    if rs == [] {
    } else {
      var last := |rs| - 1;
      var mine := RelationPairs(rs[last], rows[last]);
      MainRowKept(main, rs[..last], rows[..last], k);
      DictConcat(FlatRow(main, rs[..last], rows[..last]), mine);
      DictKeys(mine);
      DictKeys(main);
      if k in ToDict(mine) {
        var i :| 0 <= i < |mine| && mine[i].0 == k;
        PutStrips(map[], rs[last].name, rs[last].columns[i], Null);
      }
    }
  }

  lemma {:induction false} DictOf(pairs: Pairs, v: SqlValue)
    requires forall i :: 0 <= i < |pairs| ==> pairs[i].1 == v
    ensures forall k :: k in ToDict(pairs) ==> ToDict(pairs)[k] == v
  {
    if pairs == [] {
    } else {
      DictOf(pairs[..|pairs| - 1], v);
    }
  }

  lemma BlankIs(v: SqlValue)
    ensures Blank(v) <==>
            v in [Null, Text(""), Date(""), DateTime(""), Time(""), Uuid(""), Decimal(""), Json("")]
  {
  }

  /** What `Present` asks of a row that has the pk column. */
  lemma PresentIs(relRow: map<string, SqlValue>, pkColumn: string)
    requires pkColumn in relRow
    ensures Present(relRow, pkColumn) <==>
            relRow[pkColumn] !in [Null, Int(0), Float(0.0), Bool(false)] &&
            exists k :: k in relRow && relRow[k] !in [
              Null, Text(""), Date(""), DateTime(""), Time(""), Uuid(""), Decimal(""), Json("")]
  {
    forall k | k in relRow
      ensures Blank(relRow[k]) <==> relRow[k] in [
        Null, Text(""), Date(""), DateTime(""), Time(""), Uuid(""), Decimal(""), Json("")]
    {
      BlankIs(relRow[k]);
    }
  }

  /** An unmatched relation never yields an instance. A matched one yields an instance exactly when its
      pk is neither null nor zero and its row is not all null or empty: a related row whose pk is 0 is lost. */
  lemma InstanceIff(main: Pairs, rs: seq<Relation>, rows: seq<Option<seq<SqlValue>>>, j: nat, pkColumn: string)
    requires Fits(rs, rows) && NoLeak(main, rs) && j < |rs| && pkColumn in rs[j].columns
    ensures var own, relRow := ToDict(OwnPairs(rs[j], rows[j])), RelRow(ToDict(FlatRow(main, rs, rows)), rs[j].name);
            relRow == own && pkColumn in own &&
            (Present(relRow, pkColumn) <==>
              rows[j].Some? && own[pkColumn] !in [Null, Int(0), Float(0.0), Bool(false)] &&
              exists k :: k in own && own[k] !in [
                Null, Text(""), Date(""), DateTime(""), Time(""), Uuid(""), Decimal(""), Json("")])
  {
    DecodesOwnRow(main, rs, rows, j);
    OwnHas(rs[j], rows[j], pkColumn);
    PresentIs(ToDict(OwnPairs(rs[j], rows[j])), pkColumn);
  }

  lemma OwnHas(r: Relation, row: Option<seq<SqlValue>>, column: string)
    requires (row.Some? ==> |row.value| == |r.columns|) && column in r.columns
    ensures var own := ToDict(OwnPairs(r, row));
            column in own && (row.None? ==> own[column] == Null)
  {
    var pairs := OwnPairs(r, row);
    DictKeys(pairs);
    var i :| 0 <= i < |r.columns| && r.columns[i] == column;
    assert pairs[i].0 == column;
    if row.None? { DictOf(pairs, Null); }
  }

  // ---- exactly when ----

  /** The row gives back the main table's row and every relation's own. */
  ghost predicate Recovers(main: Pairs, rs: seq<Relation>, rows: seq<Option<seq<SqlValue>>>)
    requires Fits(rs, rows)
  {
    var row := ToDict(FlatRow(main, rs, rows));
    (forall k :: k in ToDict(main) ==> k in row && row[k] == ToDict(main)[k]) &&
    (forall j :: 0 <= j < |rs| ==> RelRow(row, rs[j].name) == ToDict(OwnPairs(rs[j], rows[j])))
  }

  /** Relation `i` has a row with the value `v` in every column; the others have none. */
  function OnlyRow(rs: seq<Relation>, i: nat, v: SqlValue): (rows: seq<Option<seq<SqlValue>>>) {
    seq(|rs|, j requires 0 <= j < |rs| => if j == i then Some(seq(|rs[j].columns|, c => v)) else None)
  }

  lemma OwnIs(r: Relation, row: Option<seq<SqlValue>>, v: SqlValue, c: nat)
    requires (row.Some? ==> |row.value| == |r.columns|) && c < |r.columns|
    requires if row.Some? then forall i :: 0 <= i < |row.value| ==> row.value[i] == v else v == Null
    ensures var own := ToDict(OwnPairs(r, row));
            r.columns[c] in own && forall k :: k in own ==> own[k] == v
  {
    var pairs := OwnPairs(r, row);
    DictKeys(pairs);
    assert pairs[c].0 == r.columns[c];
    DictOf(pairs, v);
  }

  /** An alias of relation `i` under the prefix of relation `j`: the row in which only `i` is matched is
      not taken apart again. */
  lemma RelationLeaks(main: Pairs, rs: seq<Relation>, i: nat, j: nat, c: nat)
    requires i < |rs| && j < |rs| && i != j && c < |rs[i].columns|
    requires StartsWith(Alias(rs[i].name, rs[i].columns[c]), rs[j].name + "__")
    ensures Fits(rs, OnlyRow(rs, i, Int(1))) && !Recovers(main, rs, OnlyRow(rs, i, Int(1)))
  {
    var rows := OnlyRow(rs, i, Int(1));
    assert Fits(rs, rows);
    var row, alias := ToDict(FlatRow(main, rs, rows)), Alias(rs[i].name, rs[i].columns[c]);
    var k := alias[|rs[j].name + "__"|..];
    assert alias == Alias(rs[j].name, k);
    Stripped(row, rs[i].name, rs[i].columns[c]);
    Stripped(row, rs[j].name, k);
    OwnIs(rs[i], rows[i], Int(1), c);
    DictOf(OwnPairs(rs[j], None), Null);
  }

  /** A main column under the prefix of relation `j`: a row in which `j` holds another value than that
      column is not taken apart again. */
  lemma MainLeaks(main: Pairs, rs: seq<Relation>, i: nat, j: nat) returns (rows: seq<Option<seq<SqlValue>>>)
    requires i < |main| && j < |rs| && StartsWith(main[i].0, rs[j].name + "__")
    ensures Fits(rs, rows) && !Recovers(main, rs, rows)
  {
    var name := main[i].0;
    DictKeys(main);
    var v := if ToDict(main)[name] == Int(1) then Int(2) else Int(1);
    rows := OnlyRow(rs, j, v);
    assert Fits(rs, rows);
    var row, k := ToDict(FlatRow(main, rs, rows)), name[|rs[j].name + "__"|..];
    assert name == Alias(rs[j].name, k);
    Stripped(row, rs[j].name, k);
    DictOf(OwnPairs(rs[j], rows[j]), v);
  }

  ghost predicate AlwaysRecovers(main: Pairs, rs: seq<Relation>) {
    forall rows | Fits(rs, rows) :: Recovers(main, rs, rows)
  }

  /** Whatever rows the database returns, the main row and every relation's row can be recovered, exactly
      when no column name starts with the prefix of a relation it does not belong to. */
  lemma RecoversIff(main: Pairs, rs: seq<Relation>)
    ensures AlwaysRecovers(main, rs) <==> NoLeak(main, rs)
  {
    if NoLeak(main, rs) {
      forall rows | Fits(rs, rows)
        ensures Recovers(main, rs, rows)
      {
        forall k | k in ToDict(main)
          ensures k in ToDict(FlatRow(main, rs, rows)) && ToDict(FlatRow(main, rs, rows))[k] == ToDict(main)[k]
        {
          MainRowKept(main, rs, rows, k);
        }
        forall j | 0 <= j < |rs|
          ensures RelRow(ToDict(FlatRow(main, rs, rows)), rs[j].name) == ToDict(OwnPairs(rs[j], rows[j]))
        {
          DecodesOwnRow(main, rs, rows, j);
        }
      }
    } else if i, j :| 0 <= i < |main| && 0 <= j < |rs| && StartsWith(main[i].0, rs[j].name + "__") {
      var rows := MainLeaks(main, rs, i, j);
    } else {
      var i, j :| 0 <= i < |rs| && 0 <= j < |rs| && i != j && !Silent(rs[i], rs[j].name);
      var c :| 0 <= c < |rs[i].columns| && StartsWith(Alias(rs[i].name, rs[i].columns[c]), rs[j].name + "__");
      RelationLeaks(main, rs, i, j, c);
    }
  }

  /** Two relations whose names are not apart: with some column in the first, rows are lost. */
  lemma ClashingNamesLeak(a: string, b: string) returns (column: string)
    requires !Apart(a, b)
    ensures forall r: Relation, s: Relation | r.name == a && column in r.columns && s.name == b ::
              !AlwaysRecovers([], [r, s])
  {
    LeakIff(a, b);
    column :| StartsWith(Alias(a, column), b + "__");
    forall r: Relation, s: Relation | r.name == a && column in r.columns && s.name == b
      ensures !AlwaysRecovers([], [r, s])
    {
      var c :| 0 <= c < |r.columns| && r.columns[c] == column;
      assert [r, s][0] == r && [r, s][1] == s;
      assert !Silent(r, b);
      RecoversIff([], [r, s]);
    }
  }

  /** A name with an underscore at its end, next to the name without it: every column leaks. */
  lemma TrailingUnderscoreClashes(name: string, column: string)
    ensures StartsWith(Alias(name + "_", column), name + "__") && !Apart(name + "_", name)
  {
    var p := name + "__";
    assert Alias(name + "_", column) == p + ("_" + column);
    assert name + "_" + "__" == p + "_";
  }
}
