/** What a database returns for the query that `select_related` builds: its LEFT JOINs and columns run
    over tables. */
module Joins {
  import opened Prelude
  import opened SqlValues
  import opened SelectRelated
  import opened BulkSql

  /** One row of the joined tables: the row each name stands for, or none. */
  type Scope = map<string, Option<Row>>

  // ---- reading the query ----

  /** `split_once('.')` */
  function Dot(s: string): (at: Option<nat>)
    ensures at.Some? ==> at.value < |s| && s[at.value] == '.' && '.' !in s[..at.value]
    ensures at.None? ==> '.' !in s
  {
    if s == "" then None
    else if s[0] == '.' then Some(0)
    else
      var later := Dot(s[1..]);
      if later.None? then None else Some(later.value + 1)
  }

  /** The value of `"name"."column"`; None when it cannot be read. */
  function Column(scope: Scope, text: string): Option<SqlValue> {
    var dot := Dot(text);
    if dot.None? || text[..dot.value] !in scope then None
    else
      var row := scope[text[..dot.value]];
      Some(if row.None? then Null else Cell(row.value, text[dot.value + 1..]))
  }

  function On(e: Engine, scope: Scope, j: Join): Tri {
    var left, right := Column(scope, j.onLeft), Column(scope, j.onRight);
    if left.None? || right.None? then Unknown else e.compare(left.value, right.value)
  }

  /** The rows for which the condition is True, each beside what is there. */
  function MatchesOf(e: Engine, scope: Scope, j: Join, rows: seq<Row>): seq<Scope> {
    if rows == [] then []
    else
      var joined := scope[j.alias := Some(rows[0])];
      (if On(e, joined, j) == True then [joined] else []) + MatchesOf(e, scope, j, rows[1..])
  }

  /** LEFT JOIN: a row without a match stays, with nothing beside it. */
  function JoinOne(e: Engine, scope: Scope, j: Join, rows: seq<Row>): seq<Scope> {
    var matches := MatchesOf(e, scope, j, rows);
    if matches == [] then [scope[j.alias := None]] else matches
  }

  function JoinEach(e: Engine, scopes: seq<Scope>, j: Join, rows: seq<Row>): seq<Scope> {
    if scopes == [] then [] else JoinOne(e, scopes[0], j, rows) + JoinEach(e, scopes[1..], j, rows)
  }

  /** The FROM clause; `db` gives the rows of each table. */
  function Joined(e: Engine, db: string -> seq<Row>, table: string, joins: seq<Join>): seq<Scope> {
    if joins == [] then seq(|db(table)|, i requires 0 <= i < |db(table)| => map[table := Some(db(table)[i])])
    else
      var j := joins[|joins| - 1];
      JoinEach(e, Joined(e, db, table, joins[..|joins| - 1]), j, db(j.table))
  }

  /** The SELECT list: pairs of a column's text and its name in the result. */
  function Selected(scope: Scope, items: seq<(string, string)>): Option<Pairs> {
    if items == [] then Some([])
    else
      var (text, name) := items[|items| - 1];
      var before, value := Selected(scope, items[..|items| - 1]), Column(scope, text);
      if before.None? || value.None? then None else Some(before.value + [(name, value.value)])
  }

  /** A column without AS has the name that its text has after the dot. */
  function Unnamed(columns: seq<string>): seq<(string, string)> {
    seq(|columns|, i requires 0 <= i < |columns| =>
      (columns[i], if Dot(columns[i]).Some? then columns[i][Dot(columns[i]).value + 1..] else columns[i]))
  }

  // ---- the reference: rows related by their values ----

  /** `row` is a row of the relation's table that belongs to `main`, or none when there is no such row. */
  ghost predicate Related(e: Engine, db: string -> seq<Row>, main: Row, r: Relation, row: Option<Row>) {
    if row.Some? then
      row.value in db(r.toTable) && e.compare(Cell(main, r.fkColumn), Cell(row.value, r.toField)) == True
    else
      forall x :: x in db(r.toTable) ==> e.compare(Cell(main, r.fkColumn), Cell(x, r.toField)) != True
  }

  function MainPairs(main: Row, fieldNames: seq<string>): Pairs {
    seq(|fieldNames|, i requires 0 <= i < |fieldNames| => (fieldNames[i], Cell(main, fieldNames[i])))
  }

  function ValuesOf(r: Relation, row: Option<Row>): Option<seq<SqlValue>> {
    if row.None? then None
    else Some(seq(|r.columns|, i requires 0 <= i < |r.columns| => Cell(row.value, r.columns[i])))
  }

  function RowsOf(rs: seq<Relation>, scope: Scope): seq<Option<seq<SqlValue>>>
    requires forall i :: 0 <= i < |rs| ==> rs[i].name in scope
  {
    seq(|rs|, i requires 0 <= i < |rs| => ValuesOf(rs[i], scope[rs[i].name]))
  }

  /** Names without a dot, all different. */
  predicate Joinable(table: string, rs: seq<Relation>) {
    if rs == [] then '.' !in table
    else
      var r := rs[|rs| - 1];
      Joinable(table, rs[..|rs| - 1]) && '.' !in r.name && r.name !in Names(table, rs[..|rs| - 1])
  }

  function Names(table: string, rs: seq<Relation>): set<string> {
    if rs == [] then {table} else Names(table, rs[..|rs| - 1]) + {rs[|rs| - 1].name}
  }

  // ---- one join ----

  lemma {:induction false} DotAfter(name: string, column: string)
    requires '.' !in name
    ensures Dot(name + "." + column) == Some(|name|)
    ensures (name + "." + column)[..|name|] == name && (name + "." + column)[|name| + 1..] == column
  {
    var text := name + "." + column;
    if name == "" {
      assert text[0] == '.';
    } else {
      DotAfter(name[1..], column);
      assert text[0] == name[0] && text[1..] == name[1..] + "." + column;
    }
  }

  lemma ReadsColumn(scope: Scope, name: string, column: string)
    requires '.' !in name && name in scope
    ensures Column(scope, name + "." + column) ==
            Some(if scope[name].None? then Null else Cell(scope[name].value, column))
  {
    DotAfter(name, column);
  }

  lemma OnIs(e: Engine, scope: Scope, table: string, main: Row, r: Relation, x: Row)
    requires '.' !in table && '.' !in r.name && r.name != table && table in scope && scope[table] == Some(main)
    ensures On(e, scope[r.name := Some(x)], JoinOf(table, r)) == e.compare(Cell(main, r.fkColumn), Cell(x, r.toField))
  {
    ReadsColumn(scope[r.name := Some(x)], table, r.fkColumn);
    ReadsColumn(scope[r.name := Some(x)], r.name, r.toField);
  }

  lemma {:induction false} MatchesAre(
    e: Engine, scope: Scope, table: string, main: Row, r: Relation, rows: seq<Row>, s: Scope)
    requires '.' !in table && '.' !in r.name && r.name != table && table in scope && scope[table] == Some(main)
    ensures s in MatchesOf(e, scope, JoinOf(table, r), rows) <==>
            exists x :: x in rows && e.compare(Cell(main, r.fkColumn), Cell(x, r.toField)) == True &&
                        s == scope[r.name := Some(x)]
  {
    if rows == [] {
    } else {
      MatchesAre(e, scope, table, main, r, rows[1..], s);
      OnIs(e, scope, table, main, r, rows[0]);
      assert rows == [rows[0]] + rows[1..];
    }
  }

  /** One LEFT JOIN puts beside a row each of its related rows, or none when there is none. */
  lemma JoinOneIs(
    e: Engine, db: string -> seq<Row>, scope: Scope, table: string, main: Row, r: Relation, s: Scope)
    requires '.' !in table && '.' !in r.name && r.name != table && table in scope && scope[table] == Some(main)
    ensures s in JoinOne(e, scope, JoinOf(table, r), db(r.toTable)) <==>
            exists row :: Related(e, db, main, r, row) && s == scope[r.name := row]
  {
    var rows, j := db(r.toTable), JoinOf(table, r);
    var matches := MatchesOf(e, scope, j, rows);
    MatchesAre(e, scope, table, main, r, rows, s);
    if matches == [] {
      forall x | x in rows
        ensures e.compare(Cell(main, r.fkColumn), Cell(x, r.toField)) != True
      {
        MatchesAre(e, scope, table, main, r, rows, scope[r.name := Some(x)]);
      }
      assert Related(e, db, main, r, None);
    } else {
      MatchesAre(e, scope, table, main, r, rows, matches[0]);
      assert matches[0] in matches;
      assert !Related(e, db, main, r, None);
      if s in matches {
        var x :| x in rows && e.compare(Cell(main, r.fkColumn), Cell(x, r.toField)) == True &&
                 s == scope[r.name := Some(x)];
        assert Related(e, db, main, r, Some(x));
      }
    }
  }

  lemma {:induction false} JoinEachIs(e: Engine, scopes: seq<Scope>, j: Join, rows: seq<Row>, s: Scope)
    ensures s in JoinEach(e, scopes, j, rows) <==> exists s0 :: s0 in scopes && s in JoinOne(e, s0, j, rows)
  {
    if scopes == [] {
    } else {
      JoinEachIs(e, scopes[1..], j, rows, s);
      assert scopes == [scopes[0]] + scopes[1..];
    }
  }

  // ---- the whole query ----

  /** The row of the main table, and beside it for every relation used a row that belongs to it or none. */
  ghost predicate IsResult(e: Engine, db: string -> seq<Row>, table: string, rs: seq<Relation>, s: Scope) {
    s.Keys == Names(table, rs) && table in s && s[table].Some? && s[table].value in db(table) &&
    forall i :: 0 <= i < |rs| ==> rs[i].name in s && Related(e, db, s[table].value, rs[i], s[rs[i].name])
  }

  lemma {:induction false} TableNamed(table: string, rs: seq<Relation>)
    ensures table in Names(table, rs) && forall i :: 0 <= i < |rs| ==> rs[i].name in Names(table, rs)
  {
    if rs == [] {
    } else {
      TableNamed(table, rs[..|rs| - 1]);
    }
  }

  lemma {:induction false} PlainTable(table: string, rs: seq<Relation>)
    requires Joinable(table, rs)
    ensures '.' !in table
  {
    if rs == [] {
    } else {
      PlainTable(table, rs[..|rs| - 1]);
    }
  }

  /** One more relation: the results are the earlier ones, each with a related row put beside it. */
  lemma NextResult(
    e: Engine, db: string -> seq<Row>, table: string, rs: seq<Relation>, r: Relation, before: Scope, row: Option<Row>)
    requires Joinable(table, rs + [r]) && before.Keys == Names(table, rs) && table in before && before[table].Some?
    ensures IsResult(e, db, table, rs + [r], before[r.name := row]) <==>
            IsResult(e, db, table, rs, before) && Related(e, db, before[table].value, r, row)
  {
    assert (rs + [r])[..|rs|] == rs;
    TableNamed(table, rs);
    var s := before[r.name := row];
    if IsResult(e, db, table, rs + [r], s) {
      assert (rs + [r])[|rs|] == r;
      forall i | 0 <= i < |rs|
        ensures rs[i].name in before && Related(e, db, before[table].value, rs[i], before[rs[i].name])
      {
        assert (rs + [r])[i] == rs[i];
      }
    }
  }

  lemma JoinedResult(
    e: Engine, db: string -> seq<Row>, table: string, rs: seq<Relation>, r: Relation, s0: Scope, s: Scope)
    requires Joinable(table, rs + [r]) && IsResult(e, db, table, rs, s0)
    requires s in JoinOne(e, s0, JoinOf(table, r), db(r.toTable))
    ensures IsResult(e, db, table, rs + [r], s)
  {
    assert (rs + [r])[..|rs|] == rs;
    PlainTable(table, rs);
    TableNamed(table, rs);
    JoinOneIs(e, db, s0, table, s0[table].value, r, s);
    var row :| Related(e, db, s0[table].value, r, row) && s == s0[r.name := row];
    NextResult(e, db, table, rs, r, s0, row);
  }

  lemma ResultJoined(
    e: Engine, db: string -> seq<Row>, table: string, rs: seq<Relation>, r: Relation, s: Scope)
    requires Joinable(table, rs + [r]) && IsResult(e, db, table, rs + [r], s)
    ensures IsResult(e, db, table, rs, s - {r.name})
    ensures s in JoinOne(e, s - {r.name}, JoinOf(table, r), db(r.toTable))
  {
    assert (rs + [r])[..|rs|] == rs && (rs + [r])[|rs|] == r;
    PlainTable(table, rs);
    TableNamed(table, rs);
    var s0 := s - {r.name};
    assert s0.Keys == Names(table, rs) && s == s0[r.name := s[r.name]];
    NextResult(e, db, table, rs, r, s0, s[r.name]);
    JoinOneIs(e, db, s0, table, s0[table].value, r, s);
  }

  lemma StepRelates(
    e: Engine, db: string -> seq<Row>, table: string, rs: seq<Relation>, r: Relation, scopes: seq<Scope>, s: Scope)
    requires Joinable(table, rs + [r]) && forall s0 :: s0 in scopes <==> IsResult(e, db, table, rs, s0)
    ensures s in JoinEach(e, scopes, JoinOf(table, r), db(r.toTable)) <==> IsResult(e, db, table, rs + [r], s)
  {
    var j, rows := JoinOf(table, r), db(r.toTable);
    JoinEachIs(e, scopes, j, rows, s);
    if s in JoinEach(e, scopes, j, rows) {
      var s0: Scope :| s0 in scopes && s in JoinOne(e, s0, j, rows);
      JoinedResult(e, db, table, rs, r, s0, s);
    }
    if IsResult(e, db, table, rs + [r], s) {
      ResultJoined(e, db, table, rs, r, s);
    }
  }

  lemma StartRelates(e: Engine, db: string -> seq<Row>, table: string, s: Scope)
    ensures s in Joined(e, db, table, []) <==> IsResult(e, db, table, [], s)
  {
    if IsResult(e, db, table, [], s) {
      var i :| 0 <= i < |db(table)| && db(table)[i] == s[table].value;
      assert Joined(e, db, table, [])[i] == s;
    }
  }

  /** What the FROM clause of the query yields, exactly: every row of the main table with, for each
      relation used, a row of the relation's table whose target column matches the row's foreign key, in
      every combination, or none where none matches. */
  lemma {:induction false} JoinsRelate(e: Engine, db: string -> seq<Row>, table: string, rs: seq<Relation>)
    requires Joinable(table, rs)
    ensures forall s :: s in Joined(e, db, table, JoinsOf(table, rs)) <==> IsResult(e, db, table, rs, s)
    decreases |rs|
  {
    if rs == [] {
      forall s
        ensures s in Joined(e, db, table, []) <==> IsResult(e, db, table, [], s)
      {
        StartRelates(e, db, table, s);
      }
    } else {
      var before, r, joins := rs[..|rs| - 1], rs[|rs| - 1], JoinsOf(table, rs);
      assert joins[..|joins| - 1] == JoinsOf(table, before) && rs == before + [r];
      JoinsRelate(e, db, table, before);
      forall s
        ensures s in Joined(e, db, table, joins) <==> IsResult(e, db, table, rs, s)
      {
        StepRelates(e, db, table, before, r, Joined(e, db, table, JoinsOf(table, before)), s);
      }
    }
  }

  lemma {:induction false} JoinEachKeeps(
    e: Engine, scopes: seq<Scope>, j: Join, rows: seq<Row>, table: string, main: Option<Row>)
    requires j.alias != table && exists s :: s in scopes && table in s && s[table] == main
    ensures exists s :: s in JoinEach(e, scopes, j, rows) && table in s && s[table] == main
  {
    var s :| s in scopes && table in s && s[table] == main;
    if s == scopes[0] {
      JoinOneKeeps(e, s, j, rows);
      var after := JoinOne(e, s, j, rows)[0];
      assert after in JoinEach(e, scopes, j, rows) && after[table] == main;
    } else {
      assert scopes == [scopes[0]] + scopes[1..];
      assert s in scopes[1..];
      JoinEachKeeps(e, scopes[1..], j, rows, table, main);
    }
  }

  lemma {:induction false} JoinOneKeeps(e: Engine, scope: Scope, j: Join, rows: seq<Row>)
    ensures JoinOne(e, scope, j, rows) != []
    ensures forall s, k :: s in JoinOne(e, scope, j, rows) && k in scope && k != j.alias ==> k in s && s[k] == scope[k]
  {
    if rows == [] {
    } else {
      JoinOneKeeps(e, scope, j, rows[1..]);
    }
  }

  /** No row of the main table is lost, related rows or not. */
  lemma {:induction false} NoRowIsLost(
    e: Engine, db: string -> seq<Row>, table: string, rs: seq<Relation>, main: Row)
    requires Joinable(table, rs) && main in db(table)
    ensures exists s :: s in Joined(e, db, table, JoinsOf(table, rs)) && table in s && s[table] == Some(main)
    decreases |rs|
  {
    if rs == [] {
      var i :| 0 <= i < |db(table)| && db(table)[i] == main;
      var s := Joined(e, db, table, JoinsOf(table, rs))[i];
      assert s in Joined(e, db, table, JoinsOf(table, rs)) && s == map[table := Some(main)];
    } else {
      var before, r, joins := rs[..|rs| - 1], rs[|rs| - 1], JoinsOf(table, rs);
      assert joins[..|joins| - 1] == JoinsOf(table, before);
      NoRowIsLost(e, db, table, before, main);
      TableNamed(table, before);
      var scopes := Joined(e, db, table, JoinsOf(table, before));
      JoinEachKeeps(e, scopes, JoinOf(table, r), db(r.toTable), table, Some(main));
    }
  }

  // ---- the columns ----

  /** Every item of the list is read as the pair in its place. */
  ghost predicate Reads(scope: Scope, items: seq<(string, string)>, pairs: Pairs) {
    |items| == |pairs| &&
    forall i :: 0 <= i < |items| ==> items[i].1 == pairs[i].0 && Column(scope, items[i].0) == Some(pairs[i].1)
  }

  lemma {:induction false} SelectedAll(scope: Scope, items: seq<(string, string)>, pairs: Pairs)
    requires Reads(scope, items, pairs)
    ensures Selected(scope, items) == Some(pairs)
  {
    if items == [] {
    } else {
      var last := |items| - 1;
      SelectedAll(scope, items[..last], pairs[..last]);
      assert pairs == pairs[..last] + [pairs[last]];
    }
  }

  /** The text of every alias of a relation names the column whose value the flat row has under it. */
  lemma AliasRead(scope: Scope, r: Relation, c: nat)
    requires '.' !in r.name && r.name in scope && c < |r.columns|
    ensures Column(scope, AliasOf(r, r.columns[c]).0) == Some(RelationPairs(r, ValuesOf(r, scope[r.name]))[c].1)
    ensures AliasOf(r, r.columns[c]).1 == RelationPairs(r, ValuesOf(r, scope[r.name]))[c].0
  {
    ReadsColumn(scope, r.name, r.columns[c]);
  }

  lemma ReadsConcat(
    scope: Scope, items: seq<(string, string)>, pairs: Pairs, items': seq<(string, string)>, pairs': Pairs)
    requires Reads(scope, items, pairs) && Reads(scope, items', pairs')
    ensures Reads(scope, items + items', pairs + pairs')
  {
  }

  lemma RelationReads(scope: Scope, r: Relation)
    requires '.' !in r.name && r.name in scope
    ensures Reads(scope, AliasesOf([r]), RelationPairs(r, ValuesOf(r, scope[r.name])))
  {
    assert [r][..0] == [] && AliasesOf([]) == [];
    forall c | 0 <= c < |r.columns|
      ensures Column(scope, AliasOf(r, r.columns[c]).0) == Some(RelationPairs(r, ValuesOf(r, scope[r.name]))[c].1)
    {
      AliasRead(scope, r, c);
    }
  }

  lemma {:induction false} QueryReads(
    scope: Scope, items: seq<(string, string)>, main: Pairs, table: string, rs: seq<Relation>)
    requires Joinable(table, rs) && (forall i :: 0 <= i < |rs| ==> rs[i].name in scope) && Reads(scope, items, main)
    ensures Fits(rs, RowsOf(rs, scope))
    ensures Reads(scope, items + AliasesOf(rs), FlatRow(main, rs, RowsOf(rs, scope)))
  {
    if rs == [] {
      assert items + AliasesOf(rs) == items;
    } else {
      var before, r := rs[..|rs| - 1], rs[|rs| - 1];
      QueryReads(scope, items, main, table, before);
      RelationReads(scope, r);
      assert RowsOf(rs, scope)[..|rs| - 1] == RowsOf(before, scope);
      assert items + AliasesOf(rs) == items + AliasesOf(before) + AliasesOf([r]);
      ReadsConcat(scope, items + AliasesOf(before), FlatRow(main, before, RowsOf(before, scope)),
        AliasesOf([r]), RelationPairs(r, ValuesOf(r, scope[r.name])));
    }
  }

  lemma MainReads(scope: Scope, table: string, fieldNames: seq<string>)
    requires '.' !in table && table in scope && scope[table].Some?
    ensures Reads(scope,
      Unnamed(seq(|fieldNames|, i requires 0 <= i < |fieldNames| => table + "." + fieldNames[i])),
      MainPairs(scope[table].value, fieldNames))
  {
    forall i | 0 <= i < |fieldNames|
      ensures Column(scope, table + "." + fieldNames[i]) == Some(Cell(scope[table].value, fieldNames[i]))
      ensures Dot(table + "." + fieldNames[i]) == Some(|table|)
      ensures (table + "." + fieldNames[i])[|table| + 1..] == fieldNames[i]
    {
      ReadsColumn(scope, table, fieldNames[i]);
      DotAfter(table, fieldNames[i]);
    }
  }

  /** What the query returns for a row of the FROM clause: the flat row of its main row and related rows. */
  lemma SelectsFlatRow(
    e: Engine, db: string -> seq<Row>, table: string, fieldNames: seq<string>, rs: seq<Relation>, s: Scope)
    requires Joinable(table, rs) && IsResult(e, db, table, rs, s)
    ensures Fits(rs, RowsOf(rs, s))
    ensures var mainColumns :=
              seq(|fieldNames|, i requires 0 <= i < |fieldNames| => table + "." + fieldNames[i]);
            Selected(s, Unnamed(mainColumns) + AliasesOf(rs)) ==
            Some(FlatRow(MainPairs(s[table].value, fieldNames), rs, RowsOf(rs, s)))
  {
    var mainColumns := seq(|fieldNames|, i requires 0 <= i < |fieldNames| => table + "." + fieldNames[i]);
    var main := MainPairs(s[table].value, fieldNames);
    PlainTable(table, rs);
    MainReads(s, table, fieldNames);
    QueryReads(s, Unnamed(mainColumns), main, table, rs);
    SelectedAll(s, Unnamed(mainColumns) + AliasesOf(rs), FlatRow(main, rs, RowsOf(rs, s)));
  }

  /** From the tables to the objects: whatever the query returns, taking a relation's prefix off gives the
      row of the relation's table that the main row's foreign key names, or nulls when there is none. */
  lemma RelatedRowComesBack(
    e: Engine, db: string -> seq<Row>, table: string, fieldNames: seq<string>, rs: seq<Relation>, s: Scope, j: nat)
    requires Joinable(table, rs) && s in Joined(e, db, table, JoinsOf(table, rs)) && j < |rs|
    requires table in s && s[table].Some? ==> NoLeak(MainPairs(s[table].value, fieldNames), rs)
    ensures table in s && s[table].Some? && rs[j].name in s
    ensures var mainColumns :=
              seq(|fieldNames|, i requires 0 <= i < |fieldNames| => table + "." + fieldNames[i]);
            var returned, related := Selected(s, Unnamed(mainColumns) + AliasesOf(rs)), s[rs[j].name];
            returned.Some? && Related(e, db, s[table].value, rs[j], related) &&
            RelRow(ToDict(returned.value), rs[j].name) == ToDict(OwnPairs(rs[j], ValuesOf(rs[j], related)))
  {
    JoinsRelate(e, db, table, rs);
    SelectsFlatRow(e, db, table, fieldNames, rs, s);
    DecodesOwnRow(MainPairs(s[table].value, fieldNames), rs, RowsOf(rs, s), j);
  }
}
