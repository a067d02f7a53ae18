/** What the output of `diff_states` does to a database, change by change. */
module Migration {
  import opened Prelude
  import opened SchemaDiff

  /** A database schema: its named schemas, and each table's columns by name. */
  datatype Db = Db(schemas: set<string>, tables: map<Key, map<string, Column>>)

  function Stored(db: Db, key: Key, name: string): Option<Column> {
    if key in db.tables && name in db.tables[key] then Some(db.tables[key][name]) else None
  }

  function Declared(tables: seq<Table>, key: Key, name: string): Option<Column> {
    var t := FindTable(tables, key);
    if t.Some? then FindColumn(t.value.columns, name) else None
  }

  /** `tables` is a snapshot of the database, in whatever order introspection listed it. */
  ghost predicate Describes(tables: seq<Table>, db: Db) {
    (forall key :: FindTable(tables, key).Some? <==> key in db.tables) &&
    (forall key, name :: Declared(tables, key, name) == Stored(db, key, name))
  }

  /** One change; None when the database would refuse it. */
  function Apply(db: Db, ch: Change): Option<Db> {
    var key := ChangeKey(ch);
    match ch.kind
    case CreateSchema => Some(db.(schemas := db.schemas + {ch.schema}))   // IF NOT EXISTS
    case CreateTable =>
      if key in db.tables || ch.schema !in db.schemas then None else Some(db.(tables := db.tables[key := map[]]))
    case AddColumn =>
      if ch.column.None? || key !in db.tables || Stored(db, key, ch.column.value.name).Some? then None
      else Some(Put(db, key, ch.column.value))
    case AlterColumn =>
      if ch.column.None? || ch.oldColumn.None? || Stored(db, key, ch.column.value.name) != ch.oldColumn then None
      else Some(Put(db, key, ch.column.value))
  }

  function Put(db: Db, key: Key, c: Column): Db
    requires key in db.tables
  {
    db.(tables := db.tables[key := db.tables[key][c.name := c]])
  }

  /** The changes in order; None as soon as one is refused. */
  function Replay(db: Db, changes: seq<Change>): Option<Db>
    decreases |changes|
  {
    if changes == [] then Some(db)
    else
      var next := Apply(db, changes[0]);
      if next.None? then None else Replay(next.value, changes[1..])
  }

  lemma {:induction false} ReplayConcat(db: Db, a: seq<Change>, b: seq<Change>)
    ensures Replay(db, a + b) ==
            if Replay(db, a).None? then None else Replay(Replay(db, a).value, b)
    decreases |a|
  {
    if a == [] {
      assert a + b == b;
    } else {
      assert (a + b)[1..] == a[1..] + b;
      if Apply(db, a[0]).Some? {
        ReplayConcat(Apply(db, a[0]).value, a[1..], b);
      }
    }
  }

  predicate UniqueColumns(cs: seq<Column>) {
    cs == [] || (FindColumn(cs[1..], cs[0].name).None? && UniqueColumns(cs[1..]))
  }

  predicate UniqueTables(ts: seq<Table>) {
    ts == [] ||
    (FindTable(ts[1..], KeyOf(ts[0])).None? && UniqueColumns(ts[0].columns) && UniqueTables(ts[1..]))
  }

  // ---- the ordered set of schema names ----

  lemma {:induction false} LessTotal(a: string, b: string)
    ensures a == b || Less(a, b) || Less(b, a)
    ensures !Less(a, a)
  {
    if a != "" && b != "" {
      LessTotal(a[1..], b[1..]);
      assert a == [a[0]] + a[1..] && b == [b[0]] + b[1..];
    }
    if a != "" {
      LessTotal(a[1..], a[1..]);
    }
  }

  lemma {:induction false} LessTransitive(a: string, b: string, c: string)
    requires Less(a, b) && Less(b, c)
    ensures Less(a, c)
  {
    if a != "" && a[0] == b[0] == c[0] {
      LessTransitive(a[1..], b[1..], c[1..]);
    }
  }

  /** The order is the dictionary's: up to some place both are the same, and there `a` ends or has the
      smaller character. */
  lemma {:induction false} LessIs(a: string, b: string)
    ensures Less(a, b) <==>
            exists i :: 0 <= i <= |a| && i < |b| && a[..i] == b[..i] && (i == |a| || a[i] < b[i])
  {
    if a == "" || b == "" {
      if b != "" { assert a[..0] == b[..0]; }
    } else if a[0] != b[0] {
      assert a[..0] == b[..0];
      forall i | 0 < i <= |a| && i < |b|
        ensures a[..i] != b[..i]
      {
        assert a[..i][0] == a[0] && b[..i][0] == b[0];
      }
    } else {
      LessIs(a[1..], b[1..]);
      if i :| 0 <= i < |a| && i + 1 < |b| && a[1..][..i] == b[1..][..i] && (i + 1 == |a| || a[1..][i] < b[1..][i]) {
        assert a[..i + 1] == [a[0]] + a[1..][..i] && b[..i + 1] == [b[0]] + b[1..][..i];
      }
      if i :| 0 <= i <= |a| && i < |b| && a[..i] == b[..i] && (i == |a| || a[i] < b[i]) {
        assert i > 0;
        assert a[1..][..i - 1] == a[..i][1..] && b[1..][..i - 1] == b[..i][1..];
      }
    }
  }

  ghost predicate Ascending(s: seq<string>) {
    s == [] || ((forall x :: x in s[1..] ==> Less(s[0], x)) && Ascending(s[1..]))
  }

  lemma {:induction false} InsertSpec(s: string, sorted: seq<string>)
    requires Ascending(sorted)
    ensures Ascending(Insert(s, sorted))
    ensures forall x :: x in Insert(s, sorted) <==> x == s || x in sorted
  {
    if sorted == [] {
    } else {
      LessTotal(s, sorted[0]);
      if Less(s, sorted[0]) {
        forall x | x in sorted
          ensures Less(s, x)
        {
          if x != sorted[0] { LessTransitive(s, sorted[0], x); }
        }
      } else if s != sorted[0] {
        InsertSpec(s, sorted[1..]);
      }
    }
  }

  lemma {:induction false} SchemaSetSpec(tables: seq<Table>)
    ensures Ascending(SchemaSet(tables))
    ensures forall s :: s in SchemaSet(tables) <==> exists t :: t in tables && t.schema == s
  {
    if tables == [] {
    } else {
      SchemaSetSpec(tables[1..]);
      InsertSpec(tables[0].schema, SchemaSet(tables[1..]));
      assert tables == [tables[0]] + tables[1..];
    }
  }

  lemma {:induction false} NewSchemasSpec(wanted: seq<string>, present: seq<string>)
    requires Ascending(wanted)
    ensures Ascending(NewSchemas(wanted, present))
    ensures forall s :: s in NewSchemas(wanted, present) <==> s in wanted && s !in present && s != ""
  {
    if wanted == [] {
    } else {
      NewSchemasSpec(wanted[1..], present);
      assert wanted == [wanted[0]] + wanted[1..];
      var rest := NewSchemas(wanted[1..], present);
      assert [] + rest == rest && ([wanted[0]] + rest)[1..] == rest;
    }
  }

  lemma {:induction false} ReplaySchemas(db: Db, names: seq<string>)
    ensures Replay(db, SchemaChanges(names)).Some?
    ensures var db' := Replay(db, SchemaChanges(names)).value;
            db'.tables == db.tables && forall s :: s in db'.schemas <==> s in db.schemas || s in names
    decreases |names|
  {
    if names == [] {
    } else {
      ReplaySchemas(db.(schemas := db.schemas + {names[0]}), names[1..]);
    }
  }

  // ---- tables ----

  lemma {:induction false} FindTableIn(ts: seq<Table>, t: Table)
    requires UniqueTables(ts) && t in ts
    ensures FindTable(ts, KeyOf(t)) == Some(t) && UniqueColumns(t.columns)
  {
    if t != ts[0] {
      FindTableIn(ts[1..], t);
    }
  }

  lemma {:induction false} ReplayTables(db: Db, current: seq<Table>, target: seq<Table>)
    requires UniqueTables(target)
    requires forall t :: t in target ==> t.schema in db.schemas
    requires forall key :: FindTable(target, key).Some? && FindTable(current, key).None? ==> key !in db.tables
    ensures Replay(db, TableChanges(current, target)).Some?
    ensures var db' := Replay(db, TableChanges(current, target)).value;
            db'.schemas == db.schemas &&
            (forall key :: key in db'.tables <==>
              key in db.tables || (FindTable(target, key).Some? && FindTable(current, key).None?)) &&
            (forall key, name :: Stored(db', key, name) == Stored(db, key, name))
    decreases |target|
  {
    if target == [] {
    } else {
      var t := target[0];
      if FindTable(current, KeyOf(t)).None? {
        var db1 := db.(tables := db.tables[KeyOf(t) := map[]]);
        assert Apply(db, TableChange(t)) == Some(db1);
        assert TableChanges(current, target)[1..] == TableChanges(current, target[1..]);
        ReplayTables(db1, current, target[1..]);
      } else {
        assert TableChanges(current, target) == TableChanges(current, target[1..]);
        ReplayTables(db, current, target[1..]);
      }
    }
  }

  // ---- columns ----

  type Place = (Key, string)

  function PlaceOf(ch: Change): Place {
    (ChangeKey(ch), if ch.column.Some? then ch.column.value.name else "")
  }

  predicate IsPut(ch: Change) {
    (ch.kind.AddColumn? || ch.kind.AlterColumn?) && ch.column.Some?
  }

  /** The change would be accepted by `db`. */
  predicate Ready(db: Db, ch: Change) {
    IsPut(ch) && ChangeKey(ch) in db.tables &&
    Stored(db, PlaceOf(ch).0, PlaceOf(ch).1) == (if ch.kind.AddColumn? then None else ch.oldColumn) &&
    (ch.kind.AlterColumn? ==> ch.oldColumn.Some?)
  }

  ghost predicate Touches(changes: seq<Change>, p: Place) {
    exists ch :: ch in changes && PlaceOf(ch) == p
  }

  ghost predicate OncePerPlace(changes: seq<Change>) {
    changes == [] || (!Touches(changes[1..], PlaceOf(changes[0])) && OncePerPlace(changes[1..]))
  }

  lemma PutEffect(db: Db, ch: Change, key: Key, name: string)
    requires Ready(db, ch)
    ensures Apply(db, ch).Some?
    ensures var db' := Apply(db, ch).value;
            db'.schemas == db.schemas && db'.tables.Keys == db.tables.Keys &&
            Stored(db', key, name) == if (key, name) == PlaceOf(ch) then ch.column else Stored(db, key, name)
  {
  }

  lemma ReadyKept(db: Db, ch: Change, rest: seq<Change>)
    requires Ready(db, ch) && !Touches(rest, PlaceOf(ch))
    requires forall x :: x in rest ==> Ready(db, x)
    ensures Apply(db, ch).Some? && forall x :: x in rest ==> Ready(Apply(db, ch).value, x)
  {
    PutEffect(db, ch, PlaceOf(ch).0, PlaceOf(ch).1);
    forall x | x in rest
      ensures Ready(Apply(db, ch).value, x)
    {
      PutEffect(db, ch, PlaceOf(x).0, PlaceOf(x).1);
      assert PlaceOf(x) != PlaceOf(ch);
    }
  }

  /** Changes to different places, each acceptable at the start, are all accepted in turn; each place
      ends up with its change's column and every other place keeps what it had. */
  lemma {:induction false} ReplayPuts(db: Db, changes: seq<Change>, key: Key, name: string)
    requires OncePerPlace(changes) && forall ch :: ch in changes ==> Ready(db, ch)
    ensures Replay(db, changes).Some?
    ensures var db' := Replay(db, changes).value;
            db'.schemas == db.schemas && db'.tables.Keys == db.tables.Keys &&
            (!Touches(changes, (key, name)) ==> Stored(db', key, name) == Stored(db, key, name)) &&
            (forall ch :: ch in changes && PlaceOf(ch) == (key, name) ==> Stored(db', key, name) == ch.column)
    decreases |changes|
  {
    if changes == [] {
    } else {
      var first, rest := changes[0], changes[1..];
      assert changes == [first] + rest;
      ReadyKept(db, first, rest);
      ReplayPuts(Apply(db, first).value, rest, key, name);
      PutEffect(db, first, key, name);
    }
  }

  // ---- where each change comes from ----

  /** The one pass that may change a place. */
  function PassAt(current: seq<Table>, p: Place): Pass {
    if FindTable(current, p.0).None? then NewTables
    else if Declared(current, p.0, p.1).None? then MissingColumns
    else ChangedColumns
  }

  /** The target declares a column that `current` lacks or has otherwise. */
  predicate Differs(current: seq<Table>, target: seq<Table>, key: Key, name: string) {
    Declared(target, key, name).Some? && Declared(target, key, name) != Declared(current, key, name)
  }

  /** A change the passes emit: an addition of, or alteration to, a column of the target. */
  ghost predicate Wanted(current: seq<Table>, target: seq<Table>, ch: Change) {
    IsPut(ch) && FindTable(target, ChangeKey(ch)).Some? &&
    Declared(target, PlaceOf(ch).0, PlaceOf(ch).1) == ch.column &&
    ch.column != Declared(current, PlaceOf(ch).0, PlaceOf(ch).1) &&
    (ch.kind.AddColumn? <==> Declared(current, PlaceOf(ch).0, PlaceOf(ch).1).None?) &&
    (ch.kind.AlterColumn? ==> ch.oldColumn == Declared(current, PlaceOf(ch).0, PlaceOf(ch).1))
  }

  lemma {:induction false} ColumnChangesSpec(current: seq<Table>, t: Table, cs: seq<Column>, pass: Pass)
    requires UniqueColumns(cs)
    ensures OncePerPlace(ColumnChanges(current, t, cs, pass))
    ensures forall ch :: ch in ColumnChanges(current, t, cs, pass) ==>
            IsPut(ch) && ChangeKey(ch) == KeyOf(t) && FindColumn(cs, ch.column.value.name) == ch.column &&
            ColumnChange(current, t, ch.column.value, pass) == Some(ch)
    ensures forall name :: FindColumn(cs, name).Some? ==>
            var change := ColumnChange(current, t, FindColumn(cs, name).value, pass);
            change.Some? ==> change.value in ColumnChanges(current, t, cs, pass)
  {
    if cs == [] {
    } else {
      ColumnChangesSpec(current, t, cs[1..], pass);
      var first, rest := ColumnChange(current, t, cs[0], pass), ColumnChanges(current, t, cs[1..], pass);
      if first.Some? {
        assert ([first.value] + rest)[1..] == rest;
        assert !Touches(rest, PlaceOf(first.value));
      } else {
        assert [] + rest == rest;
      }
    }
  }

  lemma {:induction false} FindColumnName(cs: seq<Column>, name: string)
    ensures FindColumn(cs, name).Some? ==> FindColumn(cs, name).value.name == name
  {
    if cs != [] { FindColumnName(cs[1..], name); }
  }

  lemma {:induction false} OnceConcat(a: seq<Change>, b: seq<Change>)
    requires OncePerPlace(a) && OncePerPlace(b)
    requires forall x, y :: x in a && y in b ==> PlaceOf(x) != PlaceOf(y)
    ensures OncePerPlace(a + b)
  {
    if a == [] {
      assert a + b == b;
    } else {
      assert a == [a[0]] + a[1..];
      assert (a + b)[1..] == a[1..] + b;
      OnceConcat(a[1..], b);
    }
  }

  /** One pass over the target: each place at most once, only places that this pass may change, and
      each change wanted. */
  lemma {:induction false} PassEmits(current: seq<Table>, target: seq<Table>, pass: Pass)
    requires UniqueTables(target)
    ensures OncePerPlace(PassChanges(current, target, pass))
    ensures forall ch :: ch in PassChanges(current, target, pass) ==>
            Wanted(current, target, ch) && PassAt(current, PlaceOf(ch)) == pass
  {
    if target == [] {
    } else {
      var t, rest := target[0], target[1..];
      PassEmits(current, rest, pass);
      ColumnChangesSpec(current, t, t.columns, pass);
      var mine, others := ColumnChanges(current, t, t.columns, pass), PassChanges(current, rest, pass);
      OnceConcat(mine, others);
      forall ch | ch in mine + others
        ensures Wanted(current, target, ch) && PassAt(current, PlaceOf(ch)) == pass
      {
        assert ch in mine || ChangeKey(ch) != KeyOf(t);
      }
    }
  }

  /** Every difference this pass has something to say about is among its changes. */
  lemma {:induction false} PassCovers(current: seq<Table>, target: seq<Table>, pass: Pass, key: Key, name: string)
    requires UniqueTables(target) && Differs(current, target, key, name) && PassAt(current, (key, name)) == pass
    ensures Touches(PassChanges(current, target, pass), (key, name))
  {
    var t, rest := target[0], target[1..];
    assert target == [t] + rest;
    if Differs(current, rest, key, name) {
      PassCovers(current, rest, pass, key, name);
    }
    PassReaches(current, t, rest, key, name, pass);
  }

  lemma PassReaches(current: seq<Table>, t: Table, rest: seq<Table>, key: Key, name: string, pass: Pass)
    requires UniqueColumns(t.columns) && PassAt(current, (key, name)) == pass
    requires Differs(current, [t] + rest, key, name)
    requires Differs(current, rest, key, name) ==> Touches(PassChanges(current, rest, pass), (key, name))
    ensures Touches(ColumnChanges(current, t, t.columns, pass) + PassChanges(current, rest, pass), (key, name))
  {
    var mine, others := ColumnChanges(current, t, t.columns, pass), PassChanges(current, rest, pass);
    assert ([t] + rest)[1..] == rest;
    if KeyOf(t) == key {
      ColumnChangesSpec(current, t, t.columns, pass);
      FindColumnName(t.columns, name);
      var ch := ColumnChange(current, t, FindColumn(t.columns, name).value, pass).value;
      assert ch in mine + others && PlaceOf(ch) == (key, name);
    } else {
      var ch :| ch in others && PlaceOf(ch) == (key, name);
      assert ch in mine + others;
    }
  }

  lemma PutsTouch(current: seq<Table>, target: seq<Table>, key: Key, name: string)
    requires UniqueTables(target)
    requires forall ch :: ch in Puts(current, target) ==> Wanted(current, target, ch)
    ensures Touches(Puts(current, target), (key, name)) <==> Differs(current, target, key, name)
  {
    if Differs(current, target, key, name) {
      PassCovers(current, target, PassAt(current, (key, name)), key, name);
    }
  }

  /** The column changes as a whole: exactly the places where the target differs, each once. */
  lemma PutsSpec(current: seq<Table>, target: seq<Table>)
    requires UniqueTables(target)
    ensures OncePerPlace(Puts(current, target))
    ensures forall ch :: ch in Puts(current, target) ==> Wanted(current, target, ch)
    ensures forall key, name :: Touches(Puts(current, target), (key, name)) <==> Differs(current, target, key, name)
  {
    var a := PassChanges(current, target, NewTables);
    var b := PassChanges(current, target, MissingColumns);
    var c := PassChanges(current, target, ChangedColumns);
    PassEmits(current, target, NewTables);
    PassEmits(current, target, MissingColumns);
    PassEmits(current, target, ChangedColumns);
    OnceConcat(b, c);
    OnceConcat(a, b + c);
    forall key, name
      ensures Touches(Puts(current, target), (key, name)) <==> Differs(current, target, key, name)
    {
      PutsTouch(current, target, key, name);
    }
  }

  // ---- the theorems ----

  lemma {:induction false} TableChangesEmpty(current: seq<Table>, target: seq<Table>)
    ensures TableChanges(current, target) == [] <==>
            forall t :: t in target ==> FindTable(current, KeyOf(t)).Some?
  {
    if target == [] {
    } else {
      TableChangesEmpty(current, target[1..]);
      assert target == [target[0]] + target[1..];
    }
  }

  lemma {:induction false} FoundIsIn(ts: seq<Table>, key: Key)
    ensures FindTable(ts, key).Some? ==>
            var t := FindTable(ts, key).value; t in ts && (t.schema, t.name) == key
    ensures FindTable(ts, key).None? ==> forall t :: t in ts ==> (t.schema, t.name) != key
  {
    if ts == [] {
    } else {
      FoundIsIn(ts[1..], key);
      assert ts == [ts[0]] + ts[1..];
    }
  }

  /** There is nothing to change exactly when the current state already has every target table and,
      equal in all attributes, every target column. */
  lemma NothingToChangeIff(current: seq<Table>, target: seq<Table>)
    requires UniqueTables(target)
    ensures Diff(current, target) == [] <==>
            (forall t :: t in target ==> FindTable(current, KeyOf(t)).Some?) &&
            (forall key, name :: !Differs(current, target, key, name))
  {
    PutsSpec(current, target);
    TableChangesEmpty(current, target);
    if Puts(current, target) != [] {
      assert Touches(Puts(current, target), PlaceOf(Puts(current, target)[0]));
    }
    if forall t :: t in target ==> FindTable(current, KeyOf(t)).Some? {
      NoNewSchemas(current, target);
    }
  }

  lemma NoNewSchemas(current: seq<Table>, target: seq<Table>)
    requires forall t :: t in target ==> FindTable(current, KeyOf(t)).Some?
    ensures SchemaChanges(NewSchemas(SchemaSet(target), SchemaSet(current))) == []
  {
    SchemaSetSpec(target);
    SchemaSetSpec(current);
    var names := NewSchemas(SchemaSet(target), SchemaSet(current));
    NewSchemasSpec(SchemaSet(target), SchemaSet(current));
    if names != [] {
      assert names[0] in names;
      var t :| t in target && t.schema == names[0];
      FoundIsIn(current, KeyOf(t));
    }
  }

  /** The database has the unnamed schema and those its tables are in, and perhaps others. */
  ghost predicate HasSchemas(tables: seq<Table>, db: Db) {
    "" in db.schemas && forall t :: t in tables ==> t.schema in db.schemas
  }

  lemma SchemaPhase(current: seq<Table>, target: seq<Table>, db: Db)
    requires HasSchemas(current, db)
    ensures var changes := SchemaChanges(NewSchemas(SchemaSet(target), SchemaSet(current)));
            Replay(db, changes).Some? && Replay(db, changes).value.tables == db.tables &&
            forall s :: s in Replay(db, changes).value.schemas <==> s in db.schemas || s in SchemaSet(target)
  {
    SchemaSetSpec(target);
    SchemaSetSpec(current);
    NewSchemasSpec(SchemaSet(target), SchemaSet(current));
    ReplaySchemas(db, NewSchemas(SchemaSet(target), SchemaSet(current)));
  }

  lemma ColumnPhase(current: seq<Table>, target: seq<Table>, db: Db)
    requires UniqueTables(target)
    requires forall key, name :: Stored(db, key, name) == Declared(current, key, name)
    requires forall key :: FindTable(target, key).Some? ==> key in db.tables
    ensures var changes := Puts(current, target);
            Replay(db, changes).Some? && Replay(db, changes).value.schemas == db.schemas &&
            Replay(db, changes).value.tables.Keys == db.tables.Keys &&
            forall key, name :: Stored(Replay(db, changes).value, key, name) ==
              if Declared(target, key, name).Some? then Declared(target, key, name) else Declared(current, key, name)
  {
    var changes := Puts(current, target);
    PutsSpec(current, target);
    ReplayPuts(db, changes, ("", ""), "");
    forall key, name
      ensures Stored(Replay(db, changes).value, key, name) ==
              if Declared(target, key, name).Some? then Declared(target, key, name) else Declared(current, key, name)
    {
      ReplayPuts(db, changes, key, name);
      if Touches(changes, (key, name)) {
        var ch :| ch in changes && PlaceOf(ch) == (key, name);
      }
    }
  }

  /** Replayed in order on the database it was computed for, every change is accepted; afterwards the
      database has exactly the tables of either state, each target column is as declared, and each
      column the target does not declare is as it was. */
  lemma DiffReplays(current: seq<Table>, target: seq<Table>, db: Db)
    requires UniqueTables(target) && Describes(current, db) && HasSchemas(current, db)
    ensures var after := Replay(db, Diff(current, target));
            after.Some? &&
            (forall key :: key in after.value.tables <==>
              FindTable(current, key).Some? || FindTable(target, key).Some?) &&
            (forall key, name :: Stored(after.value, key, name) ==
              if Declared(target, key, name).Some?
              then Declared(target, key, name) else Declared(current, key, name)) &&
            (forall s :: s in after.value.schemas <==> s in db.schemas || s in SchemaSet(target))
  {
    var schemas := SchemaChanges(NewSchemas(SchemaSet(target), SchemaSet(current)));
    var tables := TableChanges(current, target);
    SchemaPhase(current, target, db);
    var db1 := Replay(db, schemas).value;
    SchemaSetSpec(target);
    ReplayTables(db1, current, target);
    var db2 := Replay(db1, tables).value;
    ColumnPhase(current, target, db2);
    ReplayConcat(db, schemas, tables);
    ReplayConcat(db, schemas + tables, Puts(current, target));
  }

  /** Differencing any snapshot of the migrated database against the same target finds nothing. */
  lemma DiffConverges(current: seq<Table>, target: seq<Table>, db: Db, after: Db, snapshot: seq<Table>)
    requires UniqueTables(target) && Describes(current, db) && HasSchemas(current, db)
    requires Replay(db, Diff(current, target)) == Some(after) && Describes(snapshot, after)
    ensures Diff(snapshot, target) == []
  {
    DiffReplays(current, target, db);
    NothingToChangeIff(snapshot, target);
    forall t | t in target
      ensures FindTable(snapshot, KeyOf(t)).Some?
    {
      FindTableIn(target, t);
    }
  }
}
