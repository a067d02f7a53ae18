/** Schema differencing (ryx-rs/src/migration.rs): `diff_states` as a patch generator, and the
    patch's effect on a database schema. */
module SchemaDiff {
  import opened Prelude

  datatype Column = Column(
    name: string, dbType: string, nullable: bool, primaryKey: bool, unique: bool, default: Option<string>)

  datatype Table = Table(name: string, schema: string, columns: seq<Column>)

  datatype Kind = CreateSchema | CreateTable | AddColumn | AlterColumn

  datatype Change = Change(
    kind: Kind, table: string, schema: string, column: Option<Column>, oldColumn: Option<Column>, description: string)

  type Key = (string, string)

  function KeyOf(t: Table): Key {
    (t.schema, t.name)
  }

  function ChangeKey(c: Change): Key {
    (c.schema, c.table)
  }

  function FindTable(tables: seq<Table>, key: Key): Option<Table> {
    if tables == [] then None else if KeyOf(tables[0]) == key then Some(tables[0]) else FindTable(tables[1..], key)
  }

  function FindColumn(columns: seq<Column>, name: string): Option<Column> {
    if columns == [] then None else if columns[0].name == name then Some(columns[0]) else FindColumn(columns[1..], name)
  }

  // ---- the ordered set of schema names ----

  predicate Less(a: string, b: string) {
    b != "" && (a == "" || a[0] < b[0] || (a[0] == b[0] && Less(a[1..], b[1..])))
  }

  function Insert(s: string, sorted: seq<string>): seq<string> {
    if sorted == [] then [s]
    else if s == sorted[0] then sorted
    else if Less(s, sorted[0]) then [s] + sorted
    else [sorted[0]] + Insert(s, sorted[1..])
  }

  function SchemaSet(tables: seq<Table>): seq<string> {
    if tables == [] then [] else Insert(tables[0].schema, SchemaSet(tables[1..]))
  }

  function NewSchemas(wanted: seq<string>, present: seq<string>): seq<string> {
    if wanted == [] then []
    else (if wanted[0] !in present && wanted[0] != "" then [wanted[0]] else []) + NewSchemas(wanted[1..], present)
  }

  // ---- the changes ----

  function SchemaChange(s: string): Change {
    Change(CreateSchema, "", s, None, None, "Create schema " + s)
  }

  function TableChange(t: Table): Change {
    Change(CreateTable, t.name, t.schema, None, None, "Create table " + t.schema + "." + t.name)
  }

  function AddChange(t: Table, c: Column): Change {
    Change(AddColumn, t.name, t.schema, Some(c), None, "Add column " + t.schema + "." + t.name + "." + c.name)
  }

  function AlterChange(t: Table, c: Column, old': Column): Change {
    Change(AlterColumn, t.name, t.schema, Some(c), Some(old'), "Alter column " + t.schema + "." + t.name + "." + c.name)
  }

  function SchemaChanges(schemas: seq<string>): seq<Change> {
    if schemas == [] then [] else [SchemaChange(schemas[0])] + SchemaChanges(schemas[1..])
  }

  function TableChanges(current: seq<Table>, target: seq<Table>): seq<Change> {
    if target == [] then []
    else (if FindTable(current, KeyOf(target[0])).None? then [TableChange(target[0])] else []) +
         TableChanges(current, target[1..])
  }

  /** The three passes over the target's columns. */
  datatype Pass = NewTables | MissingColumns | ChangedColumns

  /** What one pass says about one column of a target table. */
  function ColumnChange(current: seq<Table>, t: Table, c: Column, pass: Pass): Option<Change> {
    var present := FindTable(current, KeyOf(t));
    var old' := if present.Some? then FindColumn(present.value.columns, c.name) else None;
    match pass
    case NewTables => if present.None? then Some(AddChange(t, c)) else None
    case MissingColumns => if present.Some? && old'.None? then Some(AddChange(t, c)) else None
    case ChangedColumns => if old'.Some? && c != old'.value then Some(AlterChange(t, c, old'.value)) else None
  }

  function ColumnChanges(current: seq<Table>, t: Table, columns: seq<Column>, pass: Pass): seq<Change> {
    if columns == [] then []
    else
      var first := ColumnChange(current, t, columns[0], pass);
      (if first.Some? then [first.value] else []) + ColumnChanges(current, t, columns[1..], pass)
  }

  function PassChanges(current: seq<Table>, target: seq<Table>, pass: Pass): seq<Change> {
    if target == [] then []
    else ColumnChanges(current, target[0], target[0].columns, pass) + PassChanges(current, target[1..], pass)
  }

  function Diff(current: seq<Table>, target: seq<Table>): seq<Change> {
    SchemaChanges(NewSchemas(SchemaSet(target), SchemaSet(current))) + TableChanges(current, target) +
    Puts(current, target)
  }

  function Puts(current: seq<Table>, target: seq<Table>): seq<Change> {
    PassChanges(current, target, NewTables) +
    (PassChanges(current, target, MissingColumns) + PassChanges(current, target, ChangedColumns))
  }

  // ---- the loops ----

  lemma {:induction false} ColumnChangesAppend(current: seq<Table>, t: Table, cs: seq<Column>, c: Column, pass: Pass)
    ensures ColumnChanges(current, t, cs + [c], pass) ==
            ColumnChanges(current, t, cs, pass) + ColumnChanges(current, t, [c], pass)
  {
    if cs == [] {
      assert cs + [c] == [c];
    } else {
      assert (cs + [c])[1..] == cs[1..] + [c];
      ColumnChangesAppend(current, t, cs[1..], c, pass);
    }
  }

  lemma {:induction false} PassChangesAppend(current: seq<Table>, ts: seq<Table>, t: Table, pass: Pass)
    ensures PassChanges(current, ts + [t], pass) ==
            PassChanges(current, ts, pass) + ColumnChanges(current, t, t.columns, pass)
  {
    if ts == [] {
      assert ts + [t] == [t];
    } else {
      assert (ts + [t])[1..] == ts[1..] + [t];
      PassChangesAppend(current, ts[1..], t, pass);
    }
  }

  lemma {:induction false} TableChangesAppend(current: seq<Table>, ts: seq<Table>, t: Table)
    ensures TableChanges(current, ts + [t]) == TableChanges(current, ts) + TableChanges(current, [t])
  {
    if ts == [] {
      assert ts + [t] == [t];
    } else {
      assert (ts + [t])[1..] == ts[1..] + [t];
      TableChangesAppend(current, ts[1..], t);
    }
  }

  lemma {:induction false} NewSchemasAppend(wanted: seq<string>, s: string, present: seq<string>)
    ensures SchemaChanges(NewSchemas(wanted + [s], present)) ==
            SchemaChanges(NewSchemas(wanted, present)) +
            if s !in present && s != "" then [SchemaChange(s)] else []
  {
    if wanted == [] {
      assert wanted + [s] == [s];
    } else {
      assert (wanted + [s])[1..] == wanted[1..] + [s];
      NewSchemasAppend(wanted[1..], s, present);
      var rest, rest' := NewSchemas(wanted[1..], present), NewSchemas(wanted[1..] + [s], present);
      if wanted[0] !in present && wanted[0] != "" {
        assert ([wanted[0]] + rest)[1..] == rest && ([wanted[0]] + rest')[1..] == rest';
      } else {
        assert [] + rest == rest && [] + rest' == rest';
      }
    }
  }

  method SchemaLoop(current: seq<Table>, target: seq<Table>) returns (changes: seq<Change>)
    ensures changes == SchemaChanges(NewSchemas(SchemaSet(target), SchemaSet(current)))
  {
    var wanted, present := SchemaSet(target), SchemaSet(current);
    changes := [];
    for i := 0 to |wanted|
      invariant changes == SchemaChanges(NewSchemas(wanted[..i], present))
    {
      NewSchemasAppend(wanted[..i], wanted[i], present);
      assert wanted[..i] + [wanted[i]] == wanted[..i + 1];
      if wanted[i] !in present && wanted[i] != "" {
        changes := changes + [SchemaChange(wanted[i])];
      }
    }
    assert wanted[..|wanted|] == wanted;
  }

  method TableLoop(current: seq<Table>, target: seq<Table>) returns (changes: seq<Change>)
    ensures changes == TableChanges(current, target)
  {
    changes := [];
    for i := 0 to |target|
      invariant changes == TableChanges(current, target[..i])
    {
      TableChangesAppend(current, target[..i], target[i]);
      assert target[..i] + [target[i]] == target[..i + 1];
      if FindTable(current, KeyOf(target[i])).None? {
        changes := changes + [TableChange(target[i])];
      }
    }
    assert target[..|target|] == target;
  }

  method ColumnLoop(current: seq<Table>, t: Table, pass: Pass) returns (changes: seq<Change>)
    ensures changes == ColumnChanges(current, t, t.columns, pass)
  {
    changes := [];
    for j := 0 to |t.columns|
      invariant changes == ColumnChanges(current, t, t.columns[..j], pass)
    {
      ColumnChangesAppend(current, t, t.columns[..j], t.columns[j], pass);
      assert t.columns[..j] + [t.columns[j]] == t.columns[..j + 1];
      var change := ColumnChange(current, t, t.columns[j], pass);
      if change.Some? {
        changes := changes + [change.value];
      }
    }
    assert t.columns[..|t.columns|] == t.columns;
  }

  method PassLoop(current: seq<Table>, target: seq<Table>, pass: Pass) returns (changes: seq<Change>)
    ensures changes == PassChanges(current, target, pass)
  {
    changes := [];
    for i := 0 to |target|
      invariant changes == PassChanges(current, target[..i], pass)
    {
      PassChangesAppend(current, target[..i], target[i], pass);
      assert target[..i] + [target[i]] == target[..i + 1];
      var more := ColumnLoop(current, target[i], pass);
      changes := changes + more;
    }
    assert target[..|target|] == target;
  }

  method DiffStates(current: seq<Table>, target: seq<Table>) returns (changes: seq<Change>)
    ensures changes == Diff(current, target)
  {
    changes := SchemaLoop(current, target);
    var tables := TableLoop(current, target);
    var created := PassLoop(current, target, NewTables);
    var added := PassLoop(current, target, MissingColumns);
    var altered := PassLoop(current, target, ChangedColumns);
    changes := changes + tables + (created + (added + altered));
  }
}
