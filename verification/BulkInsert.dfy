/** `bulk_insert`: many rows in one VALUES list, with placeholders numbered per cell. */
module BulkInsert {
  import opened Prelude
  import opened SqlValues
  import opened Placeholders
  import opened BulkSql

  // ---- what the back ends emit ----

  function CellText(width: nat, r: nat, c: nat, cast: Option<Cast>): string {
    Render(Times(width, r) + c, cast)
  }

  function Template(columns: seq<string>, i: nat, castOf: string -> Option<Cast>): string
    requires i < |columns|
  {
    "$" + Numeral(i + 1) + CastText(castOf(columns[i]))
  }

  /** Row `r` of the VALUES list: cell `c` is `$(r*width + c + 1)` with column `c`'s cast. */
  function PostgresRow(columns: seq<string>, r: nat, castOf: string -> Option<Cast>): seq<string> {
    seq(|columns|, c requires 0 <= c < |columns| => CellText(|columns|, r, c, castOf(columns[c])))
  }

  /** `split_once("::")`: the text after the first `::`. */
  function AfterColons(s: string): Option<string> {
    if |s| < 2 then None else if s[..2] == "::" then Some(s[2..]) else AfterColons(s[1..])
  }

  lemma {:induction false} ColonsAfterPlain(plain: string, rest: string)
    requires ':' !in plain && (rest == "" || (|rest| >= 2 && rest[..2] == "::"))
    ensures AfterColons(plain + rest) == if rest == "" then None else Some(rest[2..])
  {
    var s := plain + rest;
    if plain == "" {
      assert s == rest;
    } else {
      assert s[0] == plain[0] && s[1..] == plain[1..] + rest;
      ColonsAfterPlain(plain[1..], rest);
      if |s| >= 2 {
        assert s[..2][0] != ':';
      }
    }
  }

  /** The template's cast, put on the placeholder with another number. */
  function Renumber(template: string, number: nat): string {
    var cast := AfterColons(template);
    if cast.Some? then "$" + Numeral(number) + "::" + cast.value else "$" + Numeral(number)
  }

  lemma RenumberKeepsCast(n: nat, index: nat, cast: Option<Cast>)
    ensures Renumber("$" + Numeral(n) + CastText(cast), index + 1) == Render(index, cast)
  {
    assert ':' !in "$" + Numeral(n);
    assert cast.Some? ==> CastText(cast) == "::" + CastText(cast)[2..];
    ColonsAfterPlain("$" + Numeral(n), CastText(cast));
    Associative("$", Numeral(index + 1), CastText(cast));
  }

  lemma RenumberTemplate(columns: seq<string>, i: nat, index: nat, castOf: string -> Option<Cast>)
    requires i < |columns|
    ensures Renumber(Template(columns, i, castOf), index + 1) == Render(index, castOf(columns[i]))
  {
    RenumberKeepsCast(i + 1, index, castOf(columns[i]));
  }

  /** One pass of the row loop. */
  method RowParts(
    columns: seq<string>, placeholders: seq<string>, r: nat, startIdx: nat, castOf: string -> Option<Cast>)
    returns (rowParts: seq<string>)
    requires startIdx == Times(|columns|, r) + 1 && |placeholders| == |columns|
    requires forall i :: 0 <= i < |columns| ==> placeholders[i] == Template(columns, i, castOf)
    ensures rowParts == PostgresRow(columns, r, castOf)
  {
    rowParts := [];
    for localI := 0 to |placeholders|
      invariant rowParts == PostgresRow(columns, r, castOf)[..localI]
    {
      RenumberTemplate(columns, localI, startIdx - 1 + localI, castOf);
      assert PostgresRow(columns, r, castOf)[localI] == Render(startIdx - 1 + localI, castOf(columns[localI]));
      var expr := Renumber(placeholders[localI], startIdx + localI);
      rowParts := rowParts + [expr];
    }
  }

  method PostgresValues(columns: seq<string>, rowCount: nat, castOf: string -> Option<Cast>)
    returns (parts: seq<seq<string>>)
    ensures |parts| == rowCount
    ensures forall r :: 0 <= r < rowCount ==> parts[r] == PostgresRow(columns, r, castOf)
  {
    var placeholders: seq<string> := [];
    for idx := 0 to |columns|
      invariant |placeholders| == idx
      invariant forall i :: 0 <= i < idx ==> placeholders[i] == Template(columns, i, castOf)
    {
      placeholders := placeholders + [Template(columns, idx, castOf)];
    }
    parts := [];
    var startIdx := 1;
    for r := 0 to rowCount
      invariant startIdx == Times(|columns|, r) + 1 && |parts| == r
      invariant forall k :: 0 <= k < r ==> parts[k] == PostgresRow(columns, k, castOf)
    {
      var rowParts := RowParts(columns, placeholders, r, startIdx, castOf);
      startIdx := startIdx + |columns|;
      parts := parts + [rowParts];
    }
  }

  method Flatten(rows: seq<seq<SqlValue>>) returns (flat: seq<SqlValue>)
    ensures flat == Concat(rows)
  {
    flat := [];
    for r := 0 to |rows|
      invariant flat == Concat(rows[..r])
    {
      ConcatAppend(rows[..r], rows[r]);
      assert rows[..r] + [rows[r]] == rows[..r + 1];
      for c := 0 to |rows[r]|
        invariant flat == Concat(rows[..r]) + rows[r][..c]
      {
        flat := flat + [rows[r][c]];
      }
    }
    assert rows[..|rows|] == rows;
  }

  // ---- reading the statement back ----

  /** The parameter a cell's text names; 0 when it names none. */
  function CellParam(text: string): nat {
    var tokens := ReadNumbered(text, Outside);
    if tokens != [] && tokens[0].Param? then tokens[0].index else 0
  }

  function CountCells(parts: seq<seq<string>>): nat {
    if parts == [] then 0 else |parts[0]| + CountCells(parts[1..])
  }

  /** What PostgreSQL takes from the binds for a cell: its parameter, converted by its cast if it has one. */
  function CellValue(e: Engine, text: string, binds: seq<SqlValue>): SqlValue
    requires 1 <= CellParam(text) <= |binds|
  {
    Converted(e, AfterColons(text), binds[CellParam(text) - 1])
  }

  /** A VALUES list runs only with one bind per cell, each cell naming one of them. */
  predicate Readable(parts: seq<seq<string>>, binds: seq<SqlValue>) {
    |binds| == CountCells(parts) &&
    forall r, c :: 0 <= r < |parts| && 0 <= c < |parts[r]| ==> 1 <= CellParam(parts[r][c]) <= |binds|
  }

  /** The rows the statement inserts. */
  function Inserted(e: Engine, parts: seq<seq<string>>, binds: seq<SqlValue>): Result<seq<seq<SqlValue>>, SqlError> {
    if CountCells(parts) > e.limit then Err(TooManyParameters)
    else if !Readable(parts, binds) then Err(ParameterMismatch)
    else Ok(seq(|parts|, r requires 0 <= r < |parts| =>
           seq(|parts[r]|, c requires 0 <= c < |parts[r]| => CellValue(e, parts[r][c], binds))))
  }

  lemma CellParamIs(index: nat, cast: Option<Cast>)
    ensures CellParam(Render(index, cast)) == index + 1
  {
    var text := CastText(cast);
    CastIsPlain(cast);
    ReadCast(index + 1, text, "");
    assert text + "" == text;
  }

  predicate Rectangular(rows: seq<seq<SqlValue>>, width: nat) {
    forall r :: 0 <= r < |rows| ==> |rows[r]| == width
  }

  lemma {:induction false} FlatLength(rows: seq<seq<SqlValue>>, width: nat, k: nat)
    requires Rectangular(rows, width) && k <= |rows|
    ensures |Concat(rows[..k])| == Times(width, k)
  {
    if k == 0 {
    } else {
      FlatLength(rows, width, k - 1);
      assert rows[..k] == rows[..k - 1] + [rows[k - 1]];
      ConcatAppend(rows[..k - 1], rows[k - 1]);
    }
  }

  lemma {:induction false} FlatCell(rows: seq<seq<SqlValue>>, width: nat, k: nat, r: nat, c: nat)
    requires Rectangular(rows, width) && r < k <= |rows| && c < width
    ensures Times(width, r) + c < |Concat(rows[..k])| && Concat(rows[..k])[Times(width, r) + c] == rows[r][c]
  {
    FlatLength(rows, width, k - 1);
    assert rows[..k] == rows[..k - 1] + [rows[k - 1]];
    ConcatAppend(rows[..k - 1], rows[k - 1]);
    if r < k - 1 {
      FlatCell(rows, width, k - 1, r, c);
    }
  }

  lemma {:induction false} CountUniform(parts: seq<seq<string>>, width: nat)
    requires forall r :: 0 <= r < |parts| ==> |parts[r]| == width
    ensures CountCells(parts) == Times(width, |parts|)
  {
    if parts == [] {
    } else {
      CountUniform(parts[1..], width);
    }
  }

  /** The name of a cast, as its text has it after the colons. */
  function CastName(cast: Option<Cast>): Option<string> {
    AfterColons(CastText(cast))
  }

  /** What the database makes of a value in column `c`. */
  function Stored(e: Engine, columns: seq<string>, castOf: string -> Option<Cast>, c: nat, v: SqlValue): SqlValue {
    if c < |columns| then Converted(e, CastName(castOf(columns[c])), v) else v
  }

  function StoredRows(
    e: Engine, columns: seq<string>, castOf: string -> Option<Cast>, rows: seq<seq<SqlValue>>)
    : seq<seq<SqlValue>>
  {
    seq(|rows|, r requires 0 <= r < |rows| =>
      seq(|rows[r]|, c requires 0 <= c < |rows[r]| => Stored(e, columns, castOf, c, rows[r][c])))
  }

  /** The casts leave every value as it is. */
  ghost predicate CastsKeep(
    e: Engine, columns: seq<string>, castOf: string -> Option<Cast>, rows: seq<seq<SqlValue>>)
  {
    forall r, c :: 0 <= r < |rows| && 0 <= c < |rows[r]| ==> Stored(e, columns, castOf, c, rows[r][c]) == rows[r][c]
  }

  lemma DecodesCell(
    e: Engine, columns: seq<string>, rows: seq<seq<SqlValue>>, castOf: string -> Option<Cast>, r: nat, c: nat)
    requires Rectangular(rows, |columns|) && r < |rows| && c < |columns|
    ensures var text := PostgresRow(columns, r, castOf)[c];
            1 <= CellParam(text) <= |Concat(rows)| &&
            CellValue(e, text, Concat(rows)) == Stored(e, columns, castOf, c, rows[r][c])
  {
    FlatHas(rows, |columns|, r, c);
    PostgresCellParam(columns, r, castOf, c);
    CellCast(Times(|columns|, r) + c, castOf(columns[c]));
    assert PostgresRow(columns, r, castOf)[c] == Render(Times(|columns|, r) + c, castOf(columns[c]));
  }

  /** A cell's cast is read back from its text. */
  lemma CellCast(index: nat, cast: Option<Cast>)
    ensures AfterColons(Render(index, cast)) == CastName(cast)
  {
    assert ':' !in "$" + Numeral(index + 1);
    assert cast.Some? ==> CastText(cast) == "::" + CastText(cast)[2..];
    ColonsAfterPlain("$" + Numeral(index + 1), CastText(cast));
    ColonsAfterPlain("", CastText(cast));
    assert "" + CastText(cast) == CastText(cast);
    Associative("$", Numeral(index + 1), CastText(cast));
  }

  /** Rows of the right width, all bound, in a list that the database takes: it stores them. */
  lemma InsertsRows(
    e: Engine, columns: seq<string>, rows: seq<seq<SqlValue>>, castOf: string -> Option<Cast>,
    parts: seq<seq<string>>)
    requires |parts| == |rows| && forall r :: 0 <= r < |rows| ==> parts[r] == PostgresRow(columns, r, castOf)
    requires Rectangular(rows, |columns|)
    ensures |Concat(rows)| == CountCells(parts) == Times(|columns|, |rows|)
    ensures Inserted(e, parts, Concat(rows)) ==
            if CountCells(parts) > e.limit then Err(TooManyParameters)
            else Ok(StoredRows(e, columns, castOf, rows))
  {
    var width, binds := |columns|, Concat(rows);
    CountUniform(parts, width);
    FlatLength(rows, width, |rows|);
    assert rows[..|rows|] == rows;
    forall r, c | 0 <= r < |rows| && 0 <= c < width
      ensures 1 <= CellParam(parts[r][c]) <= |binds|
      ensures CellValue(e, parts[r][c], binds) == Stored(e, columns, castOf, c, rows[r][c])
    {
      DecodesCell(e, columns, rows, castOf, r, c);
      assert parts[r][c] == PostgresRow(columns, r, castOf)[c];
    }
    DecodesCells(e, parts, binds, StoredRows(e, columns, castOf, rows), width);
  }

  lemma DecodesCells(
    e: Engine, parts: seq<seq<string>>, binds: seq<SqlValue>, rows: seq<seq<SqlValue>>, width: nat)
    requires |parts| == |rows| && Rectangular(rows, width) && |binds| == CountCells(parts)
    requires forall r :: 0 <= r < |parts| ==> |parts[r]| == width
    requires forall r, c :: 0 <= r < |rows| && 0 <= c < width ==>
             1 <= CellParam(parts[r][c]) <= |binds| && CellValue(e, parts[r][c], binds) == rows[r][c]
    ensures Inserted(e, parts, binds) == if CountCells(parts) > e.limit then Err(TooManyParameters) else Ok(rows)
  {
    assert Readable(parts, binds);
    if CountCells(parts) <= e.limit {
      SameRows(Inserted(e, parts, binds).value, rows, width);
    }
  }

  lemma FlatHas(rows: seq<seq<SqlValue>>, width: nat, r: nat, c: nat)
    requires Rectangular(rows, width) && r < |rows| && c < width
    ensures Times(width, r) + c < |Concat(rows)| && Concat(rows)[Times(width, r) + c] == rows[r][c]
  {
    FlatCell(rows, width, |rows|, r, c);
    assert rows[..|rows|] == rows;
  }

  lemma SameRows(a: seq<seq<SqlValue>>, b: seq<seq<SqlValue>>, width: nat)
    requires |a| == |b| && Rectangular(a, width) && Rectangular(b, width)
    requires forall r, c :: 0 <= r < |a| && 0 <= c < width ==> a[r][c] == b[r][c]
    ensures a == b
  {
    forall r | 0 <= r < |a|
      ensures a[r] == b[r]
    {
    }
  }

  lemma SameStored(e: Engine, columns: seq<string>, castOf: string -> Option<Cast>, rows: seq<seq<SqlValue>>)
    ensures StoredRows(e, columns, castOf, rows) == rows <==> CastsKeep(e, columns, castOf, rows)
  {
    var stored := StoredRows(e, columns, castOf, rows);
    if CastsKeep(e, columns, castOf, rows) {
      forall r | 0 <= r < |rows|
        ensures stored[r] == rows[r]
      {
      }
    } else {
      var r, c :| 0 <= r < |rows| && 0 <= c < |rows[r]| && Stored(e, columns, castOf, c, rows[r][c]) != rows[r][c];
      assert stored[r][c] != rows[r][c];
    }
  }

  /** Rows of other widths: nothing that has their widths is stored. */
  lemma RaggedRefused(
    e: Engine, columns: seq<string>, rows: seq<seq<SqlValue>>, castOf: string -> Option<Cast>,
    parts: seq<seq<string>>, binds: seq<SqlValue>)
    requires |parts| == |rows| && forall r :: 0 <= r < |parts| ==> |parts[r]| == |columns|
    requires !Rectangular(rows, |columns|)
    ensures Inserted(e, parts, binds) != Ok(rows)
    ensures Inserted(e, parts, binds) != Ok(StoredRows(e, columns, castOf, rows))
  {
    var r :| 0 <= r < |rows| && |rows[r]| != |columns|;
    var stored, inserted := StoredRows(e, columns, castOf, rows), Inserted(e, parts, binds);
    assert |stored[r]| == |rows[r]|;
    assert inserted.Ok? ==> |inserted.value[r]| == |columns|;
  }

  /** What the list stores is what `rows` stands for, or it is refused. */
  lemma InsertsOrRefuses(
    e: Engine, columns: seq<string>, rows: seq<seq<SqlValue>>, castOf: string -> Option<Cast>,
    parts: seq<seq<string>>)
    requires |parts| == |rows| && forall r :: 0 <= r < |rows| ==> parts[r] == PostgresRow(columns, r, castOf)
    requires Rectangular(rows, |columns|)
    ensures var inserted := Inserted(e, parts, Bound(Concat(rows)));
            if Bindable(Concat(rows)) && Times(|columns|, |rows|) <= e.limit
            then inserted == Ok(StoredRows(e, columns, castOf, rows)) else inserted.Err?
  {
    var binds := Concat(rows);
    BoundAll(binds);
    InsertsRows(e, columns, rows, castOf, parts);
    assert !Bindable(binds) ==> |Bound(binds)| != CountCells(parts);
  }

  /** The emitted list with the values the driver binds stores the given rows, as their columns' casts
      convert them, if and only if every row has as many values as there are columns, none of them is a
      List and there are no more of them than the database takes parameters. They come back unchanged
      if and only if, besides, the casts leave them as they are. */
  lemma InsertRoundTrip(
    e: Engine, columns: seq<string>, rows: seq<seq<SqlValue>>, castOf: string -> Option<Cast>,
    parts: seq<seq<string>>)
    requires |parts| == |rows| && forall r :: 0 <= r < |rows| ==> parts[r] == PostgresRow(columns, r, castOf)
    ensures var inserted := Inserted(e, parts, Bound(Concat(rows)));
            var accepted := Rectangular(rows, |columns|) && Bindable(Concat(rows)) && |columns| * |rows| <= e.limit;
            (inserted == Ok(StoredRows(e, columns, castOf, rows)) <==> accepted) &&
            (inserted == Ok(rows) <==> accepted && CastsKeep(e, columns, castOf, rows))
  {
    TimesIs(|columns|, |rows|);
    SameStored(e, columns, castOf, rows);
    if Rectangular(rows, |columns|) {
      InsertsOrRefuses(e, columns, rows, castOf, parts);
    } else {
      RaggedRefused(e, columns, rows, castOf, parts, Bound(Concat(rows)));
    }
  }

  /** The cell's parameter, its cast and its bind, by arithmetic on row and column. */
  lemma CellArithmetic(
    columns: seq<string>, rows: seq<seq<SqlValue>>, castOf: string -> Option<Cast>, r: nat, c: nat)
    requires Rectangular(rows, |columns|) && r < |rows| && c < |columns|
    ensures PostgresRow(columns, r, castOf)[c] == Render(r * |columns| + c, castOf(columns[c]))
    ensures r * |columns| + c < |Concat(rows)| && Concat(rows)[r * |columns| + c] == rows[r][c]
  {
    TimesIs(|columns|, r);
    FlatHas(rows, |columns|, r, c);
  }

  // ---- the MySQL form ----

  /** The cast every row's cell gets, chosen by the first row's value. */
  function MySqlCast(first: Option<SqlValue>): Option<Cast> {
    match first
    case Some(Date(_)) => Some(DateCast)
    case Some(DateTime(_)) => Some(TimestampCast)
    case Some(Time(_)) => Some(TimeCast)
    case Some(Text(s)) => if IsDate(s) then Some(DateCast) else if IsTimestamp(s) then Some(TimestampCast) else None
    case _ => None
  }

  function SqlTypeName(cast: Option<Cast>): string {
    match cast
    case Some(DateCast) => "DATE"
    case Some(TimestampCast) => "TIMESTAMP"
    case Some(TimeCast) => "TIME"
    case _ => ""
  }

  function MySqlText(typeName: string): string {
    if typeName == "" then "?" else "CAST(" + ("?" + (" AS " + typeName + ")"))
  }

  function MySqlCell(first: Option<SqlValue>): string {
    MySqlText(SqlTypeName(MySqlCast(first)))
  }

  function FirstCell(rows: seq<seq<SqlValue>>, c: nat): Option<SqlValue> {
    if rows != [] && c < |rows[0]| then Some(rows[0][c]) else None
  }

  predicate MySqlParts(columns: seq<string>, rows: seq<seq<SqlValue>>, parts: seq<seq<string>>) {
    |parts| == |rows| && (forall r :: 0 <= r < |rows| ==> |parts[r]| == |columns|) &&
    forall r, c :: 0 <= r < |rows| && 0 <= c < |columns| ==> parts[r][c] == MySqlCell(FirstCell(rows, c))
  }

  /** The text of every row's cell by the first row's value: a date is cast to DATE, a timestamp to
      TIMESTAMP, a time to TIME, and nothing else is cast. */
  lemma MySqlCellText(columns: seq<string>, rows: seq<seq<SqlValue>>, parts: seq<seq<string>>, r: nat, c: nat)
    requires MySqlParts(columns, rows, parts) && r < |rows| && c < |columns|
    ensures c >= |rows[0]| ==> parts[r][c] == "?"
    ensures c < |rows[0]| ==>
            var text, v := parts[r][c], rows[0][c];
            var dateText := v.Text? && |v.s| == 10 && v.s[4] == '-' && v.s[7] == '-';
            var timestampText := v.Text? && !dateText && ' ' in v.s && '-' in v.s && ':' in v.s;
            text == if v.Date? || dateText then "CAST(? AS DATE)"
                    else if v.DateTime? || timestampText then "CAST(? AS TIMESTAMP)"
                    else if v.Time? then "CAST(? AS TIME)"
                    else "?"
  {
    assert parts[r][c] == MySqlText(SqlTypeName(MySqlCast(FirstCell(rows, c))));
  }

  method MySqlValues(columns: seq<string>, rows: seq<seq<SqlValue>>) returns (parts: seq<seq<string>>)
    ensures MySqlParts(columns, rows, parts)
  {
    var placeholders: seq<string> := [];
    for idx := 0 to |columns|
      invariant |placeholders| == idx
      invariant forall c :: 0 <= c < idx ==> placeholders[c] == MySqlCell(FirstCell(rows, c))
    {
      placeholders := placeholders + [MySqlCell(FirstCell(rows, idx))];
    }
    parts := seq(|rows|, r => placeholders);
  }

  function MarksInRow(cells: seq<string>): nat {
    if cells == [] then 0 else CountMarks(cells[0]) + MarksInRow(cells[1..])
  }

  function MarksInRows(parts: seq<seq<string>>): nat {
    if parts == [] then 0 else MarksInRow(parts[0]) + MarksInRows(parts[1..])
  }

  lemma {:induction false} OneMarkPerCell(cells: seq<string>)
    requires forall c :: 0 <= c < |cells| ==> CountMarks(cells[c]) == 1
    ensures MarksInRow(cells) == |cells|
  {
    if cells == [] {
    } else {
      OneMarkPerCell(cells[1..]);
    }
  }

  lemma {:induction false} MarksUniform(parts: seq<seq<string>>, width: nat)
    requires forall r :: 0 <= r < |parts| ==> MarksInRow(parts[r]) == width
    ensures MarksInRows(parts) == Times(width, |parts|)
  {
    if parts == [] {
    } else {
      MarksUniform(parts[1..], width);
    }
  }

  lemma WrappedMark(tail: string)
    requires '?' !in tail
    ensures CountMarks("CAST(" + ("?" + tail)) == 1
  {
    NormalizedUnmarked("CAST(", i => None, 0);
    NormalizedUnmarked(tail, i => None, 0);
    MarksConcat("CAST(", "?" + tail);
    assert ("?" + tail)[1..] == tail;
  }

  lemma MySqlCellMark(first: Option<SqlValue>)
    ensures CountMarks(MySqlCell(first)) == 1
  {
    var name := SqlTypeName(MySqlCast(first));
    if name == "" {
      assert "?"[1..] == "";
    } else {
      assert '?' !in name;
      WrappedMark(" AS " + name + ")");
    }
  }

  lemma PostgresCellParam(columns: seq<string>, r: nat, castOf: string -> Option<Cast>, c: nat)
    requires c < |columns|
    ensures CellParam(PostgresRow(columns, r, castOf)[c]) == Times(|columns|, r) + c + 1
  {
    var at, cast := Times(|columns|, r) + c, castOf(columns[c]);
    CellParamIs(at, cast);
    assert PostgresRow(columns, r, castOf)[c] == Render(at, cast);
  }

  lemma MarksBefore(parts: seq<seq<string>>, width: nat, r: nat, c: nat)
    requires r < |parts| && c < width && forall k :: 0 <= k < |parts| ==> |parts[k]| == width
    requires forall k, j :: 0 <= k < |parts| && 0 <= j < width ==> CountMarks(parts[k][j]) == 1
    ensures MarksInRows(parts[..r]) + MarksInRow(parts[r][..c]) == Times(width, r) + c
  {
    forall k | 0 <= k < r
      ensures MarksInRow(parts[..r][k]) == width
    {
      OneMarkPerCell(parts[k]);
    }
    OneMarkPerCell(parts[r][..c]);
    MarksUniform(parts[..r], width);
  }

  lemma OneMarkEach(columns: seq<string>, rows: seq<seq<SqlValue>>, parts: seq<seq<string>>)
    requires MySqlParts(columns, rows, parts)
    ensures forall k, j :: 0 <= k < |rows| && 0 <= j < |columns| ==> CountMarks(parts[k][j]) == 1
  {
    forall k, j | 0 <= k < |rows| && 0 <= j < |columns|
      ensures CountMarks(parts[k][j]) == 1
    {
      MySqlCellMark(FirstCell(rows, j));
    }
  }

  /** Read left to right, the `?` of cell (r, c) is preceded by as many others as the PostgreSQL cell
      has lower-numbered parameters, so both back ends bind the cell to the same value. */
  lemma MySqlCellsAgree(columns: seq<string>, rows: seq<seq<SqlValue>>, castOf: string -> Option<Cast>,
                        parts: seq<seq<string>>, r: nat, c: nat)
    requires MySqlParts(columns, rows, parts) && r < |rows| && c < |columns|
    ensures CountMarks(parts[r][c]) == 1
    ensures MarksInRows(parts[..r]) + MarksInRow(parts[r][..c]) + 1 == CellParam(PostgresRow(columns, r, castOf)[c])
  {
    OneMarkEach(columns, rows, parts);
    MarksBefore(parts, |columns|, r, c);
    PostgresCellParam(columns, r, castOf, c);
  }

  // ---- what MySQL stores ----

  /** The type that a cell's text casts its bind to. */
  function CastIn(text: string): Option<string> {
    if |text| > 10 && text[..10] == "CAST(? AS " then Some(text[10..|text| - 1]) else None
  }

  /** The bind a cell takes: the `?` are numbered through the list. */
  function BindAt(parts: seq<seq<string>>, r: nat, c: nat): nat
    requires r < |parts| && c < |parts[r]|
  {
    MarksInRows(parts[..r]) + MarksInRow(parts[r][..c])
  }

  predicate ReadableMarks(parts: seq<seq<string>>, binds: seq<SqlValue>) {
    |binds| == MarksInRows(parts) &&
    forall r, c :: 0 <= r < |parts| && 0 <= c < |parts[r]| ==> BindAt(parts, r, c) < |binds|
  }

  function InsertedMySql(e: Engine, parts: seq<seq<string>>, binds: seq<SqlValue>)
    : Result<seq<seq<SqlValue>>, SqlError>
  {
    if MarksInRows(parts) > e.limit then Err(TooManyParameters)
    else if !ReadableMarks(parts, binds) then Err(ParameterMismatch)
    else Ok(seq(|parts|, r requires 0 <= r < |parts| =>
           seq(|parts[r]|, c requires 0 <= c < |parts[r]| =>
             Converted(e, CastIn(parts[r][c]), binds[BindAt(parts, r, c)]))))
  }

  /** The type that the first row's value makes every row's value in its column be cast to. */
  function ColumnType(rows: seq<seq<SqlValue>>, c: nat): Option<string> {
    var name := SqlTypeName(MySqlCast(FirstCell(rows, c)));
    if name == "" then None else Some(name)
  }

  /** Every value of a column is left as it is by the cast that the first row's value chose. */
  ghost predicate FirstRowsCastsKeep(e: Engine, rows: seq<seq<SqlValue>>) {
    forall r, c :: 0 <= r < |rows| && 0 <= c < |rows[r]| ==>
      Converted(e, ColumnType(rows, c), rows[r][c]) == rows[r][c]
  }

  lemma CastInCell(name: string)
    ensures CastIn(MySqlText(name)) == if name == "" then None else Some(name)
  {
    if name != "" {
      var text := MySqlText(name);
      assert text == "CAST(? AS " + (name + ")");
      assert text[..10] == "CAST(? AS " && text[10..|text| - 1] == name;
    }
  }

  lemma MySqlStoresCell(
    e: Engine, columns: seq<string>, rows: seq<seq<SqlValue>>, parts: seq<seq<string>>, r: nat, c: nat)
    requires MySqlParts(columns, rows, parts) && Rectangular(rows, |columns|) && r < |rows| && c < |columns|
    ensures BindAt(parts, r, c) < |Concat(rows)|
    ensures Converted(e, CastIn(parts[r][c]), Concat(rows)[BindAt(parts, r, c)]) ==
            Converted(e, ColumnType(rows, c), rows[r][c])
  {
    OneMarkEach(columns, rows, parts);
    MarksBefore(parts, |columns|, r, c);
    FlatHas(rows, |columns|, r, c);
    CastInCell(SqlTypeName(MySqlCast(FirstCell(rows, c))));
    assert CastIn(parts[r][c]) == ColumnType(rows, c);
  }

  lemma MySqlStores(e: Engine, columns: seq<string>, rows: seq<seq<SqlValue>>, parts: seq<seq<string>>)
    requires MySqlParts(columns, rows, parts) && Rectangular(rows, |columns|)
    ensures |Concat(rows)| == MarksInRows(parts) == Times(|columns|, |rows|)
    ensures var inserted := InsertedMySql(e, parts, Concat(rows));
            if Times(|columns|, |rows|) > e.limit then inserted.Err?
            else inserted == Ok(rows) <==> FirstRowsCastsKeep(e, rows)
  {
    OneMarkEach(columns, rows, parts);
    forall k | 0 <= k < |parts|
      ensures MarksInRow(parts[k]) == |columns|
    {
      OneMarkPerCell(parts[k]);
    }
    MarksUniform(parts, |columns|);
    FlatLength(rows, |columns|, |rows|);
    assert rows[..|rows|] == rows;
    forall r, c | 0 <= r < |rows| && 0 <= c < |columns|
      ensures BindAt(parts, r, c) < |Concat(rows)|
      ensures Converted(e, CastIn(parts[r][c]), Concat(rows)[BindAt(parts, r, c)]) ==
              Converted(e, ColumnType(rows, c), rows[r][c])
    {
      MySqlStoresCell(e, columns, rows, parts, r, c);
    }
    MySqlSameRows(e, rows, parts, Concat(rows), |columns|);
  }

  lemma MySqlSameRows(
    e: Engine, rows: seq<seq<SqlValue>>, parts: seq<seq<string>>, binds: seq<SqlValue>, width: nat)
    requires |parts| == |rows| && Rectangular(rows, width) && |binds| == MarksInRows(parts)
    requires forall r :: 0 <= r < |parts| ==> |parts[r]| == width
    requires forall r, c :: 0 <= r < |rows| && 0 <= c < width ==>
             BindAt(parts, r, c) < |binds| &&
             Converted(e, CastIn(parts[r][c]), binds[BindAt(parts, r, c)]) ==
             Converted(e, ColumnType(rows, c), rows[r][c])
    ensures var inserted := InsertedMySql(e, parts, binds);
            if |binds| > e.limit then inserted.Err? else inserted == Ok(rows) <==> FirstRowsCastsKeep(e, rows)
  {
    if |binds| <= e.limit {
      var stored := InsertedMySql(e, parts, binds).value;
      if FirstRowsCastsKeep(e, rows) {
        SameRows(stored, rows, width);
      } else {
        var r, c :| 0 <= r < |rows| && 0 <= c < |rows[r]| &&
          Converted(e, ColumnType(rows, c), rows[r][c]) != rows[r][c];
        assert stored[r][c] != rows[r][c];
      }
    }
  }

  /** On MySQL the rows come back unchanged exactly when every row has as many values as there are
      columns, none of them is a List, there are no more of them than the database takes parameters, and
      each column's values are left as they are by the cast that the first row's value chose for all. */
  lemma MySqlRoundTrip(e: Engine, columns: seq<string>, rows: seq<seq<SqlValue>>, parts: seq<seq<string>>)
    requires MySqlParts(columns, rows, parts)
    ensures InsertedMySql(e, parts, Bound(Concat(rows))) == Ok(rows) <==>
            Rectangular(rows, |columns|) && Bindable(Concat(rows)) && |columns| * |rows| <= e.limit &&
            FirstRowsCastsKeep(e, rows)
  {
    BoundAll(Concat(rows));
    TimesIs(|columns|, |rows|);
    if Rectangular(rows, |columns|) {
      MySqlStores(e, columns, rows, parts);
    } else {
      var r :| 0 <= r < |rows| && |rows[r]| != |columns|;
      var inserted := InsertedMySql(e, parts, Bound(Concat(rows)));
      assert inserted.Ok? ==> |inserted.value[r]| == |columns|;
    }
  }
}
