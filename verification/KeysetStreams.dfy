/** Keyset pagination: the Python generator (ryx/queryset.py) over a table that may change between
    fetches. */
module KeysetStreams {
  import opened Prelude
  import opened Streams

  /** A row of the query's result: its keyset value and the rest. */
  datatype Row<T> = Row(key: int, rest: T)

  // ---- keyset mode, while the table changes ----

  /** `WHERE keyset > last`; no condition on the first fetch. */
  function Above<T>(rows: seq<Row<T>>, last: Option<int>): seq<Row<T>> {
    if rows == [] then []
    else if last.None? || rows[0].key > last.value then [rows[0]] + Above(rows[1..], last)
    else Above(rows[1..], last)
  }

  /** The stream of a query from a point on, when fetch number i meets the table `snapshots[i]`. Each
      fetch has the chunk for its limit and keeps the query's own offset. */
  function Keyset<T>(snapshots: seq<seq<Row<T>>>, own: Slice, last: Option<int>, chunk: nat): Outcome<Row<T>> {
    if snapshots == [] then Outcome([], 0, false)
    else
      var batch := Fetch(Above(snapshots[0], last), Limited(own, chunk));
      if batch == [] || |batch| < chunk then Outcome(batch, 1, true)
      else
        After(batch, 1, Keyset(snapshots[1..], own, Some(batch[|batch| - 1].key), chunk))
  }

  /** Yielding a batch, keeping the last keyset value. */
  method YieldBatch<T>(seen: seq<Row<T>>, batch: seq<Row<T>>) returns (rows: seq<Row<T>>, last: Option<int>)
    requires batch != []
    ensures rows == seen + batch && last == Some(batch[|batch| - 1].key)
  {
    rows, last := seen, None;
    for i := 0 to |batch|
      invariant rows == seen + batch[..i] && (i > 0 ==> last == Some(batch[i - 1].key))
    {
      rows := rows + [batch[i]];
      last := Some(batch[i].key);
    }
  }

  method StreamKeyset<T>(snapshots: seq<seq<Row<T>>>, own: Slice, chunk: nat) returns (out: Outcome<Row<T>>)
    ensures out == Keyset(snapshots, own, None, chunk)
  {
    var rows: seq<Row<T>> := [];
    var last: Option<int> := None;
    var fetches := 0;
    while fetches < |snapshots|
      invariant fetches <= |snapshots|
      invariant Keyset(snapshots, own, None, chunk) ==
        After(rows, fetches, Keyset(snapshots[fetches..], own, last, chunk))
    {
      var batch := Fetch(Above(snapshots[fetches], last), Limited(own, chunk));
      assert snapshots[fetches..][1..] == snapshots[fetches + 1..];
      fetches := fetches + 1;
      if batch == [] {
        return Outcome(rows, fetches, true);
      }
      ghost var seen := rows;
      rows, last := YieldBatch(rows, batch);
      if |batch| < chunk {
        return Outcome(rows, fetches, true);
      }
      Associative(seen, batch, Keyset(snapshots[fetches..], own, last, chunk).rows);
    }
    out := Outcome(rows, fetches, false);
  }

  /** The query is ordered ascending by a unique keyset. */
  predicate Ordered<T>(rows: seq<Row<T>>) {
    |rows| <= 1 || (rows[0].key < rows[1].key && Ordered(rows[1..]))
  }

  predicate HasKey<T>(rows: seq<Row<T>>, k: int) {
    rows != [] && (rows[0].key == k || HasKey(rows[1..], k))
  }

  lemma {:induction false} OrderedRises<T>(rows: seq<Row<T>>, i: nat, j: nat)
    requires Ordered(rows) && i < j < |rows|
    ensures rows[i].key < rows[j].key
  {
    if i > 0 {
      OrderedRises(rows[1..], i - 1, j - 1);
    } else if j > 1 {
      OrderedRises(rows[1..], 0, j - 1);
    }
  }

  lemma {:induction false} HasKeyConcat<T>(a: seq<Row<T>>, b: seq<Row<T>>, k: int)
    ensures HasKey(a + b, k) <==> HasKey(a, k) || HasKey(b, k)
  {
    if a == [] {
      assert a + b == b;
    } else {
      assert (a + b)[1..] == a[1..] + b;
      HasKeyConcat(a[1..], b, k);
    }
  }

  lemma {:induction false} AboveSpec<T>(rows: seq<Row<T>>, last: Option<int>)
    ensures forall r :: r in Above(rows, last) ==> r in rows && (last.Some? ==> r.key > last.value)
    ensures last.None? ==> Above(rows, last) == rows
    ensures Ordered(rows) ==> Ordered(Above(rows, last))
    ensures Ordered(rows) && rows != [] && last.Some? && rows[0].key > last.value ==> Above(rows, last) == rows
  {
    if rows == [] {
    } else {
      AboveSpec(rows[1..], last);
      assert rows == [rows[0]] + rows[1..];
    }
  }

  lemma {:induction false} AboveHasKey<T>(rows: seq<Row<T>>, last: Option<int>, k: int)
    requires HasKey(rows, k) && (last.Some? ==> k > last.value)
    ensures HasKey(Above(rows, last), k)
  {
    if rows[0].key != k {
      AboveHasKey(rows[1..], last, k);
    }
  }

  lemma {:induction false} OrderedTake<T>(rows: seq<Row<T>>, n: nat, k: int)
    requires Ordered(rows)
    ensures Ordered(Take(rows, n))
    ensures 0 < n <= |rows| && HasKey(rows, k) && k <= rows[n - 1].key ==> HasKey(Take(rows, n), k)
    decreases |rows|
  {
    if 0 < n <= |rows| {
      assert rows[..n][1..] == rows[1..][..n - 1];
      if n > 1 {
        OrderedTake(rows[1..], n - 1, k);
        assert rows[1..][n - 2] == rows[n - 1];
      } else if HasKey(rows[1..], k) {
        KeyAtLeast(rows[1..], k);
      }
    }
  }

  lemma {:induction false} KeyAtLeast<T>(rows: seq<Row<T>>, k: int)
    requires Ordered(rows) && HasKey(rows, k)
    ensures rows[0].key <= k
  {
    if rows[0].key != k {
      KeyAtLeast(rows[1..], k);
    }
  }

  lemma {:induction false} OrderedConcat<T>(a: seq<Row<T>>, b: seq<Row<T>>)
    requires Ordered(a) && Ordered(b) && (a != [] && b != [] ==> a[|a| - 1].key < b[0].key)
    ensures Ordered(a + b)
  {
    if a == [] {
      assert a + b == b;
    } else {
      assert (a + b)[1..] == a[1..] + b;
      OrderedConcat(a[1..], b);
    }
  }

  lemma {:induction false} OrderedDrop<T>(rows: seq<Row<T>>, n: nat)
    requires Ordered(rows)
    ensures Ordered(Drop(rows, n))
  {
    if 0 < n <= |rows| {
      OrderedDrop(rows[1..], n - 1);
      assert rows[1..][n - 1..] == rows[n..];
    }
  }

  /** Whatever happens to the table between fetches, the keys delivered rise strictly, so no row comes
      twice. */
  lemma {:induction false} KeysetNeverRepeats<T>(
    snapshots: seq<seq<Row<T>>>, own: Slice, last: Option<int>, chunk: nat)
    requires forall i :: 0 <= i < |snapshots| ==> Ordered(snapshots[i])
    ensures var out := Keyset(snapshots, own, last, chunk);
            Ordered(out.rows) && (last.Some? && out.rows != [] ==> out.rows[0].key > last.value)
  {
    if snapshots == [] {
    } else {
      var above := Above(snapshots[0], last);
      var batch := Fetch(above, Limited(own, chunk));
      AboveSpec(snapshots[0], last);
      OrderedDrop(above, own.offset);
      OrderedTake(Drop(above, own.offset), chunk, 0);
      if batch != [] {
        assert batch[0] in batch;
        var end := Some(batch[|batch| - 1].key);
        KeysetNeverRepeats(snapshots[1..], own, end, chunk);
        OrderedConcat(batch, Keyset(snapshots[1..], own, end, chunk).rows);
      }
    }
  }

  /** One batch holds every wanted key up to its last one, and every wanted key when it is short. */
  lemma BatchHasKey<T>(rows: seq<Row<T>>, last: Option<int>, chunk: nat, k: int)
    requires Ordered(rows) && HasKey(rows, k) && (last.Some? ==> k > last.value) && chunk > 0
    ensures var batch := Take(Above(rows, last), chunk);
            if |batch| < chunk then HasKey(batch, k) else k <= batch[|batch| - 1].key ==> HasKey(batch, k)
  {
    AboveSpec(rows, last);
    AboveHasKey(rows, last, k);
    TakeHasKey(Above(rows, last), chunk, k);
  }

  lemma TakeHasKey<T>(rows: seq<Row<T>>, chunk: nat, k: int)
    requires Ordered(rows) && HasKey(rows, k) && chunk > 0
    ensures var batch := Take(rows, chunk);
            if |batch| < chunk then HasKey(batch, k) else k <= batch[|batch| - 1].key ==> HasKey(batch, k)
  {
    OrderedTake(rows, chunk, k);
  }

  /** When the stream of a query without an offset ends, every key that was there at each of its
      fetches has been delivered. */
  lemma {:induction false} KeysetMissesNothing<T>(
    snapshots: seq<seq<Row<T>>>, own: Slice, last: Option<int>, chunk: nat, k: int)
    requires own.offset == 0 && forall i :: 0 <= i < |snapshots| ==> Ordered(snapshots[i])
    requires chunk > 0 && Keyset(snapshots, own, last, chunk).finished && (last.Some? ==> k > last.value)
    requires forall i :: 0 <= i < Keyset(snapshots, own, last, chunk).fetches && i < |snapshots| ==>
             HasKey(snapshots[i], k)
    ensures HasKey(Keyset(snapshots, own, last, chunk).rows, k)
  {
    var batch := Take(Above(snapshots[0], last), chunk);
    assert HasKey(snapshots[0], k);
    BatchHasKey(snapshots[0], last, chunk, k);
    if |batch| == chunk {
      var end := batch[|batch| - 1].key;
      var later := Keyset(snapshots[1..], own, Some(end), chunk);
      HasKeyConcat(batch, later.rows, k);
      if k > end {
        forall i | 0 <= i < later.fetches && i < |snapshots[1..]|
          ensures HasKey(snapshots[1..][i], k)
        {
          assert snapshots[1..][i] == snapshots[i + 1];
        }
        KeysetMissesNothing(snapshots[1..], own, Some(end), chunk, k);
      }
    }
  }

  // ---- keyset mode on an unchanging table ----

  /** Filtering by the last key of a delivered prefix leaves exactly the rest. */
  lemma {:induction false} AboveSkips<T>(rows: seq<Row<T>>, n: nat)
    requires Ordered(rows) && 0 < n <= |rows|
    ensures Above(rows, Some(rows[n - 1].key)) == rows[n..]
  {
    if n == 1 {
      if |rows| > 1 { AboveSpec(rows[1..], Some(rows[0].key)); }
    } else {
      OrderedRises(rows, 0, n - 1);
      AboveSkips(rows[1..], n - 1);
      assert rows[1..][n - 2] == rows[n - 1];
    }
  }

  function Still<T>(table: seq<T>, turns: nat): seq<seq<T>> {
    seq(turns, i => table)
  }

  /** A full batch, and the stream goes on from its last key. */
  lemma KeysetStep<T>(table: seq<Row<T>>, own: Slice, last: Option<int>, turns: nat, chunk: nat, batch: seq<Row<T>>)
    requires turns > 0 && chunk > 0 && batch == Fetch(Above(table, last), Limited(own, chunk)) && |batch| == chunk
    ensures Keyset(Still(table, turns), own, last, chunk) ==
            After(batch, 1, Keyset(Still(table, turns - 1), own, Some(batch[|batch| - 1].key), chunk))
  {
    assert Still(table, turns)[1..] == Still(table, turns - 1);
  }

  function SeenKey<T>(table: seq<Row<T>>, seen: nat): Option<int>
    requires seen <= |table|
  {
    if seen == 0 then None else Some(table[seen - 1].key)
  }

  predicate UniqueKeys<T>(table: seq<Row<T>>) {
    table == [] || (!HasKey(table[1..], table[0].key) && UniqueKeys(table[1..]))
  }

  lemma {:induction false} HasKeyAt<T>(table: seq<Row<T>>, i: nat)
    requires i < |table|
    ensures HasKey(table, table[i].key)
  {
    if i == 0 {
    } else {
      HasKeyAt(table[1..], i - 1);
    }
  }

  lemma {:induction false} UniqueAt<T>(table: seq<Row<T>>, i: nat, j: nat)
    requires UniqueKeys(table) && i < |table| && j < |table| && table[i].key == table[j].key
    ensures i == j
  {
    if i > 0 && j > 0 {
      UniqueAt(table[1..], i - 1, j - 1);
    } else if i < j {
      HasKeyAt(table[1..], j - 1);
    } else if j < i {
      HasKeyAt(table[1..], i - 1);
    }
  }

  /** The last of the first `n` rows has their largest key, and every later row a larger one. */
  ghost predicate CutAt<T>(table: seq<Row<T>>, n: nat)
    requires 0 < n <= |table|
  {
    (forall i :: 0 <= i < n ==> table[i].key <= table[n - 1].key) &&
    (forall i :: n <= i < |table| ==> table[i].key > table[n - 1].key)
  }

  /** The rows are cut so after every full chunk from `seen` on. */
  ghost predicate CutsFrom<T>(table: seq<Row<T>>, seen: nat, chunk: nat)
    requires chunk > 0
    decreases |table| - seen
  {
    seen + chunk <= |table| ==> CutAt(table, seen + chunk) && CutsFrom(table, seen + chunk, chunk)
  }

  lemma {:induction false} AboveSplit<T>(table: seq<Row<T>>, n: nat, last: int)
    requires n <= |table| && (forall i :: 0 <= i < n ==> table[i].key <= last)
    requires forall i :: n <= i < |table| ==> table[i].key > last
    ensures Above(table, Some(last)) == table[n..]
  {
    if table == [] {
    } else {
      AboveSplit(table[1..], if n > 0 then n - 1 else 0, last);
      if n > 0 { assert table[1..][n - 1..] == table[n..]; }
    }
  }

  /** The place of the first row above `last`, the length of the table when there is none. */
  lemma {:induction false} FirstAbove<T>(table: seq<Row<T>>, last: int) returns (p: nat)
    ensures p <= |table| && forall i :: 0 <= i < p ==> table[i].key <= last
    ensures var above := Above(table, Some(last));
            if p == |table| then above == [] else above != [] && above[0] == table[p]
  {
    if table == [] || table[0].key > last {
      p := 0;
    } else {
      p := FirstAbove(table[1..], last);
      p := p + 1;
      assert forall i :: 0 < i < p ==> table[i] == table[1..][i - 1];
    }
  }

  /** Everything a stream delivers is above the key it goes on from. */
  lemma {:induction false} DeliversAbove<T>(snapshots: seq<seq<Row<T>>>, own: Slice, last: int, chunk: nat)
    ensures forall r :: r in Keyset(snapshots, own, Some(last), chunk).rows ==> r.key > last
  {
    if snapshots == [] {
    } else {
      var above := Above(snapshots[0], Some(last));
      var batch := Fetch(above, Limited(own, chunk));
      AboveSpec(snapshots[0], Some(last));
      if batch != [] {
        assert batch[|batch| - 1] in batch;
        DeliversAbove(snapshots[1..], own, batch[|batch| - 1].key, chunk);
      }
    }
  }

  /** If the stream delivers exactly the rows after the first `n`, they are cut off there. */
  lemma DeliveredCuts<T>(table: seq<Row<T>>, own: Slice, n: nat, turns: nat, chunk: nat)
    requires own.offset == 0 && UniqueKeys(table) && 0 < n <= |table| && turns > 0 && chunk > 0
    requires Keyset(Still(table, turns), own, Some(table[n - 1].key), chunk).rows == table[n..]
    ensures CutAt(table, n)
  {
    var last := table[n - 1].key;
    DeliversAbove(Still(table, turns), own, last, chunk);
    forall i | n <= i < |table|
      ensures table[i].key > last
    {
      assert table[i] == table[n..][i - n];
    }
    var p := FirstAbove(table, last);
    assert Still(table, turns)[0] == table;
    if n < |table| {
      assert table[n..][0] == table[n];
      UniqueAt(table, p, n);
    }
  }

  lemma CutAbove<T>(table: seq<Row<T>>, n: nat)
    requires 0 < n <= |table| && CutAt(table, n)
    ensures Above(table, SeenKey(table, n)) == table[n..]
  {
    AboveSplit(table, n, table[n - 1].key);
  }

  lemma UncutDiffers<T>(table: seq<Row<T>>, own: Slice, n: nat, turns: nat, chunk: nat)
    requires own.offset == 0 && UniqueKeys(table) && 0 < n <= |table| && turns > 0 && chunk > 0
    requires !CutAt(table, n)
    ensures Keyset(Still(table, turns), own, SeenKey(table, n), chunk).rows != table[n..]
  {
    if Keyset(Still(table, turns), own, SeenKey(table, n), chunk).rows == table[n..] {
      DeliveredCuts(table, own, n, turns, chunk);
      assert false;
    }
  }

  /** Past the first `seen` rows, the stream delivers the rest exactly when the rows are cut from there. */
  ghost predicate DeliversRest<T>(table: seq<Row<T>>, own: Slice, seen: nat, turns: nat, chunk: nat)
    requires seen <= |table| && chunk > 0
  {
    var out := Keyset(Still(table, turns), own, SeenKey(table, seen), chunk);
    (out.rows == table[seen..] <==> CutsFrom(table, seen, chunk)) &&
    (out.rows == table[seen..] ==> out == Outcome(table[seen..], FullChunks(|table| - seen, chunk) + 1, true))
  }

  lemma {:induction false} KeysetFrom<T>(table: seq<Row<T>>, own: Slice, seen: nat, turns: nat, chunk: nat)
    requires own.offset == 0 && UniqueKeys(table) && seen <= |table|
    requires chunk > 0 && turns > FullChunks(|table| - seen, chunk)
    requires Above(table, SeenKey(table, seen)) == table[seen..]
    ensures DeliversRest(table, own, seen, turns, chunk)
    decreases |table| - seen
  {
    if |table| - seen < chunk {
      RestShort(table, own, seen, turns, chunk);
    } else {
      var next := seen + chunk;
      if CutAt(table, next) {
        CutAbove(table, next);
        KeysetFrom(table, own, next, turns - 1, chunk);
      } else {
        UncutDiffers(table, own, next, turns - 1, chunk);
      }
      RestFromNext(table, own, seen, turns, chunk);
    }
  }

  lemma RestShort<T>(table: seq<Row<T>>, own: Slice, seen: nat, turns: nat, chunk: nat)
    requires own.offset == 0 && seen <= |table| < seen + chunk && turns > 0
    requires Above(table, SeenKey(table, seen)) == table[seen..]
    ensures DeliversRest(table, own, seen, turns, chunk)
  {
    assert Drop(table[seen..], 0) == table[seen..];
  }

  /** A full batch of unseen rows, and the stream goes on after it. */
  lemma FullBatch<T>(table: seq<Row<T>>, own: Slice, seen: nat, turns: nat, chunk: nat)
    requires own.offset == 0 && seen + chunk <= |table| && chunk > 0 && turns > 0
    requires Above(table, SeenKey(table, seen)) == table[seen..]
    ensures var out := Keyset(Still(table, turns), own, SeenKey(table, seen), chunk);
            var later := Keyset(Still(table, turns - 1), own, SeenKey(table, seen + chunk), chunk);
            out.fetches == later.fetches + 1 && out.finished == later.finished &&
            (out.rows == table[seen..] <==> later.rows == table[seen + chunk..])
  {
    var batch, next := table[seen..seen + chunk], seen + chunk;
    assert table[seen..][..chunk] == batch && batch[|batch| - 1] == table[next - 1];
    KeysetStep(table, own, SeenKey(table, seen), turns, chunk, batch);
    assert table[seen..] == batch + table[next..];
    SameTail(batch, Keyset(Still(table, turns - 1), own, SeenKey(table, next), chunk).rows, table[next..]);
  }

  lemma RestFromNext<T>(table: seq<Row<T>>, own: Slice, seen: nat, turns: nat, chunk: nat)
    requires own.offset == 0 && chunk > 0 && turns > 1 && seen + chunk <= |table|
    requires Above(table, SeenKey(table, seen)) == table[seen..]
    requires CutAt(table, seen + chunk) ==> DeliversRest(table, own, seen + chunk, turns - 1, chunk)
    requires !CutAt(table, seen + chunk) ==>
             Keyset(Still(table, turns - 1), own, SeenKey(table, seen + chunk), chunk).rows != table[seen + chunk..]
    ensures DeliversRest(table, own, seen, turns, chunk)
  {
    var out := Keyset(Still(table, turns), own, SeenKey(table, seen), chunk);
    FullBatch(table, own, seen, turns, chunk);
    assert FullChunks(|table| - seen, chunk) == FullChunks(|table| - (seen + chunk), chunk) + 1;
    assert out == Outcome(out.rows, out.fetches, out.finished);
  }

  /** A keyset stream of rows with unique keys, on an unchanging table, delivers exactly the table when,
      and only when, after every full chunk the rows are cut into smaller and larger keys. It adds no
      ORDER BY: putting the rows in such an order is the caller's part. */
  lemma KeysetDeliversIff<T>(table: seq<Row<T>>, own: Slice, turns: nat, chunk: nat)
    requires own.offset == 0 && UniqueKeys(table) && chunk > 0 && turns > FullChunks(|table|, chunk)
    ensures Keyset(Still(table, turns), own, None, chunk).rows == table <==> CutsFrom(table, 0, chunk)
    ensures CutsFrom(table, 0, chunk) ==>
            Keyset(Still(table, turns), own, None, chunk) == Outcome(table, FullChunks(|table|, chunk) + 1, true)
  {
    AboveSpec(table, None);
    assert table[0..] == table;
    KeysetFrom(table, own, 0, turns, chunk);
  }

  lemma {:induction false} OrderedIsUnique<T>(table: seq<Row<T>>)
    requires Ordered(table)
    ensures UniqueKeys(table)
  {
    if table == [] {
    } else {
      OrderedIsUnique(table[1..]);
      if HasKey(table[1..], table[0].key) {
        KeyAtLeast(table[1..], table[0].key);
        assert false;
      }
    }
  }

  lemma {:induction false} OrderedCuts<T>(table: seq<Row<T>>, seen: nat, chunk: nat)
    requires Ordered(table) && chunk > 0
    ensures CutsFrom(table, seen, chunk)
    decreases |table| - seen
  {
    if seen + chunk <= |table| {
      OrderedCutAt(table, seen + chunk);
      OrderedCuts(table, seen + chunk, chunk);
    }
  }

  lemma OrderedCutAt<T>(table: seq<Row<T>>, n: nat)
    requires Ordered(table) && 0 < n <= |table|
    ensures CutAt(table, n)
  {
    forall i | 0 <= i < |table| && i != n - 1
      ensures i < n ==> table[i].key <= table[n - 1].key
      ensures n <= i ==> table[i].key > table[n - 1].key
    {
      if i < n - 1 { OrderedRises(table, i, n - 1); } else { OrderedRises(table, n - 1, i); }
    }
  }

  /** On an unchanging table in ascending order the stream ends and delivers every row. */
  lemma KeysetOnStill<T>(table: seq<Row<T>>, own: Slice, turns: nat, chunk: nat)
    requires own.offset == 0 && Ordered(table) && chunk > 0 && turns > FullChunks(|table|, chunk)
    ensures Keyset(Still(table, turns), own, None, chunk) == Outcome(table, FullChunks(|table|, chunk) + 1, true)
  {
    OrderedIsUnique(table);
    OrderedCuts(table, 0, chunk);
    KeysetDeliversIff(table, own, turns, chunk);
  }

  lemma {:induction false} SinglesRise<T>(snapshots: seq<seq<Row<T>>>, own: Slice, last: Option<int>)
    ensures Ordered(Keyset(snapshots, own, last, 1).rows)
  {
    if snapshots == [] {
    } else {
      var batch := Fetch(Above(snapshots[0], last), Limited(own, 1));
      if |batch| == 1 {
        var later := Keyset(snapshots[1..], own, Some(batch[0].key), 1).rows;
        SinglesRise(snapshots[1..], own, Some(batch[0].key));
        DeliversAbove(snapshots[1..], own, batch[0].key, 1);
        OrderedConcat(batch, later);
      }
    }
  }

  ghost predicate DeliversTable<T>(table: seq<Row<T>>, own: Slice, chunk: nat) {
    chunk > 0 ==>
      forall turns: nat | turns > FullChunks(|table|, chunk) ::
        Keyset(Still(table, turns), own, None, chunk).rows == table
  }

  lemma OrderedDelivers<T>(table: seq<Row<T>>, own: Slice, chunk: nat)
    requires own.offset == 0 && Ordered(table)
    ensures DeliversTable(table, own, chunk)
  {
    if chunk > 0 {
      forall turns: nat | turns > FullChunks(|table|, chunk)
        ensures Keyset(Still(table, turns), own, None, chunk).rows == table
      {
        KeysetOnStill(table, own, turns, chunk);
      }
    }
  }

  /** The stream delivers the table for every chunk size exactly when the rows ascend strictly. */
  lemma EveryChunkIffOrdered<T>(table: seq<Row<T>>, own: Slice)
    requires own.offset == 0
    ensures (forall chunk: nat :: DeliversTable(table, own, chunk)) <==> Ordered(table)
  {
    if Ordered(table) {
      forall chunk: nat
        ensures DeliversTable(table, own, chunk)
      {
        OrderedDelivers(table, own, chunk);
      }
    } else if DeliversTable(table, own, 1) {
      FullChunksIs(|table|, 1);
      SinglesRise(Still(table, |table| + 1), own, None);
      assert false;
    }
  }

  // ---- keyset mode and a query's own slice ----

  /** The tables, by their length, on which a keyset stream respects the query's own slice. */
  predicate KeysetKeepsSlice(n: nat, own: Slice, chunk: nat) {
    if own.offset == 0 || n < own.offset + chunk then Uncut(n, own)
    else n <= 2 * own.offset + chunk && SliceLength(n, own) == chunk
  }

  /** Every fetch skips the query's own offset again and none has its limit. So an ordered query is
      streamed as its slice exactly when the limit cuts nothing off and the offset is zero or reaches
      into the last chunk, or one chunk is the whole slice and the second fetch skips what is left. */
  lemma KeysetSliceIff<T>(table: seq<Row<T>>, own: Slice, turns: nat, chunk: nat)
    requires Ordered(table) && chunk > 0 && turns > FullChunks(|table|, chunk)
    ensures Keyset(Still(table, turns), own, None, chunk).rows == Fetch(table, own) <==>
            KeysetKeepsSlice(|table|, own, chunk)
  {
    FetchLength(table, own);
    if own.offset == 0 {
      KeysetOnStill(table, own, turns, chunk);
    } else if |table| < own.offset + chunk {
      AboveSpec(table, None);
    } else {
      AboveSkips(table, own.offset + chunk);
      KeysetSkips(table, own, turns, chunk);
      SkipsDiffer(table, own, chunk, Keyset(Still(table, turns), own, None, chunk).rows);
    }
  }

  /** The first two fetches: a full chunk after the offset, then what is left after skipping it again. */
  lemma KeysetSkips<T>(table: seq<Row<T>>, own: Slice, turns: nat, chunk: nat)
    requires chunk > 0 && turns > 1 && own.offset + chunk <= |table|
    requires Above(table, Some(table[own.offset + chunk - 1].key)) == table[own.offset + chunk..]
    ensures var rows, at := Keyset(Still(table, turns), own, None, chunk).rows, own.offset + chunk;
            if |table| <= at + own.offset then rows == table[own.offset..at]
            else |rows| > chunk && rows[chunk] == table[at + own.offset]
  {
    var batch, last := table[own.offset..own.offset + chunk], table[own.offset + chunk - 1].key;
    FirstBatch(table, own, chunk);
    KeysetStep(table, own, None, turns, chunk, batch);
    NextFetch(table, own, last, turns - 1, chunk);
  }

  lemma FirstBatch<T>(table: seq<Row<T>>, own: Slice, chunk: nat)
    requires chunk > 0 && own.offset + chunk <= |table|
    ensures var batch := table[own.offset..own.offset + chunk];
            Fetch(Above(table, None), Limited(own, chunk)) == batch && |batch| == chunk &&
            batch[|batch| - 1].key == table[own.offset + chunk - 1].key
  {
    AboveSpec(table, None);
  }

  /** The first row of the next batch, if there is one. */
  lemma NextFetch<T>(table: seq<Row<T>>, own: Slice, last: int, turns: nat, chunk: nat)
    requires turns > 0 && chunk > 0
    ensures var left, rows := Above(table, Some(last)), Keyset(Still(table, turns), own, Some(last), chunk).rows;
            if |left| <= own.offset then rows == [] else rows != [] && rows[0] == left[own.offset]
  {
    assert Still(table, turns)[0] == table;
  }

  lemma SkipsDiffer<T>(table: seq<Row<T>>, own: Slice, chunk: nat, rows: seq<Row<T>>)
    requires Ordered(table) && own.offset > 0 && own.offset + chunk <= |table|
    requires var at := own.offset + chunk;
             if |table| <= at + own.offset then rows == table[own.offset..at]
             else |rows| > chunk && rows[chunk] == table[at + own.offset]
    ensures rows == Fetch(table, own) <==> |table| <= 2 * own.offset + chunk && SliceLength(|table|, own) == chunk
  {
    var result, at := Fetch(table, own), own.offset + chunk;
    FetchLength(table, own);
    if |table| <= at + own.offset {
      assert |result| == chunk ==> result == rows;
    } else if |result| > chunk {
      assert result[chunk] == table[at];
      OrderedRises(table, at, at + own.offset);
    }
  }
}
