/** LIMIT/OFFSET pagination: the Python loops (ryx/queryset.py, ryx/bulk.py) and the Rust `QueryStream`
    (ryx-rs/src/stream.rs). */
module OffsetStreams {
  import opened Prelude
  import opened Streams
  import opened KeysetStreams

  // ---- LIMIT/OFFSET mode ----

  /** The Python loops from an offset on: each fetch overwrites both parts of the query's own slice. */
  function OffsetFrom<T>(table: seq<T>, own: Slice, offset: nat, chunk: nat): Outcome<T>
    decreases |table| - offset
  {
    var batch := Fetch(table, Shifted(Limited(own, chunk), offset));
    if batch == [] || |batch| < chunk then Outcome(batch, 1, true)
    else
      After(batch, 1, OffsetFrom(table, own, offset + chunk, chunk))
  }

  method StreamOffset<T>(table: seq<T>, own: Slice, chunk: nat) returns (out: Outcome<T>)
    ensures out == OffsetFrom(table, own, 0, chunk)
    ensures chunk > 0 ==> out == Outcome(table, FullChunks(|table|, chunk) + 1, true)
  {
    if chunk > 0 {
      OffsetDelivers(table, own, 0, chunk);
    }
    var rows: seq<T> := [];
    var offset, fetches := 0, 0;
    while true
      invariant OffsetFrom(table, own, 0, chunk) == After(rows, fetches, OffsetFrom(table, own, offset, chunk))
      decreases |table| - offset
    {
      var batch := Fetch(table, Shifted(Limited(own, chunk), offset));
      fetches := fetches + 1;
      if batch == [] {
        return Outcome(rows, fetches, true);
      }
      Associative(rows, batch, OffsetFrom(table, own, offset + chunk, chunk).rows);
      rows := rows + batch;
      if |batch| < chunk {
        return Outcome(rows, fetches, true);
      }
      offset := offset + chunk;
    }
  }

  lemma {:induction false} OffsetDelivers<T>(table: seq<T>, own: Slice, offset: nat, chunk: nat)
    requires chunk > 0 && offset <= |table|
    ensures OffsetFrom(table, own, offset, chunk) ==
            Outcome(table[offset..], FullChunks(|table| - offset, chunk) + 1, true)
    decreases |table| - offset
  {
    if |table| - offset >= chunk {
      OffsetDelivers(table, own, offset + chunk, chunk);
      assert table[offset..][..chunk] + table[offset + chunk..] == table[offset..];
    }
  }

  /** The Python loop delivers every row, whatever the query's own slice; so it delivers the query's
      result exactly when the slice is the whole table. */
  lemma OffsetSliceIff<T>(table: seq<T>, own: Slice, chunk: nat)
    requires chunk > 0
    ensures OffsetFrom(table, own, 0, chunk).rows == Fetch(table, own) <==>
            table == [] || (own.offset == 0 && Uncut(|table|, own))
  {
    OffsetDelivers(table, own, 0, chunk);
    assert table[0..] == table;
    FetchLength(table, own);
  }

  // ---- the Rust stream ----

  /** The mutable part of a `QueryStream`. */
  datatype Cursor = Cursor(lastOffset: nat, done: bool)

  /** The slice of the next query: the chunk for a limit, and the stream's offset once it has moved. */
  function NextSlice(cursor: Cursor, own: Slice, chunk: nat): Slice {
    var limited := Limited(own, chunk);
    if cursor.lastOffset > 0 then Shifted(limited, cursor.lastOffset) else limited
  }

  function Moved<T>(table: seq<T>, own: Slice, chunk: nat, cursor: Cursor): Cursor {
    if cursor.done then cursor
    else
      var rows := Fetch(table, NextSlice(cursor, own, chunk));
      Cursor(cursor.lastOffset + |rows|, |rows| < chunk)
  }

  function Delivered<T>(table: seq<T>, own: Slice, chunk: nat, cursor: Cursor): seq<T> {
    if cursor.done then [] else Fetch(table, NextSlice(cursor, own, chunk))
  }

  function CursorAfter<T>(table: seq<T>, own: Slice, chunk: nat, calls: nat): Cursor {
    if calls == 0 then Cursor(0, false) else Moved(table, own, chunk, CursorAfter(table, own, chunk, calls - 1))
  }

  /** Everything the first calls returned. */
  function RowsAfter<T>(table: seq<T>, own: Slice, chunk: nat, calls: nat): seq<T> {
    if calls == 0 then []
    else RowsAfter(table, own, chunk, calls - 1) +
         Delivered(table, own, chunk, CursorAfter(table, own, chunk, calls - 1))
  }

  /** How many queries the first calls ran. */
  function FetchesAfter<T>(table: seq<T>, own: Slice, chunk: nat, calls: nat): nat {
    if calls == 0 then 0
    else FetchesAfter(table, own, chunk, calls - 1) + if CursorAfter(table, own, chunk, calls - 1).done then 0 else 1
  }

  class QueryStream<T> {
    const chunkSize: nat
    const inner: Slice   // the slice of the query that is streamed
    var lastOffset: nat
    var done: bool

    constructor (chunkSize: nat, inner: Slice)
      ensures this.chunkSize == chunkSize && this.inner == inner && lastOffset == 0 && !done
    {
      this.chunkSize, this.inner, lastOffset, done := chunkSize, inner, 0, false;
    }

    /** `table` holds the rows that satisfy the query's filters when the call runs. */
    method NextChunk(table: seq<T>) returns (chunk: Option<seq<T>>)
      modifies this
      ensures Cursor(lastOffset, done) == Moved(table, inner, chunkSize, old(Cursor(lastOffset, done)))
      ensures chunk == var rows := Delivered(table, inner, chunkSize, old(Cursor(lastOffset, done)));
                       if rows == [] then None else Some(rows)
    {
      if done {
        return None;
      }
      var qs := Limited(inner, chunkSize);
      if lastOffset > 0 {
        qs := Shifted(qs, lastOffset);
      }
      var rows := Fetch(table, qs);
      var count := |rows|;
      if count < chunkSize {
        done := true;
      }
      if rows == [] {
        return None;
      }
      lastOffset := lastOffset + count;
      return Some(rows);
    }
  }

  lemma OneCall<T>(table: seq<T>, own: Slice, chunk: nat)
    ensures var rows := Take(Drop(table, own.offset), chunk);
            CursorAfter(table, own, chunk, 1) == Cursor(|rows|, |rows| < chunk) &&
            RowsAfter(table, own, chunk, 1) == rows && FetchesAfter(table, own, chunk, 1) == 1
  {
    assert CursorAfter(table, own, chunk, 0) == Cursor(0, false) && RowsAfter(table, own, chunk, 0) == [];
  }

  /** One call after the first chunk. */
  lemma CallAt<T>(table: seq<T>, own: Slice, chunk: nat, at: nat)
    requires 0 < chunk <= at <= |table|
    ensures var cursor, rows := Cursor(at, false), Delivered(table, own, chunk, Cursor(at, false));
            table[chunk..at] + rows == table[chunk..at + |rows|] &&
            |rows| == (if at + chunk <= |table| then chunk else |table| - at) &&
            Moved(table, own, chunk, cursor) == Cursor(at + |rows|, |rows| < chunk)
  {
  }

  lemma NextCall<T>(table: seq<T>, own: Slice, chunk: nat, calls: nat, at: nat, first: seq<T>)
    requires 0 < chunk <= at <= |table| && CursorAfter(table, own, chunk, calls) == Cursor(at, false)
    requires RowsAfter(table, own, chunk, calls) == first + table[chunk..at]
    ensures var end := if at + chunk <= |table| then at + chunk else |table|;
            CursorAfter(table, own, chunk, calls + 1) == Cursor(end, at + chunk > |table|) &&
            RowsAfter(table, own, chunk, calls + 1) == first + table[chunk..end]
    ensures FetchesAfter(table, own, chunk, calls + 1) == FetchesAfter(table, own, chunk, calls) + 1
  {
    var rows := Delivered(table, own, chunk, Cursor(at, false));
    CallAt(table, own, chunk, at);
    Associative(first, table[chunk..at], rows);
  }

  /** From a call in the middle on: the rest of the table, a chunk at a time. */
  lemma {:induction false} CallsFinish<T>(table: seq<T>, own: Slice, chunk: nat, calls: nat, at: nat, first: seq<T>)
    requires 0 < chunk <= at <= |table| && CursorAfter(table, own, chunk, calls) == Cursor(at, false)
    requires RowsAfter(table, own, chunk, calls) == first + table[chunk..at]
    ensures var all := calls + FullChunks(|table| - at, chunk) + 1;
            CursorAfter(table, own, chunk, all) == Cursor(|table|, true) &&
            RowsAfter(table, own, chunk, all) == first + table[chunk..|table|] &&
            FetchesAfter(table, own, chunk, all) ==
              FetchesAfter(table, own, chunk, calls) + FullChunks(|table| - at, chunk) + 1
    decreases |table| - at
  {
    NextCall(table, own, chunk, calls, at, first);
    if at + chunk <= |table| {
      CallsFinish(table, own, chunk, calls + 1, at + chunk, first);
    }
  }

  lemma {:induction false} DoneStays<T>(table: seq<T>, own: Slice, chunk: nat, calls: nat, more: nat)
    requires CursorAfter(table, own, chunk, calls).done
    ensures CursorAfter(table, own, chunk, calls + more) == CursorAfter(table, own, chunk, calls)
    ensures RowsAfter(table, own, chunk, calls + more) == RowsAfter(table, own, chunk, calls)
    ensures FetchesAfter(table, own, chunk, calls + more) == FetchesAfter(table, own, chunk, calls)
    decreases more
  {
    if more == 0 {
    } else {
      assert RowsAfter(table, own, chunk, calls) + [] == RowsAfter(table, own, chunk, calls);
      DoneStays(table, own, chunk, calls + 1, more - 1);
    }
  }

  /** When the first chunk does not reach the end: that chunk, at the query's own offset, and then the
      table from its second chunk on. */
  lemma CallsGoOn<T>(table: seq<T>, own: Slice, chunk: nat)
    requires chunk > 0 && own.offset + chunk <= |table|
    ensures var calls := FullChunks(|table|, chunk) + 1;
            RowsAfter(table, own, chunk, calls) ==
              table[own.offset..own.offset + chunk] + table[chunk..|table|] &&
            FetchesAfter(table, own, chunk, calls) == calls && CursorAfter(table, own, chunk, calls).done
  {
    var first := table[own.offset..own.offset + chunk];
    OneCall(table, own, chunk);
    assert FullChunks(|table|, chunk) == FullChunks(|table| - chunk, chunk) + 1;
    assert first + table[chunk..chunk] == first;
    CallsFinish(table, own, chunk, 1, chunk, first);
  }

  /** Repeated calls, until `None` and beyond: past the first chunk, the query's own offset is forgotten
      and its limit always is. */
  lemma CallsDeliver<T>(table: seq<T>, own: Slice, chunk: nat, calls: nat)
    requires chunk > 0 && calls > FullChunks(|table|, chunk)
    ensures RowsAfter(table, own, chunk, calls) ==
            if |table| < own.offset + chunk then Drop(table, own.offset)
            else table[own.offset..own.offset + chunk] + table[chunk..]
    ensures FetchesAfter(table, own, chunk, calls) ==
            if |table| < own.offset + chunk then 1 else FullChunks(|table|, chunk) + 1
    ensures CursorAfter(table, own, chunk, calls).done &&
            Delivered(table, own, chunk, CursorAfter(table, own, chunk, calls)) == []
  {
    if |table| < own.offset + chunk {
      OneCall(table, own, chunk);
      DoneStays(table, own, chunk, 1, calls - 1);
    } else {
      var all := FullChunks(|table|, chunk) + 1;
      CallsGoOn(table, own, chunk);
      DoneStays(table, own, chunk, all, calls - all);
      assert all + (calls - all) == calls;
      assert table[chunk..|table|] == table[chunk..];
    }
  }

  lemma Rejoin<T>(s: seq<T>, n: nat)
    requires n <= |s|
    ensures s[0..n] + s[n..] == s
  {
  }

  /** Repeated calls on a query without an offset deliver every row, with FullChunks(|table|, chunk) + 1 queries;
      every later call returns None and runs none. */
  lemma CallsDeliverAll<T>(table: seq<T>, own: Slice, chunk: nat, calls: nat)
    requires own.offset == 0 && chunk > 0 && calls > FullChunks(|table|, chunk)
    ensures RowsAfter(table, own, chunk, calls) == table
    ensures FetchesAfter(table, own, chunk, calls) == FullChunks(|table|, chunk) + 1
    ensures CursorAfter(table, own, chunk, calls).done &&
            Delivered(table, own, chunk, CursorAfter(table, own, chunk, calls)) == []
  {
    CallsDeliver(table, own, chunk, calls);
    if |table| >= chunk { Rejoin(table, chunk); }
  }

  /** A query is streamed as its slice exactly when its limit cuts nothing off and its offset is zero or
      reaches into the last chunk. */
  lemma OwnSliceIff<T>(table: seq<T>, own: Slice, chunk: nat, calls: nat)
    requires chunk > 0 && calls > FullChunks(|table|, chunk)
    ensures RowsAfter(table, own, chunk, calls) == Fetch(table, own) <==>
            Uncut(|table|, own) && (own.offset == 0 || |table| < own.offset + chunk)
  {
    CallsDeliver(table, own, chunk, calls);
    FetchLength(table, own);
    if own.offset == 0 {
      CallsDeliverAll(table, own, chunk, calls);
    }
  }

  /** Streams of `qs[2:5]` on six rows or more: none delivers rows 2 to 4, but for the keyset stream when
      it has chunks of three and at most seven rows. */
  lemma SlicedStreams<T>(table: seq<Row<T>>, chunk: nat, calls: nat)
    requires Ordered(table) && |table| >= 6 && 0 < chunk <= |table| - 2 && calls > FullChunks(|table|, chunk)
    ensures var own := Slice(2, Some(3));
            Fetch(table, own) == table[2..5] && OffsetFrom(table, own, 0, chunk).rows == table &&
            RowsAfter(table, own, chunk, calls) == table[2..2 + chunk] + table[chunk..] &&
            (Keyset(Still(table, calls), own, None, chunk).rows == table[2..5] <==> chunk == 3 && |table| <= 7)
  {
    var own := Slice(2, Some(3));
    OffsetDelivers(table, own, 0, chunk);
    assert table[0..] == table && table[2..][..3] == table[2..5];
    CallsDeliver(table, own, chunk, calls);
    KeysetSliceIff(table, own, calls, chunk);
  }
}
