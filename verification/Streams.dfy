/** What the paginated streams of both languages share. `table` is the list of rows that satisfy a
    query's filters, in the query's order; a fetch is a slice of it. */
module Streams {
  import opened Prelude

  /** What a consumer has seen: the rows, the number of queries run, and whether the stream ended. */
  datatype Outcome<T> = Outcome(rows: seq<T>, fetches: nat, finished: bool)

  function Take<T>(s: seq<T>, n: nat): seq<T> {
    if n <= |s| then s[..n] else s
  }

  function Drop<T>(s: seq<T>, n: nat): seq<T> {
    if n <= |s| then s[n..] else []
  }

  // ---- a query's own slice ----

  /** What a query has for OFFSET and LIMIT; no OFFSET is offset zero. */
  datatype Slice = Slice(offset: nat, limit: Option<nat>)

  /** Setting a limit or an offset overwrites the one that was there. */
  function Limited(q: Slice, n: nat): Slice {
    q.(limit := Some(n))
  }

  function Shifted(q: Slice, n: nat): Slice {
    q.(offset := n)
  }

  function Fetch<T>(table: seq<T>, q: Slice): seq<T> {
    var rows := Drop(table, q.offset);
    if q.limit.Some? then Take(rows, q.limit.value) else rows
  }

  /** The limit cuts nothing off a table of `n` rows. */
  predicate Uncut(n: nat, q: Slice) {
    q.limit.None? || n <= q.offset + q.limit.value
  }

  function SliceLength(n: nat, q: Slice): nat {
    var left := if q.offset <= n then n - q.offset else 0;
    if q.limit.Some? && q.limit.value < left then q.limit.value else left
  }

  lemma FetchLength<T>(table: seq<T>, q: Slice)
    ensures |Fetch(table, q)| == SliceLength(|table|, q)
    ensures Fetch(table, q) == Drop(table, q.offset) <==> Uncut(|table|, q)
    ensures q.offset == 0 ==> Drop(table, q.offset) == table
  {
  }

  // ---- chunks ----

  /** How many full chunks `n` rows make. */
  function FullChunks(n: nat, chunk: nat): nat
    requires chunk > 0
  {
    if n < chunk then 0 else FullChunks(n - chunk, chunk) + 1
  }

  /** It is the quotient: that many chunks fit, and less than a chunk is left. */
  lemma {:induction false} FullChunksIs(n: nat, chunk: nat)
    requires chunk > 0
    ensures chunk * FullChunks(n, chunk) <= n < chunk * FullChunks(n, chunk) + chunk
  {
    if n >= chunk {
      FullChunksIs(n - chunk, chunk);
      assert chunk * FullChunks(n, chunk) == chunk * FullChunks(n - chunk, chunk) + chunk;
    }
  }

  // ---- consumers ----

  function After<T>(rows: seq<T>, fetches: nat, later: Outcome<T>): Outcome<T> {
    Outcome(rows + later.rows, fetches + later.fetches, later.finished)
  }
}
