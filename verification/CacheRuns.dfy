/** What holds of every run of calls on the in-process cache. */
module CacheRuns {
  import opened Prelude
  import opened MemoryCache

  // ---- two runs: a larger cache never loses a hit ----

  /** `small` can be obtained from `big` by dropping entries, keeping the order of the rest. */
  ghost predicate Sub<V>(small: seq<Entry<V>>, big: seq<Entry<V>>) {
    small == [] ||
    (big != [] && ((small[0] == big[0] && Sub(small[1..], big[1..])) || Sub(small, big[1..])))
  }

  lemma {:induction false} SubTail<V>(a: seq<Entry<V>>, b: seq<Entry<V>>)
    requires a != [] && Sub(a, b)
    ensures b != [] && Sub(a[1..], b[1..])
  {
    if !(a[0] == b[0] && Sub(a[1..], b[1..])) {
      SubTail(a, b[1..]);
      assert Sub(a[1..], b[1..]);
    }
  }

  lemma {:induction false} SubRemove<V>(a: seq<Entry<V>>, b: seq<Entry<V>>, key: string)
    requires Sub(a, b)
    ensures Sub(Remove(a, key), Remove(b, key))
  {
    if a == [] {
    } else {
      var a', b' := Remove(a, key), Remove(b, key);
      if a[0] == b[0] && Sub(a[1..], b[1..]) {
        SubRemove(a[1..], b[1..], key);
        if a[0].key != key {
          assert a'[1..] == Remove(a[1..], key) && b'[1..] == Remove(b[1..], key);
        }
      } else {
        SubRemove(a, b[1..], key);
        if b[0].key != key {
          assert b'[1..] == Remove(b[1..], key);
        }
      }
    }
  }

  lemma {:induction false} SubRemoveAll<V>(a: seq<Entry<V>>, b: seq<Entry<V>>, keys: seq<string>)
    requires Sub(a, b)
    ensures Sub(RemoveAll(a, keys), RemoveAll(b, keys))
    decreases |keys|
  {
    if keys == [] {
    } else {
      SubRemove(a, b, keys[0]);
      SubRemoveAll(Remove(a, keys[0]), Remove(b, keys[0]), keys[1..]);
    }
  }

  lemma {:induction false} SubAppend<V>(a: seq<Entry<V>>, b: seq<Entry<V>>, e: Entry<V>)
    requires Sub(a, b)
    ensures Sub(a + [e], b + [e])
    ensures Sub(a, b + [e])
  {
    if b == [] {
      assert a + [e] == [e] && b + [e] == [e];
    } else {
      assert (b + [e])[1..] == b[1..] + [e];
      if a == [] {
        SubAppend(a, b[1..], e);
      } else {
        assert (a + [e])[1..] == a[1..] + [e];
        if a[0] == b[0] && Sub(a[1..], b[1..]) {
          SubAppend(a[1..], b[1..], e);
        } else {
          SubAppend(a, b[1..], e);
        }
      }
    }
  }

  lemma {:induction false} SubDrop<V>(a: seq<Entry<V>>, b: seq<Entry<V>>, da: nat, db: nat)
    requires Sub(a, b) && db <= da <= |a| && db <= |b|
    ensures Sub(a[da..], b[db..])
    decreases da
  {
    if da > 0 {
      SubTail(a, b);
      if db > 0 {
        SubDrop(a[1..], b[1..], da - 1, db - 1);
        assert a[1..][da - 1..] == a[da..] && b[1..][db - 1..] == b[db..];
      } else {
        assert Sub(a[1..], b);
        SubDrop(a[1..], b, da - 1, 0);
        assert a[1..][da - 1..] == a[da..];
      }
    } else {
      assert a[0..] == a && b[0..] == b;
    }
  }

  lemma {:induction false} SubFind<V>(a: seq<Entry<V>>, b: seq<Entry<V>>, key: string)
    requires Sub(a, b) && Distinct(b) && Find(a, key).Some?
    ensures Find(b, key) == Find(a, key)
  {
    if a[0] == b[0] && Sub(a[1..], b[1..]) {
      if a[0].key != key {
        SubFind(a[1..], b[1..], key);
      }
    } else {
      SubFind(a, b[1..], key);
    }
  }

  /** The relation between the stores of two caches, of capacities `m <= M`, given the same calls. */
  ghost predicate Nested<V>(m: nat, M: nat, small: seq<Entry<V>>, big: seq<Entry<V>>) {
    Distinct(small) && Distinct(big) && |small| <= m && |big| <= M &&
    Sub(small, big) && |big| - |small| <= M - m
  }

  lemma SetKeepsNested<V>(m: nat, M: nat, small: seq<Entry<V>>, big: seq<Entry<V>>, e: Entry<V>)
    requires m <= M && Nested(m, M, small, big)
    ensures Nested(m, M, Newest(Remove(small, e.key) + [e], m), Newest(Remove(big, e.key) + [e], M))
  {
    var a, b := Remove(small, e.key) + [e], Remove(big, e.key) + [e];
    Reinsert(small, e);
    Reinsert(big, e);
    SubRemove(small, big, e.key);
    SubAppend(Remove(small, e.key), Remove(big, e.key), e);
    if Find(small, e.key).Some? { SubFind(small, big, e.key); }
    NewestKeepsNested(m, M, a, b);
  }

  lemma NewestKeepsNested<V>(m: nat, M: nat, a: seq<Entry<V>>, b: seq<Entry<V>>)
    requires m <= M && Distinct(a) && Distinct(b) && Sub(a, b) && |a| <= m + 1 && |b| <= M + 1
    requires |b| - |a| <= M - m
    ensures Nested(m, M, Newest(a, m), Newest(b, M))
  {
    var da, db := |a| - |Newest(a, m)|, |b| - |Newest(b, M)|;
    assert Newest(a, m) == a[da..] && Newest(b, M) == b[db..];
    SubDrop(a, b, da, db);
    SuffixKeeps(a, da);
    SuffixKeeps(b, db);
  }

  lemma GetKeepsNested<V>(m: nat, M: nat, small: seq<Entry<V>>, big: seq<Entry<V>>, key: string, now: real)
    requires m <= M && Nested(m, M, small, big)
    ensures Nested(m, M, AfterGet(small, key, now), AfterGet(big, key, now))
  {
    if Find(small, key).Some? { SubFind(small, big, key); } else { RemoveAbsent(small, key); }
    if Find(big, key).Some? {
      var e := Find(big, key).value;
      FindKey(big, key);
      Reinsert(small, e);
      Reinsert(big, e);
      RemoveKeeps(small, key);
      RemoveKeeps(big, key);
      SubRemove(small, big, key);
      SubAppend(Remove(small, key), Remove(big, key), e);
    }
  }

  lemma {:induction false} DeleteManyKeepsNested<V>(
    m: nat, M: nat, small: seq<Entry<V>>, big: seq<Entry<V>>, keys: seq<string>)
    requires m <= M && Nested(m, M, small, big)
    ensures Nested(m, M, RemoveAll(small, keys), RemoveAll(big, keys))
    decreases |keys|
  {
    if keys == [] {
    } else {
      DeleteKeepsNested(m, M, small, big, keys[0]);
      DeleteManyKeepsNested(m, M, Remove(small, keys[0]), Remove(big, keys[0]), keys[1..]);
    }
  }

  lemma DeleteKeepsNested<V>(m: nat, M: nat, small: seq<Entry<V>>, big: seq<Entry<V>>, key: string)
    requires m <= M && Nested(m, M, small, big)
    ensures Nested(m, M, Remove(small, key), Remove(big, key))
  {
    RemoveKeeps(small, key);
    RemoveKeeps(big, key);
    SubRemove(small, big, key);
    if Find(small, key).Some? { SubFind(small, big, key); }
  }

  lemma {:induction false} RunsAreNested<V>(m: nat, M: nat, ttl: Option<real>, ops: seq<Op<V>>)
    requires m <= M
    ensures Nested(m, M, Run(m, ttl, ops), Run(M, ttl, ops))
  {
    if ops == [] {
    } else {
      var before, op := ops[..|ops| - 1], ops[|ops| - 1];
      RunsAreNested(m, M, ttl, before);
      var small, big := Run(m, ttl, before), Run(M, ttl, before);
      match op
      case Get(key, now) => GetKeepsNested(m, M, small, big, key, now);
      case Set(key, value, t, now) => SetKeepsNested(m, M, small, big, Entry(key, value, Expiry(t, ttl, now)));
      case Delete(key) => DeleteKeepsNested(m, M, small, big, key);
      case DeleteMany(keys) => DeleteManyKeepsNested(m, M, small, big, keys);
      case Clear =>
    }
  }

  /** After any calls, the smaller cache holds a subsequence of what the larger one holds, lags it by
      no more entries than it is smaller, and every hit on the smaller is the same hit on the larger. */
  lemma LargerCacheKeepsEveryHit<V>(m: nat, M: nat, ttl: Option<real>, ops: seq<Op<V>>, key: string, now: real)
    requires m <= M
    ensures Sub(Run(m, ttl, ops), Run(M, ttl, ops))
    ensures |Run(M, ttl, ops)| - |Run(m, ttl, ops)| <= M - m
    ensures var hit := Lookup(Run(m, ttl, ops), key, now);
            hit.Some? ==> Lookup(Run(M, ttl, ops), key, now) == hit
  {
    RunsAreNested(m, M, ttl, ops);
    if Find(Run(m, ttl, ops), key).Some? {
      SubFind(Run(m, ttl, ops), Run(M, ttl, ops), key);
    }
  }

  // ---- one run: a hit is the last write ----

  /** The entry the last `set` of `key` wrote, unless a later delete or clear removed it.
      Reads and evictions play no part. */
  function LastWrite<V>(ttl: Option<real>, ops: seq<Op<V>>, key: string): Option<Entry<V>> {
    if ops == [] then None else
      var before := ops[..|ops| - 1];
      match ops[|ops| - 1]
      case Set(k, value, t, now) =>
        if k == key then Some(Entry(key, value, Expiry(t, ttl, now))) else LastWrite(ttl, before, key)
      case Delete(k) => if k == key then None else LastWrite(ttl, before, key)
      case DeleteMany(ks) => if key in ks then None else LastWrite(ttl, before, key)
      case Clear => None
      case Get(_, _) => LastWrite(ttl, before, key)
  }

  /** The keys ever set. */
  function KeysSet<V>(ops: seq<Op<V>>): set<string> {
    if ops == [] then {}
    else
      var op := ops[|ops| - 1];
      KeysSet(ops[..|ops| - 1]) + if op.Set? then {op.key} else {}
  }

  lemma FindNewest<V>(s: seq<Entry<V>>, capacity: nat, key: string)
    requires Distinct(s)
    ensures Find(Newest(s, capacity), key).Some? ==> Find(Newest(s, capacity), key) == Find(s, key)
    ensures |s| <= capacity ==> Newest(s, capacity) == s
  {
    if |s| > capacity {
      FindSuffix(s, |s| - capacity, key);
    }
  }

  lemma FindAfterGet<V>(s: seq<Entry<V>>, g: string, now: real, key: string)
    ensures Find(AfterGet(s, g, now), key) ==
            if key == g && Find(s, g).Some? && Expired(Find(s, g).value, now) then None else Find(s, key)
  {
    if Find(s, g).Some? {
      FindKey(s, g);
      FindReinsert(s, Find(s, g).value, key);
      FindRemove(s, g, key);
    }
  }

  lemma {:induction false} HeldIsLastWritten<V>(capacity: nat, ttl: Option<real>, ops: seq<Op<V>>, key: string)
    ensures var held := Find(Run(capacity, ttl, ops), key);
            held.Some? ==> LastWrite(ttl, ops, key) == held
    ensures LastWrite(ttl, ops, key).Some? ==> key in KeysSet(ops)
  {
    if ops == [] {
    } else {
      var before, op := ops[..|ops| - 1], ops[|ops| - 1];
      HeldIsLastWritten(capacity, ttl, before, key);
      var s := Run(capacity, ttl, before);
      RunKeeps(capacity, ttl, before);
      match op
      case Get(g, now) => FindAfterGet(s, g, now, key);
      case Set(k, value, t, now) =>
        var e := Entry(k, value, Expiry(t, ttl, now));
        Reinsert(s, e);
        FindReinsert(s, e, key);
        FindNewest(Remove(s, k) + [e], capacity, key);
      case Delete(k) => FindRemove(s, k, key);
      case DeleteMany(ks) => FindRemoveAll(s, ks, key);
      case Clear =>
    }
  }

  /** A `get` answers only with what the last `set` of the key stored, never after a delete or clear,
      and never once that entry has expired. */
  lemma HitIsLastWrite<V>(capacity: nat, ttl: Option<real>, ops: seq<Op<V>>, key: string, now: real)
    ensures var hit := Lookup(Run(capacity, ttl, ops), key, now);
            hit.Some? ==> LastWrite(ttl, ops, key).Some? && LastWrite(ttl, ops, key).value.value == hit.value &&
                          !Expired(LastWrite(ttl, ops, key).value, now)
  {
    HeldIsLastWritten(capacity, ttl, ops, key);
  }

  function Clock<V>(op: Op<V>): Option<real> {
    match op
    case Get(_, now) => Some(now)
    case Set(_, _, _, now) => Some(now)
    case _ => None
  }

  /** The clock readings of the calls never decrease and none is later than `now`. */
  predicate Timely<V>(ops: seq<Op<V>>, now: real) {
    ops == [] ||
    var before, t := ops[..|ops| - 1], Clock(ops[|ops| - 1]);
    if t.Some? then t.value <= now && Timely(before, t.value) else Timely(before, now)
  }

  /** Every `set` found room: nothing was ever evicted. */
  predicate NeverFull<V>(capacity: nat, ttl: Option<real>, ops: seq<Op<V>>) {
    ops == [] ||
    var before, op := ops[..|ops| - 1], ops[|ops| - 1];
    NeverFull(capacity, ttl, before) && (op.Set? ==> |Remove(Run(capacity, ttl, before), op.key)| < capacity)
  }

  /** With room for every `set`, only expiry can have removed a key that is still written. */
  lemma {:induction false} RoomyHolds<V>(capacity: nat, ttl: Option<real>, ops: seq<Op<V>>, key: string, now: real)
    requires NeverFull(capacity, ttl, ops) && Timely(ops, now)
    ensures var held, last := Find(Run(capacity, ttl, ops), key), LastWrite(ttl, ops, key);
            held == last || (held.None? && last.Some? && Expired(last.value, now))
  {
    if ops == [] {
    } else {
      var before, op := ops[..|ops| - 1], ops[|ops| - 1];
      RoomyHolds(capacity, ttl, before, key, if Clock(op).Some? then Clock(op).value else now);
      var s := Run(capacity, ttl, before);
      RunKeeps(capacity, ttl, before);
      match op
      case Get(g, t) => FindAfterGet(s, g, t, key);
      case Set(k, value, t, at) =>
        var e := Entry(k, value, Expiry(t, ttl, at));
        Reinsert(s, e);
        FindReinsert(s, e, key);
        FindNewest(Remove(s, k) + [e], capacity, key);
      case Delete(k) => FindRemove(s, k, key);
      case DeleteMany(ks) => FindRemoveAll(s, ks, key);
      case Clear =>
    }
  }

  /** A cache that never fills up, read with a clock that never goes back, answers exactly the
      unexpired last writes. */
  lemma RoomyCacheIsExact<V>(capacity: nat, ttl: Option<real>, ops: seq<Op<V>>, key: string, now: real)
    requires NeverFull(capacity, ttl, ops) && Timely(ops, now)
    ensures var last := LastWrite(ttl, ops, key);
            Lookup(Run(capacity, ttl, ops), key, now) ==
            if last.Some? && !Expired(last.value, now) then Some(last.value.value) else None
  {
    RoomyHolds(capacity, ttl, ops, key, now);
  }

  lemma {:induction false} AtMostItsKeys<V>(s: seq<Entry<V>>, keys: set<string>)
    requires Distinct(s) && forall k :: Find(s, k).Some? ==> k in keys
    ensures |s| <= |keys|
  {
    if s == [] {
    } else {
      var first := s[0].key;
      assert Find(s, first).Some?;
      forall k | Find(s[1..], k).Some?
        ensures k in keys - {first}
      {
        FindKey(s[1..], k);
        assert Find(s, k).Some?;
      }
      AtMostItsKeys(s[1..], keys - {first});
    }
  }

  /** A cache with room for all the different keys ever set never fills up, however often they are read,
      deleted and set again. */
  lemma {:induction false} FewKeysNeverFill<V>(capacity: nat, ttl: Option<real>, ops: seq<Op<V>>)
    requires |KeysSet(ops)| <= capacity
    ensures NeverFull(capacity, ttl, ops)
  {
    if ops == [] {
    } else {
      var before, op := ops[..|ops| - 1], ops[|ops| - 1];
      if op.Set? && op.key in KeysSet(before) { assert KeysSet(ops) == KeysSet(before); }
      FewKeysNeverFill(capacity, ttl, before);
      if op.Set? {
        var s, others := Run(capacity, ttl, before), KeysSet(ops) - {op.key};
        RunKeeps(capacity, ttl, before);
        RemoveKeeps(s, op.key);
        forall k | Find(Remove(s, op.key), k).Some?
          ensures k in others
        {
          FindRemove(s, op.key, k);
          HeldIsLastWritten(capacity, ttl, before, k);
        }
        AtMostItsKeys(Remove(s, op.key), others);
      }
    }
  }

  /** What a `set` stores is served up to and including its expiry: forever when the effective ttl is
      missing or zero, otherwise while no more than the ttl has passed. The call's ttl wins over the default. */
  lemma SetIsServedUntilExpiry<V>(
    capacity: nat, ttl: Option<real>, ops: seq<Op<V>>, key: string, value: V, own: Option<real>, now: real, later: real)
    requires capacity > 0
    ensures var effective := if own.Some? then own else ttl;
            Lookup(Run(capacity, ttl, ops + [Set(key, value, own, now)]), key, later) ==
            if effective.None? || effective.value == 0.0 || later - now <= effective.value then Some(value) else None
  {
    var all := ops + [Set(key, value, own, now)];
    assert all[..|all| - 1] == ops;
    var s, e := Run(capacity, ttl, ops), Entry(key, value, Expiry(own, ttl, now));
    RunKeeps(capacity, ttl, ops);
    Reinsert(s, e);
    var full := Remove(s, key) + [e];
    var kept := Newest(full, capacity);
    SuffixKeeps(full, |full| - |kept|);
    assert kept[|kept| - 1] == e;
    FindIn(kept, |kept| - 1);
  }

  // ---- one run: entries are ordered by last use ----

  /** The index of the last call that set `key` or hit it, or -1. */
  function Touched<V>(capacity: nat, ttl: Option<real>, ops: seq<Op<V>>, key: string): int {
    if ops == [] then -1 else
      var before, op := ops[..|ops| - 1], ops[|ops| - 1];
      if (op.Set? && op.key == key) ||
         (op.Get? && op.key == key && Lookup(Run(capacity, ttl, before), key, op.now).Some?)
      then |ops| - 1
      else Touched(capacity, ttl, before, key)
  }

  /** `lo` < the value of `at` on each key in turn < `hi`. */
  ghost predicate Rising<V>(s: seq<Entry<V>>, at: string -> int, lo: int, hi: int) {
    if s == [] then lo < hi else lo < at(s[0].key) && Rising(s[1..], at, at(s[0].key), hi)
  }

  lemma {:induction false} RisingRemove<V>(
    s: seq<Entry<V>>, key: string, at: string -> int, at': string -> int, lo: int, hi: int)
    requires Rising(s, at, lo, hi) && forall k :: k != key ==> at(k) == at'(k)
    ensures Rising(Remove(s, key), at', lo, hi)
  {
    if s == [] {
    } else {
      if s[0].key == key {
        assert Rising(s[1..], at, lo, hi);
        RisingRemove(s[1..], key, at, at', lo, hi);
      } else {
        RisingRemove(s[1..], key, at, at', at(s[0].key), hi);
      }
    }
  }

  lemma {:induction false} RisingAppend<V>(s: seq<Entry<V>>, e: Entry<V>, at: string -> int, lo: int, hi: int)
    requires Rising(s, at, lo, hi) && at(e.key) == hi
    ensures Rising(s + [e], at, lo, hi + 1)
  {
    if s == [] {
      assert s + [e] == [e];
    } else {
      RisingAppend(s[1..], e, at, at(s[0].key), hi);
      assert (s + [e])[1..] == s[1..] + [e];
    }
  }

  lemma {:induction false} RisingGrow<V>(s: seq<Entry<V>>, at: string -> int, lo: int, hi: int)
    requires Rising(s, at, lo, hi)
    ensures Rising(s, at, lo, hi + 1)
  {
    if s == [] {
    } else {
      RisingGrow(s[1..], at, at(s[0].key), hi);
    }
  }

  lemma {:induction false} RisingDrop<V>(s: seq<Entry<V>>, d: nat, at: string -> int, lo: int, hi: int)
    requires Rising(s, at, lo, hi) && d <= |s|
    ensures Rising(s[d..], at, lo, hi)
    ensures forall i :: 0 <= i < |s| ==> lo < at(s[i].key) < hi
    decreases |s|
  {
    if s == [] {
    } else {
      RisingDrop(s[1..], if d > 0 then d - 1 else 0, at, at(s[0].key), hi);
      if d > 0 {
        assert s[1..][d - 1..] == s[d..];
        assert Rising(s[d..], at, lo, hi);
      }
    }
  }

  lemma {:induction false} RisingAt<V>(s: seq<Entry<V>>, i: nat, j: nat, at: string -> int, lo: int, hi: int)
    requires Rising(s, at, lo, hi) && i < j < |s|
    ensures at(s[i].key) < at(s[j].key)
  {
    if i > 0 {
      RisingAt(s[1..], i - 1, j - 1, at, at(s[0].key), hi);
    } else {
      RisingDrop(s[1..], 0, at, at(s[0].key), hi);
      assert s[j] == s[1..][j - 1];
    }
  }

  lemma {:induction false} RisingRemoveAll<V>(s: seq<Entry<V>>, keys: seq<string>, at: string -> int, lo: int, hi: int)
    requires Rising(s, at, lo, hi)
    ensures Rising(RemoveAll(s, keys), at, lo, hi)
    decreases |keys|
  {
    if keys == [] {
    } else {
      RisingRemove(s, keys[0], at, at, lo, hi);
      RisingRemoveAll(Remove(s, keys[0]), keys[1..], at, lo, hi);
    }
  }

  lemma {:induction false} RisingSame<V>(s: seq<Entry<V>>, at: string -> int, at': string -> int, lo: int, hi: int)
    requires Rising(s, at, lo, hi) && forall k :: at(k) == at'(k)
    ensures Rising(s, at', lo, hi)
  {
    if s == [] {
    } else {
      RisingSame(s[1..], at, at', at(s[0].key), hi);
    }
  }

  /** The store before eviction: what a `set` of `e` builds, or a hit on `e`. */
  lemma RisingReinsert<V>(s: seq<Entry<V>>, e: Entry<V>, at: string -> int, at': string -> int, lo: int, hi: int)
    requires Rising(s, at, lo, hi) && (forall k :: k != e.key ==> at(k) == at'(k)) && at'(e.key) == hi
    ensures Rising(Remove(s, e.key) + [e], at', lo, hi + 1)
  {
    RisingRemove(s, e.key, at, at', lo, hi);
    RisingAppend(Remove(s, e.key), e, at', lo, hi);
  }

  function TouchedAt<V>(capacity: nat, ttl: Option<real>, ops: seq<Op<V>>): string -> int {
    k => Touched(capacity, ttl, ops, k)
  }

  lemma GetRises<V>(s: seq<Entry<V>>, key: string, now: real, at: string -> int, at': string -> int, hi: int)
    requires Rising(s, at, -1, hi) && forall k :: k != key ==> at(k) == at'(k)
    requires at'(key) == if Lookup(s, key, now).Some? then hi else at(key)
    ensures Rising(AfterGet(s, key, now), at', -1, hi + 1)
  {
    var hit := Find(s, key);
    if hit.Some? { FindKey(s, key); }
    if hit.Some? && !Expired(hit.value, now) {
      RisingReinsert(s, hit.value, at, at', -1, hi);
    } else {
      RisingSame(s, at, at', -1, hi);
      RisingRemove(s, key, at', at', -1, hi);
      RisingGrow(AfterGet(s, key, now), at', -1, hi);
    }
  }

  lemma SetRises<V>(s: seq<Entry<V>>, e: Entry<V>, capacity: nat, at: string -> int, at': string -> int, hi: int)
    requires Rising(s, at, -1, hi) && (forall k :: k != e.key ==> at(k) == at'(k)) && at'(e.key) == hi
    ensures Rising(Newest(Remove(s, e.key) + [e], capacity), at', -1, hi + 1)
  {
    RisingReinsert(s, e, at, at', -1, hi);
    var full := Remove(s, e.key) + [e];
    if |full| > capacity {
      RisingDrop(full, |full| - capacity, at', -1, hi + 1);
    }
  }

  lemma DropsRise<V>(s: seq<Entry<V>>, keys: seq<string>, at: string -> int, at': string -> int, hi: int)
    requires Rising(s, at, -1, hi) && forall k :: at(k) == at'(k)
    ensures Rising(RemoveAll(s, keys), at', -1, hi + 1)
  {
    RisingSame(s, at, at', -1, hi);
    RisingRemoveAll(s, keys, at', -1, hi);
    RisingGrow(RemoveAll(s, keys), at', -1, hi);
  }

  lemma {:induction false} StoreIsRising<V>(capacity: nat, ttl: Option<real>, ops: seq<Op<V>>)
    ensures Rising(Run(capacity, ttl, ops), TouchedAt(capacity, ttl, ops), -1, |ops|)
  {
    if ops == [] {
    } else {
      var before, op := ops[..|ops| - 1], ops[|ops| - 1];
      StoreIsRising(capacity, ttl, before);
      var s := Run(capacity, ttl, before);
      var at, at', hi := TouchedAt(capacity, ttl, before), TouchedAt(capacity, ttl, ops), |before|;
      match op
      case Get(key, now) => GetRises(s, key, now, at, at', hi);
      case Set(key, value, t, now) => SetRises(s, Entry(key, value, Expiry(t, ttl, now)), capacity, at, at', hi);
      case Delete(key) =>
        DropsRise(s, [key], at, at', hi);
        assert RemoveAll(Remove(s, key), [key][1..]) == Remove(s, key);
      case DeleteMany(keys) => DropsRise(s, keys, at, at', hi);
      case Clear =>
    }
  }

  /** In every reachable store the entries stand in the order of their last set or hit. */
  lemma OrderedByLastUse<V>(capacity: nat, ttl: Option<real>, ops: seq<Op<V>>, i: nat, j: nat)
    requires i < j < |Run(capacity, ttl, ops)|
    ensures var s := Run(capacity, ttl, ops);
            0 <= Touched(capacity, ttl, ops, s[i].key) < Touched(capacity, ttl, ops, s[j].key) < |ops|
  {
    var s, at := Run(capacity, ttl, ops), TouchedAt(capacity, ttl, ops);
    StoreIsRising(capacity, ttl, ops);
    RisingAt(s, i, j, at, -1, |ops|);
    RisingDrop(s, 0, at, -1, |ops|);
    assert -1 < at(s[i].key) && at(s[j].key) < |ops|;
  }

  /** Whatever a `set` evicts was used before everything that stays. */
  lemma EvictsLeastRecent<V>(
    capacity: nat, ttl: Option<real>, ops: seq<Op<V>>, op: Op<V>, gone: Entry<V>, kept: Entry<V>)
    requires op.Set?
    requires gone in Run(capacity, ttl, ops) && gone.key != op.key
    requires Find(Run(capacity, ttl, ops + [op]), gone.key).None?
    requires kept in Run(capacity, ttl, ops + [op])
    ensures Touched(capacity, ttl, ops + [op], gone.key) < Touched(capacity, ttl, ops + [op], kept.key)
  {
    var all := ops + [op];
    assert all[..|all| - 1] == ops;
    var s, at, at' := Run(capacity, ttl, ops), TouchedAt(capacity, ttl, ops), TouchedAt(capacity, ttl, all);
    var e := Entry(op.key, op.value, Expiry(op.ttl, ttl, op.now));
    var full := Remove(s, op.key) + [e];
    StoreIsRising(capacity, ttl, ops);
    RisingReinsert(s, e, at, at', -1, |ops|);
    RunKeeps(capacity, ttl, ops);
    Reinsert(s, e);
    var i := PositionIn(s, full, gone, e);
    var d := |full| - |Newest(full, capacity)|;
    var j :| 0 <= j < |full[d..]| && full[d..][j] == kept;
    if i >= d {
      SuffixKeeps(full, d);
      FindIn(full[d..], i - d);
      assert false;
    }
    RisingAt(full, i, d + j, at', -1, |ops| + 1);
  }

  lemma PositionIn<V>(s: seq<Entry<V>>, full: seq<Entry<V>>, x: Entry<V>, e: Entry<V>) returns (i: nat)
    requires Distinct(s) && x in s && x.key != e.key && full == Remove(s, e.key) + [e]
    ensures i < |full| && full[i] == x
  {
    var n :| 0 <= n < |s| && s[n] == x;
    FindIn(s, n);
    FindReinsert(s, e, x.key);
    i := FoundAt(full, x.key);
  }

  lemma {:induction false} FoundAt<V>(s: seq<Entry<V>>, key: string) returns (i: nat)
    requires Find(s, key).Some?
    ensures i < |s| && s[i] == Find(s, key).value
  {
    if s[0].key == key {
      i := 0;
    } else {
      i := FoundAt(s[1..], key);
      i := i + 1;
    }
  }
}
