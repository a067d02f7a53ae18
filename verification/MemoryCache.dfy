/** The in-process LRU cache with per-entry expiry (ryx/cache.py).
    Its OrderedDict is a sequence of entries with distinct keys, least recently used first. */
module MemoryCache {
  import opened Prelude

  datatype Entry<V> = Entry(key: string, value: V, expiresAt: Option<real>)

  /** One call on the cache; `now` is the clock reading the call makes. */
  datatype Op<V> =
    | Get(key: string, now: real)
    | Set(key: string, value: V, ttl: Option<real>, now: real)
    | Delete(key: string)
    | DeleteMany(keys: seq<string>)
    | Clear

  // ---- the ordered dictionary ----

  function Find<V>(s: seq<Entry<V>>, key: string): Option<Entry<V>> {
    if s == [] then None else if s[0].key == key then Some(s[0]) else Find(s[1..], key)
  }

  function Remove<V>(s: seq<Entry<V>>, key: string): seq<Entry<V>> {
    if s == [] then [] else if s[0].key == key then Remove(s[1..], key) else [s[0]] + Remove(s[1..], key)
  }

  function RemoveAll<V>(s: seq<Entry<V>>, keys: seq<string>): seq<Entry<V>>
    decreases |keys|
  {
    if keys == [] then s else RemoveAll(Remove(s, keys[0]), keys[1..])
  }

  predicate Distinct<V>(s: seq<Entry<V>>) {
    s == [] || (Find(s[1..], s[0].key).None? && Distinct(s[1..]))
  }

  // ---- one call, as a function of the store ----

  /** A ttl of None falls back to the default; a ttl of zero means that the entry never expires. */
  function Expiry(ttl: Option<real>, defaultTtl: Option<real>, now: real): Option<real> {
    var effective := if ttl.Some? then ttl else defaultTtl;
    if effective.Some? && effective.value != 0.0 then Some(now + effective.value) else None
  }

  predicate Expired<V>(e: Entry<V>, now: real) {
    e.expiresAt.Some? && now > e.expiresAt.value
  }

  function Lookup<V>(s: seq<Entry<V>>, key: string, now: real): Option<V> {
    var hit := Find(s, key);
    if hit.Some? && !Expired(hit.value, now) then Some(hit.value.value) else None
  }

  function AfterGet<V>(s: seq<Entry<V>>, key: string, now: real): seq<Entry<V>> {
    var hit := Find(s, key);
    if hit.None? then s
    else if Expired(hit.value, now) then Remove(s, key)
    else Remove(s, key) + [hit.value]
  }

  function Newest<V>(s: seq<Entry<V>>, capacity: nat): seq<Entry<V>> {
    if |s| > capacity then s[|s| - capacity..] else s
  }

  function Step<V>(capacity: nat, defaultTtl: Option<real>, s: seq<Entry<V>>, op: Op<V>): seq<Entry<V>> {
    match op
    case Get(key, now) => AfterGet(s, key, now)
    case Set(key, value, ttl, now) =>
      Newest(Remove(s, key) + [Entry(key, value, Expiry(ttl, defaultTtl, now))], capacity)
    case Delete(key) => Remove(s, key)
    case DeleteMany(keys) => RemoveAll(s, keys)
    case Clear => []
  }

  /** The store after a whole run of calls on a fresh cache. */
  function Run<V>(capacity: nat, defaultTtl: Option<real>, ops: seq<Op<V>>): seq<Entry<V>> {
    if ops == [] then [] else
      Step(capacity, defaultTtl, Run(capacity, defaultTtl, ops[..|ops| - 1]), ops[|ops| - 1])
  }

  // ---- what the dictionary operations do ----

  lemma {:induction false} FindIn<V>(s: seq<Entry<V>>, i: nat)
    requires Distinct(s) && i < |s|
    ensures Find(s, s[i].key) == Some(s[i])
  {
    if i == 0 {
    } else {
      FindIn(s[1..], i - 1);
    }
  }

  lemma {:induction false} FindRemove<V>(s: seq<Entry<V>>, key: string, k: string)
    ensures Find(Remove(s, key), k) == if k == key then None else Find(s, k)
  {
    if s == [] {
    } else {
      FindRemove(s[1..], key, k);
    }
  }

  lemma {:induction false} FindAppend<V>(s: seq<Entry<V>>, e: Entry<V>, k: string)
    ensures Find(s + [e], k) == if Find(s, k).Some? then Find(s, k) else if e.key == k then Some(e) else None
  {
    if s == [] {
    } else {
      FindAppend(s[1..], e, k);
      assert (s + [e])[1..] == s[1..] + [e];
    }
  }

  lemma {:induction false} RemoveAbsent<V>(s: seq<Entry<V>>, key: string)
    requires Find(s, key).None?
    ensures Remove(s, key) == s
  {
    if s == [] {
    } else {
      RemoveAbsent(s[1..], key);
    }
  }

  lemma {:induction false} RemoveKeeps<V>(s: seq<Entry<V>>, key: string)
    requires Distinct(s)
    ensures Distinct(Remove(s, key))
    ensures |Remove(s, key)| == |s| - if Find(s, key).Some? then 1 else 0
  {
    if s == [] {
    } else {
      RemoveKeeps(s[1..], key);
      if s[0].key == key {
        RemoveAbsent(s[1..], key);
      } else {
        FindRemove(s[1..], key, s[0].key);
      }
    }
  }

  lemma {:induction false} AppendKeeps<V>(s: seq<Entry<V>>, e: Entry<V>)
    requires Distinct(s) && Find(s, e.key).None?
    ensures Distinct(s + [e])
  {
    if s == [] {
    } else {
      AppendKeeps(s[1..], e);
      FindAppend(s[1..], e, s[0].key);
      assert (s + [e])[1..] == s[1..] + [e];
    }
  }

  lemma {:induction false} FindKey<V>(s: seq<Entry<V>>, k: string)
    requires Find(s, k).Some?
    ensures Find(s, k).value.key == k
  {
    if s[0].key != k {
      FindKey(s[1..], k);
    }
  }

  /** Moving an entry to the recent end: the old one under its key goes, the new one comes last. */
  lemma Reinsert<V>(s: seq<Entry<V>>, e: Entry<V>)
    requires Distinct(s)
    ensures Distinct(Remove(s, e.key) + [e])
    ensures |Remove(s, e.key) + [e]| == |s| + if Find(s, e.key).Some? then 0 else 1
  {
    RemoveKeeps(s, e.key);
    FindRemove(s, e.key, e.key);
    AppendKeeps(Remove(s, e.key), e);
  }

  lemma FindReinsert<V>(s: seq<Entry<V>>, e: Entry<V>, k: string)
    ensures Find(Remove(s, e.key) + [e], k) == if k == e.key then Some(e) else Find(s, k)
  {
    FindRemove(s, e.key, k);
    FindAppend(Remove(s, e.key), e, k);
  }

  lemma {:induction false} RemoveAllKeeps<V>(s: seq<Entry<V>>, keys: seq<string>)
    requires Distinct(s)
    ensures Distinct(RemoveAll(s, keys)) && |RemoveAll(s, keys)| <= |s|
    decreases |keys|
  {
    if keys == [] {
    } else {
      RemoveKeeps(s, keys[0]);
      RemoveAllKeeps(Remove(s, keys[0]), keys[1..]);
    }
  }

  lemma {:induction false} FindRemoveAll<V>(s: seq<Entry<V>>, keys: seq<string>, k: string)
    ensures Find(RemoveAll(s, keys), k) == if k in keys then None else Find(s, k)
    decreases |keys|
  {
    if keys == [] {
    } else {
      FindRemove(s, keys[0], k);
      FindRemoveAll(Remove(s, keys[0]), keys[1..], k);
    }
  }

  lemma {:induction false} SuffixKeeps<V>(s: seq<Entry<V>>, d: nat)
    requires Distinct(s) && d <= |s|
    ensures Distinct(s[d..])
  {
    if d == 0 {
    } else {
      SuffixKeeps(s[1..], d - 1);
      assert s[1..][d - 1..] == s[d..];
    }
  }

  /** Dropping from the old end never changes what an entry that stays holds. */
  lemma {:induction false} FindSuffix<V>(s: seq<Entry<V>>, d: nat, k: string)
    requires Distinct(s) && d <= |s|
    ensures Find(s[d..], k).Some? ==> Find(s, k) == Find(s[d..], k)
  {
    if d == 0 {
    } else {
      FindSuffix(s[1..], d - 1, k);
      assert s[1..][d - 1..] == s[d..];
      if Find(s[1..], k).Some? && s[0].key == k {
        assert false;
      }
    }
  }

  lemma SetKeeps<V>(capacity: nat, s: seq<Entry<V>>, e: Entry<V>)
    requires Distinct(s)
    ensures Distinct(Newest(Remove(s, e.key) + [e], capacity))
    ensures |Newest(Remove(s, e.key) + [e], capacity)| <= capacity
  {
    Reinsert(s, e);
    var full := Remove(s, e.key) + [e];
    if |full| > capacity { SuffixKeeps(full, |full| - capacity); }
  }

  lemma GetKeeps<V>(s: seq<Entry<V>>, key: string, now: real)
    requires Distinct(s)
    ensures Distinct(AfterGet(s, key, now)) && |AfterGet(s, key, now)| <= |s|
  {
    RemoveKeeps(s, key);
    if Find(s, key).Some? {
      FindKey(s, key);
      Reinsert(s, Find(s, key).value);
    }
  }

  /** What a `get` leaves: an entry that was there and has expired is gone, one that answers stands at the
      recent end, and every other key has the entry it had, in the order it had. */
  lemma GetLeaves<V>(s: seq<Entry<V>>, key: string, now: real, k: string)
    ensures var after, hit := AfterGet(s, key, now), Lookup(s, key, now);
            Find(after, k) == (if k == key && hit.None? then None else Find(s, k)) &&
            (hit.Some? ==> after != [] && after[|after| - 1].key == key) &&
            Remove(after, key) == Remove(s, key)
  {
    FindRemove(s, key, k);
    FindRemove(s, key, key);
    RemoveAbsent(Remove(s, key), key);
    if Find(s, key).Some? {
      var e := Find(s, key).value;
      FindKey(s, key);
      FindReinsert(s, e, k);
      RemoveLast(Remove(s, key), e);
    } else {
      RemoveAbsent(s, key);
    }
  }

  lemma {:induction false} RemoveLast<V>(s: seq<Entry<V>>, e: Entry<V>)
    ensures Remove(s + [e], e.key) == Remove(s, e.key)
  {
    if s == [] {
      assert s + [e] == [e] && [e][1..] == [];
    } else {
      assert (s + [e])[0] == s[0] && (s + [e])[1..] == s[1..] + [e];
      RemoveLast(s[1..], e);
    }
  }

  lemma {:induction false} RunKeeps<V>(capacity: nat, defaultTtl: Option<real>, ops: seq<Op<V>>)
    ensures Distinct(Run(capacity, defaultTtl, ops))
    ensures |Run(capacity, defaultTtl, ops)| <= capacity
  {
    if ops == [] {
    } else {
      var before := ops[..|ops| - 1];
      RunKeeps(capacity, defaultTtl, before);
      var s := Run(capacity, defaultTtl, before);
      match ops[|ops| - 1]
      case Get(key, now) => GetKeeps(s, key, now);
      case Set(key, value, ttl, now) => SetKeeps(capacity, s, Entry(key, value, Expiry(ttl, defaultTtl, now)));
      case Delete(key) => RemoveKeeps(s, key);
      case DeleteMany(keys) => RemoveAllKeeps(s, keys);
      case Clear =>
    }
  }

  // ---- the listing ----

  /** `keys()` lists strictly unexpired entries (`now < exp`), while `get` serves up to `now == exp`. */
  function Listed<V>(s: seq<Entry<V>>, now: real, matches: string -> bool): seq<string> {
    if s == [] then []
    else if (s[0].expiresAt.None? || now < s[0].expiresAt.value) && matches(s[0].key)
    then [s[0].key] + Listed(s[1..], now, matches)
    else Listed(s[1..], now, matches)
  }

  /** A matching key is listed exactly when a `get` at the same instant would hit,
      except at the very instant of expiry. */
  lemma {:induction false} ListedIffHit<V>(s: seq<Entry<V>>, now: real, matches: string -> bool, key: string)
    requires Distinct(s)
    ensures key in Listed(s, now, matches) <==>
            matches(key) && Lookup(s, key, now).Some? && Find(s, key).value.expiresAt != Some(now)
  {
    if s == [] {
    } else {
      ListedIffHit(s[1..], now, matches, key);
    }
  }

  lemma {:induction false} ListedAppend<V>(s: seq<Entry<V>>, t: seq<Entry<V>>, now: real, matches: string -> bool)
    ensures Listed(s + t, now, matches) == Listed(s, now, matches) + Listed(t, now, matches)
  {
    if s == [] {
      assert s + t == t;
    } else {
      ListedAppend(s[1..], t, now, matches);
      assert (s + t)[0] == s[0] && (s + t)[1..] == s[1..] + t;
      var a, b := Listed(s[1..], now, matches), Listed(t, now, matches);
      assert [s[0].key] + (a + b) == ([s[0].key] + a) + b;
    }
  }

  /** The listing is in store order, an entry at a time: `at` holds the places of the listed entries. */
  lemma {:induction false} ListedInOrder<V>(s: seq<Entry<V>>, now: real, matches: string -> bool)
    returns (at: seq<nat>)
    ensures |at| == |Listed(s, now, matches)|
    ensures forall i :: 0 <= i < |at| ==> at[i] < |s| && s[at[i]].key == Listed(s, now, matches)[i]
    ensures forall i, j :: 0 <= i < j < |at| ==> at[i] < at[j]
    ensures forall n :: 0 <= n < |s| ==>
            (n in at <==> matches(s[n].key) && (s[n].expiresAt.Some? ==> now < s[n].expiresAt.value))
  {
    at := [];
    if s == [] {
    } else {
      var last := |s| - 1;
      at := ListedInOrder(s[..last], now, matches);
      ListedAppend(s[..last], [s[last]], now, matches);
      assert s[..last] + [s[last]] == s && [s[last]][1..] == [];
      if matches(s[last].key) && (s[last].expiresAt.Some? ==> now < s[last].expiresAt.value) {
        at := at + [last];
      }
    }
  }

  // ---- the object ----

  class Cache<V> {
    const maxSize: nat
    const defaultTtl: Option<real>
    var store: seq<Entry<V>>
    ghost var history: seq<Op<V>>

    /** The store is the one that the recorded calls lead to. */
    ghost predicate Valid()
      reads this
    {
      store == Run(maxSize, defaultTtl, history)
    }

    constructor (maxSize: nat, ttl: Option<real>)
      ensures Valid() && history == [] && this.maxSize == maxSize && defaultTtl == ttl
    {
      this.maxSize := maxSize;
      defaultTtl := ttl;
      store := [];
      history := [];
    }

    ghost method Record(op: Op<V>)
      requires Run(maxSize, defaultTtl, history + [op]) == store
      modifies this`history
      ensures Valid() && history == old(history) + [op]
    {
      history := history + [op];
    }

    lemma NextRun(h: seq<Op<V>>, op: Op<V>)
      ensures Run(maxSize, defaultTtl, h + [op]) ==
              Step(maxSize, defaultTtl, Run(maxSize, defaultTtl, h), op)
    {
      assert (h + [op])[..|h + [op]| - 1] == h;
    }

    method Get(key: string, now: real) returns (value: Option<V>)
      requires Valid()
      modifies this
      ensures Valid() && history == old(history) + [Op.Get(key, now)]
      ensures store == AfterGet(old(store), key, now)
      ensures value == Lookup(old(store), key, now)
    {
      NextRun(history, Op.Get(key, now));
      var hit := Find(store, key);
      if hit.None? {
        value := None;
      } else if hit.value.expiresAt.Some? && now > hit.value.expiresAt.value {
        store := Remove(store, key);
        value := None;
      } else {
        store := Remove(store, key) + [hit.value];
        value := Some(hit.value.value);
      }
      Record(Op.Get(key, now));
    }

    method EvictOldest()
      modifies this`store
      ensures store == Newest(old(store), maxSize)
      ensures |store| == (if old(|store|) > maxSize then maxSize else old(|store|))
      ensures store == old(store)[old(|store|) - |store|..]
    {
      while |store| > maxSize
        invariant |store| <= old(|store|) && store == old(store)[old(|store|) - |store|..]
        invariant |store| >= maxSize || store == old(store)
      {
        store := store[1..];
      }
    }

    method Set(key: string, value: V, ttl: Option<real>, now: real)
      requires Valid()
      modifies this
      ensures Valid() && history == old(history) + [Op.Set(key, value, ttl, now)]
      ensures store == Step(maxSize, defaultTtl, old(store), Op.Set(key, value, ttl, now))
    {
      NextRun(history, Op.Set(key, value, ttl, now));
      var effective := if ttl.Some? then ttl else defaultTtl;
      var expiresAt := if effective.Some? && effective.value != 0.0 then Some(now + effective.value) else None;
      store := Remove(store, key) + [Entry(key, value, expiresAt)];
      EvictOldest();
      Record(Op.Set(key, value, ttl, now));
    }

    method Delete(key: string)
      requires Valid()
      modifies this
      ensures Valid() && history == old(history) + [Op.Delete(key)]
      ensures store == Remove(old(store), key)
    {
      NextRun(history, Op.Delete(key));
      store := Remove(store, key);
      Record(Op.Delete(key));
    }

    method DeleteMany(keys: seq<string>)
      requires Valid()
      modifies this
      ensures Valid() && history == old(history) + [Op.DeleteMany(keys)]
      ensures store == RemoveAll(old(store), keys)
    {
      NextRun(history, Op.DeleteMany(keys));
      for i := 0 to |keys|
        invariant RemoveAll(store, keys[i..]) == RemoveAll(old(store), keys)
        invariant history == old(history)
      {
        store := Remove(store, keys[i]);
      }
      Record(Op.DeleteMany(keys));
    }

    method Clear()
      requires Valid()
      modifies this
      ensures Valid() && history == old(history) + [Op.Clear] && store == []
    {
      NextRun(history, Op.Clear);
      store := [];
      Record(Op.Clear);
    }

    method Keys(now: real, matches: string -> bool) returns (keys: seq<string>)
      ensures keys == Listed(store, now, matches)
    {
      keys := [];
      for i := 0 to |store|
        invariant keys == Listed(store[..i], now, matches)
      {
        ListedAppend(store[..i], [store[i]], now, matches);
        assert store[..i] + [store[i]] == store[..i + 1];
        assert [store[i]][1..] == [];
        if (store[i].expiresAt.None? || now < store[i].expiresAt.value) && matches(store[i].key) {
          keys := keys + [store[i].key];
        }
      }
      assert store[..|store|] == store;
    }
  }
}
