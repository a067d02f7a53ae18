/** Django-style lookup keys: the parsers of ryx-rs/src/q.rs and ryx/queryset.py. */
module LookupKeys {
  import opened Prelude

  /** Position of the first `__`. */
  function FirstSeparator(s: string): (r: Option<nat>)
    ensures r.Some? ==> r.value + 2 <= |s| && s[r.value] == '_' && s[r.value + 1] == '_' &&
                        forall i :: 0 <= i < r.value ==> !(s[i] == '_' && s[i + 1] == '_')
    ensures r.None? ==> forall i :: 0 <= i < |s| - 1 ==> !(s[i] == '_' && s[i + 1] == '_')
  {
    if |s| < 2 then None
    else if s[0] == '_' && s[1] == '_' then Some(0)
    else
      var later := FirstSeparator(s[1..]);
      if later.None? then None else Some(later.value + 1)
  }

  /** `key.split("__")`: cuts at each separator, leftmost first. */
  function Split(key: string): (parts: seq<string>)
    ensures parts != []
  {
    var at := FirstSeparator(key);
    if at.None? then [key] else [key[..at.value]] + Split(key[at.value + 2..])
  }

  function Join(parts: seq<string>): string {
    if parts == [] then "" else if |parts| == 1 then parts[0] else parts[0] + ("__" + Join(parts[1..]))
  }

  lemma Cut(key: string, at: nat)
    requires at + 2 <= |key| && key[at] == '_' && key[at + 1] == '_'
    ensures key == key[..at] + ("__" + key[at + 2..])
  {
    assert key[at..at + 2] == "__";
    assert key == key[..at] + (key[at..at + 2] + key[at + 2..]);
  }

  lemma {:induction false} JoinUndoesSplit(key: string)
    ensures Join(Split(key)) == key
  {
    var at := FirstSeparator(key);
    if at.Some? {
      var rest := key[at.value + 2..];
      JoinUndoesSplit(rest);
      assert Split(key) == [key[..at.value]] + Split(rest) && Split(key)[1..] == Split(rest);
      Cut(key, at.value);
    }
  }

  /** A part holds no separator and, unless it is the last, does not end in `_`: of three underscores the
      first two are the separator. */
  predicate IsPart(part: string, last: bool) {
    FirstSeparator(part).None? && (last || part == "" || part[|part| - 1] != '_')
  }

  lemma FirstPart(key: string)
    ensures var at := FirstSeparator(key);
            IsPart(if at.Some? then key[..at.value] else key, at.None?)
  {
    var at := FirstSeparator(key);
    if at.Some? {
      var part := key[..at.value];
      assert forall j :: 0 <= j < |part| ==> part[j] == key[j];
    }
  }

  predicate AreParts(parts: seq<string>) {
    parts != [] && forall i :: 0 <= i < |parts| ==> IsPart(parts[i], i == |parts| - 1)
  }

  lemma PartsCons(first: string, rest: seq<string>)
    requires rest != []
    ensures AreParts([first] + rest) <==> IsPart(first, false) && AreParts(rest)
  {
    var parts := [first] + rest;
    assert parts[0] == first;
    if AreParts(parts) {
      assert IsPart(parts[0], false);
      forall i | 0 <= i < |rest|
        ensures IsPart(rest[i], i == |rest| - 1)
      {
        assert parts[i + 1] == rest[i];
      }
    }
  }

  /** No part of a key holds the separator, and none but the last ends in `_`. */
  lemma {:induction false} PartsHaveNoSeparator(key: string)
    ensures AreParts(Split(key))
  {
    var at := FirstSeparator(key);
    FirstPart(key);
    if at.Some? {
      var rest := Split(key[at.value + 2..]);
      PartsHaveNoSeparator(key[at.value + 2..]);
      PartsCons(key[..at.value], rest);
      assert Split(key) == [key[..at.value]] + rest;
    }
  }

  lemma SplitAt(first: string, rest: string)
    requires IsPart(first, false)
    ensures Split(first + ("__" + rest)) == [first] + Split(rest)
  {
    var key := first + ("__" + rest);
    assert key[..|first|] == first && key[|first| + 2..] == rest;
    forall i | 0 <= i < |first|
      ensures !(key[i] == '_' && key[i + 1] == '_')
    {
      assert key[i] == first[i] && (i < |first| - 1 ==> key[i + 1] == first[i + 1]);
    }
    FirstIs(key, |first|);
  }

  lemma FirstIs(key: string, at: nat)
    requires at + 2 <= |key| && key[at] == '_' && key[at + 1] == '_'
    requires forall i :: 0 <= i < at ==> !(key[i] == '_' && key[i + 1] == '_')
    ensures FirstSeparator(key) == Some(at)
  {
  }

  /** Parts that hold no separator, and end in `_` only at the very end, are what their join splits into. */
  lemma {:induction false} SplitUndoesJoin(parts: seq<string>)
    requires AreParts(parts)
    ensures Split(Join(parts)) == parts
  {
    if |parts| == 1 {
    } else {
      assert parts == [parts[0]] + parts[1..];
      PartsCons(parts[0], parts[1..]);
      SplitUndoesJoin(parts[1..]);
      SplitAt(parts[0], Join(parts[1..]));
    }
  }

  lemma {:induction false} JoinConcat(a: seq<string>, b: seq<string>)
    requires a != [] && b != []
    ensures Join(a + b) == Join(a) + ("__" + Join(b))
  {
    if |a| == 1 {
      assert (a + b)[1..] == b;
    } else {
      assert (a + b)[1..] == a[1..] + b;
      JoinConcat(a[1..], b);
      var x, y, z := a[0], Join(a[1..]), "__" + Join(b);
      assert x + ("__" + (y + z)) == (x + ("__" + y)) + z;
    }
  }

  /** The rightmost known part after the first. */
  function Rightmost(parts: seq<string>, known: set<string>): (r: Option<nat>)
    ensures r.Some? ==> 1 <= r.value < |parts| && parts[r.value] in known &&
                        forall j :: r.value < j < |parts| ==> parts[j] !in known
    ensures r.None? ==> forall j :: 1 <= j < |parts| ==> parts[j] !in known
  {
    if |parts| <= 1 then None
    else if parts[|parts| - 1] in known then Some(|parts| - 1)
    else
      assert forall j :: 0 <= j < |parts| - 1 ==> parts[..|parts| - 1][j] == parts[j];
      Rightmost(parts[..|parts| - 1], known)
  }

  /** (column, lookup): cut before the rightmost known part; failing that, the first part and "exact". */
  function Parsed(key: string, known: set<string>): (string, string) {
    var parts := Split(key);
    var at := Rightmost(parts, known);
    if at.Some? then (Join(parts[..at.value]), Join(parts[at.value..])) else (parts[0], "exact")
  }

  /** `parse_field_lookup` of q.rs. */
  method ParseFieldLookup(field: string, known: set<string>) returns (column: string, lookup: string)
    ensures (column, lookup) == Parsed(field, known)
  {
    var parts := Split(field);
    if |parts| < 2 {
      return field, "exact";
    }
    var i := |parts|;
    while i > 1
      invariant 1 <= i <= |parts| && forall j :: i <= j < |parts| ==> parts[j] !in known
    {
      i := i - 1;
      if parts[i] in known {
        return Join(parts[..i]), Join(parts[i..]);
      }
    }
    return parts[0], "exact";
  }

  /** `_parse_lookup_key` of queryset.py. */
  method ParseLookupKey(key: string, known: set<string>) returns (field: string, lookup: string)
    ensures (field, lookup) == Parsed(key, known)
  {
    var parts := Split(key);
    if |parts| >= 2 {
      var i := |parts| - 1;
      while i > 0
        invariant 0 <= i < |parts| && forall j :: i < j < |parts| ==> parts[j] !in known
      {
        if parts[i] in known {
          return Join(parts[..i]), Join(parts[i..]);
        }
        i := i - 1;
      }
      return parts[0], "exact";
    }
    return key, "exact";
  }

  lemma CutParts(key: string, at: nat)
    requires 0 < at < |Split(key)|
    ensures Split(Join(Split(key)[..at])) == Split(key)[..at] && Split(Join(Split(key)[at..])) == Split(key)[at..]
  {
    PartsHaveNoSeparator(key);
    SplitUndoesJoin(Split(key)[..at]);
    SplitUndoesJoin(Split(key)[at..]);
  }

  /** `parts` is cut before its last known part, the first not counted. */
  predicate CutsAtLastKnown(parts: seq<string>, before: seq<string>, after: seq<string>, known: set<string>) {
    parts == before + after && before != [] && after != [] && after[0] in known &&
    forall i :: 1 <= i < |after| ==> after[i] !in known
  }

  lemma RightmostCuts(parts: seq<string>, known: set<string>)
    ensures Rightmost(parts, known).Some? <==> exists i :: 1 <= i < |parts| && parts[i] in known
    ensures var at := Rightmost(parts, known);
            at.Some? ==> CutsAtLastKnown(parts, parts[..at.value], parts[at.value..], known)
  {
  }

  /** Where a key is cut: its parts are those of the column and then those of the lookup, which begins
      with the last known part. With no known part after the first, the column is the first part. */
  lemma ParsedParts(key: string, known: set<string>)
    ensures var parts, (column, lookup) := Split(key), Parsed(key, known);
            if exists i :: 1 <= i < |parts| && parts[i] in known
            then CutsAtLastKnown(parts, Split(column), Split(lookup), known)
            else column == parts[0] && lookup == "exact"
  {
    var at := Rightmost(Split(key), known);
    RightmostCuts(Split(key), known);
    if at.Some? {
      CutParts(key, at.value);
    }
  }

  lemma CutKeepsKey(key: string, at: nat)
    requires 0 < at < |Split(key)|
    ensures Join(Split(key)[..at]) + ("__" + Join(Split(key)[at..])) == key
  {
    var parts := Split(key);
    JoinUndoesSplit(key);
    JoinConcat(parts[..at], parts[at..]);
    assert parts[..at] + parts[at..] == parts;
  }

  /** The key is the column, the separator and the lookup exactly when some part after the first is
      known; otherwise the parse invents the lookup, and drops all parts but the first. */
  lemma ParseKeepsKeyIff(key: string, known: set<string>)
    requires "exact" in known
    ensures Parsed(key, known).0 + ("__" + Parsed(key, known).1) == key <==> Rightmost(Split(key), known).Some?
  {
    var parts, at := Split(key), Rightmost(Split(key), known);
    if at.Some? {
      CutKeepsKey(key, at.value);
    } else {
      NothingKnown(key, parts[0], known);
    }
  }

  lemma NothingKnown(key: string, first: string, known: set<string>)
    requires "exact" in known && first == Split(key)[0] && Rightmost(Split(key), known).None?
    ensures first + ("__" + "exact") != key
  {
    if first + ("__" + "exact") == key {
      SplitsOffExact(key, first);
    }
  }

  lemma SplitsOffExact(key: string, first: string)
    requires first == Split(key)[0] && first + ("__" + "exact") == key
    ensures |Split(key)| == 2 && Split(key)[1] == "exact"
  {
    var at := FirstSeparator(key);
    assert |key| > |first|;
    assert key[at.value + 2..] == "exact";
    assert forall i :: 0 <= i < 5 ==> "exact"[i] != '_';
  }

  /** A key that ends in a known part has that part alone as its lookup, whatever stands before it:
      `created_at__year__gte` is ("created_at__year", "gte"). */
  lemma LastKnownPartIsLookup(key: string, known: set<string>)
    requires |Split(key)| > 1 && Split(key)[|Split(key)| - 1] in known
    ensures var parts := Split(key);
            Parsed(key, known) == (Join(parts[..|parts| - 1]), parts[|parts| - 1]) &&
            FirstSeparator(Parsed(key, known).1).None?
  {
    var parts := Split(key);
    assert parts[|parts| - 1..] == [parts[|parts| - 1]];
    PartsHaveNoSeparator(key);
  }
}
