/** Bind values, three-valued truth, and what the drivers bind. */
module SqlValues {
  import opened Prelude

  datatype SqlValue =
    | Null
    | Bool(b: bool)
    | Int(i: int)
    | Float(f: real)
    | Text(s: string)
    | Date(s: string)
    | DateTime(s: string)
    | Time(s: string)
    | Uuid(s: string)
    | Decimal(s: string)
    | Json(s: string)
    | Vector(v: seq<real>)
    | List(items: seq<SqlValue>)

  /** SQL truth values. */
  datatype Tri = True | Unknown | False

  function Not(a: Tri): Tri {
    match a case True => False case Unknown => Unknown case False => True
  }

  function And(a: Tri, b: Tri): Tri {
    if a == False || b == False then False else if a == True && b == True then True else Unknown
  }

  function Or(a: Tri, b: Tri): Tri {
    if a == True || b == True then True else if a == False && b == False then False else Unknown
  }

  function Rank(a: Tri): int {
    match a case False => 0 case Unknown => 1 case True => 2
  }

  /** AND is the smaller, OR the larger of two truth values, and NOT turns their order round. */
  lemma TriIsOrdered(a: Tri, b: Tri)
    ensures Rank(And(a, b)) == if Rank(a) < Rank(b) then Rank(a) else Rank(b)
    ensures Rank(Or(a, b)) == if Rank(a) < Rank(b) then Rank(b) else Rank(a)
    ensures Rank(Not(a)) == 2 - Rank(a)
  {
  }

  /** The values the drivers really bind: a List is skipped with a warning. */
  function Bound(values: seq<SqlValue>): seq<SqlValue> {
    if values == [] then []
    else if values[0].List? then Bound(values[1..])
    else [values[0]] + Bound(values[1..])
  }

  predicate Bindable(values: seq<SqlValue>) {
    forall i :: 0 <= i < |values| ==> !values[i].List?
  }

  /** One bind per value happens exactly when no value is a List. */
  lemma {:induction false} BoundAll(values: seq<SqlValue>)
    ensures |Bound(values)| <= |values|
    ensures |Bound(values)| == |values| <==> Bindable(values)
    ensures Bindable(values) ==> Bound(values) == values
    ensures forall v: SqlValue :: Bound([v]) == if v.List? then [] else [v]
  {
    assert forall v: SqlValue :: [v][1..] == [];
    if values == [] {
    } else {
      BoundAll(values[1..]);
      assert Bindable(values) <==> !values[0].List? && Bindable(values[1..]) by {
        assert values == [values[0]] + values[1..];
      }
    }
  }

  lemma {:induction false} BoundAppend(a: seq<SqlValue>, b: seq<SqlValue>)
    ensures Bound(a + b) == Bound(a) + Bound(b)
  {
    if a == [] {
      assert a + b == b;
    } else {
      BoundAppend(a[1..], b);
      assert (a + b)[1..] == a[1..] + b;
    }
  }

  /** The drivers' bind loop. */
  method BindValues(values: seq<SqlValue>) returns (bound: seq<SqlValue>)
    ensures bound == Bound(values)
    ensures Bindable(values) ==> bound == values
  {
    bound := [];
    for i := 0 to |values|
      invariant bound == Bound(values[..i])
    {
      BoundAppend(values[..i], [values[i]]);
      assert values[..i] + [values[i]] == values[..i + 1];
      assert [values[i]][1..] == [];
      if !values[i].List? {
        bound := bound + [values[i]];
      }
    }
    assert values[..|values|] == values;
    BoundAll(values);
  }
}
