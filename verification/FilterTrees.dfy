/** Boolean filters: Python's Q objects, their dict form, the Rust QNode, and the query node that
    `filter` and `exclude` build (ryx/queryset.py, ryx-python/src, ryx-rs/src, ryx-query/src/ast.rs). */
module FilterTrees {
  import opened Prelude
  import opened SqlValues
  import LookupKeys

  /** A single comparison; `truth` in the evaluators is its value on some row. */
  datatype Atom = Atom(field: string, lookup: string, value: SqlValue)

  datatype QNode =
    | Leaf(field: string, lookup: string, value: SqlValue, negated: bool)
    | AndNode(children: seq<QNode>)
    | OrNode(children: seq<QNode>)
    | NotNode(child: QNode)

  function Negated(negated: bool, t: Tri): Tri {
    if negated then Not(t) else t
  }

  /** The three-valued value of a tree on a row. */
  function Eval(q: QNode, truth: Atom -> Tri): Tri
    decreases q, 0
  {
    match q
    case Leaf(field, lookup, value, negated) => Negated(negated, truth(Atom(field, lookup, value)))
    case AndNode(children) => EvalAll(children, truth)
    case OrNode(children) => EvalAny(children, truth)
    case NotNode(child) => Not(Eval(child, truth))
  }

  function EvalAll(qs: seq<QNode>, truth: Atom -> Tri): Tri
    decreases qs, 1
  {
    if qs == [] then True else And(Eval(qs[0], truth), EvalAll(qs[1..], truth))
  }

  function EvalAny(qs: seq<QNode>, truth: Atom -> Tri): Tri
    decreases qs, 1
  {
    if qs == [] then False else Or(Eval(qs[0], truth), EvalAny(qs[1..], truth))
  }

  function Conjunction(ts: seq<Tri>): Tri {
    if ts == [] then True else And(ts[0], Conjunction(ts[1..]))
  }

  lemma {:induction false} ConjunctionConcat(a: seq<Tri>, b: seq<Tri>)
    ensures Conjunction(a + b) == And(Conjunction(a), Conjunction(b))
  {
    if a == [] {
      assert a + b == b;
    } else {
      assert (a + b)[1..] == a[1..] + b;
      ConjunctionConcat(a[1..], b);
    }
  }

  // ---- Python's Q ----

  datatype Connector = AND | OR

  /** The object: keyword leaves, or children under a connector. */
  datatype PyQ = PyQ(leaves: seq<(string, SqlValue)>, connector: Connector, negated: bool, children: seq<PyQ>)

  /** How programs write one: `Q(**kwargs)`, `a & b`, `a | b`, `~a`. */
  datatype Expr =
    | Kwargs(pairs: seq<(string, SqlValue)>)
    | Conj(a: Expr, b: Expr)
    | Disj(a: Expr, b: Expr)
    | Inv(a: Expr)

  function Build(e: Expr): PyQ {
    match e
    case Kwargs(pairs) => PyQ(pairs, AND, false, [])
    case Conj(a, b) => PyQ([], AND, false, [Build(a), Build(b)])
    case Disj(a, b) => PyQ([], OR, false, [Build(a), Build(b)])
    case Inv(a) => PyQ([], AND, true, [Build(a)])
  }

  function AtomOf(key: string, value: SqlValue, known: set<string>): Atom {
    var (field, lookup) := LookupKeys.Parsed(key, known);
    Atom(field, lookup, value)
  }

  /** What the expression is meant to say. */
  function Meaning(e: Expr, known: set<string>, truth: Atom -> Tri): Tri {
    match e
    case Kwargs(pairs) => Conjunction(KwargTruths(pairs, known, truth))
    case Conj(a, b) => And(Meaning(a, known, truth), Meaning(b, known, truth))
    case Disj(a, b) => Or(Meaning(a, known, truth), Meaning(b, known, truth))
    case Inv(a) => Not(Meaning(a, known, truth))
  }

  function KwargTruths(pairs: seq<(string, SqlValue)>, known: set<string>, truth: Atom -> Tri): seq<Tri> {
    if pairs == [] then []
    else
      var (column, lookup) := LookupKeys.Parsed(pairs[0].0, known);
      [truth(Atom(column, lookup, pairs[0].1))] + KwargTruths(pairs[1..], known, truth)
  }

  /** The dict handed to Rust, any key of which may be missing. */
  datatype Dict = Dict(
    type_: Option<string>, field: Option<string>, lookup: Option<string>, value: Option<SqlValue>,
    negated: Option<bool>, children: DictList)

  datatype DictList = Absent | Present(items: seq<Dict>)

  function BranchDict(type_: string, children: seq<Dict>): Dict {
    Dict(Some(type_), None, None, None, None, Present(children))
  }

  /** `to_q_node` */
  function ToQNode(q: PyQ, known: set<string>): Dict
    decreases q, 0
  {
    if q.children != [] then
      var children := ToQNodes(q.children, known);
      if q.negated && |q.children| == 1 then BranchDict("not", children)
      else BranchDict(if q.connector.AND? then "and" else "or", children)
    else
      var leaves := LeafDicts(q.leaves, q.negated, known);
      if |leaves| == 1 then leaves[0] else BranchDict("and", leaves)
  }

  function ToQNodes(qs: seq<PyQ>, known: set<string>): (r: seq<Dict>)
    ensures |r| == |qs|
    decreases qs, 1
  {
    if qs == [] then [] else [ToQNode(qs[0], known)] + ToQNodes(qs[1..], known)
  }

  function LeafDicts(pairs: seq<(string, SqlValue)>, negated: bool, known: set<string>): seq<Dict> {
    if pairs == [] then []
    else
      var a := AtomOf(pairs[0].0, pairs[0].1, known);
      [Dict(Some("leaf"), Some(a.field), Some(a.lookup), Some(a.value), Some(negated), Absent)] +
      LeafDicts(pairs[1..], negated, known)
  }

  // ---- the dict reader ----

  datatype ValueError =
    MissingType | MissingField | MissingLookup | MissingValue | MissingChildren | EmptyNot | UnknownType

  /** `py_dict_to_qnode` */
  function FromDict(d: Dict): Result<QNode, ValueError>
    decreases d, 0
  {
    if d.type_.None? then Err(MissingType)
    else if d.type_.value == "leaf" then
      if d.field.None? then Err(MissingField)
      else if d.lookup.None? then Err(MissingLookup)
      else if d.value.None? then Err(MissingValue)
      else Ok(Leaf(d.field.value, d.lookup.value, d.value.value, d.negated.Some? && d.negated.value))
    else if d.type_.value != "and" && d.type_.value != "or" && d.type_.value != "not" then Err(UnknownType)
    else if d.children.Absent? then Err(MissingChildren)
    else
      var children := FromDicts(d.children.items);
      if children.Err? then Err(children.error)
      else if d.type_.value == "and" then Ok(AndNode(children.value))
      else if d.type_.value == "or" then Ok(OrNode(children.value))
      else if children.value == [] then Err(EmptyNot)
      else Ok(NotNode(children.value[0]))
  }

  /** `py_dict_children`: stops at the first error. */
  function FromDicts(ds: seq<Dict>): (r: Result<seq<QNode>, ValueError>)
    ensures r.Ok? ==> |r.value| == |ds|
    decreases ds, 1
  {
    if ds == [] then Ok([])
    else
      var first := FromDict(ds[0]);
      if first.Err? then Err(first.error)
      else
        var rest := FromDicts(ds[1..]);
        if rest.Err? then Err(rest.error) else Ok([first.value] + rest.value)
  }

  // ---- what the reader accepts ----

  /** What a dict says on a row, None when it says nothing: a leaf needs its three parts, a branch its
      list of readable children, and a NOT a child, the first of which it negates. */
  function DictTruth(d: Dict, truth: Atom -> Tri): Option<Tri>
    decreases d, 0
  {
    if d.type_ == Some("leaf") then
      if d.field.None? || d.lookup.None? || d.value.None? then None
      else
        var t := truth(Atom(d.field.value, d.lookup.value, d.value.value));
        Some(if d.negated == Some(true) then Not(t) else t)
    else if d.type_ !in [Some("and"), Some("or"), Some("not")] || d.children.Absent? then None
    else
      var ts := DictTruths(d.children.items, truth);
      if ts.None? then None
      else if d.type_ == Some("and") then Some(Conjunction(ts.value))
      else if d.type_ == Some("or") then Some(Not(Conjunction(Nots(ts.value))))
      else if ts.value == [] then None
      else Some(Not(ts.value[0]))
  }

  function DictTruths(ds: seq<Dict>, truth: Atom -> Tri): Option<seq<Tri>>
    decreases ds, 1
  {
    if ds == [] then Some([])
    else
      var first, rest := DictTruth(ds[0], truth), DictTruths(ds[1..], truth);
      if first.None? || rest.None? then None else Some([first.value] + rest.value)
  }

  function Nots(ts: seq<Tri>): seq<Tri> {
    seq(|ts|, i requires 0 <= i < |ts| => Not(ts[i]))
  }

  /** The values of the children read, one by one. */
  function Evals(qs: seq<QNode>, truth: Atom -> Tri): seq<Tri> {
    seq(|qs|, i requires 0 <= i < |qs| => Eval(qs[i], truth))
  }

  /** Any dict at all is accepted exactly when it says something, and then it is read as that. */
  lemma {:induction false} DictKeepsMeaning(d: Dict, truth: Atom -> Tri)
    ensures var read := FromDict(d);
            DictTruth(d, truth) == if read.Ok? then Some(Eval(read.value, truth)) else None
    decreases d, 0
  {
    if d.type_ == Some("leaf") {
    } else if d.type_ in [Some("and"), Some("or"), Some("not")] && d.children.Present? {
      DictsKeepMeaning(d.children.items, truth);
      var read := FromDicts(d.children.items);
      if read.Ok? {
        EvalAllIs(read.value, Evals(read.value, truth), truth);
        EvalAnyIs(read.value, Nots(Evals(read.value, truth)), truth);
      }
    }
  }

  lemma {:induction false} DictsKeepMeaning(ds: seq<Dict>, truth: Atom -> Tri)
    ensures var read := FromDicts(ds);
            DictTruths(ds, truth) == if read.Ok? then Some(Evals(read.value, truth)) else None
    decreases ds, 1
  {
    if ds == [] {
    } else {
      DictKeepsMeaning(ds[0], truth);
      DictsKeepMeaning(ds[1..], truth);
      if FromDicts(ds).Ok? {
        assert Evals(FromDicts(ds).value, truth) ==
               [Eval(FromDict(ds[0]).value, truth)] + Evals(FromDicts(ds[1..]).value, truth);
      }
    }
  }

  // ---- the trip from Python to Rust keeps the meaning ----

  lemma ReadCons(d: Dict, ds: seq<Dict>)
    requires FromDict(d).Ok? && FromDicts(ds).Ok?
    ensures FromDicts([d] + ds) == Ok([FromDict(d).value] + FromDicts(ds).value)
  {
    assert ([d] + ds)[0] == d && ([d] + ds)[1..] == ds;
  }

  lemma EvalCons(q: QNode, qs: seq<QNode>, truth: Atom -> Tri)
    ensures EvalAll([q] + qs, truth) == And(Eval(q, truth), EvalAll(qs, truth))
    ensures EvalAny([q] + qs, truth) == Or(Eval(q, truth), EvalAny(qs, truth))
  {
    assert ([q] + qs)[0] == q && ([q] + qs)[1..] == qs;
  }

  lemma {:induction false} LeavesKeepMeaning(pairs: seq<(string, SqlValue)>, known: set<string>, truth: Atom -> Tri)
    ensures |LeafDicts(pairs, false, known)| == |pairs|
    ensures var read := FromDicts(LeafDicts(pairs, false, known));
            read.Ok? && EvalAll(read.value, truth) == Conjunction(KwargTruths(pairs, known, truth))
  {
    if pairs == [] {
      assert FromDicts([]) == Ok([]);
      assert EvalAll([], truth) == True && EvalAny([], truth) == False;
    } else {
      LeavesKeepMeaning(pairs[1..], known, truth);
      var a := AtomOf(pairs[0].0, pairs[0].1, known);
      var leaf := Dict(Some("leaf"), Some(a.field), Some(a.lookup), Some(a.value), Some(false), Absent);
      var rest := LeafDicts(pairs[1..], false, known);
      ReadCons(leaf, rest);
      EvalCons(FromDict(leaf).value, FromDicts(rest).value, truth);
    }
  }

  lemma OneChild(a: Dict)
    requires FromDict(a).Ok?
    ensures FromDicts([a]) == Ok([FromDict(a).value])
  {
    assert FromDicts([]) == Ok([]);
    ReadCons(a, []);
    assert [a] + [] == [a] && [FromDict(a).value] + [] == [FromDict(a).value];
  }

  lemma TwoChildren(a: Dict, b: Dict, truth: Atom -> Tri)
    requires FromDict(a).Ok? && FromDict(b).Ok?
    ensures FromDicts([a, b]) == Ok([FromDict(a).value, FromDict(b).value])
    ensures EvalAll([FromDict(a).value, FromDict(b).value], truth) ==
            And(Eval(FromDict(a).value, truth), Eval(FromDict(b).value, truth))
    ensures EvalAny([FromDict(a).value, FromDict(b).value], truth) ==
            Or(Eval(FromDict(a).value, truth), Eval(FromDict(b).value, truth))
  {
    var x, y := FromDict(a).value, FromDict(b).value;
    OneChild(b);
    ReadCons(a, [b]);
    assert EvalAll([], truth) == True && EvalAny([], truth) == False;
    EvalCons(y, [], truth);
    EvalCons(x, [y], truth);
    assert [a] + [b] == [a, b] && [x] + [y] == [x, y] && [y] + [] == [y];
  }

  lemma ChildDicts(a: PyQ, b: PyQ, known: set<string>)
    ensures ToQNodes([a, b], known) == [ToQNode(a, known), ToQNode(b, known)]
    ensures ToQNodes([a], known) == [ToQNode(a, known)]
  {
    assert ToQNodes([], known) == [];
    ToCons(b, [], known);
    ToCons(a, [], known);
    ToCons(a, [b], known);
    assert [a] + [b] == [a, b] && [a] + [] == [a] && [b] + [] == [b];
  }

  lemma ToCons(q: PyQ, qs: seq<PyQ>, known: set<string>)
    ensures ToQNodes([q] + qs, known) == [ToQNode(q, known)] + ToQNodes(qs, known)
  {
    assert ([q] + qs)[0] == q && ([q] + qs)[1..] == qs;
  }

  lemma KwargsKeepMeaning(pairs: seq<(string, SqlValue)>, known: set<string>, truth: Atom -> Tri)
    ensures var read := FromDict(ToQNode(Build(Kwargs(pairs)), known));
            read.Ok? && Eval(read.value, truth) == Conjunction(KwargTruths(pairs, known, truth))
  {
    LeavesKeepMeaning(pairs, known, truth);
    var leaves := LeafDicts(pairs, false, known);
    if |leaves| == 1 {
      OneChild(leaves[0]);
      assert EvalAll([], truth) == True && EvalAny([], truth) == False;
      EvalCons(FromDict(leaves[0]).value, [], truth);
      assert leaves == [leaves[0]] && [FromDict(leaves[0]).value] + [] == [FromDict(leaves[0]).value];
    }
  }

  lemma Combined(a: PyQ, b: PyQ, known: set<string>, truth: Atom -> Tri)
    requires FromDict(ToQNode(a, known)).Ok? && FromDict(ToQNode(b, known)).Ok?
    ensures var x, y := Eval(FromDict(ToQNode(a, known)).value, truth), Eval(FromDict(ToQNode(b, known)).value, truth);
            var both := FromDict(ToQNode(PyQ([], AND, false, [a, b]), known));
            var either := FromDict(ToQNode(PyQ([], OR, false, [a, b]), known));
            both.Ok? && Eval(both.value, truth) == And(x, y) && either.Ok? && Eval(either.value, truth) == Or(x, y)
  {
    ChildDicts(a, b, known);
    TwoChildren(ToQNode(a, known), ToQNode(b, known), truth);
  }

  /** Every Q a program can write is accepted by Rust, and its value on every row is the one written:
      nested `&`, `|`, `~`, several keywords and none included. */
  lemma {:induction false} QKeepsMeaning(e: Expr, known: set<string>, truth: Atom -> Tri)
    ensures var read := FromDict(ToQNode(Build(e), known));
            read.Ok? && Eval(read.value, truth) == Meaning(e, known, truth)
  {
    match e
    case Kwargs(pairs) => KwargsKeepMeaning(pairs, known, truth);
    case Conj(a, b) =>
      QKeepsMeaning(a, known, truth);
      QKeepsMeaning(b, known, truth);
      Combined(Build(a), Build(b), known, truth);
    case Disj(a, b) =>
      QKeepsMeaning(a, known, truth);
      QKeepsMeaning(b, known, truth);
      Combined(Build(a), Build(b), known, truth);
    case Inv(a) =>
      QKeepsMeaning(a, known, truth);
      ChildDicts(Build(a), Build(a), known);
      OneChild(ToQNode(Build(a), known));
  }

  // ---- the Rust Q ----

  datatype RustQ =
    | RLeaf(field: string, lookup: string, value: SqlValue, negated: bool)
    | RAnd(children: seq<RustQ>)
    | ROr(children: seq<RustQ>)
    | RNot(child: RustQ)

  function RustMeaning(q: RustQ, truth: Atom -> Tri): Tri {
    match q
    case RLeaf(field, lookup, value, negated) => Negated(negated, truth(Atom(field, lookup, value)))
    case RAnd(children) =>
      Conjunction(seq(|children|, i requires 0 <= i < |children| => RustMeaning(children[i], truth)))
    case ROr(children) =>
      Not(Conjunction(seq(|children|, i requires 0 <= i < |children| => Not(RustMeaning(children[i], truth)))))
    case RNot(child) => Not(RustMeaning(child, truth))
  }

  /** `q_to_qnode` */
  function QToQNode(q: RustQ): QNode {
    match q
    case RLeaf(field, lookup, value, negated) => Leaf(field, lookup, value, negated)
    case RAnd(children) => AndNode(seq(|children|, i requires 0 <= i < |children| => QToQNode(children[i])))
    case ROr(children) => OrNode(seq(|children|, i requires 0 <= i < |children| => QToQNode(children[i])))
    case RNot(child) => NotNode(QToQNode(child))
  }

  lemma {:induction false} EvalAllIs(qs: seq<QNode>, ts: seq<Tri>, truth: Atom -> Tri)
    requires |qs| == |ts| && forall i :: 0 <= i < |qs| ==> Eval(qs[i], truth) == ts[i]
    ensures EvalAll(qs, truth) == Conjunction(ts)
  {
    if qs == [] {
    } else {
      EvalAllIs(qs[1..], ts[1..], truth);
    }
  }

  /** An OR is the negation of the AND of the negations, in three values too. */
  lemma {:induction false} EvalAnyIs(qs: seq<QNode>, ts: seq<Tri>, truth: Atom -> Tri)
    requires |qs| == |ts| && forall i :: 0 <= i < |qs| ==> Not(Eval(qs[i], truth)) == ts[i]
    ensures EvalAny(qs, truth) == Not(Conjunction(ts))
  {
    if qs == [] {
    } else {
      EvalAnyIs(qs[1..], ts[1..], truth);
    }
  }

  lemma {:induction false} RustQKeepsMeaning(q: RustQ, truth: Atom -> Tri)
    ensures Eval(QToQNode(q), truth) == RustMeaning(q, truth)
  {
    match q
    case RLeaf(_, _, _, _) =>
    case RAnd(children) =>
      forall i | 0 <= i < |children| { RustQKeepsMeaning(children[i], truth); }
      EvalAllIs(QToQNode(q).children,
        seq(|children|, i requires 0 <= i < |children| => RustMeaning(children[i], truth)), truth);
    case ROr(children) =>
      forall i | 0 <= i < |children| { RustQKeepsMeaning(children[i], truth); }
      EvalAnyIs(QToQNode(q).children,
        seq(|children|, i requires 0 <= i < |children| => Not(RustMeaning(children[i], truth))), truth);
    case RNot(child) => RustQKeepsMeaning(child, truth);
  }
}
