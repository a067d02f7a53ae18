/** Runs of `filter` and `exclude`: what the WHERE part of the query node they build says. */
module QuerySets {
  import opened Prelude
  import opened SqlValues
  import opened FilterTrees
  import LookupKeys

  datatype FilterNode = FilterNode(field: string, lookup: string, value: SqlValue, negated: bool)

  /** The WHERE part of a query node: flat conditions and one tree, all ANDed. */
  datatype QueryNode = QueryNode(filters: seq<FilterNode>, qFilter: Option<QNode>)

  const EMPTY := QueryNode([], None)

  function WithFilter(node: QueryNode, f: FilterNode): QueryNode {
    node.(filters := node.filters + [f])
  }

  /** The first tree is stored as it is; a later one is ANDed to the right of what is there. */
  function WithQ(node: QueryNode, q: QNode): QueryNode {
    node.(qFilter := Some(if node.qFilter.None? then q else AndNode([node.qFilter.value, q])))
  }

  function FilterTruth(f: FilterNode, truth: Atom -> Tri): Tri {
    Negated(f.negated, truth(Atom(f.field, f.lookup, f.value)))
  }

  function FilterTruths(fs: seq<FilterNode>, truth: Atom -> Tri): seq<Tri> {
    seq(|fs|, i requires 0 <= i < |fs| => FilterTruth(fs[i], truth))
  }

  /** The value of the WHERE clause on a row. */
  function Where(node: QueryNode, truth: Atom -> Tri): Tri {
    And(Conjunction(FilterTruths(node.filters, truth)),
        if node.qFilter.None? then True else Eval(node.qFilter.value, truth))
  }

  lemma ConjunctionSnoc(ts: seq<Tri>, t: Tri)
    ensures Conjunction(ts + [t]) == And(Conjunction(ts), t)
  {
    ConjunctionConcat(ts, [t]);
    assert [t][1..] == [];
  }

  /** Adding a flat condition, wherever the tree stands, ANDs its value. */
  lemma WithFilterAnds(node: QueryNode, f: FilterNode, truth: Atom -> Tri)
    ensures Where(WithFilter(node, f), truth) == And(Where(node, truth), FilterTruth(f, truth))
  {
    var ts := FilterTruths(node.filters, truth);
    assert FilterTruths(node.filters + [f], truth) == ts + [FilterTruth(f, truth)];
    ConjunctionSnoc(ts, FilterTruth(f, truth));
  }

  /** Adding a tree, nested as it is, ANDs its value. */
  lemma WithQAnds(node: QueryNode, q: QNode, truth: Atom -> Tri)
    ensures Where(WithQ(node, q), truth) == And(Where(node, truth), Eval(q, truth))
  {
    if node.qFilter.Some? {
      var p := node.qFilter.value;
      assert EvalAll([], truth) == True && EvalAny([], truth) == False;
      EvalCons(q, [], truth);
      EvalCons(p, [q], truth);
      assert [p] + [q] == [p, q] && [q] + [] == [q];
    }
  }

  // ---- the Rust query set ----

  datatype FilterArg = Field(field: string, lookup: string, value: SqlValue) | Tree(q: RustQ)

  function ArgTruth(arg: FilterArg, truth: Atom -> Tri): Tri {
    match arg
    case Field(field, lookup, value) => truth(Atom(field, lookup, value))
    case Tree(q) => RustMeaning(q, truth)
  }

  class RustQuerySet {
    var node: QueryNode

    constructor ()
      ensures node == EMPTY
    {
      node := EMPTY;
    }

    /** On every row, what `arg` says is ANDed to what the query set said; `truth` is any row. */
    method Filter(arg: FilterArg, ghost truth: Atom -> Tri)
      modifies this
      ensures Where(node, truth) == And(old(Where(node, truth)), ArgTruth(arg, truth))
      ensures node == AfterCall(old(node), RustCall(false, arg))
    {
      match arg {
        case Field(field, lookup, value) =>
          var f := FilterNode(field, lookup, value, false);
          WithFilterAnds(node, f, truth);
          node := WithFilter(node, f);
        case Tree(q) =>
          RustQKeepsMeaning(q, truth);
          WithQAnds(node, QToQNode(q), truth);
          node := WithQ(node, QToQNode(q));
      }
    }

    /** On every row, the negation of what `arg` says is ANDed. */
    method Exclude(arg: FilterArg, ghost truth: Atom -> Tri)
      modifies this
      ensures Where(node, truth) == And(old(Where(node, truth)), Not(ArgTruth(arg, truth)))
      ensures node == AfterCall(old(node), RustCall(true, arg))
    {
      match arg {
        case Field(field, lookup, value) =>
          var f := FilterNode(field, lookup, value, true);
          WithFilterAnds(node, f, truth);
          node := WithFilter(node, f);
        case Tree(q) =>
          RustQKeepsMeaning(q, truth);
          WithQAnds(node, NotNode(QToQNode(q)), truth);
          node := WithQ(node, NotNode(QToQNode(q)));
      }
    }
  }

  datatype RustCall = RustCall(exclude: bool, arg: FilterArg)

  function AfterCall(node: QueryNode, call: RustCall): QueryNode {
    match call.arg
    case Field(field, lookup, value) => WithFilter(node, FilterNode(field, lookup, value, call.exclude))
    case Tree(q) => WithQ(node, if call.exclude then NotNode(QToQNode(q)) else QToQNode(q))
  }

  function AfterCalls(calls: seq<RustCall>): QueryNode {
    if calls == [] then EMPTY else AfterCall(AfterCalls(calls[..|calls| - 1]), calls[|calls| - 1])
  }

  function CallTruths(calls: seq<RustCall>, truth: Atom -> Tri): seq<Tri> {
    seq(|calls|, i requires 0 <= i < |calls| => Negated(calls[i].exclude, ArgTruth(calls[i].arg, truth)))
  }

  /** Any run of Rust `filter` and `exclude` calls selects by the conjunction of the calls' conditions. */
  lemma {:induction false} RustRunIsConjunction(calls: seq<RustCall>, truth: Atom -> Tri)
    ensures Where(AfterCalls(calls), truth) == Conjunction(CallTruths(calls, truth))
  {
    if calls == [] {
    } else {
      var before, call := calls[..|calls| - 1], calls[|calls| - 1];
      RustRunIsConjunction(before, truth);
      assert CallTruths(calls, truth) == CallTruths(before, truth) + [Negated(call.exclude, ArgTruth(call.arg, truth))];
      ConjunctionSnoc(CallTruths(before, truth), Negated(call.exclude, ArgTruth(call.arg, truth)));
      match call.arg
      case Field(field, lookup, value) =>
        WithFilterAnds(AfterCalls(before), FilterNode(field, lookup, value, call.exclude), truth);
      case Tree(q) =>
        RustQKeepsMeaning(q, truth);
        WithQAnds(AfterCalls(before), if call.exclude then NotNode(QToQNode(q)) else QToQNode(q), truth);
    }
  }

  // ---- the Python query set and the plan builder ----

  /** What a model decides: its pk attribute, its value coercion, and the registered lookups. */
  datatype Model = Model(pkName: string, coerce: (string, string, SqlValue) -> SqlValue, known: set<string>)

  datatype PyCall =
    | PyFilter(qs: seq<Expr>, kwargs: seq<(string, SqlValue)>)
    | PyExclude(qs: seq<Expr>, kwargs: seq<(string, SqlValue)>)
    | PyOther   // order_by, limit, join, ..: no part of the WHERE clause

  /** What crosses to Rust. */
  datatype Op = QNodeOp(dict: Dict) | FiltersOp(batch: seq<FilterNode>) | OtherOp

  /** A keyword of `filter` has `pk` resolved and its value coerced; a keyword of `exclude` has neither. */
  function KwargNode(m: Model, kwarg: (string, SqlValue), exclude: bool): FilterNode {
    var key := if !exclude && kwarg.0 == "pk" then m.pkName else kwarg.0;
    var (field, lookup) := LookupKeys.Parsed(key, m.known);
    FilterNode(field, lookup, if exclude then kwarg.1 else m.coerce(field, lookup, kwarg.1), exclude)
  }

  function KwargNodes(m: Model, kwargs: seq<(string, SqlValue)>, exclude: bool): seq<FilterNode> {
    seq(|kwargs|, i requires 0 <= i < |kwargs| => KwargNode(m, kwargs[i], exclude))
  }

  function QOp(m: Model, q: Expr, exclude: bool): Op {
    QNodeOp(ToQNode(if exclude then Build(Inv(q)) else Build(q), m.known))
  }

  function QOps(m: Model, qs: seq<Expr>, exclude: bool): seq<Op> {
    seq(|qs|, i requires 0 <= i < |qs| => QOp(m, qs[i], exclude))
  }

  function CallOps(m: Model, call: PyCall): seq<Op> {
    match call
    case PyFilter(qs, kwargs) =>
      QOps(m, qs, false) + if kwargs == [] then [] else [FiltersOp(KwargNodes(m, kwargs, false))]
    case PyExclude(qs, kwargs) =>
      QOps(m, qs, true) + if kwargs == [] then [] else [FiltersOp(KwargNodes(m, kwargs, true))]
    case PyOther => [OtherOp]
  }

  function AllOps(m: Model, calls: seq<PyCall>): seq<Op> {
    if calls == [] then [] else AllOps(m, calls[..|calls| - 1]) + CallOps(m, calls[|calls| - 1])
  }

  function AfterOp(node: QueryNode, op: Op): Result<QueryNode, ValueError> {
    match op
    case FiltersOp(batch) => Ok(node.(filters := node.filters + batch))
    case QNodeOp(dict) =>
      var q := FromDict(dict);
      if q.Err? then Err(q.error) else Ok(WithQ(node, q.value))
    case OtherOp => Ok(node)
  }

  function AfterOps(node: QueryNode, ops: seq<Op>): Result<QueryNode, ValueError>
    decreases |ops|
  {
    if ops == [] then Ok(node)
    else
      var next := AfterOp(node, ops[0]);
      if next.Err? then next else AfterOps(next.value, ops[1..])
  }

  /** The WHERE part of `build_plan`: one loop over the ops. */
  method BuildPlan(ops: seq<Op>) returns (r: Result<QueryNode, ValueError>)
    ensures r == AfterOps(EMPTY, ops)
  {
    var node := EMPTY;
    for i := 0 to |ops|
      invariant AfterOps(EMPTY, ops) == AfterOps(node, ops[i..])
    {
      assert ops[i..][1..] == ops[i + 1..];
      match ops[i] {
        case FiltersOp(batch) =>
          ghost var start := node;
          for j := 0 to |batch|
            invariant node == start.(filters := start.filters + batch[..j])
          {
            node := WithFilter(node, batch[j]);
          }
          assert batch[..|batch|] == batch;
        case QNodeOp(dict) =>
          var q := FromDict(dict);
          if q.Err? {
            return Err(q.error);
          }
          node := WithQ(node, q.value);
        case OtherOp =>
      }
    }
    r := Ok(node);
  }

  /** What a keyword of `filter` says on a row: the primary key is meant by `pk`, and the value is coerced
      for the column and lookup that the key names then. */
  function KeywordTruth(m: Model, kwarg: (string, SqlValue), truth: Atom -> Tri): Tri {
    var (column, lookup) := LookupKeys.Parsed(if kwarg.0 == "pk" then m.pkName else kwarg.0, m.known);
    truth(Atom(column, lookup, m.coerce(column, lookup, kwarg.1)))
  }

  /** What a keyword of `exclude` says: key and value are taken as they are. */
  function ExcludedTruth(m: Model, kwarg: (string, SqlValue), truth: Atom -> Tri): Tri {
    var (column, lookup) := LookupKeys.Parsed(kwarg.0, m.known);
    Not(truth(Atom(column, lookup, kwarg.1)))
  }

  /** The conditions one call states. */
  function Conditions(m: Model, call: PyCall, truth: Atom -> Tri): seq<Tri> {
    match call
    case PyFilter(qs, kwargs) =>
      QTruths(m, qs, false, truth) +
      seq(|kwargs|, i requires 0 <= i < |kwargs| => KeywordTruth(m, kwargs[i], truth))
    case PyExclude(qs, kwargs) =>
      QTruths(m, qs, true, truth) +
      seq(|kwargs|, i requires 0 <= i < |kwargs| => ExcludedTruth(m, kwargs[i], truth))
    case PyOther => []
  }

  function QTruths(m: Model, qs: seq<Expr>, exclude: bool, truth: Atom -> Tri): seq<Tri> {
    seq(|qs|, i requires 0 <= i < |qs| => Negated(exclude, Meaning(qs[i], m.known, truth)))
  }

  function AllConditions(m: Model, calls: seq<PyCall>, truth: Atom -> Tri): seq<Tri> {
    if calls == [] then []
    else AllConditions(m, calls[..|calls| - 1], truth) + Conditions(m, calls[|calls| - 1], truth)
  }

  // ---- what a plan selects ----

  /** The conditions an op states on a row; None for a dict that says nothing. */
  function OpTruths(op: Op, truth: Atom -> Tri): Option<seq<Tri>> {
    match op
    case QNodeOp(dict) => if DictTruth(dict, truth).None? then None else Some([DictTruth(dict, truth).value])
    case FiltersOp(batch) => Some(FilterTruths(batch, truth))
    case OtherOp => Some([])
  }

  function PlanTruths(ops: seq<Op>, truth: Atom -> Tri): Option<seq<Tri>> {
    if ops == [] then Some([])
    else
      var first, rest := OpTruths(ops[0], truth), PlanTruths(ops[1..], truth);
      if first.None? || rest.None? then None else Some(first.value + rest.value)
  }

  lemma OpAnds(node: QueryNode, op: Op, truth: Atom -> Tri)
    ensures var r, ts := AfterOp(node, op), OpTruths(op, truth);
            (r.Ok? <==> ts.Some?) &&
            (r.Ok? ==> Where(r.value, truth) == And(Where(node, truth), Conjunction(ts.value)))
  {
    match op
    case QNodeOp(dict) =>
      DictKeepsMeaning(dict, truth);
      if FromDict(dict).Ok? {
        WithQAnds(node, FromDict(dict).value, truth);
        ConjunctionSnoc([], DictTruth(dict, truth).value);
        assert [] + [DictTruth(dict, truth).value] == [DictTruth(dict, truth).value];
      }
    case FiltersOp(batch) =>
      assert FilterTruths(node.filters + batch, truth) ==
             FilterTruths(node.filters, truth) + FilterTruths(batch, truth);
      ConjunctionConcat(FilterTruths(node.filters, truth), FilterTruths(batch, truth));
    case OtherOp =>
  }

  /** Any list of ops at all is accepted exactly when each of its dicts says something, and then selects
      by the conjunction of what the ops state; otherwise the error is that of the first dict refused. */
  lemma {:induction false} PlanSelects(node: QueryNode, ops: seq<Op>, truth: Atom -> Tri)
    ensures var r, ts := AfterOps(node, ops), PlanTruths(ops, truth);
            (r.Ok? <==> ts.Some?) &&
            (r.Ok? ==> Where(r.value, truth) == And(Where(node, truth), Conjunction(ts.value))) &&
            (r.Err? ==> exists i :: 0 <= i < |ops| && PlanTruths(ops[..i], truth).Some? &&
                                    ops[i].QNodeOp? && FromDict(ops[i].dict) == Err(r.error))
    decreases |ops|
  {
    if ops == [] {
    } else {
      OpAnds(node, ops[0], truth);
      var next := AfterOp(node, ops[0]);
      if next.Ok? {
        PlanSelects(next.value, ops[1..], truth);
        if AfterOps(node, ops).Ok? {
          ConjunctionConcat(OpTruths(ops[0], truth).value, PlanTruths(ops[1..], truth).value);
        } else {
          var error := AfterOps(node, ops).error;
          var i :| 0 <= i < |ops| - 1 && PlanTruths(ops[1..][..i], truth).Some? &&
                   ops[1..][i].QNodeOp? && FromDict(ops[1..][i].dict) == Err(error);
          assert ops[..i + 1][1..] == ops[1..][..i];
          assert ops[i + 1].QNodeOp? && PlanTruths(ops[..i + 1], truth).Some?;
        }
      } else {
        assert PlanTruths(ops[..0], truth).Some?;
      }
    }
  }

  lemma {:induction false} PlanConcat(a: seq<Op>, b: seq<Op>, truth: Atom -> Tri)
    requires PlanTruths(a, truth).Some? && PlanTruths(b, truth).Some?
    ensures PlanTruths(a + b, truth) == Some(PlanTruths(a, truth).value + PlanTruths(b, truth).value)
  {
    if a == [] {
      assert a + b == b && [] + PlanTruths(b, truth).value == PlanTruths(b, truth).value;
    } else {
      assert (a + b)[1..] == a[1..] + b;
      PlanConcat(a[1..], b, truth);
      Associative(OpTruths(a[0], truth).value, PlanTruths(a[1..], truth).value, PlanTruths(b, truth).value);
    }
  }

  lemma QOpStates(m: Model, q: Expr, exclude: bool, truth: Atom -> Tri)
    ensures OpTruths(QOp(m, q, exclude), truth) == Some([Negated(exclude, Meaning(q, m.known, truth))])
  {
    var e := if exclude then Inv(q) else q;
    QKeepsMeaning(e, m.known, truth);
    DictKeepsMeaning(ToQNode(Build(e), m.known), truth);
  }

  lemma {:induction false} QOpsState(m: Model, qs: seq<Expr>, exclude: bool, truth: Atom -> Tri)
    ensures PlanTruths(QOps(m, qs, exclude), truth) == Some(QTruths(m, qs, exclude, truth))
  {
    if qs == [] {
    } else {
      QOpStates(m, qs[0], exclude, truth);
      QOpsState(m, qs[1..], exclude, truth);
      assert QOps(m, qs, exclude)[1..] == QOps(m, qs[1..], exclude);
      assert QTruths(m, qs, exclude, truth) ==
             [Negated(exclude, Meaning(qs[0], m.known, truth))] + QTruths(m, qs[1..], exclude, truth);
    }
  }

  lemma BatchStates(batch: seq<FilterNode>, truth: Atom -> Tri)
    ensures PlanTruths(if batch == [] then [] else [FiltersOp(batch)], truth) == Some(FilterTruths(batch, truth))
  {
    assert [FiltersOp(batch)][1..] == [] && FilterTruths(batch, truth) + [] == FilterTruths(batch, truth);
  }

  lemma CallStates(m: Model, call: PyCall, truth: Atom -> Tri)
    ensures PlanTruths(CallOps(m, call), truth) == Some(Conditions(m, call, truth))
  {
    if call.PyOther? {
      assert [OtherOp][1..] == [] && [] + Conditions(m, call, truth) == [];
    } else {
      var qs, kwargs, exclude := call.qs, call.kwargs, call.PyExclude?;
      var batch := KwargNodes(m, kwargs, exclude);
      QOpsState(m, qs, exclude, truth);
      BatchStates(batch, truth);
      PlanConcat(QOps(m, qs, exclude), if batch == [] then [] else [FiltersOp(batch)], truth);
      assert Conditions(m, call, truth) == QTruths(m, qs, exclude, truth) + FilterTruths(batch, truth);
    }
  }

  lemma {:induction false} RunStates(m: Model, calls: seq<PyCall>, truth: Atom -> Tri)
    ensures PlanTruths(AllOps(m, calls), truth) == Some(AllConditions(m, calls, truth))
  {
    if calls == [] {
    } else {
      var before, call := calls[..|calls| - 1], calls[|calls| - 1];
      RunStates(m, before, truth);
      CallStates(m, call, truth);
      PlanConcat(AllOps(m, before), CallOps(m, call), truth);
    }
  }

  /** Any run of Python `filter` and `exclude` calls, Q arguments and keywords mixed in any order and
      other calls in between, is accepted by the plan builder and selects by the conjunction of all
      the conditions stated: which of the two stores a condition goes to never matters. */
  lemma PythonRunIsConjunction(m: Model, calls: seq<PyCall>, truth: Atom -> Tri)
    ensures var plan := AfterOps(EMPTY, AllOps(m, calls));
            plan.Ok? && Where(plan.value, truth) == Conjunction(AllConditions(m, calls, truth))
  {
    RunStates(m, calls, truth);
    PlanSelects(EMPTY, AllOps(m, calls), truth);
  }

  /** `filter(pk=v)` is `filter` by the primary key's own name, coercion included. */
  lemma PkIsResolved(m: Model, v: SqlValue)
    ensures KwargNode(m, ("pk", v), false) == KwargNode(m, (m.pkName, v), false)
  {
  }

  // ---- what exclude keywords should mean ----

  /** `exclude` reads the keyword as `filter` does: it is not `pk`, or resolving `pk` makes no difference,
      and coercion leaves the value as it is. */
  predicate ReadAlike(m: Model, kwarg: (string, SqlValue)) {
    (kwarg.0 == "pk" ==> LookupKeys.Parsed(m.pkName, m.known) == LookupKeys.Parsed("pk", m.known)) &&
    var (field, lookup) := LookupKeys.Parsed(kwarg.0, m.known);
    m.coerce(field, lookup, kwarg.1) == kwarg.1
  }

  /** Excluding by a keyword negates filtering by it, on every row, exactly when both read it alike. */
  lemma ExcludeNegatesFilterIff(m: Model, kwarg: (string, SqlValue))
    ensures (forall truth: Atom -> Tri :: ExcludedTruth(m, kwarg, truth) == Not(KeywordTruth(m, kwarg, truth))) <==>
            ReadAlike(m, kwarg)
  {
    if !ReadAlike(m, kwarg) {
      var (column, lookup) := LookupKeys.Parsed(kwarg.0, m.known);
      var excluded := Atom(column, lookup, kwarg.1);
      var truth: Atom -> Tri := a => if a == excluded then True else Unknown;
      assert ExcludedTruth(m, kwarg, truth) != Not(KeywordTruth(m, kwarg, truth));
    }
  }

  /** `exclude(pk=v)` compares a column named `pk`; `filter(pk=v)` compares the primary key. */
  lemma ExcludePkIsUnresolved(m: Model, v: SqlValue)
    requires LookupKeys.FirstSeparator(m.pkName).None? && m.pkName != "pk"
    ensures KwargNode(m, ("pk", v), true).field == "pk" && KwargNode(m, ("pk", v), false).field == m.pkName
    ensures !ReadAlike(m, ("pk", v))
  {
    assert "pk"[0] == 'p' && "pk"[1] == 'k';
    assert LookupKeys.FirstSeparator("pk").None?;
    assert LookupKeys.Split("pk") == ["pk"] && LookupKeys.Split(m.pkName) == [m.pkName];
  }

  /** What a call is meant to state: its Qs, and of each keyword what `filter` makes of it, negated for
      `exclude`. */
  function Meant(m: Model, call: PyCall, truth: Atom -> Tri): seq<Tri> {
    if call.PyOther? then []
    else
      QTruths(m, call.qs, call.PyExclude?, truth) +
      seq(|call.kwargs|, i requires 0 <= i < |call.kwargs| =>
        Negated(call.PyExclude?, KeywordTruth(m, call.kwargs[i], truth)))
  }

  function AllMeant(m: Model, calls: seq<PyCall>, truth: Atom -> Tri): seq<Tri> {
    if calls == [] then []
    else AllMeant(m, calls[..|calls| - 1], truth) + Meant(m, calls[|calls| - 1], truth)
  }

  predicate AllReadAlike(m: Model, calls: seq<PyCall>) {
    forall i, k :: 0 <= i < |calls| && calls[i].PyExclude? && 0 <= k < |calls[i].kwargs| ==>
      ReadAlike(m, calls[i].kwargs[k])
  }

  lemma ConditionsAsMeant(m: Model, call: PyCall, truth: Atom -> Tri)
    requires call.PyExclude? ==> forall k :: 0 <= k < |call.kwargs| ==> ReadAlike(m, call.kwargs[k])
    ensures Conditions(m, call, truth) == Meant(m, call, truth)
  {
    if call.PyExclude? {
      forall k | 0 <= k < |call.kwargs|
        ensures ExcludedTruth(m, call.kwargs[k], truth) == Not(KeywordTruth(m, call.kwargs[k], truth))
      {
        ExcludeNegatesFilterIff(m, call.kwargs[k]);
      }
    }
  }

  /** A run whose exclude keywords are all read as `filter` reads them selects by the conjunction of what
      its calls are meant to state. */
  lemma {:induction false} PythonRunIsAsMeant(m: Model, calls: seq<PyCall>, truth: Atom -> Tri)
    requires AllReadAlike(m, calls)
    ensures AllConditions(m, calls, truth) == AllMeant(m, calls, truth)
    ensures var plan := AfterOps(EMPTY, AllOps(m, calls));
            plan.Ok? && Where(plan.value, truth) == Conjunction(AllMeant(m, calls, truth))
  {
    PythonRunIsConjunction(m, calls, truth);
    if calls == [] {
    } else {
      PythonRunIsAsMeant(m, calls[..|calls| - 1], truth);
      ConditionsAsMeant(m, calls[|calls| - 1], truth);
    }
  }

  /** Excluding two keywords negates each; excluding one Q of both negates their AND. The two agree on
      a row exactly when both comparisons have the same value there. */
  lemma ExcludeKwargsVersusQ(m: Model, a: (string, SqlValue), b: (string, SqlValue), truth: Atom -> Tri)
    ensures Conjunction(Conditions(m, PyExclude([], [a, b]), truth)) ==
            Conjunction(Conditions(m, PyExclude([Kwargs([a, b])], []), truth)) <==>
            truth(AtomOf(a.0, a.1, m.known)) == truth(AtomOf(b.0, b.1, m.known))
  {
    var x, y := truth(AtomOf(a.0, a.1, m.known)), truth(AtomOf(b.0, b.1, m.known));
    var flat := Conditions(m, PyExclude([], [a, b]), truth);
    assert flat == [Not(x)] + [Not(y)];
    ConjunctionSnoc([Not(x)], Not(y));
    ConjunctionSnoc([], Not(x));
    assert [] + [Not(x)] == [Not(x)];
    var tree := Conditions(m, PyExclude([Kwargs([a, b])], []), truth);
    assert [a, b][1..] == [b] && [b][1..] == [];
    assert KwargTruths([b], m.known, truth) == [y];
    assert KwargTruths([a, b], m.known, truth) == [x] + [y];
    ConjunctionSnoc([x], y);
    ConjunctionSnoc([], x);
    assert [] + [x] == [x];
    var not := Not(Conjunction([x] + [y]));
    assert tree == [] + [not];
    ConjunctionSnoc([], not);
  }
}
