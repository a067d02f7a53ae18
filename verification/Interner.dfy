/** The string interner (ryx-query/src/symbols.rs): two structures behind two read-write locks, and a
    double-checked `intern` that any number of threads run at once. */
module Interner {
  import opened Prelude

  /** Symbols are 32-bit: `vec.len() as u32` wraps. */
  const WIDTH: nat := 0x1_0000_0000

  datatype Event =
    | Interned(s: string, sym: nat)
    | Resolved(key: nat, text: Option<string>)

  // ---- the sequential meaning ----

  function IndexOf(vec: seq<string>, s: string): Option<nat> {
    if vec == [] then None
    else if vec[|vec| - 1] == s then Some(|vec| - 1)
    else IndexOf(vec[..|vec| - 1], s)
  }

  function AfterIntern(vec: seq<string>, s: string): seq<string> {
    if IndexOf(vec, s).Some? then vec else vec + [s]
  }

  function SymbolFor(vec: seq<string>, s: string): nat {
    (if IndexOf(vec, s).Some? then IndexOf(vec, s).value else |vec|) % WIDTH
  }

  function TextOf(vec: seq<string>, sym: nat): Option<string> {
    if sym < |vec| then Some(vec[sym]) else None
  }

  /** The table after performing the events one at a time. */
  function Replay(log: seq<Event>): seq<string> {
    if log == [] then [] else
      var before := Replay(log[..|log| - 1]);
      match log[|log| - 1]
      case Interned(s, _) => AfterIntern(before, s)
      case Resolved(_, _) => before
  }

  /** The answer an event gives when performed alone on a table. */
  predicate Correct(vec: seq<string>, e: Event) {
    match e
    case Interned(s, sym) => sym == SymbolFor(vec, s)
    case Resolved(key, text) => text == TextOf(vec, key)
  }

  /** Each event's answer is correct after the events before it. */
  predicate Legal(log: seq<Event>) {
    log == [] || (Legal(log[..|log| - 1]) && Correct(Replay(log[..|log| - 1]), log[|log| - 1]))
  }

  // ---- the sequential object ----

  ghost predicate IsTable(m: map<string, nat>, vec: seq<string>) {
    (forall s :: s in m <==> IndexOf(vec, s).Some?) &&
    (forall s :: s in m ==> m[s] == IndexOf(vec, s).value % WIDTH)
  }

  class Table {
    var map_: map<string, nat>
    var vec: seq<string>

    ghost predicate Valid()
      reads this
    {
      IsTable(map_, vec)
    }

    constructor ()
      ensures Valid() && vec == []
    {
      map_, vec := map[], [];
    }

    method Intern(s: string) returns (sym: nat)
      requires Valid()
      modifies this
      ensures Valid() && vec == AfterIntern(old(vec), s) && sym == SymbolFor(old(vec), s)
    {
      if s in map_ {
        return map_[s];
      }
      sym := |vec| % WIDTH;
      vec := vec + [s];
      map_ := map_[s := sym];
      assert vec[..|vec| - 1] == old(vec);
    }
  }

  // ---- threads ----

  datatype RwLock = RwLock(readers: set<nat>, writer: Option<nat>)

  predicate CanRead(l: RwLock) {
    l.writer.None?
  }

  predicate CanWrite(l: RwLock) {
    l.writer.None? && l.readers == {}
  }

  /** Where a thread is inside a call. */
  datatype Pc =
    | Idle(last: Option<Event>)           // between calls, with the last call's answer
    | WantMapRead(s: string)
    | Looking(s: string)                  // holds map for reading
    | WantMapWrite(s: string)             // missed, holds nothing
    | WantVecWrite(s: string)             // holds map for writing
    | Rechecking(s: string)               // holds both
    | Inserting(s: string, sym: nat)      // holds both, has pushed onto vec
    | Returning(s: string, sym: nat)      // holds both, answer known
    | Leaving(s: string, sym: nat)        // has dropped vec, still holds map
    | WantVecRead(key: nat)
    | Indexing(key: nat)                  // holds vec for reading

  predicate MapReader(pc: Pc) {
    pc.Looking?
  }

  predicate MapWriter(pc: Pc) {
    pc.WantVecWrite? || pc.Rechecking? || pc.Inserting? || pc.Returning? || pc.Leaving?
  }

  predicate VecReader(pc: Pc) {
    pc.Indexing?
  }

  predicate VecWriter(pc: Pc) {
    pc.Rechecking? || pc.Inserting? || pc.Returning?
  }

  /** `log` records every call at the step where it takes effect. */
  datatype State = State(
    map_: map<string, nat>, vec: seq<string>, mapLock: RwLock, vecLock: RwLock, pcs: seq<Pc>, log: seq<Event>)

  /** What a thread between calls starts next; ignored inside a call. */
  datatype Call = CallIntern(s: string) | CallResolve(key: nat)

  function Release(l: RwLock, t: nat): RwLock {
    if l.writer == Some(t) then l.(writer := None) else l.(readers := l.readers - {t})
  }

  function Acquire(l: RwLock, t: nat): RwLock {
    l.(readers := l.readers + {t})
  }

  function Seize(l: RwLock, t: nat): RwLock {
    l.(writer := Some(t))
  }

  /** One step of thread `t`; None when it must wait for a lock. */
  function Step(st: State, t: nat, call: Call): Option<State>
    requires t < |st.pcs|
  {
    match st.pcs[t]
    case Idle(_) =>
      Some(st.(pcs := st.pcs[t := if call.CallIntern? then WantMapRead(call.s) else WantVecRead(call.key)]))
    case WantMapRead(s) =>
      if CanRead(st.mapLock)
      then Some(st.(mapLock := Acquire(st.mapLock, t), pcs := st.pcs[t := Looking(s)])) else None
    case Looking(s) =>
      var released := st.(mapLock := Release(st.mapLock, t));
      if s in st.map_ then
        var done := Interned(s, st.map_[s]);
        Some(released.(pcs := st.pcs[t := Idle(Some(done))], log := st.log + [done]))
      else Some(released.(pcs := st.pcs[t := WantMapWrite(s)]))
    case WantMapWrite(s) =>
      if CanWrite(st.mapLock)
      then Some(st.(mapLock := Seize(st.mapLock, t), pcs := st.pcs[t := WantVecWrite(s)])) else None
    case WantVecWrite(s) =>
      if CanWrite(st.vecLock)
      then Some(st.(vecLock := Seize(st.vecLock, t), pcs := st.pcs[t := Rechecking(s)])) else None
    case Rechecking(s) =>
      if s in st.map_ then
        Some(st.(pcs := st.pcs[t := Returning(s, st.map_[s])], log := st.log + [Interned(s, st.map_[s])]))
      else
        var sym := |st.vec| % WIDTH;
        Some(st.(vec := st.vec + [s], pcs := st.pcs[t := Inserting(s, sym)], log := st.log + [Interned(s, sym)]))
    case Inserting(s, sym) =>
      Some(st.(map_ := st.map_[s := sym], pcs := st.pcs[t := Returning(s, sym)]))
    case Returning(s, sym) =>
      Some(st.(vecLock := Release(st.vecLock, t), pcs := st.pcs[t := Leaving(s, sym)]))
    case Leaving(s, sym) =>
      Some(st.(mapLock := Release(st.mapLock, t), pcs := st.pcs[t := Idle(Some(Interned(s, sym)))]))
    case WantVecRead(key) =>
      if CanRead(st.vecLock)
      then Some(st.(vecLock := Acquire(st.vecLock, t), pcs := st.pcs[t := Indexing(key)])) else None
    case Indexing(key) =>
      var done := Resolved(key, TextOf(st.vec, key));
      Some(st.(vecLock := Release(st.vecLock, t), pcs := st.pcs[t := Idle(Some(done))], log := st.log + [done]))
  }

  function Start(threads: nat): State {
    State(map[], [], RwLock({}, None), RwLock({}, None), seq(threads, i => Idle(None)), [])
  }

  /** Any schedule: at each turn some thread is given a step, and stays put if it must wait. */
  function Run(threads: nat, schedule: seq<(nat, Call)>): (st: State)
    ensures |st.pcs| == threads
  {
    if schedule == [] then Start(threads) else
      var before := Run(threads, schedule[..|schedule| - 1]);
      var (t, call) := schedule[|schedule| - 1];
      if t < threads && Step(before, t, call).Some? then Step(before, t, call).value else before
  }

  // ---- the invariant ----

  ghost predicate LocksMatch(l: RwLock, pcs: seq<Pc>, reader: Pc -> bool, writer: Pc -> bool) {
    (forall t: nat :: t in l.readers <==> t < |pcs| && reader(pcs[t])) &&
    (forall t: nat :: l.writer == Some(t) <==> t < |pcs| && writer(pcs[t])) &&
    (l.writer.Some? ==> l.readers == {})
  }

  ghost predicate Exclusion(st: State) {
    LocksMatch(st.mapLock, st.pcs, MapReader, MapWriter) &&
    LocksMatch(st.vecLock, st.pcs, VecReader, VecWriter)
  }

  /** The thread, if any, that has pushed onto `vec` and not yet written `map`. */
  predicate MidInsert(st: State) {
    st.mapLock.writer.Some? && st.mapLock.writer.value < |st.pcs| && st.pcs[st.mapLock.writer.value].Inserting?
  }

  /** `map` and `vec` are inverse to each other, but for the entry a lock holder is just adding. */
  ghost predicate Inverse(st: State) {
    if MidInsert(st) then
      var pc := st.pcs[st.mapLock.writer.value];
      st.vec != [] && var shorter := st.vec[..|st.vec| - 1];
      st.vec[|st.vec| - 1] == pc.s && pc.sym == |shorter| % WIDTH && pc.s !in st.map_ && IsTable(st.map_, shorter)
    else IsTable(st.map_, st.vec)
  }

  /** The answer a thread is about to give, or has given. */
  function Answer(pc: Pc): Option<Event> {
    match pc
    case Idle(last) => last
    case Inserting(s, sym) => Some(Interned(s, sym))
    case Returning(s, sym) => Some(Interned(s, sym))
    case Leaving(s, sym) => Some(Interned(s, sym))
    case _ => None
  }

  ghost predicate Good(st: State) {
    Exclusion(st) && Inverse(st) && Legal(st.log) && Replay(st.log) == st.vec
  }

  // ---- every step keeps it ----

  lemma UpdateLocks(l: RwLock, l': RwLock, pcs: seq<Pc>, t: nat, pc': Pc, reader: Pc -> bool, writer: Pc -> bool)
    requires t < |pcs| && LocksMatch(l, pcs, reader, writer)
    requires l' == if reader(pc') && !reader(pcs[t]) then Acquire(l, t)
                   else if writer(pc') && !writer(pcs[t]) then Seize(l, t)
                   else if (reader(pcs[t]) && !reader(pc')) || (writer(pcs[t]) && !writer(pc')) then Release(l, t)
                   else l
    requires reader(pc') ==> !writer(pc') && !writer(pcs[t])
    requires writer(pc') ==> !reader(pcs[t])
    requires reader(pc') && !reader(pcs[t]) ==> CanRead(l)
    requires writer(pc') && !writer(pcs[t]) ==> CanWrite(l)
    ensures LocksMatch(l', pcs[t := pc'], reader, writer)
  {
  }

  lemma ExclusionKept(st: State, t: nat, call: Call)
    requires t < |st.pcs| && Exclusion(st) && Step(st, t, call).Some?
    ensures Exclusion(Step(st, t, call).value)
  {
    var next := Step(st, t, call).value;
    UpdateLocks(st.mapLock, next.mapLock, st.pcs, t, next.pcs[t], MapReader, MapWriter);
    UpdateLocks(st.vecLock, next.vecLock, st.pcs, t, next.pcs[t], VecReader, VecWriter);
    assert next.pcs == st.pcs[t := next.pcs[t]];
  }

  lemma PushTable(m: map<string, nat>, vec: seq<string>, s: string)
    requires IsTable(m, vec) && s !in m
    ensures IsTable(m[s := |vec| % WIDTH], vec + [s])
    ensures (vec + [s])[..|vec|] == vec
  {
    assert (vec + [s])[..|vec + [s]| - 1] == vec;
  }

  /** A thread that holds `map`, other than one adding an entry, sees `map` and `vec` inverse. */
  lemma SeesTable(st: State, t: nat)
    requires t < |st.pcs| && Exclusion(st) && Inverse(st)
    requires MapReader(st.pcs[t]) || (MapWriter(st.pcs[t]) && !st.pcs[t].Inserting?)
    ensures !MidInsert(st) && IsTable(st.map_, st.vec)
  {
    if MapReader(st.pcs[t]) {
      assert t in st.mapLock.readers;
    } else {
      assert st.mapLock.writer == Some(t);
    }
  }

  lemma InverseKept(st: State, t: nat, call: Call)
    requires t < |st.pcs| && Exclusion(st) && Inverse(st) && Step(st, t, call).Some?
    ensures Inverse(Step(st, t, call).value)
  {
    var next, pc := Step(st, t, call).value, st.pcs[t];
    if pc.Rechecking? {
      SeesTable(st, t);
      assert st.mapLock.writer == Some(t);
      assert (st.vec + [pc.s])[..|st.vec|] == st.vec;
    } else if pc.Inserting? {
      assert st.mapLock.writer == Some(t) && MidInsert(st);
      var shorter := st.vec[..|st.vec| - 1];
      PushTable(st.map_, shorter, pc.s);
      assert st.vec == shorter + [pc.s];
    } else if MapReader(pc) || MapWriter(pc) {
      SeesTable(st, t);
      ExclusionKept(st, t, call);
      if MidInsert(next) {
        assert false;
      }
    } else {
      NotMidInsert(st, t, call);
    }
  }

  /** A thread that does not hold `map` neither starts nor ends another thread's insertion. */
  lemma NotMidInsert(st: State, t: nat, call: Call)
    requires t < |st.pcs| && Exclusion(st) && Step(st, t, call).Some?
    requires !MapReader(st.pcs[t]) && !MapWriter(st.pcs[t])
    ensures var next := Step(st, t, call).value;
            MidInsert(next) == MidInsert(st) &&
            (MidInsert(st) ==> next.mapLock.writer == st.mapLock.writer && next.mapLock.writer.value != t)
    ensures Step(st, t, call).value.map_ == st.map_ && Step(st, t, call).value.vec == st.vec
  {
    assert st.mapLock.writer != Some(t);
  }

  lemma Extend(log: seq<Event>, e: Event)
    requires Legal(log)
    ensures Legal(log + [e]) <==> Correct(Replay(log), e)
    ensures Replay(log + [e]) == if e.Interned? then AfterIntern(Replay(log), e.s) else Replay(log)
  {
    assert (log + [e])[..|log + [e]| - 1] == log;
  }

  /** A step that puts an `intern` on record puts the right one. */
  predicate Trusted(st: State, t: nat)
    requires t < |st.pcs|
  {
    st.pcs[t].Rechecking? || (st.pcs[t].Looking? && st.pcs[t].s in st.map_) ==>
      var s := st.pcs[t].s;
      Correct(st.vec, Interned(s, if s in st.map_ then st.map_[s] else |st.vec| % WIDTH)) &&
      AfterIntern(st.vec, s) == if s in st.map_ then st.vec else st.vec + [s]
  }

  lemma InternIsCorrect(st: State, t: nat)
    requires t < |st.pcs| && Exclusion(st) && Inverse(st)
    ensures Trusted(st, t)
  {
    if st.pcs[t].Rechecking? || (st.pcs[t].Looking? && st.pcs[t].s in st.map_) {
      SeesTable(st, t);
    }
  }

  lemma LogKept(st: State, t: nat, call: Call)
    requires t < |st.pcs| && Legal(st.log) && Replay(st.log) == st.vec && Trusted(st, t) && Step(st, t, call).Some?
    ensures var next := Step(st, t, call).value;
            Legal(next.log) && Replay(next.log) == next.vec && st.log <= next.log
  {
    var next, pc := Step(st, t, call).value, st.pcs[t];
    if pc.Rechecking? || (pc.Looking? && pc.s in st.map_) {
      Extend(st.log, Interned(pc.s, if pc.s in st.map_ then st.map_[pc.s] else |st.vec| % WIDTH));
    } else if pc.Indexing? {
      Extend(st.log, Resolved(pc.key, TextOf(st.vec, pc.key)));
    } else {
      assert next.log == st.log && next.vec == st.vec;
    }
  }

  lemma {:induction false} RunIsGood(threads: nat, schedule: seq<(nat, Call)>)
    ensures Good(Run(threads, schedule))
  {
    if schedule == [] {
    } else {
      var earlier := schedule[..|schedule| - 1];
      RunIsGood(threads, earlier);
      var st := Run(threads, earlier);
      var (t, call) := schedule[|schedule| - 1];
      if t < threads && Step(st, t, call).Some? {
        ExclusionKept(st, t, call);
        InverseKept(st, t, call);
        InternIsCorrect(st, t);
        LogKept(st, t, call);
      }
    }
  }

  /** Both structures only grow, and answers once given stay on record. */
  lemma {:induction false} RunsGrow(threads: nat, schedule: seq<(nat, Call)>, n: nat)
    requires n <= |schedule|
    ensures Run(threads, schedule[..n]).vec <= Run(threads, schedule).vec
    ensures Run(threads, schedule[..n]).log <= Run(threads, schedule).log
    decreases |schedule| - n
  {
    if n == |schedule| {
      assert schedule[..n] == schedule;
    } else {
      RunsGrow(threads, schedule, n + 1);
      assert schedule[..n + 1][..n] == schedule[..n];
      var st := Run(threads, schedule[..n]);
      var (t, call) := schedule[n];
      if t < threads && Step(st, t, call).Some? {
        assert st.vec <= Step(st, t, call).value.vec && st.log <= Step(st, t, call).value.log;
      }
    }
  }

  // ---- what callers see ----

  lemma {:induction false} IndexSpec(vec: seq<string>, s: string)
    ensures IndexOf(vec, s).Some? <==> s in vec
    ensures IndexOf(vec, s).Some? ==> IndexOf(vec, s).value < |vec| && vec[IndexOf(vec, s).value] == s
  {
    if vec == [] {
    } else {
      IndexSpec(vec[..|vec| - 1], s);
      assert vec == vec[..|vec| - 1] + [vec[|vec| - 1]];
    }
  }

  ghost predicate Distinct(vec: seq<string>) {
    forall i, j :: 0 <= i < j < |vec| ==> vec[i] != vec[j]
  }

  lemma {:induction false} ReplayDistinct(log: seq<Event>)
    ensures Distinct(Replay(log))
  {
    if log == [] {
    } else {
      ReplayDistinct(log[..|log| - 1]);
      var e := log[|log| - 1];
      if e.Interned? {
        IndexSpec(Replay(log[..|log| - 1]), e.s);
      }
    }
  }

  lemma {:induction false} ReplayGrows(log: seq<Event>, n: nat)
    requires n <= |log|
    ensures Replay(log[..n]) <= Replay(log)
    decreases |log| - n
  {
    if n == |log| {
      assert log[..n] == log;
    } else {
      ReplayGrows(log, n + 1);
      assert log[..n + 1][..n] == log[..n];
    }
  }

  lemma {:induction false} LegalPrefix(log: seq<Event>, n: nat)
    requires Legal(log) && n <= |log|
    ensures Legal(log[..n])
    decreases |log|
  {
    if n < |log| {
      LegalPrefix(log[..|log| - 1], n);
      assert log[..|log| - 1][..n] == log[..n];
    } else {
      assert log[..n] == log;
    }
  }

  /** An `intern` answers with the string's place in the final table. */
  lemma InternedPlace(log: seq<Event>, i: nat) returns (place: nat)
    requires Legal(log) && i < |log| && log[i].Interned?
    ensures place < |Replay(log[..i + 1])| && Replay(log[..i + 1])[place] == log[i].s
    ensures place < |Replay(log)| && Replay(log)[place] == log[i].s && log[i].sym == place % WIDTH
  {
    LegalPrefix(log, i + 1);
    var upTo := log[..i + 1];
    assert upTo[..|upTo| - 1] == log[..i] && upTo[|upTo| - 1] == log[i];
    IndexSpec(Replay(log[..i]), log[i].s);
    ReplayGrows(log, i + 1);
    place := if IndexOf(Replay(log[..i]), log[i].s).Some? then IndexOf(Replay(log[..i]), log[i].s).value
             else |Replay(log[..i])|;
  }

  lemma {:induction false} EntryWasInterned(log: seq<Event>, place: nat) returns (i: nat)
    requires Legal(log) && place < |Replay(log)|
    ensures i < |log| && log[i] == Interned(Replay(log)[place], place % WIDTH)
  {
    var before := log[..|log| - 1];
    if place < |Replay(before)| {
      ReplayGrows(log, |log| - 1);
      i := EntryWasInterned(before, place);
    } else {
      i := |log| - 1;
    }
  }

  /** Equal strings have got equal symbols, and different strings different symbols. */
  ghost predicate Faithful(log: seq<Event>) {
    forall i, j :: 0 <= i < |log| && 0 <= j < |log| && log[i].Interned? && log[j].Interned? ==>
      (log[i].s == log[j].s <==> log[i].sym == log[j].sym)
  }

  /** The same string always gets the same symbol. */
  lemma SameStringSameSymbol(log: seq<Event>, i: nat, j: nat)
    requires Legal(log) && i < |log| && j < |log| && log[i].Interned? && log[j].Interned? && log[i].s == log[j].s
    ensures log[i].sym == log[j].sym
  {
    var p := InternedPlace(log, i);
    var q := InternedPlace(log, j);
    ReplayDistinct(log);
  }

  lemma FaithfulPair(log: seq<Event>, i: nat, j: nat)
    requires Legal(log) && i < |log| && j < |log| && log[i].Interned? && log[j].Interned? && |Replay(log)| <= WIDTH
    ensures log[i].s == log[j].s <==> log[i].sym == log[j].sym
  {
    var p := InternedPlace(log, i);
    var q := InternedPlace(log, j);
    ReplayDistinct(log);
  }

  /** Symbols name strings faithfully exactly until the 32-bit index wraps. */
  lemma FaithfulIffFits(log: seq<Event>)
    requires Legal(log)
    ensures Faithful(log) <==> |Replay(log)| <= 0x1_0000_0000
  {
    if |Replay(log)| <= WIDTH {
      forall i, j | 0 <= i < |log| && 0 <= j < |log| && log[i].Interned? && log[j].Interned?
        ensures log[i].s == log[j].s <==> log[i].sym == log[j].sym
      {
        FaithfulPair(log, i, j);
      }
    } else {
      ReplayDistinct(log);
      var i := EntryWasInterned(log, 0);
      var j := EntryWasInterned(log, WIDTH);
    }
  }

  lemma {:induction false} IndexAt(vec: seq<string>, i: nat)
    requires Distinct(vec) && i < |vec|
    ensures IndexOf(vec, vec[i]) == Some(i)
  {
    if i < |vec| - 1 {
      assert vec[i] != vec[|vec| - 1];
      IndexAt(vec[..|vec| - 1], i);
    }
  }

  /** Resolving a symbol handed out earlier gives back its string exactly when the string's own place in
      the table fits 32 bits. */
  lemma ResolveUndoesIntern(log: seq<Event>, i: nat, j: nat)
    requires Legal(log) && i < j < |log| && log[i].Interned? && log[j].Resolved? && log[j].key == log[i].sym
    ensures var place := IndexOf(Replay(log), log[i].s);
            place.Some? && (log[j].text == Some(log[i].s) <==> place.value < 0x1_0000_0000)
  {
    ResolvedText(log, j);
    LegalPrefix(log, j);
    assert log[..j][i] == log[i];
    var place := InternedPlace(log[..j], i);
    ReplayGrows(log, j);
    ReplayDistinct(log);
    IndexAt(Replay(log), place);
    Folded(Replay(log[..j]), place);
  }

  lemma Folded(vec: seq<string>, place: nat)
    requires place < |vec|
    ensures place % WIDTH < |vec|
    ensures Distinct(vec) ==> (vec[place % WIDTH] == vec[place] <==> place < WIDTH)
  {
  }

  lemma ResolvedText(log: seq<Event>, j: nat)
    requires Legal(log) && j < |log| && log[j].Resolved?
    ensures var vec, key := Replay(log[..j]), log[j].key;
            log[j].text == if key < |vec| then Some(vec[key]) else None
  {
    LegalPrefix(log, j + 1);
    var upTo := log[..j + 1];
    assert upTo[..|upTo| - 1] == log[..j] && upTo[|upTo| - 1] == log[j];
  }

  // ---- the calls of a run ----

  function CallOf(e: Event): Call {
    match e
    case Interned(s, _) => CallIntern(s)
    case Resolved(key, _) => CallResolve(key)
  }

  /** The call a thread is in, or, between calls, the one it last finished. */
  function Subject(pc: Pc): Option<Call> {
    match pc
    case Idle(last) => if last.None? then None else Some(CallOf(last.value))
    case WantVecRead(key) => Some(CallResolve(key))
    case Indexing(key) => Some(CallResolve(key))
    case _ => Some(CallIntern(pc.s))
  }

  /** One step of a call: it is put on record when its answer becomes known, and at no other step. */
  lemma StepOfCall(st: State, t: nat, call: Call)
    requires t < |st.pcs| && Step(st, t, call).Some?
    ensures var next, pc, pc' := Step(st, t, call).value, st.pcs[t], Step(st, t, call).value.pcs[t];
            st.log <= next.log && |next.pcs| == |st.pcs| &&
            (forall u :: 0 <= u < |st.pcs| && u != t ==> next.pcs[u] == st.pcs[u]) &&
            if pc.Idle? then !pc'.Idle? && Subject(pc') == Some(call) && Answer(pc').None? && next.log == st.log
            else Subject(pc') == Subject(pc) && (pc'.Idle? ==> Answer(pc').Some?) &&
                 if Answer(pc).Some? then Answer(pc') == Answer(pc) && next.log == st.log
                 else next.log == st.log + if Answer(pc').Some? then [Answer(pc').value] else []
  {
    var next := Step(st, t, call).value;
    assert next.pcs[t] == st.pcs[t := next.pcs[t]][t];
  }

  /** A call of one thread: the turns of its first and last steps, and its place on the record. */
  datatype Span = Span(call: Call, began: nat, place: Option<nat>, ended: Option<nat>)

  /** A thread's calls in order, read off a schedule. */
  function Calls(threads: nat, schedule: seq<(nat, Call)>, t: nat): seq<Span> {
    if schedule == [] then [] else
      var turn := |schedule| - 1;
      var (before, st) := (Calls(threads, schedule[..turn], t), Run(threads, schedule[..turn]));
      var (u, call) := schedule[turn];
      if u != t || t >= threads || Step(st, t, call).None? then before
      else AfterStep(before, st, Step(st, t, call).value, t, call, turn)
  }

  function AfterStep(before: seq<Span>, st: State, next: State, t: nat, call: Call, turn: nat): seq<Span>
    requires t < |st.pcs| && t < |next.pcs|
  {
    if st.pcs[t].Idle? then before + [Span(call, turn, None, None)]
    else if before == [] then []
    else
      var last := before[|before| - 1];
      before[..|before| - 1] + [Span(last.call, last.began,
        if |next.log| > |st.log| then Some(|st.log|) else last.place,
        if next.pcs[t].Idle? then Some(turn) else last.ended)]
  }

  /** How the thread stands in its last call. */
  ghost predicate Tracks(pc: Pc, calls: seq<Span>, log: seq<Event>) {
    if calls == [] then pc == Idle(None)
    else
      var last := calls[|calls| - 1];
      Subject(pc) == Some(last.call) && (pc.Idle? <==> last.ended.Some?) && (Answer(pc).Some? <==> last.place.Some?) &&
      (last.place.Some? ==> last.place.value < |log| && Answer(pc) == Some(log[last.place.value]))
  }

  /** A call began at a turn of its thread, between calls; its place on the record was taken after that
      and holds its own argument; if it has ended, its place was taken by then, and the answer on record
      is the one the thread then holds. */
  ghost predicate OnRecord(threads: nat, schedule: seq<(nat, Call)>, t: nat, span: Span) {
    t < threads && Began(threads, schedule, t, span) && Placed(threads, schedule, span) &&
    Ended(threads, schedule, t, span)
  }

  ghost predicate Began(threads: nat, schedule: seq<(nat, Call)>, t: nat, span: Span)
    requires t < threads
  {
    span.began < |schedule| && schedule[span.began] == (t, span.call) &&
    Run(threads, schedule[..span.began]).pcs[t].Idle?
  }

  ghost predicate Placed(threads: nat, schedule: seq<(nat, Call)>, span: Span) {
    span.place.Some? ==>
      var log := Run(threads, schedule).log;
      span.began <= |schedule| && |Run(threads, schedule[..span.began]).log| <= span.place.value < |log| &&
      CallOf(log[span.place.value]) == span.call
  }

  ghost predicate Ended(threads: nat, schedule: seq<(nat, Call)>, t: nat, span: Span)
    requires t < threads
  {
    span.ended.Some? ==>
      span.began < span.ended.value < |schedule| && schedule[span.ended.value].0 == t && span.place.Some? &&
      var at := Run(threads, schedule[..span.ended.value + 1]);
      span.place.value < |at.log| && at.pcs[t] == Idle(Some(at.log[span.place.value]))
  }

  lemma PlacedKept(threads: nat, schedule: seq<(nat, Call)>, span: Span)
    requires schedule != [] && Placed(threads, schedule[..|schedule| - 1], span)
    ensures Placed(threads, schedule, span)
  {
    RunsGrow(threads, schedule, |schedule| - 1);
    if span.place.Some? {
      assert schedule[..|schedule| - 1][..span.began] == schedule[..span.began];
    }
  }

  lemma EndedKept(threads: nat, schedule: seq<(nat, Call)>, t: nat, span: Span)
    requires schedule != [] && t < threads && Ended(threads, schedule[..|schedule| - 1], t, span)
    ensures Ended(threads, schedule, t, span)
  {
    if span.ended.Some? {
      assert schedule[..|schedule| - 1][..span.ended.value + 1] == schedule[..span.ended.value + 1];
    }
  }

  /** What has been said of a call stays true as the run goes on. */
  lemma OnRecordKept(threads: nat, schedule: seq<(nat, Call)>, t: nat, span: Span)
    requires schedule != [] && OnRecord(threads, schedule[..|schedule| - 1], t, span)
    ensures OnRecord(threads, schedule, t, span)
  {
    assert schedule[..|schedule| - 1][..span.began] == schedule[..span.began];
    PlacedKept(threads, schedule, span);
    EndedKept(threads, schedule, t, span);
  }

  /** The thread's own step brings its last call one step further, and keeps it tracked. */
  lemma StepTracks(before: seq<Span>, st: State, t: nat, call: Call, turn: nat)
    requires t < |st.pcs| && Step(st, t, call).Some? && Tracks(st.pcs[t], before, st.log)
    ensures var next := Step(st, t, call).value;
            var after := AfterStep(before, st, next, t, call, turn);
            after != [] && Tracks(next.pcs[t], after, next.log) &&
            var last := after[|after| - 1];
            if st.pcs[t].Idle? then last == Span(call, turn, None, None)
            else before != [] && var prior := before[|before| - 1];
              last.call == prior.call && last.began == prior.began &&
              (last.place == prior.place ||
               (prior.place.None? && last.place == Some(|st.log|) && |next.log| > |st.log|)) &&
              prior.ended.None? && last.ended == if next.pcs[t].Idle? then Some(turn) else None
  {
    StepOfCall(st, t, call);
  }

  /** A tracked call that has a place has it with its own argument, and has ended when the thread is
      between calls. */
  lemma TrackedPlace(pc: Pc, calls: seq<Span>, log: seq<Event>)
    requires calls != [] && Tracks(pc, calls, log)
    ensures var last := calls[|calls| - 1];
            (last.place.Some? ==> CallOf(log[last.place.value]) == last.call) &&
            (pc.Idle? ==> last.place.Some? && pc == Idle(Some(log[last.place.value])))
  {
  }

  lemma StepOnRecord(threads: nat, schedule: seq<(nat, Call)>, t: nat, call: Call, before: seq<Span>)
    requires schedule != [] && schedule[|schedule| - 1] == (t, call) && t < threads
    requires var st := Run(threads, schedule[..|schedule| - 1]);
             Step(st, t, call).Some? && Tracks(st.pcs[t], before, st.log)
    requires before != [] ==> OnRecord(threads, schedule[..|schedule| - 1], t, before[|before| - 1])
    ensures var turn, st, next := |schedule| - 1, Run(threads, schedule[..|schedule| - 1]), Run(threads, schedule);
            var after := AfterStep(before, st, next, t, call, turn);
            after != [] && OnRecord(threads, schedule, t, after[|after| - 1]) &&
            Tracks(next.pcs[t], after, next.log)
  {
    var turn, st, next := |schedule| - 1, Run(threads, schedule[..|schedule| - 1]), Run(threads, schedule);
    var after := AfterStep(before, st, next, t, call, turn);
    StepTracks(before, st, t, call, turn);
    TrackedPlace(next.pcs[t], after, next.log);
    if !st.pcs[t].Idle? {
      CallGoesOn(threads, schedule, t, before[|before| - 1], after[|after| - 1]);
    }
  }

  /** The call's place, if it is taken at this turn, comes after everything that was on record when the
      call began. */
  lemma PlaceComesLater(threads: nat, schedule: seq<(nat, Call)>, earlier: Span, span: Span)
    requires schedule != [] && span.began < |schedule| && Placed(threads, schedule, earlier)
    requires span.call == earlier.call && span.began == earlier.began
    requires var st, log := Run(threads, schedule[..|schedule| - 1]), Run(threads, schedule).log;
             span.place == earlier.place ||
             (span.place == Some(|st.log|) && |log| > |st.log| && CallOf(log[|st.log|]) == span.call)
    ensures Placed(threads, schedule, span)
  {
    var before := schedule[..|schedule| - 1];
    RunsGrow(threads, before, span.began);
    assert before[..span.began] == schedule[..span.began];
  }

  lemma CallGoesOn(threads: nat, schedule: seq<(nat, Call)>, t: nat, earlier: Span, span: Span)
    requires schedule != [] && t < threads && OnRecord(threads, schedule[..|schedule| - 1], t, earlier)
    requires earlier.ended.None? && schedule[|schedule| - 1].0 == t
    requires span.call == earlier.call && span.began == earlier.began
    requires var st, next := Run(threads, schedule[..|schedule| - 1]), Run(threads, schedule);
             span.place == earlier.place ||
             (span.place == Some(|st.log|) && |next.log| > |st.log| && CallOf(next.log[|st.log|]) == span.call)
    requires var next := Run(threads, schedule);
             if next.pcs[t].Idle?
             then span.ended == Some(|schedule| - 1) && span.place.Some? && span.place.value < |next.log| &&
                  next.pcs[t] == Idle(Some(next.log[span.place.value]))
             else span.ended == None
    ensures OnRecord(threads, schedule, t, span)
  {
    OnRecordKept(threads, schedule, t, earlier);
    PlaceComesLater(threads, schedule, earlier, span);
    assert schedule[..|schedule| - 1 + 1] == schedule;
  }

  /** Every call but the last has ended, before the next one began. */
  predicate OneByOne(calls: seq<Span>) {
    forall i :: 0 <= i < |calls| - 1 ==> calls[i].ended.Some? && calls[i].ended.value < calls[i + 1].began
  }

  ghost predicate AllOnRecord(threads: nat, schedule: seq<(nat, Call)>, t: nat, calls: seq<Span>) {
    forall i :: 0 <= i < |calls| ==> OnRecord(threads, schedule, t, calls[i])
  }

  lemma AllKept(threads: nat, schedule: seq<(nat, Call)>, t: nat, calls: seq<Span>)
    requires schedule != [] && AllOnRecord(threads, schedule[..|schedule| - 1], t, calls)
    ensures AllOnRecord(threads, schedule, t, calls)
  {
    forall i | 0 <= i < |calls|
      ensures OnRecord(threads, schedule, t, calls[i])
    {
      OnRecordKept(threads, schedule, t, calls[i]);
    }
  }

  /** A thread's step changes none of its earlier calls. */
  lemma StepOneByOne(before: seq<Span>, st: State, next: State, t: nat, call: Call, turn: nat)
    requires t < |st.pcs| && t < |next.pcs| && OneByOne(before)
    requires before == [] ==> st.pcs[t].Idle?
    requires before != [] ==> var last := before[|before| - 1];
             (st.pcs[t].Idle? <==> last.ended.Some?) && (last.ended.Some? ==> last.ended.value < turn)
    ensures var after := AfterStep(before, st, next, t, call, turn);
            OneByOne(after) && after != [] && |before| <= |after| <= |before| + 1 &&
            forall i :: 0 <= i < |after| - 1 ==> after[i] == before[i]
  {
  }

  /** What is invariant about a thread's calls. */
  ghost predicate Accounted(threads: nat, schedule: seq<(nat, Call)>, t: nat, calls: seq<Span>)
    requires t < threads
  {
    var st := Run(threads, schedule);
    AllOnRecord(threads, schedule, t, calls) && OneByOne(calls) && Tracks(st.pcs[t], calls, st.log)
  }

  lemma OwnStep(threads: nat, schedule: seq<(nat, Call)>, t: nat, call: Call, before: seq<Span>)
    requires schedule != [] && schedule[|schedule| - 1] == (t, call) && t < threads
    requires Step(Run(threads, schedule[..|schedule| - 1]), t, call).Some?
    requires Accounted(threads, schedule[..|schedule| - 1], t, before)
    ensures Accounted(threads, schedule, t, AfterStep(before,
      Run(threads, schedule[..|schedule| - 1]), Run(threads, schedule), t, call, |schedule| - 1))
  {
    var turn, st, next := |schedule| - 1, Run(threads, schedule[..|schedule| - 1]), Run(threads, schedule);
    var after := AfterStep(before, st, next, t, call, turn);
    StepOnRecord(threads, schedule, t, call, before);
    StepOneByOne(before, st, next, t, call, turn);
    AllKept(threads, schedule, t, before);
    forall i | 0 <= i < |after|
      ensures OnRecord(threads, schedule, t, after[i])
    {
      if i < |after| - 1 { assert after[i] == before[i]; }
    }
  }

  /** Another thread's step, or none. */
  lemma OthersStep(threads: nat, schedule: seq<(nat, Call)>, t: nat, before: seq<Span>)
    requires schedule != [] && t < threads && Accounted(threads, schedule[..|schedule| - 1], t, before)
    requires var (u, call) := schedule[|schedule| - 1];
             u != t || Step(Run(threads, schedule[..|schedule| - 1]), t, call).None?
    ensures Accounted(threads, schedule, t, before)
  {
    var st := Run(threads, schedule[..|schedule| - 1]);
    var (u, call) := schedule[|schedule| - 1];
    AllKept(threads, schedule, t, before);
    if u < threads && Step(st, u, call).Some? {
      StepOfCall(st, u, call);
    }
  }

  lemma {:induction false} CallsOnRecord(threads: nat, schedule: seq<(nat, Call)>, t: nat)
    requires t < threads
    ensures Accounted(threads, schedule, t, Calls(threads, schedule, t))
  {
    if schedule == [] {
    } else {
      var turn := |schedule| - 1;
      var before := Calls(threads, schedule[..turn], t);
      var (u, call) := schedule[turn];
      CallsOnRecord(threads, schedule[..turn], t);
      if u == t && Step(Run(threads, schedule[..turn]), t, call).Some? {
        OwnStep(threads, schedule, t, call, before);
      } else {
        OthersStep(threads, schedule, t, before);
      }
    }
  }

  /** Call number `i` of a thread is the one at place `p` of the record. */
  predicate IsPlace(threads: nat, schedule: seq<(nat, Call)>, t: nat, i: nat, p: nat) {
    t < threads && var calls := Calls(threads, schedule, t); i < |calls| && calls[i].place == Some(p)
  }

  ghost predicate OfSomeCall(threads: nat, schedule: seq<(nat, Call)>, p: nat) {
    exists t: nat, i: nat :: IsPlace(threads, schedule, t, i, p)
  }

  lemma PlaceAfterStep(before: seq<Span>, st: State, t: nat, call: Call, turn: nat, i: nat, p: nat)
    requires t < |st.pcs| && Step(st, t, call).Some? && Tracks(st.pcs[t], before, st.log)
    ensures var next := Step(st, t, call).value;
            var after := AfterStep(before, st, next, t, call, turn);
            i < |after| && after[i].place == Some(p) <==>
              (i < |before| && before[i].place == Some(p)) ||
              (p == |st.log| && |next.log| > p && i == |after| - 1)
  {
    StepOfCall(st, t, call);
  }

  /** A place is taken at the turn the record reaches it, by the thread whose turn it is, and is never
      given up. */
  lemma PlaceStep(threads: nat, schedule: seq<(nat, Call)>, t: nat, i: nat, p: nat)
    requires schedule != []
    ensures var (u, call) := schedule[|schedule| - 1];
            var before, st := schedule[..|schedule| - 1], Run(threads, schedule[..|schedule| - 1]);
            IsPlace(threads, schedule, t, i, p) <==>
              IsPlace(threads, before, t, i, p) ||
              (t == u && t < threads && p == |st.log| && |Run(threads, schedule).log| > p &&
               i == |Calls(threads, schedule, t)| - 1)
  {
    if t < threads {
      var turn := |schedule| - 1;
      CallsOnRecord(threads, schedule[..turn], t);
      var st := Run(threads, schedule[..turn]);
      var (u, call) := schedule[turn];
      if u == t && Step(st, t, call).Some? {
        PlaceAfterStep(Calls(threads, schedule[..turn], t), st, t, call, turn, i, p);
      }
    }
  }

  /** Every place on the record belongs to a call. */
  lemma {:induction false} PlaceHasCall(threads: nat, schedule: seq<(nat, Call)>, p: nat) returns (t: nat, i: nat)
    requires p < |Run(threads, schedule).log|
    ensures IsPlace(threads, schedule, t, i, p)
  {
    var before, st := schedule[..|schedule| - 1], Run(threads, schedule[..|schedule| - 1]);
    if p < |st.log| {
      t, i := PlaceHasCall(threads, before, p);
    } else {
      var (u, call) := schedule[|schedule| - 1];
      StepOfCall(st, u, call);
      CallsOnRecord(threads, before, u);
      CallsOnRecord(threads, schedule, u);
      t, i := u, |Calls(threads, schedule, u)| - 1;
    }
    PlaceStep(threads, schedule, t, i, p);
  }

  /** And to no other call. */
  lemma {:induction false} PlaceHasOneCall(
    threads: nat, schedule: seq<(nat, Call)>, p: nat, t: nat, i: nat, u: nat, j: nat)
    requires IsPlace(threads, schedule, t, i, p) && IsPlace(threads, schedule, u, j, p)
    ensures t == u && i == j
  {
    if schedule == [] {
    } else {
      var before := schedule[..|schedule| - 1];
      PlaceStep(threads, schedule, t, i, p);
      PlaceStep(threads, schedule, u, j, p);
      CallsOnRecord(threads, before, t);
      CallsOnRecord(threads, before, u);
      if IsPlace(threads, before, t, i, p) && IsPlace(threads, before, u, j, p) {
        PlaceHasOneCall(threads, before, p, t, i, u, j);
      }
    }
  }

  /** A call that ended before another began stands before it on the record. */
  lemma RealTimeOrder(threads: nat, schedule: seq<(nat, Call)>, t: nat, a: Span, u: nat, b: Span)
    requires OnRecord(threads, schedule, t, a) && OnRecord(threads, schedule, u, b)
    requires a.ended.Some? && a.ended.value < b.began && b.place.Some?
    ensures a.place.value < b.place.value
  {
    var earlier := schedule[..b.began];
    RunsGrow(threads, earlier, a.ended.value + 1);
    assert earlier[..a.ended.value + 1] == schedule[..a.ended.value + 1];
  }

  /** The record is a linearization of the calls made: performed one at a time in its order they give
      the answers returned, each call is on it at most once, from its start to its end at the latest
      and with the answer its thread gets, nothing else is on it, and calls that do not overlap stand in
      the order in which they were made. */
  ghost predicate Linearizes(threads: nat, schedule: seq<(nat, Call)>) {
    Legal(Run(threads, schedule).log) &&
    (forall t: nat | t < threads :: AllOnRecord(threads, schedule, t, Calls(threads, schedule, t)) &&
                                    OneByOne(Calls(threads, schedule, t))) &&
    (forall p: nat | p < |Run(threads, schedule).log| :: OfSomeCall(threads, schedule, p)) &&
    (forall p: nat, t: nat, i: nat, u: nat, j: nat |
       IsPlace(threads, schedule, t, i, p) && IsPlace(threads, schedule, u, j, p) :: t == u && i == j) &&
    (forall t: nat, i: nat, u: nat, j: nat, p: nat, q: nat |
       IsPlace(threads, schedule, t, i, p) && IsPlace(threads, schedule, u, j, q) &&
       Calls(threads, schedule, t)[i].ended.Some? &&
       Calls(threads, schedule, t)[i].ended.value < Calls(threads, schedule, u)[j].began :: p < q)
  }

  lemma Linearizable(threads: nat, schedule: seq<(nat, Call)>)
    ensures Linearizes(threads, schedule)
  {
    RunIsGood(threads, schedule);
    forall t: nat | t < threads
      ensures AllOnRecord(threads, schedule, t, Calls(threads, schedule, t)) && OneByOne(Calls(threads, schedule, t))
    {
      CallsOnRecord(threads, schedule, t);
    }
    forall p: nat | p < |Run(threads, schedule).log|
      ensures OfSomeCall(threads, schedule, p)
    {
      var t, i := PlaceHasCall(threads, schedule, p);
    }
    forall p: nat, t: nat, i: nat, u: nat, j: nat |
      IsPlace(threads, schedule, t, i, p) && IsPlace(threads, schedule, u, j, p)
      ensures t == u && i == j
    {
      PlaceHasOneCall(threads, schedule, p, t, i, u, j);
    }
    forall t: nat, i: nat, u: nat, j: nat, p: nat, q: nat |
      IsPlace(threads, schedule, t, i, p) && IsPlace(threads, schedule, u, j, q) &&
      Calls(threads, schedule, t)[i].ended.Some? &&
      Calls(threads, schedule, t)[i].ended.value < Calls(threads, schedule, u)[j].began
      ensures p < q
    {
      RealTimeOrder(threads, schedule, t, Calls(threads, schedule, t)[i], u, Calls(threads, schedule, u)[j]);
    }
  }

  /** Under every schedule, `map` and `vec` are inverse whenever no entry is half written, `vec` is what
      the recorded calls lead to, holds no string twice, and gives faithful symbols exactly until the
      32-bit index wraps. */
  lemma TableIsRecord(threads: nat, schedule: seq<(nat, Call)>)
    ensures var st := Run(threads, schedule);
            Replay(st.log) == st.vec && Distinct(st.vec) && (!MidInsert(st) ==> IsTable(st.map_, st.vec)) &&
            (Faithful(st.log) <==> |st.vec| <= 0x1_0000_0000)
  {
    RunIsGood(threads, schedule);
    var st := Run(threads, schedule);
    ReplayDistinct(st.log);
    FaithfulIffFits(st.log);
  }

  /** No deadlock: while some thread is inside a call, some thread inside a call can take a step. */
  lemma NeverStuck(threads: nat, schedule: seq<(nat, Call)>, waiting: nat, call: Call) returns (t: nat)
    requires waiting < threads && !Run(threads, schedule).pcs[waiting].Idle?
    ensures t < threads && !Run(threads, schedule).pcs[t].Idle? && Step(Run(threads, schedule), t, call).Some?
  {
    RunIsGood(threads, schedule);
    var st := Run(threads, schedule);
    if st.vecLock.writer.Some? {
      t := st.vecLock.writer.value;
    } else if st.vecLock.readers != {} {
      t :| t in st.vecLock.readers;
    } else if st.mapLock.writer.Some? {
      t := st.mapLock.writer.value;
    } else if st.mapLock.readers != {} {
      t :| t in st.mapLock.readers;
    } else {
      t := waiting;
    }
  }
}
