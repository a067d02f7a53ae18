/** The transaction handle and the `transaction` function (ryx-backend/src/transaction.rs,
    ryx-rs/src/transaction.rs) over a server with savepoints (ISO/IEC 9075-2:2003, section 16.4). */
module Transactions {
  import opened Prelude

  /** What the database does: `run` gives a statement's effect, None when it fails; a failed statement
      blocks the transaction until a rollback on PostgreSQL, and does not on the others. A second
      savepoint of a name replaces the first on MySQL, as the standard has it, and hides it on
      PostgreSQL and SQLite. */
  datatype Server<!S, !D> = Server(run: (S, D) -> Option<D>, blocksOnError: bool, onePerName: bool)

  /** One open server-side transaction: its private contents, the savepoints with the contents they
      keep, oldest first, and whether it is blocked. */
  datatype Session<D> = Session(work: D, saves: seq<(string, D)>, blocked: bool)

  /** What the closure may ask for. `reachesServer` is whether the COMMIT or ROLLBACK gets through; a
      server that does not hear of a ROLLBACK still rolls back when the connection is dropped. */
  datatype Cmd<S> =
    | Execute(stmt: S)
    | Savepoint(name: string)
    | RollbackTo(name: string)
    | Release(name: string)
    | Commit(reachesServer: bool)
    | Rollback(reachesServer: bool)

  // ---- the server ----

  predicate Named<T>(marks: seq<(string, T)>, name: string) {
    exists i :: 0 <= i < |marks| && marks[i].0 == name
  }

  /** The position of the newest entry with a name. */
  function Newest<T>(marks: seq<(string, T)>, name: string): (r: Option<nat>)
    ensures r.Some? ==> r.value < |marks| && marks[r.value].0 == name
  {
    if marks == [] then None
    else if marks[|marks| - 1].0 == name then Some(|marks| - 1)
    else Newest(marks[..|marks| - 1], name)
  }

  /** The savepoints that are left when one of this name is about to be set. */
  function Cleared<T>(marks: seq<(string, T)>, name: string, onePerName: bool): seq<(string, T)> {
    var at := Newest(marks, name);
    if onePerName && at.Some? then marks[..at.value] + marks[at.value + 1..] else marks
  }

  /** The outcome of one command inside an open session: the session after it, and whether it succeeded. */
  function InSession<S, D>(server: Server<S, D>, s: Session<D>, cmd: Cmd<S>): (Session<D>, bool)
    requires !cmd.Commit? && !cmd.Rollback?
  {
    var failed := s.(blocked := s.blocked || server.blocksOnError);
    match cmd
    case Execute(stmt) =>
      var after := server.run(stmt, s.work);
      if s.blocked || after.None? then (failed, false) else (s.(work := after.value), true)
    case Savepoint(name) =>
      if s.blocked then (failed, false)
      else (s.(saves := Cleared(s.saves, name, server.onePerName) + [(name, s.work)]), true)
    case RollbackTo(name) =>
      var at := Newest(s.saves, name);
      if at.None? then (failed, false)
      else (Session(s.saves[at.value].1, s.saves[..at.value + 1], false), true)
    case Release(name) =>
      var at := Newest(s.saves, name);
      if s.blocked || at.None? then (failed, false) else (s.(saves := s.saves[..at.value]), true)
  }

  /** What a COMMIT makes durable: a blocked transaction is rolled back instead. */
  function Committed<D>(durable: D, s: Session<D>, reachesServer: bool): D {
    if reachesServer && !s.blocked then s.work else durable
  }

  // ---- the handle ----

  datatype World<D> = World(durable: D, inner: Option<Session<D>>)

  /** One command through the handle: the world after it, and whether it returned Ok. Ending an ended
      transaction is Ok and does nothing; any statement on one is an error. */
  function Step<S, D>(server: Server<S, D>, w: World<D>, cmd: Cmd<S>): (World<D>, bool) {
    match cmd
    case Commit(reachesServer) =>
      if w.inner.None? then (w, true)
      else (World(Committed(w.durable, w.inner.value, reachesServer), None), reachesServer)
    case Rollback(reachesServer) =>
      if w.inner.None? then (w, true) else (w.(inner := None), reachesServer)
    case _ =>
      if w.inner.None? then (w, false)
      else
        var (session, ok) := InSession(server, w.inner.value, cmd);
        (w.(inner := Some(session)), ok)
  }

  function Opened<D>(durable: D): World<D> {
    World(durable, Some(Session(durable, [], false)))
  }

  /** The world after the commands of a closure. */
  function Run<S, D>(server: Server<S, D>, start: D, cmds: seq<Cmd<S>>): World<D> {
    if cmds == [] then Opened(start)
    else Step(server, Run(server, start, cmds[..|cmds| - 1]), cmds[|cmds| - 1]).0
  }

  function Answers<S, D>(server: Server<S, D>, start: D, cmds: seq<Cmd<S>>): seq<bool> {
    if cmds == [] then []
    else
      var before := cmds[..|cmds| - 1];
      Answers(server, start, before) + [Step(server, Run(server, start, before), cmds[|cmds| - 1]).1]
  }

  // ---- the objects ----

  class Database<S, D> {
    const server: Server<S, D>
    var durable: D

    constructor (server: Server<S, D>, contents: D)
      ensures this.server == server && durable == contents
    {
      this.server, durable := server, contents;
    }
  }

  class TransactionHandle<S, D> {
    const db: Database<S, D>
    var inner: Option<Session<D>>
    var savepoints: seq<string>

    constructor Begin(db: Database<S, D>)
      ensures this.db == db && savepoints == []
      ensures World(db.durable, inner) == Opened(db.durable)
    {
      this.db := db;
      inner, savepoints := Some(Session(db.durable, [], false)), [];
    }

    method Commit(reachesServer: bool) returns (ok: bool)
      modifies this`inner, db
      ensures (World(db.durable, inner), ok) ==
              Step(db.server, old(World(db.durable, inner)), Cmd.Commit(reachesServer))
      ensures inner.None? && (ok <==> old(inner).None? || reachesServer)
    {
      ok := true;
      if inner.Some? {
        var tx := inner.value;
        inner := None;
        db.durable := Committed(db.durable, tx, reachesServer);
        ok := reachesServer;
      }
    }

    method Rollback(reachesServer: bool) returns (ok: bool)
      modifies this`inner
      ensures (World(db.durable, inner), ok) ==
              Step(db.server, old(World(db.durable, inner)), Cmd.Rollback(reachesServer))
      ensures inner.None? && (ok <==> old(inner).None? || reachesServer)
    {
      ok := true;
      if inner.Some? {
        inner := None;
        ok := reachesServer;
      }
    }

    /** `execute_query`, `execute_raw`, `fetch_query` and `fetch_raw`, and the commands sent as raw SQL. */
    method Send(cmd: Cmd<S>) returns (ok: bool)
      requires !cmd.Commit? && !cmd.Rollback?
      modifies this`inner
      ensures (World(db.durable, inner), ok) == Step(db.server, old(World(db.durable, inner)), cmd)
    {
      if inner.None? {
        return false;
      }
      var (session, answer) := InSession(db.server, inner.value, cmd);
      inner := Some(session);
      ok := answer;
    }

    method Savepoint(name: string) returns (ok: bool)
      modifies this
      ensures (World(db.durable, inner), ok) == Step(db.server, old(World(db.durable, inner)), Cmd.Savepoint(name))
      ensures savepoints == old(savepoints) + if ok then [name] else []
    {
      ok := Send(Cmd.Savepoint(name));
      if ok {
        savepoints := savepoints + [name];
      }
    }
  }

  /** The process-wide slot that back-end calls consult. */
  class ActiveTransaction<S, D> {
    var current: Option<TransactionHandle<S, D>>

    constructor ()
      ensures current == None
    {
      current := None;
    }

    /** A back-end call that names a database: inside the active transaction if there is one, whatever
        database that is on, and otherwise on its own. `ran` is where the statement really went: to the
        database that the call names exactly when the slot is empty or holds a transaction on it. */
    method Execute(db: Database<S, D>, stmt: S) returns (ok: bool, ghost ran: Database<S, D>)
      modifies if current.Some? then {current.value} else {}
      modifies if current.Some? then {} else {db}
      ensures ran == db <==> current.None? || current.value.db == db
      ensures current.Some? ==>
              ran == current.value.db &&
              (World(ran.durable, current.value.inner), ok) ==
              Step(ran.server, old(World(current.value.db.durable, current.value.inner)), Cmd.Execute(stmt))
      ensures current.None? ==>
              ok == db.server.run(stmt, old(db.durable)).Some? &&
              db.durable == if ok then db.server.run(stmt, old(db.durable)).value else old(db.durable)
    {
      if current.Some? {
        ran := current.value.db;
        ok := current.value.Send(Cmd.Execute(stmt));
      } else {
        ran := db;
        var after := db.server.run(stmt, db.durable);
        ok := after.Some?;
        if after.Some? {
          db.durable := after.value;
        }
      }
    }
  }

  /** `transaction`: begin, put the handle in the slot, run the closure's commands, empty the slot.
      The closure owns the handle, so what it leaves open is dropped, which rolls back. `named[i]` is the
      database that the i-th call of the closure names: it makes no difference, every statement runs in
      the transaction and no other database changes. */
  method Transaction<S, D>(
    db: Database<S, D>, slot: ActiveTransaction<S, D>, beginOk: bool, cmds: seq<Cmd<S>>, named: seq<Database<S, D>>)
    returns (answers: Option<seq<bool>>)
    requires |named| == |cmds|
    modifies db, slot
    ensures !beginOk ==> answers == None && db.durable == old(db.durable) && slot.current == old(slot.current)
    ensures beginOk ==> answers == Some(Answers(db.server, old(db.durable), cmds)) && slot.current == None &&
                        db.durable == Run(db.server, old(db.durable), cmds).durable
    ensures forall d :: d in named && d != db ==> d.durable == old(d.durable)
  {
    if !beginOk {
      return None;
    }
    var start := db.durable;
    var handle := new TransactionHandle<S, D>.Begin(db);
    slot.current := Some(handle);
    var oks: seq<bool> := [];
    for i := 0 to |cmds|
      invariant slot.current == Some(handle) && fresh(handle) && handle.db == db
      invariant World(db.durable, handle.inner) == Run(db.server, start, cmds[..i])
      invariant oks == Answers(db.server, start, cmds[..i])
      invariant forall d :: d in named && d != db ==> d.durable == old(d.durable)
    {
      assert cmds[..i + 1][..i] == cmds[..i];
      var ok := true;
      match cmds[i] {
        case Commit(reachesServer) => ok := handle.Commit(reachesServer);
        case Rollback(reachesServer) => ok := handle.Rollback(reachesServer);
        case Execute(stmt) =>
          ghost var ran;
          ok, ran := slot.Execute(named[i], stmt);
        case _ => ok := handle.Send(cmds[i]);
      }
      oks := oks + [ok];
    }
    assert cmds[..|cmds|] == cmds;
    slot.current := None;
    answers := Some(oks);
  }

  // ---- the reference: a log of surviving statements ----

  /** The statements that still count, the savepoints as positions among them, and the block. */
  datatype Log<S> = Log(stmts: seq<S>, marks: seq<(string, nat)>, blocked: bool)

  function Replay<S, D>(server: Server<S, D>, start: D, stmts: seq<S>): D {
    if stmts == [] then start
    else
      var before := Replay(server, start, stmts[..|stmts| - 1]);
      var after := server.run(stmts[|stmts| - 1], before);
      if after.None? then before else after.value
  }

  /** A rollback to a savepoint cuts the log back to where the savepoint was set. */
  function Logged<S, D>(server: Server<S, D>, start: D, log: Log<S>, cmd: Cmd<S>): Log<S> {
    var failed := log.(blocked := log.blocked || server.blocksOnError);
    match cmd
    case Execute(stmt) =>
      if log.blocked || server.run(stmt, Replay(server, start, log.stmts)).None? then failed
      else log.(stmts := log.stmts + [stmt])
    case Savepoint(name) =>
      if log.blocked then failed
      else log.(marks := Cleared(log.marks, name, server.onePerName) + [(name, |log.stmts|)])
    case RollbackTo(name) =>
      var at := Newest(log.marks, name);
      if at.None? then failed
      else
        var cut := log.marks[at.value].1;
        Log(if cut <= |log.stmts| then log.stmts[..cut] else log.stmts, log.marks[..at.value + 1], false)
    case Release(name) =>
      var at := Newest(log.marks, name);
      if log.blocked || at.None? then failed else log.(marks := log.marks[..at.value])
    case _ => log
  }

  function LogOf<S, D>(server: Server<S, D>, start: D, cmds: seq<Cmd<S>>): Log<S> {
    if cmds == [] then Log([], [], false)
    else Logged(server, start, LogOf(server, start, cmds[..|cmds| - 1]), cmds[|cmds| - 1])
  }

  predicate Ends<S>(cmd: Cmd<S>) {
    cmd.Commit? || cmd.Rollback?
  }

  /** The first COMMIT or ROLLBACK. */
  function Ending<S>(cmds: seq<Cmd<S>>): (r: Option<nat>)
    ensures r.Some? ==> r.value < |cmds| && Ends(cmds[r.value]) && forall i :: 0 <= i < r.value ==> !Ends(cmds[i])
    ensures r.None? ==> forall i :: 0 <= i < |cmds| ==> !Ends(cmds[i])
  {
    if cmds == [] then None
    else if Ends(cmds[0]) then Some(0)
    else
      var later := Ending(cmds[1..]);
      if later.None? then None else Some(later.value + 1)
  }

  // ---- the server's copies are the log's replays ----

  ghost predicate SaveMatches<S, D>(
    server: Server<S, D>, start: D, save: (string, D), mark: (string, nat), stmts: seq<S>)
  {
    save.0 == mark.0 && mark.1 <= |stmts| && save.1 == Replay(server, start, stmts[..mark.1])
  }

  ghost predicate SavesMatch<S, D>(
    server: Server<S, D>, start: D, saves: seq<(string, D)>, marks: seq<(string, nat)>, stmts: seq<S>)
  {
    |saves| == |marks| &&
    (forall i :: 0 <= i < |saves| ==> SaveMatches(server, start, saves[i], marks[i], stmts)) &&
    (forall i, j :: 0 <= i < j < |marks| ==> marks[i].1 <= marks[j].1)
  }

  ghost predicate Matches<S, D>(server: Server<S, D>, start: D, s: Session<D>, log: Log<S>) {
    s.work == Replay(server, start, log.stmts) && s.blocked == log.blocked &&
    SavesMatch(server, start, s.saves, log.marks, log.stmts)
  }

  lemma {:induction false} SameNewest<T, U>(a: seq<(string, T)>, b: seq<(string, U)>, name: string)
    requires |a| == |b| && forall i :: 0 <= i < |a| ==> a[i].0 == b[i].0
    ensures Newest(a, name) == Newest(b, name)
  {
    if a == [] {
    } else {
      SameNewest(a[..|a| - 1], b[..|b| - 1], name);
    }
  }

  lemma ExecuteMatches<S, D>(server: Server<S, D>, start: D, s: Session<D>, log: Log<S>, stmt: S)
    requires Matches(server, start, s, log)
    ensures Matches(server, start, InSession(server, s, Execute(stmt)).0, Logged(server, start, log, Execute(stmt)))
  {
    var all := log.stmts + [stmt];
    assert all[..|all| - 1] == log.stmts;
    forall i | 0 <= i < |log.marks|
      ensures all[..log.marks[i].1] == log.stmts[..log.marks[i].1]
    {
    }
  }

  lemma ClearedMatches<S, D>(
    server: Server<S, D>, start: D, saves: seq<(string, D)>, marks: seq<(string, nat)>, stmts: seq<S>, name: string)
    requires SavesMatch(server, start, saves, marks, stmts)
    ensures SavesMatch(server, start, Cleared(saves, name, server.onePerName),
      Cleared(marks, name, server.onePerName), stmts)
  {
    SameNewest(saves, marks, name);
    var at := Newest(saves, name);
    if at.Some? && server.onePerName {
      RemovedMatches(server, start, saves, marks, stmts, at.value);
    }
  }

  lemma RemovedMatches<S, D>(
    server: Server<S, D>, start: D, saves: seq<(string, D)>, marks: seq<(string, nat)>, stmts: seq<S>, at: nat)
    requires SavesMatch(server, start, saves, marks, stmts) && at < |saves|
    ensures SavesMatch(server, start, saves[..at] + saves[at + 1..], marks[..at] + marks[at + 1..], stmts)
  {
    var saves', marks' := saves[..at] + saves[at + 1..], marks[..at] + marks[at + 1..];
    forall i | 0 <= i < |saves'|
      ensures SaveMatches(server, start, saves'[i], marks'[i], stmts)
    {
      var k := if i < at then i else i + 1;
      assert saves'[i] == saves[k] && marks'[i] == marks[k];
    }
  }

  lemma SavepointMatches<S, D>(server: Server<S, D>, start: D, s: Session<D>, log: Log<S>, name: string)
    requires Matches(server, start, s, log)
    ensures Matches(server, start, InSession(server, s, Savepoint(name)).0, Logged(server, start, log, Savepoint(name)))
  {
    if !s.blocked {
      ClearedMatches(server, start, s.saves, log.marks, log.stmts, name);
      assert log.stmts[..|log.stmts|] == log.stmts;
    }
  }

  lemma RollbackToMatches<S, D>(server: Server<S, D>, start: D, s: Session<D>, log: Log<S>, name: string)
    requires Matches(server, start, s, log)
    ensures Matches(server, start,
      InSession(server, s, RollbackTo(name)).0, Logged(server, start, log, RollbackTo(name)))
  {
    SameNewest(s.saves, log.marks, name);
    var at := Newest(log.marks, name);
    if at.Some? {
      var cut := log.marks[at.value].1;
      forall i | 0 <= i <= at.value
        ensures log.marks[i].1 <= cut && log.stmts[..cut][..log.marks[i].1] == log.stmts[..log.marks[i].1]
      {
      }
    }
  }

  lemma ReleaseMatches<S, D>(server: Server<S, D>, start: D, s: Session<D>, log: Log<S>, name: string)
    requires Matches(server, start, s, log)
    ensures Matches(server, start, InSession(server, s, Release(name)).0, Logged(server, start, log, Release(name)))
  {
    SameNewest(s.saves, log.marks, name);
  }

  lemma CommandMatches<S, D>(server: Server<S, D>, start: D, s: Session<D>, log: Log<S>, cmd: Cmd<S>)
    requires Matches(server, start, s, log) && !Ends(cmd)
    ensures Matches(server, start, InSession(server, s, cmd).0, Logged(server, start, log, cmd))
  {
    match cmd
    case Execute(stmt) => ExecuteMatches(server, start, s, log, stmt);
    case Savepoint(name) => SavepointMatches(server, start, s, log, name);
    case RollbackTo(name) => RollbackToMatches(server, start, s, log, name);
    case Release(name) => ReleaseMatches(server, start, s, log, name);
  }

  /** Until it ends, a transaction leaves the durable contents alone and holds the replay of its log. */
  lemma {:induction false} OpenMatches<S, D>(server: Server<S, D>, start: D, cmds: seq<Cmd<S>>)
    requires forall i :: 0 <= i < |cmds| ==> !Ends(cmds[i])
    ensures var w := Run(server, start, cmds);
            w.durable == start && w.inner.Some? && Matches(server, start, w.inner.value, LogOf(server, start, cmds))
  {
    if cmds == [] {
    } else {
      OpenMatches(server, start, cmds[..|cmds| - 1]);
      var w := Run(server, start, cmds[..|cmds| - 1]);
      CommandMatches(server, start, w.inner.value, LogOf(server, start, cmds[..|cmds| - 1]), cmds[|cmds| - 1]);
    }
  }

  // ---- whole runs ----

  /** The durable contents a run of commands must leave. */
  function Outcome<S, D>(server: Server<S, D>, start: D, cmds: seq<Cmd<S>>): D {
    var end := Ending(cmds);
    if end.None? then start
    else
      var log := LogOf(server, start, cmds[..end.value]);
      if cmds[end.value] == Commit(true) && !log.blocked then Replay(server, start, log.stmts) else start
  }

  lemma {:induction false} EndedStays<S, D>(server: Server<S, D>, start: D, cmds: seq<Cmd<S>>, end: nat)
    requires Ending(cmds) == Some(end)
    ensures Run(server, start, cmds) == Run(server, start, cmds[..end + 1]) && Run(server, start, cmds).inner.None?
    decreases |cmds|
  {
    var before := cmds[..|cmds| - 1];
    if end == |cmds| - 1 {
      assert cmds[..end + 1] == cmds;
      OpenMatches(server, start, before);
    } else {
      assert before[..end + 1] == cmds[..end + 1];
      EndsFirst(before, end);
      EndedStays(server, start, before, end);
    }
  }

  lemma {:induction false} EndsFirst<S>(cmds: seq<Cmd<S>>, end: nat)
    requires end < |cmds| && Ends(cmds[end]) && forall i :: 0 <= i < end ==> !Ends(cmds[i])
    ensures Ending(cmds) == Some(end)
  {
    if end == 0 {
    } else {
      EndsFirst(cmds[1..], end - 1);
    }
  }

  /** The durable contents after a closure: the start plus exactly the surviving statements if its
      first ending command is a COMMIT that gets through on an unblocked transaction, and otherwise
      the start. */
  lemma DurableIsOutcome<S, D>(server: Server<S, D>, start: D, cmds: seq<Cmd<S>>)
    ensures Run(server, start, cmds).durable == Outcome(server, start, cmds)
  {
    var end := Ending(cmds);
    if end.None? {
      OpenMatches(server, start, cmds);
    } else {
      EndedStays(server, start, cmds, end.value);
      OpenMatches(server, start, cmds[..end.value]);
      var upTo := cmds[..end.value + 1];
      assert upTo[..|upTo| - 1] == cmds[..end.value];
    }
  }

  /** Once it has ended, every statement fails and nothing changes. */
  lemma AfterTheEnd<S, D>(server: Server<S, D>, start: D, cmds: seq<Cmd<S>>, cmd: Cmd<S>)
    requires Ending(cmds).Some?
    ensures Step(server, Run(server, start, cmds), cmd) == (Run(server, start, cmds), Ends(cmd))
  {
    EndedStays(server, start, cmds, Ending(cmds).value);
  }

  /** The handle is active, as `is_active` reports, until a COMMIT or ROLLBACK has been asked for,
      whether or not it got through. */
  lemma ActiveUntilEnded<S, D>(server: Server<S, D>, start: D, cmds: seq<Cmd<S>>)
    ensures Run(server, start, cmds).inner.Some? <==> forall i :: 0 <= i < |cmds| ==> !Ends(cmds[i])
  {
    if Ending(cmds).None? {
      OpenMatches(server, start, cmds);
    } else {
      EndedStays(server, start, cmds, Ending(cmds).value);
    }
  }

  lemma {:induction false} AnswersAt<S, D>(server: Server<S, D>, start: D, cmds: seq<Cmd<S>>, i: nat)
    requires i < |cmds|
    ensures |Answers(server, start, cmds)| == |cmds|
    ensures Answers(server, start, cmds)[i] == Step(server, Run(server, start, cmds[..i]), cmds[i]).1
    decreases |cmds|
  {
    var before := cmds[..|cmds| - 1];
    if i < |before| {
      AnswersAt(server, start, before, i);
      assert before[..i] == cmds[..i];
    } else if before != [] {
      AnswersAt(server, start, before, 0);
    }
  }

  lemma {:induction false} NewestIs<T>(marks: seq<(string, T)>, name: string)
    ensures Newest(marks, name).Some? <==> Named(marks, name)
    ensures Newest(marks, name).Some? ==> !Named(marks[Newest(marks, name).value + 1..], name)
  {
    if marks == [] {
    } else {
      var before := marks[..|marks| - 1];
      NewestIs(before, name);
      if Named(before, name) {
        var i :| 0 <= i < |before| && before[i].0 == name;
        assert marks[i].0 == name;
      }
      var at := Newest(marks, name);
      if at.Some? && at.value < |before| {
        forall i | at.value < i < |marks|
          ensures marks[i].0 != name
        {
          assert i < |before| ==> before[at.value + 1..][i - (at.value + 1)] == marks[i];
        }
      }
    }
  }

  /** When a command on an open transaction succeeds, by what it has done so far. */
  predicate Succeeds<S, D>(server: Server<S, D>, start: D, log: Log<S>, cmd: Cmd<S>) {
    match cmd
    case Execute(stmt) => !log.blocked && server.run(stmt, Replay(server, start, log.stmts)).Some?
    case Savepoint(_) => !log.blocked
    case RollbackTo(name) => Named(log.marks, name)
    case Release(name) => !log.blocked && Named(log.marks, name)
    case Commit(reachesServer) => reachesServer
    case Rollback(reachesServer) => reachesServer
  }

  /** Every answer of a run: until the first COMMIT or ROLLBACK, and for that one, whether the command
      succeeds; after it, Ok for another COMMIT or ROLLBACK and an error for everything else. */
  lemma AnswerIs<S, D>(server: Server<S, D>, start: D, cmds: seq<Cmd<S>>, i: nat)
    requires i < |cmds|
    ensures |Answers(server, start, cmds)| == |cmds|
    ensures Answers(server, start, cmds)[i] ==
            if Ending(cmds[..i]).Some? then Ends(cmds[i])
            else Succeeds(server, start, LogOf(server, start, cmds[..i]), cmds[i])
  {
    AnswersAt(server, start, cmds, i);
    if Ending(cmds[..i]).Some? {
      AfterTheEnd(server, start, cmds[..i], cmds[i]);
    } else {
      OpenMatches(server, start, cmds[..i]);
      var session, log := Run(server, start, cmds[..i]).inner.value, LogOf(server, start, cmds[..i]);
      if cmds[i].RollbackTo? || cmds[i].Release? {
        SameNewest(session.saves, log.marks, cmds[i].name);
        NewestIs(log.marks, cmds[i].name);
      }
    }
  }

  /** The first COMMIT or ROLLBACK is answered Ok exactly when it got through. */
  lemma EndingAnswer<S, D>(server: Server<S, D>, start: D, cmds: seq<Cmd<S>>, end: nat)
    requires Ending(cmds) == Some(end)
    ensures |Answers(server, start, cmds)| == |cmds|
    ensures Answers(server, start, cmds)[end] <==> cmds[end] == Commit(true) || cmds[end] == Rollback(true)
  {
    AnswersAt(server, start, cmds, end);
    OpenMatches(server, start, cmds[..end]);
  }

  /** Over a whole run the durable contents change at most once: from the start to the final ones. */
  lemma {:induction false} DurableChangesOnce<S, D>(server: Server<S, D>, start: D, cmds: seq<Cmd<S>>, i: nat)
    requires i <= |cmds|
    ensures Run(server, start, cmds[..i]).durable == start ||
            Run(server, start, cmds[..i]).durable == Run(server, start, cmds).durable
  {
    var end := Ending(cmds[..i]);
    if end.None? {
      OpenMatches(server, start, cmds[..i]);
    } else {
      EndedStays(server, start, cmds[..i], end.value);
      EndsFirst(cmds, end.value);
      EndedStays(server, start, cmds, end.value);
      assert cmds[..i][..end.value + 1] == cmds[..end.value + 1];
    }
  }

  /** The statements that were answered Ok, in order. */
  function Accepted<S, D>(server: Server<S, D>, start: D, cmds: seq<Cmd<S>>): seq<S> {
    if cmds == [] then []
    else
      var before, cmd := cmds[..|cmds| - 1], cmds[|cmds| - 1];
      Accepted(server, start, before) +
      if cmd.Execute? && Step(server, Run(server, start, before), cmd).1 then [cmd.stmt] else []
  }

  /** When no savepoint is rolled back to, the survivors are exactly the statements answered Ok. */
  lemma {:induction false} SurvivorsAreAccepted<S, D>(server: Server<S, D>, start: D, cmds: seq<Cmd<S>>)
    requires forall i :: 0 <= i < |cmds| ==> !Ends(cmds[i]) && !cmds[i].RollbackTo?
    ensures LogOf(server, start, cmds).stmts == Accepted(server, start, cmds)
  {
    if cmds == [] {
    } else {
      var before := cmds[..|cmds| - 1];
      SurvivorsAreAccepted(server, start, before);
      OpenMatches(server, start, before);
      assert !Ends(cmds[|cmds| - 1]) && !cmds[|cmds| - 1].RollbackTo?;
    }
  }

  // ---- savepoints ----

  function InSessionAll<S, D>(server: Server<S, D>, s: Session<D>, cmds: seq<Cmd<S>>): Session<D>
    requires forall i :: 0 <= i < |cmds| ==> !Ends(cmds[i])
  {
    if cmds == [] then s
    else
      assert !Ends(cmds[|cmds| - 1]);
      InSession(server, InSessionAll(server, s, cmds[..|cmds| - 1]), cmds[|cmds| - 1]).0
  }

  /** From `s` on, the first `n` savepoints are never given up: after every command there are at least as
      many, and a server that replaces savepoints is not asked for one of theirs. */
  predicate Holds<S, D>(server: Server<S, D>, s: Session<D>, cmds: seq<Cmd<S>>, n: nat)
    requires forall i :: 0 <= i < |cmds| ==> !Ends(cmds[i])
  {
    cmds == [] ||
    var before, cmd := cmds[..|cmds| - 1], cmds[|cmds| - 1];
    Holds(server, s, before, n) && |InSessionAll(server, s, cmds).saves| >= n &&
    (cmd.Savepoint? && server.onePerName ==> n <= |s.saves| && !Named(s.saves[..n], cmd.name))
  }

  lemma StepHolds<S, D>(server: Server<S, D>, s: Session<D>, cmd: Cmd<S>, n: nat)
    requires !Ends(cmd) && n <= |s.saves| && |InSession(server, s, cmd).0.saves| >= n
    requires cmd.Savepoint? && server.onePerName ==> !Named(s.saves[..n], cmd.name)
    ensures InSession(server, s, cmd).0.saves[..n] == s.saves[..n]
  {
    if cmd.Savepoint? && server.onePerName {
      assert forall i :: 0 <= i < n ==> s.saves[..n][i] == s.saves[i];
    }
  }

  lemma {:induction false} HoldsSavepoints<S, D>(server: Server<S, D>, s: Session<D>, cmds: seq<Cmd<S>>, n: nat)
    requires (forall i :: 0 <= i < |cmds| ==> !Ends(cmds[i])) && n <= |s.saves| && Holds(server, s, cmds, n)
    ensures var after := InSessionAll(server, s, cmds);
            |after.saves| >= n && after.saves[..n] == s.saves[..n]
  {
    if cmds == [] {
    } else {
      HoldsSavepoints(server, s, cmds[..|cmds| - 1], n);
      assert !Ends(cmds[|cmds| - 1]);
      StepHolds(server, InSessionAll(server, s, cmds[..|cmds| - 1]), cmds[|cmds| - 1], n);
    }
  }

  lemma RollsBackTo<S, D>(server: Server<S, D>, after: Session<D>, marked: Session<D>, name: string)
    requires marked.saves != [] && marked.saves[|marked.saves| - 1] == (name, marked.work) && !marked.blocked
    requires |marked.saves| <= |after.saves| && after.saves[..|marked.saves|] == marked.saves[..|marked.saves|]
    requires Newest(after.saves, name) == Some(|marked.saves| - 1)
    ensures InSession(server, after, RollbackTo(name)) == (marked, true)
  {
    assert marked.saves[..|marked.saves|] == marked.saves;
    assert after.saves[|marked.saves| - 1] == after.saves[..|marked.saves|][|marked.saves| - 1];
  }

  /** Rolling back to a savepoint undoes everything since it was set, failures that blocked the
      transaction and nested savepoints, rollbacks and releases included, and keeps the savepoint,
      provided that it was not given up meanwhile and no newer one has its name. */
  lemma RollbackToUndoes<S, D>(server: Server<S, D>, s: Session<D>, name: string, cmds: seq<Cmd<S>>)
    requires !s.blocked && forall i :: 0 <= i < |cmds| ==> !Ends(cmds[i])
    requires var marked := InSession(server, s, Savepoint(name)).0;
             Holds(server, marked, cmds, |marked.saves|) &&
             Newest(InSessionAll(server, marked, cmds).saves, name) == Some(|marked.saves| - 1)
    ensures var marked := InSession(server, s, Savepoint(name)).0;
            InSession(server, InSessionAll(server, marked, cmds), RollbackTo(name)) == (marked, true) &&
            marked.work == s.work
  {
    var marked := InSession(server, s, Savepoint(name)).0;
    HoldsSavepoints(server, marked, cmds, |marked.saves|);
    RollsBackTo(server, InSessionAll(server, marked, cmds), marked, name);
  }
}
