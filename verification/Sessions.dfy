/** Runs of the store's requests, under one observation cap. */
module Sessions {
  import opened Options
  import opened Schema
  import opened Sweep
  import opened Lifecycle
  import opened History
  import opened Trails
  import opened Requests
  import Normalize
  import Claims

  /** What a process can ask of the store. `Other` is any transaction that
      inserts neither entities nor observations: relating, writing truths,
      editing and deleting. */
  datatype Call =
    | Create(inputs: seq<EntityInput>)
    | Add(batches: seq<Batch>)
    | Update(task: string, notes: seq<string>, status: Option<string>)
    | ClaimNext(agent: string)
    | Dispatch(target: Option<string>, agent: string)
    | Abandonment(days: nat)
    | Retention(days: nat)
    | Other(statements: seq<Statement>)

  datatype Timed = Timed(now: int, call: Call)

  predicate IsInsert(s: Statement) {
    s.InsertEntity? || s.InsertObservation?
  }

  ghost predicate InsertsNothing(ss: seq<Statement>) {
    forall k :: 0 <= k < |ss| ==> !IsInsert(ss[k])
  }

  ghost predicate IsCall(c: Call) {
    c.Other? ==> InsertsNothing(c.statements)
  }

  predicate IsRefused(db: Db, task: string, notes: seq<string>, status: Option<string>) {
    var t := Normalize.Canonical(task);
    || (status.None? && notes == []) || (status.Some? && !IsTaskStatus(status.value)) || !IsTask(db, t)
  }

  function ClaimOf(c: Call, limit: nat): Claims.Request
    requires c.ClaimNext? || c.Dispatch?
  {
    if c.ClaimNext? then Claims.ClaimNext(c.agent) else Claims.Dispatch(c.target, c.agent, limit)
  }

  /** The transaction a call runs on the tables it finds. */
  function EventOf(db: Db, c: Timed, limit: nat): Event {
    match c.call
    case Create(inputs) => Event(c.now, Commit(CreateStatements(db, inputs)))
    case Add(batches) => Event(c.now, Commit(AddStatements(batches, Cap(limit))))
    case Update(task, notes, status) =>
      var t := Normalize.Canonical(task);
      var refused := IsRefused(db, task, notes, status);
      Event(c.now, Commit(if refused then [] else UpdateStatements(t, notes, status, Cap(limit))))
    case ClaimNext(_) => Event(c.now, Commit(ClaimStatements(db, ClaimOf(c.call, limit))))
    case Dispatch(_, _) => Event(c.now, Commit(ClaimStatements(db, ClaimOf(c.call, limit))))
    case Abandonment(days) => Event(c.now, Lifecycle.Abandon(days))
    case Retention(days) => Event(c.now, Purge(days))
    case Other(statements) => Event(c.now, Commit(statements))
  }

  function ClaimStatements(db: Db, q: Claims.Request): seq<Statement>
    requires !q.Other?
  {
    var target := Claims.Target(db, q);
    if target.Some? && Claims.IsReady(db, target.value) then Claims.ClaimBody(q, target.value) else []
  }

  function Answered(db: Db, c: Timed, limit: nat): Db {
    Next(db, EventOf(db, c, limit))
  }

  /** The state after the first `i` calls. */
  function SessionAt(db: Db, calls: seq<Timed>, limit: nat, i: nat): Db
    requires i <= |calls|
  {
    if i == 0 then db else Answered(SessionAt(db, calls, limit, i - 1), calls[i - 1], limit)
  }

  lemma {:induction false} SessionsAreSound(db: Db, calls: seq<Timed>, limit: nat, i: nat)
    requires IsSound(db) && i <= |calls|
    ensures IsSound(SessionAt(db, calls, limit, i))
  {
    hide IsSound, Next, EventOf;
    if i > 0 {
      SessionsAreSound(db, calls, limit, i - 1);
      var before := SessionAt(db, calls, limit, i - 1);
      StepKeepsSound(before, EventOf(before, calls[i - 1], limit));
    }
  }

  /** The transactions of the first `n` calls. */
  function EventsOf(db: Db, calls: seq<Timed>, limit: nat, n: nat): (run: seq<Event>)
    requires n <= |calls|
    ensures |run| == n
  {
    if n == 0 then []
    else EventsOf(db, calls, limit, n - 1) + [EventOf(SessionAt(db, calls, limit, n - 1), calls[n - 1], limit)]
  }

  lemma {:induction false} StateOfPrefix(db: Db, run: seq<Event>, e: Event, i: nat)
    requires i <= |run|
    ensures StateAt(db, run + [e], i) == StateAt(db, run, i)
  {
    hide Next;
    if i > 0 { StateOfPrefix(db, run, e, i - 1); }
  }

  /** A run of requests is a run of transactions: what holds of every run of
      transactions holds of it. */
  lemma {:induction false} SessionIsRun(db: Db, calls: seq<Timed>, limit: nat, n: nat, i: nat)
    requires i <= n <= |calls|
    ensures StateAt(db, EventsOf(db, calls, limit, n), i) == SessionAt(db, calls, limit, i)
  {
    hide Next, EventOf;
    if n > 0 {
      var before := EventsOf(db, calls, limit, n - 1);
      var e := EventOf(SessionAt(db, calls, limit, n - 1), calls[n - 1], limit);
      SessionIsRun(db, calls, limit, n - 1, if i < n then i else n - 1);
      StateOfPrefix(db, before, e, if i < n then i else n - 1);
    }
  }

  /** What a transaction of given statements leaves. */
  lemma AnsweredIs(db: Db, c: Timed, limit: nat, ss: seq<Statement>)
    requires EventOf(db, c, limit) == Event(c.now, Commit(ss))
    ensures var r := ExecAll(db, c.now, ss); Answered(db, c, limit) == if r.Some? then r.value else db
  {
    hide EventOf, ExecAll;
  }

  // ---- what inserts nothing -------------------------------------------------

  lemma {:induction false} FewerRows(rows: seq<Observation>, db: Db, s: Statement, e: string)
    ensures |RowsOf(Without(rows, db, s), e)| <= |RowsOf(rows, e)|
  {
    hide Selects;
    if rows != [] {
      var before, last := rows[..|rows| - 1], rows[|rows| - 1];
      FewerRows(before, db, s, e);
      var kept := Without(before, db, s);
      assert (kept + [last])[..|kept|] == kept && kept + [] == kept;
    }
  }

  lemma {:induction false} SameRowCount(rows: seq<Observation>, db: Db, s: Statement, content: string, e: string)
    ensures |RowsOf(Rewritten(rows, db, s, content), e)| == |RowsOf(rows, e)|
  {
    hide Selects;
    if rows != [] {
      var before := rows[..|rows| - 1];
      SameRowCount(before, db, s, content, e);
      assert Rewritten(rows, db, s, content)[..|rows| - 1] == Rewritten(before, db, s, content);
    }
  }

  /** No trail grows and no name is new. */
  ghost predicate OnlyShrinks(before: Db, after: Db) {
    && after.entities.Keys <= before.entities.Keys
    && forall e :: |Trail(after, e)| <= |Trail(before, e)|
  }

  lemma StatementShrinks(db: Db, now: int, s: Statement)
    requires !IsInsert(s)
    ensures OnlyShrinks(db, After(db, now, s))
  {
    hide Selects, Touched, TruthsAfter, RelationsAfter, RowsOf, Without, Rewritten;
    forall e ensures |Trail(After(db, now, s), e)| <= |Trail(db, e)| {
      FewerRows(db.observations, db, s, e);
      if Updates(s) { SameRowCount(db.observations, db, s, s.newContent, e); }
    }
  }

  lemma {:induction false} TransactionShrinks(db: Db, now: int, ss: seq<Statement>)
    requires InsertsNothing(ss) && ExecAll(db, now, ss).Some?
    ensures OnlyShrinks(db, ExecAll(db, now, ss).value)
  {
    hide After, IsInsert, Trail, Allowed;
    if ss != [] {
      TransactionShrinks(db, now, ss[..|ss| - 1]);
      StatementShrinks(ExecAll(db, now, ss[..|ss| - 1]).value, now, ss[|ss| - 1]);
    }
  }

  lemma {:induction false} DeletingInsertsNothing(names: seq<string>)
    ensures InsertsNothing(DeleteStatements(names))
  {
    if names != [] { DeletingInsertsNothing(names[..|names| - 1]); }
  }

  /** Calls that neither create, add nor abandon. */
  lemma ShrinkingCall(db: Db, c: Timed, limit: nat)
    requires IsCall(c.call) && (c.call.Retention? || c.call.Other?)
    ensures OnlyShrinks(db, Answered(db, c, limit))
  {
    hide ExecAll, OnlyShrinks, PurgeOrder, DeleteStatements, InsertsNothing;
    var body := Body(db, EventOf(db, c, limit));
    if c.call.Retention? { DeletingInsertsNothing(PurgeOrder(db, c.now, c.call.days)); }
    if ExecAll(db, c.now, body).Some? {
      TransactionShrinks(db, c.now, body);
    } else {
      SameShrinks(db);
    }
  }

  lemma SameShrinks(db: Db)
    ensures OnlyShrinks(db, db)
  {
  }
}
