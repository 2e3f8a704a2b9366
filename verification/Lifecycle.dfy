/** Properties of whole runs: any interleaving of user transactions, abandonment
    passes and deletion passes by any number of processes. */
module Lifecycle {
  import opened Options
  import opened Schema
  import opened Runs
  import opened Sweep
  import opened Outcomes

  /** One transaction of some process. A user transaction may run any
      statements at all; `Purge` is also what the sweep's retention runs. */
  datatype Step =
    | Commit(statements: seq<Statement>)
    | Abandon(days: nat)
    | Purge(days: nat)

  datatype Event = Event(now: int, step: Step)

  function Body(db: Db, e: Event): seq<Statement> {
    match e.step
    case Commit(statements) => statements
    case Abandon(days) => AbandonPass(db, e.now, days)
    case Purge(days) => PurgePass(db, e.now, days)
  }

  /** A transaction that fails is rolled back. */
  function Next(db: Db, e: Event): Db {
    ExecAll(db, e.now, Body(db, e)).GetOr(db)
  }

  /** The state after the first `i` transactions. */
  function StateAt(db: Db, run: seq<Event>, i: nat): Db
    requires i <= |run|
  {
    if i == 0 then db else Next(StateAt(db, run, i - 1), run[i - 1])
  }

  /** The entities a transaction creates or writes rows of. */
  function EventWrites(db: Db, e: Event): set<string> {
    if ExecAll(db, e.now, Body(db, e)).Some? then WritesAll(db, e.now, Body(db, e)) else {}
  }

  function UserWrites(db: Db, e: Event): set<string> {
    if e.step.Commit? then EventWrites(db, e) else {}
  }

  lemma EventFrame(db: Db, e: Event, n: string)
    requires n in Next(db, e).entities
    ensures n in EventWrites(db, e) ==> Next(db, e).entities[n].lastActivity == e.now
    ensures n !in EventWrites(db, e) ==>
              n in db.entities && Next(db, e).entities[n] == db.entities[n] && SameTruths(Next(db, e), db, n)
  {
    hide Body, ExecAll;
    if ExecAll(db, e.now, Body(db, e)).Some? {
      TransactionFrame(db, e.now, Body(db, e), n);
    }
  }

  // ---- the two-stage lifecycle ----------------------------------------------

  /** Where an entity stands since a user last wrote it, open, at `t`: still
      open and untouched, or abandoned after more than the window. */
  predicate Stage(db: Db, n: string, t: int, abandonDays: nat) {
    n in db.entities ==>
      var last := db.entities[n].lastActivity;
      (IsOpen(db, n) && last == t) || (!IsOpen(db, n) && last > t + abandonDays * DAY)
  }

  lemma StageSurvivesAbandon(db: Db, e: Event, n: string, t: int, abandonDays: nat)
    requires Stage(db, n, t, abandonDays) && e.step.Abandon? && (e.step.days == 0 || e.step.days >= abandonDays)
    ensures Stage(Next(db, e), n, t, abandonDays)
  {
    var days := e.step.days;
    hide Annotated, AbandonNote;
    AbandonPassEffect(db, e.now, days);
    assert Next(db, e) == Abandoned(db, e.now, days);
    var after := Next(db, e);
    hide Next, Abandoned, HasOpenChild;
    if days != 0 && n in AbandonCandidates(db, e.now, days) {
      assert OlderThan(db, n, e.now, days);
      assert days * DAY >= abandonDays * DAY;
    } else {
      assert SameEntity(db, after, n);
    }
  }

  lemma StageSurvivesPurge(db: Db, e: Event, n: string, t: int, abandonDays: nat)
    requires Stage(db, n, t, abandonDays) && e.step.Purge?
    ensures Stage(Next(db, e), n, t, abandonDays)
  {
    PurgePassEffect(db, e.now, e.step.days);
    hide ExecAll, PurgePass, PurgeCandidates;
  }

  lemma StageSurvivesOthers(db: Db, e: Event, n: string, t: int, abandonDays: nat)
    requires Stage(db, n, t, abandonDays) && n !in UserWrites(db, e) && e.step.Commit?
    ensures Stage(Next(db, e), n, t, abandonDays)
  {
    hide Next, EventWrites;
    if n in Next(db, e).entities {
      EventFrame(db, e, n);
      assert StatusOf(Next(db, e), n) == StatusOf(db, n);
    }
  }

  lemma {:induction false} StageLasts(db: Db, run: seq<Event>, n: string, i: nat, k: nat, abandonDays: nat)
    requires i < k <= |run|
    requires n in UserWrites(StateAt(db, run, i), run[i]) && IsOpen(StateAt(db, run, i + 1), n)
    requires forall m :: i < m < k ==> n !in UserWrites(StateAt(db, run, m), run[m])
    requires forall m :: i < m < k && run[m].step.Abandon? && run[m].step.days > 0 ==> run[m].step.days >= abandonDays
    ensures Stage(StateAt(db, run, k), n, run[i].now, abandonDays)
  {
    hide Next, Stage, UserWrites;
    if k == i + 1 {
      StageBegins(StateAt(db, run, i), run[i], n, abandonDays);
    } else {
      StageLasts(db, run, n, i, k - 1, abandonDays);
      var before, e := StateAt(db, run, k - 1), run[k - 1];
      match e.step {
        case Commit(_) => StageSurvivesOthers(before, e, n, run[i].now, abandonDays);
        case Abandon(_) => StageSurvivesAbandon(before, e, n, run[i].now, abandonDays);
        case Purge(_) => StageSurvivesPurge(before, e, n, run[i].now, abandonDays);
      }
    }
  }

  lemma StageBegins(db: Db, e: Event, n: string, abandonDays: nat)
    requires n in UserWrites(db, e) && IsOpen(Next(db, e), n)
    ensures Stage(Next(db, e), n, e.now, abandonDays)
  {
    if n in Next(db, e).entities {
      EventFrame(db, e, n);
    }
  }

  /** If retention deletes a task that a user last wrote while it was open, then
      more than both windows together passed in between: two seconds more at
      least, as each window is exceeded strictly. Any processes may run
      anything between the passes, and no property of the clock is needed. */
  lemma TwoStageLifecycle(db: Db, run: seq<Event>, n: string, i: nat, j: nat, abandonDays: nat, retentionDays: nat)
    requires i < j < |run|
    requires n in UserWrites(StateAt(db, run, i), run[i]) && !IsFinished(StateAt(db, run, i + 1), n)
    requires forall k :: i < k < j ==> n !in UserWrites(StateAt(db, run, k), run[k])
    requires forall k :: i < k < j && run[k].step.Abandon? && run[k].step.days > 0 ==> run[k].step.days >= abandonDays
    requires run[j].step.Purge? && run[j].step.days >= retentionDays
    requires n in StateAt(db, run, j).entities && n !in StateAt(db, run, j + 1).entities
    ensures run[j].now >= run[i].now + (abandonDays + retentionDays) * 86400 + 2
  {
    FinishedIsTerminal(StateAt(db, run, i + 1), n);
    StageLasts(db, run, n, i, j, abandonDays);
    var before, days := StateAt(db, run, j), run[j].step.days;
    PurgePassEffect(before, run[j].now, days);
    hide StateAt, ExecAll, PurgePass;
    assert n in PurgeCandidates(before, run[j].now, days) by {
      assert StateAt(db, run, j + 1) == Next(before, run[j]) by { StateAtUnfolds(db, run, j); }
    }
    assert days * DAY >= retentionDays * DAY;
  }

  lemma StateAtUnfolds(db: Db, run: seq<Event>, i: nat)
    requires i < |run|
    ensures StateAt(db, run, i + 1) == Next(StateAt(db, run, i), run[i])
  {
  }

  /** The bound is reached: a task created at 0 can be gone two seconds after
      both windows. */
  lemma LifecycleBoundIsSharp(n: string, abandonDays: nat, retentionDays: nat)
    requires abandonDays > 0
    ensures var run := [ Event(0, Commit([InsertEntity(n, TASK)])),
                         Event(abandonDays * DAY + 1, Abandon(abandonDays)),
                         Event((abandonDays + retentionDays) * DAY + 2, Purge(retentionDays)) ];
            && n in UserWrites(EmptyDb, run[0]) && IsOpen(StateAt(EmptyDb, run, 1), n)
            && n in StateAt(EmptyDb, run, 2).entities && n !in StateAt(EmptyDb, run, 3).entities
  {
    hide *;
    var run := [ Event(0, Commit([InsertEntity(n, TASK)])), Event(abandonDays * DAY + 1, Abandon(abandonDays)),
                 Event((abandonDays + retentionDays) * DAY + 2, Purge(retentionDays)) ];
    CreateTask(n);
    NothingYet(run);
    StateAtUnfolds(EmptyDb, run, 0);
    StateAtUnfolds(EmptyDb, run, 1);
    StateAtUnfolds(EmptyDb, run, 2);
    SweptOnTime(Next(EmptyDb, run[0]), n, abandonDays, retentionDays);
  }

  lemma NothingYet(run: seq<Event>)
    ensures StateAt(EmptyDb, run, 0) == EmptyDb
  {
  }

  lemma AbandonedOnTime(db: Db, n: string, now: int, days: nat)
    requires days > 0 && IsIdleOpenTask(db, n, now, days) && db.relations == {}
    ensures var after := Next(db, Event(now, Abandon(days)));
            IsTask(after, n) && IsTerminal(StatusOf(after, n)) && after.entities[n].lastActivity == now
  {
    hide Annotated, AbandonNote;
    AbandonPassEffect(db, now, days);
    assert Next(db, Event(now, Abandon(days))) == Abandoned(db, now, days);
    hide Next, Abandoned, ExecAll, IsIdleOpenTask;
    assert n in AbandonCandidates(db, now, days) by { assert IsTask(db, n) by { IdleIsTask(db, n, now, days); } }
    IdleIsTask(db, n, now, days);
  }

  lemma IdleIsTask(db: Db, n: string, now: int, days: nat)
    requires IsIdleOpenTask(db, n, now, days)
    ensures IsTask(db, n)
  {
  }

  lemma DeletedOnTime(db: Db, n: string, now: int, days: nat)
    requires IsTask(db, n) && IsTerminal(StatusOf(db, n)) && OlderThan(db, n, now, days)
    ensures n !in Next(db, Event(now, Purge(days))).entities
  {
    PurgePassEffect(db, now, days);
    hide ExecAll, PurgePass, StatusOf, IsTerminal, OlderThan;
    assert n in PurgeCandidates(db, now, days);
  }

  lemma SweptOnTime(one: Db, n: string, abandonDays: nat, retentionDays: nat)
    requires abandonDays > 0 && one.entities == map[n := Entity(TASK, 0, 0)] && one.truths == map[]
        && one.relations == {}
    ensures IsOpen(one, n)
    ensures var two := Next(one, Event(abandonDays * DAY + 1, Abandon(abandonDays)));
            && n in two.entities
            && n !in Next(two, Event((abandonDays + retentionDays) * DAY + 2, Purge(retentionDays))).entities
  {
    hide Next;
    AbandonedOnTime(one, n, abandonDays * DAY + 1, abandonDays);
    DeletedOnTime(Next(one, Event(abandonDays * DAY + 1, Abandon(abandonDays))), n,
        (abandonDays + retentionDays) * DAY + 2, retentionDays);
  }

  lemma CreateTask(n: string)
    ensures var e := Event(0, Commit([InsertEntity(n, TASK)]));
            var one := Next(EmptyDb, e);
            && n in UserWrites(EmptyDb, e) && one.entities == map[n := Entity(TASK, 0, 0)]
            && one.truths == map[] && one.relations == {}
  {
    var s := InsertEntity(n, TASK);
    assert [s][..0] == [];
    assert ExecAll(EmptyDb, 0, []) == Some(EmptyDb);
  }
}
