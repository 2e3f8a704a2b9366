/** What every run keeps: sound references, stable kinds, exact activity times,
    and observation ids that are never reused. */
module History {
  import opened Options
  import opened Schema
  import opened Runs
  import opened Sweep
  import opened Outcomes
  import opened Lifecycle

  // ---- soundness ------------------------------------------------------------

  lemma {:induction false} TransactionKeepsSound(db: Db, now: int, ss: seq<Statement>)
    requires IsSound(db) && ExecAll(db, now, ss).Some?
    ensures IsSound(ExecAll(db, now, ss).value)
  {
    hide IsSound, Exec;
    if ss != [] {
      TransactionKeepsSound(db, now, ss[..|ss| - 1]);
      ExecKeepsSound(ExecAll(db, now, ss[..|ss| - 1]).value, now, ss[|ss| - 1]);
    }
  }

  lemma StepKeepsSound(db: Db, e: Event)
    requires IsSound(db)
    ensures IsSound(Next(db, e))
  {
    hide IsSound, ExecAll, Body;
    if ExecAll(db, e.now, Body(db, e)).Some? {
      TransactionKeepsSound(db, e.now, Body(db, e));
    }
  }

  /** In every reachable state each observation, truth and relation refers to
      live entities, and ids and rowids are distinct. */
  lemma {:induction false} RunsAreSound(db: Db, run: seq<Event>, i: nat)
    requires IsSound(db) && i <= |run|
    ensures IsSound(StateAt(db, run, i))
  {
    hide IsSound, Next;
    if i > 0 {
      RunsAreSound(db, run, i - 1);
      StepKeepsSound(StateAt(db, run, i - 1), run[i - 1]);
    }
  }

  // ---- removal --------------------------------------------------------------

  /** Statements that can remove an entity. */
  predicate Removes(s: Statement, n: string) {
    s == DeleteEntity(n) || s == ClearEntities
  }

  lemma {:induction false} RemovalIsExplicit(db: Db, now: int, ss: seq<Statement>, n: string)
    requires ExecAll(db, now, ss).Some? && n in db.entities && n !in ExecAll(db, now, ss).value.entities
    ensures exists i :: 0 <= i < |ss| && Removes(ss[i], n)
  {
    hide Touched, ObservationsAfter, TruthsAfter, RelationsAfter, Allowed;
    if ss != [] {
      var before, last := ss[..|ss| - 1], ss[|ss| - 1];
      if n !in ExecAll(db, now, before).value.entities {
        RemovalIsExplicit(db, now, before, n);
        var i :| 0 <= i < |before| && Removes(before[i], n);
        assert ss[i] == before[i];
      } else {
        assert Removes(ss[|ss| - 1], n);
      }
    }
  }

  lemma AbandonKeepsEntities(db: Db, e: Event)
    requires e.step.Abandon?
    ensures Next(db, e).entities.Keys == db.entities.Keys
  {
    hide Annotated, AbandonNote;
    AbandonPassEffect(db, e.now, e.step.days);
    assert Next(db, e) == Abandoned(db, e.now, e.step.days);
  }

  /** Only an explicit delete or reset ever removes an entity that is not a
      finished, idle task. */
  lemma OnlyFinishedTasksAreSwept(db: Db, e: Event, n: string)
    requires n in db.entities && n !in Next(db, e).entities
    ensures || (e.step.Purge? && IsDueForDeletion(db, n, e.now, e.step.days))
            || (e.step.Commit? && (DeleteEntity(n) in e.step.statements || ClearEntities in e.step.statements))
  {
    match e.step {
      case Commit(statements) =>
        hide ExecAll;
        RemovalIsExplicit(db, e.now, statements, n);
        var i :| 0 <= i < |statements| && Removes(statements[i], n);
        assert statements[i] in statements;
      case Abandon(days) =>
        AbandonKeepsEntities(db, e);
      case Purge(days) =>
        PurgePassEffect(db, e.now, days);
        DueIsCandidate(db, e.now, days, n);
        hide ExecAll, PurgePass, IsDueForDeletion;
        assert n in PurgeCandidates(db, e.now, days);
    }
  }

  /** One statement that does not remove an entity keeps it and its kind. */
  lemma KindIsStable(db: Db, now: int, s: Statement, n: string)
    requires n in db.entities
    ensures n in After(db, now, s).entities ==>
              After(db, now, s).entities[n].kind == db.entities[n].kind
                  && After(db, now, s).entities[n].createdAt == db.entities[n].createdAt
    ensures !Removes(s, n) ==> n in After(db, now, s).entities
  {
    hide Touched, ObservationsAfter, TruthsAfter, RelationsAfter;
  }

  ghost predicate Spares(ss: seq<Statement>, n: string) {
    forall k :: 0 <= k < |ss| ==> !Removes(ss[k], n)
  }

  /** `n` is still the entity it was. */
  ghost predicate IsSameEntity(before: Db, after: Db, n: string) {
    && n in before.entities && n in after.entities
    && after.entities[n].kind == before.entities[n].kind
        && after.entities[n].createdAt == before.entities[n].createdAt
  }

  lemma {:induction false} SparedByTransaction(db: Db, now: int, ss: seq<Statement>, n: string)
    requires n in db.entities && Spares(ss, n) && ExecAll(db, now, ss).Some?
    ensures IsSameEntity(db, ExecAll(db, now, ss).value, n)
  {
    hide After, Removes, Allowed;
    if ss != [] {
      SparedByTransaction(db, now, ss[..|ss| - 1], n);
      KindIsStable(ExecAll(db, now, ss[..|ss| - 1]).value, now, ss[|ss| - 1], n);
    }
  }

  /** An entity that no transaction deletes stays, and its kind and creation
      time never change. */
  lemma {:induction false} EntitiesLast(db: Db, run: seq<Event>, i: nat, j: nat, n: string)
    requires i <= j <= |run| && n in StateAt(db, run, i).entities
    requires forall k :: i <= k < j ==> Spares(Body(StateAt(db, run, k), run[k]), n)
    ensures IsSameEntity(StateAt(db, run, i), StateAt(db, run, j), n)
  {
    hide Body, ExecAll, Spares;
    if i < j {
      EntitiesLast(db, run, i, j - 1, n);
      var before, e := StateAt(db, run, j - 1), run[j - 1];
      if ExecAll(before, e.now, Body(before, e)).Some? {
        SparedByTransaction(before, e.now, Body(before, e), n);
      }
    }
  }

  // ---- activity -------------------------------------------------------------

  /** The time of the latest of the first `i` transactions that created `n` or
      wrote one of its observations or truths. */
  function LastWrite(db: Db, run: seq<Event>, i: nat, n: string): Option<int>
    requires i <= |run|
  {
    if i == 0 then None
    else if n in EventWrites(StateAt(db, run, i - 1), run[i - 1]) then Some(run[i - 1].now)
    else LastWrite(db, run, i - 1, n)
  }

  /** `last_activity` is exactly the time of the latest such write. */
  lemma {:induction false} ActivityIsLastWrite(run: seq<Event>, i: nat, n: string)
    requires i <= |run| && n in StateAt(EmptyDb, run, i).entities
    ensures LastWrite(EmptyDb, run, i, n) == Some(StateAt(EmptyDb, run, i).entities[n].lastActivity)
  {
    hide Next, EventWrites;
    if i > 0 {
      EventFrame(StateAt(EmptyDb, run, i - 1), run[i - 1], n);
      if n !in EventWrites(StateAt(EmptyDb, run, i - 1), run[i - 1]) {
        ActivityIsLastWrite(run, i - 1, n);
      }
    }
  }

  lemma RelatingTouchesNothing(db: Db, now: int, s: Statement)
    requires OnRelations(s)
    ensures Writes(db, s) == {} && After(db, now, s).entities == db.entities
  {
    assert forall k :: k in db.truths ==> !SelectsTruth(db, s, k);
  }

  /** A transaction that only relates or unrelates entities writes nothing that
      counts as activity. */
  lemma {:induction false} RelationsAreNoActivity(db: Db, now: int, ss: seq<Statement>)
    requires ExecAll(db, now, ss).Some? && forall k :: 0 <= k < |ss| ==> OnRelations(ss[k])
    ensures WritesAll(db, now, ss) == {} && ExecAll(db, now, ss).value.entities == db.entities
  {
    hide After, Writes, OnRelations, Allowed;
    if ss != [] {
      RelationsAreNoActivity(db, now, ss[..|ss| - 1]);
      RelatingTouchesNothing(ExecAll(db, now, ss[..|ss| - 1]).value, now, ss[|ss| - 1]);
    }
  }

  /** No activity is later than `t`. */
  ghost predicate ActiveBy(db: Db, t: int) {
    forall n :: n in db.entities ==> db.entities[n].lastActivity <= t
  }

  /** An entity is at least as recently active as each of its rows. */
  ghost predicate ActivityCoversRows(db: Db) {
    && (forall n :: n in db.entities ==> db.entities[n].createdAt <= db.entities[n].lastActivity)
    && (forall i :: 0 <= i < |db.observations| ==>
          db.observations[i].entity in db.entities
              && db.observations[i].createdAt <= db.entities[db.observations[i].entity].lastActivity)
    && (forall k :: k in db.truths ==> k.0 in db.entities && db.truths[k].updatedAt <= db.entities[k.0].lastActivity)
  }

  lemma ExecMovesActivityForward(db: Db, now: int, s: Statement)
    requires ActiveBy(db, now)
    ensures ActiveBy(After(db, now, s), now)
    ensures var after := After(db, now, s);
            forall n :: n in after.entities && n in db.entities ==>
                db.entities[n].lastActivity <= after.entities[n].lastActivity
    ensures var after := After(db, now, s);
            forall n :: n in after.entities && n !in db.entities ==>
                after.entities[n].createdAt <= after.entities[n].lastActivity
  {
    hide Touched, ObservationsAfter, TruthsAfter, RelationsAfter;
  }

  lemma ObservationsStayCovered(db: Db, now: int, s: Statement)
    requires IsSound(db) && ActiveBy(db, now) && ActivityCoversRows(db) && Allowed(db, s)
    ensures var after := After(db, now, s);
            forall i :: 0 <= i < |after.observations| ==>
              var row := after.observations[i];
              row.entity in after.entities && row.createdAt <= after.entities[row.entity].lastActivity
  {
    hide NewestIds, NextRowid, SelectsTruth, TruthsAfter, RelationsAfter;
    ExecMovesActivityForward(db, now, s);
    ExecKeepsReferences(db, now, s);
    WithoutKeeps(db.observations, db, s);
    var after := After(db, now, s);
    forall i | 0 <= i < |after.observations|
      ensures var row := after.observations[i];
              row.entity in after.entities && row.createdAt <= after.entities[row.entity].lastActivity
    {
      hide Selects, TruthsAfter, RelationsAfter, EntitiesAfter;
      var row := after.observations[i];
      if s.InsertObservation? && i == |db.observations| {
        InsertedRowIsFresh(db, now, s);
      } else if Updates(s) || s.InsertObservation? {
        assert row.entity == db.observations[i].entity && row.createdAt == db.observations[i].createdAt;
      } else {
        assert row in Without(db.observations, db, s);
      }
    }
  }

  lemma InsertedRowIsFresh(db: Db, now: int, s: Statement)
    requires s.InsertObservation? && Allowed(db, s)
    ensures s.entity in After(db, now, s).entities && After(db, now, s).entities[s.entity].lastActivity == now
  {
  }

  lemma TruthsStayCovered(db: Db, now: int, s: Statement)
    requires IsSound(db) && ActiveBy(db, now) && ActivityCoversRows(db) && Allowed(db, s)
    ensures var after := After(db, now, s);
            forall k :: k in after.truths ==>
                k.0 in after.entities && after.truths[k].updatedAt <= after.entities[k.0].lastActivity
  {
    ExecMovesActivityForward(db, now, s);
    ExecKeepsReferences(db, now, s);
    var after := After(db, now, s);
    hide NextRowid, NewestIds, ObservationsAfter, RelationsAfter;
    forall k | k in after.truths
      ensures k.0 in after.entities && after.truths[k].updatedAt <= after.entities[k.0].lastActivity
    {
      if k !in db.truths || after.truths[k] != db.truths[k] {
        assert k.0 in Touched(db, s);
      }
    }
  }

  lemma ExecKeepsCovered(db: Db, now: int, s: Statement)
    requires IsSound(db) && ActiveBy(db, now) && ActivityCoversRows(db) && Allowed(db, s)
    ensures ActivityCoversRows(After(db, now, s)) && ActiveBy(After(db, now, s), now)
  {
    ExecMovesActivityForward(db, now, s);
    ObservationsStayCovered(db, now, s);
    TruthsStayCovered(db, now, s);
    hide After;
    forall n | n in After(db, now, s).entities
      ensures After(db, now, s).entities[n].createdAt <= After(db, now, s).entities[n].lastActivity
    {
      if n in db.entities { KindIsStable(db, now, s, n); }
    }
  }

  lemma {:induction false} TransactionKeepsCovered(db: Db, now: int, ss: seq<Statement>)
    requires IsSound(db) && ActiveBy(db, now) && ActivityCoversRows(db) && ExecAll(db, now, ss).Some?
    ensures var after := ExecAll(db, now, ss).value;
            IsSound(after) && ActivityCoversRows(after) && ActiveBy(after, now)
  {
    hide IsSound, ActiveBy, ActivityCoversRows, After, Allowed;
    if ss != [] {
      TransactionKeepsCovered(db, now, ss[..|ss| - 1]);
      var mid := ExecAll(db, now, ss[..|ss| - 1]).value;
      ExecKeepsSound(mid, now, ss[|ss| - 1]);
      ExecKeepsCovered(mid, now, ss[|ss| - 1]);
    }
  }

  ghost predicate ClockNeverGoesBack(run: seq<Event>) {
    forall i, j :: 0 <= i < j < |run| ==> run[i].now <= run[j].now
  }

  lemma NothingIsActive(t: int)
    ensures IsSound(EmptyDb) && ActivityCoversRows(EmptyDb) && ActiveBy(EmptyDb, t)
  {
  }

  lemma StepKeepsCovered(db: Db, e: Event)
    requires IsSound(db) && ActiveBy(db, e.now) && ActivityCoversRows(db)
    ensures IsSound(Next(db, e)) && ActivityCoversRows(Next(db, e)) && ActiveBy(Next(db, e), e.now)
  {
    hide IsSound, ActiveBy, ActivityCoversRows, Body, ExecAll;
    if ExecAll(db, e.now, Body(db, e)).Some? {
      TransactionKeepsCovered(db, e.now, Body(db, e));
    }
  }

  lemma StillActiveBy(db: Db, t: int, later: int)
    requires ActiveBy(db, t) && t <= later
    ensures ActiveBy(db, later)
  {
  }

  /** Under a clock that never goes back, every entity of every reachable state
      is at least as recently active as each of its rows, and never active in
      the future. */
  lemma {:induction false} ActivityCoversRowsInRuns(run: seq<Event>, i: nat, t: int)
    requires i <= |run| && ClockNeverGoesBack(run) && (i > 0 ==> run[i - 1].now <= t)
    ensures var db := StateAt(EmptyDb, run, i); IsSound(db) && ActivityCoversRows(db) && ActiveBy(db, t)
  {
    hide IsSound, ActiveBy, ActivityCoversRows, Next;
    NothingIsActive(t);
    if i > 0 {
      var e := run[i - 1];
      ActivityCoversRowsInRuns(run, i - 1, e.now);
      StepKeepsCovered(StateAt(EmptyDb, run, i - 1), e);
      StillActiveBy(StateAt(EmptyDb, run, i), e.now, t);
    }
  }

  // ---- observation ids ------------------------------------------------------

  /** Every row of `after` either is new, with an id above all of `before`, or
      was there before under the same id. */
  ghost predicate IdsExtend(before: Db, after: Db) {
    && before.lastId <= after.lastId
    && forall row :: row in after.observations && row.id <= before.lastId ==>
         exists was :: was in before.observations && was.id == row.id && was.entity == row.entity
             && was.createdAt == row.createdAt
  }

  lemma ExecExtendsIds(db: Db, now: int, s: Statement)
    requires IdsIncrease(db)
    ensures IdsExtend(db, After(db, now, s))
  {
    hide Selects, TruthsAfter, RelationsAfter, EntitiesAfter;
    WithoutKeeps(db.observations, db, s);
    var after := After(db, now, s);
    forall row | row in after.observations && row.id <= db.lastId
      ensures exists was ::
          was in db.observations && was.id == row.id && was.entity == row.entity && was.createdAt == row.createdAt
    {
      var i :| 0 <= i < |after.observations| && after.observations[i] == row;
      if Updates(s) || s.InsertObservation? {
        assert i < |db.observations|;
        assert db.observations[i] in db.observations;
      } else {
        assert row in Without(db.observations, db, s);
        assert row in db.observations;
      }
    }
  }

  lemma IdsExtendTransitively(a: Db, b: Db, c: Db)
    requires IdsExtend(a, b) && IdsExtend(b, c)
    ensures IdsExtend(a, c)
  {
    forall row | row in c.observations && row.id <= a.lastId
      ensures exists was ::
          was in a.observations && was.id == row.id && was.entity == row.entity && was.createdAt == row.createdAt
    {
      var mid :| mid in b.observations && mid.id == row.id && mid.entity == row.entity
          && mid.createdAt == row.createdAt;
      var first :| first in a.observations && first.id == mid.id && first.entity == mid.entity
          && first.createdAt == mid.createdAt;
    }
  }

  lemma {:induction false} TransactionExtendsIds(db: Db, now: int, ss: seq<Statement>)
    requires IsSound(db) && ExecAll(db, now, ss).Some?
    ensures IdsExtend(db, ExecAll(db, now, ss).value)
  {
    if ss != [] {
      hide IdsExtend, After;
      TransactionExtendsIds(db, now, ss[..|ss| - 1]);
      var mid := ExecAll(db, now, ss[..|ss| - 1]).value;
      TransactionKeepsSound(db, now, ss[..|ss| - 1]);
      ExecExtendsIds(mid, now, ss[|ss| - 1]);
      IdsExtendTransitively(db, mid, ExecAll(db, now, ss).value);
    }
  }

  lemma SameIds(db: Db)
    ensures IdsExtend(db, db)
  {
  }

  lemma StepExtendsIds(db: Db, e: Event)
    requires IsSound(db)
    ensures IdsExtend(db, Next(db, e))
  {
    hide IdsExtend, IsSound, Body, ExecAll;
    SameIds(db);
    if ExecAll(db, e.now, Body(db, e)).Some? {
      TransactionExtendsIds(db, e.now, Body(db, e));
    }
  }

  lemma {:induction false} RunsExtendIds(db: Db, run: seq<Event>, i: nat, j: nat)
    requires IsSound(db) && i <= j <= |run|
    ensures IdsExtend(StateAt(db, run, i), StateAt(db, run, j))
  {
    hide IdsExtend, IsSound, Next;
    if i == j {
      SameIds(StateAt(db, run, i));
    } else {
      RunsExtendIds(db, run, i, j - 1);
      RunsAreSound(db, run, j - 1);
      StepExtendsIds(StateAt(db, run, j - 1), run[j - 1]);
      IdsExtendTransitively(StateAt(db, run, i), StateAt(db, run, j - 1), StateAt(db, run, j));
    }
  }

  ghost predicate HasId(db: Db, id: nat) {
    exists row :: row in db.observations && row.id == id
  }

  lemma OneRowPerId(db: Db, a: Observation, b: Observation)
    requires IdsIncrease(db) && a in db.observations && b in db.observations && a.id == b.id
    ensures a == b
  {
    var i :| 0 <= i < |db.observations| && db.observations[i] == a;
    var j :| 0 <= j < |db.observations| && db.observations[j] == b;
    assert !(i < j) && !(j < i);
  }

  /** The row that `row` continues. */
  lemma Origin(before: Db, after: Db, row: Observation) returns (was: Observation)
    requires IdsExtend(before, after) && row in after.observations && row.id <= before.lastId
    ensures was in before.observations && was.id == row.id && was.entity == row.entity
        && was.createdAt == row.createdAt
  {
    was :| was in before.observations && was.id == row.id && was.entity == row.entity
        && was.createdAt == row.createdAt;
  }

  /** An id read at one point of a run later denotes the same observation of the
      same entity, or nothing. */
  lemma IdsAreNeverReused(db: Db, run: seq<Event>, i: nat, j: nat, a: Observation, b: Observation)
    requires IsSound(db) && i <= j <= |run|
    requires a in StateAt(db, run, i).observations && b in StateAt(db, run, j).observations && a.id == b.id
    ensures a.entity == b.entity && a.createdAt == b.createdAt
  {
    RunsExtendIds(db, run, i, j);
    RunsAreSound(db, run, i);
    var before, after := StateAt(db, run, i), StateAt(db, run, j);
    hide StateAt, IdsExtend;
    IdIsInUse(before, a);
    var was := Origin(before, after, b);
    OneRowPerId(before, a, was);
  }

  lemma IdIsInUse(db: Db, a: Observation)
    requires IdsIncrease(db) && a in db.observations
    ensures a.id <= db.lastId
  {
    var i :| 0 <= i < |db.observations| && db.observations[i] == a;
  }

  /** Id order is write order: a row that was written between two states has a
      larger id than every row of the earlier one. */
  lemma LaterRowsHaveLargerIds(db: Db, run: seq<Event>, i: nat, j: nat, a: Observation, b: Observation)
    requires IsSound(db) && i <= j <= |run|
    requires a in StateAt(db, run, i).observations && b in StateAt(db, run, j).observations
        && !HasId(StateAt(db, run, i), b.id)
    ensures a.id < b.id
  {
    RunsExtendIds(db, run, i, j);
    RunsAreSound(db, run, i);
    var before, after := StateAt(db, run, i), StateAt(db, run, j);
    hide StateAt, IdsExtend;
    IdIsInUse(before, a);
    if b.id <= before.lastId {
      var was := Origin(before, after, b);
    }
  }

  /** An id that was handed out and denotes nothing never comes back: not after
      pruning, cascades or a reset. */
  lemma DroppedIdsNeverReturn(db: Db, run: seq<Event>, i: nat, j: nat, id: nat)
    requires IsSound(db) && i <= j <= |run| && id <= StateAt(db, run, i).lastId && !HasId(StateAt(db, run, i), id)
    ensures !HasId(StateAt(db, run, j), id)
  {
    RunsExtendIds(db, run, i, j);
    var before, after := StateAt(db, run, i), StateAt(db, run, j);
    hide StateAt, IdsExtend;
    forall row | row in after.observations ensures row.id != id {
      if row.id == id {
        var was := Origin(before, after, row);
      }
    }
  }
}
