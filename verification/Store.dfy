/** The store: one process's handle on the database file. */
module Store {
  import opened Options
  import opened Order
  import opened Schema
  import opened Tables
  import opened Sweep
  import opened Edits
  import opened Lists
  import opened Outcomes
  import opened Lifecycle
  import opened History
  import opened Trails
  import opened Reports
  import opened Requests
  import Claims
  import Normalize
  import Sessions

  /** The two transactions of a sweep, with none in between. A retention window
      of 0 deletes nothing. */
  function Swept(db: Db, now: int, abandonDays: nat, retentionDays: nat): Db {
    var mid := Next(db, Event(now, Abandon(abandonDays)));
    if retentionDays == 0 then mid else Next(mid, Event(now, Purge(retentionDays)))
  }

  datatype UpdateReply = Updated(status: string) | Invalid | NotFound

  lemma PrefixSucceeds(db: Db, now: int, some: seq<Statement>, all: seq<Statement>)
    requires some <= all && ExecAll(db, now, all).Some?
    ensures ExecAll(db, now, some).Some?
  {
    if ExecAll(db, now, some).None? { FailureIsFinal(db, now, some, all); }
  }

  class SqliteStore {
    const db: Database
    const abandonDays: nat
    const retentionDays: nat
    var retentionSwept: bool

    constructor (db: Database, abandonDays: nat, retentionDays: nat)
      requires db.Valid()
      ensures !retentionSwept
      ensures this.db == db && this.abandonDays == abandonDays && this.retentionDays == retentionDays
    {
      this.db, this.abandonDays, this.retentionDays := db, abandonDays, retentionDays;
      retentionSwept := false;
    }

    /** The tables a write transaction of this process starts from. */
    function Start(now: int): Db
      reads this, db
    {
      if retentionSwept then db.State() else Swept(db.State(), now, abandonDays, retentionDays)
    }

    lemma StartIsSound(now: int)
      requires db.Valid()
      ensures IsSound(Start(now)) && (retentionSwept ==> Start(now) == db.State())
    {
      hide IsSound;
      ValidIsSound(db);
      SweepKeepsSound(db.State(), now, abandonDays, retentionDays);
    }

    // ---- the sweep ----------------------------------------------------------

    method AbandonIdleTasks(days: nat, now: int) returns (abandoned: nat)
      requires db.Valid()
      modifies db
      ensures db.Valid()
      ensures db.State() == Abandoned(old(db.State()), now, days)
      ensures IsAbandonOutcome(old(db.State()), db.State(), now, days)
      ensures abandoned == |DueForAbandonment(old(db.State()), now, days)|
    {
      hide *;
      AbandonOutcome(db.State(), now, days);
      DueAreCandidates(db.State(), now, days);
      if days == 0 {
        NoWindowNoChange(db.State(), now);
        return 0;
      }
      var tx := db.Begin();
      var names := Sorted(AbandonCandidates(tx.db, now, days));
      AbandonedAll(tx.db, now, days, names);
      for i := 0 to |names|
        invariant db.Valid()
        invariant ExecAll(tx.db, now, AbandonStatements(names[..i], days)) == Some(db.State())
      {
        var status, note := UpsertTruth(names[i], STATUS, ABANDONED), InsertObservation(names[i], AbandonNote(days));
        ghost var done := AbandonStatements(names[..i], days);
        AbandonStep(tx.db, now, days, names, i);
        var ok := db.Continue(tx, done, status, now);
        ok := db.Continue(tx, done + [status], note, now);
      }
      return |names|;
    }

    method PurgeInner(days: nat, apply: bool, now: int) returns (report: seq<Candidate>, deleted: nat)
      requires db.Valid()
      modifies db
      ensures db.Valid()
      ensures report == Report(old(db.State()), now, days)
      ensures deleted == if apply then |report| else 0
      ensures db.State() == if apply then Next(old(db.State()), Event(now, Purge(days))) else old(db.State())
      ensures apply ==> db.State() == Removed(old(db.State()), PurgeCandidates(old(db.State()), now, days))
      ensures apply ==> IsPurgeOutcome(old(db.State()), db.State(), now, days)
      ensures |report| == |DueForDeletion(old(db.State()), now, days)|
      ensures forall i :: 0 <= i < |report| ==> ReportsOn(old(db.State()), report[i], now, days)
    {
      hide *;
      assert IsSound(db.State()) by { ValidIsSound(db); }
      PurgeOutcome(db.State(), now, days);
      DueAreCandidates(db.State(), now, days);
      forall i | 0 <= i < |Report(db.State(), now, days)|
        ensures ReportsOn(db.State(), Report(db.State(), now, days)[i], now, days)
      {
        ReportIsRight(db.State(), now, days, i);
      }
      report := Report(db.State(), now, days);
      if !apply {
        return report, 0;
      }
      var tx := db.Begin();
      PurgedAll(tx.db, now, days);
      ghost var names := PurgeOrder(tx.db, now, days);
      for i := 0 to |report|
        invariant db.Valid()
        invariant ExecAll(tx.db, now, DeleteStatements(names[..i])) == Some(db.State())
      {
        DeleteStep(tx.db, now, names, i);
        ReportNames(tx.db, now, days, i);
        var ok := db.Continue(tx, DeleteStatements(names[..i]), DeleteEntity(report[i].name), now);
      }
      return report, |report|;
    }

    /** Abandonment, then retention. */
    method SweepBody(now: int) returns (abandoned: nat, purged: nat)
      requires db.Valid()
      modifies db
      ensures db.Valid()
      ensures db.State() == Swept(old(db.State()), now, abandonDays, retentionDays)
      ensures IsSweepOutcome(old(db.State()), db.State(), now, abandonDays, retentionDays)
      ensures abandoned == |DueForAbandonment(old(db.State()), now, abandonDays)|
      ensures purged == if retentionDays == 0 then 0 else |DueForDeletion(old(db.State()), now, retentionDays)|
    {
      hide *;
      ghost var before := db.State();
      assert IsSound(before) by { ValidIsSound(db); }
      AbandonIsStep(db.State(), now, abandonDays);
      SweptIs(db.State(), now, abandonDays, retentionDays);
      abandoned := AbandonIdleTasks(abandonDays, now);
      purged := 0;
      ghost var mid := db.State();
      SameDueForDeletion(before, mid, now, abandonDays, retentionDays);
      if retentionDays != 0 {
        var report;
        report, purged := PurgeInner(retentionDays, true, now);
      }
      SweepOutcome(before, mid, db.State(), now, abandonDays, retentionDays);
    }

    method SweepNow(now: int) returns (abandoned: nat, purged: nat)
      requires db.Valid()
      modifies this`retentionSwept, db
      ensures db.Valid() && retentionSwept
      ensures db.State() == Swept(old(db.State()), now, abandonDays, retentionDays)
      ensures IsSweepOutcome(old(db.State()), db.State(), now, abandonDays, retentionDays)
      ensures abandoned == |DueForAbandonment(old(db.State()), now, abandonDays)|
      ensures purged == if retentionDays == 0 then 0 else |DueForDeletion(old(db.State()), now, retentionDays)|
    {
      retentionSwept := true;
      abandoned, purged := SweepBody(now);
    }

    /** Once per process, before its first write. */
    method BeginWrite(now: int)
      requires db.Valid()
      modifies this`retentionSwept, db
      ensures db.Valid() && retentionSwept
      ensures db.State() == old(Start(now))
      ensures if old(retentionSwept) then db.State() == old(db.State())
              else IsSweepOutcome(old(db.State()), db.State(), now, abandonDays, retentionDays)
    {
      if !retentionSwept {
        retentionSwept := true;
        var abandoned, purged := SweepBody(now);
      }
    }

    /** A purge on request comes after the sweep, and may be a dry run. */
    method PurgeOnRequest(days: nat, apply: bool, now: int) returns (report: seq<Candidate>, deleted: nat)
      requires db.Valid()
      modifies this`retentionSwept, db
      ensures db.Valid() && retentionSwept
      ensures report == Report(old(Start(now)), now, days)
      ensures db.State()
           == if apply then Removed(old(Start(now)), PurgeCandidates(old(Start(now)), now, days)) else old(Start(now))
      ensures apply ==> IsPurgeOutcome(old(Start(now)), db.State(), now, days)
      ensures deleted == if apply then |report| else 0
      ensures forall i :: 0 <= i < |report| ==> ReportsOn(old(Start(now)), report[i], now, days)
    {
      hide *;
      BeginWrite(now);
      report, deleted := PurgeInner(days, apply, now);
    }

    /** A write transaction of the given statements. */
    method Write(statements: seq<Statement>, now: int) returns (ok: bool)
      requires db.Valid()
      modifies this`retentionSwept, db
      ensures db.Valid() && retentionSwept
      ensures ok == ExecAll(old(Start(now)), now, statements).Some?
      ensures db.State() == if ok then ExecAll(old(Start(now)), now, statements).value else old(Start(now))
    {
      BeginWrite(now);
      ok := db.Transact(statements, now);
    }

    // ---- entities and observations ------------------------------------------

    method CreateEntities(inputs: seq<EntityInput>, now: int)
      requires db.Valid()
      modifies this`retentionSwept, db
      ensures db.Valid() && retentionSwept
      ensures IsCreation(old(Start(now)), db.State(), inputs)
      ensures db.State() == Sessions.Answered(old(Start(now)), Sessions.Timed(now, Sessions.Create(inputs)), 0)
    {
      hide *;
      BeginWrite(now);
      var tx := db.Begin();
      assert IsSound(tx.db) by { SnapshotIsSound(db.tok, tx); }
      CreatingNothing(tx.db, now, inputs);
      for i := 0 to |inputs|
        invariant db.Valid() && retentionSwept
        invariant ExecAll(tx.db, now, CreateStatements(tx.db, inputs[..i])) == Some(db.State())
      {
        var name := Normalize.NormalizeKey(inputs[i].name);
        CreateStep(tx.db, now, inputs, i);
        ghost var done := CreateStatements(tx.db, inputs[..i]);
        var inserted := name !in db.State().entities;
        var ok := db.Continue(tx, done, InsertEntity(name, inputs[i].kind), now);
        if inserted {
          ok := InsertAll(tx, done + [InsertEntity(name, inputs[i].kind)], name, inputs[i].observations, now);
        }
      }
      CreatedAll(tx.db, now, inputs);
      CreateAnswered(tx.db, now, inputs);
    }

    /** Insert observations of one entity into a running transaction. */
    method InsertAll(
      tx: Snapshot, ghost done: seq<Statement>, e: string, contents: seq<string>, now: int) returns (ok: bool)
      requires db.Valid() && IsSnapshot(db.tok, tx) && ExecAll(tx.db, now, done) == Some(db.State())
      modifies db
      ensures db.Valid()
      ensures ok == ExecAll(tx.db, now, done + Inserts(e, contents)).Some?
      ensures db.State() == if ok then ExecAll(tx.db, now, done + Inserts(e, contents)).value else tx.db
    {
      hide *;
      ok := true;
      InsertsStart(e, contents, done);
      for j := 0 to |contents|
        invariant db.Valid() && ok
        invariant ExecAll(tx.db, now, done + Inserts(e, contents[..j])) == Some(db.State())
      {
        InsertsStep(e, contents, j, done);
        ok := db.Continue(tx, done + Inserts(e, contents[..j]), InsertObservation(e, contents[j]), now);
        if !ok {
          FailureIsFinal(tx.db, now, done + Inserts(e, contents[..j + 1]), done + Inserts(e, contents));
          return;
        }
      }
    }

    method AddObservations(batches: seq<Batch>, limit: nat, now: int) returns (ok: bool)
      requires db.Valid()
      modifies this`retentionSwept, db
      ensures db.Valid() && retentionSwept
      ensures ok == AllLive(old(Start(now)), batches)
      ensures !ok ==> db.State() == old(Start(now))
      ensures ok ==> forall e ::
                Trail(db.State(), e) == TrailAfter(old(Start(now)), batches, if limit == 0 then 200 else limit, e)
      ensures ok ==> ExecAll(old(Start(now)), now, AddStatements(batches, Cap(limit))) == Some(db.State())
      ensures db.State() == Sessions.Answered(old(Start(now)), Sessions.Timed(now, Sessions.Add(batches)), limit)
    {
      hide *;
      CapIs(limit);
      BeginWrite(now);
      var tx := db.Begin();
      assert IsSound(tx.db) by { SnapshotIsSound(db.tok, tx); }
      AddingObservations(tx.db, now, batches, Cap(limit));
      AddAnswered(tx.db, now, batches, limit);
      AddsStart(tx.db, now, Cap(limit), batches);
      for i := 0 to |batches|
        invariant db.Valid() && retentionSwept
        invariant ExecAll(tx.db, now, AddStatements(batches[..i], Cap(limit))) == Some(db.State())
      {
        var entity := Normalize.NormalizeKey(batches[i].entityName);
        ghost var done := AddStatements(batches[..i], Cap(limit));
        AddsStep(batches, i, Cap(limit));
        ok := InsertAll(tx, done, entity, batches[i].contents, now);
        if !ok {
          FailureIsFinal(tx.db, now, done + Inserts(entity, batches[i].contents), AddStatements(batches, Cap(limit)));
          return;
        }
        done := done + Inserts(entity, batches[i].contents);
        ok := db.Continue(tx, done, PruneObservations(entity, Cap(limit)), now);
        if !ok {
          FailureIsFinal(tx.db, now, AddStatements(batches[..i + 1], Cap(limit)), AddStatements(batches, Cap(limit)));
          return;
        }
      }
      ok := true;
    }

    method DeleteEntities(names: seq<string>, now: int)
      requires db.Valid()
      modifies this`retentionSwept, db
      ensures db.Valid() && retentionSwept
      ensures db.State() == Removed(old(Start(now)), Members(Normalize.CanonicalAll(names)))
    {
      hide *;
      DeletionEffect(Start(now), now, Normalize.CanonicalAll(names));
      var ok := Write(DeleteStatements(Normalize.CanonicalAll(names)), now);
    }

    method CreateRelations(relations: seq<Relation>, now: int) returns (ok: bool)
      requires db.Valid()
      modifies this`retentionSwept, db
      ensures db.Valid() && retentionSwept
      ensures ok == EndsLive(old(Start(now)), NamedAll(relations))
      ensures db.State() == if ok then Related(old(Start(now)), NamedAll(relations)) else old(Start(now))
      ensures ok <==> forall r :: r in relations ==>
                && Normalize.Canonical(r.from) in old(Start(now)).entities
                && Normalize.Canonical(r.to) in old(Start(now)).entities
      ensures ok ==>
                var all := set r | r in relations ::
                             Relation(Normalize.Canonical(r.from), Normalize.Canonical(r.to), r.kind);
                db.State() == old(Start(now)).(relations := old(Start(now)).relations + all)
    {
      hide *;
      RelatingIs(Start(now), relations);
      Relating(Start(now), now, relations);
      ok := Write(RelateStatements(relations), now);
    }

    method TruthUpsert(entity: string, key: string, value: string, now: int) returns (ok: bool)
      requires db.Valid()
      modifies this`retentionSwept, db
      ensures db.Valid() && retentionSwept
      ensures ok == (Normalize.Canonical(entity) in old(Start(now)).entities)
      ensures !ok ==> db.State() == old(Start(now))
      ensures var e := Normalize.Canonical(entity);
              ok ==> db.State() == After(old(Start(now)), now, UpsertTruth(e, key, value))
      ensures ok ==> exists rowid ::
                db.State() == TruthPut(old(Start(now)), now, Normalize.Canonical(entity), key, value, rowid)
    {
      hide *;
      var e := Normalize.NormalizeKey(entity);
      OneStatement(Start(now), now, UpsertTruth(e, key, value));
      ghost var rowid := UpsertTruthEffect(Start(now), now, e, key, value);
      ok := Write([UpsertTruth(e, key, value)], now);
    }

    method TruthDelete(entity: string, key: string, now: int)
      requires db.Valid()
      modifies this`retentionSwept, db
      ensures db.Valid() && retentionSwept
      ensures db.State() == TruthDeleted(old(Start(now)), now, Normalize.Canonical(entity), key)
    {
      hide *;
      var e := Normalize.NormalizeKey(entity);
      DeleteTruthEffect(Start(now), now, e, key);
      OneStatement(Start(now), now, DeleteTruth(e, key));
      var ok := Write([DeleteTruth(e, key)], now);
    }

    method DeleteObservations(deletions: seq<Deletion>, now: int)
      requires db.Valid()
      modifies this`retentionSwept, db
      ensures db.Valid() && retentionSwept
      ensures db.State() == AllDeleted(old(Start(now)), now, Deletes(deletions))
      ensures var named := (row: Observation) =>
                exists d ::
                  d in deletions && Normalize.Canonical(d.entityName) == row.entity && row.content in d.contents;
              forall row :: row in db.State().observations <==> row in old(Start(now)).observations && !named(row)
    {
      hide *;
      DeletesAre(deletions);
      DeletingAll(Start(now), now, Deletes(deletions));
      DeletedRows(Start(now), now, deletions);
      var ok := Write(Deletes(deletions), now);
    }

    method DeleteObservationById(entity: string, id: nat, now: int)
      requires db.Valid()
      modifies this`retentionSwept, db
      ensures db.Valid() && retentionSwept
      ensures db.State() == DeletedById(old(Start(now)), now, Normalize.Canonical(entity), id)
    {
      hide *;
      var e := Normalize.NormalizeKey(entity);
      DeleteByIdEffect(Start(now), now, e, id);
      OneStatement(Start(now), now, Statement.DeleteObservationById(e, id));
      var ok := Write([Statement.DeleteObservationById(e, id)], now);
    }

    method UpdateObservationById(entity: string, id: nat, content: string, now: int)
      requires db.Valid()
      modifies this`retentionSwept, db
      ensures db.Valid() && retentionSwept
      ensures db.State() == UpdatedById(old(Start(now)), now, Normalize.Canonical(entity), id, content)
    {
      hide *;
      var e := Normalize.NormalizeKey(entity);
      UpdateByIdEffect(Start(now), now, e, id, content);
      OneStatement(Start(now), now, Statement.UpdateObservationById(e, id, content));
      var ok := Write([Statement.UpdateObservationById(e, id, content)], now);
    }

    method UpdateObservation(entity: string, was: string, content: string, now: int)
      requires db.Valid()
      modifies this`retentionSwept, db
      ensures db.Valid() && retentionSwept
      ensures db.State() == UpdatedByContent(old(Start(now)), now, Normalize.Canonical(entity), was, content)
    {
      hide *;
      var e := Normalize.NormalizeKey(entity);
      UpdateByContentEffect(Start(now), now, e, was, content);
      OneStatement(Start(now), now, UpdateObservations(e, was, content));
      var ok := Write([UpdateObservations(e, was, content)], now);
    }

    method DeleteRelations(relations: seq<Relation>, now: int)
      requires db.Valid()
      modifies this`retentionSwept, db
      ensures db.Valid() && retentionSwept
      ensures db.State() == Unrelated(old(Start(now)), relations)
    {
      hide *;
      Unrelating(Start(now), now, relations);
      var ok := Write(Unrelates(relations), now);
    }

    /** Empty all tables; ids are still never reused. */
    method Reset(now: int)
      requires db.Valid()
      modifies this`retentionSwept, db
      ensures db.Valid() && retentionSwept
      ensures db.State() == EmptyDb.(lastId := old(Start(now)).lastId)
    {
      hide *;
      ResetEmpties(Start(now), now);
      var ok := Write([ClearRelations, ClearTruths, ClearObservations, ClearEntities], now);
    }

    // ---- tasks --------------------------------------------------------------

    /** Append notes and change the status of a task, in one transaction. */
    method Update(
      task: string, notes: seq<string>, status: Option<string>, limit: nat, now: int) returns (reply: UpdateReply)
      requires db.Valid()
      modifies this`retentionSwept, db
      ensures db.Valid()
      ensures var t, start := Normalize.Canonical(task), old(Start(now));
              if (status.None? && notes == []) || (status.Some? && !IsTaskStatus(status.value)) then
                reply == Invalid && db.State() == old(db.State()) && retentionSwept == old(retentionSwept)
              else if t !in start.entities then reply == NotFound && db.State() == start
              else if start.entities[t].kind != "task" then reply == Invalid && db.State() == start
              else
                && IsUpdate(start, db.State(), t, notes, status, if limit == 0 then 200 else limit)
                && reply == Updated(if status.Some? then status.value else
                                      if (t, "status") in start.truths then start.truths[(t, "status")].value else "")
                && ExecAll(start, now, UpdateStatements(t, notes, status, Cap(limit))) == Some(db.State())
                && db.State()
                   == Sessions.Answered(start, Sessions.Timed(now, Sessions.Update(task, notes, status)), limit)
    {
      hide *;
      TaskWords(Start(now), Normalize.Canonical(task), status, limit);
      if (status.None? && notes == []) || (status.Some? && !IsTaskStatus(status.value)) {
        return Invalid;
      }
      var t := Normalize.NormalizeKey(task);
      BeginWrite(now);
      if t !in db.State().entities {
        return NotFound;
      }
      if db.State().entities[t].kind != TASK {
        return Invalid;
      }
      var current := StatusOf(db.State(), t);
      assert IsSound(db.State()) by { ValidIsSound(db); }
      UpdatingTask(db.State(), now, t, notes, status, Cap(limit));
      NotRefused(db.State(), task, notes, status);
      UpdateAnswered(db.State(), now, task, notes, status, limit);
      var ok := db.Transact(UpdateStatements(t, notes, status, Cap(limit)), now);
      return Updated(status.GetOr(current.GetOr("")));
    }

    /** Claim a ready task, as the atomic claim does. */
    method Claim(q: Claims.Request, now: int) returns (claimed: Option<string>)
      requires db.Valid() && !q.Other?
      modifies this`retentionSwept, db
      ensures db.Valid() && retentionSwept
      ensures (db.State(), claimed) == Claims.Atomic(old(Start(now)), now, q)
      ensures Claims.IsClaimOutcome(old(Start(now)), db.State(), q, claimed)
    {
      hide *;
      BeginWrite(now);
      assert IsSound(db.State()) by { ValidIsSound(db); }
      AtomicIs(db.State(), now, q);
      Claims.ClaimOutcome(db.State(), now, q);
      claimed := Claims.Target(db.State(), q);
      if claimed.Some? {
        if !Claims.IsReady(db.State(), claimed.value) {
          return None;
        }
        var ok := db.Transact(Claims.ClaimBody(q, claimed.value), now);
      }
    }
  }

  // ---- the requests as calls ------------------------------------------------

  lemma CreateAnswered(db: Db, now: int, inputs: seq<EntityInput>)
    ensures var r := ExecAll(db, now, CreateStatements(db, inputs));
            r.Some? ==> Sessions.Answered(db, Sessions.Timed(now, Sessions.Create(inputs)), 0) == r.value
  {
    hide ExecAll, CreateStatements;
    Sessions.AnsweredIs(db, Sessions.Timed(now, Sessions.Create(inputs)), 0, CreateStatements(db, inputs));
  }

  lemma AddAnswered(db: Db, now: int, batches: seq<Batch>, limit: nat)
    ensures var r := ExecAll(db, now, AddStatements(batches, Cap(limit)));
            Sessions.Answered(db, Sessions.Timed(now, Sessions.Add(batches)), limit) == if r.Some? then r.value else db
  {
    hide ExecAll, AddStatements;
    Sessions.AnsweredIs(db, Sessions.Timed(now, Sessions.Add(batches)), limit, AddStatements(batches, Cap(limit)));
  }

  lemma UpdateAnswered(db: Db, now: int, task: string, notes: seq<string>, status: Option<string>, limit: nat)
    requires !Sessions.IsRefused(db, task, notes, status)
    ensures var r := ExecAll(db, now, UpdateStatements(Normalize.Canonical(task), notes, status, Cap(limit)));
            var c := Sessions.Timed(now, Sessions.Update(task, notes, status));
            r.Some? ==> Sessions.Answered(db, c, limit) == r.value
  {
    hide ExecAll, UpdateStatements, Normalize.Canonical, Sessions.IsRefused;
    Sessions.AnsweredIs(db, Sessions.Timed(now, Sessions.Update(task, notes, status)), limit,
                        UpdateStatements(Normalize.Canonical(task), notes, status, Cap(limit)));
  }

  lemma NotRefused(db: Db, task: string, notes: seq<string>, status: Option<string>)
    requires !((status.None? && notes == []) || (status.Some? && !IsTaskStatus(status.value)))
    requires var t := Normalize.Canonical(task); t in db.entities && db.entities[t].kind == TASK
    ensures !Sessions.IsRefused(db, task, notes, status)
  {
    hide Normalize.Canonical, IsTaskStatus;
  }

  // ---- the loops' steps -----------------------------------------------------

  lemma SnapshotIsSound(tok: Tokenizer, tx: Snapshot)
    requires IsSnapshot(tok, tx)
    ensures IsSound(tx.db)
  {
  }

  lemma ValidIsSound(db: Database)
    requires db.Valid()
    ensures IsSound(db.State())
  {
  }

  lemma SweepKeepsSound(db: Db, now: int, abandonDays: nat, retentionDays: nat)
    requires IsSound(db)
    ensures IsSound(Swept(db, now, abandonDays, retentionDays))
  {
    hide IsSound, ExecAll, Body;
    var abandon, purge := Event(now, Lifecycle.Abandon(abandonDays)), Event(now, Purge(retentionDays));
    StepKeepsSound(db, abandon);
    StepKeepsSound(Next(db, abandon), purge);
  }

  lemma NoWindowNoChange(db: Db, now: int)
    ensures Abandoned(db, now, 0) == db
  {
  }

  lemma AbandonIsStep(db: Db, now: int, days: nat)
    ensures Next(db, Event(now, Abandon(days))) == Abandoned(db, now, days)
  {
  }

  lemma SweptIs(db: Db, now: int, abandonDays: nat, retentionDays: nat)
    ensures var mid := Next(db, Event(now, Abandon(abandonDays)));
            Swept(db, now, abandonDays, retentionDays)
            == if retentionDays == 0 then mid else Next(mid, Event(now, Purge(retentionDays)))
  {
  }

  lemma AbandonPassIs(db: Db, now: int, days: nat)
    requires days > 0
    ensures AbandonPass(db, now, days) == AbandonStatements(Sorted(AbandonCandidates(db, now, days)), days)
    ensures ExecAll(db, now, AbandonPass(db, now, days)).Some? ==>
              ExecAll(db, now, AbandonPass(db, now, days)) == Some(Abandoned(db, now, days))
  {
    hide ExecAll, AbandonStatements, AbandonCandidates, Sorted;
  }

  lemma NoStatements(db: Db, now: int, names: seq<string>, days: nat)
    ensures ExecAll(db, now, AbandonStatements(names[..0], days)) == Some(db) && names[..|names|] == names
  {
  }

  lemma AbandonedAll(db: Db, now: int, days: nat, names: seq<string>)
    requires days > 0 && names == Sorted(AbandonCandidates(db, now, days))
    ensures ExecAll(db, now, AbandonStatements(names, days)) == Some(Abandoned(db, now, days))
    ensures ExecAll(db, now, AbandonStatements(names[..0], days)) == Some(db)
    ensures names[..|names|] == names && |names| == |AbandonCandidates(db, now, days)|
  {
    AbandonPassIs(db, now, days);
    NoStatements(db, now, names, days);
    hide *;
    AbandonPassEffect(db, now, days);
  }

  lemma AbandonStep(db: Db, now: int, days: nat, names: seq<string>, i: nat)
    requires i < |names| && ExecAll(db, now, AbandonStatements(names, days)).Some?
    ensures var status := UpsertTruth(names[i], STATUS, ABANDONED);
            var note := InsertObservation(names[i], AbandonNote(days));
            var done := AbandonStatements(names[..i], days);
            && AbandonStatements(names[..i + 1], days) == done + [status] + [note]
            && ExecAll(db, now, done + [status]).Some? && ExecAll(db, now, done + [status] + [note]).Some?
  {
    hide AbandonNote, ExecAll;
    assert names[..i + 1][..i] == names[..i];
    var status, note := UpsertTruth(names[i], STATUS, ABANDONED), InsertObservation(names[i], AbandonNote(days));
    var done := AbandonStatements(names[..i], days);
    assert AbandonStatements(names[..i + 1], days) == done + [status] + [note];
    AbandonPrefix(names, i + 1, days);
    PrefixSucceeds(db, now, done + [status], AbandonStatements(names, days));
    PrefixSucceeds(db, now, done + [status] + [note], AbandonStatements(names, days));
  }

  lemma {:induction false} AbandonPrefix(names: seq<string>, i: nat, days: nat)
    requires i <= |names|
    ensures AbandonStatements(names[..i], days) <= AbandonStatements(names, days)
  {
    hide AbandonNote;
    if i < |names| {
      AbandonPrefix(names[..|names| - 1], i, days);
      assert names[..|names| - 1][..i] == names[..i];
    } else {
      assert names[..i] == names;
    }
  }

  lemma PurgedAll(db: Db, now: int, days: nat)
    ensures var names := PurgeOrder(db, now, days);
            && ExecAll(db, now, DeleteStatements(names)) == Some(Removed(db, PurgeCandidates(db, now, days)))
            && Next(db, Event(now, Purge(days))) == Removed(db, PurgeCandidates(db, now, days))
            && ExecAll(db, now, DeleteStatements(names[..0])) == Some(db)
            && names[..|names|] == names && |names| == |Report(db, now, days)|
  {
    hide *;
    PurgeIsStep(db, now, days);
    NothingDeleted(db, now, PurgeOrder(db, now, days));
    PurgePassEffect(db, now, days);
  }

  lemma PurgeIsStep(db: Db, now: int, days: nat)
    ensures PurgePass(db, now, days) == DeleteStatements(PurgeOrder(db, now, days))
    ensures ExecAll(db, now, PurgePass(db, now, days)).Some? ==>
              Next(db, Event(now, Purge(days))) == ExecAll(db, now, PurgePass(db, now, days)).value
  {
    hide ExecAll, PurgeOrder, DeleteStatements;
  }

  lemma NothingDeleted(db: Db, now: int, names: seq<string>)
    ensures ExecAll(db, now, DeleteStatements(names[..0])) == Some(db) && names[..|names|] == names
  {
  }

  lemma ReportNames(db: Db, now: int, days: nat, i: nat)
    requires i < |Report(db, now, days)|
    ensures |PurgeOrder(db, now, days)| == |Report(db, now, days)|
    ensures Report(db, now, days)[i].name == PurgeOrder(db, now, days)[i]
  {
    hide PurgeOrder, PurgeCandidates;
  }

  lemma DeleteStep(db: Db, now: int, names: seq<string>, i: nat)
    requires i < |names|
    ensures DeleteStatements(names[..i + 1]) == DeleteStatements(names[..i]) + [DeleteEntity(names[i])]
    ensures ExecAll(db, now, DeleteStatements(names[..i + 1])).Some?
  {
    hide ExecAll, Removed, Members;
    assert names[..i + 1][..i] == names[..i];
    DeletionEffect(db, now, names[..i + 1]);
  }

  lemma CreatingNothing(db: Db, now: int, inputs: seq<EntityInput>)
    ensures ExecAll(db, now, CreateStatements(db, inputs[..0])) == Some(db)
  {
  }

  lemma CreateStep(db: Db, now: int, inputs: seq<EntityInput>, i: nat)
    requires IsSound(db) && i < |inputs|
    ensures var name := Normalize.Canonical(inputs[i].name);
            var done, insert := CreateStatements(db, inputs[..i]), InsertEntity(name, inputs[i].kind);
            && ExecAll(db, now, done + [insert]).Some?
            && (ExecAll(db, now, done).Some? ==>
                (name in ExecAll(db, now, done).value.entities <==> IsTaken(db, inputs[..i], name)))
            && CreateStatements(db, inputs[..i + 1])
               == done + [insert]
                  + (if IsTaken(db, inputs[..i], name) then [] else Inserts(name, inputs[i].observations))
            && ExecAll(db, now, CreateStatements(db, inputs[..i + 1])).Some?
            && done + [insert] + [] == done + [insert]
  {
    hide ExecAll, IsSound, Normalize.Canonical, Creates, Inserts;
    assert inputs[..i + 1][..i] == inputs[..i];
    CreatingEntities(db, now, inputs[..i]);
    CreatingEntities(db, now, inputs[..i + 1]);
    var name := Normalize.Canonical(inputs[i].name);
    var done := CreateStatements(db, inputs[..i]);
    assert IsCreationOf(db, ExecAll(db, now, done).value, inputs[..i], name);
    PrefixSucceeds(db, now, done + [InsertEntity(name, inputs[i].kind)], CreateStatements(db, inputs[..i + 1]));
  }

  lemma CreatedAll(db: Db, now: int, inputs: seq<EntityInput>)
    requires IsSound(db)
    ensures inputs[..|inputs|] == inputs
    ensures ExecAll(db, now, CreateStatements(db, inputs)).Some?
        && IsCreation(db, ExecAll(db, now, CreateStatements(db, inputs)).value, inputs)
  {
    CreatingEntities(db, now, inputs);
  }

  lemma InsertsStart(e: string, contents: seq<string>, done: seq<Statement>)
    ensures done + Inserts(e, contents[..0]) == done && contents[..|contents|] == contents
  {
  }

  lemma InsertsStep(e: string, contents: seq<string>, j: nat, done: seq<Statement>)
    requires j < |contents|
    ensures done + Inserts(e, contents[..j]) + [InsertObservation(e, contents[j])]
        == done + Inserts(e, contents[..j + 1])
    ensures done + Inserts(e, contents[..j + 1]) <= done + Inserts(e, contents)
  {
    assert contents[..j + 1][..j] == contents[..j];
    InsertsPrefix(e, contents, j + 1);
  }

  lemma {:induction false} InsertsPrefix(e: string, contents: seq<string>, j: nat)
    requires j <= |contents|
    ensures Inserts(e, contents[..j]) <= Inserts(e, contents)
  {
    if j < |contents| {
      InsertsPrefix(e, contents[..|contents| - 1], j);
      assert contents[..|contents| - 1][..j] == contents[..j];
    } else {
      assert contents[..j] == contents;
    }
  }

  lemma AddsStart(db: Db, now: int, cap: nat, batches: seq<Batch>)
    ensures ExecAll(db, now, AddStatements(batches[..0], cap)) == Some(db) && batches[..|batches|] == batches
  {
  }

  lemma AddsStep(batches: seq<Batch>, i: nat, cap: nat)
    requires i < |batches|
    ensures var e := Normalize.Canonical(batches[i].entityName);
            var done := AddStatements(batches[..i], cap);
            && AddStatements(batches[..i + 1], cap)
                == done + Inserts(e, batches[i].contents) + [PruneObservations(e, cap)]
            && done + Inserts(e, batches[i].contents) <= AddStatements(batches, cap)
            && AddStatements(batches[..i + 1], cap) <= AddStatements(batches, cap)
  {
    hide Normalize.Canonical, Inserts;
    assert batches[..i + 1][..i] == batches[..i];
    AddsPrefix(batches, i + 1, cap);
  }

  lemma {:induction false} AddsPrefix(batches: seq<Batch>, i: nat, cap: nat)
    requires i <= |batches|
    ensures AddStatements(batches[..i], cap) <= AddStatements(batches, cap)
  {
    hide BatchStatements;
    if i < |batches| {
      AddsPrefix(batches[..|batches| - 1], i, cap);
      assert batches[..|batches| - 1][..i] == batches[..i];
    } else {
      assert batches[..i] == batches;
    }
  }

  lemma OneStatement(db: Db, now: int, s: Statement)
    ensures ExecAll(db, now, [s]) == Exec(db, now, s)
    ensures Exec(db, now, s) == if Allowed(db, s) then Some(After(db, now, s)) else None
    ensures s.UpsertTruth? ==> (Allowed(db, s) <==> s.entity in db.entities)
    ensures s.DeleteObservationById? || s.UpdateObservationById? ==> Allowed(db, s)
    ensures s.UpdateObservations? || s.DeleteTruth? ==> Allowed(db, s)
    ensures Allowed(db, s) ==> ExecAll(db, now, [s]) == Some(After(db, now, s))
  {
    hide After, Touched;
    assert [s][..0] == [] && ExecAll(db, now, []) == Some(db);
  }

  lemma {:induction false} NothingLeft(rows: seq<Observation>, db: Db)
    ensures Without(rows, db, ClearEntities) == []
  {
    if rows != [] { NothingLeft(rows[..|rows| - 1], db); }
  }

  lemma ClearingEntities(db: Db, now: int)
    ensures After(db, now, ClearEntities) == EmptyDb.(lastId := db.lastId)
  {
    NothingLeft(db.observations, db);
    hide Without, Touched;
    assert (map k | k in db.truths && !SelectsTruth(db, ClearEntities, k) :: db.truths[k]) == map[];
  }

  lemma ResetEmpties(db: Db, now: int)
    ensures ExecAll(db, now, [ClearRelations, ClearTruths, ClearObservations, ClearEntities])
        == Some(EmptyDb.(lastId := db.lastId))
  {
    var ss := [ClearRelations, ClearTruths, ClearObservations, ClearEntities];
    var a := After(db, now, ss[0]);
    var b := After(a, now, ss[1]);
    var c := After(b, now, ss[2]);
    assert c.lastId == db.lastId;
    ClearingEntities(c, now);
    hide After;
    Claims.FirstTwo(db, now, ss, a, b);
    assert ss[..3][..2] == ss[..2] && ss[..4][..3] == ss[..3] && ss[..4] == ss;
    assert ExecAll(db, now, ss[..3]) == Some(c);
  }

  lemma AtomicIs(db: Db, now: int, q: Claims.Request)
    requires IsSound(db) && !q.Other?
    ensures var target := Claims.Target(db, q);
            if target.Some? && Claims.IsReady(db, target.value) then
              var r := ExecAll(db, now, Claims.ClaimBody(q, target.value));
              r.Some? && Claims.Atomic(db, now, q) == (r.value, target)
            else Claims.Atomic(db, now, q) == (db, None)
  {
    hide Claims.Target, Claims.IsReady, Claims.ClaimBody, ExecAll, IsSound;
    var target := Claims.Target(db, q);
    if target.Some? && Claims.IsReady(db, target.value) {
      Claims.ClaimEffect(db, now, q, target.value);
    }
  }

  /** A sweep removes entities and relations and abandons open tasks; it changes
      nothing else that the task commands look at. */
  lemma SweepOnlyRemoves(db: Db, now: int, abandonDays: nat, retentionDays: nat, n: string)
    ensures var after := Swept(db, now, abandonDays, retentionDays);
            && after.relations <= db.relations
            && (n in after.entities ==> n in db.entities && after.entities[n].kind == db.entities[n].kind)
            && (n in after.entities && StatusOf(db, n) == Some(DONE) ==> StatusOf(after, n) == Some(DONE))
  {
    var e := Event(now, Lifecycle.Abandon(abandonDays));
    hide Annotated, AbandonNote;
    AbandonPassEffect(db, now, abandonDays);
    AbandonIsStep(db, now, abandonDays);
    var mid := Next(db, e);
    PurgePassEffect(mid, now, retentionDays);
    hide ExecAll, AbandonPass, PurgePass, HasOpenChild, OlderThan;
    if abandonDays == 0 || n !in AbandonCandidates(db, now, abandonDays) {
      assert SameEntity(db, mid, n);
    }
  }

  lemma DeletedRows(db: Db, now: int, deletions: seq<Deletion>)
    ensures forall row :: row in AllDeleted(db, now, Deletes(deletions)).observations
              <==> && row in db.observations
                   && !(exists d ::
                          && d in deletions
                          && Normalize.Canonical(d.entityName) == row.entity && row.content in d.contents)
  {
    hide Normalize.Canonical;
    DeletesAre(deletions);
    FilteredMembers(db.observations, Spared(Deletes(deletions)));
    hide Deletes;
  }
}
