/** The sweep: abandoning idle open tasks, and deleting finished ones. */
module Sweep {
  import opened Decimals
  import opened Options
  import opened Order
  import opened Sorting
  import opened Schema
  import opened Runs

  const PART_OF := "part_of"
  const ABANDONED := "ABANDONED"

  predicate IsTerminal(status: Option<string>) {
    status == Some(DONE) || status == Some("CLOSED") || status == Some(ABANDONED)
  }

  /** Open is every status that is not terminal, and no status at all. */
  predicate IsOpen(db: Db, n: string) {
    !IsTerminal(StatusOf(db, n))
  }

  predicate IsTask(db: Db, n: string) {
    n in db.entities && db.entities[n].kind == TASK
  }

  predicate OlderThan(db: Db, n: string, now: int, days: nat)
    requires n in db.entities
  {
    db.entities[n].lastActivity < now - days * DAY
  }

  predicate IsIdleOpenTask(db: Db, n: string, now: int, days: nat) {
    IsTask(db, n) && IsOpen(db, n) && OlderThan(db, n, now, days)
  }

  predicate HasOpenChild(db: Db, n: string) {
    exists r :: r in db.relations && r.to == n && r.kind == PART_OF && r.from in db.entities && IsOpen(db, r.from)
  }

  function AbandonCandidates(db: Db, now: int, days: nat): set<string> {
    set n | n in db.entities && IsIdleOpenTask(db, n, now, days) && !HasOpenChild(db, n)
  }

  function PurgeCandidates(db: Db, now: int, days: nat): set<string> {
    set n | n in db.entities && IsTask(db, n) && IsTerminal(StatusOf(db, n)) && OlderThan(db, n, now, days)
  }

  /** The text of the abandonment observation depends on the window only. */
  function AbandonNote(days: nat): string {
    "abandoned automatically after " + Decimal(days) + " idle days"
  }

  function AbandonStatements(names: seq<string>, days: nat): seq<Statement> {
    if names == [] then []
    else
      var n := names[|names| - 1];
      AbandonStatements(names[..|names| - 1], days)
      + [UpsertTruth(n, STATUS, ABANDONED), InsertObservation(n, AbandonNote(days))]
  }

  function DeleteStatements(names: seq<string>): seq<Statement> {
    if names == [] then [] else DeleteStatements(names[..|names| - 1]) + [DeleteEntity(names[|names| - 1])]
  }

  /** The statements of one abandonment pass; none when the window is 0. */
  function AbandonPass(db: Db, now: int, days: nat): seq<Statement> {
    if days == 0 then [] else AbandonStatements(Sorted(AbandonCandidates(db, now, days)), days)
  }

  /** Least recently active first, and by name. */
  function ByActivity(db: Db): (string, string) -> bool {
    (a, b) =>
      a in db.entities && b in db.entities
      && (db.entities[a].lastActivity < db.entities[b].lastActivity
          || (db.entities[a].lastActivity == db.entities[b].lastActivity && Less(a, b)))
  }

  lemma ActivityOrders(db: Db)
    ensures Orders(ByActivity(db), db.entities.Keys)
  {
    hide Less;
    LessOrders(db.entities.Keys);
  }

  function PurgeOrder(db: Db, now: int, days: nat): (names: seq<string>)
    ensures Members(names) == PurgeCandidates(db, now, days) && |names| == |PurgeCandidates(db, now, days)|
    ensures forall i, j :: 0 <= i < j < |names| ==> names[i] != names[j] && ByActivity(db)(names[i], names[j])
  {
    hide PurgeCandidates, ByActivity;
    assert PurgeCandidates(db, now, days) <= db.entities.Keys by { CandidatesAreLive(db, now, days); }
    ActivityOrders(db);
    SortedByIsDuplicateFree(PurgeCandidates(db, now, days), ByActivity(db));
    SortedBy(PurgeCandidates(db, now, days), ByActivity(db))
  }

  lemma CandidatesAreLive(db: Db, now: int, days: nat)
    ensures PurgeCandidates(db, now, days) <= db.entities.Keys
  {
  }

  function PurgePass(db: Db, now: int, days: nat): seq<Statement> {
    DeleteStatements(PurgeOrder(db, now, days))
  }

  // ---- what a pass does -----------------------------------------------------

  /** Everything about `n` except its observations is the same. */
  ghost predicate SameEntity(a: Db, b: Db, n: string) {
    && (n in a.entities <==> n in b.entities)
    && (n in a.entities ==> a.entities[n] == b.entities[n])
    && SameTruths(a, b, n)
  }

  /** The effect of abandoning `names`, in whatever order. */
  ghost predicate IsAbandonment(before: Db, after: Db, names: set<string>, now: int) {
    && after.entities.Keys == before.entities.Keys && after.relations == before.relations
    && (forall n :: n in names && n in before.entities ==>
          && StatusOf(after, n) == Some(ABANDONED)
          && (forall key :: key != STATUS ==> TruthOf(after, n, key) == TruthOf(before, n, key))
          && after.entities[n] == before.entities[n].(lastActivity := now))
    && (forall n :: n !in names ==> SameEntity(before, after, n))
  }

  lemma AbandonBoth(db: Db, now: int, n: string, note: string)
    requires n in db.entities
    ensures var s, t := UpsertTruth(n, STATUS, ABANDONED), InsertObservation(n, note);
            ExecAll(db, now, [s, t]) == Some(After(After(db, now, s), now, t)) && n in After(db, now, s).entities
  {
    var s, t := UpsertTruth(n, STATUS, ABANDONED), InsertObservation(n, note);
    assert [s, t][..1] == [s] && [s][..0] == [];
    var mid := After(db, now, s);
    assert n in mid.entities;
    hide After;
    assert ExecAll(db, now, []) == Some(db);
    assert ExecAll(db, now, [s]) == Some(mid);
  }

  /** Only the activity of `n` moves among entities, and no relation changes. */
  ghost predicate OnlyTouches(before: Db, after: Db, n: string, now: int) {
    && after.relations == before.relations && n in before.entities
    && after.entities == before.entities[n := before.entities[n].(lastActivity := now)]
  }

  lemma MarkOne(db: Db, now: int, n: string)
    requires n in db.entities
    ensures var after := After(db, now, UpsertTruth(n, STATUS, ABANDONED));
            && OnlyTouches(db, after, n, now)
            && forall m, key ::
                 TruthOf(after, m, key) == if m == n && key == STATUS then Some(ABANDONED) else TruthOf(db, m, key)
  {
    hide NextRowid, ObservationsAfter;
  }

  lemma NoteOne(db: Db, now: int, n: string, note: string)
    requires n in db.entities
    ensures var after := After(db, now, InsertObservation(n, note));
            OnlyTouches(db, after, n, now) && after.truths == db.truths
  {
    hide NextRowid, ObservationsAfter;
    assert forall k :: k in db.truths ==> !SelectsTruth(db, InsertObservation(n, note), k);
  }

  lemma AbandonOne(db: Db, now: int, n: string, note: string)
    requires n in db.entities
    ensures var r := ExecAll(db, now, [UpsertTruth(n, STATUS, ABANDONED), InsertObservation(n, note)]);
            r.Some? && IsAbandonment(db, r.value, {n}, now)
  {
    hide ExecAll, After;
    var s, t := UpsertTruth(n, STATUS, ABANDONED), InsertObservation(n, note);
    var mid := After(db, now, s);
    AbandonBoth(db, now, n, note);
    MarkOne(db, now, n);
    NoteOne(mid, now, n, note);
    assert forall m, key :: TruthOf(After(mid, now, t), m, key) == TruthOf(mid, m, key);
  }

  lemma NothingChanges(db: Db)
    ensures forall n :: SameEntity(db, db, n)
  {
  }

  lemma AbandonmentsCompose(a: Db, b: Db, c: Db, x: set<string>, y: set<string>, now: int)
    requires IsAbandonment(a, b, x, now) && IsAbandonment(b, c, y, now)
    ensures IsAbandonment(a, c, x + y, now)
  {
    forall n | n !in x + y ensures SameEntity(a, c, n) {
      assert SameEntity(a, b, n) && SameEntity(b, c, n);
    }
    forall n | n in x + y && n in a.entities
      ensures StatusOf(c, n) == Some(ABANDONED) && c.entities[n] == a.entities[n].(lastActivity := now)
      ensures forall key :: key != STATUS ==> TruthOf(c, n, key) == TruthOf(a, n, key)
    {
      if n !in x { assert SameEntity(a, b, n); }
      if n !in y { assert SameEntity(b, c, n); }
    }
  }

  lemma NothingAbandoned(db: Db, now: int)
    ensures IsAbandonment(db, db, {}, now)
  {
    NothingChanges(db);
  }

  lemma AbandonmentKeepsNames(before: Db, after: Db, names: set<string>, now: int)
    requires IsAbandonment(before, after, names, now)
    ensures after.entities.Keys == before.entities.Keys
  {
  }

  lemma {:induction false} AbandonEffect(db: Db, now: int, names: seq<string>, days: nat)
    requires Members(names) <= db.entities.Keys
    ensures var r := ExecAll(db, now, AbandonStatements(names, days));
            r.Some? && IsAbandonment(db, r.value, Members(names), now)
  {
    hide AbandonNote, IsAbandonment, Exec;
    if names == [] {
      NothingAbandoned(db, now);
      assert Members(names) == {};
    } else {
      var before, n := names[..|names| - 1], names[|names| - 1];
      MembersSnoc(names, |before|);
      AbandonEffect(db, now, before, days);
      var mid := ExecAll(db, now, AbandonStatements(before, days)).value;
      hide ExecAll;
      AbandonmentKeepsNames(db, mid, Members(before), now);
      AbandonOne(mid, now, n, AbandonNote(days));
      var one := [UpsertTruth(n, STATUS, ABANDONED), InsertObservation(n, AbandonNote(days))];
      ExecAllConcat(db, now, AbandonStatements(before, days), one);
      AbandonmentsCompose(db, mid, ExecAll(mid, now, one).value, Members(before), {n}, now);
    }
  }

  /** Each of `names` has one more observation, unpruned; other trails stay. */
  ghost predicate Annotated(before: Db, after: Db, names: set<string>, note: string) {
    forall n :: Trail(after, n) == Trail(before, n) + if n in names then [note] else []
  }

  lemma AnnotateOne(start: Db, db: Db, now: int, names: set<string>, n: string, note: string)
    requires Annotated(start, db, names, note) && n in db.entities && n !in names
    ensures var r := ExecAll(db, now, [UpsertTruth(n, STATUS, ABANDONED), InsertObservation(n, note)]);
            r.Some? && Annotated(start, r.value, names + {n}, note)
  {
    hide Trail, RowsOf;
    var s, t := UpsertTruth(n, STATUS, ABANDONED), InsertObservation(n, note);
    var mid := After(db, now, s);
    var after := After(mid, now, t);
    AbandonBoth(db, now, n, note);
    WithoutNothing(db.observations, db, s);
    InsertGrowsTrail(mid, now, n, note);
    hide After, ExecAll;
    forall m ensures Trail(after, m) == Trail(start, m) + if m in names + {n} then [note] else [] {
      SameRowsSameTrail(db, mid, m);
      if m != n { SameRowsSameTrail(mid, after, m); }
    }
  }

  lemma SameRowsSameTrail(a: Db, b: Db, m: string)
    ensures RowsOf(a.observations, m) == RowsOf(b.observations, m) ==> Trail(a, m) == Trail(b, m)
    ensures a.observations == b.observations ==> Trail(a, m) == Trail(b, m)
  {
  }

  lemma {:induction false} AbandonAnnotates(db: Db, now: int, names: seq<string>, days: nat)
    requires Members(names) <= db.entities.Keys
    requires forall i, j :: 0 <= i < j < |names| ==> names[i] != names[j]
    ensures var r := ExecAll(db, now, AbandonStatements(names, days));
            r.Some? && Annotated(db, r.value, Members(names), AbandonNote(days))
  {
    hide AbandonNote, Trail, Exec;
    if names == [] {
      assert forall n :: Trail(db, n) + [] == Trail(db, n);
    } else {
      var before, n := names[..|names| - 1], names[|names| - 1];
      MembersSnoc(names, |before|);
      AbandonAnnotates(db, now, before, days);
      AbandonEffect(db, now, before, days);
      var mid := ExecAll(db, now, AbandonStatements(before, days)).value;
      hide ExecAll, Annotated;
      AnnotateOne(db, mid, now, Members(before), n, AbandonNote(days));
      ExecAllConcat(db, now, AbandonStatements(before, days),
                    [UpsertTruth(n, STATUS, ABANDONED), InsertObservation(n, AbandonNote(days))]);
    }
  }

  /** The state one abandonment pass commits. */
  function Abandoned(db: Db, now: int, days: nat): Db {
    ExecAll(db, now, AbandonPass(db, now, days)).GetOr(db)
  }

  /** Abandoning names commits and has the same effect in whatever order. */
  lemma AbandonInAnyOrder(db: Db, now: int, names: seq<string>, days: nat)
    requires Members(names) <= db.entities.Keys
    requires forall i, j :: 0 <= i < j < |names| ==> names[i] != names[j]
    ensures var r := ExecAll(db, now, AbandonStatements(names, days));
            && r.Some?
            && IsAbandonment(db, r.value, Members(names), now)
            && Annotated(db, r.value, Members(names), AbandonNote(days))
  {
    hide *;
    AbandonEffect(db, now, names, days);
    AbandonAnnotates(db, now, names, days);
  }

  /** A pass always commits. It marks exactly its candidates and adds its note
      to their trails, whatever the observation cap; nothing else changes. */
  lemma AbandonPassEffect(db: Db, now: int, days: nat)
    ensures ExecAll(db, now, AbandonPass(db, now, days)).Some?
    ensures var names := if days == 0 then {} else AbandonCandidates(db, now, days);
            var after := Abandoned(db, now, days);
            IsAbandonment(db, after, names, now) && Annotated(db, after, names, AbandonNote(days))
  {
    if days == 0 {
      hide Trail, AbandonNote;
      assert forall n :: Trail(db, n) + [] == Trail(db, n);
    } else {
      hide ExecAll, AbandonStatements, IsIdleOpenTask, HasOpenChild, IsAbandonment, Members, Annotated,
          AbandonNote, Less;
      var names := Sorted(AbandonCandidates(db, now, days));
      MembersOfSorted(AbandonCandidates(db, now, days));
      SortedIsDuplicateFree(names);
      AbandonInAnyOrder(db, now, names, days);
    }
  }

  /** Every pass commits a state in which no task it abandoned has an open
      `part_of` child. */
  lemma NoOrphanedWork(db: Db, now: int, days: nat, n: string)
    requires days > 0 && n in AbandonCandidates(db, now, days)
    ensures StatusOf(Abandoned(db, now, days), n) == Some(ABANDONED)
    ensures !HasOpenChild(Abandoned(db, now, days), n)
  {
    hide Annotated, AbandonNote;
    AbandonPassEffect(db, now, days);
    var after := Abandoned(db, now, days);
    hide Abandoned;
    forall r | r in db.relations && r.to == n && r.kind == PART_OF && r.from in db.entities
      ensures !IsOpen(after, r.from)
    {
      if r.from !in AbandonCandidates(db, now, days) {
        assert SameEntity(db, after, r.from);
      }
    }
  }

  // ---- deletion -------------------------------------------------------------

  function WithoutEntities(rows: seq<Observation>, names: set<string>): seq<Observation> {
    if rows == [] then []
    else
      var last := rows[|rows| - 1];
      WithoutEntities(rows[..|rows| - 1], names) + if last.entity in names then [] else [last]
  }

  /** The tables with the entities `names` gone, and every row that refers to
      them. */
  function Removed(db: Db, names: set<string>): Db {
    Db(map n | n in db.entities && n !in names :: db.entities[n],
       WithoutEntities(db.observations, names),
       db.lastId,
       map k | k in db.truths && k.0 !in names :: db.truths[k],
       set r | r in db.relations && r.from !in names && r.to !in names)
  }

  lemma {:induction false} DeleteFilters(rows: seq<Observation>, names: set<string>, n: string, db: Db)
    ensures Without(WithoutEntities(rows, names), db, DeleteEntity(n)) == WithoutEntities(rows, names + {n})
  {
    if rows != [] {
      var last := rows[|rows| - 1];
      var before := WithoutEntities(rows[..|rows| - 1], names);
      DeleteFilters(rows[..|rows| - 1], names, n, db);
      assert before + [] == before && (before + [last])[..|before|] == before;
      assert Without(before, db, DeleteEntity(n)) + [] == Without(before, db, DeleteEntity(n));
    }
  }

  lemma {:induction false} RemovesNothing(rows: seq<Observation>)
    ensures WithoutEntities(rows, {}) == rows
  {
    if rows != [] { RemovesNothing(rows[..|rows| - 1]); }
  }

  lemma DeleteOne(db: Db, now: int, names: set<string>, n: string)
    ensures Exec(Removed(db, names), now, DeleteEntity(n)) == Some(Removed(db, names + {n}))
  {
    hide WithoutEntities, Without, NewestIds;
    DeleteFilters(db.observations, names, n, Removed(db, names));
    var after, expected := After(Removed(db, names), now, DeleteEntity(n)), Removed(db, names + {n});
    assert after.entities == expected.entities;
    assert after.truths == expected.truths;
    assert after.relations == expected.relations;
  }

  /** Deleting entities one statement at a time removes exactly them and their
      rows, in whatever order they are listed. */
  lemma {:induction false} DeletionEffect(db: Db, now: int, names: seq<string>)
    ensures ExecAll(db, now, DeleteStatements(names)) == Some(Removed(db, Members(names)))
  {
    hide Exec, Removed;
    if names == [] {
      assert Members(names) == {};
      RemovedNone(db);
    } else {
      var before, n := names[..|names| - 1], names[|names| - 1];
      DeletionEffect(db, now, before);
      MembersSnoc(names, |before|);
      DeleteOne(db, now, Members(before), n);
      assert DeleteStatements(names)[..|before|] == DeleteStatements(before) by { DeleteStatementsLength(before); }
      DeleteStatementsLength(before);
    }
  }

  lemma RemovedNone(db: Db)
    ensures Removed(db, {}) == db
  {
    RemovesNothing(db.observations);
  }

  lemma {:induction false} DeleteStatementsLength(names: seq<string>)
    ensures |DeleteStatements(names)| == |names|
  {
    if names != [] { DeleteStatementsLength(names[..|names| - 1]); }
  }

  lemma PurgePassEffect(db: Db, now: int, days: nat)
    ensures ExecAll(db, now, PurgePass(db, now, days)) == Some(Removed(db, PurgeCandidates(db, now, days)))
  {
    hide ExecAll, Removed, Members, PurgeCandidates, PurgeOrder;
    DeletionEffect(db, now, PurgeOrder(db, now, days));
  }

  // ---- repeated passes at a fixed time --------------------------------------

  function OpenTasks(db: Db): set<string> {
    set n | n in db.entities && IsTask(db, n) && IsOpen(db, n)
  }

  function Repeat(db: Db, now: int, days: nat, times: nat): Db
    decreases times
  {
    if times == 0 then db else Repeat(Abandoned(db, now, days), now, days, times - 1)
  }

  /** The outcome of repeating the pass as often as there are open tasks. */
  function Settled(db: Db, now: int, days: nat): Db {
    Repeat(db, now, days, |OpenTasks(db)|)
  }

  /** Open work that is not an idle task: it is active, or no task at all. */
  predicate IsLive(db: Db, n: string, now: int, days: nat) {
    n in db.entities && IsOpen(db, n) && !(IsTask(db, n) && OlderThan(db, n, now, days))
  }

  lemma NoCandidatesNoChange(db: Db, now: int, days: nat, times: nat)
    requires days > 0 && AbandonCandidates(db, now, days) == {}
    ensures Abandoned(db, now, days) == db && Repeat(db, now, days, times) == db
  {
    assert Abandoned(db, now, days) == db by {
      assert Sorted(AbandonCandidates(db, now, days)) == [];
      assert AbandonPass(db, now, days) == [];
    }
    hide Abandoned;
    if times > 0 { NoCandidatesNoChange(db, now, days, times - 1); }
  }

  lemma PassClosesTasks(db: Db, now: int, days: nat)
    requires days > 0
    ensures OpenTasks(Abandoned(db, now, days)) == OpenTasks(db) - AbandonCandidates(db, now, days)
    ensures AbandonCandidates(db, now, days) <= OpenTasks(db)
  {
    hide Annotated, AbandonNote, ExecAll, AbandonPass, HasOpenChild, OlderThan, Trail;
    AbandonPassEffect(db, now, days);
    var after := Abandoned(db, now, days);
    hide Abandoned;
    forall n | n !in AbandonCandidates(db, now, days) ensures n in OpenTasks(after) <==> n in OpenTasks(db) {
      assert SameEntity(db, after, n);
    }
  }

  /** Repeating the pass at a fixed time runs out of candidates within as many
      passes as there are open tasks. */
  lemma {:induction false} RepeatedPassesConverge(db: Db, now: int, days: nat, times: nat)
    requires days > 0 && |OpenTasks(db)| <= times
    ensures AbandonCandidates(Repeat(db, now, days, times), now, days) == {}
    decreases times
  {
    hide AbandonCandidates, OpenTasks, Abandoned;
    PassClosesTasks(db, now, days);
    var candidates, open := AbandonCandidates(db, now, days), OpenTasks(db);
    if candidates == {} {
      NoCandidatesNoChange(db, now, days, times);
    } else {
      Shrinks(open, candidates);
      RepeatedPassesConverge(Abandoned(db, now, days), now, days, times - 1);
    }
  }

  lemma Shrinks(all: set<string>, some: set<string>)
    requires some <= all && some != {}
    ensures |all - some| < |all|
  {
    assert (all - some) + some == all;
    var x :| x in some;
    assert |some| > 0;
  }

  /** A set of open entities each of which is live or has an open `part_of`
      child in the set. */
  ghost predicate IsSelfProtecting(db: Db, s: set<string>, now: int, days: nat) {
    forall n :: n in s ==>
      && n in db.entities && IsOpen(db, n)
      && (IsLive(db, n, now, days) || HasChildIn(db, n, s))
  }

  ghost predicate HasChildIn(db: Db, n: string, s: set<string>) {
    exists child :: child in s && Relation(child, n, PART_OF) in db.relations
  }

  /** Relations and the untouched entities are as before; the others were open
      tasks and are now abandoned. */
  ghost predicate OnlyAbandons(before: Db, after: Db) {
    && after.entities.Keys == before.entities.Keys && after.relations == before.relations
    && forall n :: SameEntity(before, after, n)
        || (IsTask(before, n) && IsOpen(before, n) && StatusOf(after, n) == Some(ABANDONED))
  }

  lemma PassOnlyAbandons(db: Db, now: int, days: nat)
    requires days > 0
    ensures OnlyAbandons(db, Abandoned(db, now, days))
  {
    hide Annotated, AbandonNote;
    AbandonPassEffect(db, now, days);
    hide Abandoned, HasOpenChild, OlderThan;
  }

  lemma {:induction false} RepeatOnlyAbandons(db: Db, now: int, days: nat, times: nat)
    requires days > 0
    ensures OnlyAbandons(db, Repeat(db, now, days, times))
    decreases times
  {
    hide Abandoned;
    if times == 0 {
      NothingChanges(db);
    } else {
      var mid := Abandoned(db, now, days);
      PassOnlyAbandons(db, now, days);
      RepeatOnlyAbandons(mid, now, days, times - 1);
      var after := Repeat(mid, now, days, times - 1);
      forall n
        ensures SameEntity(db, after, n)
                || (IsTask(db, n) && IsOpen(db, n) && StatusOf(after, n) == Some(ABANDONED))
      {
        assert SameEntity(db, mid, n) || StatusOf(mid, n) == Some(ABANDONED);
        assert SameEntity(mid, after, n) || (IsOpen(mid, n) && StatusOf(after, n) == Some(ABANDONED));
      }
    }
  }

  lemma ProtectedAreNoCandidates(db: Db, now: int, days: nat, s: set<string>, n: string)
    requires IsSelfProtecting(db, s, now, days) && n in s
    ensures n !in AbandonCandidates(db, now, days)
  {
    hide IsTerminal, IsTask, OlderThan;
    if HasChildIn(db, n, s) {
      var child :| child in s && Relation(child, n, PART_OF) in db.relations;
      assert child in db.entities && IsOpen(db, child);
      assert Relation(child, n, PART_OF).from in db.entities;
    }
  }

  lemma ProtectionSurvivesSameness(before: Db, after: Db, now: int, days: nat, s: set<string>)
    requires IsSelfProtecting(before, s, now, days) && after.relations == before.relations
    requires forall n :: n in s ==> SameEntity(before, after, n)
    ensures IsSelfProtecting(after, s, now, days)
  {
    forall n | n in s
      ensures n in after.entities && IsOpen(after, n) && (IsLive(after, n, now, days) || HasChildIn(after, n, s))
    {
      assert SameEntity(before, after, n);
    }
  }

  /** No pass abandons a member of a self-protecting set. */
  lemma {:induction false} ProtectionLasts(db: Db, now: int, days: nat, times: nat, s: set<string>)
    requires days > 0 && IsSelfProtecting(db, s, now, days)
    ensures IsSelfProtecting(Repeat(db, now, days, times), s, now, days)
    decreases times
  {
    hide Abandoned, IsSelfProtecting, AbandonCandidates, SameEntity, Annotated, AbandonNote, ExecAll, AbandonPass;
    if times > 0 {
      AbandonPassEffect(db, now, days);
      var mid := Abandoned(db, now, days);
      forall n | n in s ensures SameEntity(db, mid, n) {
        ProtectedAreNoCandidates(db, now, days, s, n);
      }
      ProtectionSurvivesSameness(db, mid, now, days, s);
      ProtectionLasts(mid, now, days, times - 1, s);
    }
  }

  /** Whatever the shape of `part_of`: an open entity survives repeated passes
      exactly when it belongs to a self-protecting set. */
  lemma SurvivesExactlyWhenProtected(db: Db, now: int, days: nat, n: string)
    requires days > 0 && n in db.entities
    ensures IsOpen(Settled(db, now, days), n) <==> exists s :: n in s && IsSelfProtecting(db, s, now, days)
  {
    var after := Settled(db, now, days);
    RepeatedPassesConverge(db, now, days, |OpenTasks(db)|);
    RepeatOnlyAbandons(db, now, days, |OpenTasks(db)|);
    hide Repeat, OpenTasks;
    if IsOpen(after, n) {
      OpenEntitiesProtect(db, after, now, days);
      assert n in OpenEntities(after);
    }
    if s :| n in s && IsSelfProtecting(db, s, now, days) {
      ProtectionLasts(db, now, days, |OpenTasks(db)|, s);
      assert IsOpen(after, n);
    }
  }

  function OpenEntities(db: Db): set<string> {
    set n | n in db.entities && IsOpen(db, n)
  }

  lemma OpenEntitiesProtect(db: Db, after: Db, now: int, days: nat)
    requires OnlyAbandons(db, after) && AbandonCandidates(after, now, days) == {}
    ensures IsSelfProtecting(db, OpenEntities(after), now, days)
  {
    var s := OpenEntities(after);
    forall n | n in s ensures IsOpen(db, n) && (IsLive(db, n, now, days) || HasChildIn(db, n, s)) {
      assert SameEntity(db, after, n);
      if !IsLive(db, n, now, days) {
        assert n !in AbandonCandidates(after, now, days);
        assert HasOpenChild(after, n);
        var r :| r in after.relations && r.to == n && r.kind == PART_OF && r.from in after.entities
            && IsOpen(after, r.from);
        assert Relation(r.from, n, PART_OF) == r;
      }
    }
  }

  // ---- acyclic part_of ------------------------------------------------------

  /** `path` descends `part_of` from its first to its last entity, all open. */
  ghost predicate IsOpenChain(db: Db, path: seq<string>) {
    && path != []
    && (forall i :: 0 <= i < |path| ==> path[i] in db.entities && IsOpen(db, path[i]))
    && (forall i :: 0 <= i < |path| - 1 ==> Relation(path[i + 1], path[i], PART_OF) in db.relations)
  }

  ghost predicate HasLiveDescendant(db: Db, n: string, now: int, days: nat) {
    exists path :: IsOpenChain(db, path) && path[0] == n && IsLive(db, path[|path| - 1], now, days)
  }

  /** `rank` witnesses that `part_of` has no cycle. */
  ghost predicate IsAcyclic(db: Db, rank: string -> nat) {
    forall r :: r in db.relations && r.kind == PART_OF ==> rank(r.from) < rank(r.to)
  }

  lemma {:induction false} ProtectedReachesLive(
    db: Db, now: int, days: nat, rank: string -> nat, s: set<string>, n: string) returns (path: seq<string>)
    requires IsAcyclic(db, rank) && IsSelfProtecting(db, s, now, days) && n in s
    ensures IsOpenChain(db, path) && path[0] == n && IsLive(db, path[|path| - 1], now, days)
    decreases rank(n)
  {
    hide IsOpen, IsLive;
    if IsLive(db, n, now, days) {
      path := [n];
    } else {
      var child :| child in s && Relation(child, n, PART_OF) in db.relations;
      var rest := ProtectedReachesLive(db, now, days, rank, s, child);
      path := [n] + rest;
      ChainGrows(db, n, rest);
    }
  }

  lemma ChainGrows(db: Db, n: string, rest: seq<string>)
    requires IsOpenChain(db, rest) && n in db.entities && IsOpen(db, n)
    requires Relation(rest[0], n, PART_OF) in db.relations
    ensures IsOpenChain(db, [n] + rest)
  {
    hide IsOpen;
    var path := [n] + rest;
    forall i | 0 <= i < |path| - 1 ensures Relation(path[i + 1], path[i], PART_OF) in db.relations {
      if i > 0 { assert Relation(rest[i - 1 + 1], rest[i - 1], PART_OF) in db.relations; }
    }
  }

  lemma ChainProtects(db: Db, now: int, days: nat, path: seq<string>)
    requires IsOpenChain(db, path) && IsLive(db, path[|path| - 1], now, days)
    ensures IsSelfProtecting(db, Members(path), now, days)
  {
    forall n | n in Members(path)
      ensures n in db.entities && IsOpen(db, n) && (IsLive(db, n, now, days) || HasChildIn(db, n, Members(path)))
    {
      var i :| 0 <= i < |path| && path[i] == n;
      if i < |path| - 1 {
        assert path[i + 1] in Members(path) && Relation(path[i + 1], path[i], PART_OF) in db.relations;
      }
    }
  }

  /** With an acyclic `part_of`, repeated abandonment leaves an entity open
      exactly when an unbroken chain of open work leads from it down to an open
      entity that is active or not a task. */
  lemma SurvivesExactlyAboveLiveWork(db: Db, now: int, days: nat, rank: string -> nat, n: string)
    requires days > 0 && n in db.entities && IsAcyclic(db, rank)
    ensures IsOpen(Settled(db, now, days), n) <==> HasLiveDescendant(db, n, now, days)
  {
    SurvivesExactlyWhenProtected(db, now, days, n);
    hide Settled, IsSelfProtecting, IsOpenChain, IsLive;
    if IsOpen(Settled(db, now, days), n) {
      var s :| n in s && IsSelfProtecting(db, s, now, days);
      var path := ProtectedReachesLive(db, now, days, rank, s, n);
    }
    if path :| IsOpenChain(db, path) && path[0] == n && IsLive(db, path[|path| - 1], now, days) {
      ChainProtects(db, now, days, path);
      assert n in Members(path);
    }
  }

  /** Two idle open tasks that are part of each other protect each other for
      ever, with no live work anywhere. */
  lemma CycleIsNeverAbandoned(db: Db, now: int, days: nat, times: nat, a: string, b: string)
    requires days > 0
    requires IsIdleOpenTask(db, a, now, days) && IsIdleOpenTask(db, b, now, days)
    requires Relation(a, b, PART_OF) in db.relations && Relation(b, a, PART_OF) in db.relations
    ensures IsOpen(Repeat(db, now, days, times), a) && IsOpen(Repeat(db, now, days, times), b)
  {
    assert HasChildIn(db, a, {a, b}) && HasChildIn(db, b, {a, b});
    ProtectionLasts(db, now, days, times, {a, b});
    hide Repeat;
    assert a in {a, b} && b in {a, b};
  }
}
