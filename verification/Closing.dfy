/** Closing an epic whose children are all done. */
module Closing {
  import opened Options
  import opened Schema
  import opened Tables
  import opened Sweep
  import opened Trails
  import opened Requests
  import opened Outcomes
  import opened Store
  import opened Graphs
  import Normalize
  import Edits
  import Sessions

  /** What a close looks at: the tasks among the epic and its `part_of`
      neighbours, in either direction, that are not spelled like the epic. */
  function Closing(db: Db, epic: string): set<string> {
    var e := Normalize.Canonical(epic);
    set n | n in db.entities && n != epic && db.entities[n].kind == TASK
        && (n == e || n in Neighbours(db, [e], [PART_OF]))
  }

  predicate MayClose(db: Db, epic: string) {
    Closing(db, epic) != {} && forall n :: n in Closing(db, epic) ==> StatusOf(db, n) == Some(DONE)
  }

  predicate IsLiveTask(db: Db, n: string) {
    n in db.entities && db.entities[n].kind == "task"
  }

  function ChildTasks(db: Db, e: string): set<string> {
    set r | r in db.relations && r.kind == "part_of" && r.to == e && r.from != e && IsLiveTask(db, r.from) :: r.from
  }

  function ParentTasks(db: Db, e: string): set<string> {
    set r | r in db.relations && r.kind == "part_of" && r.from == e && r.to != e && IsLiveTask(db, r.to) :: r.to
  }

  lemma TaskNeighbours(db: Db, e: string, n: string)
    requires n != e && IsLiveTask(db, n)
    ensures n in Neighbours(db, [e], [PART_OF]) <==> n in ChildTasks(db, e) + ParentTasks(db, e)
  {
    hide IsLiveTask;
    assert PART_OF in [PART_OF];
    if n in ChildTasks(db, e) + ParentTasks(db, e) {
      var r :| r in db.relations && r.kind == PART_OF && ((r.to == e && n == r.from) || (r.from == e && n == r.to));
      assert r in Touching(db, [e]);
    }
    if n in Neighbours(db, [e], [PART_OF]) {
      var r :| r in Touching(db, [e]) && r.kind in [PART_OF] && (n == r.from || n == r.to);
      assert r in db.relations && (r.from == e || r.to == e);
    }
  }

  lemma RelatedTasks(db: Db, e: string, n: string)
    requires n in ChildTasks(db, e) + ParentTasks(db, e)
    ensures n != e && IsLiveTask(db, n)
  {
  }

  /** A close looks at the parents of the epic as well as at its children, and
      at the epic itself when that is not spelled in its normal form. */
  lemma ClosingIs(db: Db, epic: string)
    requires NamesAreCanonical(db)
    ensures var e := Normalize.Canonical(epic);
            Closing(db, epic)
            == ChildTasks(db, e) + ParentTasks(db, e) + if epic != e && IsLiveTask(db, e) then {e} else {}
  {
    hide Normalize.Canonical, ChildTasks, ParentTasks, Neighbours;
    var e := Normalize.Canonical(epic);
    var related := ChildTasks(db, e) + ParentTasks(db, e);
    forall n ensures n in Closing(db, epic) <==> n in related || (epic != e && n == e && IsLiveTask(db, e)) {
      if n in related { RelatedTasks(db, e, n); }
      if n != e && IsLiveTask(db, n) { TaskNeighbours(db, e, n); }
      if n in db.entities { assert Normalize.Canonical(n) == n; }
    }
  }

  /** Exactly when an epic can be closed: there is a task to look at, and every
      child task and every parent task is done; and so is the epic itself
      already, if it is a task and not spelled in its normal form. */
  lemma ClosesExactlyWhen(db: Db, epic: string)
    requires NamesAreCanonical(db)
    ensures var e := Normalize.Canonical(epic);
            var itself := epic != e && IsLiveTask(db, e);
            MayClose(db, epic)
            <==> && (ChildTasks(db, e) != {} || ParentTasks(db, e) != {} || itself)
                 && (forall n :: n in ChildTasks(db, e) + ParentTasks(db, e) ==> HasTruth(db, n, "status", "DONE"))
                 && (itself ==> HasTruth(db, e, "status", "DONE"))
  {
    hide Normalize.Canonical, NamesAreCanonical, Closing, ChildTasks, ParentTasks;
    ClosingIs(db, epic);
  }

  /** Of two epics one inside the other, neither done, neither can be closed
      first. */
  lemma NestedEpicsBlockEachOther(db: Db, outer: string, inner: string)
    requires NamesAreCanonical(db)
    requires var o, i := Normalize.Canonical(outer), Normalize.Canonical(inner);
             && o != i && Relation(i, o, "part_of") in db.relations && IsLiveTask(db, o) && IsLiveTask(db, i)
             && !HasTruth(db, o, "status", "DONE") && !HasTruth(db, i, "status", "DONE")
    ensures !MayClose(db, outer) && !MayClose(db, inner)
  {
    hide Normalize.Canonical, NamesAreCanonical, MayClose, HasTruth;
    var o, i := Normalize.Canonical(outer), Normalize.Canonical(inner);
    ClosesExactlyWhen(db, outer);
    ClosesExactlyWhen(db, inner);
    var r := Relation(i, o, "part_of");
    assert r in db.relations && r.from in ChildTasks(db, o) && r.to in ParentTasks(db, i);
  }

  /** Every child task of `e`, other than `e` itself, is done. */
  ghost predicate ChildrenDone(db: Db, e: string) {
    forall r :: r in db.relations && r.kind == "part_of" && r.to == e && r.from != e && IsLiveTask(db, r.from)
      ==> HasTruth(db, r.from, "status", "DONE")
  }

  ghost predicate IsClosed(db: Db, e: string) {
    HasTruth(db, e, "status", "DONE") && ChildrenDone(db, e)
  }

  predicate IsChildNode(n: Node, epic: string) {
    n.name != epic && n.kind == TASK
  }

  predicate IsDoneNode(n: Node) {
    STATUS in n.truths && n.truths[STATUS] == DONE
  }

  /** What the nodes that a close reads tell it. */
  lemma NodesTellWhetherToClose(db: Db, epic: string, rows: seq<Relation>, shown: seq<string>, nodes: seq<Node>)
    requires ListsTouching(db, Some([epic]), rows)
        && shown == Shown(db, Some([epic]), Selection(db, Some([epic]), rows, [PART_OF]))
    requires nodes == NodesOf(db, shown, true, 0)
    ensures MayClose(db, epic)
       <==> && (exists n :: n in nodes && IsChildNode(n, epic))
            && (forall n :: n in nodes && IsChildNode(n, epic) ==> IsDoneNode(n))
    ensures forall m ::
              (exists n :: n in nodes && n.name == m)
              <==> && m in db.entities
                   && (m == Normalize.Canonical(epic) || m in Neighbours(db, [Normalize.Canonical(epic)], [PART_OF]))
  {
    hide Normalize.Canonical, Selection, Listed, ListsTouching, Neighbours;
    SelectionShowsNeighbours(db, [epic], rows, [PART_OF]);
    var values := Normalize.CanonicalAll([epic]);
    assert values == [Normalize.Canonical(epic)];
    assert forall n :: n in shown <==> n in db.entities && (n in values || n in Neighbours(db, values, [PART_OF]));
    ClosingIsShown(db, epic, shown, nodes);
  }

  lemma ClosingIsShown(db: Db, epic: string, shown: seq<string>, nodes: seq<Node>)
    requires var e := Normalize.Canonical(epic);
             forall n :: n in shown <==> n in db.entities && (n in [e] || n in Neighbours(db, [e], [PART_OF]))
    requires nodes == NodesOf(db, shown, true, 0)
    ensures MayClose(db, epic)
       <==> && (exists n :: n in nodes && IsChildNode(n, epic))
            && (forall n :: n in nodes && IsChildNode(n, epic) ==> IsDoneNode(n))
    ensures forall m :: (exists n :: n in nodes && n.name == m) <==> m in shown
  {
    hide Normalize.Canonical, Neighbours, Trails.Show;
    forall i | 0 <= i < |shown| ensures nodes[i] in nodes && NodeTells(db, nodes[i], shown[i]) {}
    forall m | m in shown ensures exists n :: n in nodes && NodeTells(db, n, m) {
      var i :| 0 <= i < |shown| && shown[i] == m;
    }
    forall n | n in nodes ensures n.name in shown && NodeTells(db, n, n.name) {
      var i :| 0 <= i < |nodes| && nodes[i] == n;
    }
    hide NodesOf, NodeOf;
    assert forall m :: m in Closing(db, epic) <==> m in shown && m != epic && db.entities[m].kind == TASK;
  }

  ghost predicate NodeTells(db: Db, n: Node, m: string) {
    && n.name == m && m in db.entities && n.kind == db.entities[m].kind
    && (IsDoneNode(n) <==> StatusOf(db, m) == Some(DONE))
  }

  lemma ClosingCoversChildren(db: Db, epic: string)
    requires IsSound(db) && NamesAreCanonical(db) && MayClose(db, epic)
    ensures ChildrenDone(db, Normalize.Canonical(epic)) && Normalize.Canonical(epic) in db.entities
  {
    hide Normalize.Canonical, IdsIncrease, RowidsDiffer;
    var e := Normalize.Canonical(epic);
    forall r | r in db.relations && r.kind == PART_OF && r.to == e && r.from != e && IsLiveTask(db, r.from)
      ensures HasTruth(db, r.from, "status", "DONE")
    {
      assert r in Touching(db, [e]) && r.kind in [PART_OF];
      assert r.from in Neighbours(db, [e], [PART_OF]);
      assert r.from in Closing(db, epic);
    }
    var n :| n in Closing(db, epic);
    if n != e {
      var r :| r in Touching(db, [e]) && r.kind in [PART_OF];
      assert r.from == e || r.to == e;
    }
  }

  lemma SweepKeepsChildrenDone(db: Db, now: int, abandonDays: nat, retentionDays: nat, e: string)
    requires ChildrenDone(db, e)
    ensures ChildrenDone(Swept(db, now, abandonDays, retentionDays), e)
  {
    var after := Swept(db, now, abandonDays, retentionDays);
    hide Swept;
    forall r | r in after.relations && r.kind == "part_of" && r.to == e && r.from != e && IsLiveTask(after, r.from)
      ensures HasTruth(after, r.from, "status", "DONE")
    {
      SweepOnlyRemoves(db, now, abandonDays, retentionDays, r.from);
    }
  }

  lemma CreationKeepsChildrenDone(before: Db, after: Db, inputs: seq<EntityInput>, e: string)
    requires IsSound(before) && ChildrenDone(before, e) && IsCreation(before, after, inputs)
    ensures ChildrenDone(after, e) && before.entities.Keys <= after.entities.Keys
  {
    hide Normalize.Canonical, IdsIncrease, RowidsDiffer, Creates;
    forall n | n in before.entities ensures n in after.entities && after.entities[n] == before.entities[n] {
      assert IsCreationOf(before, after, inputs, n);
    }
  }

  lemma AddingKeepsClosed(before: Db, now: int, batches: seq<Batch>, cap: nat, after: Db, e: string)
    requires IsSound(before) && ChildrenDone(before, e)
        && ExecAll(before, now, AddStatements(batches, cap)) == Some(after)
    ensures ChildrenDone(after, e) && StatusOf(after, e) == StatusOf(before, e)
        && after.entities.Keys == before.entities.Keys
  {
    hide ExecAll, AddStatements, IsSound;
    AddingObservations(before, now, batches, cap);
  }

  lemma ClosingKeepsChildrenDone(before: Db, now: int, e: string)
    requires ChildrenDone(before, e) && e in before.entities
    ensures IsClosed(After(before, now, UpsertTruth(e, STATUS, DONE)), e)
  {
    UpsertEffect(before, now, e, STATUS, DONE);
    hide After;
  }

  // ---- what a close records -------------------------------------------------

  /** Truths and relations are as before, and the trails as if `batches` had
      been added. */
  ghost predicate Recorded(before: Db, after: Db, batches: seq<Batch>, cap: nat) {
    && after.truths == before.truths && after.relations == before.relations
    && forall n :: Trail(after, n) == TrailAfter(before, batches, cap, n)
  }

  function Lessons(epic: string, lessons: seq<string>): seq<Batch> {
    if lessons == [] then [] else [Batch(BeforeColon(epic), lessons)]
  }

  /** A close adds the lessons to the project and the outcome to the epic, and
      sets the epic's status. */
  ghost predicate HasClosingTexts(
    before: Db, after: Db, epic: string, lessons: seq<string>, outcome: string, cap: nat)
  {
    && after.relations == before.relations
    && (forall n :: Trail(after, n) == TrailAfter(before, Lessons(epic, lessons) + [Batch(epic, [outcome])], cap, n))
    && (forall n, key ::
          TruthOf(after, n, key)
          == if n == Normalize.Canonical(epic) && key == "status" then Some("DONE") else TruthOf(before, n, key))
  }

  lemma NothingRecorded(db: Db, cap: nat)
    ensures Recorded(db, db, [], cap)
  {
    assert forall n :: !Names([], n);
  }

  lemma CreationRecordsNothing(before: Db, after: Db, name: string, kind: string)
    requires IsSound(before) && IsCreation(before, after, [EntityInput(name, kind, [])])
    ensures forall n :: Trail(after, n) == Trail(before, n)
  {
    hide Normalize.Canonical, Trail, IsSound, Creates;
    var inputs := [EntityInput(name, kind, [])];
    forall n ensures Trail(after, n) == Trail(before, n) {
      assert IsCreationOf(before, after, inputs, n);
      NoTrailForTheDead(before, n);
      if n !in before.entities && Creates(inputs, n) { FirstInputIsInput(inputs, n); }
    }
  }

  lemma AddingRecords(
    start: Db, before: Db, now: int, batches: seq<Batch>, batch: Batch, cap: nat, after: Db)
    requires IsSound(before) && Recorded(start, before, batches, cap)
    requires ExecAll(before, now, AddStatements([batch], cap)) == Some(after)
    ensures Recorded(start, after, batches + [batch], cap)
  {
    hide Normalize.Canonical, Trail, IsSound, ExecAll, AddStatements, TrailAfter;
    AddingObservations(before, now, [batch], cap);
    forall n ensures Trail(after, n) == TrailAfter(start, batches + [batch], cap, n) {
      TrailsCompose(start, before, after, batches, batch, cap, n);
    }
  }

  lemma StatusThenOutcome(
    start: Db, before: Db, now: int, epic: string, lessons: seq<string>, outcome: string, cap: nat,
    closed: Db, after: Db)
    requires Recorded(start, before, Lessons(epic, lessons), cap) && Normalize.Canonical(epic) in before.entities
    requires closed == After(before, now, UpsertTruth(Normalize.Canonical(epic), STATUS, DONE)) && IsSound(closed)
    requires ExecAll(closed, now, AddStatements([Batch(epic, [outcome])], cap)) == Some(after)
    ensures HasClosingTexts(start, after, epic, lessons, outcome, cap)
  {
    var e := Normalize.Canonical(epic);
    UpsertEffect(before, now, e, STATUS, DONE);
    hide Normalize.Canonical, After, IsSound, ExecAll, AddStatements, Lessons, BeforeColon, RowsOf;
    assert forall n :: Trail(closed, n) == Trail(before, n);
    assert forall n, key :: TruthOf(before, n, key) == TruthOf(start, n, key);
    hide Trail, TrailAfter;
    AddingObservations(closed, now, [Batch(epic, [outcome])], cap);
    assert forall n, key :: TruthOf(after, n, key) == TruthOf(closed, n, key);
    forall n ensures Trail(after, n) == TrailAfter(start, Lessons(epic, lessons) + [Batch(epic, [outcome])], cap, n) {
      TrailsCompose(start, closed, after, Lessons(epic, lessons), Batch(epic, [outcome]), cap, n);
    }
  }

  /** The text before the first colon, all of it if there is none. */
  function BeforeColon(s: string): (r: string)
    ensures r <= s && ':' !in r && (|r| < |s| ==> s[|r|] == ':')
  {
    if s == "" || s[0] == ':' then "" else [s[0]] + BeforeColon(s[1..])
  }

  // ---- when a close succeeds ------------------------------------------------

  function Project(epic: string): string {
    Normalize.Canonical(BeforeColon(epic))
  }

  /** The close reads an entity spelled as the project. */
  predicate IsProjectShown(db: Db, epic: string) {
    var e, project := Normalize.Canonical(epic), BeforeColon(epic);
    project in db.entities && (project == e || project in Neighbours(db, [e], [PART_OF]))
  }

  /** A close that reads `db` and writes from `start`, which a sweep may have
      made of it: the epic may be closed, a project that was read is still there
      if there are lessons, and the epic is still there, or comes back as the
      project created for them. */
  predicate CloseSucceeds(db: Db, start: Db, epic: string, lessons: seq<string>) {
    var e := Normalize.Canonical(epic);
    && MayClose(db, epic)
    && (lessons != [] && IsProjectShown(db, epic) ==> Project(epic) in start.entities)
    && (e in start.entities || (lessons != [] && !IsProjectShown(db, epic) && Project(epic) == e))
  }

  /** Without a sweep in between, nothing more is needed than that the epic may
      be closed. */
  lemma ClosesUnlessSwept(db: Db, epic: string, lessons: seq<string>)
    requires IsSound(db) && NamesAreCanonical(db)
    ensures CloseSucceeds(db, db, epic, lessons) <==> MayClose(db, epic)
  {
    hide Normalize.Canonical, MayClose, BeforeColon, IsSound;
    if MayClose(db, epic) { ClosingCoversChildren(db, epic); }
  }

  /** Record the lessons, if any, on the project the epic is named after,
      creating it unless the close has just read an entity of that name. */
  method RecordLessons(
    store: SqliteStore, epic: string, lessons: seq<string>, projectShown: bool, limit: nat, now: int)
    returns (ok: bool)
    requires store.db.Valid() && ChildrenDone(store.db.State(), Normalize.Canonical(epic))
    modifies store, store.db
    ensures store.db.Valid() && ChildrenDone(store.db.State(), Normalize.Canonical(epic))
    ensures ok ==> Recorded(old(store.Start(now)), store.Start(now), Lessons(epic, lessons), Cap(limit))
    ensures ok <==> lessons == [] || !projectShown || Project(epic) in old(store.Start(now)).entities
    ensures ok ==> store.Start(now).entities.Keys
                   == old(store.Start(now)).entities.Keys + if lessons == [] then {} else {Project(epic)}
  {
    hide Normalize.Canonical, ChildrenDone, Swept, IsSound, ObservationIndex, TruthIndex, IsCreation,
        AddStatements, ExecAll,
      BeforeColon, Recorded, Trail, TrailAfter, AllLive;
    ghost var e := Normalize.Canonical(epic);
    var project := BeforeColon(epic);
    ghost var begin := store.Start(now);
    NothingRecorded(begin, Cap(limit));
    if lessons == [] {
      return true;
    }
    SweepKeepsChildrenDone(store.db.State(), now, store.abandonDays, store.retentionDays, e);
    store.StartIsSound(now);
    if !projectShown {
      store.CreateEntities([EntityInput(project, "project", [])], now);
      CreationKeepsChildrenDone(begin, store.db.State(), [EntityInput(project, "project", [])], e);
      ProjectIsCreated(begin, store.db.State(), project);
      ProjectIsBlank(begin, store.db.State(), project, Cap(limit));
    }
    ghost var start := store.Start(now);
    store.StartIsSound(now);
    OneBatchIsLive(start, project, lessons);
    ok := store.AddObservations([Batch(project, lessons)], limit, now);
    if ok {
      AddingKeepsClosed(start, now, [Batch(project, lessons)], Cap(limit), store.db.State(), e);
      AddingRecords(begin, start, now, [], Batch(project, lessons), Cap(limit), store.db.State());
      assert [] + [Batch(project, lessons)] == Lessons(epic, lessons);
    }
  }

  lemma ProjectIsBlank(before: Db, after: Db, project: string, cap: nat)
    requires IsSound(before) && IsCreation(before, after, [EntityInput(project, "project", [])])
    ensures Recorded(before, after, [], cap)
  {
    hide Normalize.Canonical, Trail, IsSound, IsCreationOf;
    CreationRecordsNothing(before, after, project, "project");
    NothingRecorded(before, cap);
  }

  lemma ProjectIsCreated(before: Db, after: Db, project: string)
    requires IsCreation(before, after, [EntityInput(project, "project", [])])
    ensures after.entities.Keys == before.entities.Keys + {Normalize.Canonical(project)}
  {
    hide Normalize.Canonical;
    var inputs := [EntityInput(project, "project", [])];
    assert inputs[0] in inputs;
    forall n ensures n in after.entities <==> n in before.entities || n == Normalize.Canonical(project) {
      assert IsCreationOf(before, after, inputs, n);
    }
  }

  lemma OneBatchIsLive(db: Db, name: string, contents: seq<string>)
    requires contents != []
    ensures AllLive(db, [Batch(name, contents)]) <==> Normalize.Canonical(name) in db.entities
  {
    hide Normalize.Canonical;
    assert Batch(name, contents) in [Batch(name, contents)];
  }

  /** Close an epic, each request in its own transaction, with no other process
      in between. `outcome` is the observation that records the date; `rows`
      lists the relations that touch the epic. A successful close leaves the
      epic and all its child tasks done. */
  method Close(
    store: SqliteStore, epic: string, lessons: seq<string>, outcome: string, limit: nat, rows: seq<Relation>,
    now: int)
    returns (closed: bool)
    requires store.db.Valid() && NamesAreCanonical(store.db.State())
    requires ListsTouching(store.db.State(), Some([epic]), rows)
    modifies store, store.db
    ensures store.db.Valid()
    ensures closed ==> HasClosingTexts(old(store.Start(now)), store.db.State(), epic, lessons, outcome, Cap(limit))
    ensures closed ==> IsClosed(store.db.State(), Normalize.Canonical(epic)) && MayClose(old(store.db.State()), epic)
    ensures !MayClose(old(store.db.State()), epic) ==> store.db.State() == old(store.db.State())
    ensures closed == CloseSucceeds(old(store.db.State()), old(store.Start(now)), epic, lessons)
  {
    hide Normalize.Canonical, ChildrenDone, Swept, IsSound, ObservationIndex, TruthIndex, AddStatements, ExecAll,
      BeforeColon, MayClose, After, Shown, Selection, NodesOf, ListsTouching, IsDoneNode, NamesAreCanonical,
      AllLive, IsClosed, Recorded, HasClosingTexts, Lessons, Trail, TrailAfter, HasTruth, Sessions.Answered,
      Edits.TruthPut, Neighbours, IsChildNode, IsLiveTask, IsNode, IdsIncrease, NodeOf;
    var g := ReadGraph(store.db.State(), Some([epic]), [PART_OF], true, 0, rows);
    ghost var db, e, begin := store.db.State(), Normalize.Canonical(epic), store.Start(now);
    NodesTellWhetherToClose(db, epic, rows,
        Shown(db, Some([epic]), Selection(db, Some([epic]), rows, [PART_OF])), g.nodes);
    if !(exists n :: n in g.nodes && IsChildNode(n, epic))
        || (exists n :: n in g.nodes && IsChildNode(n, epic) && !IsDoneNode(n)) {
      return false;
    }
    var project := BeforeColon(epic);
    var projectShown := exists n :: n in g.nodes && n.name == project;
    assert projectShown == IsProjectShown(db, epic);
    ValidIsSound(store.db);
    ClosingCoversChildren(db, epic);
    var ok := RecordLessons(store, epic, lessons, projectShown, limit, now);
    if !ok {
      return false;
    }
    SweepKeepsChildrenDone(store.db.State(), now, store.abandonDays, store.retentionDays, e);
    ghost var start := store.Start(now);
    ok := store.TruthUpsert(epic, STATUS, DONE, now);
    if !ok {
      return false;
    }
    ClosingKeepsChildrenDone(start, now, e);
    ghost var done := store.db.State();
    ValidIsSound(store.db);
    OneBatchIsLive(done, epic, [outcome]);
    EpicIsLive(done, e);
    ClosedHasChildrenDone(done, e);
    closed := store.AddObservations([Batch(epic, [outcome])], limit, now);
    AddingKeepsClosed(done, now, [Batch(epic, [outcome])], Cap(limit), store.db.State(), e);
    StaysClosed(done, store.db.State(), e);
    StatusThenOutcome(begin, start, now, epic, lessons, outcome, Cap(limit), done, store.db.State());
  }

  lemma EpicIsLive(db: Db, e: string)
    requires IsSound(db) && IsClosed(db, e)
    ensures e in db.entities
  {
  }

  lemma ClosedHasChildrenDone(db: Db, e: string)
    requires IsClosed(db, e)
    ensures ChildrenDone(db, e) && StatusOf(db, e) == Some(DONE)
  {
  }

  lemma StaysClosed(before: Db, after: Db, e: string)
    requires IsClosed(before, e) && ChildrenDone(after, e) && StatusOf(after, e) == StatusOf(before, e)
    ensures IsClosed(after, e)
  {
  }
}
