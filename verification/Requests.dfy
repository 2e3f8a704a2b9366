/** The statements of the store's requests, and what the requests do. */
module Requests {
  import opened Options
  import opened Schema
  import opened Runs
  import opened History
  import opened Trails
  import Normalize

  datatype EntityInput = EntityInput(name: string, kind: string, observations: seq<string>)

  // ---- creating entities ----------------------------------------------------

  predicate Creates(inputs: seq<EntityInput>, n: string) {
    exists i :: i in inputs && Normalize.Canonical(i.name) == n
  }

  /** Whether inserting `n`, after the entities of `inputs`, inserts no row. */
  predicate IsTaken(db: Db, inputs: seq<EntityInput>, n: string) {
    n in db.entities || Creates(inputs, n)
  }

  /** An entity that is already there is left alone; only a new one gets its
      observations. */
  function CreateStatements(db: Db, inputs: seq<EntityInput>): seq<Statement> {
    if inputs == [] then []
    else
      var before, last := inputs[..|inputs| - 1], inputs[|inputs| - 1];
      var n := Normalize.Canonical(last.name);
      CreateStatements(db, before) + [InsertEntity(n, last.kind)]
          + if IsTaken(db, before, n) then [] else Inserts(n, last.observations)
  }

  /** The first input for `n`: the one that counts. */
  function FirstInput(inputs: seq<EntityInput>, n: string): EntityInput
    requires Creates(inputs, n)
  {
    var before, last := inputs[..|inputs| - 1], inputs[|inputs| - 1];
    if Creates(before, n) then FirstInput(before, n)
    else
      assert inputs == before + [last];
      last
  }

  /** What creating the entities of `inputs` means for one name. */
  ghost predicate IsCreationOf(before: Db, after: Db, inputs: seq<EntityInput>, n: string) {
    && (n in after.entities <==> n in before.entities || Creates(inputs, n))
    && (n in before.entities ==> after.entities[n] == before.entities[n])
    && if n !in before.entities && Creates(inputs, n)
       then after.entities[n].kind == FirstInput(inputs, n).kind
           && Trail(after, n) == FirstInput(inputs, n).observations
       else Trail(after, n) == Trail(before, n)
  }

  ghost predicate IsCreation(before: Db, after: Db, inputs: seq<EntityInput>) {
    && after.truths == before.truths && after.relations == before.relations
    && forall n :: IsCreationOf(before, after, inputs, n)
  }

  lemma CreatesSnoc(inputs: seq<EntityInput>)
    requires inputs != []
    ensures var before, last := inputs[..|inputs| - 1], inputs[|inputs| - 1];
            forall n :: Creates(inputs, n) <==> Creates(before, n) || Normalize.Canonical(last.name) == n
  {
    hide Normalize.Canonical;
    var before, last := inputs[..|inputs| - 1], inputs[|inputs| - 1];
    assert inputs == before + [last];
    assert last in inputs;
  }

  lemma {:induction false} FirstInputIsInput(inputs: seq<EntityInput>, n: string)
    requires Creates(inputs, n)
    ensures FirstInput(inputs, n) in inputs && Normalize.Canonical(FirstInput(inputs, n).name) == n
  {
    hide Normalize.Canonical;
    var before, last := inputs[..|inputs| - 1], inputs[|inputs| - 1];
    assert inputs == before + [last];
    if Creates(before, n) { FirstInputIsInput(before, n); }
  }

  /** One entity row, and no other change. */
  ghost predicate AddsEntity(before: Db, after: Db, n: string, kind: string) {
    && after.truths == before.truths && after.relations == before.relations
    && after.observations == before.observations
    && (forall m :: m in after.entities <==> m in before.entities || m == n)
    && (forall m :: m in before.entities ==> after.entities[m] == before.entities[m])
    && (n !in before.entities ==> after.entities[n].kind == kind)
  }

  lemma InsertAddsEntity(db: Db, now: int, n: string, kind: string)
    ensures AddsEntity(db, After(db, now, InsertEntity(n, kind)), n, kind)
  {
    hide NewestIds, Touched, Touch, Selects, Without;
    NothingSelected(db, n, kind);
    WithoutNothing(db.observations, db, InsertEntity(n, kind));
    assert forall k :: k in db.truths ==> !SelectsTruth(db, InsertEntity(n, kind), k);
  }

  lemma NothingSelected(db: Db, n: string, kind: string)
    ensures forall row :: row in db.observations ==> !Selects(db, InsertEntity(n, kind), row)
  {
  }

  lemma {:induction false} NoRowsForTheDead(rows: seq<Observation>, db: Db, n: string)
    requires n !in db.entities && forall i :: 0 <= i < |rows| ==> rows[i].entity in db.entities
    ensures RowsOf(rows, n) == []
  {
    if rows != [] { NoRowsForTheDead(rows[..|rows| - 1], db, n); }
  }

  lemma NoTrailForTheDead(db: Db, n: string)
    requires IsSound(db)
    ensures n !in db.entities ==> Trail(db, n) == []
  {
    if n !in db.entities { NoRowsForTheDead(db.observations, db, n); }
  }

  /** Inserting the observations of an entity that was just created. */
  lemma SeedingGrowsTrail(db: Db, now: int, n: string, contents: seq<string>)
    requires n in db.entities
    ensures var r := ExecAll(db, now, Inserts(n, contents)); r.Some? && GrowsOnly(db, r.value, n, contents)
  {
    InsertsGrowTrail(db, now, n, contents);
    InsertsTouchOne(db, now, n, contents);
  }

  lemma {:induction false} InsertsTouchOne(db: Db, now: int, n: string, contents: seq<string>)
    requires n in db.entities && ExecAll(db, now, Inserts(n, contents)).Some?
    ensures var r := ExecAll(db, now, Inserts(n, contents));
            && r.value.entities.Keys == db.entities.Keys
            && (forall m :: m in db.entities && m != n ==> r.value.entities[m] == db.entities[m])
            && r.value.entities[n].kind == db.entities[n].kind
  {
    if contents != [] {
      var before, last := contents[..|contents| - 1], contents[|contents| - 1];
      var ss := Inserts(n, contents);
      assert ss[..|ss| - 1] == Inserts(n, before);
      InsertsTouchOne(db, now, n, before);
      hide ObservationsAfter, TruthsAfter, RelationsAfter, Inserts;
    }
  }

  lemma SameCreation(before: Db, mid: Db, after: Db, inputs: seq<EntityInput>)
    requires inputs != [] && IsSound(before)
    requires var last := inputs[|inputs| - 1];
             var n := Normalize.Canonical(last.name);
             && IsTaken(before, inputs[..|inputs| - 1], n)
             && IsCreation(before, mid, inputs[..|inputs| - 1])
             && AddsEntity(mid, after, n, last.kind)
    ensures IsCreation(before, after, inputs)
  {
    CreatesSnoc(inputs);
    hide Normalize.Canonical, Creates, IsSound;
    forall m ensures IsCreationOf(before, after, inputs, m) {
      assert IsCreationOf(before, mid, inputs[..|inputs| - 1], m);
    }
  }

  /** `after` is `made` with the entity `n` given more observations. */
  ghost predicate GrowsOnly(made: Db, after: Db, n: string, contents: seq<string>) {
    && OnlyTrailOf(made, after, n) && Trail(after, n) == Trail(made, n) + contents
    && (forall m :: m in made.entities && m != n ==> m in after.entities && after.entities[m] == made.entities[m])
    && n in made.entities && n in after.entities && after.entities[n].kind == made.entities[n].kind
  }

  lemma NewCreationOf(before: Db, mid: Db, made: Db, after: Db, inputs: seq<EntityInput>, m: string)
    requires inputs != [] && IsSound(before)
    requires var last := inputs[|inputs| - 1];
             var n := Normalize.Canonical(last.name);
             && !IsTaken(before, inputs[..|inputs| - 1], n)
             && IsCreationOf(before, mid, inputs[..|inputs| - 1], m)
             && AddsEntity(mid, made, n, last.kind)
             && GrowsOnly(made, after, n, last.observations)
    ensures IsCreationOf(before, after, inputs, m)
  {
    CreatesSnoc(inputs);
    NoTrailForTheDead(before, m);
    var last := inputs[|inputs| - 1];
    hide Normalize.Canonical, Creates, IsSound, RowsOf;
    assert Trail(made, m) == Trail(mid, m);
    assert [] + last.observations == last.observations;
  }

  /** Creating entities always succeeds. Each new entity gets the kind and the
      observations of the first input that names it, and nothing else changes:
      not even the activity of an entity that was already there. */
  lemma {:induction false} CreatingEntities(db: Db, now: int, inputs: seq<EntityInput>)
    requires IsSound(db)
    ensures var r := ExecAll(db, now, CreateStatements(db, inputs));
            r.Some? && IsSound(r.value) && IsCreation(db, r.value, inputs)
  {
    hide IsSound, Normalize.Canonical, After, IsCreation, Creates;
    if inputs == [] {
      NothingCreated(db);
    } else {
      var before, last := inputs[..|inputs| - 1], inputs[|inputs| - 1];
      var n := Normalize.Canonical(last.name);
      CreatingEntities(db, now, before);
      var sofar := CreateStatements(db, before);
      var mid := ExecAll(db, now, sofar).value;
      var made := After(mid, now, InsertEntity(n, last.kind));
      InsertAddsEntity(mid, now, n, last.kind);
      var more := sofar + [InsertEntity(n, last.kind)];
      assert more[..|more| - 1] == sofar;
      assert ExecAll(db, now, more) == Some(made);
      if IsTaken(db, before, n) {
        assert CreateStatements(db, inputs) == more;
        SameCreation(db, mid, made, inputs);
      } else {
        SeedingGrowsTrail(made, now, n, last.observations);
        ExecAllConcat(db, now, more, Inserts(n, last.observations));
        IsNew(db, mid, before, n);
        var after := ExecAll(made, now, Inserts(n, last.observations)).value;
        NewCreation(db, mid, made, after, inputs);
      }
      TransactionKeepsSound(db, now, CreateStatements(db, inputs));
    }
  }

  lemma NothingCreated(db: Db)
    ensures IsCreation(db, db, [])
  {
    assert forall n :: !Creates([], n);
  }

  lemma NewCreation(before: Db, mid: Db, made: Db, after: Db, inputs: seq<EntityInput>)
    requires inputs != [] && IsSound(before)
    requires var last := inputs[|inputs| - 1];
             var n := Normalize.Canonical(last.name);
             && !IsTaken(before, inputs[..|inputs| - 1], n)
             && IsCreation(before, mid, inputs[..|inputs| - 1])
             && AddsEntity(mid, made, n, last.kind)
             && GrowsOnly(made, after, n, last.observations)
    ensures IsCreation(before, after, inputs)
  {
    hide Normalize.Canonical, IsCreationOf, IsTaken, IsSound;
    forall m ensures IsCreationOf(before, after, inputs, m) { NewCreationOf(before, mid, made, after, inputs, m); }
  }

  lemma IsNew(before: Db, mid: Db, inputs: seq<EntityInput>, n: string)
    requires IsCreation(before, mid, inputs) && !IsTaken(before, inputs, n)
    ensures n !in mid.entities
  {
    assert IsCreationOf(before, mid, inputs, n);
  }

  /** The store only ever writes names in normal form. */
  ghost predicate NamesAreCanonical(db: Db) {
    forall n :: n in db.entities ==> Normalize.Canonical(n) == n
  }

  lemma CreationKeepsNamesCanonical(before: Db, after: Db, inputs: seq<EntityInput>)
    requires NamesAreCanonical(before) && IsCreation(before, after, inputs)
    ensures NamesAreCanonical(after)
  {
    hide Normalize.Canonical;
    forall n | n in after.entities ensures Normalize.Canonical(n) == n {
      assert IsCreationOf(before, after, inputs, n);
      if n !in before.entities {
        var i :| i in inputs && Normalize.Canonical(i.name) == n;
        Normalize.CanonicalImage(i.name);
      }
    }
  }

  // ---- updating a task ------------------------------------------------------

  const BLOCKED := "BLOCKED_ON "

  /** The task-board statuses; BLOCKED_ON must say on what. */
  predicate IsTaskStatus(status: string): (valid: bool)
    ensures valid <==> || status in {"READY_TO_DISPATCH", "DISPATCHED", "REVIEW", "AWAITING_VERIFY", "DONE"}
                       || exists on: string :: status == "BLOCKED_ON " + on && !Normalize.AllWhitespace(on)
  {
    if BLOCKED <= status then
      var on := status[|BLOCKED|..];
      Normalize.BlankIsTrimmedAway(on);
      BlockedOn(status, on);
      Normalize.Trim(on) != ""
    else
      || status == "READY_TO_DISPATCH" || status == "DISPATCHED" || status == "REVIEW"
      || status == "AWAITING_VERIFY" || status == DONE
  }

  lemma BlockedOn(status: string, on: string)
    requires BLOCKED <= status && on == status[|BLOCKED|..]
    ensures status == "BLOCKED_ON " + on && forall other: string :: status == "BLOCKED_ON " + other ==> other == on
    ensures status !in {"READY_TO_DISPATCH", "DISPATCHED", "REVIEW", "AWAITING_VERIFY", "DONE"}
  {
    forall other: string | status == "BLOCKED_ON " + other ensures other == on {
      assert status[11..] == other;
    }
    assert status[0] == 'B';
  }

  function NoteStatements(t: string, notes: seq<string>, cap: nat): seq<Statement> {
    if notes == [] then [] else Inserts(t, notes) + [PruneObservations(t, cap)]
  }

  function StatusStatements(t: string, status: Option<string>): seq<Statement> {
    if status.Some? then [UpsertTruth(t, STATUS, status.value)] else []
  }

  function UpdateStatements(t: string, notes: seq<string>, status: Option<string>, cap: nat): seq<Statement> {
    NoteStatements(t, notes, cap) + StatusStatements(t, status)
  }

  /** What a truth write does to truths, kinds and trails. */
  lemma UpsertEffect(db: Db, now: int, e: string, key: string, value: string)
    requires e in db.entities
    ensures var after := After(db, now, UpsertTruth(e, key, value));
            && ExecAll(db, now, [UpsertTruth(e, key, value)]) == Some(after)
            && after.entities.Keys == db.entities.Keys && after.relations == db.relations
            && after.observations == db.observations
            && (forall n :: n in db.entities ==> after.entities[n].kind == db.entities[n].kind)
            && (forall n, k :: TruthOf(after, n, k) == if n == e && k == key then Some(value) else TruthOf(db, n, k))
  {
    var s := UpsertTruth(e, key, value);
    assert [s][..0] == [] && ExecAll(db, now, []) == Some(db);
    assert ExecAll(db, now, [s]) == Exec(db, now, s) by { hide Exec; }
    WithoutNothing(db.observations, db, s);
    hide NextRowid, Without;
  }

  lemma NotesEffect(db: Db, now: int, t: string, notes: seq<string>, cap: nat)
    requires IsSound(db) && t in db.entities
    ensures var r := ExecAll(db, now, NoteStatements(t, notes, cap));
            && r.Some? && OnlyTrailOf(db, r.value, t)
            && Trail(r.value, t) == if notes == [] then Trail(db, t) else Newest(Trail(db, t) + notes, cap)
  {
    hide After, OnlyTrailOf, Trail, Newest, IsSound;
    if notes == [] {
      SameTrails(db, t);
    } else {
      InsertsGrowTrail(db, now, t, notes);
      TransactionKeepsSound(db, now, Inserts(t, notes));
      var mid := ExecAll(db, now, Inserts(t, notes)).value;
      SoundIds(mid);
      PruneTrimsTrail(mid, now, t, cap);
      OnlyTrailComposes(db, mid, After(mid, now, PruneObservations(t, cap)), t);
      var ss := NoteStatements(t, notes, cap);
      assert ss[..|ss| - 1] == Inserts(t, notes);
    }
  }

  lemma SoundIds(db: Db)
    requires IsSound(db)
    ensures IdsIncrease(db)
  {
  }

  lemma TaskWords(db: Db, t: string, status: Option<string>, limit: nat)
    ensures TASK == "task" && Cap(limit) == if limit == 0 then 200 else limit
    ensures status.GetOr(StatusOf(db, t).GetOr(""))
         == if status.Some? then status.value
            else if (t, "status") in db.truths then db.truths[(t, "status")].value else ""
  {
  }

  /** A live task afterwards: notes are appended under the cap, and without
      notes the trail is not pruned; the status is replaced or kept; no other
      trail or truth and no relation changes. */
  ghost predicate IsUpdate(before: Db, after: Db, t: string, notes: seq<string>, status: Option<string>, cap: nat) {
    var all := Trail(before, t) + notes;
    && after.relations == before.relations && SameKinds(before, after)
    && Trail(after, t) == (if notes == [] || |all| <= cap then all else all[|all| - cap..])
    && (forall n :: n != t ==> Trail(after, n) == Trail(before, n))
    && (forall n, k ::
          TruthOf(after, n, k) == if n == t && k == "status" && status.Some? then status else TruthOf(before, n, k))
  }

  /** Updating a live task always succeeds. */
  lemma UpdatingTask(db: Db, now: int, t: string, notes: seq<string>, status: Option<string>, cap: nat)
    requires IsSound(db) && t in db.entities
    ensures var r := ExecAll(db, now, UpdateStatements(t, notes, status, cap));
            r.Some? && IsUpdate(db, r.value, t, notes, status, cap)
  {
    NotesEffect(db, now, t, notes, cap);
    var mid := ExecAll(db, now, NoteStatements(t, notes, cap)).value;
    ExecAllConcat(db, now, NoteStatements(t, notes, cap), StatusStatements(t, status));
    NotesAreUpdate(db, mid, t, notes, cap);
    hide ExecAll, NoteStatements, RowsOf, IsSound, OnlyTrailOf, IsUpdate;
    if status.Some? {
      UpsertEffect(mid, now, t, STATUS, status.value);
      StatusIsUpdate(db, mid, After(mid, now, UpsertTruth(t, STATUS, status.value)), t, notes, status.value, cap);
    } else {
      NothingRun(mid, now);
    }
  }

  lemma NotesAreUpdate(db: Db, mid: Db, t: string, notes: seq<string>, cap: nat)
    requires OnlyTrailOf(db, mid, t)
    requires Trail(mid, t) == if notes == [] then Trail(db, t) else Newest(Trail(db, t) + notes, cap)
    ensures IsUpdate(db, mid, t, notes, None, cap)
  {
    hide RowsOf;
    assert forall n :: n != t ==> Trail(mid, n) == Trail(db, n);
    assert notes == [] ==> Trail(db, t) + notes == Trail(db, t);
  }

  lemma StatusIsUpdate(db: Db, mid: Db, after: Db, t: string, notes: seq<string>, status: string, cap: nat)
    requires IsUpdate(db, mid, t, notes, None, cap)
    requires after.entities.Keys == mid.entities.Keys && after.relations == mid.relations
    requires after.observations == mid.observations
    requires forall n :: n in mid.entities ==> after.entities[n].kind == mid.entities[n].kind
    requires forall n, k :: TruthOf(after, n, k) == if n == t && k == STATUS then Some(status) else TruthOf(mid, n, k)
    ensures IsUpdate(db, after, t, notes, Some(status), cap)
  {
    hide TruthOf;
    assert forall n :: Trail(after, n) == Trail(mid, n);
    hide Trail;
  }

  lemma NothingRun(db: Db, now: int)
    ensures ExecAll(db, now, []) == Some(db)
  {
  }

  // ---- relations ------------------------------------------------------------

  function Named(r: Relation): Relation {
    Relation(Normalize.Canonical(r.from), Normalize.Canonical(r.to), r.kind)
  }

  function RelateStatements(relations: seq<Relation>): seq<Statement> {
    if relations == [] then []
    else RelateStatements(relations[..|relations| - 1]) + [InsertRelation(Named(relations[|relations| - 1]))]
  }

  function NamedAll(relations: seq<Relation>): set<Relation> {
    set r | r in relations :: Named(r)
  }

  predicate EndsLive(db: Db, all: set<Relation>) {
    forall r :: r in all ==> r.from in db.entities && r.to in db.entities
  }

  function Related(db: Db, all: set<Relation>): Db {
    db.(relations := db.relations + all)
  }

  lemma RelateOne(db: Db, now: int, all: set<Relation>, r: Relation)
    ensures Exec(Related(db, all), now, InsertRelation(r)).Some? <==> EndsLive(db, {r})
    ensures EndsLive(db, {r}) ==> Exec(Related(db, all), now, InsertRelation(r)) == Some(Related(db, all + {r}))
    ensures EndsLive(db, all + {r}) <==> EndsLive(db, all) && EndsLive(db, {r})
  {
    var s := InsertRelation(r);
    var mid := Related(db, all);
    WithoutNothing(mid.observations, mid, s);
    assert Touched(mid, s) == {};
    hide Without, Touched;
    assert db.relations + all + {r} == db.relations + (all + {r});
    assert After(mid, now, s) == Related(db, all + {r});
  }

  /** Relating in terms of the names as given. */
  lemma RelatingIs(db: Db, relations: seq<Relation>)
    ensures EndsLive(db, NamedAll(relations))
       <==> forall r :: r in relations ==>
              Normalize.Canonical(r.from) in db.entities && Normalize.Canonical(r.to) in db.entities
    ensures Related(db, NamedAll(relations))
         == db.(relations := db.relations + set r | r in relations ::
                               Relation(Normalize.Canonical(r.from), Normalize.Canonical(r.to), r.kind))
  {
    hide Normalize.Canonical;
    assert NamedAll(relations)
        == set r | r in relations :: Relation(Normalize.Canonical(r.from), Normalize.Canonical(r.to), r.kind);
    forall r | r in relations ensures Named(r) in NamedAll(relations) {}
  }

  lemma NamedAllSnoc(before: seq<Relation>, last: Relation)
    ensures NamedAll(before + [last]) == NamedAll(before) + {Named(last)}
  {
    hide Named;
    assert last in before + [last];
  }

  /** Relating live entities adds exactly the relations, and nothing else; it
      fails as soon as one end is not live. */
  lemma {:induction false} Relating(db: Db, now: int, relations: seq<Relation>)
    ensures ExecAll(db, now, RelateStatements(relations))
         == if EndsLive(db, NamedAll(relations)) then Some(Related(db, NamedAll(relations))) else None
  {
    hide Exec, Named;
    if relations == [] {
      hide ExecAll;
      NothingRun(db, now);
      assert NamedAll(relations) == {} && db.relations + {} == db.relations;
    } else {
      hide EndsLive, NamedAll, Related;
      var before, last := relations[..|relations| - 1], relations[|relations| - 1];
      assert relations == before + [last];
      NamedAllSnoc(before, last);
      Relating(db, now, before);
      RelateOne(db, now, NamedAll(before), Named(last));
      var ss := RelateStatements(relations);
      assert ss[..|ss| - 1] == RelateStatements(before);
    }
  }
}
