/** An entity's trail of observations, and what adding observations under a
    cap does to it. */
module Trails {
  import opened Options
  import opened Lists
  import opened Schema
  import opened Runs
  import opened History
  import Normalize

  const DEFAULT_OBSERVATION_LIMIT := 200

  /** A request to add observations to one entity. */
  datatype Batch = Batch(entityName: string, contents: seq<string>)

  function Cap(limit: nat): nat {
    if limit == 0 then DEFAULT_OBSERVATION_LIMIT else limit
  }

  lemma CapIs(limit: nat)
    ensures Cap(limit) == if limit == 0 then 200 else limit
  {
  }

  // ---- trails ---------------------------------------------------------------

  /** The last `n` elements, or all of them if there are fewer. */
  function Newest<T>(xs: seq<T>, n: nat): seq<T> {
    if n < |xs| then xs[|xs| - n..] else xs
  }

  lemma NewestSnoc<T>(xs: seq<T>, x: T, n: nat)
    requires n > 0
    ensures Newest(xs + [x], n) == Newest(xs, n - 1) + [x]
  {
  }

  /** Trimming between additions is invisible once the end is trimmed. */
  lemma NewestAbsorbs<T>(xs: seq<T>, ys: seq<T>, n: nat)
    ensures Newest(Newest(xs, n) + ys, n) == Newest(xs + ys, n)
  {
  }

  lemma NewestOfNewest<T>(xs: seq<T>, m: nat, n: nat)
    requires n <= m
    ensures Newest(Newest(xs, m), n) == Newest(xs, n)
  {
  }

  lemma NewestContents(rows: seq<Observation>, n: nat)
    ensures Contents(Newest(rows, n)) == Newest(Contents(rows), n)
  {
  }

  // ---- one statement --------------------------------------------------------

  lemma {:induction false} RowsOfOthers(rows: seq<Observation>, db: Db, s: Statement, f: string)
    requires forall row :: row in rows && row.entity == f ==> !Selects(db, s, row)
    ensures RowsOf(Without(rows, db, s), f) == RowsOf(rows, f)
  {
    hide Selects;
    if rows != [] {
      var before, last := rows[..|rows| - 1], rows[|rows| - 1];
      RowsOfOthers(before, db, s, f);
      var kept := Without(before, db, s);
      assert (kept + [last])[..|kept|] == kept && kept + [] == kept;
    }
  }

  lemma Snoc(rows: seq<Observation>, row: Observation, db: Db, s: Statement, e: string, n: nat)
    ensures RowsOf(rows + [row], e) == if row.entity == e then RowsOf(rows, e) + [row] else RowsOf(rows, e)
    ensures Without(rows + [row], db, s)
        == if Selects(db, s, row) then Without(rows, db, s) else Without(rows, db, s) + [row]
    ensures NewestIds(rows + [row], e, n) ==
            if n > 0 && row.entity == e then {row.id} + NewestIds(rows, e, n - 1) else NewestIds(rows, e, n)
  {
    hide Selects;
    assert (rows + [row])[..|rows|] == rows;
  }

  /** One more row, the newest, of which `n` of the entity's are kept. */
  lemma PruneSnoc(before: seq<Observation>, last: Observation, db: Db, e: string, cap: nat, n: nat)
    requires last.entity == e ==> (last.id in NewestIds(db.observations, e, cap) <==> n > 0)
    requires RowsOf(Without(before, db, PruneObservations(e, cap)), e)
          == Newest(RowsOf(before, e), OneFewer(last, e, n))
    ensures RowsOf(Without(before + [last], db, PruneObservations(e, cap)), e)
        == Newest(RowsOf(before + [last], e), n)
  {
    var s := PruneObservations(e, cap);
    Snoc(before, last, db, s, e, n);
    Snoc(Without(before, db, s), last, db, s, e, n);
    hide Without, RowsOf, NewestIds;
    if last.entity == e && n > 0 { NewestSnoc(RowsOf(before, e), last, n); }
  }

  /** Among rows of one entity with increasing ids, `ids` is the newest `n`. */
  ghost predicate AreNewest(ids: set<nat>, rows: seq<Observation>, e: string, n: nat) {
    forall row :: row in rows && row.entity == e ==> (row.id in ids <==> row.id in NewestIds(rows, e, n))
  }

  function OneFewer(last: Observation, e: string, n: nat): nat {
    if last.entity == e && n > 0 then n - 1 else n
  }

  lemma AreNewestBefore(ids: set<nat>, before: seq<Observation>, last: Observation, e: string, n: nat)
    requires AreNewest(ids, before + [last], e, n) && forall row :: row in before ==> row.id < last.id
    ensures AreNewest(ids, before, e, OneFewer(last, e, n))
    ensures last.entity == e ==> (last.id in ids <==> n > 0)
  {
    Snoc(before, last, EmptyDb, ClearRelations, e, n);
    NoneIsNewest(before + [last], e);
    hide NewestIds;
    assert last in before + [last];
    forall row | row in before && row.entity == e
      ensures row.id in ids <==> row.id in NewestIds(before, e, OneFewer(last, e, n))
    {
      assert row in before + [last];
    }
  }

  lemma {:induction false} PruneKeepsNewest(rows: seq<Observation>, db: Db, e: string, cap: nat, n: nat)
    requires forall i, j :: 0 <= i < j < |rows| ==> rows[i].id < rows[j].id
    requires AreNewest(NewestIds(db.observations, e, cap), rows, e, n)
    ensures RowsOf(Without(rows, db, PruneObservations(e, cap)), e) == Newest(RowsOf(rows, e), n)
  {
    if rows != [] {
      hide Without, RowsOf, NewestIds, Newest, AreNewest;
      var before, last := rows[..|rows| - 1], rows[|rows| - 1];
      assert rows == before + [last];
      AreNewestBefore(NewestIds(db.observations, e, cap), before, last, e, n);
      PruneKeepsNewest(before, db, e, cap, OneFewer(last, e, n));
      PruneSnoc(before, last, db, e, cap, n);
    }
  }

  lemma NoneIsNewest(rows: seq<Observation>, e: string)
    ensures NewestIds(rows, e, 0) == {}
  {
  }

  lemma PruneTrimsTrail(db: Db, now: int, e: string, cap: nat)
    requires IdsIncrease(db)
    ensures var after := After(db, now, PruneObservations(e, cap));
            && OnlyTrailOf(db, after, e)
            && RowsOf(after.observations, e) == Newest(RowsOf(db.observations, e), cap)
            && Trail(after, e) == Newest(Trail(db, e), cap)
  {
    hide NewestIds, Without, RowsOf, Touched;
    var s := PruneObservations(e, cap);
    var after := After(db, now, s);
    assert after.observations == Without(db.observations, db, s);
    PruneKeepsNewest(db.observations, db, e, cap, cap);
    NewestContents(RowsOf(db.observations, e), cap);
    forall f | f != e ensures RowsOf(after.observations, f) == RowsOf(db.observations, f) {
      RowsOfOthers(db.observations, db, s, f);
    }
    assert after.truths == db.truths;
  }

  // ---- one batch ------------------------------------------------------------

  function Inserts(e: string, contents: seq<string>): seq<Statement> {
    if contents == [] then []
    else Inserts(e, contents[..|contents| - 1]) + [InsertObservation(e, contents[|contents| - 1])]
  }

  function BatchStatements(b: Batch, cap: nat): seq<Statement> {
    var e := Normalize.Canonical(b.entityName);
    Inserts(e, b.contents) + [PruneObservations(e, cap)]
  }

  lemma OnlyTrailComposes(a: Db, b: Db, c: Db, e: string)
    requires OnlyTrailOf(a, b, e) && OnlyTrailOf(b, c, e)
    ensures OnlyTrailOf(a, c, e)
  {
  }

  lemma SameTrails(db: Db, e: string)
    ensures OnlyTrailOf(db, db, e)
  {
  }

  lemma {:induction false} InsertsGrowTrail(db: Db, now: int, e: string, contents: seq<string>)
    ensures ExecAll(db, now, Inserts(e, contents)).Some? <==> contents == [] || e in db.entities
    ensures var r := ExecAll(db, now, Inserts(e, contents));
            r.Some? ==> OnlyTrailOf(db, r.value, e) && Trail(r.value, e) == Trail(db, e) + contents
  {
    hide After, OnlyTrailOf, Trail;
    SameTrails(db, e);
    if contents != [] {
      var before, last := contents[..|contents| - 1], contents[|contents| - 1];
      InsertsGrowTrail(db, now, e, before);
      var ss := Inserts(e, contents);
      assert ss[..|ss| - 1] == Inserts(e, before) && contents == before + [last];
      if e in db.entities {
        var mid := ExecAll(db, now, Inserts(e, before)).value;
        SameNames(db, mid, e);
        InsertGrowsTrail(mid, now, e, last);
        OnlyTrailComposes(db, mid, After(mid, now, InsertObservation(e, last)), e);
        assert Trail(db, e) + before + [last] == Trail(db, e) + contents;
      } else if before == [] {
        assert ExecAll(db, now, []) == Some(db);
      }
    }
  }

  lemma SameNames(before: Db, after: Db, e: string)
    requires OnlyTrailOf(before, after, e)
    ensures after.entities.Keys == before.entities.Keys
  {
  }

  lemma BatchEffect(db: Db, now: int, b: Batch, cap: nat)
    requires IsSound(db)
    ensures var e := Normalize.Canonical(b.entityName);
            var r := ExecAll(db, now, BatchStatements(b, cap));
            && (r.Some? <==> b.contents == [] || e in db.entities)
            && (r.Some? ==>
                  && IsSound(r.value) && OnlyTrailOf(db, r.value, e)
                  && Trail(r.value, e) == Newest(Trail(db, e) + b.contents, cap))
  {
    var e := Normalize.Canonical(b.entityName);
    hide After, OnlyTrailOf, Trail, Newest, Normalize.Canonical, IdsIncrease, RefersToLive, RowidsDiffer;
    InsertsGrowTrail(db, now, e, b.contents);
    var ss := BatchStatements(b, cap);
    assert ss[..|ss| - 1] == Inserts(e, b.contents);
    if ExecAll(db, now, Inserts(e, b.contents)).Some? {
      var mid := ExecAll(db, now, Inserts(e, b.contents)).value;
      TransactionKeepsSound(db, now, Inserts(e, b.contents));
      PruneTrimsTrail(mid, now, e, cap);
      var after := After(mid, now, PruneObservations(e, cap));
      OnlyTrailComposes(db, mid, after, e);
      ExecKeepsSound(mid, now, PruneObservations(e, cap));
    }
  }

  // ---- the whole request ----------------------------------------------------

  function AddStatements(batches: seq<Batch>, cap: nat): seq<Statement> {
    if batches == [] then []
    else AddStatements(batches[..|batches| - 1], cap) + BatchStatements(batches[|batches| - 1], cap)
  }

  /** The new contents for one entity, in the order of the request. */
  function Added(batches: seq<Batch>, e: string): seq<string> {
    if batches == [] then []
    else
      var last := batches[|batches| - 1];
      Added(batches[..|batches| - 1], e) + if Normalize.Canonical(last.entityName) == e then last.contents else []
  }

  predicate Names(batches: seq<Batch>, e: string) {
    exists b :: b in batches && Normalize.Canonical(b.entityName) == e
  }

  /** Every batch with something to insert names a live entity. */
  predicate AllLive(db: Db, batches: seq<Batch>) {
    forall b :: b in batches && b.contents != [] ==> Normalize.Canonical(b.entityName) in db.entities
  }

  lemma NamesSnoc(batches: seq<Batch>, db: Db, e: string)
    requires batches != []
    ensures var before, last := batches[..|batches| - 1], batches[|batches| - 1];
            && (Names(batches, e) <==> Names(before, e) || Normalize.Canonical(last.entityName) == e)
            && (AllLive(db, batches)
                <==> && AllLive(db, before)
                     && (last.contents != [] ==> Normalize.Canonical(last.entityName) in db.entities))
  {
    hide Normalize.Canonical;
    var before, last := batches[..|batches| - 1], batches[|batches| - 1];
    assert batches == before + [last];
    assert last in batches;
  }

  lemma {:induction false} NothingAdded(batches: seq<Batch>, e: string)
    requires !Names(batches, e)
    ensures Added(batches, e) == []
  {
    if batches != [] {
      NamesSnoc(batches, EmptyDb, e);
      NothingAdded(batches[..|batches| - 1], e);
    }
  }

  function TrailAfter(db: Db, batches: seq<Batch>, cap: nat, e: string): seq<string> {
    if Names(batches, e) then Newest(Trail(db, e) + Added(batches, e), cap) else Trail(db, e)
  }

  lemma TrailStep(db: Db, mid: Db, after: Db, batches: seq<Batch>, cap: nat, e: string)
    requires batches != []
    requires var before, last := batches[..|batches| - 1], batches[|batches| - 1];
             var named := Normalize.Canonical(last.entityName);
             && Trail(mid, e) == TrailAfter(db, before, cap, e)
             && OnlyTrailOf(mid, after, named)
             && Trail(after, named) == Newest(Trail(mid, named) + last.contents, cap)
    ensures Trail(after, e) == TrailAfter(db, batches, cap, e)
  {
    var before, last := batches[..|batches| - 1], batches[|batches| - 1];
    NamesSnoc(batches, db, e);
    hide Normalize.Canonical, Names, Newest;
    if Normalize.Canonical(last.entityName) == e {
      var had, more := Added(before, e), last.contents;
      assert Trail(db, e) + (had + more) == (Trail(db, e) + had) + more;
      NewestAbsorbs(Trail(db, e) + had, more, cap);
      if !Names(before, e) {
        NothingAdded(before, e);
        assert Trail(db, e) + [] == Trail(db, e);
      }
    } else {
      assert Added(batches, e) == Added(before, e);
    }
  }

  /** Adding observations succeeds exactly when every batch with something to
      insert names a live entity. Then each named entity's trail is the newest
      `cap` of its old trail followed by its new contents in order, and every
      other trail, every truth and every relation is unchanged. */
  lemma {:induction false} AddingObservations(db: Db, now: int, batches: seq<Batch>, cap: nat)
    requires IsSound(db)
    ensures var r := ExecAll(db, now, AddStatements(batches, cap));
            && (r.Some? <==> AllLive(db, batches))
            && (r.Some? ==>
                  && IsSound(r.value)
                  && SameKinds(db, r.value) && r.value.truths == db.truths && r.value.relations == db.relations
                  && forall e :: Trail(r.value, e) == TrailAfter(db, batches, cap, e))
  {
    hide IsSound, Trail, OnlyTrailOf, Normalize.Canonical, Newest, BatchStatements, Exec;
    if batches == [] {
      assert forall e :: !Names(batches, e);
    } else {
      var before, last := batches[..|batches| - 1], batches[|batches| - 1];
      AddingObservations(db, now, before, cap);
      ExecAllConcat(db, now, AddStatements(before, cap), BatchStatements(last, cap));
      NamesSnoc(batches, db, "");
      hide ExecAll;
      if AllLive(db, before) {
        var mid := ExecAll(db, now, AddStatements(before, cap)).value;
        BatchEffect(mid, now, last, cap);
        if AllLive(db, batches) {
          var after := ExecAll(mid, now, BatchStatements(last, cap)).value;
          OnlyTrailKeeps(mid, after, Normalize.Canonical(last.entityName));
          forall e ensures Trail(after, e) == TrailAfter(db, batches, cap, e) {
            TrailStep(db, mid, after, batches, cap, e);
          }
        }
      }
    }
  }

  /** One more request of one batch is like one more batch. */
  lemma TrailsCompose(db: Db, mid: Db, after: Db, batches: seq<Batch>, last: Batch, cap: nat, e: string)
    requires Trail(mid, e) == TrailAfter(db, batches, cap, e) && Trail(after, e) == TrailAfter(mid, [last], cap, e)
    ensures Trail(after, e) == TrailAfter(db, batches + [last], cap, e)
  {
    hide Normalize.Canonical, Trail;
    var all := batches + [last];
    assert all[..|batches|] == batches;
    NamesSnoc(all, db, e);
    NamesSnoc([last], db, e);
    assert [last][..0] == [] && Added([], e) == [] && !Names([], e);
    assert Added([last], e) == if Normalize.Canonical(last.entityName) == e then last.contents else [];
    hide Names, Added;
    if Normalize.Canonical(last.entityName) == e {
      assert Added(all, e) == Added(batches, e) + last.contents by { AddedSnoc(batches, last, e); }
      assert Trail(db, e) + (Added(batches, e) + last.contents) == (Trail(db, e) + Added(batches, e)) + last.contents;
      NewestAbsorbs(Trail(db, e) + Added(batches, e), last.contents, cap);
      if !Names(batches, e) {
        NothingAdded(batches, e);
        assert Trail(db, e) + [] == Trail(db, e);
      }
    } else {
      AddedSnoc(batches, last, e);
    }
  }

  lemma AddedSnoc(batches: seq<Batch>, last: Batch, e: string)
    ensures Added(batches + [last], e) == Added(batches, e) + if Normalize.Canonical(last.entityName)
        == e then last.contents else []
    ensures Normalize.Canonical(last.entityName) != e ==> Added(batches + [last], e) == Added(batches, e)
  {
    hide Normalize.Canonical;
    assert (batches + [last])[..|batches|] == batches;
  }

  lemma OnlyTrailKeeps(before: Db, after: Db, e: string)
    requires OnlyTrailOf(before, after, e)
    ensures SameKinds(before, after) && after.truths == before.truths && after.relations == before.relations
  {
  }

  /** How the contents for one entity are split over batches, and how batches
      for different entities interleave, makes no difference. */
  lemma SplittingIsInvisible(db: Db, now: int, a: seq<Batch>, b: seq<Batch>, cap: nat)
    requires IsSound(db) && AllLive(db, a) && AllLive(db, b)
    requires forall e :: Added(a, e) == Added(b, e) && (Names(a, e) <==> Names(b, e))
    ensures var x, y := ExecAll(db, now, AddStatements(a, cap)), ExecAll(db, now, AddStatements(b, cap));
            x.Some? && y.Some? && forall e :: Trail(x.value, e) == Trail(y.value, e)
  {
    hide IsSound, AllLive, Names, Added, Trail, Newest, ExecAll;
    AddingObservations(db, now, a, cap);
    AddingObservations(db, now, b, cap);
  }

  // ---- the cap is not global ------------------------------------------------

  /** Seeding a new entity inserts without pruning: its trail can be of any
      length, whatever the cap. */
  lemma SeedingIgnoresCap(db: Db, now: int, e: string, kind: string, contents: seq<string>)
    requires e !in db.entities && RowsOf(db.observations, e) == []
    ensures var r := ExecAll(db, now, [InsertEntity(e, kind)] + Inserts(e, contents));
            r.Some? && Trail(r.value, e) == contents
  {
    hide Trail;
    var s := InsertEntity(e, kind);
    assert [s][..0] == [] && ExecAll(db, now, []) == Some(db);
    var mid := After(db, now, s);
    assert ExecAll(db, now, [s]) == Some(mid);
    ExecAllConcat(db, now, [s], Inserts(e, contents));
    hide ExecAll;
    InsertsGrowTrail(mid, now, e, contents);
    InsertedEntityHasNoTrail(db, now, s);
    assert [] + contents == contents;
  }

  lemma InsertedEntityHasNoTrail(db: Db, now: int, s: Statement)
    requires s.InsertEntity? && s.name !in db.entities && RowsOf(db.observations, s.name) == []
    ensures s.name in After(db, now, s).entities && Trail(After(db, now, s), s.name) == []
  {
    WithoutNothing(db.observations, db, s);
  }

  // ---- reading --------------------------------------------------------------

  /** What a read returns of one entity: its true total, and its rows. */
  datatype Reading = Reading(count: nat, rows: seq<Observation>)

  /** The rows of one entity with the given ids, in id order. */
  function RowsAmong(rows: seq<Observation>, e: string, ids: set<nat>): seq<Observation> {
    if rows == [] then []
    else
      var last := rows[|rows| - 1];
      RowsAmong(rows[..|rows| - 1], e, ids) + if last.entity == e && last.id in ids then [last] else []
  }

  /** Read an entity's observations: with a limit, those with the newest ids. */
  function Show(db: Db, e: string, limit: nat): Reading {
    var rows := RowsOf(db.observations, e);
    Reading(|rows|, if limit == 0 then rows else RowsAmong(db.observations, e, NewestIds(db.observations, e, limit)))
  }

  lemma {:induction false} PruningKeepsAmong(rows: seq<Observation>, db: Db, e: string, cap: nat)
    ensures RowsAmong(rows, e, NewestIds(db.observations, e, cap))
        == RowsOf(Without(rows, db, PruneObservations(e, cap)), e)
  {
    hide NewestIds;
    if rows != [] {
      var before, last := rows[..|rows| - 1], rows[|rows| - 1];
      PruningKeepsAmong(before, db, e, cap);
      var kept := Without(before, db, PruneObservations(e, cap));
      assert (kept + [last])[..|kept|] == kept && kept + [] == kept;
      assert RowsOf(kept, e) + [] == RowsOf(kept, e);
    }
  }

  function BelongsTo(e: string): Observation -> bool {
    (row: Observation) => row.entity == e
  }

  lemma {:induction false} RowsAreFiltered(rows: seq<Observation>, e: string)
    ensures RowsOf(rows, e) == Filtered(rows, BelongsTo(e))
  {
    if rows != [] { RowsAreFiltered(rows[..|rows| - 1], e); }
  }

  /** What a read returns of an entity: how many rows it has, and all of them or
      as many of the last ones as asked for, oldest first. */
  ghost predicate IsReading(r: Reading, db: Db, e: string, limit: nat) {
    var rows := Filtered(db.observations, BelongsTo(e));
    && r.count == |rows|
    && r.rows == if limit == 0 || |rows| <= limit then rows else rows[|rows| - limit..]
  }

  lemma ShowIsReading(db: Db, e: string, limit: nat)
    requires IdsIncrease(db)
    ensures IsReading(Show(db, e, limit), db, e, limit)
  {
    hide NewestIds, RowsOf, RowsAmong, Without;
    RowsAreFiltered(db.observations, e);
    PruningKeepsAmong(db.observations, db, e, limit);
    PruneTrimsTrail(db, 0, e, limit);
  }

  /** A limited read shows exactly the end of the trail, oldest first, and
      reports the length of the whole trail. */
  lemma ShowIsSuffix(db: Db, e: string, limit: nat)
    requires IdsIncrease(db)
    ensures IsReading(Show(db, e, limit), db, e, limit)
    ensures Show(db, e, limit).count == |Trail(db, e)|
    ensures Contents(Show(db, e, limit).rows) == if limit == 0 then Trail(db, e) else Newest(Trail(db, e), limit)
  {
    hide NewestIds, RowsOf, RowsAmong, Without;
    ShowIsReading(db, e, limit);
    RowsAreFiltered(db.observations, e);
    NewestContents(RowsOf(db.observations, e), limit);
  }

  /** Adding to one entity and reading it back with a limit no larger than the
      cap shows the newest of everything ever there, the additions last. */
  lemma ShowAfterAdding(db: Db, now: int, batches: seq<Batch>, cap: nat, limit: nat, e: string)
    requires IsSound(db) && AllLive(db, batches) && Names(batches, e) && 0 < limit <= cap
    ensures var r := ExecAll(db, now, AddStatements(batches, cap));
            var all := Trail(db, e) + Added(batches, e);
            && r.Some?
            && Contents(Show(r.value, e, limit).rows) == Newest(all, limit)
            && Show(r.value, e, limit).count == if |all| <= cap then |all| else cap
  {
    AddingObservations(db, now, batches, cap);
    var after := ExecAll(db, now, AddStatements(batches, cap)).value;
    ShowIsSuffix(after, e, limit);
    hide ExecAll, AddStatements, RowsOf, Added, Names, AllLive, IsSound, Show, Trail;
    var all := Trail(db, e) + Added(batches, e);
    assert Trail(after, e) == Newest(all, cap);
    NewestOfNewest(all, cap, limit);
  }
}
