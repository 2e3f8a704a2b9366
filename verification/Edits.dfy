/** What each statement leaves, and the requests of several that edit: deleting
    and rewriting observations, deleting truths and relations. */
module Edits {
  import opened Options
  import opened Lists
  import opened Schema
  import Normalize

  /** `e` becomes active at `now`, if anything of it was written. */
  function Moved(entities: map<string, Entity>, e: string, now: int, written: bool): map<string, Entity> {
    if written && e in entities then entities[e := entities[e].(lastActivity := now)] else entities
  }

  // ---- one statement --------------------------------------------------------

  lemma {:induction false} WithoutFilters(rows: seq<Observation>, db: Db, s: Statement, keep: Observation -> bool)
    requires forall row :: row in rows ==> (keep(row) <==> !Selects(db, s, row))
    ensures Without(rows, db, s) == Filtered(rows, keep)
  {
    hide Selects;
    if rows != [] {
      assert rows[|rows| - 1] in rows && forall row :: row in rows[..|rows| - 1] ==> row in rows;
      WithoutFilters(rows[..|rows| - 1], db, s, keep);
    }
  }

  /** Only observations of `e` are written, if any. */
  lemma OneEntityMoves(db: Db, now: int, s: Statement, e: string, written: bool)
    requires OnObservations(s) && !s.InsertObservation?
    requires forall row :: row in db.observations && Selects(db, s, row) ==> row.entity == e
    requires written <==> exists row :: row in db.observations && Selects(db, s, row)
    ensures EntitiesAfter(db, now, s) == Moved(db.entities, e, now, written)
    ensures TruthsAfter(db, now, s) == db.truths && RelationsAfter(db, s) == db.relations
  {
    hide Selects;
    assert forall k :: k in db.truths ==> !SelectsTruth(db, s, k);
    assert Touched(db, s) == if written then {e} else {};
  }

  function DeletedById(db: Db, now: int, e: string, id: nat): Db {
    var keep := (row: Observation) => !(row.entity == e && row.id == id);
    var written := exists row :: row in db.observations && !keep(row);
    db.(observations := Filtered(db.observations, keep), entities := Moved(db.entities, e, now, written))
  }

  lemma DeleteByIdEffect(db: Db, now: int, e: string, id: nat)
    ensures After(db, now, DeleteObservationById(e, id)) == DeletedById(db, now, e, id)
  {
    var s := DeleteObservationById(e, id);
    var keep := (row: Observation) => !(row.entity == e && row.id == id);
    WithoutFilters(db.observations, db, s, keep);
    OneEntityMoves(db, now, s, e, exists row :: row in db.observations && !keep(row));
  }

  function NotContent(e: string, content: string): Observation -> bool {
    (row: Observation) => !(row.entity == e && row.content == content)
  }

  function DeletedByContent(db: Db, now: int, e: string, content: string): Db {
    var keep := NotContent(e, content);
    var written := exists row :: row in db.observations && !keep(row);
    db.(observations := Filtered(db.observations, keep), entities := Moved(db.entities, e, now, written))
  }

  lemma DeleteByContentEffect(db: Db, now: int, e: string, content: string)
    ensures After(db, now, DeleteObservations(e, content)) == DeletedByContent(db, now, e, content)
  {
    var s := DeleteObservations(e, content);
    var keep := NotContent(e, content);
    WithoutFilters(db.observations, db, s, keep);
    OneEntityMoves(db, now, s, e, exists row :: row in db.observations && !keep(row));
  }

  function UpdatedById(db: Db, now: int, e: string, id: nat, content: string): Db {
    var rows := db.observations;
    db.(observations := seq(|rows|, i requires 0 <= i < |rows| =>
                          if rows[i].entity == e && rows[i].id == id then rows[i].(content := content) else rows[i]),
        entities := Moved(db.entities, e, now, exists row :: row in rows && row.entity == e && row.id == id))
  }

  lemma UpdateByIdEffect(db: Db, now: int, e: string, id: nat, content: string)
    ensures After(db, now, UpdateObservationById(e, id, content)) == UpdatedById(db, now, e, id, content)
  {
    var s := UpdateObservationById(e, id, content);
    OneEntityMoves(db, now, s, e, exists row :: row in db.observations && row.entity == e && row.id == id);
  }

  function UpdatedByContent(db: Db, now: int, e: string, was: string, content: string): Db {
    var rows := db.observations;
    db.(observations := seq(|rows|, i requires 0 <= i < |rows| =>
                          if rows[i].entity == e && rows[i].content == was
                          then rows[i].(content := content) else rows[i]),
        entities := Moved(db.entities, e, now, exists row :: row in rows && row.entity == e && row.content == was))
  }

  lemma UpdateByContentEffect(db: Db, now: int, e: string, was: string, content: string)
    ensures After(db, now, UpdateObservations(e, was, content)) == UpdatedByContent(db, now, e, was, content)
  {
    var s := UpdateObservations(e, was, content);
    OneEntityMoves(db, now, s, e, exists row :: row in db.observations && row.entity == e && row.content == was);
  }

  function TruthDeleted(db: Db, now: int, e: string, key: string): Db {
    db.(truths := db.truths - {(e, key)}, entities := Moved(db.entities, e, now, (e, key) in db.truths))
  }

  lemma DeleteTruthEffect(db: Db, now: int, e: string, key: string)
    ensures After(db, now, DeleteTruth(e, key)) == TruthDeleted(db, now, e, key)
  {
    var s := DeleteTruth(e, key);
    WithoutNothing(db.observations, db, s);
    assert Touched(db, s) == if (e, key) in db.truths then {e} else {};
    hide Touched, Without;
  }

  /** A truth is written with the time; its row keeps its number. */
  function TruthPut(db: Db, now: int, e: string, key: string, value: string, rowid: nat): Db {
    db.(truths := db.truths[(e, key) := Truth(rowid, value, now)], entities := Moved(db.entities, e, now, true))
  }

  lemma UpsertTruthEffect(db: Db, now: int, e: string, key: string, value: string) returns (rowid: nat)
    ensures After(db, now, UpsertTruth(e, key, value)) == TruthPut(db, now, e, key, value, rowid)
    ensures (e, key) in db.truths ==> rowid == db.truths[(e, key)].rowid
    ensures (e, key) !in db.truths ==> forall k :: k in db.truths ==> db.truths[k].rowid < rowid
    ensures (e, key) !in db.truths && rowid != 1 ==> exists k :: k in db.truths && db.truths[k].rowid + 1 == rowid
  {
    var s := UpsertTruth(e, key, value);
    WithoutNothing(db.observations, db, s);
    NextRowidIs(db.truths);
    hide NextRowid, Without;
    rowid := if (e, key) in db.truths then db.truths[(e, key)].rowid else NextRowid(db.truths);
  }

  /** A new row's number is one more than the largest there is, or 1. */
  lemma NextRowidIs(truths: map<TruthKey, Truth>)
    ensures forall k :: k in truths ==> truths[k].rowid < NextRowid(truths)
    ensures NextRowid(truths) != 1 ==> exists k :: k in truths && truths[k].rowid + 1 == NextRowid(truths)
  {
    var used := Rowids(truths);
    forall k | k in truths ensures truths[k].rowid < NextRowid(truths) {
      assert truths[k].rowid in used;
    }
    if NextRowid(truths) != 1 {
      assert NextRowid(truths) - 1 in used;
    }
  }

  /** Setting a status only where it is `from`. */
  lemma SwapStatusEffect(db: Db, now: int, e: string, from: string, to: string)
    ensures After(db, now, SwapStatus(e, from, to))
         == if (e, "status") in db.truths && db.truths[(e, "status")].value == from
            then db.(truths := db.truths[(e, "status") := Truth(db.truths[(e, "status")].rowid, to, now)],
                     entities := Moved(db.entities, e, now, true))
            else db
  {
    var s := SwapStatus(e, from, to);
    WithoutNothing(db.observations, db, s);
    var hit := (e, "status") in db.truths && db.truths[(e, "status")].value == from;
    assert Touched(db, s) == if hit then {e} else {};
    hide Touched, Without;
  }

  lemma InsertObservationEffect(db: Db, now: int, e: string, content: string)
    ensures After(db, now, InsertObservation(e, content))
         == db.(observations := db.observations + [Observation(db.lastId + 1, e, content, now)],
                lastId := db.lastId + 1, entities := Moved(db.entities, e, now, true))
  {
    var s := InsertObservation(e, content);
    assert forall k :: k in db.truths ==> !SelectsTruth(db, s, k);
  }

  /** Inserting an entity that is there does nothing. */
  lemma InsertEntityEffect(db: Db, now: int, name: string, kind: string)
    ensures After(db, now, InsertEntity(name, kind))
         == if name in db.entities then db else db.(entities := db.entities[name := Entity(kind, now, now)])
  {
    var s := InsertEntity(name, kind);
    WithoutNothing(db.observations, db, s);
    assert forall k :: k in db.truths ==> !SelectsTruth(db, s, k);
    hide Without;
  }

  function OfOthers(name: string): Observation -> bool {
    (row: Observation) => row.entity != name
  }

  /** An entity goes with its observations, truths and relations. */
  lemma DeleteEntityEffect(db: Db, now: int, name: string)
    ensures After(db, now, DeleteEntity(name))
         == Db(db.entities - {name}, Filtered(db.observations, OfOthers(name)), db.lastId,
               map k | k in db.truths && k.0 != name :: db.truths[k],
               set r | r in db.relations && r.from != name && r.to != name)
  {
    var s := DeleteEntity(name);
    WithoutFilters(db.observations, db, s, OfOthers(name));
    hide Without;
    assert forall k :: k in db.truths ==> (SelectsTruth(db, s, k) <==> k.0 == name);
  }

  lemma DeleteRelationEffect(db: Db, now: int, r: Relation)
    ensures After(db, now, DeleteRelation(r)) == db.(relations := db.relations - {r})
  {
    var s := DeleteRelation(r);
    WithoutNothing(db.observations, db, s);
    assert Touched(db, s) == {};
    hide Touched, Without;
    assert forall k :: k in db.truths ==> !SelectsTruth(db, s, k);
  }

  // ---- requests of several statements ---------------------------------------

  /** A request to delete observations of one entity by content. */
  datatype Deletion = Deletion(entityName: string, contents: seq<string>)

  function ContentDeletes(e: string, contents: seq<string>): seq<Statement> {
    if contents == [] then []
    else ContentDeletes(e, contents[..|contents| - 1]) + [DeleteObservations(e, contents[|contents| - 1])]
  }

  function Deletes(deletions: seq<Deletion>): seq<Statement> {
    if deletions == [] then []
    else
      var last := deletions[|deletions| - 1];
      Deletes(deletions[..|deletions| - 1]) + ContentDeletes(Normalize.Canonical(last.entityName), last.contents)
  }

  /** Some statement deletes `row`. */
  predicate IsDeletedBy(ss: seq<Statement>, row: Observation) {
    DeleteObservations(row.entity, row.content) in ss
  }

  function Spared(ss: seq<Statement>): Observation -> bool {
    (row: Observation) => !IsDeletedBy(ss, row)
  }

  /** All rows that a list of deletions by content names are gone, and their
      entities active. */
  function AllDeleted(db: Db, now: int, ss: seq<Statement>): Db {
    db.(observations := Filtered(db.observations, Spared(ss)),
        entities := map n | n in db.entities ::
          if Hits(db.observations, Spared(ss), n)
          then db.entities[n].(lastActivity := now) else db.entities[n])
  }

  ghost predicate AreDeletes(ss: seq<Statement>) {
    forall k :: 0 <= k < |ss| ==> ss[k].DeleteObservations?
  }

  lemma SparedMore(ss: seq<Statement>, e: string, content: string, row: Observation)
    ensures Spared(ss + [DeleteObservations(e, content)])(row) <==> Spared(ss)(row) && NotContent(e, content)(row)
  {
  }

  lemma OneMoreDeleteRows(rows: seq<Observation>, ss: seq<Statement>, e: string, content: string)
    ensures Filtered(Filtered(rows, Spared(ss)), NotContent(e, content))
         == Filtered(rows, Spared(ss + [DeleteObservations(e, content)]))
  {
    var all := ss + [DeleteObservations(e, content)];
    var keep, also := Spared(ss), NotContent(e, content);
    FilteredTwice(rows, keep, also);
    hide Spared, NotContent;
    forall row ensures Spared(all)(row) <==> keep(row) && also(row) { SparedMore(ss, e, content, row); }
    FilteredSame(rows, Both(keep, also), Spared(all));
  }

  /** A row of `n` is deleted. */
  predicate Hits(rows: seq<Observation>, spared: Observation -> bool, n: string) {
    exists row :: row in rows && row.entity == n && !spared(row)
  }

  lemma OneMoreHit(rows: seq<Observation>, ss: seq<Statement>, e: string, content: string, n: string)
    ensures Hits(rows, Spared(ss + [DeleteObservations(e, content)]), n)
       <==> || Hits(rows, Spared(ss), n)
            || (n == e && exists row :: row in Filtered(rows, Spared(ss)) && !NotContent(e, content)(row))
  {
    FilteredMembers(rows, Spared(ss));
    var all := ss + [DeleteObservations(e, content)];
    forall row ensures Spared(all)(row) <==> Spared(ss)(row) && NotContent(e, content)(row) {
      SparedMore(ss, e, content, row);
    }
    hide Spared;
    assert forall row :: !NotContent(e, content)(row) ==> row.entity == e;
    if row :| row in rows && row.entity == n && !Spared(all)(row) && Spared(ss)(row) {
      assert row in Filtered(rows, Spared(ss)) && !NotContent(e, content)(row);
    }
  }

  lemma OneMoreDelete(db: Db, now: int, ss: seq<Statement>, e: string, content: string)
    ensures DeletedByContent(AllDeleted(db, now, ss), now, e, content)
         == AllDeleted(db, now, ss + [DeleteObservations(e, content)])
  {
    hide Spared, NotContent, Hits;
    OneMoreDeleteRows(db.observations, ss, e, content);
    forall n
      ensures Hits(db.observations, Spared(ss + [DeleteObservations(e, content)]), n)
         <==> || Hits(db.observations, Spared(ss), n)
              || (n == e && exists row :: row in Filtered(db.observations, Spared(ss)) && !NotContent(e, content)(row))
    {
      OneMoreHit(db.observations, ss, e, content, n);
    }
  }

  lemma {:induction false} DeletingAll(db: Db, now: int, ss: seq<Statement>)
    requires AreDeletes(ss)
    ensures ExecAll(db, now, ss) == Some(AllDeleted(db, now, ss))
  {
    hide After, IsDeletedBy;
    if ss == [] {
      NothingDeleted(db, now);
    } else {
      var before, last := ss[..|ss| - 1], ss[|ss| - 1];
      DeletingAll(db, now, before);
      hide AllDeleted, DeletedByContent;
      DeleteByContentEffect(AllDeleted(db, now, before), now, last.entity, last.content);
      OneMoreDelete(db, now, before, last.entity, last.content);
      assert ss == before + [last];
    }
  }

  lemma NothingDeleted(db: Db, now: int)
    ensures AllDeleted(db, now, []) == db
  {
    FilteredAll(db.observations, Spared([]));
  }

  lemma {:induction false} ContentDeletesAre(e: string, contents: seq<string>)
    ensures AreDeletes(ContentDeletes(e, contents))
    ensures forall n, c :: DeleteObservations(n, c) in ContentDeletes(e, contents) <==> n == e && c in contents
  {
    if contents != [] {
      ContentDeletesAre(e, contents[..|contents| - 1]);
      assert contents == contents[..|contents| - 1] + [contents[|contents| - 1]];
    }
  }

  lemma {:induction false} DeletesAre(deletions: seq<Deletion>)
    ensures AreDeletes(Deletes(deletions))
    ensures forall n, c ::
              DeleteObservations(n, c) in Deletes(deletions)
              <==> exists d :: d in deletions && Normalize.Canonical(d.entityName) == n && c in d.contents
  {
    hide Normalize.Canonical;
    if deletions != [] {
      var before, last := deletions[..|deletions| - 1], deletions[|deletions| - 1];
      DeletesAre(before);
      ContentDeletesAre(Normalize.Canonical(last.entityName), last.contents);
      hide ContentDeletes;
      assert deletions == before + [last];
      assert last in deletions;
    }
  }

  function Unrelates(relations: seq<Relation>): seq<Statement> {
    if relations == [] then []
    else
      var r := relations[|relations| - 1];
      Unrelates(relations[..|relations| - 1])
      + [DeleteRelation(Relation(Normalize.Canonical(r.from), Normalize.Canonical(r.to), r.kind))]
  }

  function Unrelated(db: Db, relations: seq<Relation>): Db {
    db.(relations := db.relations
                     - set r | r in relations ::
                         Relation(Normalize.Canonical(r.from), Normalize.Canonical(r.to), r.kind))
  }

  lemma {:induction false} Unrelating(db: Db, now: int, relations: seq<Relation>)
    ensures ExecAll(db, now, Unrelates(relations)) == Some(Unrelated(db, relations))
  {
    hide After, Normalize.Canonical;
    if relations != [] {
      var before, last := relations[..|relations| - 1], relations[|relations| - 1];
      Unrelating(db, now, before);
      var ss := Unrelates(relations);
      assert ss[..|ss| - 1] == Unrelates(before);
      var r := Relation(Normalize.Canonical(last.from), Normalize.Canonical(last.to), last.kind);
      DeleteRelationEffect(Unrelated(db, before), now, r);
      OneFewer(db, before, last);
      assert relations == before + [last];
    } else {
      assert db.relations - {} == db.relations;
      assert Unrelated(db, relations).relations == db.relations;
    }
  }

  lemma OneFewer(db: Db, before: seq<Relation>, last: Relation)
    ensures Unrelated(db, before).(relations := Unrelated(db, before).relations
              - {Relation(Normalize.Canonical(last.from), Normalize.Canonical(last.to), last.kind)})
         == Unrelated(db, before + [last])
  {
    hide Normalize.Canonical;
    assert forall r :: r in before + [last] <==> r in before || r == last;
  }
}
