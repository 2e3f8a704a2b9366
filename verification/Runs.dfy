/** Runs: committed transactions of any number of processes, one after another,
    each with its own clock reading. */
module Runs {
  import opened Schema

  const DAY := 86400

  // ---- what a statement writes ----------------------------------------------

  function Created(db: Db, s: Statement): set<string> {
    if s.InsertEntity? && s.name !in db.entities then {s.name} else {}
  }

  /** The entities that a statement creates, or of which it writes an
      observation or a truth. */
  function Writes(db: Db, s: Statement): set<string> {
    Touched(db, s) + Created(db, s)
  }

  /** What a whole transaction body writes. */
  function WritesAll(db: Db, now: int, ss: seq<Statement>): set<string> {
    if ss == [] then {}
    else
      var before, last := ss[..|ss| - 1], ss[|ss| - 1];
      WritesAll(db, now, before) + match ExecAll(db, now, before) case None => {} case Some(mid) => Writes(mid, last)
  }

  ghost predicate SameTruths(a: Db, b: Db, n: string) {
    forall key :: TruthOf(a, n, key) == TruthOf(b, n, key)
  }

  /** The same entities, of the same kinds. */
  ghost predicate SameKinds(before: Db, after: Db) {
    && after.entities.Keys == before.entities.Keys
    && forall n :: n in before.entities ==> after.entities[n].kind == before.entities[n].kind
  }

  /** Whatever happens, the other entities and all truths and relations stay,
      except for activity times. */
  ghost predicate OnlyTrailOf(before: Db, after: Db, e: string) {
    && SameKinds(before, after) && after.truths == before.truths && after.relations == before.relations
    && forall f :: f != e ==> RowsOf(after.observations, f) == RowsOf(before.observations, f)
  }

  lemma InsertGrowsTrail(db: Db, now: int, e: string, content: string)
    requires e in db.entities
    ensures var after := After(db, now, InsertObservation(e, content));
            && OnlyTrailOf(db, after, e)
            && Trail(after, e) == Trail(db, e) + [content]
  {
    var s := InsertObservation(e, content);
    var row := Observation(db.lastId + 1, e, content, now);
    assert (db.observations + [row])[..|db.observations|] == db.observations;
    forall f | f != e ensures RowsOf(db.observations + [row], f) == RowsOf(db.observations, f) {
      assert RowsOf(db.observations, f) + [] == RowsOf(db.observations, f);
    }
  }

  /** One entity across one statement. */
  lemma ExecFrame(db: Db, now: int, s: Statement, n: string)
    requires Allowed(db, s)
    ensures var after := After(db, now, s);
            && (n in after.entities && n in Writes(db, s) ==> after.entities[n].lastActivity == now)
            && (n in after.entities && n !in Writes(db, s) ==>
                n in db.entities && after.entities[n] == db.entities[n])
            && (n in after.entities && n !in Writes(db, s) ==> SameTruths(after, db, n))
            && (n in after.entities && n in db.entities ==> after.entities[n].kind == db.entities[n].kind)
  {
    hide NewestIds, NextRowid, ObservationsAfter, RelationsAfter;
  }

  /** One entity across one transaction: written at `now`, or left alone. */
  lemma {:induction false} TransactionFrame(db: Db, now: int, ss: seq<Statement>, n: string)
    requires ExecAll(db, now, ss).Some?
    ensures var after := ExecAll(db, now, ss).value;
            && (n in after.entities && n in WritesAll(db, now, ss) ==> after.entities[n].lastActivity == now)
            && (n in after.entities && n !in WritesAll(db, now, ss) ==>
                n in db.entities && after.entities[n] == db.entities[n])
            && (n in after.entities && n !in WritesAll(db, now, ss) ==> SameTruths(after, db, n))
  {
    if ss != [] {
      var before, last := ss[..|ss| - 1], ss[|ss| - 1];
      TransactionFrame(db, now, before, n);
      var mid := ExecAll(db, now, before).value;
      hide After, Writes, Allowed;
      ExecFrame(mid, now, last, n);
    }
  }
}
