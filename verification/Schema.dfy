/** The graph tables, and what one SQL statement of the store does to them:
    row writes, foreign-key cascades, and the activity triggers. */
module Schema {
  import opened Options

  datatype Entity = Entity(kind: string, createdAt: int, lastActivity: int)

  datatype Observation = Observation(id: nat, entity: string, content: string, createdAt: int)

  datatype Truth = Truth(rowid: nat, value: string, updatedAt: int)

  datatype Relation = Relation(from: string, to: string, kind: string)

  type TruthKey = (string, string)

  /** `observations` is in id order; `lastId` is the autoincrement sequence. */
  datatype Db = Db(
    entities: map<string, Entity>,
    observations: seq<Observation>,
    lastId: nat,
    truths: map<TruthKey, Truth>,
    relations: set<Relation>)

  const EmptyDb := Db(map[], [], 0, map[], {})

  /** The statements the store issues. */
  datatype Statement =
    | InsertEntity(name: string, kind: string)
    | DeleteEntity(name: string)
    | InsertObservation(entity: string, content: string)
    | PruneObservations(entity: string, cap: nat)
    | DeleteObservations(entity: string, content: string)
    | DeleteObservationById(entity: string, id: nat)
    | UpdateObservations(entity: string, content: string, newContent: string)
    | UpdateObservationById(entity: string, id: nat, newContent: string)
    | UpsertTruth(entity: string, key: string, value: string)
    | DeleteTruth(entity: string, key: string)
    | SwapStatus(entity: string, from: string, to: string)
    | InsertRelation(relation: Relation)
    | DeleteRelation(relation: Relation)
    | ClearRelations
    | ClearTruths
    | ClearObservations
    | ClearEntities

  const STATUS := "status"
  const TASK := "task"
  const DONE := "DONE"

  predicate OnEntities(s: Statement) {
    s.InsertEntity? || s.DeleteEntity? || s.ClearEntities?
  }

  predicate OnObservations(s: Statement) {
    || s.InsertObservation? || s.PruneObservations? || s.DeleteObservations? || s.DeleteObservationById?
    || s.UpdateObservations? || s.UpdateObservationById? || s.ClearObservations?
  }

  predicate OnTruths(s: Statement) {
    s.UpsertTruth? || s.DeleteTruth? || s.SwapStatus? || s.ClearTruths?
  }

  predicate OnRelations(s: Statement) {
    s.InsertRelation? || s.DeleteRelation? || s.ClearRelations?
  }

  // ---- reading --------------------------------------------------------------

  function TruthOf(db: Db, entity: string, key: string): Option<string> {
    if (entity, key) in db.truths then Some(db.truths[(entity, key)].value) else None
  }

  function StatusOf(db: Db, entity: string): Option<string> {
    TruthOf(db, entity, STATUS)
  }

  /** The rows of one entity, oldest first. */
  function RowsOf(rows: seq<Observation>, e: string): seq<Observation> {
    if rows == [] then []
    else
      var last := rows[|rows| - 1];
      RowsOf(rows[..|rows| - 1], e) + if last.entity == e then [last] else []
  }

  function Contents(rows: seq<Observation>): (r: seq<string>)
    ensures |r| == |rows|
  {
    seq(|rows|, i requires 0 <= i < |rows| => rows[i].content)
  }

  function Trail(db: Db, e: string): seq<string> {
    Contents(RowsOf(db.observations, e))
  }

  /** The ids of the newest `n` observations of an entity. */
  function NewestIds(rows: seq<Observation>, entity: string, n: nat): set<nat> {
    if rows == [] || n == 0 then {}
    else
      var before, last := rows[..|rows| - 1], rows[|rows| - 1];
      if last.entity == entity then {last.id} + NewestIds(before, entity, n - 1) else NewestIds(before, entity, n)
  }

  /** Whether a statement's WHERE clause selects an observation row. */
  predicate Selects(db: Db, s: Statement, row: Observation) {
    match s
    case PruneObservations(e, cap) => row.entity == e && row.id !in NewestIds(db.observations, e, cap)
    case DeleteObservations(e, content) => row.entity == e && row.content == content
    case DeleteObservationById(e, id) => row.entity == e && row.id == id
    case UpdateObservations(e, content, _) => row.entity == e && row.content == content
    case UpdateObservationById(e, id, _) => row.entity == e && row.id == id
    case DeleteEntity(name) => row.entity == name
    case ClearObservations => true
    case ClearEntities => true
    case _ => false
  }

  /** Whether a statement's WHERE clause selects a truth row. */
  predicate SelectsTruth(db: Db, s: Statement, k: TruthKey)
    requires k in db.truths
  {
    match s
    case DeleteTruth(e, key) => k == (e, key)
    case SwapStatus(e, from, _) => k == (e, STATUS) && db.truths[k].value == from
    case DeleteEntity(name) => k.0 == name
    case ClearTruths => true
    case ClearEntities => true
    case _ => false
  }

  predicate Updates(s: Statement) {
    s.UpdateObservations? || s.UpdateObservationById?
  }

  // ---- writing --------------------------------------------------------------

  function Rowids(truths: map<TruthKey, Truth>): set<nat> {
    set k | k in truths :: truths[k].rowid
  }

  lemma {:induction false} MaxExists(s: set<nat>)
    requires s != {}
    ensures exists m :: m in s && forall x :: x in s ==> x <= m
  {
    var x :| x in s;
    if s != {x} {
      MaxExists(s - {x});
      var m :| m in s - {x} && forall y :: y in s - {x} ==> y <= m;
      var n := if x <= m then m else x;
      forall y | y in s ensures y <= n {
        assert y == x || y in s - {x};
      }
    }
  }

  /** The rowid of the next truth row: one above the largest in use. */
  function NextRowid(truths: map<TruthKey, Truth>): nat {
    var used := Rowids(truths);
    if used == {} then 1
    else
      MaxExists(used);
      var m :| m in used && forall x :: x in used ==> x <= m;
      m + 1
  }

  function Without(rows: seq<Observation>, db: Db, s: Statement): seq<Observation> {
    if rows == [] then []
    else
      var last := rows[|rows| - 1];
      Without(rows[..|rows| - 1], db, s) + if Selects(db, s, last) then [] else [last]
  }

  function Rewritten(rows: seq<Observation>, db: Db, s: Statement, content: string): seq<Observation> {
    seq(|rows|, i requires 0 <= i < |rows| =>
      if Selects(db, s, rows[i]) then rows[i].(content := content) else rows[i])
  }

  function ObservationsAfter(db: Db, now: int, s: Statement): seq<Observation> {
    match s
    case InsertObservation(e, content) => db.observations + [Observation(db.lastId + 1, e, content, now)]
    case UpdateObservations(_, _, content) => Rewritten(db.observations, db, s, content)
    case UpdateObservationById(_, _, content) => Rewritten(db.observations, db, s, content)
    case _ => Without(db.observations, db, s)
  }

  function TruthsAfter(db: Db, now: int, s: Statement): map<TruthKey, Truth> {
    match s
    case UpsertTruth(e, key, value) =>
      var rowid := if (e, key) in db.truths then db.truths[(e, key)].rowid else NextRowid(db.truths);
      db.truths[(e, key) := Truth(rowid, value, now)]
    case SwapStatus(e, from, to) =>
      map k | k in db.truths :: if SelectsTruth(db, s, k) then Truth(db.truths[k].rowid, to, now) else db.truths[k]
    case _ => map k | k in db.truths && !SelectsTruth(db, s, k) :: db.truths[k]
  }

  function RelationsAfter(db: Db, s: Statement): set<Relation> {
    match s
    case InsertRelation(r) => db.relations + {r}
    case DeleteRelation(r) => db.relations - {r}
    case DeleteEntity(name) => set r | r in db.relations && r.from != name && r.to != name
    case ClearRelations => {}
    case ClearEntities => {}
    case _ => db.relations
  }

  /** The entities of which the statement inserts, updates or deletes an
      observation or a truth. */
  function Touched(db: Db, s: Statement): set<string> {
    match s
    case InsertObservation(e, _) => {e}
    case UpsertTruth(e, _, _) => {e}
    case _ =>
      (set row | row in db.observations && Selects(db, s, row) :: row.entity)
      + (set k | k in db.truths && SelectsTruth(db, s, k) :: k.0)
  }

  /** What the activity triggers leave after writing rows of `touched`. */
  function Touch(entities: map<string, Entity>, touched: set<string>, now: int): map<string, Entity> {
    map n | n in entities :: if n in touched then entities[n].(lastActivity := now) else entities[n]
  }

  function EntitiesAfter(db: Db, now: int, s: Statement): map<string, Entity> {
    match s
    case InsertEntity(name, kind) =>
      if name in db.entities then db.entities else db.entities[name := Entity(kind, now, now)]
    case DeleteEntity(name) => map n | n in db.entities && n != name :: db.entities[n]
    case ClearEntities => map[]
    case _ => Touch(db.entities, Touched(db, s), now)
  }

  /** Foreign keys: a row may only refer to a live entity. */
  predicate Allowed(db: Db, s: Statement) {
    match s
    case InsertObservation(e, _) => e in db.entities
    case UpsertTruth(e, _, _) => e in db.entities
    case InsertRelation(r) => r.from in db.entities && r.to in db.entities
    case _ => true
  }

  function After(db: Db, now: int, s: Statement): Db {
    Db(EntitiesAfter(db, now, s), ObservationsAfter(db, now, s),
       if s.InsertObservation? then db.lastId + 1 else db.lastId,
       TruthsAfter(db, now, s), RelationsAfter(db, s))
  }

  function Exec(db: Db, now: int, s: Statement): Option<Db> {
    if Allowed(db, s) then Some(After(db, now, s)) else None
  }

  /** A transaction body: the statements in order, or failure at the first one
      that fails. */
  function ExecAll(db: Db, now: int, ss: seq<Statement>): Option<Db> {
    if ss == [] then Some(db)
    else
      match ExecAll(db, now, ss[..|ss| - 1])
      case None => None
      case Some(mid) => Exec(mid, now, ss[|ss| - 1])
  }

  lemma {:induction false} ExecAllConcat(db: Db, now: int, a: seq<Statement>, b: seq<Statement>)
    ensures ExecAll(db, now, a + b) ==
            match ExecAll(db, now, a) case None => None case Some(mid) => ExecAll(mid, now, b)
  {
    hide Exec;
    if b == [] {
      assert a + b == a;
    } else {
      assert (a + b)[..|a + b| - 1] == a + b[..|b| - 1];
      ExecAllConcat(db, now, a, b[..|b| - 1]);
    }
  }

  // ---- integrity ------------------------------------------------------------

  ghost predicate IdsIncrease(db: Db) {
    && (forall i :: 0 <= i < |db.observations| ==> 1 <= db.observations[i].id <= db.lastId)
    && (forall i, j :: 0 <= i < j < |db.observations| ==> db.observations[i].id < db.observations[j].id)
  }

  ghost predicate RefersToLive(db: Db) {
    && (forall i :: 0 <= i < |db.observations| ==> db.observations[i].entity in db.entities)
    && (forall k :: k in db.truths ==> k.0 in db.entities)
    && (forall r :: r in db.relations ==> r.from in db.entities && r.to in db.entities)
  }

  ghost predicate RowidsDiffer(truths: map<TruthKey, Truth>) {
    forall k, l :: k in truths && l in truths && k != l ==> truths[k].rowid != truths[l].rowid
  }

  ghost predicate IsSound(db: Db) {
    IdsIncrease(db) && RefersToLive(db) && RowidsDiffer(db.truths)
  }

  /** What deleting rows keeps, by position. */
  lemma {:induction false} WithoutKeeps(rows: seq<Observation>, db: Db, s: Statement)
    requires forall i, j :: 0 <= i < j < |rows| ==> rows[i].id < rows[j].id
    ensures forall row :: row in Without(rows, db, s) <==> row in rows && !Selects(db, s, row)
    ensures forall i, j :: 0 <= i < j < |Without(rows, db, s)| ==>
        Without(rows, db, s)[i].id < Without(rows, db, s)[j].id
  {
    hide Selects;
    if rows != [] {
      var before, last := rows[..|rows| - 1], rows[|rows| - 1];
      WithoutKeeps(before, db, s);
      assert rows == before + [last];
      var kept := Without(before, db, s);
      forall i | 0 <= i < |kept| ensures kept[i].id < last.id {
        assert kept[i] in kept;
      }
    }
  }

  lemma {:induction false} WithoutNothing(rows: seq<Observation>, db: Db, s: Statement)
    requires forall row :: row in rows ==> !Selects(db, s, row)
    ensures Without(rows, db, s) == rows
  {
    hide Selects;
    if rows != [] {
      WithoutNothing(rows[..|rows| - 1], db, s);
    }
  }

  lemma NextRowidIsNew(truths: map<TruthKey, Truth>)
    ensures forall k :: k in truths ==> truths[k].rowid < NextRowid(truths)
  {
    forall k | k in truths ensures truths[k].rowid < NextRowid(truths) {
      assert truths[k].rowid in Rowids(truths);
    }
  }

  lemma ExecKeepsIds(db: Db, now: int, s: Statement)
    requires IdsIncrease(db)
    ensures IdsIncrease(After(db, now, s))
  {
    hide Selects, Touched, Touch, TruthsAfter, RelationsAfter, EntitiesAfter;
    WithoutKeeps(db.observations, db, s);
    var rows := Without(db.observations, db, s);
    forall i | 0 <= i < |rows| ensures 1 <= rows[i].id <= db.lastId {
      assert rows[i] in rows;
    }
  }

  lemma ExecKeepsRowids(db: Db, now: int, s: Statement)
    requires RowidsDiffer(db.truths)
    ensures RowidsDiffer(TruthsAfter(db, now, s))
  {
    hide NextRowid, SelectsTruth;
    NextRowidIsNew(db.truths);
  }

  lemma ObservationsStayLive(db: Db, now: int, s: Statement)
    requires IdsIncrease(db) && RefersToLive(db) && Allowed(db, s)
    ensures var after := After(db, now, s);
            forall i :: 0 <= i < |after.observations| ==> after.observations[i].entity in after.entities
  {
    hide NewestIds, NextRowid, Touched, TruthsAfter, RelationsAfter, Without;
    var after := After(db, now, s);
    WithoutKeeps(db.observations, db, s);
    forall i | 0 <= i < |after.observations| ensures after.observations[i].entity in after.entities {
      var row := after.observations[i];
      if Updates(s) || s.InsertObservation? {
        assert i < |db.observations| ==> row.entity == db.observations[i].entity;
      } else {
        assert row in Without(db.observations, db, s);
      }
    }
  }

  lemma ExecKeepsReferences(db: Db, now: int, s: Statement)
    requires IdsIncrease(db) && RefersToLive(db) && Allowed(db, s)
    ensures RefersToLive(After(db, now, s))
  {
    hide NextRowid, Touched, ObservationsAfter;
    ObservationsStayLive(db, now, s);
  }

  /** Every statement the store issues keeps the tables sound. */
  lemma ExecKeepsSound(db: Db, now: int, s: Statement)
    requires IsSound(db) && Exec(db, now, s).Some?
    ensures IsSound(Exec(db, now, s).value)
  {
    hide IdsIncrease, RefersToLive, RowidsDiffer, EntitiesAfter, ObservationsAfter, RelationsAfter;
    ExecKeepsIds(db, now, s);
    ExecKeepsRowids(db, now, s);
    ExecKeepsReferences(db, now, s);
  }
}
