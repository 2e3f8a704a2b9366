/** The database file: the tables together with the two full-text indexes,
    which only triggers maintain, one row at a time. */
module Tables {
  import opened Options
  import opened Schema

  /** Token and rowid. */
  type Posting = (string, nat)

  type Tokenizer = string -> set<string>

  function Postings(tok: Tokenizer, rowid: nat, text: string): set<Posting> {
    set t | t in tok(text) :: (t, rowid)
  }

  /** The observation index rebuilt from the table. */
  ghost function ObservationIndex(tok: Tokenizer, rows: seq<Observation>): set<Posting> {
    set row, t | row in rows && t in tok(row.content) :: (t, row.id)
  }

  /** The truth index rebuilt from the table. */
  ghost function TruthIndex(tok: Tokenizer, truths: map<TruthKey, Truth>): set<Posting> {
    set k, t | k in truths && t in tok(truths[k].value) :: (t, truths[k].rowid)
  }

  ghost predicate DistinctIds(rows: seq<Observation>) {
    forall i, j :: 0 <= i < j < |rows| ==> rows[i].id != rows[j].id
  }

  // ---- one row at a time ----------------------------------------------------

  lemma IndexInsert(tok: Tokenizer, rows: seq<Observation>, row: Observation)
    ensures ObservationIndex(tok, rows + [row]) == ObservationIndex(tok, rows) + Postings(tok, row.id, row.content)
  {
    var all := rows + [row];
    forall p | p in ObservationIndex(tok, rows) + Postings(tok, row.id, row.content)
      ensures p in ObservationIndex(tok, all)
    {
      if p in Postings(tok, row.id, row.content) {
        assert row in all;
      } else {
        var r, t :| r in rows && t in tok(r.content) && p == (t, r.id);
        assert r in all;
      }
    }
  }

  lemma IndexDelete(tok: Tokenizer, before: seq<Observation>, row: Observation, rest: seq<Observation>)
    requires DistinctIds(before + [row] + rest)
    ensures ObservationIndex(tok, before + rest)
         == ObservationIndex(tok, before + [row] + rest) - Postings(tok, row.id, row.content)
  {
    var all, less := before + [row] + rest, before + rest;
    assert row == all[|before|];
    forall r | r in less ensures r in all && r.id != row.id {
      var i :| 0 <= i < |less| && less[i] == r;
      if i < |before| { assert all[i] == r; } else { assert all[i + 1] == r; }
    }
    forall r | r in all && r != row ensures r in less {
      var i :| 0 <= i < |all| && all[i] == r;
      if i < |before| { assert less[i] == r; } else { assert less[i - 1] == r; }
    }
  }

  lemma IndexUpdate(
    tok: Tokenizer, before: seq<Observation>, row: Observation, rest: seq<Observation>, content: string)
    requires DistinctIds(before + [row] + rest)
    ensures ObservationIndex(tok, before + [row.(content := content)] + rest)
         == ObservationIndex(tok, before + [row] + rest) - Postings(tok, row.id, row.content)
             + Postings(tok, row.id, content)
  {
    var next := row.(content := content);
    IndexDelete(tok, before, row, rest);
    forall r ensures r in before + [next] + rest <==> r in (before + rest) + [next] {}
    IndexInsert(tok, before + rest, next);
    assert ObservationIndex(tok, before + [next] + rest) == ObservationIndex(tok, (before + rest) + [next]);
  }

  lemma TruthIndexPut(tok: Tokenizer, truths: map<TruthKey, Truth>, k: TruthKey, row: Truth)
    requires RowidsDiffer(truths)
    requires if k in truths then row.rowid == truths[k].rowid else row.rowid !in Rowids(truths)
    ensures TruthIndex(tok, truths[k := row])
         == TruthIndex(tok, truths) - (if k in truths then Postings(tok, truths[k].rowid, truths[k].value) else {})
            + Postings(tok, row.rowid, row.value)
  {
    var next := truths[k := row];
    forall l | l in truths && l != k ensures truths[l].rowid != row.rowid && next[l] == truths[l] {
      assert truths[l].rowid in Rowids(truths);
    }
    forall p | p in TruthIndex(tok, truths) && p.1 != row.rowid ensures p in TruthIndex(tok, next) {
      var l, t :| l in truths && t in tok(truths[l].value) && p == (t, truths[l].rowid);
      assert l in next;
    }
    forall p | p in Postings(tok, row.rowid, row.value) ensures p in TruthIndex(tok, next) {
      assert k in next;
    }
  }

  lemma TruthIndexDrop(tok: Tokenizer, truths: map<TruthKey, Truth>, k: TruthKey)
    requires RowidsDiffer(truths) && k in truths
    ensures TruthIndex(tok, truths - {k}) == TruthIndex(tok, truths) - Postings(tok, truths[k].rowid, truths[k].value)
  {
    var next := truths - {k};
    var gone := Postings(tok, truths[k].rowid, truths[k].value);
    forall p | p in TruthIndex(tok, next) ensures p in TruthIndex(tok, truths) - gone {
      var l, t :| l in next && t in tok(next[l].value) && p == (t, next[l].rowid);
      assert l in truths && truths[l] == next[l];
    }
    forall p | p in TruthIndex(tok, truths) - gone ensures p in TruthIndex(tok, next) {
      var l, t :| l in truths && t in tok(truths[l].value) && p == (t, truths[l].rowid);
      assert l != k;
      assert l in next && next[l] == truths[l];
    }
  }

  lemma TouchOnce(entities: map<string, Entity>, touched: set<string>, n: string, now: int)
    ensures Touch(Touch(entities, touched, now), {n}, now) == Touch(entities, touched + {n}, now)
    ensures Touch(entities, {}, now) == entities
    ensures n !in entities ==> Touch(entities, {n}, now) == entities
  {
  }

  /** The rowids an index finds for a query that must match every word. */
  ghost function Lookup(index: set<Posting>, words: set<string>): set<nat> {
    set p | p in index && forall w :: w in words ==> (w, p.1) in index :: p.1
  }

  /** An all-words lookup in an index that matches its table returns exactly
      the rows a scan of the table would. */
  lemma LookupIsScan(tok: Tokenizer, rows: seq<Observation>, words: set<string>)
    requires DistinctIds(rows) && words != {}
    ensures Lookup(ObservationIndex(tok, rows), words) == set row | row in rows && words <= tok(row.content) :: row.id
  {
    var index := ObservationIndex(tok, rows);
    forall row | row in rows && words <= tok(row.content) ensures row.id in Lookup(index, words) {
      var w :| w in words;
      assert (w, row.id) in index;
    }
    forall id | id in Lookup(index, words)
      ensures exists row :: row in rows && words <= tok(row.content) && row.id == id
    {
      var w0 :| w0 in words;
      assert (w0, id) in index;
      var row :| row in rows && w0 in tok(row.content) && row.id == id;
      forall w | w in words ensures w in tok(row.content) {
        assert (w, id) in index;
        var other :| other in rows && w in tok(other.content) && other.id == id;
        SameId(rows, row, other);
      }
    }
  }

  lemma SameId(rows: seq<Observation>, a: Observation, b: Observation)
    requires DistinctIds(rows) && a in rows && b in rows && a.id == b.id
    ensures a == b
  {
    var i :| 0 <= i < |rows| && rows[i] == a;
    var j :| 0 <= j < |rows| && rows[j] == b;
  }

  lemma TruthLookupIsScan(tok: Tokenizer, truths: map<TruthKey, Truth>, words: set<string>)
    requires RowidsDiffer(truths) && words != {}
    ensures Lookup(TruthIndex(tok, truths), words)
         == set k | k in truths && words <= tok(truths[k].value) :: truths[k].rowid
  {
    var index := TruthIndex(tok, truths);
    forall k | k in truths && words <= tok(truths[k].value) ensures truths[k].rowid in Lookup(index, words) {
      var w :| w in words;
      assert (w, truths[k].rowid) in index;
    }
    forall id | id in Lookup(index, words)
      ensures exists k :: k in truths && words <= tok(truths[k].value) && truths[k].rowid == id
    {
      var w0 :| w0 in words;
      assert (w0, id) in index;
      var k :| k in truths && w0 in tok(truths[k].value) && truths[k].rowid == id;
      forall w | w in words ensures w in tok(truths[k].value) {
        assert (w, id) in index;
        var l :| l in truths && w in tok(truths[l].value) && truths[l].rowid == id;
        assert l == k;
      }
    }
  }

  // ---- the database ---------------------------------------------------------

  class Database {
    const tok: Tokenizer
    var entities: map<string, Entity>
    var observations: seq<Observation>
    var lastId: nat
    var truths: map<TruthKey, Truth>
    var relations: set<Relation>
    var observationIndex: set<Posting>
    var truthIndex: set<Posting>

    function State(): Db
      reads this
    {
      Db(entities, observations, lastId, truths, relations)
    }

    ghost predicate IndexesMatch()
      reads this
    {
      observationIndex == ObservationIndex(tok, observations) && truthIndex == TruthIndex(tok, truths)
    }

    /** Sound tables, and indexes that equal a rebuild. */
    ghost predicate Valid()
      reads this
    {
      IsSound(State()) && IndexesMatch()
    }

    constructor (tok: Tokenizer)
      ensures Valid() && State() == EmptyDb && this.tok == tok
    {
      this.tok := tok;
      entities, observations, lastId, truths, relations := map[], [], 0, map[], {};
      observationIndex, truthIndex := {}, {};
    }

    /** The activity trigger. */
    method TouchEntity(name: string, now: int)
      modifies this`entities
      ensures entities == Touch(old(entities), {name}, now)
    {
      if name in entities {
        entities := entities[name := entities[name].(lastActivity := now)];
      }
    }

    // ---- observations -------------------------------------------------------

    method InsertObservationRow(entity: string, content: string, now: int)
      requires IndexesMatch()
      modifies this`observations, this`lastId, this`observationIndex, this`entities
      ensures IndexesMatch()
      ensures observations == old(observations) + [Observation(lastId, entity, content, now)]
      ensures lastId == old(lastId) + 1
      ensures entities == Touch(old(entities), {entity}, now)
    {
      lastId := lastId + 1;
      var row := Observation(lastId, entity, content, now);
      IndexInsert(tok, observations, row);
      observations := observations + [row];
      observationIndex := observationIndex + Postings(tok, row.id, row.content);
      TouchEntity(entity, now);
    }

    method DeleteObservationRow(ghost before: seq<Observation>, row: Observation, rest: seq<Observation>, now: int)
      requires IndexesMatch() && observations == before + [row] + rest && DistinctIds(observations)
      modifies this`observations, this`observationIndex, this`entities
      ensures IndexesMatch() && observations == before + rest && DistinctIds(observations)
      ensures entities == Touch(old(entities), {row.entity}, now)
    {
      IndexDelete(tok, before, row, rest);
      DistinctWithout(before, row, rest);
      observations := observations[..|observations| - |rest| - 1] + rest;
      assert observations == before + rest;
      observationIndex := observationIndex - Postings(tok, row.id, row.content);
      TouchEntity(row.entity, now);
    }

    /** Delete the selected observation rows one by one, each firing the index
        and the activity trigger. */
    method DeleteObservationRows(db: Db, s: Statement, now: int)
      requires IndexesMatch() && DistinctIds(observations)
      modifies this`observations, this`observationIndex, this`entities
      ensures IndexesMatch() && DistinctIds(observations)
      ensures observations == Without(old(observations), db, s)
      ensures entities == Touch(old(entities), TouchedRows(old(observations), db, s), now)
    {
      hide *;
      var rows := observations;
      ghost var kept: seq<Observation> := [];
      TouchOnce(entities, {}, "", now);
      NoRowsTouched(db, s);
      SplitEnds(rows);
      for i := 0 to |rows|
        invariant kept == Without(rows[..i], db, s)
        invariant observations == kept + rows[i..]
        invariant DistinctIds(observations)
        invariant IndexesMatch()
        invariant entities == Touch(old(entities), TouchedRows(rows[..i], db, s), now)
      {
        var row := rows[i];
        RowsSnoc(rows, i, db, s);
        SplitAt(kept, rows, i);
        if Selects(db, s, row) {
          TouchOnce(old(entities), TouchedRows(rows[..i], db, s), row.entity, now);
          DeleteObservationRow(kept, row, rows[i + 1..], now);
        } else {
          kept := kept + [row];
        }
      }
      assert kept + [] == kept;
    }

    method UpdateObservationRow(i: nat, content: string, now: int)
      requires IndexesMatch() && i < |observations| && DistinctIds(observations)
      modifies this`observations, this`observationIndex, this`entities
      ensures IndexesMatch() && DistinctIds(observations)
      ensures observations == old(observations)[i := old(observations)[i].(content := content)]
      ensures entities == Touch(old(entities), {old(observations)[i].entity}, now)
    {
      var row := observations[i];
      ghost var before, rest := observations[..i], observations[i + 1..];
      assert observations == before + [row] + rest;
      IndexUpdate(tok, before, row, rest, content);
      observations := observations[i := row.(content := content)];
      assert observations == before + [row.(content := content)] + rest;
      observationIndex := observationIndex - Postings(tok, row.id, row.content) + Postings(tok, row.id, content);
      TouchEntity(row.entity, now);
    }

    /** Give the selected observation rows new content, one by one. */
    method UpdateObservationRows(db: Db, s: Statement, content: string, now: int)
      requires IndexesMatch() && DistinctIds(observations)
      modifies this`observations, this`observationIndex, this`entities
      ensures IndexesMatch() && DistinctIds(observations)
      ensures observations == Rewritten(old(observations), db, s, content)
      ensures entities == Touch(old(entities), TouchedRows(old(observations), db, s), now)
    {
      hide Selects, Touch, TouchedRows, ObservationIndex, TruthIndex, Postings, DistinctIds;
      var rows := observations;
      TouchOnce(entities, {}, "", now);
      NoRowsTouched(db, s);
      for i := 0 to |rows|
        invariant |observations| == |rows|
        invariant forall j :: 0 <= j < i ==> observations[j] == Rewritten(rows, db, s, content)[j]
        invariant forall j :: i <= j < |rows| ==> observations[j] == rows[j]
        invariant DistinctIds(observations)
        invariant IndexesMatch()
        invariant entities == Touch(old(entities), TouchedRows(rows[..i], db, s), now)
      {
        var row := rows[i];
        assert rows[..i + 1] == rows[..i] + [row];
        TouchedRowsSnoc(rows[..i], row, db, s);
        if Selects(db, s, row) {
          TouchOnce(old(entities), TouchedRows(rows[..i], db, s), row.entity, now);
          UpdateObservationRow(i, content, now);
        }
      }
      assert rows[..|rows|] == rows;
    }

    // ---- truths -------------------------------------------------------------

    method PutTruthRow(k: TruthKey, row: Truth, now: int)
      requires IndexesMatch() && RowidsDiffer(truths)
      requires if k in truths then row.rowid == truths[k].rowid else row.rowid !in Rowids(truths)
      modifies this`truths, this`truthIndex, this`entities
      ensures IndexesMatch() && RowidsDiffer(truths)
      ensures truths == old(truths)[k := row]
      ensures entities == Touch(old(entities), {k.0}, now)
    {
      TruthIndexPut(tok, truths, k, row);
      RowidsStayDistinct(truths, k, row);
      if k in truths {
        truthIndex := truthIndex - Postings(tok, truths[k].rowid, truths[k].value);
      }
      truths := truths[k := row];
      truthIndex := truthIndex + Postings(tok, row.rowid, row.value);
      TouchEntity(k.0, now);
    }

    method DeleteTruthRow(k: TruthKey, now: int)
      requires IndexesMatch() && RowidsDiffer(truths) && k in truths
      modifies this`truths, this`truthIndex, this`entities
      ensures IndexesMatch() && RowidsDiffer(truths)
      ensures truths == old(truths) - {k}
      ensures entities == Touch(old(entities), {k.0}, now)
    {
      TruthIndexDrop(tok, truths, k);
      truthIndex := truthIndex - Postings(tok, truths[k].rowid, truths[k].value);
      truths := truths - {k};
      TouchEntity(k.0, now);
    }

    /** Delete the given truth rows one by one, in any order. */
    method DeleteTruthRows(doomed: set<TruthKey>, now: int)
      requires IndexesMatch() && RowidsDiffer(truths) && doomed <= truths.Keys
      modifies this`truths, this`truthIndex, this`entities
      ensures IndexesMatch() && RowidsDiffer(truths)
      ensures truths == old(truths) - doomed
      ensures entities == Touch(old(entities), EntitiesOf(doomed), now)
    {
      hide Touch, EntitiesOf, TruthIndex, ObservationIndex, Postings, RowidsDiffer;
      var left := doomed;
      TouchOnce(entities, {}, "", now);
      EntitiesOfGrows({}, ("", ""));
      assert doomed - left == {};
      while left != {}
        invariant left <= doomed && left <= truths.Keys
        invariant truths == old(truths) - (doomed - left)
        invariant IndexesMatch() && RowidsDiffer(truths)
        invariant entities == Touch(old(entities), EntitiesOf(doomed - left), now)
        decreases |left|
      {
        var k :| k in left;
        EntitiesOfGrows(doomed - left, k);
        TouchOnce(old(entities), EntitiesOf(doomed - left), k.0, now);
        assert doomed - (left - {k}) == doomed - left + {k};
        DeleteTruthRow(k, now);
        left := left - {k};
      }
      assert doomed - {} == doomed;
    }

    // ---- statements ---------------------------------------------------------

    method ExecuteOnObservations(s: Statement, now: int)
      requires Valid() && Allowed(State(), s)
      requires OnObservations(s)
      modifies this
      ensures IndexesMatch() && State() == After(old(State()), now, s)
    {
      hide Selects, Touch, ObservationIndex, TruthIndex, SelectsTruth, NextRowid, Without, Rewritten;
      var db := State();
      SoundIdsDiffer(db);
      TouchesNoTruths(db, s);
      if s.InsertObservation? {
        InsertObservationRow(s.entity, s.content, now);
      } else if Updates(s) {
        UpdateObservationRows(db, s, s.newContent, now);
      } else {
        DeleteObservationRows(db, s, now);
      }
    }

    method ExecuteOnTruths(s: Statement, now: int)
      requires Valid() && Allowed(State(), s)
      requires OnTruths(s)
      modifies this
      ensures IndexesMatch() && State() == After(old(State()), now, s)
    {
      hide Selects, Touch, ObservationIndex, TruthIndex, NextRowid, Without, Rewritten, Postings;
      var db := State();
      TouchesNoObservations(db, s);
      NextRowidIsUnused(truths);
      TouchOnce(entities, {}, "", now);
      if s.UpsertTruth? {
        var k := (s.entity, s.key);
        var rowid := if k in truths then truths[k].rowid else NextRowid(truths);
        PutTruthRow(k, Truth(rowid, s.value, now), now);
      } else if s.SwapStatus? {
        var k := (s.entity, STATUS);
        if k in truths && truths[k].value == s.from {
          SwapTouches(db, s, k);
          PutTruthRow(k, Truth(truths[k].rowid, s.to, now), now);
        } else {
          SwapTouchesNothing(db, s);
        }
      } else {
        var doomed := set k | k in truths && SelectsTruth(db, s, k);
        DeleteTruthRows(doomed, now);
      }
    }

    /** Delete every row that refers to a deleted entity. The entity row is
        already gone, so the activity triggers find nothing to update. */
    method Cascade(db: Db, s: Statement, now: int)
      requires IndexesMatch() && DistinctIds(observations) && RowidsDiffer(truths)
      requires observations == db.observations && truths == db.truths
      requires forall n :: n in entities ==> n !in TouchedRows(observations, db, s)
      requires forall k :: k in truths && SelectsTruth(db, s, k) ==> k.0 !in entities
      modifies this`observations, this`observationIndex, this`truths, this`truthIndex, this`entities
      ensures IndexesMatch() && entities == old(entities)
      ensures observations == Without(db.observations, db, s)
      ensures truths == map k | k in db.truths && !SelectsTruth(db, s, k) :: db.truths[k]
    {
      hide Selects, SelectsTruth, ObservationIndex, TruthIndex, TouchedRows, Postings, DistinctIds, RowidsDiffer;
      DeleteObservationRows(db, s, now);
      var doomed := set k | k in truths && SelectsTruth(db, s, k);
      DeleteTruthRows(doomed, now);
    }

    method ExecuteOnEntities(s: Statement, now: int)
      requires Valid() && Allowed(State(), s)
      requires OnEntities(s)
      modifies this
      ensures IndexesMatch() && State() == After(old(State()), now, s)
    {
      hide Touch, ObservationIndex, TruthIndex, NextRowid, Without, Rewritten, Postings;
      var db := State();
      SoundIdsDiffer(db);
      if s.InsertEntity? {
        WithoutNothing(observations, db, s);
        if s.name !in entities {
          entities := entities[s.name := Entity(s.kind, now, now)];
        }
      } else if s.DeleteEntity? {
        entities := map n | n in entities && n != s.name :: entities[n];
        Cascade(db, s, now);
        relations := set r | r in relations && r.from != s.name && r.to != s.name;
      } else {
        entities := map[];
        Cascade(db, s, now);
        relations := {};
      }
    }

    method ExecuteOnRelations(s: Statement, now: int)
      requires Valid() && Allowed(State(), s)
      requires OnRelations(s)
      modifies this
      ensures IndexesMatch() && State() == After(old(State()), now, s)
    {
      hide ObservationIndex, TruthIndex, NextRowid, Without, Rewritten, Postings, Touch;
      var db := State();
      TouchesNothing(db, s);
      TouchOnce(entities, {}, "", now);
      if s.InsertRelation? {
        relations := relations + {s.relation};
      } else if s.DeleteRelation? {
        relations := relations - {s.relation};
      } else {
        relations := {};
      }
    }

    /** Run one statement. It fails, changing nothing, when a foreign key would
        be violated; otherwise the tables become what the specification says
        and the indexes still equal a rebuild. */
    method Execute(s: Statement, now: int) returns (ok: bool)
      requires Valid()
      modifies this
      ensures Valid()
      ensures ok == Exec(old(State()), now, s).Some?
      ensures State() == if ok then Exec(old(State()), now, s).value else old(State())
    {
      ghost var db := State();
      hide IsSound, After, ObservationIndex, TruthIndex;
      if !Allowed(State(), s) {
        return false;
      }
      ExecKeepsSound(db, now, s);
      if OnEntities(s) {
        ExecuteOnEntities(s, now);
      } else if OnRelations(s) {
        ExecuteOnRelations(s, now);
      } else if OnTruths(s) {
        ExecuteOnTruths(s, now);
      } else {
        ExecuteOnObservations(s, now);
      }
      return true;
    }

    /** Start a transaction: remember what to roll back to. */
    method Begin() returns (tx: Snapshot)
      requires Valid()
      ensures tx.db == State() && IsSnapshot(tok, tx)
    {
      tx := Snapshot(State(), observationIndex, truthIndex);
    }

    method Rollback(tx: Snapshot)
      requires IsSnapshot(tok, tx)
      modifies this
      ensures Valid() && State() == tx.db
    {
      entities, observations, lastId := tx.db.entities, tx.db.observations, tx.db.lastId;
      truths, relations := tx.db.truths, tx.db.relations;
      observationIndex, truthIndex := tx.observationIndex, tx.truthIndex;
    }

    /** Run one more statement of a transaction that has run `done`. If it
        fails, the whole transaction is rolled back. */
    method Continue(tx: Snapshot, ghost done: seq<Statement>, s: Statement, now: int) returns (ok: bool)
      requires Valid() && IsSnapshot(tok, tx) && ExecAll(tx.db, now, done) == Some(State())
      modifies this
      ensures Valid()
      ensures ok == ExecAll(tx.db, now, done + [s]).Some?
      ensures State() == if ok then ExecAll(tx.db, now, done + [s]).value else tx.db
    {
      hide IsSound, Exec, ObservationIndex, TruthIndex;
      assert (done + [s])[..|done|] == done;
      ok := Execute(s, now);
      if !ok {
        Rollback(tx);
      }
    }

    /** Run statements in one transaction: all of them, or none. */
    method Transact(statements: seq<Statement>, now: int) returns (ok: bool)
      requires Valid()
      modifies this
      ensures Valid()
      ensures ok == ExecAll(old(State()), now, statements).Some?
      ensures State() == if ok then ExecAll(old(State()), now, statements).value else old(State())
    {
      hide IsSound, Exec, ObservationIndex, TruthIndex;
      var tx := Begin();
      assert statements[..0] == [];
      for i := 0 to |statements|
        invariant Valid()
        invariant ExecAll(tx.db, now, statements[..i]) == Some(State())
      {
        assert statements[..i + 1] == statements[..i] + [statements[i]];
        ok := Continue(tx, statements[..i], statements[i], now);
        if !ok {
          FailureIsFinal(tx.db, now, statements[..i + 1], statements);
          return;
        }
      }
      assert statements[..|statements|] == statements;
      ok := true;
    }
  }

  /** What a transaction rolls back to. */
  datatype Snapshot = Snapshot(db: Db, observationIndex: set<Posting>, truthIndex: set<Posting>)

  ghost predicate IsSnapshot(tok: Tokenizer, tx: Snapshot) {
    && IsSound(tx.db)
    && tx.observationIndex == ObservationIndex(tok, tx.db.observations)
    && tx.truthIndex == TruthIndex(tok, tx.db.truths)
  }

  lemma FailureIsFinal(db: Db, now: int, some: seq<Statement>, all: seq<Statement>)
    requires some <= all && ExecAll(db, now, some).None?
    ensures ExecAll(db, now, all).None?
  {
    ExecAllConcat(db, now, some, all[|some|..]);
    assert some + all[|some|..] == all;
  }

  lemma SoundIdsDiffer(db: Db)
    requires IsSound(db)
    ensures DistinctIds(db.observations)
  {
  }

  lemma TouchesNoTruths(db: Db, s: Statement)
    requires OnObservations(s) || OnRelations(s)
    ensures !s.InsertObservation? ==> Touched(db, s) == TouchedRows(db.observations, db, s)
    ensures forall now :: TruthsAfter(db, now, s) == db.truths
  {
    hide Selects;
    assert forall k :: k in db.truths ==> !SelectsTruth(db, s, k);
  }

  lemma TouchesNoObservations(db: Db, s: Statement)
    requires OnTruths(s)
    ensures !s.UpsertTruth? ==> Touched(db, s) == EntitiesOf(set k | k in db.truths && SelectsTruth(db, s, k))
    ensures Without(db.observations, db, s) == db.observations
  {
    hide SelectsTruth;
    WithoutNothing(db.observations, db, s);
  }

  lemma TouchesNothing(db: Db, s: Statement)
    requires OnRelations(s)
    ensures Touched(db, s) == {}
    ensures Without(db.observations, db, s) == db.observations
    ensures forall now :: TruthsAfter(db, now, s) == db.truths
  {
    TouchesNoTruths(db, s);
    WithoutNothing(db.observations, db, s);
  }

  lemma NextRowidIsUnused(truths: map<TruthKey, Truth>)
    ensures NextRowid(truths) !in Rowids(truths)
  {
    NextRowidIsNew(truths);
  }

  lemma SwapTouches(db: Db, s: Statement, k: TruthKey)
    requires s.SwapStatus? && k == (s.entity, STATUS) && k in db.truths && db.truths[k].value == s.from
    ensures (set l | l in db.truths && SelectsTruth(db, s, l)) == {k}
    ensures EntitiesOf({k}) == {s.entity}
    ensures forall now :: TruthsAfter(db, now, s) == db.truths[k := Truth(db.truths[k].rowid, s.to, now)]
  {
  }

  lemma SwapTouchesNothing(db: Db, s: Statement)
    requires s.SwapStatus? && !((s.entity, STATUS) in db.truths && db.truths[(s.entity, STATUS)].value == s.from)
    ensures EntitiesOf(set l | l in db.truths && SelectsTruth(db, s, l)) == {}
    ensures forall now :: TruthsAfter(db, now, s) == db.truths
  {
  }

  function EntitiesOf(keys: set<TruthKey>): set<string> {
    set k | k in keys :: k.0
  }

  lemma EntitiesOfGrows(keys: set<TruthKey>, k: TruthKey)
    ensures EntitiesOf(keys + {k}) == EntitiesOf(keys) + {k.0}
    ensures EntitiesOf({}) == {}
  {
  }

  lemma RowidsStayDistinct(truths: map<TruthKey, Truth>, k: TruthKey, row: Truth)
    requires RowidsDiffer(truths)
    requires if k in truths then row.rowid == truths[k].rowid else row.rowid !in Rowids(truths)
    ensures RowidsDiffer(truths[k := row])
  {
    forall l | l in truths && l != k ensures truths[l].rowid != row.rowid {
      assert truths[l].rowid in Rowids(truths);
    }
  }

  // ---- rows touched ---------------------------------------------------------

  function TouchedRows(rows: seq<Observation>, db: Db, s: Statement): set<string> {
    set row | row in rows && Selects(db, s, row) :: row.entity
  }

  lemma TouchedRowsSnoc(rows: seq<Observation>, row: Observation, db: Db, s: Statement)
    ensures TouchedRows(rows + [row], db, s)
         == if Selects(db, s, row) then TouchedRows(rows, db, s) + {row.entity} else TouchedRows(rows, db, s)
  {
    hide Selects;
  }

  lemma RowsSnoc(rows: seq<Observation>, i: nat, db: Db, s: Statement)
    requires i < |rows|
    ensures Without(rows[..i + 1], db, s)
        == if Selects(db, s, rows[i]) then Without(rows[..i], db, s) else Without(rows[..i], db, s) + [rows[i]]
    ensures TouchedRows(rows[..i + 1], db, s)
         == if Selects(db, s, rows[i]) then TouchedRows(rows[..i], db, s)
             + {rows[i].entity} else TouchedRows(rows[..i], db, s)
  {
    assert rows[..i + 1] == rows[..i] + [rows[i]] && rows[..i + 1][..i] == rows[..i];
    TouchedRowsSnoc(rows[..i], rows[i], db, s);
  }

  lemma NoRowsTouched(db: Db, s: Statement)
    ensures TouchedRows([], db, s) == {} && Without([], db, s) == []
  {
  }

  lemma SplitAt(kept: seq<Observation>, rows: seq<Observation>, i: nat)
    requires i < |rows|
    ensures kept + rows[i..] == kept + [rows[i]] + rows[i + 1..]
  {
  }

  lemma SplitEnds(rows: seq<Observation>)
    ensures rows[..0] == [] && [] + rows[0..] == rows && rows[..|rows|] == rows && rows[|rows|..] == []
  {
  }

  lemma DistinctWithout(before: seq<Observation>, row: Observation, rest: seq<Observation>)
    requires DistinctIds(before + [row] + rest)
    ensures DistinctIds(before + rest)
  {
    var all, less := before + [row] + rest, before + rest;
    forall i, j | 0 <= i < j < |less| ensures less[i].id != less[j].id {
      var x, y := if i < |before| then i else i + 1, if j < |before| then j else j + 1;
      assert all[x] == less[i] && all[y] == less[j];
    }
  }
}
