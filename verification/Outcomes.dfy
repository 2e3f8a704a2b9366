/** What a sweep does, in terms of the stored rows alone. */
module Outcomes {
  import opened Decimals
  import opened Options
  import opened Schema
  import opened Runs
  import opened Sweep

  ghost predicate HasTruth(db: Db, n: string, key: string, value: string) {
    (n, key) in db.truths && db.truths[(n, key)].value == value
  }

  ghost predicate IsFinished(db: Db, n: string) {
    HasTruth(db, n, "status", "DONE") || HasTruth(db, n, "status", "CLOSED") || HasTruth(db, n, "status", "ABANDONED")
  }

  ghost predicate IsIdle(db: Db, n: string, now: int, days: nat) {
    n in db.entities && db.entities[n].kind == "task" && db.entities[n].lastActivity < now - days * 86400
  }

  ghost predicate IsDueForDeletion(db: Db, n: string, now: int, days: nat) {
    IsIdle(db, n, now, days) && IsFinished(db, n)
  }

  ghost predicate IsDueForAbandonment(db: Db, n: string, now: int, days: nat) {
    && days > 0 && IsIdle(db, n, now, days) && !IsFinished(db, n)
    && forall r :: r in db.relations && r.to == n && r.kind == "part_of" && r.from in db.entities ==>
         IsFinished(db, r.from)
  }

  /** `n` is marked, at `now`, with one more observation. */
  ghost predicate IsMarkedAbandoned(before: Db, after: Db, n: string, now: int, days: nat) {
    && n in before.entities && n in after.entities
    && after.entities[n] == before.entities[n].(lastActivity := now)
    && HasTruth(after, n, "status", "ABANDONED")
    && (forall key :: key != "status" ==> TruthOf(after, n, key) == TruthOf(before, n, key))
    && Trail(after, n) == Trail(before, n) + ["abandoned automatically after " + Decimal(days) + " idle days"]
  }

  ghost predicate IsUntouched(before: Db, after: Db, n: string) {
    && n in before.entities && n in after.entities && after.entities[n] == before.entities[n]
    && SameTruths(after, before, n) && Trail(after, n) == Trail(before, n)
  }

  ghost predicate RelationsFollow(before: Db, after: Db) {
    forall r :: r in after.relations <==> r in before.relations && r.from in after.entities && r.to in after.entities
  }

  /** Exactly the idle unfinished tasks without unfinished live children are
      marked. */
  ghost predicate IsAbandonOutcome(before: Db, after: Db, now: int, days: nat) {
    && after.entities.Keys == before.entities.Keys && after.relations == before.relations
    && forall n :: n in before.entities ==>
         if IsDueForAbandonment(before, n, now, days) then IsMarkedAbandoned(before, after, n, now, days)
         else IsUntouched(before, after, n)
  }

  /** Exactly the idle finished tasks are gone. */
  ghost predicate IsPurgeOutcome(before: Db, after: Db, now: int, days: nat) {
    && after.entities.Keys <= before.entities.Keys && RelationsFollow(before, after)
    && forall n :: n in before.entities ==>
         if IsDueForDeletion(before, n, now, days) then n !in after.entities else IsUntouched(before, after, n)
  }

  /** Both, each going by the tables from before: what is marked is not deleted
      in the same sweep. A window of 0 does nothing. */
  ghost predicate IsSweepOutcome(before: Db, after: Db, now: int, abandonDays: nat, retentionDays: nat) {
    && after.entities.Keys <= before.entities.Keys && RelationsFollow(before, after)
    && forall n :: n in before.entities ==>
         if retentionDays > 0 && IsDueForDeletion(before, n, now, retentionDays) then n !in after.entities
         else if IsDueForAbandonment(before, n, now, abandonDays)
         then IsMarkedAbandoned(before, after, n, now, abandonDays)
         else IsUntouched(before, after, n)
  }

  ghost function DueForAbandonment(db: Db, now: int, days: nat): set<string> {
    set n | n in db.entities && IsDueForAbandonment(db, n, now, days)
  }

  ghost function DueForDeletion(db: Db, now: int, days: nat): set<string> {
    set n | n in db.entities && IsDueForDeletion(db, n, now, days)
  }

  // ---- the passes -----------------------------------------------------------

  lemma FinishedIsTerminal(db: Db, n: string)
    ensures IsFinished(db, n) <==> IsTerminal(StatusOf(db, n))
  {
  }

  lemma DueIsCandidate(db: Db, now: int, days: nat, n: string)
    ensures IsDueForDeletion(db, n, now, days) <==> n in PurgeCandidates(db, now, days)
    ensures days > 0 ==> (IsDueForAbandonment(db, n, now, days) <==> n in AbandonCandidates(db, now, days))
  {
    hide IsFinished, IsTerminal, StatusOf;
    forall m ensures IsFinished(db, m) <==> IsTerminal(StatusOf(db, m)) { FinishedIsTerminal(db, m); }
  }

  lemma DueAreCandidates(db: Db, now: int, days: nat)
    ensures DueForDeletion(db, now, days) == PurgeCandidates(db, now, days)
    ensures DueForAbandonment(db, now, days) == if days > 0 then AbandonCandidates(db, now, days) else {}
  {
    hide IsDueForDeletion, PurgeCandidates, AbandonCandidates;
    forall n
      ensures IsDueForDeletion(db, n, now, days) <==> n in PurgeCandidates(db, now, days)
      ensures days > 0 ==> (IsDueForAbandonment(db, n, now, days) <==> n in AbandonCandidates(db, now, days))
    {
      DueIsCandidate(db, now, days, n);
    }
    CandidatesAreLive(db, now, days);
    forall n | n in AbandonCandidates(db, now, days) ensures n in db.entities {
      AbandonCandidateIsLive(db, now, days, n);
    }
  }

  lemma AbandonCandidateIsLive(db: Db, now: int, days: nat, n: string)
    requires n in AbandonCandidates(db, now, days)
    ensures n in db.entities
  {
  }

  lemma NoteIs(days: nat)
    ensures AbandonNote(days) == "abandoned automatically after " + Decimal(days) + " idle days"
  {
  }

  lemma AbandonOutcome(db: Db, now: int, days: nat)
    ensures IsAbandonOutcome(db, Abandoned(db, now, days), now, days)
  {
    hide AbandonCandidates, Abandoned, AbandonPass, ExecAll, AbandonNote, Decimal, IsFinished, IsIdle, Trail;
    AbandonPassEffect(db, now, days);
    NoteIs(days);
    var after := Abandoned(db, now, days);
    forall n | n in db.entities
      ensures if IsDueForAbandonment(db, n, now, days) then IsMarkedAbandoned(db, after, n, now, days)
              else IsUntouched(db, after, n)
    {
      DueIsCandidate(db, now, days, n);
      assert Trail(db, n) + [] == Trail(db, n);
      assert days == 0 || n !in AbandonCandidates(db, now, days) ==> SameEntity(db, after, n);
    }
  }

  lemma {:induction false} RemovalKeepsRows(rows: seq<Observation>, names: set<string>, n: string)
    requires n !in names
    ensures RowsOf(WithoutEntities(rows, names), n) == RowsOf(rows, n)
  {
    if rows != [] {
      var before, last := rows[..|rows| - 1], rows[|rows| - 1];
      RemovalKeepsRows(before, names, n);
      var kept := WithoutEntities(before, names);
      assert (kept + [last])[..|kept|] == kept && kept + [] == kept;
    }
  }

  lemma PurgeOutcome(db: Db, now: int, days: nat)
    requires IsSound(db)
    ensures IsPurgeOutcome(db, Removed(db, PurgeCandidates(db, now, days)), now, days)
  {
    var names := PurgeCandidates(db, now, days);
    var after := Removed(db, names);
    hide PurgeCandidates, IsDueForDeletion, IdsIncrease, RowidsDiffer;
    forall n | n in db.entities
      ensures if IsDueForDeletion(db, n, now, days) then n !in after.entities else IsUntouched(db, after, n)
    {
      DueIsCandidate(db, now, days, n);
      if n !in names { RemovalKeepsRows(db.observations, names, n); }
    }
  }

  /** What abandonment marks is not due for deletion at the same time, and what
      it leaves is due as before. */
  lemma StillDue(before: Db, mid: Db, now: int, abandonDays: nat, retentionDays: nat, n: string)
    requires n in before.entities && IsAbandonOutcome(before, mid, now, abandonDays)
    ensures IsDueForDeletion(mid, n, now, retentionDays) <==> IsDueForDeletion(before, n, now, retentionDays)
  {
    hide Trail;
    if !IsDueForAbandonment(before, n, now, abandonDays) {
      assert IsUntouched(before, mid, n);
      assert forall key :: TruthOf(mid, n, key) == TruthOf(before, n, key);
      assert forall key, value :: HasTruth(mid, n, key, value) <==> TruthOf(mid, n, key) == Some(value);
      assert forall key, value :: HasTruth(before, n, key, value) <==> TruthOf(before, n, key) == Some(value);
    } else {
      assert IsMarkedAbandoned(before, mid, n, now, abandonDays);
    }
  }

  lemma SweepOutcome(before: Db, mid: Db, after: Db, now: int, abandonDays: nat, retentionDays: nat)
    requires IsSound(before) && IsAbandonOutcome(before, mid, now, abandonDays)
    requires if retentionDays > 0 then IsPurgeOutcome(mid, after, now, retentionDays) else after == mid
    ensures IsSweepOutcome(before, after, now, abandonDays, retentionDays)
  {
    hide Trail, IsDueForDeletion, IsDueForAbandonment, IdsIncrease, RowidsDiffer;
    forall n | n in before.entities
      ensures if retentionDays > 0 && IsDueForDeletion(before, n, now, retentionDays) then n !in after.entities
              else if IsDueForAbandonment(before, n, now, abandonDays)
              then IsMarkedAbandoned(before, after, n, now, abandonDays)
              else IsUntouched(before, after, n)
    {
      StillDue(before, mid, now, abandonDays, retentionDays, n);
      assert retentionDays > 0 && !IsDueForDeletion(mid, n, now, retentionDays) ==> IsUntouched(mid, after, n);
      assert forall key ::
          TruthOf(mid, n, key) == (if (n, key) in mid.truths then Some(mid.truths[(n, key)].value) else None);
    }
  }

  lemma SameDueForDeletion(before: Db, mid: Db, now: int, abandonDays: nat, retentionDays: nat)
    requires IsAbandonOutcome(before, mid, now, abandonDays)
    ensures DueForDeletion(mid, now, retentionDays) == DueForDeletion(before, now, retentionDays)
  {
    hide IsDueForDeletion;
    assert mid.entities.Keys == before.entities.Keys;
    forall n | n in before.entities
      ensures IsDueForDeletion(mid, n, now, retentionDays) <==> IsDueForDeletion(before, n, now, retentionDays)
    {
      StillDue(before, mid, now, abandonDays, retentionDays, n);
    }
  }
}
