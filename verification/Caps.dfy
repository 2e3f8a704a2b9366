/** When trails stay within the observation cap, and when names stay in normal
    form, over runs of requests. */
module Caps {
  import opened Options
  import opened Schema
  import opened Sweep
  import opened Trails
  import opened Requests
  import opened Sessions
  import Normalize
  import Claims

  /** Every trail is at most `cap` long. */
  ghost predicate WithinCap(db: Db, cap: nat) {
    forall e :: |Trail(db, e)| <= cap
  }

  // ---- creation and abandonment ---------------------------------------------

  /** No new entity is seeded with more than `cap` observations. */
  ghost predicate SeedsWithin(db: Db, inputs: seq<EntityInput>, cap: nat) {
    forall n :: n !in db.entities && Creates(inputs, n) ==> |FirstInput(inputs, n).observations| <= cap
  }

  /** Every task about to be abandoned has room for the note. */
  ghost predicate RoomForNotes(db: Db, now: int, days: nat, cap: nat) {
    days > 0 ==> forall n :: n in AbandonCandidates(db, now, days) ==> |Trail(db, n)| < cap
  }

  /** Creation keeps every trail within the cap exactly when they were and no
      new entity's first input has more observations than that. */
  lemma CreationWithinCap(before: Db, after: Db, inputs: seq<EntityInput>, cap: nat)
    requires IsSound(before) && IsCreation(before, after, inputs)
    ensures WithinCap(after, cap) <==> WithinCap(before, cap) && SeedsWithin(before, inputs, cap)
  {
    hide Creates, Trail, IsSound;
    forall n
      ensures IsCreationOf(before, after, inputs, n) && (n !in before.entities ==> Trail(before, n) == [])
    {
      NoTrailForTheDead(before, n);
    }
    if WithinCap(after, cap) {
      forall n ensures |Trail(before, n)| <= cap {
        assert IsCreationOf(before, after, inputs, n) && |Trail(after, n)| <= cap;
      }
      forall n | n !in before.entities && Creates(inputs, n) ensures |FirstInput(inputs, n).observations| <= cap {
        assert IsCreationOf(before, after, inputs, n) && |Trail(after, n)| <= cap;
      }
    }
    if WithinCap(before, cap) && SeedsWithin(before, inputs, cap) {
      forall n ensures |Trail(after, n)| <= cap {
        assert IsCreationOf(before, after, inputs, n) && |Trail(before, n)| <= cap;
      }
    }
  }

  /** An abandonment pass keeps every trail within the cap exactly when they were
      and every task it marks was below it. */
  lemma AbandonmentWithinCap(db: Db, now: int, days: nat, cap: nat)
    ensures WithinCap(Abandoned(db, now, days), cap) <==> WithinCap(db, cap) && RoomForNotes(db, now, days, cap)
  {
    hide AbandonNote, IsAbandonment, AbandonCandidates, Trail, Abandoned, ExecAll, AbandonPass;
    AbandonPassEffect(db, now, days);
    var after, names := Abandoned(db, now, days), if days == 0 then {} else AbandonCandidates(db, now, days);
    assert forall n :: |Trail(after, n)| == |Trail(db, n)| + if n in names then 1 else 0;
    if WithinCap(after, cap) {
      forall n ensures |Trail(db, n)| <= cap && (n in names ==> |Trail(db, n)| < cap) {
        assert |Trail(after, n)| <= cap;
      }
    }
  }

  // ---- the calls that cap ---------------------------------------------------

  /** No new name, and no trail grows beyond the cap. */
  ghost predicate IsCapped(before: Db, after: Db, cap: nat) {
    && after.entities.Keys <= before.entities.Keys
    && forall e :: |Trail(after, e)| <= |Trail(before, e)| || |Trail(after, e)| <= cap
  }

  lemma SameIsCapped(db: Db, cap: nat)
    ensures IsCapped(db, db, cap)
  {
  }

  lemma AddCall(db: Db, c: Timed, limit: nat)
    requires IsSound(db) && c.call.Add?
    ensures var after := Answered(db, c, limit);
            && IsCapped(db, after, Cap(limit))
            && (AllLive(db, c.call.batches) ==>
                  forall e :: Trail(after, e) == TrailAfter(db, c.call.batches, Cap(limit), e))
  {
    hide ExecAll, IsSound, AddStatements, Names, Trail, AllLive, Added;
    SameIsCapped(db, Cap(limit));
    AddingObservations(db, c.now, c.call.batches, Cap(limit));
  }

  lemma UpdateCall(db: Db, c: Timed, limit: nat)
    requires IsSound(db) && c.call.Update?
    ensures var after, t := Answered(db, c, limit), Normalize.Canonical(c.call.task);
            && IsCapped(db, after, Cap(limit))
            && (!IsRefused(db, c.call.task, c.call.notes, c.call.status) && c.call.notes != [] ==>
                  Trail(after, t) == Newest(Trail(db, t) + c.call.notes, Cap(limit)))
  {
    hide ExecAll, IsSound, UpdateStatements, Trail, Normalize.Canonical, IsTaskStatus;
    SameIsCapped(db, Cap(limit));
    NothingRun(db, c.now);
    var t := Normalize.Canonical(c.call.task);
    if !IsRefused(db, c.call.task, c.call.notes, c.call.status) {
      UpdatingTask(db, c.now, t, c.call.notes, c.call.status, Cap(limit));
    }
  }

  lemma ClaimCall(db: Db, c: Timed, limit: nat)
    requires IsSound(db) && (c.call.ClaimNext? || c.call.Dispatch?)
    ensures var after, q := Answered(db, c, limit), ClaimOf(c.call, limit);
            var target := Claims.Target(db, q);
            && IsCapped(db, after, Cap(limit))
            && after == Claims.Atomic(db, c.now, q).0
            && (target.Some? && Claims.IsReady(db, target.value) ==> Claims.IsClaimOf(db, after, target.value, q))
  {
    hide ExecAll, IsSound, Claims.ClaimBody, Claims.DispatchNote, Trail, Claims.Target, Claims.IsReady;
    SameIsCapped(db, Cap(limit));
    NothingRun(db, c.now);
    var q := ClaimOf(c.call, limit);
    var target := Claims.Target(db, q);
    if target.Some? && Claims.IsReady(db, target.value) {
      Claims.ClaimEffect(db, c.now, q, target.value);
    }
  }

  /** The call prunes the trail of `e`. */
  predicate Trims(db: Db, c: Call, limit: nat, e: string) {
    match c
    case Add(batches) => AllLive(db, batches) && Names(batches, e)
    case Update(task, notes, status) =>
      !IsRefused(db, task, notes, status) && notes != [] && e == Normalize.Canonical(task)
    case Dispatch(_, _) => Claims.Target(db, ClaimOf(c, limit)) == Some(e) && Claims.IsReady(db, e)
    case _ => false
  }

  /** However long a trail is, the next call that adds to it under the cap trims
      it to the cap. */
  lemma CappedCallTrims(db: Db, c: Timed, limit: nat, e: string)
    requires IsSound(db) && Trims(db, c.call, limit, e)
    ensures |Trail(Answered(db, c, limit), e)| <= Cap(limit)
  {
    hide IsSound, Answered, Trail, Normalize.Canonical, Claims.Target, Claims.IsReady, Claims.DispatchNote;
    match c.call {
      case Add(_) => AddCall(db, c, limit);
      case Update(_, _, _) => UpdateCall(db, c, limit);
      case Dispatch(_, _) => ClaimCall(db, c, limit);
    }
  }

  lemma CappedCall(db: Db, c: Timed, limit: nat)
    requires IsSound(db) && IsCall(c.call) && !c.call.Create? && !c.call.Abandonment?
    ensures IsCapped(db, Answered(db, c, limit), Cap(limit))
  {
    hide IsSound, Answered, Trail, Claims.Target, Claims.IsReady;
    match c.call {
      case Add(_) => AddCall(db, c, limit);
      case Update(_, _, _) => UpdateCall(db, c, limit);
      case ClaimNext(_) => ClaimCall(db, c, limit);
      case Dispatch(_, _) => ClaimCall(db, c, limit);
      case Retention(_) => ShrinkingCall(db, c, limit);
      case Other(_) => ShrinkingCall(db, c, limit);
    }
  }

  // ---- runs -----------------------------------------------------------------

  /** What a call must respect for the cap to hold afterwards. */
  ghost predicate Respects(db: Db, c: Timed, cap: nat) {
    match c.call
    case Create(inputs) => SeedsWithin(db, inputs, cap)
    case Abandonment(days) => RoomForNotes(db, c.now, days, cap)
    case _ => true
  }

  lemma CreateCall(db: Db, c: Timed, limit: nat)
    requires IsSound(db) && c.call.Create?
    ensures IsCreation(db, Answered(db, c, limit), c.call.inputs)
  {
    hide ExecAll, IsSound, IsCreation, CreateStatements;
    CreatingEntities(db, c.now, c.call.inputs);
  }

  lemma AbandonCall(db: Db, c: Timed, limit: nat)
    requires c.call.Abandonment?
    ensures Answered(db, c, limit) == Abandoned(db, c.now, c.call.days)
  {
    hide ExecAll, AbandonPass;
  }

  /** From a state within the cap a call leads out of it exactly when it is a
      creation or an abandonment that does not respect it. */
  lemma CallKeepsCap(db: Db, c: Timed, limit: nat)
    requires IsSound(db) && IsCall(c.call) && WithinCap(db, Cap(limit))
    ensures WithinCap(Answered(db, c, limit), Cap(limit)) <==> Respects(db, c, Cap(limit))
  {
    hide IsSound, Answered, Trail, SeedsWithin, RoomForNotes, IsCreation, Abandoned, IsCall;
    if c.call.Create? {
      CreateCall(db, c, limit);
      CreationWithinCap(db, Answered(db, c, limit), c.call.inputs, Cap(limit));
    } else if c.call.Abandonment? {
      AbandonCall(db, c, limit);
      AbandonmentWithinCap(db, c.now, c.call.days, Cap(limit));
    } else {
      CappedCall(db, c, limit);
    }
  }

  /** Every state of a run of requests is within the cap exactly when the first
      is, and every creation and abandonment on the way respects it. */
  lemma {:induction false} CapHoldsExactlyWhen(db: Db, calls: seq<Timed>, limit: nat, n: nat)
    requires IsSound(db) && n <= |calls| && forall k :: 0 <= k < n ==> IsCall(calls[k].call)
    ensures (forall i :: 0 <= i <= n ==> WithinCap(SessionAt(db, calls, limit, i), Cap(limit)))
       <==> && WithinCap(db, Cap(limit))
            && forall i :: 0 <= i < n ==> Respects(SessionAt(db, calls, limit, i), calls[i], Cap(limit))
  {
    hide IsSound, WithinCap, Respects, IsCall, Answered;
    if n == 0 {
      assert SessionAt(db, calls, limit, 0) == db;
    } else {
      CapHoldsExactlyWhen(db, calls, limit, n - 1);
      SessionsAreSound(db, calls, limit, n - 1);
      var before := SessionAt(db, calls, limit, n - 1);
      assert SessionAt(db, calls, limit, n) == Answered(before, calls[n - 1], limit);
      if WithinCap(before, Cap(limit)) {
        CallKeepsCap(before, calls[n - 1], limit);
      }
    }
  }

  // ---- names ----------------------------------------------------------------

  lemma CallKeepsNamesCanonical(db: Db, c: Timed, limit: nat)
    requires IsSound(db) && IsCall(c.call) && NamesAreCanonical(db)
    ensures NamesAreCanonical(Answered(db, c, limit))
  {
    hide IsSound, Answered, Trail, Normalize.Canonical, IsCreation, IsCall, Abandoned, Annotated, AbandonNote;
    if c.call.Create? {
      CreateCall(db, c, limit);
      CreationKeepsNamesCanonical(db, Answered(db, c, limit), c.call.inputs);
    } else if c.call.Abandonment? {
      AbandonCall(db, c, limit);
      AbandonPassEffect(db, c.now, c.call.days);
    } else {
      CappedCall(db, c, limit);
    }
  }

  /** In every state of a run of requests all stored names are in normal form. */
  lemma {:induction false} NamesStayCanonical(db: Db, calls: seq<Timed>, limit: nat, i: nat)
    requires IsSound(db) && NamesAreCanonical(db) && i <= |calls|
    requires forall k :: 0 <= k < i ==> IsCall(calls[k].call)
    ensures NamesAreCanonical(SessionAt(db, calls, limit, i))
  {
    hide IsSound, NamesAreCanonical, IsCall, Answered;
    if i > 0 {
      NamesStayCanonical(db, calls, limit, i - 1);
      SessionsAreSound(db, calls, limit, i - 1);
      CallKeepsNamesCanonical(SessionAt(db, calls, limit, i - 1), calls[i - 1], limit);
    }
  }
}
