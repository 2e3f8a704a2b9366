/** The claim protocol, statement by statement, over any number of processes,
    and the atomic claim that it refines. */
module Claims {
  import opened Options
  import opened Order
  import opened Schema
  import opened Runs
  import opened History
  import opened Outcomes
  import opened Requests
  import Normalize
  import Trails

  const READY := "READY_TO_DISPATCH"
  const DISPATCHED := "DISPATCHED"
  const CLAIMED_BY := "claimed_by"

  /** What one write transaction is asked to do. */
  datatype Request =
    | ClaimNext(agent: string)
    | Dispatch(task: Option<string>, agent: string, limit: nat)
    | Other(statements: seq<Statement>)

  // ---- the atomic claim -----------------------------------------------------

  predicate IsReady(db: Db, n: string) {
    StatusOf(db, n) == Some(READY)
  }

  function ReadyTasks(db: Db): set<string> {
    set n | n in db.entities && db.entities[n].kind == TASK && IsReady(db, n)
  }

  /** The task a claim is for: the named one, else the first ready one. */
  function Target(db: Db, q: Request): Option<string> {
    if q.Dispatch? && q.task.Some? then Some(Normalize.Canonical(q.task.value))
    else if ReadyTasks(db) == {} then None
    else Some(Least(ReadyTasks(db)))
  }

  function SwapOf(t: string): Statement {
    SwapStatus(t, READY, DISPATCHED)
  }

  function DispatchNote(agent: string): string {
    "dispatched to " + agent
  }

  /** What follows a successful compare-and-set. */
  function ClaimWrites(q: Request, t: string): seq<Statement>
    requires !q.Other?
  {
    [UpsertTruth(t, CLAIMED_BY, q.agent)]
    + if q.ClaimNext? then [] else NoteStatements(t, [DispatchNote(q.agent)], Trails.Cap(q.limit))
  }

  function ClaimBody(q: Request, t: string): seq<Statement>
    requires !q.Other?
  {
    [SwapOf(t)] + ClaimWrites(q, t)
  }

  /** One request as a single step: the new tables and the claimed task. */
  function Atomic(db: Db, now: int, q: Request): (Db, Option<string>) {
    if q.Other? then (ExecAll(db, now, q.statements).GetOr(db), None)
    else
      match Target(db, q)
      case None => (db, None)
      case Some(t) => if IsReady(db, t) then (ExecAll(db, now, ClaimBody(q, t)).GetOr(db), Some(t)) else (db, None)
  }

  // ---- the protocol ---------------------------------------------------------

  datatype Pc = Began | Chosen(target: string) | Writing(claimed: Option<string>, todo: seq<Statement>)

  /** The transaction of the process that holds the write lock. */
  datatype Tx = Tx(owner: nat, now: int, request: Request, working: Db, pc: Pc)

  datatype System = System(committed: Db, lock: Option<Tx>)

  /** `Begin` takes the write lock; the other actions are its owner's next
      statement, or the end of its transaction. An action that is not possible
      changes nothing: a process that finds the lock taken waits. */
  datatype Action = Begin(owner: nat, now: int, request: Request) | Select | Swap | Write | Commit | Abort

  /** A request that has been answered. */
  datatype Outcome = Outcome(owner: nat, now: int, request: Request, result: Option<string>)

  function Released(sys: System): System {
    sys.(lock := None)
  }

  function Step(sys: System, a: Action): System {
    match sys.lock
    case None =>
      if a.Begin? then
        var pc := if a.request.Other? then Writing(None, a.request.statements) else Began;
        sys.(lock := Some(Tx(a.owner, a.now, a.request, sys.committed, pc)))
      else sys
    case Some(tx) =>
      match a
      case Begin(_, _, _) => sys
      case Abort => Released(sys)
      case Select => SelectStep(sys, tx)
      case Swap => SwapStep(sys, tx)
      case Write => WriteStep(sys, tx)
      case Commit => if !tx.pc.Writing? || tx.pc.todo != [] then sys else System(tx.working, None)
  }

  function SelectStep(sys: System, tx: Tx): System {
    if !tx.pc.Began? then sys
    else
      match Target(tx.working, tx.request)
      case None => Released(sys)
      case Some(t) => sys.(lock := Some(tx.(pc := Chosen(t))))
  }

  /** The compare-and-set, which gives up when it changed no row. */
  function SwapStep(sys: System, tx: Tx): System {
    if !tx.pc.Chosen? || tx.request.Other? then sys
    else
      var t := tx.pc.target;
      if !IsReady(tx.working, t) then Released(sys)
      else sys.(lock := Some(tx.(working := After(tx.working, tx.now, SwapOf(t)),
          pc := Writing(Some(t), ClaimWrites(tx.request, t)))))
  }

  function WriteStep(sys: System, tx: Tx): System {
    if !tx.pc.Writing? || tx.pc.todo == [] then sys
    else
      match Exec(tx.working, tx.now, tx.pc.todo[0])
      case None => Released(sys)
      case Some(next) => sys.(lock := Some(tx.(working := next, pc := Writing(tx.pc.claimed, tx.pc.todo[1..]))))
  }

  /** The answer an action gives, if it gives one. */
  function Answer(sys: System, a: Action): Option<Outcome> {
    match sys.lock
    case None => None
    case Some(tx) =>
      if a.Select? && tx.pc.Began? && Target(tx.working, tx.request).None? then
        Some(Outcome(tx.owner, tx.now, tx.request, None))
      else if a.Swap? && tx.pc.Chosen? && !tx.request.Other? && !IsReady(tx.working, tx.pc.target) then
        Some(Outcome(tx.owner, tx.now, tx.request, None))
      else if a.Commit? && tx.pc.Writing? && tx.pc.todo == [] then
        Some(Outcome(tx.owner, tx.now, tx.request, tx.pc.claimed))
      else None
  }

  function Run(db: Db, actions: seq<Action>): System {
    if actions == [] then System(db, None)
    else Step(Run(db, actions[..|actions| - 1]), actions[|actions| - 1])
  }

  /** The answers of a run, in order. */
  function Answers(db: Db, actions: seq<Action>): seq<Outcome> {
    if actions == [] then []
    else
      var before := actions[..|actions| - 1];
      match Answer(Run(db, before), actions[|actions| - 1])
      case None => Answers(db, before)
      case Some(o) => Answers(db, before) + [o]
  }

  // ---- refinement -----------------------------------------------------------

  /** All the statements a running transaction executes. */
  function Program(tx: Tx): seq<Statement>
    requires tx.pc.Writing? && (tx.request.Other? || tx.pc.claimed.Some?)
  {
    if tx.request.Other? then tx.request.statements else ClaimBody(tx.request, tx.pc.claimed.value)
  }

  /** The lock owner has executed a prefix of its program on the tables it
      found, and what it read then still holds. */
  ghost predicate OnCourse(committed: Db, tx: Tx) {
    match tx.pc
    case Began => tx.working == committed && !tx.request.Other?
    case Chosen(t) => tx.working == committed && !tx.request.Other? && Target(committed, tx.request) == Some(t)
    case Writing(target, todo) =>
      && (tx.request.Other? <==> target.None?)
      && (target.Some? ==> Target(committed, tx.request) == target && IsReady(committed, target.value))
      && exists done :: done + todo == Program(tx) && ExecAll(committed, tx.now, done) == Some(tx.working)
  }

  ghost predicate Invariant(sys: System) {
    IsSound(sys.committed) && (sys.lock.Some? ==> OnCourse(sys.committed, sys.lock.value))
  }

  /** A step answers a request exactly as the atomic claim would, or leaves the
      committed tables alone. */
  lemma StepRefines(sys: System, a: Action)
    requires Invariant(sys)
    ensures match Answer(sys, a)
            case None => Step(sys, a).committed == sys.committed
            case Some(o) => Atomic(sys.committed, o.now, o.request) == (Step(sys, a).committed, o.result)
  {
    hide IsSound, Target, ClaimBody, ClaimWrites, IsReady;
    if sys.lock.Some? && a.Commit? && sys.lock.value.pc.Writing? && sys.lock.value.pc.todo == [] {
      var tx := sys.lock.value;
      var done :| done + [] == Program(tx) && ExecAll(sys.committed, tx.now, done) == Some(tx.working);
      assert done == Program(tx);
    }
  }

  lemma StartOfProgram(committed: Db, tx: Tx, todo: seq<Statement>)
    requires tx.pc == Writing(None, todo) && tx.request == Other(todo) && tx.working == committed
    ensures OnCourse(committed, tx)
  {
    assert [] + todo == Program(tx) && ExecAll(committed, tx.now, []) == Some(tx.working);
  }

  lemma SwapStarts(committed: Db, tx: Tx)
    requires tx.pc.Chosen? && OnCourse(committed, tx) && IsReady(committed, tx.pc.target)
    ensures var t := tx.pc.target;
            OnCourse(committed, tx.(working := After(tx.working, tx.now, SwapOf(t)),
                pc := Writing(Some(t), ClaimWrites(tx.request, t))))
  {
    hide After, Target, ClaimWrites, IsReady;
    var t := tx.pc.target;
    var done := [SwapOf(t)];
    assert done[..0] == [] && ExecAll(committed, tx.now, []) == Some(committed);
    assert Exec(committed, tx.now, SwapOf(t)) == Some(After(committed, tx.now, SwapOf(t)));
    assert ExecAll(committed, tx.now, done) == Some(After(committed, tx.now, SwapOf(t)));
    assert done + ClaimWrites(tx.request, t) == ClaimBody(tx.request, t);
  }

  lemma WriteContinues(committed: Db, tx: Tx, next: Db)
    requires tx.pc.Writing? && tx.pc.todo != [] && OnCourse(committed, tx)
    requires Exec(tx.working, tx.now, tx.pc.todo[0]) == Some(next)
    ensures OnCourse(committed, tx.(working := next, pc := Writing(tx.pc.claimed, tx.pc.todo[1..])))
  {
    hide Exec, Target, ClaimBody, IsReady;
    var after := tx.(working := next, pc := Writing(tx.pc.claimed, tx.pc.todo[1..]));
    var done :| done + tx.pc.todo == Program(tx) && ExecAll(committed, tx.now, done) == Some(tx.working);
    var more := done + [tx.pc.todo[0]];
    assert more[..|more| - 1] == done;
    assert more + tx.pc.todo[1..] == Program(after);
    assert ExecAll(committed, tx.now, more) == Some(next);
  }

  lemma StepKeepsInvariant(sys: System, a: Action)
    requires Invariant(sys)
    ensures Invariant(Step(sys, a))
  {
    if sys.lock.None? {
      if a.Begin? && a.request.Other? {
        StartOfProgram(sys.committed, Step(sys, a).lock.value, a.request.statements);
      }
    } else {
      var tx := sys.lock.value;
      hide IsSound, Exec, After, Target, IsReady, ClaimWrites, ExecAll;
      if a.Swap? && tx.pc.Chosen? && IsReady(tx.working, tx.pc.target) {
        SwapStarts(sys.committed, tx);
      } else if a.Write? && tx.pc.Writing? && tx.pc.todo != [] && Exec(tx.working, tx.now, tx.pc.todo[0]).Some? {
        WriteContinues(sys.committed, tx, Exec(tx.working, tx.now, tx.pc.todo[0]).value);
      } else if a.Commit? && tx.pc.Writing? && tx.pc.todo == [] {
        var done :| done + [] == Program(tx) && ExecAll(sys.committed, tx.now, done) == Some(tx.working);
        TransactionKeepsSound(sys.committed, tx.now, done);
      }
    }
  }

  lemma NothingRuns(db: Db)
    requires IsSound(db)
    ensures Invariant(System(db, None))
  {
  }

  lemma {:induction false} RunsKeepInvariant(db: Db, actions: seq<Action>)
    requires IsSound(db)
    ensures Invariant(Run(db, actions))
  {
    hide Step, Invariant;
    if actions == [] {
      NothingRuns(db);
    } else {
      RunsKeepInvariant(db, actions[..|actions| - 1]);
      StepKeepsInvariant(Run(db, actions[..|actions| - 1]), actions[|actions| - 1]);
    }
  }

  /** The tables after answering requests one at a time, atomically. */
  function Replay(db: Db, h: seq<Outcome>): Db {
    if h == [] then db
    else Atomic(Replay(db, h[..|h| - 1]), h[|h| - 1].now, h[|h| - 1].request).0
  }

  /** Every answer is the one the atomic claim gives. */
  ghost predicate IsHistory(db: Db, h: seq<Outcome>) {
    h == [] || (var before, last := h[..|h| - 1], h[|h| - 1];
                IsHistory(db, before) && Atomic(Replay(db, before), last.now, last.request).1 == last.result)
  }

  /** However the statements of many processes interleave, and wherever their
      transactions abort, the committed tables and all the answers are those of
      atomic claims made one after another. */
  lemma {:induction false} ProtocolRefinesAtomicClaims(db: Db, actions: seq<Action>)
    requires IsSound(db)
    ensures Run(db, actions).committed == Replay(db, Answers(db, actions))
    ensures IsHistory(db, Answers(db, actions))
  {
    if actions != [] {
      var before, last := actions[..|actions| - 1], actions[|actions| - 1];
      ProtocolRefinesAtomicClaims(db, before);
      RunsKeepInvariant(db, before);
      StepRefines(Run(db, before), last);
      hide Step, Answer, Atomic, Invariant;
      var o := Answer(Run(db, before), last);
      if o.Some? {
        var h := Answers(db, actions);
        assert h[..|h| - 1] == Answers(db, before);
      }
    }
  }

  /** In `claim_next`, and in a dispatch that names no task, the compare-and-set
      never finds that another process was faster. */
  lemma {:induction false} CompareAndSetNeverLoses(db: Db, actions: seq<Action>)
    requires IsSound(db)
    requires var sys := Run(db, actions);
             && sys.lock.Some? && sys.lock.value.pc.Chosen?
             && (sys.lock.value.request.ClaimNext?
                 || (sys.lock.value.request.Dispatch? && sys.lock.value.request.task.None?))
    ensures IsReady(Run(db, actions).lock.value.working, Run(db, actions).lock.value.pc.target)
  {
    RunsKeepInvariant(db, actions);
    hide Run, IsSound, IsReady;
  }

  // ---- what one claim does --------------------------------------------------

  lemma FirstTwo(db: Db, now: int, ss: seq<Statement>, one: Db, two: Db)
    requires |ss| >= 2 && Exec(db, now, ss[0]) == Some(one) && Exec(one, now, ss[1]) == Some(two)
    ensures ExecAll(db, now, ss[..2]) == Some(two)
  {
    hide Exec;
    assert ss[..2][..1] == ss[..1] && ss[..1][..0] == [];
    assert ExecAll(db, now, []) == Some(db) && ExecAll(db, now, ss[..1]) == Some(one);
  }

  /** Two truths of one entity are written, and nothing else but activity. */
  ghost predicate HasClaimTruths(before: Db, after: Db, t: string, agent: string) {
    && SameKinds(before, after) && after.relations == before.relations
    && forall n, key ::
         TruthOf(after, n, key)
         == if n == t && key == STATUS then Some(DISPATCHED)
            else if n == t && key == CLAIMED_BY then Some(agent) else TruthOf(before, n, key)
  }

  /** The outcome of a claim: the task is dispatched to the agent; a dispatch
      also leaves a note on its trail, under the cap; nothing else changes. */
  ghost predicate IsClaimOf(before: Db, after: Db, t: string, q: Request)
    requires !q.Other?
  {
    && HasClaimTruths(before, after, t, q.agent)
    && forall n ::
         Trail(after, n)
         == if n == t && q.Dispatch? then Trails.Newest(Trail(before, t) + [DispatchNote(q.agent)], Trails.Cap(q.limit))
            else Trail(before, n)
  }

  lemma Swapped(db: Db, now: int, t: string)
    requires IsReady(db, t)
    ensures var after := After(db, now, SwapOf(t));
            && SameKinds(db, after) && after.relations == db.relations && after.observations == db.observations
            && forall n, key ::
                 TruthOf(after, n, key) == if n == t && key == STATUS then Some(DISPATCHED) else TruthOf(db, n, key)
  {
    WithoutNothing(db.observations, db, SwapOf(t));
    hide Touched, Without;
  }

  lemma SwapAndClaimant(db: Db, now: int, t: string, agent: string)
    requires IsSound(db) && IsReady(db, t)
    ensures var one := After(db, now, SwapOf(t));
            var two := After(one, now, UpsertTruth(t, CLAIMED_BY, agent));
            && Exec(db, now, SwapOf(t)) == Some(one) && Exec(one, now, UpsertTruth(t, CLAIMED_BY, agent)) == Some(two)
            && HasClaimTruths(db, two, t, agent) && two.observations == db.observations && t in two.entities
  {
    assert t in db.entities;
    hide After, IsSound, IsReady;
    Swapped(db, now, t);
    assert |CLAIMED_BY| != |STATUS|;
    UpsertEffect(After(db, now, SwapOf(t)), now, t, CLAIMED_BY, agent);
  }

  lemma ClaimStarts(db: Db, now: int, q: Request, t: string) returns (two: Db)
    requires IsSound(db) && IsReady(db, t) && !q.Other?
    ensures ExecAll(db, now, ClaimBody(q, t)[..2]) == Some(two) && IsSound(two)
    ensures HasClaimTruths(db, two, t, q.agent) && two.observations == db.observations && t in two.entities
  {
    hide After, IsSound, IsReady, HasClaimTruths, Exec, ExecAll, DispatchNote, NoteStatements;
    SwapAndClaimant(db, now, t, q.agent);
    two := After(After(db, now, SwapOf(t)), now, UpsertTruth(t, CLAIMED_BY, q.agent));
    FirstTwo(db, now, ClaimBody(q, t), After(db, now, SwapOf(t)), two);
    TransactionKeepsSound(db, now, ClaimBody(q, t)[..2]);
  }

  lemma NotesAfterClaim(start: Db, two: Db, after: Db, t: string, q: Request)
    requires q.Dispatch? && HasClaimTruths(start, two, t, q.agent) && two.observations == start.observations
    requires OnlyTrailOf(two, after, t)
    requires Trail(after, t) == Trails.Newest(Trail(two, t) + [DispatchNote(q.agent)], Trails.Cap(q.limit))
    ensures IsClaimOf(start, after, t, q)
  {
    hide DispatchNote, RowsOf, Trails.Newest;
    assert forall n :: Trail(two, n) == Trail(start, n);
    assert forall n :: n != t ==> Trail(after, n) == Trail(two, n);
    assert forall n, key :: TruthOf(after, n, key) == TruthOf(two, n, key);
  }

  /** The statements of a claim succeed and do just that. */
  lemma ClaimEffect(db: Db, now: int, q: Request, t: string)
    requires IsSound(db) && IsReady(db, t) && !q.Other?
    ensures var r := ExecAll(db, now, ClaimBody(q, t));
            r.Some? && IsClaimOf(db, r.value, t, q)
  {
    hide IsSound, IsReady, HasClaimTruths, ExecAll, DispatchNote, NoteStatements, Trails.Newest, RowsOf;
    var two := ClaimStarts(db, now, q, t);
    var ss := ClaimBody(q, t);
    if q.Dispatch? {
      NotesEffect(two, now, t, [DispatchNote(q.agent)], Trails.Cap(q.limit));
      ExecAllConcat(db, now, ss[..2], ss[2..]);
      assert ss == ss[..2] + ss[2..];
      assert ss[2..] == NoteStatements(t, [DispatchNote(q.agent)], Trails.Cap(q.limit));
      NotesAfterClaim(db, two, ExecAll(two, now, ss[2..]).value, t, q);
    } else {
      assert ss[..2] == ss;
      assert forall n :: Trail(two, n) == Trail(db, n);
    }
  }

  ghost predicate IsClaimable(db: Db, n: string) {
    n in db.entities && db.entities[n].kind == "task" && HasTruth(db, n, "status", "READY_TO_DISPATCH")
  }

  ghost predicate IsFirstClaimable(db: Db, t: string) {
    IsClaimable(db, t) && forall n :: IsClaimable(db, n) && n != t ==> Less(t, n)
  }

  /** What a claim writes: status and claimant of the task, and for a dispatch a
      note under the cap; nothing else changes but activity. */
  ghost predicate HasClaimWrites(before: Db, after: Db, t: string, q: Request)
    requires !q.Other?
  {
    && SameKinds(before, after) && after.relations == before.relations
    && (forall n, key ::
          TruthOf(after, n, key)
          == if n == t && key == "status" then Some("DISPATCHED")
             else if n == t && key == "claimed_by" then Some(q.agent) else TruthOf(before, n, key))
    && (forall n ::
          Trail(after, n)
          == if n == t && q.Dispatch?
             then Trails.Newest(Trail(before, t) + ["dispatched to " + q.agent], if q.limit == 0 then 200 else q.limit)
             else Trail(before, n))
  }

  lemma ClaimWritesAre(before: Db, after: Db, t: string, q: Request)
    requires !q.Other? && IsClaimOf(before, after, t, q)
    ensures HasClaimWrites(before, after, t, q)
  {
    hide Trail, TruthOf, Trails.Newest;
    if q.Dispatch? { assert DispatchNote(q.agent) == "dispatched to " + q.agent; }
  }

  lemma ReadyIsClaimable(db: Db, n: string)
    ensures IsClaimable(db, n) <==> n in ReadyTasks(db)
    ensures HasTruth(db, n, "status", "READY_TO_DISPATCH") <==> IsReady(db, n)
  {
  }

  lemma FirstReadyIsFirstClaimable(db: Db)
    ensures ReadyTasks(db) == {} <==> forall n :: !IsClaimable(db, n)
    ensures ReadyTasks(db) == {} ==> forall t :: !IsFirstClaimable(db, t)
    ensures ReadyTasks(db) != {} ==>
              forall t :: IsFirstClaimable(db, t) <==> t == Least(ReadyTasks(db))
  {
    hide IsClaimable, ReadyTasks, Less, Least;
    forall n ensures IsClaimable(db, n) <==> n in ReadyTasks(db) { ReadyIsClaimable(db, n); }
    if ReadyTasks(db) != {} {
      var least := Least(ReadyTasks(db));
      assert IsLeast(least, ReadyTasks(db));
      forall t ensures IsFirstClaimable(db, t) <==> t == least {
        if t != least { LessIsStrict(t, least); }
      }
    }
  }

  /** A claim that names no task takes the first ready task by name, if there is
      one. */
  lemma ClaimTakesFirstReady(db: Db, now: int, q: Request)
    requires IsSound(db) && !q.Other? && (q.Dispatch? ==> q.task.None?)
    ensures var (after, result) := Atomic(db, now, q);
            && (forall t :: result == Some(t) <==> IsFirstClaimable(db, t))
            && (result == None <==> forall n :: !IsClaimable(db, n))
            && (result.None? ==> after == db)
            && (result.Some? ==> HasClaimWrites(db, after, result.value, q))
  {
    FirstReadyIsFirstClaimable(db);
    hide IsSound, ExecAll, ClaimBody, IsClaimOf, HasClaimWrites, IsFirstClaimable, IsClaimable, Less, IsReady;
    if ReadyTasks(db) != {} {
      var t := Least(ReadyTasks(db));
      ReadyIsClaimable(db, t);
      LeastIsReady(db);
      ClaimEffect(db, now, q, t);
      ClaimWritesAre(db, Atomic(db, now, q).0, t, q);
    }
  }

  lemma LeastIsReady(db: Db)
    requires ReadyTasks(db) != {}
    ensures IsReady(db, Least(ReadyTasks(db)))
  {
    hide Less;
  }

  /** A dispatch by name asks for nothing but the status: the entity need not
      be a task. */
  lemma NamedDispatchIgnoresKind(db: Db, now: int, task: string, agent: string, limit: nat)
    requires IsSound(db)
    ensures var q := Dispatch(Some(task), agent, limit);
            var (after, result) := Atomic(db, now, q);
            var t := Normalize.Canonical(task);
            && result == (if HasTruth(db, t, "status", "READY_TO_DISPATCH") then Some(t) else None)
            && (result.None? ==> after == db)
            && (result.Some? ==> HasClaimWrites(db, after, t, q))
  {
    hide Normalize.Canonical, IsSound, ExecAll, ClaimBody, IsClaimOf, HasClaimWrites, HasTruth, IsReady;
    var t := Normalize.Canonical(task);
    ReadyIsClaimable(db, t);
    if IsReady(db, t) {
      ClaimEffect(db, now, Dispatch(Some(task), agent, limit), t);
      ClaimWritesAre(db, Atomic(db, now, Dispatch(Some(task), agent, limit)).0, t, Dispatch(Some(task), agent, limit));
    }
  }

  /** The whole outcome of a claim. */
  ghost predicate IsClaimOutcome(before: Db, after: Db, q: Request, result: Option<string>)
    requires !q.Other?
  {
    && (if q.Dispatch? && q.task.Some? then
          var t := Normalize.Canonical(q.task.value);
          result == if HasTruth(before, t, "status", "READY_TO_DISPATCH") then Some(t) else None
        else
          && (forall t :: result == Some(t) <==> IsFirstClaimable(before, t))
          && (result == None <==> forall n :: !IsClaimable(before, n)))
    && (result.None? ==> after == before)
    && (result.Some? ==> HasClaimWrites(before, after, result.value, q))
  }

  lemma ClaimOutcome(db: Db, now: int, q: Request)
    requires IsSound(db) && !q.Other?
    ensures IsClaimOutcome(db, Atomic(db, now, q).0, q, Atomic(db, now, q).1)
  {
    hide Atomic, IsSound, HasClaimWrites, IsFirstClaimable, IsClaimable, HasTruth, Normalize.Canonical;
    if q.Dispatch? && q.task.Some? {
      NamedDispatchIgnoresKind(db, now, q.task.value, q.agent, q.limit);
    } else {
      ClaimTakesFirstReady(db, now, q);
    }
  }

  // ---- claims and ready writes ----------------------------------------------

  function One(b: bool): nat {
    if b then 1 else 0
  }

  predicate SetsReady(s: Statement, t: string) {
    s == UpsertTruth(t, STATUS, READY) || (s.SwapStatus? && s.entity == t && s.to == READY)
  }

  function ReadyWritesIn(ss: seq<Statement>, t: string): nat {
    if ss == [] then 0 else ReadyWritesIn(ss[..|ss| - 1], t) + One(SetsReady(ss[|ss| - 1], t))
  }

  /** How often committed transactions made `t` ready. */
  function ReadyWrites(h: seq<Outcome>, t: string): nat {
    if h == [] then 0
    else
      var q := h[|h| - 1].request;
      ReadyWrites(h[..|h| - 1], t) + if q.Other? then ReadyWritesIn(q.statements, t) else 0
  }

  predicate ClaimsTask(o: Outcome, t: string) {
    !o.request.Other? && o.result == Some(t)
  }

  /** How often `t` was claimed. */
  function Claims(h: seq<Outcome>, t: string): nat {
    if h == [] then 0
    else
      var last := h[|h| - 1];
      Claims(h[..|h| - 1], t) + One(ClaimsTask(last, t))
  }

  lemma OnlyWritesMakeReady(db: Db, now: int, s: Statement, t: string)
    ensures One(IsReady(After(db, now, s), t)) <= One(IsReady(db, t)) + One(SetsReady(s, t))
  {
    hide EntitiesAfter, ObservationsAfter, RelationsAfter, NextRowid;
  }

  lemma {:induction false} OnlyTransactionsMakeReady(db: Db, now: int, ss: seq<Statement>, t: string)
    requires ExecAll(db, now, ss).Some?
    ensures One(IsReady(ExecAll(db, now, ss).value, t)) <= One(IsReady(db, t)) + ReadyWritesIn(ss, t)
  {
    hide After, Allowed, IsReady, SetsReady;
    if ss != [] {
      var before, last := ss[..|ss| - 1], ss[|ss| - 1];
      OnlyTransactionsMakeReady(db, now, before, t);
      OnlyWritesMakeReady(ExecAll(db, now, before).value, now, last, t);
    }
  }

  lemma AnswerBalances(db: Db, o: Outcome, t: string)
    requires IsSound(db) && Atomic(db, o.now, o.request).1 == o.result
    ensures One(ClaimsTask(o, t)) + One(IsReady(Atomic(db, o.now, o.request).0, t))
         <= One(IsReady(db, t)) + if o.request.Other? then ReadyWritesIn(o.request.statements, t) else 0
  {
    var q := o.request;
    hide IsSound, ExecAll, ClaimBody, Target, ReadyWritesIn, TruthOf, Trail;
    if q.Other? {
      if ExecAll(db, o.now, q.statements).Some? {
        OnlyTransactionsMakeReady(db, o.now, q.statements, t);
      }
    } else if Target(db, q).Some? && IsReady(db, Target(db, q).value) {
      ClaimEffect(db, o.now, q, Target(db, q).value);
    }
  }

  lemma AtomicKeepsSound(db: Db, now: int, q: Request)
    requires IsSound(db)
    ensures IsSound(Atomic(db, now, q).0)
  {
    hide IsSound, ExecAll, ClaimBody, Target, IsReady;
    if q.Other? {
      if ExecAll(db, now, q.statements).Some? { TransactionKeepsSound(db, now, q.statements); }
    } else if Target(db, q).Some? {
      var ss := ClaimBody(q, Target(db, q).value);
      if ExecAll(db, now, ss).Some? { TransactionKeepsSound(db, now, ss); }
    }
  }

  lemma {:induction false} HistoryBalances(db: Db, h: seq<Outcome>, t: string)
    requires IsSound(db) && IsHistory(db, h)
    ensures Claims(h, t) + One(IsReady(Replay(db, h), t)) <= ReadyWrites(h, t) + One(IsReady(db, t))
    ensures IsSound(Replay(db, h))
  {
    hide IsSound, Atomic, IsReady, ReadyWritesIn;
    if h != [] {
      var before, last := h[..|h| - 1], h[|h| - 1];
      HistoryBalances(db, before, t);
      AnswerBalances(Replay(db, before), last, t);
      AtomicKeepsSound(Replay(db, before), last.now, last.request);
    }
  }

  /** In every run, successful claims of a task never exceed the committed
      writes that made it ready, counting its initial status. */
  lemma ClaimsNeverExceedReadyWrites(db: Db, actions: seq<Action>, t: string)
    requires IsSound(db)
    ensures var h := Answers(db, actions);
            Claims(h, t) + One(IsReady(Run(db, actions).committed, t)) <= ReadyWrites(h, t) + One(IsReady(db, t))
  {
    ProtocolRefinesAtomicClaims(db, actions);
    hide Run, Answers, IsSound, IsReady;
    HistoryBalances(db, Answers(db, actions), t);
  }

  lemma {:induction false} HistorySplits(db: Db, h: seq<Outcome>, i: nat)
    requires i <= |h| && IsHistory(db, h)
    ensures IsHistory(db, h[..i]) && IsHistory(Replay(db, h[..i]), h[i..])
    ensures Replay(db, h) == Replay(Replay(db, h[..i]), h[i..])
  {
    hide Atomic;
    if i == |h| {
      assert h[..i] == h && h[i..] == [];
    } else {
      var before := h[..|h| - 1];
      HistorySplits(db, before, i);
      assert before[..i] == h[..i] && h[i..][..|h[i..]| - 1] == before[i..];
    }
  }

  lemma {:induction false} NoWritesNoCount(h: seq<Outcome>, t: string)
    requires forall k :: 0 <= k < |h| && h[k].request.Other? ==> ReadyWritesIn(h[k].request.statements, t) == 0
    ensures ReadyWrites(h, t) == 0
  {
    hide ReadyWritesIn;
    if h != [] { NoWritesNoCount(h[..|h| - 1], t); }
  }

  lemma {:induction false} ClaimsAddUp(a: seq<Outcome>, b: seq<Outcome>, t: string)
    ensures Claims(a + b, t) == Claims(a, t) + Claims(b, t)
  {
    if b == [] {
      assert a + b == a;
    } else {
      assert (a + b)[..|a + b| - 1] == a + b[..|b| - 1];
      ClaimsAddUp(a, b[..|b| - 1], t);
    }
  }

  lemma TwoClaims(h: seq<Outcome>, t: string)
    requires |h| >= 2 && ClaimsTask(h[0], t) && ClaimsTask(h[|h| - 1], t)
    ensures Claims(h, t) >= 2
  {
    assert h == [h[0]] + h[1..|h| - 1] + [h[|h| - 1]];
    ClaimsAddUp([h[0]] + h[1..|h| - 1], [h[|h| - 1]], t);
    ClaimsAddUp([h[0]], h[1..|h| - 1], t);
    assert Claims([h[0]], t) == 1;
  }

  predicate MakesReady(o: Outcome, t: string) {
    o.request.Other? && ReadyWritesIn(o.request.statements, t) > 0
  }

  lemma TwoClaimsNeedWrite(db: Db, h: seq<Outcome>, t: string)
    requires IsSound(db) && IsHistory(db, h) && |h| >= 2
    requires ClaimsTask(h[0], t) && ClaimsTask(h[|h| - 1], t)
    ensures exists k :: 0 < k < |h| - 1 && MakesReady(h[k], t)
  {
    hide *;
    HistoryBalances(db, h, t);
    TwoClaims(h, t);
    AtMostOne(IsReady(db, t));
    if forall k :: 0 < k < |h| - 1 ==> !MakesReady(h[k], t) {
      NothingMakesReady(h, t);
      NoWritesNoCount(h, t);
    }
  }

  lemma AtMostOne(b: bool)
    ensures One(b) <= 1
  {
  }

  lemma NothingMakesReady(h: seq<Outcome>, t: string)
    requires |h| >= 2 && ClaimsTask(h[0], t) && ClaimsTask(h[|h| - 1], t)
    requires forall k :: 0 < k < |h| - 1 ==> !MakesReady(h[k], t)
    ensures forall k :: 0 <= k < |h| && h[k].request.Other? ==> ReadyWritesIn(h[k].request.statements, t) == 0
  {
  }

  lemma Middle(db: Db, h: seq<Outcome>, i: nat, j: nat)
    requires IsSound(db) && IsHistory(db, h) && i <= j <= |h|
    ensures IsSound(Replay(db, h[..i])) && IsHistory(Replay(db, h[..i]), h[i..j])
  {
    hide IsSound, IsHistory, Replay;
    HistorySplits(db, h, j);
    HistorySplits(db, h[..j], i);
    HistoryBalances(db, h[..j][..i], "");
    assert h[..j][..i] == h[..i] && h[..j][i..] == h[i..j];
  }

  lemma WriteBetweenClaims(db: Db, h: seq<Outcome>, t: string, i: nat, j: nat)
    requires IsSound(db) && IsHistory(db, h)
    requires i < j < |h| && ClaimsTask(h[i], t) && ClaimsTask(h[j], t)
    ensures exists k :: i < k < j && MakesReady(h[k], t)
  {
    hide *;
    Middle(db, h, i, j + 1);
    var middle := h[i..j + 1];
    assert middle[0] == h[i] && middle[|middle| - 1] == h[j];
    TwoClaimsNeedWrite(Replay(db, h[..i]), middle, t);
    var k :| 0 < k < |middle| - 1 && MakesReady(middle[k], t);
    assert middle[k] == h[i + k];
  }

  /** A task is never claimed twice unless a transaction in between made it
      ready again. */
  lemma NoDoubleClaim(db: Db, actions: seq<Action>, t: string, i: nat, j: nat)
    requires IsSound(db)
    requires var h := Answers(db, actions); i < j < |h| && ClaimsTask(h[i], t) && ClaimsTask(h[j], t)
    ensures var h := Answers(db, actions); exists k :: i < k < j && MakesReady(h[k], t)
  {
    hide *;
    ProtocolRefinesAtomicClaims(db, actions);
    WriteBetweenClaims(db, Answers(db, actions), t, i, j);
  }
}
