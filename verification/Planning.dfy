/** Planning an epic and its child tasks. */
module Planning {
  import opened Decimals
  import opened Options
  import opened Order
  import opened Schema
  import opened Tables
  import opened Runs
  import opened Sweep
  import opened Requests
  import opened Store
  import opened Graphs
  import Normalize
  import Claims

  const OBJECTIVE := "objective"
  const TITLE := "title"

  predicate IsBlank(s: string): (blank: bool)
    ensures blank <==> forall c :: c in s ==> Normalize.IsWhitespace(c)
  {
    Normalize.BlankIsTrimmedAway(s);
    Normalize.Trim(s) == ""
  }

  // ---- names ----------------------------------------------------------------

  /** The name of child number `k`, counted from 1. */
  function ChildName(epic: string, k: nat): string {
    epic + ":" + ("task-" + Decimal(k))
  }

  function ChildNames(epic: string, n: nat): (r: seq<string>)
    ensures |r| == n
  {
    seq(n, i requires 0 <= i < n => ChildName(epic, i + 1))
  }

  /** The stored name of child number `k`. */
  function Child(epic: string, k: nat): string {
    Normalize.Canonical(ChildName(epic, k))
  }

  lemma TaskNumberIsWellFormed(k: nat)
    ensures Normalize.Canonical("task-" + Decimal(k)) == "task-" + Decimal(k)
  {
    DecimalIsDigits(k);
    var w := "task-" + Decimal(k);
    forall i | 5 <= i < |w| ensures Normalize.IsAlnum(w[i]) {
      assert w[i] == Decimal(k)[i - 5] && w[i] in Decimal(k) && IsDigit(w[i]);
    }
    assert w[0] == 't' && w[1] == 'a' && w[2] == 's' && w[3] == 'k' && w[4] == '-';
    assert forall i :: 0 <= i < 4 ==> Normalize.IsAlnum(w[i]);
    Normalize.WellFormedIsFixed(w);
  }

  function Lead(epic: string): string {
    var e := Normalize.Canonical(epic);
    if e == "" then "task-" else e + ":task-"
  }

  /** The stored name of a child is the stored name of the epic, a colon and
      the number; an epic that normalises to nothing leaves no prefix. */
  lemma ChildIsPrefixed(epic: string, k: nat)
    ensures Child(epic, k) == Lead(epic) + Decimal(k)
    ensures var e, number := Normalize.Canonical(epic), Decimal(k);
            && Child(epic, k) == (if e == "" then "task-" else e + ":task-") + number
            && number != "" && (forall c :: c in number ==> IsDigit(c)) && Value(number) == k
            && (k > 0 ==> number[0] != '0')
  {
    DecimalHasValue(k);
    hide Decimal, Normalize.Canonical;
    Normalize.ColonJoinsNormalForms(epic, "task-" + Decimal(k));
    TaskNumberIsWellFormed(k);
    var e := Normalize.Canonical(epic);
    assert e + ":" + ("task-" + Decimal(k)) == e + ":task-" + Decimal(k);
  }

  lemma CancelPrefix(lead: string, a: string, b: string)
    requires lead + a == lead + b
    ensures a == b
  {
    assert a == (lead + a)[|lead|..] && b == (lead + b)[|lead|..];
  }

  /** Children have distinct stored names, none of them the epic's. */
  lemma ChildrenAreDistinct(epic: string, j: nat, k: nat)
    ensures Child(epic, j) == Child(epic, k) ==> j == k
    ensures Child(epic, k) != Normalize.Canonical(epic)
  {
    hide *;
    ChildIsPrefixed(epic, j);
    ChildIsPrefixed(epic, k);
    if Child(epic, j) == Child(epic, k) {
      CancelPrefix(Lead(epic), Decimal(j), Decimal(k));
      DecimalIsInjective(j, k);
    }
    LeadIsLonger(epic);
  }

  lemma LeadIsLonger(epic: string)
    ensures |Lead(epic)| > |Normalize.Canonical(epic)|
  {
    hide Normalize.Canonical;
  }

  function Children(epic: string, n: nat): set<string> {
    set i | 1 <= i <= n :: Child(epic, i)
  }

  // ---- growing the graph by tasks -------------------------------------------

  /** What planning the tasks `names` means for one name. */
  ghost predicate GrownAt(before: Db, after: Db, names: set<string>, n: string) {
    && (n in after.entities <==> n in before.entities || n in names)
    && (n in after.entities ==> after.entities[n].kind == if n in names then "task" else before.entities[n].kind)
  }

  /** The tasks `names` are there, and other kinds and all relations as before. */
  ghost predicate Grown(before: Db, after: Db, names: set<string>) {
    after.relations == before.relations && forall n :: GrownAt(before, after, names, n)
  }

  lemma CreationGrows(
    start: Db, before: Db, after: Db, names: set<string>, inputs: seq<EntityInput>, more: set<string>)
    requires Grown(start, before, names) && IsCreation(before, after, inputs)
    requires forall n :: Creates(inputs, n) <==> n in more
    requires forall i :: i in inputs ==> i.kind == TASK
    requires forall n :: n in more ==> n !in before.entities
    ensures Grown(start, after, names + more)
  {
    forall n ensures GrownAt(start, after, names + more, n) {
      assert IsCreationOf(before, after, inputs, n) && GrownAt(start, before, names, n);
      if n in more { FirstInputIsInput(inputs, n); }
    }
  }

  lemma UpsertGrows(start: Db, db: Db, names: set<string>, now: int, e: string, key: string, value: string)
    requires Grown(start, db, names) && e in names
    ensures var after := After(db, now, UpsertTruth(e, key, value));
            e in db.entities && Grown(start, after, names) && after.observations == db.observations
  {
    assert GrownAt(start, db, names, e);
    UpsertEffect(db, now, e, key, value);
    hide After;
    forall n ensures GrownAt(start, After(db, now, UpsertTruth(e, key, value)), names, n) {
      assert GrownAt(start, db, names, n);
    }
  }

  // ---- truths ---------------------------------------------------------------

  /** The truths once the epic and the first `i` children have theirs. */
  function PlanTruth(
    start: Db, epic: string, objective: string, titles: seq<string>, i: nat, n: string, key: string): Option<string>
    requires i <= |titles|
  {
    if i == 0 then
      if n == Normalize.Canonical(epic) && key == OBJECTIVE then Some(objective) else TruthOf(start, n, key)
    else if n == Child(epic, i) && key == TITLE then Some(titles[i - 1])
    else if n == Child(epic, i) && key == STATUS then Some(Claims.READY)
    else PlanTruth(start, epic, objective, titles, i - 1, n, key)
  }

  ghost predicate TruthsAre(start: Db, db: Db, epic: string, objective: string, titles: seq<string>, i: nat)
    requires i <= |titles|
  {
    forall n, key :: TruthOf(db, n, key) == PlanTruth(start, epic, objective, titles, i, n, key)
  }

  lemma ObjectiveWritten(start: Db, db: Db, now: int, epic: string, objective: string, titles: seq<string>)
    requires db.truths == start.truths && Normalize.Canonical(epic) in db.entities
    ensures var s := UpsertTruth(Normalize.Canonical(epic), OBJECTIVE, objective);
            TruthsAre(start, After(db, now, s), epic, objective, titles, 0)
  {
    hide Normalize.Canonical;
    UpsertEffect(db, now, Normalize.Canonical(epic), OBJECTIVE, objective);
    hide After;
  }

  lemma ChildWritten(start: Db, db: Db, now: int, epic: string, objective: string, titles: seq<string>, i: nat)
    requires i < |titles| && TruthsAre(start, db, epic, objective, titles, i) && Child(epic, i + 1) in db.entities
    ensures var titled := After(db, now, UpsertTruth(Child(epic, i + 1), TITLE, titles[i]));
            var ready := After(titled, now, UpsertTruth(Child(epic, i + 1), STATUS, Claims.READY));
            TruthsAre(start, ready, epic, objective, titles, i + 1)
  {
    hide Child;
    assert |TITLE| != |STATUS|;
    UpsertEffect(db, now, Child(epic, i + 1), TITLE, titles[i]);
    var titled := After(db, now, UpsertTruth(Child(epic, i + 1), TITLE, titles[i]));
    UpsertEffect(titled, now, Child(epic, i + 1), STATUS, Claims.READY);
    hide After;
  }

  /** A child's truths are its title and status, and no others. */
  lemma {:induction false} TruthsOfChild(
    start: Db, epic: string, objective: string, titles: seq<string>, i: nat, k: nat, key: string)
    requires 1 <= k <= |titles| && i <= |titles|
    requires TruthOf(start, Child(epic, k), key) == None
    ensures PlanTruth(start, epic, objective, titles, i, Child(epic, k), key)
         == if k <= i && key == TITLE then Some(titles[k - 1])
            else if k <= i && key == STATUS then Some(Claims.READY) else None
  {
    hide Child, Normalize.Canonical;
    assert |TITLE| != |STATUS|;
    ChildrenAreDistinct(epic, k, k);
    if i > 0 {
      TruthsOfChild(start, epic, objective, titles, i - 1, k, key);
      ChildrenAreDistinct(epic, i, k);
    }
  }

  /** Nothing but the children gets truths after the objective. */
  lemma {:induction false} TruthsOfOthers(
    start: Db, epic: string, objective: string, titles: seq<string>, i: nat, n: string, key: string)
    requires i <= |titles| && n !in Children(epic, |titles|)
    ensures PlanTruth(start, epic, objective, titles, i, n, key)
         == if n == Normalize.Canonical(epic) && key == OBJECTIVE then Some(objective) else TruthOf(start, n, key)
  {
    hide Child, Normalize.Canonical;
    if i > 0 {
      TruthsOfOthers(start, epic, objective, titles, i - 1, n, key);
      assert Child(epic, i) in Children(epic, |titles|);
    }
  }

  // ---- the outcome ----------------------------------------------------------

  /** The texts of a plan: the epic's scope and objective, each child's plan,
      title and status, no further truth, and nothing new elsewhere. */
  ghost predicate HasPlanTexts(before: Db, after: Db, epic: string, objective: string, titles: seq<string>) {
    var e := Normalize.Canonical(epic);
    && Trail(after, e) == ["scope: " + objective]
    && (forall key :: TruthOf(after, e, key) == if key == "objective" then Some(objective) else None)
    && (forall k :: 1 <= k <= |titles| ==> Trail(after, Child(epic, k)) == ["plan: " + titles[k - 1]])
    && (forall k, key :: 1 <= k <= |titles| ==>
          TruthOf(after, Child(epic, k), key)
          == if key == "title" then Some(titles[k - 1])
             else if key == "status" then Some("READY_TO_DISPATCH") else None)
    && (forall n :: n != e && n !in Children(epic, |titles|) ==>
        SameTruths(after, before, n) && Trail(after, n) == Trail(before, n))
  }

  /** The outcome of planning tasks under an epic. */
  ghost predicate IsPlanned(before: Db, after: Db, epic: string, objective: string, titles: seq<string>) {
    var e := Normalize.Canonical(epic);
    var children := Children(epic, |titles|);
    && AreFresh(before, {e} + children)
    && Grown(before, after.(relations := before.relations), {e} + children)
    && HasPlanTexts(before, after, epic, objective, titles)
    && after.relations == before.relations + set c | c in children :: Relation(c, e, "part_of")
  }

  ghost predicate AreFresh(db: Db, names: set<string>) {
    forall n :: n in names ==> n !in db.entities
  }

  /** Expanding `part_of` on a planned epic shows exactly the epic and its ready
      children, whatever the order of the relation rows. */
  lemma ExpandingPlan(
    before: Db, after: Db, epic: string, objective: string, titles: seq<string>, rows: seq<Relation>)
    requires IsSound(before) && IsPlanned(before, after, epic, objective, titles)
    requires ListsTouching(after, Some([epic]), rows)
    ensures var e := Normalize.Canonical(epic);
            var shown := Shown(after, Some([epic]), Selection(after, Some([epic]), rows, [PART_OF]));
            && Members(shown) == {e} + Children(epic, |titles|)
            && forall c :: c in shown && c != e ==>
                after.entities[c].kind == TASK && StatusOf(after, c) == Some(Claims.READY)
  {
    hide Normalize.Canonical, Children, Child, Selection, Listed, ListsTouching, HasPlanTexts, AreFresh,
        Neighbours, IsSound;
    var e, children := Normalize.Canonical(epic), Children(epic, |titles|);
    ChildrenAreReady(before, after, epic, objective, titles);
    EpicIsFresh(before, e, children);
    SelectionShowsNeighbours(after, [epic], rows, [PART_OF]);
    assert Normalize.CanonicalAll([epic]) == [e];
    NeighboursOfPlan(before, after, e, children);
    ShownOfPlan(before, after, e, children,
        Shown(after, Some([epic]), Selection(after, Some([epic]), rows, [PART_OF])));
  }

  lemma EpicIsFresh(db: Db, e: string, children: set<string>)
    requires AreFresh(db, {e} + children) && IsSound(db)
    ensures e !in db.entities && RefersToLive(db)
  {
  }

  lemma ShownOfPlan(before: Db, after: Db, e: string, children: set<string>, shown: seq<string>)
    requires Grown(before, after.(relations := before.relations), {e} + children)
    requires forall n ::
               n in shown <==> n in after.entities && (n in [e] || n in if children == {} then {} else {e} + children)
    ensures Members(shown) == {e} + children
    ensures forall n :: n in shown ==> n in after.entities && after.entities[n].kind == TASK
  {
    forall n ensures (n in shown <==> n == e || n in children) && (n in shown ==> after.entities[n].kind == TASK) {
      assert GrownAt(before, after.(relations := before.relations), {e} + children, n);
    }
  }

  lemma ChildrenAreReady(before: Db, after: Db, epic: string, objective: string, titles: seq<string>)
    requires HasPlanTexts(before, after, epic, objective, titles)
    ensures forall c :: c in Children(epic, |titles|) ==> StatusOf(after, c) == Some(Claims.READY)
  {
    hide Normalize.Canonical, Child;
    assert |TITLE| != |STATUS|;
  }

  lemma NeighboursOfPlan(before: Db, after: Db, e: string, children: set<string>)
    requires RefersToLive(before) && e !in before.entities
    requires after.relations == before.relations + set c | c in children :: Relation(c, e, PART_OF)
    ensures Neighbours(after, [e], [PART_OF]) == if children == {} then {} else {e} + children
  {
    assert forall r :: r in Touching(after, [e]) <==> r.from in children && r == Relation(r.from, e, PART_OF);
    forall c | c in children ensures Relation(c, e, PART_OF) in Touching(after, [e]) {}
    assert PART_OF in [PART_OF];
  }

  // ---- planning -------------------------------------------------------------

  function PlanNames(epic: string, n: nat): seq<string> {
    [epic] + ChildNames(epic, n)
  }

  predicate CanPlan(db: Db, epic: string, objective: string, titles: seq<string>) {
    && !IsBlank(epic) && !IsBlank(objective) && (forall t :: t in titles ==> !IsBlank(t))
    && forall n :: n in Normalize.CanonicalAll(PlanNames(epic, |titles|)) ==> n !in db.entities
  }

  function Scope(objective: string): string { "scope: " + objective }

  function PlanNote(title: string): string { "plan: " + title }

  function EpicInput(epic: string, objective: string): EntityInput {
    EntityInput(epic, TASK, [Scope(objective)])
  }

  function ChildInputs(epic: string, titles: seq<string>): seq<EntityInput> {
    seq(|titles|, i requires 0 <= i < |titles| => EntityInput(ChildName(epic, i + 1), TASK, [PlanNote(titles[i])]))
  }

  function ChildRelations(epic: string, n: nat): seq<Relation> {
    seq(n, i requires 0 <= i < n => Relation(ChildName(epic, i + 1), epic, PART_OF))
  }

  lemma PlanNamesAre(epic: string, n: nat)
    ensures forall m ::
              m in Normalize.CanonicalAll(PlanNames(epic, n)) <==> m in {Normalize.Canonical(epic)} + Children(epic, n)
  {
    hide Normalize.Canonical, ChildName;
    var all := Normalize.CanonicalAll(PlanNames(epic, n));
    assert all[0] == Normalize.Canonical(epic);
    forall i | 1 <= i <= n ensures all[i] == Child(epic, i) {
      assert PlanNames(epic, n)[i] == ChildName(epic, i);
    }
  }

  lemma ChildInputsAre(epic: string, titles: seq<string>)
    ensures forall m :: Creates(ChildInputs(epic, titles), m) <==> m in Children(epic, |titles|)
    ensures forall i :: i in ChildInputs(epic, titles) ==> i.kind == TASK
  {
    hide Normalize.Canonical, ChildName;
    var inputs := ChildInputs(epic, titles);
    assert forall j :: 0 <= j < |titles| ==> Normalize.Canonical(inputs[j].name) == Child(epic, j + 1);
    forall k | 1 <= k <= |titles| ensures Creates(inputs, Child(epic, k)) {
      assert inputs[k - 1] in inputs;
    }
  }

  lemma EpicInputIs(epic: string, objective: string)
    ensures forall m :: Creates([EpicInput(epic, objective)], m) <==> m == Normalize.Canonical(epic)
    ensures forall i :: i in [EpicInput(epic, objective)] ==> i.kind == TASK
  {
    hide Normalize.Canonical;
    assert EpicInput(epic, objective) in [EpicInput(epic, objective)];
  }

  lemma ChildRelationsAre(epic: string, n: nat)
    ensures NamedAll(ChildRelations(epic, n)) == set c | c in Children(epic, n) ::
        Relation(c, Normalize.Canonical(epic), PART_OF)
  {
    hide Normalize.Canonical, ChildName;
    var all := ChildRelations(epic, n);
    assert forall j :: 0 <= j < n ==>
        Named(all[j]) == Relation(Child(epic, j + 1), Normalize.Canonical(epic), PART_OF);
    forall k | 1 <= k <= n ensures Relation(Child(epic, k), Normalize.Canonical(epic), PART_OF) in NamedAll(all) {
      assert all[k - 1] in all && Named(all[k - 1]) == Relation(Child(epic, k), Normalize.Canonical(epic), PART_OF);
    }
  }

  /** Plan an epic: the epic and its children as tasks, their truths, and the
      relations, each request in its own transaction, with no other process in
      between. It goes ahead exactly when the texts are not blank and no name is
      taken. */
  method Plan(
    store: SqliteStore, epic: string, objective: string, titles: seq<string>, now: int) returns (planned: bool)
    requires store.db.Valid()
    modifies store, store.db
    ensures store.db.Valid()
    ensures planned == CanPlan(old(store.db.State()), epic, objective, titles)
    ensures !planned ==> store.db.State() == old(store.db.State())
    ensures planned ==> IsPlanned(old(store.Start(now)), store.db.State(), epic, objective, titles)
  {
    if IsBlank(epic) || IsBlank(objective) || exists t :: t in titles && IsBlank(t) {
      return false;
    }
    var names := PlanNames(epic, |titles|);
    var existing := ReadGraph(store.db.State(), Some(names), [], true, 0, []);
    NoneShown(store.db.State(), names, existing);
    if existing.nodes != [] {
      return false;
    }
    PlanStaysPossible(store, epic, titles, now);
    WritePlan(store, epic, objective, titles, now);
    planned := true;
  }

  lemma NoneShown(db: Db, names: seq<string>, g: Graph)
    requires var shown := Shown(db, Some(names), Selection(db, Some(names), [], []));
             g.nodes == NodesOf(db, shown, true, 0)
    ensures g.nodes == [] <==> forall n :: n in Normalize.CanonicalAll(names) ==> n !in db.entities
  {
    hide Normalize.Canonical, NodeOf;
    var shown := Shown(db, Some(names), Selection(db, Some(names), [], []));
    assert Selection(db, Some(names), [], []) == Normalize.CanonicalAll(names);
    if shown != [] { assert shown[0] in shown; }
  }

  lemma PlanStaysPossible(store: SqliteStore, epic: string, titles: seq<string>, now: int)
    requires forall n :: n in Normalize.CanonicalAll(PlanNames(epic, |titles|)) ==> n !in store.db.State().entities
    ensures AreFresh(store.Start(now), {Normalize.Canonical(epic)} + Children(epic, |titles|))
  {
    hide Normalize.Canonical, Normalize.CanonicalAll, Children, PlanNames, Swept;
    PlanNamesAre(epic, |titles|);
    forall n | n in {Normalize.Canonical(epic)} + Children(epic, |titles|) ensures n !in store.Start(now).entities {
      SweepOnlyRemoves(store.db.State(), now, store.abandonDays, store.retentionDays, n);
    }
  }

  lemma NothingGrown(db: Db)
    ensures Grown(db, db, {})
  {
  }

  lemma EpicIsNoChild(epic: string, n: nat)
    ensures Normalize.Canonical(epic) !in Children(epic, n)
  {
    hide Child, Normalize.Canonical;
    forall k | 1 <= k <= n ensures Child(epic, k) != Normalize.Canonical(epic) { ChildrenAreDistinct(epic, k, k); }
  }

  /** The trails of a plan. */
  ghost predicate HasPlanTrails(before: Db, after: Db, epic: string, objective: string, titles: seq<string>) {
    && Trail(after, Normalize.Canonical(epic)) == [Scope(objective)]
    && (forall k :: 1 <= k <= |titles| ==> Trail(after, Child(epic, k)) == [PlanNote(titles[k - 1])])
    && (forall n :: n != Normalize.Canonical(epic) && n !in Children(epic, |titles|) ==>
        Trail(after, n) == Trail(before, n))
  }

  lemma EpicTrail(start: Db, one: Db, epic: string, objective: string)
    requires IsCreation(start, one, [EpicInput(epic, objective)]) && Normalize.Canonical(epic) !in start.entities
    ensures Normalize.Canonical(epic) in one.entities && Trail(one, Normalize.Canonical(epic)) == [Scope(objective)]
    ensures forall n :: n != Normalize.Canonical(epic) ==> Trail(one, n) == Trail(start, n)
  {
    hide Normalize.Canonical, Trail, Scope, Creates;
    var e, inputs := Normalize.Canonical(epic), [EpicInput(epic, objective)];
    EpicInputIs(epic, objective);
    FirstInputIsInput(inputs, e);
    assert IsCreationOf(start, one, inputs, e);
    forall n | n != e ensures Trail(one, n) == Trail(start, n) {
      assert IsCreationOf(start, one, inputs, n);
    }
  }

  /** The first input for a child is its own. */
  lemma FirstInputOfChild(epic: string, titles: seq<string>, k: nat)
    requires 1 <= k <= |titles|
    ensures var inputs := ChildInputs(epic, titles);
            && Creates(inputs, Child(epic, k))
            && FirstInput(inputs, Child(epic, k)).observations == [PlanNote(titles[k - 1])]
  {
    hide Normalize.Canonical, ChildName, PlanNote, Children;
    var inputs := ChildInputs(epic, titles);
    assert inputs[k - 1] in inputs;
    FirstInputIsInput(inputs, Child(epic, k));
    var j :| 0 <= j < |inputs| && inputs[j] == FirstInput(inputs, Child(epic, k));
    ChildrenAreDistinct(epic, j + 1, k);
  }

  lemma PlanTrails(start: Db, one: Db, two: Db, epic: string, objective: string, titles: seq<string>)
    requires IsCreation(start, one, [EpicInput(epic, objective)]) && IsCreation(one, two, ChildInputs(epic, titles))
    requires AreFresh(start, {Normalize.Canonical(epic)} + Children(epic, |titles|))
    requires AreFresh(one, Children(epic, |titles|))
    ensures HasPlanTrails(start, two, epic, objective, titles)
  {
    EpicTrail(start, one, epic, objective);
    ChildInputsAre(epic, titles);
    EpicIsNoChild(epic, |titles|);
    hide Normalize.Canonical, Trail, Scope, PlanNote, Creates, Child, ChildInputs, EpicInput;
    forall k | 1 <= k <= |titles| ensures Trail(two, Child(epic, k)) == [PlanNote(titles[k - 1])] {
      FirstInputOfChild(epic, titles, k);
      assert Child(epic, k) in Children(epic, |titles|);
      assert IsCreationOf(one, two, ChildInputs(epic, titles), Child(epic, k));
    }
    forall n | n !in Children(epic, |titles|) ensures Trail(two, n) == Trail(one, n) {
      assert IsCreationOf(one, two, ChildInputs(epic, titles), n);
    }
  }

  method WritePlan(store: SqliteStore, epic: string, objective: string, titles: seq<string>, now: int)
    requires store.db.Valid()
    requires AreFresh(store.Start(now), {Normalize.Canonical(epic)} + Children(epic, |titles|))
    modifies store, store.db
    ensures store.db.Valid()
    ensures IsPlanned(old(store.Start(now)), store.db.State(), epic, objective, titles)
  {
    hide Normalize.Canonical, Children, Child, Swept, EpicInput, ChildInputs, After, IsSound, Creates, Named,
        IsCreationOf,
      ObservationIndex, TruthIndex, HasPlanTrails, TruthsAre, Grown, AreFresh, IsPlanned;
    ghost var start := store.Start(now);
    store.StartIsSound(now);
    ghost var e, children := Normalize.Canonical(epic), Children(epic, |titles|);
    store.CreateEntities([EpicInput(epic, objective)], now);
    ghost var one := store.db.State();
    EpicGrows(start, one, epic, objective, children);
    store.CreateEntities(ChildInputs(epic, titles), now);
    ChildrenGrow(start, one, store.db.State(), epic, titles);
    PlanTrails(start, one, store.db.State(), epic, objective, titles);
    ghost var two := store.db.State();
    WriteTruths(store, epic, objective, titles, now, start);
    TrailsStay(start, two, store.db.State(), epic, objective, titles);
    ChildRelationsAre(epic, |titles|);
    PlanCompletes(start, store.db.State(), epic, objective, titles);
    var ok := store.CreateRelations(ChildRelations(epic, |titles|), now);
  }

  lemma EpicGrows(start: Db, one: Db, epic: string, objective: string, children: set<string>)
    requires IsCreation(start, one, [EpicInput(epic, objective)])
    requires AreFresh(start, {Normalize.Canonical(epic)} + children)
    ensures Grown(start, one, {Normalize.Canonical(epic)}) && one.truths == start.truths
  {
    hide Normalize.Canonical, EpicInput, Creates, IsCreationOf;
    EpicInputIs(epic, objective);
    NothingGrown(start);
    CreationGrows(start, start, one, {}, [EpicInput(epic, objective)], {Normalize.Canonical(epic)});
    assert {} + {Normalize.Canonical(epic)} == {Normalize.Canonical(epic)};
  }

  lemma ChildrenGrow(start: Db, one: Db, two: Db, epic: string, titles: seq<string>)
    requires Grown(start, one, {Normalize.Canonical(epic)}) && one.truths == start.truths
    requires IsCreation(one, two, ChildInputs(epic, titles))
    requires AreFresh(start, {Normalize.Canonical(epic)} + Children(epic, |titles|))
    ensures Grown(start, two, {Normalize.Canonical(epic)} + Children(epic, |titles|)) && two.truths == start.truths
    ensures AreFresh(one, Children(epic, |titles|))
  {
    hide Normalize.Canonical, ChildInputs, Creates, IsCreationOf, Children, Grown;
    var e, children := Normalize.Canonical(epic), Children(epic, |titles|);
    ChildInputsAre(epic, titles);
    EpicIsNoChild(epic, |titles|);
    FreshChildren(start, one, e, children);
    CreationGrows(start, one, two, {e}, ChildInputs(epic, titles), children);
  }

  lemma TrailsStay(start: Db, two: Db, db: Db, epic: string, objective: string, titles: seq<string>)
    requires HasPlanTrails(start, two, epic, objective, titles) && db.observations == two.observations
    ensures HasPlanTrails(start, db, epic, objective, titles)
  {
    hide Normalize.Canonical, Child, Scope, PlanNote;
    assert forall n :: Trail(db, n) == Trail(two, n);
  }

  lemma FreshChildren(start: Db, one: Db, e: string, children: set<string>)
    requires Grown(start, one, {e}) && AreFresh(start, {e} + children) && e !in children
    ensures AreFresh(one, children)
  {
    forall c | c in children ensures c !in one.entities {
      assert GrownAt(start, one, {e}, c);
    }
  }

  lemma TextsAreComplete(start: Db, db: Db, epic: string, objective: string, titles: seq<string>)
    requires IsSound(start) && AreFresh(start, {Normalize.Canonical(epic)} + Children(epic, |titles|))
    requires HasPlanTrails(start, db, epic, objective, titles)
        && TruthsAre(start, db, epic, objective, titles, |titles|)
    ensures HasPlanTexts(start, db, epic, objective, titles)
  {
    hide Normalize.Canonical, Child, Trail;
    var e, n := Normalize.Canonical(epic), |titles|;
    assert forall m, key :: m in {e} + Children(epic, n) ==> TruthOf(start, m, key) == None;
    EpicIsNoChild(epic, n);
    forall m, key | m !in Children(epic, n)
      ensures TruthOf(db, m, key) == if m == e && key == OBJECTIVE then Some(objective) else TruthOf(start, m, key)
    {
      TruthsOfOthers(start, epic, objective, titles, n, m, key);
    }
    forall k, key | 1 <= k <= n
      ensures TruthOf(db, Child(epic, k), key)
           == if key == TITLE then Some(titles[k - 1]) else if key == STATUS then Some(Claims.READY) else None
    {
      assert Child(epic, k) in Children(epic, n);
      TruthsOfChild(start, epic, objective, titles, n, k, key);
    }
  }

  lemma PlanCompletes(start: Db, mid: Db, epic: string, objective: string, titles: seq<string>)
    requires IsSound(start) && AreFresh(start, {Normalize.Canonical(epic)} + Children(epic, |titles|))
    requires Grown(start, mid, {Normalize.Canonical(epic)} + Children(epic, |titles|))
    requires HasPlanTrails(start, mid, epic, objective, titles)
        && TruthsAre(start, mid, epic, objective, titles, |titles|)
    ensures var all := set c | c in Children(epic, |titles|) :: Relation(c, Normalize.Canonical(epic), PART_OF);
            EndsLive(mid, all) && IsPlanned(start, Related(mid, all), epic, objective, titles)
  {
    hide Normalize.Canonical, Children, HasPlanTrails, TruthsAre;
    var e, children := Normalize.Canonical(epic), Children(epic, |titles|);
    var all := set c | c in children :: Relation(c, e, PART_OF);
    TextsAreComplete(start, mid, epic, objective, titles);
    SameTexts(start, mid, Related(mid, all), epic, objective, titles);
    hide HasPlanTexts;
    var after := Related(mid, all).(relations := start.relations);
    forall m ensures GrownAt(start, mid, {e} + children, m) && GrownAt(start, after, {e} + children, m) {
      assert GrownAt(start, mid, {e} + children, m);
    }
    forall r | r in all ensures r.from in mid.entities && r.to in mid.entities {
      assert GrownAt(start, mid, {e} + children, r.from) && GrownAt(start, mid, {e} + children, r.to);
    }
  }

  lemma SameTexts(start: Db, mid: Db, after: Db, epic: string, objective: string, titles: seq<string>)
    requires HasPlanTexts(start, mid, epic, objective, titles)
    requires after.observations == mid.observations && after.truths == mid.truths
    ensures HasPlanTexts(start, after, epic, objective, titles)
  {
    hide Normalize.Canonical, Child, Scope, PlanNote, Children;
    assert forall n :: Trail(after, n) == Trail(mid, n);
    assert forall n, key :: TruthOf(after, n, key) == TruthOf(mid, n, key);
  }

  method WriteTruths(
    store: SqliteStore, epic: string, objective: string, titles: seq<string>, now: int, ghost start: Db)
    requires store.db.Valid() && store.retentionSwept && store.db.State().truths == start.truths
    requires Grown(start, store.db.State(), {Normalize.Canonical(epic)} + Children(epic, |titles|))
    modifies store, store.db
    ensures store.db.Valid() && store.retentionSwept
    ensures Grown(start, store.db.State(), {Normalize.Canonical(epic)} + Children(epic, |titles|))
    ensures store.db.State().observations == old(store.db.State().observations)
    ensures TruthsAre(start, store.db.State(), epic, objective, titles, |titles|)
  {
    hide Normalize.Canonical, Children, Child, ChildName, Swept, After, IsSound, ObservationIndex, TruthIndex,
        Grown, TruthsAre;
    ghost var e := Normalize.Canonical(epic);
    ghost var names := {e} + Children(epic, |titles|);
    UpsertGrows(start, store.db.State(), names, now, e, OBJECTIVE, objective);
    ObjectiveWritten(start, store.db.State(), now, epic, objective, titles);
    var ok := store.TruthUpsert(epic, OBJECTIVE, objective, now);
    for i := 0 to |titles|
      invariant store.db.Valid() && store.retentionSwept
      invariant Grown(start, store.db.State(), names)
      invariant store.db.State().observations == old(store.db.State().observations)
      invariant TruthsAre(start, store.db.State(), epic, objective, titles, i)
    {
      var name := ChildName(epic, i + 1);
      ghost var c := Child(epic, i + 1);
      OneMoreChild(epic, i, |titles|);
      UpsertGrows(start, store.db.State(), names, now, c, TITLE, titles[i]);
      ChildWritten(start, store.db.State(), now, epic, objective, titles, i);
      ok := store.TruthUpsert(name, TITLE, titles[i], now);
      UpsertGrows(start, store.db.State(), names, now, c, STATUS, Claims.READY);
      ok := store.TruthUpsert(name, STATUS, Claims.READY, now);
    }
  }

  lemma OneMoreChild(epic: string, i: nat, n: nat)
    requires i < n
    ensures Child(epic, i + 1) in Children(epic, n)
    ensures Normalize.Canonical(ChildName(epic, i + 1)) == Child(epic, i + 1)
  {
    hide Normalize.Canonical, ChildName;
  }
}
