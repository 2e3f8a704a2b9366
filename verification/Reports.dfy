/** What a purge reports of its candidates. */
module Reports {
  import opened Order
  import opened Schema
  import opened Sweep
  import opened Outcomes

  datatype Candidate = Candidate(
    name: string, kind: string, status: string, lastActivity: int, observations: nat, relations: nat)

  function RelationsOf(db: Db, n: string): set<Relation> {
    set r | r in db.relations && (r.from == n || r.to == n)
  }

  function CandidateOf(db: Db, n: string): Candidate
    requires n in db.entities
  {
    Candidate(n, db.entities[n].kind, StatusOf(db, n).GetOr(""), db.entities[n].lastActivity,
              |RowsOf(db.observations, n)|, |RelationsOf(db, n)|)
  }

  function Report(db: Db, now: int, days: nat): (report: seq<Candidate>)
    ensures |report| == |PurgeCandidates(db, now, days)|
  {
    hide PurgeCandidates, PurgeOrder;
    CandidatesAreLive(db, now, days);
    var names := PurgeOrder(db, now, days);
    assert forall i :: 0 <= i < |names| ==> names[i] in Members(names);
    seq(|names|, i requires 0 <= i < |names| => CandidateOf(db, names[i]))
  }

  /** The entry is of an idle finished task and gives its status, its activity
      and the number of its observations and relations. */
  ghost predicate ReportsOn(db: Db, c: Candidate, now: int, days: nat) {
    && IsDueForDeletion(db, c.name, now, days)
    && HasTruth(db, c.name, "status", c.status)
    && c.kind == "task" && c.lastActivity == db.entities[c.name].lastActivity
    && c.observations == |Trail(db, c.name)|
    && c.relations == |set r | r in db.relations && (r.from == c.name || r.to == c.name)|
  }

  lemma ReportIsRight(db: Db, now: int, days: nat, i: nat)
    requires i < |Report(db, now, days)|
    ensures ReportsOn(db, Report(db, now, days)[i], now, days)
  {
    hide PurgeCandidates, PurgeOrder, RowsOf;
    var names := PurgeOrder(db, now, days);
    assert names[i] in Members(names);
    DueIsCandidate(db, now, days, names[i]);
    assert Report(db, now, days)[i] == CandidateOf(db, names[i]);
  }

  /** The number of rows of the named entities. */
  function RowCount(rows: seq<Observation>, names: seq<string>): nat {
    if names == [] then 0
    else RowCount(rows, names[..|names| - 1]) + |RowsOf(rows, names[|names| - 1])|
  }

  lemma {:induction false} RemovingOneMore(rows: seq<Observation>, names: set<string>, n: string)
    requires n !in names
    ensures |WithoutEntities(rows, names)| == |WithoutEntities(rows, names + {n})| + |RowsOf(rows, n)|
  {
    if rows != [] { RemovingOneMore(rows[..|rows| - 1], names, n); }
  }

  lemma {:induction false} RemovedRowsAreCounted(rows: seq<Observation>, names: seq<string>)
    requires forall i, j :: 0 <= i < j < |names| ==> names[i] != names[j]
    ensures |rows| == |WithoutEntities(rows, Members(names))| + RowCount(rows, names)
  {
    if names == [] {
      assert Members(names) == {};
      RemovesNothing(rows);
    } else {
      var before, n := names[..|names| - 1], names[|names| - 1];
      MembersSnoc(names, |before|);
      RemovedRowsAreCounted(rows, before);
      RemovingOneMore(rows, Members(before), n);
    }
  }

  function Reported(report: seq<Candidate>): nat {
    if report == [] then 0 else Reported(report[..|report| - 1]) + report[|report| - 1].observations
  }

  lemma {:induction false} ReportedIsRowCount(db: Db, names: seq<string>, report: seq<Candidate>)
    requires |report| == |names| && Members(names) <= db.entities.Keys
    requires forall i :: 0 <= i < |names| ==> names[i] in db.entities && report[i] == CandidateOf(db, names[i])
    ensures Reported(report) == RowCount(db.observations, names)
  {
    hide RowsOf;
    if names != [] {
      MembersSnoc(names, |names| - 1);
      ReportedIsRowCount(db, names[..|names| - 1], report[..|report| - 1]);
    }
  }

  /** The counts in a purge report add up to the observations the purge
      removes. */
  lemma ReportCountsRemovedRows(db: Db, now: int, days: nat)
    ensures |db.observations|
         == |Removed(db, PurgeCandidates(db, now, days)).observations| + Reported(Report(db, now, days))
  {
    hide PurgeCandidates, PurgeOrder, RowsOf, WithoutEntities, CandidateOf, Reported;
    CandidatesAreLive(db, now, days);
    var names := PurgeOrder(db, now, days);
    RemovedRowsAreCounted(db.observations, names);
    assert forall i :: 0 <= i < |names| ==> names[i] in Members(names);
    ReportedIsRowCount(db, names, Report(db, now, days));
  }

  /** A report lists finished tasks, each once, the longest idle first, ties by
      name. */
  lemma ReportIsOrdered(db: Db, now: int, days: nat, i: nat, j: nat)
    requires i < j < |Report(db, now, days)|
    ensures var report := Report(db, now, days);
            && (report[i].lastActivity < report[j].lastActivity
                || (report[i].lastActivity == report[j].lastActivity && Less(report[i].name, report[j].name)))
            && report[i].name in PurgeCandidates(db, now, days)
  {
    hide PurgeCandidates, PurgeOrder, RowsOf, RelationsOf, Less, StatusOf;
    var names := PurgeOrder(db, now, days);
    assert names[i] in Members(names) && ByActivity(db)(names[i], names[j]);
  }
}
