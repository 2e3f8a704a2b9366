/** Reciprocal rank fusion: merging ranked lists of names into one. */
module Fusion {
  import opened Order
  import opened Sorting

  const CANDIDATE_POOL := 100

  /** What rank `rank`, counted from 0, is worth; the damping is 60. */
  function Weight(rank: nat): real {
    1.0 / (60.0 + rank as real + 1.0)
  }

  ghost predicate DuplicateFree(names: seq<string>) {
    forall i, j :: 0 <= i < j < |names| ==> names[i] != names[j]
  }

  /** What one path adds to the score of a name. */
  function Gain(path: seq<string>, name: string): real {
    if path == [] then 0.0
    else
      var last := |path| - 1;
      Gain(path[..last], name) + if path[last] == name then Weight(last) else 0.0
  }

  function Score(paths: seq<seq<string>>, name: string): real {
    if paths == [] then 0.0
    else Score(paths[..|paths| - 1], name) + Gain(paths[|paths| - 1], name)
  }

  function Union(paths: seq<seq<string>>): set<string> {
    if paths == [] then {} else Union(paths[..|paths| - 1]) + Members(paths[|paths| - 1])
  }

  function Scored(paths: seq<seq<string>>): map<string, real> {
    map n | n in Union(paths) :: Score(paths, n)
  }

  // ---- sorting by score, then name ------------------------------------------

  predicate Precedes(scored: map<string, real>, a: string, b: string)
    requires a in scored && b in scored
  {
    scored[a] > scored[b] || (scored[a] == scored[b] && Less(a, b))
  }

  lemma PrecedesIsTotalOrder(scored: map<string, real>, a: string, b: string, c: string)
    requires a in scored && b in scored && c in scored
    ensures !Precedes(scored, a, a)
    ensures a != b ==> Precedes(scored, a, b) || Precedes(scored, b, a)
    ensures Precedes(scored, a, b) ==> !Precedes(scored, b, a)
    ensures Precedes(scored, a, b) && Precedes(scored, b, c) ==> Precedes(scored, a, c)
  {
    hide Less;
    LessIsStrict(a, b);
    if a != b { LessTotal(a, b); }
    if Less(a, b) && Less(b, c) { LessTrans(a, b, c); }
  }

  function ByScore(scored: map<string, real>): (string, string) -> bool {
    (a, b) => a in scored && b in scored && Precedes(scored, a, b)
  }

  lemma ScoreOrders(scored: map<string, real>)
    ensures Orders(ByScore(scored), scored.Keys)
  {
    hide Precedes;
    forall a, b, c | a in scored && b in scored && c in scored
      ensures !Precedes(scored, a, a) && (a != b ==> Precedes(scored, a, b) || Precedes(scored, b, a))
      ensures Precedes(scored, a, b) && Precedes(scored, b, c) ==> Precedes(scored, a, c)
    {
      PrecedesIsTotalOrder(scored, a, b, c);
    }
  }

  ghost predicate SortedByScore(names: seq<string>, scored: map<string, real>) {
    && (forall i :: 0 <= i < |names| ==> names[i] in scored)
    && (forall i, j :: 0 <= i < j < |names| ==> Precedes(scored, names[i], names[j]))
  }

  /** Names by falling score, and by name where scores are equal. */
  function Ranked(scored: map<string, real>): (r: seq<string>)
    ensures forall n :: n in r <==> n in scored
    ensures |r| == |scored|
    ensures SortedByScore(r, scored)
  {
    ScoreOrders(scored);
    SortedBy(scored.Keys, ByScore(scored))
  }

  // ---- fusion ---------------------------------------------------------------

  function Fused(paths: seq<seq<string>>): seq<string> {
    Ranked(Scored(paths))
  }

  lemma GainSnoc(path: seq<string>, rank: nat)
    requires rank < |path|
    ensures Members(path[..rank + 1]) == Members(path[..rank]) + {path[rank]}
    ensures forall n ::
              Gain(path[..rank + 1], n) == Gain(path[..rank], n) + if path[rank] == n then Weight(rank) else 0.0
  {
    assert path[..rank + 1][..rank] == path[..rank];
    MembersSnoc(path, rank);
  }

  lemma ScoreSnoc(paths: seq<seq<string>>, p: nat)
    requires p < |paths|
    ensures Union(paths[..p + 1]) == Union(paths[..p]) + Members(paths[p])
    ensures forall n :: Score(paths[..p + 1], n) == Score(paths[..p], n) + Gain(paths[p], n)
  {
    assert paths[..p + 1][..p] == paths[..p];
  }

  lemma {:induction false} UnrankedScoresNothing(paths: seq<seq<string>>, n: string)
    requires n !in Union(paths)
    ensures Score(paths, n) == 0.0
  {
    if paths != [] {
      UnrankedScoresNothing(paths[..|paths| - 1], n);
      AbsentGainsNothing(paths[|paths| - 1], n);
    }
  }

  lemma {:induction false} AbsentGainsNothing(path: seq<string>, n: string)
    requires n !in path
    ensures Gain(path, n) == 0.0
  {
    if path != [] {
      assert path[..|path| - 1] <= path;
      AbsentGainsNothing(path[..|path| - 1], n);
    }
  }

  /** Merge ranked paths, adding up what each rank is worth. */
  method Fuse(paths: seq<seq<string>>) returns (fused: seq<string>)
    ensures fused == Fused(paths)
  {
    hide Ranked, Weight, Gain, Score, Union, Members;
    var scored: map<string, real> := map[];
    assert paths[..0] == [];
    NoGain();
    for p := 0 to |paths|
      invariant scored == Scored(paths[..p])
    {
      var path := paths[p];
      assert path[..0] == [];
      for rank := 0 to |path|
        invariant scored.Keys == Union(paths[..p]) + Members(path[..rank])
        invariant forall n :: n in scored ==> scored[n] == Score(paths[..p], n) + Gain(path[..rank], n)
      {
        var name := path[rank];
        GainSnoc(path, rank);
        if name !in scored { NewNameHasNoScore(paths[..p], path[..rank], name); }
        scored := scored[name := (if name in scored then scored[name] else 0.0) + Weight(rank)];
      }
      assert path[..|path|] == path;
      ScoreSnoc(paths, p);
    }
    assert paths[..|paths|] == paths;
    fused := Ranked(scored);
  }

  lemma NoGain()
    ensures Members([]) == {} && forall n :: Gain([], n) == 0.0
    ensures Scored([]) == map[]
  {
  }

  lemma NewNameHasNoScore(paths: seq<seq<string>>, path: seq<string>, n: string)
    requires n !in Union(paths) + Members(path)
    ensures Score(paths, n) == 0.0 && Gain(path, n) == 0.0
  {
    UnrankedScoresNothing(paths, n);
    AbsentGainsNothing(path, n);
  }

  // ---- what the fused order means -------------------------------------------

  /** `a` stands before `b`. */
  ghost predicate Before(names: seq<string>, a: string, b: string) {
    exists i, j :: 0 <= i < j < |names| && names[i] == a && names[j] == b
  }

  /** The fused list is a duplicate-free permutation of the union of the paths,
      and orders any two names by score, then name. */
  lemma FusedOrdersUnion(paths: seq<seq<string>>)
    ensures DuplicateFree(Fused(paths)) && Members(Fused(paths)) == Union(paths)
    ensures forall a, b :: a in Union(paths) && b in Union(paths) ==>
              (Before(Fused(paths), a, b)
               <==> Score(paths, a) > Score(paths, b) || (Score(paths, a) == Score(paths, b) && Less(a, b)))
  {
    var scored, fused := Scored(paths), Fused(paths);
    hide Ranked, Score, Union, Less;
    assert SortedByScore(fused, scored) && forall n :: n in fused <==> n in scored;
    forall i, j | 0 <= i < j < |fused| ensures fused[i] != fused[j] {
      PrecedesIsTotalOrder(scored, fused[i], fused[j], fused[i]);
    }
    forall a, b | a in scored && b in scored ensures Before(fused, a, b) <==> Precedes(scored, a, b) {
      SortedPositions(fused, scored, a, b);
    }
  }

  lemma SortedPositions(fused: seq<string>, scored: map<string, real>, a: string, b: string)
    requires SortedByScore(fused, scored) && a in fused && b in fused && a in scored && b in scored
    ensures Before(fused, a, b) <==> Precedes(scored, a, b)
  {
    hide Precedes;
    var i :| 0 <= i < |fused| && fused[i] == a;
    var j :| 0 <= j < |fused| && fused[j] == b;
    PrecedesIsTotalOrder(scored, a, b, a);
  }

  /** `r` is the rank of `n` in a path. */
  predicate RankedAt(path: seq<string>, n: string, r: nat) {
    r < |path| && path[r] == n
  }

  lemma RankIn(path: seq<string>, n: string) returns (r: nat)
    requires n in path
    ensures RankedAt(path, n, r)
  {
    r :| r < |path| && path[r] == n;
  }

  lemma {:induction false} GainIsWeight(path: seq<string>, n: string, r: nat)
    requires DuplicateFree(path) && RankedAt(path, n, r)
    ensures Gain(path, n) == Weight(r)
  {
    hide Weight;
    var before := path[..|path| - 1];
    if r < |before| {
      GainIsWeight(before, n, r);
    } else {
      AbsentGainsNothing(before, n);
    }
  }

  lemma WeightFalls(r: nat, s: nat)
    ensures Weight(r) > 0.0
    ensures r < s ==> Weight(r) > Weight(s)
  {
  }

  /** `a` is found on the path wherever `b` is, and no later. */
  ghost predicate NoWorse(path: seq<string>, a: string, b: string) {
    forall s :: RankedAt(path, b, s) ==> exists r :: r <= s && RankedAt(path, a, r)
  }

  lemma NoWorseGainsNoLess(path: seq<string>, a: string, b: string)
    requires DuplicateFree(path) && NoWorse(path, a, b)
    ensures Gain(path, a) >= Gain(path, b)
    ensures a != b && a in path ==> Gain(path, a) > Gain(path, b)
  {
    hide Weight, Gain;
    if b in path {
      var s := RankIn(path, b);
      var r :| r <= s && RankedAt(path, a, r);
      GainIsWeight(path, a, r);
      GainIsWeight(path, b, s);
      WeightFalls(r, s);
    } else {
      AbsentGainsNothing(path, b);
      if a in path {
        var r := RankIn(path, a);
        GainIsWeight(path, a, r);
        WeightFalls(r, r);
      } else {
        AbsentGainsNothing(path, a);
      }
    }
  }

  lemma {:induction false} NoWorseScoresNoLess(paths: seq<seq<string>>, a: string, b: string)
    requires forall p :: 0 <= p < |paths| ==> DuplicateFree(paths[p]) && NoWorse(paths[p], a, b)
    ensures Score(paths, a) >= Score(paths, b)
    ensures a != b && a in Union(paths) ==> Score(paths, a) > Score(paths, b)
  {
    hide Gain, NoWorse;
    if paths != [] {
      NoWorseScoresNoLess(paths[..|paths| - 1], a, b);
      NoWorseGainsNoLess(paths[|paths| - 1], a, b);
    }
  }

  /** A name that is found on every path where another is, and never later,
      comes first. Being a different name it is then better somewhere. */
  lemma DominatorComesFirst(paths: seq<seq<string>>, a: string, b: string)
    requires forall p :: 0 <= p < |paths| ==> DuplicateFree(paths[p]) && NoWorse(paths[p], a, b)
    requires a != b && a in Union(paths) && b in Union(paths)
    ensures Before(Fused(paths), a, b)
  {
    NoWorseScoresNoLess(paths, a, b);
    FusedOrdersUnion(paths);
  }

  // ---- agreement of several paths -------------------------------------------

  lemma {:induction false} GainIsNotNegative(path: seq<string>, n: string)
    ensures Gain(path, n) >= 0.0
  {
    if path != [] { GainIsNotNegative(path[..|path| - 1], n); }
  }

  lemma {:induction false} ScoreIsNotNegative(paths: seq<seq<string>>, n: string)
    ensures Score(paths, n) >= 0.0
  {
    if paths != [] {
      ScoreIsNotNegative(paths[..|paths| - 1], n);
      GainIsNotNegative(paths[|paths| - 1], n);
    }
  }

  /** A score is what one path adds plus the score from the others. */
  lemma {:induction false} ScoreWithout(paths: seq<seq<string>>, p: nat, n: string)
    requires p < |paths|
    ensures Score(paths, n) == Gain(paths[p], n) + Score(paths[p := []], n)
    ensures Union(paths) == Members(paths[p]) + Union(paths[p := []])
  {
    NoGain();
    hide Gain;
    var before, last := paths[..|paths| - 1], paths[|paths| - 1];
    if p == |before| {
      assert paths[p := []][..|before|] == before;
    } else {
      ScoreWithout(before, p, n);
      assert paths[p := []][..|before|] == before[p := []];
    }
  }

  /** Path `p` finds `n` at rank `r`. */
  ghost predicate Finds(paths: seq<seq<string>>, p: nat, n: string, r: nat) {
    p < |paths| && DuplicateFree(paths[p]) && RankedAt(paths[p], n, r)
  }

  /** Only path `p` finds `n`, at rank `r`. */
  ghost predicate OnlyFinds(paths: seq<seq<string>>, p: nat, n: string, r: nat) {
    Finds(paths, p, n, r) && n !in Union(paths[p := []])
  }

  lemma ScoreOfOne(paths: seq<seq<string>>, p: nat, n: string, r: nat)
    requires Finds(paths, p, n, r)
    ensures n in Union(paths)
    ensures Score(paths, n) == Weight(r) + Score(paths[p := []], n)
    ensures OnlyFinds(paths, p, n, r) ==> Score(paths, n) == Weight(r)
  {
    hide Gain, Score, Union, Weight;
    ScoreWithout(paths, p, n);
    GainIsWeight(paths[p], n, r);
    assert n in Members(paths[p]);
    if n !in Union(paths[p := []]) { UnrankedScoresNothing(paths[p := []], n); }
  }

  lemma ScoreOfTwo(paths: seq<seq<string>>, p: nat, u: nat, n: string, r: nat, s: nat)
    requires p != u && Finds(paths, p, n, r) && Finds(paths, u, n, s)
    ensures Score(paths, n) == Weight(r) + Weight(s) + Score(paths[p := []][u := []], n)
    ensures Score(paths, n) >= Weight(r) + Weight(s)
  {
    hide Gain, Score, Union, Weight;
    ScoreOfOne(paths, p, n, r);
    ScoreOfOne(paths[p := []], u, n, s);
    ScoreIsNotNegative(paths[p := []][u := []], n);
  }

  lemma ScoreOfThree(paths: seq<seq<string>>, n: string, r: nat, s: nat, t: nat)
    requires |paths| == 3 && Finds(paths, 0, n, r) && Finds(paths, 1, n, s) && Finds(paths, 2, n, t)
    ensures Score(paths, n) >= Weight(r) + Weight(s) + Weight(t)
  {
    hide Gain, Score, Union, Weight;
    ScoreOfTwo(paths, 0, 1, n, r, s);
    var rest := paths[0 := []][1 := []];
    ScoreOfOne(rest, 2, n, t);
    ScoreIsNotNegative(rest[2 := []], n);
  }

  lemma WeightBetween(r: nat, most: nat)
    requires r <= most
    ensures Weight(most) <= Weight(r) <= Weight(0)
  {
    if r < most { WeightFalls(r, most); }
    if 0 < r { WeightFalls(0, r); }
  }

  lemma BoundaryWeights()
    ensures Weight(61) + Weight(61) == Weight(0) && Weight(60) + Weight(60) > Weight(0)
    ensures Weight(122) + Weight(122) + Weight(122) == Weight(0)
        && Weight(121) + Weight(121) + Weight(121) > Weight(0)
  {
  }

  lemma HigherScoreComesFirst(paths: seq<seq<string>>, a: string, b: string)
    requires a in Union(paths) && b in Union(paths) && Score(paths, a) > Score(paths, b)
    ensures Before(Fused(paths), a, b)
  {
    FusedOrdersUnion(paths);
  }

  /** A name that all three paths find outranks every name that only one finds,
      as long as no path is longer than 122. */
  lemma ThreePathsOutrankOne(paths: seq<seq<string>>, a: string, r: nat, s: nat, t: nat, b: string, p: nat, q: nat)
    requires |paths| == 3 && forall k :: 0 <= k < 3 ==> |paths[k]| <= 122
    requires Finds(paths, 0, a, r) && Finds(paths, 1, a, s) && Finds(paths, 2, a, t)
    requires OnlyFinds(paths, p, b, q)
    ensures Before(Fused(paths), a, b)
  {
    assert r <= 121 && s <= 121 && t <= 121;
    hide Gain, Score, Union, Weight, Fused, Members, RankedAt, DuplicateFree;
    ScoreOfThree(paths, a, r, s, t);
    ScoreOfOne(paths, 0, a, r);
    ScoreOfOne(paths, p, b, q);
    WeightBetween(r, 121);
    WeightBetween(s, 121);
    WeightBetween(t, 121);
    WeightBetween(q, q);
    BoundaryWeights();
    HigherScoreComesFirst(paths, a, b);
  }

  /** A name that two paths find, at ranks up to 60, outranks every name that
      only one finds. */
  lemma TwoPathsOutrankOne(
    paths: seq<seq<string>>, a: string, p: nat, r: nat, u: nat, s: nat, b: string, v: nat, q: nat)
    requires p != u && Finds(paths, p, a, r) && Finds(paths, u, a, s) && r <= 60 && s <= 60
    requires OnlyFinds(paths, v, b, q)
    ensures Before(Fused(paths), a, b)
  {
    hide Gain, Score, Union, Weight, Fused, Members, RankedAt, DuplicateFree;
    ScoreOfTwo(paths, p, u, a, r, s);
    ScoreOfOne(paths, p, a, r);
    ScoreOfOne(paths, v, b, q);
    WeightBetween(r, 60);
    WeightBetween(s, 60);
    WeightBetween(q, q);
    BoundaryWeights();
    HigherScoreComesFirst(paths, a, b);
  }

  /** The bound is sharp: a name found at rank 61 by two paths only ties with
      one found first by the third, so that their names decide. */
  lemma RankSixtyIsSharp(paths: seq<seq<string>>, a: string, p: nat, u: nat, b: string, v: nat)
    requires p != u && Finds(paths, p, a, 61) && Finds(paths, u, a, 61) && a !in Union(paths[p := []][u := []])
    requires OnlyFinds(paths, v, b, 0)
    ensures Before(Fused(paths), a, b) <==> Less(a, b)
  {
    hide Gain, Score, Union, Weight, Fused, Members, RankedAt, DuplicateFree, Less;
    ScoreOfTwo(paths, p, u, a, 61, 61);
    UnrankedScoresNothing(paths[p := []][u := []], a);
    ScoreOfOne(paths, p, a, 61);
    ScoreOfOne(paths, v, b, 0);
    BoundaryWeights();
    FusedOrdersUnion(paths);
  }
}
