/** Keyword search: fusing the ranked paths, widening, filtering and cutting. */
module Search {
  import opened Decimals
  import opened Options
  import opened Order
  import opened Lists
  import opened Widening
  import opened Outcomes
  import opened Schema
  import opened Fusion
  import Normalize

  type Paths = seq<seq<string>>

  /** The complete ranked lists that the three paths give for a term. */
  type Hits = string -> Paths

  datatype Query = Query(query: string, limit: nat, filters: seq<(string, string)>)

  // ---- candidates -----------------------------------------------------------

  /** How many candidates a path contributes; negative is all of them. */
  function Pool(limit: int): int {
    if limit < 0 then -1 else if limit < CANDIDATE_POOL then CANDIDATE_POOL else limit
  }

  function Cut<T>(xs: seq<T>, n: int): seq<T> {
    if n < 0 || |xs| <= n then xs else xs[..n]
  }

  function CutAll(paths: Paths, n: int): (r: Paths)
    ensures |r| == |paths|
  {
    seq(|paths|, i requires 0 <= i < |paths| => Cut(paths[i], n))
  }

  function Matching(hits: Hits, term: string, limit: int): seq<string> {
    Fused(CutAll(hits(term), Pool(limit)))
  }

  method MatchingNames(hits: Hits, term: string, limit: int) returns (names: seq<string>)
    ensures names == Matching(hits, term, limit)
  {
    var pool := if limit < 0 then -1 else if limit < CANDIDATE_POOL then CANDIDATE_POOL else limit;
    names := Fuse(CutAll(hits(term), pool));
  }

  // ---- filters --------------------------------------------------------------

  predicate Satisfies(db: Db, n: string, filters: seq<(string, string)>) {
    forall f :: f in filters ==> TruthOf(db, n, f.0) == Some(f.1)
  }

  function Eligible(db: Db, filters: seq<(string, string)>): set<string> {
    set n | n in db.entities && Satisfies(db, n, filters)
  }

  function Retained(names: seq<string>, eligible: set<string>): seq<string> {
    Filtered(names, (n: string) => n in eligible)
  }

  // ---- the search -----------------------------------------------------------

  function Limit(q: Query): nat {
    if q.limit == 0 then 100 else q.limit
  }

  /** A filtered search fuses all candidates, as it filters afterwards. */
  function SearchLimit(q: Query): int {
    if q.filters == [] then Limit(q) else -1
  }

  /** What the term matches, or failing that the widened term. */
  function Matched(hits: Hits, q: Query): seq<string> {
    var term := Normalize.Trim(q.query);
    if term == "" then []
    else
      var exact := Matching(hits, term, SearchLimit(q));
      if exact == [] && Widened(term).Some? then Matching(hits, Widened(term).value, SearchLimit(q)) else exact
  }

  /** The result names; `order` is the order in which the hash set of the
      entities that satisfy the filters happens to be listed. */
  function Found(db: Db, hits: Hits, q: Query, order: seq<string>): seq<string> {
    var matched := Matched(hits, q);
    var all := if q.filters == [] then matched
               else if matched == [] then order
               else Retained(matched, Eligible(db, q.filters));
    Cut(all, Limit(q))
  }

  ghost predicate Enumerates(order: seq<string>, s: set<string>) {
    DuplicateFree(order) && Members(order) == s
  }

  /** The term itself matched nothing, and its widened form did. */
  predicate IsWidened(hits: Hits, q: Query) {
    var term := Normalize.Trim(q.query);
    && term != "" && Matching(hits, term, SearchLimit(q)) == []
    && Widened(term).Some? && Matching(hits, Widened(term).value, SearchLimit(q)) != []
  }

  // ---- what a search returns ------------------------------------------------

  /** The candidates of each path: all, or the first `n`. */
  function Best(paths: Paths, all: bool, n: nat): Paths {
    seq(|paths|, i requires 0 <= i < |paths| => if all || |paths[i]| <= n then paths[i] else paths[i][..n])
  }

  /** The fused candidates for one term: all of them with filters, else as many
      of each path as asked for, and at least 100. */
  function FusedFor(hits: Hits, q: Query, term: string): seq<string> {
    Fused(Best(hits(term), q.filters != [], if q.limit > 100 then q.limit else 100))
  }

  /** The term's matches; if there are none, those of the term with its words
      joined by OR, unless it is one word or uses the query syntax. */
  ghost predicate IsMatch(hits: Hits, q: Query, names: seq<string>, widened: bool) {
    var term := Normalize.Trim(q.query);
    if term == "" then names == [] && !widened
    else if FusedFor(hits, q, term) != [] then names == FusedFor(hits, q, term) && !widened
    else if |Words(term)| >= 2 && !HasSyntax(Words(term)) then
      exists w :: IsInterleaved(Words(w), Words(term)) && names == FusedFor(hits, q, w) && (widened <==> names != [])
    else names == [] && !widened
  }

  ghost predicate MeetsAll(db: Db, n: string, filters: seq<(string, string)>) {
    n in db.entities && forall f :: f in filters ==> HasTruth(db, n, f.0, f.1)
  }

  /** The matches, restricted to the entities that meet all filters, or all of
      those if nothing matched; the first ones up to the limit, 100 by default. */
  ghost predicate IsSearchOutcome(
    db: Db, hits: Hits, q: Query, order: seq<string>, names: seq<string>, widened: bool)
  {
    exists matched ::
      && IsMatch(hits, q, matched, widened)
      && var all := if q.filters == [] then matched
                    else if matched == [] then order
                    else Filtered(matched, (n: string) => MeetsAll(db, n, q.filters));
         var most := if q.limit == 0 then 100 else q.limit;
         names == if |all| <= most then all else all[..most]
  }

  lemma MatchingIsFused(hits: Hits, q: Query, term: string)
    ensures Matching(hits, term, SearchLimit(q)) == FusedFor(hits, q, term)
  {
    hide Fused;
    assert CutAll(hits(term), Pool(SearchLimit(q)))
        == Best(hits(term), q.filters != [], if q.limit > 100 then q.limit else 100);
  }

  lemma MatchedIsMatch(hits: Hits, q: Query)
    ensures IsMatch(hits, q, Matched(hits, q), IsWidened(hits, q))
  {
    hide Matching, FusedFor, Normalize.Trim, Words, Widened, HasSyntax, IsInterleaved;
    var term := Normalize.Trim(q.query);
    MatchingIsFused(hits, q, term);
    WideningIs(term);
    if Widened(term).Some? { MatchingIsFused(hits, q, Widened(term).value); }
  }

  lemma EligibleMeet(db: Db, filters: seq<(string, string)>)
    ensures forall n :: n in Eligible(db, filters) <==> MeetsAll(db, n, filters)
  {
  }

  lemma SearchOutcome(db: Db, hits: Hits, q: Query, order: seq<string>)
    ensures IsSearchOutcome(db, hits, q, order, Found(db, hits, q, order), IsWidened(hits, q))
  {
    MatchedIsMatch(hits, q);
    EligibleMeet(db, q.filters);
    hide Matched, IsMatch, Eligible, MeetsAll, IsWidened;
    FilteredSame(
      Matched(hits, q), (n: string) => n in Eligible(db, q.filters), (n: string) => MeetsAll(db, n, q.filters));
  }

  method SearchNames(db: Db, hits: Hits, q: Query, order: seq<string>) returns (names: seq<string>, widened: bool)
    requires Enumerates(order, Eligible(db, q.filters))
    ensures names == Found(db, hits, q, order)
    ensures widened <==> IsWidened(hits, q)
    ensures IsSearchOutcome(db, hits, q, order, names, widened)
  {
    SearchOutcome(db, hits, q, order);
    hide IsSearchOutcome, IsWidened, Found;
    names, widened := RunSearch(db, hits, q, order);
  }

  method RunSearch(db: Db, hits: Hits, q: Query, order: seq<string>) returns (names: seq<string>, widened: bool)
    ensures names == Found(db, hits, q, order)
    ensures widened <==> IsWidened(hits, q)
  {
    hide Matching, Normalize.Trim, Widened, Eligible;
    var term := Normalize.Trim(q.query);
    var limit := if q.limit == 0 then 100 else q.limit;
    names, widened := [], false;
    if term != "" {
      var searchLimit := if q.filters == [] then limit else -1;
      names := MatchingNames(hits, term, searchLimit);
      if names == [] {
        var w := Widened(term);
        if w.Some? {
          names := MatchingNames(hits, w.value, searchLimit);
          widened := names != [];
        }
      }
    }
    if q.filters != [] {
      if names == [] {
        names := order;
      } else {
        names := Retained(names, Eligible(db, q.filters));
      }
    }
    names := Cut(names, limit);
  }

  // ---- properties -----------------------------------------------------------

  lemma SamePoolSameMatches(hits: Hits, q: Query, m: nat, n: nat)
    requires 0 < m <= n && (q.filters == [] ==> n <= 100)
    ensures Matched(hits, q.(limit := m)) == Matched(hits, q.(limit := n))
  {
    hide Normalize.Trim, Widened, Fused, CutAll;
    assert Pool(SearchLimit(q.(limit := m))) == Pool(SearchLimit(q.(limit := n)));
  }

  /** A wider limit only appends, the narrower result being a prefix: without
      filters up to 100; with filters always, if the term or its widened form
      matches. The two searches may list their hash sets in different orders. */
  lemma WiderLimitAppends(db: Db, hits: Hits, q: Query, m: nat, n: nat, o: seq<string>, p: seq<string>)
    requires 0 < m <= n && if q.filters == [] then n <= 100 else Matched(hits, q) != []
    ensures Found(db, hits, q.(limit := m), o) <= Found(db, hits, q.(limit := n), p)
  {
    hide Matched, Eligible;
    SamePoolSameMatches(hits, q, m, n);
    if q.filters != [] { FiltersIgnoreLimit(hits, q, m); }
  }

  lemma FiltersIgnoreLimit(hits: Hits, q: Query, m: nat)
    requires q.filters != []
    ensures Matched(hits, q.(limit := m)) == Matched(hits, q)
  {
    hide Normalize.Trim, Widened, Matching;
  }

  lemma {:induction false} EnumeratesAll(order: seq<string>, s: set<string>)
    requires Enumerates(order, s)
    ensures |order| == |s|
  {
    if order == [] {
    } else {
      var last := |order| - 1;
      MembersSnoc(order, last);
      assert order[last] !in order[..last];
      EnumeratesAll(order[..last], Members(order[..last]));
    }
  }

  /** Any two of the eligible entities can come first, in either order. */
  lemma PairListed(s: set<string>, a: string, b: string)
    requires a in s && b in s && a != b
    ensures Enumerates([a, b] + Sorted(s - {a, b}), s)
  {
    hide Sorted, StrictlySorted, Less;
    var rest := Sorted(s - {a, b});
    SortedIsDuplicateFree(rest);
    var order := [a, b] + rest;
    forall i, j | 0 <= i < j < |order| ensures order[i] != order[j] {
      if j >= 2 { assert order[j] == rest[j - 2] && rest[j - 2] in rest; }
      if i >= 2 { assert order[i] == rest[i - 2]; }
    }
    assert forall x :: x in order <==> x == a || x == b || x in rest;
  }

  lemma FirstOfUnmatched(db: Db, hits: Hits, q: Query, m: nat, order: seq<string>)
    requires q.filters != [] && 0 < m && Matched(hits, q) == [] && order != []
    ensures var names := Found(db, hits, q.(limit := m), order); names != [] && names[0] == order[0]
  {
    hide Matched, Eligible;
    FiltersIgnoreLimit(hits, q, m);
  }

  /** Two filtered searches whose term matches nothing can list their results
      in different orders, and then the narrower is no prefix of the wider. */
  lemma UnmatchedSearchesDisagree(db: Db, hits: Hits, q: Query, m: nat, n: nat, a: string, b: string)
    returns (o: seq<string>, p: seq<string>)
    requires q.filters != [] && 0 < m <= n && Matched(hits, q) == []
    requires a in Eligible(db, q.filters) && b in Eligible(db, q.filters) && a != b
    ensures Enumerates(o, Eligible(db, q.filters)) && Enumerates(p, Eligible(db, q.filters))
    ensures !(Found(db, hits, q.(limit := m), o) <= Found(db, hits, q.(limit := n), p))
  {
    hide *;
    var s := Eligible(db, q.filters);
    o, p := [a, b] + Sorted(s - {a, b}), [b, a] + Sorted(s - {b, a});
    PairListed(s, a, b);
    PairListed(s, b, a);
    FirstOfUnmatched(db, hits, q, m, o);
    FirstOfUnmatched(db, hits, q, n, p);
  }

  /** Every pair of filtered searches with limits `m` and `n` agrees. */
  ghost predicate AlwaysAppends(db: Db, hits: Hits, q: Query, m: nat, n: nat) {
    forall o, p :: Enumerates(o, Eligible(db, q.filters)) && Enumerates(p, Eligible(db, q.filters)) ==>
      Found(db, hits, q.(limit := m), o) <= Found(db, hits, q.(limit := n), p)
  }

  /** With filters a wider limit is sure to only append exactly when the term or
      its widened form matches, or at most one entity satisfies the filters. */
  lemma FilteredSearchAppendsExactlyWhen(db: Db, hits: Hits, q: Query, m: nat, n: nat)
    requires q.filters != [] && 0 < m <= n
    ensures AlwaysAppends(db, hits, q, m, n) <==> Matched(hits, q) != [] || |Eligible(db, q.filters)| <= 1
  {
    hide Matched, Found;
    var s := Eligible(db, q.filters);
    hide Eligible;
    if Matched(hits, q) != [] {
      forall o, p ensures Found(db, hits, q.(limit := m), o) <= Found(db, hits, q.(limit := n), p) {
        WiderLimitAppends(db, hits, q, m, n, o, p);
      }
    } else if |s| <= 1 {
      forall o, p | Enumerates(o, s) && Enumerates(p, s)
        ensures Found(db, hits, q.(limit := m), o) <= Found(db, hits, q.(limit := n), p)
      {
        FewListedOneWay(s, o, p);
        SamePrefix(db, hits, q, m, n, o);
      }
    } else {
      var a :| a in s;
      assert |s - {a}| > 0;
      var b :| b in s - {a};
      var o, p := UnmatchedSearchesDisagree(db, hits, q, m, n, a, b);
    }
  }

  lemma FewListedOneWay(s: set<string>, o: seq<string>, p: seq<string>)
    requires |s| <= 1 && Enumerates(o, s) && Enumerates(p, s)
    ensures o == p
  {
    EnumeratesAll(o, s);
    EnumeratesAll(p, s);
    if |s| == 1 {
      assert o[0] in Members(o) && p[0] in Members(p);
      assert s - {o[0]} == {};
    }
  }

  lemma SamePrefix(db: Db, hits: Hits, q: Query, m: nat, n: nat, order: seq<string>)
    requires q.filters != [] && 0 < m <= n
    ensures Found(db, hits, q.(limit := m), order) <= Found(db, hits, q.(limit := n), order)
  {
    hide Matched, Eligible;
    FiltersIgnoreLimit(hits, q, m);
    FiltersIgnoreLimit(hits, q, n);
  }

  lemma {:induction false} RetainedIs(names: seq<string>, eligible: set<string>)
    requires DuplicateFree(names)
    ensures DuplicateFree(Retained(names, eligible))
    ensures Members(Retained(names, eligible)) == Members(names) * eligible
    ensures forall a, b :: a in eligible && b in eligible ==>
        (Before(Retained(names, eligible), a, b) <==> Before(names, a, b))
  {
    if names != [] {
      var before, last := names[..|names| - 1], names[|names| - 1];
      RetainedIs(before, eligible);
      assert names == before + [last];
      var kept := Retained(before, eligible);
      hide Retained;
      MembersOfAppend(before, last);
      MembersOfAppend(kept, last);
      assert last !in before;
      assert last !in Members(kept);
      forall a, b
        ensures Before(names, a, b) <==> Before(before, a, b) || (a in before && b == last)
        ensures Before(kept + [last], a, b) <==> Before(kept, a, b) || (a in kept && b == last)
      {
        BeforeAppend(before, last, a, b);
        BeforeAppend(kept, last, a, b);
      }
      assert kept + [] == kept;
      assert forall x :: x in kept <==> x in Members(kept);
    }
  }

  lemma MembersOfAppend(names: seq<string>, last: string)
    ensures Members(names + [last]) == Members(names) + {last}
  {
  }

  lemma BeforeAppend(names: seq<string>, last: string, a: string, b: string)
    ensures Before(names + [last], a, b) <==> Before(names, a, b) || (a in names && b == last)
  {
    var all := names + [last];
    if i, j :| 0 <= i < j < |names| && names[i] == a && names[j] == b {
      assert all[i] == a && all[j] == b;
    }
    if i :| 0 <= i < |names| && names[i] == a {
      assert all[i] == a && all[|names|] == last;
    }
  }

  /** `some` is `all` restricted to a set, in the same order. */
  ghost predicate IsRestriction(some: seq<string>, all: seq<string>, to: set<string>) {
    && DuplicateFree(some) && Members(some) == Members(all) * to
    && forall a, b :: a in to && b in to ==> (Before(some, a, b) <==> Before(all, a, b))
  }

  /** When the term matched, a filtered search returns exactly the fused ranking
      of all candidates restricted to the filters, cut at the limit. */
  lemma MatchedSearchIntersects(db: Db, hits: Hits, q: Query, order: seq<string>)
    requires q.filters != [] && Matched(hits, q) != []
    ensures exists kept ::
              && IsRestriction(kept, Matched(hits, q), Eligible(db, q.filters))
              && Found(db, hits, q, order) == Cut(kept, Limit(q))
  {
    MatchedIsDuplicateFree(hits, q);
    hide Matched, Satisfies;
    RetainedIs(Matched(hits, q), Eligible(db, q.filters));
    assert IsRestriction(Retained(Matched(hits, q), Eligible(db, q.filters)), Matched(hits, q),
        Eligible(db, q.filters));
  }

  lemma MatchedIsDuplicateFree(hits: Hits, q: Query)
    ensures DuplicateFree(Matched(hits, q))
  {
    hide Fused, Widened, Normalize.Trim;
    var term := Normalize.Trim(q.query);
    FusedOrdersUnion(CutAll(hits(term), Pool(SearchLimit(q))));
    if Widened(term).Some? {
      FusedOrdersUnion(CutAll(hits(Widened(term).value), Pool(SearchLimit(q))));
    }
  }

  /** Every result of a filtered search is live and satisfies every filter. */
  lemma FiltersHold(db: Db, hits: Hits, q: Query, order: seq<string>, n: string)
    requires q.filters != [] && Enumerates(order, Eligible(db, q.filters)) && n in Found(db, hits, q, order)
    ensures n in db.entities && Satisfies(db, n, q.filters)
  {
    MatchedIsDuplicateFree(hits, q);
    hide Matched, Satisfies;
    RetainedIs(Matched(hits, q), Eligible(db, q.filters));
    assert n in Members(Retained(Matched(hits, q), Eligible(db, q.filters))) || n in Members(order);
  }

  /** A filtered search whose term matches nothing returns entities all the
      same: every filter match, in arbitrary order, up to the limit. So the
      term and the filters intersect exactly when the term matches something or
      the filters nothing. */
  lemma SearchIntersectsExactlyWhen(db: Db, hits: Hits, q: Query, order: seq<string>)
    requires q.filters != [] && Enumerates(order, Eligible(db, q.filters))
    ensures (forall n :: n in Found(db, hits, q, order) ==> n in Matched(hits, q))
       <==> Matched(hits, q) != [] || Eligible(db, q.filters) == {}
    ensures Matched(hits, q) == [] ==> Found(db, hits, q, order) == Cut(order, Limit(q))
  {
    MatchedIsDuplicateFree(hits, q);
    hide Matched, Satisfies;
    var matched, eligible := Matched(hits, q), Eligible(db, q.filters);
    RetainedIs(matched, eligible);
    if matched == [] {
      if eligible != {} {
        assert order != [];
        var n := order[0];
        assert n in Found(db, hits, q, order) && n !in Matched(hits, q);
      } else {
        MembersAre(order);
        CutIsPart(order, Limit(q));
      }
    } else {
      forall n | n in Found(db, hits, q, order) ensures n in matched {
        assert n in Members(Retained(matched, eligible));
      }
    }
  }

  // ---- where the ranking shifts ---------------------------------------------

  lemma MembersAre(names: seq<string>)
    ensures forall n :: n in names <==> n in Members(names)
    ensures names == [] <==> Members(names) == {}
  {
    if names != [] { assert names[0] in Members(names); }
  }

  lemma CutIsPart<T>(xs: seq<T>, n: int)
    ensures forall x :: x in Cut(xs, n) ==> x in xs
  {
  }

  lemma FoundUnfiltered(db: Db, hits: Hits, q: Query, order: seq<string>)
    requires q.filters == [] && Normalize.Trim(q.query) != ""
    ensures var all := Fused(CutAll(hits(Normalize.Trim(q.query)), Pool(Limit(q))));
            all != [] ==> Found(db, hits, q, order) == Cut(all, Limit(q))
  {
    hide Normalize.Trim, Fused, Widened, CutAll, Pool;
  }

  lemma FirstIsBeforeAll(names: seq<string>, a: string)
    requires a in names && DuplicateFree(names) && forall b :: b in names && b != a ==> Before(names, a, b)
    ensures names[0] == a
  {
    var b := names[0];
    assert !Before(names, a, b);
  }

  lemma UnionOfThree(paths: Paths)
    requires |paths| == 3
    ensures Union(paths) == Members(paths[0]) + Members(paths[1]) + Members(paths[2])
  {
    assert paths[..2][..1] == paths[..1] && paths[..1][..0] == [];
    assert Union([]) == {};
    assert Union(paths[..1]) == Members(paths[0]);
    assert Union(paths[..2]) == Members(paths[0]) + Members(paths[1]);
  }

  function Observed(db: Db): set<string> {
    set row | row in db.observations :: row.entity
  }

  function WithTruths(db: Db): set<string> {
    set k | k in db.truths :: k.0
  }

  /** Three ranked lists for every term: of entities with observations, of
      entities with truths, and of entities. */
  ghost predicate AreRankings(db: Db, hits: Hits) {
    IsSound(db) && forall term :: AreRankingsOf(db, hits(term))
  }

  ghost predicate AreRankingsOf(db: Db, paths: Paths) {
    && |paths| == 3 && DuplicateFree(paths[0]) && DuplicateFree(paths[1]) && DuplicateFree(paths[2])
    && Members(paths[0]) <= Observed(db) && Members(paths[1]) <= WithTruths(db)
    && Members(paths[2]) <= db.entities.Keys
  }

  /** No unfiltered search with limit `n` moves what one with limit `m` shows. */
  ghost predicate RankingStays(m: nat, n: nat) {
    forall db: Db, hits: Hits, q: Query, order: seq<string> :: AreRankings(db, hits) && q.filters == [] ==>
      Found(db, hits, q.(limit := m), order) <= Found(db, hits, q.(limit := n), order)
  }

  function Common(i: nat): string { "b" + Decimal(i) }

  const LATE := "c"

  /** One path finds `r` names and then one more, which another path finds
      first. */
  function LatePaths(r: nat): Paths {
    [seq(r, i requires 0 <= i < r => Common(i)) + [LATE], [LATE], []]
  }

  lemma CommonNamesDiffer(i: nat, j: nat)
    ensures Common(i) == Common(j) ==> i == j
    ensures Common(i) != LATE && Less(Common(i), LATE)
  {
    if Common(i) == Common(j) {
      assert Common(i)[1..] == Decimal(i) && Common(j)[1..] == Decimal(j);
      DecimalIsInjective(i, j);
    }
    assert Common(i)[0] == 'b' && LATE[0] == 'c';
  }

  lemma LatePathsAreRankings(r: nat)
    ensures var paths := LatePaths(r);
            && |paths| == 3 && |paths[0]| == r + 1
            && DuplicateFree(paths[0]) && DuplicateFree(paths[1]) && DuplicateFree(paths[2])
            && forall i :: 0 <= i <= r ==> paths[0][i] == if i < r then Common(i) else LATE
  {
    hide Common;
    var path := LatePaths(r)[0];
    forall i, j | 0 <= i < j < |path| ensures path[i] != path[j] {
      CommonNamesDiffer(i, j);
    }
  }

  /** What either cut of the paths finds. */
  lemma LatePathsFind(r: nat, n: nat)
    requires 0 < r <= n
    ensures var cut := CutAll(LatePaths(r), n);
            && (forall i :: 0 <= i < r ==> Finds(cut, 0, Common(i), i) && OnlyFinds(cut, 0, Common(i), i))
            && Finds(cut, 1, LATE, 0) && (n == r ==> OnlyFinds(cut, 1, LATE, 0)) && (n > r ==> Finds(cut, 0, LATE, r))
            && (forall b :: b in Union(cut) ==> b == LATE || exists i :: 0 <= i < r && b == Common(i))
  {
    var cut := CutAll(LatePaths(r), n);
    LatePathsAreRankings(r);
    assert cut[0] == LatePaths(r)[0][..if n == r then r else r + 1] && cut[1] == [LATE] && cut[2] == [];
    hide Common, LatePaths, CutAll, Less;
    forall i | 0 <= i < r ensures Common(i) != LATE { CommonNamesDiffer(i, i); }
    UnionOfThree(cut);
    UnionOfThree(cut[0 := []]);
    UnionOfThree(cut[1 := []]);
    hide Union;
    assert forall i :: 0 <= i < r ==> RankedAt(cut[0], Common(i), i);
  }

  lemma OrderedByScore(paths: Paths, a: string, b: string)
    requires a in Union(paths) && b in Union(paths)
    requires Score(paths, a) > Score(paths, b) || (Score(paths, a) == Score(paths, b) && Less(a, b))
    ensures Before(Fused(paths), a, b)
  {
    hide Score, Union, Less, Fused, Before;
    FusedOrdersUnion(paths);
  }

  lemma FirstOfFused(paths: Paths, a: string)
    requires a in Union(paths) && forall b :: b in Union(paths) && b != a ==> Before(Fused(paths), a, b)
    ensures Fused(paths) != [] && Fused(paths)[0] == a
  {
    hide *;
    FusedOrdersUnion(paths);
    MembersAre(Fused(paths));
    FirstIsBeforeAll(Fused(paths), a);
  }

  /** Cut to `r`, the paths rank the first common name first: it ties with the
      late one, and its name is less. */
  lemma CutRanksCommonFirst(r: nat)
    requires r > 0
    ensures var narrow := Fused(CutAll(LatePaths(r), r)); narrow != [] && narrow[0] == Common(0)
  {
    hide *;
    var cut := CutAll(LatePaths(r), r);
    LatePathsFind(r, r);
    ScoreOfOne(cut, 0, Common(0), 0);
    ScoreOfOne(cut, 1, LATE, 0);
    CommonNamesDiffer(0, 0);
    forall b | b in Union(cut) && b != Common(0) ensures Before(Fused(cut), Common(0), b) {
      if b != LATE {
        var i :| 0 <= i < r && b == Common(i);
        ScoreOfOne(cut, 0, Common(i), i);
        WeightFalls(0, i);
      }
      OrderedByScore(cut, Common(0), b);
    }
    FirstOfFused(cut, Common(0));
  }

  /** Left whole, they rank the late name first, which two of them find. */
  lemma WholeRanksLateFirst(r: nat, n: nat)
    requires 0 < r < n
    ensures var wide := Fused(CutAll(LatePaths(r), n)); wide != [] && wide[0] == LATE
  {
    hide *;
    var cut := CutAll(LatePaths(r), n);
    LatePathsFind(r, n);
    ScoreOfOne(cut, 1, LATE, 0);
    ScoreOfTwo(cut, 0, 1, LATE, r, 0);
    forall b | b in Union(cut) && b != LATE ensures Before(Fused(cut), LATE, b) {
      var i :| 0 <= i < r && b == Common(i);
      ScoreOfOne(cut, 0, Common(i), i);
      WeightBetween(i, i);
      WeightFalls(r, r);
      OrderedByScore(cut, LATE, b);
    }
    FirstOfFused(cut, LATE);
  }

  const WORD := "q"

  /** Every entity has an observation with the word, the late one a truth, and
      none has it in its name or kind. */
  function LateDb(r: nat): Db {
    var names := LatePaths(r)[0];
    Db(map n | n in Members(names) :: Entity(TASK, 0, 0),
       seq(|names|, i requires 0 <= i < |names| => Observation(i + 1, names[i], WORD, 0)),
       |names|, map[(LATE, "note") := Truth(1, WORD, 0)], {})
  }

  function LateHits(r: nat): Hits {
    (term: string) => LatePaths(r)
  }

  lemma LateDbIsSound(r: nat)
    ensures IsSound(LateDb(r))
  {
    LatePathsAreRankings(r);
    hide LatePaths;
    var names := LatePaths(r)[0];
    assert names[r] == LATE && names[r] in Members(names);
    forall i | 0 <= i < |names| ensures names[i] in Members(names) {}
  }

  lemma LateHitsAreRankings(r: nat)
    ensures AreRankings(LateDb(r), LateHits(r))
  {
    LateDbIsSound(r);
    hide IsSound, DuplicateFree;
    LatePathsAreRankings(r);
    var db, names := LateDb(r), LatePaths(r)[0];
    forall n | n in Members(names) ensures n in Observed(db) {
      var i :| 0 <= i < |names| && names[i] == n;
      assert db.observations[i] in db.observations;
    }
    assert (LATE, "note") in db.truths;
  }

  predicate HasNoWord(s: string) {
    'q' !in s && 'Q' !in s
  }

  lemma NoLateName(r: nat)
    ensures forall n :: n in LateDb(r).entities ==> HasNoWord(n) && HasNoWord(LateDb(r).entities[n].kind)
  {
    LatePathsAreRankings(r);
    var names := LatePaths(r)[0];
    forall n | n in Members(names) ensures HasNoWord(n) {
      var i :| 0 <= i < |names| && names[i] == n;
      hide LatePaths;
      if i < r { CommonHasNoWord(i); }
    }
    assert HasNoWord(TASK);
  }

  lemma CommonHasNoWord(i: nat)
    ensures HasNoWord(Common(i))
  {
    DecimalIsDigits(i);
    hide Decimal;
    forall c | c in Common(i) ensures c == 'b' || IsDigit(c) {
      assert c in "b" || c in Decimal(i);
    }
  }

  lemma FoundLate(r: nat, limit: nat, order: seq<string>)
    requires 0 < limit <= Pool(limit)
    ensures var all := Fused(CutAll(LatePaths(r), Pool(limit)));
            all != [] ==> Found(LateDb(r), LateHits(r), Query(WORD, limit, []), order) == Cut(all, limit)
  {
    hide Fused, CutAll, LatePaths, Found, Pool, LateDb;
    assert Normalize.Trim(WORD) != "";
    FoundUnfiltered(LateDb(r), LateHits(r), Query(WORD, limit, []), order);
  }

  /** For any two limits of which the wider is above 100: a database and a
      search whose first results differ. The word is in no name and no kind, so
      the third path finds nothing. */
  lemma RankingShifts(m: nat, n: nat) returns (db: Db, hits: Hits, q: Query)
    requires 0 < m < n && n > 100
    ensures AreRankings(db, hits) && q.filters == [] && q.query == WORD && hits(q.query)[2] == []
    ensures forall e :: e in db.entities ==> HasNoWord(e) && HasNoWord(db.entities[e].kind)
    ensures var narrow, wide := Found(db, hits, q.(limit := m), []), Found(db, hits, q.(limit := n), []);
            narrow != [] && wide != [] && narrow[0] != wide[0]
  {
    var r := if m < 100 then 100 else m;
    db, hits, q := LateDb(r), LateHits(r), Query(WORD, 0, []);
    assert hits(WORD)[2] == [];
    LateHitsAreRankings(r);
    NoLateName(r);
    hide *;
    CutRanksCommonFirst(r);
    WholeRanksLateFirst(r, n);
    CommonNamesDiffer(0, 0);
    PoolAbove(m, r);
    PoolAbove(n, n);
    FoundLate(r, m, []);
    FoundLate(r, n, []);
    CutKeepsFirst(Fused(CutAll(LatePaths(r), r)), m);
    CutKeepsFirst(Fused(CutAll(LatePaths(r), n)), n);
  }

  lemma PoolAbove(limit: nat, r: nat)
    requires r == if limit < 100 then 100 else limit
    ensures Pool(limit) == r && limit <= r
  {
  }

  lemma CutKeepsFirst<T>(xs: seq<T>, n: nat)
    requires n > 0 && xs != []
    ensures Cut(xs, n) != [] && Cut(xs, n)[0] == xs[0]
  {
  }

  /** Asking for more results leaves the ranking alone exactly up to 100. */
  lemma RankingStaysExactlyUpTo100(m: nat, n: nat)
    requires 0 < m < n
    ensures RankingStays(m, n) <==> n <= 100
  {
    if n <= 100 {
      hide AreRankings, Found;
      forall db: Db, hits: Hits, q: Query, order: seq<string> | AreRankings(db, hits) && q.filters == []
        ensures Found(db, hits, q.(limit := m), order) <= Found(db, hits, q.(limit := n), order)
      {
        WiderLimitAppends(db, hits, q, m, n, order, order);
      }
    } else {
      hide AreRankings, Found;
      var db, hits, q := RankingShifts(m, n);
      assert !(Found(db, hits, q.(limit := m), []) <= Found(db, hits, q.(limit := n), []));
    }
  }
}
