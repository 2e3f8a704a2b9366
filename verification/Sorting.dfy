/** Listing a set in the order of a comparison. */
module Sorting {

  /** `less` orders the members of `s` strictly and totally. */
  ghost predicate Orders<T>(less: (T, T) -> bool, s: set<T>) {
    && (forall x :: x in s ==> !less(x, x))
    && (forall x, y :: x in s && y in s && x != y ==> less(x, y) || less(y, x))
    && (forall x, y, z :: x in s && y in s && z in s && less(x, y) && less(y, z) ==> less(x, z))
  }

  predicate IsFirst<T(==)>(m: T, s: set<T>, less: (T, T) -> bool) {
    m in s && forall x :: x in s && x != m ==> less(m, x)
  }

  lemma {:induction false} FirstExists<T>(s: set<T>, less: (T, T) -> bool) returns (m: T)
    requires s != {} && Orders(less, s)
    ensures IsFirst(m, s, less)
    decreases |s|
  {
    m :| m in s;
    if s != {m} {
      var n := FirstExists(s - {m}, less);
      if less(n, m) { m := n; }
    }
  }

  lemma FirstIsUnique<T>(s: set<T>, less: (T, T) -> bool)
    requires s != {} && Orders(less, s)
    ensures exists m :: m in s && IsFirst(m, s, less)
    ensures forall m, n :: m in s && n in s && IsFirst(m, s, less) && IsFirst(n, s, less) ==> m == n
  {
    var m := FirstExists(s, less);
  }

  function First<T(==)>(s: set<T>, less: (T, T) -> bool): (m: T)
    requires s != {} && Orders(less, s)
    ensures IsFirst(m, s, less)
  {
    FirstIsUnique(s, less);
    var m :| m in s && IsFirst(m, s, less);
    m
  }

  /** The members of `s`, each once, in order. */
  function SortedBy<T(==, !new)>(s: set<T>, less: (T, T) -> bool): (r: seq<T>)
    requires Orders(less, s)
    ensures forall x :: x in r <==> x in s
    ensures forall i, j :: 0 <= i < j < |r| ==> less(r[i], r[j])
    ensures |r| == |s|
  {
    if s == {} then []
    else
      var m := First(s, less);
      [m] + SortedBy(s - {m}, less)
  }

  lemma SortedByIsDuplicateFree<T(!new)>(s: set<T>, less: (T, T) -> bool)
    requires Orders(less, s)
    ensures forall i, j :: 0 <= i < j < |s| ==> SortedBy(s, less)[i] != SortedBy(s, less)[j]
  {
    var r := SortedBy(s, less);
    forall i, j | 0 <= i < j < |r| ensures r[i] != r[j] {
      assert r[i] in s && less(r[i], r[j]);
    }
  }
}
