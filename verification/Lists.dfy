/** Filtering a list. */
module Lists {

  function Filtered<T>(xs: seq<T>, keep: T -> bool): seq<T> {
    if xs == [] then []
    else
      var last := xs[|xs| - 1];
      Filtered(xs[..|xs| - 1], keep) + if keep(last) then [last] else []
  }

  lemma FilteredSnoc<T>(xs: seq<T>, last: T, keep: T -> bool)
    ensures Filtered(xs + [last], keep) == if keep(last) then Filtered(xs, keep) + [last] else Filtered(xs, keep)
  {
    assert (xs + [last])[..|xs|] == xs;
  }

  /** The kept elements, all of them. */
  lemma {:induction false} FilteredMembers<T(!new)>(xs: seq<T>, keep: T -> bool)
    ensures forall x :: x in Filtered(xs, keep) <==> x in xs && keep(x)
  {
    if xs != [] {
      var before, last := xs[..|xs| - 1], xs[|xs| - 1];
      FilteredMembers(before, keep);
      assert xs == before + [last];
    }
  }

  function Both<T>(keep: T -> bool, also: T -> bool): T -> bool {
    x => keep(x) && also(x)
  }

  /** Filtering twice is filtering by both. */
  lemma {:induction false} FilteredTwice<T>(xs: seq<T>, keep: T -> bool, also: T -> bool)
    ensures Filtered(Filtered(xs, keep), also) == Filtered(xs, Both(keep, also))
  {
    if xs != [] {
      var before, last := xs[..|xs| - 1], xs[|xs| - 1];
      FilteredTwice(before, keep, also);
      FilteredSnoc(Filtered(before, keep), last, also);
      assert Filtered(before, keep) + [] == Filtered(before, keep);
      assert Filtered(Filtered(before, keep), also) + [] == Filtered(Filtered(before, keep), also);
    }
  }

  /** Only what the test says of the elements matters. */
  lemma {:induction false} FilteredSame<T(!new)>(xs: seq<T>, keep: T -> bool, other: T -> bool)
    requires forall x :: x in xs ==> keep(x) == other(x)
    ensures Filtered(xs, keep) == Filtered(xs, other)
  {
    if xs != [] {
      assert xs[|xs| - 1] in xs && forall x :: x in xs[..|xs| - 1] ==> x in xs;
      FilteredSame(xs[..|xs| - 1], keep, other);
    }
  }

  lemma {:induction false} FilteredAll<T(!new)>(xs: seq<T>, keep: T -> bool)
    requires forall x :: x in xs ==> keep(x)
    ensures Filtered(xs, keep) == xs
  {
    if xs != [] {
      assert xs[|xs| - 1] in xs && forall x :: x in xs[..|xs| - 1] ==> x in xs;
      FilteredAll(xs[..|xs| - 1], keep);
    }
  }

  lemma {:induction false} FilteredConcat<T>(xs: seq<T>, ys: seq<T>, keep: T -> bool)
    ensures Filtered(xs + ys, keep) == Filtered(xs, keep) + Filtered(ys, keep)
  {
    if ys == [] {
      assert xs + ys == xs;
    } else {
      FilteredConcat(xs, ys[..|ys| - 1], keep);
      assert (xs + ys)[..|xs + ys| - 1] == xs + ys[..|ys| - 1];
    }
  }
}
