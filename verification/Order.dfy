/** Code-point order on text: the order in which the store lists names
    (`ORDER BY name`) and a `BTreeMap<String, _>` lists its keys. */
module Order {
  import opened Sorting

  predicate Less(a: string, b: string) {
    b != "" && (a == "" || a[0] < b[0] || (a[0] == b[0] && Less(a[1..], b[1..])))
  }

  /** The first place where two texts differ decides; a proper prefix is less. */
  lemma {:induction false} LessAt(a: string, b: string)
    ensures Less(a, b) <==> exists i ::
              && 0 <= i <= |a| && i < |b| && a[..i] == b[..i]
              && (i == |a| || a[i] < b[i])
  {
    if a != "" && b != "" && a[0] == b[0] {
      LessAt(a[1..], b[1..]);
      if Less(a, b) {
        var i :|
          && 0 <= i <= |a[1..]| && i < |b[1..]| && a[1..][..i] == b[1..][..i]
          && (i == |a[1..]| || a[1..][i] < b[1..][i]);
        assert a[..i + 1] == [a[0]] + a[1..][..i] && b[..i + 1] == [b[0]] + b[1..][..i];
      }
      if i :| 0 <= i <= |a| && i < |b| && a[..i] == b[..i] && (i == |a| || a[i] < b[i]) {
        assert i > 0 by { assert a[0] == b[0]; }
        assert a[1..][..i - 1] == a[..i][1..] && b[1..][..i - 1] == b[..i][1..];
        assert i - 1 == |a[1..]| || a[1..][i - 1] < b[1..][i - 1];
      }
    } else if a == "" && b != "" {
      assert a[..0] == b[..0];
    } else if a != "" && b != "" {
      assert a[..0] == b[..0];
      assert forall i :: 0 < i <= |a| && i < |b| ==> a[..i][0] == a[0] && b[..i][0] == b[0];
    }
  }

  lemma LessIsStrict(a: string, b: string)
    ensures !Less(a, a)
    ensures Less(a, b) ==> !Less(b, a)
  {
    if a != "" {
      LessIsStrict(a[1..], if b == "" then "" else b[1..]);
    }
  }

  lemma LessTrans(a: string, b: string, c: string)
    requires Less(a, b) && Less(b, c)
    ensures Less(a, c)
  {
    if a != "" && a[0] == b[0] && b[0] == c[0] {
      LessTrans(a[1..], b[1..], c[1..]);
    }
  }

  lemma LessTotal(a: string, b: string)
    requires a != b
    ensures Less(a, b) || Less(b, a)
  {
    if a != "" && b != "" && a[0] == b[0] {
      assert a == [a[0]] + a[1..] && b == [b[0]] + b[1..];
      LessTotal(a[1..], b[1..]);
    }
  }

  lemma LessOrders(s: set<string>)
    ensures Orders(Less, s)
  {
    forall x, y, z
      ensures !Less(x, x) && (x != y ==> Less(x, y) || Less(y, x))
      ensures Less(x, y) && Less(y, z) ==> Less(x, z)
    {
      LessIsStrict(x, x);
      if x != y { LessTotal(x, y); }
      if Less(x, y) && Less(y, z) { LessTrans(x, y, z); }
    }
  }

  predicate IsLeast(m: string, s: set<string>) {
    IsFirst(m, s, Less)
  }

  function Least(s: set<string>): (m: string)
    requires s != {}
    ensures IsLeast(m, s)
  {
    LessOrders(s);
    First(s, Less)
  }

  ghost predicate StrictlySorted(names: seq<string>) {
    forall i, j :: 0 <= i < j < |names| ==> Less(names[i], names[j])
  }

  /** The members of `s` in code-point order. */
  function Sorted(s: set<string>): (r: seq<string>)
    ensures forall x :: x in r <==> x in s
    ensures StrictlySorted(r)
    ensures |r| == |s|
  {
    LessOrders(s);
    SortedBy(s, Less)
  }

  lemma SortedIsDuplicateFree(names: seq<string>)
    requires StrictlySorted(names)
    ensures forall i, j :: 0 <= i < j < |names| ==> names[i] != names[j]
  {
    forall i, j | 0 <= i < j < |names| ensures names[i] != names[j] {
      LessIsStrict(names[i], names[j]);
    }
  }

  function Members(names: seq<string>): set<string> {
    set x | x in names
  }

  lemma MembersSnoc(names: seq<string>, n: nat)
    requires n < |names|
    ensures Members(names[..n + 1]) == Members(names[..n]) + {names[n]}
    ensures names[..n + 1][..n] == names[..n] && names[..|names|] == names
  {
    assert names[..n + 1] == names[..n] + [names[n]];
  }

  lemma MembersOfSorted(s: set<string>)
    ensures Members(Sorted(s)) == s && Sorted(s)[..|s|] == Sorted(s)
  {
    hide Sorted, StrictlySorted;
  }
}
