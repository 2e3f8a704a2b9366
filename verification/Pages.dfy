/** What a topic page shows, line by line, in the words of the page. */
module Pages {
  import opened Lists
  import opened Order
  import opened Schema
  import opened TextLines

  /** A row a truth, in key order. */
  ghost predicate ListsTruths(rows: seq<string>, truths: map<string, string>) {
    exists keys: seq<string> ::
      && StrictlySorted(keys)
      && (forall key :: key in keys <==> key in truths)
      && |rows| == |keys|
      && forall i :: 0 <= i < |rows| ==> rows[i] == "| **" + keys[i] + "** | " + truths[keys[i]] + " |"
  }

  /** `firsts` are the members of `all`, each once, in the order in which they
      first occur. */
  ghost predicate AreFirsts(firsts: seq<string>, all: seq<string>) {
    && (forall x :: x in firsts <==> x in all)
    && forall i, j :: 0 <= i < j < |firsts| ==> ComesBefore(firsts[i], firsts[j], all)
  }

  /** `x` occurs in `all` before `y` first does. */
  ghost predicate ComesBefore(x: string, y: string, all: seq<string>) {
    exists p :: 0 <= p < |all| && all[p] == x && y !in all[..p + 1]
  }

  /** A bullet a distinct observation. */
  ghost predicate ListsObservations(rows: seq<string>, observations: seq<string>) {
    exists firsts: seq<string> ::
      && AreFirsts(firsts, observations)
      && |rows| == |firsts|
      && forall i :: 0 <= i < |rows| ==> rows[i] == "* " + firsts[i]
  }

  /** The relation starts or ends at the entity. */
  function Touches(name: string): Relation -> bool {
    (rel: Relation) => rel.from == name || rel.to == name
  }

  function Leaves(name: string): Relation -> bool {
    (rel: Relation) => rel.from == name
  }

  function LeavesAs(name: string, kind: string): Relation -> bool {
    (rel: Relation) => rel.from == name && rel.kind == kind
  }

  /** A link an outgoing relation of one kind, in order. */
  ghost predicate AreLinks(links: seq<string>, name: string, kind: string, relations: seq<Relation>,
                           slugOf: string -> string) {
    var leaving := Filtered(relations, LeavesAs(name, kind));
    && |links| == |leaving|
    && forall i :: 0 <= i < |links| ==> links[i] == "[[" + slugOf(leaving[i].to) + "]]"
  }

  predicate IsRelationRow(row: string, name: string, rel: Relation, slugOf: string -> string) {
    row == if rel.from == name then "| Outgoing | `" + rel.kind + "` | [[" + slugOf(rel.to) + "]] |"
           else "| Incoming | `" + rel.kind + "` | [[" + slugOf(rel.from) + "]] |"
  }

  /** A row a relation that touches the entity, in order. */
  ghost predicate ListsRelations(rows: seq<string>, name: string, relations: seq<Relation>, slugOf: string -> string) {
    var touching := Filtered(relations, Touches(name));
    && |rows| == |touching|
    && forall i :: 0 <= i < |rows| ==> IsRelationRow(rows[i], name, touching[i], slugOf)
  }

  /** A headed list, ended by a blank line; nothing at all when it is empty. */
  function Section(head: seq<string>, rows: seq<string>): seq<string> {
    if rows == [] then [] else head + rows + [""]
  }

  /** The text is the page of an entity, line by line. */
  ghost predicate IsPage(text: string, name: string, truths: map<string, string>, observations: seq<string>,
                         relations: seq<Relation>, slugOf: string -> string) {
    exists facts, notes, links ::
      && ListsTruths(facts, truths)
      && ListsObservations(notes, observations)
      && ListsRelations(links, name, relations, slugOf)
      && Lines(text)
         == ["# " + name, ""]
            + Section(["## Truths", "", "| Property | Value |", "| :--- | :--- |"], facts)
            + Section(["## Observations", ""], notes)
            + Section(["## Relations", "", "| Direction | Relation | Entity |", "| :--- | :--- | :--- |"], links)
  }

  /** An observation in `all` but not before its end is the last of the firsts. */
  lemma FirstsDrop(firsts: seq<string>, all: seq<string>)
    requires AreFirsts(firsts, all) && all != []
    ensures var before, last := all[..|all| - 1], all[|all| - 1];
            if last in before then AreFirsts(firsts, before)
            else firsts != [] && firsts[|firsts| - 1] == last && AreFirsts(firsts[..|firsts| - 1], before)
  {
    var before, last, n := all[..|all| - 1], all[|all| - 1], |firsts| - 1;
    assert all == before + [last];
    forall i, j | 0 <= i < j < |firsts| ensures ComesBefore(firsts[i], firsts[j], before) && firsts[i] != firsts[j] {
      assert ComesBefore(firsts[i], firsts[j], all);
      var p :| 0 <= p < |all| && all[p] == firsts[i] && firsts[j] !in all[..p + 1];
      assert firsts[j] in all;
      assert all[..|all|] == all;
      assert p < |before|;
      assert before[..p + 1] == all[..p + 1];
      assert all[..p + 1][p] == firsts[i];
    }
    if last !in before {
      assert last in firsts;
      var k :| 0 <= k < |firsts| && firsts[k] == last;
      var end := firsts[n];
      assert forall x, y :: ComesBefore(x, y, before) ==> x in before;
      assert k == n;
      assert firsts == firsts[..n] + [last];
      forall x ensures x in firsts[..n] <==> x in before {
        assert x in firsts <==> x in all;
      }
    }
  }

  lemma SomeMember(xs: seq<string>)
    ensures xs != [] ==> exists x :: x in xs
  {
    if xs != [] { assert xs[0] in xs; }
  }

  /** The list of first occurrences is determined. */
  lemma {:induction false} FirstsAreUnique(a: seq<string>, b: seq<string>, all: seq<string>)
    requires AreFirsts(a, all) && AreFirsts(b, all)
    ensures a == b
  {
    if all == [] {
      SomeMember(a);
      SomeMember(b);
    } else {
      var before, last := all[..|all| - 1], all[|all| - 1];
      FirstsDrop(a, all);
      FirstsDrop(b, all);
      if last in before {
        FirstsAreUnique(a, b, before);
      } else {
        FirstsAreUnique(a[..|a| - 1], b[..|b| - 1], before);
      }
    }
  }
}
