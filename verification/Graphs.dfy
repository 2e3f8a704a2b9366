/** Reading the graph: which entities and relations a selection projects to. */
module Graphs {
  import opened Options
  import opened Order
  import opened Sorting
  import opened Schema
  import opened Fusion
  import Normalize
  import Trails

  datatype Node = Node(
    name: string, kind: string, truths: map<string, string>, count: nat, observations: seq<Observation>)

  datatype Graph = Graph(nodes: seq<Node>, relations: seq<Relation>)

  function TruthsOf(db: Db, e: string): map<string, string> {
    map k | k in db.truths && k.0 == e :: k.1 := db.truths[k].value
  }

  function NodeOf(db: Db, e: string, content: bool, limit: nat): Node
    requires e in db.entities
  {
    var reading := Trails.Show(db, e, limit);
    Node(e, db.entities[e].kind, TruthsOf(db, e), reading.count, if content then reading.rows else [])
  }

  /** The relations with an end among `values`. */
  function Touching(db: Db, values: seq<string>): set<Relation> {
    set r | r in db.relations && (r.from in values || r.to in values)
  }

  function Pushed(values: seq<string>, n: string): seq<string> {
    if n in values then values else values + [n]
  }

  /** Both ends of each relation of a wanted kind, pushed in row order. */
  function Expanded(values: seq<string>, rows: seq<Relation>, kinds: seq<string>): seq<string> {
    if rows == [] then values
    else
      var last := rows[|rows| - 1];
      var before := Expanded(values, rows[..|rows| - 1], kinds);
      if last.kind in kinds then Pushed(Pushed(before, last.from), last.to) else before
  }

  /** The live ones of `values`, each where it last occurs. */
  function Listed(db: Db, values: seq<string>): (r: seq<string>)
    ensures forall n :: n in r <==> n in values && n in db.entities
    ensures DuplicateFree(r)
  {
    if values == [] then []
    else
      var rest := Listed(db, values[1..]);
      if values[0] in values[1..] || values[0] !in db.entities then rest else [values[0]] + rest
  }

  function NodesOf(db: Db, names: seq<string>, content: bool, limit: nat): (r: seq<Node>)
    requires forall n :: n in names ==> n in db.entities
    ensures |r| == |names|
  {
    seq(|names|, i requires 0 <= i < |names| => NodeOf(db, names[i], content, limit))
  }

  /** A node says of its entity the kind, every truth, how many observations it
      has and, when content is asked for, the last of them. */
  ghost predicate IsNode(node: Node, db: Db, content: bool, limit: nat) {
    && node.name in db.entities
    && node.kind == db.entities[node.name].kind
    && (forall k :: k in node.truths <==> (node.name, k) in db.truths)
    && (forall k :: k in node.truths ==> node.truths[k] == db.truths[(node.name, k)].value)
    && exists reading: Trails.Reading ::
         && Trails.IsReading(reading, db, node.name, limit)
         && node.count == reading.count
         && node.observations == if content then reading.rows else []
  }

  lemma NodesAreNodes(db: Db, names: seq<string>, content: bool, limit: nat)
    requires IdsIncrease(db) && forall n :: n in names ==> n in db.entities
    ensures forall node :: node in NodesOf(db, names, content, limit) ==> IsNode(node, db, content, limit)
  {
    hide Trails.Show, Trails.IsReading;
    forall i | 0 <= i < |names| ensures IsNode(NodesOf(db, names, content, limit)[i], db, content, limit) {
      assert names[i] in names;
      Trails.ShowIsReading(db, names[i], limit);
    }
  }

  /** The relations that a projection to `nodes` keeps: all of them, when
      nothing was selected. */
  function Kept(db: Db, values: seq<string>, nodes: seq<string>): set<Relation> {
    set r | r in db.relations && (values == [] || r.from in nodes || r.to in nodes)
  }

  /** By source, then target, then kind. */
  predicate RelationLess(a: Relation, b: Relation) {
    || Less(a.from, b.from)
    || (a.from == b.from && (Less(a.to, b.to) || (a.to == b.to && Less(a.kind, b.kind))))
  }

  /** Relations by source, those of one source by target, those of both by kind. */
  ghost predicate InOrder(rows: seq<Relation>) {
    forall i, j :: 0 <= i < j < |rows| ==>
      var a, b := rows[i], rows[j];
      || Less(a.from, b.from)
      || (a.from == b.from && Less(a.to, b.to))
      || (a.from == b.from && a.to == b.to && Less(a.kind, b.kind))
  }

  lemma RelationOrders(s: set<Relation>)
    ensures Orders(RelationLess, s)
  {
    hide Less;
    forall a, b, c | a in s && b in s && c in s
      ensures !RelationLess(a, a) && (a != b ==> RelationLess(a, b) || RelationLess(b, a))
      ensures RelationLess(a, b) && RelationLess(b, c) ==> RelationLess(a, c)
    {
      LessOrders({a.from, b.from, c.from});
      LessOrders({a.to, b.to, c.to});
      LessOrders({a.kind, b.kind, c.kind});
    }
  }

  function Listing(s: set<Relation>): (r: seq<Relation>)
    ensures forall x :: x in r <==> x in s
    ensures forall i, j :: 0 <= i < j < |r| ==> RelationLess(r[i], r[j])
  {
    RelationOrders(s);
    SortedBy(s, RelationLess)
  }

  function Selection(db: Db, names: Option<seq<string>>, rows: seq<Relation>, kinds: seq<string>): seq<string> {
    match names
    case None => []
    case Some(asked) =>
      Expanded(Normalize.CanonicalAll(asked), if kinds == [] || asked == [] then [] else rows, kinds)
  }

  function Shown(db: Db, names: Option<seq<string>>, values: seq<string>): seq<string> {
    if names.None? then Sorted(db.entities.Keys) else Listed(db, values)
  }

  ghost predicate ListsTouching(db: Db, names: Option<seq<string>>, rows: seq<Relation>) {
    names.Some? ==> (set r | r in rows) == Touching(db, Normalize.CanonicalAll(names.value))
  }

  /** Push the ends of each relation of a wanted kind that are not there yet. */
  method Expand(asked: seq<string>, rows: seq<Relation>, kinds: seq<string>) returns (values: seq<string>)
    ensures values == Expanded(asked, rows, kinds)
  {
    values := asked;
    assert rows[..0] == [];
    for i := 0 to |rows|
      invariant values == Expanded(asked, rows[..i], kinds)
    {
      assert rows[..i + 1][..i] == rows[..i];
      if rows[i].kind in kinds {
        if rows[i].from !in values { values := values + [rows[i].from]; }
        if rows[i].to !in values { values := values + [rows[i].to]; }
      }
    }
    assert rows[..|rows|] == rows;
  }

  method ReadNodes(db: Db, names: seq<string>, content: bool, limit: nat) returns (nodes: seq<Node>)
    requires forall n :: n in names ==> n in db.entities
    ensures nodes == NodesOf(db, names, content, limit)
  {
    hide NodeOf;
    nodes := [];
    for i := 0 to |names|
      invariant |nodes| == i
      invariant forall j :: 0 <= j < i ==> names[j] in names && nodes[j] == NodeOf(db, names[j], content, limit)
    {
      nodes := nodes + [NodeOf(db, names[i], content, limit)];
    }
  }

  /** Read the graph, or the part of it that is asked for. The relations that
      touch the names asked for come in the order of `rows`. */
  method ReadGraph(
    db: Db, names: Option<seq<string>>, kinds: seq<string>, content: bool, limit: nat, rows: seq<Relation>)
    returns (g: Graph)
    ensures var values := Selection(db, names, rows, kinds);
            var shown := Shown(db, names, values);
            g == Graph(NodesOf(db, shown, content, limit), Listing(Kept(db, values, shown)))
    ensures IdsIncrease(db) ==> forall node :: node in g.nodes ==> IsNode(node, db, content, limit)
    ensures InOrder(g.relations)
  {
    hide Less, IsNode, NodesOf, Normalize.Canonical, Normalize.CanonicalAll, Listed, Sorted;
    var values := if names.Some? then Normalize.CanonicalAll(names.value) else [];
    if kinds != [] && values != [] {
      values := Expand(values, rows, kinds);
    }
    var shown := if names.None? then Sorted(db.entities.Keys) else Listed(db, values);
    var nodes := ReadNodes(db, shown, content, limit);
    g := Graph(nodes, Listing(Kept(db, values, shown)));
    if IdsIncrease(db) { NodesAreNodes(db, shown, content, limit); }
  }

  // ---- properties -----------------------------------------------------------

  function Ends(rows: seq<Relation>, kinds: seq<string>): set<string> {
    (set r | r in rows && r.kind in kinds :: r.from) + (set r | r in rows && r.kind in kinds :: r.to)
  }

  /** Expansion appends, each once, exactly the ends of the wanted relations
      that were not asked for. */
  lemma {:induction false} ExpansionAppends(values: seq<string>, rows: seq<Relation>, kinds: seq<string>)
    ensures var all := Expanded(values, rows, kinds);
            && values <= all
            && (forall n :: n in all <==> n in values || n in Ends(rows, kinds))
            && (forall i, j :: |values| <= j < |all| && 0 <= i < j ==> all[i] != all[j])
  {
    if rows != [] {
      ExpansionAppends(values, rows[..|rows| - 1], kinds);
      EndsSnoc(rows[..|rows| - 1], rows[|rows| - 1], kinds);
      assert rows == rows[..|rows| - 1] + [rows[|rows| - 1]];
      hide Ends;
    }
  }

  lemma EndsSnoc(rows: seq<Relation>, last: Relation, kinds: seq<string>)
    ensures Ends(rows + [last], kinds) == Ends(rows, kinds) + if last.kind in kinds then {last.from, last.to} else {}
  {
    var all := rows + [last];
    assert forall r :: r in all <==> r in rows || r == last;
    assert last in all;
  }

  /** The neighbours of `values` by relations of a wanted kind, in either
      direction. */
  function Neighbours(db: Db, values: seq<string>, kinds: seq<string>): set<string> {
    (set r | r in Touching(db, values) && r.kind in kinds :: r.from)
    + (set r | r in Touching(db, values) && r.kind in kinds :: r.to)
  }

  /** Asking for names shows exactly those of them and of their neighbours that
      are live, whatever the order of the relation rows, each once. */
  lemma SelectionShowsNeighbours(db: Db, asked: seq<string>, rows: seq<Relation>, kinds: seq<string>)
    requires ListsTouching(db, Some(asked), rows)
    ensures var values := Normalize.CanonicalAll(asked);
            var shown := Shown(db, Some(asked), Selection(db, Some(asked), rows, kinds));
            && DuplicateFree(shown)
            && forall n :: n in shown <==> n in db.entities && (n in values || n in Neighbours(db, values, kinds))
  {
    hide Normalize.Canonical, DuplicateFree;
    var values := Normalize.CanonicalAll(asked);
    if asked != [] && kinds != [] {
      ExpansionAppends(values, rows, kinds);
      assert forall r :: r in rows <==> r in Touching(db, values);
      assert Ends(rows, kinds) == Neighbours(db, values, kinds);
    } else {
      assert Neighbours(db, values, kinds) == {};
    }
  }

  /** `a` no longer occurs where `b` still does. */
  ghost predicate EndsBefore(values: seq<string>, a: string, b: string) {
    exists j :: 0 <= j < |values| && values[j] == b && a !in values[j..]
  }

  lemma EndsBeforeCons(first: string, rest: seq<string>, a: string, b: string)
    requires a != b
    ensures EndsBefore([first] + rest, a, b)
       <==> EndsBefore(rest, a, b) || (first == b && a !in rest)
  {
    var all := [first] + rest;
    if j :| 0 <= j < |rest| && rest[j] == b && a !in rest[j..] {
      assert all[j + 1] == b && all[j + 1..] == rest[j..];
    }
    if j :| 0 <= j < |all| && all[j] == b && a !in all[j..] {
      if j > 0 {
        assert rest[j - 1] == b && all[j..] == rest[j - 1..];
      } else {
        assert all[0..] == all;
      }
    }
    if first == b && a !in rest { assert all[0] == b && all[0..] == all; }
  }

  /** A name asked for more than once is shown where it is asked for last. */
  lemma {:induction false} ListedKeepsLast(db: Db, values: seq<string>, a: string, b: string)
    requires a != b && a in db.entities && b in db.entities && a in values && b in values
    ensures Before(Listed(db, values), a, b) <==> EndsBefore(values, a, b)
  {
    var first, rest := values[0], values[1..];
    assert values == [first] + rest;
    EndsBeforeCons(first, rest, a, b);
    var shown := Listed(db, rest);
    BeforeCons(first, shown, a, b);
    if a in rest && b in rest {
      ListedKeepsLast(db, rest, a, b);
    } else if a in rest {
      assert !Before(shown, a, b) && !EndsBefore(rest, a, b);
    } else {
      var j :| 0 <= j < |rest| && rest[j] == b;
      assert a !in rest[j..];
    }
  }

  /** Distinct names are shown in the order asked for. */
  lemma {:induction false} ListedKeepsOrder(db: Db, values: seq<string>, a: string, b: string)
    requires DuplicateFree(values) && a in db.entities && b in db.entities
    ensures Before(Listed(db, values), a, b) <==> Before(values, a, b)
  {
    if values != [] {
      ListedKeepsOrder(db, values[1..], a, b);
      assert values == [values[0]] + values[1..];
      BeforeCons(values[0], values[1..], a, b);
      BeforeCons(values[0], Listed(db, values[1..]), a, b);
    }
  }

  lemma BeforeCons(first: string, rest: seq<string>, a: string, b: string)
    ensures Before([first] + rest, a, b) <==> Before(rest, a, b) || (a == first && b in rest)
  {
    var all := [first] + rest;
    if i, j :| 0 <= i < j < |rest| && rest[i] == a && rest[j] == b {
      assert all[i + 1] == a && all[j + 1] == b;
    }
    if a == first && b in rest {
      var j :| 0 <= j < |rest| && rest[j] == b;
      assert all[0] == a && all[j + 1] == b;
    }
    if i, j :| 0 <= i < j < |all| && all[i] == a && all[j] == b {
      assert rest[j - 1] == b && (i > 0 ==> rest[i - 1] == a);
    }
  }

  /** An empty selection shows no entity and yet keeps every relation, while a
      selection of unknown names keeps none. A selection that is not empty never
      keeps a relation that touches no shown entity. */
  lemma EmptySelectionKeepsEveryRelation(db: Db, asked: seq<string>, rows: seq<Relation>, kinds: seq<string>)
    requires ListsTouching(db, Some(asked), rows)
    ensures var values := Selection(db, Some(asked), rows, kinds);
            var shown := Shown(db, Some(asked), values);
            && (asked == [] ==> shown == [] && Kept(db, values, shown) == db.relations)
            && (asked != [] ==>
                  forall r ::
                    r in Kept(db, values, shown) <==> r in db.relations && (r.from in shown || r.to in shown))
  {
    hide Normalize.Canonical;
    var values := Normalize.CanonicalAll(asked);
    ExpansionAppends(values, if kinds == [] || asked == [] then [] else rows, kinds);
    if asked != [] {
      assert values[0] in values;
    }
  }
}
