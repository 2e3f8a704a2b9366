/** The topics of a stored graph: what the full read feeds to a sync, with slugs
    derived from the stored names. */
module Topics {
  import opened Options
  import opened Order
  import opened Schema
  import opened Requests
  import opened Slug
  import opened TextLines
  import opened Compact
  import opened Sync
  import opened Resync
  import Graphs
  import Normalize

  /** Slugs by name; `hash` gives the slug of a name without alphanumerics. */
  function SlugOf(hash: string -> string): string -> string {
    (name: string) => Slugify(name, hash(name))
  }

  /** Everything in the graph, trails whole. */
  function FullRead(db: Db): Graphs.Graph {
    Graphs.Graph(Graphs.NodesOf(db, Sorted(db.entities.Keys), true, 0), Graphs.Listing(db.relations))
  }

  /** That is what reading the graph without a selection returns. */
  method ReadFull(db: Db) returns (g: Graphs.Graph)
    ensures g == FullRead(db)
  {
    g := Graphs.ReadGraph(db, None, [], true, 0, []);
    assert Graphs.Kept(db, [], Sorted(db.entities.Keys)) == db.relations;
  }

  function SubjectOf(n: Graphs.Node): Subject {
    Subject(n.name, n.kind, Contents(n.observations), n.truths)
  }

  function TopicsOf(g: Graphs.Graph, hash: string -> string): (topics: seq<Topic>)
    ensures |topics| == |g.nodes|
  {
    seq(|g.nodes|, i requires 0 <= i < |g.nodes| => Topic(SubjectOf(g.nodes[i]), g.relations, SlugOf(hash)))
  }

  lemma TopicAt(db: Db, hash: string -> string, i: nat)
    requires i < |db.entities|
    ensures |db.entities| == |db.entities.Keys| == |TopicsOf(FullRead(db), hash)|
    ensures var name, t := Sorted(db.entities.Keys)[i], TopicsOf(FullRead(db), hash)[i];
            && name in db.entities && t.entity.name == name && t.entity.kind == db.entities[name].kind
            && t.slugOf == SlugOf(hash)
            && t.entity.observations == Trail(db, name)
            && (forall k :: k in t.entity.truths <==> (name, k) in db.truths)
            && (forall k :: k in t.entity.truths ==> t.entity.truths[k] == db.truths[(name, k)].value)
            && (forall r :: r in t.relations <==> r in db.relations)
  {
    hide Graphs.Listing, Sorted;
    TopicIsSubject(db, hash, i);
  }

  lemma TopicIsSubject(db: Db, hash: string -> string, i: nat)
    requires i < |db.entities|
    ensures |db.entities| == |db.entities.Keys| == |TopicsOf(FullRead(db), hash)| == |Sorted(db.entities.Keys)|
    ensures var name, t := Sorted(db.entities.Keys)[i], TopicsOf(FullRead(db), hash)[i];
            && name in db.entities && t.entity == SubjectOf(Graphs.NodeOf(db, name, true, 0))
            && t.relations == Graphs.Listing(db.relations) && t.slugOf == SlugOf(hash)
  {
    hide Graphs.Listing, Sorted;
  }

  /** A stored name and its slug stay on their lines. */
  lemma StoredNameIsOneLine(name: string, hash: string -> string)
    requires Normalize.Canonical(name) == name && name != ""
    ensures IsOneLine(name) && IsOneLine(SlugOf(hash)(name)) && Normalize.IsWellFormed(name)
  {
    Normalize.CanonicalImage(name);
    SlugOfNormalForm(name, hash(name));
    hide Normalize.Canonical, Slugify;
    forall i | 0 <= i < |name| ensures name[i] != '\n' && Dashed(name)[i] != '\n' {
      assert Normalize.IsAlnum(name[i]) || Normalize.IsSeparator(name[i]);
    }
  }

  /** Two stored names share a topic file exactly when they are alike. */
  lemma StoredPathsCollide(a: Topic, b: Topic, hash: string -> string)
    requires a.slugOf == SlugOf(hash) && b.slugOf == SlugOf(hash)
    requires Normalize.IsWellFormed(a.entity.name) && a.entity.name != ""
    requires Normalize.IsWellFormed(b.entity.name) && b.entity.name != ""
    ensures Path(a) == Path(b) <==> AreAlike(a.entity.name, b.entity.name)
  {
    hide Slugify, Normalize.IsWellFormed, AreAlike;
    SlugsCollide(a.entity.name, b.entity.name, hash(a.entity.name), hash(b.entity.name));
    assert Path(a)[..|Path(a)| - 3] == Compact.Slug(a) && Path(b)[..|Path(b)| - 3] == Compact.Slug(b);
  }

  predicate IsSynced(db: Db, n: string) {
    n in db.entities && ShouldSync(db.entities[n].kind)
  }

  /** No two synced entities have names that are alike. */
  predicate NoneAlike(db: Db) {
    forall v, w :: v in db.entities && w in db.entities && v != w && IsSynced(db, v) && IsSynced(db, w) ==>
      !AreAlike(v, w)
  }

  /** What is known of each topic of a stored graph. */
  ghost predicate IsStored(db: Db, t: Topic, name: string, hash: string -> string) {
    && name in db.entities && name != "" && Normalize.IsWellFormed(name)
    && t.entity.name == name && t.entity.kind == db.entities[name].kind && t.slugOf == SlugOf(hash)
    && HasPlainHead(t)
  }

  lemma TopicIsStored(db: Db, hash: string -> string, i: nat)
    requires NamesAreCanonical(db) && "" !in db.entities && i < |db.entities|
    ensures |TopicsOf(FullRead(db), hash)| == |Sorted(db.entities.Keys)| == |db.entities|
    ensures IsStored(db, TopicsOf(FullRead(db), hash)[i], Sorted(db.entities.Keys)[i], hash)
  {
    hide Normalize.Canonical, TopicsOf, FullRead, Sorted, Slugify, Less, Normalize.IsWellFormed;
    TopicAt(db, hash, i);
    StoredNameIsOneLine(Sorted(db.entities.Keys)[i], hash);
  }

  lemma StoredCollide(db: Db, a: Topic, b: Topic, v: string, w: string, hash: string -> string)
    requires IsStored(db, a, v, hash) && IsStored(db, b, w, hash)
    ensures Collide(a, b) <==> IsSynced(db, v) && IsSynced(db, w) && AreAlike(v, w)
  {
    hide Path, AreAlike, Normalize.IsWellFormed, SlugOf;
    StoredPathsCollide(a, b, hash);
  }

  lemma StoredHeads(db: Db, topics: seq<Topic>, names: seq<string>, hash: string -> string)
    requires |topics| == |names| && forall i :: 0 <= i < |names| ==> IsStored(db, topics[i], names[i], hash)
    requires forall i, j :: 0 <= i < j < |names| ==> names[i] != names[j]
    ensures DistinctNames(topics) && PlainHeads(topics)
  {
    hide IsStored, HasPlainHead;
    forall i | 0 <= i < |names| ensures topics[i].entity.name == names[i] && HasPlainHead(topics[i]) {
      StoredHasHead(db, topics[i], names[i], hash);
    }
  }

  lemma StoredPaths(db: Db, topics: seq<Topic>, names: seq<string>, hash: string -> string)
    requires |topics| == |names| && forall i :: 0 <= i < |names| ==> IsStored(db, topics[i], names[i], hash)
    requires forall n :: n in names <==> n in db.entities
    requires forall i, j :: 0 <= i < j < |names| ==> names[i] != names[j]
    ensures DistinctPaths(topics) <==> NoneAlike(db)
  {
    hide *;
    DistinctPathsShareNone(topics);
    forall i, j | 0 <= i < j < |names|
      ensures Collide(topics[i], topics[j])
         <==> IsSynced(db, names[i]) && IsSynced(db, names[j]) && AreAlike(names[i], names[j])
    {
      StoredCollide(db, topics[i], topics[j], names[i], names[j], hash);
    }
    NoneAlikeByIndex(db, names);
  }

  lemma StoredTopics(db: Db, hash: string -> string)
    requires NamesAreCanonical(db) && "" !in db.entities
    ensures var topics := TopicsOf(FullRead(db), hash);
            DistinctNames(topics) && PlainHeads(topics) && (DistinctPaths(topics) <==> NoneAlike(db))
  {
    var names := Sorted(db.entities.Keys);
    assert StrictlySorted(names) && forall n :: n in names <==> n in db.entities;
    hide *;
    var topics := TopicsOf(FullRead(db), hash);
    NumberOfTopics(db, hash);
    SortedIsDuplicateFree(names);
    forall i | 0 <= i < |names| ensures IsStored(db, topics[i], names[i], hash) { TopicIsStored(db, hash, i); }
    StoredHeads(db, topics, names, hash);
    StoredPaths(db, topics, names, hash);
  }

  lemma StoredHasHead(db: Db, t: Topic, name: string, hash: string -> string)
    requires IsStored(db, t, name, hash)
    ensures t.entity.name == name && HasPlainHead(t)
  {
  }

  lemma NumberOfTopics(db: Db, hash: string -> string)
    ensures |TopicsOf(FullRead(db), hash)| == |Sorted(db.entities.Keys)| == |db.entities|
  {
    hide Graphs.Listing, Sorted;
    assert |db.entities| == |db.entities.Keys|;
  }

  lemma AlikeIsSymmetric(v: string, w: string)
    ensures AreAlike(v, w) <==> AreAlike(w, v)
  {
  }

  lemma NoneAlikeByIndex(db: Db, names: seq<string>)
    requires forall n :: n in names <==> n in db.entities
    requires forall i, j :: 0 <= i < j < |names| ==> names[i] != names[j]
    ensures NoneAlike(db)
       <==> forall i, j :: 0 <= i < j < |names| ==>
              !(IsSynced(db, names[i]) && IsSynced(db, names[j]) && AreAlike(names[i], names[j]))
  {
    hide AreAlike, IsSynced;
    if forall i, j :: 0 <= i < j < |names| ==>
         !(IsSynced(db, names[i]) && IsSynced(db, names[j]) && AreAlike(names[i], names[j])) {
      forall v, w | v in db.entities && w in db.entities && v != w && IsSynced(db, v) && IsSynced(db, w)
        ensures !AreAlike(v, w)
      {
        var i :| 0 <= i < |names| && names[i] == v;
        var j :| 0 <= j < |names| && names[j] == w;
        AlikeIsSymmetric(v, w);
      }
    }
  }

  /** A second sync of an unchanged stored graph writes nothing exactly when no
      two synced names are alike and every topic either was up to date before the
      first or has its new stamp read back. */
  lemma StoredGraphSettles(db: Db, hash: string -> string, files: map<string, string>, today: string, later: string)
    requires NamesAreCanonical(db) && "" !in db.entities && IsOneLine(today)
    ensures var topics := TopicsOf(FullRead(db), hash);
            var once := Synced(files, topics, today).0;
            Synced(once, topics, later) == (once, 0)
            <==> && NoneAlike(db)
                 && forall t :: t in topics && ShouldSync(t.entity.kind) ==>
                      Kept(files, t).Some? || StampRead(t, today) == Some(today)
  {
    hide *;
    StoredTopics(db, hash);
    ResyncWritesNothing(files, TopicsOf(FullRead(db), hash), today, later);
  }
}
