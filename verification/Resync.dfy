/** Syncing an unchanged graph again: exactly which files are rewritten. */
module Resync {
  import opened Options
  import opened Normalize
  import opened Schema
  import opened Slug
  import opened Frontmatter
  import opened TextLines
  import opened Compact
  import opened Sync

  ghost predicate DistinctNames(topics: seq<Topic>) {
    forall i, j :: 0 <= i < j < |topics| ==> topics[i].entity.name != topics[j].entity.name
  }

  ghost predicate PlainHeads(topics: seq<Topic>) {
    forall t :: t in topics && ShouldSync(t.entity.kind) ==> HasPlainHead(t)
  }

  /** Two synced topics with one path. */
  predicate Collide(a: Topic, b: Topic) {
    ShouldSync(a.entity.kind) && ShouldSync(b.entity.kind) && Path(a) == Path(b)
  }

  /** A synced topic other than number `n` has the same path. */
  predicate SharesPath(topics: seq<Topic>, n: nat)
    requires n < |topics|
  {
    exists i :: 0 <= i < |topics| && i != n && ShouldSync(topics[i].entity.kind) && Path(topics[i]) == Path(topics[n])
  }

  /** The old file is not the topic's rendering, and a rendering with the new
      stamp would be read back with another. */
  predicate HidesStamp(files: map<string, string>, t: Topic, today: string) {
    Kept(files, t).None? && StampRead(t, today) != Some(today)
  }

  /** How many of the first `n` topics a repeated sync rewrites. */
  function Unsettled(files: map<string, string>, topics: seq<Topic>, today: string, n: nat): nat
    requires n <= |topics|
  {
    if n == 0 then 0
    else
      var t := topics[n - 1];
      var again := ShouldSync(t.entity.kind) && (SharesPath(topics, n - 1) || HidesStamp(files, t, today));
      Unsettled(files, topics, today, n - 1) + if again then 1 else 0
  }

  // ---- who wrote a file -----------------------------------------------------

  /** The last of the first `n` topics that is synced to `path`, or -1. */
  function LastOn(topics: seq<Topic>, n: nat, path: string): (i: int)
    requires n <= |topics|
    ensures -1 <= i < n
    ensures i >= 0 ==> ShouldSync(topics[i].entity.kind) && Path(topics[i]) == path
    ensures forall k :: i < k < n ==> !(ShouldSync(topics[k].entity.kind) && Path(topics[k]) == path)
  {
    if n == 0 then -1
    else if ShouldSync(topics[n - 1].entity.kind) && Path(topics[n - 1]) == path then n - 1
    else LastOn(topics, n - 1, path)
  }

  /** The files after syncing the first `n` topics. */
  function FilesAfter(files: map<string, string>, topics: seq<Topic>, today: string, n: nat): map<string, string>
    requires n <= |topics|
  {
    Synced(files, topics[..n], today).0
  }

  lemma SyncStep(files: map<string, string>, topics: seq<Topic>, today: string, n: nat)
    requires n < |topics|
    ensures var t, before := topics[n], FilesAfter(files, topics, today, n);
            var writes := ShouldSync(t.entity.kind) && Kept(before, t).None?;
            && FilesAfter(files, topics, today, n + 1)
                == (if writes then before[Path(t) := Rendered(t, today)] else before)
            && Synced(files, topics[..n + 1], today).1
                == Synced(files, topics[..n], today).1 + if writes then 1 else 0
  {
    hide Kept, Path, Rendered;
    assert topics[..n + 1][..n] == topics[..n];
  }

  lemma NothingSynced(files: map<string, string>, topics: seq<Topic>, today: string)
    ensures FilesAfter(files, topics, today, 0) == files && Synced(files, topics[..0], today).1 == 0
    ensures topics[..|topics|] == topics
  {
  }

  /** A file is what the last topic synced to it left. */
  lemma {:induction false} FileIsOfLastWriter(
    files: map<string, string>, topics: seq<Topic>, today: string, n: nat, path: string)
    requires n <= |topics|
    ensures var turn := LastOn(topics, n, path) + 1;
            SameFile(FilesAfter(files, topics, today, n), FilesAfter(files, topics, today, turn), path)
  {
    hide Kept, Path, Rendered, FilesAfter;
    if n > 0 {
      FileIsOfLastWriter(files, topics, today, n - 1, path);
      SyncStep(files, topics, today, n - 1);
    }
  }

  /** Just after its own turn a synced topic's file is its rendering. */
  lemma TurnRenders(files: map<string, string>, topics: seq<Topic>, today: string, i: nat)
    requires i < |topics| && ShouldSync(topics[i].entity.kind)
    ensures var t, after := topics[i], FilesAfter(files, topics, today, i + 1);
            && Path(t) in after
            && after[Path(t)] == Rendered(t, StampAfter(FilesAfter(files, topics, today, i), t, today))
  {
    hide Kept, Path, Rendered, FilesAfter;
    SyncStep(files, topics, today, i);
    KeptIsRendered(FilesAfter(files, topics, today, i), topics[i]);
  }

  /** A file that is a rendering of another entity is not kept. */
  lemma ForeignFileIsStale(files: map<string, string>, turn: map<string, string>, t: Topic, u: Topic, stamp: string)
    requires IsOneLine(t.entity.name) && IsOneLine(u.entity.name) && t.entity.name != u.entity.name
    requires Path(t) in turn && turn[Path(t)] == Rendered(u, stamp) && SameFile(files, turn, Path(t))
    ensures Kept(files, t).None?
  {
    hide Kept, Path, Rendered;
    KeptIsRendered(files, t);
    if Kept(files, t).Some? {
      RenderingNamesItsEntity(t, u, Kept(files, t).value, stamp);
    }
  }

  /** After a sync of `n` topics the file of a path some of them is synced to is
      of the last one. */
  lemma FileNamesLastWriter(files: map<string, string>, topics: seq<Topic>, today: string, n: nat, t: Topic)
    requires n <= |topics| && PlainHeads(topics) && HasPlainHead(t)
    requires var i := LastOn(topics, n, Path(t)); i >= 0 && topics[i].entity.name != t.entity.name
    ensures Kept(FilesAfter(files, topics, today, n), t).None?
  {
    hide *;
    var i := LastOn(topics, n, Path(t));
    NamesAreOneLine(topics, i);
    HeadHasName(t);
    FileIsOfLastWriter(files, topics, today, n, Path(t));
    TurnRenders(files, topics, today, i);
    var stamp := StampAfter(FilesAfter(files, topics, today, i), topics[i], today);
    ForeignFileIsStale(FilesAfter(files, topics, today, n), FilesAfter(files, topics, today, i + 1), t,
        topics[i], stamp);
  }

  lemma HeadHasName(t: Topic)
    requires HasPlainHead(t)
    ensures IsOneLine(t.entity.name)
  {
  }

  lemma NamesAreOneLine(topics: seq<Topic>, i: nat)
    requires i < |topics| && PlainHeads(topics) && ShouldSync(topics[i].entity.kind)
    ensures HasPlainHead(topics[i]) && IsOneLine(topics[i].entity.name)
  {
    assert topics[i] in topics;
  }

  // ---- one topic of a repeated sync -----------------------------------------

  /** A topic alone on its path keeps its first file exactly when its stamp is
      read back. */
  lemma LoneTopicSettles(files: map<string, string>, topics: seq<Topic>, today: string, n: nat)
    requires n < |topics| && ShouldSync(topics[n].entity.kind) && HasPlainHead(topics[n]) && IsOneLine(today)
    requires LastOn(topics, n, Path(topics[n])) == -1 && LastOn(topics, |topics|, Path(topics[n])) == n
    ensures Kept(FilesAfter(files, topics, today, |topics|), topics[n]).None? <==> HidesStamp(files, topics[n], today)
  {
    hide Kept, Path, Rendered, FilesAfter, LastOn, HasPlainHead, StampRead;
    var t := topics[n];
    var mid, once := FilesAfter(files, topics, today, n), FilesAfter(files, topics, today, |topics|);
    FileIsOfLastWriter(files, topics, today, n, Path(t));
    NothingSynced(files, topics, today);
    KeptDependsOnPath(mid, files, t);
    FileIsOfLastWriter(files, topics, today, |topics|, Path(t));
    TurnRenders(files, topics, today, n);
    if Kept(files, t).Some? {
      KeptIsRendered(files, t);
      KeptDependsOnPath(once, files, t);
    } else {
      RenderingIsRecognised(once, t, today);
    }
  }

  /** What a repeated sync finds when it comes to a topic. */
  lemma TopicIsRewritten(files: map<string, string>, topics: seq<Topic>, today: string, later: string, n: nat)
    requires n < |topics| && ShouldSync(topics[n].entity.kind)
    requires DistinctNames(topics) && PlainHeads(topics) && IsOneLine(today)
    ensures var once := FilesAfter(files, topics, today, |topics|);
            Kept(FilesAfter(once, topics, later, n), topics[n]).None?
            <==> SharesPath(topics, n) || HidesStamp(files, topics[n], today)
  {
    hide *;
    var t := topics[n];
    NamesAreOneLine(topics, n);
    WhoSharesPath(topics, n);
    var once := FilesAfter(files, topics, today, |topics|);
    var before, last := LastOn(topics, n, Path(t)), LastOn(topics, |topics|, Path(t));
    if before >= 0 {
      FileNamesLastWriter(once, topics, later, n, t);
    } else {
      FileIsOfLastWriter(once, topics, later, n, Path(t));
      NothingSynced(once, topics, later);
      KeptDependsOnPath(FilesAfter(once, topics, later, n), once, t);
      if last != n {
        FileNamesLastWriter(files, topics, today, |topics|, t);
      } else {
        LoneTopicSettles(files, topics, today, n);
      }
    }
  }

  /** A topic shares its path exactly when another one is synced to it before,
      or last. */
  lemma WhoSharesPath(topics: seq<Topic>, n: nat)
    requires n < |topics| && ShouldSync(topics[n].entity.kind) && DistinctNames(topics)
    ensures var before, last := LastOn(topics, n, Path(topics[n])), LastOn(topics, |topics|, Path(topics[n]));
            && last >= 0
            && (SharesPath(topics, n) <==> before >= 0 || last != n)
            && (before >= 0 ==> topics[before].entity.name != topics[n].entity.name)
            && (last != n ==> topics[last].entity.name != topics[n].entity.name)
  {
    hide Path, LastOn;
  }

  // ---- repeated syncs -------------------------------------------------------

  lemma {:induction false} ResyncCounts(
    files: map<string, string>, topics: seq<Topic>, today: string, later: string, n: nat)
    requires n <= |topics| && DistinctNames(topics) && PlainHeads(topics) && IsOneLine(today)
    ensures var once := FilesAfter(files, topics, today, |topics|);
            Synced(once, topics[..n], later).1 == Unsettled(files, topics, today, n)
  {
    hide Kept, Path, Rendered, FilesAfter, SharesPath, HidesStamp, Synced, DistinctNames, PlainHeads;
    var once := FilesAfter(files, topics, today, |topics|);
    if n == 0 {
      NothingSynced(once, topics, later);
    } else {
      ResyncCounts(files, topics, today, later, n - 1);
      SyncStep(once, topics, later, n - 1);
      if ShouldSync(topics[n - 1].entity.kind) {
        TopicIsRewritten(files, topics, today, later, n - 1);
      }
    }
  }

  /** Syncing an unchanged graph again rewrites exactly the topics that share
      their path with another synced topic, and those whose stamp is hidden. */
  lemma ResyncRewritesExactly(files: map<string, string>, topics: seq<Topic>, today: string, later: string)
    requires DistinctNames(topics) && PlainHeads(topics) && IsOneLine(today)
    ensures Synced(Synced(files, topics, today).0, topics, later).1 == Unsettled(files, topics, today, |topics|)
  {
    hide Synced, Unsettled;
    NothingSynced(files, topics, today);
    ResyncCounts(files, topics, today, later, |topics|);
  }

  lemma {:induction false} NoneUnsettled(files: map<string, string>, topics: seq<Topic>, today: string, n: nat)
    requires n <= |topics|
    ensures Unsettled(files, topics, today, n) == 0
       <==> forall i :: 0 <= i < n && ShouldSync(topics[i].entity.kind) ==>
              !SharesPath(topics, i) && !HidesStamp(files, topics[i], today)
  {
    hide SharesPath, HidesStamp;
    if n > 0 { NoneUnsettled(files, topics, today, n - 1); }
  }

  lemma {:induction false} CountIsZeroWhenUnchanged(files: map<string, string>, topics: seq<Topic>, later: string)
    ensures Synced(files, topics, later).1 == 0 ==> Synced(files, topics, later).0 == files
  {
    hide Kept, Path, Rendered;
    if topics != [] { CountIsZeroWhenUnchanged(files, topics[..|topics| - 1], later); }
  }

  lemma {:induction false} DistinctPathsShareNone(topics: seq<Topic>)
    ensures DistinctPaths(topics)
       <==> forall i, j :: 0 <= i < j < |topics| ==> !Collide(topics[i], topics[j])
  {
    hide Path;
    if topics != [] {
      var before, t := topics[..|topics| - 1], topics[|topics| - 1];
      DistinctPathsShareNone(before);
      forall i | 0 <= i < |before| && ShouldSync(before[i].entity.kind)
        ensures Path(before[i]) in SyncedPaths(before)
      {
        assert before[i] in before;
      }
    }
  }

  /** A second sync of an unchanged graph writes nothing, whatever the time,
      exactly when no two synced topics share a path and every topic either was
      up to date before the first sync or has its new stamp read back. */
  lemma ResyncWritesNothing(files: map<string, string>, topics: seq<Topic>, today: string, later: string)
    requires DistinctNames(topics) && PlainHeads(topics) && IsOneLine(today)
    ensures var once := Synced(files, topics, today).0;
            Synced(once, topics, later) == (once, 0)
            <==> DistinctPaths(topics)
                 && forall t :: t in topics && ShouldSync(t.entity.kind) ==>
                     Kept(files, t).Some? || StampRead(t, today) == Some(today)
  {
    var once := Synced(files, topics, today).0;
    ResyncRewritesExactly(files, topics, today, later);
    NoneUnsettled(files, topics, today, |topics|);
    CountIsZeroWhenUnchanged(once, topics, later);
    DistinctPathsShareNone(topics);
    hide Kept, Path, StampRead, Synced, Unsettled, DistinctPaths, DistinctNames, PlainHeads;
    assert forall i :: 0 <= i < |topics| ==> topics[i] in topics;
    SharingIsSymmetric(topics);
  }

  lemma SharingIsSymmetric(topics: seq<Topic>)
    ensures (forall i :: 0 <= i < |topics| && ShouldSync(topics[i].entity.kind) ==> !SharesPath(topics, i))
       <==> forall i, j :: 0 <= i < j < |topics| ==> !Collide(topics[i], topics[j])
  {
    hide Path;
  }

  // ---- plain topics ---------------------------------------------------------

  predicate StartsList(s: string) {
    s != "" && s[0] == '['
  }

  lemma {:induction false} LinksStartList(t: Topic, relations: seq<Relation>, kind: string)
    ensures forall l :: l in Targets(t, relations, kind) ==> StartsList(l)
    ensures kind in Kinds(t, relations) ==> Targets(t, relations, kind) != []
  {
    if relations != [] {
      var before, last := relations[..|relations| - 1], relations[|relations| - 1];
      LinksStartList(t, before, kind);
      assert relations == before + [last];
      assert StartsList(Link(t, last.to));
    }
  }

  /** A stamp that is no list is hidden exactly by an outgoing `compacted`
      relation. */
  lemma PlainTopicHidesStamp(t: Topic, stamp: string)
    requires IsPlain(t) && IsOneLine(stamp) && !StartsList(stamp)
    ensures StampRead(t, stamp) != Some(stamp) <==> "compacted" in Kinds(t, t.relations)
  {
    hide StampRead, IsPlain, Kinds, Targets, Quote;
    PlainStampIsRead(t, stamp);
    LinksStartList(t, t.relations, "compacted");
    var links := Targets(t, t.relations, "compacted");
    if |links| == 1 { assert links[0] in links; }
  }

  /** For plain topics, and a stamp that is no list: a second sync writes nothing
      exactly when no two synced topics share a path and each was up to date or
      has no outgoing `compacted` relation. */
  lemma PlainResyncWritesNothing(files: map<string, string>, topics: seq<Topic>, today: string, later: string)
    requires DistinctNames(topics) && IsOneLine(today) && !StartsList(today)
    requires forall t :: t in topics && ShouldSync(t.entity.kind) ==> IsPlain(t)
    ensures var once := Synced(files, topics, today).0;
            Synced(once, topics, later) == (once, 0)
            <==> && DistinctPaths(topics)
                 && forall t :: t in topics && ShouldSync(t.entity.kind) ==>
                      Kept(files, t).Some? || "compacted" !in Kinds(t, t.relations)
  {
    assert PlainHeads(topics);
    hide *;
    ResyncWritesNothing(files, topics, today, later);
    forall t | t in topics && ShouldSync(t.entity.kind)
      ensures StampRead(t, today) == Some(today) <==> "compacted" !in Kinds(t, t.relations)
    {
      PlainTopicHidesStamp(t, today);
    }
  }

  // ---- two graphs that never settle -----------------------------------------

  const STAMP := "2026-01-31 12:00"

  /** An entity with a relation called `compacted` to itself. */
  function Hider(): Topic {
    Topic(Subject("a", "note", [], map[]), [Relation("a", "a", "compacted")], (name: string) => name)
  }

  lemma HiderIsPlain()
    ensures IsPlain(Hider()) && "compacted" in Kinds(Hider(), Hider().relations)
  {
    CountKeys();
    hide IsPlainKey;
    assert Hider().relations[0] in Hider().relations;
  }

  lemma StampIsNoList()
    ensures IsOneLine(STAMP) && !StartsList(STAMP)
  {
  }

  lemma HiderHides()
    ensures HasPlainHead(Hider()) && ShouldSync(Hider().entity.kind) && HidesStamp(map[], Hider(), STAMP)
  {
    hide IsPlain, Kinds, StampRead, Parsed, Rendered, HasPlainHead;
    HiderIsPlain();
    PlainHasHead(Hider());
    StampIsNoList();
    PlainTopicHidesStamp(Hider(), STAMP);
  }

  lemma LoneHiderIsRewritten(files: map<string, string>, t: Topic, today: string, later: string)
    requires HasPlainHead(t) && ShouldSync(t.entity.kind) && HidesStamp(files, t, today) && IsOneLine(today)
    ensures Synced(Synced(files, [t], today).0, [t], later).1 == 1
  {
    hide HidesStamp, SharesPath, Synced, HasPlainHead;
    ResyncRewritesExactly(files, [t], today, later);
    assert Unsettled(files, [t], today, 0) == 0;
  }

  /** Its file is written by every sync, on an empty directory and again. */
  lemma HiderIsRewritten(later: string)
    ensures Synced(Synced(map[], [Hider()], STAMP).0, [Hider()], later).1 == 1
  {
    hide *;
    HiderHides();
    StampIsNoList();
    LoneHiderIsRewritten(map[], Hider(), STAMP, later);
  }

  lemma PlainHasHead(t: Topic)
    requires IsPlain(t)
    ensures HasPlainHead(t)
  {
  }

  /** Two notes whose names differ in a separator. */
  function Twins(): seq<Topic> {
    var slugOf := (name: string) => Slugify(name, "");
    [Topic(Subject("a.b", "note", [], map[]), [], slugOf), Topic(Subject("a-b", "note", [], map[]), [], slugOf)]
  }

  lemma TwinsShareSlug()
    ensures Slugify("a.b", "") == Slugify("a-b", "") && IsOneLine(Slugify("a.b", ""))
  {
    var v, w := "a.b", "a-b";
    assert IsWellFormed(v) && IsWellFormed(w);
    SlugsCollide(v, w, "", "");
    SlugOfNormalForm(v, "");
    assert forall c :: c in Dashed(v) ==> c != '\n';
  }

  /** Both are written by every sync. */
  lemma TwinsAreRewritten(later: string)
    ensures Synced(Synced(map[], Twins(), STAMP).0, Twins(), later).1 == 2
  {
    hide Slugify, Synced, Kept, StampRead;
    TwinsShareSlug();
    StampIsNoList();
    var twins := Twins();
    assert twins[0].entity.name[1] != twins[1].entity.name[1];
    assert IsOneLine(twins[0].entity.name) && IsOneLine(twins[1].entity.name);
    assert SharesPath(twins, 0) && SharesPath(twins, 1) by { assert Path(twins[0]) == Path(twins[1]); }
    assert ShouldSync(twins[0].entity.kind) && ShouldSync(twins[1].entity.kind);
    ResyncRewritesExactly(map[], twins, STAMP, later);
    hide SharesPath;
    assert Unsettled(map[], twins, STAMP, 0) == 0;
    assert Unsettled(map[], twins, STAMP, 1) == 1;
  }
}
