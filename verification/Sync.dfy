/** What the Markdown projection keeps: a topic is read back as it was
    rendered, and syncing refines rewriting every topic. */
module Sync {
  import opened Normalize
  import opened Decimals
  import opened Options
  import opened Order
  import opened Schema
  import opened Frontmatter
  import opened TextLines
  import opened Pages
  import opened Lists
  import opened Compact

  // ---- the rendered topic is read back --------------------------------------

  /** The name and slug lines hold together, as those of stored names do. The
      kind, truth values and relation kinds are free. */
  predicate HasPlainHead(t: Topic) {
    IsOneLine(t.entity.name) && IsOneLine(Slug(t))
  }

  /** The texts of a topic that the line-based block can carry. */
  predicate IsPlain(t: Topic) {
    && HasPlainHead(t) && IsOneLine(t.entity.kind)
    && (forall k :: k in t.entity.truths ==> IsPlainKey("truth_" + k) && IsOneLine(t.entity.truths[k]))
    && (forall r :: r in t.relations && r.from == t.entity.name ==> IsPlainKey(r.kind) && IsOneLine(t.slugOf(r.to)))
  }

  /** What a list of links reads as: one link bare, several as the list text. */
  function LinkValue(links: seq<string>): string {
    if |links| == 1 then links[0] else LinksText(links)
  }

  function IdentityMap(t: Topic, stamp: string): map<string, string> {
    map["title" := t.entity.name, "type" := t.entity.kind, "slug" := Slug(t), "aliases" := t.entity.name,
        "observations" := Decimal(|t.entity.observations|), "relations" := Decimal(OutgoingCount(t, t.relations)),
        "compacted" := stamp]
  }

  function TruthMap(t: Topic, keys: set<string>): map<string, string>
    requires keys <= t.entity.truths.Keys
  {
    map p | p in (set k | k in keys :: "truth_" + k) :: t.entity.truths[p[6..]]
  }

  function LinkMap(t: Topic, kinds: set<string>): map<string, string> {
    map kind | kind in kinds :: LinkValue(Targets(t, t.relations, kind))
  }

  /** The fields of a topic as a reader should see them. */
  function FieldMap(t: Topic, stamp: string): map<string, string> {
    IdentityMap(t, stamp) + TruthMap(t, t.entity.truths.Keys) + LinkMap(t, Kinds(t, t.relations))
  }

  lemma {:induction false} ReplaceAddsNothing(s: string, from: string, to: string, c: char)
    requires from != "" && c !in s && c !in to
    ensures c !in Replace(s, from, to)
    decreases |s|
  {
    if s != "" {
      if from <= s { ReplaceAddsNothing(s[|from|..], from, to, c); } else { ReplaceAddsNothing(s[1..], from, to, c); }
    }
  }

  lemma QuoteIsPlain(v: string)
    requires IsOneLine(v)
    ensures IsPlainText(Quote(v))
  {
    ReplaceAddsNothing(v, "\\", "\\\\", '\n');
    ReplaceAddsNothing(Replace(v, "\\", "\\\\"), "\"", "\\\"", '\n');
    var e := Escape(v);
    assert '\n' !in e;
    hide Escape;
    assert Quote(v) == "\"" + e + "\"";
  }

  lemma DecimalIsPlain(n: nat)
    ensures IsPlainText(Decimal(n)) && Unquote(Decimal(n)) == Decimal(n)
  {
    DecimalIsDigits(n);
    var d := Decimal(n);
    assert IsDigit(d[0]) && IsDigit(d[|d| - 1]);
    TrimKeepsInked(d);
  }

  lemma {:induction false} QuotedIsOneLine(links: seq<string>)
    requires forall l :: l in links ==> IsOneLine(l)
    ensures IsOneLine(Quoted(links))
  {
    if links != [] {
      assert links[|links| - 1] in links;
      QuoteIsPlain(links[|links| - 1]);
      if |links| > 1 { QuotedIsOneLine(links[..|links| - 1]); }
    }
  }

  lemma LinksTextIsPlain(links: seq<string>)
    requires forall l :: l in links ==> IsOneLine(l)
    ensures IsPlainText(LinksText(links)) && Unquote(LinksText(links)) == LinkValue(links)
  {
    if |links| == 1 {
      assert links[0] in links;
      QuoteIsPlain(links[0]);
      QuoteRoundTrips(links[0]);
    } else {
      QuotedIsOneLine(links);
      TrimKeepsInked(LinksText(links));
    }
  }

  lemma {:induction false} TargetsAreOneLine(t: Topic, relations: seq<Relation>, kind: string)
    requires forall r :: r in relations && r.from == t.entity.name ==> IsOneLine(t.slugOf(r.to))
    ensures forall l :: l in Targets(t, relations, kind) ==> IsOneLine(l)
  {
    if relations != [] {
      var last := relations[|relations| - 1];
      assert last in relations;
      TargetsAreOneLine(t, relations[..|relations| - 1], kind);
    }
  }

  lemma {:induction false} CollectConcat(a: seq<Field>, b: seq<Field>, into: map<string, string>)
    ensures Collect(a + b, into) == Collect(b, Collect(a, into))
  {
    if a == [] {
      assert a + b == b;
    } else {
      assert (a + b)[1..] == a[1..] + b;
      CollectConcat(a[1..], b, into[a[0].key := Unquote(a[0].text)]);
    }
  }

  lemma CollectSnoc(fields: seq<Field>, n: nat, into: map<string, string>)
    requires n < |fields|
    ensures Collect(fields[..n + 1], into) == Collect(fields[..n], into)[fields[n].key := Unquote(fields[n].text)]
    ensures Collect(fields[..0], into) == into && Collect(fields[..|fields|], into) == Collect(fields, into)
  {
    hide Unquote;
    assert fields[..n + 1] == fields[..n] + [fields[n]];
    assert fields[..|fields|] == fields;
    CollectConcat(fields[..n], [fields[n]], into);
  }

  lemma QuoteReads(v: string)
    requires IsOneLine(v)
    ensures IsPlainText(Quote(v)) && Unquote(Quote(v)) == v
  {
    QuoteIsPlain(v);
    QuoteRoundTrips(v);
  }

  lemma IdentityReads(t: Topic, stamp: string)
    requires HasPlainHead(t) && IsOneLine(t.entity.kind) && IsOneLine(stamp)
    ensures IsPlainText(Quote(t.entity.name)) && Unquote(Quote(t.entity.name)) == t.entity.name
    ensures IsPlainText(Quote(t.entity.kind)) && Unquote(Quote(t.entity.kind)) == t.entity.kind
    ensures IsPlainText(Quote(Slug(t))) && Unquote(Quote(Slug(t))) == Slug(t)
    ensures IsPlainText(Quote(stamp)) && Unquote(Quote(stamp)) == stamp
    ensures forall n: nat :: IsPlainText(Decimal(n)) && Unquote(Decimal(n)) == Decimal(n)
  {
    hide Quote, Unquote, Decimal, IsPlainText;
    QuoteReads(t.entity.name);
    QuoteReads(t.entity.kind);
    QuoteReads(Slug(t));
    QuoteReads(stamp);
    forall n: nat ensures IsPlainText(Decimal(n)) && Unquote(Decimal(n)) == Decimal(n) { DecimalIsPlain(n); }
  }

  lemma LetterKeys()
    ensures IsPlainKey("title") && IsPlainKey("type") && IsPlainKey("slug") && IsPlainKey("aliases")
  {
    hide Trim;
    TrimKeepsInked("title");
    TrimKeepsInked("type");
    TrimKeepsInked("slug");
    TrimKeepsInked("aliases");
  }

  lemma CountKeys()
    ensures IsPlainKey("observations") && IsPlainKey("relations") && IsPlainKey("compacted")
  {
    hide Trim;
    TrimKeepsInked("observations");
    TrimKeepsInked("relations");
    TrimKeepsInked("compacted");
  }

  lemma IdentityIsPlain(t: Topic, stamp: string)
    requires HasPlainHead(t) && IsOneLine(t.entity.kind) && IsOneLine(stamp)
    ensures forall f :: f in IdentityFields(t, stamp) ==> IsPlainField(f)
  {
    hide Quote, Unquote, Decimal, IsPlainText, OutgoingCount, IsPlain, IsPlainKey;
    IdentityReads(t, stamp);
    LetterKeys();
    CountKeys();
  }

  lemma CollectSeven(f: seq<Field>)
    requires |f| == 7
    ensures Collect(f, map[]) ==
            map[][f[0].key := Unquote(f[0].text)][f[1].key := Unquote(f[1].text)][f[2].key := Unquote(f[2].text)]
                 [f[3].key := Unquote(f[3].text)][f[4].key := Unquote(f[4].text)][f[5].key := Unquote(f[5].text)]
                 [f[6].key := Unquote(f[6].text)]
  {
    hide Unquote, Collect;
    CollectSnoc(f, 0, map[]);
    CollectSnoc(f, 1, map[]);
    CollectSnoc(f, 2, map[]);
    CollectSnoc(f, 3, map[]);
    CollectSnoc(f, 4, map[]);
    CollectSnoc(f, 5, map[]);
    CollectSnoc(f, 6, map[]);
  }

  lemma IdentityIsCollected(t: Topic, stamp: string)
    requires HasPlainHead(t) && IsOneLine(t.entity.kind) && IsOneLine(stamp)
    ensures Collect(IdentityFields(t, stamp), map[]) == IdentityMap(t, stamp)
  {
    IdentityReads(t, stamp);
    CollectSeven(IdentityFields(t, stamp));
    hide Unquote, Quote, Decimal, OutgoingCount, Collect, IsPlain, IsPlainText;
  }

  lemma OverlayGrows(a: map<string, string>, b: map<string, string>, key: string, value: string)
    ensures a + b[key := value] == (a + b)[key := value]
    ensures a + map[] == a
  {
  }

  lemma NoTruths(t: Topic)
    ensures Members([]) == {} && TruthMap(t, {}) == map[] && LinkMap(t, {}) == map[]
  {
  }

  lemma TruthReads(t: Topic, key: string)
    requires IsPlain(t) && key in t.entity.truths
    ensures TruthField(t, key).key == "truth_" + key && Unquote(TruthField(t, key).text) == t.entity.truths[key]
    ensures IsPlainField(TruthField(t, key))
  {
    hide Quote, Unquote, IsPlainText, IsPlainKey;
    QuoteReads(t.entity.truths[key]);
  }

  lemma TruthsArePlain(t: Topic)
    requires IsPlain(t)
    ensures forall f :: f in TruthFields(t) ==> IsPlainField(f)
  {
    hide IsPlain, IsPlainField;
    var keys := Sorted(t.entity.truths.Keys);
    forall i | 0 <= i < |keys| ensures IsPlainField(TruthFields(t)[i]) {
      TruthReads(t, keys[i]);
    }
  }

  lemma TruthFieldAt(t: Topic, i: nat)
    requires i < |t.entity.truths|
    ensures |TruthFields(t)| == |t.entity.truths| == |t.entity.truths.Keys|
    ensures var key := Sorted(t.entity.truths.Keys)[i];
            key in t.entity.truths && TruthFields(t)[i] == TruthField(t, key)
  {
  }

  lemma TruthsPrefix(t: Topic, n: nat)
    requires n <= |t.entity.truths|
    ensures |TruthFields(t)| == |t.entity.truths| == |t.entity.truths.Keys|
    ensures Members(Sorted(t.entity.truths.Keys)[..n]) <= t.entity.truths.Keys
  {
    hide TruthField, StrictlySorted;
  }

  lemma NoTruthsCollected(t: Topic, into: map<string, string>)
    ensures Collect(TruthFields(t)[..0], into) == into + TruthMap(t, Members(Sorted(t.entity.truths.Keys)[..0]))
  {
    hide TruthField, StrictlySorted, Unquote;
    NoTruths(t);
    OverlayGrows(into, map[], "", "");
    assert TruthFields(t)[..0] == [] && Sorted(t.entity.truths.Keys)[..0] == [];
  }

  lemma {:induction false} TruthsAreCollected(t: Topic, n: nat, into: map<string, string>)
    requires IsPlain(t) && n <= |t.entity.truths|
    ensures |TruthFields(t)| == |t.entity.truths| == |t.entity.truths.Keys|
    ensures Members(Sorted(t.entity.truths.Keys)[..n]) <= t.entity.truths.Keys
    ensures Collect(TruthFields(t)[..n], into) == into + TruthMap(t, Members(Sorted(t.entity.truths.Keys)[..n]))
  {
    hide *;
    TruthsPrefix(t, n);
    if n == 0 {
      NoTruthsCollected(t, into);
    } else {
      TruthsAreCollected(t, n - 1, into);
      TruthFieldAt(t, n - 1);
      var fields, keys := TruthFields(t), Sorted(t.entity.truths.Keys);
      var k := keys[n - 1];
      CollectSnoc(fields, n - 1, into);
      TruthReads(t, k);
      MembersSnoc(keys, n - 1);
      TruthMapGrows(t, Members(keys[..n - 1]), k);
      OverlayGrows(into, TruthMap(t, Members(keys[..n - 1])), TruthField(t, k).key, t.entity.truths[k]);
    }
  }

  lemma TruthMapGrows(t: Topic, keys: set<string>, k: string)
    requires keys <= t.entity.truths.Keys && k in t.entity.truths
    ensures TruthMap(t, keys + {k}) == TruthMap(t, keys)["truth_" + k := t.entity.truths[k]]
  {
    assert ("truth_" + k)[6..] == k;
  }

  lemma LinkReads(t: Topic, kind: string)
    requires IsPlain(t) && kind in Kinds(t, t.relations)
    ensures IsPlainField(LinkField(t, kind))
        && Unquote(LinkField(t, kind).text) == LinkValue(Targets(t, t.relations, kind))
  {
    TargetsAreOneLine(t, t.relations, kind);
    LinksTextIsPlain(Targets(t, t.relations, kind));
  }

  lemma LinksArePlain(t: Topic)
    requires IsPlain(t)
    ensures forall f :: f in LinkFields(t) ==> IsPlainField(f)
  {
    hide IsPlain, LinkField, IsPlainField, Kinds, Sorted;
    forall f | f in LinkFields(t) ensures IsPlainField(f) {
      var kind :| kind in Kinds(t, t.relations) && f == LinkField(t, kind);
      LinkReads(t, kind);
    }
  }

  lemma LinkMapGrows(t: Topic, kinds: set<string>, kind: string)
    ensures LinkMap(t, kinds + {kind}) == LinkMap(t, kinds)[kind := LinkValue(Targets(t, t.relations, kind))]
  {
  }

  lemma LinkFieldAt(t: Topic, i: nat)
    requires i < |Kinds(t, t.relations)|
    ensures |LinkFields(t)| == |Kinds(t, t.relations)|
    ensures var kind := Sorted(Kinds(t, t.relations))[i];
            LinkFields(t)[i] == LinkField(t, kind) && LinkField(t, kind).key == kind
  {
  }

  lemma LinksCount(t: Topic)
    ensures |LinkFields(t)| == |Kinds(t, t.relations)|
  {
  }

  lemma NoLinksCollected(t: Topic, into: map<string, string>)
    ensures Collect(LinkFields(t)[..0], into) == into + LinkMap(t, Members(Sorted(Kinds(t, t.relations))[..0]))
  {
    hide LinkField, StrictlySorted, Unquote, Kinds;
    NoTruths(t);
    OverlayGrows(into, map[], "", "");
    assert LinkFields(t)[..0] == [] && Sorted(Kinds(t, t.relations))[..0] == [];
  }

  lemma {:induction false} LinksAreCollected(t: Topic, n: nat, into: map<string, string>)
    requires IsPlain(t) && n <= |Kinds(t, t.relations)|
    ensures |LinkFields(t)| == |Kinds(t, t.relations)|
    ensures Collect(LinkFields(t)[..n], into) == into + LinkMap(t, Members(Sorted(Kinds(t, t.relations))[..n]))
  {
    hide *;
    LinksCount(t);
    if n == 0 {
      NoLinksCollected(t, into);
    } else {
      LinksAreCollected(t, n - 1, into);
      var fields, kinds := LinkFields(t), Sorted(Kinds(t, t.relations));
      var k := kinds[n - 1];
      LinkFieldAt(t, n - 1);
      CollectSnoc(fields, n - 1, into);
      LinkReads(t, k);
      MembersSnoc(kinds, n - 1);
      LinkMapGrows(t, Members(kinds[..n - 1]), k);
      OverlayGrows(into, LinkMap(t, Members(kinds[..n - 1])), k, LinkValue(Targets(t, t.relations, k)));
    }
  }

  lemma AllTruthsAreCollected(t: Topic, into: map<string, string>)
    requires IsPlain(t)
    ensures Collect(TruthFields(t), into) == into + TruthMap(t, t.entity.truths.Keys)
  {
    hide IsPlain, Collect, TruthMap, Members;
    MembersOfSorted(t.entity.truths.Keys);
    TruthsAreCollected(t, |t.entity.truths|, into);
    assert |t.entity.truths| == |t.entity.truths.Keys| == |TruthFields(t)|;
    assert TruthFields(t)[..|t.entity.truths|] == TruthFields(t);
  }

  lemma AllLinksAreCollected(t: Topic, into: map<string, string>)
    requires IsPlain(t)
    ensures Collect(LinkFields(t), into) == into + LinkMap(t, Kinds(t, t.relations))
  {
    hide IsPlain, Collect, LinkMap, Members, Kinds;
    var kinds := Kinds(t, t.relations);
    MembersOfSorted(kinds);
    LinksAreCollected(t, |kinds|, into);
    assert LinkFields(t)[..|kinds|] == LinkFields(t);
  }

  lemma FieldsAreCollected(t: Topic, stamp: string)
    requires IsPlain(t) && IsOneLine(stamp)
    ensures Collect(Fields(t, stamp), map[]) == FieldMap(t, stamp)
  {
    assert HasPlainHead(t) && IsOneLine(t.entity.kind);
    hide IsPlain, Collect, IdentityFields, TruthFields, LinkFields, IdentityMap, TruthMap, LinkMap, Kinds;
    var a, b, c := IdentityFields(t, stamp), TruthFields(t), LinkFields(t);
    IdentityIsCollected(t, stamp);
    AllTruthsAreCollected(t, IdentityMap(t, stamp));
    AllLinksAreCollected(t, IdentityMap(t, stamp) + TruthMap(t, t.entity.truths.Keys));
    CollectConcat(a + b, c, map[]);
    CollectConcat(a, b, map[]);
  }

  /** Parsing a rendered topic gives back its fields and its exact body,
      whatever fences or dashes the body holds. */
  lemma TopicIsReadBack(t: Topic, stamp: string)
    requires IsPlain(t) && IsOneLine(stamp)
    ensures Parsed(Rendered(t, stamp)) == Some(Document(FieldMap(t, stamp), Body(t)))
  {
    assert HasPlainHead(t) && IsOneLine(t.entity.kind);
    hide IdentityFields, TruthFields, LinkFields, Body, IsPlainField, FieldMap, Block, IsPlain, Collect;
    FieldsAreCollected(t, stamp);
    IdentityIsPlain(t, stamp);
    TruthsArePlain(t);
    LinksArePlain(t);
    BodyLeadsWithHash(t);
    BlockIsParsed(Fields(t, stamp), Body(t));
  }

  lemma BodyLeadsWithHash(t: Topic)
    ensures Body(t) != "" && Body(t)[0] == '#'
  {
    hide TruthSection, ObservationSection, RelationSection;
  }

  /** The identity properties of an entity, each under its own name. */
  predicate HasIdentity(fields: map<string, string>, t: Topic, stamp: string) {
    && {"title", "type", "slug", "aliases", "observations", "relations", "compacted"} <= fields.Keys
    && fields["title"] == fields["aliases"] == t.entity.name
    && fields["type"] == t.entity.kind
    && fields["slug"] == t.slugOf(t.entity.name)
    && fields["observations"] == Decimal(|t.entity.observations|)
    && fields["relations"] == Decimal(|Filtered(t.relations, Leaves(t.entity.name))|)
    && fields["compacted"] == stamp
  }

  /** Each truth, as a property of its own. */
  predicate HasTruths(fields: map<string, string>, truths: map<string, string>) {
    forall k :: k in truths ==> "truth_" + k in fields && fields["truth_" + k] == truths[k]
  }

  /** Each kind of outgoing relation, as a link or a list of quoted links. */
  ghost predicate HasLinks(fields: map<string, string>, t: Topic) {
    forall rel :: rel in t.relations && rel.from == t.entity.name ==>
                    rel.kind in fields && ReadsAsLinks(fields[rel.kind], t, rel.kind)
  }

  ghost predicate ReadsAsLinks(value: string, t: Topic, kind: string) {
    exists links ::
      && AreLinks(links, t.entity.name, kind, t.relations, t.slugOf)
      && if |links| == 1 then value == links[0] else value == "[" + Quoted(links) + "]"
  }

  /** The outgoing relation kinds keep clear of the other properties. */
  predicate KindsKeepClear(t: Topic) {
    forall rel :: rel in t.relations && rel.from == t.entity.name ==>
                    && !IsIdentityKey(rel.kind)
                    && forall k :: k in t.entity.truths ==> rel.kind != "truth_" + k
  }

  /** A rendered topic reads back as its entity: every property as the value it
      was promoted from when the relation kinds keep clear of them, every link,
      and the page. */
  lemma PropertiesAreRecovered(t: Topic, stamp: string)
    requires IsPlain(t) && IsOneLine(stamp)
    ensures Parsed(Rendered(t, stamp)).Some?
    ensures var Document(fields, body) := Parsed(Rendered(t, stamp)).value;
            && (KindsKeepClear(t) ==> HasIdentity(fields, t, stamp) && HasTruths(fields, t.entity.truths))
            && HasLinks(fields, t)
            && (IsLineByLine(t) ==> ShowsTopic(body, t))
  {
    hide IsPlain, Parsed, Rendered, Body, IdentityMap, TruthMap, LinkMap, KindsKeepClear, HasIdentity, HasTruths,
         HasLinks,
         ShowsTopic, IsLineByLine, Kinds;
    TopicIsReadBack(t, stamp);
    if KindsKeepClear(t) {
      IdentityIsRecovered(t, stamp);
      TruthsAreRecovered(t, stamp);
    }
    LinksAreRecovered(t, stamp);
    if IsLineByLine(t) { BodyIsPage(t); }
  }

  lemma IdentityIsRecovered(t: Topic, stamp: string)
    requires KindsKeepClear(t)
    ensures HasIdentity(FieldMap(t, stamp), t, stamp)
  {
    hide HasIdentity, FieldMap, IdentityMap, KindsKeepClear;
    IdentityIsSaid(t, stamp);
    forall name | name in IdentityMap(t, stamp)
      ensures name in FieldMap(t, stamp) && FieldMap(t, stamp)[name] == IdentityMap(t, stamp)[name]
    {
      IdentityIsUncovered(t, stamp, name);
    }
    IdentityCarriesOver(IdentityMap(t, stamp), FieldMap(t, stamp), t, stamp);
  }

  lemma IdentityIsSaid(t: Topic, stamp: string)
    ensures HasIdentity(IdentityMap(t, stamp), t, stamp)
  {
    hide Decimal, OutgoingCount, Filtered;
    OutgoingIsCounted(t, t.relations);
  }

  lemma IdentityCarriesOver(said: map<string, string>, fields: map<string, string>, t: Topic, stamp: string)
    requires HasIdentity(said, t, stamp)
    requires forall name :: name in said ==> name in fields && fields[name] == said[name]
    ensures HasIdentity(fields, t, stamp)
  {
    hide Decimal, Filtered;
  }

  predicate IsIdentityKey(name: string) {
    name in {"title", "type", "slug", "aliases", "observations", "relations", "compacted"}
  }

  lemma IdentityKeys(t: Topic, stamp: string, name: string)
    requires name in IdentityMap(t, stamp)
    ensures IsIdentityKey(name)
    ensures |name| >= 2 && (name[0] != 't' || name[1] != 'r')
  {
    hide Decimal, OutgoingCount;
  }

  lemma KindIsNoKey(t: Topic, rel: Relation)
    requires KindsKeepClear(t) && rel in t.relations && rel.from == t.entity.name
    ensures !IsIdentityKey(rel.kind)
  {
  }

  lemma IdentityIsUncovered(t: Topic, stamp: string, name: string)
    requires KindsKeepClear(t) && name in IdentityMap(t, stamp)
    ensures name in FieldMap(t, stamp) && FieldMap(t, stamp)[name] == IdentityMap(t, stamp)[name]
  {
    hide LinkValue, Targets, IdentityMap, IsIdentityKey, KindsKeepClear;
    IdentityKeys(t, stamp, name);
    forall k: string ensures "truth_" + k != name {
      assert ("truth_" + k)[0] == 't' && ("truth_" + k)[1] == 'r';
    }
    forall rel | rel in t.relations && rel.from == t.entity.name ensures rel.kind != name {
      KindIsNoKey(t, rel);
    }
  }

  lemma TruthsAreRecovered(t: Topic, stamp: string)
    requires KindsKeepClear(t)
    ensures HasTruths(FieldMap(t, stamp), t.entity.truths)
  {
    hide LinkValue, Targets, IdentityMap, TruthMap;
    TruthMapHolds(t);
  }

  lemma LinksAreRecovered(t: Topic, stamp: string)
    ensures HasLinks(FieldMap(t, stamp), t)
  {
    hide Targets, IdentityMap, TruthMap, AreLinks;
    forall rel | rel in t.relations && rel.from == t.entity.name
      ensures rel.kind in FieldMap(t, stamp) && ReadsAsLinks(FieldMap(t, stamp)[rel.kind], t, rel.kind)
    {
      TargetsAreLinks(t, t.relations, rel.kind);
    }
  }

  lemma IdentityMapHasStamp(t: Topic, stamp: string)
    ensures "compacted" in IdentityMap(t, stamp) && IdentityMap(t, stamp)["compacted"] == stamp
  {
  }

  lemma TruthMapHolds(t: Topic)
    ensures TruthMap(t, t.entity.truths.Keys).Keys == set k | k in t.entity.truths :: "truth_" + k
    ensures forall k :: k in t.entity.truths ==>
              "truth_" + k in TruthMap(t, t.entity.truths.Keys)
                  && TruthMap(t, t.entity.truths.Keys)["truth_" + k] == t.entity.truths[k]
  {
    forall k | k in t.entity.truths ensures ("truth_" + k)[6..] == k {}
  }

  /** What a reader of a plain topic finds under `compacted`: the stamp, unless
      an outgoing relation kind of that name takes its place. */
  function PlainStamp(t: Topic, stamp: string): string {
    if "compacted" in Kinds(t, t.relations) then LinkValue(Targets(t, t.relations, "compacted")) else stamp
  }

  lemma StampField(t: Topic, stamp: string)
    ensures "compacted" in FieldMap(t, stamp) && FieldMap(t, stamp)["compacted"] == PlainStamp(t, stamp)
  {
    hide Kinds, LinkValue, Targets;
    forall k: string ensures "truth_" + k != "compacted" {
      assert ("truth_" + k)[0] == 't';
    }
  }

  // ---- the stamp of any topic -----------------------------------------------

  /** The text of a rendered topic below its `compacted` line. */
  function BelowStamp(t: Topic): string {
    FieldLines(TruthFields(t)) + (FieldLines(LinkFields(t)) + ("---\n\n" + Body(t)))
  }

  /** The `type` line, which is several if the kind has line breaks. */
  function TypeLine(t: Topic): string {
    FieldLine(Field("type", Quote(t.entity.kind)))
  }

  /** What a reader finds under `compacted`: the stamp, unless a later line
      before the first fence has that key and takes its place. If the kind holds
      a fence, reading never gets to the stamp. */
  function StampRead(t: Topic, stamp: string): Option<string> {
    if HasFence(TypeLine(t)) then LastValue(TypeLine(t), "compacted")
    else Some(LastValue(BelowStamp(t), "compacted").GetOr(stamp))
  }

  lemma TopicSplits(t: Topic, stamp: string)
    ensures Rendered(t, stamp) == "---" + "\n" + (FieldLines(IdentityFields(t, stamp)) + BelowStamp(t))
  {
    hide IdentityFields, TruthFields, LinkFields, Body, FieldLines;
    BlockOfParts(IdentityFields(t, stamp), TruthFields(t), LinkFields(t));
    assert "---\n" == "---" + "\n";
  }

  lemma TopicCloses(t: Topic, stamp: string)
    ensures ReadFields(FieldLines(IdentityFields(t, stamp)) + BelowStamp(t), map[]).Some?
  {
    hide IdentityFields, TruthFields, LinkFields, Body, FieldLines, ReadFields;
    var a := FieldLines(IdentityFields(t, stamp));
    var b, c := FieldLines(TruthFields(t)), FieldLines(LinkFields(t));
    FieldLinesAreComplete(IdentityFields(t, stamp));
    FieldLinesAreComplete(TruthFields(t));
    FieldLinesAreComplete(LinkFields(t));
    assert "---\n\n" + Body(t) == "---" + "\n" + ("\n" + Body(t));
    assert a + BelowStamp(t) == (a + b + c) + ("---" + "\n" + ("\n" + Body(t)));
    FenceCloses(a + b + c, "\n" + Body(t), map[]);
  }

  /** The fields around the `type` line. */
  lemma IdentityParts(t: Topic, stamp: string)
    requires HasPlainHead(t) && IsOneLine(stamp)
    ensures var f := IdentityFields(t, stamp);
            && |f| == 7
            && (forall g :: g in f[..1] + f[2..6] ==> IsPlainField(g) && g.key != "compacted")
            && IsPlainField(f[6]) && f[6].key == "compacted" && Unquote(f[6].text) == stamp
  {
    hide Quote, Unquote, Decimal, IsPlainText, IsPlainKey, FieldLine, OutgoingCount, HasPlainHead;
    HeadReads(t, stamp);
    LetterKeys();
    CountKeys();
    var f := IdentityFields(t, stamp);
    assert f[..1] + f[2..6] == [f[0], f[2], f[3], f[4], f[5]];
  }

  lemma IdentityText(t: Topic, stamp: string)
    ensures var f := IdentityFields(t, stamp);
            && |f| == 7
            && FieldLines(f) == FieldLines(f[..1]) + (TypeLine(t) + (FieldLines(f[2..6]) + FieldLine(f[6])))
  {
    hide Quote, Decimal, FieldLine, FieldLines, OutgoingCount;
    IdentityLines(IdentityFields(t, stamp));
  }

  lemma HeadReads(t: Topic, stamp: string)
    requires HasPlainHead(t) && IsOneLine(stamp)
    ensures IsPlainText(Quote(t.entity.name)) && IsPlainText(Quote(Slug(t)))
    ensures IsPlainText(Quote(stamp)) && Unquote(Quote(stamp)) == stamp
    ensures forall n: nat :: IsPlainText(Decimal(n))
  {
    hide Quote, Unquote, Decimal, IsPlainText;
    QuoteReads(t.entity.name);
    QuoteReads(Slug(t));
    QuoteReads(stamp);
    forall n: nat ensures IsPlainText(Decimal(n)) { DecimalIsPlain(n); }
  }

  lemma IdentityLines(f: seq<Field>)
    requires |f| == 7
    ensures FieldLines(f) == FieldLines(f[..1]) + (FieldLine(f[1]) + (FieldLines(f[2..6]) + FieldLine(f[6])))
  {
    hide FieldLine;
    FieldLinesSnoc(f, 1);
    FieldLinesSnoc(f, 6);
    FieldLinesConcat(f[..2], f[2..6]);
    assert f[..6] == f[..2] + f[2..6] && f[..7] == f;
  }

  lemma LastStamp(t: Topic, stamp: string)
    requires HasPlainHead(t) && IsOneLine(stamp)
    ensures LastValue(FieldLines(IdentityFields(t, stamp)) + BelowStamp(t), "compacted") == StampRead(t, stamp)
  {
    var f := IdentityFields(t, stamp);
    hide IdentityFields, TypeLine, BelowStamp, FieldLines, LastValue, HasFence, Unquote, IsPlainField, FieldLine,
      HasPlainHead;
    IdentityParts(t, stamp);
    IdentityText(t, stamp);
    var head, kind, middle := FieldLines(f[..1]), TypeLine(t), FieldLines(f[2..6]);
    var last, below := FieldLine(f[6]), BelowStamp(t);
    assert FieldLines(f) + below == head + (kind + (middle + (last + below)));
    LastValueSkips(f[..1], kind + (middle + (last + below)), "compacted");
    TypeLineIsComplete(t);
    LastValueConcat(kind, middle + (last + below), "compacted");
    LastValueSkips(f[2..6], last + below, "compacted");
    FieldLineIsComplete(f[6]);
    LastValueConcat(last, below, "compacted");
    LastValueOfField(f[6], "compacted");
  }

  lemma TypeLineIsComplete(t: Topic)
    ensures TypeLine(t) != "" && TypeLine(t)[|TypeLine(t)| - 1] == '\n'
  {
    FieldLineIsComplete(Field("type", Quote(t.entity.kind)));
  }

  /** Any topic with a plain head is read, and under `compacted` the reader
      finds the last such line before the first fence. */
  lemma StampIsRead(t: Topic, stamp: string)
    requires HasPlainHead(t) && IsOneLine(stamp)
    ensures Parsed(Rendered(t, stamp)).Some?
    ensures var fields := Parsed(Rendered(t, stamp)).value.fields;
            StampRead(t, stamp) == if "compacted" in fields then Some(fields["compacted"]) else None
  {
    hide *;
    var inner := FieldLines(IdentityFields(t, stamp)) + BelowStamp(t);
    TopicSplits(t, stamp);
    ParsedAfterFence(inner);
    TopicCloses(t, stamp);
    ReadFieldsKeepsLast(inner, map[], "compacted");
    LastStamp(t, stamp);
  }

  /** For a plain topic only an outgoing relation kind can hide the stamp. */
  lemma PlainStampIsRead(t: Topic, stamp: string)
    requires IsPlain(t) && IsOneLine(stamp)
    ensures StampRead(t, stamp) == Some(PlainStamp(t, stamp))
  {
    assert HasPlainHead(t);
    hide *;
    StampIsRead(t, stamp);
    TopicIsReadBack(t, stamp);
    StampField(t, stamp);
  }

  // ---- syncing --------------------------------------------------------------

  /** The stamp of an existing file that already is the topic's rendering. */
  function Kept(files: map<string, string>, t: Topic): Option<string> {
    if Path(t) !in files then None
    else
      var existing := files[Path(t)];
      match Parsed(existing)
      case None => None
      case Some(document) =>
        if "compacted" in document.fields && existing == Rendered(t, document.fields["compacted"])
        then Some(document.fields["compacted"])
        else None
  }

  /** The files after syncing `topics` in order, and how many were written. */
  function Synced(files: map<string, string>, topics: seq<Topic>, today: string): (map<string, string>, nat) {
    if topics == [] then (files, 0)
    else
      var t := topics[|topics| - 1];
      var (before, count) := Synced(files, topics[..|topics| - 1], today);
      if !ShouldSync(t.entity.kind) || Kept(before, t).Some? then (before, count)
      else (before[Path(t) := Rendered(t, today)], count + 1)
  }

  /** The file that a topic of that kind and name goes to; a task has none. */
  ghost predicate IsTopicFile(path: string, topics: seq<Topic>) {
    exists t :: t in topics && t.entity.kind != "task" && path == t.slugOf(t.entity.name) + ".md"
  }

  /** Every entity but a task has its file afterwards, and no other file is
      touched. */
  ghost predicate OnlyTopicFilesMove(before: map<string, string>, after: map<string, string>, topics: seq<Topic>) {
    forall path ::
      && (IsTopicFile(path, topics) ==> path in after)
      && (!IsTopicFile(path, topics) ==> SameFile(after, before, path))
  }

  lemma TopicFileSnoc(path: string, topics: seq<Topic>)
    requires topics != []
    ensures var t := topics[|topics| - 1];
            IsTopicFile(path, topics)
            <==> IsTopicFile(path, topics[..|topics| - 1]) || (ShouldSync(t.entity.kind) && path == Path(t))
  {
    var before, last := topics[..|topics| - 1], topics[|topics| - 1];
    assert topics == before + [last];
    assert last in topics && Path(last) == last.slugOf(last.entity.name) + ".md";
  }

  lemma {:induction false} SyncMovesOnlyTopicFiles(files: map<string, string>, topics: seq<Topic>, today: string)
    ensures OnlyTopicFilesMove(files, Synced(files, topics, today).0, topics)
  {
    hide Rendered, Parsed, IsTopicFile, Path, ShouldSync;
    if topics == [] {
      forall path ensures !IsTopicFile(path, topics) { NoTopicFile(path); }
    } else {
      SyncMovesOnlyTopicFiles(files, topics[..|topics| - 1], today);
      forall path
        ensures var t := topics[|topics| - 1];
                IsTopicFile(path, topics)
                <==> IsTopicFile(path, topics[..|topics| - 1]) || (ShouldSync(t.entity.kind) && path == Path(t))
      {
        TopicFileSnoc(path, topics);
      }
    }
  }

  lemma NoTopicFile(path: string)
    ensures !IsTopicFile(path, [])
  {
  }

  class TopicsDir {
    var files: map<string, string>

    constructor (files: map<string, string>)
      ensures this.files == files
    {
      this.files := files;
    }

    method FindKept(t: Topic) returns (kept: Option<string>)
      ensures kept == Kept(files, t)
    {
      hide Parsed, Rendered, Path;
      if Path(t) in files {
        var existing := files[Path(t)];
        var document := Parse(existing);
        if document.Some? && "compacted" in document.value.fields {
          var oldStamp := document.value.fields["compacted"];
          var same := RenderEntityMarkdown(t, oldStamp);
          if existing == same {
            return Some(oldStamp);
          }
        }
      }
      return None;
    }

    /** Write every topic whose file is not already its rendering. */
    method SyncGraph(topics: seq<Topic>, today: string) returns (count: nat)
      modifies this
      ensures (files, count) == Synced(old(files), topics, today)
      ensures OnlyTopicFilesMove(old(files), files, topics)
    {
      hide Kept, Rendered, Path, Block, Fields, ShowsTopic, IsLineByLine, ShouldSync, OnlyTopicFilesMove;
      count := 0;
      for i := 0 to |topics|
        invariant (files, count) == Synced(old(files), topics[..i], today)
      {
        var t := topics[i];
        assert topics[..i + 1][..i] == topics[..i];
        if ShouldSync(t.entity.kind) {
          var kept := FindKept(t);
          if kept.None? {
            var content := RenderEntityMarkdown(t, today);
            files := files[Path(t) := content];
            count := count + 1;
          }
        }
      }
      assert topics[..|topics|] == topics;
      SyncMovesOnlyTopicFiles(old(files), topics, today);
    }
  }

  /** The files a sync answers for. */
  ghost function SyncedPaths(topics: seq<Topic>): set<string> {
    set t | t in topics && ShouldSync(t.entity.kind) :: Path(t)
  }

  /** No two synced topics share a file. */
  ghost predicate DistinctPaths(topics: seq<Topic>) {
    topics == [] ||
    (var before, t := topics[..|topics| - 1], topics[|topics| - 1];
     DistinctPaths(before) && (ShouldSync(t.entity.kind) ==> Path(t) !in SyncedPaths(before)))
  }

  /** The stamp a sync leaves on a topic: the old one exactly when the old file
      already was the topic's rendering. */
  function StampAfter(files: map<string, string>, t: Topic, today: string): string {
    Kept(files, t).GetOr(today)
  }

  /** How many synced topics had no up-to-date file. */
  function Stale(files: map<string, string>, topics: seq<Topic>): nat {
    if topics == [] then 0
    else
      var t := topics[|topics| - 1];
      Stale(files, topics[..|topics| - 1]) + if ShouldSync(t.entity.kind) && Kept(files, t).None? then 1 else 0
  }

  lemma KeptIsRendered(files: map<string, string>, t: Topic)
    ensures Kept(files, t).Some? ==> Path(t) in files && files[Path(t)] == Rendered(t, Kept(files, t).value)
  {
  }

  predicate SameFile(a: map<string, string>, b: map<string, string>, path: string) {
    (path in a <==> path in b) && (path in a ==> a[path] == b[path])
  }

  lemma KeptDependsOnPath(a: map<string, string>, b: map<string, string>, t: Topic)
    requires SameFile(a, b, Path(t))
    ensures Kept(a, t) == Kept(b, t)
  {
  }

  lemma {:induction false} SyncLeavesOtherFiles(files: map<string, string>, topics: seq<Topic>, today: string)
    ensures var after := Synced(files, topics, today).0;
            forall p :: p !in SyncedPaths(topics) ==> SameFile(after, files, p)
  {
    hide Kept, Rendered, Path;
    if topics != [] {
      var before, t := topics[..|topics| - 1], topics[|topics| - 1];
      SyncLeavesOtherFiles(files, before, today);
      assert topics == before + [t];
      assert SyncedPaths(before) <= SyncedPaths(topics);
      assert ShouldSync(t.entity.kind) ==> Path(t) in SyncedPaths(topics);
    }
  }

  lemma {:induction false} SyncWritesStale(files: map<string, string>, topics: seq<Topic>, today: string)
    requires DistinctPaths(topics)
    ensures Synced(files, topics, today).1 == Stale(files, topics)
  {
    hide Kept, Rendered, Path, SyncedPaths;
    if topics != [] {
      var before, t := topics[..|topics| - 1], topics[|topics| - 1];
      SyncWritesStale(files, before, today);
      if ShouldSync(t.entity.kind) {
        SyncLeavesOtherFiles(files, before, today);
        KeptDependsOnPath(Synced(files, before, today).0, files, t);
      }
    }
  }

  lemma {:induction false} SyncRenders(files: map<string, string>, topics: seq<Topic>, today: string, u: Topic)
    requires DistinctPaths(topics) && u in topics && ShouldSync(u.entity.kind)
    ensures var after := Synced(files, topics, today).0;
            Path(u) in after && after[Path(u)] == Rendered(u, StampAfter(files, u, today))
  {
    hide Kept, Rendered, Path;
    var before, t := topics[..|topics| - 1], topics[|topics| - 1];
    assert topics == before + [t];
    var mid := Synced(files, before, today).0;
    if u in before {
      assert Path(u) in SyncedPaths(before);
      SyncRenders(files, before, today, u);
    } else {
      SyncLeavesOtherFiles(files, before, today);
      KeptDependsOnPath(mid, files, u);
      KeptIsRendered(mid, u);
    }
  }

  /** Incremental syncing refines rewriting everything: every synced topic's
      file is its rendering, under the old stamp exactly when the old file
      already matched, no other file changes, and what is written is what was
      stale. */
  lemma SyncRefinesRewrite(files: map<string, string>, topics: seq<Topic>, today: string)
    requires DistinctPaths(topics)
    ensures var (after, count) := Synced(files, topics, today);
            && (forall t :: t in topics && ShouldSync(t.entity.kind) ==>
                  Path(t) in after && after[Path(t)] == Rendered(t, StampAfter(files, t, today)))
            && (forall p :: p !in SyncedPaths(topics) ==> SameFile(after, files, p))
            && count == Stale(files, topics)
  {
    hide Kept, Rendered, Path, DistinctPaths, Synced;
    SyncLeavesOtherFiles(files, topics, today);
    SyncWritesStale(files, topics, today);
    forall t | t in topics && ShouldSync(t.entity.kind)
      ensures Path(t) in Synced(files, topics, today).0
      ensures Synced(files, topics, today).0[Path(t)] == Rendered(t, StampAfter(files, t, today))
    {
      SyncRenders(files, topics, today, t);
    }
  }

  lemma KeptUnfolds(files: map<string, string>, t: Topic)
    requires Path(t) in files && Parsed(files[Path(t)]).Some?
    ensures var fields := Parsed(files[Path(t)]).value.fields;
            Kept(files, t)
            == if "compacted" in fields && files[Path(t)] == Rendered(t, fields["compacted"])
               then Some(fields["compacted"]) else None
  {
    hide Parsed, Rendered, Path;
  }

  /** A file holding a rendering is recognised exactly when the reader finds the
      stamp it was rendered with. */
  lemma RenderingIsRecognised(files: map<string, string>, t: Topic, stamp: string)
    requires HasPlainHead(t) && IsOneLine(stamp)
    requires Path(t) in files && files[Path(t)] == Rendered(t, stamp)
    ensures Kept(files, t).Some? <==> StampRead(t, stamp) == Some(stamp)
    ensures Kept(files, t).Some? ==> Kept(files, t).value == stamp
  {
    hide *;
    StampIsRead(t, stamp);
    KeptUnfolds(files, t);
    if StampRead(t, stamp).Some? && Rendered(t, StampRead(t, stamp).value) == Rendered(t, stamp) {
      RenderedDeterminesStamp(t, StampRead(t, stamp).value, stamp);
    }
  }

  lemma RenderedDeterminesStamp(t: Topic, a: string, b: string)
    requires Rendered(t, a) == Rendered(t, b)
    ensures a == b
  {
    StampPosition(t, a);
    StampPosition(t, b);
    var head, tail := StampHead(t), StampTail(t);
    SameMiddle(head, Quote(a), Quote(b), tail);
    QuoteRoundTrips(a);
    QuoteRoundTrips(b);
  }

  lemma SameMiddle(head: string, x: string, y: string, tail: string)
    requires head + x + tail == head + y + tail
    ensures x == y
  {
    assert |head + x + tail| == |head + y + tail|;
    assert (head + x + tail)[|head|..|head| + |x|] == x;
    assert (head + y + tail)[|head|..|head| + |y|] == y;
  }

  function StampHead(t: Topic): string {
    "---\n" + FieldLines(IdentityFields(t, "")[..6]) + "compacted: "
  }

  function StampTail(t: Topic): string {
    "\n" + BelowStamp(t)
  }

  lemma StampPosition(t: Topic, stamp: string)
    ensures Rendered(t, stamp) == StampHead(t) + Quote(stamp) + StampTail(t)
  {
    var f, b, c := IdentityFields(t, stamp), TruthFields(t), LinkFields(t);
    hide Quote, Decimal, TruthFields, LinkFields, Body, FieldLines;
    assert f[..6] == IdentityFields(t, "")[..6];
    assert f[6] == Field("compacted", Quote(stamp));
    FieldLinesSnoc(f, 6);
    assert f[..7] == f;
    BlockOfParts(f, b, c);
    StampSplit(FieldLines(f[..6]), Quote(stamp), FieldLines(b), FieldLines(c), Body(t));
  }

  lemma StampSplit(before: string, q: string, b: string, c: string, body: string)
    ensures "---\n" + (before + ("compacted" + ": " + q + "\n")) + b + c + "---\n\n" + body
         == "---\n" + before + "compacted: " + q + ("\n" + (b + (c + ("---\n\n" + body))))
  {
    assert "compacted" + ": " == "compacted: ";
  }

  // ---- the entity of a rendering --------------------------------------------

  lemma TitleLine(t: Topic, stamp: string)
    requires IsOneLine(t.entity.name)
    ensures var text := Rendered(t, stamp);
            |text| >= 4 && FirstLine(text[4..]) == "title" + ": " + Quote(t.entity.name) + "\n"
  {
    var f := Fields(t, stamp);
    hide Quote, Decimal, TruthFields, LinkFields, Body, IsPlainText;
    assert f[0] == Field("title", Quote(t.entity.name));
    var rest := FieldLines(f[1..]) + "---\n\n" + Body(t);
    var line := "title" + ": " + Quote(t.entity.name);
    TitleSplit(line, FieldLines(f[1..]), Body(t));
    QuoteIsPlain(t.entity.name);
    QuotedIsOneLineText(t.entity.name);
    FirstLineOf(line, rest);
  }

  lemma QuotedIsOneLineText(v: string)
    requires IsPlainText(Quote(v))
    ensures '\n' !in "title" + ": " + Quote(v)
  {
    hide Quote;
  }

  lemma TitleSplit(line: string, fields: string, body: string)
    ensures ("---\n" + (line + "\n" + fields) + "---\n\n" + body)[4..] == line + "\n" + (fields + "---\n\n" + body)
  {
  }

  lemma RenderingNamesItsEntity(a: Topic, b: Topic, x: string, y: string)
    requires IsOneLine(a.entity.name) && IsOneLine(b.entity.name)
    requires Rendered(a, x) == Rendered(b, y)
    ensures a.entity.name == b.entity.name
  {
    hide Rendered, Quote;
    TitleLine(a, x);
    TitleLine(b, y);
    SameMiddle("title" + ": ", Quote(a.entity.name), Quote(b.entity.name), "\n");
    QuoteRoundTrips(a.entity.name);
    QuoteRoundTrips(b.entity.name);
  }
}
