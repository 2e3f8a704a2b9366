/** The Markdown projection: one topic file an entity, rewritten only when the
    entity changed. Slugs are given by `slugOf`, any function of the name. */
module Compact {
  import opened Decimals
  import opened Order
  import opened Schema
  import opened Frontmatter
  import opened Lists
  import opened TextLines
  import opened Pages

  /** What the full read says of one entity. */
  datatype Subject = Subject(name: string, kind: string, observations: seq<string>, truths: map<string, string>)

  /** What a topic is rendered from, apart from its stamp. */
  datatype Topic = Topic(entity: Subject, relations: seq<Relation>, slugOf: string -> string)

  function Slug(t: Topic): string { t.slugOf(t.entity.name) }

  function Path(t: Topic): string { Slug(t) + ".md" }

  predicate ShouldSync(kind: string) {
    kind != TASK
  }

  function Link(t: Topic, name: string): string {
    "[[" + t.slugOf(name) + "]]"
  }

  // ---- frontmatter ----------------------------------------------------------

  /** The links of the outgoing relations of one kind, in relation order. */
  function Targets(t: Topic, relations: seq<Relation>, kind: string): seq<string> {
    if relations == [] then []
    else
      var last := relations[|relations| - 1];
      Targets(t, relations[..|relations| - 1], kind)
      + if last.from == t.entity.name && last.kind == kind then [Link(t, last.to)] else []
  }

  function Kinds(t: Topic, relations: seq<Relation>): set<string> {
    set r | r in relations && r.from == t.entity.name :: r.kind
  }

  function OutgoingCount(t: Topic, relations: seq<Relation>): nat {
    if relations == [] then 0
    else
      OutgoingCount(t, relations[..|relations| - 1])
      + if relations[|relations| - 1].from == t.entity.name then 1 else 0
  }

  /** The list text of several links: quoted, comma-separated, in brackets. */
  function Quoted(links: seq<string>): string {
    if links == [] then ""
    else if |links| == 1 then Quote(links[0])
    else Quoted(links[..|links| - 1]) + ", " + Quote(links[|links| - 1])
  }

  /** Every link quoted, with a comma and a space between neighbours. */
  lemma {:induction false} QuotedFromFront(links: seq<string>)
    requires |links| > 1
    ensures Quoted(links) == Quote(links[0]) + ", " + Quoted(links[1..])
  {
    hide Quote;
    if |links| > 2 {
      QuotedFromFront(links[..|links| - 1]);
      assert links[..|links| - 1][1..] == links[1..][..|links| - 2];
    }
  }

  function LinksText(links: seq<string>): string {
    if |links| == 1 then Quote(links[0]) else "[" + Quoted(links) + "]"
  }

  function IdentityFields(t: Topic, stamp: string): seq<Field> {
    [ Field("title", Quote(t.entity.name)), Field("type", Quote(t.entity.kind)), Field("slug", Quote(Slug(t))),
      Field("aliases", Quote(t.entity.name)), Field("observations", Decimal(|t.entity.observations|)),
      Field("relations", Decimal(OutgoingCount(t, t.relations))), Field("compacted", Quote(stamp)) ]
  }

  function TruthField(t: Topic, key: string): Field
    requires key in t.entity.truths
  {
    Field("truth_" + key, Quote(t.entity.truths[key]))
  }

  function LinkField(t: Topic, kind: string): Field {
    Field(kind, LinksText(Targets(t, t.relations, kind)))
  }

  function TruthFields(t: Topic): seq<Field> {
    var keys := Sorted(t.entity.truths.Keys);
    seq(|keys|, i requires 0 <= i < |keys| => TruthField(t, keys[i]))
  }

  function LinkFields(t: Topic): seq<Field> {
    var kinds := Sorted(Kinds(t, t.relations));
    seq(|kinds|, i requires 0 <= i < |kinds| => LinkField(t, kinds[i]))
  }

  function Fields(t: Topic, stamp: string): seq<Field> {
    IdentityFields(t, stamp) + TruthFields(t) + LinkFields(t)
  }

  lemma {:induction false} FieldLinesConcat(a: seq<Field>, b: seq<Field>)
    ensures FieldLines(a + b) == FieldLines(a) + FieldLines(b)
  {
    if a == [] {
      assert a + b == b;
    } else {
      assert (a + b)[1..] == a[1..] + b;
      FieldLinesConcat(a[1..], b);
    }
  }

  lemma FieldLinesSnoc(fields: seq<Field>, n: nat)
    requires n < |fields|
    ensures FieldLines(fields[..n + 1]) == FieldLines(fields[..n]) + FieldLine(fields[n])
  {
    assert fields[..n + 1] == fields[..n] + [fields[n]];
    FieldLinesConcat(fields[..n], [fields[n]]);
    assert FieldLines([fields[n]]) == FieldLine(fields[n]) + "";
  }

  lemma OutgoingSnoc(t: Topic, n: nat, kind: string)
    requires n < |t.relations|
    ensures var rel := t.relations[n];
            var mine := rel.from == t.entity.name;
            && Targets(t, t.relations[..n + 1], kind)
               == Targets(t, t.relations[..n], kind) + (if mine && rel.kind == kind then [Link(t, rel.to)] else [])
            && Kinds(t, t.relations[..n + 1]) == Kinds(t, t.relations[..n]) + (if mine then {rel.kind} else {})
            && OutgoingCount(t, t.relations[..n + 1]) == OutgoingCount(t, t.relations[..n]) + if mine then 1 else 0
  {
    assert t.relations[..n + 1] == t.relations[..n] + [t.relations[n]];
    assert t.relations[..n + 1][..n] == t.relations[..n];
  }

  /** The links of the outgoing relations, by kind. */
  function Grouped(t: Topic, relations: seq<Relation>): map<string, seq<string>> {
    map kind | kind in Kinds(t, relations) :: Targets(t, relations, kind)
  }

  lemma {:induction false} NoTargets(t: Topic, relations: seq<Relation>, kind: string)
    requires kind !in Kinds(t, relations)
    ensures Targets(t, relations, kind) == []
  {
    if relations != [] {
      var last := relations[|relations| - 1];
      assert last in relations;
      NoTargets(t, relations[..|relations| - 1], kind);
    }
  }

  lemma GroupedSnoc(t: Topic, n: nat)
    requires n < |t.relations|
    ensures var before, rel := Grouped(t, t.relations[..n]), t.relations[n];
            Grouped(t, t.relations[..n + 1]) ==
            if rel.from == t.entity.name
            then before[rel.kind := (if rel.kind in before then before[rel.kind] else []) + [Link(t, rel.to)]]
            else before
  {
    hide Targets, Kinds, OutgoingCount, Link;
    var rel, before, after := t.relations[n], Grouped(t, t.relations[..n]), Grouped(t, t.relations[..n + 1]);
    OutgoingSnoc(t, n, rel.kind);
    if rel.kind !in before { NoTargets(t, t.relations[..n], rel.kind); }
    forall kind | kind in before && !(rel.from == t.entity.name && kind == rel.kind)
      ensures kind in after && after[kind] == before[kind]
    {
      OutgoingSnoc(t, n, kind);
    }
    assert after.Keys == before.Keys + if rel.from == t.entity.name then {rel.kind} else {};
  }

  lemma {:induction false} TargetsAreLinks(t: Topic, relations: seq<Relation>, kind: string)
    ensures AreLinks(Targets(t, relations, kind), t.entity.name, kind, relations, t.slugOf)
  {
    if relations != [] { TargetsAreLinks(t, relations[..|relations| - 1], kind); }
  }

  lemma {:induction false} OutgoingIsCounted(t: Topic, relations: seq<Relation>)
    ensures OutgoingCount(t, relations) == |Filtered(relations, Leaves(t.entity.name))|
  {
    if relations != [] { OutgoingIsCounted(t, relations[..|relations| - 1]); }
  }

  /** The links by relation kind, of the kinds that some outgoing relation has. */
  ghost predicate AreOutgoing(outgoing: map<string, seq<string>>, t: Topic) {
    && (forall kind :: kind in outgoing <==>
          exists rel :: rel in t.relations && rel.from == t.entity.name && rel.kind == kind)
    && forall kind :: kind in outgoing ==> AreLinks(outgoing[kind], t.entity.name, kind, t.relations, t.slugOf)
  }

  method GroupOutgoing(t: Topic) returns (outgoing: map<string, seq<string>>, count: nat)
    ensures outgoing == Grouped(t, t.relations)
    ensures count == OutgoingCount(t, t.relations)
    ensures AreOutgoing(outgoing, t)
    ensures count == |Filtered(t.relations, Leaves(t.entity.name))|
  {
    outgoing, count := map[], 0;
    for i := 0 to |t.relations|
      invariant outgoing == Grouped(t, t.relations[..i])
      invariant count == OutgoingCount(t, t.relations[..i])
    {
      hide Grouped, OutgoingCount, Link;
      var rel := t.relations[i];
      GroupedSnoc(t, i);
      OutgoingSnoc(t, i, rel.kind);
      if rel.from == t.entity.name {
        var before := if rel.kind in outgoing then outgoing[rel.kind] else [];
        outgoing := outgoing[rel.kind := before + [Link(t, rel.to)]];
        count := count + 1;
      }
    }
    assert t.relations[..|t.relations|] == t.relations;
    OutgoingIsCounted(t, t.relations);
    GroupedAreOutgoing(t);
  }

  lemma GroupedAreOutgoing(t: Topic)
    ensures AreOutgoing(Grouped(t, t.relations), t)
  {
    hide AreLinks;
    forall kind ensures AreLinks(Targets(t, t.relations, kind), t.entity.name, kind, t.relations, t.slugOf) {
      TargetsAreLinks(t, t.relations, kind);
    }
  }

  lemma NoFieldLines(fields: seq<Field>)
    ensures FieldLines(fields[..0]) == ""
    ensures FieldLines(fields[..|fields|]) == FieldLines(fields)
  {
    assert fields[..|fields|] == fields;
  }

  lemma BlockOfParts(a: seq<Field>, b: seq<Field>, c: seq<Field>)
    ensures "---\n" + FieldLines(a) + FieldLines(b) + FieldLines(c) + "---\n\n" == Block(a + b + c)
  {
    FieldLinesConcat(a, b);
    FieldLinesConcat(a + b, c);
  }

  method RenderTruthFields(t: Topic) returns (out: string)
    ensures out == FieldLines(TruthFields(t))
  {
    hide Quote, FieldLine, FieldLines;
    var keys := Sorted(t.entity.truths.Keys);
    ghost var fields := TruthFields(t);
    NoFieldLines(fields);
    out := "";
    for i := 0 to |keys|
      invariant out == FieldLines(fields[..i])
    {
      FieldLinesSnoc(fields, i);
      out := out + FieldLine(TruthField(t, keys[i]));
    }
  }

  method RenderLinkFields(t: Topic, outgoing: map<string, seq<string>>) returns (out: string)
    requires outgoing == Grouped(t, t.relations)
    ensures out == FieldLines(LinkFields(t))
  {
    hide Quote, FieldLine, FieldLines, Kinds, Targets, LinksText, StrictlySorted;
    assert outgoing.Keys == Kinds(t, t.relations);
    var kinds := Sorted(outgoing.Keys);
    ghost var fields := LinkFields(t);
    NoFieldLines(fields);
    out := "";
    for i := 0 to |kinds|
      invariant out == FieldLines(fields[..i])
    {
      FieldLinesSnoc(fields, i);
      assert kinds[i] in outgoing;
      out := out + FieldLine(Field(kinds[i], LinksText(outgoing[kinds[i]])));
    }
  }

  method RenderFrontmatter(t: Topic, stamp: string) returns (out: string)
    ensures out == Block(Fields(t, stamp))
  {
    hide Quote, Decimal, FieldLine, Kinds, Targets, LinksText, TruthFields, LinkFields, Link, Block, OutgoingCount;
    var outgoing, count := GroupOutgoing(t);
    out := "---\n";
    out := out + FieldLine(Field("title", Quote(t.entity.name)));
    out := out + FieldLine(Field("type", Quote(t.entity.kind)));
    out := out + FieldLine(Field("slug", Quote(Slug(t))));
    out := out + FieldLine(Field("aliases", Quote(t.entity.name)));
    out := out + FieldLine(Field("observations", Decimal(|t.entity.observations|)));
    out := out + FieldLine(Field("relations", Decimal(count)));
    out := out + FieldLine(Field("compacted", Quote(stamp)));
    SevenLines(IdentityFields(t, stamp));
    var truths := RenderTruthFields(t);
    var links := RenderLinkFields(t, outgoing);
    BlockOfParts(IdentityFields(t, stamp), TruthFields(t), LinkFields(t));
    out := out + truths + links + "---\n\n";
  }

  lemma SevenLines(f: seq<Field>)
    requires |f| == 7
    ensures "---\n" + FieldLines(f) == "---\n" + FieldLine(f[0]) + FieldLine(f[1]) + FieldLine(f[2]) + FieldLine(f[3])
                                       + FieldLine(f[4]) + FieldLine(f[5]) + FieldLine(f[6])
  {
    hide FieldLine, FieldLines;
    NoFieldLines(f);
    Prepend("---\n", f, 0);
    Prepend("---\n", f, 1);
    Prepend("---\n", f, 2);
    Prepend("---\n", f, 3);
    Prepend("---\n", f, 4);
    Prepend("---\n", f, 5);
    Prepend("---\n", f, 6);
  }

  lemma Prepend(head: string, f: seq<Field>, n: nat)
    requires n < |f|
    ensures head + FieldLines(f[..n + 1]) == head + FieldLines(f[..n]) + FieldLine(f[n])
    ensures head + "" == head
  {
    FieldLinesSnoc(f, n);
  }

  // ---- body -----------------------------------------------------------------

  function TruthHead(): string {
    Line("## Truths") + Line("") + Line("| Property | Value |") + Line("| :--- | :--- |")
  }

  function TruthRow(key: string, value: string): string { Line("| **" + key + "** | " + value + " |") }

  function ObservationHead(): string { Line("## Observations") + Line("") }

  function Bullet(observation: string): string { Line("* " + observation) }

  function RelationHead(): string {
    Line("## Relations") + Line("") + Line("| Direction | Relation | Entity |") + Line("| :--- | :--- | :--- |")
  }

  function TruthRows(t: Topic, keys: seq<string>): string
    requires forall k :: k in keys ==> k in t.entity.truths
  {
    if keys == [] then ""
    else
      var key := keys[|keys| - 1];
      TruthRows(t, keys[..|keys| - 1]) + TruthRow(key, t.entity.truths[key])
  }

  function TruthSection(t: Topic): string {
    if t.entity.truths == map[] then ""
    else TruthHead() + TruthRows(t, Sorted(t.entity.truths.Keys)) + "\n"
  }

  /** The observations without the repeats of an earlier one. */
  function FirstOccurrences(observations: seq<string>): seq<string> {
    if observations == [] then []
    else
      var before, last := observations[..|observations| - 1], observations[|observations| - 1];
      FirstOccurrences(before) + if last in before then [] else [last]
  }

  function Bullets(observations: seq<string>): string {
    if observations == [] then ""
    else Bullets(observations[..|observations| - 1]) + Bullet(observations[|observations| - 1])
  }

  function ObservationSection(t: Topic): string {
    if t.entity.observations == [] then ""
    else ObservationHead() + Bullets(FirstOccurrences(t.entity.observations)) + "\n"
  }

  function Related(t: Topic, relations: seq<Relation>): seq<Relation> {
    if relations == [] then []
    else
      var last := relations[|relations| - 1];
      Related(t, relations[..|relations| - 1])
      + if last.from == t.entity.name || last.to == t.entity.name then [last] else []
  }

  function RelationRow(t: Topic, rel: Relation): string {
    if rel.from == t.entity.name
    then Line("| Outgoing | `" + rel.kind + "` | " + Link(t, rel.to) + " |")
    else Line("| Incoming | `" + rel.kind + "` | " + Link(t, rel.from) + " |")
  }

  function RelationRows(t: Topic, related: seq<Relation>): string {
    if related == [] then "" else RelationRows(t, related[..|related| - 1]) + RelationRow(t, related[|related| - 1])
  }

  function RelationSection(t: Topic): string {
    var related := Related(t, t.relations);
    if related == [] then ""
    else RelationHead() + RelationRows(t, related) + "\n"
  }

  function Body(t: Topic): string {
    "# " + t.entity.name + "\n\n" + TruthSection(t) + ObservationSection(t) + RelationSection(t)
  }

  function Rendered(t: Topic, stamp: string): string {
    Block(Fields(t, stamp)) + Body(t)
  }

  // ---- the body, line by line -----------------------------------------------

  /** No text of the body has a line break. */
  predicate IsLineByLine(t: Topic) {
    && IsOneLine(t.entity.name)
    && (forall k :: k in t.entity.truths ==> IsOneLine(k) && IsOneLine(t.entity.truths[k]))
    && (forall o :: o in t.entity.observations ==> IsOneLine(o))
    && (forall r :: r in t.relations ==> IsOneLine(r.kind) && IsOneLine(t.slugOf(r.from)) && IsOneLine(t.slugOf(r.to)))
  }

  lemma RowIsOneLine(a: string, b: string, c: string, d: string, e: string)
    requires IsOneLine(a) && IsOneLine(b) && IsOneLine(c) && IsOneLine(d) && IsOneLine(e)
    ensures IsOneLine(a + b + c + d + e)
  {
  }

  lemma LinkRow(side: string, kind: string, slug: string)
    requires IsOneLine(side) && IsOneLine(kind) && IsOneLine(slug)
    ensures side + kind + "` | " + ("[[" + slug + "]]") + " |" == side + kind + "` | [[" + slug + "]] |"
    ensures IsOneLine(side + kind + "` | [[" + slug + "]] |")
  {
    RowIsOneLine(side, kind, "` | [[", slug, "]] |");
    assert "` | [[" == "` | " + "[[" && "]] |" == "]]" + " |";
  }

  lemma {:induction false} TruthRowsLines(t: Topic, keys: seq<string>)
    requires forall k :: k in keys ==> k in t.entity.truths && IsOneLine(k) && IsOneLine(t.entity.truths[k])
    ensures IsTerminated(TruthRows(t, keys)) && |Lines(TruthRows(t, keys))| == |keys|
    ensures forall i :: 0 <= i < |keys| ==>
              Lines(TruthRows(t, keys))[i] == "| **" + keys[i] + "** | " + t.entity.truths[keys[i]] + " |"
  {
    hide Lines;
    if keys == [] {
      EmptyHasNoLines();
    } else {
      var before, key := keys[..|keys| - 1], keys[|keys| - 1];
      var line := "| **" + key + "** | " + t.entity.truths[key] + " |";
      TruthRowsLines(t, before);
      RowIsOneLine("| **", key, "** | ", t.entity.truths[key], " |");
      LinesSnoc(TruthRows(t, before), line);
    }
  }

  lemma {:induction false} BulletsLines(observations: seq<string>)
    requires forall o :: o in observations ==> IsOneLine(o)
    ensures IsTerminated(Bullets(observations)) && |Lines(Bullets(observations))| == |observations|
    ensures forall i :: 0 <= i < |observations| ==> Lines(Bullets(observations))[i] == "* " + observations[i]
  {
    hide Lines;
    if observations == [] {
      EmptyHasNoLines();
    } else {
      var before, last := observations[..|observations| - 1], observations[|observations| - 1];
      BulletsLines(before);
      OneLineConcat("* ", last);
      LinesSnoc(Bullets(before), "* " + last);
    }
  }

  lemma RelationRowLine(t: Topic, rel: Relation) returns (row: string)
    requires IsOneLine(rel.kind) && IsOneLine(t.slugOf(rel.from)) && IsOneLine(t.slugOf(rel.to))
    ensures RelationRow(t, rel) == Line(row) && IsOneLine(row)
    ensures IsRelationRow(row, t.entity.name, rel, t.slugOf)
  {
    hide Line, IsOneLine;
    assert IsOneLine("| Outgoing | `") && IsOneLine("| Incoming | `") by { SidesAreOneLine(); }
    if rel.from == t.entity.name {
      LinkRow("| Outgoing | `", rel.kind, t.slugOf(rel.to));
      row := "| Outgoing | `" + rel.kind + "` | [[" + t.slugOf(rel.to) + "]] |";
    } else {
      LinkRow("| Incoming | `", rel.kind, t.slugOf(rel.from));
      row := "| Incoming | `" + rel.kind + "` | [[" + t.slugOf(rel.from) + "]] |";
    }
  }

  lemma SidesAreOneLine()
    ensures IsOneLine("| Outgoing | `") && IsOneLine("| Incoming | `")
  {
  }

  lemma {:induction false} RelationRowsLines(t: Topic, related: seq<Relation>)
    requires forall r :: r in related ==> IsOneLine(r.kind) && IsOneLine(t.slugOf(r.from)) && IsOneLine(t.slugOf(r.to))
    ensures IsTerminated(RelationRows(t, related)) && |Lines(RelationRows(t, related))| == |related|
    ensures forall i :: 0 <= i < |related| ==>
              IsRelationRow(Lines(RelationRows(t, related))[i], t.entity.name, related[i], t.slugOf)
  {
    hide Lines, RelationRow, IsRelationRow, Line, IsOneLine, IsTerminated;
    EmptyHasNoLines();
    if related != [] {
      var before, rel := related[..|related| - 1], related[|related| - 1];
      RelationRowsLines(t, before);
      var row := RelationRowLine(t, rel);
      LinesSnoc(RelationRows(t, before), row);
    }
  }

  lemma {:induction false} RelatedIsFiltered(t: Topic, relations: seq<Relation>)
    ensures Related(t, relations) == Filtered(relations, Touches(t.entity.name))
  {
    if relations != [] { RelatedIsFiltered(t, relations[..|relations| - 1]); }
  }

  lemma {:induction false} FirstOccurrencesAreFirsts(observations: seq<string>)
    ensures AreFirsts(FirstOccurrences(observations), observations)
  {
    if observations != [] {
      var before, last := observations[..|observations| - 1], observations[|observations| - 1];
      var firsts, all := FirstOccurrences(before), FirstOccurrences(observations);
      FirstOccurrencesAreFirsts(before);
      assert observations == before + [last];
      forall i, j | 0 <= i < j < |all| ensures ComesBefore(all[i], all[j], observations) {
        if j < |firsts| {
          assert ComesBefore(firsts[i], firsts[j], before);
          var p :| 0 <= p < |before| && before[p] == firsts[i] && firsts[j] !in before[..p + 1];
          assert observations[..p + 1] == before[..p + 1];
        } else {
          assert firsts[i] in before;
          var p :| 0 <= p < |before| && before[p] == firsts[i];
          assert observations[..p + 1] == before[..p + 1];
          assert last !in observations[..p + 1];
        }
      }
    }
  }

  /** The lines of a rendered section, given those of its head and rows. */
  lemma SectionLines(head: string, rows: string)
    requires IsTerminated(head) && IsTerminated(rows)
    ensures IsTerminated(head + rows + "\n") && Lines(head + rows + "\n") == Lines(head) + Lines(rows) + [""]
  {
    hide Lines;
    LinesConcat(head, rows);
    LinesSnoc(head + rows, "");
    assert head + rows + Line("") == head + rows + "\n";
  }

  lemma TruthHeadLines()
    ensures IsTerminated(TruthHead())
    ensures Lines(TruthHead()) == ["## Truths", "", "| Property | Value |", "| :--- | :--- |"]
  {
    hide Lines, Line;
    FourLines("## Truths", "", "| Property | Value |", "| :--- | :--- |");
  }

  lemma ObservationHeadLines()
    ensures IsTerminated(ObservationHead()) && Lines(ObservationHead()) == ["## Observations", ""]
  {
    hide Lines, Line;
    TwoLines("## Observations", "");
  }

  lemma RelationHeadLines()
    ensures IsTerminated(RelationHead())
    ensures Lines(RelationHead()) == ["## Relations", "", "| Direction | Relation | Entity |", "| :--- | :--- | :--- |"]
  {
    hide Lines, Line;
    FourLines("## Relations", "", "| Direction | Relation | Entity |", "| :--- | :--- | :--- |");
  }

  lemma TwoLines(a: string, b: string)
    requires IsOneLine(a) && IsOneLine(b)
    ensures IsTerminated(Line(a) + Line(b)) && Lines(Line(a) + Line(b)) == [a, b]
  {
    hide Lines;
    EmptyHasNoLines();
    LinesSnoc("", a);
    assert "" + Line(a) == Line(a);
    LinesSnoc(Line(a), b);
  }

  lemma FourLines(a: string, b: string, c: string, d: string)
    requires IsOneLine(a) && IsOneLine(b) && IsOneLine(c) && IsOneLine(d)
    ensures var text := Line(a) + Line(b) + Line(c) + Line(d); IsTerminated(text) && Lines(text) == [a, b, c, d]
  {
    hide Lines;
    TwoLines(a, b);
    LinesSnoc(Line(a) + Line(b), c);
    LinesSnoc(Line(a) + Line(b) + Line(c), d);
  }

  lemma TruthSectionLines(t: Topic) returns (rows: seq<string>)
    requires IsLineByLine(t)
    ensures ListsTruths(rows, t.entity.truths) && IsTerminated(TruthSection(t))
    ensures Lines(TruthSection(t)) == Section(["## Truths", "", "| Property | Value |", "| :--- | :--- |"], rows)
  {
    hide Lines, TruthHead, TruthRows, Line, IsTerminated, IsOneLine;
    TruthHeadLines();
    EmptyHasNoLines();
    var keys := Sorted(t.entity.truths.Keys);
    TruthRowsLines(t, keys);
    rows := Lines(TruthRows(t, keys));
    SectionLines(TruthHead(), TruthRows(t, keys));
  }

  lemma ObservationSectionLines(t: Topic) returns (rows: seq<string>)
    requires IsLineByLine(t)
    ensures ListsObservations(rows, t.entity.observations) && IsTerminated(ObservationSection(t))
    ensures Lines(ObservationSection(t)) == Section(["## Observations", ""], rows)
  {
    hide Lines, ObservationHead, Bullets, FirstOccurrences, Line, IsTerminated, IsOneLine;
    ObservationHeadLines();
    EmptyHasNoLines();
    var firsts := FirstOccurrences(t.entity.observations);
    FirstOccurrencesAreFirsts(t.entity.observations);
    BulletsLines(firsts);
    rows := Lines(Bullets(firsts));
    SomeMember(firsts);
    SomeMember(t.entity.observations);
    SectionLines(ObservationHead(), Bullets(firsts));
  }

  lemma RelationSectionLines(t: Topic) returns (rows: seq<string>)
    requires IsLineByLine(t)
    ensures ListsRelations(rows, t.entity.name, t.relations, t.slugOf) && IsTerminated(RelationSection(t))
    ensures Lines(RelationSection(t))
         == Section(["## Relations", "", "| Direction | Relation | Entity |", "| :--- | :--- | :--- |"], rows)
  {
    hide Lines, RelationHead, RelationRows, Related, Line, IsTerminated, IsOneLine;
    RelationHeadLines();
    EmptyHasNoLines();
    var related := Related(t, t.relations);
    RelatedIsFiltered(t, t.relations);
    FilteredMembers(t.relations, Touches(t.entity.name));
    RelationRowsLines(t, related);
    rows := Lines(RelationRows(t, related));
    SectionLines(RelationHead(), RelationRows(t, related));
  }

  ghost predicate ShowsTopic(text: string, t: Topic) {
    IsPage(text, t.entity.name, t.entity.truths, t.entity.observations, t.relations, t.slugOf)
  }

  /** The body is the page, line by line. */
  lemma BodyIsPage(t: Topic)
    requires IsLineByLine(t)
    ensures ShowsTopic(Body(t), t)
  {
    hide Lines, IsLineByLine, TruthSection, ObservationSection, RelationSection, ListsTruths, ListsObservations,
         ListsRelations, Section;
    var facts := TruthSectionLines(t);
    var notes := ObservationSectionLines(t);
    var links := RelationSectionLines(t);
    var title := "# " + t.entity.name;
    assert IsOneLine(title) by { NameIsOneLine(t); }
    TwoLines(title, "");
    assert Line(title) + Line("") == title + "\n\n";
    LinesConcat(title + "\n\n", TruthSection(t));
    LinesConcat(title + "\n\n" + TruthSection(t), ObservationSection(t));
    LinesConcat(title + "\n\n" + TruthSection(t) + ObservationSection(t), RelationSection(t));
  }

  lemma NameIsOneLine(t: Topic)
    requires IsLineByLine(t)
    ensures IsOneLine(t.entity.name)
  {
  }

  lemma PrefixOfPrefix<T>(s: seq<T>, i: nat)
    requires i <= |s|
    ensures i < |s| ==> s[..i + 1][..i] == s[..i]
    ensures s[..|s|] == s
  {
  }

  lemma NoTruthRows(t: Topic, keys: seq<string>)
    ensures TruthRows(t, keys[..0]) == "" && keys[..|keys|] == keys
  {
  }

  lemma TruthRowsSnoc(t: Topic, keys: seq<string>, i: nat)
    requires i < |keys| && forall k :: k in keys ==> k in t.entity.truths
    ensures keys[i] in t.entity.truths
    ensures TruthRows(t, keys[..i + 1]) == TruthRows(t, keys[..i]) + TruthRow(keys[i], t.entity.truths[keys[i]])
  {
    hide TruthRow;
    PrefixOfPrefix(keys, i);
  }

  method RenderTruths(t: Topic) returns (out: string)
    ensures out == TruthSection(t)
  {
    hide TruthHead, TruthRow, TruthRows, StrictlySorted, Line;
    if t.entity.truths == map[] {
      return "";
    }
    var rows := "";
    var keys := Sorted(t.entity.truths.Keys);
    NoTruthRows(t, keys);
    for i := 0 to |keys|
      invariant rows == TruthRows(t, keys[..i])
    {
      TruthRowsSnoc(t, keys, i);
      rows := rows + TruthRow(keys[i], t.entity.truths[keys[i]]);
    }
    out := TruthHead() + rows + "\n";
  }

  method UniqueObservations(t: Topic) returns (unique: seq<string>)
    ensures unique == FirstOccurrences(t.entity.observations)
    ensures AreFirsts(unique, t.entity.observations)
  {
    var observations := t.entity.observations;
    unique := [];
    var seen := {};
    for i := 0 to |observations|
      invariant unique == FirstOccurrences(observations[..i])
      invariant forall o :: o in seen <==> o in observations[..i]
    {
      var o := observations[i];
      assert observations[..i + 1][..i] == observations[..i];
      if o !in seen {
        seen := seen + {o};
        unique := unique + [o];
      }
    }
    assert observations[..|observations|] == observations;
    FirstOccurrencesAreFirsts(observations);
  }

  method RenderObservations(t: Topic) returns (out: string)
    ensures out == ObservationSection(t)
  {
    hide ObservationHead, Bullet;
    if t.entity.observations == [] {
      return "";
    }
    var unique := UniqueObservations(t);
    var bullets := "";
    for i := 0 to |unique|
      invariant bullets == Bullets(unique[..i])
    {
      assert unique[..i + 1][..i] == unique[..i];
      bullets := bullets + Bullet(unique[i]);
    }
    assert unique[..|unique|] == unique;
    out := ObservationHead() + bullets + "\n";
  }

  method RelatedTo(t: Topic) returns (related: seq<Relation>)
    ensures related == Related(t, t.relations) == Filtered(t.relations, Touches(t.entity.name))
  {
    related := [];
    for i := 0 to |t.relations|
      invariant related == Related(t, t.relations[..i])
    {
      assert t.relations[..i + 1][..i] == t.relations[..i];
      var rel := t.relations[i];
      if rel.from == t.entity.name || rel.to == t.entity.name {
        related := related + [rel];
      }
    }
    assert t.relations[..|t.relations|] == t.relations;
    RelatedIsFiltered(t, t.relations);
  }

  method RenderRelations(t: Topic) returns (out: string)
    ensures out == RelationSection(t)
  {
    hide RelationHead, RelationRow, Related;
    var related := RelatedTo(t);
    if related == [] {
      return "";
    }
    var rows := "";
    for i := 0 to |related|
      invariant rows == RelationRows(t, related[..i])
    {
      assert related[..i + 1][..i] == related[..i];
      rows := rows + RelationRow(t, related[i]);
    }
    assert related[..|related|] == related;
    out := RelationHead() + rows + "\n";
  }

  method RenderEntityMarkdown(t: Topic, stamp: string) returns (out: string)
    ensures out == Rendered(t, stamp)
    ensures Block(Fields(t, stamp)) <= out
    ensures IsLineByLine(t) ==> ShowsTopic(out[|Block(Fields(t, stamp))|..], t)
  {
    hide Block, Fields, TruthSection, ObservationSection, RelationSection, ShowsTopic, IsLineByLine;
    var block := RenderFrontmatter(t, stamp);
    out := "# " + t.entity.name + "\n\n";
    var truths := RenderTruths(t);
    out := out + truths;
    var observations := RenderObservations(t);
    out := out + observations;
    var relations := RenderRelations(t);
    if IsLineByLine(t) { BodyIsPage(t); }
    assert (block + Body(t))[|block|..] == Body(t);
    out := block + (out + relations);
  }
}
