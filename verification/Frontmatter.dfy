/** The frontmatter block of a Markdown topic: the writer's quoting, the
    reader's unquoting, and the line reader. Quoting is the double-quoted style
    of section 7.3.1 of YAML 1.2.2, restricted to the escapes of `\` and `"`. */
module Frontmatter {
  import opened Normalize
  import opened Options
  import opened TextLines

  datatype Document = Document(fields: map<string, string>, body: string)

  /** Leftmost non-overlapping replacement of `from` by `to`. */
  function Replace(s: string, from: string, to: string): string
    requires from != ""
    decreases |s|
  {
    if s == "" then ""
    else if from <= s then to + Replace(s[|from|..], from, to)
    else [s[0]] + Replace(s[1..], from, to)
  }

  function Escape(value: string): string {
    Replace(Replace(value, "\\", "\\\\"), "\"", "\\\"")
  }

  function Unescape(text: string): string {
    Replace(Replace(text, "\\\"", "\""), "\\\\", "\\")
  }

  function Quote(value: string): string {
    "\"" + Escape(value) + "\""
  }

  predicate Enclosed(v: string, mark: char) {
    |v| >= 2 && v[0] == mark && v[|v| - 1] == mark
  }

  function Unquote(value: string): string {
    var v := Trim(value);
    if Enclosed(v, '"') then Unescape(v[1..|v| - 1])
    else if Enclosed(v, '\'') then Replace(v[1..|v| - 1], "''", "'")
    else v
  }

  // ---- quoting round trip ---------------------------------------------------

  lemma {:induction false} UnescapeQuotes(w: string)
    ensures Replace(Replace(w, "\"", "\\\""), "\\\"", "\"") == w
  {
    if w != "" {
      var rest := Replace(w[1..], "\"", "\\\"");
      UnescapeQuotes(w[1..]);
      assert w == [w[0]] + w[1..];
      QuoteNeverLeads(w[1..]);
      if w[0] == '"' {
        assert "\"" <= w;
        assert (("\\\"") + rest)[2..] == rest;
      } else {
        assert !("\"" <= w);
        assert ([w[0]] + rest)[1..] == rest;
        assert rest != "" ==> ([w[0]] + rest)[1] != '"';
      }
    }
  }

  lemma QuoteNeverLeads(w: string)
    ensures var r := Replace(w, "\"", "\\\""); r != "" ==> r[0] != '"'
  {
    if w != "" { assert w[0] == '"' ==> "\"" <= w; }
  }

  lemma {:induction false} UnescapeBackslashes(v: string)
    ensures Replace(Replace(v, "\\", "\\\\"), "\\\\", "\\") == v
  {
    if v != "" {
      var rest := Replace(v[1..], "\\", "\\\\");
      UnescapeBackslashes(v[1..]);
      assert v == [v[0]] + v[1..];
      if v[0] == '\\' {
        assert "\\" <= v;
        assert ("\\\\" + rest)[2..] == rest;
      } else {
        assert !("\\" <= v);
        assert ([v[0]] + rest)[1..] == rest;
      }
    }
  }

  lemma TrimKeepsInked(v: string)
    requires v != "" && !IsWhitespace(v[0]) && !IsWhitespace(v[|v| - 1])
    ensures Trim(v) == v
  {
  }

  /** Unquoting undoes quoting, whatever the value holds. */
  lemma QuoteRoundTrips(value: string)
    ensures Unquote(Quote(value)) == value
  {
    var q := Quote(value);
    TrimKeepsInked(q);
    assert q[1..|q| - 1] == Escape(value);
    UnescapeQuotes(Replace(value, "\\", "\\\\"));
    UnescapeBackslashes(value);
  }

  /** Replacing one character, one character at a time. */
  lemma ReplaceMark(c: char, rest: string, mark: char, to: string)
    ensures Replace([c] + rest, [mark], to) == (if c == mark then to else [c]) + Replace(rest, [mark], to)
  {
    var all := [c] + rest;
    assert all[1..] == rest && ([mark] <= all <==> all[0] == mark);
  }

  /** Quoting, character by character. */
  lemma EscapeIs(c: char, rest: string)
    ensures Escape("") == ""
    ensures Escape([c] + rest)
         == (if c == '\\' then "\\\\" else if c == '"' then "\\\"" else [c]) + Escape(rest)
  {
    var once := Replace(rest, "\\", "\\\\");
    ReplaceMark(c, rest, '\\', "\\\\");
    hide Replace;
    if c == '\\' {
      assert "\\\\" + once == ['\\'] + (['\\'] + once);
      ReplaceMark('\\', ['\\'] + once, '"', "\\\"");
      ReplaceMark('\\', once, '"', "\\\"");
    } else {
      ReplaceMark(c, once, '"', "\\\"");
    }
  }

  lemma {:induction false} UndoubleMarks(w: string)
    ensures Replace(Replace(w, "'", "''"), "''", "'") == w
  {
    if w != "" {
      var rest := Replace(w[1..], "'", "''");
      UndoubleMarks(w[1..]);
      assert w == [w[0]] + w[1..];
      if w[0] == '\'' {
        assert ("''" + rest)[2..] == rest;
      } else {
        assert ([w[0]] + rest)[1..] == rest;
      }
    }
  }

  predicate IsBare(v: string) {
    && v != "" && !IsWhitespace(v[0]) && !IsWhitespace(v[|v| - 1])
    && v[0] != '"' && v[0] != '\''
  }

  /** A single-quoted text, its quotes doubled, is read back, and so is any text
      that begins and ends with ink and does not begin with a quote. */
  lemma SingleQuotesRoundTrip(value: string)
    ensures Unquote("'" + Replace(value, "'", "''") + "'") == value
    ensures IsBare(value) ==> Unquote(value) == value
  {
    var doubled := Replace(value, "'", "''");
    var q := "'" + doubled + "'";
    assert q[1..|q| - 1] == doubled;
    UndoubleMarks(value);
    TrimKeepsInked(q);
    if IsBare(value) { TrimKeepsInked(value); }
  }

  // ---- lines ----------------------------------------------------------------

  /** The text up to and including the first newline, or all of it. */
  function FirstLine(text: string): (line: string)
    ensures line <= text
    ensures text != "" ==> line != ""
  {
    if text == "" then "" else if text[0] == '\n' then "\n" else [text[0]] + FirstLine(text[1..])
  }

  function TrimLineEnd(line: string): string {
    if line != "" && (line[|line| - 1] == '\r' || line[|line| - 1] == '\n')
    then TrimLineEnd(line[..|line| - 1])
    else line
  }

  /** The text from its first character on that is no line break. */
  function TrimLineStart(text: string): (rest: string)
    ensures |rest| <= |text| && rest == text[|text| - |rest|..]
    ensures forall i :: 0 <= i < |text| - |rest| ==> text[i] == '\r' || text[i] == '\n'
    ensures rest != "" ==> rest[0] != '\r' && rest[0] != '\n'
  {
    if text != "" && (text[0] == '\r' || text[0] == '\n') then
      TrimLineStart(text[1..])
    else text
  }

  predicate IsFence(line: string) {
    Trim(TrimLineEnd(line)) == "---"
  }

  /** The position of the first colon, or the length when there is none. */
  function ColonAt(line: string): (i: nat)
    ensures i <= |line|
    ensures ':' !in line[..i]
    ensures i < |line| ==> line[i] == ':'
  {
    if line == "" || line[0] == ':' then 0
    else
      var i := 1 + ColonAt(line[1..]);
      assert line[..i] == [line[0]] + line[1..][..i - 1];
      i
  }

  /** What one line between the fences adds to the fields. */
  function AddField(fields: map<string, string>, line: string): map<string, string> {
    var text := TrimLineEnd(line);
    var i := ColonAt(text);
    if i < |text| then fields[Trim(text[..i]) := Unquote(Trim(text[i + 1..]))] else fields
  }

  /** The fields up to the closing fence, and the text after it. */
  function ReadFields(text: string, fields: map<string, string>): Option<(map<string, string>, string)>
    decreases |text|
  {
    if text == "" then None
    else
      var line := FirstLine(text);
      var rest := text[|line|..];
      if IsFence(line) then Some((fields, rest)) else ReadFields(rest, AddField(fields, line))
  }

  function Parsed(raw: string): Option<Document> {
    var first := FirstLine(raw);
    if raw == "" || !IsFence(first) then None
    else
      match ReadFields(raw[|first|..], map[])
      case None => None
      case Some((fields, rest)) => Some(Document(fields, TrimLineStart(rest)))
  }

  method Parse(raw: string) returns (document: Option<Document>)
    ensures document == Parsed(raw)
  {
    hide IsFence, AddField, TrimLineStart, FirstLine;
    if raw == "" {
      return None;
    }
    var first := FirstLine(raw);
    if !IsFence(first) {
      return None;
    }
    ghost var expected := ReadFields(raw[|first|..], map[]);
    var fields: map<string, string> := map[];
    var consumed := |first|;
    var closed := false;
    while !closed && consumed < |raw|
      invariant consumed <= |raw|
      invariant expected == if closed then Some((fields, raw[consumed..])) else ReadFields(raw[consumed..], fields)
      decreases |raw| - consumed, !closed
    {
      var line := FirstLine(raw[consumed..]);
      assert raw[consumed..][|line|..] == raw[consumed + |line|..];
      consumed := consumed + |line|;
      if IsFence(line) {
        closed := true;
      } else {
        fields := AddField(fields, line);
      }
    }
    return if closed then Some(Document(fields, TrimLineStart(raw[consumed..]))) else None;
  }

  // ---- reading back a rendered block ----------------------------------------

  /** One rendered field: a key and the text after its colon. */
  datatype Field = Field(key: string, text: string)

  function FieldLine(f: Field): string {
    f.key + ": " + f.text + "\n"
  }

  function FieldLines(fields: seq<Field>): string {
    if fields == [] then "" else FieldLine(fields[0]) + FieldLines(fields[1..])
  }

  /** A key the reader gives back unchanged. */
  predicate IsPlainKey(key: string) {
    '\n' !in key && ':' !in key && Trim(key) == key
  }

  /** A value text that stays on its line and begins and ends with ink. */
  predicate IsPlainText(text: string) {
    text != "" && '\n' !in text && !IsWhitespace(text[0]) && !IsWhitespace(text[|text| - 1])
  }

  predicate IsPlainField(f: Field) {
    IsPlainKey(f.key) && IsPlainText(f.text)
  }

  /** The map a list of fields stands for; a repeated key keeps its last value. */
  function Collect(fields: seq<Field>, into: map<string, string>): map<string, string> {
    if fields == [] then into else Collect(fields[1..], into[fields[0].key := Unquote(fields[0].text)])
  }

  lemma {:induction false} FirstLineOf(line: string, rest: string)
    requires '\n' !in line
    ensures FirstLine(line + "\n" + rest) == line + "\n"
  {
    var text := line + "\n" + rest;
    if line != "" {
      assert text[1..] == line[1..] + "\n" + rest;
      assert line[0] in line;
      FirstLineOf(line[1..], rest);
    }
  }

  lemma {:induction false} ColonAtKey(key: string, rest: string)
    requires ':' !in key
    ensures ColonAt(key + ":" + rest) == |key|
  {
    var text := key + ":" + rest;
    if key != "" {
      assert text[1..] == key[1..] + ":" + rest;
      assert key[0] in key;
      ColonAtKey(key[1..], rest);
    }
  }

  lemma {:induction false} TrimKeepsMembers(s: string)
    ensures forall c :: c in s && !IsWhitespace(c) ==> c in Trim(s)
  {
    TrimStartKeepsMembers(s);
    TrimEndKeepsMembers(TrimStart(s));
  }

  lemma {:induction false} TrimStartKeepsMembers(s: string)
    ensures forall c :: c in s && !IsWhitespace(c) ==> c in TrimStart(s)
  {
    if s != "" && IsWhitespace(s[0]) { TrimStartKeepsMembers(s[1..]); }
  }

  lemma {:induction false} TrimEndKeepsMembers(s: string)
    ensures forall c :: c in s && !IsWhitespace(c) ==> c in TrimEnd(s)
  {
    if s != "" && IsWhitespace(s[|s| - 1]) { TrimEndKeepsMembers(s[..|s| - 1]); }
  }

  lemma FieldLineIsNoFence(f: Field)
    requires IsPlainField(f)
    ensures TrimLineEnd(FieldLine(f)) == f.key + ": " + f.text
    ensures !IsFence(FieldLine(f))
  {
    var line := f.key + ": " + f.text;
    assert FieldLine(f)[..|line|] == line;
    assert TrimLineEnd(line) == line;
    assert ':' in line;
    TrimKeepsMembers(line);
    assert ':' !in "---";
  }

  lemma TrimDropsSpace(text: string)
    requires IsPlainText(text)
    ensures Trim(" " + text) == text
  {
    hide IsWhitespace, TrimEnd;
    assert IsWhitespace(' ') by { SpaceIsWhitespace(); }
    assert (" " + text)[1..] == text;
    TrimKeepsInked(text);
    assert TrimStart(text) == text;
  }

  lemma SpaceIsWhitespace()
    ensures IsWhitespace(' ')
  {
  }

  lemma FieldIsRead(f: Field, fields: map<string, string>)
    requires IsPlainField(f)
    ensures AddField(fields, FieldLine(f)) == fields[f.key := Unquote(f.text)]
  {
    hide Trim, TrimEnd, IsWhitespace, Unquote, TrimLineEnd, IsFence, IsPlainText, ColonAt;
    var line := f.key + ": " + f.text;
    FieldLineIsNoFence(f);
    assert line == f.key + ":" + (" " + f.text);
    ColonAtKey(f.key, " " + f.text);
    assert line[..|f.key|] == f.key;
    assert line[|f.key| + 1..] == " " + f.text;
    TrimDropsSpace(f.text);
  }

  lemma FirstLineSplits(line: string, rest: string)
    requires '\n' !in line
    ensures FirstLine(line + "\n" + rest) == line + "\n"
    ensures (line + "\n" + rest)[|line + "\n"|..] == rest
  {
    FirstLineOf(line, rest);
  }

  lemma FenceIsFence()
    ensures IsFence("---" + "\n")
  {
    assert ("---" + "\n")[..3] == "---";
    assert TrimLineEnd("---") == "---";
  }

  lemma ReadFence(rest: string, into: map<string, string>)
    ensures ReadFields("---" + "\n" + rest, into) == Some((into, rest))
  {
    FirstLineSplits("---", rest);
    FenceIsFence();
  }

  lemma ReadLine(f: Field, rest: string, into: map<string, string>)
    requires IsPlainField(f)
    ensures ReadFields(FieldLine(f) + rest, into) == ReadFields(rest, into[f.key := Unquote(f.text)])
  {
    var line := f.key + ": " + f.text;
    assert '\n' !in line;
    FieldLineIsNoFence(f);
    FieldIsRead(f, into);
    FirstLineSplits(line, rest);
  }

  /** Reading plain field lines collects exactly those fields, whatever follows. */
  lemma {:induction false} FieldLinesAreRead(fields: seq<Field>, into: map<string, string>, tail: string)
    requires forall f :: f in fields ==> IsPlainField(f)
    ensures ReadFields(FieldLines(fields) + tail, into) == ReadFields(tail, Collect(fields, into))
  {
    hide IsWhitespace, IsPlainField, ReadFields, FieldLine, Unquote;
    if fields == [] {
      assert "" + tail == tail;
    } else {
      var f, lines := fields[0], FieldLines(fields[1..]);
      assert IsPlainField(f);
      assert FieldLine(f) + lines + tail == FieldLine(f) + (lines + tail);
      ReadLine(f, lines + tail, into);
      FieldLinesAreRead(fields[1..], into[f.key := Unquote(f.text)], tail);
    }
  }

  /** Plain field lines followed by a fence are read as exactly those fields,
      and reading stops right after the fence. */
  lemma FieldsAreRead(fields: seq<Field>, into: map<string, string>, rest: string)
    requires forall f :: f in fields ==> IsPlainField(f)
    ensures ReadFields(FieldLines(fields) + ("---" + "\n" + rest), into) == Some((Collect(fields, into), rest))
  {
    hide *;
    FieldLinesAreRead(fields, into, "---" + "\n" + rest);
    ReadFence(rest, Collect(fields, into));
  }

  // ---- fields and fences, line by line --------------------------------------

  lemma {:induction false} TrimStartConcat(s: string, w: string)
    requires AllWhitespace(w)
    ensures TrimStart(s + w) == if TrimStart(s) == "" then "" else TrimStart(s) + w
  {
    hide IsWhitespace;
    if s != "" {
      assert (s + w)[1..] == s[1..] + w;
      if IsWhitespace(s[0]) { TrimStartConcat(s[1..], w); }
    } else {
      assert s + w == w;
      BlankStartsAway(w);
    }
  }

  lemma {:induction false} BlankStartsAway(w: string)
    requires AllWhitespace(w)
    ensures TrimStart(w) == ""
  {
    hide IsWhitespace;
    if w != "" { BlankStartsAway(w[1..]); }
  }

  lemma {:induction false} TrimEndConcat(s: string, w: string)
    requires AllWhitespace(w)
    ensures TrimEnd(s + w) == TrimEnd(s)
  {
    hide IsWhitespace;
    if w == "" {
      assert s + w == s;
    } else {
      assert (s + w)[..|s + w| - 1] == s + w[..|w| - 1];
      assert w[|w| - 1] in w;
      TrimEndConcat(s, w[..|w| - 1]);
    }
  }

  /** Whitespace at the end does not matter to trimming. */
  lemma TrimConcat(s: string, w: string)
    requires AllWhitespace(w)
    ensures Trim(s + w) == Trim(s)
  {
    hide IsWhitespace, AllWhitespace;
    TrimStartConcat(s, w);
    TrimEndConcat(TrimStart(s), w);
  }

  lemma {:induction false} TrimLineEndIs(line: string)
    ensures TrimLineEnd(line) <= line && AllWhitespace(line[|TrimLineEnd(line)|..])
    ensures Trim(TrimLineEnd(line)) == Trim(line)
  {
    if line != "" && (line[|line| - 1] == '\r' || line[|line| - 1] == '\n') {
      var before := line[..|line| - 1];
      TrimLineEndIs(before);
      hide Trim;
      assert line == before + [line[|line| - 1]];
      assert line[|TrimLineEnd(before)|..] == before[|TrimLineEnd(before)|..] + [line[|line| - 1]];
      TrimConcat(before, [line[|line| - 1]]);
    }
  }

  lemma {:induction false} TrimLineEndAfter(head: string, c: char, b: string)
    requires c != '\r' && c != '\n'
    ensures TrimLineEnd(head + [c] + b) == head + [c] + TrimLineEnd(b)
  {
    var all := head + [c] + b;
    if b == "" {
      assert all == head + [c];
    } else {
      assert all[..|all| - 1] == head + [c] + b[..|b| - 1];
      TrimLineEndAfter(head, c, b[..|b| - 1]);
    }
  }

  /** A line with a colon sets the trimmed text before its first colon to the
      unquoted text after it; a line without one sets nothing. */
  lemma AddFieldIs(fields: map<string, string>, a: string, b: string)
    requires ':' !in a
    ensures AddField(fields, a + ":" + b) == fields[Trim(a) := Unquote(Trim(b))]
    ensures AddField(fields, a) == fields
  {
    hide Trim, Unquote, IsWhitespace;
    TrimLineEndAfter(a, ':', b);
    assert a + ":" + b == a + [':'] + b;
    var text := a + ":" + TrimLineEnd(b);
    ColonAtKey(a, TrimLineEnd(b));
    assert text[..|a|] == a && text[|a| + 1..] == TrimLineEnd(b);
    TrimLineEndIs(b);
    TrimLineEndIs(a);
  }

  /** The first line, with and without its line break. */
  lemma {:induction false} FirstOfLines(text: string)
    requires text != ""
    ensures var first := FirstLine(text);
            && Lines(text)[1..] == Lines(text[|first|..])
            && (first == Lines(text)[0] || first == Line(Lines(text)[0]))
  {
    if text[0] != '\n' {
      var rest := text[1..];
      if rest == "" {
        assert FirstLine(text) == text && text[|text|..] == "";
      } else {
        FirstOfLines(rest);
        var first := FirstLine(rest);
        assert text[|FirstLine(text)|..] == rest[|first|..];
        assert [text[0]] + Line(Lines(rest)[0]) == Line([text[0]] + Lines(rest)[0]);
      }
    }
  }

  lemma FirstIsFence(text: string)
    requires text != ""
    ensures IsFence(FirstLine(text)) <==> Trim(Lines(text)[0]) == "---"
  {
    hide Trim, IsWhitespace, FirstLine, Lines;
    FirstOfLines(text);
    TrimLineEndIs(FirstLine(text));
    assert IsWhitespace('\n') by { LineBreakIsWhitespace(); }
    TrimConcat(Lines(text)[0], "\n");
  }

  lemma LineBreakIsWhitespace()
    ensures IsWhitespace('\n')
  {
  }

  lemma {:induction false} ReadsExactlyWhenFenced(text: string, fields: map<string, string>)
    ensures ReadFields(text, fields).Some? <==> exists i :: 0 <= i < |Lines(text)| && Trim(Lines(text)[i]) == "---"
    decreases |text|
  {
    hide Trim, IsFence, AddField, FirstLine, Lines;
    if text == "" {
      EmptyHasNoLines();
    } else {
      var line := FirstLine(text);
      var rest := text[|line|..];
      FirstIsFence(text);
      FirstOfLines(text);
      if !IsFence(line) {
        ReadsExactlyWhenFenced(rest, AddField(fields, line));
        if i :| 0 <= i < |Lines(rest)| && Trim(Lines(rest)[i]) == "---" {
          assert Lines(text)[i + 1] == Lines(rest)[i];
        }
        if i :| 0 <= i < |Lines(text)| && Trim(Lines(text)[i]) == "---" {
          assert Lines(text)[i] == Lines(rest)[i - 1];
        }
      }
    }
  }

  /** A text is a document exactly when its first line and some later one are
      fences, three hyphens between whitespace. */
  lemma ParsesExactlyWhenFenced(raw: string)
    ensures Parsed(raw).Some?
       <==> && raw != "" && Trim(Lines(raw)[0]) == "---"
            && exists i :: 1 <= i < |Lines(raw)| && Trim(Lines(raw)[i]) == "---"
  {
    hide Trim, IsFence, ReadFields, FirstLine, Lines, TrimLineStart;
    if raw != "" {
      var rest := raw[|FirstLine(raw)|..];
      FirstIsFence(raw);
      FirstOfLines(raw);
      ReadsExactlyWhenFenced(rest, map[]);
      assert forall i :: 0 <= i < |Lines(rest)| ==> Lines(raw)[i + 1] == Lines(rest)[i];
      if i :| 1 <= i < |Lines(raw)| && Trim(Lines(raw)[i]) == "---" {
        assert Lines(raw)[i] == Lines(rest)[i - 1];
      }
    }
  }

  // ---- the last value under a key -------------------------------------------

  /** The value under `key` in the last line before the first fence that has
      one. */
  function LastValue(text: string, key: string): Option<string>
    decreases |text|
  {
    if text == "" || IsFence(FirstLine(text)) then None
    else
      var line := FirstLine(text);
      var added := AddField(map[], line);
      match LastValue(text[|line|..], key)
      case Some(value) => Some(value)
      case None => if key in added then Some(added[key]) else None
  }

  /** Some line of the text is a fence. */
  predicate HasFence(text: string)
    decreases |text|
  {
    text != "" && (IsFence(FirstLine(text)) || HasFence(text[|FirstLine(text)|..]))
  }

  /** Lines that hold a fence decide the last value; others give way to what
      follows. */
  lemma {:induction false} LastValueConcat(lines: string, tail: string, key: string)
    requires lines != "" ==> lines[|lines| - 1] == '\n'
    ensures LastValue(lines + tail, key)
         == if HasFence(lines) || LastValue(tail, key).None? then LastValue(lines, key) else LastValue(tail, key)
    decreases |lines|
  {
    hide IsFence, AddField, FirstLine;
    if lines == "" {
      assert lines + tail == tail;
    } else {
      FirstLineWithin(lines, tail);
      var line := FirstLine(lines);
      assert (lines + tail)[|line|..] == lines[|line|..] + tail;
      if !IsFence(line) {
        LastValueConcat(lines[|line|..], tail, key);
      }
    }
  }

  lemma LastValueOfField(f: Field, key: string)
    requires IsPlainField(f)
    ensures !HasFence(FieldLine(f))
    ensures LastValue(FieldLine(f), key) == if f.key == key then Some(Unquote(f.text)) else None
  {
    var line := f.key + ": " + f.text;
    assert '\n' !in line;
    FieldLineIsNoFence(f);
    FieldIsRead(f, map[]);
    FirstLineSplits(line, "");
    assert FieldLine(f) + "" == FieldLine(f);
    hide IsFence, AddField, Unquote;
  }

  /** Plain fields under other keys do not matter. */
  lemma {:induction false} LastValueSkips(fields: seq<Field>, tail: string, key: string)
    requires forall f :: f in fields ==> IsPlainField(f) && f.key != key
    ensures LastValue(FieldLines(fields) + tail, key) == LastValue(tail, key)
  {
    hide IsPlainField, LastValue, FieldLine, HasFence;
    if fields == [] {
      assert "" + tail == tail;
    } else {
      var f, lines := fields[0], FieldLines(fields[1..]);
      assert FieldLine(f) + lines + tail == FieldLine(f) + (lines + tail);
      FieldLineIsComplete(f);
      LastValueConcat(FieldLine(f), lines + tail, key);
      LastValueOfField(f, key);
      LastValueSkips(fields[1..], tail, key);
    }
  }

  lemma FieldLineIsComplete(f: Field)
    ensures FieldLine(f) != "" && FieldLine(f)[|FieldLine(f)| - 1] == '\n'
  {
  }

  lemma AddFieldOverlays(fields: map<string, string>, line: string)
    ensures AddField(fields, line) == fields + AddField(map[], line)
  {
  }

  /** What reading leaves under a key: the last value, or what was there. */
  lemma {:induction false} ReadFieldsKeepsLast(text: string, fields: map<string, string>, key: string)
    ensures ReadFields(text, fields).Some? ==>
              var found := ReadFields(text, fields).value.0;
              var last := LastValue(text, key);
              && (key in found <==> key in fields || last.Some?)
              && (key in found ==> found[key] == if last.Some? then last.value else fields[key])
    decreases |text|
  {
    hide IsFence, AddField, FirstLine;
    if text != "" && !IsFence(FirstLine(text)) {
      var line := FirstLine(text);
      AddFieldOverlays(fields, line);
      ReadFieldsKeepsLast(text[|line|..], AddField(fields, line), key);
    }
  }

  lemma {:induction false} FirstLineWithin(lines: string, tail: string)
    requires lines != "" && lines[|lines| - 1] == '\n'
    ensures FirstLine(lines + tail) == FirstLine(lines)
    ensures var rest := lines[|FirstLine(lines)|..]; rest != "" ==> rest[|rest| - 1] == '\n'
  {
    assert (lines + tail)[1..] == lines[1..] + tail;
    if lines[0] != '\n' {
      FirstLineWithin(lines[1..], tail);
      assert lines[|FirstLine(lines)|..] == lines[1..][|FirstLine(lines[1..])|..];
    }
  }

  /** Complete lines followed by a fence always close, whatever they hold. */
  lemma {:induction false} FenceCloses(lines: string, rest: string, fields: map<string, string>)
    requires lines != "" ==> lines[|lines| - 1] == '\n'
    ensures ReadFields(lines + ("---" + "\n" + rest), fields).Some?
    decreases |lines|
  {
    hide IsFence, AddField, FirstLine;
    var tail := "---" + "\n" + rest;
    if lines == "" {
      assert lines + tail == tail;
      ReadFence(rest, fields);
    } else {
      FirstLineWithin(lines, tail);
      var line := FirstLine(lines);
      assert (lines + tail)[|line|..] == lines[|line|..] + tail;
      if !IsFence(line) {
        FenceCloses(lines[|line|..], rest, AddField(fields, line));
      }
    }
  }

  lemma {:induction false} FieldLinesAreComplete(fields: seq<Field>)
    ensures FieldLines(fields) != "" ==> FieldLines(fields)[|FieldLines(fields)| - 1] == '\n'
  {
    if fields != [] {
      FieldLinesAreComplete(fields[1..]);
      assert FieldLines(fields)[|FieldLines(fields)| - 1] == '\n' by {
        var lines := FieldLines(fields[1..]);
        var all := FieldLine(fields[0]) + lines;
        if lines == "" { assert all == FieldLine(fields[0]); }
      }
    }
  }

  function Block(fields: seq<Field>): string {
    "---\n" + FieldLines(fields) + "---\n\n"
  }

  lemma BlockSplits(lines: string, body: string)
    ensures "---\n" + lines + "---\n\n" + body == "---" + "\n" + (lines + ("---" + "\n" + ("\n" + body)))
  {
    assert "---\n" == "---" + "\n" && "---\n\n" == "---" + "\n" + "\n";
  }

  lemma ParsedAfterFence(inner: string)
    ensures Parsed("---" + "\n" + inner) ==
            match ReadFields(inner, map[])
            case None => None
            case Some((fields, rest)) => Some(Document(fields, TrimLineStart(rest)))
  {
    FirstLineSplits("---", inner);
    FenceIsFence();
  }

  /** A rendered block over a body that does not begin with a line break is
      read back whole: its fields, and the body untouched, fences and all. */
  lemma BlockIsParsed(fields: seq<Field>, body: string)
    requires forall f :: f in fields ==> IsPlainField(f)
    requires body != "" ==> body[0] != '\n' && body[0] != '\r'
    ensures Parsed(Block(fields) + body) == Some(Document(Collect(fields, map[]), body))
  {
    hide IsWhitespace, IsPlainField, ReadFields, FieldLines, Parsed, Collect;
    BlockSplits(FieldLines(fields), body);
    ParsedAfterFence(FieldLines(fields) + ("---" + "\n" + ("\n" + body)));
    FieldsAreRead(fields, map[], "\n" + body);
    assert ("\n" + body)[1..] == body;
    assert TrimLineStart("\n" + body) == TrimLineStart(body) == body;
  }
}
