/** Entity-name normalisation. */
module Normalize {

  /** Unicode `White_Space`. */
  predicate IsWhitespace(c: char) {
    || '\U{9}' <= c <= '\U{D}' || c == ' ' || c == '\U{85}' || c == '\U{A0}'
    || c == '\U{1680}' || '\U{2000}' <= c <= '\U{200A}' || c == '\U{2028}'
    || c == '\U{2029}' || c == '\U{202F}' || c == '\U{205F}' || c == '\U{3000}'
  }

  predicate IsAlnum(c: char) {
    'a' <= c <= 'z' || 'A' <= c <= 'Z' || '0' <= c <= '9'
  }

  predicate IsSeparator(c: char) {
    c == '-' || c == ':' || c == '_' || c == '.'
  }

  predicate IsConnector(c: char) {
    c == '-' || c == '_' || c == '.' || IsWhitespace(c)
  }

  function TrimStart(s: string): string {
    if s != "" && IsWhitespace(s[0]) then TrimStart(s[1..]) else s
  }

  function TrimEnd(s: string): string {
    if s != "" && IsWhitespace(s[|s| - 1]) then TrimEnd(s[..|s| - 1]) else s
  }

  function Trim(s: string): string {
    TrimEnd(TrimStart(s))
  }

  /** Strip separators from both ends. */
  function TrimSeparators(s: string): string {
    if s == "" then ""
    else if IsSeparator(s[0]) then TrimSeparators(s[1..])
    else if IsSeparator(s[|s| - 1]) then TrimSeparators(s[..|s| - 1])
    else s
  }

  /** The character classes, character by character. */
  lemma CharacterClasses(c: char)
    ensures IsAlnum(c) <==>
            c in "0123456789" || c in "ABCDEFGHIJKLMNOPQRSTUVWXYZ" || c in "abcdefghijklmnopqrstuvwxyz"
    ensures IsSeparator(c) <==> c in "-:_."
    ensures IsConnector(c) <==> c in "-_." || IsWhitespace(c)
    ensures IsWhitespace(c) <==>
            c in "\U{9}\U{A}\U{B}\U{C}\U{D}\U{20}\U{85}\U{A0}\U{1680}\U{2000}\U{2001}\U{2002}\U{2003}\U{2004}"
                 + "\U{2005}\U{2006}\U{2007}\U{2008}\U{2009}\U{200A}\U{2028}\U{2029}\U{202F}\U{205F}\U{3000}"
  {
    AlnumTable(c);
    WhitespaceTable(c);
  }

  lemma AlnumTable(c: char)
    ensures IsAlnum(c) <==>
            c in "0123456789" || c in "ABCDEFGHIJKLMNOPQRSTUVWXYZ" || c in "abcdefghijklmnopqrstuvwxyz"
  {
    DigitTable(c);
    CapitalTable(c);
    SmallTable(c);
  }

  lemma DigitTable(c: char)
    ensures '0' <= c <= '9' <==> c in "0123456789"
  {
    assert '0' <= c <= '9' ==> "0123456789"[c as int - '0' as int] == c;
  }

  lemma CapitalTable(c: char)
    ensures 'A' <= c <= 'Z' <==> c in "ABCDEFGHIJKLMNOPQRSTUVWXYZ"
  {
    assert 'A' <= c <= 'Z' ==> "ABCDEFGHIJKLMNOPQRSTUVWXYZ"[c as int - 'A' as int] == c;
  }

  lemma SmallTable(c: char)
    ensures 'a' <= c <= 'z' <==> c in "abcdefghijklmnopqrstuvwxyz"
  {
    assert 'a' <= c <= 'z' ==> "abcdefghijklmnopqrstuvwxyz"[c as int - 'a' as int] == c;
  }

  lemma WhitespaceTable(c: char)
    ensures IsWhitespace(c) <==>
            c in "\U{9}\U{A}\U{B}\U{C}\U{D}\U{20}\U{85}\U{A0}\U{1680}\U{2000}\U{2001}\U{2002}\U{2003}\U{2004}"
                 + "\U{2005}\U{2006}\U{2007}\U{2008}\U{2009}\U{200A}\U{2028}\U{2029}\U{202F}\U{205F}\U{3000}"
  {
  }

  /** Trimming takes whitespace off both ends until each shows ink. */
  lemma TrimIs(s: string)
    ensures exists i, j :: 0 <= i <= j <= |s| && Trim(s) == s[i..j] && AllWhitespace(s[..i]) && AllWhitespace(s[j..])
    ensures var t := Trim(s); t != "" ==> !IsWhitespace(t[0]) && !IsWhitespace(t[|t| - 1])
  {
    var i := TrimStartIs(s);
    var j := TrimEndIs(s[i..]);
    assert s[i..][..j] == s[i..i + j] && s[i..][j..] == s[i + j..];
  }

  lemma BlankIsTrimmedAway(s: string)
    ensures Trim(s) == "" <==> AllWhitespace(s)
  {
    hide IsWhitespace;
    var i := TrimStartIs(s);
    var j := TrimEndIs(s[i..]);
    if Trim(s) == "" {
      assert s == s[..i] + s[i..] && s[i..] == s[i..][..j] + s[i..][j..];
    } else {
      assert s[i] in s && Trim(s)[0] == s[i];
    }
  }

  predicate AllWhitespace(s: string) {
    forall c :: c in s ==> IsWhitespace(c)
  }

  lemma {:induction false} TrimStartIs(s: string) returns (i: nat)
    ensures i <= |s| && TrimStart(s) == s[i..] && AllWhitespace(s[..i])
    ensures i < |s| ==> !IsWhitespace(s[i])
  {
    hide IsWhitespace;
    i := 0;
    if s != "" && IsWhitespace(s[0]) {
      i := TrimStartIs(s[1..]);
      assert s[..i + 1] == [s[0]] + s[1..][..i];
      i := i + 1;
    }
  }

  lemma {:induction false} TrimEndIs(s: string) returns (j: nat)
    ensures j <= |s| && TrimEnd(s) == s[..j] && AllWhitespace(s[j..])
    ensures j > 0 ==> !IsWhitespace(s[j - 1])
  {
    hide IsWhitespace;
    j := |s|;
    if s != "" && IsWhitespace(s[|s| - 1]) {
      var before := s[..|s| - 1];
      j := TrimEndIs(before);
      assert before[..j] == s[..j] && (j > 0 ==> before[j - 1] == s[j - 1]);
      assert s[j..] == before[j..] + [s[|s| - 1]];
    }
  }

  // ---- the declarative form -------------------------------------------------

  function FirstConnector(gap: string): string {
    if gap == "" then ""
    else if IsConnector(gap[0]) then [if IsWhitespace(gap[0]) then '-' else gap[0]]
    else FirstConnector(gap[1..])
  }

  /** What a run of non-alphanumeric characters between two alphanumeric ones
      is reduced to. */
  function Separator(gap: string): string {
    if ':' in gap then ":" else FirstConnector(gap)
  }

  /** A gap with a colon is a colon; otherwise its first hyphen, underscore,
      full stop or whitespace stands for it, whitespace as a hyphen. */
  lemma {:induction false} SeparatorIs(gap: string)
    ensures ':' in gap ==> Separator(gap) == ":"
    ensures forall i :: 0 <= i < |gap| && ':' !in gap && IsConnector(gap[i]) && NoConnector(gap[..i]) ==>
                          Separator(gap) == if IsWhitespace(gap[i]) then "-" else [gap[i]]
    ensures ':' !in gap && NoConnector(gap) ==> Separator(gap) == ""
  {
    if gap != "" && ':' !in gap {
      SeparatorIs(gap[1..]);
      hide IsWhitespace;
      forall i | 0 <= i < |gap| && IsConnector(gap[i]) && NoConnector(gap[..i])
        ensures Separator(gap) == if IsWhitespace(gap[i]) then "-" else [gap[i]]
      {
        if i > 0 {
          assert gap[..i][0] == gap[0];
          assert gap[1..][..i - 1] == gap[..i][1..];
        }
      }
    }
  }

  predicate NoConnector(s: string) {
    forall c :: c in s ==> !IsConnector(c)
  }

  /** The run of non-alphanumeric characters at the end of `s`. */
  function Tail(s: string): string {
    if s == "" || IsAlnum(s[|s| - 1]) then "" else Tail(s[..|s| - 1]) + [s[|s| - 1]]
  }

  /** The run of non-alphanumeric characters at the start of `s`. */
  function Head(s: string): string {
    if s == "" || IsAlnum(s[0]) then "" else [s[0]] + Head(s[1..])
  }

  function Join(left: string, separator: string, right: string): string {
    if left == "" then right else if right == "" then left else left + separator + right
  }

  /** Every alphanumeric character of `s` in order, neighbours joined by what
      the gap between them reduces to. */
  function Canonical(s: string): string {
    if s == "" then ""
    else
      var before, last := s[..|s| - 1], s[|s| - 1];
      if IsAlnum(last) then Join(Canonical(before), Separator(Tail(before)), [last]) else Canonical(before)
  }

  lemma {:induction false} SeparatorSnoc(gap: string, c: char)
    ensures |Separator(gap)| <= 1
    ensures forall x :: x in Separator(gap) ==> IsSeparator(x)
    ensures ':' in gap <==> Separator(gap) == ":"
    ensures c == ':' ==> Separator(gap + [c]) == ":"
    ensures c != ':' && Separator(gap) != "" ==> Separator(gap + [c]) == Separator(gap)
    ensures c != ':' && Separator(gap) == "" ==> Separator(gap + [c]) == Separator([c])
  {
    if gap == "" {
      assert gap + [c] == [c];
    } else {
      SeparatorSnoc(gap[1..], c);
      assert gap == [gap[0]] + gap[1..];
      assert gap + [c] == [gap[0]] + (gap[1..] + [c]);
    }
  }

  // ---- the automaton --------------------------------------------------------

  function Kind(separator: string): int {
    if separator == "" then 0 else if separator == ":" then 2 else 1
  }

  method NormalizeKey(key: string) returns (out: string)
    ensures out == Canonical(key)
  {
    hide IsWhitespace, IsAlnum, AllSeparators, IsSeparator, Canonical, Tail, FirstConnector, Separator, Join,
        Trim, TrimSeparators;
    out := "";
    var lastType := 0;  // 0: none or alphanumeric, 1: connector, 2: colon
    var text := Trim(key);
    ghost var lead, done, gap := "", "", "";
    NothingSeen();
    for i := 0 to |text|
      invariant AllSeparators(lead) && (done == "" ==> lead == "")
      invariant done == Canonical(text[..i]) && gap == Tail(text[..i])
      invariant out == lead + done + Separator(gap)
      invariant lastType == Kind(Separator(gap))
    {
      var ch := text[i];
      assert text[..i + 1] == text[..i] + [ch];
      CanonicalSnoc(text[..i], ch);
      SeparatorStep(gap, ch);
      if IsAlnum(ch) {
        AppendAlnum(lead, done, Separator(gap), ch);
        if done == "" {
          lead := Separator(gap);
        }
        done, gap := Join(done, Separator(gap), [ch]), "";
        out := out + [ch];
        lastType := 0;
      } else {
        gap := gap + [ch];
        if ch == ':' {
          if lastType != 0 {
            out := out[..|out| - 1];
          }
          out := out + [':'];
          lastType := 2;
        } else if ch == '-' || ch == '_' || ch == '.' || IsWhitespace(ch) {
          var connector := if IsWhitespace(ch) then '-' else ch;
          if lastType == 0 {
            out := out + [connector];
            lastType := 1;
          }
        }
      }
    }
    assert text[..|text|] == text;
    TrimmingLeavesCanonical(key, lead);
    out := TrimSeparators(out);
  }

  lemma AppendAlnum(lead: string, done: string, separator: string, ch: char)
    ensures done == "" && lead == "" ==>
        separator + Join(done, separator, [ch]) + "" == lead + done + separator + [ch]
    ensures done != "" ==> Join(done, separator, [ch]) != "" &&
                           lead + Join(done, separator, [ch]) + "" == lead + done + separator + [ch]
  {
  }

  lemma NothingSeen()
    ensures Canonical("") == "" && Tail("") == "" && Separator("") == "" && AllSeparators("")
  {
  }

  ghost predicate AllSeparators(s: string) {
    forall c :: c in s ==> IsSeparator(c)
  }

  lemma SeparatorStep(gap: string, ch: char)
    ensures |Separator(gap)| <= 1 && AllSeparators(Separator(gap))
    ensures ch == ':' ==> Separator(gap + [ch]) == ":"
    ensures ch != ':' && (Separator(gap) != "" || !IsConnector(ch)) ==> Separator(gap + [ch]) == Separator(gap)
    ensures ch != ':' && Separator(gap) == "" && IsConnector(ch) ==>
              Separator(gap + [ch]) == [if IsWhitespace(ch) then '-' else ch]
  {
    SeparatorSnoc(gap, ch);
    assert [ch][1..] == "" && FirstConnector("") == "";
    assert ch != ':' && !IsConnector(ch) ==> Separator([ch]) == "";
  }

  lemma TrimmingLeavesCanonical(key: string, lead: string)
    requires AllSeparators(lead)
    requires Canonical(Trim(key)) == "" ==> lead == ""
    ensures TrimSeparators(lead + Canonical(Trim(key)) + Separator(Tail(Trim(key)))) == Canonical(key)
  {
    var text := Trim(key);
    SeparatorSnoc(Tail(text), ' ');
    CanonicalIsWellFormed(text);
    TrimSeparatorsAround(lead, Canonical(text), Separator(Tail(text)));
    CanonicalIgnoresOuterWhitespace(key);
  }

  lemma {:induction false} TrimSeparatorsAround(before: string, core: string, after: string)
    requires forall c :: c in before + after ==> IsSeparator(c)
    requires core != "" ==> IsAlnum(core[0]) && IsAlnum(core[|core| - 1])
    requires core == "" ==> before == ""
    ensures TrimSeparators(before + core + after) == core
    decreases |before| + |after|
  {
    var all := before + core + after;
    if before != "" {
      assert all[1..] == before[1..] + core + after;
      TrimSeparatorsAround(before[1..], core, after);
    } else if core == "" && after != "" {
      assert all[1..] == before + core + after[1..];
      TrimSeparatorsAround(before, core, after[1..]);
    } else if after != "" {
      assert all[..|all| - 1] == before + core + after[..|after| - 1];
      TrimSeparatorsAround(before, core, after[..|after| - 1]);
    } else {
      assert all == core;
    }
  }

  // ---- concatenation --------------------------------------------------------

  lemma {:induction false} CanonicalEmpty(s: string)
    ensures Canonical(s) == "" <==> forall c :: c in s ==> !IsAlnum(c)
    ensures Canonical(s) == "" ==> Tail(s) == s && Head(s) == s
  {
    if s != "" {
      var before, last := s[..|s| - 1], s[|s| - 1];
      assert s == before + [last];
      CanonicalEmpty(before);
      if Canonical(s) == "" { HeadOfGap(s); }
    }
  }

  lemma {:induction false} HeadOfGap(s: string)
    requires forall c :: c in s ==> !IsAlnum(c)
    ensures Head(s) == s
  {
    if s != "" { HeadOfGap(s[1..]); }
  }

  lemma {:induction false} HeadConcat(a: string, b: string)
    ensures Canonical(a) != "" ==> Head(a + b) == Head(a)
  {
    if a != "" {
      assert a + b == [a[0]] + (a[1..] + b);
      CanonicalEmpty(a);
      CanonicalEmpty(a[1..]);
      if Canonical(a) != "" && !IsAlnum(a[0]) {
        HeadConcat(a[1..], b);
      }
    }
  }

  lemma {:induction false} TailConcat(a: string, b: string)
    ensures Tail(a + b) == if Canonical(b) == "" then Tail(a) + b else Tail(b)
  {
    if b == "" {
      assert a + b == a && Tail(a) + b == Tail(a);
    } else {
      var before, last := b[..|b| - 1], b[|b| - 1];
      assert b == before + [last] && a + b == a + before + [last];
      TailConcat(a, before);
      CanonicalSnoc(before, last);
      CanonicalSnoc(a + before, last);
      assert Tail(a) + before + [last] == Tail(a) + b;
    }
  }

  /** Normalising a concatenation joins the normal forms by what the gap at the
      seam reduces to. */
  lemma {:induction false} CanonicalConcat(a: string, b: string)
    ensures Canonical(a + b) == Join(Canonical(a), Separator(Tail(a) + Head(b)), Canonical(b))
  {
    if b == "" {
      assert a + b == a;
    } else {
      var before, last := b[..|b| - 1], b[|b| - 1];
      assert b == before + [last] && a + b == a + before + [last];
      CanonicalConcat(a, before);
      CanonicalSnoc(before, last);
      CanonicalSnoc(a + before, last);
      if IsAlnum(last) {
        TailConcat(a, before);
        SeamBeforeAlnum(a, before, last);
      } else if Canonical(before) != "" {
        HeadConcat(before, [last]);
      }
    }
  }

  lemma SeamBeforeAlnum(a: string, before: string, last: char)
    requires IsAlnum(last)
    ensures Join(Join(Canonical(a), Separator(Tail(a) + Head(before)), Canonical(before)),
                 Separator(if Canonical(before) == "" then Tail(a) + before else Tail(before)), [last])
         == Join(Canonical(a), Separator(Tail(a) + Head(before + [last])),
             Join(Canonical(before), Separator(Tail(before)), [last]))
  {
    CanonicalEmpty(before);
    if Canonical(before) != "" {
      HeadConcat(before, [last]);
      JoinAssociates(Canonical(a), Separator(Tail(a) + Head(before)), Canonical(before), Separator(Tail(before)),
          [last]);
    } else {
      HeadThenAlnum(before, last);
    }
  }

  lemma CanonicalSnoc(before: string, last: char)
    ensures Canonical(before + [last]) ==
            if IsAlnum(last) then Join(Canonical(before), Separator(Tail(before)), [last]) else Canonical(before)
    ensures Tail(before + [last]) == if IsAlnum(last) then "" else Tail(before) + [last]
  {
    assert (before + [last])[..|before|] == before;
  }

  lemma JoinAssociates(x: string, s: string, y: string, t: string, z: string)
    requires y != ""
    ensures Join(Join(x, s, y), t, z) == Join(x, s, Join(y, t, z))
  {
    assert (x + s + y) + t + z == x + s + (y + t + z);
  }

  lemma {:induction false} HeadThenAlnum(gap: string, c: char)
    requires IsAlnum(c) && forall x :: x in gap ==> !IsAlnum(x)
    ensures Head(gap + [c]) == gap
  {
    if gap != "" {
      assert gap + [c] == [gap[0]] + (gap[1..] + [c]);
      HeadThenAlnum(gap[1..], c);
    }
  }

  lemma {:induction false} CanonicalIgnoresOuterWhitespace(s: string)
    ensures Canonical(Trim(s)) == Canonical(s)
  {
    CanonicalIgnoresLeadingWhitespace(s);
    CanonicalIgnoresTrailingWhitespace(TrimStart(s));
  }

  lemma {:induction false} CanonicalIgnoresLeadingWhitespace(s: string)
    ensures Canonical(TrimStart(s)) == Canonical(s)
  {
    if s != "" && IsWhitespace(s[0]) {
      CanonicalIgnoresLeadingWhitespace(s[1..]);
      assert s == [s[0]] + s[1..];
      CanonicalConcat([s[0]], s[1..]);
    }
  }

  lemma {:induction false} CanonicalIgnoresTrailingWhitespace(s: string)
    ensures Canonical(TrimEnd(s)) == Canonical(s)
  {
    if s != "" && IsWhitespace(s[|s| - 1]) {
      CanonicalIgnoresTrailingWhitespace(s[..|s| - 1]);
    }
  }

  /** Normalisation distributes over `:` between two non-empty names; a part
      that normalises to nothing disappears with its colon. */
  lemma {:induction false} ColonJoinsNormalForms(a: string, b: string)
    ensures Canonical(a + ":" + b) == Join(Canonical(a), ":", Canonical(b))
  {
    TailConcat(a, ":");
    CanonicalConcat(a, ":");
    assert Canonical(":") == "";
    CanonicalConcat(a + ":", b);
    SeparatorSnoc(Tail(a) + ":" + Head(b), ' ');
    assert Tail(a + ":") == Tail(a) + ":";
  }

  function CanonicalAll(names: seq<string>): (r: seq<string>)
    ensures |r| == |names|
  {
    seq(|names|, i requires 0 <= i < |names| => Canonical(names[i]))
  }

  // ---- the image ------------------------------------------------------------

  ghost predicate IsWellFormed(w: string) {
    && (forall i :: 0 <= i < |w| ==> IsAlnum(w[i]) || IsSeparator(w[i]))
    && (w != "" ==> IsAlnum(w[0]) && IsAlnum(w[|w| - 1]))
    && (forall i :: 0 <= i < |w| - 1 ==> IsAlnum(w[i]) || IsAlnum(w[i + 1]))
  }

  lemma {:induction false} CanonicalIsWellFormed(s: string)
    ensures IsWellFormed(Canonical(s))
  {
    if s != "" {
      var before, last := s[..|s| - 1], s[|s| - 1];
      CanonicalIsWellFormed(before);
      SeparatorSnoc(Tail(before), ' ');
    }
  }

  lemma {:induction false} WellFormedPrefix(w: string, n: nat)
    requires IsWellFormed(w) && n <= |w|
    ensures n > 0 ==> Canonical(w[..n]) != ""
    ensures n > 0 && IsAlnum(w[n - 1]) ==> Canonical(w[..n]) == w[..n] && Tail(w[..n]) == ""
    ensures n > 0 && !IsAlnum(w[n - 1]) ==> Canonical(w[..n]) == w[..n - 1] && Tail(w[..n]) == [w[n - 1]]
  {
    if n > 0 {
      WellFormedPrefix(w, n - 1);
      WellFormedAt(w, n - 1);
      var before, last := w[..n - 1], w[n - 1];
      hide IsWhitespace, IsAlnum, IsSeparator, IsWellFormed, Canonical, Tail, Separator, FirstConnector;
      assert w[..n] == before + [last];
      CanonicalSnoc(before, last);
      if n == 1 {
        NothingSeen();
      } else if !IsAlnum(w[n - 2]) {
        assert before == w[..n - 2] + [w[n - 2]];
      }
    }
  }

  lemma WellFormedAt(w: string, i: nat)
    requires IsWellFormed(w) && i < |w|
    ensures i == 0 ==> IsAlnum(w[i])
    ensures i > 0 && !IsAlnum(w[i - 1]) ==> IsAlnum(w[i]) && Separator([w[i - 1]]) == [w[i - 1]]
  {
    if i > 0 && !IsAlnum(w[i - 1]) {
      assert IsAlnum(w[i - 1]) || IsAlnum(w[i - 1 + 1]);
    }
  }

  /** The normal forms are exactly the well-formed names, each its own normal
      form; so normalising twice is normalising once. */
  lemma {:induction false} CanonicalImage(w: string)
    ensures IsWellFormed(w) <==> Canonical(w) == w
    ensures Canonical(Canonical(w)) == Canonical(w)
  {
    CanonicalIsWellFormed(w);
    if IsWellFormed(w) { WellFormedIsFixed(w); }
    WellFormedIsFixed(Canonical(w));
  }

  lemma {:induction false} WellFormedIsFixed(w: string)
    requires IsWellFormed(w)
    ensures Canonical(w) == w
  {
    WellFormedPrefix(w, |w|);
    assert w[..|w|] == w;
    if w == "" { assert Canonical(w) == w; }
  }

  function Alnums(s: string): string {
    if s == "" then "" else Alnums(s[..|s| - 1]) + if IsAlnum(s[|s| - 1]) then [s[|s| - 1]] else ""
  }

  /** No alphanumeric character is lost, added or moved. */
  lemma {:induction false} CanonicalKeepsAlnums(s: string)
    ensures Alnums(Canonical(s)) == Alnums(s)
  {
    if s != "" {
      var before, last := s[..|s| - 1], s[|s| - 1];
      CanonicalKeepsAlnums(before);
      SeparatorSnoc(Tail(before), ' ');
      if IsAlnum(last) {
        var c, done, sep := Canonical(s), Canonical(before), Separator(Tail(before));
        if done == "" {
          assert c[..|c| - 1] == "";
        } else {
          assert c[..|c| - 1] == done + sep;
          AlnumsIgnoreSeparator(done, sep);
        }
      }
    }
  }

  lemma AlnumsIgnoreSeparator(done: string, separator: string)
    requires |separator| <= 1 && forall x :: x in separator ==> IsSeparator(x)
    ensures Alnums(done + separator) == Alnums(done)
  {
    if separator == "" {
      assert done + separator == done;
    } else {
      assert separator[0] in separator;
      assert (done + separator)[..|done|] == done;
    }
  }
}
