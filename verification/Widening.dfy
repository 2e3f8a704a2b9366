/** Widening a query that matches nothing: its words joined by OR. */
module Widening {
  import opened Options
  import Normalize

  function FirstWord(s: string): string {
    if s == "" || Normalize.IsWhitespace(s[0]) then "" else [s[0]] + FirstWord(s[1..])
  }

  lemma FirstWordIsPrefix(s: string)
    ensures FirstWord(s) <= s
    ensures s != "" && !Normalize.IsWhitespace(s[0]) ==> FirstWord(s) != ""
  {
  }

  function Words(s: string): seq<string>
    decreases |s|
  {
    if s == "" then []
    else if Normalize.IsWhitespace(s[0]) then Words(s[1..])
    else
      FirstWordIsPrefix(s);
      var w := FirstWord(s);
      [w] + Words(s[|w|..])
  }

  function JoinWords(words: seq<string>): string {
    if words == [] then ""
    else if |words| == 1 then words[0]
    else words[0] + " OR " + JoinWords(words[1..])
  }

  predicate IsOperator(w: string) {
    w == "AND" || w == "OR" || w == "NOT" || '"' in w
  }

  /** The term with its words joined by OR, unless it is a single word or
      already uses the query syntax. */
  function Widened(term: string): Option<string> {
    var words := Words(term);
    if |words| < 2 || exists w :: w in words && IsOperator(w) then None else Some(JoinWords(words))
  }

  // ---- words ----------------------------------------------------------------

  ghost predicate IsWord(w: string) {
    w != "" && forall c :: c in w ==> !Normalize.IsWhitespace(c)
  }

  lemma {:induction false} FirstWordOf(s: string, c: char, rest: string)
    requires Normalize.IsWhitespace(c)
    ensures FirstWord(s + [c] + rest) == FirstWord(s)
    ensures forall x :: x in FirstWord(s) ==> !Normalize.IsWhitespace(x)
  {
    hide Normalize.IsWhitespace;
    if s != "" {
      assert (s + [c] + rest)[1..] == s[1..] + [c] + rest;
      FirstWordOf(s[1..], c, rest);
    } else {
      assert s + [c] + rest == [c] + rest;
    }
  }

  lemma SpaceIsWhitespace()
    ensures Normalize.IsWhitespace(' ')
  {
  }

  /** Every word has text, and no whitespace. */
  lemma {:induction false} WordsAreWords(s: string)
    ensures forall w :: w in Words(s) ==> IsWord(w)
    decreases |s|
  {
    SpaceIsWhitespace();
    hide Normalize.IsWhitespace;
    if s != "" {
      if Normalize.IsWhitespace(s[0]) {
        WordsAreWords(s[1..]);
      } else {
        FirstWordIsPrefix(s);
        FirstWordOf(s, ' ', "");
        WordsAreWords(s[|FirstWord(s)|..]);
      }
    }
  }

  /** Whitespace separates words. */
  lemma {:induction false} WordsSplit(a: string, c: char, b: string)
    requires Normalize.IsWhitespace(c)
    ensures Words(a + [c] + b) == Words(a) + Words(b)
    decreases |a|
  {
    hide Normalize.IsWhitespace;
    var s := a + [c] + b;
    if a == "" {
      assert s == [c] + b && s[1..] == b;
    } else if Normalize.IsWhitespace(a[0]) {
      assert s[1..] == a[1..] + [c] + b;
      WordsSplit(a[1..], c, b);
    } else {
      FirstWordIsPrefix(a);
      FirstWordIsPrefix(s);
      FirstWordOf(a, c, b);
      var n := |FirstWord(a)|;
      assert s[n..] == a[n..] + [c] + b;
      WordsSplit(a[n..], c, b);
    }
  }

  /** A word is its only word. */
  lemma {:induction false} WordOfWord(w: string)
    requires IsWord(w)
    ensures FirstWord(w) == w && Words(w) == [w]
  {
    hide Normalize.IsWhitespace;
    if |w| > 1 {
      assert forall c :: c in w[1..] ==> c in w;
      WordOfWord(w[1..]);
      assert w == [w[0]] + w[1..];
    } else {
      assert w[1..] == "" && w == [w[0]] + "";
    }
    assert w[0] in w;
    assert Words(w) == [w] + Words(w[|w|..]) by { FirstWordIsPrefix(w); }
    assert w[|w|..] == "";
  }

  // ---- the widened query ----------------------------------------------------

  /** `u` is `words` with "OR" between them. */
  ghost predicate IsInterleaved(u: seq<string>, words: seq<string>) {
    && |u| == 2 * |words| - 1
    && (forall i :: 0 <= i < |words| ==> u[2 * i] == words[i])
    && (forall i :: 0 <= i < |words| - 1 ==> u[2 * i + 1] == "OR")
  }

  lemma OrIsWord()
    ensures IsWord("OR")
  {
  }

  lemma {:induction false} JoinedWords(words: seq<string>)
    requires words != [] && forall w :: w in words ==> IsWord(w)
    ensures IsInterleaved(Words(JoinWords(words)), words)
  {
    hide Normalize.IsWhitespace;
    assert words[0] in words;
    OrIsWord();
    WordOfWord(words[0]);
    if |words| > 1 {
      var rest := JoinWords(words[1..]);
      assert forall w :: w in words[1..] ==> w in words;
      JoinedWords(words[1..]);
      SpaceIsWhitespace();
      WordOfWord("OR");
      WordsSplit(words[0], ' ', "OR" + [' '] + rest);
      WordsSplit("OR", ' ', rest);
      assert words[0] + " OR " + rest == words[0] + [' '] + ("OR" + [' '] + rest);
      Interleave(words, Words(rest));
    }
  }

  lemma Interleave(words: seq<string>, u: seq<string>)
    requires |words| > 1 && IsInterleaved(u, words[1..])
    ensures IsInterleaved([words[0]] + (["OR"] + u), words)
  {
    var all := [words[0]] + (["OR"] + u);
    forall i | 0 <= i < |words| ensures all[2 * i] == words[i] {
      if i > 0 { assert all[2 * i] == u[2 * (i - 1)] && words[1..][i - 1] == words[i]; }
    }
    forall i | 0 <= i < |words| - 1 ensures all[2 * i + 1] == "OR" {
      if i > 0 { assert all[2 * i + 1] == u[2 * (i - 1) + 1]; }
    }
  }

  /** The query syntax is in use. */
  ghost predicate HasSyntax(words: seq<string>) {
    exists w :: w in words && (w == "AND" || w == "OR" || w == "NOT" || '"' in w)
  }

  /** A term is widened exactly when it has several words and no query syntax;
      then the widened term has the same words with "OR" between them. */
  lemma WideningIs(term: string)
    ensures Widened(term).Some? <==> |Words(term)| >= 2 && !HasSyntax(Words(term))
    ensures Widened(term).Some? ==> IsInterleaved(Words(Widened(term).value), Words(term))
  {
    hide Words, JoinWords;
    WordsAreWords(term);
    if |Words(term)| >= 2 { JoinedWords(Words(term)); }
  }
}
