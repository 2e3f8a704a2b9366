/** Topic slugs. Only ASCII letters are lower-cased here: entity names are
    normal forms, which are ASCII. `fallback` stands for the hash-derived slug
    of a text without any alphanumeric character. */
module Slug {
  import opened Normalize
  import opened Lists

  function Lower(c: char): char {
    if 'A' <= c <= 'Z' then (c as int + 32) as char else c
  }

  function Dashed(text: string): string {
    seq(|text|, i requires 0 <= i < |text| => if IsAlnum(text[i]) then Lower(text[i]) else '-')
  }

  /** The pieces between dashes. */
  function Split(s: string): (pieces: seq<string>)
    ensures pieces != []
  {
    if s == "" then [""]
    else
      var rest := Split(s[1..]);
      if s[0] == '-' then [""] + rest else [[s[0]] + rest[0]] + rest[1..]
  }

  function NonEmpty(pieces: seq<string>): seq<string> {
    if pieces == [] then []
    else (if pieces[0] == "" then [] else [pieces[0]]) + NonEmpty(pieces[1..])
  }

  function JoinDash(pieces: seq<string>): string {
    if pieces == [] then ""
    else if |pieces| == 1 then pieces[0]
    else pieces[0] + "-" + JoinDash(pieces[1..])
  }

  function Slugify(text: string, fallback: string): string {
    var slug := JoinDash(NonEmpty(Split(Dashed(text))));
    if slug == "" then fallback else slug
  }

  lemma JoinCons(first: string, rest: seq<string>)
    ensures JoinDash([first] + rest) == if rest == [] then first else first + "-" + JoinDash(rest)
  {
    assert ([first] + rest)[1..] == rest;
  }

  lemma {:induction false} JoinUndoesSplit(s: string)
    ensures JoinDash(Split(s)) == s
  {
    if s != "" {
      JoinUndoesSplit(s[1..]);
      var rest := Split(s[1..]);
      assert s == [s[0]] + s[1..] && rest == [rest[0]] + rest[1..];
      hide JoinDash;
      if s[0] == '-' {
        JoinCons("", rest);
      } else {
        JoinCons([s[0]] + rest[0], rest[1..]);
        JoinCons(rest[0], rest[1..]);
      }
    }
  }

  lemma {:induction false} NonEmptyKeepsAll(pieces: seq<string>)
    requires forall i :: 0 <= i < |pieces| ==> pieces[i] != ""
    ensures NonEmpty(pieces) == pieces
  {
    if pieces != [] {
      NonEmptyKeepsAll(pieces[1..]);
      assert pieces == [pieces[0]] + pieces[1..];
    }
  }

  /** Without a leading, trailing or doubled dash every piece has text. */
  lemma {:induction false} PiecesHaveText(s: string)
    requires s != "" && s[|s| - 1] != '-'
    requires forall i :: 0 <= i < |s| - 1 ==> s[i] != '-' || s[i + 1] != '-'
    ensures forall i :: 1 <= i < |Split(s)| ==> Split(s)[i] != ""
    ensures s[0] != '-' ==> Split(s)[0] != ""
  {
    if |s| > 1 {
      var rest := Split(s[1..]);
      forall i | 0 <= i < |s[1..]| - 1 ensures s[1..][i] != '-' || s[1..][i + 1] != '-' {
        assert s[i + 1] != '-' || s[i + 1 + 1] != '-';
      }
      PiecesHaveText(s[1..]);
      if s[0] == '-' {
        assert s[0] != '-' || s[0 + 1] != '-';
      }
    }
  }

  lemma {:induction false} NonEmptyIsFiltered(pieces: seq<string>)
    ensures NonEmpty(pieces) == Filtered(pieces, IsNonEmpty)
  {
    if pieces != [] {
      NonEmptyIsFiltered(pieces[1..]);
      assert pieces == [pieces[0]] + pieces[1..];
      FilteredConcat([pieces[0]], pieces[1..], IsNonEmpty);
      FilteredSnoc([], pieces[0], IsNonEmpty);
      assert [] + [pieces[0]] == [pieces[0]];
    }
  }

  predicate IsNonEmpty(piece: string) {
    piece != ""
  }

  lemma {:induction false} PiecesHaveNoDash(s: string)
    ensures forall p :: p in Split(s) ==> '-' !in p
  {
    if s != "" { PiecesHaveNoDash(s[1..]); }
  }

  /** Every alphanumeric character in lower case and a dash for every other,
      then the pieces between dashes that are not empty, joined by single
      dashes; the fallback if none is left. */
  lemma SlugIs(text: string, fallback: string)
    ensures exists pieces: seq<string> ::
              && (forall p :: p in pieces ==> '-' !in p)
              && |JoinDash(pieces)| == |text|
              && (forall i :: 0 <= i < |text| ==>
                    JoinDash(pieces)[i] == if IsAlnum(text[i]) then Lower(text[i]) else '-')
              && var kept := Filtered(pieces, IsNonEmpty);
              Slugify(text, fallback) == if kept == [] then fallback else JoinDash(kept)
  {
    hide IsAlnum;
    var pieces := Split(Dashed(text));
    PiecesHaveNoDash(Dashed(text));
    JoinUndoesSplit(Dashed(text));
    NonEmptyIsFiltered(pieces);
    FilteredMembers(pieces, IsNonEmpty);
    JoinedHasText(NonEmpty(pieces));
  }

  lemma JoinedHasText(pieces: seq<string>)
    requires forall p :: p in pieces ==> p != ""
    ensures JoinDash(pieces) == "" <==> pieces == []
  {
    if pieces != [] { assert pieces[0] in pieces; }
  }

  /** Capital letters become the small ones; nothing else changes. */
  lemma LowerTable(c: char)
    ensures var capitals, small := "ABCDEFGHIJKLMNOPQRSTUVWXYZ", "abcdefghijklmnopqrstuvwxyz";
            && (forall i :: 0 <= i < 26 && c == capitals[i] ==> Lower(c) == small[i])
            && (c !in capitals ==> Lower(c) == c)
  {
    var capitals, small := "ABCDEFGHIJKLMNOPQRSTUVWXYZ", "abcdefghijklmnopqrstuvwxyz";
    assert 'A' <= c <= 'Z' ==> c == capitals[c as int - 'A' as int];
  }

  /** On a non-empty normal form slugging is character by character. */
  lemma SlugOfNormalForm(name: string, fallback: string)
    requires IsWellFormed(name) && name != ""
    ensures Slugify(name, fallback) == Dashed(name)
  {
    var s := Dashed(name);
    assert forall i :: 0 <= i < |s| ==> (s[i] == '-' <==> !IsAlnum(name[i]));
    assert forall i :: 0 <= i < |s| - 1 ==> s[i] != '-' || s[i + 1] != '-' by {
      forall i | 0 <= i < |s| - 1 ensures s[i] != '-' || s[i + 1] != '-' {
        assert IsAlnum(name[i]) || IsAlnum(name[i + 1]);
      }
    }
    PiecesHaveText(s);
    NonEmptyKeepsAll(Split(s));
    JoinUndoesSplit(s);
  }

  /** The same letter up to case, or a separator in both places. */
  predicate Alike(a: char, b: char) {
    (IsAlnum(a) && IsAlnum(b) && Lower(a) == Lower(b)) || (!IsAlnum(a) && !IsAlnum(b))
  }

  predicate AreAlike(v: string, w: string) {
    |v| == |w| && forall i :: 0 <= i < |v| ==> Alike(v[i], w[i])
  }

  /** Two entities share a topic file exactly when their names agree up to
      letter case and the choice of separators. */
  lemma SlugsCollide(v: string, w: string, fallback: string, other: string)
    requires IsWellFormed(v) && IsWellFormed(w) && v != "" && w != ""
    ensures Slugify(v, fallback) == Slugify(w, other) <==> AreAlike(v, w)
  {
    SlugOfNormalForm(v, fallback);
    SlugOfNormalForm(w, other);
    var a, b := Dashed(v), Dashed(w);
    if a == b {
      forall i | 0 <= i < |v| ensures Alike(v[i], w[i]) { assert a[i] == b[i]; }
    }
    if |v| == |w| && forall i :: 0 <= i < |v| ==> Alike(v[i], w[i]) {
      forall i | 0 <= i < |v| ensures a[i] == b[i] { assert Alike(v[i], w[i]); }
    }
  }
}
