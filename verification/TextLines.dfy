/** A text as its lines. */
module TextLines {

  /** The lines of a text, without their line breaks. */
  function Lines(text: string): (lines: seq<string>)
    ensures text != "" ==> lines != []
  {
    if text == "" then []
    else
      var rest := Lines(text[1..]);
      if text[0] == '\n' then [""] + rest
      else if text[1..] == "" then [text]
      else [[text[0]] + rest[0]] + rest[1..]
  }

  function Line(line: string): string {
    line + "\n"
  }

  function Unlined(lines: seq<string>): string {
    if lines == [] then "" else Line(lines[0]) + Unlined(lines[1..])
  }

  predicate IsOneLine(s: string) {
    '\n' !in s
  }

  lemma OneLineConcat(a: string, b: string)
    ensures IsOneLine(a + b) <==> IsOneLine(a) && IsOneLine(b)
  {
  }

  /** Every line ends with a line break. */
  predicate IsTerminated(text: string) {
    text == "" || text[|text| - 1] == '\n'
  }

  /** The lines are free of line breaks and, each ended by one, are the text. */
  lemma {:induction false} LinesAreLines(text: string)
    ensures forall line :: line in Lines(text) ==> IsOneLine(line)
    ensures Unlined(Lines(text)) == if IsTerminated(text) then text else text + "\n"
  {
    if text != "" {
      var rest := Lines(text[1..]);
      LinesAreLines(text[1..]);
      assert text == [text[0]] + text[1..];
      if text[0] == '\n' {
        assert Lines(text)[1..] == rest;
      } else if text[1..] != "" {
        assert Lines(text)[1..] == rest[1..];
        assert IsOneLine(rest[0]);
        OneLineConcat([text[0]], rest[0]);
        assert Unlined(rest) == Line(rest[0]) + Unlined(rest[1..]);
        assert Unlined(Lines(text)) == [text[0]] + Unlined(rest);
      } else {
        assert Lines(text)[1..] == [];
      }
    }
  }

  /** The first line, and the rest. */
  lemma {:induction false} LinesOf(line: string, rest: string)
    requires IsOneLine(line)
    ensures Lines(line + "\n" + rest) == [line] + Lines(rest)
  {
    var text := line + "\n" + rest;
    if line == "" {
      assert text[1..] == rest;
    } else {
      assert text[1..] == line[1..] + "\n" + rest;
      LinesOf(line[1..], rest);
      assert [line[0]] + line[1..] == line;
    }
  }

  lemma EmptyHasNoLines()
    ensures Lines("") == [] && IsTerminated("")
  {
  }

  lemma LinesStep(text: string)
    requires text != ""
    ensures Lines(text) != []
    ensures text[0] == '\n' ==> Lines(text) == [""] + Lines(text[1..])
    ensures text[0] != '\n' && |text| == 1 ==> Lines(text) == [text]
    ensures text[0] != '\n' && |text| > 1 ==>
              var rest := Lines(text[1..]);
              rest != [] && Lines(text) == [[text[0]] + rest[0]] + rest[1..]
  {
  }

  lemma {:induction false} LinesConcat(a: string, b: string)
    requires IsTerminated(a)
    ensures Lines(a + b) == Lines(a) + Lines(b)
  {
    hide Lines;
    if a == "" {
      EmptyHasNoLines();
      assert a + b == b;
    } else {
      assert (a + b)[1..] == a[1..] + b;
      LinesConcat(a[1..], b);
      LinesStep(a);
      LinesStep(a + b);
    }
  }

  lemma LinesSnoc(a: string, line: string)
    requires IsTerminated(a) && IsOneLine(line)
    ensures Lines(a + Line(line)) == Lines(a) + [line]
    ensures IsTerminated(a + Line(line))
  {
    LinesConcat(a, Line(line));
    LinesOf(line, "");
    assert line + "\n" + "" == line + "\n";
  }
}
