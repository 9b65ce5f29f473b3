/** Texts joined by separators, and texts cut into lines at their line breaks. */
module TextLines {
  function Join(parts: seq<string>, separator: string): string {
    if parts == [] then ""
    else if |parts| == 1 then parts[0]
    else Join(parts[..|parts| - 1], separator) + separator + parts[|parts| - 1]
  }

  /** The lines of a text: one more than it has line breaks. */
  function Lines(s: string): (lines: seq<string>)
    ensures lines != []
  {
    if s == "" then [""]
    else
      var lines := Lines(s[..|s| - 1]);
      if s[|s| - 1] == '\n' then lines + [""]
      else lines[..|lines| - 1] + [lines[|lines| - 1] + [s[|s| - 1]]]
  }

  predicate IsOneLine(s: string) {
    forall i :: 0 <= i < |s| ==> s[i] != '\n'
  }

  lemma {:induction false} OneLine(s: string)
    requires IsOneLine(s)
    ensures Lines(s) == [s]
  {
    if s != "" {
      OneLine(s[..|s| - 1]);
      assert s[..|s| - 1] + [s[|s| - 1]] == s;
    }
  }

  lemma {:induction false} LinesSnoc(s: string, c: char)
    ensures c == '\n' ==> Lines(s + [c]) == Lines(s) + [""]
    ensures c != '\n' ==> Lines(s + [c]) == Lines(s)[..|Lines(s)| - 1] + [Lines(s)[|Lines(s)| - 1] + [c]]
  {
    assert (s + [c])[..|s|] == s;
  }

  /** A line break ends the lines before it. */
  lemma {:induction false} LinesOfTwo(a: string, b: string)
    ensures Lines(a + "\n" + b) == Lines(a) + Lines(b)
  {
    hide Lines;
    if b == "" {
      LinesSnoc(a, '\n');
      assert a + "\n" + b == a + ['\n'];
      assert Lines("") == [""] by { OneLine(""); }
    } else {
      var front, c := b[..|b| - 1], b[|b| - 1];
      LinesOfTwo(a, front);
      LinesSnoc(a + "\n" + front, c);
      LinesSnoc(front, c);
      assert b == front + [c];
      assert a + "\n" + b == a + "\n" + front + [c];
    }
  }

  function AllLines(parts: seq<string>): seq<string> {
    if parts == [] then [] else AllLines(parts[..|parts| - 1]) + Lines(parts[|parts| - 1])
  }

  lemma {:induction false} AllLinesOfTwo(p: seq<string>, q: seq<string>)
    ensures AllLines(p + q) == AllLines(p) + AllLines(q)
  {
    hide Lines;
    if q == [] {
      assert p + q == p;
    } else {
      AllLinesOfTwo(p, q[..|q| - 1]);
      assert (p + q)[..|p + q| - 1] == p + q[..|q| - 1];
    }
  }

  lemma {:induction false} AllLinesOfOne(part: string)
    ensures AllLines([part]) == Lines(part)
  {
    hide Lines;
    assert [part][..0] == [];
    assert AllLines([]) == [];
  }

  /** Parts joined by line breaks have the lines of the parts. */
  lemma {:induction false} LinesOfJoin(parts: seq<string>)
    requires parts != []
    ensures Lines(Join(parts, "\n")) == AllLines(parts)
  {
    hide Lines;
    if |parts| == 1 {
      AllLinesOfOne(parts[0]);
      assert parts == [parts[0]];
    } else {
      var front, last := parts[..|parts| - 1], parts[|parts| - 1];
      LinesOfJoin(front);
      LinesOfTwo(Join(front, "\n"), last);
    }
  }
}
