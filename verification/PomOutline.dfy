/** What a reader of the printed documents sees, line by line, and that it is the numbered document. */
module PomOutline {
  import opened Json
  import opened Numerals
  import opened Pom
  import opened PomRender
  import opened TextLines

  // ------------------------------------------------------------------ reading numbers

  /** How many decimal digits a text begins with. */
  function Digits(s: string): (k: nat)
    ensures k <= |s|
  {
    if s != "" && IsDecimalDigit(s[0]) then 1 + Digits(s[1..]) else 0
  }

  datatype Reading = Reading(number: seq<nat>, rest: string)

  /** A section number at the beginning: decimal numbers with dots between them, a dot and a blank. */
  function ReadNumber(s: string): Option<Reading>
    decreases |s|
  {
    var k := Digits(s);
    if k == 0 || k == |s| || s[k] != '.' then None
    else if k + 1 < |s| && s[k + 1] == ' ' then Some(Reading([Decimal(s[..k])], s[k + 2..]))
    else
      var later := ReadNumber(s[k + 1..]);
      if later.None? then None
      else Some(Reading([Decimal(s[..k])] + later.value.number, later.value.rest))
  }

  /** A title as it is printed: its number, if it begins with one, and the rest. */
  function ReadTitle(s: string): Reading {
    if ReadNumber(s).Some? then ReadNumber(s).value else Reading([], s)
  }

  lemma {:induction false} DigitsAre(s: string, rest: string)
    requires forall c :: c in s ==> IsDecimalDigit(c)
    requires rest == "" || !IsDecimalDigit(rest[0])
    ensures Digits(s + rest) == |s|
  {
    if s == "" {
      assert s + rest == rest;
    } else {
      DigitsAre(s[1..], rest);
      assert (s + rest)[1..] == s[1..] + rest;
    }
  }

  lemma {:induction false} JoinFront(first: string, rest: seq<string>, separator: string)
    requires rest != []
    ensures Join([first] + rest, separator) == first + separator + Join(rest, separator)
  {
    hide Join;
    var all, front, last := [first] + rest, rest[..|rest| - 1], rest[|rest| - 1];
    JoinStep(all, separator);
    JoinStep(rest, separator);
    assert all[..|all| - 1] == [first] + front && all[|all| - 1] == last;
    if front == [] {
      JoinStep([first], separator);
      assert [first] + front == [first];
    } else {
      JoinFront(first, front, separator);
    }
  }

  lemma {:induction false} JoinStep(parts: seq<string>, separator: string)
    ensures |parts| == 1 ==> Join(parts, separator) == parts[0]
    ensures |parts| > 1 ==>
      Join(parts, separator) == Join(parts[..|parts| - 1], separator) + separator + parts[|parts| - 1]
  {
  }

  lemma {:induction false} PrefixFront(n: nat, rest: seq<nat>)
    ensures Prefix([n]) == Numeral(n, 10) + ". "
    ensures rest != [] ==> Prefix([n] + rest) == Numeral(n, 10) + "." + Prefix(rest)
  {
    hide Numeral, Join;
    assert NumberTexts([n]) == [Numeral(n, 10)];
    JoinStep([Numeral(n, 10)], ".");
    if rest != [] {
      assert NumberTexts([n] + rest) == [Numeral(n, 10)] + NumberTexts(rest);
      JoinFront(Numeral(n, 10), NumberTexts(rest), ".");
    }
  }

  lemma {:induction false} OneNumber(digits: string, title: string)
    requires digits != "" && forall c :: c in digits ==> IsDecimalDigit(c)
    ensures ReadNumber(digits + ". " + title) == Some(Reading([Decimal(digits)], title))
  {
    hide Decimal, Digits;
    var s := digits + ". " + title;
    assert s == digits + (". " + title);
    DigitsAre(digits, ". " + title);
    assert s[..|digits|] == digits && s[|digits| + 2..] == title;
  }

  lemma {:induction false} MoreNumbers(digits: string, later: string)
    requires digits != "" && forall c :: c in digits ==> IsDecimalDigit(c)
    requires later != "" && later[0] != ' ' && ReadNumber(later).Some?
    ensures ReadNumber(digits + "." + later) ==
      Some(Reading([Decimal(digits)] + ReadNumber(later).value.number, ReadNumber(later).value.rest))
  {
    hide Decimal, Digits;
    var s := digits + "." + later;
    assert s == digits + ("." + later);
    DigitsAre(digits, "." + later);
    assert s[..|digits|] == digits && s[|digits| + 1..] == later;
  }

  lemma {:induction false} PrefixBegins(number: seq<nat>)
    requires number != []
    ensures Prefix(number) != "" && IsDecimalDigit(Prefix(number)[0])
  {
    hide Prefix, Numeral;
    PrefixFront(number[0], number[1..]);
    PrintedIsDecimal(number[0]);
    var digits := Numeral(number[0], 10);
    assert digits[0] in digits;
    if number[1..] == [] {
      assert number == [number[0]];
    } else {
      assert number == [number[0]] + number[1..];
    }
  }

  /** The number printed before a title reads back, whatever the title is. */
  lemma {:induction false} NumberReadsBack(number: seq<nat>, title: string)
    requires number != []
    ensures ReadNumber(Prefix(number) + title) == Some(Reading(number, title))
  {
    hide Prefix, Numeral, ReadNumber, Decimal;
    var digits, rest := Numeral(number[0], 10), number[1..];
    PrintedIsDecimal(number[0]);
    PrefixFront(number[0], rest);
    if rest == [] {
      assert number == [number[0]];
      OneNumber(digits, title);
    } else {
      assert number == [number[0]] + rest;
      NumberReadsBack(rest, title);
      PrefixBegins(rest);
      MoreNumbers(digits, Prefix(rest) + title);
      assert Prefix(number) + title == digits + "." + (Prefix(rest) + title);
    }
  }

  lemma {:induction false} NumeralIsOneLine(n: nat)
    ensures IsOneLine(Numeral(n, 10))
  {
    hide Numeral;
    PrintedIsDecimal(n);
    var s := Numeral(n, 10);
    assert forall i :: 0 <= i < |s| ==> s[i] in s;
  }

  lemma {:induction false} PrefixIsOneLine(number: seq<nat>)
    ensures IsOneLine(Prefix(number))
  {
    hide Prefix, Numeral;
    if number == [] {
      assert Prefix(number) == "" by { NoPrefix(); }
    } else {
      NumeralIsOneLine(number[0]);
      PrefixFront(number[0], number[1..]);
      PrefixIsOneLine(number[1..]);
      if number[1..] == [] {
        assert number == [number[0]];
      } else {
        assert number == [number[0]] + number[1..];
      }
    }
  }

  lemma {:induction false} NoPrefix()
    ensures Prefix([]) == ""
  {
  }

  /** A title is told apart from its number unless it looks numbered itself. */
  predicate IsTitle(title: string, number: seq<nat>) {
    IsOneLine(title) && (number == [] ==> ReadNumber(title).None?)
  }

  lemma {:induction false} TitleReadsBack(number: seq<nat>, title: string)
    requires IsTitle(title, number)
    ensures ReadTitle(Prefix(number) + title) == Reading(number, title)
  {
    hide ReadNumber;
    if number == [] {
      assert Prefix(number) + title == title;
    } else {
      NumberReadsBack(number, title);
    }
  }

  // ------------------------------------------------------------------ which numbers are printed

  /** The number of subsection `i` of a section that has the number `number`: one level more, its position
      counted from one, when one of the subsections asks for a number and this one does not refuse it;
      otherwise, and below a section without title and number, the number above. */
  ghost function NumberBelow(sec: Section, number: seq<nat>, i: nat): seq<nat>
    requires i < |sec.subsections|
  {
    if (sec.title == None && number == [])
       || sec.subsections[i].numbered == Some(false)
       || (forall j :: 0 <= j < |sec.subsections| ==> sec.subsections[j].numbered != Some(true))
    then number
    else number + [i + 1]
  }

  ghost function TitledUpTo(secs: seq<Section>, i: nat): set<nat>
    requires i < |secs|
  {
    set j: nat | j <= i && secs[j].title != None
  }

  /** The number of the section `i` at the top: how many titled sections there are up to it. */
  ghost function NumberAtTop(secs: seq<Section>, i: nat): seq<nat>
    requires i < |secs|
  {
    if secs[i].title == None
       || secs[i].numbered == Some(false)
       || (forall j :: 0 <= j < |secs| ==> secs[j].numbered != Some(true))
    then []
    else [|TitledUpTo(secs, i)|]
  }

  lemma {:induction false} BelowIs(sec: Section, number: seq<nat>, i: nat)
    requires i < |sec.subsections|
    ensures ChildNumber(sec, number, i) == NumberBelow(sec, number, i)
  {
  }

  lemma {:induction false} TitledIs(secs: seq<Section>, i: nat)
    requires i < |secs|
    ensures Titled(secs, i + 1) == |TitledUpTo(secs, i)|
  {
    if i > 0 {
      TitledIs(secs, i - 1);
      assert TitledUpTo(secs, i) == TitledUpTo(secs, i - 1) + if secs[i].title != None then {i} else {};
    } else {
      assert TitledUpTo(secs, i) == if secs[i].title != None then {i} else {};
      assert Titled(secs, 0) == 0;
    }
  }

  lemma {:induction false} TopIs(secs: seq<Section>, i: nat)
    requires i < |secs|
    ensures TopNumber(secs, i) == NumberAtTop(secs, i)
  {
    hide Titled, TitledUpTo;
    TitledIs(secs, i);
  }

  lemma {:induction false} DocumentAt(secs: seq<Section>, k: nat, i: nat)
    requires i < k <= |secs|
    ensures Document(secs, k)[i] == Numbered(secs[i], NumberAtTop(secs, i))
    decreases k
  {
    hide Numbered, TopNumber, NumberAtTop;
    if i < k - 1 {
      DocumentAt(secs, k - 1, i);
    } else {
      TopIs(secs, i);
    }
  }
}
