/** The Markdown of a model, read line by line, is its outline. */
module PomMarkdown {
  import opened Json
  import opened Numerals
  import opened Pom
  import opened PomOutline
  import opened PomRender
  import opened TextLines

  /** What one line of Markdown says. */
  datatype Mark =
    | Heading(level: nat, number: seq<nat>, title: string)
    | Item(position: Option<nat>, text: string)
    | Words(text: string)
    | Gap

  function Hashes(s: string): (k: nat)
    ensures k <= |s|
  {
    if s != "" && s[0] == '#' then 1 + Hashes(s[1..]) else 0
  }

  predicate IsHeading(line: string) {
    0 < Hashes(line) < |line| && line[Hashes(line)] == ' '
  }

  predicate IsNumberedItem(line: string) {
    0 < Digits(line) && Digits(line) + 2 <= |line| && line[Digits(line)..Digits(line) + 2] == ". "
  }

  function ReadHeading(level: nat, text: string): Mark {
    Heading(level, ReadTitle(text).number, ReadTitle(text).rest)
  }

  function ReadLine(line: string): Mark {
    if line == "" then Gap
    else if IsHeading(line) then ReadHeading(Hashes(line), line[Hashes(line) + 1..])
    else if |line| >= 2 && line[..2] == "- " then Item(None, line[2..])
    else if IsNumberedItem(line) then Item(Some(Decimal(line[..Digits(line)])), line[Digits(line) + 2..])
    else Words(line)
  }

  function ReadLines(lines: seq<string>): (marks: seq<Mark>)
    ensures |marks| == |lines|
  {
    seq(|lines|, i requires 0 <= i < |lines| => ReadLine(lines[i]))
  }

  function Marks(text: string): seq<Mark> {
    ReadLines(Lines(text))
  }

  // ------------------------------------------------------------------ the outline

  function Items(bullets: seq<string>, numbered: bool): (marks: seq<Mark>)
    ensures |marks| == |bullets|
  {
    seq(|bullets|, i requires 0 <= i < |bullets| => Item(if numbered then Some(i + 1) else None, bullets[i]))
  }

  /** The title, the lines of the body and the bullets of a section, each followed by an empty line. */
  ghost function OwnOutline(sec: Section, number: seq<nat>, level: nat): seq<Mark> {
    (if sec.title != None then [Heading(level, number, sec.title.value), Gap] else [])
    + (if sec.body != "" then Marks(sec.body) + [Gap] else [])
    + (if sec.bullets != [] then Items(sec.bullets, sec.numberedBullets) + [Gap] else [])
  }

  /** A section and its subsections, which are one level deeper if it has a title or a number. */
  ghost function Outline(sec: Section, number: seq<nat>, level: nat): seq<Mark>
    decreases sec, 1
  {
    var below := if sec.title == None && number == [] then level else level + 1;
    var marks := OwnOutline(sec, number, level) + OutlineBelow(sec, number, below, |sec.subsections|);
    if marks == [] then [Gap] else marks
  }

  ghost function OutlineBelow(sec: Section, number: seq<nat>, level: nat, k: nat): seq<Mark>
    requires k <= |sec.subsections|
    decreases sec, 0, k
  {
    if k == 0 then []
    else
      OutlineBelow(sec, number, level, k - 1)
      + Outline(sec.subsections[k - 1], NumberBelow(sec, number, k - 1), level)
  }

  /** The sections at the top, at level 2. */
  ghost function DocumentOutline(secs: seq<Section>, k: nat): seq<Mark>
    requires k <= |secs|
  {
    if k == 0 then [] else DocumentOutline(secs, k - 1) + Outline(secs[k - 1], NumberAtTop(secs, k - 1), 2)
  }

  /** Titles and bullets fill one line each, and a title without a number does not look numbered. */
  ghost predicate IsReadable(sec: Section, number: seq<nat>)
    decreases sec
  {
    && (sec.title != None ==> IsTitle(sec.title.value, number))
    && (forall i :: 0 <= i < |sec.bullets| ==> IsOneLine(sec.bullets[i]))
    && forall i :: 0 <= i < |sec.subsections| ==> IsReadable(sec.subsections[i], NumberBelow(sec, number, i))
  }

  ghost predicate AreReadable(secs: seq<Section>) {
    forall i :: 0 <= i < |secs| ==> IsReadable(secs[i], NumberAtTop(secs, i))
  }

  /** Words: a line that begins with no mark. */
  lemma {:induction false} WordsRead(line: string)
    requires line != "" && IsOneLine(line) && line[0] != '#' && line[0] != '-' && !IsDecimalDigit(line[0])
    ensures Marks(line) == [Words(line)]
  {
    OneLine(line);
  }

  // ------------------------------------------------------------------ reading the lines of a section

  lemma {:induction false} ReadLinesOfTwo(a: seq<string>, b: seq<string>)
    ensures ReadLines(a + b) == ReadLines(a) + ReadLines(b)
  {
    hide ReadLine;
  }

  lemma {:induction false} HashesAre(level: nat, rest: string)
    requires rest == "" || rest[0] != '#'
    ensures Hashes(Repeat('#', level) + rest) == level
  {
    if level == 0 {
      assert Repeat('#', level) + rest == rest;
    } else {
      HashesAre(level - 1, rest);
      assert (Repeat('#', level) + rest)[1..] == Repeat('#', level - 1) + rest;
    }
  }

  lemma {:induction false} HeadingReads(level: nat, number: seq<nat>, title: string)
    requires level > 0 && IsTitle(title, number)
    ensures ReadLine(Repeat('#', level) + " " + Prefix(number) + title) == Heading(level, number, title)
  {
    hide Hashes, Prefix, ReadTitle, IsTitle;
    var line := Repeat('#', level) + " " + Prefix(number) + title;
    assert line == Repeat('#', level) + (" " + Prefix(number) + title);
    HashesAre(level, " " + Prefix(number) + title);
    TitleReadsBack(number, title);
    assert line[level + 1..] == Prefix(number) + title;
  }

  lemma {:induction false} DashReads(text: string)
    ensures ReadLine("- " + text) == Item(None, text)
  {
    var line := "- " + text;
    assert line[..2] == "- " && line[2..] == text;
  }

  lemma {:induction false} NumberReads(n: nat, text: string)
    ensures ReadLine(Numeral(n, 10) + ". " + text) == Item(Some(n), text)
  {
    hide Numeral, Digits, Decimal;
    var digits := Numeral(n, 10);
    var line := digits + ". " + text;
    PrintedIsDecimal(n);
    assert line == digits + (". " + text);
    DigitsAre(digits, ". " + text);
    assert digits[0] in digits;
    assert Hashes(line) == 0;
    assert line[..|digits|] == digits && line[|digits|..|digits| + 2] == ". " && line[|digits| + 2..] == text;
  }

  /** The marks of parts that are joined by line breaks. */
  function MarksOf(parts: seq<string>): seq<Mark> {
    ReadLines(AllLines(parts))
  }

  lemma {:induction false} MarksOfTwo(p: seq<string>, q: seq<string>)
    ensures MarksOf(p + q) == MarksOf(p) + MarksOf(q)
  {
    hide ReadLines, AllLines;
    AllLinesOfTwo(p, q);
    ReadLinesOfTwo(AllLines(p), AllLines(q));
  }

  lemma {:induction false} MarksOfOne(part: string)
    ensures MarksOf([part]) == Marks(part)
  {
    hide ReadLines, AllLines, Lines;
    AllLinesOfOne(part);
  }

  lemma {:induction false} MarksOfLine(line: string)
    requires IsOneLine(line)
    ensures Marks(line) == [ReadLine(line)]
  {
    hide ReadLine, Lines;
    OneLine(line);
  }

  /** A line break at the end shows as an empty line. */
  lemma {:induction false} MarksEnded(text: string)
    ensures Marks(text + "\n") == Marks(text) + [Gap]
  {
    hide Lines;
    LinesSnoc(text, '\n');
    ReadLinesOfTwo(Lines(text), [""]);
    assert ReadLines([""]) == [Gap];
  }

  lemma {:induction false} TitlePart(level: nat, number: seq<nat>, title: string)
    requires level > 0 && IsTitle(title, number)
    ensures MarksOf([Repeat('#', level) + " " + Prefix(number) + title + "\n"]) == [Heading(level, number, title), Gap]
  {
    hide Prefix, Marks, MarksOf, ReadLine, ReadNumber;
    var line := Repeat('#', level) + " " + Prefix(number) + title;
    PrefixIsOneLine(number);
    assert IsOneLine(line);
    HeadingReads(level, number, title);
    MarksOfLine(line);
    MarksEnded(line);
    MarksOfOne(line + "\n");
  }

  lemma {:induction false} BodyPart(body: string)
    ensures MarksOf([body + "\n"]) == Marks(body) + [Gap]
  {
    hide Marks, MarksOf;
    MarksEnded(body);
    MarksOfOne(body + "\n");
  }

  lemma {:induction false} BulletPart(bullet: string, numbered: bool, k: nat)
    requires IsOneLine(bullet)
    ensures MarksOf([(if numbered then Numeral(k, 10) + ". " else "- ") + bullet])
      == [Item(if numbered then Some(k) else None, bullet)]
  {
    hide Marks, MarksOf, ReadLine, Numeral;
    var line := (if numbered then Numeral(k, 10) + ". " else "- ") + bullet;
    NumeralIsOneLine(k);
    assert IsOneLine(line);
    if numbered {
      NumberReads(k, bullet);
    } else {
      DashReads(bullet);
    }
    MarksOfLine(line);
    MarksOfOne(line);
  }

  lemma {:induction false} BulletsPart(bullets: seq<string>, numbered: bool, k: nat)
    requires k <= |bullets| && forall i :: 0 <= i < |bullets| ==> IsOneLine(bullets[i])
    ensures MarksOf(Bullets(bullets, numbered, k)) == Items(bullets[..k], numbered)
  {
    hide MarksOf, Numeral, IsOneLine;
    if k == 0 {
      assert MarksOf([]) == [] by { NoParts(); }
    } else {
      BulletsPart(bullets, numbered, k - 1);
      BulletPart(bullets[k - 1], numbered, k);
      MarksOfTwo(Bullets(bullets, numbered, k - 1),
        [(if numbered then Numeral(k, 10) + ". " else "- ") + bullets[k - 1]]);
      assert Items(bullets[..k], numbered)
        == Items(bullets[..k - 1], numbered) + [Item(if numbered then Some(k) else None, bullets[k - 1])];
    }
  }

  lemma {:induction false} NoParts()
    ensures MarksOf([]) == []
  {
  }

  lemma {:induction false} GapPart()
    ensures MarksOf([""]) == [Gap]
  {
    hide MarksOf;
    MarksOfOne("");
    OneLine("");
  }

  lemma {:induction false} OwnReads(sec: Section, number: seq<nat>, level: nat)
    requires level > 0 && IsReadable(sec, number)
    ensures MarksOf(MarkdownHead(Numbered(sec, number), level)) == OwnOutline(sec, number, level)
  {
    hide MarksOf, Marks, Numeral, IsOneLine, Prefix, Bullets, Items, IsTitle, Repeat, NumberedChildren, NumberBelow;
    var title := if sec.title.Some? then [Repeat('#', level) + " " + Prefix(number) + sec.title.value + "\n"] else [];
    var body := if sec.body != "" then [sec.body + "\n"] else [];
    var bullets := Bullets(sec.bullets, sec.numberedBullets, |sec.bullets|);
    var end := if sec.bullets != [] then [""] else [];
    MarksOfTwo(title + body + bullets, end);
    MarksOfTwo(title + body, bullets);
    MarksOfTwo(title, body);
    if sec.title.Some? { TitlePart(level, number, sec.title.value); }
    BodyPart(sec.body);
    BulletsPart(sec.bullets, sec.numberedBullets, |sec.bullets|);
    assert sec.bullets[..|sec.bullets|] == sec.bullets;
    NoParts();
    GapPart();
    NoItems(sec.numberedBullets);
  }

  lemma {:induction false} NoItems(numbered: bool)
    ensures Items([], numbered) == []
  {
  }

  // ------------------------------------------------------------------ whole documents

  lemma {:induction false} SomeLines(parts: seq<string>)
    ensures MarksOf(parts) == [] <==> parts == []
  {
    hide Lines;
  }

  lemma {:induction false} MarksOfJoin(parts: seq<string>)
    ensures Marks(Join(parts, "\n")) == if parts == [] then [Gap] else MarksOf(parts)
  {
    hide Lines, ReadLines;
    if parts == [] {
      MarksOfLine("");
    } else {
      LinesOfJoin(parts);
    }
  }

  /** Reading the Markdown of a section gives its outline. */
  lemma {:induction false} MarkdownReads(sec: Section, number: seq<nat>, level: nat)
    requires level > 0 && IsReadable(sec, number)
    ensures Marks(Markdown(Numbered(sec, number), level)) == Outline(sec, number, level)
    decreases sec, 1, 0
  {
    hide MarksOf, Marks, OwnOutline, MarkdownHead, Lines, Join, IsOneLine, IsTitle, NumberBelow, NumberedChildren;
    var node := Numbered(sec, number);
    var next := NextLevel(node, level);
    var head, children := MarkdownHead(node, level), MarkdownChildren(node, next, |node.children|);
    OwnReads(sec, number, level);
    ChildrenRead(sec, number, next, |sec.subsections|);
    MarksOfTwo(head, children);
    SomeLines(head + children);
    MarksOfJoin(head + children);
  }

  lemma {:induction false} ChildrenRead(sec: Section, number: seq<nat>, level: nat, k: nat)
    requires level > 0 && IsReadable(sec, number) && k <= |sec.subsections|
    ensures MarksOf(MarkdownChildren(Numbered(sec, number), level, k)) == OutlineBelow(sec, number, level, k)
    decreases sec, 0, k
  {
    hide MarksOf, Marks, OwnOutline, MarkdownHead, Markdown, Outline, IsOneLine, IsTitle;
    hide NumberBelow, ChildNumber, Numbered;
    var node := Numbered(sec, number);
    if k == 0 {
      NoParts();
    } else {
      var sub, subNumber := sec.subsections[k - 1], NumberBelow(sec, number, k - 1);
      ChildrenRead(sec, number, level, k - 1);
      MarkdownReads(sub, subNumber, level);
      ChildIs(sec, number, k - 1);
      BelowIs(sec, number, k - 1);
      MarksOfOne(Markdown(node.children[k - 1], level));
      MarksOfTwo(MarkdownChildren(node, level, k - 1), [Markdown(node.children[k - 1], level)]);
    }
  }

  lemma {:induction false} AllRead(secs: seq<Section>, k: nat)
    requires AreReadable(secs) && k <= |secs|
    ensures MarksOf(MarkdownAll(Document(secs, |secs|)[..k], 2)) == DocumentOutline(secs, k)
  {
    hide MarksOf, Marks, Markdown, Outline, IsReadable, NumberAtTop, Document;
    var nodes := Document(secs, |secs|);
    if k == 0 {
      NoParts();
      assert nodes[..0] == [];
    } else {
      AllRead(secs, k - 1);
      DocumentAt(secs, |secs|, k - 1);
      MarkdownReads(secs[k - 1], NumberAtTop(secs, k - 1), 2);
      MarksOfOne(Markdown(nodes[k - 1], 2));
      MarksOfTwo(MarkdownAll(nodes[..k - 1], 2), [Markdown(nodes[k - 1], 2)]);
      assert nodes[..k][..k - 1] == nodes[..k - 1];
    }
  }

  lemma {:induction false} SomeMarkdown(nodes: seq<Node>, level: nat)
    ensures MarkdownAll(nodes, level) == [] <==> nodes == []
  {
    hide Markdown;
  }

  /** Reading the Markdown of a model gives every section in document order, with its level, its number,
      its title, the lines of its body and its bullets. */
  lemma {:induction false} ModelMarkdownReads(secs: seq<Section>)
    requires AreReadable(secs)
    ensures Marks(ModelMarkdown(secs)) == if secs == [] then [Gap] else DocumentOutline(secs, |secs|)
  {
    hide MarksOf, Marks, DocumentOutline, MarkdownAll, Join, IsReadable, Numbered;
    var nodes := Document(secs, |secs|);
    AllRead(secs, |secs|);
    assert nodes[..|secs|] == nodes;
    SomeMarkdown(nodes, 2);
    MarksOfJoin(MarkdownAll(nodes, 2));
  }
}
