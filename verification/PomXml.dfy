/** The XML of a model, read line by line, is its outline. */
module PomXml {
  import opened Json
  import opened Numerals
  import opened Pom
  import opened PomOutline
  import opened PomRender
  import opened TextLines

  /** What one line says: an element begins or ends, or it is there with its text.  In a title the number
      stands before the text, and a bullet may have its position as `id`. */
  datatype Tag =
    | Open(name: string)
    | Close(name: string)
    | Title(number: seq<nat>, title: string)
    | Bullet(position: Option<nat>, text: string)
    | Leaf(name: string, text: string)

  /** A line: how many blanks it begins with, and its tag. */
  datatype Row = Row(blanks: nat, tag: Tag)

  function Blanks(s: string): (k: nat)
    ensures k <= |s|
  {
    if s != "" && s[0] == ' ' then 1 + Blanks(s[1..]) else 0
  }

  /** The position of the first `>`, or the length. */
  function NameEnd(s: string): (k: nat)
    ensures k <= |s|
  {
    if s != "" && s[0] != '>' then 1 + NameEnd(s[1..]) else 0
  }

  predicate EndsWith(s: string, end: string) {
    |end| <= |s| && s[|s| - |end|..] == end
  }

  /** The name of an element: up to the first blank of what stands between the angle brackets. */
  function NameOf(s: string): string {
    if s != "" && s[0] != ' ' then [s[0]] + NameOf(s[1..]) else ""
  }

  function EndTag(inside: string): string {
    "</" + NameOf(inside) + ">"
  }

  const ID := "bullet id=\""

  function ReadLeaf(inside: string, text: string): Tag {
    if inside == "title" then Title(ReadTitle(text).number, ReadTitle(text).rest)
    else if inside == "bullet" then Bullet(None, text)
    else if |ID| < |inside| && inside[..|ID|] == ID && inside[|inside| - 1] == '"' then
      Bullet(Some(Decimal(inside[|ID|..|inside| - 1])), text)
    else Leaf(inside, text)
  }

  /** A line without its blanks. */
  function ReadTag(s: string): Option<Tag> {
    if s == "" || s[0] != '<' || NameEnd(s) == |s| then None
    else
      var inside, rest := s[1..NameEnd(s)], s[NameEnd(s) + 1..];
      if rest == "" then
        if inside != "" && inside[0] == '/' then Some(Close(inside[1..])) else Some(Open(inside))
      else if EndsWith(rest, EndTag(inside)) then Some(ReadLeaf(inside, rest[..|rest| - |EndTag(inside)|]))
      else None
  }

  function ReadRow(line: string): Option<Row> {
    var tag := ReadTag(line[Blanks(line)..]);
    if tag.None? then None else Some(Row(Blanks(line), tag.value))
  }

  function ReadRows(lines: seq<string>): (rows: seq<Option<Row>>)
    ensures |rows| == |lines|
  {
    seq(|lines|, i requires 0 <= i < |lines| => ReadRow(lines[i]))
  }

  function Rows(text: string): seq<Option<Row>> {
    ReadRows(Lines(text))
  }

  // ------------------------------------------------------------------ the outline

  function At(blanks: nat, tag: Tag): Option<Row> {
    Some(Row(blanks, tag))
  }

  function BulletRows(bullets: seq<string>, numbered: bool, n: nat): (rows: seq<Option<Row>>)
    ensures |rows| == |bullets|
  {
    seq(|bullets|, i requires 0 <= i < |bullets| => At(n, Bullet(if numbered then Some(i + 1) else None, bullets[i])))
  }

  /** The beginning of a section, its title, body and bullets. */
  ghost function OwnRows(sec: Section, number: seq<nat>, n: nat): seq<Option<Row>> {
    [At(n, Open("section"))]
    + (if sec.title != None then [At(n + 2, Title(number, sec.title.value))] else [])
    + (if sec.body != "" then [At(n + 2, Leaf("body", sec.body))] else [])
    + (if sec.bullets != []
       then [At(n + 2, Open("bullets"))] + BulletRows(sec.bullets, sec.numberedBullets, n + 4)
            + [At(n + 2, Close("bullets"))]
       else [])
  }

  /** A section that begins after `n` blanks. */
  ghost function SectionRows(sec: Section, number: seq<nat>, n: nat): seq<Option<Row>>
    decreases sec, 1
  {
    OwnRows(sec, number, n)
    + (if sec.subsections != []
       then [At(n + 2, Open("subsections"))] + RowsBelow(sec, number, n + 4, |sec.subsections|)
            + [At(n + 2, Close("subsections"))]
       else [])
    + [At(n, Close("section"))]
  }

  ghost function RowsBelow(sec: Section, number: seq<nat>, n: nat, k: nat): seq<Option<Row>>
    requires k <= |sec.subsections|
    decreases sec, 0, k
  {
    if k == 0 then []
    else
      RowsBelow(sec, number, n, k - 1) + SectionRows(sec.subsections[k - 1], NumberBelow(sec, number, k - 1), n)
  }

  ghost function TopRows(secs: seq<Section>, k: nat): seq<Option<Row>>
    requires k <= |secs|
  {
    if k == 0 then [] else TopRows(secs, k - 1) + SectionRows(secs[k - 1], NumberAtTop(secs, k - 1), 2)
  }

  ghost function DocumentRows(secs: seq<Section>): seq<Option<Row>> {
    [At(0, Open("?xml version=\"1.0\" " + "encoding=\"UTF-8\"?")), At(0, Open("prompt"))]
    + TopRows(secs, |secs|)
    + [At(0, Close("prompt"))]
  }

  /** Titles, bodies and bullets fill one line each, and a title without a number does not look numbered. */
  ghost predicate IsReadable(sec: Section, number: seq<nat>)
    decreases sec
  {
    && (sec.title != None ==> IsTitle(sec.title.value, number))
    && IsOneLine(sec.body)
    && (forall i :: 0 <= i < |sec.bullets| ==> IsOneLine(sec.bullets[i]))
    && forall i :: 0 <= i < |sec.subsections| ==> IsReadable(sec.subsections[i], NumberBelow(sec, number, i))
  }

  ghost predicate AreReadable(secs: seq<Section>) {
    forall i :: 0 <= i < |secs| ==> IsReadable(secs[i], NumberAtTop(secs, i))
  }

  // ------------------------------------------------------------------ reading tags

  lemma {:induction false} ReadRowsOfTwo(a: seq<string>, b: seq<string>)
    ensures ReadRows(a + b) == ReadRows(a) + ReadRows(b)
  {
    hide ReadRow;
  }

  lemma {:induction false} BlanksAre(n: nat, rest: string)
    requires rest == "" || rest[0] != ' '
    ensures Blanks(Repeat(' ', n) + rest) == n
  {
    if n == 0 {
      assert Repeat(' ', n) + rest == rest;
    } else {
      BlanksAre(n - 1, rest);
      assert (Repeat(' ', n) + rest)[1..] == Repeat(' ', n - 1) + rest;
    }
  }

  lemma {:induction false} NameEndIs(name: string, rest: string)
    requires '>' !in name
    ensures NameEnd(name + ">" + rest) == |name|
  {
    if name == "" {
      assert (name + ">" + rest)[0] == '>';
    } else {
      NameEndIs(name[1..], rest);
      assert (name + ">" + rest)[1..] == name[1..] + ">" + rest;
    }
  }

  lemma {:induction false} OpenReads(inside: string)
    requires '>' !in inside && inside != "" && inside[0] != '/'
    ensures ReadTag("<" + inside + ">") == Some(Open(inside))
  {
    hide NameEnd, NameOf;
    var s := "<" + inside + ">";
    NameEndIs("<" + inside, "");
    assert s == "<" + inside + ">" + "";
    assert s[1..|inside| + 1] == inside && s[|inside| + 2..] == "";
  }

  lemma {:induction false} CloseReads(name: string)
    requires '>' !in name
    ensures ReadTag("</" + name + ">") == Some(Close(name))
  {
    hide NameEnd, NameOf;
    var s := "</" + name + ">";
    NameEndIs("</" + name, "");
    assert s == "</" + name + ">" + "";
    assert s[1..|name| + 2] == "/" + name && s[|name| + 3..] == "";
  }

  lemma {:induction false} LeafReads(inside: string, name: string, text: string)
    requires '>' !in inside && NameOf(inside) == name
    ensures ReadTag("<" + inside + ">" + text + "</" + name + ">") == Some(ReadLeaf(inside, text))
  {
    hide NameEnd, NameOf;
    var end := "</" + name + ">";
    var s := "<" + inside + ">" + text + "</" + name + ">";
    NameEndIs("<" + inside, text + end);
    assert s == "<" + inside + ">" + (text + end);
    assert s[1..|inside| + 1] == inside && s[|inside| + 2..] == text + end;
    assert (text + end)[|text|..] == end && (text + end)[..|text|] == text;
  }

  lemma {:induction false} RowReads(n: nat, s: string)
    requires s != "" && s[0] == '<'
    ensures ReadRow(Repeat(' ', n) + s) == if ReadTag(s).None? then None else Some(Row(n, ReadTag(s).value))
  {
    hide ReadTag;
    BlanksAre(n, s);
    assert (Repeat(' ', n) + s)[n..] == s;
  }

  lemma {:induction false} NameOfIs(name: string, rest: string)
    requires ' ' !in name && (rest == "" || rest[0] == ' ')
    ensures NameOf(name + rest) == name
  {
    if name == "" {
      assert name + rest == rest;
    } else {
      NameOfIs(name[1..], rest);
      assert (name + rest)[1..] == name[1..] + rest;
    }
  }

  /** The rows of parts that are joined by line breaks. */
  function RowsOf(parts: seq<string>): seq<Option<Row>> {
    ReadRows(AllLines(parts))
  }

  lemma {:induction false} RowsOfTwo(p: seq<string>, q: seq<string>)
    ensures RowsOf(p + q) == RowsOf(p) + RowsOf(q)
  {
    hide ReadRows, AllLines;
    AllLinesOfTwo(p, q);
    ReadRowsOfTwo(AllLines(p), AllLines(q));
  }

  lemma {:induction false} RowsOfOne(part: string)
    ensures RowsOf([part]) == Rows(part)
  {
    hide ReadRows, AllLines, Lines;
    AllLinesOfOne(part);
  }

  lemma {:induction false} NoRows()
    ensures RowsOf([]) == []
  {
  }

  lemma {:induction false} TagRow(n: nat, s: string, tag: Tag)
    requires s != "" && s[0] == '<' && IsOneLine(s) && ReadTag(s) == Some(tag)
    ensures RowsOf([Repeat(' ', n) + s]) == [At(n, tag)]
  {
    hide ReadTag, RowsOf, Lines, ReadRow;
    var line := Repeat(' ', n) + s;
    assert IsOneLine(line);
    RowReads(n, s);
    OneLine(line);
    RowsOfOne(line);
  }

  lemma {:induction false} Wider(n: nat)
    ensures Repeat(' ', n) + "  " == Repeat(' ', n + 2)
    ensures Repeat(' ', n) + "    " == Repeat(' ', n + 4)
  {
  }

  lemma {:induction false} OpenRow(n: nat, inside: string)
    requires '>' !in inside && inside != "" && inside[0] != '/' && IsOneLine(inside)
    ensures RowsOf([Repeat(' ', n) + ("<" + inside + ">")]) == [At(n, Open(inside))]
  {
    hide ReadTag, RowsOf;
    OpenReads(inside);
    TagRow(n, "<" + inside + ">", Open(inside));
  }

  lemma {:induction false} CloseRow(n: nat, name: string)
    requires '>' !in name && IsOneLine(name)
    ensures RowsOf([Repeat(' ', n) + ("</" + name + ">")]) == [At(n, Close(name))]
  {
    hide ReadTag, RowsOf;
    CloseReads(name);
    TagRow(n, "</" + name + ">", Close(name));
  }

  lemma {:induction false} LeafRow(n: nat, name: string, more: string, text: string)
    requires '>' !in name && ' ' !in name && '>' !in more && (more == "" || more[0] == ' ')
    requires IsOneLine(name) && IsOneLine(more) && IsOneLine(text)
    ensures RowsOf([Repeat(' ', n) + ("<" + (name + more) + ">" + text + "</" + name + ">")])
      == [At(n, ReadLeaf(name + more, text))]
  {
    hide ReadTag, RowsOf, ReadLeaf;
    NameOfIs(name, more);
    LeafReads(name + more, name, text);
    TagRow(n, "<" + (name + more) + ">" + text + "</" + name + ">", ReadLeaf(name + more, text));
  }

  // ------------------------------------------------------------------ reading the parts of a section

  lemma {:induction false} OwnOpenRow(n: nat, inside: string)
    requires '>' !in inside && inside != "" && inside[0] != '/' && IsOneLine(inside)
    ensures RowsOf([Repeat(' ', n) + "<" + inside + ">"]) == [At(n, Open(inside))]
    ensures RowsOf([Repeat(' ', n) + "  <" + inside + ">"]) == [At(n + 2, Open(inside))]
  {
    hide RowsOf;
    OpenRow(n, inside);
    OpenRow(n + 2, inside);
    Wider(n);
    assert Repeat(' ', n) + "<" + inside + ">" == Repeat(' ', n) + ("<" + inside + ">");
    assert Repeat(' ', n) + "  <" + inside + ">" == Repeat(' ', n) + "  " + ("<" + inside + ">");
  }

  lemma {:induction false} OwnCloseRow(n: nat, name: string)
    requires '>' !in name && IsOneLine(name)
    ensures RowsOf([Repeat(' ', n) + "</" + name + ">"]) == [At(n, Close(name))]
    ensures RowsOf([Repeat(' ', n) + "  </" + name + ">"]) == [At(n + 2, Close(name))]
  {
    hide RowsOf;
    CloseRow(n, name);
    CloseRow(n + 2, name);
    Wider(n);
    assert Repeat(' ', n) + "</" + name + ">" == Repeat(' ', n) + ("</" + name + ">");
    assert Repeat(' ', n) + "  </" + name + ">" == Repeat(' ', n) + "  " + ("</" + name + ">");
  }

  lemma {:induction false} TitleRow(n: nat, number: seq<nat>, title: string)
    requires IsTitle(title, number)
    ensures RowsOf([Repeat(' ', n) + "  <title>" + Prefix(number) + title + "</title>"])
      == [At(n + 2, Title(number, title))]
  {
    hide RowsOf, Prefix, ReadTitle, ReadNumber;
    var text := Prefix(number) + title;
    PrefixIsOneLine(number);
    LeafRow(n + 2, "title", "", text);
    TitleReadsBack(number, title);
    Wider(n);
    assert "title" + "" == "title";
    assert Repeat(' ', n) + "  <title>" + Prefix(number) + title + "</title>"
      == Repeat(' ', n) + "  " + ("<" + ("title" + "") + ">" + text + "</" + "title" + ">");
  }

  lemma {:induction false} BodyRow(n: nat, body: string)
    requires IsOneLine(body)
    ensures RowsOf([Repeat(' ', n) + "  <body>" + body + "</body>"]) == [At(n + 2, Leaf("body", body))]
  {
    hide RowsOf;
    LeafRow(n + 2, "body", "", body);
    Wider(n);
    assert ReadLeaf("body", body) == Leaf("body", body);
    assert "body" + "" == "body";
    assert Repeat(' ', n) + "  <body>" + body + "</body>"
      == Repeat(' ', n) + "  " + ("<" + ("body" + "") + ">" + body + "</" + "body" + ">");
  }

  lemma {:induction false} BulletRow(n: nat, bullet: string)
    requires IsOneLine(bullet)
    ensures RowsOf([Repeat(' ', n) + "    <bullet" + ">" + bullet + "</bullet>"]) == [At(n + 4, Bullet(None, bullet))]
  {
    hide RowsOf;
    LeafRow(n + 4, "bullet", "", bullet);
    Wider(n);
    assert "bullet" + "" == "bullet";
    assert Repeat(' ', n) + "    <bullet" + ">" + bullet + "</bullet>"
      == Repeat(' ', n) + "    " + ("<" + ("bullet" + "") + ">" + bullet + "</" + "bullet" + ">");
  }

  lemma {:induction false} IdReads(k: nat, text: string)
    ensures ReadLeaf("bullet" + (" id=\"" + Numeral(k, 10) + "\""), text) == Bullet(Some(k), text)
  {
    hide Numeral, Decimal;
    var digits := Numeral(k, 10);
    var inside := "bullet" + (" id=\"" + digits + "\"");
    PrintedIsDecimal(k);
    assert inside == ID + digits + "\"";
    assert inside[..|ID|] == ID && inside[|ID|..|inside| - 1] == digits;
    assert inside[0] == 'b' && |inside| > |ID|;
  }

  lemma {:induction false} IdIsPlain(k: nat)
    ensures IsOneLine(" id=\"" + Numeral(k, 10) + "\"") && '>' !in " id=\"" + Numeral(k, 10) + "\""
  {
    hide Numeral;
    NumeralIsOneLine(k);
    PrintedIsDecimal(k);
  }

  lemma {:induction false} NumberedBulletRow(n: nat, bullet: string, k: nat)
    requires IsOneLine(bullet)
    ensures RowsOf([Repeat(' ', n) + "    <bullet" + (" id=\"" + Numeral(k, 10) + "\">") + bullet + "</bullet>"])
      == [At(n + 4, Bullet(Some(k), bullet))]
  {
    hide RowsOf, ReadLeaf, Numeral;
    var more := " id=\"" + Numeral(k, 10) + "\"";
    IdIsPlain(k);
    IdReads(k, bullet);
    LeafRow(n + 4, "bullet", more, bullet);
    Wider(n);
    NumberedText(Repeat(' ', n), Numeral(k, 10), bullet);
  }

  lemma {:induction false} NumberedText(pad: string, digits: string, bullet: string)
    ensures pad + "    <bullet" + (" id=\"" + digits + "\">") + bullet + "</bullet>"
      == pad + "    " + ("<" + ("bullet" + (" id=\"" + digits + "\"")) + ">" + bullet + "</" + "bullet" + ">")
  {
  }

  lemma {:induction false} BulletsRead(bullets: seq<string>, numbered: bool, n: nat, k: nat)
    requires k <= |bullets| && forall i :: 0 <= i < |bullets| ==> IsOneLine(bullets[i])
    ensures RowsOf(XmlBullets(bullets, numbered, Repeat(' ', n), k)) == BulletRows(bullets[..k], numbered, n + 4)
  {
    hide RowsOf, Numeral, IsOneLine, Repeat;
    if k == 0 {
      NoRows();
    } else {
      var line := Repeat(' ', n) + "    <bullet" + (if numbered then " id=\"" + Numeral(k, 10) + "\">" else ">")
        + bullets[k - 1] + "</bullet>";
      BulletsRead(bullets, numbered, n, k - 1);
      if numbered {
        NumberedBulletRow(n, bullets[k - 1], k);
      } else {
        BulletRow(n, bullets[k - 1]);
      }
      RowsOfTwo(XmlBullets(bullets, numbered, Repeat(' ', n), k - 1), [line]);
      assert BulletRows(bullets[..k], numbered, n + 4) == BulletRows(bullets[..k - 1], numbered, n + 4)
        + [At(n + 4, Bullet(if numbered then Some(k) else None, bullets[k - 1]))];
    }
  }

  lemma {:induction false} ListRead(bullets: seq<string>, numbered: bool, n: nat)
    requires forall i :: 0 <= i < |bullets| ==> IsOneLine(bullets[i])
    ensures RowsOf([Repeat(' ', n) + "  <bullets>"] + XmlBullets(bullets, numbered, Repeat(' ', n), |bullets|)
                   + [Repeat(' ', n) + "  </bullets>"])
      == [At(n + 2, Open("bullets"))] + BulletRows(bullets, numbered, n + 4) + [At(n + 2, Close("bullets"))]
  {
    hide RowsOf, XmlBullets, BulletRows, IsOneLine, Repeat;
    Between(n, "bullets", XmlBullets(bullets, numbered, Repeat(' ', n), |bullets|));
    BulletsRead(bullets, numbered, n, |bullets|);
    assert bullets[..|bullets|] == bullets;
    assert Repeat(' ', n) + "  <" + "bullets" + ">" == Repeat(' ', n) + "  <bullets>";
    assert Repeat(' ', n) + "  </" + "bullets" + ">" == Repeat(' ', n) + "  </bullets>";
  }

  /** Parts between the begin and the end of an element. */
  lemma {:induction false} Between(n: nat, name: string, parts: seq<string>)
    requires name == "bullets" || name == "subsections"
    ensures RowsOf([Repeat(' ', n) + "  <" + name + ">"] + parts + [Repeat(' ', n) + "  </" + name + ">"])
      == [At(n + 2, Open(name))] + RowsOf(parts) + [At(n + 2, Close(name))]
  {
    hide RowsOf, Repeat;
    OwnOpenRow(n, name);
    OwnCloseRow(n, name);
    RowsOfTwo([Repeat(' ', n) + "  <" + name + ">"] + parts, [Repeat(' ', n) + "  </" + name + ">"]);
    RowsOfTwo([Repeat(' ', n) + "  <" + name + ">"], parts);
  }

  lemma {:induction false} OwnRead(sec: Section, number: seq<nat>, n: nat)
    requires IsReadable(sec, number)
    ensures RowsOf(XmlHead(Numbered(sec, number), Repeat(' ', n))) == OwnRows(sec, number, n)
  {
    hide RowsOf, XmlBullets, BulletRows, IsOneLine, Repeat, Prefix, IsTitle, NumberedChildren, NumberBelow;
    var pad := Repeat(' ', n);
    var open := [pad + "<section>"];
    var title := if sec.title.Some? then [pad + "  <title>" + Prefix(number) + sec.title.value + "</title>"] else [];
    var body := if sec.body != "" then [pad + "  <body>" + sec.body + "</body>"] else [];
    var bullets :=
      if sec.bullets != []
      then [pad + "  <bullets>"] + XmlBullets(sec.bullets, sec.numberedBullets, pad, |sec.bullets|)
           + [pad + "  </bullets>"]
      else [];
    RowsOfTwo(open + title + body, bullets);
    RowsOfTwo(open + title, body);
    RowsOfTwo(open, title);
    NoRows();
    SectionTagRows(n);
    if sec.title.Some? { TitleRow(n, number, sec.title.value); }
    BodyRow(n, sec.body);
    ListRead(sec.bullets, sec.numberedBullets, n);
  }

  lemma {:induction false} SectionTagRows(n: nat)
    ensures RowsOf([Repeat(' ', n) + "<section>"]) == [At(n, Open("section"))]
    ensures RowsOf([Repeat(' ', n) + "</section>"]) == [At(n, Close("section"))]
  {
    hide RowsOf, Repeat;
    assert IsOneLine("section");
    OwnOpenRow(n, "section");
    OwnCloseRow(n, "section");
    assert Repeat(' ', n) + "<" + "section" + ">" == Repeat(' ', n) + "<section>";
    assert Repeat(' ', n) + "</" + "section" + ">" == Repeat(' ', n) + "</section>";
  }

  // ------------------------------------------------------------------ whole documents

  /** Reading the XML of a section gives its outline. */
  lemma {:induction false} XmlReads(sec: Section, number: seq<nat>, indent: nat)
    requires IsReadable(sec, number)
    ensures Rows(Xml(Numbered(sec, number), indent)) == SectionRows(sec, number, 2 * indent)
    decreases sec, 1, 0
  {
    hide RowsOf, Rows, Xml, XmlHead, OwnRows, Lines, Join, IsOneLine, IsTitle, NumberBelow, Repeat, NumberedChildren;
    var node := Numbered(sec, number);
    var pad := Repeat(' ', indent * 2);
    var head, children := XmlHead(node, pad), XmlChildren(node, indent + 2, |node.children|);
    var below := if node.children != [] then [pad + "  <subsections>"] + children + [pad + "  </subsections>"] else [];
    OwnRead(sec, number, 2 * indent);
    ChildrenRead(sec, number, indent + 2, |sec.subsections|);
    Between(2 * indent, "subsections", children);
    assert pad + "  <" + "subsections" + ">" == pad + "  <subsections>";
    assert pad + "  </" + "subsections" + ">" == pad + "  </subsections>";
    SectionTagRows(2 * indent);
    NoRows();
    RowsOfTwo(head + below, [pad + "</section>"]);
    RowsOfTwo(head, below);
    XmlIs(node, indent);
    RowsOfJoin(head + below + [pad + "</section>"]);
  }

  lemma {:induction false} RowsOfJoin(parts: seq<string>)
    requires parts != []
    ensures Rows(Join(parts, "\n")) == RowsOf(parts)
  {
    hide Lines, ReadRows;
    LinesOfJoin(parts);
  }

  lemma {:induction false} ChildrenRead(sec: Section, number: seq<nat>, indent: nat, k: nat)
    requires IsReadable(sec, number) && k <= |sec.subsections|
    ensures RowsOf(XmlChildren(Numbered(sec, number), indent, k)) == RowsBelow(sec, number, 2 * indent, k)
    decreases sec, 0, k
  {
    hide RowsOf, Rows, OwnRows, XmlHead, Xml, SectionRows, IsOneLine, IsTitle, NumberBelow, ChildNumber, Numbered;
    var node := Numbered(sec, number);
    if k == 0 {
      NoRows();
    } else {
      var sub, subNumber := sec.subsections[k - 1], NumberBelow(sec, number, k - 1);
      ChildrenRead(sec, number, indent, k - 1);
      XmlReads(sub, subNumber, indent);
      ChildIs(sec, number, k - 1);
      BelowIs(sec, number, k - 1);
      RowsOfOne(Xml(node.children[k - 1], indent));
      RowsOfTwo(XmlChildren(node, indent, k - 1), [Xml(node.children[k - 1], indent)]);
    }
  }

  lemma {:induction false} AllRead(secs: seq<Section>, k: nat)
    requires AreReadable(secs) && k <= |secs|
    ensures RowsOf(XmlAll(Document(secs, |secs|)[..k], 1)) == TopRows(secs, k)
  {
    hide RowsOf, Rows, Xml, SectionRows, IsReadable, NumberAtTop, Document;
    var nodes := Document(secs, |secs|);
    if k == 0 {
      NoRows();
      assert nodes[..0] == [];
    } else {
      AllRead(secs, k - 1);
      DocumentAt(secs, |secs|, k - 1);
      XmlReads(secs[k - 1], NumberAtTop(secs, k - 1), 1);
      RowsOfOne(Xml(nodes[k - 1], 1));
      RowsOfTwo(XmlAll(nodes[..k - 1], 1), [Xml(nodes[k - 1], 1)]);
      assert nodes[..k][..k - 1] == nodes[..k - 1];
    }
  }

  lemma {:induction false} DeclarationRow()
    ensures RowsOf(["<?xml version=\"1.0\" encoding=\"UTF-8\"?>"])
      == [At(0, Open("?xml version=\"1.0\" " + "encoding=\"UTF-8\"?"))]
  {
    hide RowsOf, Repeat;
    FirstHalf();
    SecondHalf();
    BothHalves("?xml version=\"1.0\" ", "encoding=\"UTF-8\"?");
    hide IsOneLine;
    OpenRow(0, "?xml version=\"1.0\" " + "encoding=\"UTF-8\"?");
    NoPad();
    DeclarationText();
    NothingBefore("<" + ("?xml version=\"1.0\" " + "encoding=\"UTF-8\"?") + ">");
  }

  lemma {:induction false} NothingBefore(s: string)
    ensures "" + s == s
  {
  }

  predicate IsInside(s: string) {
    '>' !in s && IsOneLine(s)
  }

  lemma {:induction false} FirstHalf()
    ensures IsInside("?xml version=\"1.0\" ")
  {
  }

  lemma {:induction false} SecondHalf()
    ensures IsInside("encoding=\"UTF-8\"?")
  {
  }

  lemma {:induction false} BothHalves(a: string, b: string)
    requires IsInside(a) && IsInside(b) && a != "" && a[0] != '/'
    ensures '>' !in a + b && a + b != "" && (a + b)[0] != '/' && IsOneLine(a + b)
  {
  }

  lemma {:induction false} DeclarationText()
    ensures "<" + ("?xml version=\"1.0\" " + "encoding=\"UTF-8\"?") + ">"
      == "<?xml version=\"1.0\" encoding=\"UTF-8\"?>"
  {
  }

  lemma {:induction false} NoPad()
    ensures Repeat(' ', 0) == ""
  {
  }

  lemma {:induction false} PromptRows()
    ensures RowsOf(["<prompt>"]) == [At(0, Open("prompt"))] && RowsOf(["</prompt>"]) == [At(0, Close("prompt"))]
  {
    hide RowsOf, Repeat;
    OpenRow(0, "prompt");
    CloseRow(0, "prompt");
    NoPad();
    assert Repeat(' ', 0) + ("<" + "prompt" + ">") == "<prompt>";
    assert Repeat(' ', 0) + ("</" + "prompt" + ">") == "</prompt>";
  }

  /** Reading the XML of a model gives every section in document order, properly nested and indented, with
      its number, its title, its body and its bullets. */
  lemma {:induction false} ModelXmlReads(secs: seq<Section>)
    requires AreReadable(secs)
    ensures Rows(ModelXml(secs)) == DocumentRows(secs)
  {
    hide RowsOf, Rows, TopRows, XmlAll, Join, IsReadable, Numbered, Document;
    var nodes := Document(secs, |secs|);
    var declaration := "<?xml version=\"1.0\" encoding=\"UTF-8\"?>";
    AllRead(secs, |secs|);
    assert nodes[..|secs|] == nodes;
    DeclarationRow();
    PromptRows();
    RowsOfTwo([declaration, "<prompt>"] + XmlAll(nodes, 1), ["</prompt>"]);
    RowsOfTwo([declaration, "<prompt>"], XmlAll(nodes, 1));
    RowsOfTwo([declaration], ["<prompt>"]);
    assert [declaration, "<prompt>"] == [declaration] + ["<prompt>"];
    RowsOfJoin([declaration, "<prompt>"] + XmlAll(nodes, 1) + ["</prompt>"]);
  }
}
