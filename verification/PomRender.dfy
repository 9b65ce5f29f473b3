/** The two renderers of the Prompt Object Model, and the section numbers they share. */
module PomRender {
  import opened Json
  import opened Numerals
  import opened Pom
  import opened TextLines

  // ------------------------------------------------------------------ numbering

  predicate AnyNumbered(secs: seq<Section>) {
    exists i :: 0 <= i < |secs| && secs[i].numbered == Some(true)
  }

  /** The number that the child `i` of a section gets. */
  function ChildNumber(sec: Section, number: seq<nat>, i: nat): seq<nat>
    requires i < |sec.subsections|
  {
    if (sec.title.Some? || number != []) && AnyNumbered(sec.subsections)
       && sec.subsections[i].numbered != Some(false)
    then number + [i + 1]
    else number
  }

  /** A section as it is rendered: its number instead of the wish to be numbered. */
  datatype Node = Node(
    number: seq<nat>,
    title: Option<string>,
    body: string,
    bullets: seq<string>,
    numberedBullets: bool,
    children: seq<Node>)

  function Numbered(sec: Section, number: seq<nat>): (node: Node)
    ensures node.number == number && |node.children| == |sec.subsections|
    decreases sec, 1, 0
  {
    Node(number, sec.title, sec.body, sec.bullets, sec.numberedBullets,
         NumberedChildren(sec, number, |sec.subsections|))
  }

  function NumberedChildren(sec: Section, number: seq<nat>, k: nat): (nodes: seq<Node>)
    requires k <= |sec.subsections|
    ensures |nodes| == k
    decreases sec, 0, k
  {
    if k == 0 then []
    else
      NumberedChildren(sec, number, k - 1)
      + [Numbered(sec.subsections[k - 1], ChildNumber(sec, number, k - 1))]
  }

  function Titled(secs: seq<Section>, k: nat): nat
    requires k <= |secs|
  {
    if k == 0 then 0 else Titled(secs, k - 1) + if secs[k - 1].title.Some? then 1 else 0
  }

  /** The number of the top-level section `i`; only titled ones count. */
  function TopNumber(secs: seq<Section>, i: nat): seq<nat>
    requires i < |secs|
  {
    if secs[i].title.Some? && AnyNumbered(secs) && secs[i].numbered != Some(false) then [Titled(secs, i + 1)] else []
  }

  function Document(secs: seq<Section>, k: nat): (nodes: seq<Node>)
    requires k <= |secs|
    ensures |nodes| == k
  {
    if k == 0 then [] else Document(secs, k - 1) + [Numbered(secs[k - 1], TopNumber(secs, k - 1))]
  }

  // ------------------------------------------------------------------ text

  function NumberTexts(number: seq<nat>): (texts: seq<string>)
    ensures |texts| == |number| && forall i :: 0 <= i < |texts| ==> texts[i] == Numeral(number[i], 10)
  {
    seq(|number|, i requires 0 <= i < |number| => Numeral(number[i], 10))
  }

  /** What is written before a title. */
  function Prefix(number: seq<nat>): string {
    if number == [] then "" else Join(NumberTexts(number), ".") + ". "
  }

  function Repeat(c: char, n: nat): string {
    seq(n, _ => c)
  }

  function Bullets(bullets: seq<string>, numbered: bool, k: nat): seq<string>
    requires k <= |bullets|
  {
    if k == 0 then []
    else Bullets(bullets, numbered, k - 1)
         + [(if numbered then Numeral(k, 10) + ". " else "- ") + bullets[k - 1]]
  }

  function MarkdownHead(node: Node, level: nat): seq<string> {
    (if node.title.Some?
     then [Repeat('#', level) + " " + Prefix(node.number) + node.title.value + "\n"] else [])
    + (if node.body != "" then [node.body + "\n"] else [])
    + Bullets(node.bullets, node.numberedBullets, |node.bullets|)
    + if node.bullets != [] then [""] else []
  }

  function NextLevel(node: Node, level: nat): nat {
    if node.title.Some? || node.number != [] then level + 1 else level
  }

  function Markdown(node: Node, level: nat): string
    decreases node, 1, 0
  {
    Join(MarkdownHead(node, level) + MarkdownChildren(node, NextLevel(node, level), |node.children|), "\n")
  }

  function MarkdownChildren(node: Node, level: nat, k: nat): seq<string>
    requires k <= |node.children|
    decreases node, 0, k
  {
    if k == 0 then [] else MarkdownChildren(node, level, k - 1) + [Markdown(node.children[k - 1], level)]
  }

  function XmlBullets(bullets: seq<string>, numbered: bool, pad: string, k: nat): seq<string>
    requires k <= |bullets|
  {
    if k == 0 then []
    else XmlBullets(bullets, numbered, pad, k - 1)
         + [pad + "    <bullet" + (if numbered then " id=\"" + Numeral(k, 10) + "\">" else ">")
            + bullets[k - 1] + "</bullet>"]
  }

  function XmlHead(node: Node, pad: string): seq<string> {
    [pad + "<section>"]
    + (if node.title.Some? then [pad + "  <title>" + Prefix(node.number) + node.title.value + "</title>"] else [])
    + (if node.body != "" then [pad + "  <body>" + node.body + "</body>"] else [])
    + if node.bullets != []
      then [pad + "  <bullets>"]
           + XmlBullets(node.bullets, node.numberedBullets, pad, |node.bullets|) + [pad + "  </bullets>"]
      else []
  }

  function Xml(node: Node, indent: nat): string
    decreases node, 1, 0
  {
    var pad := Repeat(' ', indent * 2);
    var children := XmlChildren(node, indent + 2, |node.children|);
    Join(XmlHead(node, pad)
         + (if node.children != [] then [pad + "  <subsections>"] + children + [pad + "  </subsections>"] else [])
         + [pad + "</section>"], "\n")
  }

  function XmlChildren(node: Node, indent: nat, k: nat): seq<string>
    requires k <= |node.children|
    decreases node, 0, k
  {
    if k == 0 then [] else XmlChildren(node, indent, k - 1) + [Xml(node.children[k - 1], indent)]
  }

  function MarkdownAll(nodes: seq<Node>, level: nat): seq<string> {
    if nodes == [] then [] else MarkdownAll(nodes[..|nodes| - 1], level) + [Markdown(nodes[|nodes| - 1], level)]
  }

  function XmlAll(nodes: seq<Node>, indent: nat): seq<string> {
    if nodes == [] then [] else XmlAll(nodes[..|nodes| - 1], indent) + [Xml(nodes[|nodes| - 1], indent)]
  }

  /** The numbered document as Markdown. */
  function ModelMarkdown(secs: seq<Section>): string {
    Join(MarkdownAll(Document(secs, |secs|), 2), "\n")
  }

  /** The same numbered document as XML. */
  function ModelXml(secs: seq<Section>): string {
    Join(["<?xml version=\"1.0\" encoding=\"UTF-8\"?>", "<prompt>"]
         + XmlAll(Document(secs, |secs|), 1) + ["</prompt>"], "\n")
  }

  // ------------------------------------------------------------------ the renderers

  method JoinParts(parts: seq<string>, separator: string) returns (out: string)
    ensures out == Join(parts, separator)
  {
    out := "";
    for i := 0 to |parts|
      invariant out == Join(parts[..i], separator)
    {
      assert parts[..i + 1][..i] == parts[..i];
      if i > 0 { out := out + separator; }
      out := out + parts[i];
    }
    assert parts[..|parts|] == parts;
  }

  method JoinSectionNumber(nums: seq<nat>) returns (s: string)
    ensures s == Join(NumberTexts(nums), ".")
  {
    hide Numeral;
    s := "";
    for i := 0 to |nums|
      invariant s == Join(NumberTexts(nums)[..i], ".")
    {
      assert NumberTexts(nums)[..i + 1][..i] == NumberTexts(nums)[..i];
      if i > 0 { s := s + "."; }
      s := s + Numeral(nums[i], 10);
    }
    assert NumberTexts(nums)[..|nums|] == NumberTexts(nums);
  }

  method NumberPrefix(number: seq<nat>) returns (prefix: string)
    ensures prefix == Prefix(number)
  {
    prefix := "";
    if number != [] {
      prefix := JoinSectionNumber(number);
      prefix := prefix + ". ";
    }
  }

  method FindNumbered(secs: seq<Section>) returns (any: bool)
    ensures any == AnyNumbered(secs)
  {
    any := false;
    for i := 0 to |secs|
      invariant !any && forall j :: 0 <= j < i ==> secs[j].numbered != Some(true)
    {
      if secs[i].numbered == Some(true) { return true; }
    }
  }

  method RenderBullets(bullets: seq<string>, numbered: bool) returns (parts: seq<string>)
    ensures parts == Bullets(bullets, numbered, |bullets|)
  {
    hide Numeral;
    parts := [];
    for i := 0 to |bullets|
      invariant parts == Bullets(bullets, numbered, i)
    {
      if numbered {
        parts := parts + [Numeral(i + 1, 10) + ". " + bullets[i]];
      } else {
        parts := parts + ["- " + bullets[i]];
      }
    }
  }

  method RenderMarkdownHead(sec: Section, level: nat, number: seq<nat>) returns (parts: seq<string>)
    ensures parts == MarkdownHead(Numbered(sec, number), level)
  {
    hide NumberedChildren, Prefix, Bullets, Repeat;
    parts := [];
    if sec.title.Some? {
      var prefix := NumberPrefix(number);
      parts := parts + [Repeat('#', level) + " " + prefix + sec.title.value + "\n"];
    }
    if sec.body != "" {
      parts := parts + [sec.body + "\n"];
    }
    var bullets := RenderBullets(sec.bullets, sec.numberedBullets);
    parts := parts + bullets;
    if sec.bullets != [] {
      parts := parts + [""];
    }
  }

  method RenderMarkdown(sec: Section, level: nat, number: seq<nat>) returns (out: string)
    ensures out == Markdown(Numbered(sec, number), level)
    decreases sec
  {
    hide MarkdownHead, AnyNumbered, Join;
    ghost var node := Numbered(sec, number);
    var parts := RenderMarkdownHead(sec, level, number);
    ghost var head := parts;
    var anyNumbered := FindNumbered(sec.subsections);
    for i := 0 to |sec.subsections|
      invariant parts == head + MarkdownChildren(node, NextLevel(node, level), i)
    {
      var sub := sec.subsections[i];
      var newNumber, nextLevel;
      if sec.title.Some? || number != [] {
        newNumber := number;
        if anyNumbered && sub.numbered != Some(false) {
          newNumber := newNumber + [i + 1];
        }
        nextLevel := level + 1;
      } else {
        newNumber, nextLevel := number, level;
      }
      var part := RenderMarkdown(sub, nextLevel, newNumber);
      ChildIs(sec, number, i);
      parts := parts + [part];
    }
    out := JoinParts(parts, "\n");
  }

  lemma {:induction false} ChildrenPrefix(sec: Section, number: seq<nat>, i: nat, k: nat)
    requires i < k <= |sec.subsections|
    ensures NumberedChildren(sec, number, k)[i] == Numbered(sec.subsections[i], ChildNumber(sec, number, i))
    decreases k
  {
    hide Numbered, ChildNumber;
    if i < k - 1 { ChildrenPrefix(sec, number, i, k - 1); }
  }

  lemma {:induction false} ChildIs(sec: Section, number: seq<nat>, i: nat)
    requires i < |sec.subsections|
    ensures Numbered(sec, number).children[i] == Numbered(sec.subsections[i], ChildNumber(sec, number, i))
  {
    ChildrenPrefix(sec, number, i, |sec.subsections|);
  }

  method RenderXmlBullets(bullets: seq<string>, numbered: bool, pad: string) returns (parts: seq<string>)
    ensures parts == XmlBullets(bullets, numbered, pad, |bullets|)
  {
    hide Numeral;
    parts := [];
    for i := 0 to |bullets|
      invariant parts == XmlBullets(bullets, numbered, pad, i)
    {
      if numbered {
        parts := parts + [pad + "    <bullet" + (" id=\"" + Numeral(i + 1, 10) + "\">") + bullets[i] + "</bullet>"];
      } else {
        parts := parts + [pad + "    <bullet" + ">" + bullets[i] + "</bullet>"];
      }
    }
  }

  method RenderXmlHead(sec: Section, pad: string, number: seq<nat>) returns (parts: seq<string>)
    ensures parts == XmlHead(Numbered(sec, number), pad)
  {
    hide NumberedChildren, Prefix, XmlBullets;
    parts := [pad + "<section>"];
    if sec.title.Some? {
      var prefix := NumberPrefix(number);
      parts := parts + [pad + "  <title>" + prefix + sec.title.value + "</title>"];
    }
    if sec.body != "" {
      parts := parts + [pad + "  <body>" + sec.body + "</body>"];
    }
    if sec.bullets != [] {
      var bullets := RenderXmlBullets(sec.bullets, sec.numberedBullets, pad);
      parts := parts + [pad + "  <bullets>"] + bullets + [pad + "  </bullets>"];
    }
  }

  method RenderXmlChildren(sec: Section, indent: nat, number: seq<nat>) returns (parts: seq<string>)
    ensures parts == XmlChildren(Numbered(sec, number), indent, |sec.subsections|)
    decreases sec, 0
  {
    hide AnyNumbered, Xml, Numbered, NumberedChildren;
    ghost var node := Numbered(sec, number);
    parts := [];
    var anyNumbered := FindNumbered(sec.subsections);
    for i := 0 to |sec.subsections|
      invariant parts == XmlChildren(node, indent, i)
    {
      var sub := sec.subsections[i];
      var newNumber := number;
      if sec.title.Some? || number != [] {
        if anyNumbered && sub.numbered != Some(false) {
          newNumber := newNumber + [i + 1];
        }
      }
      var part := RenderXml(sub, indent, newNumber);
      ChildIs(sec, number, i);
      parts := parts + [part];
    }
  }

  method RenderXml(sec: Section, indent: nat, number: seq<nat>) returns (out: string)
    ensures out == Xml(Numbered(sec, number), indent)
    decreases sec, 1
  {
    hide XmlHead, AnyNumbered, Join, Repeat, Xml, XmlChildren, Numbered, NumberedChildren;
    ghost var node := Numbered(sec, number);
    var pad := Repeat(' ', indent * 2);
    var parts := RenderXmlHead(sec, pad, number);
    ghost var none: seq<string> := [];
    assert parts + none == parts;
    if sec.subsections != [] {
      var children := RenderXmlChildren(sec, indent + 2, number);
      parts := parts + ([pad + "  <subsections>"] + children + [pad + "  </subsections>"]);
    }
    parts := parts + [pad + "</section>"];
    XmlIs(node, indent);
    out := JoinParts(parts, "\n");
  }

  lemma {:induction false} XmlIs(node: Node, indent: nat)
    ensures var pad := Repeat(' ', indent * 2);
            var children := XmlChildren(node, indent + 2, |node.children|);
            Xml(node, indent) == Join(
              XmlHead(node, pad)
              + (if node.children != []
                 then [pad + "  <subsections>"] + children + [pad + "  </subsections>"] else [])
              + [pad + "</section>"], "\n")
  {
    hide XmlHead, Join, Repeat;
  }

  /** The number of a top-level section, as both renderers count. */
  method NextTopNumber(secs: seq<Section>, i: nat, anyNumbered: bool, counter: nat)
    returns (number: seq<nat>, counterNew: nat)
    requires i < |secs| && anyNumbered == AnyNumbered(secs) && counter == Titled(secs, i)
    ensures number == TopNumber(secs, i) && counterNew == Titled(secs, i + 1)
  {
    hide AnyNumbered;
    number, counterNew := [], counter;
    if secs[i].title.Some? {
      counterNew := counterNew + 1;
      if anyNumbered && secs[i].numbered != Some(false) {
        number := [counterNew];
      }
    }
  }

  /** The whole model as Markdown. */
  method RenderModelMarkdown(secs: seq<Section>) returns (out: string)
    ensures out == ModelMarkdown(secs)
  {
    hide AnyNumbered, Join, Numbered, Markdown, TopNumber, Titled;
    var anyNumbered := FindNumbered(secs);
    var parts, counter := [], 0;
    NoneTitled(secs);
    for i := 0 to |secs|
      invariant parts == MarkdownAll(Document(secs, i), 2) && counter == Titled(secs, i)
    {
      var number;
      number, counter := NextTopNumber(secs, i, anyNumbered, counter);
      var part := RenderMarkdown(secs[i], 2, number);
      ghost var nodes := Document(secs, i + 1);
      assert nodes[..i] == Document(secs, i);
      parts := parts + [part];
    }
    out := JoinParts(parts, "\n");
  }

  /** The whole model as XML: the same numbered sections. */
  method RenderModelXml(secs: seq<Section>) returns (out: string)
    ensures out == ModelXml(secs)
  {
    hide AnyNumbered, Join, Numbered, Xml, TopNumber, Titled;
    ghost var head := ["<?xml version=\"1.0\" encoding=\"UTF-8\"?>", "<prompt>"];
    var parts := ["<?xml version=\"1.0\" encoding=\"UTF-8\"?>"];
    parts := parts + ["<prompt>"];
    var anyNumbered := FindNumbered(secs);
    var counter := 0;
    NoneTitled(secs);
    for i := 0 to |secs|
      invariant parts == head + XmlAll(Document(secs, i), 1) && counter == Titled(secs, i)
    {
      var number;
      number, counter := NextTopNumber(secs, i, anyNumbered, counter);
      var part := RenderXml(secs[i], 1, number);
      ghost var nodes := Document(secs, i + 1);
      assert nodes[..i] == Document(secs, i);
      parts := parts + [part];
    }
    parts := parts + ["</prompt>"];
    out := JoinParts(parts, "\n");
  }

  lemma {:induction false} NoneTitled(secs: seq<Section>)
    ensures Titled(secs, 0) == 0
  {
  }
}
