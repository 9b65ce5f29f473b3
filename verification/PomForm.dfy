/** The dictionaries of a model, member by member: what is written for a section, and what a dictionary is
    read as. */
module PomForm {
  import opened Json
  import opened Pom
  import opened PomRoundTrip
  import opened TextLines
  import YamlOutline
  import YamlWriter

  // ------------------------------------------------------------------ writing

  function KeysOf(fields: seq<Field>): (keys: seq<string>)
    ensures |keys| == |fields|
  {
    seq(|fields|, i requires 0 <= i < |fields| => fields[i].key)
  }

  /** The members a section has, in their order. */
  function MemberKeys(sec: Section): seq<string> {
    (if sec.title != None then ["title"] else [])
    + (if sec.body != "" then ["body"] else [])
    + (if sec.bullets != [] then ["bullets"] else [])
    + (if sec.subsections != [] then ["subsections"] else [])
    + (if sec.numbered == Some(true) then ["numbered"] else [])
    + (if sec.numberedBullets then ["numberedBullets"] else [])
  }

  predicate AreStrings(v: Option<Json>, texts: seq<string>) {
    && v.Some? && v.value.JArray? && |v.value.items| == |texts|
    && forall i :: 0 <= i < |texts| ==> v.value.items[i] == JString(texts[i])
  }

  /** The dictionary of a section: exactly its members, each with its value. */
  predicate IsFormOf(form: Json, sec: Section)
    decreases sec
  {
    && form.JObject? && KeysOf(form.fields) == MemberKeys(sec)
    && (sec.title != None ==> Lookup(form.fields, "title") == Some(JString(sec.title.value)))
    && (sec.body != "" ==> Lookup(form.fields, "body") == Some(JString(sec.body)))
    && (sec.bullets != [] ==> AreStrings(Lookup(form.fields, "bullets"), sec.bullets))
    && (sec.subsections != [] ==>
      var v := Lookup(form.fields, "subsections");
      && v.Some? && v.value.JArray? && |v.value.items| == |sec.subsections|
      && forall i :: 0 <= i < |sec.subsections| ==> IsFormOf(v.value.items[i], sec.subsections[i]))
    && (sec.numbered == Some(true) ==> Lookup(form.fields, "numbered") == Some(JBool(true)))
    && (sec.numberedBullets ==> Lookup(form.fields, "numberedBullets") == Some(JBool(true)))
  }

  lemma {:induction false} KeysOfTwo(a: seq<Field>, b: seq<Field>)
    ensures KeysOf(a + b) == KeysOf(a) + KeysOf(b)
  {
  }

  lemma {:induction false} KeysOfOpt(key: string, v: Option<Json>)
    ensures KeysOf(Opt(key, v)) == if v.Some? then [key] else []
  {
  }

  lemma {:induction false} KeysOfMembers(t: Option<Json>, b: Option<Json>, bl: Option<Json>, su: Option<Json>,
                                         n: Option<Json>, nb: Option<Json>)
    ensures KeysOf(Members(t, b, bl, su, n, nb)) ==
      (if t.Some? then ["title"] else []) + (if b.Some? then ["body"] else [])
      + (if bl.Some? then ["bullets"] else []) + (if su.Some? then ["subsections"] else [])
      + (if n.Some? then ["numbered"] else []) + (if nb.Some? then ["numberedBullets"] else [])
  {
    hide Opt, KeysOf;
    var p1 := Opt("title", t);
    var p2 := p1 + Opt("body", b);
    var p3 := p2 + Opt("bullets", bl);
    var p4 := p3 + Opt("subsections", su);
    var p5 := p4 + Opt("numbered", n);
    KeysOfTwo(p1, Opt("body", b));
    KeysOfTwo(p2, Opt("bullets", bl));
    KeysOfTwo(p3, Opt("subsections", su));
    KeysOfTwo(p4, Opt("numbered", n));
    KeysOfTwo(p5, Opt("numberedBullets", nb));
    KeysOfOpt("title", t);
    KeysOfOpt("body", b);
    KeysOfOpt("bullets", bl);
    KeysOfOpt("subsections", su);
    KeysOfOpt("numbered", n);
    KeysOfOpt("numberedBullets", nb);
  }

  lemma {:induction false} StringsAre(texts: seq<string>, i: nat)
    requires i < |texts|
    ensures Strings(texts)[i] == JString(texts[i])
  {
    if i > 0 {
      StringsAre(texts[1..], i - 1);
      assert Strings(texts)[1..] == Strings(texts[1..]);
    }
  }

  lemma {:induction false} AllStrings(texts: seq<string>)
    ensures AreStrings(Some(JArray(Strings(texts))), texts)
  {
    hide Strings;
    forall i | 0 <= i < |texts|
      ensures Strings(texts)[i] == JString(texts[i])
    {
      StringsAre(texts, i);
    }
  }

  /** What is written for a section, at every depth. */
  lemma {:induction false} SectionSays(sec: Section)
    ensures IsFormOf(JObject(SectionFields(sec)), sec)
    decreases sec, 1
  {
    hide Members, Lookup, KeysOf, AreStrings, SectionObjects, Strings;
    var title := Present(sec.title.Some?, JString(sec.title.GetOr("")));
    var body := Present(sec.body != "", JString(sec.body));
    var bullets := Present(sec.bullets != [], JArray(Strings(sec.bullets)));
    var subsections := Present(sec.subsections != [], JArray(SectionObjects(sec.subsections)));
    var numbered := Present(sec.numbered == Some(true), JBool(true));
    var numberedBullets := Present(sec.numberedBullets, JBool(true));
    MembersLookup(title, body, bullets, subsections, numbered, numberedBullets);
    KeysOfMembers(title, body, bullets, subsections, numbered, numberedBullets);
    AllStrings(sec.bullets);
    SectionsSay(sec.subsections);
  }

  lemma {:induction false} SectionsSay(secs: seq<Section>)
    ensures forall i :: 0 <= i < |secs| ==> IsFormOf(SectionObjects(secs)[i], secs[i])
    decreases secs, 0
  {
    hide IsFormOf, SectionFields;
    if secs != [] {
      SectionSays(secs[0]);
      SectionsSay(secs[1..]);
      assert SectionObjects(secs)[1..] == SectionObjects(secs[1..]);
      forall i | 0 <= i < |secs|
        ensures IsFormOf(SectionObjects(secs)[i], secs[i])
      {
        if i > 0 { assert secs[i] == secs[1..][i - 1] && SectionObjects(secs)[i] == SectionObjects(secs[1..])[i - 1]; }
      }
    }
  }

  /** A model is written as the list of the dictionaries of its sections. */
  lemma {:induction false} DocumentSays(secs: seq<Section>)
    ensures Ordered(secs).JArray? && |Ordered(secs).items| == |secs|
    ensures forall i :: 0 <= i < |secs| ==> IsFormOf(Ordered(secs).items[i], secs[i])
  {
    hide IsFormOf, SectionObjects;
    SectionsSay(secs);
  }

  // ------------------------------------------------------------------ reading

  predicate IsText(v: Option<Json>) {
    v.Some? && v.value.JString?
  }

  predicate IsList(v: Option<Json>) {
    v.Some? && v.value.JArray?
  }

  predicate IsTruth(v: Option<Json>) {
    v.Some? && v.value.JBool?
  }

  /** A dictionary that can be read: members of the right types, a body or bullets or subsections, for a
      subsection a title, and subsections that can be read themselves. */
  predicate IsReadable(d: Json, isSubsection: bool)
    decreases d
  {
    d.JObject?
    && var f := d.fields;
    && (Contains(f, "title") ==> IsText(Lookup(f, "title")))
    && (Contains(f, "body") ==> IsText(Lookup(f, "body")))
    && (Contains(f, "bullets") ==> IsList(Lookup(f, "bullets")))
    && (Contains(f, "subsections") ==> IsList(Lookup(f, "subsections")))
    && (Contains(f, "numbered") ==> IsTruth(Lookup(f, "numbered")))
    && (Contains(f, "numberedBullets") ==> IsTruth(Lookup(f, "numberedBullets")))
    && (isSubsection ==> Contains(f, "title"))
    && HasContentIn(f)
    && (Contains(f, "bullets") ==>
      var items := Get(f, "bullets").items;
      forall i :: 0 <= i < |items| ==> items[i].JString?)
    && (Contains(f, "subsections") ==>
      var items := Get(f, "subsections").items;
      forall i :: 0 <= i < |items| ==> IsReadable(items[i], true))
  }

  predicate HasContentIn(f: seq<Field>) {
    (IsText(Lookup(f, "body")) && Get(f, "body").s != "")
    || (IsList(Lookup(f, "bullets")) && Get(f, "bullets").items != [])
    || (IsList(Lookup(f, "subsections")) && Get(f, "subsections").items != [])
  }

  /** The section has what the members of the dictionary say; a section without `numbered` has no wish, and
      bullets are not numbered by default. */
  predicate IsReadAs(d: Json, sec: Section)
    decreases sec
  {
    d.JObject?
    && var f := d.fields;
    && (match Lookup(f, "title")
        case None => sec.title == None
        case Some(v) => sec.title != None && v == JString(sec.title.value))
    && (match Lookup(f, "body") case None => sec.body == "" case Some(v) => v == JString(sec.body))
    && (match Lookup(f, "bullets") case None => sec.bullets == [] case Some(v) => AreStrings(Some(v), sec.bullets))
    && (match Lookup(f, "numbered")
        case None => sec.numbered == None
        case Some(v) => v.JBool? && sec.numbered == Some(v.b))
    && (match Lookup(f, "numberedBullets")
        case None => !sec.numberedBullets
        case Some(v) => v == JBool(sec.numberedBullets))
    && (match Lookup(f, "subsections")
        case None => sec.subsections == []
        case Some(v) => v.JArray? && |v.items| == |sec.subsections|
                        && forall i :: 0 <= i < |v.items| ==> IsReadAs(v.items[i], sec.subsections[i]))
  }

  lemma {:induction false} StringsRead(items: seq<Json>)
    ensures AsStrings(items).Some? <==> forall i :: 0 <= i < |items| ==> items[i].JString?
    ensures AsStrings(items).Some? ==> AreStrings(Some(JArray(items)), AsStrings(items).value)
  {
    if items != [] {
      StringsRead(items[1..]);
      assert forall i :: 1 <= i < |items| ==> items[i] == items[1..][i - 1];
    }
  }

  predicate AreReadable(items: seq<Json>) {
    forall i :: 0 <= i < |items| ==> IsReadable(items[i], true)
  }

  predicate AreReadAs(items: seq<Json>, secs: seq<Section>) {
    |items| == |secs| && forall i :: 0 <= i < |items| ==> IsReadAs(items[i], secs[i])
  }

  /** The types alone. */
  predicate TypesFit(f: seq<Field>) {
    && (Contains(f, "title") ==> IsText(Lookup(f, "title")))
    && (Contains(f, "bullets") ==> IsList(Lookup(f, "bullets")))
    && (Contains(f, "subsections") ==> IsList(Lookup(f, "subsections")))
    && (Contains(f, "numbered") ==> IsTruth(Lookup(f, "numbered")))
    && (Contains(f, "numberedBullets") ==> IsTruth(Lookup(f, "numberedBullets")))
  }

  lemma {:induction false} TypesChecked(f: seq<Field>)
    ensures (TypeError(Lookup(f, "title"), Lookup(f, "subsections"), Lookup(f, "bullets"), Lookup(f, "numbered"),
                       Lookup(f, "numberedBullets")).None?) <==> TypesFit(f)
  {
    hide Contains, Get;
  }

  /** A dictionary is read exactly when it can be, as a section with its members. */
  lemma {:induction false} SectionReads(d: Json, isSubsection: bool)
    ensures SectionOf(d, isSubsection).Ok? <==> IsReadable(d, isSubsection)
    ensures SectionOf(d, isSubsection).Ok? ==> IsReadAs(d, SectionOf(d, isSubsection).value)
    decreases d, 2
  {
    hide Contains, Get, AsStrings, Sections, TypeError, AreStrings;
    if d.JObject? {
      var f := d.fields;
      TypesChecked(f);
      StringsRead(ItemsOf(Lookup(f, "bullets")));
      BelowReads(d);
    }
  }

  lemma {:induction false} BelowReads(d: Json)
    requires d.JObject?
    ensures var v := Lookup(d.fields, "subsections");
            IsList(v) ==>
              && (Sections(v.value.items).Ok? <==> AreReadable(v.value.items))
              && (Sections(v.value.items).Ok? ==> AreReadAs(v.value.items, Sections(v.value.items).value))
    decreases d, 1
  {
    hide IndexOf, Sections, AreReadable, AreReadAs;
    if IsList(Lookup(d.fields, "subsections")) { SectionsRead(Lookup(d.fields, "subsections").value.items); }
  }

  lemma {:induction false} SectionsRead(items: seq<Json>)
    ensures Sections(items).Ok? <==> AreReadable(items)
    ensures Sections(items).Ok? ==> AreReadAs(items, Sections(items).value)
    decreases items, 0
  {
    hide SectionOf, IsReadable, IsReadAs;
    if items != [] {
      SectionReads(items[0], true);
      SectionsRead(items[1..]);
      assert forall i :: 1 <= i < |items| ==> items[i] == items[1..][i - 1];
    }
  }

  // ------------------------------------------------------------------ whole documents

  /** A dictionary read at the top: after the first, one without a title is called `Untitled Section`. */
  predicate IsReadAtTop(d: Json, sec: Section, first: bool) {
    if d.JObject? && !first && !Contains(d.fields, "title") then
      sec.title == Some("Untitled Section") && IsReadAs(d, sec.(title := None))
    else IsReadAs(d, sec)
  }

  lemma {:induction false} TitleGiven(f: seq<Field>, key: string)
    requires !Contains(f, "title")
    ensures var g := Assign(f, "title", UNTITLED);
            Contains(g, "title") && Lookup(g, "title") == Some(JString("Untitled Section"))
            && (key != "title" ==> Lookup(g, key) == Lookup(f, key))
  {
    hide IndexOf;
    LookupConcat(f, [Field("title", UNTITLED)], key);
    OneMember(key);
  }

  lemma {:induction false} OneMember(key: string)
    ensures key != "title" ==> Lookup([Field("title", UNTITLED)], key) == None
  {
  }

  lemma {:induction false} HeadReads(d: Json, first: bool)
    ensures SectionOf(WithTitle(d, first), false).Ok? <==> IsReadable(d, false)
    ensures SectionOf(WithTitle(d, first), false).Ok? ==>
      IsReadAtTop(d, SectionOf(WithTitle(d, first), false).value, first)
  {
    hide SectionOf, IsReadable, IsReadAs, Lookup, Contains, Get, Assign;
    SectionReads(WithTitle(d, first), false);
    if d.JObject? && !first && !Contains(d.fields, "title") {
      TitledReads(d);
    }
  }

  lemma {:induction false} TitledReads(d: Json)
    requires d.JObject? && !Contains(d.fields, "title")
    ensures var e := JObject(Assign(d.fields, "title", UNTITLED));
            && (IsReadable(e, false) <==> IsReadable(d, false))
            && forall sec {:trigger IsReadAs(e, sec)} :: IsReadAs(e, sec) ==>
                 sec.title == Some("Untitled Section") && IsReadAs(d, sec.(title := None))
  {
    hide Get, IndexOf, AreStrings, Assign;
    var f := d.fields;
    TitleGiven(f, "title");
    TitleGiven(f, "body");
    TitleGiven(f, "bullets");
    TitleGiven(f, "subsections");
    TitleGiven(f, "numbered");
    TitleGiven(f, "numberedBullets");
  }

  lemma {:induction false} TopReads(items: seq<Json>, first: bool)
    ensures TopSections(items, first).Ok? <==> forall i :: 0 <= i < |items| ==> IsReadable(items[i], false)
    ensures TopSections(items, first).Ok? ==>
      var secs := TopSections(items, first).value;
      |secs| == |items| && forall i :: 0 <= i < |items| ==> IsReadAtTop(items[i], secs[i], first && i == 0)
  {
    hide SectionOf, IsReadable, IsReadAtTop, WithTitle;
    if items != [] {
      HeadReads(items[0], first);
      TopReads(items[1..], false);
      assert forall i :: 1 <= i < |items| ==> items[i] == items[1..][i - 1];
    }
  }

  /** A document is read exactly when it is a list of dictionaries that can be read, as the sections with
      their members. */
  lemma {:induction false} DocumentReads(data: Json)
    ensures FromJson(data).Ok? <==>
      data.JArray? && forall i :: 0 <= i < |data.items| ==> IsReadable(data.items[i], false)
    ensures FromJson(data).Ok? ==>
      var secs := FromJson(data).value;
      |secs| == |data.items| && forall i :: 0 <= i < |secs| ==> IsReadAtTop(data.items[i], secs[i], i == 0)
  {
    hide TopSections, IsReadable, IsReadAtTop;
    if data.JArray? { TopReads(data.items, true); }
  }

  // ------------------------------------------------------------------ the YAML of a model

  /** Every text of the section fills one line. */
  predicate IsOnLines(sec: Section)
    decreases sec
  {
    && (sec.title != None ==> IsOneLine(sec.title.value))
    && IsOneLine(sec.body)
    && (forall i :: 0 <= i < |sec.bullets| ==> IsOneLine(sec.bullets[i]))
    && forall i :: 0 <= i < |sec.subsections| ==> IsOnLines(sec.subsections[i])
  }

  predicate CanPrint(fields: seq<Field>) {
    forall i :: 0 <= i < |fields| ==> YamlOutline.IsPlainKey(fields[i].key) && YamlOutline.IsPrintable(fields[i].value)
  }

  lemma {:induction false} OptPrints(key: string, v: Option<Json>)
    requires YamlOutline.IsPlainKey(key) && (v.Some? ==> YamlOutline.IsPrintable(v.value))
    ensures CanPrint(Opt(key, v))
  {
    hide YamlOutline.IsPrintable, YamlOutline.IsPlainKey;
  }

  lemma {:induction false} ShortKeysArePlain()
    ensures YamlOutline.IsPlainKey("title") && YamlOutline.IsPlainKey("body") && YamlOutline.IsPlainKey("bullets")
  {
  }

  lemma {:induction false} LongKeysArePlain()
    ensures YamlOutline.IsPlainKey("subsections") && YamlOutline.IsPlainKey("numbered")
    ensures YamlOutline.IsPlainKey("numberedBullets")
  {
  }

  lemma {:induction false} PrintBoth(a: seq<Field>, b: seq<Field>)
    requires CanPrint(a) && CanPrint(b)
    ensures CanPrint(a + b)
  {
    hide YamlOutline.IsPrintable, YamlOutline.IsPlainKey;
  }

  lemma {:induction false} MembersPrint(t: Option<Json>, b: Option<Json>, bl: Option<Json>, su: Option<Json>,
                                        n: Option<Json>, nb: Option<Json>)
    requires forall v :: v in [t, b, bl, su, n, nb] && v.Some? ==> YamlOutline.IsPrintable(v.value)
    ensures CanPrint(Members(t, b, bl, su, n, nb))
  {
    hide Opt, CanPrint, YamlOutline.IsPrintable, YamlOutline.IsPlainKey;
    ShortKeysArePlain();
    LongKeysArePlain();
    var vs := [t, b, bl, su, n, nb];
    assert vs[0] == t && vs[1] == b && vs[2] == bl && vs[3] == su && vs[4] == n && vs[5] == nb;
    OptPrints("title", t);
    OptPrints("body", b);
    OptPrints("bullets", bl);
    OptPrints("subsections", su);
    OptPrints("numbered", n);
    OptPrints("numberedBullets", nb);
    var p1 := Opt("title", t);
    var p2 := p1 + Opt("body", b);
    var p3 := p2 + Opt("bullets", bl);
    var p4 := p3 + Opt("subsections", su);
    PrintBoth(p1, Opt("body", b));
    PrintBoth(p2, Opt("bullets", bl));
    PrintBoth(p3, Opt("subsections", su));
    PrintBoth(p4, Opt("numbered", n));
    PrintBoth(p4 + Opt("numbered", n), Opt("numberedBullets", nb));
  }

  lemma {:induction false} SectionPrints(sec: Section)
    requires IsOnLines(sec)
    ensures YamlOutline.IsPrintable(JObject(SectionFields(sec)))
    decreases sec, 1
  {
    hide Members, SectionObjects, Strings, YamlOutline.IsPlainKey, IsOneLine;
    BulletsPrint(sec.bullets);
    SectionsPrint(sec.subsections);
    hide IsOnLines;
    MembersPrint(Present(sec.title.Some?, JString(sec.title.GetOr(""))),
                 Present(sec.body != "", JString(sec.body)),
                 Present(sec.bullets != [], JArray(Strings(sec.bullets))),
                 Present(sec.subsections != [], JArray(SectionObjects(sec.subsections))),
                 Present(sec.numbered == Some(true), JBool(true)),
                 Present(sec.numberedBullets, JBool(true)));
  }

  lemma {:induction false} BulletsPrint(bullets: seq<string>)
    requires forall i :: 0 <= i < |bullets| ==> IsOneLine(bullets[i])
    ensures YamlOutline.IsPrintable(JArray(Strings(bullets)))
  {
    hide Strings, IsOneLine;
    AllStrings(bullets);
  }

  lemma {:induction false} SectionsPrint(secs: seq<Section>)
    requires forall i :: 0 <= i < |secs| ==> IsOnLines(secs[i])
    ensures YamlOutline.IsPrintable(JArray(SectionObjects(secs)))
    decreases secs, 0
  {
    hide SectionFields, IsOnLines;
    if secs != [] {
      SectionPrints(secs[0]);
      SectionsPrint(secs[1..]);
      assert forall i :: 1 <= i < |secs| ==> SectionObjects(secs)[i] == SectionObjects(secs[1..])[i - 1];
    }
  }

  /** The YAML of a model has, line by line, the members of its sections. */
  lemma {:induction false} ModelYamlReads(secs: seq<Section>)
    requires secs != [] && forall i :: 0 <= i < |secs| ==> IsOnLines(secs[i])
    ensures var lines := Lines(YamlWriter.YamlDocument(Ordered(secs)));
            lines[|lines| - 1] == ""
            && YamlOutline.ReadRows(lines[..|lines| - 1]) == YamlOutline.ItemRows(Ordered(secs).items, 0)
  {
    hide SectionObjects, IsOnLines, Lines, YamlWriter.YamlDocument, YamlOutline.ReadRows, YamlOutline.ItemRows;
    SectionsPrint(secs);
    YamlOutline.DocumentReads(Ordered(secs));
  }
}
