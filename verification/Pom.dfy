/** The Prompt Object Model: sections, their JSON form, and reading that form back. */
module Pom {
  import opened Json
  import opened Utf8

  datatype Section = Section(
    title: Option<string>,
    body: string,
    bullets: seq<string>,
    subsections: seq<Section>,
    numbered: Option<bool>,
    numberedBullets: bool)

  datatype Error =
    | NotADictionary
    | TitleNotAString
    | SubsectionsNotAList
    | BulletsNotAList
    | NumberedNotABoolean
    | NumberedBulletsNotABoolean
    | NoContent
    | SubsectionWithoutTitle
    | TopLevelNotAList
    | WrongType // a JSON value read as a string that is none
    | MalformedYaml
    | NotUtf8

  datatype Result<+T> = Ok(value: T) | Err(error: Error)

  // ------------------------------------------------------------------ to JSON

  function Strings(bs: seq<string>): (r: seq<Json>)
    ensures |r| == |bs|
  {
    if bs == [] then [] else [JString(bs[0])] + Strings(bs[1..])
  }

  /** A member that is present or not. */
  function Opt(key: string, value: Option<Json>): seq<Field> {
    if value.Some? then [Field(key, value.value)] else []
  }

  /** The six members in the order the source inserts them. */
  function Members(title: Option<Json>, body: Option<Json>, bullets: Option<Json>, subsections: Option<Json>,
                   numbered: Option<Json>, numberedBullets: Option<Json>): seq<Field>
  {
    Opt("title", title) + Opt("body", body) + Opt("bullets", bullets) + Opt("subsections", subsections)
    + Opt("numbered", numbered) + Opt("numberedBullets", numberedBullets)
  }

  function Present(present: bool, value: Json): Option<Json> {
    if present then Some(value) else None
  }

  function SectionFields(sec: Section): seq<Field>
    decreases sec, 1
  {
    Members(Present(sec.title.Some?, JString(sec.title.GetOr(""))),
            Present(sec.body != "", JString(sec.body)),
            Present(sec.bullets != [], JArray(Strings(sec.bullets))),
            Present(sec.subsections != [], JArray(SectionObjects(sec.subsections))),
            Present(sec.numbered == Some(true), JBool(true)),
            Present(sec.numberedBullets, JBool(true)))
  }

  function SectionObjects(secs: seq<Section>): (r: seq<Json>)
    ensures |r| == |secs|
    decreases secs, 0
  {
    if secs == [] then [] else [JObject(SectionFields(secs[0]))] + SectionObjects(secs[1..])
  }

  function Ordered(secs: seq<Section>): Json {
    JArray(SectionObjects(secs))
  }

  /** Can the value be printed as JSON?  `dump` throws on text that is not UTF-8. */
  predicate IsDumpable(v: Json)
    decreases v
  {
    match v
    case JString(s) => IsUtf8(s)
    case JArray(items) => forall i :: 0 <= i < |items| ==> IsDumpable(items[i])
    case JObject(fields) => forall i :: 0 <= i < |fields| ==> IsUtf8(fields[i].key) && IsDumpable(fields[i].value)
    case _ => true
  }

  /** `to_dict`: every section is printed and parsed again. */
  function ToDict(secs: seq<Section>): Result<Json> {
    if IsDumpable(Ordered(secs)) then Ok(Ordered(secs)) else Err(NotUtf8)
  }

  // ------------------------------------------------------------------ from JSON

  /** The items as strings; `None` when one of them is something else. */
  function AsStrings(items: seq<Json>): (r: Option<seq<string>>)
    ensures r.Some? ==> |r.value| == |items|
  {
    if items == [] then Some([])
    else if !items[0].JString? then None
    else
      var rest := AsStrings(items[1..]);
      if rest.None? then None else Some([items[0].s] + rest.value)
  }

  /** The type checks of one section, in the order the source makes them. */
  function TypeError(title: Option<Json>, subsections: Option<Json>, bullets: Option<Json>,
                     numbered: Option<Json>, numberedBullets: Option<Json>): Option<Error>
  {
    if title.Some? && !title.value.JString? then Some(TitleNotAString)
    else if subsections.Some? && !subsections.value.JArray? then Some(SubsectionsNotAList)
    else if bullets.Some? && !bullets.value.JArray? then Some(BulletsNotAList)
    else if numbered.Some? && !numbered.value.JBool? then Some(NumberedNotABoolean)
    else if numberedBullets.Some? && !numberedBullets.value.JBool? then Some(NumberedBulletsNotABoolean)
    else None
  }

  function ItemsOf(v: Option<Json>): seq<Json> {
    if v.Some? && v.value.JArray? then v.value.items else []
  }

  /** The section built from the members that passed the type checks; `subsections` is what
      the subsection list reads as. */
  function SectionFrom(title: Option<Json>, body: Option<Json>, bullets: seq<Json>, hasSubsections: bool,
                       subsections: Result<seq<Section>>, numbered: Option<Json>, numberedBullets: bool,
                       isSubsection: bool): Result<Section>
    requires title.Some? ==> title.value.JString?
    requires numbered.Some? ==> numbered.value.JBool?
  {
    var hasBody := body.Some? && body.value.JString? && body.value.s != "";
    if !hasBody && bullets == [] && !hasSubsections then Err(NoContent)
    else if isSubsection && title.None? then Err(SubsectionWithoutTitle)
    else if body.Some? && !body.value.JString? then Err(WrongType)
    else if AsStrings(bullets).None? then Err(WrongType)
    else if subsections.Err? then Err(subsections.error)
    else
      Ok(Section(if title.Some? then Some(title.value.s) else None,
                 if body.Some? then body.value.s else "",
                 AsStrings(bullets).value,
                 subsections.value,
                 if numbered.Some? then Some(numbered.value.b) else None,
                 numberedBullets))
  }

  function SectionOf(d: Json, isSubsection: bool): Result<Section>
    decreases d, 1
  {
    if !d.JObject? then Err(NotADictionary)
    else
      var f := d.fields;
      var title, numbered, numberedBullets := Lookup(f, "title"), Lookup(f, "numbered"), Lookup(f, "numberedBullets");
      var bullets, subsections := Lookup(f, "bullets"), Lookup(f, "subsections");
      var e := TypeError(title, subsections, bullets, numbered, numberedBullets);
      if e.Some? then Err(e.value)
      else
        var subs := if subsections.Some? then Sections(subsections.value.items) else Ok([]);
        SectionFrom(title, Lookup(f, "body"), ItemsOf(bullets), ItemsOf(subsections) != [], subs, numbered,
                    numberedBullets.Some? && numberedBullets.value.b, isSubsection)
  }

  function Sections(items: seq<Json>): (r: Result<seq<Section>>)
    ensures r.Ok? ==> |r.value| == |items|
    decreases items, 0
  {
    if items == [] then Ok([])
    else
      var first := SectionOf(items[0], true);
      if first.Err? then Err(first.error)
      else
        var rest := Sections(items[1..]);
        if rest.Err? then rest else Ok([first.value] + rest.value)
  }

  const UNTITLED := JString("Untitled Section")

  /** Only the first section may go without a title; later ones are given one. */
  function WithTitle(d: Json, first: bool): Json {
    if !first && d.JObject? && !Contains(d.fields, "title") then JObject(Assign(d.fields, "title", UNTITLED)) else d
  }

  function TopSections(items: seq<Json>, first: bool): (r: Result<seq<Section>>)
    ensures r.Ok? ==> |r.value| == |items|
  {
    if items == [] then Ok([])
    else
      var head := SectionOf(WithTitle(items[0], first), false);
      if head.Err? then Err(head.error)
      else
        var rest := TopSections(items[1..], false);
        if rest.Err? then rest else Ok([head.value] + rest.value)
  }

  function FromJson(data: Json): Result<seq<Section>> {
    if !data.JArray? then Err(TopLevelNotAList) else TopSections(data.items, true)
  }

  // ------------------------------------------------------------------ the loops

  method ToStrings(bs: seq<string>) returns (r: seq<Json>)
    ensures r == Strings(bs)
  {
    r := [];
    for i := 0 to |bs|
      invariant r + Strings(bs[i..]) == Strings(bs)
    {
      assert bs[i..][1..] == bs[i + 1..];
      r := r + [JString(bs[i])];
    }
  }

  lemma {:induction false} KeyAbsent(a: seq<Field>, key: string, f: Field)
    requires !Contains(a, key) && f.key != key
    ensures !Contains(a + [f], key)
  {
    var k := IndexOf(a + [f], key);
    assert forall i :: 0 <= i < |a| ==> (a + [f])[i] == a[i];
  }

  /** `data[key] = value` under a condition, for a key that is not there yet. */
  method SetIf(data: seq<Field>, present: bool, key: string, value: Json) returns (r: seq<Field>)
    requires !Contains(data, key)
    ensures r == data + Opt(key, Present(present, value))
    ensures forall k {:trigger Contains(r, k)} :: k != key && !Contains(data, k) ==> !Contains(r, k)
  {
    r := data;
    if present {
      r := Assign(data, key, value);
      forall k | k != key && !Contains(data, k)
        ensures !Contains(r, k)
      {
        KeyAbsent(data, k, Field(key, value));
      }
    }
  }

  method SectionToOrdered(sec: Section) returns (data: seq<Field>)
    ensures data == SectionFields(sec)
    decreases sec
  {
    hide SectionObjects, Strings, IndexOf, Opt, Present, Get, Contains;
    assert forall k :: !Contains([], k) by { EmptyHasNoKey(); }
    data := SetIf([], sec.title.Some?, "title", JString(sec.title.GetOr("")));
    assert data == Opt("title", Present(sec.title.Some?, JString(sec.title.GetOr(""))));
    data := SetIf(data, sec.body != "", "body", JString(sec.body));
    var bs := ToStrings(sec.bullets);
    data := SetIf(data, sec.bullets != [], "bullets", JArray(bs));
    var arr := SectionsToOrdered(sec.subsections);
    data := SetIf(data, sec.subsections != [], "subsections", JArray(arr));
    data := SetIf(data, sec.numbered == Some(true), "numbered", JBool(true));
    data := SetIf(data, sec.numberedBullets, "numberedBullets", JBool(true));
  }

  lemma {:induction false} EmptyHasNoKey()
    ensures forall k :: !Contains([], k)
  {
  }

  method SectionsToOrdered(secs: seq<Section>) returns (arr: seq<Json>)
    ensures arr == SectionObjects(secs)
    decreases secs
  {
    hide SectionFields;
    arr := [];
    for i := 0 to |secs|
      invariant arr + SectionObjects(secs[i..]) == SectionObjects(secs)
    {
      assert secs[i..][1..] == secs[i + 1..];
      var s := SectionToOrdered(secs[i]);
      arr := arr + [JObject(s)];
    }
  }

  /** What the items read so far and the reading of the rest give together. */
  function Then<T>(out: seq<T>, rest: Option<seq<T>>): (r: Option<seq<T>>)
    ensures out == [] ==> r == rest
    ensures rest == Some([]) ==> r == Some(out)
  {
    if rest.None? then None
    else
      assert [] + rest.value == rest.value && out + [] == out;
      Some(out + rest.value)
  }

  function ThenSections(out: seq<Section>, rest: Result<seq<Section>>): (r: Result<seq<Section>>)
    ensures out == [] ==> r == rest
    ensures rest == Ok([]) ==> r == Ok(out)
  {
    if rest.Err? then rest
    else
      assert [] + rest.value == rest.value && out + [] == out;
      Ok(out + rest.value)
  }

  method ReadStrings(items: seq<Json>) returns (r: Option<seq<string>>)
    ensures r == AsStrings(items)
  {
    var out: seq<string> := [];
    assert items[0..] == items;
    for i := 0 to |items|
      invariant |out| == i && AsStrings(items) == Then(out, AsStrings(items[i..]))
    {
      assert items[i..][1..] == items[i + 1..];
      if !items[i].JString? {
        return None;
      }
      ghost var rest := AsStrings(items[i + 1..]);
      assert rest.Some? ==> out + ([items[i].s] + rest.value) == out + [items[i].s] + rest.value;
      out := out + [items[i].s];
    }
    r := Some(out);
  }

  method BuildSection(d: Json, isSubsection: bool) returns (r: Result<Section>)
    ensures r == SectionOf(d, isSubsection)
    decreases d, 1
  {
    hide AsStrings, Sections, IndexOf;
    if !d.JObject? {
      return Err(NotADictionary);
    }
    var f := d.fields;
    var e := TypeError(Lookup(f, "title"), Lookup(f, "subsections"), Lookup(f, "bullets"), Lookup(f, "numbered"),
                       Lookup(f, "numberedBullets"));
    if e.Some? {
      return Err(e.value);
    }
    var body := Lookup(f, "body");
    var hasBody := body.Some? && body.value.JString? && body.value.s != "";
    var bulletItems := ItemsOf(Lookup(f, "bullets"));
    var subsections := Lookup(f, "subsections");
    var subItems := ItemsOf(subsections);
    if !hasBody && bulletItems == [] && subItems == [] {
      return Err(NoContent);
    }
    var title := Lookup(f, "title");
    if isSubsection && title.None? {
      return Err(SubsectionWithoutTitle);
    }
    if body.Some? && !body.value.JString? {
      return Err(WrongType);
    }
    var bullets := ReadStrings(bulletItems);
    if bullets.None? {
      return Err(WrongType);
    }
    var numbered := Lookup(f, "numbered");
    var numberedBullets := Lookup(f, "numberedBullets");
    var section := Section(
      if title.Some? then Some(title.value.s) else None,
      if body.Some? then body.value.s else "",
      bullets.value,
      [],
      if numbered.Some? then Some(numbered.value.b) else None,
      numberedBullets.Some? && numberedBullets.value.b);
    if subsections.Some? {
      var subs := BuildSubsections(subsections.value.items);
      if subs.Err? {
        return Err(subs.error);
      }
      section := section.(subsections := subs.value);
    }
    r := Ok(section);
  }

  method BuildSubsections(items: seq<Json>) returns (r: Result<seq<Section>>)
    ensures r == Sections(items)
    decreases items, 0
  {
    hide SectionOf;
    var out: seq<Section> := [];
    assert items[0..] == items;
    for i := 0 to |items|
      invariant |out| == i && Sections(items) == ThenSections(out, Sections(items[i..]))
    {
      assert items[i..][1..] == items[i + 1..];
      var s := BuildSection(items[i], true);
      if s.Err? {
        return Err(s.error);
      }
      ghost var rest := Sections(items[i + 1..]);
      assert rest.Ok? ==> out + ([s.value] + rest.value) == out + [s.value] + rest.value;
      out := out + [s.value];
    }
    r := Ok(out);
  }

  method ReadJson(data: Json) returns (r: Result<seq<Section>>)
    ensures r == FromJson(data)
  {
    hide SectionOf, WithTitle;
    if !data.JArray? {
      return Err(TopLevelNotAList);
    }
    var items := data.items;
    var out: seq<Section> := [];
    assert items[0..] == items;
    for i := 0 to |items|
      invariant |out| == i && TopSections(items, true) == ThenSections(out, TopSections(items[i..], i == 0))
    {
      assert items[i..][1..] == items[i + 1..];
      var sec := items[i];
      assert sec == items[i..][0];
      sec := InsertTitle(sec, i == 0);
      var s := BuildSection(sec, false);
      if s.Err? {
        return Err(s.error);
      }
      ghost var rest := TopSections(items[i + 1..], false);
      assert rest.Ok? ==> out + ([s.value] + rest.value) == out + [s.value] + rest.value;
      out := out + [s.value];
    }
    r := Ok(out);
  }

  method InsertTitle(d: Json, first: bool) returns (sec: Json)
    ensures sec == WithTitle(d, first)
  {
    sec := d;
    if !first && sec.JObject? && !Contains(sec.fields, "title") {
      sec := JObject(Assign(sec.fields, "title", UNTITLED));
    }
  }
}
