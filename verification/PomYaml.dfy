/** The YAML round trip of the Prompt Object Model over all models, texts with line breaks included. */
module PomYaml {
  import opened Json
  import opened Text
  import opened YamlText
  import opened YamlScalar
  import opened YamlLineProofs
  import opened YamlScalarProofs
  import opened YamlWriter
  import opened YamlWeight
  import opened YamlBreaks
  import Reader = YamlReader
  import YamlRoundTrip
  import opened Pom
  import opened PomRoundTrip

  /** Every text of the section is fine. */
  predicate SectionFine(sec: Section, m: nat)
    decreases sec
  {
    (sec.title.Some? ==> IsFine(sec.title.value, m)) && IsFine(sec.body, m)
    && (forall i :: 0 <= i < |sec.bullets| ==> IsFine(sec.bullets[i], m))
    && forall i :: 0 <= i < |sec.subsections| ==> SectionFine(sec.subsections[i], m)
  }

  predicate ModelFine(secs: seq<Section>, m: nat) {
    forall i :: 0 <= i < |secs| ==> SectionFine(secs[i], m)
  }

  // ------------------------------------------------------------------ from the model to its value

  predicate ValueFine(v: Json, m: nat) {
    IsShaped(v) && StringsFine(v, m)
  }

  predicate MemberFine(v: Option<Json>, m: nat) {
    v.Some? ==> ValueFine(v.value, m)
  }

  predicate TextsFine(bs: seq<string>, m: nat) {
    forall i :: 0 <= i < |bs| ==> IsFine(bs[i], m)
  }

  lemma {:induction false} StringListFine(bs: seq<string>, m: nat)
    requires TextsFine(bs, m)
    ensures ValueFine(JArray(Strings(bs)), m)
  {
    hide IsFine;
    if bs != [] {
      StringListFine(bs[1..], m);
      ConsFine(JString(bs[0]), Strings(bs[1..]), m);
    }
  }

  lemma {:induction false} ConsFine(v: Json, more: seq<Json>, m: nat)
    requires ValueFine(v, m) && ValueFine(JArray(more), m)
    ensures ValueFine(JArray([v] + more), m)
  {
    hide IsFine;
    var all := [v] + more;
    assert all[0] == v && forall i :: 1 <= i < |all| ==> all[i] == more[i - 1];
  }

  lemma {:induction false} FieldsAreFine(fields: seq<Field>, m: nat)
    requires forall f :: f in fields ==> YamlRoundTrip.IsPlainKey(f.key) && ValueFine(f.value, m)
    ensures ValueFine(JObject(fields), m)
  {
    hide IsFine, YamlRoundTrip.IsPlainKey;
  }

  lemma {:induction false} MembersFine(t: Option<Json>, b: Option<Json>, bl: Option<Json>, su: Option<Json>,
                                       n: Option<Json>, nb: Option<Json>, m: nat)
    requires MemberFine(t, m) && MemberFine(b, m) && MemberFine(bl, m) && MemberFine(su, m)
    requires MemberFine(n, m) && MemberFine(nb, m)
    ensures ValueFine(JObject(Members(t, b, bl, su, n, nb)), m)
  {
    hide Members, ValueFine, YamlRoundTrip.IsPlainKey;
    MembersShape(t, b, bl, su, n, nb);
    forall f | f in Members(t, b, bl, su, n, nb)
      ensures YamlRoundTrip.IsPlainKey(f.key) && ValueFine(f.value, m)
    {
      assert IsMember(f, t, b, bl, su, n, nb);
    }
    FieldsAreFine(Members(t, b, bl, su, n, nb), m);
  }

  lemma {:induction false} LeavesFine(s: string, m: nat)
    ensures IsFine(s, m) ==> ValueFine(JString(s), m)
    ensures ValueFine(JBool(true), m)
  {
  }

  lemma {:induction false} SectionValueFine(sec: Section, m: nat)
    requires SectionFine(sec, m)
    ensures ValueFine(JObject(SectionFields(sec)), m)
    decreases sec, 1
  {
    hide Members, ValueFine, IsFine, SectionObjects;
    StringListFine(sec.bullets, m);
    SectionValuesFine(sec.subsections, m);
    LeavesFine(sec.title.GetOr(""), m);
    LeavesFine(sec.body, m);
    MembersFine(Present(sec.title.Some?, JString(sec.title.GetOr(""))),
                Present(sec.body != "", JString(sec.body)),
                Present(sec.bullets != [], JArray(Strings(sec.bullets))),
                Present(sec.subsections != [], JArray(SectionObjects(sec.subsections))),
                Present(sec.numbered == Some(true), JBool(true)),
                Present(sec.numberedBullets, JBool(true)), m);
  }

  lemma {:induction false} SectionValuesFine(secs: seq<Section>, m: nat)
    requires ModelFine(secs, m)
    ensures ValueFine(JArray(SectionObjects(secs)), m)
    decreases secs, 0
  {
    hide SectionFine, SectionFields;
    if secs == [] {
    } else {
      SectionValueFine(secs[0], m);
      SectionValuesFine(secs[1..], m);
      hide ValueFine;
      ConsFine(JObject(SectionFields(secs[0])), SectionObjects(secs[1..]), m);
    }
  }

  // ------------------------------------------------------------------ from the value read to a model

  lemma {:induction false} LookupFine(fields: seq<Field>, key: string, m: nat)
    requires StringsFine(JObject(fields), m)
    ensures var v := Lookup(fields, key); v.Some? ==> StringsFine(v.value, m)
  {
    hide IsFine;
  }

  lemma {:induction false} StringsReadFine(items: seq<Json>, m: nat)
    requires StringsFine(JArray(items), m)
    ensures var r := AsStrings(items);
            r.Some? ==> TextsFine(r.value, m)
    decreases items
  {
    hide IsFine;
    if items != [] && items[0].JString? {
      StringsReadFine(items[1..], m);
      assert StringsFine(items[0], m);
    }
  }

  lemma {:induction false} EmptyTextFine(m: nat)
    ensures IsFine("", m) && StringsFine(JArray([]), m) && ModelFine([], m)
  {
    assert IsGood("");
  }

  predicate ReadFine(v: Option<Json>, m: nat) {
    v.Some? ==> StringsFine(v.value, m)
  }

  lemma {:induction false} SectionFromFine(
    title: Option<Json>, body: Option<Json>, bullets: seq<Json>, hasSubsections: bool,
    subsections: Result<seq<Section>>, numbered: Option<Json>, numberedBullets: bool, isSubsection: bool, m: nat)
    requires (title.Some? ==> title.value.JString?) && (numbered.Some? ==> numbered.value.JBool?)
    requires ReadFine(title, m) && ReadFine(body, m) && StringsFine(JArray(bullets), m)
    requires subsections.Ok? ==> ModelFine(subsections.value, m)
    ensures var r := SectionFrom(title, body, bullets, hasSubsections, subsections, numbered, numberedBullets,
                                 isSubsection);
            r.Ok? ==> SectionFine(r.value, m)
  {
    hide IsFine, AsStrings, StringsFine, SectionFine, TextsFine, ModelFine;
    EmptyTextFine(m);
    StringsReadFine(bullets, m);
    if title.Some? { TextFine(title.value, m); }
    if body.Some? { TextFine(body.value, m); }
    var r := SectionFrom(title, body, bullets, hasSubsections, subsections, numbered, numberedBullets, isSubsection);
    if r.Ok? {
      PartsFine(r.value, m);
    }
  }

  lemma {:induction false} PartsFine(sec: Section, m: nat)
    requires sec.title.Some? ==> IsFine(sec.title.value, m)
    requires IsFine(sec.body, m) && ModelFine(sec.subsections, m)
    requires TextsFine(sec.bullets, m)
    ensures SectionFine(sec, m)
  {
    hide IsFine;
  }

  lemma {:induction false} TextFine(v: Json, m: nat)
    requires StringsFine(v, m)
    ensures v.JString? ==> IsFine(v.s, m)
  {
  }

  lemma {:induction false} SectionReadFine(d: Json, isSubsection: bool, m: nat)
    requires StringsFine(d, m)
    ensures var r := SectionOf(d, isSubsection); r.Ok? ==> SectionFine(r.value, m)
    decreases d, 1
  {
    hide IsFine, Lookup, Sections, SectionFrom, StringsFine, ModelFine;
    if d.JObject? {
      var f := d.fields;
      var title, numbered, numberedBullets := Lookup(f, "title"), Lookup(f, "numbered"), Lookup(f, "numberedBullets");
      var bullets, subsections := Lookup(f, "bullets"), Lookup(f, "subsections");
      LookupFine(f, "title", m);
      LookupFine(f, "body", m);
      LookupFine(f, "bullets", m);
      LookupFine(f, "subsections", m);
      EmptyTextFine(m);
      if TypeError(title, subsections, bullets, numbered, numberedBullets).None? {
        if subsections.Some? {
          LookupSmaller(f, "subsections");
          SectionsReadFine(subsections.value.items, m);
        }
        var subs := if subsections.Some? then Sections(subsections.value.items) else Ok([]);
        SectionFromFine(title, Lookup(f, "body"), ItemsOf(bullets), ItemsOf(subsections) != [], subs, numbered,
                        numberedBullets.Some? && numberedBullets.value.b, isSubsection, m);
      }
    }
  }

  lemma {:induction false} LookupSmaller(fields: seq<Field>, key: string)
    ensures var v := Lookup(fields, key); v.Some? ==> v.value < JObject(fields)
  {
  }

  lemma {:induction false} SectionsReadFine(items: seq<Json>, m: nat)
    requires StringsFine(JArray(items), m)
    ensures var r := Sections(items); r.Ok? ==> ModelFine(r.value, m)
    decreases items, 0
  {
    hide IsFine, SectionOf, SectionFine;
    if items != [] {
      SectionReadFine(items[0], true, m);
      SectionsReadFine(items[1..], m);
    }
  }

  lemma {:induction false} UntitledIsGood()
    ensures IsGood("Untitled Section")
  {
    hide NeedsQuoting;
    var s := "Untitled Section";
    assert IsPlain(s) && '\n' !in s && !In(s[0], White) && !In(s[|s| - 1], White);
    hide IsPlain, HashAt;
    HashSkip(s, "", 0);
    assert HashAt(s + "", |s|, OUTSIDE) == |s| by { NoHashAtEnd(s); }
    assert s + "" == s;
  }

  lemma {:induction false} NoHashAtEnd(s: string)
    ensures HashAt(s, |s|, OUTSIDE) == |s|
  {
  }

  lemma {:induction false} TitledFine(d: Json, first: bool, m: nat)
    requires StringsFine(d, m)
    ensures StringsFine(WithTitle(d, first), m)
  {
    hide IsGood, Assign;
    UntitledIsGood();
    assert StringsFine(UNTITLED, m);
    if !first && d.JObject? {
      AssignFine(d.fields, "title", UNTITLED, m);
    }
  }

  lemma {:induction false} TopReadFine(items: seq<Json>, first: bool, m: nat)
    requires StringsFine(JArray(items), m)
    ensures var r := TopSections(items, first); r.Ok? ==> ModelFine(r.value, m)
    decreases items
  {
    hide IsFine, SectionOf, SectionFine, WithTitle;
    if items != [] {
      TitledFine(items[0], first, m);
      SectionReadFine(WithTitle(items[0], first), false, m);
      TopReadFine(items[1..], false, m);
    }
  }

  lemma {:induction false} ForgottenFine(sec: Section, m: nat)
    requires SectionFine(Forget(sec), m)
    ensures SectionFine(sec, m)
    decreases sec, 1
  {
    hide IsFine, ForgetAll;
    AllForgottenFine(sec.subsections, m);
  }

  lemma {:induction false} AllForgottenFine(secs: seq<Section>, m: nat)
    ensures ModelFine(ForgetAll(secs), m) ==> ModelFine(secs, m)
    decreases secs, 0
  {
    hide SectionFine, Forget;
    if secs != [] && ModelFine(ForgetAll(secs), m) {
      var f := ForgetAll(secs);
      assert f[0] == Forget(secs[0]) && f[1..] == ForgetAll(secs[1..]);
      ForgottenFine(secs[0], m);
      AllForgottenFine(secs[1..], m);
      assert forall i :: 1 <= i < |secs| ==> secs[i] == secs[1..][i - 1];
    }
  }

  // ------------------------------------------------------------------ the round trip

  /** A bound for the weight of every text of a section. */
  function SectionBound(sec: Section): nat
    decreases sec, 1
  {
    (if sec.title.Some? then Weight(sec.title.value) else 0) + Weight(sec.body) + TextsBound(sec.bullets)
    + ModelBound(sec.subsections) + 1
  }

  function TextsBound(bs: seq<string>): nat {
    if bs == [] then 0 else Weight(bs[0]) + TextsBound(bs[1..]) + 1
  }

  function ModelBound(secs: seq<Section>): nat
    decreases secs, 0
  {
    if secs == [] then 0 else SectionBound(secs[0]) + ModelBound(secs[1..])
  }

  lemma {:induction false} TextsBounded(bs: seq<string>, m: nat)
    requires TextsBound(bs) <= m
    ensures TextsFine(bs, m)
  {
    hide Weight, IsGood;
    if bs != [] {
      TextsBounded(bs[1..], m);
      assert forall i :: 1 <= i < |bs| ==> bs[i] == bs[1..][i - 1];
    }
  }

  lemma {:induction false} SectionBounded(sec: Section, m: nat)
    requires SectionBound(sec) <= m
    ensures SectionFine(sec, m)
    decreases sec, 1
  {
    hide Weight, IsGood, TextsBound, ModelBound;
    TextsBounded(sec.bullets, m);
    ModelBounded(sec.subsections, m);
  }

  lemma {:induction false} ModelBounded(secs: seq<Section>, m: nat)
    requires ModelBound(secs) <= m
    ensures ModelFine(secs, m)
    decreases secs, 0
  {
    hide SectionFine, SectionBound;
    if secs != [] {
      SectionBounded(secs[0], m);
      ModelBounded(secs[1..], m);
      assert forall i :: 1 <= i < |secs| ==> secs[i] == secs[1..][i - 1];
    }
  }

  /** A trip through YAML makes every text lighter that does not survive on a single line. */
  lemma {:induction false} TripLightens(secs: seq<Section>, m: nat)
    requires secs != [] && ModelFine(secs, m + 1)
    ensures var r := FromYaml(ToYaml(secs)); r.Ok? ==> ModelFine(r.value, m)
  {
    hide ModelFine, StringsFine, IsShaped, TopSections, Reader.YamlValue, YamlDocument, SectionObjects;
    SectionValuesFine(secs, m + 1);
    ReadsLighter(Ordered(secs), m);
    var r := Reader.YamlValue(YamlDocument(Ordered(secs)));
    if r.Success? && r.value.JArray? { TopReadFine(r.value.items, true, m); }
  }

  lemma {:induction false} SameIsGood(secs: seq<Section>, m: nat)
    requires secs != [] && ModelFine(secs, m) && FromYaml(ToYaml(secs)) == Ok(ForgetAll(secs))
    ensures ModelFine(secs, 0)
  {
    hide ModelFine, FromYaml, ToYaml;
    if m > 0 {
      TripLightens(secs, m - 1);
      AllForgottenFine(secs, m - 1);
      SameIsGood(secs, m - 1);
    }
  }

  /** Nothing weighs less than nothing. */
  lemma {:induction false} FineIsGood(sec: Section)
    requires SectionFine(sec, 0)
    ensures SingleLines(sec) && StringsSurvive(sec)
    decreases sec
  {
    hide Survives;
    forall i | 0 <= i < |sec.subsections|
      ensures SingleLines(sec.subsections[i]) && StringsSurvive(sec.subsections[i])
    {
      FineIsGood(sec.subsections[i]);
    }
  }

  /** The YAML round trip, exactly, for every model: printing it and parsing the text gives the same
      model back, up to `numbered = false`, if and only if the model is not empty, is valid, and each
      of its texts is a single line that survives. */
  lemma {:induction false} YamlRoundTripExactly(secs: seq<Section>)
    ensures FromYaml(ToYaml(secs)) == Ok(ForgetAll(secs))
       <==> secs != [] && IsValidModel(secs)
            && forall i :: 0 <= i < |secs| ==> SingleLines(secs[i]) && StringsSurvive(secs[i])
  {
    hide FromYaml, ToYaml, SingleLines, StringsSurvive, IsValidModel, SectionFine, ModelBound;
    if secs == [] {
      EmptyModelFails();
    } else if FromYaml(ToYaml(secs)) == Ok(ForgetAll(secs)) {
      ModelBounded(secs, ModelBound(secs));
      SameIsGood(secs, ModelBound(secs));
      forall i | 0 <= i < |secs|
        ensures SingleLines(secs[i]) && StringsSurvive(secs[i])
      {
        FineIsGood(secs[i]);
      }
      YamlRoundTripsModel(secs);
    } else if forall i :: 0 <= i < |secs| ==> SingleLines(secs[i]) {
      YamlRoundTripsModel(secs);
    }
  }
}
