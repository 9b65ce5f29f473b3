/** Round trips of the Prompt Object Model through JSON and through YAML. */
module PomRoundTrip {
  import opened Json
  import opened Text
  import opened YamlText
  import opened YamlScalar
  import opened YamlWriter
  import Reader = YamlReader
  import opened YamlLineProofs
  import opened YamlScalarProofs
  import opened YamlRoundTrip
  import opened Pom
  import opened Utf8

  // ------------------------------------------------------------------ what is preserved

  /** `numbered = false` is not printed, so it reads back as unset. */
  function Forget(sec: Section): Section
    decreases sec, 1
  {
    sec.(subsections := ForgetAll(sec.subsections),
         numbered := if sec.numbered == Some(true) then Some(true) else None)
  }

  function ForgetAll(secs: seq<Section>): (r: seq<Section>)
    ensures |r| == |secs|
    decreases secs, 0
  {
    if secs == [] then [] else [Forget(secs[0])] + ForgetAll(secs[1..])
  }

  predicate HasContent(sec: Section) {
    sec.body != "" || sec.bullets != [] || sec.subsections != []
  }

  /** The documented shape of a section: content, and titles on all subsections. */
  predicate IsValid(sec: Section, isSubsection: bool)
    decreases sec
  {
    HasContent(sec) && (isSubsection ==> sec.title.Some?)
    && forall i :: 0 <= i < |sec.subsections| ==> IsValid(sec.subsections[i], true)
  }

  /** A valid model; only its first section may go without a title. */
  predicate IsValidModel(secs: seq<Section>) {
    forall i :: 0 <= i < |secs| ==> IsValid(secs[i], false) && (i > 0 ==> secs[i].title.Some?)
  }

  // ------------------------------------------------------------------ looking members up

  lemma {:induction false} LookupConcat(a: seq<Field>, b: seq<Field>, key: string)
    ensures Lookup(a + b, key) == if Contains(a, key) then Lookup(a, key) else Lookup(b, key)
  {
    var k, ka, kb := IndexOf(a + b, key), IndexOf(a, key), IndexOf(b, key);
    assert forall i :: 0 <= i < |a| ==> (a + b)[i] == a[i];
    assert forall i :: 0 <= i < |b| ==> (a + b)[|a| + i] == b[i];
    if ka < |a| {
      assert k == ka;
    } else if kb < |b| {
      assert (a + b)[|a| + kb].key == key;
      assert k == |a| + kb;
    } else {
      assert k == |a + b|;
    }
  }

  lemma {:induction false} LookupOpt(key: string, v: Option<Json>, other: string)
    ensures Lookup(Opt(key, v), key) == v
    ensures other != key ==> Lookup(Opt(key, v), other) == None
  {
  }

  /** Each member of a printed section is found under its own key. */
  lemma {:induction false} MembersLookup(t: Option<Json>, b: Option<Json>, bl: Option<Json>, su: Option<Json>,
                                         n: Option<Json>, nb: Option<Json>)
    ensures var f := Members(t, b, bl, su, n, nb);
            Lookup(f, "title") == t && Lookup(f, "body") == b && Lookup(f, "bullets") == bl
            && Lookup(f, "subsections") == su && Lookup(f, "numbered") == n && Lookup(f, "numberedBullets") == nb
  {
    MemberLookup(t, b, bl, su, n, nb, "title");
    MemberLookup(t, b, bl, su, n, nb, "body");
    MemberLookup(t, b, bl, su, n, nb, "bullets");
    MemberLookup(t, b, bl, su, n, nb, "subsections");
    MemberLookup(t, b, bl, su, n, nb, "numbered");
    MemberLookup(t, b, bl, su, n, nb, "numberedBullets");
  }

  lemma {:induction false} MemberLookup(t: Option<Json>, b: Option<Json>, bl: Option<Json>, su: Option<Json>,
                                        n: Option<Json>, nb: Option<Json>, key: string)
    ensures Lookup(Members(t, b, bl, su, n, nb), key)
         == if key == "title" then t else if key == "body" then b else if key == "bullets" then bl
            else if key == "subsections" then su else if key == "numbered" then n
            else if key == "numberedBullets" then nb else None
  {
    hide IndexOf, Opt;
    var p1 := Opt("title", t);
    var p2 := p1 + Opt("body", b);
    var p3 := p2 + Opt("bullets", bl);
    var p4 := p3 + Opt("subsections", su);
    var p5 := p4 + Opt("numbered", n);
    LookupConcat(p5, Opt("numberedBullets", nb), key);
    LookupConcat(p4, Opt("numbered", n), key);
    LookupConcat(p3, Opt("subsections", su), key);
    LookupConcat(p2, Opt("bullets", bl), key);
    LookupConcat(p1, Opt("body", b), key);
    LookupOpt("title", t, key);
    LookupOpt("body", b, key);
    LookupOpt("bullets", bl, key);
    LookupOpt("subsections", su, key);
    LookupOpt("numbered", n, key);
    LookupOpt("numberedBullets", nb, key);
  }

  // ------------------------------------------------------------------ the JSON normal form

  lemma {:induction false} AsStringsOf(bs: seq<string>)
    ensures AsStrings(Strings(bs)) == Some(bs)
  {
    if bs != [] {
      AsStringsOf(bs[1..]);
      assert Strings(bs)[1..] == Strings(bs[1..]);
      assert [bs[0]] + bs[1..] == bs;
    }
  }

  /** What reading back one printed section gives, valid or not. */
  lemma {:induction false} SectionReadsBack(sec: Section, isSubsection: bool)
    ensures var r := SectionOf(JObject(SectionFields(sec)), isSubsection);
            if IsValid(sec, isSubsection) then r == Ok(Forget(sec)) else r.Err?
    decreases sec, 1
  {
    hide Lookup, Members, Sections, SectionObjects;
    MembersLookup(Present(sec.title.Some?, JString(sec.title.GetOr(""))),
                  Present(sec.body != "", JString(sec.body)),
                  Present(sec.bullets != [], JArray(Strings(sec.bullets))),
                  Present(sec.subsections != [], JArray(SectionObjects(sec.subsections))),
                  Present(sec.numbered == Some(true), JBool(true)),
                  Present(sec.numberedBullets, JBool(true)));
    AsStringsOf(sec.bullets);
    SectionsReadBack(sec.subsections);
  }

  lemma {:induction false} SectionsReadBack(secs: seq<Section>)
    ensures var r := Sections(SectionObjects(secs));
            if forall i :: 0 <= i < |secs| ==> IsValid(secs[i], true) then r == Ok(ForgetAll(secs)) else r.Err?
    decreases secs, 0
  {
    hide SectionOf, SectionFields, Forget, IsValid;
    if secs != [] {
      SectionReadsBack(secs[0], true);
      SectionsReadBack(secs[1..]);
      assert SectionObjects(secs)[1..] == SectionObjects(secs[1..]);
      assert forall i :: 1 <= i < |secs| ==> secs[i] == secs[1..][i - 1];
    }
  }

  /** The dictionaries of a model read back as the same model up to `numbered = false` if and only
      if the model is valid. */
  lemma {:induction false} FormReadsBack(secs: seq<Section>)
    ensures FromJson(Ordered(secs)) == Ok(ForgetAll(secs)) <==> IsValidModel(secs)
  {
    TopReadsBack(secs, true);
  }

  predicate TopValid(secs: seq<Section>, first: bool) {
    forall i :: 0 <= i < |secs| ==> IsValid(secs[i], false) && (i > 0 || !first ==> secs[i].title.Some?)
  }

  lemma {:induction false} TopReadsBack(secs: seq<Section>, first: bool)
    ensures TopSections(SectionObjects(secs), first) == Ok(ForgetAll(secs)) <==> TopValid(secs, first)
  {
    hide SectionOf, SectionFields, Forget, IsValid, WithTitle;
    if secs != [] {
      var d := JObject(SectionFields(secs[0]));
      HeadReadsBack(secs[0], first);
      TopReadsBack(secs[1..], false);
      assert SectionObjects(secs)[1..] == SectionObjects(secs[1..]);
      assert forall i :: 1 <= i < |secs| ==> secs[i] == secs[1..][i - 1];
      SameHeadAndTail(Forget(secs[0]), ForgetAll(secs[1..]));
    }
  }

  lemma {:induction false} SameHeadAndTail(a: Section, s: seq<Section>)
    ensures forall b: Section, t: seq<Section> :: [b] + t == [a] + s ==> b == a && t == s
  {
    forall b: Section, t: seq<Section> | [b] + t == [a] + s
      ensures b == a && t == s
    {
      assert ([b] + t)[0] == ([a] + s)[0] && ([b] + t)[1..] == ([a] + s)[1..];
    }
  }

  lemma {:induction false} HeadReadsBack(sec: Section, first: bool)
    ensures SectionOf(WithTitle(JObject(SectionFields(sec)), first), false) == Ok(Forget(sec))
       <==> IsValid(sec, false) && (!first ==> sec.title.Some?)
  {
    hide SectionOf, IsValid, IndexOf, Members;
    var d := JObject(SectionFields(sec));
    TitlePresent(sec);
    if first || sec.title.Some? {
      SectionReadsBack(sec, false);
    } else {
      TitleKept(WithTitle(d, first));
    }
  }

  lemma {:induction false} TitlePresent(sec: Section)
    ensures Contains(SectionFields(sec), "title") <==> sec.title.Some?
  {
    hide Members;
    MemberLookup(Present(sec.title.Some?, JString(sec.title.GetOr(""))),
                 Present(sec.body != "", JString(sec.body)),
                 Present(sec.bullets != [], JArray(Strings(sec.bullets))),
                 Present(sec.subsections != [], JArray(SectionObjects(sec.subsections))),
                 Present(sec.numbered == Some(true), JBool(true)),
                 Present(sec.numberedBullets, JBool(true)), "title");
  }

  /** A dictionary with a title never reads as an untitled section. */
  lemma {:induction false} TitleKept(d: Json)
    requires d.JObject? && Contains(d.fields, "title")
    ensures SectionOf(d, false).Ok? ==> SectionOf(d, false).value.title.Some?
  {
    hide IndexOf;
  }

  // ------------------------------------------------------------------ through printed JSON

  /** All texts of a section are UTF-8. */
  predicate IsText(sec: Section)
    decreases sec
  {
    (sec.title.Some? ==> IsUtf8(sec.title.value)) && IsUtf8(sec.body)
    && (forall i :: 0 <= i < |sec.bullets| ==> IsUtf8(sec.bullets[i]))
    && forall i :: 0 <= i < |sec.subsections| ==> IsText(sec.subsections[i])
  }

  predicate AreTexts(secs: seq<Section>) {
    forall i :: 0 <= i < |secs| ==> IsText(secs[i])
  }

  lemma {:induction false} DumpableConcat(a: seq<Field>, b: seq<Field>)
    ensures IsDumpable(JObject(a + b)) <==> IsDumpable(JObject(a)) && IsDumpable(JObject(b))
  {
    hide IsUtf8;
    var c := a + b;
    assert forall i :: 0 <= i < |a| ==> c[i] == a[i];
    assert forall i :: 0 <= i < |b| ==> c[|a| + i] == b[i];
  }

  predicate IsDumpableMember(v: Option<Json>) {
    v.Some? ==> IsDumpable(v.value)
  }

  lemma {:induction false} DumpableOpt(key: string, v: Option<Json>)
    requires IsUtf8(key)
    ensures IsDumpable(JObject(Opt(key, v))) <==> IsDumpableMember(v)
  {
    hide IsUtf8;
    if v.Some? { assert Opt(key, v)[0] == Field(key, v.value); }
  }

  lemma {:induction false} AsciiIsUtf8(s: string)
    requires forall i :: 0 <= i < |s| ==> s[i] <= '~'
    ensures IsUtf8(s)
    decreases |s|
  {
    if s != "" {
      assert CharLength(s) == 1;
      AsciiIsUtf8(s[1..]);
    }
  }

  lemma {:induction false} DumpableMembers(t: Option<Json>, b: Option<Json>, bl: Option<Json>, su: Option<Json>,
                                           n: Option<Json>, nb: Option<Json>)
    ensures IsDumpable(JObject(Members(t, b, bl, su, n, nb)))
       <==> IsDumpableMember(t) && IsDumpableMember(b) && IsDumpableMember(bl) && IsDumpableMember(su)
            && IsDumpableMember(n) && IsDumpableMember(nb)
  {
    hide IsDumpable, IsDumpableMember, Opt, IsUtf8;
    KeysAreUtf8();
    var p1 := Opt("title", t);
    var p2 := p1 + Opt("body", b);
    var p3 := p2 + Opt("bullets", bl);
    var p4 := p3 + Opt("subsections", su);
    var p5 := p4 + Opt("numbered", n);
    DumpableConcat(p5, Opt("numberedBullets", nb));
    DumpableConcat(p4, Opt("numbered", n));
    DumpableConcat(p3, Opt("subsections", su));
    DumpableConcat(p2, Opt("bullets", bl));
    DumpableConcat(p1, Opt("body", b));
    DumpableOpt("title", t);
    DumpableOpt("body", b);
    DumpableOpt("bullets", bl);
    DumpableOpt("subsections", su);
    DumpableOpt("numbered", n);
    DumpableOpt("numberedBullets", nb);
  }

  lemma {:induction false} KeysAreUtf8()
    ensures IsUtf8("title") && IsUtf8("body") && IsUtf8("bullets") && IsUtf8("subsections") && IsUtf8("numbered")
    ensures IsUtf8("numberedBullets")
  {
    hide IsUtf8;
    AsciiIsUtf8("title");
    AsciiIsUtf8("body");
    AsciiIsUtf8("bullets");
    AsciiIsUtf8("subsections");
    AsciiIsUtf8("numbered");
    AsciiIsUtf8("numberedBullets");
  }

  lemma {:induction false} DumpableStrings(bs: seq<string>)
    ensures IsDumpable(JArray(Strings(bs))) <==> forall i :: 0 <= i < |bs| ==> IsUtf8(bs[i])
  {
    hide IsUtf8;
    if bs != [] {
      DumpableStrings(bs[1..]);
      DumpableCons(JString(bs[0]), Strings(bs[1..]));
      assert forall i :: 1 <= i < |bs| ==> bs[i] == bs[1..][i - 1];
    }
  }

  lemma {:induction false} DumpableCons(v: Json, more: seq<Json>)
    ensures IsDumpable(JArray([v] + more)) <==> IsDumpable(v) && IsDumpable(JArray(more))
  {
    hide IsUtf8;
    var all := [v] + more;
    assert all[0] == v;
    assert forall i :: 0 <= i < |more| ==> all[i + 1] == more[i];
  }

  lemma {:induction false} DumpableSection(sec: Section)
    ensures IsDumpable(JObject(SectionFields(sec))) <==> IsText(sec)
    decreases sec, 1
  {
    hide IsUtf8, Members, SectionObjects;
    DumpableMembers(Present(sec.title.Some?, JString(sec.title.GetOr(""))),
                    Present(sec.body != "", JString(sec.body)),
                    Present(sec.bullets != [], JArray(Strings(sec.bullets))),
                    Present(sec.subsections != [], JArray(SectionObjects(sec.subsections))),
                    Present(sec.numbered == Some(true), JBool(true)),
                    Present(sec.numberedBullets, JBool(true)));
    DumpableStrings(sec.bullets);
    DumpableSections(sec.subsections);
    AsciiIsUtf8("");
  }

  lemma {:induction false} DumpableSections(secs: seq<Section>)
    ensures IsDumpable(JArray(SectionObjects(secs))) <==> AreTexts(secs)
    decreases secs, 0
  {
    hide IsUtf8, IsText, SectionFields;
    if secs != [] {
      DumpableSection(secs[0]);
      DumpableSections(secs[1..]);
      DumpableCons(JObject(SectionFields(secs[0])), SectionObjects(secs[1..]));
      assert forall i :: 1 <= i < |secs| ==> secs[i] == secs[1..][i - 1];
    }
  }

  /** `from_json(to_dict(p))`. */
  function JsonTrip(secs: seq<Section>): Result<seq<Section>> {
    match ToDict(secs)
    case Ok(data) => FromJson(data)
    case Err(e) => Err(e)
  }

  /** The JSON round trip, exactly: the printed dictionaries read back as the same model up to
      `numbered = false` if and only if the model is valid and all its texts are UTF-8. */
  lemma {:induction false} JsonRoundTrip(secs: seq<Section>)
    ensures JsonTrip(secs) == Ok(ForgetAll(secs)) <==> IsValidModel(secs) && AreTexts(secs)
  {
    hide FromJson, IsValidModel, AreTexts, IsDumpable;
    FormReadsBack(secs);
    DumpableSections(secs);
  }

  /** A second round trip changes nothing. */
  lemma {:induction false} ForgetTwice(secs: seq<Section>)
    ensures ForgetAll(ForgetAll(secs)) == ForgetAll(secs)
    ensures SectionObjects(ForgetAll(secs)) == SectionObjects(secs)
    decreases secs
  {
    if secs != [] {
      var s := secs[0];
      ForgetTwice(s.subsections);
      ForgetTwice(secs[1..]);
      assert ForgetAll(secs)[1..] == ForgetAll(secs[1..]);
    }
  }

  // ------------------------------------------------------------------ YAML

  predicate IsLine(s: string) {
    '\n' !in s
  }

  /** Titles, bodies and bullets are single lines, as the YAML shape assumes. */
  predicate SingleLines(sec: Section)
    decreases sec
  {
    (sec.title.Some? ==> IsLine(sec.title.value)) && IsLine(sec.body)
    && (forall i :: 0 <= i < |sec.bullets| ==> IsLine(sec.bullets[i]))
    && (forall i :: 0 <= i < |sec.subsections| ==> SingleLines(sec.subsections[i]))
  }

  /** Every title, body and bullet survives the scalar layer. */
  predicate StringsSurvive(sec: Section)
    decreases sec
  {
    (sec.title.Some? ==> Survives(sec.title.value)) && (sec.body != "" ==> Survives(sec.body))
    && (forall i :: 0 <= i < |sec.bullets| ==> Survives(sec.bullets[i]))
    && (forall i :: 0 <= i < |sec.subsections| ==> StringsSurvive(sec.subsections[i]))
  }

  function ToYaml(secs: seq<Section>): string {
    YamlDocument(Ordered(secs))
  }

  function FromYaml(text: string): Result<seq<Section>> {
    match Reader.YamlValue(text)
    case Success(v) => FromJson(v)
    case Failure(_) => Err(MalformedYaml)
  }

  // ------------------------------------------------------------------ the printed value

  lemma {:induction false} KeysSnoc(a: seq<Field>, key: string, v: Option<Json>)
    requires DistinctKeys(a) && !Contains(a, key)
    ensures DistinctKeys(a + Opt(key, v))
  {
    assert forall i :: 0 <= i < |a| ==> (a + Opt(key, v))[i] == a[i];
  }

  predicate IsMember(f: Field, t: Option<Json>, b: Option<Json>, bl: Option<Json>, su: Option<Json>,
                     n: Option<Json>, nb: Option<Json>)
  {
    IsPlainKey(f.key)
    && (Some(f.value) == t || Some(f.value) == b || Some(f.value) == bl || Some(f.value) == su
        || Some(f.value) == n || Some(f.value) == nb)
  }

  lemma {:induction false} MembersShape(t: Option<Json>, b: Option<Json>, bl: Option<Json>, su: Option<Json>,
                                        n: Option<Json>, nb: Option<Json>)
    ensures DistinctKeys(Members(t, b, bl, su, n, nb))
    ensures forall f :: f in Members(t, b, bl, su, n, nb) ==> IsMember(f, t, b, bl, su, n, nb)
  {
    hide Contains, Opt, DistinctKeys;
    var p1 := Opt("title", t);
    var p2 := p1 + Opt("body", b);
    var p3 := p2 + Opt("bullets", bl);
    var p4 := p3 + Opt("subsections", su);
    var p5 := p4 + Opt("numbered", n);
    PrefixKeys(t, b, bl, su, n);
    assert DistinctKeys(p1) by { OneKey("title", t); }
    KeysSnoc(p1, "body", b);
    KeysSnoc(p2, "bullets", bl);
    KeysSnoc(p3, "subsections", su);
    KeysSnoc(p4, "numbered", n);
    KeysSnoc(p5, "numberedBullets", nb);
    PlainKeys();
    forall f | f in Members(t, b, bl, su, n, nb)
      ensures IsMember(f, t, b, bl, su, n, nb)
    {
      InOpt(f, "title", t);
      InOpt(f, "body", b);
      InOpt(f, "bullets", bl);
      InOpt(f, "subsections", su);
      InOpt(f, "numbered", n);
      InOpt(f, "numberedBullets", nb);
    }
  }

  lemma {:induction false} OneKey(key: string, v: Option<Json>)
    ensures DistinctKeys(Opt(key, v))
  {
  }

  lemma {:induction false} InOpt(f: Field, key: string, v: Option<Json>)
    ensures f in Opt(key, v) ==> f.key == key && Some(f.value) == v
  {
  }

  lemma {:induction false} PlainKeys()
    ensures IsPlainKey("title") && IsPlainKey("body") && IsPlainKey("bullets")
    ensures IsPlainKey("subsections") && IsPlainKey("numbered") && IsPlainKey("numberedBullets")
  {
  }

  /** No member's key occurs among the members before it. */
  lemma {:induction false} PrefixKeys(
    t: Option<Json>, b: Option<Json>, bl: Option<Json>, su: Option<Json>, n: Option<Json>)
    ensures var p1 := Opt("title", t); var p2 := p1 + Opt("body", b); var p3 := p2 + Opt("bullets", bl);
            var p4 := p3 + Opt("subsections", su); var p5 := p4 + Opt("numbered", n);
            !Contains(p1, "body") && !Contains(p2, "bullets") && !Contains(p3, "subsections")
            && !Contains(p4, "numbered") && !Contains(p5, "numberedBullets")
  {
    hide Opt, Contains;
    PrefixKey(t, b, bl, su, n, "body");
    PrefixKey(t, b, bl, su, n, "bullets");
    PrefixKey(t, b, bl, su, n, "subsections");
    PrefixKey(t, b, bl, su, n, "numbered");
    PrefixKey(t, b, bl, su, n, "numberedBullets");
  }

  lemma {:induction false} PrefixKey(t: Option<Json>, b: Option<Json>, bl: Option<Json>, su: Option<Json>,
                                     n: Option<Json>,
                                     key: string)
    ensures var p1 := Opt("title", t); var p2 := p1 + Opt("body", b); var p3 := p2 + Opt("bullets", bl);
            var p4 := p3 + Opt("subsections", su); var p5 := p4 + Opt("numbered", n);
            (key != "title" ==> !Contains(p1, key))
            && (key != "title" && key != "body" ==> !Contains(p2, key))
            && (key != "title" && key != "body" && key != "bullets" ==> !Contains(p3, key))
            && (key != "title" && key != "body" && key != "bullets" && key != "subsections" ==> !Contains(p4, key))
            && (key != "title" && key != "body" && key != "bullets" && key != "subsections" && key != "numbered"
                ==> !Contains(p5, key))
  {
    hide Opt, IndexOf;
    var p1 := Opt("title", t);
    var p2 := p1 + Opt("body", b);
    var p3 := p2 + Opt("bullets", bl);
    var p4 := p3 + Opt("subsections", su);
    LookupConcat(p4, Opt("numbered", n), key);
    LookupConcat(p3, Opt("subsections", su), key);
    LookupConcat(p2, Opt("bullets", bl), key);
    LookupConcat(p1, Opt("body", b), key);
    LookupOpt("title", t, key);
    LookupOpt("body", b, key);
    LookupOpt("bullets", bl, key);
    LookupOpt("subsections", su, key);
    LookupOpt("numbered", n, key);
  }

  lemma {:induction false} StringsWritable(bs: seq<string>)
    requires forall i :: 0 <= i < |bs| ==> IsLine(bs[i])
    ensures forall i :: 0 <= i < |bs| ==> Strings(bs)[i] == JString(bs[i]) && IsWritable(Strings(bs)[i])
  {
    if bs != [] {
      StringsWritable(bs[1..]);
      assert Strings(bs)[1..] == Strings(bs[1..]);
    }
  }

  lemma {:induction false} SectionWritable(sec: Section)
    requires SingleLines(sec)
    ensures IsWritable(JObject(SectionFields(sec)))
    decreases sec, 1
  {
    hide Members, IsPlainKey, DistinctKeys;
    var t := Present(sec.title.Some?, JString(sec.title.GetOr("")));
    var b := Present(sec.body != "", JString(sec.body));
    var bl := Present(sec.bullets != [], JArray(Strings(sec.bullets)));
    var su := Present(sec.subsections != [], JArray(SectionObjects(sec.subsections)));
    var n := Present(sec.numbered == Some(true), JBool(true));
    var nb := Present(sec.numberedBullets, JBool(true));
    StringsWritable(sec.bullets);
    SectionsWritable(sec.subsections);
    MembersShape(t, b, bl, su, n, nb);
    assert forall f :: f in Members(t, b, bl, su, n, nb) ==> IsWritable(f.value);
    WritableObject(Members(t, b, bl, su, n, nb));
  }

  lemma {:induction false} WritableObject(fields: seq<Field>)
    requires DistinctKeys(fields) && forall f :: f in fields ==> IsPlainKey(f.key) && IsWritable(f.value)
    ensures IsWritable(JObject(fields))
  {
  }

  lemma {:induction false} SectionsWritable(secs: seq<Section>)
    requires forall i :: 0 <= i < |secs| ==> SingleLines(secs[i])
    ensures forall i :: 0 <= i < |secs| ==> IsWritable(SectionObjects(secs)[i]) && SectionObjects(secs)[i].JObject?
    decreases secs, 0
  {
    hide SectionFields, SingleLines;
    if secs != [] {
      SectionWritable(secs[0]);
      SectionsWritable(secs[1..]);
      assert SectionObjects(secs)[1..] == SectionObjects(secs[1..]);
    }
  }

  // ------------------------------------------------------------------ reading the printed value

  function RereadOpt(v: Option<Json>): Option<Json> {
    if v.Some? then Some(Reread(v.value)) else None
  }

  lemma {:induction false} RereadConcat(a: seq<Field>, b: seq<Field>)
    ensures RereadFields(a + b) == RereadFields(a) + RereadFields(b)
  {
    hide Reread;
    if a == [] {
      assert a + b == b;
    } else {
      assert (a + b)[1..] == a[1..] + b;
      RereadConcat(a[1..], b);
    }
  }

  lemma {:induction false} RereadOne(key: string, v: Option<Json>)
    ensures RereadFields(Opt(key, v)) == Opt(key, RereadOpt(v))
  {
    hide Reread;
    if v.Some? { assert Opt(key, v)[1..] == []; }
  }

  lemma {:induction false} RereadMembers(t: Option<Json>, b: Option<Json>, bl: Option<Json>, su: Option<Json>,
                                         n: Option<Json>, nb: Option<Json>)
    ensures RereadFields(Members(t, b, bl, su, n, nb))
         == Members(RereadOpt(t), RereadOpt(b), RereadOpt(bl), RereadOpt(su), RereadOpt(n), RereadOpt(nb))
  {
    hide Reread, RereadFields, RereadOpt, Opt;
    var p1 := Opt("title", t);
    var p2 := p1 + Opt("body", b);
    var p3 := p2 + Opt("bullets", bl);
    var p4 := p3 + Opt("subsections", su);
    var p5 := p4 + Opt("numbered", n);
    RereadConcat(p5, Opt("numberedBullets", nb));
    RereadConcat(p4, Opt("numbered", n));
    RereadConcat(p3, Opt("subsections", su));
    RereadConcat(p2, Opt("bullets", bl));
    RereadConcat(p1, Opt("body", b));
    RereadOne("title", t);
    RereadOne("body", b);
    RereadOne("bullets", bl);
    RereadOne("subsections", su);
    RereadOne("numbered", n);
    RereadOne("numberedBullets", nb);
  }

  /** Bullets read back exactly when each of them survives. */
  lemma {:induction false} BulletsReadBack(bs: seq<string>)
    ensures AsStrings(RereadItems(Strings(bs))) == Some(bs) <==> forall i :: 0 <= i < |bs| ==> Survives(bs[i])
  {
    hide ItemOf, Clean, ScalarText, Survives;
    if bs != [] {
      ItemReadsBack(bs[0]);
      BulletsReadBack(bs[1..]);
      var r := RereadItems(Strings(bs));
      assert Strings(bs)[1..] == Strings(bs[1..]);
      assert r[0] == ItemOf(Clean(ScalarText(JString(bs[0])))) && r[1..] == RereadItems(Strings(bs[1..]));
      assert forall i :: 1 <= i < |bs| ==> bs[i] == bs[1..][i - 1];
      assert forall x: string, s: seq<string> {:trigger [x] + s} :: [x] + s == bs ==> x == bs[0] && s == bs[1..] by {
        forall x: string, s: seq<string> | [x] + s == bs
          ensures x == bs[0] && s == bs[1..]
        {
          assert ([x] + s)[1..] == s;
        }
      }
      assert [bs[0]] + bs[1..] == bs;
    }
  }

  lemma {:induction false} EmptySectionIsNoDictionary()
    ensures !RereadItem(JObject([])).JObject?
  {
    hide Clean;
    InertReads("{}");
    StripRightIs("{}", 2, BlankOrTab);
  }

  /** One section as read from its printed lines: it is the same section, up to
      `numbered = false`, exactly when it is valid and its strings survive. */
  lemma {:induction false} PrintedSection(sec: Section, isSubsection: bool)
    ensures SectionOf(RereadItem(JObject(SectionFields(sec))), isSubsection) == Ok(Forget(sec))
       <==> IsValid(sec, isSubsection) && StringsSurvive(sec)
    decreases sec, 1
  {
    if SectionFields(sec) == [] {
      EmptySectionIsNoDictionary();
      NoFieldsNoContent(sec);
    } else {
      PrintedFields(sec, isSubsection);
    }
  }

  lemma {:induction false} NoFieldsNoContent(sec: Section)
    requires SectionFields(sec) == []
    ensures !HasContent(sec)
  {
    hide SectionObjects, Strings;
  }

  /** The members of a section as read from its printed lines. */
  function RereadSection(sec: Section): seq<Field> {
    Members(Present(sec.title.Some?, Reread(JString(sec.title.GetOr("")))),
            Present(sec.body != "", Reread(JString(sec.body))),
            Present(sec.bullets != [], JArray(RereadItems(Strings(sec.bullets)))),
            Present(sec.subsections != [], JArray(RereadItems(SectionObjects(sec.subsections)))),
            Present(sec.numbered == Some(true), JBool(true)),
            Present(sec.numberedBullets, JBool(true)))
  }

  lemma {:induction false} RereadSectionFields(sec: Section)
    ensures RereadFields(SectionFields(sec)) == RereadSection(sec)
  {
    hide Members, RereadFields, RereadItems, ScalarOf, Clean, ScalarText;
    var t := Present(sec.title.Some?, JString(sec.title.GetOr("")));
    var b := Present(sec.body != "", JString(sec.body));
    var bl := Present(sec.bullets != [], JArray(Strings(sec.bullets)));
    var su := Present(sec.subsections != [], JArray(SectionObjects(sec.subsections)));
    var n := Present(sec.numbered == Some(true), JBool(true));
    var nb := Present(sec.numberedBullets, JBool(true));
    RereadMembers(t, b, bl, su, n, nb);
    ScalarReadsBack(JBool(true));
  }

  /** Building a section from its reread members, member by member. */
  lemma {:induction false} RereadSectionBuilds(sec: Section, isSubsection: bool)
    ensures var title, body := Reread(JString(sec.title.GetOr(""))), Reread(JString(sec.body));
            SectionOf(JObject(RereadSection(sec)), isSubsection) ==
            if sec.title.Some? && !title.JString? then Err(TitleNotAString)
            else SectionFrom(Present(sec.title.Some?, title), Present(sec.body != "", body),
                             RereadItems(Strings(sec.bullets)), sec.subsections != [],
                             Sections(RereadItems(SectionObjects(sec.subsections))),
                             Present(sec.numbered == Some(true), JBool(true)), sec.numberedBullets, isSubsection)
  {
    hide Lookup, Members, SectionFrom, Reread, RereadItem;
    MembersLookup(Present(sec.title.Some?, Reread(JString(sec.title.GetOr("")))),
                  Present(sec.body != "", Reread(JString(sec.body))),
                  Present(sec.bullets != [], JArray(RereadItems(Strings(sec.bullets)))),
                  Present(sec.subsections != [], JArray(RereadItems(SectionObjects(sec.subsections)))),
                  Present(sec.numbered == Some(true), JBool(true)),
                  Present(sec.numberedBullets, JBool(true)));
  }

  lemma {:induction false} TextReadsBack(s: string)
    ensures Reread(JString(s)) == JString(s) <==> Survives(s)
  {
    hide ScalarOf, Clean, ScalarText, Survives;
    StringReadsBack(s);
  }

  lemma {:induction false} PrintedFields(sec: Section, isSubsection: bool)
    ensures SectionOf(JObject(RereadFields(SectionFields(sec))), isSubsection) == Ok(Forget(sec))
       <==> IsValid(sec, isSubsection) && StringsSurvive(sec)
    decreases sec, 0
  {
    hide RereadSection, SectionOf, Sections, Reread, RereadItems, RereadFields;
    hide Survives, AsStrings, SectionFields, ForgetAll;
    RereadSectionFields(sec);
    RereadSectionBuilds(sec, isSubsection);
    TextReadsBack(sec.title.GetOr(""));
    TextReadsBack(sec.body);
    BulletsReadBack(sec.bullets);
    PrintedSections(sec.subsections);
  }

  lemma {:induction false} PrintedSections(secs: seq<Section>)
    ensures Sections(RereadItems(SectionObjects(secs))) == Ok(ForgetAll(secs))
       <==> forall i :: 0 <= i < |secs| ==> IsValid(secs[i], true) && StringsSurvive(secs[i])
    decreases secs, 0
  {
    hide SectionOf, SectionFields, Forget, IsValid, StringsSurvive, RereadItem;
    if secs != [] {
      PrintedSection(secs[0], true);
      PrintedSections(secs[1..]);
      var r := RereadItems(SectionObjects(secs));
      assert SectionObjects(secs)[1..] == SectionObjects(secs[1..]);
      assert r[0] == RereadItem(JObject(SectionFields(secs[0]))) && r[1..] == RereadItems(SectionObjects(secs[1..]));
      assert forall i :: 1 <= i < |secs| ==> secs[i] == secs[1..][i - 1];
      SameHeadAndTail(Forget(secs[0]), ForgetAll(secs[1..]));
    }
  }

  lemma {:induction false} PrintedHead(sec: Section, first: bool)
    ensures SectionOf(WithTitle(RereadItem(JObject(SectionFields(sec))), first), false) == Ok(Forget(sec))
       <==> IsValid(sec, false) && (!first ==> sec.title.Some?) && StringsSurvive(sec)
  {
    hide SectionOf, IsValid, StringsSurvive, IndexOf, RereadItem;
    var d := RereadItem(JObject(SectionFields(sec)));
    PrintedSection(sec, false);
    assert !d.JObject? ==> SectionOf(d, false).Err? by { OnlyDictionaries(d); }
    if WithTitle(d, first) != d {
      TitleKept(WithTitle(d, first));
      PrintedTitle(sec);
    } else if !first && sec.title.None? && d.JObject? {
      PrintedTitle(sec);
    }
  }

  lemma {:induction false} OnlyDictionaries(d: Json)
    ensures !d.JObject? ==> SectionOf(d, false).Err?
  {
  }

  lemma {:induction false} PrintedTitle(sec: Section)
    requires RereadItem(JObject(SectionFields(sec))).JObject?
    ensures Contains(RereadItem(JObject(SectionFields(sec))).fields, "title") <==> sec.title.Some?
  {
    hide Members, Reread, RereadItems, RereadFields, IndexOf;
    if SectionFields(sec) == [] {
      EmptySectionIsNoDictionary();
    } else {
      RereadSectionFields(sec);
      MemberLookup(Present(sec.title.Some?, Reread(JString(sec.title.GetOr("")))),
                   Present(sec.body != "", Reread(JString(sec.body))),
                   Present(sec.bullets != [], JArray(RereadItems(Strings(sec.bullets)))),
                   Present(sec.subsections != [], JArray(RereadItems(SectionObjects(sec.subsections)))),
                   Present(sec.numbered == Some(true), JBool(true)),
                   Present(sec.numberedBullets, JBool(true)), "title");
    }
  }

  lemma {:induction false} PrintedTop(secs: seq<Section>, first: bool)
    ensures TopSections(RereadItems(SectionObjects(secs)), first) == Ok(ForgetAll(secs))
       <==> TopValid(secs, first) && forall i :: 0 <= i < |secs| ==> StringsSurvive(secs[i])
  {
    hide SectionOf, SectionFields, Forget, IsValid, StringsSurvive, RereadItem, WithTitle;
    if secs != [] {
      PrintedHead(secs[0], first);
      PrintedTop(secs[1..], false);
      var r := RereadItems(SectionObjects(secs));
      assert SectionObjects(secs)[1..] == SectionObjects(secs[1..]);
      assert r[0] == RereadItem(JObject(SectionFields(secs[0]))) && r[1..] == RereadItems(SectionObjects(secs[1..]));
      assert forall i :: 1 <= i < |secs| ==> secs[i] == secs[1..][i - 1];
      SameHeadAndTail(Forget(secs[0]), ForgetAll(secs[1..]));
    }
  }

  /** The YAML round trip, exactly.  For every model whose texts are single lines, printing it
      and parsing the text gives the same model back, up to `numbered = false`, if and only if
      the model is not empty, is valid, and none of its unquoted texts has white space at an
      end or a `#` after a blank outside quotes. */
  lemma {:induction false} YamlRoundTripsModel(secs: seq<Section>)
    requires forall i :: 0 <= i < |secs| ==> SingleLines(secs[i])
    ensures FromYaml(ToYaml(secs)) == Ok(ForgetAll(secs))
       <==> secs != [] && IsValidModel(secs) && forall i :: 0 <= i < |secs| ==> StringsSurvive(secs[i])
  {
    hide RereadItems, TopSections, SectionObjects, Reader.YamlValue, YamlDocument;
    if secs == [] {
      EmptyModelFails();
    } else {
      SectionsWritable(secs);
      ReadsBack(Ordered(secs));
      PrintedTop(secs, true);
    }
  }

  lemma {:induction false} EmptyModelFails()
    ensures FromYaml(ToYaml([])) == Err(MalformedYaml)
  {
    hide LinesOf, ColonAt, Clean, Unlines;
    var l := Line(0, "[]");
    assert Printable(l);
    assert ToYaml([]) == Unlines([l]);
    var src := Unlines([l]);
    assert src[0..] == src;
    LinesOfPrinted(src, 0, [l]);
    CleanPlain("[]");
    NoColon("[]", 0, OUTSIDE);
    assert LinesOf(src, 0) == [l];
  }

  lemma {:induction false} CommentDoesNotSurvive()
    ensures !Survives("a #b")
  {
    assert HashAt("a #b", 0, OUTSIDE) == HashAt("a #b", 1, OUTSIDE) == HashAt("a #b", 2, OUTSIDE) == 2;
  }

  /** A concrete loss: the text after ` #` in an unquoted body is dropped as a comment. */
  lemma {:induction false} CommentInBodyIsLost()
    ensures var m := [Section(Some("T"), "a #b", [], [], None, false)];
            IsValidModel(m) && SingleLines(m[0]) && FromYaml(ToYaml(m)) != Ok(ForgetAll(m))
  {
    hide FromYaml, ToYaml, ForgetAll, Survives;
    var m := [Section(Some("T"), "a #b", [], [], None, false)];
    YamlRoundTripsModel(m);
    CommentDoesNotSurvive();
    assert !StringsSurvive(m[0]);
  }
}
