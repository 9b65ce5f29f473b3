/** The structure layer of the round trip: parsing a printed document gives the printed
    value back, up to what reading does to its scalars. */
module YamlRoundTrip {
  import opened Json
  import opened Text
  import opened YamlText
  import opened YamlScalar
  import opened YamlWriter
  import opened YamlReader
  import opened YamlLineProofs
  import opened YamlScalarProofs

  // ------------------------------------------------------------------ the values covered

  predicate IsKeyChar(c: char) {
    'a' <= c <= 'z' || 'A' <= c <= 'Z' || '0' <= c <= '9' || c == '_'
  }

  predicate IsPlainKey(k: string) {
    k != [] && forall c :: c in k ==> IsKeyChar(c)
  }

  /** Values the writer can print line by line: single-line strings, 64-bit integers, plain
      distinct keys, and no non-empty array directly inside an array. */
  predicate IsWritable(v: Json)
    decreases v
  {
    match v
    case JNull => true
    case JBool(_) => true
    case JInt(n) => FitsInt64(n)
    case JString(s) => '\n' !in s
    case JArray(items) =>
      forall i :: 0 <= i < |items| ==> IsWritable(items[i]) && !(items[i].JArray? && items[i].items != [])
    case JObject(fields) =>
      (forall i :: 0 <= i < |fields| ==> IsPlainKey(fields[i].key) && IsWritable(fields[i].value))
      && DistinctKeys(fields)
  }

  predicate DistinctKeys(fields: seq<Field>) {
    forall i, j :: 0 <= i < j < |fields| ==> fields[i].key != fields[j].key
  }

  /** What the reader gets for a printed value: every scalar as its printed line reads. */
  function Reread(v: Json): Json
    decreases v
  {
    if IsNested(v) then
      if v.JArray? then JArray(RereadItems(v.items)) else JObject(RereadFields(v.fields))
    else ScalarOf(Clean(ScalarText(v)))
  }

  function RereadItem(v: Json): Json
    decreases v
  {
    if v.JObject? && v.fields != [] then JObject(RereadFields(v.fields))
    else ItemOf(Clean(ScalarText(v)))
  }

  function RereadItems(items: seq<Json>): (r: seq<Json>)
    ensures |r| == |items|
    decreases items
  {
    if items == [] then [] else [RereadItem(items[0])] + RereadItems(items[1..])
  }

  function RereadFields(fields: seq<Field>): (r: seq<Field>)
    ensures |r| == |fields|
    decreases fields
  {
    if fields == [] then []
    else [Field(fields[0].key, Reread(fields[0].value))] + RereadFields(fields[1..])
  }

  // ------------------------------------------------------------------ keys and entries

  lemma {:induction false} KeyFacts(k: string)
    requires IsPlainKey(k)
    ensures IsInert(k) && k[0] != '-' && k[0] != ' ' && k[0] != '\r' && '\n' !in k
    ensures Trimmed(k) == k
  {
    assert IsKeyChar(k[0]) && IsKeyChar(k[|k| - 1]);
    TrimmedFixed(k);
  }

  lemma {:induction false} KeyColon(k: string, w: string, i: nat)
    requires IsInert(k) && (w == [] || w[0] == ' ') && i <= |k|
    ensures ColonAt(k + ":" + w, i, OUTSIDE) == |k|
    decreases |k| - i
  {
    var s := k + ":" + w;
    if i < |k| {
      assert s[i] == k[i] && k[i] in k;
      KeyColon(k, w, i + 1);
    } else {
      assert s[i] == ':' && (w != [] ==> s[i + 1] == ' ');
    }
  }

  /** The text after `key:` on an entry's first line. */
  function EntryTail(v: Json): string {
    if IsNested(v) then "" else " " + ScalarText(v)
  }

  function EntryRest(v: Json, indent: nat): seq<Line> {
    if !IsNested(v) then []
    else if v.JArray? then ItemLines(v.items, indent)
    else MapLines(v.fields, indent + 2)
  }

  lemma {:induction false} EntryShape(f: Field, indent: nat)
    ensures EntryLines(f, indent) == [Line(indent, f.key + ":" + EntryTail(f.value))] + EntryRest(f.value, indent)
  {
    hide ItemLines, MapLines;
    var key := f.key + ":";
    if IsNested(f.value) {
      assert key + "" == key;
    } else {
      var l := Line(indent, key + (" " + ScalarText(f.value)));
      assert key + " []" == key + (" " + "[]") && key + " {}" == key + (" " + "{}");
      assert key + " " + ScalarText(f.value) == l.text;
      assert [l] + [] == [l];
    }
  }

  /** A printed scalar starts with a character the line reader keeps. */
  lemma {:induction false} ScalarTextStart(v: Json)
    requires !IsNested(v)
    ensures ScalarText(v) != [] && ScalarText(v)[0] != ' ' && ScalarText(v)[0] != '#'
  {
    if v.JInt? { IntegerTextShape(v.n); }
    if v.JString? && !NeedsQuoting(v.s) { PlainStart(v.s); }
  }

  lemma {:induction false} PlainStart(s: string)
    requires !NeedsQuoting(s)
    ensures s != [] && s[0] != ' ' && s[0] != '#'
  {
    assert IsSpecial('#');
  }

  /** Cleaning an entry's first line leaves the key and the colon. */
  lemma {:induction false} CleanEntry(k: string, v: Json)
    requires IsPlainKey(k)
    ensures Clean(k + ":" + EntryTail(v)) == k + ":" + (if IsNested(v) then "" else " " + Clean(ScalarText(v)))
  {
    hide Clean, ScalarText;
    KeyFacts(k);
    if IsNested(v) {
      assert k + ":" + "" == k + ":";
      CleanPlain(k + ":");
    } else {
      ScalarTextStart(v);
      assert k + ":" + (" " + ScalarText(v)) == (k + ": ") + ScalarText(v);
      CleanAfter(k + ": ", ScalarText(v));
      assert (k + ": ") + Clean(ScalarText(v)) == k + ":" + (" " + Clean(ScalarText(v)));
    }
  }

  // ------------------------------------------------------------------ what may come next

  predicate IsBelow(ls: seq<Line>, indent: nat) {
    ls == [] || ls[0].indent < indent
  }

  /** Nothing here continues a value printed at `indent`. */
  predicate EndsValue(ls: seq<Line>, indent: nat) {
    IsBelow(ls, indent) || (ls[0].indent == indent && ls[0].text != [] && !StartsWithDash(ls[0].text))
  }

  lemma {:induction false} CleanedConcat(a: seq<Line>, b: seq<Line>)
    ensures Cleaned(a + b) == Cleaned(a) + Cleaned(b)
  {
    if a == [] {
      assert a + b == b;
    } else {
      assert (a + b)[1..] == a[1..] + b;
      CleanedConcat(a[1..], b);
    }
  }

  lemma {:induction false} NextEntry(fields: seq<Field>, indent: nat, rest: seq<Line>)
    requires forall i :: 0 <= i < |fields| ==> IsPlainKey(fields[i].key)
    requires IsBelow(rest, indent)
    ensures EndsValue(Cleaned(MapLines(fields, indent)) + rest, indent)
  {
    hide Clean;
    if fields != [] {
      var f := fields[0];
      EntryShape(f, indent);
      CleanEntry(f.key, f.value);
      KeyFacts(f.key);
      CleanedConcat(EntryLines(f, indent), MapLines(fields[1..], indent));
    }
  }

  lemma {:induction false} NextItem(items: seq<Json>, indent: nat, rest: seq<Line>)
    requires EndsValue(rest, indent)
    ensures IsBelow(Cleaned(ItemLines(items, indent)) + rest, indent + 2)
  {
  }

  // ------------------------------------------------------------------ parsing printed lines

  /** The value of an entry, whatever precedes its tail on the line. */
  lemma {:induction false} EntryParses(text: string, p: nat, v: Json, indent: nat, rest: seq<Line>)
    requires IsWritable(v) && p < |text| && EndsValue(rest, indent)
    requires Trimmed(text[p + 1..]) == if IsNested(v) then [] else Trimmed(Clean(ScalarText(v)))
    ensures EntryValue(text, p, Cleaned(EntryRest(v, indent)) + rest, indent) == Ok(Reread(v), rest)
    decreases v, 3
  {
    hide Clean, ScalarText, ScalarOf, Trimmed, Sequence, Mapping;
    var ls := Cleaned(EntryRest(v, indent)) + rest;
    if !IsNested(v) {
      assert ls == rest;
      ScalarOfTrimmed(Clean(ScalarText(v)));
    } else if v.JArray? {
      var first := OneItemLines(v.items[0], indent)[0];
      DashLine(v.items[0], indent);
      ItemsFirst(v.items, indent);
      assert ls[0] == Line(indent, Clean(first.text));
      SequenceParses(v.items, indent, rest, []);
      assert [] + RereadItems(v.items) == RereadItems(v.items);
    } else {
      FieldsFirst(v.fields, indent + 2);
      assert ls[0].indent == indent + 2 && ls[0].text != [] && !StartsWithDash(ls[0].text);
      MappingParses(v.fields, indent + 2, rest, []);
      assert [] + RereadFields(v.fields) == RereadFields(v.fields);
      assert FollowOn(ls, indent) == Block(ls, indent);
      assert Block(ls, indent) == Mapping(ls, indent + 2, []);
    }
  }

  lemma {:induction false} ItemsFirst(items: seq<Json>, indent: nat)
    requires items != []
    ensures ItemLines(items, indent)[0] == OneItemLines(items[0], indent)[0]
  {
  }

  lemma {:induction false} FieldsFirst(fields: seq<Field>, indent: nat)
    requires fields != [] && IsPlainKey(fields[0].key)
    ensures var l := Cleaned(MapLines(fields, indent))[0];
            l.indent == indent && l.text != [] && !StartsWithDash(l.text)
  {
    hide Clean;
    var f := fields[0];
    EntryShape(f, indent);
    CleanEntry(f.key, f.value);
    KeyFacts(f.key);
    CleanedConcat(EntryLines(f, indent), MapLines(fields[1..], indent));
  }

  /** An item's first line is `- ` followed by its inline text, before and after cleaning. */
  lemma {:induction false} DashLine(v: Json, indent: nat)
    requires IsWritable(v) && !(v.JArray? && v.items != [])
    ensures var t := InlineText(v);
            (t != [] && t[0] != ' ' && t[0] != '#'
             && OneItemLines(v, indent)[0] == Line(indent, "- " + t)
             && Clean("- " + t) == "- " + Clean(t))
  {
    hide Clean, ScalarText;
    var t := InlineText(v);
    if v.JObject? && v.fields != [] {
      var f := v.fields[0];
      EntryShape(f, indent + 2);
      KeyFacts(f.key);
      assert MapLines(v.fields, indent + 2)[0].text == t;
    } else {
      ScalarTextStart(v);
    }
    CleanAfter("- ", t);
  }

  function InlineText(v: Json): string {
    if v.JObject? && v.fields != [] then v.fields[0].key + ":" + EntryTail(v.fields[0].value)
    else ScalarText(v)
  }

  lemma {:induction false} MappingStep(ls: seq<Line>, indent: nat, acc: seq<Field>, f: Field, tail: seq<Line>, p: nat)
    requires ls != [] && ls[0].indent == indent && !StartsWithDash(ls[0].text)
    requires p == ColonAt(ls[0].text, 0, OUTSIDE) < |ls[0].text| && Trimmed(ls[0].text[..p]) == f.key
    requires EntryValue(ls[0].text, p, ls[1..], indent) == Ok(f.value, tail)
    ensures Mapping(ls, indent, acc) == Mapping(tail, indent, Assign(acc, f.key, f.value))
  {
    hide EntryValue, ColonAt, Trimmed, Assign;
  }

  lemma {:induction false} ContinuationStep(
    ls: seq<Line>, indent: nat, acc: seq<Field>, f: Field, tail: seq<Line>, p: nat)
    requires ls != [] && ls[0].indent == indent && ls[0].text != [] && !StartsWithDash(ls[0].text)
    requires p == ColonAt(ls[0].text, 0, OUTSIDE) < |ls[0].text| && Trimmed(ls[0].text[..p]) == f.key
    requires EntryValue(ls[0].text, p, ls[1..], indent) == Ok(f.value, tail)
    ensures Continuation(ls, indent, acc) == Continuation(tail, indent, Assign(acc, f.key, f.value))
  {
    hide EntryValue, ColonAt, Trimmed, Assign;
  }

  /** The first entry of a printed mapping, in the form the parsing steps ask for. */
  lemma {:induction false} FirstEntry(fields: seq<Field>, indent: nat, rest: seq<Line>)
    returns (ls: seq<Line>, tail: seq<Line>)
    requires fields != [] && IsBelow(rest, indent)
    requires forall i :: 0 <= i < |fields| ==> IsPlainKey(fields[i].key) && IsWritable(fields[i].value)
    ensures ls == Cleaned(MapLines(fields, indent)) + rest
    ensures tail == Cleaned(MapLines(fields[1..], indent)) + rest
    ensures ls != [] && ls[0].indent == indent && ls[0].text != [] && !StartsWithDash(ls[0].text)
    ensures ColonAt(ls[0].text, 0, OUTSIDE) == |fields[0].key| < |ls[0].text|
    ensures Trimmed(ls[0].text[..|fields[0].key|]) == fields[0].key
    ensures EntryValue(ls[0].text, |fields[0].key|, ls[1..], indent) == Ok(Reread(fields[0].value), tail)
    decreases fields, 1
  {
    hide Clean, ScalarText, Trimmed, ColonAt, EntryValue, MapLines, Cleaned;
    hide EntryRest, Reread, EndsValue, EntryText, IsWritable;
    var f := fields[0];
    assert IsPlainKey(f.key) && IsWritable(f.value);
    tail := Cleaned(MapLines(fields[1..], indent)) + rest;
    ls := [Line(indent, EntryText(f))] + (Cleaned(EntryRest(f.value, indent)) + tail);
    EntryStarts(fields, indent, rest);
    EntryTextFacts(f);
    KeyFacts(f.key);
    NextEntry(fields[1..], indent, rest);
    EntryParses(EntryText(f), |f.key|, f.value, indent, tail);
    assert ls[1..] == Cleaned(EntryRest(f.value, indent)) + tail;
  }

  lemma {:induction false} AppendField(acc: seq<Field>, fields: seq<Field>)
    requires fields != []
    ensures acc + [Field(fields[0].key, Reread(fields[0].value))] + RereadFields(fields[1..])
         == acc + RereadFields(fields)
  {
    hide Reread;
    var f := Field(fields[0].key, Reread(fields[0].value));
    assert RereadFields(fields) == [f] + RereadFields(fields[1..]);
  }

  /** A block mapping. */
  lemma {:induction false} MappingParses(fields: seq<Field>, indent: nat, rest: seq<Line>, acc: seq<Field>)
    requires forall i :: 0 <= i < |fields| ==> IsPlainKey(fields[i].key) && IsWritable(fields[i].value)
    requires DistinctKeys(acc + fields) && IsBelow(rest, indent)
    ensures Mapping(Cleaned(MapLines(fields, indent)) + rest, indent, acc)
         == Ok(JObject(acc + RereadFields(fields)), rest)
    decreases fields, 2
  {
    if fields == [] {
      assert Cleaned(MapLines(fields, indent)) + rest == rest && acc + [] == acc;
    } else {
      hide Trimmed, ColonAt, EntryValue, Assign, Mapping, MapLines, Cleaned, RereadFields, Reread;
      var ls, tail := FirstEntry(fields, indent, rest);
      var f := Field(fields[0].key, Reread(fields[0].value));
      MappingStep(ls, indent, acc, f, tail, |f.key|);
      AppendKey(acc, fields, f.value);
      MappingParses(fields[1..], indent, rest, acc + [f]);
      AppendField(acc, fields);
    }
  }

  /** Assigning the next key to the entries read so far appends it. */
  lemma {:induction false} AppendKey(acc: seq<Field>, fields: seq<Field>, v: Json)
    requires fields != [] && DistinctKeys(acc + fields)
    ensures Assign(acc, fields[0].key, v) == acc + [Field(fields[0].key, v)]
    ensures DistinctKeys(acc + [Field(fields[0].key, v)] + fields[1..])
  {
    var k := fields[0].key;
    var a, b := acc + fields, acc + [Field(k, v)] + fields[1..];
    assert forall i :: 0 <= i < |acc| ==> a[i] == acc[i];
    assert a[|acc|].key == k;
    assert forall i :: 0 <= i < |a| ==> b[i].key == a[i].key;
  }

  /** The cleaned text of an entry's first line. */
  function EntryText(f: Field): string {
    f.key + ":" + (if IsNested(f.value) then "" else " " + Clean(ScalarText(f.value)))
  }

  lemma {:induction false} EntryTextFacts(f: Field)
    requires IsPlainKey(f.key)
    ensures var text := EntryText(f);
            (|f.key| < |text| && ColonAt(text, 0, OUTSIDE) == |f.key|
             && text[..|f.key|] == f.key && !StartsWithDash(text)
             && Trimmed(text[|f.key| + 1..]) == if IsNested(f.value) then [] else Trimmed(Clean(ScalarText(f.value))))
  {
    hide Clean, ScalarText, Trimmed, ColonAt;
    var w := if IsNested(f.value) then "" else " " + Clean(ScalarText(f.value));
    KeyFacts(f.key);
    KeyColon(f.key, w, 0);
    assert EntryText(f)[|f.key| + 1..] == w;
    if IsNested(f.value) {
      TrimmedFixed("");
    } else {
      TrimmedAfterBlank(Clean(ScalarText(f.value)));
    }
  }

  /** How the lines of a mapping begin: the first entry's line, then the rest of its value. */
  lemma {:induction false} EntryStarts(fields: seq<Field>, indent: nat, rest: seq<Line>)
    requires fields != [] && IsPlainKey(fields[0].key)
    ensures Cleaned(MapLines(fields, indent)) + rest
         == [Line(indent, EntryText(fields[0]))]
            + (Cleaned(EntryRest(fields[0].value, indent)) + (Cleaned(MapLines(fields[1..], indent)) + rest))
  {
    hide Clean, ScalarText, EntryRest, EntryLines, EntryTail;
    var f := fields[0];
    var first := Line(indent, f.key + ":" + EntryTail(f.value));
    var more, others := EntryRest(f.value, indent), MapLines(fields[1..], indent);
    EntryShape(f, indent);
    assert MapLines(fields, indent) == ([first] + more) + others;
    CleanedConcat([first] + more, others);
    CleanedConcat([first], more);
    CleanEntry(f.key, f.value);
    assert Cleaned([first]) == [Line(indent, EntryText(f))] by { CleanedOne(first); }
    Reassociate([Line(indent, EntryText(f))], Cleaned(more), Cleaned(others), rest);
  }

  lemma {:induction false} CleanedOne(l: Line)
    ensures Cleaned([l]) == [Line(l.indent, Clean(l.text))]
  {
  }

  lemma {:induction false} Reassociate<T>(a: seq<T>, b: seq<T>, c: seq<T>, d: seq<T>)
    ensures a + b + c + d == a + (b + (c + d))
  {
  }

  /** The further entries of an item's inline mapping. */
  lemma {:induction false} ContinuationParses(fields: seq<Field>, indent: nat, rest: seq<Line>, acc: seq<Field>)
    requires forall i :: 0 <= i < |fields| ==> IsPlainKey(fields[i].key) && IsWritable(fields[i].value)
    requires DistinctKeys(acc + fields) && IsBelow(rest, indent)
    ensures Continuation(Cleaned(MapLines(fields, indent)) + rest, indent, acc)
         == Ok(JObject(acc + RereadFields(fields)), rest)
    decreases fields, 2
  {
    if fields == [] {
      assert Cleaned(MapLines(fields, indent)) + rest == rest && acc + [] == acc;
    } else {
      hide Trimmed, ColonAt, EntryValue, Assign, Continuation, MapLines, Cleaned, RereadFields, Reread;
      var ls, tail := FirstEntry(fields, indent, rest);
      var f := Field(fields[0].key, Reread(fields[0].value));
      ContinuationStep(ls, indent, acc, f, tail, |f.key|);
      AppendKey(acc, fields, f.value);
      ContinuationParses(fields[1..], indent, rest, acc + [f]);
      AppendField(acc, fields);
    }
  }

  /** One item, scalar or mapping. */
  lemma {:induction false} ItemParses(v: Json, indent: nat, rest: seq<Line>)
    requires IsWritable(v) && !(v.JArray? && v.items != []) && IsBelow(rest, indent + 2)
    ensures var ls := Cleaned(OneItemLines(v, indent));
            IsItem(ls[0].text) && Item(ls[0].text, ls[1..] + rest, indent) == Ok(RereadItem(v), rest)
    decreases v, 2
  {
    hide Clean, ScalarText, ScalarOf, Trimmed, ColonAt, EntryValue, Continuation, StripRight;
    var ls := Cleaned(OneItemLines(v, indent));
    DashLine(v, indent);
    var c := Clean(InlineText(v));
    assert ls[0].text == "- " + c && ls[0].text[2..] == c;
    if v.JObject? && v.fields != [] {
      InlineMappingParses(v, indent, rest);
    } else {
      assert ls[1..] + rest == rest;
      ScalarItemParses(c, indent, rest);
    }
  }

  lemma {:induction false} ScalarItemParses(c: string, indent: nat, rest: seq<Line>)
    requires IsBelow(rest, indent + 2)
    ensures Item("- " + c, rest, indent) == Ok(ItemOf(c), rest)
  {
    hide ScalarOf, Trimmed, StripRight, ColonAt;
    assert ("- " + c)[2..] == c;
    var first := StripRight(c, BlankOrTab);
    var p := ColonAt(first, 0, OUTSIDE);
    if p < |first| {
      var val := first[p + 1..];
      ScalarOfTrimmed(val);
      assert FollowOn(rest, indent + 2) == Ok(JNull, rest);
      assert EntryValue(first, p, rest, indent + 2) == Ok(ScalarOf(val), rest);
      var m := [Field(Trimmed(first[..p]), ScalarOf(val))];
      assert Continuation(rest, indent + 2, m) == Ok(JObject(m), rest);
    }
  }

  lemma {:induction false} InlineMappingParses(v: Json, indent: nat, rest: seq<Line>)
    requires IsWritable(v) && v.JObject? && v.fields != [] && IsBelow(rest, indent + 2)
    ensures var ls := Cleaned(OneItemLines(v, indent));
            Item("- " + Clean(InlineText(v)), ls[1..] + rest, indent) == Ok(JObject(RereadFields(v.fields)), rest)
    decreases v, 1
  {
    hide Clean, Item, Continuation, Cleaned, MapLines, Reread, RereadFields, IsWritable, OneItemLines, IsPlainKey;
    hide DistinctKeys;
    ObjectWritable(v);
    InlineFirst(v, indent, rest);
    FirstField(v.fields);
    ContinuationParses(v.fields[1..], indent + 2, rest, [Field(v.fields[0].key, Reread(v.fields[0].value))]);
  }

  lemma {:induction false} FirstField(fields: seq<Field>)
    requires fields != [] && DistinctKeys(fields)
    ensures var acc := [Field(fields[0].key, Reread(fields[0].value))];
            DistinctKeys(acc + fields[1..]) && acc + RereadFields(fields[1..]) == RereadFields(fields)
  {
    hide Reread;
    var all := [Field(fields[0].key, Reread(fields[0].value))] + fields[1..];
    assert forall i :: 0 <= i < |fields| ==> all[i].key == fields[i].key;
  }

  /** The inline first entry of an item, which leaves the other entries to the continuation. */
  lemma {:induction false} InlineFirst(v: Json, indent: nat, rest: seq<Line>)
    requires IsWritable(v) && v.JObject? && v.fields != [] && IsBelow(rest, indent + 2)
    requires IsPlainKey(v.fields[0].key)
    ensures Item("- " + Clean(InlineText(v)), Cleaned(OneItemLines(v, indent))[1..] + rest, indent)
         == Continuation(Cleaned(MapLines(v.fields[1..], indent + 2)) + rest, indent + 2,
                         [Field(v.fields[0].key, Reread(v.fields[0].value))])
    decreases v, 0
  {
    hide Clean, Item, ScalarText, Trimmed, ColonAt, EntryValue, Continuation, StripRight, Cleaned;
    hide MapLines, Reread, EntryRest, EndsValue, IsWritable, OneItemLines;
    ObjectWritable(v);
    var f, others := v.fields[0], v.fields[1..];
    var tail := Cleaned(MapLines(others, indent + 2)) + rest;
    var text := EntryText(f);
    OtherLines(v, indent, rest);
    CleanEntry(f.key, f.value);
    var first := StripRight(text, BlankOrTab);
    EntryTextFacts(f);
    StrippedEntry(text, f, first);
    NextEntry(others, indent + 2, rest);
    EntryParses(first, |f.key|, f.value, indent + 2, tail);
    KeyFacts(f.key);
    InlineStep(text, Cleaned(EntryRest(f.value, indent + 2)) + tail, indent, Field(f.key, Reread(f.value)), tail,
               |f.key|);
  }

  lemma {:induction false} InlineStep(text: string, ls: seq<Line>, indent: nat, f: Field, tail: seq<Line>, p: nat)
    requires var first := StripRight(text, BlankOrTab);
             p == ColonAt(first, 0, OUTSIDE) < |first| && Trimmed(first[..p]) == f.key
             && EntryValue(first, p, ls, indent + 2) == Ok(f.value, tail)
    ensures Item("- " + text, ls, indent) == Continuation(tail, indent + 2, [f])
  {
    hide EntryValue, ColonAt, Trimmed, StripRight, Continuation;
    assert ("- " + text)[2..] == text;
  }

  lemma {:induction false} ObjectWritable(v: Json)
    requires IsWritable(v) && v.JObject?
    ensures forall i :: 0 <= i < |v.fields| ==> IsPlainKey(v.fields[i].key) && IsWritable(v.fields[i].value)
    ensures DistinctKeys(v.fields)
  {
  }

  /** The lines of a mapping item after its first. */
  lemma {:induction false} OtherLines(v: Json, indent: nat, rest: seq<Line>)
    requires v.JObject? && v.fields != [] && IsPlainKey(v.fields[0].key)
    ensures Cleaned(OneItemLines(v, indent))[1..] + rest
         == Cleaned(EntryRest(v.fields[0].value, indent + 2)) + (Cleaned(MapLines(v.fields[1..], indent + 2)) + rest)
  {
    hide Clean, Cleaned, MapLines, EntryRest, EntryText, OneItemLines;
    var m, out := MapLines(v.fields, indent + 2), OneItemLines(v, indent);
    EntryStarts(v.fields, indent + 2, rest);
    LaterLines(v, indent);
    SameTail(m, out);
    var all, first := Cleaned(m) + rest, Line(indent + 2, EntryText(v.fields[0]));
    assert all[1..] == Cleaned(m)[1..] + rest;
    var later := Cleaned(EntryRest(v.fields[0].value, indent + 2))
                 + (Cleaned(MapLines(v.fields[1..], indent + 2)) + rest);
    assert ([first] + later)[1..] == later;
  }

  lemma {:induction false} LaterLines(v: Json, indent: nat)
    requires v.JObject? && v.fields != []
    ensures MapLines(v.fields, indent + 2) != []
    ensures OneItemLines(v, indent)[1..] == MapLines(v.fields, indent + 2)[1..]
  {
    hide MapLines;
  }

  lemma {:induction false} SameTail(a: seq<Line>, b: seq<Line>)
    requires a != [] && b != [] && a[1..] == b[1..]
    ensures Cleaned(a)[1..] == Cleaned(b)[1..]
  {
    hide Clean;
  }

  /** Dropping trailing blanks keeps an entry's key, colon and value. */
  lemma {:induction false} StrippedEntry(text: string, f: Field, first: string)
    requires IsPlainKey(f.key) && first == StripRight(text, BlankOrTab)
    requires text == EntryText(f)
    ensures ColonAt(first, 0, OUTSIDE) == |f.key| < |first| && first[..|f.key|] == f.key
    ensures Trimmed(first[|f.key| + 1..]) == Trimmed(text[|f.key| + 1..])
  {
    hide Clean, ScalarText, Trimmed, ColonAt, StripRight;
    var w := if IsNested(f.value) then "" else " " + Clean(ScalarText(f.value));
    var a := f.key + ":";
    StripRightAfter(a, w, BlankOrTab);
    var u := StripRight(w, BlankOrTab);
    KeyFacts(f.key);
    KeyColon(f.key, u, 0);
    assert first == f.key + ":" + u;
    assert first[|f.key| + 1..] == u && text[|f.key| + 1..] == w;
    TrimmedStripped(w, BlankOrTab);
  }

  lemma {:induction false} SequenceStep(ls: seq<Line>, indent: nat, acc: seq<Json>, v: Json, tail: seq<Line>)
    requires ls != [] && ls[0].indent == indent && IsItem(ls[0].text)
    requires Item(ls[0].text, ls[1..], indent) == Ok(v, tail)
    ensures Sequence(ls, indent, acc) == Sequence(tail, indent, acc + [v])
  {
    hide Item;
  }

  lemma {:induction false} NoMoreItems(indent: nat, rest: seq<Line>, acc: seq<Json>)
    requires EndsValue(rest, indent)
    ensures Sequence(Cleaned(ItemLines([], indent)) + rest, indent, acc) == Ok(JArray(acc + RereadItems([])), rest)
  {
    hide Item;
    assert Cleaned(ItemLines([], indent)) + rest == rest && acc + [] == acc;
  }

  /** A block sequence. */
  lemma {:induction false} SequenceParses(items: seq<Json>, indent: nat, rest: seq<Line>, acc: seq<Json>)
    requires forall i :: 0 <= i < |items| ==> IsWritable(items[i]) && !(items[i].JArray? && items[i].items != [])
    requires EndsValue(rest, indent)
    ensures Sequence(Cleaned(ItemLines(items, indent)) + rest, indent, acc)
         == Ok(JArray(acc + RereadItems(items)), rest)
    decreases items, 2
  {
    hide Sequence, Item, Clean, Cleaned, ItemLines, EndsValue, OneItemLines, RereadItem, IsWritable;
    if items == [] {
      NoMoreItems(indent, rest, acc);
    } else {
      var one := Cleaned(OneItemLines(items[0], indent));
      var tail := Cleaned(ItemLines(items[1..], indent)) + rest;
      NextItem(items[1..], indent, rest);
      ItemParses(items[0], indent, tail);
      ItemStarts(items, indent, rest);
      var ls := one + tail;
      assert ls[0] == one[0] && ls[1..] == one[1..] + tail;
      var v := RereadItem(items[0]);
      SequenceStep(ls, indent, acc, v, tail);
      SequenceParses(items[1..], indent, rest, acc + [v]);
      assert RereadItems(items) == [v] + RereadItems(items[1..]);
      assert acc + [v] + RereadItems(items[1..]) == acc + RereadItems(items);
    }
  }

  lemma {:induction false} ItemStarts(items: seq<Json>, indent: nat, rest: seq<Line>)
    requires items != []
    ensures Cleaned(ItemLines(items, indent)) + rest
         == Cleaned(OneItemLines(items[0], indent)) + (Cleaned(ItemLines(items[1..], indent)) + rest)
  {
    hide Clean, OneItemLines;
    CleanedConcat(OneItemLines(items[0], indent), ItemLines(items[1..], indent));
  }

  // ------------------------------------------------------------------ the document

  lemma {:induction false} FieldsPrintable(fields: seq<Field>, indent: nat)
    requires forall i :: 0 <= i < |fields| ==> IsPlainKey(fields[i].key) && IsWritable(fields[i].value)
    ensures forall l :: l in MapLines(fields, indent) ==> Printable(l)
    decreases fields, 1
  {
    if fields != [] {
      EntryPrintable(fields[0], indent);
      FieldsPrintable(fields[1..], indent);
    }
  }

  lemma {:induction false} EntryPrintable(f: Field, indent: nat)
    requires IsPlainKey(f.key) && IsWritable(f.value)
    ensures forall l :: l in EntryLines(f, indent) ==> Printable(l)
    decreases f
  {
    hide ScalarText;
    var v := f.value;
    EntryShape(f, indent);
    KeyFacts(f.key);
    if !IsNested(v) {
      ScalarTextOneLine(v);
    } else if v.JArray? {
      ItemsPrintable(v.items, indent);
    } else {
      FieldsPrintable(v.fields, indent + 2);
    }
  }

  lemma {:induction false} ItemsPrintable(items: seq<Json>, indent: nat)
    requires forall i :: 0 <= i < |items| ==> IsWritable(items[i]) && !(items[i].JArray? && items[i].items != [])
    ensures forall l :: l in ItemLines(items, indent) ==> Printable(l)
    decreases items, 1
  {
    hide ScalarText;
    if items != [] {
      var v := items[0];
      if v.JObject? && v.fields != [] {
        FieldsPrintable(v.fields, indent + 2);
        assert MapLines(v.fields, indent + 2)[0] in MapLines(v.fields, indent + 2);
      } else {
        ScalarTextOneLine(v);
      }
      ItemsPrintable(items[1..], indent);
    }
  }

  lemma {:induction false} ScalarTextOneLine(v: Json)
    requires IsWritable(v) && !IsNested(v)
    ensures '\n' !in ScalarText(v)
  {
    if v.JInt? { IntegerTextShape(v.n); }
    if v.JString? { DoubledNoNewline(v.s); }
  }

  /** Reading any printed document: the parser accepts it and returns the printed value with
      every scalar replaced by what its line reads as. */
  lemma {:induction false} ReadsBack(v: Json)
    requires IsWritable(v) && IsNested(v)
    ensures YamlValue(YamlDocument(v)) == Success(Reread(v))
  {
    hide LinesOf, Cleaned, Sequence, Mapping, Unlines, ItemLines, MapLines, Clean;
    var ls := YamlLines(v);
    var src := Unlines(ls);
    assert src[0..] == src;
    if v.JArray? {
      ItemsPrintable(v.items, 0);
      LinesOfPrinted(src, 0, ls);
      DashLine(v.items[0], 0);
      ItemsFirst(v.items, 0);
      SequenceParses(v.items, 0, [], []);
      assert Cleaned(ls) + [] == Cleaned(ls) && [] + RereadItems(v.items) == RereadItems(v.items);
    } else {
      ObjectWritable(v);
      FieldsPrintable(v.fields, 0);
      LinesOfPrinted(src, 0, ls);
      FieldsFirst(v.fields, 0);
      MappingParses(v.fields, 0, [], []);
      assert [] + v.fields == v.fields;
      assert Cleaned(ls) + [] == Cleaned(ls) && [] + RereadFields(v.fields) == RereadFields(v.fields);
    }
  }

  // ------------------------------------------------------------------ when it is the same value

  /** Every string survives and there is no empty container. */
  predicate AllSurvive(v: Json)
    decreases v
  {
    match v
    case JString(s) => Survives(s)
    case JArray(items) => items != [] && forall i :: 0 <= i < |items| ==> AllSurvive(items[i])
    case JObject(fields) => fields != [] && forall i :: 0 <= i < |fields| ==> AllSurvive(fields[i].value)
    case _ => true
  }

  lemma {:induction false} EmptyContainerChanges(v: Json)
    requires (v.JArray? || v.JObject?) && !IsNested(v)
    ensures Reread(v) != v && RereadItem(v) != v
  {
    hide Clean, Trimmed;
    var t := ScalarText(v);
    InertReads(t);
    StripRightIs(t, |t|, BlankOrTab);
    TrimmedFixed(t);
  }

  lemma {:induction false} SameValue(v: Json)
    requires IsWritable(v)
    ensures Reread(v) == v <==> AllSurvive(v)
    decreases v, 1
  {
    hide Clean, ScalarText, ScalarOf;
    match v {
      case JString(s) => StringReadsBack(s);
      case JArray(items) => if items == [] { EmptyContainerChanges(v); } else { SameItems(items); }
      case JObject(fields) => if fields == [] { EmptyContainerChanges(v); } else { SameFields(fields); }
      case _ => ScalarReadsBack(v);
    }
  }

  lemma {:induction false} SameItem(v: Json)
    requires IsWritable(v) && !(v.JArray? && v.items != [])
    ensures RereadItem(v) == v <==> AllSurvive(v)
    decreases v, 1
  {
    hide Clean, ScalarText, ScalarOf, ItemOf;
    match v {
      case JString(s) => ItemReadsBack(s);
      case JArray(items) => EmptyContainerChanges(v);
      case JObject(fields) => if fields == [] { EmptyContainerChanges(v); } else { SameFields(fields); }
      case _ => ScalarReadsBack(v);
    }
  }

  lemma {:induction false} SameItems(items: seq<Json>)
    requires forall i :: 0 <= i < |items| ==> IsWritable(items[i]) && !(items[i].JArray? && items[i].items != [])
    ensures RereadItems(items) == items <==> forall i :: 0 <= i < |items| ==> AllSurvive(items[i])
    decreases items
  {
    hide RereadItem, AllSurvive, IsWritable;
    if items != [] {
      SameItem(items[0]);
      SameItems(items[1..]);
      SplitAll(items);
      assert items == [items[0]] + items[1..];
    }
  }

  lemma {:induction false} SplitAll(items: seq<Json>)
    requires items != []
    ensures (forall i :: 0 <= i < |items| ==> AllSurvive(items[i]))
        <==> AllSurvive(items[0]) && forall i :: 0 <= i < |items[1..]| ==> AllSurvive(items[1..][i])
  {
    hide AllSurvive;
    if forall i :: 0 <= i < |items[1..]| ==> AllSurvive(items[1..][i]) {
      assert forall i :: 1 <= i < |items| ==> items[i] == items[1..][i - 1];
    }
  }

  lemma {:induction false} SameFields(fields: seq<Field>)
    requires forall i :: 0 <= i < |fields| ==> IsWritable(fields[i].value)
    ensures RereadFields(fields) == fields <==> forall i :: 0 <= i < |fields| ==> AllSurvive(fields[i].value)
    decreases fields
  {
    hide Reread, AllSurvive, IsWritable;
    if fields != [] {
      SameValue(fields[0].value);
      SameFields(fields[1..]);
      if forall i :: 0 <= i < |fields[1..]| ==> AllSurvive(fields[1..][i].value) {
        assert forall i :: 1 <= i < |fields| ==> fields[i] == fields[1..][i - 1];
      }
      assert fields == [fields[0]] + fields[1..];
    }
  }

  /** The round trip, exactly: a printed document reads back as the same value if and only if
      its strings survive and it has no empty array or object. */
  lemma {:induction false} RoundTrip(v: Json)
    requires IsWritable(v) && IsNested(v)
    ensures YamlValue(YamlDocument(v)) == Success(v) <==> AllSurvive(v)
  {
    hide YamlValue, YamlDocument, Reread;
    ReadsBack(v);
    SameValue(v);
  }
}
