/** Strings that do not survive printing and reading, line breaks included: whatever the reader makes
    of a printed document, each of its strings is one that survives, or weighs less than some string
    of the document that does not.  So a document with such a string never reads back as itself. */
module YamlWeight {
  import opened Json
  import opened Text
  import opened YamlText
  import opened YamlScalar
  import opened YamlReader
  import opened YamlScalarProofs

  // ------------------------------------------------------------------ the weight of a string

  predicate IsQuote(c: char) {
    c == '"' || c == '\''
  }

  /** The number of characters that are no quotes: neither reading nor quoting ever adds any. */
  function Weight(s: string): nat {
    if s == "" then 0 else Weight(s[..|s| - 1]) + if IsQuote(s[|s| - 1]) then 0 else 1
  }

  lemma {:induction false} WeightConcat(a: string, b: string)
    ensures Weight(a + b) == Weight(a) + Weight(b)
    decreases |b|
  {
    if b == "" {
      assert a + b == a;
    } else {
      WeightConcat(a, b[..|b| - 1]);
      assert (a + b)[..|a + b| - 1] == a + b[..|b| - 1];
    }
  }

  lemma {:induction false} WeightSlice(s: string, i: nat, j: nat)
    requires i <= j <= |s|
    ensures Weight(s[i..j]) <= Weight(s)
    ensures Weight(s) == Weight(s[..i]) + Weight(s[i..j]) + Weight(s[j..])
  {
    hide Weight;
    WeightConcat(s[..i], s[i..]);
    WeightConcat(s[i..j], s[j..]);
    assert s == s[..i] + s[i..] && s[i..] == s[i..j] + s[j..];
  }

  lemma {:induction false} WeightOne(c: char)
    ensures Weight([c]) == if IsQuote(c) then 0 else 1
  {
    assert [c][..0] == "";
    assert Weight("") == 0;
  }

  lemma {:induction false} TrimmedWeight(s: string)
    ensures Weight(Trimmed(s)) <= Weight(s)
  {
    hide Weight, SkipForward, SkipBack;
    var i := SkipForward(s, 0, White);
    WeightSlice(s, i, SkipBack(s, i, |s|, White));
  }

  lemma {:induction false} PrefixWeight(s: string, k: nat)
    requires k <= |s|
    ensures Weight(s[..k]) <= Weight(s)
  {
    hide Weight;
    WeightSlice(s, 0, k);
    assert s[0..k] == s[..k];
  }

  lemma {:induction false} SuffixWeight(s: string, k: nat)
    requires k <= |s|
    ensures Weight(s[k..]) <= Weight(s)
  {
    hide Weight;
    WeightSlice(s, k, |s|);
    assert s[k..|s|] == s[k..];
  }

  // ------------------------------------------------------------------ reading never adds weight

  lemma {:induction false} ConsWeight(c: char, s: string)
    ensures Weight([c] + s) == (if IsQuote(c) then 0 else 1) + Weight(s)
  {
    hide Weight;
    WeightOne(c);
    WeightConcat([c], s);
  }

  lemma {:induction false} DropWeight(b: string, i: nat)
    requires i < |b|
    ensures Weight(b[i..]) == (if IsQuote(b[i]) then 0 else 1) + Weight(b[i + 1..])
  {
    hide Weight;
    ConsWeight(b[i], b[i + 1..]);
    assert b[i..] == [b[i]] + b[i + 1..];
  }

  lemma {:induction false} UnescapedWeight(b: string, i: nat)
    requires i <= |b|
    ensures Weight(Unescaped(b, i)) <= Weight(b[i..])
    decreases |b| - i
  {
    hide Weight;
    if i < |b| {
      DropWeight(b, i);
      if b[i] == '\\' && i + 1 < |b| {
        DropWeight(b, i + 1);
        UnescapedWeight(b, i + 2);
        ConsWeight(Escaped(b[i + 1]), Unescaped(b, i + 2));
      } else {
        UnescapedWeight(b, i + 1);
        ConsWeight(b[i], Unescaped(b, i + 1));
      }
    } else {
      assert b[i..] == "" && Unescaped(b, i) == "";
    }
  }

  lemma {:induction false} UndoubledWeight(b: string, i: nat)
    requires i <= |b|
    ensures Weight(Undoubled(b, i)) <= Weight(b[i..])
    decreases |b| - i
  {
    hide Weight;
    if i < |b| {
      DropWeight(b, i);
      if b[i] == '\'' && i + 1 < |b| && b[i + 1] == '\'' {
        DropWeight(b, i + 1);
        UndoubledWeight(b, i + 2);
        ConsWeight('\'', Undoubled(b, i + 2));
      } else {
        UndoubledWeight(b, i + 1);
        ConsWeight(b[i], Undoubled(b, i + 1));
      }
    } else {
      assert b[i..] == "" && Undoubled(b, i) == "";
    }
  }

  lemma {:induction false} InnerWeight(s: string)
    requires |s| >= 2
    ensures Weight(s[1..|s| - 1][0..]) <= Weight(s)
  {
    hide Weight;
    WeightSlice(s, 1, |s| - 1);
    assert s[1..|s| - 1][0..] == s[1..|s| - 1];
  }

  lemma {:induction false} ScalarWeight(x: string)
    ensures ScalarOf(x).JString? ==> Weight(ScalarOf(x).s) <= Weight(Trimmed(x))
  {
    hide Weight, Trimmed, Unescaped, Undoubled, IsInteger, IntegerValue, FitsInt64;
    var s := Trimmed(x);
    if |s| >= 2 {
      InnerWeight(s);
      UnescapedWeight(s[1..|s| - 1], 0);
      UndoubledWeight(s[1..|s| - 1], 0);
    }
  }

  // ------------------------------------------------------------------ fine strings

  /** A single line that survives. */
  predicate IsGood(s: string) {
    Survives(s) && '\n' !in s
  }

  predicate IsFine(s: string, m: nat) {
    IsGood(s) || Weight(s) < m
  }

  /** Every string of the value is fine; keys do not matter. */
  predicate StringsFine(v: Json, m: nat)
    decreases v
  {
    match v
    case JString(s) => IsFine(s, m)
    case JArray(items) => forall i :: 0 <= i < |items| ==> StringsFine(items[i], m)
    case JObject(fields) => forall i :: 0 <= i < |fields| ==> StringsFine(fields[i].value, m)
    case _ => true
  }

  predicate ScalarFine(x: string, m: nat) {
    StringsFine(ScalarOf(x), m)
  }

  /** The value of the entry on a line, if there is one, is fine. */
  predicate EntryFine(text: string, m: nat) {
    var p := ColonAt(text, 0, OUTSIDE);
    p < |text| ==> ScalarFine(text[p + 1..], m)
  }

  /** What an item's text is read as is fine. */
  predicate ItemFine(x: string, m: nat) {
    var first := StripRight(x, BlankOrTab);
    if ColonAt(first, 0, OUTSIDE) == |first| then ScalarFine(x, m) else EntryFine(first, m)
  }

  /** Whatever is read from the line is fine. */
  predicate LineFine(text: string, m: nat) {
    if StartsWithDash(text) then IsItem(text) ==> ItemFine(text[2..], m) else EntryFine(text, m)
  }

  predicate LinesFine(ls: seq<Line>, m: nat) {
    forall i :: 0 <= i < |ls| ==> LineFine(ls[i].text, m)
  }

  predicate ParsedFine(r: Parsed, m: nat) {
    r.Ok? ==> StringsFine(r.value, m) && LinesFine(r.rest, m)
  }

  predicate FieldsFine(fields: seq<Field>, m: nat) {
    forall i :: 0 <= i < |fields| ==> StringsFine(fields[i].value, m)
  }

  predicate ItemsFine(items: seq<Json>, m: nat) {
    forall i :: 0 <= i < |items| ==> StringsFine(items[i], m)
  }

  // ------------------------------------------------------------------ fine lines parse to fine values

  lemma {:induction false} AssignFine(fields: seq<Field>, key: string, v: Json, m: nat)
    requires FieldsFine(fields, m) && StringsFine(v, m)
    ensures FieldsFine(Assign(fields, key, v), m)
  {
    hide StringsFine;
  }

  lemma {:induction false} TailFine(ls: seq<Line>, m: nat)
    requires LinesFine(ls, m) && ls != []
    ensures LineFine(ls[0].text, m) && LinesFine(ls[1..], m)
  {
    hide LineFine;
  }

  lemma {:induction false} EntryValueFine(text: string, p: nat, ls: seq<Line>, indent: nat, m: nat)
    requires p < |text| && ScalarFine(text[p + 1..], m) && LinesFine(ls, m)
    ensures ParsedFine(EntryValue(text, p, ls, indent), m)
    decreases |ls|, 3
  {
    hide ScalarOf, Trimmed, StringsFine, LinesFine, FollowOn;
    ScalarOfTrimmed(text[p + 1..]);
    FollowOnFine(ls, indent, m);
  }

  lemma {:induction false} NullFine(m: nat)
    ensures StringsFine(JNull, m)
  {
  }

  lemma {:induction false} FollowOnFine(ls: seq<Line>, indent: nat, m: nat)
    requires LinesFine(ls, m)
    ensures ParsedFine(FollowOn(ls, indent), m)
    decreases |ls|, 2
  {
    hide StringsFine, LinesFine, Block, Sequence;
    NullFine(m);
    BlockFine(ls, indent, m);
    NoneFine(m);
    if ls != [] && ls[0].indent == indent { SequenceFine(ls, indent, [], m); }
  }

  lemma {:induction false} NoneFine(m: nat)
    ensures ItemsFine([], m) && FieldsFine([], m)
  {
  }

  lemma {:induction false} BlockFine(ls: seq<Line>, parent: nat, m: nat)
    requires LinesFine(ls, m)
    ensures ParsedFine(Block(ls, parent), m)
    decreases |ls|, 1
  {
    hide StringsFine, LinesFine, Mapping, Sequence;
    NullFine(m);
    NoneFine(m);
    if ls != [] {
      SequenceFine(ls, ls[0].indent, [], m);
      MappingFine(ls, ls[0].indent, [], m);
    }
  }

  lemma {:induction false} ArrayFine(acc: seq<Json>, m: nat)
    requires ItemsFine(acc, m)
    ensures StringsFine(JArray(acc), m)
  {
  }

  lemma {:induction false} ObjectFine(acc: seq<Field>, m: nat)
    requires FieldsFine(acc, m)
    ensures StringsFine(JObject(acc), m)
  {
  }

  lemma {:induction false} SequenceFine(ls: seq<Line>, indent: nat, acc: seq<Json>, m: nat)
    requires LinesFine(ls, m) && ItemsFine(acc, m)
    ensures ParsedFine(Sequence(ls, indent, acc), m)
    decreases |ls|, 0
  {
    hide StringsFine, LinesFine, Item, ItemFine;
    ArrayFine(acc, m);
    if ls != [] && ls[0].indent == indent && YamlReader.IsItem(ls[0].text) {
      TailFine(ls, m);
      ItemParsesFine(ls[0].text, ls[1..], indent, m);
      var item := Item(ls[0].text, ls[1..], indent);
      if item.Ok? {
        SequenceFine(item.rest, indent, acc + [item.value], m);
      }
    }
  }

  lemma {:induction false} ItemParsesFine(text: string, ls: seq<Line>, indent: nat, m: nat)
    requires |text| >= 2 && ItemFine(text[2..], m) && LinesFine(ls, m)
    ensures ParsedFine(Item(text, ls, indent), m)
    decreases |ls|, 4
  {
    hide StringsFine, LinesFine, EntryValue, Continuation, ColonAt, StripRight, Trimmed, ScalarOf;
    var first := StripRight(text[2..], BlankOrTab);
    var p := ColonAt(first, 0, OUTSIDE);
    if p < |first| {
      EntryValueFine(first, p, ls, indent + 2, m);
      var v := EntryValue(first, p, ls, indent + 2);
      if v.Ok? {
        OneFieldFine(Trimmed(first[..p]), v.value, m);
        ContinuationFine(v.rest, indent + 2, [Field(Trimmed(first[..p]), v.value)], m);
      }
    }
  }

  lemma {:induction false} OneFieldFine(key: string, v: Json, m: nat)
    requires StringsFine(v, m)
    ensures FieldsFine([Field(key, v)], m)
  {
  }

  lemma {:induction false} ContinuationFine(ls: seq<Line>, indent: nat, acc: seq<Field>, m: nat)
    requires LinesFine(ls, m) && FieldsFine(acc, m)
    ensures ParsedFine(Continuation(ls, indent, acc), m)
    decreases |ls|, 0
  {
    hide StringsFine, LinesFine, FieldsFine, EntryValue, ColonAt, Assign, Trimmed, ScalarFine;
    ObjectFine(acc, m);
    if ls != [] && ls[0].indent == indent && ls[0].text != [] && !StartsWithDash(ls[0].text) {
      var text := ls[0].text;
      var p := ColonAt(text, 0, OUTSIDE);
      TailFine(ls, m);
      if p < |text| {
        EntryValueFine(text, p, ls[1..], indent, m);
        var v := EntryValue(text, p, ls[1..], indent);
        if v.Ok? {
          AssignFine(acc, Trimmed(text[..p]), v.value, m);
          ContinuationFine(v.rest, indent, Assign(acc, Trimmed(text[..p]), v.value), m);
        }
      }
    }
  }

  lemma {:induction false} MappingFine(ls: seq<Line>, indent: nat, acc: seq<Field>, m: nat)
    requires LinesFine(ls, m) && FieldsFine(acc, m)
    ensures ParsedFine(Mapping(ls, indent, acc), m)
    decreases |ls|, 0
  {
    hide StringsFine, LinesFine, FieldsFine, EntryValue, ColonAt, Assign, Trimmed, ScalarFine;
    ObjectFine(acc, m);
    if ls != [] && ls[0].indent == indent && !StartsWithDash(ls[0].text) {
      var text := ls[0].text;
      var p := ColonAt(text, 0, OUTSIDE);
      TailFine(ls, m);
      if p < |text| {
        EntryValueFine(text, p, ls[1..], indent, m);
        var v := EntryValue(text, p, ls[1..], indent);
        if v.Ok? {
          AssignFine(acc, Trimmed(text[..p]), v.value, m);
          MappingFine(v.rest, indent, Assign(acc, Trimmed(text[..p]), v.value), m);
        }
      }
    }
  }

  /** Whatever the document, strings read from fine lines are fine. */
  lemma {:induction false} DocumentFine(ls: seq<Line>, m: nat)
    requires LinesFine(ls, m)
    ensures var r := Document(ls); r.Success? ==> StringsFine(r.value, m)
  {
    hide StringsFine, LinesFine, Mapping, Sequence;
    NoneFine(m);
    ArrayFine([], m);
    if ls != [] {
      SequenceFine(ls, ls[0].indent, [], m);
      MappingFine(ls, ls[0].indent, [], m);
    }
  }
}
