/** What a reader of the printed YAML sees, line by line, and that it is the value. */
module YamlOutline {
  import opened Json
  import opened Numerals
  import opened Text
  import opened TextLines
  import YamlText
  import opened YamlScalar
  import opened YamlWriter

  // ------------------------------------------------------------------ reading a line

  /** A line: its blanks, whether an item begins there, the key and the value it has. */
  datatype Row = Row(blanks: nat, dash: bool, key: Option<string>, value: Option<Json>)

  /** A text with its doubled single quotes halved. */
  function Halved(s: string): string {
    if |s| >= 2 && s[0] == '\'' && s[1] == '\'' then "'" + Halved(s[2..])
    else if s == "" then ""
    else [s[0]] + Halved(s[1..])
  }

  predicate AreDigits(s: string) {
    s != "" && forall i :: 0 <= i < |s| ==> '0' <= s[i] <= '9'
  }

  function ReadScalar(t: string): Json {
    if |t| >= 2 && t[0] == '\'' && t[|t| - 1] == '\'' then JString(Halved(t[1..|t| - 1]))
    else if t == "null" then JNull
    else if t == "true" then JBool(true)
    else if t == "false" then JBool(false)
    else if t == "[]" then JArray([])
    else if t == "{}" then JObject([])
    else if AreDigits(t) then JInt(Decimal(t))
    else if t != "" && t[0] == '-' && AreDigits(t[1..]) then JInt(-(Decimal(t[1..]) as int))
    else JString(t)
  }

  /** The first colon at the end or before a blank, or the length. */
  function KeyEnd(s: string): (k: nat)
    ensures k <= |s|
  {
    if s == "" then 0
    else if s[0] == ':' && (|s| == 1 || s[1] == ' ') then 0
    else 1 + KeyEnd(s[1..])
  }

  function ReadEntry(blanks: nat, dash: bool, s: string): Row {
    var k := KeyEnd(s);
    if k == |s| || s[0] == '\'' then Row(blanks, dash, None, Some(ReadScalar(s)))
    else Row(blanks, dash, Some(s[..k]), if k + 1 == |s| then None else Some(ReadScalar(s[k + 2..])))
  }

  function Blanks(s: string): (k: nat)
    ensures k <= |s|
  {
    if s != "" && s[0] == ' ' then 1 + Blanks(s[1..]) else 0
  }

  function ReadRow(line: string): Row {
    var n := Blanks(line);
    var s := line[n..];
    if s == "-" then Row(n, true, None, None)
    else if |s| >= 2 && s[..2] == "- " then ReadEntry(n, true, s[2..])
    else ReadEntry(n, false, s)
  }

  // ------------------------------------------------------------------ the rows of a value

  /** The fields of a mapping: a key with its value, or with the fields or items below. */
  function EntryRows(f: Field, n: nat): seq<Row>
    decreases f
  {
    match f.value
    case JObject(fields) =>
      if fields == [] then [Row(n, false, Some(f.key), Some(JObject([])))]
      else [Row(n, false, Some(f.key), None)] + MapRows(fields, n + 2)
    case JArray(items) =>
      if items == [] then [Row(n, false, Some(f.key), Some(JArray([])))]
      else [Row(n, false, Some(f.key), None)] + ItemRows(items, n)
    case v => [Row(n, false, Some(f.key), Some(v))]
  }

  function MapRows(fields: seq<Field>, n: nat): (rows: seq<Row>)
    ensures fields != [] ==> rows != []
    decreases fields
  {
    if fields == [] then [] else EntryRows(fields[0], n) + MapRows(fields[1..], n)
  }

  /** One item: a dash before the first field of a mapping, before a value, or above further items. */
  function OneItemRows(v: Json, n: nat): seq<Row>
    decreases v
  {
    if v.JObject? && v.fields != [] then
      var rows := MapRows(v.fields, n + 2);
      [rows[0].(blanks := n, dash := true)] + rows[1..]
    else if v.JArray? && v.items != [] then [Row(n, true, None, None)] + ItemRows(v.items, n + 2)
    else [Row(n, true, None, Some(v))]
  }

  function ItemRows(items: seq<Json>, n: nat): seq<Row>
    decreases items
  {
    if items == [] then [] else OneItemRows(items[0], n) + ItemRows(items[1..], n)
  }

  /** Keys of one line that look like nothing else. */
  predicate IsPlainKey(key: string) {
    key != "" && ':' !in key && key[0] !in " -'" && IsOneLine(key)
  }

  /** Strings fill one line each, and keys are plain. */
  predicate IsPrintable(v: Json)
    decreases v
  {
    match v
    case JString(s) => IsOneLine(s)
    case JArray(items) => forall i :: 0 <= i < |items| ==> IsPrintable(items[i])
    case JObject(fields) =>
      forall i :: 0 <= i < |fields| ==> IsPlainKey(fields[i].key) && IsPrintable(fields[i].value)
    case _ => true
  }

  // ------------------------------------------------------------------ scalars

  lemma {:induction false} HalvedStep(s: string)
    requires s != ""
    ensures |s| >= 2 && s[0] == '\'' && s[1] == '\'' ==> Halved(s) == "'" + Halved(s[2..])
    ensures s[0] != '\'' ==> Halved(s) == [s[0]] + Halved(s[1..])
  {
  }

  lemma {:induction false} DoubledFirst(s: string)
    requires s != ""
    ensures Doubled(s) == (if s[0] == '\'' then "''" else [s[0]]) + Doubled(s[1..])
  {
    if |s| == 1 {
      assert s[..0] == "" && s[1..] == "";
      assert Doubled("") == "";
    } else {
      DoubledFirst(s[..|s| - 1]);
      assert s[..|s| - 1][1..] == s[1..][..|s[1..]| - 1];
    }
  }

  lemma {:induction false} HalvedDoubled(s: string)
    ensures Halved(Doubled(s)) == s
  {
    hide Doubled, Halved;
    if s == "" {
      NothingDoubled();
    } else {
      var rest := Doubled(s[1..]);
      DoubledFirst(s);
      HalvedDoubled(s[1..]);
      HalvedStep(Doubled(s));
      if s[0] == '\'' {
        assert ("''" + rest)[2..] == rest;
      } else {
        assert ([s[0]] + rest)[1..] == rest;
      }
    }
  }

  lemma {:induction false} NothingDoubled()
    ensures Doubled("") == "" && Halved("") == ""
  {
  }

  lemma {:induction false} NoKeyInside(s: string)
    requires !HasColonSpace(s) && (s != "" ==> s[|s| - 1] != ':')
    ensures KeyEnd(s) == |s|
  {
    if s != "" {
      assert forall i :: 0 <= i < |s[1..]| ==> s[1..][i] == s[i + 1];
      NoKeyInside(s[1..]);
    }
  }

  lemma {:induction false} QuotedReads(s: string)
    ensures ReadScalar(Quoted(s)) == JString(s) && Quoted(s) != "" && Quoted(s)[0] == '\''
  {
    hide Doubled, Halved;
    var t := Quoted(s);
    assert t[1..|t| - 1] == Doubled(s);
    HalvedDoubled(s);
  }

  lemma {:induction false} PlainReads(s: string)
    requires !NeedsQuoting(s)
    ensures ReadScalar(s) == JString(s) && s != "" && KeyEnd(s) == |s|
  {
    hide KeyEnd, Halved, HasColonSpace, Decimal;
    NoKeyInside(s);
    PlainIsNoNumber(s);
    PlainIsNoMark(s);
    hide NeedsQuoting, AreDigits;
  }

  lemma {:induction false} PlainIsNoNumber(s: string)
    requires !NeedsQuoting(s)
    ensures s != "" && !AreDigits(s) && !(s[0] == '-' && AreDigits(s[1..]))
  {
    hide HasColonSpace, IsSpecial;
    if s != "" && s[0] == '-' {
      assert forall i :: 0 <= i < |s[1..]| ==> s[1..][i] == s[i + 1];
    }
  }

  lemma {:induction false} PlainIsNoMark(s: string)
    requires !NeedsQuoting(s)
    ensures s != "" && s[0] != '\'' && s != "null" && s != "true" && s != "false" && s != "[]" && s != "{}"
    ensures !HasColonSpace(s) && s[|s| - 1] != ':'
  {
    hide HasColonSpace, IsInteger;
  }

  lemma {:induction false} IntegerReads(n: int)
    ensures ReadScalar(IntegerText(n)) == JInt(n)
    ensures IntegerText(n) != "" && KeyEnd(IntegerText(n)) == |IntegerText(n)| && IntegerText(n)[0] != '\''
  {
    hide IntegerText, Halved, KeyEnd, Decimal, HasColonSpace, AreDigits, ReadScalar;
    var t := IntegerText(n);
    IntegerShape(n);
    IntegerSays(n);
    NoColon(t);
    NoKeyInside(t);
    if n < 0 { NegativeReads(t); } else { NaturalReads(t); }
  }

  lemma {:induction false} IntegerShape(n: int)
    ensures var t := IntegerText(n);
            && t != "" && (forall i :: 0 <= i < |t| ==> IsDecimalDigit(t[i]) || t[i] == '-') && t[|t| - 1] != ':'
            && (if n < 0 then t[0] == '-' && AreDigits(t[1..]) else AreDigits(t))
  {
    hide Numeral;
    var m := if n < 0 then -n else n;
    var digits := Numeral(m, 10);
    PrintedIsDecimal(m);
    assert forall i :: 0 <= i < |digits| ==> digits[i] in digits;
    assert ("-" + digits)[1..] == digits;
  }

  lemma {:induction false} NaturalReads(t: string)
    requires AreDigits(t)
    ensures ReadScalar(t) == JInt(Decimal(t))
  {
    hide Decimal, Halved;
    assert '0' <= t[0] <= '9';
  }

  lemma {:induction false} NegativeReads(t: string)
    requires t != "" && t[0] == '-' && AreDigits(t[1..])
    ensures ReadScalar(t) == JInt(-(Decimal(t[1..]) as int))
  {
    hide Decimal, Halved;
  }

  lemma {:induction false} NoColon(t: string)
    requires forall i :: 0 <= i < |t| ==> IsDecimalDigit(t[i]) || t[i] == '-'
    ensures !HasColonSpace(t)
  {
  }

  lemma {:induction false} WordReads(t: string)
    requires t in ["null", "true", "false", "[]", "{}"]
    ensures KeyEnd(t) == |t| && IsOneLine(t) && t != "" && t[0] != '\''
  {
    hide KeyEnd;
    assert forall i :: 0 <= i < |t| ==> t[i] != ':' && t[i] != '\n';
    NoKeyInside(t);
  }

  /** A value on one line reads back, and is not taken for a key. */
  lemma {:induction false} ScalarReads(v: Json)
    requires !IsNested(v)
    ensures ReadScalar(ScalarText(v)) == v
    ensures ScalarText(v) != "" && (KeyEnd(ScalarText(v)) == |ScalarText(v)| || ScalarText(v)[0] == '\'')
  {
    match v
    case JInt(n) =>
      hide ReadScalar, IntegerText, KeyEnd;
      IntegerReads(n);
    case JString(s) =>
      hide ReadScalar, NeedsQuoting, Quoted, KeyEnd;
      if NeedsQuoting(s) { QuotedReads(s); } else { PlainReads(s); }
    case _ =>
      hide KeyEnd, Halved, IntegerText, NeedsQuoting, Quoted, Decimal;
      WordReads(ScalarText(v));
  }

  // ------------------------------------------------------------------ lines

  function RowOf(l: YamlText.Line): Row {
    ReadRow(Spaces(l.indent) + l.text)
  }

  function RowsOf(ls: seq<YamlText.Line>): (rows: seq<Row>)
    ensures |rows| == |ls|
  {
    seq(|ls|, i requires 0 <= i < |ls| => RowOf(ls[i]))
  }

  lemma {:induction false} RowsOfTwo(a: seq<YamlText.Line>, b: seq<YamlText.Line>)
    ensures RowsOf(a + b) == RowsOf(a) + RowsOf(b)
  {
    hide RowOf;
  }

  lemma {:induction false} BlanksAre(n: nat, rest: string)
    requires rest != "" && rest[0] != ' '
    ensures Blanks(Spaces(n) + rest) == n && (Spaces(n) + rest)[n..] == rest
  {
    if n == 0 {
      assert Spaces(n) + rest == rest;
    } else {
      BlanksAre(n - 1, rest);
      assert (Spaces(n) + rest)[1..] == Spaces(n - 1) + rest;
    }
  }

  /** A line that begins with a key or a value, by itself and behind a dash. */
  lemma {:induction false} LineReads(n: nat, text: string)
    requires text != "" && text[0] != ' '
    ensures text[0] != '-' ==> ReadRow(Spaces(n) + text) == ReadEntry(n, false, text)
  {
    hide ReadEntry, Spaces, Blanks;
    BlanksAre(n, text);
  }

  lemma {:induction false} DashReads(n: nat, text: string)
    ensures ReadRow(Spaces(n) + ("- " + text)) == ReadEntry(n, true, text)
    ensures ReadRow(Spaces(n) + "-") == Row(n, true, None, None)
  {
    hide ReadEntry, Spaces, Blanks;
    var s := "- " + text;
    BlanksAre(n, s);
    BlanksAre(n, "-");
    assert s[..2] == "- " && s[2..] == text;
  }

  lemma {:induction false} KeyEndIs(key: string, more: string)
    requires ':' !in key && (more == "" || more[0] == ' ')
    ensures KeyEnd(key + ":" + more) == |key|
  {
    var s := key + ":" + more;
    if key == "" {
      assert s == ":" + more;
    } else {
      KeyEndIs(key[1..], more);
      assert s[1..] == key[1..] + ":" + more;
    }
  }

  /** A key alone, or with a value behind it. */
  lemma {:induction false} EntryReads(n: nat, dash: bool, key: string, text: string)
    requires IsPlainKey(key)
    ensures ReadEntry(n, dash, key + ":") == Row(n, dash, Some(key), None)
    ensures ReadEntry(n, dash, key + ": " + text) == Row(n, dash, Some(key), Some(ReadScalar(text)))
  {
    hide KeyEnd, ReadScalar;
    KeyEndIs(key, "");
    KeyEndIs(key, " " + text);
    var alone, whole := key + ":", key + ": " + text;
    assert alone == key + ":" + "" && whole == key + ":" + (" " + text);
    assert alone[0] == key[0] && whole[0] == key[0];
    assert alone[..|key|] == key && whole[..|key|] == key && whole[|key| + 2..] == text;
    assert key[0] != '\'';
  }

  /** The first line of a field: alone on its line, or as the beginning of an item. */
  lemma {:induction false} FieldReads(n: nat, key: string, text: string)
    requires IsPlainKey(key)
    ensures ReadRow(Spaces(n) + (key + ":")) == Row(n, false, Some(key), None)
    ensures ReadRow(Spaces(n) + (key + ": " + text)) == Row(n, false, Some(key), Some(ReadScalar(text)))
  {
    hide ReadEntry, ReadScalar, Spaces, ReadRow;
    EntryReads(n, false, key, text);
    var alone, whole := key + ":", key + ": " + text;
    assert alone[0] == key[0] && whole[0] == key[0] && key[0] != ' ' && key[0] != '-';
    LineReads(n, alone);
    LineReads(n, whole);
  }

  lemma {:induction false} ItemScalarReads(n: nat, v: Json)
    requires !IsNested(v)
    ensures ReadRow(Spaces(n) + ("- " + ScalarText(v))) == Row(n, true, None, Some(v))
  {
    hide ReadRow, ReadScalar, ScalarText, Spaces, KeyEnd;
    ScalarReads(v);
    DashReads(n, ScalarText(v));
  }

  // ------------------------------------------------------------------ fields and items

  /** The lines of a value that stands below its key. */
  lemma {:induction false} EntryRead(f: Field, n: nat)
    requires IsPlainKey(f.key) && IsPrintable(f.value)
    ensures RowsOf(EntryLines(f, n)) == EntryRows(f, n)
    ensures StartsPlain(EntryLines(f, n)[0].text)
    decreases f, 1
  {
    hide RowsOf, MapLines, ItemLines, MapRows, ItemRows, ScalarText, ReadRow, ReadScalar;
    hide IsPlainKey, Spaces, StartsPlain;
    var key := f.key + ":";
    OwnLine(f, n);
    match f.value
    case JArray(items) =>
      if items != [] {
        RowsOfTwo([YamlText.Line(n, key)], ItemLines(items, n));
        ItemsRead(items, n);
      }
    case JObject(fields) =>
      if fields != [] {
        RowsOfTwo([YamlText.Line(n, key)], MapLines(fields, n + 2));
        FieldsRead(fields, n + 2);
      }
    case v =>
  }

  predicate StartsPlain(text: string) {
    text != "" && text[0] != ' ' && text[0] != '-'
  }

  lemma {:induction false} OwnLine(f: Field, n: nat)
    requires IsPlainKey(f.key)
    ensures var key, v := f.key + ":", f.value;
            && RowsOf([YamlText.Line(n, key)]) == [Row(n, false, Some(f.key), None)]
            && RowsOf([YamlText.Line(n, key + " []")]) == [Row(n, false, Some(f.key), Some(JArray([])))]
            && RowsOf([YamlText.Line(n, key + " {}")]) == [Row(n, false, Some(f.key), Some(JObject([])))]
            && (!IsNested(v) ==>
                  RowsOf([YamlText.Line(n, key + " " + ScalarText(v))]) == [Row(n, false, Some(f.key), Some(v))])
            && StartsPlain(EntryLines(f, n)[0].text)
  {
    hide ScalarText, ReadRow, Spaces, ReadScalar;
    FieldReads(n, f.key, "[]");
    FieldReads(n, f.key, "{}");
    FieldReads(n, f.key, ScalarText(f.value));
    EmptyRead();
    var key := f.key + ":";
    assert key + " []" == f.key + ": " + "[]" && key + " {}" == f.key + ": " + "{}";
    assert key + " " + ScalarText(f.value) == f.key + ": " + ScalarText(f.value);
    if !IsNested(f.value) { ScalarReads(f.value); }
  }

  lemma {:induction false} EmptyRead()
    ensures ReadScalar("[]") == JArray([]) && ReadScalar("{}") == JObject([])
  {
  }

  lemma {:induction false} FieldsRead(fields: seq<Field>, n: nat)
    requires IsPrintable(JObject(fields))
    ensures RowsOf(MapLines(fields, n)) == MapRows(fields, n)
    ensures fields != [] ==> StartsPlain(MapLines(fields, n)[0].text)
    decreases fields, 0
  {
    hide RowsOf, EntryLines, EntryRows, IsPlainKey, StartsPlain;
    if fields == [] {
      NoRows();
    } else {
      EntryRead(fields[0], n);
      FieldsRead(fields[1..], n);
      RowsOfTwo(EntryLines(fields[0], n), MapLines(fields[1..], n));
    }
  }

  lemma {:induction false} NoRows()
    ensures RowsOf([]) == []
  {
  }

  lemma {:induction false} ItemRead(v: Json, n: nat)
    requires IsPrintable(v)
    ensures RowsOf(OneItemLines(v, n)) == OneItemRows(v, n)
    decreases v, 1
  {
    hide MapLines, ItemLines, MapRows, ItemRows, ScalarText, ReadRow, Spaces, IsPlainKey;
    if v.JObject? && v.fields != [] {
      hide OneItemLines, OneItemRows;
      FieldsRead(v.fields, n + 2);
      MappingItem(v, n);
    } else if v.JArray? && v.items != [] {
      hide RowsOf;
      RowsOfTwo([YamlText.Line(n, "-")], ItemLines(v.items, n + 2));
      assert RowsOf([YamlText.Line(n, "-")]) == [Row(n, true, None, None)] by { DashAlone(n); }
      ItemsRead(v.items, n + 2);
    } else {
      ItemScalarReads(n, v);
    }
  }

  lemma {:induction false} DashAlone(n: nat)
    ensures RowsOf([YamlText.Line(n, "-")]) == [Row(n, true, None, None)]
  {
    hide ReadRow, Spaces;
    DashReads(n, "");
  }

  lemma {:induction false} MappingItem(v: Json, n: nat)
    requires v.JObject? && v.fields != []
    requires RowsOf(MapLines(v.fields, n + 2)) == MapRows(v.fields, n + 2)
    requires StartsPlain(MapLines(v.fields, n + 2)[0].text)
    ensures RowsOf(OneItemLines(v, n)) == OneItemRows(v, n)
  {
    hide MapLines, MapRows, ReadRow, Spaces, ReadEntry;
    var m := MapLines(v.fields, n + 2);
    LineReads(n + 2, m[0].text);
    DashReads(n, m[0].text);
    BehindDash(n + 2, n, m[0].text);
    RowsOfTwo([YamlText.Line(n, "- " + m[0].text)], m[1..]);
    assert m == [m[0]] + m[1..];
    RowsOfTwo([m[0]], m[1..]);
  }

  lemma {:induction false} BehindDash(n: nat, k: nat, s: string)
    ensures ReadEntry(k, true, s) == ReadEntry(n, false, s).(blanks := k, dash := true)
  {
    hide ReadScalar, KeyEnd;
  }

  lemma {:induction false} ItemsRead(items: seq<Json>, n: nat)
    requires IsPrintable(JArray(items))
    ensures RowsOf(ItemLines(items, n)) == ItemRows(items, n)
    decreases items, 0
  {
    hide RowsOf, OneItemLines, OneItemRows;
    if items == [] {
      NoRows();
    } else {
      ItemRead(items[0], n);
      ItemsRead(items[1..], n);
      RowsOfTwo(OneItemLines(items[0], n), ItemLines(items[1..], n));
    }
  }

  // ------------------------------------------------------------------ the printed text

  predicate AreOneLine(ls: seq<YamlText.Line>) {
    forall i :: 0 <= i < |ls| ==> IsOneLine(ls[i].text)
  }

  lemma {:induction false} DoubledIsOneLine(s: string)
    requires IsOneLine(s)
    ensures IsOneLine(Doubled(s))
  {
    if s != "" { DoubledIsOneLine(s[..|s| - 1]); }
  }

  lemma {:induction false} ScalarIsOneLine(v: Json)
    requires IsPrintable(v)
    ensures IsOneLine(ScalarText(v))
  {
    match v
    case JInt(n) =>
      hide IntegerText;
      IntegerShape(n);
    case JString(s) =>
      hide NeedsQuoting, Doubled;
      DoubledIsOneLine(s);
    case _ =>
  }

  lemma {:induction false} EntryIsOneLine(f: Field, n: nat)
    requires IsPlainKey(f.key) && IsPrintable(f.value)
    ensures AreOneLine(EntryLines(f, n))
    decreases f, 1
  {
    hide MapLines, ItemLines, ScalarText;
    match f.value
    case JArray(items) => ItemsAreOneLine(items, n);
    case JObject(fields) => FieldsAreOneLine(fields, n + 2);
    case v => ScalarIsOneLine(v);
  }

  lemma {:induction false} FieldsAreOneLine(fields: seq<Field>, n: nat)
    requires IsPrintable(JObject(fields))
    ensures AreOneLine(MapLines(fields, n))
    decreases fields, 0
  {
    hide EntryLines, IsPlainKey, IsOneLine;
    if fields != [] {
      EntryIsOneLine(fields[0], n);
      FieldsAreOneLine(fields[1..], n);
    }
  }

  lemma {:induction false} ItemIsOneLine(v: Json, n: nat)
    requires IsPrintable(v)
    ensures AreOneLine(OneItemLines(v, n))
    decreases v, 1
  {
    hide MapLines, ItemLines, ScalarText, IsPlainKey;
    if v.JObject? && v.fields != [] {
      FieldsAreOneLine(v.fields, n + 2);
    } else if v.JArray? && v.items != [] {
      ItemsAreOneLine(v.items, n + 2);
    } else {
      ScalarIsOneLine(v);
    }
  }

  lemma {:induction false} ItemsAreOneLine(items: seq<Json>, n: nat)
    requires IsPrintable(JArray(items))
    ensures AreOneLine(ItemLines(items, n))
    decreases items, 0
  {
    hide OneItemLines, IsOneLine;
    if items != [] {
      ItemIsOneLine(items[0], n);
      ItemsAreOneLine(items[1..], n);
    }
  }

  function ReadRows(lines: seq<string>): (rows: seq<Row>)
    ensures |rows| == |lines|
  {
    seq(|lines|, i requires 0 <= i < |lines| => ReadRow(lines[i]))
  }

  lemma {:induction false} RowsOfText(ls: seq<YamlText.Line>)
    requires AreOneLine(ls)
    ensures Lines(Unlines(ls))[|Lines(Unlines(ls))| - 1] == ""
    ensures ReadRows(Lines(Unlines(ls))[..|Lines(Unlines(ls))| - 1]) == RowsOf(ls)
  {
    hide ReadRow, Spaces, Lines;
    if ls == [] {
      OneLine("");
    } else {
      var line, rest := Spaces(ls[0].indent) + ls[0].text, Unlines(ls[1..]);
      RowsOfText(ls[1..]);
      assert IsOneLine(line) by { PaddedIsOneLine(ls[0].indent, ls[0].text); }
      LinesOfTwo(line, rest);
      OneLine(line);
      assert Unlines(ls) == line + "\n" + rest;
      var more := Lines(rest);
      assert ([line] + more)[..|more|] == [line] + more[..|more| - 1];
      assert ReadRows([line] + more[..|more| - 1]) == [ReadRow(line)] + ReadRows(more[..|more| - 1]);
      assert RowsOf(ls) == [RowOf(ls[0])] + RowsOf(ls[1..]);
    }
  }

  lemma {:induction false} PaddedIsOneLine(n: nat, text: string)
    requires IsOneLine(text)
    ensures IsOneLine(Spaces(n) + text)
  {
  }

  /** The rows of a list or a mapping at the top of a document. */
  function DocumentRows(v: Json): seq<Row>
    requires IsNested(v)
  {
    if v.JArray? then ItemRows(v.items, 0) else MapRows(v.fields, 0)
  }

  /** Reading the printed document line by line gives the keys and values of the value, nested by their
      indentation: every line ends with a line break. */
  lemma {:induction false} DocumentReads(v: Json)
    requires IsNested(v) && IsPrintable(v)
    ensures var lines := Lines(YamlDocument(v));
            lines[|lines| - 1] == "" && ReadRows(lines[..|lines| - 1]) == DocumentRows(v)
  {
    hide Lines, Unlines, ReadRows, RowsOf, MapLines, ItemLines, MapRows, ItemRows, AreOneLine;
    if v.JArray? {
      ItemsRead(v.items, 0);
      ItemsAreOneLine(v.items, 0);
    } else {
      FieldsRead(v.fields, 0);
      FieldsAreOneLine(v.fields, 0);
    }
    RowsOfText(YamlLines(v));
  }
}
