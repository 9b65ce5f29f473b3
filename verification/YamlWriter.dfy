/** The YAML writer.  `MapLines` and `ItemLines` give the printed lines of a value; the
    methods append text to a buffer as the source does and are proved to print those lines. */
module YamlWriter {
  import opened Json
  import opened Text
  import opened YamlText
  import opened YamlScalar

  predicate IsNested(v: Json) {
    (v.JArray? && v.items != []) || (v.JObject? && v.fields != [])
  }

  function EntryLines(f: Field, indent: nat): (ls: seq<Line>)
    ensures ls != [] && ls[0].indent == indent
    decreases f
  {
    var key := f.key + ":";
    match f.value
    case JArray(items) =>
      if items == [] then [Line(indent, key + " []")] else [Line(indent, key)] + ItemLines(items, indent)
    case JObject(fields) =>
      if fields == [] then [Line(indent, key + " {}")] else [Line(indent, key)] + MapLines(fields, indent + 2)
    case v => [Line(indent, key + " " + ScalarText(v))]
  }

  function MapLines(fields: seq<Field>, indent: nat): (ls: seq<Line>)
    ensures fields != [] ==> ls != [] && ls[0].indent == indent
    decreases fields
  {
    if fields == [] then [] else EntryLines(fields[0], indent) + MapLines(fields[1..], indent)
  }

  /** An item's first line carries the dash; a mapping shares that line with its first key. */
  function OneItemLines(v: Json, indent: nat): (ls: seq<Line>)
    ensures ls != [] && ls[0].indent == indent
    decreases v
  {
    if v.JObject? && v.fields != [] then
      var m := MapLines(v.fields, indent + 2);
      [Line(indent, "- " + m[0].text)] + m[1..]
    else if v.JArray? && v.items != [] then
      [Line(indent, "-")] + ItemLines(v.items, indent + 2)
    else
      [Line(indent, "- " + ScalarText(v))]
  }

  function ItemLines(items: seq<Json>, indent: nat): (ls: seq<Line>)
    ensures items != [] ==> ls != [] && ls[0].indent == indent
    decreases items
  {
    if items == [] then [] else OneItemLines(items[0], indent) + ItemLines(items[1..], indent)
  }

  function LineText(l: Line): string {
    Spaces(l.indent) + l.text + "\n"
  }

  function Unlines(ls: seq<Line>): string {
    if ls == [] then "" else LineText(ls[0]) + Unlines(ls[1..])
  }

  function YamlLines(v: Json): seq<Line> {
    match v
    case JArray(items) => if items == [] then [Line(0, "[]")] else ItemLines(items, 0)
    case JObject(fields) => if fields == [] then [Line(0, "{}")] else MapLines(fields, 0)
    case _ => [Line(0, ScalarText(v))]
  }

  /** The printed document. */
  function YamlDocument(v: Json): string {
    Unlines(YamlLines(v))
  }

  // ------------------------------------------------------------------ the loops

  lemma {:induction false} UnlinesConcat(a: seq<Line>, b: seq<Line>)
    ensures Unlines(a + b) == Unlines(a) + Unlines(b)
  {
    if a == [] {
      assert a + b == b;
    } else {
      assert (a + b)[1..] == a[1..] + b;
      UnlinesConcat(a[1..], b);
    }
  }

  lemma {:induction false} NothingPrinted(indent: nat)
    ensures Unlines([]) == "" && ItemLines([], indent) == [] && MapLines([], indent) == []
  {
  }

  /** Printing one more group of lines after those already printed. */
  lemma {:induction false} UnlinesSnoc(done: string, a: seq<Line>, b: seq<Line>)
    ensures done + Unlines(a + b) == done + Unlines(a) + Unlines(b)
  {
    UnlinesConcat(a, b);
  }

  /** The text of the lines when the indentation of the first is already printed. */
  function Inline(ls: seq<Line>): string
    requires ls != []
  {
    ls[0].text + "\n" + Unlines(ls[1..])
  }

  lemma {:induction false} InlineIndented(ls: seq<Line>)
    requires ls != []
    ensures Unlines(ls) == Spaces(ls[0].indent) + Inline(ls)
  {
  }

  method EmitScalar(out: string, v: Json) returns (r: string)
    requires !IsNested(v)
    ensures r == out + ScalarText(v) + "\n"
  {
    match v {
      case JString(s) =>
        var quote := TestNeedsQuoting(s);
        if quote {
          var q := QuoteString(s);
          r := out + q;
        } else {
          r := out + s;
        }
      case _ =>
        r := out + ScalarText(v);
    }
    r := r + "\n";
  }

  lemma {:induction false} MapLinesSnoc(fields: seq<Field>, k: nat, indent: nat)
    requires k < |fields|
    ensures MapLines(fields[..k + 1], indent) == MapLines(fields[..k], indent) + EntryLines(fields[k], indent)
  {
    if k == 0 {
      assert fields[..1][1..] == [];
    } else {
      MapLinesSnoc(fields[1..], k - 1, indent);
      assert fields[..k + 1][1..] == fields[1..][..k] && fields[..k][1..] == fields[1..][..k - 1];
    }
  }

  lemma {:induction false} ItemLinesSnoc(items: seq<Json>, k: nat, indent: nat)
    requires k < |items|
    ensures ItemLines(items[..k + 1], indent) == ItemLines(items[..k], indent) + OneItemLines(items[k], indent)
  {
    hide OneItemLines;
    if k == 0 {
      assert items[..1][1..] == [];
    } else {
      ItemLinesSnoc(items[1..], k - 1, indent);
      assert items[..k + 1][1..] == items[1..][..k] && items[..k][1..] == items[1..][..k - 1];
    }
  }

  lemma {:induction false} UnlinesAppend(out: string, a: seq<Line>, b: seq<Line>)
    requires b != []
    ensures out + Unlines(a + b) == out + Unlines(a) + Spaces(b[0].indent) + Inline(b)
  {
    hide Unlines, Inline, Spaces;
    UnlinesConcat(a, b);
    InlineIndented(b);
  }

  lemma {:induction false} InlineAppend(out: string, a: seq<Line>, b: seq<Line>)
    requires a != [] && b != []
    ensures out + Inline(a + b) == out + Inline(a) + Spaces(b[0].indent) + Inline(b)
  {
    hide Unlines, Spaces;
    var first := out + (a[0].text + "\n");
    assert (a + b)[1..] == a[1..] + b;
    UnlinesAppend(first, a[1..], b);
    assert out + Inline(a + b) == first + Unlines(a[1..] + b);
    assert out + Inline(a) == first + Unlines(a[1..]);
  }

  lemma {:induction false} EntryText(f: Field, indent: nat)
    ensures var text, key, v := Inline(EntryLines(f, indent)), f.key + ":", f.value;
            if v.JArray? && v.items == [] then text == key + " []\n"
            else if v.JObject? && v.fields == [] then text == key + " {}\n"
            else if v.JArray? then text == key + "\n" + Unlines(ItemLines(v.items, indent))
            else if v.JObject? then text == key + "\n" + Unlines(MapLines(v.fields, indent + 2))
            else text == key + " " + ScalarText(v) + "\n"
  {
    hide MapLines, ItemLines, ScalarText;
    var ls := EntryLines(f, indent);
    assert !IsNested(f.value) ==> Unlines(ls[1..]) == "";
  }

  /** Appends the entry `f` up to and including its newline; `out` already has the indentation. */
  method EmitEntry(out: string, f: Field, level: nat) returns (r: string)
    ensures r == out + Inline(EntryLines(f, 2 * level))
    decreases f
  {
    hide EntryLines, MapLines, ItemLines, Unlines, Inline, ScalarText;
    EntryText(f, 2 * level);
    r := out + f.key + ":";
    var v := f.value;
    if v.JArray? && v.items == [] {
      r := r + " []\n";
    } else if v.JObject? && v.fields == [] {
      r := r + " {}\n";
    } else if v.JArray? {
      r := r + "\n";
      r := EmitSequence(r, v.items, level);
    } else if v.JObject? {
      r := r + "\n";
      r := EmitMapping(r, v.fields, level + 1, false);
    } else {
      r := r + " ";
      r := EmitScalar(r, v);
    }
  }

  method EmitMapping(out: string, fields: seq<Field>, level: nat, inlineFirst: bool) returns (r: string)
    requires fields != []
    ensures r == out + if inlineFirst then Inline(MapLines(fields, 2 * level)) else Unlines(MapLines(fields, 2 * level))
    decreases fields
  {
    hide MapLines, EntryLines, Unlines, Inline;
    r := out;
    for i := 0 to |fields|
      invariant i == 0 ==> r == out
      invariant i > 0 ==> MapLines(fields[..i], 2 * level) != []
      invariant i > 0 ==> r == out + if inlineFirst then Inline(MapLines(fields[..i], 2 * level))
                                     else Unlines(MapLines(fields[..i], 2 * level))
    {
      ghost var done, entry := MapLines(fields[..i], 2 * level), EntryLines(fields[i], 2 * level);
      MapLinesSnoc(fields, i, 2 * level);
      UnlinesAppend(out, done, entry);
      if i == 0 {
        NothingPrinted(2 * level);
        assert fields[..0] == [] && done + entry == entry;
      } else {
        InlineAppend(out, done, entry);
      }
      if !(i == 0 && inlineFirst) {
        r := r + Spaces(2 * level);
      }
      r := EmitEntry(r, fields[i], level);
    }
    assert fields[..|fields|] == fields;
  }

  method EmitSequence(out: string, items: seq<Json>, level: nat) returns (r: string)
    ensures r == out + Unlines(ItemLines(items, 2 * level))
    decreases items
  {
    hide OneItemLines, ItemLines, Unlines;
    r := out;
    assert ItemLines(items[..0], 2 * level) == [] && Unlines([]) == "" by { NothingPrinted(2 * level); }
    for i := 0 to |items|
      invariant r == out + Unlines(ItemLines(items[..i], 2 * level))
    {
      ItemLinesSnoc(items, i, 2 * level);
      UnlinesSnoc(out, ItemLines(items[..i], 2 * level), OneItemLines(items[i], 2 * level));
      r := EmitItem(r, items[i], level);
    }
    assert items[..|items|] == items;
  }

  lemma {:induction false} OneItemText(item: Json, indent: nat)
    ensures var text, dash := Unlines(OneItemLines(item, indent)), Spaces(indent) + "-";
            if item.JObject? && item.fields != [] then text == dash + " " + Inline(MapLines(item.fields, indent + 2))
            else if item.JArray? && item.items != [] then
              text == dash + "\n" + Unlines(ItemLines(item.items, indent + 2))
            else text == dash + " " + ScalarText(item) + "\n"
  {
    hide MapLines, ItemLines, ScalarText;
    var ls := OneItemLines(item, indent);
    assert Unlines(ls) == LineText(ls[0]) + Unlines(ls[1..]);
    assert !IsNested(item) ==> Unlines(ls[1..]) == "";
  }

  method EmitItem(out: string, item: Json, level: nat) returns (r: string)
    ensures r == out + Unlines(OneItemLines(item, 2 * level))
    decreases item
  {
    hide MapLines, ItemLines, OneItemLines, ScalarText, Unlines;
    OneItemText(item, 2 * level);
    r := out + Spaces(2 * level) + "-";
    if item.JObject? && item.fields != [] {
      r := r + " ";
      r := EmitMapping(r, item.fields, level + 1, true);
    } else if item.JArray? && item.items != [] {
      r := r + "\n";
      r := EmitSequence(r, item.items, level + 1);
    } else {
      r := r + " ";
      r := EmitScalar(r, item);
    }
  }

  method YamlDump(v: Json) returns (out: string)
    ensures out == YamlDocument(v)
  {
    if v.JArray? && v.items != [] {
      out := EmitSequence("", v.items, 0);
    } else if v.JObject? && v.fields != [] {
      out := EmitMapping("", v.fields, 0, false);
    } else {
      out := EmitScalar("", v);
      var l := Line(0, ScalarText(v));
      assert YamlLines(v) == [l] && [l][1..] == [];
      assert Spaces(0) == "" && "" + l.text == l.text;
      assert Unlines([l]) == l.text + "\n";
    }
  }
}
