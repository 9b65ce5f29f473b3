/** Documents the writer does not print: values below their key at any depth, keys without a value, faults,
    and keys given twice. */
module YamlNesting {
  import opened Json
  import opened Text
  import opened YamlText
  import opened YamlScalar
  import opened YamlWriter
  import opened YamlReader
  import opened YamlLineProofs
  import opened YamlRoundTrip

  lemma {:induction false} ItemsAreRead(v: Json, n: nat, rest: seq<Line>)
    requires IsWritable(v) && v.JArray? && v.items != [] && EndsValue(rest, n)
    ensures var ls := Cleaned(ItemLines(v.items, n)) + rest;
            && ls != [] && ls[0].indent == n && StartsWithDash(ls[0].text)
            && Sequence(ls, n, []) == Ok(Reread(v), rest)
  {
    hide Clean, ScalarText, Sequence, EndsValue;
    var first := OneItemLines(v.items[0], n)[0];
    DashLine(v.items[0], n);
    ItemsFirst(v.items, n);
    assert (Cleaned(ItemLines(v.items, n)) + rest)[0] == Line(n, Clean(first.text));
    SequenceParses(v.items, n, rest, []);
    assert [] + RereadItems(v.items) == RereadItems(v.items);
  }

  lemma {:induction false} FieldsAreRead(v: Json, n: nat, rest: seq<Line>)
    requires IsWritable(v) && v.JObject? && v.fields != [] && IsBelow(rest, n)
    ensures var ls := Cleaned(MapLines(v.fields, n)) + rest;
            && ls != [] && ls[0].indent == n && ls[0].text != [] && !StartsWithDash(ls[0].text)
            && Mapping(ls, n, []) == Ok(Reread(v), rest)
  {
    hide Clean, ScalarText, Mapping, IsBelow;
    ObjectWritable(v);
    FieldsFirst(v.fields, n);
    assert [] + v.fields == v.fields;
    MappingParses(v.fields, n, rest, []);
    assert [] + RereadFields(v.fields) == RereadFields(v.fields);
  }

  /** A value below its key may be indented by any number of blanks. */
  lemma {:induction false} DeeperReads(text: string, p: nat, v: Json, indent: nat, n: nat, rest: seq<Line>)
    requires IsWritable(v) && IsNested(v) && p < |text| && Trimmed(text[p + 1..]) == []
    requires n > indent && IsBelow(rest, n)
    ensures var below := if v.JArray? then ItemLines(v.items, n) else MapLines(v.fields, n);
            EntryValue(text, p, Cleaned(below) + rest, indent) == Ok(Reread(v), rest)
  {
    hide Trimmed, Sequence, Mapping, Reread, Cleaned, ItemLines, MapLines, FollowOn;
    var ls := Cleaned(if v.JArray? then ItemLines(v.items, n) else MapLines(v.fields, n)) + rest;
    if v.JArray? { ItemsAreRead(v, n, rest); } else { FieldsAreRead(v, n, rest); }
    GoesDeeper(ls, indent);
  }

  lemma {:induction false} GoesDeeper(ls: seq<Line>, indent: nat)
    requires ls != [] && ls[0].indent > indent
    ensures FollowOn(ls, indent) == if StartsWithDash(ls[0].text) then Sequence(ls, ls[0].indent, [])
                                    else Mapping(ls, ls[0].indent, [])
  {
    hide Sequence, Mapping;
    assert FollowOn(ls, indent) == Block(ls, indent);
  }

  /** A key with nothing on its line and nothing below it has no value. */
  lemma {:induction false} NothingBelow(text: string, p: nat, ls: seq<Line>, indent: nat)
    requires p < |text| && Trimmed(text[p + 1..]) == []
    requires ls == [] || ls[0].indent < indent
             || (ls[0].indent == indent && (ls[0].text == "" || ls[0].text[0] != '-'))
    ensures EntryValue(text, p, ls, indent) == Ok(JNull, ls)
  {
    hide Trimmed;
  }

  lemma {:induction false} NoColonAt(s: string, k: nat, q: Quotes)
    requires k <= |s| && ':' !in s
    ensures ColonAt(s, k, q) == |s|
    decreases |s| - k
  {
    if k < |s| { NoColonAt(s, k + 1, Toggle(q, s[k])); }
  }

  /** A line that is indented more than the block it stands in, and a line of a mapping without a key. */
  lemma {:induction false} Faults(line: Line, ls: seq<Line>, indent: nat, fields: seq<Field>, items: seq<Json>)
    ensures line.indent > indent ==>
      && Mapping([line] + ls, indent, fields) == Err(UnexpectedIndent)
      && Sequence([line] + ls, indent, items) == Err(UnexpectedIndent)
    ensures line.indent == indent && line.text != "" && line.text[0] != '-' && ':' !in line.text ==>
      Mapping([line] + ls, indent, fields) == Err(ExpectedKey)
  {
    hide ColonAt;
    assert ([line] + ls)[0] == line;
    if ':' !in line.text { NoColonAt(line.text, 0, OUTSIDE); }
  }

  /** A document without lines is an empty list, and any other is a list or a mapping by its first line,
      however deep that is indented. */
  lemma {:induction false} TopReads(v: Json, n: nat)
    requires IsWritable(v) && IsNested(v)
    ensures Document([]) == Success(JArray([]))
    ensures Document(Cleaned(if v.JArray? then ItemLines(v.items, n) else MapLines(v.fields, n))) == Success(Reread(v))
  {
    hide Sequence, Mapping, Reread, Cleaned, ItemLines, MapLines;
    var ls := Cleaned(if v.JArray? then ItemLines(v.items, n) else MapLines(v.fields, n));
    assert ls + [] == ls;
    if v.JArray? { ItemsAreRead(v, n, []); } else { FieldsAreRead(v, n, []); }
  }

  /** A key that is given again keeps its place and gets the new value; the others are untouched. */
  lemma {:induction false} LastValueWins(fields: seq<Field>, key: string, value: Json, i: nat)
    requires Contains(fields, key) && i < |fields|
    ensures var r := Assign(fields, key, value);
            && |r| == |fields| && r[i].key == fields[i].key
            && (fields[i].key != key ==> r[i] == fields[i])
            && Get(r, key) == value
  {
  }
}
