/** The structure layer of the YAML reader: a recursive descent over indented lines.

    Each parsing loop of the source is specified by a function from the remaining lines to
    the parsed value and the lines left over; the methods below run the loops on an index
    and are proved to compute exactly those functions. */
module YamlReader {
  import opened Json
  import opened Text
  import opened YamlText
  import opened YamlScalar

  datatype Error = UnexpectedIndent | ExpectedKey

  datatype Parsed = Ok(value: Json, rest: seq<Line>) | Err(error: Error)

  /** The bytes `- ` or `-` NUL at the start of a line mark a sequence item. */
  predicate IsItem(text: string) {
    |text| >= 2 && text[0] == '-' && (text[1] == ' ' || text[1] == '\0')
  }

  predicate StartsWithDash(text: string) {
    text != [] && text[0] == '-'
  }

  /** The value of a `key:` entry whose colon is at `p`; an empty value continues below. */
  function EntryValue(text: string, p: nat, ls: seq<Line>, indent: nat): (r: Parsed)
    requires p < |text|
    ensures r.Ok? ==> |r.rest| <= |ls|
    decreases |ls|, 3
  {
    var val := Trimmed(text[p + 1..]);
    if val == [] then FollowOn(ls, indent) else Ok(ScalarOf(val), ls)
  }

  /** What may follow `key:`: a deeper block, a compact sequence, or nothing. */
  function FollowOn(ls: seq<Line>, indent: nat): (r: Parsed)
    ensures r.Ok? ==> |r.rest| <= |ls|
    decreases |ls|, 2
  {
    if ls == [] then Ok(JNull, ls)
    else if ls[0].indent > indent then Block(ls, indent)
    else if ls[0].indent == indent && StartsWithDash(ls[0].text) then Sequence(ls, indent, [])
    else Ok(JNull, ls)
  }

  function Block(ls: seq<Line>, parent: nat): (r: Parsed)
    ensures r.Ok? ==> |r.rest| <= |ls|
    decreases |ls|, 1
  {
    if ls == [] || ls[0].indent <= parent then Ok(JNull, ls)
    else if StartsWithDash(ls[0].text) then Sequence(ls, ls[0].indent, [])
    else Mapping(ls, ls[0].indent, [])
  }

  /** The items of a block sequence, appended to `acc`. */
  function Sequence(ls: seq<Line>, indent: nat, acc: seq<Json>): (r: Parsed)
    ensures r.Ok? ==> |r.rest| <= |ls|
    decreases |ls|, 0
  {
    if ls == [] || ls[0].indent < indent then Ok(JArray(acc), ls)
    else if ls[0].indent > indent then Err(UnexpectedIndent)
    else if !IsItem(ls[0].text) then Ok(JArray(acc), ls)
    else
      var item := Item(ls[0].text, ls[1..], indent);
      if item.Err? then item else Sequence(item.rest, indent, acc + [item.value])
  }

  /** One sequence item: a mapping with its first entry inline, or a scalar. */
  function Item(text: string, ls: seq<Line>, indent: nat): (r: Parsed)
    requires |text| >= 2
    ensures r.Ok? ==> |r.rest| <= |ls|
    decreases |ls|, 4
  {
    var first := StripRight(text[2..], BlankOrTab);
    var p := ColonAt(first, 0, OUTSIDE);
    if p == |first| then Ok(ScalarOf(text[2..]), ls)
    else
      var v := EntryValue(first, p, ls, indent + 2);
      if v.Err? then v else Continuation(v.rest, indent + 2, [Field(Trimmed(first[..p]), v.value)])
  }

  /** Further entries of an item's inline mapping, assigned into `acc`. */
  function Continuation(ls: seq<Line>, indent: nat, acc: seq<Field>): (r: Parsed)
    ensures r.Ok? ==> |r.rest| <= |ls|
    decreases |ls|, 0
  {
    if ls == [] || ls[0].indent != indent || ls[0].text == [] || StartsWithDash(ls[0].text) then
      Ok(JObject(acc), ls)
    else
      var text := ls[0].text;
      var p := ColonAt(text, 0, OUTSIDE);
      if p == |text| then Ok(JObject(acc), ls)
      else
        var v := EntryValue(text, p, ls[1..], indent);
        if v.Err? then v else Continuation(v.rest, indent, Assign(acc, Trimmed(text[..p]), v.value))
  }

  /** The entries of a block mapping, assigned into `acc`. */
  function Mapping(ls: seq<Line>, indent: nat, acc: seq<Field>): (r: Parsed)
    ensures r.Ok? ==> |r.rest| <= |ls|
    decreases |ls|, 0
  {
    if ls == [] || ls[0].indent < indent then Ok(JObject(acc), ls)
    else if ls[0].indent > indent then Err(UnexpectedIndent)
    else if StartsWithDash(ls[0].text) then Ok(JObject(acc), ls)
    else
      var text := ls[0].text;
      var p := ColonAt(text, 0, OUTSIDE);
      if p == |text| then Err(ExpectedKey)
      else
        var v := EntryValue(text, p, ls[1..], indent);
        if v.Err? then v else Mapping(v.rest, indent, Assign(acc, Trimmed(text[..p]), v.value))
  }

  datatype Result = Success(value: Json) | Failure(error: Error)

  /** The whole document; lines left over after the top-level block are ignored. */
  function Document(ls: seq<Line>): Result {
    if ls == [] then Success(JArray([]))
    else
      var r := if StartsWithDash(ls[0].text) then Sequence(ls, ls[0].indent, [])
               else Mapping(ls, ls[0].indent, []);
      if r.Err? then Failure(r.error) else Success(r.value)
  }

  function YamlValue(src: string): Result {
    Document(LinesOf(src, 0))
  }

  // ------------------------------------------------------------------ the loops

  datatype Outcome = Done(value: Json) | Thrown(error: Error)

  /** What a method that stopped at line `idx` has computed. */
  ghost function Meaning(o: Outcome, lines: seq<Line>, idx: nat): Parsed
    requires idx <= |lines|
  {
    if o.Thrown? then Err(o.error) else Ok(o.value, lines[idx..])
  }

  method ParseEntryValue(text: string, p: nat, lines: seq<Line>, start: nat, indent: nat)
    returns (o: Outcome, idx: nat)
    requires p < |text| && start <= |lines|
    ensures start <= idx <= |lines|
    ensures Meaning(o, lines, idx) == EntryValue(text, p, lines[start..], indent)
    decreases |lines| - start, 3
  {
    hide Trimmed, ScalarOf, Mapping, Sequence;
    idx := start;
    var val := Trim(text[p + 1..]);
    if val == [] {
      if idx < |lines| {
        var next := lines[idx];
        if next.indent > indent {
          o, idx := ParseBlock(lines, idx, indent);
        } else if next.indent == indent && next.text != [] && next.text[0] == '-' {
          o, idx := ParseSequence(lines, idx, indent);
        } else {
          o := Done(JNull);
        }
      } else {
        o := Done(JNull);
      }
    } else {
      var v := ParseScalar(val);
      o := Done(v);
    }
  }

  method ParseBlock(lines: seq<Line>, start: nat, parent: nat) returns (o: Outcome, idx: nat)
    requires start <= |lines|
    ensures start <= idx <= |lines|
    ensures Meaning(o, lines, idx) == Block(lines[start..], parent)
    decreases |lines| - start, 1
  {
    hide Mapping, Sequence;
    idx := start;
    if idx >= |lines| {
      return Done(JNull), idx;
    }
    var my := lines[idx].indent;
    if my <= parent {
      return Done(JNull), idx;
    }
    if lines[idx].text != [] && lines[idx].text[0] == '-' {
      o, idx := ParseSequence(lines, idx, my);
    } else {
      o, idx := ParseMapping(lines, idx, my);
    }
  }

  method ParseSequence(lines: seq<Line>, start: nat, indent: nat) returns (o: Outcome, idx: nat)
    requires start <= |lines|
    ensures start <= idx <= |lines|
    ensures Meaning(o, lines, idx) == Sequence(lines[start..], indent, [])
    decreases |lines| - start, 0
  {
    hide Item;
    var arr := [];
    idx := start;
    while idx < |lines|
      invariant start <= idx <= |lines|
      invariant Sequence(lines[start..], indent, []) == Sequence(lines[idx..], indent, arr)
    {
      var line := lines[idx];
      if line.indent < indent {
        break;
      }
      if line.indent > indent {
        return Thrown(UnexpectedIndent), idx;
      }
      if |line.text| < 2 || line.text[0] != '-' || (line.text[1] != ' ' && line.text[1] != '\0') {
        break;
      }
      assert lines[idx..][1..] == lines[idx + 1..];
      var item, next := ParseItem(line.text, lines, idx + 1, indent);
      if item.Thrown? {
        return item, next;
      }
      arr := arr + [item.value];
      idx := next;
    }
    o := Done(JArray(arr));
  }

  /** Cuts blanks and tabs off the end. */
  method CutRight(s: string) returns (r: string)
    ensures r == StripRight(s, BlankOrTab)
  {
    var end := |s|;
    while end > 0 && (s[end - 1] == ' ' || s[end - 1] == '\t')
      invariant 0 <= end <= |s|
      invariant SkipBack(s, 0, |s|, BlankOrTab) == SkipBack(s, 0, end, BlankOrTab)
    {
      end := end - 1;
    }
    r := s[..end];
  }

  /** The further entries of a mapping that began on an item's line. */
  method ParseContinuation(lines: seq<Line>, start: nat, indent: nat, first: seq<Field>)
    returns (o: Outcome, idx: nat)
    requires start <= |lines|
    ensures start <= idx <= |lines|
    ensures Meaning(o, lines, idx) == Continuation(lines[start..], indent, first)
    decreases |lines| - start, 3
  {
    hide Trimmed, EntryValue, ColonAt, Assign;
    idx := start;
    var m := first;
    while idx < |lines| && lines[idx].indent == indent
      invariant start <= idx <= |lines|
      invariant Continuation(lines[start..], indent, first) == Continuation(lines[idx..], indent, m)
    {
      var line := lines[idx].text;
      if line == [] || line[0] == '-' {
        break;
      }
      var p2 := FindColon(line);
      if p2 == |line| {
        break;
      }
      assert lines[idx..][1..] == lines[idx + 1..];
      var key2 := Trim(line[..p2]);
      var v, next := ParseEntryValue(line, p2, lines, idx + 1, indent);
      if v.Thrown? {
        return v, next;
      }
      m := Assign(m, key2, v.value);
      idx := next;
    }
    o := Done(JObject(m));
  }

  method ParseItem(text: string, lines: seq<Line>, start: nat, indent: nat) returns (o: Outcome, idx: nat)
    requires |text| >= 2 && start <= |lines|
    ensures start <= idx <= |lines|
    ensures Meaning(o, lines, idx) == Item(text, lines[start..], indent)
    decreases |lines| - start, 4
  {
    hide Trimmed, ScalarOf, EntryValue, ColonAt, Assign, StripRight;
    idx := start;
    var first := CutRight(text[2..]);
    var p := FindColon(first);
    if p == |first| {
      var v := ParseScalar(text[2..]);
      return Done(v), idx;
    }
    var key := Trim(first[..p]);
    o, idx := ParseEntryValue(first, p, lines, idx, indent + 2);
    if o.Thrown? {
      return;
    }
    o, idx := ParseContinuation(lines, idx, indent + 2, [Field(key, o.value)]);
  }

  method ParseMapping(lines: seq<Line>, start: nat, indent: nat) returns (o: Outcome, idx: nat)
    requires start <= |lines|
    ensures start <= idx <= |lines|
    ensures Meaning(o, lines, idx) == Mapping(lines[start..], indent, [])
    decreases |lines| - start, 0
  {
    hide Trimmed, EntryValue, ColonAt, Assign;
    var obj := [];
    idx := start;
    while idx < |lines|
      invariant start <= idx <= |lines|
      invariant Mapping(lines[start..], indent, []) == Mapping(lines[idx..], indent, obj)
    {
      var line := lines[idx];
      if line.indent < indent {
        break;
      }
      if line.indent > indent {
        return Thrown(UnexpectedIndent), idx;
      }
      if line.text != [] && line.text[0] == '-' {
        break;
      }
      var p := FindColon(line.text);
      if p == |line.text| {
        return Thrown(ExpectedKey), idx;
      }
      assert lines[idx..][1..] == lines[idx + 1..];
      var key := Trim(line.text[..p]);
      var v, next := ParseEntryValue(line.text, p, lines, idx + 1, indent);
      if v.Thrown? {
        return v, next;
      }
      obj := Assign(obj, key, v.value);
      idx := next;
    }
    o := Done(JObject(obj));
  }

  method YamlParse(src: string) returns (r: Result)
    ensures r == YamlValue(src)
  {
    hide Sequence, Mapping, LinesOf;
    var lines := SplitLines(src);
    if lines == [] {
      return Success(JArray([]));
    }
    assert lines[0..] == lines;
    var o, idx;
    if lines[0].text != [] && lines[0].text[0] == '-' {
      o, idx := ParseSequence(lines, 0, lines[0].indent);
    } else {
      o, idx := ParseMapping(lines, 0, lines[0].indent);
    }
    r := match o
      case Done(v) => Success(v)
      case Thrown(e) => Failure(e);
  }
}
