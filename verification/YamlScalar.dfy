/** Scalars of the YAML subset: how a plain or quoted text is read as a JSON value, and
    which strings the writer quotes. */
module YamlScalar {
  import opened Json
  import opened Numerals
  import opened YamlText

  // ------------------------------------------------------------------ reading

  function Escaped(n: char): char {
    if n == 'n' then '\n' else if n == 't' then '\t' else if n == 'r' then '\r' else n
  }

  /** The body of a double-quoted scalar from position `i`, escapes resolved. */
  function Unescaped(b: string, i: nat): (r: string)
    requires i <= |b|
    ensures |r| <= |b| - i
    decreases |b| - i
  {
    if i == |b| then []
    else if b[i] == '\\' && i + 1 < |b| then [Escaped(b[i + 1])] + Unescaped(b, i + 2)
    else [b[i]] + Unescaped(b, i + 1)
  }

  /** The body of a single-quoted scalar from position `i`, doubled quotes halved. */
  function Undoubled(b: string, i: nat): (r: string)
    requires i <= |b|
    ensures |r| <= |b| - i
    decreases |b| - i
  {
    if i == |b| then []
    else if b[i] == '\'' && i + 1 < |b| && b[i + 1] == '\'' then ['\''] + Undoubled(b, i + 2)
    else [b[i]] + Undoubled(b, i + 1)
  }

  predicate IsDigit(c: char) { '0' <= c <= '9' }

  function SignLength(s: string): nat {
    if s != [] && (s[0] == '-' || s[0] == '+') then 1 else 0
  }

  /** An optional sign and at least one digit. */
  predicate IsInteger(s: string) {
    SignLength(s) < |s| && forall i :: SignLength(s) <= i < |s| ==> IsDigit(s[i])
  }

  function IntegerValue(s: string): int {
    var v: int := Value(s[SignLength(s)..], 10);
    if s != [] && s[0] == '-' then -v else v
  }

  predicate FitsInt64(n: int) {
    -0x8000_0000_0000_0000 <= n < 0x8000_0000_0000_0000
  }

  predicate IsEnclosed(s: string, quote: char) {
    |s| >= 2 && s[0] == quote && s[|s| - 1] == quote
  }

  function ScalarOf(raw: string): Json {
    var s := Trimmed(raw);
    if s == [] then JNull
    else if IsEnclosed(s, '"') then JString(Unescaped(s[1..|s| - 1], 0))
    else if IsEnclosed(s, '\'') then JString(Undoubled(s[1..|s| - 1], 0))
    else if s == "true" || s == "True" || s == "TRUE" then JBool(true)
    else if s == "false" || s == "False" || s == "FALSE" then JBool(false)
    else if s == "null" || s == "Null" || s == "NULL" || s == "~" then JNull
    else if IsInteger(s) && FitsInt64(IntegerValue(s)) then JInt(IntegerValue(s))
    else JString(s)
  }

  method Unescape(b: string) returns (out: string)
    ensures out == Unescaped(b, 0)
  {
    hide Unescaped;
    out := "";
    var i := 0;
    while i < |b|
      invariant 0 <= i <= |b|
      invariant Unescaped(b, 0) == out + Unescaped(b, i)
    {
      UnescapedNext(b, i);
      var c := b[i];
      if c == '\\' && i + 1 < |b| {
        i := i + 1;
        out := out + [Escaped(b[i])];
      } else {
        out := out + [c];
      }
      i := i + 1;
    }
    assert Unescaped(b, |b|) == "" by { UnescapedEnd(b); }
  }

  lemma {:induction false} UnescapedNext(b: string, i: nat)
    requires i < |b|
    ensures var pair := b[i] == '\\' && i + 1 < |b|;
            Unescaped(b, i) == if pair then [Escaped(b[i + 1])] + Unescaped(b, i + 2) else [b[i]] + Unescaped(b, i + 1)
  {
  }

  lemma {:induction false} UnescapedEnd(b: string)
    ensures Unescaped(b, |b|) == ""
  {
  }

  method Undouble(b: string) returns (out: string)
    ensures out == Undoubled(b, 0)
  {
    hide Undoubled;
    out := "";
    var i := 0;
    while i < |b|
      invariant 0 <= i <= |b|
      invariant Undoubled(b, 0) == out + Undoubled(b, i)
    {
      UndoubledNext(b, i);
      if b[i] == '\'' && i + 1 < |b| && b[i + 1] == '\'' {
        out := out + ['\''];
        i := i + 1;
      } else {
        out := out + [b[i]];
      }
      i := i + 1;
    }
    assert Undoubled(b, |b|) == "" by { UndoubledEnd(b); }
  }

  lemma {:induction false} UndoubledNext(b: string, i: nat)
    requires i < |b|
    ensures var pair := b[i] == '\'' && i + 1 < |b| && b[i + 1] == '\'';
            Undoubled(b, i) == if pair then ['\''] + Undoubled(b, i + 2) else [b[i]] + Undoubled(b, i + 1)
  {
  }

  lemma {:induction false} UndoubledEnd(b: string)
    ensures Undoubled(b, |b|) == ""
  {
  }

  /** The digit test shared by the reader (`is_int`) and the quoting rule (`numeric`). */
  method TestInteger(s: string) returns (numeric: bool)
    ensures numeric == IsInteger(s)
  {
    numeric := true;
    var start := 0;
    if s != [] && (s[0] == '-' || s[0] == '+') {
      start := 1;
    }
    if start == |s| {
      numeric := false;
    }
    var i := start;
    while i < |s| && numeric
      invariant start <= i <= |s|
      invariant numeric ==> start < |s| && forall j :: start <= j < i ==> IsDigit(s[j])
      invariant !numeric ==> !IsInteger(s)
    {
      if !IsDigit(s[i]) {
        numeric := false;
      }
      i := i + 1;
    }
  }

  method ParseScalar(raw: string) returns (r: Json)
    ensures r == ScalarOf(raw)
  {
    var s := Trim(raw);
    if s == [] {
      return JNull;
    }
    if |s| >= 2 && s[0] == '"' && s[|s| - 1] == '"' {
      var out := Unescape(s[1..|s| - 1]);
      return JString(out);
    }
    if |s| >= 2 && s[0] == '\'' && s[|s| - 1] == '\'' {
      var out := Undouble(s[1..|s| - 1]);
      return JString(out);
    }
    if s == "true" || s == "True" || s == "TRUE" {
      return JBool(true);
    }
    if s == "false" || s == "False" || s == "FALSE" {
      return JBool(false);
    }
    if s == "null" || s == "Null" || s == "NULL" || s == "~" {
      return JNull;
    }
    var isInt := TestInteger(s);
    if isInt && FitsInt64(IntegerValue(s)) {
      return JInt(IntegerValue(s));
    }
    return JString(s);
  }

  // ------------------------------------------------------------------ writing

  const RESERVED: set<string> :=
    {"true", "True", "TRUE", "false", "False", "FALSE", "null", "Null", "NULL",
     "yes", "no", "Yes", "No", "~"}

  predicate IsSpecial(c: char) {
    c in "[]{},*&!|>'\"%@`#"
  }

  predicate HasColonSpace(s: string) {
    exists i :: 0 <= i < |s| - 1 && s[i] == ':' && s[i + 1] == ' '
  }

  predicate NeedsQuoting(s: string) {
    s == []
    || IsSpecial(s[0])
    || s[0] == ' ' || s[|s| - 1] == ' '
    || HasColonSpace(s)
    || s[|s| - 1] == ':'
    || '\n' in s
    || s in RESERVED
    || IsInteger(s)
  }

  function Doubled(s: string): string {
    if s == [] then [] else Doubled(s[..|s| - 1]) + (if s[|s| - 1] == '\'' then "''" else [s[|s| - 1]])
  }

  function Quoted(s: string): string {
    "'" + Doubled(s) + "'"
  }

  method TestNeedsQuoting(s: string) returns (r: bool)
    ensures r == NeedsQuoting(s)
  {
    if s == [] { return true; }
    if IsSpecial(s[0]) { return true; }
    if s[0] == ' ' || s[|s| - 1] == ' ' { return true; }
    if HasColonSpace(s) { return true; }
    if s[|s| - 1] == ':' { return true; }
    if '\n' in s { return true; }
    if s in RESERVED { return true; }
    r := TestInteger(s);
  }

  method QuoteString(s: string) returns (out: string)
    ensures out == Quoted(s)
  {
    out := "'";
    for i := 0 to |s|
      invariant out == "'" + Doubled(s[..i])
    {
      assert s[..i + 1][..i] == s[..i];
      if s[i] == '\'' {
        out := out + "''";
      } else {
        out := out + [s[i]];
      }
    }
    assert s[..|s|] == s;
    out := out + "'";
  }

  /** What the writer prints for a value on one line. */
  function ScalarText(v: Json): string {
    match v
    case JNull => "null"
    case JBool(b) => if b then "true" else "false"
    case JInt(n) => IntegerText(n)
    case JString(s) => if NeedsQuoting(s) then Quoted(s) else s
    case JArray(_) => "[]"
    case JObject(_) => "{}"
  }
}
