/** Scalars and comments as a document may have them: escapes, words, numbers, and when the writer quotes. */
module YamlFormat {
  import opened Json
  import opened Numerals
  import opened Text
  import opened YamlText
  import opened YamlScalar
  import opened YamlLineProofs
  import opened YamlScalarProofs

  // ------------------------------------------------------------------ double-quoted scalars

  /** A text as it can be written between double quotes. */
  function EscapedText(s: string): string {
    if s == "" then ""
    else EscapedChar(s[0]) + EscapedText(s[1..])
  }

  function EscapedChar(c: char): string {
    if c == '\n' then "\\n"
    else if c == '\t' then "\\t"
    else if c == '\r' then "\\r"
    else if c == '"' then "\\\""
    else if c == '\\' then "\\\\"
    else [c]
  }

  lemma {:induction false} UnescapedShift(a: string, b: string, i: nat)
    requires i <= |b|
    ensures Unescaped(a + b, |a| + i) == Unescaped(b, i)
    decreases |b| - i
  {
    hide Escaped, Unescaped;
    if i == |b| {
      UnescapedEnd(b);
      UnescapedEnd(a + b);
    } else {
      UnescapedNext(b, i);
      UnescapedNext(a + b, |a| + i);
      if b[i] == '\\' && i + 1 < |b| {
        UnescapedShift(a, b, i + 2);
      } else {
        UnescapedShift(a, b, i + 1);
      }
    }
  }

  /** A backslash stands for a line feed, a tab or a carriage return with `n`, `t` and `r` behind it, and for
      the character behind it otherwise; everything else stands for itself. */
  lemma {:induction false} UnescapedSays(c: char, rest: string)
    ensures Unescaped("", 0) == ""
    ensures Unescaped("\\n" + rest, 0) == "\n" + Unescaped(rest, 0)
    ensures Unescaped("\\t" + rest, 0) == "\t" + Unescaped(rest, 0)
    ensures Unescaped("\\r" + rest, 0) == "\r" + Unescaped(rest, 0)
    ensures c != 'n' && c != 't' && c != 'r' ==> Unescaped(['\\', c] + rest, 0) == [c] + Unescaped(rest, 0)
    ensures c != '\\' ==> Unescaped([c] + rest, 0) == [c] + Unescaped(rest, 0)
  {
    hide Unescaped;
    UnescapedEnd("");
    PairSays('n', rest);
    PairSays('t', rest);
    PairSays('r', rest);
    PairSays(c, rest);
    if c != '\\' {
      UnescapedNext([c] + rest, 0);
      UnescapedShift([c], rest, 0);
    }
  }

  lemma {:induction false} PairSays(c: char, rest: string)
    ensures Unescaped(['\\', c] + rest, 0) == [Escaped(c)] + Unescaped(rest, 0)
  {
    hide Unescaped, Escaped;
    UnescapedNext(['\\', c] + rest, 0);
    UnescapedShift(['\\', c], rest, 0);
  }

  lemma {:induction false} EscapedReads(s: string)
    ensures Unescaped(EscapedText(s), 0) == s
  {
    hide Unescaped;
    if s == "" {
      UnescapedEnd("");
    } else {
      EscapedReads(s[1..]);
      UnescapedSays(s[0], EscapedText(s[1..]));
    }
  }

  /** Any text at all can be read from double quotes. */
  lemma {:induction false} DoubleQuotedReads(s: string)
    ensures ScalarOf("\"" + EscapedText(s) + "\"") == JString(s)
  {
    hide EscapedText, Trimmed;
    var t := "\"" + EscapedText(s) + "\"";
    TrimmedFixed(t);
    assert t[1..|t| - 1] == EscapedText(s);
    EscapedReads(s);
  }

  // ------------------------------------------------------------------ plain scalars

  /** The words that are no strings, with blanks around them or not. */
  lemma {:induction false} WordsRead(s: string)
    requires Trimmed(s) in ["true", "True", "TRUE", "false", "False", "FALSE", "null", "Null", "NULL", "~", ""]
    ensures Trimmed(s) in ["true", "True", "TRUE"] ==> ScalarOf(s) == JBool(true)
    ensures Trimmed(s) in ["false", "False", "FALSE"] ==> ScalarOf(s) == JBool(false)
    ensures Trimmed(s) in ["null", "Null", "NULL", "~", ""] ==> ScalarOf(s) == JNull
  {
    hide Trimmed;
  }

  predicate AreDigits(s: string) {
    s != "" && forall i :: 0 <= i < |s| ==> '0' <= s[i] <= '9'
  }

  lemma {:induction false} ValueIsDecimal(s: string)
    requires forall i :: 0 <= i < |s| ==> '0' <= s[i] <= '9'
    ensures Value(s, 10) == Numerals.Decimal(s)
  {
    if s != "" { ValueIsDecimal(s[..|s| - 1]); }
  }

  /** Digits behind an optional sign are a number if it fits into 64 bits, and a string otherwise. */
  lemma {:induction false} DigitsRead(digits: string)
    requires AreDigits(digits)
    ensures var n := Numerals.Decimal(digits);
            && ScalarOf(digits) == (if n < 0x8000_0000_0000_0000 then JInt(n) else JString(digits))
            && ScalarOf("+" + digits) == (if n < 0x8000_0000_0000_0000 then JInt(n) else JString("+" + digits))
            && ScalarOf("-" + digits)
               == (if n <= 0x8000_0000_0000_0000 then JInt(-(n as int)) else JString("-" + digits))
  {
    hide Trimmed, Value, Numerals.Decimal, ScalarOf;
    ValueIsDecimal(digits);
    assert ("+" + digits)[1..] == digits && ("-" + digits)[1..] == digits && digits[0..] == digits;
    NumberReads(digits);
    NumberReads("+" + digits);
    NumberReads("-" + digits);
  }

  lemma {:induction false} NumberReads(s: string)
    requires s != "" && (AreDigits(s) || ((s[0] == '-' || s[0] == '+') && AreDigits(s[1..])))
    ensures IsInteger(s)
    ensures ScalarOf(s) == if FitsInt64(IntegerValue(s)) then JInt(IntegerValue(s)) else JString(s)
  {
    hide Trimmed, IntegerValue, FitsInt64;
    assert '0' <= s[|s| - 1] <= '9' by { if !AreDigits(s) { assert s[1..][|s| - 2] == s[|s| - 1]; } }
    TrimmedFixed(s);
    if !AreDigits(s) { assert forall i :: 1 <= i < |s| ==> s[i] == s[1..][i - 1]; }
  }

  // ------------------------------------------------------------------ comments

  predicate HasNoQuotes(s: string) {
    forall i :: 0 <= i < |s| ==> s[i] != '"' && s[i] != '\''
  }

  predicate HasNoMark(s: string) {
    forall i :: 0 < i < |s| ==> !(s[i] == '#' && s[i - 1] == ' ')
  }

  lemma {:induction false} HashIsFirst(s: string, k: nat, at: nat)
    requires k <= at <= |s|
    requires forall i :: k <= i < at ==> s[i] != '"' && s[i] != '\'' && !(s[i] == '#' && i > 0 && s[i - 1] == ' ')
    requires at < |s| ==> s[at] == '#' && at > 0 && s[at - 1] == ' '
    ensures HashAt(s, k, OUTSIDE) == at
    decreases at - k
  {
    if k < at { HashIsFirst(s, k + 1, at); }
  }

  /** Outside quotes a comment begins at a `#` behind a blank, and is cut off with the blanks before it; a
      text without one is kept. */
  lemma {:induction false} CommentIsCut(s: string, comment: string)
    requires HasNoQuotes(s) && HasNoMark(s) && s != "" && s[|s| - 1] != ' '
    ensures CutComment(s, 0) == s
    ensures CutComment(s + " #" + comment, 0) == s
  {
    hide HashAt, SkipBack;
    HashIsFirst(s, 0, |s|);
    var t := s + " #" + comment;
    assert forall i :: 0 <= i < |s| ==> t[i] == s[i];
    HashIsFirst(t, 0, |s| + 1);
    assert t[..|s| + 1] == s + " ";
    StripRightIs(s + " ", |s|, Blank);
    assert (s + " ")[..|s|] == s;
  }

  // ------------------------------------------------------------------ white space and quotes

  /** A blank, or one of the five control characters from the tab to the carriage return. */
  predicate IsWhite(c: char) {
    c as nat == 32 || c as nat == 9 || c as nat == 10 || c as nat == 11 || c as nat == 12 || c as nat == 13
  }

  lemma {:induction false} WhiteIs(c: char)
    ensures In(c, White) <==> IsWhite(c)
  {
  }

  /** Trimming takes the white space at both ends away. */
  lemma {:induction false} TrimmedSays(left: string, s: string, right: string)
    requires s != "" && !IsWhite(s[0]) && !IsWhite(s[|s| - 1])
    requires forall c :: c in left || c in right ==> IsWhite(c)
    ensures Trimmed(left + s + right) == s
  {
    hide In, IsWhite, Trimmed;
    var t := left + s + right;
    forall i | 0 <= i < |t|
      ensures In(t[i], White) <==> IsWhite(t[i])
    {
      WhiteIs(t[i]);
    }
    assert forall i :: 0 <= i < |left| ==> t[i] in left;
    assert forall i :: |left| + |s| <= i < |t| ==> t[i] in right;
    TrimmedIs(t, |left|, |left| + |s|);
    assert t[|left|..|left| + |s|] == s;
  }

  /** Inside quotes neither a colon nor a `#` counts, nor do quotes of the other kind. */
  lemma {:induction false} QuotesHide(s: string, quote: char)
    requires (quote == '"' || quote == '\'') && quote !in s
    ensures var t := [quote] + s + [quote];
            ColonAt(t, 0, OUTSIDE) == |t| && CutComment(t, 0) == t
  {
    hide ColonAt, HashAt;
    var t := [quote] + s + [quote];
    FirstQuote(t, quote);
    assert forall i :: 0 <= i < |s| ==> t[i + 1] == s[i] && s[i] in s;
    InsideQuotes(t, quote, 1);
  }

  function Within(quote: char): Quotes {
    if quote == '"' then Quotes(true, false) else Quotes(false, true)
  }

  lemma {:induction false} FirstQuote(t: string, quote: char)
    requires t != "" && t[0] == quote && (quote == '"' || quote == '\'')
    ensures ColonAt(t, 0, OUTSIDE) == ColonAt(t, 1, Within(quote))
    ensures HashAt(t, 0, OUTSIDE) == HashAt(t, 1, Within(quote))
  {
  }

  lemma {:induction false} InsideQuotes(t: string, quote: char, k: nat)
    requires (quote == '"' || quote == '\'') && 0 < k < |t| && t[|t| - 1] == quote
    requires forall i :: k <= i < |t| - 1 ==> t[i] != quote
    ensures ColonAt(t, k, Within(quote)) == |t| && HashAt(t, k, Within(quote)) == |t|
    decreases |t| - k
  {
    if k < |t| - 1 { InsideQuotes(t, quote, k + 1); }
  }

  // ------------------------------------------------------------------ when the writer quotes

  predicate IsReservedWord(s: string) {
    s in ["true", "True", "TRUE", "false", "False", "FALSE"] || s in ["null", "Null", "NULL", "~"]
    || s in ["yes", "no", "Yes", "No"]
  }

  predicate IsIndicator(c: char) {
    c == '[' || c == ']' || c == '{' || c == '}' || c == ',' || c == '*' || c == '&' || c == '!' || c == '|'
    || c == '>' || c == '\'' || c == '"' || c == '%' || c == '@' || c == '`' || c == '#'
  }

  /** A string is quoted when it is empty, begins with an indicator or has a blank at an end, has a colon
      before a blank or at its end, breaks lines, or could be read as a word or a number. */
  lemma {:induction false} QuotedExactly(s: string)
    ensures ScalarText(JString(s)) == s <==>
      && s != "" && !IsIndicator(s[0]) && s[0] != ' ' && s[|s| - 1] != ' ' && s[|s| - 1] != ':'
      && (forall i :: 0 < i < |s| ==> !(s[i - 1] == ':' && s[i] == ' '))
      && '\n' !in s && !IsReservedWord(s) && !AreDigits(s)
      && !((s[0] == '-' || s[0] == '+') && AreDigits(s[1..]))
  {
    hide IsSpecial, IsIndicator, IsReservedWord, AreDigits, Doubled;
    if s != "" {
      IndicatorsAre(s[0]);
      NumbersAre(s);
      ColonsAre(s);
    }
    WordsAre(s);
    hide HasColonSpace, IsInteger;
    DoubledIsLonger(s);
  }

  lemma {:induction false} DoubledIsLonger(s: string)
    ensures |Doubled(s)| >= |s|
  {
    if s != "" { DoubledIsLonger(s[..|s| - 1]); }
  }

  lemma {:induction false} IndicatorsAre(c: char)
    ensures IsSpecial(c) <==> IsIndicator(c)
  {
  }

  lemma {:induction false} WordsAre(s: string)
    ensures s in RESERVED <==> IsReservedWord(s)
  {
  }

  lemma {:induction false} ColonsAre(s: string)
    ensures HasColonSpace(s) <==> !(forall i :: 0 < i < |s| ==> !(s[i - 1] == ':' && s[i] == ' '))
  {
    if i :| 0 <= i < |s| - 1 && s[i] == ':' && s[i + 1] == ' ' {
      assert s[(i + 1) - 1] == ':' && s[i + 1] == ' ';
    }
  }

  lemma {:induction false} NumbersAre(s: string)
    requires s != ""
    ensures IsInteger(s) <==> AreDigits(s) || ((s[0] == '-' || s[0] == '+') && AreDigits(s[1..]))
  {
    assert forall i :: 1 <= i < |s| ==> s[i] == s[1..][i - 1];
  }
}
