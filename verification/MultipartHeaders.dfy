/** The header lines of a multipart part: what the parser takes from one line, and the lines
    the serializer writes. */
module MultipartHeaders {
  import opened Text
  import opened Json
  import opened UrlDecoding
  import Query

  datatype File = File(name: string, filename: string, contentType: string)

  const NO_FILE := File("", "", "")

  // ------------------------------------------------------------------ reading a line

  function Trim2(s: string): (r: string)
    ensures |r| <= |s|
  {
    var i := SkipForward(s, 0, BlankOrTab);
    s[i..SkipBack(s, i, |s|, BlankOrTab)]
  }

  /** `parse_header`: a key, a colon and a value that is not blank. */
  predicate IsHeader(h: string) {
    var e := SkipBack(h, 0, |h|, BlankOrTab);
    var p := FindChar(h, ':', 0);
    0 < p < e && SkipForward(h, p + 1, BlankOrTab) < e
  }

  function Lower(c: char): char {
    if 'A' <= c <= 'Z' then 'a' + (c - 'A') else c
  }

  /** `prefix` is given in lower case. */
  predicate StartsWithNoCase(s: string, prefix: string) {
    |prefix| <= |s| && forall i :: 0 <= i < |prefix| ==> Lower(s[i]) == prefix[i]
  }

  const TYPE_KEY := "content-type:"
  const DISPOSITION_KEY := "content-disposition:"
  const FORM_DATA := "form-data;"

  /** The parameters of a line matching `Content-Disposition: form-data; ...`. */
  function DispositionParams(h: string): Option<string> {
    if !StartsWithNoCase(h, DISPOSITION_KEY) then None
    else
      var p := SkipForward(h, |DISPOSITION_KEY|, White);
      if !StartsWithNoCase(h[p..], FORM_DATA) then None
      else
        var q := SkipForward(h, p + |FORM_DATA|, White);
        if '\n' in h[q..] || '\r' in h[q..] then None else Some(h[q..])
  }

  /** The non-blank pieces of `s` between delimiters, each without blanks at its ends. */
  function Pieces(s: string, d: char): (r: seq<string>)
    ensures forall x :: x in r ==> x != ""
    decreases |s|
  {
    var k := FindChar(s, d, 0);
    var piece := Trim2(s[..k]);
    (if piece != "" then [piece] else []) + (if k < |s| then Pieces(s[k + 1..], d) else [])
  }

  function Unquote(s: string): string {
    if |s| >= 2 && s[0] == '"' && s[|s| - 1] == '"' then s[1..|s| - 1] else s
  }

  /** The value of the first parameter with the given key.  In `a=b=c` the last piece wins. */
  function Param(ps: seq<string>, key: string): Option<string> {
    if ps == [] then None
    else
      var kv := Pieces(ps[0], '=');
      if kv != [] && Unquote(kv[0]) == key then Some(if |kv| > 1 then Unquote(kv[|kv| - 1]) else "")
      else Param(ps[1..], key)
  }

  const UTF8_MARK := "utf-8''"

  /** The file name of an extended parameter: percent-encoded text behind the mark of its encoding. */
  function ExtendedName(v: string): Option<string> {
    if StartsWithNoCase(v, UTF8_MARK) && |v| > |UTF8_MARK| then Some(DecodedUrl(v[|UTF8_MARK|..], false)) else None
  }

  /** What one header line does to the part being read; `None` makes the form invalid. */
  function HeaderEffect(h: string, f: File): Option<File> {
    if !IsHeader(h) then None
    else if StartsWithNoCase(h, TYPE_KEY) then Some(f.(contentType := Trim2(h[|TYPE_KEY|..])))
    else
      var m := DispositionParams(h);
      if m.None? then Some(f) else ParamsEffect(Pieces(m.value, ';'), f)
  }

  /** The parameters of a disposition set the names; `filename*` overrides `filename`. */
  function ParamsEffect(ps: seq<string>, f: File): Option<File> {
    var name, extended := Param(ps, "name"), Param(ps, "filename*");
    if name.None? then None
    else if extended.None? then Some(f.(name := name.value, filename := Param(ps, "filename").GetOr(f.filename)))
    else if ExtendedName(extended.value).None? then None
    else Some(f.(name := name.value, filename := ExtendedName(extended.value).value))
  }

  // ------------------------------------------------------------------ writing the lines

  function DispositionLine(f: File): string {
    "Content-Disposition: form-data; name=\"" + f.name + "\""
    + (if f.filename != "" then "; filename=\"" + f.filename + "\"" else "")
  }

  function TypeLine(f: File): string {
    "Content-Type: " + f.contentType
  }

  function HeaderLines(f: File): seq<string> {
    [DispositionLine(f)] + (if f.contentType != "" then [TypeLine(f)] else [])
  }

  /** Names the disposition parameters can carry. */
  predicate IsPlainName(s: string) {
    ';' !in s && '=' !in s && '\r' !in s && '\n' !in s
  }

  /** No blanks at the ends. */
  predicate IsTrimmed(s: string) {
    s != "" ==> !In(s[0], BlankOrTab) && !In(s[|s| - 1], BlankOrTab)
  }

  predicate IsPlainType(s: string) {
    '\r' !in s && '\n' !in s && IsTrimmed(s)
  }

  predicate IsPlainFile(f: File) {
    IsPlainName(f.name) && IsPlainName(f.filename) && IsPlainType(f.contentType)
  }

  // ------------------------------------------------------------------ a line reads back

  lemma {:induction false} Trim2Is(s: string, i: nat, j: nat)
    requires i < j <= |s| && !In(s[i], BlankOrTab) && !In(s[j - 1], BlankOrTab)
    requires forall m :: 0 <= m < i ==> In(s[m], BlankOrTab)
    requires forall m :: j <= m < |s| ==> In(s[m], BlankOrTab)
    ensures Trim2(s) == s[i..j]
  {
  }

  lemma {:induction false} PiecesStep(piece: string, d: char, rest: string)
    requires piece != "" && d !in piece && !In(piece[0], BlankOrTab) && !In(piece[|piece| - 1], BlankOrTab)
    ensures Pieces(piece + [d] + rest, d) == [piece] + Pieces(rest, d)
    ensures Pieces(piece, d) == [piece]
  {
    var s := piece + [d] + rest;
    assert forall j :: 0 <= j < |piece| ==> s[j] == piece[j] && piece[j] in piece;
    FindCharIs(s, d, 0, |piece|);
    FindCharIs(piece, d, 0, |piece|);
    Trim2Is(piece, 0, |piece|);
    assert s[..|piece|] == piece && s[|piece| + 1..] == rest && piece[..|piece|] == piece;
  }

  lemma {:induction false} FindAfterBlank(s: string, d: char)
    requires d != ' '
    ensures FindChar(" " + s, d, 0) == FindChar(s, d, 0) + 1
  {
    hide FindChar;
    var k, b := FindChar(s, d, 0), " " + s;
    assert forall j :: 1 <= j < |b| ==> b[j] == s[j - 1];
    FindCharIs(b, d, 0, k + 1);
  }

  lemma {:induction false} PiecesAfterBlank(s: string, d: char)
    requires s != "" && !In(s[0], BlankOrTab) && s[0] != d && d != ' '
    ensures Pieces(" " + s, d) == Pieces(s, d)
  {
    hide FindChar, Trim2, Pieces;
    var k, b := FindChar(s, d, 0), " " + s;
    FindAfterBlank(s, d);
    PiecesAre(s, d);
    PiecesAre(b, d);
    assert b[..k + 1] == " " + s[..k];
    TrimBoth(s[..k]);
    assert k < |s| ==> b[k + 2..] == s[k + 1..];
  }

  lemma {:induction false} TrimBoth(s: string)
    requires s != "" && !In(s[0], BlankOrTab)
    ensures Trim2(" " + s) == Trim2(s)
  {
    var j := SkipBack(s, 0, |s|, BlankOrTab);
    assert j > 0;
    Trim2Is(s, 0, j);
    Trim2Is(" " + s, 1, j + 1);
    assert (" " + s)[1..j + 1] == s[0..j];
  }

  function KeyValue(key: string, v: string): string {
    key + "=\"" + v + "\""
  }

  lemma {:induction false} KeyValueReads(key: string, v: string)
    requires IsPlainName(v) && key != "" && '=' !in key && '"' !in key
    requires !In(key[0], BlankOrTab) && !In(key[|key| - 1], BlankOrTab)
    ensures Pieces(KeyValue(key, v), '=') == [key, "\"" + v + "\""]
    ensures Unquote(key) == key && Unquote("\"" + v + "\"") == v
  {
    hide Pieces, Unquote;
    var q := "\"" + v + "\"";
    assert KeyValue(key, v) == key + ['='] + q;
    PiecesStep(key, '=', q);
    PiecesStep(q, '=', "");
    KeyUnquoted(key);
    ValueUnquoted(v);
  }

  lemma {:induction false} KeyUnquoted(key: string)
    requires key != "" && '"' !in key
    ensures Unquote(key) == key
  {
    assert key[0] in key;
  }

  lemma {:induction false} ValueUnquoted(v: string)
    ensures Unquote("\"" + v + "\"") == v
  {
    var q := "\"" + v + "\"";
    assert q[1..|q| - 1] == v;
  }

  function FilenameSuffix(f: File): string {
    if f.filename != "" then "; filename=\"" + f.filename + "\"" else ""
  }

  lemma {:induction false} KeyValueShape(key: string, v: string)
    requires IsPlainName(v) && key != "" && ';' !in key && !In(key[0], BlankOrTab)
    ensures var kv := KeyValue(key, v);
            ';' !in kv && kv != "" && !In(kv[0], BlankOrTab) && kv[0] == key[0] && kv[|kv| - 1] == '"'
  {
    var kv := KeyValue(key, v);
    assert kv == key + "=\"" + v + "\"";
  }

  /** The parameter pieces of a disposition line. */
  lemma {:induction false} DispositionPieces(f: File)
    requires IsPlainName(f.name) && IsPlainName(f.filename)
    ensures Pieces(KeyValue("name", f.name) + FilenameSuffix(f), ';')
         == [KeyValue("name", f.name)] + (if f.filename != "" then [KeyValue("filename", f.filename)] else [])
  {
    hide KeyValue, Pieces, IsPlainName, IsPlainType;
    var n, g := KeyValue("name", f.name), KeyValue("filename", f.filename);
    KeyValueShape("name", f.name);
    KeyValueShape("filename", f.filename);
    if f.filename == "" {
      assert n + "" == n;
      PiecesStep(n, ';', "");
    } else {
      SuffixIs(f);
      PiecesStep(n, ';', " " + g);
      PiecesAfterBlank(g, ';');
      PiecesStep(g, ';', "");
    }
  }

  lemma {:induction false} SuffixIs(f: File)
    requires f.filename != ""
    ensures KeyValue("name", f.name) + FilenameSuffix(f)
         == KeyValue("name", f.name) + [';'] + (" " + KeyValue("filename", f.filename))
  {
    assert FilenameSuffix(f) == [';'] + (" " + KeyValue("filename", f.filename));
  }

  const DISPOSITION_START := "Content-Disposition: form-data; "

  lemma {:induction false} DispositionIs(f: File)
    ensures DispositionLine(f) == DISPOSITION_START + (KeyValue("name", f.name) + FilenameSuffix(f))
  {
  }

  lemma {:induction false} ParametersShape(f: File)
    requires IsPlainName(f.name) && IsPlainName(f.filename)
    ensures var m := KeyValue("name", f.name) + FilenameSuffix(f);
            m != "" && m[0] == 'n' && m[|m| - 1] == '"' && '\n' !in m && '\r' !in m
  {
    KeyValueShape("name", f.name);
    assert '\n' !in KeyValue("name", f.name) && '\r' !in KeyValue("name", f.name);
    assert '\n' !in FilenameSuffix(f) && '\r' !in FilenameSuffix(f);
  }

  lemma {:induction false} DispositionParses(f: File)
    requires IsPlainName(f.name) && IsPlainName(f.filename)
    ensures var h := DispositionLine(f);
            IsHeader(h) && !StartsWithNoCase(h, TYPE_KEY)
            && DispositionParams(h) == Some(KeyValue("name", f.name) + FilenameSuffix(f))
  {
    hide KeyValue, FilenameSuffix, DispositionLine, IsPlainName, IsPlainType, DispositionParams;
    var h := DispositionLine(f);
    var m := KeyValue("name", f.name) + FilenameSuffix(f);
    DispositionIs(f);
    ParametersShape(f);
    HeaderStart(h, m);
    DispositionStart(h, m);
  }

  lemma {:induction false} HeaderStart(h: string, m: string)
    requires h == DISPOSITION_START + m && m != "" && m[0] == 'n' && !In(m[|m| - 1], BlankOrTab)
    ensures IsHeader(h) && !StartsWithNoCase(h, TYPE_KEY)
  {
    var start := DISPOSITION_START;
    assert |start| == 32;
    assert forall i :: 0 <= i < 32 ==> h[i] == start[i];
    assert h[32] == 'n' && h[|h| - 1] == m[|m| - 1];
    FindCharIs(h, ':', 0, 19);
    assert h[8] != TYPE_KEY[8];
  }

  lemma {:induction false} DispositionStart(h: string, m: string)
    requires h == DISPOSITION_START + m && m != "" && !In(m[0], White)
    requires '\n' !in m && '\r' !in m
    ensures DispositionParams(h) == Some(m)
  {
    hide StartsWithNoCase;
    var start := DISPOSITION_START;
    DispositionPrefix(h, m);
    assert h[20] == start[20] == ' ' && h[21] == start[21] == 'f';
    assert SkipForward(h, 20, White) == 21;
    assert h[31] == start[31] == ' ' && h[32] == m[0];
    assert SkipForward(h, 31, White) == 32 && h[32..] == m;
  }

  lemma {:induction false} StartsWithMore(a: string, m: string, prefix: string)
    requires StartsWithNoCase(a, prefix)
    ensures StartsWithNoCase(a + m, prefix)
  {
  }

  lemma {:induction false} DispositionConstants()
    ensures StartsWithNoCase(DISPOSITION_START, DISPOSITION_KEY)
    ensures StartsWithNoCase(DISPOSITION_START[21..], FORM_DATA)
  {
  }

  lemma {:induction false} DispositionPrefix(h: string, m: string)
    requires h == DISPOSITION_START + m
    ensures StartsWithNoCase(h, DISPOSITION_KEY) && StartsWithNoCase(h[21..], FORM_DATA)
  {
    hide StartsWithNoCase;
    DispositionConstants();
    StartsWithMore(DISPOSITION_START, m, DISPOSITION_KEY);
    StartsWithMore(DISPOSITION_START[21..], m, FORM_DATA);
    assert h[21..] == DISPOSITION_START[21..] + m;
  }

  lemma {:induction false} ParamFirst(key: string, v: string, rest: seq<string>, wanted: string)
    requires Pieces(KeyValue(key, v), '=') == [key, "\"" + v + "\""]
    requires Unquote(key) == key && Unquote("\"" + v + "\"") == v
    ensures Param([KeyValue(key, v)] + rest, wanted) == if wanted == key then Some(v) else Param(rest, wanted)
  {
    hide Pieces, Unquote, KeyValue;
    assert ([KeyValue(key, v)] + rest)[1..] == rest;
  }

  lemma {:induction false} PlainDispositionReadsBack(f: File)
    requires IsPlainName(f.name) && IsPlainName(f.filename)
    ensures HeaderEffect(DispositionLine(f), NO_FILE) == Some(File(f.name, f.filename, ""))
  {
    hide Pieces, IsHeader, DispositionParams, StartsWithNoCase, DispositionLine, KeyValue, Unquote, FilenameSuffix;
    DispositionParses(f);
    DispositionPieces(f);
    KeyValueReads("name", f.name);
    KeyValueReads("filename", f.filename);
    var more := if f.filename != "" then [KeyValue("filename", f.filename)] else [];
    ParamFirst("name", f.name, more, "name");
    ParamFirst("name", f.name, more, "filename");
    ParamFirst("name", f.name, more, "filename*");
    if f.filename != "" {
      ParamFirst("filename", f.filename, [], "filename");
      ParamFirst("filename", f.filename, [], "filename*");
      assert more + [] == more;
    }
  }

  /** Every character of `part` is one of `whole`. */
  predicate IsMadeOf(part: string, whole: string) {
    forall i :: 0 <= i < |part| ==> part[i] in whole
  }

  lemma {:induction false} TrimMadeOf(s: string, whole: string)
    requires IsMadeOf(s, whole)
    ensures IsMadeOf(Trim2(s), whole)
  {
  }

  /** Pieces contain no delimiter and nothing that was not there. */
  lemma {:induction false} PiecesMadeOf(s: string, d: char)
    ensures forall x :: x in Pieces(s, d) ==> d !in x && IsMadeOf(x, s)
    decreases |s|
  {
    hide Trim2, FindChar;
    var k := FindChar(s, d, 0);
    assert IsMadeOf(s[..k], s[..k]);
    TrimMadeOf(s[..k], s[..k]);
    PieceMadeOf(s, k, Trim2(s[..k]), d);
    if k < |s| {
      PiecesMadeOf(s[k + 1..], d);
      forall x | x in Pieces(s[k + 1..], d)
        ensures IsMadeOf(x, s)
      {
        RestMadeOf(x, s, k + 1);
      }
    }
  }

  lemma {:induction false} PieceMadeOf(s: string, k: nat, x: string, d: char)
    requires k <= |s| && IsMadeOf(x, s[..k]) && forall i :: 0 <= i < k ==> s[i] != d
    ensures d !in x && IsMadeOf(x, s)
  {
    assert forall c :: c in s[..k] ==> c in s && c != d;
  }

  lemma {:induction false} RestMadeOf(x: string, s: string, k: nat)
    requires k <= |s| && IsMadeOf(x, s[k..])
    ensures IsMadeOf(x, s)
  {
    assert forall c :: c in s[k..] ==> c in s;
  }

  /** A parameter value holds neither `=` nor what the parameters do not hold. */
  lemma {:induction false} ParamMadeOf(ps: seq<string>, key: string, whole: string)
    requires forall p :: p in ps ==> IsMadeOf(p, whole) && ';' !in p
    ensures var v := Param(ps, key);
            v.Some? ==> IsMadeOf(v.value, whole) && '=' !in v.value && ';' !in v.value
    decreases |ps|
  {
    hide Pieces, Unquote, IsMadeOf;
    if ps != [] {
      ParamMadeOf(ps[1..], key, whole);
      var kv := Pieces(ps[0], '=');
      PiecesMadeOf(ps[0], '=');
      assert ps[0] in ps;
      if |kv| > 1 {
        ValueMadeOf(kv[|kv| - 1], ps[0], whole);
      } else {
        assert IsMadeOf("", whole) by { NothingMadeOf(whole); }
      }
    }
  }

  lemma {:induction false} NothingMadeOf(whole: string)
    ensures IsMadeOf("", whole)
  {
  }

  lemma {:induction false} ValueMadeOf(v: string, p: string, whole: string)
    requires IsMadeOf(v, p) && IsMadeOf(p, whole) && '=' !in v && ';' !in p
    ensures var u := Unquote(v); IsMadeOf(u, whole) && '=' !in u && ';' !in u
  {
    assert forall c :: c in Unquote(v) ==> c in v;
    assert forall c :: c in v ==> c in p && c in whole;
  }

  /** The value of `filename*` in a header line. */
  function Extended(h: string): Option<string> {
    var m := DispositionParams(h);
    if m.None? then None else Param(Pieces(m.value, ';'), "filename*")
  }

  /** Whatever the header line, the name it sets is a plain one, and so is the file name unless it
      comes from `filename*`. */
  lemma {:induction false} NamesReadArePlain(h: string, f: File)
    requires IsPlainName(f.name) && IsPlainName(f.filename)
    ensures var g := HeaderEffect(h, f);
            g.Some? ==> IsPlainName(g.value.name) && (IsPlainName(g.value.filename) || Extended(h).Some?)
  {
    hide IsHeader, StartsWithNoCase, Pieces, Param, Trim2, IsMadeOf, ExtendedName;
    var m := DispositionParams(h);
    if m.Some? {
      assert '\r' !in m.value && '\n' !in m.value by { ParamsOneLine(h); }
      hide DispositionParams;
      var ps := Pieces(m.value, ';');
      PiecesMadeOf(m.value, ';');
      ParamMadeOf(ps, "name", m.value);
      ParamMadeOf(ps, "filename", m.value);
      if Param(ps, "name").Some? { MadeOfOneLine(Param(ps, "name").value, m.value); }
      if Param(ps, "filename").Some? { MadeOfOneLine(Param(ps, "filename").value, m.value); }
    }
  }

  lemma {:induction false} ParamsOneLine(h: string)
    ensures var m := DispositionParams(h); m.Some? ==> '\r' !in m.value && '\n' !in m.value
  {
    hide StartsWithNoCase;
  }

  lemma {:induction false} MadeOfOneLine(v: string, whole: string)
    requires IsMadeOf(v, whole) && '\r' !in whole && '\n' !in whole
    ensures '\r' !in v && '\n' !in v
  {
  }

  /** A piece is no longer than the text, and two pieces and a delimiter fit into it. */
  lemma {:induction false} PiecesShort(s: string, d: char)
    ensures var ps := Pieces(s, d);
            && (forall x :: x in ps ==> |x| <= |s|)
            && (|ps| > 1 ==> |ps[0]| + 1 + |ps[|ps| - 1]| <= |s|)
    decreases |s|
  {
    hide FindChar, Trim2, Pieces;
    var k := FindChar(s, d, 0);
    var piece := Trim2(s[..k]);
    PiecesAre(s, d);
    if k < |s| {
      var later := Pieces(s[k + 1..], d);
      PiecesShort(s[k + 1..], d);
      LongestPiece(later, |s| - k - 1);
      if piece != "" && later != [] {
        assert ([piece] + later)[|later|] == later[|later| - 1];
      }
    }
  }

  lemma {:induction false} PiecesAre(s: string, d: char)
    ensures var k := FindChar(s, d, 0);
            var piece := Trim2(s[..k]);
            Pieces(s, d) == (if piece != "" then [piece] else []) + (if k < |s| then Pieces(s[k + 1..], d) else [])
  {
    hide FindChar, Trim2;
  }

  lemma {:induction false} LongestPiece(pieces: seq<string>, n: nat)
    requires forall x :: x in pieces ==> |x| <= n
    ensures pieces != [] ==> |pieces[|pieces| - 1]| <= n
  {
  }

  /** A parameter with its key fits into the piece it comes from. */
  lemma {:induction false} ParamShort(ps: seq<string>, key: string, bound: nat)
    requires forall p :: p in ps ==> |p| <= bound
    ensures var v := Param(ps, key);
            v.Some? && v.value != "" ==> |key| + 1 + |v.value| <= bound
    decreases |ps|
  {
    hide Pieces;
    if ps != [] {
      ParamShort(ps[1..], key, bound);
      PiecesShort(ps[0], '=');
      assert ps[0] in ps;
    }
  }

  /** The parameters of a disposition line are found where they were written, if they are on one line. */
  lemma {:induction false} ParametersAre(f: File)
    ensures var m := DispositionParams(DispositionLine(f));
            m.Some? ==> m.value == KeyValue("name", f.name) + FilenameSuffix(f)
  {
    hide StartsWithNoCase, DispositionLine;
    var h, m := DispositionLine(f), KeyValue("name", f.name) + FilenameSuffix(f);
    DispositionIs(f);
    var start := DISPOSITION_START;
    assert h[20] == start[20] == ' ' && h[21] == start[21] == 'f';
    assert SkipForward(h, 20, White) == 21;
    assert h[31] == start[31] == ' ' && h[32] == m[0] == 'n';
    assert SkipForward(h, 31, White) == 32 && h[32..] == m;
  }

  /** A file name cannot hold its own extended form: that is longer. */
  lemma {:induction false} NoNameInsideItself(f: File)
    requires IsPlainName(f.name) && f.filename != ""
    ensures var v := Extended(DispositionLine(f));
            v.Some? && ExtendedName(v.value).Some? ==> |ExtendedName(v.value).value| < |f.filename|
  {
    hide Pieces, DispositionParams, DispositionLine, KeyValue, Param, Unquote, StartsWithNoCase, IsPlainName;
    var n, g := KeyValue("name", f.name), " " + KeyValue("filename", f.filename);
    ParametersAre(f);
    SuffixIs(f);
    KeyValueShape("name", f.name);
    KeyValueReads("name", f.name);
    PiecesStep(n, ';', g);
    ParamFirst("name", f.name, Pieces(g, ';'), "filename*");
    PiecesShort(g, ';');
    assert |g| == |f.filename| + 12 by { KeyValueLength("filename", f.filename); }
    ParamShort(Pieces(g, ';'), "filename*", |g|);
    var v := Extended(DispositionLine(f));
    if v.Some? && |v.value| > 7 { DecodedShorter(v.value[7..], false); }
  }

  lemma {:induction false} KeyValueLength(key: string, v: string)
    ensures |KeyValue(key, v)| == |key| + |v| + 3
  {
  }

  lemma {:induction false} EffectExtended(h: string, f: File)
    ensures var g, v := HeaderEffect(h, f), Extended(h);
            g.Some? && v.Some? && IsHeader(h) && !StartsWithNoCase(h, TYPE_KEY) ==>
              ExtendedName(v.value).Some? && g.value.filename == ExtendedName(v.value).value
  {
    hide IsHeader, DispositionParams, Pieces, Param, ExtendedName, StartsWithNoCase;
  }

  lemma {:induction false} DispositionIsHeader(f: File)
    ensures IsHeader(DispositionLine(f)) && !StartsWithNoCase(DispositionLine(f), TYPE_KEY)
  {
    hide DispositionLine;
    DispositionIs(f);
    var m := KeyValue("name", f.name) + FilenameSuffix(f);
    assert m[0] == 'n' && m[|m| - 1] == '"';
    HeaderStart(DispositionLine(f), m);
  }

  /** The disposition line sets the name and, if there is one, the file name, exactly when both are
      plain. */
  lemma {:induction false} DispositionReadsBack(f: File)
    ensures HeaderEffect(DispositionLine(f), NO_FILE) == Some(File(f.name, f.filename, ""))
            <==> IsPlainName(f.name) && IsPlainName(f.filename)
  {
    hide HeaderEffect, IsPlainName, DispositionLine, Extended, ExtendedName, IsHeader, StartsWithNoCase;
    assert IsPlainName("") by { EmptyNameIsPlain(); }
    NamesReadArePlain(DispositionLine(f), NO_FILE);
    if IsPlainName(f.name) {
      if IsPlainName(f.filename) {
        PlainDispositionReadsBack(f);
      } else {
        NoNameInsideItself(f);
        DispositionIsHeader(f);
        EffectExtended(DispositionLine(f), NO_FILE);
      }
    }
  }

  // ------------------------------------------------------------------ the extended file name

  const EXTENDED_KEY := "filename*"

  /** An extended file name is written behind the mark of its encoding, percent-encoded. */
  function ExtendedValue(filename: string): string
    requires Query.IsBytes(filename)
  {
    "UTF-8''" + Query.Encoded(filename)
  }

  function ExtendedParam(filename: string): string
    requires Query.IsBytes(filename)
  {
    EXTENDED_KEY + "=" + ExtendedValue(filename)
  }

  function ExtendedLine(name: string, filename: string): string
    requires Query.IsBytes(filename)
  {
    DISPOSITION_START + (KeyValue("name", name) + ";" + (" " + ExtendedParam(filename)))
  }

  predicate IsMarkOrSafe(c: char) {
    c == '\'' || Query.IsSafe(c)
  }

  /** An extended value has no delimiters, blanks or quotes. */
  lemma {:induction false} ExtendedValueShape(filename: string)
    requires Query.IsBytes(filename)
    ensures var w := ExtendedValue(filename);
            |w| >= 7 && w[0] == 'U' && forall i :: 0 <= i < |w| ==> IsMarkOrSafe(w[i])
  {
    Query.EncodedSafe(filename);
    var mark := "UTF-8''";
    assert forall i :: 0 <= i < |mark| ==> IsMarkOrSafe(mark[i]);
    assert forall i :: 7 <= i < |ExtendedValue(filename)| ==>
        ExtendedValue(filename)[i] == Query.Encoded(filename)[i - 7];
  }

  lemma {:induction false} MarkOrSafe()
    ensures forall c :: IsMarkOrSafe(c) ==> c != ';' && c != '=' && c != '\r' && c != '\n' && !In(c, BlankOrTab)
  {
  }

  lemma {:induction false} ExtendedParamReads(filename: string)
    requires Query.IsBytes(filename)
    ensures Pieces(" " + ExtendedParam(filename), ';') == [ExtendedParam(filename)]
    ensures Pieces(ExtendedParam(filename), '=') == [EXTENDED_KEY, ExtendedValue(filename)]
  {
    hide Pieces, ExtendedValue, IsMarkOrSafe;
    var x, w := ExtendedParam(filename), ExtendedValue(filename);
    ExtendedValueShape(filename);
    MarkOrSafe();
    assert x[0] == 'f' && x[|x| - 1] == w[|w| - 1];
    assert ';' !in x by { assert ';' !in EXTENDED_KEY && ';' !in w; }
    PiecesAfterBlank(x, ';');
    PiecesStep(x, ';', "");
    assert x == EXTENDED_KEY + ['='] + w;
    PiecesStep(EXTENDED_KEY, '=', w);
    PiecesStep(w, '=', "");
  }

  lemma {:induction false} ExtendedParamFound(filename: string)
    requires Query.IsBytes(filename)
    ensures Param([ExtendedParam(filename)], "filename*") == Some(ExtendedValue(filename))
  {
    hide Pieces, ExtendedParam, ExtendedValue;
    ExtendedParamReads(filename);
    ExtendedValueShape(filename);
    KeyUnquoted(EXTENDED_KEY);
  }

  lemma {:induction false} ExtendedNameReads(filename: string)
    requires Query.IsBytes(filename)
    ensures ExtendedName(ExtendedValue(filename)) == if filename == "" then None else Some(filename)
  {
    hide DecodedUrl;
    var w := ExtendedValue(filename);
    StartsWithMore("UTF-8''", Query.Encoded(filename), UTF8_MARK);
    assert w[7..] == Query.Encoded(filename);
    DecodedEncoded(filename, false);
    assert filename != "" ==> Query.Encoded(filename) != "";
  }

  lemma {:induction false} ExtendedParses(name: string, filename: string)
    requires IsPlainName(name) && Query.IsBytes(filename)
    ensures var h := ExtendedLine(name, filename);
            IsHeader(h) && !StartsWithNoCase(h, TYPE_KEY)
            && DispositionParams(h) == Some(KeyValue("name", name) + ";" + (" " + ExtendedParam(filename)))
  {
    hide StartsWithNoCase, DispositionParams, IsHeader, ExtendedValue, IsMarkOrSafe;
    var m, w := KeyValue("name", name) + ";" + (" " + ExtendedParam(filename)), ExtendedValue(filename);
    ExtendedValueShape(filename);
    MarkOrSafe();
    assert m[0] == 'n' && m[|m| - 1] == w[|w| - 1];
    assert '\r' !in m && '\n' !in m by {
      assert '\r' !in KeyValue("name", name) && '\n' !in KeyValue("name", name);
      assert '\r' !in w && '\n' !in w && '\r' !in EXTENDED_KEY && '\n' !in EXTENDED_KEY;
    }
    HeaderStart(ExtendedLine(name, filename), m);
    DispositionStart(ExtendedLine(name, filename), m);
  }

  lemma {:induction false} PlainExtendedReadsBack(name: string, filename: string)
    requires IsPlainName(name) && Query.IsBytes(filename)
    ensures HeaderEffect(ExtendedLine(name, filename), NO_FILE)
         == if filename == "" then None else Some(File(name, filename, ""))
  {
    hide IsHeader, StartsWithNoCase, DispositionParams, Pieces, KeyValue, Unquote, ExtendedParam, ExtendedValue;
    hide ExtendedName, ExtendedLine, IsPlainName;
    var n, x := KeyValue("name", name), ExtendedParam(filename);
    ExtendedParses(name, filename);
    KeyValueShape("name", name);
    KeyValueReads("name", name);
    PiecesStep(n, ';', " " + x);
    ExtendedParamReads(filename);
    ParamFirst("name", name, [x], "name");
    ParamFirst("name", name, [x], "filename*");
    ExtendedParamFound(filename);
    ExtendedNameReads(filename);
  }

  /** An extended parameter carries any file name at all, but not the empty one. */
  lemma {:induction false} ExtendedReadsBack(name: string, filename: string)
    requires Query.IsBytes(filename)
    ensures HeaderEffect(ExtendedLine(name, filename), NO_FILE) == Some(File(name, filename, ""))
            <==> IsPlainName(name) && filename != ""
  {
    hide HeaderEffect, IsPlainName, ExtendedLine, Extended;
    assert IsPlainName("") by { EmptyNameIsPlain(); }
    NamesReadArePlain(ExtendedLine(name, filename), NO_FILE);
    if IsPlainName(name) { PlainExtendedReadsBack(name, filename); }
  }

  lemma {:induction false} EmptyNameIsPlain()
    ensures IsPlainName("")
  {
  }

  /** The type line sets the content type exactly when that has no blanks at its ends. */
  lemma {:induction false} TypeReadsBack(f: File, g: File)
    requires f.contentType != ""
    ensures HeaderEffect(TypeLine(f), g) == Some(g.(contentType := f.contentType)) <==> IsTrimmed(f.contentType)
  {
    hide DispositionParams, Pieces, Trim2, IsHeader;
    var v := f.contentType;
    TypeKeyLeads(v);
    assert TypeLine(f)[13..] == " " + v;
    if IsTrimmed(v) {
      TypeIsHeader(v);
      TypeTrimmed(v);
    }
    TrimmedEnds(" " + v);
  }

  lemma {:induction false} TrimmedEnds(s: string)
    ensures IsTrimmed(Trim2(s))
  {
  }

  lemma {:induction false} TypeKeyLeads(v: string)
    ensures StartsWithNoCase("Content-Type: " + v, TYPE_KEY)
  {
    var h := "Content-Type: " + v;
    var start := "Content-Type: ";
    assert forall i :: 0 <= i < 14 ==> h[i] == start[i];
  }

  lemma {:induction false} TypeIsHeader(v: string)
    requires IsTrimmed(v) && v != ""
    ensures IsHeader("Content-Type: " + v)
  {
    var h := "Content-Type: " + v;
    var start := "Content-Type: ";
    assert forall i :: 0 <= i < 14 ==> h[i] == start[i];
    FindCharIs(h, ':', 0, 12);
    assert h[14] == v[0] && h[|h| - 1] == v[|v| - 1];
  }

  lemma {:induction false} TypeTrimmed(v: string)
    requires IsTrimmed(v) && v != ""
    ensures Trim2(" " + v) == v
  {
    Trim2Is(v, 0, |v|);
    TrimBoth(v);
  }

  /** The header lines end at their CRLFs: none contains a CR or LF. */
  lemma {:induction false} LinesAreSingle(f: File)
    requires IsPlainFile(f)
    ensures forall h :: h in HeaderLines(f) ==> h != "" && '\r' !in h && '\n' !in h
  {
    hide KeyValue, FilenameSuffix, DispositionLine, IsPlainName;
    DispositionIs(f);
    ParametersShape(f);
    assert '\r' !in DISPOSITION_START && '\n' !in DISPOSITION_START;
  }
}
