/** Character classes and trimming, shared by the text formats. */
module Text {
  // What `std::isspace` accepts in the C locale, and the two smaller classes the reader trims.
  datatype Class = White | Blank | BlankOrTab

  predicate In(c: char, p: Class) {
    match p
    case White => c == ' ' || '\t' <= c <= '\r'
    case Blank => c == ' '
    case BlankOrTab => c == ' ' || c == '\t'
  }

  function Spaces(n: nat): string {
    seq(n, _ => ' ')
  }

  /** The first position from `i` whose character is not in the class `p`. */
  function SkipForward(s: string, i: nat, p: Class): (k: nat)
    requires i <= |s|
    ensures i <= k <= |s|
    ensures forall j :: i <= j < k ==> In(s[j], p)
    ensures k < |s| ==> !In(s[k], p)
    decreases |s| - i
  {
    if i < |s| && In(s[i], p) then SkipForward(s, i + 1, p) else i
  }

  /** The end of `s[i..j]` without its longest suffix in the class `p`. */
  function SkipBack(s: string, i: nat, j: nat, p: Class): (k: nat)
    requires i <= j <= |s|
    ensures i <= k <= j
    ensures forall m :: k <= m < j ==> In(s[m], p)
    ensures i < k ==> !In(s[k - 1], p)
  {
    if i < j && In(s[j - 1], p) then SkipBack(s, i, j - 1, p) else j
  }

  function StripRight(s: string, p: Class): (r: string)
    ensures |r| <= |s| && r == s[..|r|]
    ensures r != [] ==> !In(r[|r| - 1], p)
  {
    s[..SkipBack(s, 0, |s|, p)]
  }

  /** The first position from `i` on that holds `c`, or the end. */
  function FindChar(s: string, c: char, i: nat): (k: nat)
    requires i <= |s|
    ensures i <= k <= |s|
    ensures forall j :: i <= j < k ==> s[j] != c
    ensures k < |s| ==> s[k] == c
    decreases |s| - i
  {
    if i < |s| && s[i] != c then FindChar(s, c, i + 1) else i
  }

  lemma {:induction false} FindCharIs(s: string, c: char, i: nat, k: nat)
    requires i <= k <= |s| && (k < |s| ==> s[k] == c) && forall j :: i <= j < k ==> s[j] != c
    ensures FindChar(s, c, i) == k
  {
    hide FindChar;
    var f := FindChar(s, c, i);
    assert f == k;
  }

  function Flatten(pieces: seq<string>): string {
    if pieces == [] then "" else pieces[0] + Flatten(pieces[1..])
  }
}
