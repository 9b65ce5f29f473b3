/** Which ranges are accepted, and the text of the multipart answer (section 14.6 of RFC 9110). */
module RangesFormat {
  import opened Ranges
  import opened Numerals

  // ------------------------------------------------------------------ single ranges

  lemma {:induction false} OneAccepted(r: Range, len: nat)
    ensures IsAcceptable([r], len) <==> 0 <= Resolved(r, len).first <= Resolved(r, len).last < len
    ensures ResolvedAll([r], len) == [Resolved(r, len)]
  {
    hide Resolved;
    var ns := ResolvedAll([r], len);
    assert ns == [Resolved(r, len)];
    assert Overlaps(ns, 0) == 0;
    assert !OverlapsEarlier(ns, 0);
    assert AllWithin(ns, len) <==> IsWithin(ns[0], len);
  }

  /** A range with a first and a last position is accepted when it lies within the content, one without
      a last position reaches to the end, and one without a first position is that many bytes at the
      end. */
  lemma {:induction false} SingleRanges(first: nat, last: nat, len: nat)
    ensures IsAcceptable([Range(first, last)], len) <==> first <= last < len
    ensures ResolvedAll([Range(first, last)], len) == [Range(first, last)]
    ensures IsAcceptable([Range(first, -1)], len) <==> first < len
    ensures ResolvedAll([Range(first, -1)], len) == [Range(first, len - 1)]
    ensures IsAcceptable([Range(-1, last)], len) <==> 1 <= last <= len
    ensures ResolvedAll([Range(-1, last)], len) == [Range(len - last, len - 1)]
  {
    hide IsAcceptable, ResolvedAll;
    OneAccepted(Range(first, last), len);
    OneAccepted(Range(first, -1), len);
    OneAccepted(Range(-1, last), len);
  }

  // ------------------------------------------------------------------ many ranges

  function SingleBytes(n: nat): seq<Range> {
    seq(n, i => Range(i, i))
  }

  function Suffixes(n: nat, len: nat): seq<Range> {
    seq(n, i => Range(i, len - 1))
  }

  lemma {:induction false} NoOverlaps(rs: seq<Range>, n: nat)
    requires n <= |rs| && forall i, j :: 0 <= j < i < |rs| ==> rs[j].last < rs[i].first
    ensures Overlaps(rs, n) == 0
  {
    if n > 0 { NoOverlaps(rs, n - 1); }
  }

  lemma {:induction false} AllOverlap(rs: seq<Range>, n: nat)
    requires n <= |rs| && forall i :: 0 < i < |rs| ==> rs[i].first <= rs[0].last
    ensures Overlaps(rs, n) == if n == 0 then 0 else n - 1
  {
    if n > 0 {
      AllOverlap(rs, n - 1);
      if n > 1 {
        assert rs[n - 1].first <= rs[0].last;
        assert OverlapsEarlier(rs, n - 1);
      } else {
        assert !OverlapsEarlier(rs, 0);
      }
    }
  }

  /** At most 1024 ranges: single bytes one after another. */
  lemma {:induction false} CountIsLimited(n: nat, len: nat)
    requires n <= len
    ensures IsAcceptable(SingleBytes(n), len) <==> n <= 1024
  {
    hide Overlaps;
    var ns := ResolvedAll(SingleBytes(n), len);
    assert ns == SingleBytes(n);
    NoOverlaps(ns, n);
  }

  /** At most two ranges that begin before an earlier one has ended. */
  lemma {:induction false} OverlapsAreLimited(n: nat, len: nat)
    requires n <= len && n <= 1024
    ensures IsAcceptable(Suffixes(n, len), len) <==> n <= 3
  {
    hide Overlaps;
    var ns := ResolvedAll(Suffixes(n, len), len);
    if len == 0 {
      assert ns == [];
      AllOverlap(ns, 0);
    } else {
      assert ns == Suffixes(n, len);
      AllOverlap(ns, n);
    }
  }

  /** Ranges out of order are refused. */
  lemma {:induction false} OrderIsChecked(rs: seq<Range>, len: nat, i: nat, j: nat)
    requires i < j < |rs| && 0 <= rs[j].first <= rs[i].first
    ensures !IsAcceptable(rs, len)
  {
    hide Overlaps;
    var ns := ResolvedAll(rs, len);
    assert ns[i] == Resolved(rs[i], len) && ns[j] == Resolved(rs[j], len);
  }

  // ------------------------------------------------------------------ the multipart answer

  /** The field names the positions and the size of the content in decimal. */
  lemma {:induction false} ContentRangeSays(r: Range, len: nat) returns (first: string, last: string, size: string)
    requires IsUsable(r, len)
    ensures ContentRange(r, len) == "bytes " + first + "-" + last + "/" + size
    ensures Decimal(first) == r.first && Decimal(last) == r.last && Decimal(size) == len
    ensures forall c :: c in first || c in last || c in size ==> '0' <= c <= '9'
  {
    hide Numeral, Decimal;
    first, last, size := Numeral(r.first, 10), Numeral(r.last, 10), Numeral(len, 10);
    PrintedIsDecimal(r.first);
    PrintedIsDecimal(r.last);
    PrintedIsDecimal(len);
  }

  /** Each further range adds a part before the closing boundary: its boundary line, its fields, an empty
      line and exactly its bytes. */
  lemma {:induction false} BodyGrows(rs: seq<Range>, r: Range, boundary: string, contentType: string, body: string)
    returns (before: string)
    requires AllUsable(rs, |body|) && IsUsable(r, |body|)
    ensures RangesBody(rs, boundary, contentType, body) == before + "--" + boundary + "--"
    ensures rs == [] ==> before == ""
    ensures AllUsable(rs + [r], |body|)
    ensures RangesBody(rs + [r], boundary, contentType, body) ==
      before
      + ("--" + boundary + "\r\n"
         + (if contentType != "" then "Content-Type: " + contentType + "\r\n" else "")
         + "Content-Range: " + ContentRange(r, |body|) + "\r\n\r\n")
      + body[r.first..r.last + 1] + "\r\n"
      + "--" + boundary + "--"
  {
    hide ContentRange, PartHead;
    before := Parts(rs, |rs|, boundary, contentType, body);
    PartsPrefix(rs, r, |rs|, boundary, contentType, body);
    HeadIs(r, boundary, contentType, |body|);
  }

  lemma {:induction false} HeadIs(r: Range, boundary: string, contentType: string, len: nat)
    requires IsUsable(r, len)
    ensures PartHead(r, boundary, contentType, len) ==
      "--" + boundary + "\r\n"
      + (if contentType != "" then "Content-Type: " + contentType + "\r\n" else "")
      + "Content-Range: " + ContentRange(r, len) + "\r\n\r\n"
  {
    hide ContentRange;
  }

  lemma {:induction false} PartsPrefix(
      rs: seq<Range>, r: Range, n: nat, boundary: string, contentType: string, body: string)
    requires AllUsable(rs, |body|) && IsUsable(r, |body|) && n <= |rs|
    ensures AllUsable(rs + [r], |body|)
    ensures Parts(rs + [r], n, boundary, contentType, body) == Parts(rs, n, boundary, contentType, body)
  {
    hide PartHead, IsUsable;
    if n > 0 { PartsPrefix(rs, r, n - 1, boundary, contentType, body); }
  }
}
