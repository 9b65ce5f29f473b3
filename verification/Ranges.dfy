/** Byte ranges of the HTTP server (section 14.2 of RFC 9110): the check that normalises the
    requested ranges in place, and the multipart body and its announced length. */
module Ranges {
  import opened Numerals

  const RANGE_MAX_COUNT := 1024

  // -1 stands for a missing position, as the header parser leaves it
  datatype Range = Range(first: int, last: int)

  // ------------------------------------------------------------------ what is acceptable

  /** The positions a range asks for in a content of `len` bytes. */
  function Resolved(r: Range, len: nat): Range {
    if r.first == -1 && r.last == -1 then Range(0, len)
    else if r.first == -1 then Range(len - r.last, len - 1)
    else if r.last == -1 then Range(r.first, len - 1)
    else r
  }

  function ResolvedAll(rs: seq<Range>, len: nat): (ns: seq<Range>)
    ensures |ns| == |rs| && forall i :: 0 <= i < |ns| ==> ns[i] == Resolved(rs[i], len)
  {
    seq(|rs|, i requires 0 <= i < |rs| => Resolved(rs[i], len))
  }

  predicate IsWithin(r: Range, len: nat) {
    0 <= r.first <= r.last < len
  }

  predicate StartsIncrease(rs: seq<Range>) {
    forall i, j :: 0 <= i < j < |rs| ==> rs[i].first < rs[j].first
  }

  /** Whether the range `i` begins before some earlier one has ended. */
  predicate OverlapsEarlier(rs: seq<Range>, i: nat)
    requires i < |rs|
  {
    exists j :: 0 <= j < i && rs[i].first <= rs[j].last
  }

  function Overlaps(rs: seq<Range>, n: nat): nat
    requires n <= |rs|
  {
    if n == 0 then 0 else Overlaps(rs, n - 1) + if OverlapsEarlier(rs, n - 1) then 1 else 0
  }

  predicate AllWithin(rs: seq<Range>, len: nat) {
    forall i :: 0 <= i < |rs| ==> IsWithin(rs[i], len)
  }

  predicate IsAcceptable(rs: seq<Range>, len: nat) {
    var ns := ResolvedAll(rs, len);
    |rs| <= RANGE_MAX_COUNT && AllWithin(ns, len) && StartsIncrease(ns) && Overlaps(ns, |ns|) <= 2
  }

  // ------------------------------------------------------------------ the check

  /** What the loop knows about the ranges it has passed. */
  ghost predicate Passed(ns: seq<Range>, len: nat, n: nat, first: int, last: int, overlaps: nat)
    requires n <= |ns|
  {
    && -1 <= first && -1 <= last
    && (forall i :: 0 <= i < n ==> IsWithin(ns[i], len) && ns[i].last <= last)
    && (last >= 0 ==> exists i :: 0 <= i < n && ns[i].last == last)
    && (forall i, j :: 0 <= i < j < n ==> ns[i].first < ns[j].first)
    && (n > 0 ==> first == ns[n - 1].first) && (n == 0 ==> first == -1)
    && overlaps == Overlaps(ns, n) <= 2
  }

  lemma {:induction false} PassedOverlap(ns: seq<Range>, len: nat, n: nat, first: int, last: int, overlaps: nat)
    requires n < |ns| && Passed(ns, len, n, first, last, overlaps) && ns[n].first >= 0
    ensures OverlapsEarlier(ns, n) <==> ns[n].first <= last
    ensures Overlaps(ns, n + 1) == overlaps + if ns[n].first <= last then 1 else 0
  {
    hide IsWithin;
    if ns[n].first <= last {
      var i :| 0 <= i < n && ns[i].last == last;
      assert ns[n].first <= ns[i].last;
    }
  }

  lemma {:induction false} OverlapsGrow(rs: seq<Range>, n: nat, m: nat)
    requires n <= m <= |rs|
    ensures Overlaps(rs, n) <= Overlaps(rs, m)
    decreases m
  {
    hide OverlapsEarlier;
    if n < m { OverlapsGrow(rs, n, m - 1); }
  }

  /** Reads the next range in place and says whether it lies within the content. */
  method Normalise(ranges: array<Range>, i: nat, len: nat) returns (within: bool)
    requires i < ranges.Length
    modifies ranges
    ensures ranges[..] == old(ranges[..])[i := Resolved(old(ranges[i]), len)]
    ensures within == IsWithin(ranges[i], len)
  {
    var first, last := ranges[i].first, ranges[i].last;
    if first == -1 && last == -1 {
      first, last := 0, len;
    }
    if first == -1 {
      first := len - last;
      last := len - 1;
    }
    if last == -1 { last := len - 1; }
    ranges[i] := Range(first, last);
    within := 0 <= first && first <= last && last <= len - 1;
  }

  lemma {:induction false} PassedNext(ns: seq<Range>, len: nat, n: nat, first: int, last: int, overlaps: nat)
    requires n < |ns| && Passed(ns, len, n, first, last, overlaps)
    requires IsWithin(ns[n], len) && first < ns[n].first
    requires Overlaps(ns, n + 1) <= 2
    ensures Passed(ns, len, n + 1, ns[n].first, if last > ns[n].last then last else ns[n].last, Overlaps(ns, n + 1))
  {
    hide Overlaps;
    var m := if last > ns[n].last then last else ns[n].last;
    if last > ns[n].last {
      var i :| 0 <= i < n && ns[i].last == last;
      assert 0 <= i < n + 1 && ns[i].last == m;
    } else {
      assert ns[n].last == m;
    }
  }

  /** `range_error` for a request with a Range header and a successful response: refuses exactly the
      ranges that are not acceptable, and leaves accepted ones resolved. */
  method CheckRanges(ranges: array<Range>, len: nat) returns (error: bool)
    modifies ranges
    ensures !error <==> IsAcceptable(old(ranges[..]), len)
    ensures !error ==> ranges[..] == ResolvedAll(old(ranges[..]), len)
    ensures error ==> exists k :: 0 <= k <= ranges.Length && PartlyResolved(ranges[..], old(ranges[..]), len, k)
  {
    hide Passed, IsWithin, Overlaps, OverlapsEarlier, Resolved;
    ghost var rs := ranges[..];
    ghost var ns := ResolvedAll(rs, len);
    if ranges.Length > RANGE_MAX_COUNT {
      assert PartlyResolved(ranges[..], rs, len, 0);
      return true;
    }
    var prevFirst, prevLast, overlaps := -1, -1, 0;
    NonePassed(ns, len);
    for i := 0 to ranges.Length
      invariant PartlyResolved(ranges[..], rs, len, i)
      invariant Passed(ns, len, i, prevFirst, prevLast, overlaps)
    {
      var within := Normalise(ranges, i, len);
      assert PartlyResolved(ranges[..], rs, len, i + 1);
      if !within { return true; }
      var first, last := ranges[i].first, ranges[i].last;
      if first <= prevFirst {
        NotIncreasing(ns, len, i, prevFirst, prevLast, overlaps);
        return true;
      }
      PassedOverlapWithin(ns, len, i, prevFirst, prevLast, overlaps);
      if first <= prevLast {
        overlaps := overlaps + 1;
        if overlaps > 2 {
          OverlapsGrow(ns, i + 1, |ns|);
          return true;
        }
      }
      PassedNext(ns, len, i, prevFirst, prevLast, Overlaps(ns, i));
      prevFirst := if prevFirst > first then prevFirst else first;
      prevLast := if prevLast > last then prevLast else last;
    }
    AllPassed(ns, len, prevFirst, prevLast, overlaps);
    error := false;
  }

  predicate PartlyResolved(now: seq<Range>, rs: seq<Range>, len: nat, k: nat) {
    && k <= |rs| == |now|
    && (forall i :: 0 <= i < k ==> now[i] == Resolved(rs[i], len))
    && (forall i :: k <= i < |rs| ==> now[i] == rs[i])
  }

  lemma {:induction false} NonePassed(ns: seq<Range>, len: nat)
    ensures Passed(ns, len, 0, -1, -1, 0)
  {
  }

  lemma {:induction false} NotIncreasing(ns: seq<Range>, len: nat, n: nat, first: int, last: int, overlaps: nat)
    requires n < |ns| && Passed(ns, len, n, first, last, overlaps)
    requires IsWithin(ns[n], len) && ns[n].first <= first
    ensures !StartsIncrease(ns)
  {
    hide Overlaps;
    assert n > 0;
    assert ns[n - 1].first >= ns[n].first;
  }

  lemma {:induction false} PassedOverlapWithin(ns: seq<Range>, len: nat, n: nat, first: int, last: int, overlaps: nat)
    requires n < |ns| && Passed(ns, len, n, first, last, overlaps) && IsWithin(ns[n], len)
    ensures overlaps == Overlaps(ns, n)
    ensures Overlaps(ns, n + 1) == overlaps + if ns[n].first <= last then 1 else 0
  {
    PassedOverlap(ns, len, n, first, last, overlaps);
  }

  lemma {:induction false} AllPassed(ns: seq<Range>, len: nat, first: int, last: int, overlaps: nat)
    requires Passed(ns, len, |ns|, first, last, overlaps)
    ensures AllWithin(ns, len) && StartsIncrease(ns) && Overlaps(ns, |ns|) <= 2
  {
    hide Overlaps;
  }

  /** `range_error`: without ranges, or for a response that is no success, nothing is checked. The
      content length is the announced one, or else that of the body. */
  method RangeError(ranges: array<Range>, status: int, contentLength: nat, bodySize: nat) returns (error: bool)
    modifies ranges
    ensures var len := if contentLength != 0 then contentLength else bodySize;
            var checked := ranges.Length > 0 && 200 <= status < 300;
            && (error <==> checked && !IsAcceptable(old(ranges[..]), len))
            && (!checked ==> ranges[..] == old(ranges[..]))
            && (checked && !error ==> ranges[..] == ResolvedAll(old(ranges[..]), len))
  {
    hide IsAcceptable;
    error := false;
    if ranges.Length > 0 && 200 <= status < 300 {
      error := CheckRanges(ranges, if contentLength != 0 then contentLength else bodySize);
    }
  }

  /** A range with neither position is always refused: it resolves to one byte too many. */
  lemma {:induction false} BareDashRefused(rs: seq<Range>, len: nat, i: nat)
    requires i < |rs| && rs[i] == Range(-1, -1)
    ensures !IsAcceptable(rs, len)
  {
    hide Overlaps;
    assert !IsWithin(ResolvedAll(rs, len)[i], len);
  }

  /** A suffix longer than the content is refused too, although section 14.1.2 of RFC 9110 lets it
      stand for the whole; a single suffix is accepted exactly when it is not empty and fits. */
  lemma {:induction false} SuffixAccepted(n: nat, len: nat)
    ensures IsAcceptable([Range(-1, n)], len) <==> 1 <= n <= len
  {
    var ns := ResolvedAll([Range(-1, n)], len);
    assert ns == [Range(len - n, len - 1)];
    assert Overlaps(ns, 0) == 0;
    assert !OverlapsEarlier(ns, 0);
    assert AllWithin(ns, len) <==> IsWithin(ns[0], len);
  }

  // ------------------------------------------------------------------ the multipart body

  /** The assertions of `get_range_offset_and_length`. */
  predicate IsUsable(r: Range, len: nat) {
    r.first != -1 && r.last != -1 && 0 <= r.first < len && r.first <= r.last < len
  }

  /** Range soundness: what the check accepts and leaves behind is fit for use. */
  lemma {:induction false} AcceptedUsable(rs: seq<Range>, len: nat)
    requires IsAcceptable(rs, len)
    ensures var ns := ResolvedAll(rs, len);
            && (forall i :: 0 <= i < |ns| ==> IsUsable(ns[i], len))
            && StartsIncrease(ns) && ResolvedAll(ns, len) == ns
  {
    hide Overlaps;
    var ns := ResolvedAll(rs, len);
    assert forall i :: 0 <= i < |ns| ==> IsWithin(ns[i], len);
  }

  method GetRangeOffsetAndLength(r: Range, len: nat) returns (offset: nat, length: nat)
    requires IsUsable(r, len)
    ensures offset == r.first && offset + length == r.last + 1 && 0 < length && offset + length <= len
  {
    assert r.first != -1 && r.last != -1;
    offset, length := r.first, r.last - r.first + 1;
  }

  function ContentRange(r: Range, len: nat): string
    requires IsUsable(r, len)
  {
    "bytes " + Numeral(r.first, 10) + "-" + Numeral(r.last, 10) + "/" + Numeral(len, 10)
  }

  function PartHead(r: Range, boundary: string, contentType: string, len: nat): string
    requires IsUsable(r, len)
  {
    "--" + boundary + "\r\n"
    + (if contentType != "" then "Content-Type: " + contentType + "\r\n" else "")
    + "Content-Range: " + ContentRange(r, len) + "\r\n\r\n"
  }

  predicate AllUsable(rs: seq<Range>, len: nat) {
    forall i :: 0 <= i < |rs| ==> IsUsable(rs[i], len)
  }

  /** The first `n` parts: each is its header and exactly the bytes it names. */
  function Parts(rs: seq<Range>, n: nat, boundary: string, contentType: string, body: string): string
    requires n <= |rs| && AllUsable(rs, |body|)
  {
    if n == 0 then ""
    else
      var r := rs[n - 1];
      Parts(rs, n - 1, boundary, contentType, body)
      + PartHead(r, boundary, contentType, |body|) + body[r.first..r.last + 1] + "\r\n"
  }

  function RangesBody(rs: seq<Range>, boundary: string, contentType: string, body: string): string
    requires AllUsable(rs, |body|)
  {
    Parts(rs, |rs|, boundary, contentType, body) + "--" + boundary + "--"
  }

  method MakeContentRange(offset: nat, length: nat, len: nat) returns (field: string)
    requires length > 0 && offset + length <= len
    ensures field == ContentRange(Range(offset, offset + length - 1), len)
  {
    var st := offset;
    var ed := st + length - 1;
    field := "bytes ";
    field := field + Numeral(st, 10);
    field := field + "-";
    field := field + Numeral(ed, 10);
    field := field + "/";
    field := field + Numeral(len, 10);
  }

  method MakeMultipartRangesData(rs: seq<Range>, boundary: string, contentType: string, body: string)
    returns (data: string)
    requires AllUsable(rs, |body|)
    ensures data == RangesBody(rs, boundary, contentType, body)
  {
    hide Numeral, ContentRange, IsUsable;
    data := "";
    for i := 0 to |rs|
      invariant data == Parts(rs, i, boundary, contentType, body)
    {
      var head, offset, length := MakePartHead(rs[i], boundary, contentType, |body|);
      data := data + head;
      assert offset + length <= |body|;
      data := data + body[offset..offset + length];
      data := data + "\r\n";
    }
    data := data + "--" + boundary + "--";
  }

  /** The tokens before the content of a part. */
  method MakePartHead(r: Range, boundary: string, contentType: string, len: nat)
    returns (head: string, offset: nat, length: nat)
    requires IsUsable(r, len)
    ensures head == PartHead(r, boundary, contentType, len)
    ensures offset == r.first && offset + length == r.last + 1 && offset + length <= len
  {
    head := "--" + boundary + "\r\n";
    if contentType != "" {
      head := head + "Content-Type: " + contentType + "\r\n";
    }
    offset, length := GetRangeOffsetAndLength(r, len);
    var field := MakeContentRange(offset, length, len);
    head := head + "Content-Range: " + field + "\r\n" + "\r\n";
  }

  /** The announced length is the size of the body actually built, whatever the content. */
  method GetMultipartRangesDataLength(rs: seq<Range>, boundary: string, contentType: string, len: nat,
                                      ghost body: string) returns (dataLength: nat)
    requires |body| == len && AllUsable(rs, len)
    ensures dataLength == |RangesBody(rs, boundary, contentType, body)|
  {
    hide PartHead, IsUsable;
    dataLength := 0;
    for i := 0 to |rs|
      invariant dataLength == |Parts(rs, i, boundary, contentType, body)|
    {
      var head, offset, length := MakePartHead(rs[i], boundary, contentType, len);
      PartSlice(rs[i], body);
      dataLength := dataLength + |head|;
      dataLength := dataLength + length;
      dataLength := dataLength + 2;
    }
    dataLength := dataLength + 2 + |boundary| + 2;
  }

  lemma {:induction false} PartSlice(r: Range, body: string)
    requires IsUsable(r, |body|)
    ensures 0 <= r.first < r.last + 1 <= |body| && |body[r.first..r.last + 1]| == r.last + 1 - r.first
  {
  }
}
