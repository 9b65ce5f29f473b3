/** Sequences without repetitions, and beginnings of sequences. */
module Lists {
  /** The first `n` elements, or all when there are fewer. */
  function UpTo<T>(s: seq<T>, n: nat): seq<T> {
    if n < |s| then s[..n] else s
  }

  predicate Distinct<T(==)>(s: seq<T>) {
    forall i, j :: 0 <= i < j < |s| ==> s[i] != s[j]
  }

  lemma {:induction false} DistinctSnoc<T>(s: seq<T>, x: T)
    ensures Distinct(s + [x]) <==> Distinct(s) && x !in s
  {
    var r := s + [x];
    assert r[|s|] == x;
    if Distinct(r) {
      assert forall i, j :: 0 <= i < j < |s| ==> r[i] == s[i] && r[j] == s[j];
      assert forall i :: 0 <= i < |s| ==> r[i] == s[i] && r[i] != r[|s|];
    }
  }
}
