/** When all section numbers of a whole document are distinct. */
module PomDocument {
  import opened Pom
  import opened PomRender
  import opened PomNumbers
  import opened Lists

  type Number = seq<nat>

  /** The numbers of the top-level section `i` and everything below it. */
  function NumbersAt(secs: seq<Section>, i: nat): seq<Number>
    requires i < |secs|
  {
    Numbers(Numbered(secs[i], TopNumber(secs, i)))
  }

  predicate IsFullAt(secs: seq<Section>, i: nat)
    requires i < |secs|
  {
    IsFullyNumbered(secs[i], TopNumber(secs, i) != [])
  }

  /** No clash between a top-level section without a number, whose subsections are numbered 1, 2 and so
      on, and another one: that one has a number, behind all of these. */
  predicate StaysClear(secs: seq<Section>, i: nat, j: nat)
    requires i < |secs| && j < |secs|
  {
    TopNumber(secs, i) == [] ==> TopNumber(secs, j) != [] && TopNumber(secs, j)[0] > |secs[i].subsections|
  }

  predicate IsApart(secs: seq<Section>, i: nat, j: nat)
    requires i < |secs| && j < |secs|
  {
    StaysClear(secs, i, j) && StaysClear(secs, j, i)
  }

  /** Everything below the top level is numbered, and no two top-level sections clash. */
  predicate IsClear(secs: seq<Section>, k: nat)
    requires k <= |secs|
  {
    (forall i :: 0 <= i < k ==> IsFullAt(secs, i))
    && forall i, j :: 0 <= i < j < k ==> IsApart(secs, i, j)
  }

  ghost predicate Disjoint(a: seq<Number>, b: seq<Number>) {
    forall n :: n in a ==> n !in b
  }

  lemma {:induction false} DistinctConcat(a: seq<Number>, b: seq<Number>)
    ensures Distinct(a + b) <==> Distinct(a) && Distinct(b) && Disjoint(a, b)
  {
    var ns := a + b;
    if Distinct(ns) {
      forall i, j | 0 <= i < j < |b|
        ensures b[i] != b[j]
      {
        assert ns[|a| + i] == b[i] && ns[|a| + j] == b[j];
      }
      forall i, j | 0 <= i < |a| && 0 <= j < |b|
        ensures a[i] != b[j]
      {
        assert ns[i] == a[i] && ns[|a| + j] == b[j];
      }
      forall i, j | 0 <= i < j < |a|
        ensures a[i] != a[j]
      {
        assert ns[i] == a[i] && ns[j] == a[j];
      }
    }
    if Distinct(a) && Distinct(b) && Disjoint(a, b) {
      forall i, j | 0 <= i < j < |ns|
        ensures ns[i] != ns[j]
      {
        assert j >= |a| ==> b[j - |a|] in b;
        assert i < |a| ==> a[i] in a;
      }
    }
  }

  // ------------------------------------------------------------------ two top-level sections

  /** Below a number everything starts with it; below none, with the position of a subsection. */
  lemma {:induction false} FirstComponents(sec: Section, number: Number, n: Number)
    requires IsFullyNumbered(sec, number != []) && n in Numbers(Numbered(sec, number)) && |number| <= 1
    ensures number != [] ==> n != [] && n[0] == number[0]
    ensures number == [] && n != [] ==> 1 <= n[0] <= |sec.subsections|
  {
    hide Numbered, Increasing, IsFullyNumbered;
    var node := Numbered(sec, number);
    var i :| 0 <= i < |Numbers(node)| && Numbers(node)[i] == n;
    if number != [] {
      NumberedInOrder(sec, number);
      assert n[..1] == number;
    } else {
      GroupInOrder(sec, number, |sec.subsections|);
      NumbersAre(node);
      NumberOf(sec, number);
      hide Numbers;
      if i > 0 { assert InBranch([], 1, |sec.subsections|, ChildNumbers(node, |sec.subsections|)[i - 1]); }
    }
  }

  lemma {:induction false} OwnNumber(sec: Section, number: Number)
    ensures number in Numbers(Numbered(sec, number))
  {
    assert Numbers(Numbered(sec, number))[0] == number;
  }

  /** Below a section without a number, the subsection `t` has the number `t`. */
  lemma {:induction false} ChildHasNumber(sec: Section, t: nat)
    requires IsFullyNumbered(sec, false) && 1 <= t <= |sec.subsections|
    ensures [t] in Numbers(Numbered(sec, []))
  {
    hide Numbers, Numbered, ChildNumbers, AnyNumbered;
    var node := Numbered(sec, []);
    ChildIs(sec, [], t - 1);
    assert ChildNumber(sec, [], t - 1) == [] + [t];
    NumberOf(sec.subsections[t - 1], [t]);
    ChildNumbersWithin(node, t - 1, |node.children|);
    var below, mine := ChildNumbers(node, |node.children|), Numbers(node.children[t - 1]);
    var at: nat :| Within(mine, below, at);
    assert mine[0] == below[at];
    NumbersAre(node);
    assert ([node.number] + below)[at + 1] == [t];
  }

  lemma {:induction false} TitledCount(secs: seq<Section>, i: nat, j: nat)
    requires i < j < |secs| && secs[j].title.Some?
    ensures Titled(secs, i + 1) < Titled(secs, j + 1)
    decreases j
  {
    TitledGrows(secs, i + 1, j);
  }

  lemma {:induction false} TitledGrows(secs: seq<Section>, i: nat, j: nat)
    requires i <= j <= |secs|
    ensures Titled(secs, i) <= Titled(secs, j)
    decreases j
  {
    if i < j { TitledGrows(secs, i, j - 1); }
  }

  lemma {:induction false} TopNumbers(secs: seq<Section>, i: nat, j: nat)
    requires i < j < |secs|
    ensures |TopNumber(secs, i)| <= 1 && |TopNumber(secs, j)| <= 1
    ensures TopNumber(secs, i) != [] && TopNumber(secs, j) != [] ==> TopNumber(secs, i)[0] < TopNumber(secs, j)[0]
    ensures TopNumber(secs, i) != [] ==> TopNumber(secs, i)[0] >= 1
    ensures TopNumber(secs, j) != [] ==> TopNumber(secs, j)[0] >= 1
  {
    hide AnyNumbered;
    if secs[j].title.Some? { TitledCount(secs, i, j); }
  }

  /** Fully numbered sections share no number exactly when they stay clear of each other. */
  lemma {:induction false} PairApart(secs: seq<Section>, i: nat, j: nat)
    requires i < j < |secs| && IsFullAt(secs, i) && IsFullAt(secs, j)
    ensures Disjoint(NumbersAt(secs, i), NumbersAt(secs, j)) <==> IsApart(secs, i, j)
  {
    hide Numbers, Numbered, TopNumber, IsFullyNumbered;
    var a, b := TopNumber(secs, i), TopNumber(secs, j);
    TopNumbers(secs, i, j);
    OwnNumber(secs[i], a);
    OwnNumber(secs[j], b);
    if IsApart(secs, i, j) {
      forall n | n in NumbersAt(secs, i)
        ensures n !in NumbersAt(secs, j)
      {
        FirstComponents(secs[i], a, n);
        if n in NumbersAt(secs, j) { FirstComponents(secs[j], b, n); }
      }
    } else {
      Clash(secs, i, j);
    }
  }

  lemma {:induction false} Clash(secs: seq<Section>, i: nat, j: nat)
    requires i < j < |secs| && IsFullAt(secs, i) && IsFullAt(secs, j) && !IsApart(secs, i, j)
    ensures !Disjoint(NumbersAt(secs, i), NumbersAt(secs, j))
  {
    hide Numbers, Numbered, TopNumber, IsFullyNumbered;
    var a, b := TopNumber(secs, i), TopNumber(secs, j);
    TopNumbers(secs, i, j);
    OwnNumber(secs[i], a);
    OwnNumber(secs[j], b);
    if a == [] && b != [] {
      ChildHasNumber(secs[i], b[0]);
      assert b == [b[0]];
    } else if a != [] {
      ChildHasNumber(secs[j], a[0]);
      assert a == [a[0]];
    }
  }

  // ------------------------------------------------------------------ the whole document

  lemma {:induction false} DocumentNumbers(secs: seq<Section>, k: nat)
    requires 0 < k <= |secs|
    ensures AllNumbers(Document(secs, k), k) == AllNumbers(Document(secs, k - 1), k - 1) + NumbersAt(secs, k - 1)
  {
    hide Numbers, Numbered, TopNumber;
    SameNumbers(Document(secs, k - 1), Numbered(secs[k - 1], TopNumber(secs, k - 1)));
  }

  lemma {:induction false} InSomeSection(secs: seq<Section>, k: nat, n: Number)
    requires k <= |secs|
    ensures n in AllNumbers(Document(secs, k), k) <==> exists i :: 0 <= i < k && n in NumbersAt(secs, i)
    decreases k
  {
    hide NumbersAt, Document, AllNumbers;
    if k == 0 {
      NoNumbers(secs);
    } else {
      DocumentNumbers(secs, k);
      InSomeSection(secs, k - 1, n);
    }
  }

  lemma {:induction false} NoNumbers(secs: seq<Section>)
    ensures AllNumbers(Document(secs, 0), 0) == []
  {
  }

  lemma {:induction false} DisjointFromAll(secs: seq<Section>, k: nat, ns: seq<Number>)
    requires k <= |secs|
    ensures Disjoint(AllNumbers(Document(secs, k), k), ns)
            <==> forall i :: 0 <= i < k ==> Disjoint(NumbersAt(secs, i), ns)
  {
    hide NumbersAt, Document, AllNumbers;
    forall n
      ensures n in AllNumbers(Document(secs, k), k) <==> exists i :: 0 <= i < k && n in NumbersAt(secs, i)
    {
      InSomeSection(secs, k, n);
    }
  }

  /** The numbers of a whole document are pairwise distinct exactly when everything below the top level
      is numbered, at most one top-level section has no number, and the numbers of the others are
      behind those of its subsections. */
  lemma {:induction false} DocumentDistinct(secs: seq<Section>, k: nat)
    requires k <= |secs|
    ensures Distinct(AllNumbers(Document(secs, k), k)) <==> IsClear(secs, k)
    decreases k
  {
    hide NumbersAt, Document, AllNumbers, Distinct, Disjoint, IsApart, IsFullAt;
    if k == 0 {
      NoNumbers(secs);
      NothingIsDistinct();
    } else {
      var m := k - 1;
      var before, mine := AllNumbers(Document(secs, m), m), NumbersAt(secs, m);
      DocumentNumbers(secs, k);
      DocumentDistinct(secs, m);
      DistinctConcat(before, mine);
      SectionDistinct(secs, m);
      DisjointFromAll(secs, m, mine);
      if IsClear(secs, m) && IsFullAt(secs, m) {
        forall i | 0 <= i < m
          ensures Disjoint(NumbersAt(secs, i), mine) <==> IsApart(secs, i, m)
        {
          PairApart(secs, i, m);
        }
      }
    }
  }

  lemma {:induction false} NothingIsDistinct()
    ensures Distinct<Number>([])
  {
  }

  lemma {:induction false} SectionDistinct(secs: seq<Section>, i: nat)
    requires i < |secs|
    ensures Distinct(NumbersAt(secs, i)) <==> IsFullAt(secs, i)
  {
    hide Distinct, Numbers, Numbered, IsFullyNumbered;
    NumbersDistinct(secs[i], TopNumber(secs, i));
  }

  // ------------------------------------------------------------------ the order of the whole document

  /** Only the first top-level section may be without a number. */
  predicate OnlyFirstBare(secs: seq<Section>, k: nat)
    requires k <= |secs|
  {
    forall i :: 0 < i < k ==> TopNumber(secs, i) != []
  }

  ghost predicate AllBefore(a: seq<Number>, b: seq<Number>) {
    forall m, n :: m in a && n in b ==> Less(m, n)
  }

  lemma {:induction false} IncreasingConcat(a: seq<Number>, b: seq<Number>)
    requires Increasing(a) && Increasing(b) && AllBefore(a, b)
    ensures Increasing(a + b)
  {
    hide Less;
    var ns := a + b;
    forall i, j | 0 <= i < j < |ns|
      ensures Less(ns[i], ns[j])
    {
      if i < |a| <= j {
        assert a[i] in a && b[j - |a|] in b;
      } else if j < |a| {
        assert Less(a[i], a[j]);
      } else {
        assert Less(b[i - |a|], b[j - |a|]);
      }
    }
  }

  lemma {:induction false} FirstDecides(m: Number, n: Number)
    requires n != [] && (m == [] || m[0] < n[0])
    ensures Less(m, n)
  {
    if m != [] { assert SplitAt(m, n, 0); }
  }

  /** Clear of each other and numbered, a later section stands behind an earlier one. */
  lemma {:induction false} SectionsInOrder(secs: seq<Section>, i: nat, j: nat)
    requires i < j < |secs| && IsFullAt(secs, i) && IsFullAt(secs, j) && IsApart(secs, i, j)
    requires TopNumber(secs, j) != []
    ensures AllBefore(NumbersAt(secs, i), NumbersAt(secs, j))
  {
    hide Numbers, Numbered, TopNumber, IsFullyNumbered, Less;
    TopNumbers(secs, i, j);
    forall m, n | m in NumbersAt(secs, i) && n in NumbersAt(secs, j)
      ensures Less(m, n)
    {
      FirstComponents(secs[i], TopNumber(secs, i), m);
      FirstComponents(secs[j], TopNumber(secs, j), n);
      FirstDecides(m, n);
    }
  }

  lemma {:induction false} DocumentBefore(secs: seq<Section>, k: nat)
    requires k < |secs| && IsClear(secs, k + 1) && OnlyFirstBare(secs, k + 1)
    ensures AllBefore(AllNumbers(Document(secs, k), k), NumbersAt(secs, k))
  {
    hide NumbersAt, Document, AllNumbers, IsApart, IsFullAt, TopNumber, Less;
    forall m, n | m in AllNumbers(Document(secs, k), k) && n in NumbersAt(secs, k)
      ensures Less(m, n)
    {
      InSomeSection(secs, k, m);
      var i :| 0 <= i < k && m in NumbersAt(secs, i);
      SectionsInOrder(secs, i, k);
    }
  }

  lemma {:induction false} ClearIncreases(secs: seq<Section>, k: nat)
    requires k <= |secs| && IsClear(secs, k) && OnlyFirstBare(secs, k)
    ensures Increasing(AllNumbers(Document(secs, k), k))
    decreases k
  {
    hide NumbersAt, Document, AllNumbers, Increasing, AllBefore, IsApart, TopNumber;
    if k == 0 {
      NoNumbers(secs);
      EmptyInOrder([]);
    } else {
      ClearIncreases(secs, k - 1);
      DocumentNumbers(secs, k);
      DocumentBefore(secs, k - 1);
      SectionIncreases(secs, k - 1);
      IncreasingConcat(AllNumbers(Document(secs, k - 1), k - 1), NumbersAt(secs, k - 1));
    }
  }

  lemma {:induction false} SectionIncreases(secs: seq<Section>, i: nat)
    requires i < |secs| && IsFullAt(secs, i)
    ensures Increasing(NumbersAt(secs, i))
  {
    hide Increasing, Numbers, Numbered, IsFullyNumbered;
    NumbersDistinct(secs[i], TopNumber(secs, i));
  }

  /** A later section without a number comes behind another one, and nothing is less than it. */
  lemma {:induction false} BareSpoils(secs: seq<Section>, k: nat, i: nat)
    requires 0 < i < k <= |secs| && TopNumber(secs, i) == []
    ensures !Increasing(AllNumbers(Document(secs, k), k))
    decreases k
  {
    hide Document, AllNumbers, TopNumber, Numbered, Numbers, Less;
    var m := k - 1;
    DocumentNumbers(secs, k);
    var before, mine := AllNumbers(Document(secs, m), m), NumbersAt(secs, m);
    if i < m {
      BareSpoils(secs, m, i);
      if Increasing(before + mine) { FrontIncreases(before, mine); }
    } else {
      OwnNumber(secs[0], TopNumber(secs, 0));
      InSomeSection(secs, m, TopNumber(secs, 0));
      assert TopNumber(secs, 0) in NumbersAt(secs, 0);
      assert TopNumber(secs, 0) in before;
      NumberOf(secs[m], []);
      assert mine[0] == [];
      var at :| 0 <= at < |before| && before[at] == TopNumber(secs, 0);
      NothingBelowEmpty(before[at]);
      assert (before + mine)[at] == before[at] && (before + mine)[|before|] == [];
    }
  }

  lemma {:induction false} NothingBelowEmpty(n: Number)
    ensures !Less(n, [])
  {
  }

  lemma {:induction false} FrontIncreases(a: seq<Number>, b: seq<Number>)
    requires Increasing(a + b)
    ensures Increasing(a)
  {
    hide Less;
    var ns := a + b;
    forall i, j | 0 <= i < j < |a|
      ensures Less(a[i], a[j])
    {
      assert Less(ns[i], ns[j]);
    }
  }

  /** The numbers of a whole document increase in document order exactly when they are distinct and
      only the first top-level section may be without a number. */
  lemma {:induction false} DocumentIncreases(secs: seq<Section>, k: nat)
    requires k <= |secs|
    ensures Increasing(AllNumbers(Document(secs, k), k)) <==> IsClear(secs, k) && OnlyFirstBare(secs, k)
  {
    hide Document, AllNumbers, Increasing, Distinct, IsClear, TopNumber;
    DocumentDistinct(secs, k);
    if Increasing(AllNumbers(Document(secs, k), k)) {
      IncreasingDistinct(AllNumbers(Document(secs, k), k));
      forall i | 0 < i < k
        ensures TopNumber(secs, i) != []
      {
        if TopNumber(secs, i) == [] { BareSpoils(secs, k, i); }
      }
    } else if IsClear(secs, k) && OnlyFirstBare(secs, k) {
      ClearIncreases(secs, k);
    }
  }
}
