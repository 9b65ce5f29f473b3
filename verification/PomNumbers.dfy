/** Section numbers: when they are distinct and in order, and when a round trip keeps them. */
module PomNumbers {
  import opened Json
  import opened Pom
  import opened PomRender
  import opened PomRoundTrip
  import opened Lists

  // ------------------------------------------------------------------ the order of numbers

  /** The lexicographic order on section numbers. */
  predicate Less(a: seq<nat>, b: seq<nat>) {
    (|a| < |b| && a == b[..|a|])
    || exists k :: 0 <= k < |a| && k < |b| && SplitAt(a, b, k)
  }

  /** Equal before position `k` and smaller there. */
  predicate SplitAt(a: seq<nat>, b: seq<nat>, k: nat) {
    k < |a| && k < |b| && a[..k] == b[..k] && a[k] < b[k]
  }

  lemma {:induction false} LessIrreflexive(a: seq<nat>)
    ensures !Less(a, a)
  {
  }

  predicate Increasing(ns: seq<seq<nat>>) {
    forall i, j :: 0 <= i < j < |ns| ==> Less(ns[i], ns[j])
  }

  lemma {:induction false} IncreasingDistinct(ns: seq<seq<nat>>)
    requires Increasing(ns)
    ensures Distinct(ns)
  {
    hide Less;
    forall i, j | 0 <= i < j < |ns|
      ensures ns[i] != ns[j]
    {
      LessIrreflexive(ns[i]);
    }
  }

  /** The numbers of a section and everything below it, in document order. */
  function Numbers(node: Node): (ns: seq<seq<nat>>)
    ensures ns != [] && ns[0] == node.number
    decreases node, 1, 0
  {
    [node.number] + ChildNumbers(node, |node.children|)
  }

  function ChildNumbers(node: Node, k: nat): seq<seq<nat>>
    requires k <= |node.children|
    decreases node, 0, k
  {
    if k == 0 then [] else ChildNumbers(node, k - 1) + Numbers(node.children[k - 1])
  }

  function AllNumbers(nodes: seq<Node>, k: nat): seq<seq<nat>>
    requires k <= |nodes|
  {
    if k == 0 then [] else AllNumbers(nodes, k - 1) + Numbers(nodes[k - 1])
  }

  /** A number below `p`, in its branch `i` if one is given. */
  predicate InBranch(p: seq<nat>, lo: nat, hi: nat, n: seq<nat>) {
    |n| > |p| && n[..|p|] == p && lo <= n[|p|] <= hi
  }

  predicate AllInBranch(p: seq<nat>, lo: nat, hi: nat, ns: seq<seq<nat>>) {
    forall i :: 0 <= i < |ns| ==> InBranch(p, lo, hi, ns[i])
  }

  predicate AllUnder(p: seq<nat>, ns: seq<seq<nat>>) {
    forall i :: 0 <= i < |ns| ==> |ns[i]| >= |p| && ns[i][..|p|] == p
  }

  lemma {:induction false} BranchesOrdered(p: seq<nat>, k: nat, a: seq<nat>, b: seq<nat>)
    requires InBranch(p, 1, k, a) && InBranch(p, k + 1, k + 1, b)
    ensures Less(a, b)
  {
    assert SplitAt(a, b, |p|);
  }

  lemma {:induction false} UnderIsBranch(p: seq<nat>, k: nat, ns: seq<seq<nat>>)
    requires AllUnder(p + [k], ns)
    ensures AllInBranch(p, k, k, ns)
  {
    forall i | 0 <= i < |ns|
      ensures InBranch(p, k, k, ns[i])
    {
      var q := p + [k];
      assert ns[i][..|q|][|p|] == k;
      assert ns[i][..|p|] == ns[i][..|q|][..|p|] == p;
    }
  }

  /** One more branch keeps the numbers in order. */
  lemma {:induction false} AddBranch(p: seq<nat>, k: nat, a: seq<seq<nat>>, b: seq<seq<nat>>)
    requires Increasing(a) && AllInBranch(p, 1, k, a)
    requires Increasing(b) && AllUnder(p + [k + 1], b)
    ensures Increasing(a + b) && AllInBranch(p, 1, k + 1, a + b)
  {
    hide Less, AllUnder;
    UnderIsBranch(p, k + 1, b);
    var ns := a + b;
    forall i, j | 0 <= i < j < |ns|
      ensures Less(ns[i], ns[j])
    {
      if i < |a| <= j {
        assert InBranch(p, 1, k, a[i]) && InBranch(p, k + 1, k + 1, b[j - |a|]);
        BranchesOrdered(p, k, a[i], b[j - |a|]);
      } else if j < |a| {
        assert Less(a[i], a[j]);
      } else {
        assert Less(b[i - |a|], b[j - |a|]);
      }
    }
    forall i | 0 <= i < |ns|
      ensures InBranch(p, 1, k + 1, ns[i])
    {
      if i < |a| { assert InBranch(p, 1, k, a[i]); } else { assert InBranch(p, k + 1, k + 1, b[i - |a|]); }
    }
  }

  /** A section comes before everything below it. */
  lemma {:induction false} AddRoot(p: seq<nat>, k: nat, ns: seq<seq<nat>>)
    requires Increasing(ns) && AllInBranch(p, 1, k, ns)
    ensures Increasing([p] + ns) && AllUnder(p, [p] + ns)
  {
    var all := [p] + ns;
    assert forall i :: 0 <= i < |ns| ==> InBranch(p, 1, k, ns[i]) && all[i + 1] == ns[i];
    forall i, j | 0 <= i < j < |all|
      ensures Less(all[i], all[j])
    {
      assert InBranch(p, 1, k, ns[j - 1]);
      if i > 0 { assert Less(ns[i - 1], ns[j - 1]); }
    }
  }

  // ------------------------------------------------------------------ distinct numbers

  /** Everything below a section is numbered: each group of siblings has a numbered member and none
      that opts out, below a section with a title or a number. */
  predicate IsFullyNumbered(sec: Section, inherits: bool)
    decreases sec
  {
    sec.subsections == []
    || ((sec.title.Some? || inherits) && AnyNumbered(sec.subsections)
        && forall i :: 0 <= i < |sec.subsections| ==>
             sec.subsections[i].numbered != Some(false) && IsFullyNumbered(sec.subsections[i], true))
  }

  lemma {:induction false} NumberedInOrder(sec: Section, number: seq<nat>)
    requires IsFullyNumbered(sec, number != [])
    ensures Increasing(Numbers(Numbered(sec, number))) && AllUnder(number, Numbers(Numbered(sec, number)))
    decreases sec, 1, 0
  {
    hide Increasing, AllUnder, Numbered, AllInBranch;
    GroupInOrder(sec, number, |sec.subsections|);
    AddRoot(number, |sec.subsections|, ChildNumbers(Numbered(sec, number), |sec.subsections|));
  }

  lemma {:induction false} GroupInOrder(sec: Section, number: seq<nat>, k: nat)
    requires IsFullyNumbered(sec, number != []) && k <= |sec.subsections|
    ensures var ns := ChildNumbers(Numbered(sec, number), k);
            Increasing(ns) && AllInBranch(number, 1, k, ns)
    decreases sec, 0, k
  {
    hide Increasing, AllUnder, Numbered, AllInBranch, AnyNumbered;
    if k == 0 {
      EmptyInOrder(number);
    } else {
      var sub := sec.subsections[k - 1];
      GroupInOrder(sec, number, k - 1);
      ChildIs(sec, number, k - 1);
      NumberedInOrder(sub, number + [k]);
      AddBranch(number, k - 1, ChildNumbers(Numbered(sec, number), k - 1), Numbers(Numbered(sub, number + [k])));
    }
  }

  lemma {:induction false} EmptyInOrder(p: seq<nat>)
    ensures Increasing([]) && AllInBranch(p, 1, 0, [])
  {
  }

  /** The numbers of one child are among those of its parent, after the parent's own. */
  lemma {:induction false} ChildNumbersWithin(node: Node, i: nat, k: nat)
    requires i < k <= |node.children|
    ensures exists at: nat :: Within(Numbers(node.children[i]), ChildNumbers(node, k), at)
    decreases k
  {
    hide Numbers;
    var front, mine := ChildNumbers(node, k - 1), Numbers(node.children[k - 1]);
    assert ChildNumbers(node, k) == front + mine;
    if i == k - 1 {
      assert Within(mine, front + mine, |front|);
    } else {
      ChildNumbersWithin(node, i, k - 1);
      var at: nat :| Within(Numbers(node.children[i]), front, at);
      assert Within(Numbers(node.children[i]), front + mine, at);
    }
  }

  /** The list `part` stands in `all` from position `at`. */
  predicate Within(part: seq<seq<nat>>, all: seq<seq<nat>>, at: nat) {
    at + |part| <= |all| && forall j :: 0 <= j < |part| ==> part[j] == all[at + j]
  }

  lemma {:induction false} WithinDistinct(part: seq<seq<nat>>, all: seq<seq<nat>>, at: nat)
    requires Within(part, all, at) && Distinct(all)
    ensures Distinct(part)
  {
    forall i, j | 0 <= i < j < |part|
      ensures part[i] != part[j]
    {
      assert part[i] == all[at + i] && part[j] == all[at + j];
    }
  }

  /** A child with its parent's number, or without distinct numbers of its own, spoils the parent's. */
  lemma {:induction false} ChildSpoils(node: Node, i: nat)
    requires i < |node.children|
    requires node.children[i].number == node.number || !Distinct(Numbers(node.children[i]))
    ensures !Distinct(Numbers(node))
  {
    var below, mine := ChildNumbers(node, |node.children|), Numbers(node.children[i]);
    ChildNumbersWithin(node, i, |node.children|);
    var at: nat :| Within(mine, below, at);
    var all := Numbers(node);
    assert all == [node.number] + below by { NumbersAre(node); }
    hide Numbers, ChildNumbers;
    assert Within(mine, all, at + 1);
    assert mine[0] == all[at + 1];
    if Distinct(all) { WithinDistinct(mine, all, at + 1); }
  }

  lemma {:induction false} NumbersAre(node: Node)
    ensures Numbers(node) == [node.number] + ChildNumbers(node, |node.children|)
  {
  }

  lemma {:induction false} NotNumberedNotDistinct(sec: Section, number: seq<nat>)
    requires !IsFullyNumbered(sec, number != [])
    ensures !Distinct(Numbers(Numbered(sec, number)))
    decreases sec
  {
    hide Numbers, Distinct, Numbered;
    var subs := sec.subsections;
    if (sec.title.Some? || number != []) && AnyNumbered(subs) {
      var i :| 0 <= i < |subs| && (subs[i].numbered == Some(false) || !IsFullyNumbered(subs[i], true));
      ChildIs(sec, number, i);
      if subs[i].numbered != Some(false) { NotNumberedNotDistinct(subs[i], number + [i + 1]); }
      NumberOf(subs[i], ChildNumber(sec, number, i));
      NumberOf(sec, number);
      ChildSpoils(Numbered(sec, number), i);
    } else {
      ChildIs(sec, number, 0);
      NumberOf(subs[0], number);
      NumberOf(sec, number);
      ChildSpoils(Numbered(sec, number), 0);
    }
  }

  lemma {:induction false} NumberOf(sec: Section, number: seq<nat>)
    ensures Numbered(sec, number).number == number
  {
  }

  /** The numbers in a section are pairwise distinct exactly when everything below it is numbered,
      and then they increase in document order. */
  lemma {:induction false} NumbersDistinct(sec: Section, number: seq<nat>)
    ensures Distinct(Numbers(Numbered(sec, number))) <==> IsFullyNumbered(sec, number != [])
    ensures IsFullyNumbered(sec, number != []) ==> Increasing(Numbers(Numbered(sec, number)))
  {
    hide Numbers, Distinct, Increasing, Numbered, IsFullyNumbered;
    if IsFullyNumbered(sec, number != []) {
      NumberedInOrder(sec, number);
      IncreasingDistinct(Numbers(Numbered(sec, number)));
    } else {
      NotNumberedNotDistinct(sec, number);
    }
  }

  /** A model in which everything is titled and numbered. */
  predicate IsNumberedModel(secs: seq<Section>) {
    (secs == [] || AnyNumbered(secs))
    && forall i :: 0 <= i < |secs| ==>
         secs[i].title.Some? && secs[i].numbered != Some(false) && IsFullyNumbered(secs[i], true)
  }

  lemma {:induction false} AllTitled(secs: seq<Section>, k: nat)
    requires k <= |secs| && forall i :: 0 <= i < |secs| ==> secs[i].title.Some?
    ensures Titled(secs, k) == k
  {
    if k > 0 { AllTitled(secs, k - 1); }
  }

  /** In such a model the numbers of the whole document increase, so they are distinct. */
  lemma {:induction false} DocumentInOrder(secs: seq<Section>, k: nat)
    requires IsNumberedModel(secs) && k <= |secs|
    ensures var ns := AllNumbers(Document(secs, k), k);
            Increasing(ns) && Distinct(ns) && AllInBranch([], 1, k, ns)
    decreases k
  {
    hide Increasing, Distinct, AllUnder, Numbered, AllInBranch, AnyNumbered, Numbers;
    if k == 0 {
      EmptyInOrder([]);
    } else {
      DocumentInOrder(secs, k - 1);
      AllTitled(secs, k);
      var node := Numbered(secs[k - 1], TopNumber(secs, k - 1));
      assert TopNumber(secs, k - 1) == [] + [k];
      NumberedInOrder(secs[k - 1], [k]);
      SameNumbers(Document(secs, k - 1), node);
      AddBranch([], k - 1, AllNumbers(Document(secs, k - 1), k - 1), Numbers(node));
    }
    IncreasingDistinct(AllNumbers(Document(secs, k), k));
  }

  lemma {:induction false} SameNumbers(nodes: seq<Node>, node: Node)
    ensures AllNumbers(nodes + [node], |nodes| + 1) == AllNumbers(nodes, |nodes|) + Numbers(node)
  {
    hide Numbers;
    NumbersPrefix(nodes, node, |nodes|);
  }

  lemma {:induction false} NumbersPrefix(nodes: seq<Node>, node: Node, k: nat)
    requires k <= |nodes|
    ensures AllNumbers(nodes + [node], k) == AllNumbers(nodes, k)
  {
    hide Numbers;
    if k > 0 { NumbersPrefix(nodes, node, k - 1); }
  }

  // ------------------------------------------------------------------ numbers after a round trip

  predicate IsNumbering(sec: Section, inherits: bool) {
    (sec.title.Some? || inherits) && AnyNumbered(sec.subsections)
  }

  /** No group that is numbered has a member that opts out, here or below. */
  predicate KeepsNumbers(sec: Section, inherits: bool)
    decreases sec
  {
    forall i :: 0 <= i < |sec.subsections| ==>
      && (IsNumbering(sec, inherits) ==> sec.subsections[i].numbered != Some(false))
      && KeepsNumbers(sec.subsections[i], inherits || IsNumbering(sec, inherits))
  }

  predicate ChildKeeps(sec: Section, inherits: bool, i: nat)
    requires i < |sec.subsections|
  {
    && (IsNumbering(sec, inherits) ==> sec.subsections[i].numbered != Some(false))
    && KeepsNumbers(sec.subsections[i], inherits || IsNumbering(sec, inherits))
  }

  predicate TopKeeps(secs: seq<Section>, i: nat)
    requires i < |secs|
  {
    var numbering := AnyNumbered(secs) && secs[i].title.Some?;
    (numbering ==> secs[i].numbered != Some(false)) && KeepsNumbers(secs[i], numbering)
  }

  predicate ModelKeepsNumbers(secs: seq<Section>) {
    forall i :: 0 <= i < |secs| ==> TopKeeps(secs, i)
  }

  lemma {:induction false} ForgetAt(secs: seq<Section>, i: nat)
    requires i < |secs|
    ensures ForgetAll(secs)[i] == Forget(secs[i])
  {
    hide Forget;
    if i > 0 { ForgetAt(secs[1..], i - 1); }
  }

  lemma {:induction false} ForgetFlag(sec: Section)
    ensures Forget(sec).title == sec.title && Forget(sec).subsections == ForgetAll(sec.subsections)
    ensures Forget(sec).numbered == if sec.numbered == Some(true) then Some(true) else None
  {
  }

  lemma {:induction false} ForgetAnyNumbered(secs: seq<Section>)
    ensures AnyNumbered(ForgetAll(secs)) == AnyNumbered(secs)
  {
    hide Forget, ForgetAll;
    forall i | 0 <= i < |secs|
      ensures ForgetAll(secs)[i].numbered == Some(true) <==> secs[i].numbered == Some(true)
    {
      ForgetAt(secs, i);
      ForgetFlag(secs[i]);
    }
  }

  /** What forgetting does to the number of a child. */
  lemma {:induction false} ForgetChildNumber(sec: Section, number: seq<nat>, i: nat)
    requires i < |sec.subsections|
    ensures var numbering := IsNumbering(sec, number != []);
            && ChildNumber(sec, number, i)
               == (if numbering && sec.subsections[i].numbered != Some(false) then number + [i + 1] else number)
            && ChildNumber(Forget(sec), number, i) == (if numbering then number + [i + 1] else number)
  {
    hide Forget, ForgetAll, AnyNumbered;
    ForgetFlag(sec);
    ForgetAt(sec.subsections, i);
    ForgetFlag(sec.subsections[i]);
    ForgetAnyNumbered(sec.subsections);
  }

  /** Two numbered sections are the same when they agree in everything but the wish to be numbered. */
  lemma {:induction false} SameNode(a: Section, b: Section, number: seq<nat>)
    requires b == a.(subsections := b.subsections, numbered := b.numbered)
    requires |a.subsections| == |b.subsections|
    ensures Numbered(a, number) == Numbered(b, number)
            <==> forall i :: 0 <= i < |a.subsections| ==>
                   Numbered(a, number).children[i] == Numbered(b, number).children[i]
  {
    hide NumberedChildren;
  }

  lemma {:induction false} ForgetKeepsNumbers(sec: Section, number: seq<nat>)
    ensures Numbered(Forget(sec), number) == Numbered(sec, number) <==> KeepsNumbers(sec, number != [])
    decreases sec
  {
    hide Numbered, Forget, ForgetAll, AnyNumbered, ChildNumber, KeepsNumbers;
    var subs, inherits := sec.subsections, number != [];
    ForgetIs(sec);
    forall i | 0 <= i < |subs|
      ensures Numbered(Forget(sec), number).children[i] == Numbered(sec, number).children[i]
              <==> ChildKeeps(sec, inherits, i)
    {
      ChildIs(sec, number, i);
      ChildIs(Forget(sec), number, i);
      ForgetAt(subs, i);
      ForgetChildNumber(sec, number, i);
      ForgetKeepsNumbers(subs[i], ChildNumber(sec, number, i));
      NumberOf(subs[i], ChildNumber(sec, number, i));
      NumberOf(Forget(subs[i]), ChildNumber(Forget(sec), number, i));
    }
    SameNode(sec, Forget(sec), number);
    assert Numbered(Forget(sec), number) == Numbered(sec, number)
           <==> forall i :: 0 <= i < |subs| ==> ChildKeeps(sec, inherits, i);
    KeepsNumbersIs(sec, inherits);
  }

  lemma {:induction false} KeepsNumbersIs(sec: Section, inherits: bool)
    ensures KeepsNumbers(sec, inherits) <==> forall i :: 0 <= i < |sec.subsections| ==> ChildKeeps(sec, inherits, i)
  {
    hide IsNumbering;
    if forall i :: 0 <= i < |sec.subsections| ==> ChildKeeps(sec, inherits, i) {
      forall i | 0 <= i < |sec.subsections|
        ensures IsNumbering(sec, inherits) ==> sec.subsections[i].numbered != Some(false)
        ensures KeepsNumbers(sec.subsections[i], inherits || IsNumbering(sec, inherits))
      {
        assert ChildKeeps(sec, inherits, i);
      }
    }
  }

  lemma {:induction false} ForgetIs(sec: Section)
    ensures Forget(sec) == sec.(subsections := ForgetAll(sec.subsections), numbered := Forget(sec).numbered)
  {
  }

  lemma {:induction false} ForgetTitled(secs: seq<Section>, k: nat)
    requires k <= |secs|
    ensures Titled(ForgetAll(secs), k) == Titled(secs, k)
  {
    hide Forget, ForgetAll;
    if k > 0 {
      ForgetTitled(secs, k - 1);
      ForgetAt(secs, k - 1);
      ForgetFlag(secs[k - 1]);
    }
  }

  lemma {:induction false} ForgetTopNumber(secs: seq<Section>, i: nat)
    requires i < |secs|
    ensures var numbering := AnyNumbered(secs) && secs[i].title.Some?;
            var n := Titled(secs, i + 1);
            && TopNumber(secs, i) == (if numbering && secs[i].numbered != Some(false) then [n] else [])
            && TopNumber(ForgetAll(secs), i) == (if numbering then [n] else [])
  {
    hide Forget, ForgetAll, AnyNumbered, Titled;
    ForgetAt(secs, i);
    ForgetFlag(secs[i]);
    ForgetAnyNumbered(secs);
    ForgetTitled(secs, i + 1);
  }

  lemma {:induction false} ForgetTop(secs: seq<Section>, i: nat)
    requires i < |secs|
    ensures Numbered(ForgetAll(secs)[i], TopNumber(ForgetAll(secs), i)) == Numbered(secs[i], TopNumber(secs, i))
            <==> TopKeeps(secs, i)
  {
    hide Forget, ForgetAll, AnyNumbered, TopNumber, Numbered, KeepsNumbers;
    ForgetTopNumber(secs, i);
    ForgetAt(secs, i);
    ForgetKeepsNumbers(secs[i], TopNumber(secs, i));
    NumberOf(secs[i], TopNumber(secs, i));
    NumberOf(Forget(secs[i]), TopNumber(ForgetAll(secs), i));
  }

  lemma {:induction false} DocumentKeeps(secs: seq<Section>, k: nat)
    requires k <= |secs|
    ensures Document(ForgetAll(secs), k) == Document(secs, k) <==> forall i :: 0 <= i < k ==> TopKeeps(secs, i)
  {
    hide Forget, ForgetAll, Numbered, TopNumber, TopKeeps;
    if k > 0 {
      DocumentKeeps(secs, k - 1);
      ForgetTop(secs, k - 1);
      var a, b := Document(ForgetAll(secs), k), Document(secs, k);
      assert a[..k - 1] == Document(ForgetAll(secs), k - 1) && b[..k - 1] == Document(secs, k - 1);
      assert a == b ==> a[..k - 1] == b[..k - 1] && a[k - 1] == b[k - 1];
    }
  }

  /** The document that is rendered after a trip through JSON is the same, numbers included, exactly
      when no numbered group has a member that opts out. */
  lemma {:induction false} RoundTripKeepsNumbers(secs: seq<Section>)
    requires IsValidModel(secs)
    ensures var back := FromJson(Ordered(secs));
            && back.Ok? && |back.value| == |secs|
            && (Document(back.value, |secs|) == Document(secs, |secs|) <==> ModelKeepsNumbers(secs))
  {
    hide FromJson, Ordered, Document, TopKeeps, IsValidModel;
    FormReadsBack(secs);
    DocumentKeeps(secs, |secs|);
  }
}
