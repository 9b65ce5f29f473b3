/** Contexts and their steps: the order of the steps under every sequence of changes, and the
    validation of a set of contexts. */
module Contexts {
  import opened Json
  import opened Lists

  const MAX_CONTEXTS := 50
  const MAX_STEPS_PER_CONTEXT := 100

  // ------------------------------------------------------------------ orders of names

  function Without(order: seq<string>, name: string): (r: seq<string>)
    ensures name !in r && forall n :: n in r <==> n in order && n != name
  {
    if order == [] then []
    else (if order[0] == name then [] else [order[0]]) + Without(order[1..], name)
  }

  /** The position of the first occurrence, or the length. */
  function Position(order: seq<string>, name: string): (k: nat)
    ensures k <= |order| && name !in order[..k]
    ensures k < |order| ==> order[k] == name
    ensures k == |order| <==> name !in order
  {
    if order == [] || order[0] == name then 0
    else
      var k := Position(order[1..], name) + 1;
      assert order[..k] == [order[0]] + order[1..][..k - 1];
      k
  }

  function RemovedAt(order: seq<string>, k: nat): (r: seq<string>)
    requires k < |order|
    ensures |r| == |order| - 1 && multiset(r) + multiset{order[k]} == multiset(order)
  {
    assert order == order[..k] + [order[k]] + order[k + 1..];
    order[..k] + order[k + 1..]
  }

  function InsertedAt(order: seq<string>, at: nat, name: string): (r: seq<string>)
    requires at <= |order|
    ensures |r| == |order| + 1 && multiset(r) == multiset(order) + multiset{name}
    ensures r[at] == name && RemovedAt(r, at) == order
  {
    assert order == order[..at] + order[at..];
    var r := order[..at] + [name] + order[at..];
    assert r[..at] == order[..at] && r[at + 1..] == order[at..];
    r
  }

  /** Where a step ends up that is moved among `n` others. */
  function Clamped(position: int, n: nat): (at: nat)
    ensures at <= n
  {
    if position < 0 || position >= n then n else position
  }

  function Moved(order: seq<string>, name: string, position: int): seq<string> {
    var k := Position(order, name);
    if k == |order| then order
    else InsertedAt(RemovedAt(order, k), Clamped(position, |order| - 1), name)
  }

  /** Moving permutes the names, puts the step at the given position, or at the end when there is no such
      position, takes it away where it was first mentioned, and keeps all the others in order. */
  lemma {:induction false} MovedPlaces(order: seq<string>, name: string, position: int, from: nat)
    requires from < |order| && order[from] == name && name !in order[..from]
    ensures var moved, at := Moved(order, name, position), if 0 <= position < |order| then position else |order| - 1;
            && multiset(moved) == multiset(order) && |moved| == |order|
            && moved[at] == name && moved[..at] + moved[at + 1..] == order[..from] + order[from + 1..]
            && (Distinct(order) ==> moved[..at] + moved[at + 1..] == Without(order, name))
  {
    hide RemovedAt, Distinct, Without, Moved, Position, Clamped;
    var moved, at := Moved(order, name, position), if 0 <= position < |order| then position else |order| - 1;
    PositionIs(order, name, from);
    MovedToClamped(order, name, position);
    assert Clamped(position, |order| - 1) == at by { ClampedIs(position, |order|); }
    RemovedIs(order, from);
    RemovedIs(moved, at);
    if Distinct(order) { WithoutOne(order, name, from); }
  }

  lemma {:induction false} ClampedIs(position: int, n: nat)
    requires n > 0
    ensures Clamped(position, n - 1) == if 0 <= position < n then position else n - 1
  {
  }

  lemma {:induction false} MovedToClamped(order: seq<string>, name: string, position: int)
    requires name in order
    ensures var moved, at := Moved(order, name, position), Clamped(position, |order| - 1);
            && multiset(moved) == multiset(order) && |moved| == |order|
            && moved[at] == name && RemovedAt(moved, at) == RemovedAt(order, Position(order, name))
  {
    hide RemovedAt, InsertedAt, Clamped;
  }

  lemma {:induction false} PositionIs(order: seq<string>, name: string, k: nat)
    requires k < |order| && order[k] == name && name !in order[..k]
    ensures Position(order, name) == k
  {
    hide Position;
    var p := Position(order, name);
    InBeginning(order, p, k);
    InBeginning(order, k, p);
  }

  lemma {:induction false} InBeginning(order: seq<string>, k: nat, n: nat)
    ensures k < n <= |order| ==> order[k] in order[..n]
  {
    if k < n <= |order| { assert order[..n][k] == order[k]; }
  }

  lemma {:induction false} RemovedIs(order: seq<string>, k: nat)
    requires k < |order|
    ensures RemovedAt(order, k) == order[..k] + order[k + 1..]
  {
  }

  /** Taking a name out keeps the rest in order. */
  lemma {:induction false} WithoutOfTwo(a: seq<string>, b: seq<string>, name: string)
    ensures Without(a + b, name) == Without(a, name) + Without(b, name)
  {
    hide Without;
    WithoutFirst(a, name);
    if a == [] {
      assert a + b == b;
    } else {
      WithoutOfTwo(a[1..], b, name);
      WithoutFirst(a + b, name);
      assert (a + b)[1..] == a[1..] + b;
    }
  }

  lemma {:induction false} WithoutFirst(order: seq<string>, name: string)
    ensures order == [] ==> Without(order, name) == []
    ensures order != [] ==>
      Without(order, name) == (if order[0] == name then [] else [order[0]]) + Without(order[1..], name)
  {
  }

  lemma {:induction false} WithoutNone(order: seq<string>, name: string)
    requires name !in order
    ensures Without(order, name) == order
  {
    if order != [] {
      assert order[0] in order && forall n :: n in order[1..] ==> n in order;
      WithoutNone(order[1..], name);
    }
  }

  lemma {:induction false} WithoutOne(order: seq<string>, name: string, k: nat)
    requires k < |order| && order[k] == name && Distinct(order)
    ensures Without(order, name) == RemovedAt(order, k)
    decreases k
  {
    hide Without, RemovedAt, Position, Distinct;
    WithoutFirst(order, name);
    DistinctTail(order, k);
    RemovedIs(order, k);
    if k == 0 {
      WithoutNone(order[1..], name);
      assert order[..0] == [];
    } else {
      WithoutOne(order[1..], name, k - 1);
      RemovedIs(order[1..], k - 1);
      CutBehind(order, k);
    }
  }

  lemma {:induction false} DistinctTail(order: seq<string>, k: nat)
    requires k < |order| && Distinct(order)
    ensures Distinct(order[1..]) && order[0] !in order[1..]
    ensures k > 0 ==> order[1..][k - 1] == order[k] && order[0] != order[k]
  {
  }

  lemma {:induction false} CutBehind(order: seq<string>, k: nat)
    requires 0 < k < |order|
    ensures order[..k] + order[k + 1..] == [order[0]] + (order[1..][..k - 1] + order[1..][k..])
  {
  }

  // ------------------------------------------------------------------ the steps of one context

  /** A step, as far as validation looks at it: what its gathering of information does at the end,
      if it gathers any. */
  datatype Step = Step(completionAction: Option<string>)

  datatype Steps = Steps(byName: map<string, Step>, order: seq<string>)

  datatype Change = Add(name: string, step: Step) | Remove(name: string) | Move(name: string, position: int)

  /** One change; adding to a full context throws and changes nothing. */
  function Changed(s: Steps, c: Change): Steps {
    match c
    case Add(name, step) =>
      if |s.byName| >= MAX_STEPS_PER_CONTEXT then s else Steps(s.byName[name := step], s.order + [name])
    case Remove(name) => Steps(s.byName - {name}, Without(s.order, name))
    case Move(name, position) => s.(order := Moved(s.order, name, position))
  }

  function Run(changes: seq<Change>): Steps {
    if changes == [] then Steps(map[], [])
    else Changed(Run(changes[..|changes| - 1]), changes[|changes| - 1])
  }

  ghost predicate NamesKeys(s: Steps) {
    forall n :: n in s.byName <==> n in s.order
  }

  lemma {:induction false} SameElements(a: seq<string>, b: seq<string>)
    requires multiset(a) == multiset(b)
    ensures forall n :: n in a <==> n in b
    ensures Distinct(a) <==> Distinct(b)
  {
    forall n
      ensures n in a <==> n in b
    {
      assert n in a <==> multiset(a)[n] > 0;
      assert n in b <==> multiset(b)[n] > 0;
    }
    CountedOnce(a);
    CountedOnce(b);
  }

  lemma {:induction false} CountedOnce(a: seq<string>)
    ensures Distinct(a) <==> forall n :: multiset(a)[n] <= 1
  {
    if a != [] {
      var front, last := a[..|a| - 1], a[|a| - 1];
      CountedOnce(front);
      assert a == front + [last];
      assert multiset(a) == multiset(front) + multiset{last};
      if Distinct(a) {
        assert last !in front;
        assert multiset(front)[last] == 0;
      } else if Distinct(front) {
        var i, j :| 0 <= i < j < |a| && a[i] == a[j];
        assert front[i] == last;
        assert multiset(front)[last] >= 1;
        assert multiset(a)[last] >= 2;
      } else {
        var n :| multiset(front)[n] > 1;
        assert multiset(a)[n] > 1;
      }
    }
  }

  lemma {:induction false} MovedPermutes(order: seq<string>, name: string, position: int)
    ensures multiset(Moved(order, name, position)) == multiset(order)
  {
    hide RemovedAt, InsertedAt, Clamped;
  }

  lemma {:induction false} WithoutDistinct(order: seq<string>, name: string)
    requires Distinct(order)
    ensures Distinct(Without(order, name))
  {
    if order != [] {
      WithoutDistinct(order[1..], name);
      assert forall n :: n in Without(order[1..], name) ==> n in order[1..];
      assert order[0] !in order[1..];
    }
  }

  /** Whether the changes only ever add names that are not there. */
  predicate AddsFresh(changes: seq<Change>) {
    changes == []
    || (var before, c := changes[..|changes| - 1], changes[|changes| - 1];
        AddsFresh(before) && (c.Add? ==> c.name !in Run(before).byName))
  }

  /** Under any changes the order names exactly the steps there are, at most 100 of them, and without
      duplicates when added names are fresh. */
  lemma {:induction false} OrderNamesSteps(changes: seq<Change>)
    ensures var s := Run(changes);
            && NamesKeys(s) && |s.byName| <= 100
            && (AddsFresh(changes) ==> Distinct(s.order))
    decreases |changes|
  {
    if changes != [] {
      var before, c := changes[..|changes| - 1], changes[|changes| - 1];
      OrderNamesSteps(before);
      ChangeKeeps(Run(before), c);
    }
  }

  lemma {:induction false} AddKeeps(s: Steps, name: string, step: Step)
    requires NamesKeys(s) && |s.byName| <= MAX_STEPS_PER_CONTEXT
    ensures var s' := Changed(s, Add(name, step));
            && NamesKeys(s') && |s'.byName| <= MAX_STEPS_PER_CONTEXT
            && (Distinct(s.order) && name !in s.byName ==> Distinct(s'.order))
  {
  }

  lemma {:induction false} ChangeKeeps(s: Steps, c: Change)
    requires NamesKeys(s) && |s.byName| <= MAX_STEPS_PER_CONTEXT
    ensures NamesKeys(Changed(s, c)) && |Changed(s, c).byName| <= MAX_STEPS_PER_CONTEXT
    ensures Distinct(s.order) && (c.Add? ==> c.name !in s.byName) ==> Distinct(Changed(s, c).order)
  {
    match c
    case Add(name, step) =>
      hide Moved, Without, NamesKeys, Distinct;
      AddKeeps(s, name, step);
    case Remove(name) =>
      hide Moved, Distinct;
      FewerSteps(s.byName, name);
      if Distinct(s.order) { WithoutDistinct(s.order, name); }
    case Move(name, position) =>
      hide Distinct, Without;
      MovedPermutes(s.order, name, position);
      SameElements(Moved(s.order, name, position), s.order);
  }

  lemma {:induction false} FewerSteps(m: map<string, Step>, name: string)
    ensures |m - {name}| <= |m|
  {
    var r := m - {name};
    assert r.Keys == m.Keys - {name};
    assert |r| == |r.Keys| && |m| == |m.Keys|;
  }

  /** How often the order mentions a name, read off the history: the adds of the name that were not
      refused, since its last remove. */
  function AddsSince(changes: seq<Change>, name: string): nat {
    if changes == [] then 0
    else
      var before, c := changes[..|changes| - 1], changes[|changes| - 1];
      if c.Remove? && c.name == name then 0
      else if c.Add? && c.name == name && |Run(before).byName| < MAX_STEPS_PER_CONTEXT then AddsSince(before, name) + 1
      else AddsSince(before, name)
  }

  lemma {:induction false} WithoutCounts(order: seq<string>, name: string, n: string)
    ensures multiset(Without(order, name))[n] == if n == name then 0 else multiset(order)[n]
  {
    if order != [] {
      WithoutCounts(order[1..], name, n);
      assert order == [order[0]] + order[1..];
      assert multiset(order) == multiset{order[0]} + multiset(order[1..]);
    }
  }

  lemma {:induction false} OrderCounts(changes: seq<Change>, n: string)
    ensures multiset(Run(changes).order)[n] == AddsSince(changes, n)
  {
    if changes != [] {
      var before, c := changes[..|changes| - 1], changes[|changes| - 1];
      OrderCounts(before, n);
      hide Without, Moved;
      match c
      case Add(name, step) =>
      case Remove(name) => WithoutCounts(Run(before).order, name, n);
      case Move(name, position) => MovedPermutes(Run(before).order, name, position);
    }
  }

  /** The order is free of duplicates exactly when no name was added twice since its last remove. */
  lemma {:induction false} DuplicatesExactly(changes: seq<Change>)
    ensures Distinct(Run(changes).order) <==> forall n :: AddsSince(changes, n) <= 1
  {
    hide Run, Distinct, AddsSince;
    var order := Run(changes).order;
    CountedOnce(order);
    if n :| multiset(order)[n] > 1 {
      OrderCounts(changes, n);
    } else {
      forall n
        ensures AddsSince(changes, n) <= 1
      {
        OrderCounts(changes, n);
      }
    }
  }

  class Context {
    var steps: map<string, Step>
    var stepOrder: seq<string>
    var initialStep: Option<string>

    function State(): Steps
      reads this
    {
      Steps(steps, stepOrder)
    }

    constructor ()
      ensures State() == Run([]) && initialStep == None
    {
      steps, stepOrder, initialStep := map[], [], None;
    }

    method AddStep(name: string, step: Step) returns (ok: bool)
      modifies this`steps, this`stepOrder
      ensures State() == Changed(old(State()), Add(name, step))
      ensures ok <==> old(|steps|) < 100
      ensures ok ==> steps == old(steps)[name := step] && stepOrder == old(stepOrder) + [name]
      ensures !ok ==> unchanged(this)
    {
      if |steps| >= MAX_STEPS_PER_CONTEXT { return false; }
      steps := steps[name := step];
      stepOrder := stepOrder + [name];
      ok := true;
    }

    method RemoveStep(name: string)
      modifies this`steps, this`stepOrder
      ensures State() == Changed(old(State()), Remove(name))
    {
      steps := steps - {name};
      var kept: seq<string> := [];
      assert stepOrder[0..] == stepOrder;
      for i := 0 to |stepOrder|
        invariant stepOrder == old(stepOrder) && steps == old(steps) - {name}
        invariant kept + Without(stepOrder[i..], name) == Without(stepOrder, name)
      {
        assert stepOrder[i..][1..] == stepOrder[i + 1..];
        if stepOrder[i] != name { kept := kept + [stepOrder[i]]; }
      }
      stepOrder := kept;
    }

    method FindStep(name: string) returns (k: nat)
      ensures k == Position(stepOrder, name)
    {
      k := 0;
      assert stepOrder[0..] == stepOrder;
      while k < |stepOrder| && stepOrder[k] != name
        invariant k <= |stepOrder| && Position(stepOrder, name) == k + Position(stepOrder[k..], name)
      {
        assert stepOrder[k..][1..] == stepOrder[k + 1..];
        k := k + 1;
      }
    }

    method MoveStep(name: string, position: int)
      modifies this`stepOrder
      ensures State() == Changed(old(State()), Move(name, position))
    {
      hide Moved, Position, Without, NamesKeys, Distinct;
      var k := FindStep(name);
      if k != |stepOrder| {
        MovedIs(stepOrder, name, position);
        stepOrder := stepOrder[..k] + stepOrder[k + 1..];
        if position < 0 || position >= |stepOrder| {
          stepOrder := stepOrder + [name];
        } else {
          stepOrder := stepOrder[..position] + [name] + stepOrder[position..];
        }
      } else {
        NotMoved(stepOrder, name, position);
      }
    }
  }

  lemma {:induction false} NotMoved(order: seq<string>, name: string, position: int)
    requires Position(order, name) == |order|
    ensures Moved(order, name, position) == order
  {
  }

  lemma {:induction false} MovedIs(order: seq<string>, name: string, position: int)
    requires Position(order, name) < |order|
    ensures var k := Position(order, name);
            var rest := order[..k] + order[k + 1..];
            && (position < 0 || position >= |rest| ==> Moved(order, name, position) == rest + [name])
            && (0 <= position < |rest| ==>
                Moved(order, name, position) == rest[..position] + [name] + rest[position..])
  {
    hide Position, InsertedAt;
    var k := Position(order, name);
    InsertedIs(RemovedAt(order, k), Clamped(position, |order| - 1), name);
  }

  lemma {:induction false} InsertedIs(order: seq<string>, at: nat, name: string)
    requires at <= |order|
    ensures InsertedAt(order, at, name) == order[..at] + [name] + order[at..]
    ensures at == |order| ==> InsertedAt(order, at, name) == order + [name]
  {
    hide RemovedAt;
    assert at == |order| ==> order[..at] == order && order[at..] == [];
  }

  // ------------------------------------------------------------------ validation

  datatype ContextState = ContextState(steps: Steps, initialStep: Option<string>)

  datatype Defect = NoContexts | NotDefault | NoSteps | UnknownInitialStep | UnresolvedCompletion | ReservedName

  const RESERVED: set<string> := {"next_step", "change_context", "gather_submit"}

  predicate InitialResolves(c: ContextState) {
    c.initialStep.Some? ==> c.initialStep.value in c.steps.byName
  }

  /** Whether what the step `i` does at the end of its gathering can be done: nothing, going on to the
      step after it, or going to a step of this context. */
  predicate CompletionResolves(s: Steps, i: nat)
    requires i < |s.order|
  {
    s.order[i] in s.byName ==>
      match s.byName[s.order[i]].completionAction
      case None => true
      case Some(action) =>
        action == "" || (if action == "next_step" then i + 1 < |s.order| else action in s.byName)
  }

  predicate CompletionsResolve(c: ContextState) {
    forall i :: 0 <= i < |c.steps.order| ==> CompletionResolves(c.steps, i)
  }

  predicate ToolNamesFree(toolNames: Option<seq<string>>) {
    toolNames.Some? ==> forall i :: 0 <= i < |toolNames.value| ==> toolNames.value[i] !in RESERVED
  }

  /** What a set of contexts must satisfy. */
  predicate IsSound(contexts: map<string, ContextState>, toolNames: Option<seq<string>>) {
    && contexts != map[]
    && (|contexts| == 1 ==> "default" in contexts)
    && (forall name :: name in contexts ==>
      contexts[name].steps.byName != map[] && InitialResolves(contexts[name]) && CompletionsResolve(contexts[name]))
    && ToolNamesFree(toolNames)
  }

  /** The first kind of defect, in the order in which they are looked for. */
  function FirstDefect(contexts: map<string, ContextState>, toolNames: Option<seq<string>>): Option<Defect> {
    if contexts == map[] then Some(NoContexts)
    else if |contexts| == 1 && "default" !in contexts then Some(NotDefault)
    else if exists n :: n in contexts && contexts[n].steps.byName == map[] then Some(NoSteps)
    else if exists n :: n in contexts && !InitialResolves(contexts[n]) then Some(UnknownInitialStep)
    else if exists n :: n in contexts && !CompletionsResolve(contexts[n]) then Some(UnresolvedCompletion)
    else if !ToolNamesFree(toolNames) then Some(ReservedName)
    else None
  }

  /** A single context is sound exactly when it is the default one, has steps and an existing initial step,
      each step goes on to one that exists, and no tool has one of the three reserved names. */
  lemma {:induction false} OneContext(name: string, c: ContextState, names: seq<string>)
    ensures IsSound(map[name := c], Some(names)) <==>
      && name == "default"
      && c.steps.byName != map[]
      && (c.initialStep != None ==> c.initialStep.value in c.steps.byName)
      && (forall i :: 0 <= i < |c.steps.order| ==> GoesOn(c.steps, i))
      && "next_step" !in names && "change_context" !in names && "gather_submit" !in names
  {
    hide GoesOn, CompletionResolves, CompletionsResolve, ToolNamesFree;
    var contexts := map[name := c];
    assert |contexts| == 1 && name in contexts && contexts[name] == c;
    FreeNames(names);
    GoingOnAll(c);
  }

  lemma {:induction false} FreeNames(names: seq<string>)
    ensures ToolNamesFree(Some(names)) <==>
      "next_step" !in names && "change_context" !in names && "gather_submit" !in names
  {
  }

  lemma {:induction false} GoingOnAll(c: ContextState)
    ensures CompletionsResolve(c) <==> forall i :: 0 <= i < |c.steps.order| ==> GoesOn(c.steps, i)
  {
    hide GoesOn, CompletionResolves;
    forall i | 0 <= i < |c.steps.order|
      ensures CompletionResolves(c.steps, i) <==> GoesOn(c.steps, i)
    {
      GoingOn(c.steps, i);
    }
  }

  lemma {:induction false} GoingOn(s: Steps, i: nat)
    requires i < |s.order|
    ensures CompletionResolves(s, i) <==> GoesOn(s, i)
  {
  }

  /** What the step `i` goes on to when it has gathered its information: the step after it, or one of the
      context. */
  predicate GoesOn(s: Steps, i: nat)
    requires i < |s.order|
  {
    s.order[i] in s.byName && s.byName[s.order[i]].completionAction.Some? ==>
      var action := s.byName[s.order[i]].completionAction.value;
      action == "" || (action == "next_step" && i < |s.order| - 1) || (action != "next_step" && action in s.byName)
  }

  method CheckCompletions(c: ContextState) returns (ok: bool)
    ensures ok == CompletionsResolve(c)
  {
    var order, steps := c.steps.order, c.steps.byName;
    for i := 0 to |order|
      invariant forall j :: 0 <= j < i ==> CompletionResolves(c.steps, j)
    {
      if order[i] in steps {
        var gather := steps[order[i]].completionAction;
        if gather.Some? && gather.value != "" {
          if gather.value == "next_step" {
            if i + 1 >= |order| {
              assert !CompletionResolves(c.steps, i);
              return false;
            }
          } else if gather.value !in steps {
            assert !CompletionResolves(c.steps, i);
            return false;
          }
        }
      }
    }
    ok := true;
  }

  method CheckToolNames(names: seq<string>) returns (ok: bool)
    ensures ok == ToolNamesFree(Some(names))
    ensures ok <==> "next_step" !in names && "change_context" !in names && "gather_submit" !in names
  {
    var colliding: seq<string> := [];
    for i := 0 to |names|
      invariant colliding == [] <==> forall j :: 0 <= j < i ==> names[j] !in RESERVED
    {
      if names[i] in RESERVED { colliding := colliding + [names[i]]; }
    }
    ok := colliding == [];
  }

  class ContextBuilder {
    var contexts: map<string, ContextState>
    var contextOrder: seq<string>
    var toolNames: Option<seq<string>>

    constructor ()
      ensures contexts == map[] && contextOrder == [] && toolNames == None
    {
      contexts, contextOrder, toolNames := map[], [], None;
    }

    /** A name that is there already keeps its context, but is listed once more. */
    method AddContext(name: string) returns (ok: bool)
      modifies this`contexts, this`contextOrder
      ensures ok <==> old(|contexts|) < 50
      ensures contextOrder == old(contextOrder) + if ok then [name] else []
      ensures contexts == if ok && name !in old(contexts)
                          then old(contexts)[name := ContextState(Steps(map[], []), None)] else old(contexts)
    {
      ok := |contexts| < MAX_CONTEXTS;
      if !ok { return; }
      if name !in contexts { contexts := contexts[name := ContextState(Steps(map[], []), None)]; }
      contextOrder := contextOrder + [name];
    }

    method CheckSteps() returns (ok: bool)
      ensures ok <==> forall n :: n in contexts ==> contexts[n].steps.byName != map[]
    {
      var left := contexts.Keys;
      while left != {}
        invariant left <= contexts.Keys
        invariant forall n :: n in contexts && n !in left ==> contexts[n].steps.byName != map[]
        decreases |left|
      {
        var n :| n in left;
        if contexts[n].steps.byName == map[] { return false; }
        left := left - {n};
      }
      ok := true;
    }

    method CheckInitialSteps() returns (ok: bool)
      ensures ok <==> forall n :: n in contexts ==> InitialResolves(contexts[n])
    {
      var left := contexts.Keys;
      while left != {}
        invariant left <= contexts.Keys
        invariant forall n :: n in contexts && n !in left ==> InitialResolves(contexts[n])
        decreases |left|
      {
        var n :| n in left;
        var initial := contexts[n].initialStep;
        if initial.Some? && initial.value !in contexts[n].steps.byName { return false; }
        left := left - {n};
      }
      ok := true;
    }

    method CheckAllCompletions() returns (ok: bool)
      ensures ok <==> forall n :: n in contexts ==> CompletionsResolve(contexts[n])
    {
      hide CompletionsResolve;
      var left := contexts.Keys;
      while left != {}
        invariant left <= contexts.Keys
        invariant forall n :: n in contexts && n !in left ==> CompletionsResolve(contexts[n])
        decreases |left|
      {
        var n :| n in left;
        var fine := CheckCompletions(contexts[n]);
        if !fine { return false; }
        left := left - {n};
      }
      ok := true;
    }

    /** `validate`: succeeds exactly on sound contexts, and names the first kind of defect. */
    method Validate() returns (defect: Option<Defect>)
      ensures defect == None <==> IsSound(contexts, toolNames)
      ensures defect == FirstDefect(contexts, toolNames)
    {
      hide CompletionsResolve, InitialResolves;
      if contexts == map[] { return Some(NoContexts); }
      if |contexts| == 1 && "default" !in contexts { return Some(NotDefault); }
      var fine := CheckSteps();
      if !fine { return Some(NoSteps); }
      fine := CheckInitialSteps();
      if !fine { return Some(UnknownInitialStep); }
      fine := CheckAllCompletions();
      if !fine { return Some(UnresolvedCompletion); }
      if toolNames.Some? {
        fine := CheckToolNames(toolNames.value);
        if !fine { return Some(ReservedName); }
      }
      defect := None;
    }
  }
}
