/** The completion latch of one RELAY action: `Latch` is the shared state block as a value,
    `Action` the object whose methods update it in place. */
module RelayAction {
  import opened Json

  /** What the action was started as; it decides the filters set once the start call returned. */
  datatype Kind = Play | Collect | Detect

  // The start call is waiting for its reply, has returned, or has handed the action to the user.
  datatype Phase = Executing | Returned | Released

  datatype Latch = Latch(
    call: nat,
    control: string,
    kind: Kind,
    phase: Phase,
    filter: seq<string>,
    onDetect: bool,
    onResult: bool,
    state: string,
    result: Json,
    completed: bool,
    callback: Option<nat>, // callbacks are named by numbers
    runs: seq<nat>)        // which callback ran, in order
  {
    function Fired(): Latch {
      if callback.Some? then this.(runs := runs + [callback.value]) else this
    }

    function Updated(newState: string, r: Json): Latch {
      var l := this.(state := newState, result := r);
      if IsTerminal(newState) then l.(completed := true).Fired() else l
    }

    function Resolved(finalState: string, r: Json): Latch {
      this.(state := finalState, result := r, completed := true).Fired()
    }

    function WithCallback(cb: Option<nat>): Latch {
      var l := this.(callback := cb);
      if completed then l.Fired() else l
    }

    predicate Matches(eventType: string) {
      filter == [] || eventType in filter
    }

    /** `collect`, `play_and_collect` and `detect` set their filters after the start call. */
    function Configured(): Latch {
      match kind
      case Play => this.(phase := Released)
      case Collect => this.(phase := Released, filter := ["calling.call.collect"], onResult := true)
      case Detect => this.(phase := Released, onDetect := true)
    }
  }

  predicate IsTerminal(state: string) {
    state == "finished" || state == "error" || state == "no_input" || state == "no_match"
  }

  function NewLatch(call: nat, control: string, kind: Kind): Latch {
    Latch(call, control, kind, Executing, [], false, false, "", JNull, false, None, [])
  }

  class Action {
    const call: nat
    const control: string
    const kind: Kind
    var phase: Phase
    var eventTypeFilter: seq<string>
    var resolveOnDetect: bool
    var resolveOnResult: bool
    var currentState: string
    var resultData: Json
    var isCompleted: bool
    var completedCallback: Option<nat>
    var callbackRuns: seq<nat>

    function View(): Latch
      reads this
    {
      Latch(call, control, kind, phase, eventTypeFilter, resolveOnDetect, resolveOnResult, currentState, resultData,
            isCompleted, completedCallback, callbackRuns)
    }

    constructor (call: nat, control: string, kind: Kind)
      ensures View() == NewLatch(call, control, kind)
    {
      this.call := call;
      this.control := control;
      this.kind := kind;
      phase := Executing;
      eventTypeFilter := [];
      resolveOnDetect, resolveOnResult := false, false;
      currentState, resultData := "", JNull;
      isCompleted := false;
      completedCallback, callbackRuns := None, [];
    }

    method RunCallback(cb: Option<nat>)
      modifies this`callbackRuns
      ensures callbackRuns == old(callbackRuns) + if cb.Some? then [cb.value] else []
    {
      if cb.Some? {
        callbackRuns := callbackRuns + [cb.value];
      }
    }

    method OnCompleted(cb: Option<nat>)
      modifies this
      ensures View() == old(View()).WithCallback(cb)
    {
      completedCallback := cb;
      if isCompleted && completedCallback.Some? {
        RunCallback(completedCallback);
      }
    }

    method UpdateState(newState: string, result: Json)
      modifies this
      ensures View() == old(View()).Updated(newState, result)
    {
      var cb: Option<nat> := None;
      currentState := newState;
      resultData := result;
      if newState == "finished" || newState == "error" || newState == "no_input" || newState == "no_match" {
        isCompleted := true;
        cb := completedCallback;
      }
      RunCallback(cb);
    }

    method Resolve(finalState: string, result: Json)
      modifies this
      ensures View() == old(View()).Resolved(finalState, result)
    {
      currentState := finalState;
      resultData := result;
      isCompleted := true;
      var cb := completedCallback;
      RunCallback(cb);
    }

    method EventTypeMatches(eventType: string) returns (r: bool)
      ensures r == View().Matches(eventType)
    {
      if eventTypeFilter == [] {
        return true;
      }
      for i := 0 to |eventTypeFilter|
        invariant eventType !in eventTypeFilter[..i]
      {
        if eventTypeFilter[i] == eventType {
          return true;
        }
      }
      r := false;
    }

    /** The setters `play_and_collect`, `collect` and `detect` apply to the returned action. */
    method Configure()
      modifies this
      ensures View() == old(View()).Configured()
    {
      if kind.Collect? {
        eventTypeFilter := ["calling.call.collect"];
        resolveOnResult := true;
      } else if kind.Detect? {
        resolveOnDetect := true;
      }
      phase := Released;
    }

    method Return()
      modifies this`phase
      ensures View() == old(View()).(phase := Returned)
    {
      phase := Returned;
    }
  }
}
