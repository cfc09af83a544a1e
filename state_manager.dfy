/** film_scanner/control/state_manager.py: the application's state machine.
    A fixed table says which state may follow which; a transition updates
    the shared context, records the previous state and then calls the
    handlers registered for that transition and every subscriber. Handlers
    and subscribers are identified by number, and calling one is recorded in
    an append-only log of calls. */
module StateMachine {
  import opened Optional

  datatype AppState = Startup | LiveView | TakingPhoto | LoadingPreview | Preview | Downloading | Shutdown | Error

  /** The row of the transition table for s, in the order it is written. */
  function Targets(s: AppState): seq<AppState> {
    match s
    case Startup => [LiveView, Error, Shutdown]
    case LiveView => [TakingPhoto, Error, Shutdown]
    case TakingPhoto => [LoadingPreview, LiveView, Error]
    case LoadingPreview => [Preview, LiveView, Error]
    case Preview => [Downloading, LiveView, Error]
    case Downloading => [LiveView, Error]
    case Error => [LiveView, Shutdown]
    case Shutdown => []
  }

  /** No state follows itself, nothing leads back to startup, shutdown is
      terminal, and every state but shutdown can reach the error state or
      is it. */
  lemma {:induction false} TableShape()
    ensures forall s :: s !in Targets(s)
    ensures forall s :: Startup !in Targets(s)
    ensures Targets(Shutdown) == []
    ensures forall s :: s != Shutdown && s != Error ==> Error in Targets(s)
    ensures forall s :: s != Shutdown ==> LiveView in Targets(s) || s == LiveView
  {
  }

  /** The state after a `transition_to(t)` request from s. */
  function Next(s: AppState, t: AppState): AppState {
    if t in Targets(s) then t else s
  }

  /** The state after a series of `transition_to` requests. */
  function Final(s: AppState, requests: seq<AppState>): AppState
    decreases |requests|
  {
    if requests == [] then s else Final(Next(s, requests[0]), requests[1..])
  }

  /** Once shut down, no request leaves the shutdown state. */
  lemma {:induction false} ShutdownAbsorbs(requests: seq<AppState>)
    ensures Final(Shutdown, requests) == Shutdown
    decreases |requests|
  {
    if requests != [] {
      ShutdownAbsorbs(requests[1..]);
    }
  }

  /** The startup state is only ever the state the manager started in. */
  lemma {:induction false} StartupOnlyAtStart(s: AppState, requests: seq<AppState>)
    ensures Final(s, requests) == Startup ==> s == Startup
    decreases |requests|
  {
    if requests != [] {
      TableShape();
      StartupOnlyAtStart(Next(s, requests[0]), requests[1..]);
    }
  }

  /** A handler or a subscriber, by identity. */
  type Callback = nat

  /** `StateChangeEvent`: the states before and after, and a copy of the
      context after the update. */
  datatype Event<V> = StateChangeEvent(previous: AppState, next: AppState, context: map<string, V>)

  datatype Role = Handler | Subscriber

  /** One call of a handler or subscriber with an event. */
  datatype Call<V> = Call(role: Role, callback: Callback, event: Event<V>)

  /** Calling each of cbs in turn with e. */
  function CallsTo<V>(role: Role, cbs: seq<Callback>, e: Event<V>): (r: seq<Call<V>>)
    ensures |r| == |cbs|
    ensures forall i :: 0 <= i < |cbs| ==> r[i] == Call(role, cbs[i], e)
  {
    seq(|cbs|, i requires 0 <= i < |cbs| => Call(role, cbs[i], e))
  }

  predicate Distinct(s: seq<Callback>) {
    forall i, j :: 0 <= i < j < |s| ==> s[i] != s[j]
  }

  /** The position of the first occurrence of x. */
  function IndexOf(s: seq<Callback>, x: Callback): (i: nat)
    requires x in s
    ensures i < |s| && s[i] == x && x !in s[..i]
  {
    if s[0] == x then 0
    else
      var k := IndexOf(s[1..], x);
      assert s[..k + 1] == [s[0]] + s[1..][..k];
      k + 1
  }

  /** `list.remove`: drops the first occurrence of x. */
  function RemoveFirst(s: seq<Callback>, x: Callback): (r: seq<Callback>)
    requires x in s
    ensures |r| == |s| - 1
  {
    var i := IndexOf(s, x);
    s[..i] + s[i + 1..]
  }

  /** Removing a callback from a list without duplicates removes it entirely
      and keeps the list free of duplicates. */
  lemma {:induction false} RemoveFromDistinct(s: seq<Callback>, x: Callback)
    requires Distinct(s) && x in s
    ensures Distinct(RemoveFirst(s, x)) && x !in RemoveFirst(s, x)
    ensures forall y :: y in RemoveFirst(s, x) <==> y in s && y != x
  {
    var r := RemoveFirst(s, x);
    var i := IndexOf(s, x);
    assert r == s[..i] + s[i + 1..];
    forall a, b | 0 <= a < b < |r| ensures r[a] != r[b] {
      var a' := if a < i then a else a + 1;
      var b' := if b < i then b else b + 1;
      assert r[a] == s[a'] && r[b] == s[b'];
    }
    forall y ensures y in r <==> y in s && y != x {
      if y in r {
        var k :| 0 <= k < |r| && r[k] == y;
        var k' := if k < i then k else k + 1;
        assert s[k'] == y && k' != i;
      }
      if y in s && y != x {
        var k :| 0 <= k < |s| && s[k] == y;
        assert k != i;
        if k < i {
          assert r[k] == y;
        } else {
          assert r[k - 1] == y;
        }
      }
    }
  }

  class StateManager<V> {
    var currentState: AppState
    var previousState: Option<AppState>
    /** The shared context. Maps are values here, so the `context` property's
        copy is the field itself. */
    var context: map<string, V>
    var subscribers: seq<Callback>
    /** The handlers per (from, to) transition, in registration order. */
    var handlers: map<(AppState, AppState), seq<Callback>>
    /** Every handler and subscriber call made so far, in order. */
    var calls: seq<Call<V>>

    /** No subscriber is registered twice, the current state was reached by
        an allowed transition from the previous one, and every event ever
        delivered describes an allowed transition. */
    ghost predicate Valid()
      reads this`subscribers, this`previousState, this`currentState, this`calls
    {
      && Distinct(subscribers)
      && (previousState.Some? ==> currentState in Targets(previousState.value))
      && forall i :: 0 <= i < |calls| ==> calls[i].event.next in Targets(calls[i].event.previous)
    }

    constructor (initial: AppState)
      ensures Valid()
      ensures currentState == initial && previousState == None && context == map[]
      ensures subscribers == [] && handlers == map[] && calls == []
    {
      currentState := initial;
      previousState := None;
      context := map[];
      subscribers := [];
      handlers := map[];
      calls := [];
    }

    /** Whether the table allows going from the current state to s. */
    function CanTransitionTo(s: AppState): (r: bool)
      reads this`currentState
      ensures r <==> s in Targets(currentState)
      ensures r ==> s != currentState
    {
      TableShape();
      s in Targets(currentState)
    }

    /** The handlers registered for the transition, or none. */
    function HandlersFor(from: AppState, to: AppState): seq<Callback>
      reads this`handlers
    {
      if (from, to) in handlers then handlers[(from, to)] else []
    }

    /** An allowed transition merges the updates into the context, moves
        the current state to the previous one, and calls the transition's
        handlers in registration order and then every subscriber, each with
        the same event. A refused one changes nothing and calls nobody. */
    method TransitionTo(newState: AppState, updates: map<string, V>) returns (ok: bool)
      requires Valid()
      modifies this`context, this`previousState, this`currentState, this`calls
      ensures Valid()
      ensures ok == old(CanTransitionTo(newState))
      ensures currentState == Next(old(currentState), newState)
      ensures ok ==>
        && previousState == Some(old(currentState))
        && context == old(context) + updates
        && var e := StateChangeEvent(old(currentState), newState, context);
           calls == old(calls) + CallsTo(Handler, HandlersFor(old(currentState), newState), e)
                                + CallsTo(Subscriber, subscribers, e)
      ensures !ok ==> previousState == old(previousState) && context == old(context) && calls == old(calls)
    {
      if !CanTransitionTo(newState) {
        return false;
      }
      context := context + updates;
      previousState := Some(currentState);
      currentState := newState;
      var event := StateChangeEvent(previousState.value, currentState, context);
      Invoke(Handler, HandlersFor(previousState.value, currentState), event);
      Invoke(Subscriber, subscribers, event);
      ok := true;
    }

    /** Calls each callback in turn with an event of an allowed transition. */
    method Invoke(role: Role, cbs: seq<Callback>, event: Event<V>)
      requires event.next in Targets(event.previous)
      requires forall i :: 0 <= i < |calls| ==> calls[i].event.next in Targets(calls[i].event.previous)
      modifies this`calls
      ensures calls == old(calls) + CallsTo(role, cbs, event)
      ensures forall i :: 0 <= i < |calls| ==> calls[i].event.next in Targets(calls[i].event.previous)
    {
      var i := 0;
      while i < |cbs|
        invariant 0 <= i <= |cbs|
        invariant calls == old(calls) + CallsTo(role, cbs[..i], event)
        invariant forall k :: 0 <= k < |calls| ==> calls[k].event.next in Targets(calls[k].event.previous)
      {
        assert CallsTo(role, cbs[..i + 1], event) == CallsTo(role, cbs[..i], event) + [Call(role, cbs[i], event)];
        calls := calls + [Call(role, cbs[i], event)];
        i := i + 1;
      }
      assert cbs[..i] == cbs;
    }

    /** Appends a handler to those of the (from, to) transition. */
    method AddTransitionHandler(from: AppState, to: AppState, handler: Callback)
      modifies this`handlers
      ensures handlers == old(handlers)[(from, to) := old(HandlersFor(from, to)) + [handler]]
    {
      handlers := handlers[(from, to) := HandlersFor(from, to) + [handler]];
    }

    /** Adds a subscriber unless it is already there. */
    method Subscribe(callback: Callback)
      requires Valid()
      modifies this`subscribers
      ensures Valid()
      ensures subscribers == if callback in old(subscribers) then old(subscribers) else old(subscribers) + [callback]
    {
      if callback !in subscribers {
        forall i, j | 0 <= i < j < |subscribers + [callback]| ensures (subscribers + [callback])[i] != (subscribers + [callback])[j] {
          if j == |subscribers| {
            assert subscribers[i] in subscribers;
          }
        }
        subscribers := subscribers + [callback];
      }
    }

    /** Removes a subscriber if it is there; since there are no duplicates,
        it is then gone altogether and the others keep their order. */
    method Unsubscribe(callback: Callback)
      requires Valid()
      modifies this`subscribers
      ensures Valid()
      ensures callback !in subscribers
      ensures forall c :: c in subscribers <==> c in old(subscribers) && c != callback
      ensures subscribers == if callback in old(subscribers) then RemoveFirst(old(subscribers), callback) else old(subscribers)
    {
      if callback in subscribers {
        RemoveFromDistinct(subscribers, callback);
        subscribers := RemoveFirst(subscribers, callback);
      }
    }

    method SetContextValue(key: string, value: V)
      modifies this`context
      ensures context == old(context)[key := value]
      ensures forall d :: GetContextValue(key, d) == value
    {
      context := context[key := value];
    }

    /** `context.get(key, default)`. */
    function GetContextValue(key: string, default: V): (r: V)
      reads this`context
      ensures key in context ==> r == context[key]
      ensures key !in context ==> r == default
    {
      if key in context then context[key] else default
    }
  }
}
