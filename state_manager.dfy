/**
 * The state machine driver of lib/game/state/StateManager.ts, instantiated with the
 * three game states: a registry of states by name, a nullable current state, a bound
 * context, and the guarded transitions announced on the event bus.
 *
 * A registered state is one of the three concrete states; the registry key need not be
 * that state's own name, and, as in the source, the current state's reported name is
 * the state's own name while guards and events use the key.
 */
module States {
  import opened Common
  import opened Events
  import opened GameStates

  /** The hard-coded state every toggle returns to. */
  const Home: string := "Playing"

  /**
   * transitionTo's decision: the new current state, or None when the name is not
   * registered or the current state does not allow it.
   */
  function Transition(states: map<string, GameState>, current: Option<GameState>, name: string): (r: Option<GameState>)
    ensures r.Some? <==> name in states && (current.None? || CanTransitionTo(current.value, name))
    ensures r.Some? ==> r.value == states[name]
  {
    if name !in states then None
    else if current.Some? && !CanTransitionTo(current.value, name) then None
    else Some(states[name])
  }

  /** toggleState's choice of destination from the current state's name. */
  function ToggleTarget(currentName: Option<string>, target: string): (r: string)
    ensures currentName == Some(target) ==> r == Home
    ensures currentName != Some(target) && currentName == Some(Home) ==> r == target
    ensures currentName != Some(target) && currentName != Some(Home) ==> r == Home
    ensures r == Home || r == target
  {
    if currentName == Some(target) then Home
    else if currentName == Some(Home) then target
    else Home
  }

  /** The name the source reports for an optional current state. */
  function NameOf(current: Option<GameState>): Option<string> {
    if current.Some? then Some(StateName(current.value)) else None
  }

  /** The registry of the game: each state under its own name. */
  function StandardStates(): map<string, GameState> {
    map[StateName(Playing) := Playing, StateName(Paused) := Paused, StateName(Inventory) := Inventory]
  }

  /** Every key is its state's own name. */
  predicate NamedByKey(states: map<string, GameState>) {
    forall n :: n in states ==> StateName(states[n]) == n
  }

  /** With a registry keyed by states' own names, a successful transition always changes the state. */
  lemma {:induction false} TransitionChangesState(states: map<string, GameState>, s: GameState, name: string)
    requires NamedByKey(states)
    requires Transition(states, Some(s), name).Some?
    ensures Transition(states, Some(s), name).value != s
  {
    AllowedNamesAreStates(s, name);
    assert StateNamed(name).value == states[name] by {
      StateNameRoundTrip(states[name]);
    }
  }

  /**
   * In the game's registry, a key toggle from any state succeeds: from Playing it goes to
   * the requested state, from any other state back to Playing. So Paused plus the
   * inventory key returns to Playing.
   */
  lemma {:induction false} ToggleFromAnyState(s: GameState, target: GameState)
    requires target != Playing
    ensures var t := Transition(StandardStates(), Some(s), ToggleTarget(Some(StateName(s)), StateName(target)));
      t == Some(if s == Playing then target else Playing)
  {
    StateNameInjective(s, target);
    StateNameInjective(s, Playing);
    StateNameInjective(target, Playing);
    var name := ToggleTarget(Some(StateName(s)), StateName(target));
    if s == Playing {
      assert name == StateName(target);
      Successors(s, target);
    } else {
      assert name == StateName(Playing);
      Successors(s, Playing);
    }
  }

  /** Two presses of the same toggle key from Playing come back to Playing. */
  lemma {:induction false} ToggleTwiceReturns(target: GameState)
    requires target != Playing
    ensures var first := Transition(StandardStates(), Some(Playing), ToggleTarget(Some(StateName(Playing)), StateName(target)));
      first == Some(target)
      && Transition(StandardStates(), first, ToggleTarget(NameOf(first), StateName(target))) == Some(Playing)
  {
    ToggleFromAnyState(Playing, target);
    ToggleFromAnyState(target, target);
  }

  class StateManager {
    var current: Option<GameState>
    var states: map<string, GameState>
    /** The registered names in registration order (the Map's key order). */
    var names: seq<string>
    var context: GameContext?
    const bus: EventBus

    ghost predicate Valid()
      reads this, bus
    {
      (forall n :: n in states <==> n in names)
      && (forall i, j :: 0 <= i < j < |names| ==> names[i] != names[j])
      && bus.Valid()
    }

    /**
     * A manager with nothing registered and no current state, whose request handler is
     * subscribed to `state:transition_request` on the bus.
     */
    constructor (bus: EventBus, now: int)
      requires bus.Valid()
      modifies bus
      ensures Valid()
      ensures current == None && states == map[] && names == [] && context == null
      ensures this.bus == bus
      ensures bus.counter == old(bus.counter) + 1
      ensures bus.types == if TransitionRequestType in old(bus.buckets) then old(bus.types)
                           else old(bus.types) + [TransitionRequestType]
      ensures bus.buckets == old(bus.buckets)[TransitionRequestType :=
                old(bus.GetBucket(TransitionRequestType))
                + [Subscription(SubscriptionId(bus.counter), TransitionRequestType, Returns, now)]]
      ensures bus.history == old(bus.history)
    {
      current, states, names, context := None, map[], [], null;
      this.bus := bus;
      new;
      var ignored := bus.Subscribe(TransitionRequestType, Returns, now);
    }

    /** registerState: sets the name's state, keeping the name's first registration position. */
    method RegisterState(name: string, s: GameState)
      requires Valid()
      modifies this
      ensures Valid()
      ensures states == old(states)[name := s]
      ensures names == if name in old(states) then old(names) else old(names) + [name]
      ensures current == old(current) && context == old(context)
    {
      if name !in states {
        names := names + [name];
      }
      states := states[name := s];
    }

    /** getCurrentStateName: the current state's own name, None when there is none. */
    function GetCurrentStateName(): (r: Option<string>)
      reads this
      ensures r.Some? <==> current.Some?
      ensures r.Some? ==> StateNamed(r.value) == current
    {
      if current.Some? then StateNameRoundTrip(current.value); NameOf(current) else NameOf(current)
    }

    /** getRegisteredStateNames: each registered name once, in registration order. */
    function GetRegisteredStateNames(): (r: seq<string>)
      requires Valid()
      reads this, bus
      ensures forall n :: n in r <==> IsStateRegistered(n)
      ensures forall i, j :: 0 <= i < j < |r| ==> r[i] != r[j]
    {
      names
    }

    predicate IsStateRegistered(name: string)
      reads this
    {
      name in states
    }

    /**
     * isStateRegistered holds exactly for the names getRegisteredStateNames lists, which
     * are exactly the names a manager with no current state can transition to.
     */
    lemma IsStateRegisteredSpec(name: string)
      requires Valid()
      ensures IsStateRegistered(name) <==> name in names
      ensures IsStateRegistered(name) <==> Transition(states, None, name).Some?
    {
    }

    /**
     * initialize: an unregistered name fails with `State "<name>" is not registered` and
     * changes nothing. Otherwise the context is bound, the state becomes current and is
     * entered without any guard, and `state:changed` from "none" is emitted.
     */
    method Initialize(name: string, ctx: GameContext, now: int) returns (r: Outcome)
      requires Valid()
      modifies this, bus, ctx
      ensures Valid()
      ensures states == old(states) && names == old(names)
      ensures r.Fail? <==> name !in old(states)
      ensures r.Fail? ==> r.message == "State \"" + name + "\" is not registered"
      ensures r.Fail? ==> current == old(current) && context == old(context)
                          && bus.history == old(bus.history) && ctx.Snapshot() == old(ctx.Snapshot())
      ensures r.Pass? ==> current == Some(states[name]) && context == ctx && ctx.Snapshot() == Entered(states[name])
      ensures r.Pass? ==> bus.history == old(bus.HistoryAfter(bus.history,
                Event(StateChangedType, StateChanged("none", name, "initialization"), now), now))
      ensures bus.types == old(bus.types) && bus.buckets == old(bus.buckets) && bus.counter == old(bus.counter)
    {
      if name !in states {
        return Fail("State \"" + name + "\" is not registered");
      }
      context := ctx;
      current := Some(states[name]);
      ctx.Enter(states[name]);
      var ignored := bus.EmitEvent(StateChangedType, StateChanged("none", name, "initialization"), now);
      r := Pass;
    }

    /**
     * transitionTo: refused (false, nothing changes) for an unregistered name or one the
     * current state does not allow. Otherwise the old state is exited and the new one
     * entered, each only when a context is given, the new state becomes current, and
     * `state:changed` from the old state's name (or "none") is emitted.
     */
    method TransitionTo(name: string, ctx: GameContext?, now: int) returns (ok: bool)
      requires Valid()
      modifies this, bus, ctx
      ensures Valid()
      ensures states == old(states) && names == old(names)
      ensures ok <==> Transition(old(states), old(current), name).Some?
      ensures !ok ==> current == old(current) && bus.history == old(bus.history)
      ensures !ok && ctx != null ==> ctx.Snapshot() == old(ctx.Snapshot())
      ensures ok ==> current == Transition(old(states), old(current), name)
      ensures ok && ctx != null ==> ctx.Snapshot() == Entered(states[name])
      ensures ok ==> bus.history == old(bus.HistoryAfter(bus.history,
                Event(StateChangedType, StateChanged(NameOf(current).GetOr("none"), name, "transition"), now), now))
      ensures context == old(context)
      ensures bus.types == old(bus.types) && bus.buckets == old(bus.buckets) && bus.counter == old(bus.counter)
    {
      if name !in states {
        return false;
      }
      if current.Some? && !CanTransitionTo(current.value, name) {
        return false;
      }
      var previousName := NameOf(current).GetOr("none");
      if current.Some? && ctx != null {
        ctx.Exit(current.value);
      }
      current := Some(states[name]);
      if ctx != null {
        ctx.Enter(current.value);
      }
      var ignored := bus.EmitEvent(StateChangedType, StateChanged(previousName, name, "transition"), now);
      ok := true;
    }

    /**
     * toggleState: back to Playing when the current state's name is the target or
     * anything but Playing; from Playing to the target.
     */
    method ToggleState(target: string, ctx: GameContext?, now: int) returns (ok: bool)
      requires Valid()
      modifies this, bus, ctx
      ensures Valid()
      ensures states == old(states) && names == old(names) && context == old(context)
      ensures var dest := ToggleTarget(NameOf(old(current)), target);
        && (ok <==> Transition(old(states), old(current), dest).Some?)
        && (ok ==> current == Transition(old(states), old(current), dest))
        && (!ok ==> current == old(current) && bus.history == old(bus.history))
        && (!ok && ctx != null ==> ctx.Snapshot() == old(ctx.Snapshot()))
        && (ok && ctx != null ==> ctx.Snapshot() == Entered(states[dest]))
        && (ok ==> bus.history == old(bus.HistoryAfter(bus.history,
              Event(StateChangedType, StateChanged(NameOf(current).GetOr("none"), dest, "transition"), now), now)))
      ensures bus.types == old(bus.types) && bus.buckets == old(bus.buckets) && bus.counter == old(bus.counter)
    {
      ok := TransitionTo(ToggleTarget(NameOf(current), target), ctx, now);
    }

    /**
     * The handler subscribed to `state:transition_request`: requests tagged `escape_key`
     * or `inventory_key` toggle, any other request is a plain transition; both use the
     * bound context.
     */
    method OnTransitionRequest(targetState: string, tag: string, now: int) returns (ok: bool)
      requires Valid()
      modifies this, bus, context
      ensures Valid()
      ensures states == old(states) && names == old(names) && context == old(context)
      ensures var dest := if tag == "escape_key" || tag == "inventory_key"
                          then ToggleTarget(NameOf(old(current)), targetState) else targetState;
        && (ok <==> Transition(old(states), old(current), dest).Some?)
        && (ok ==> current == Transition(old(states), old(current), dest))
        && (!ok ==> current == old(current) && bus.history == old(bus.history))
        && (!ok && context != null ==> context.Snapshot() == old(context.Snapshot()))
        && (ok && context != null ==> context.Snapshot() == Entered(states[dest]))
        && (ok ==> bus.history == old(bus.HistoryAfter(bus.history,
              Event(StateChangedType, StateChanged(NameOf(current).GetOr("none"), dest, "transition"), now), now)))
      ensures bus.types == old(bus.types) && bus.buckets == old(bus.buckets) && bus.counter == old(bus.counter)
    {
      if tag == "escape_key" || tag == "inventory_key" {
        ok := ToggleState(targetState, context, now);
      } else {
        ok := TransitionTo(targetState, context, now);
      }
    }

    /** clear: no current state, no context, nothing registered. */
    method Clear()
      requires Valid()
      modifies this
      ensures Valid()
      ensures current == None && context == null && states == map[] && names == []
    {
      current, context, states, names := None, null, map[], [];
    }
  }
}
