/**
 * The keyboard logic of lib/game/ecs/systems/InputSystem.ts: the pressed-key table,
 * the events a key press puts on the bus, the keys whose browser default is
 * suppressed, and the initialized flag. Keyboard events are plain records here.
 */
module Input {
  import opened Common
  import opened Events
  import opened Systems

  /** The fields of a browser KeyboardEvent that the system reads. */
  datatype KeyboardEvent = KeyboardEvent(key: string, code: string, repeat: bool,
                                         ctrlKey: bool, shiftKey: bool, altKey: bool)

  /** _handleStateTransition: Escape asks for Paused, `i`/`I` for Inventory, other keys for nothing. */
  function TransitionRequestFor(key: string): (r: Option<Payload>)
    ensures r.Some? <==> key == "Escape" || key == "i" || key == "I"
    ensures key == "Escape" ==> r == Some(TransitionRequest("Paused", "escape_key"))
    ensures key == "i" || key == "I" ==> r == Some(TransitionRequest("Inventory", "inventory_key"))
  {
    match key
    case "Escape" => Some(TransitionRequest("Paused", "escape_key"))
    case "i" => Some(TransitionRequest("Inventory", "inventory_key"))
    case "I" => Some(TransitionRequest("Inventory", "inventory_key"))
    case _ => None
  }

  /** The game keys whose browser default action is suppressed. */
  const GameKeys: seq<string> := ["Escape", "i", "I", "w", "a", "s", "d", "W", "A", "S", "D"]

  /** _shouldPreventDefault: `GameKeys.includes(key)`, by a scan of the list. */
  method ShouldPreventDefault(key: string) returns (r: bool)
    ensures r <==> key in GameKeys
  {
    r := false;
    var i := 0;
    while i < |GameKeys|
      invariant 0 <= i <= |GameKeys|
      invariant r <==> key in GameKeys[..i]
    {
      assert GameKeys[..i + 1] == GameKeys[..i] + [GameKeys[i]];
      r := r || GameKeys[i] == key;
      i := i + 1;
    }
    assert GameKeys[..i] == GameKeys;
  }

  /** Every key that can request a transition also has its default suppressed. */
  lemma RequestKeysArePrevented(key: string)
    requires TransitionRequestFor(key).Some?
    ensures key in GameKeys
  {
    assert GameKeys[0] == "Escape" && GameKeys[1] == "i" && GameKeys[2] == "I";
  }

  /**
   * The events one keydown emits, in order: `input:key_pressed` with the key's fields,
   * then the transition request the key maps to, if any.
   */
  function KeyDownEvents(e: KeyboardEvent, now: int): (r: seq<Event>)
    ensures 1 <= |r| <= 2
    ensures r[0] == Event(KeyPressedType, KeyPressed(e.key, e.code, e.repeat, e.ctrlKey, e.shiftKey, e.altKey), now)
    ensures |r| == 2 <==> TransitionRequestFor(e.key).Some?
    ensures |r| == 2 ==> r[1] == Event(TransitionRequestType, TransitionRequestFor(e.key).value, now)
  {
    var pressed := Event(KeyPressedType, KeyPressed(e.key, e.code, e.repeat, e.ctrlKey, e.shiftKey, e.altKey), now);
    match TransitionRequestFor(e.key)
    case None => [pressed]
    case Some(p) => [pressed, Event(TransitionRequestType, p, now)]
  }

  /** The codes of `order` that `keyStates` marks pressed, in `order`'s order. */
  function Pressed(order: seq<string>, keyStates: map<string, bool>): seq<string>
    decreases |order|
  {
    if order == [] then []
    else Pressed(order[..|order| - 1], keyStates)
         + (var k := order[|order| - 1]; if k in keyStates && keyStates[k] then [k] else [])
  }

  lemma {:induction false} PressedMembers(order: seq<string>, keyStates: map<string, bool>)
    ensures forall k :: k in Pressed(order, keyStates) <==> k in order && k in keyStates && keyStates[k]
    decreases |order|
  {
    if order != [] {
      var init := order[..|order| - 1];
      PressedMembers(init, keyStates);
      assert order == init + [order[|order| - 1]];
    }
  }

  class InputSystem {
    /** The system as the world schedules it: input group, priority 0, no required components. */
    const system: System
    /** The key table: code to pressed, for every code seen since the last cleanup. */
    var keyStates: map<string, bool>
    /** The key table's codes in insertion order. */
    var keyOrder: seq<string>
    var initialized: bool
    const bus: EventBus

    ghost predicate Valid()
      reads this, bus
    {
      (forall k :: k in keyStates <==> k in keyOrder)
      && (forall i, j :: 0 <= i < j < |keyOrder| ==> keyOrder[i] != keyOrder[j])
      && bus.Valid()
    }

    /** A fresh, uninitialized input system with no keys seen; it starts enabled. */
    constructor (bus: EventBus)
      requires bus.Valid()
      ensures Valid()
      ensures fresh(system) && system.enabled
      ensures system.group == Input && system.priority == 0 && system.requiredComponents == []
      ensures system.hasInitialize && system.hasCleanup
      ensures keyStates == map[] && keyOrder == [] && !initialized && this.bus == bus
    {
      system := new System(Input, 0, [], true, true);
      keyStates, keyOrder, initialized := map[], [], false;
      this.bus := bus;
    }

    /** Sets a code's entry, appending the code to the order when it is new. */
    method SetKey(code: string, pressed: bool)
      requires Valid()
      modifies this
      ensures Valid()
      ensures keyStates == old(keyStates)[code := pressed]
      ensures keyOrder == if code in old(keyStates) then old(keyOrder) else old(keyOrder) + [code]
      ensures initialized == old(initialized)
    {
      if code !in keyStates {
        keyOrder := keyOrder + [code];
      }
      keyStates := keyStates[code := pressed];
    }

    /**
     * _handleKeyDown: a non-repeat press marks the code pressed (a repeat leaves the table
     * alone); the key's events go to the bus in order; and the result says whether the
     * browser default is to be suppressed.
     */
    method HandleKeyDown(e: KeyboardEvent, now: int) returns (emitted: seq<Event>, preventDefault: bool)
      requires Valid()
      modifies this, bus
      ensures Valid()
      ensures !e.repeat ==> keyStates == old(keyStates)[e.code := true]
      ensures !e.repeat ==> keyOrder == if e.code in old(keyStates) then old(keyOrder) else old(keyOrder) + [e.code]
      ensures e.repeat ==> keyStates == old(keyStates) && keyOrder == old(keyOrder)
      ensures bus.types == old(bus.types) && bus.buckets == old(bus.buckets) && bus.counter == old(bus.counter)
      ensures emitted == KeyDownEvents(e, now)
      ensures bus.history == bus.HistoryAfterAll(old(bus.history), emitted, now)
      ensures preventDefault <==> e.key in GameKeys
      ensures initialized == old(initialized)
    {
      if !e.repeat {
        SetKey(e.code, true);
      }
      emitted := KeyDownEvents(e, now);
      ghost var h0 := bus.history;
      var ignored := bus.EmitEvent(KeyPressedType, KeyPressed(e.key, e.code, e.repeat, e.ctrlKey, e.shiftKey, e.altKey), now);
      ghost var h1 := bus.history;
      assert h1 == bus.HistoryAfter(h0, emitted[0], now);
      var request := TransitionRequestFor(e.key);
      if request.Some? {
        ignored := bus.EmitEvent(TransitionRequestType, request.value, now);
        assert emitted[1..][1..] == [];
        assert bus.history == bus.HistoryAfterAll(h1, emitted[1..], now);
      } else {
        assert emitted[1..] == [];
      }
      preventDefault := ShouldPreventDefault(e.key);
    }

    /** _handleKeyUp: marks the code released. */
    method HandleKeyUp(e: KeyboardEvent)
      requires Valid()
      modifies this
      ensures Valid()
      ensures keyStates == old(keyStates)[e.code := false]
      ensures keyOrder == if e.code in old(keyStates) then old(keyOrder) else old(keyOrder) + [e.code]
      ensures initialized == old(initialized)
    {
      SetKey(e.code, false);
    }

    /** isKeyPressed: false for a code never seen. */
    function IsKeyPressed(code: string): (r: bool)
      reads this
      ensures r <==> code in keyStates && keyStates[code]
    {
      if code in keyStates then keyStates[code] else false
    }

    /** getPressedKeys: exactly the codes marked pressed, in table order. */
    method GetPressedKeys() returns (r: seq<string>)
      requires Valid()
      ensures r == Pressed(keyOrder, keyStates)
      ensures forall k :: k in r <==> IsKeyPressed(k)
    {
      r := [];
      var i := 0;
      while i < |keyOrder|
        invariant 0 <= i <= |keyOrder|
        invariant r == Pressed(keyOrder[..i], keyStates)
      {
        var k := keyOrder[i];
        if keyStates[k] {
          r := r + [k];
        }
        assert keyOrder[..i + 1][..i] == keyOrder[..i];
        i := i + 1;
      }
      assert keyOrder[..i] == keyOrder;
      PressedMembers(keyOrder, keyStates);
    }

    /** initialize: sets the flag; a second call while initialized does nothing. */
    method Initialize()
      requires Valid()
      modifies this
      ensures Valid()
      ensures initialized
      ensures keyStates == old(keyStates) && keyOrder == old(keyOrder)
    {
      if initialized {
        return;
      }
      initialized := true;
    }

    /** cleanup: forgets every key and clears the flag. */
    method Cleanup()
      requires Valid()
      modifies this
      ensures Valid()
      ensures keyStates == map[] && keyOrder == [] && !initialized
    {
      keyStates, keyOrder := map[], [];
      initialized := false;
    }
  }
}
