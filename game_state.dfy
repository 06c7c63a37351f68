/**
 * The three concrete game states of lib/game/state/GameState.ts (Playing, Paused,
 * Inventory), their allowed successors, and their enter/exit effects on the shared
 * game context of three flags.
 */
module GameStates {
  import opened Common

  datatype GameState = Playing | Paused | Inventory

  /** getStateName: each state's fixed name. */
  function StateName(s: GameState): string {
    match s
    case Playing => "Playing"
    case Paused => "Paused"
    case Inventory => "Inventory"
  }

  /** The state whose name is `name`, if any. */
  function StateNamed(name: string): (r: Option<GameState>)
    ensures r.Some? ==> StateName(r.value) == name
  {
    if name == "Playing" then Some(Playing)
    else if name == "Paused" then Some(Paused)
    else if name == "Inventory" then Some(Inventory)
    else None
  }

  /** Names identify states: looking a state's name up gives the state back. */
  lemma StateNameRoundTrip(s: GameState)
    ensures StateNamed(StateName(s)) == Some(s)
  {
    match s
    case Playing =>
    case Paused =>
      assert StateName(s) != "Playing";
    case Inventory =>
      assert StateName(s) != "Playing" && StateName(s) != "Paused";
  }

  lemma StateNameInjective(s: GameState, t: GameState)
    ensures StateName(s) == StateName(t) <==> s == t
  {
    StateNameRoundTrip(s);
    StateNameRoundTrip(t);
  }

  /** canTransitionTo: the names a state allows as its successor. */
  predicate CanTransitionTo(s: GameState, newState: string) {
    match s
    case Playing => newState == "Paused" || newState == "Inventory"
    case Paused => newState == "Playing" || newState == "Inventory"
    case Inventory => newState == "Playing"
  }

  /**
   * The successor sets over the closed machine: exactly the other states, except that
   * Inventory can only return to Playing. In particular no state allows itself, and
   * every allowed name names a state.
   */
  lemma Successors(s: GameState, t: GameState)
    ensures CanTransitionTo(s, StateName(t)) <==> s != t && (s == Inventory ==> t == Playing)
  {
  }

  lemma {:induction false} AllowedNamesAreStates(s: GameState, name: string)
    requires CanTransitionTo(s, name)
    ensures StateNamed(name).Some? && StateNamed(name).value != s
  {
    var t := StateNamed(name).value;
    Successors(s, t);
  }

  /** The context's three flags as a value. */
  datatype Flags = Flags(isPaused: bool, isInventoryOpen: bool, isInputEnabled: bool)

  /** createInitialGameContext: not paused, inventory closed, input enabled. */
  function InitialFlags(): Flags {
    Flags(false, false, true)
  }

  /** The flags `enter` writes; every state's `enter` sets all three. */
  function Entered(s: GameState): Flags {
    match s
    case Playing => Flags(false, false, true)
    case Paused => Flags(true, false, false)
    case Inventory => Flags(true, true, false)
  }

  /** The flags after `exit`: only Inventory's exit changes anything (it closes the inventory). */
  function Exited(s: GameState, f: Flags): Flags {
    if s == Inventory then f.(isInventoryOpen := false) else f
  }

  /** The initial context is the one entering Playing produces. */
  lemma InitialIsPlaying()
    ensures InitialFlags() == Entered(Playing)
  {
  }

  /**
   * The flags a state's entry leaves tell the states apart, and they are always
   * coherent: input is enabled exactly when the game is not paused, and an open
   * inventory pauses the game.
   */
  lemma EnteredSpec(s: GameState, t: GameState)
    ensures Entered(s) == Entered(t) <==> s == t
    ensures Coherent(Entered(s))
    ensures Entered(s).isInputEnabled <==> s == Playing
    ensures Entered(s).isInventoryOpen <==> s == Inventory
  {
  }

  predicate Coherent(f: Flags) {
    (f.isInputEnabled <==> !f.isPaused) && (f.isInventoryOpen ==> f.isPaused)
  }

  /** Exiting never opens the inventory nor touches pause or input, so it keeps the flags coherent. */
  lemma ExitedSpec(s: GameState, f: Flags)
    ensures Exited(s, f).isPaused == f.isPaused && Exited(s, f).isInputEnabled == f.isInputEnabled
    ensures Exited(s, f).isInventoryOpen ==> f.isInventoryOpen
    ensures s != Inventory ==> Exited(s, f) == f
    ensures s == Inventory ==> !Exited(s, f).isInventoryOpen
    ensures Coherent(f) ==> Coherent(Exited(s, f))
  {
  }

  /** The mutable game context the states' `enter` and `exit` write to. */
  class GameContext {
    var isPaused: bool
    var isInventoryOpen: bool
    var isInputEnabled: bool

    /** createInitialGameContext. */
    constructor Initial()
      ensures Snapshot() == InitialFlags()
    {
      isPaused, isInventoryOpen, isInputEnabled := false, false, true;
    }

    function Snapshot(): Flags
      reads this
    {
      Flags(isPaused, isInventoryOpen, isInputEnabled)
    }

    /** The state's `enter`. */
    method Enter(s: GameState)
      modifies this
      ensures Snapshot() == Entered(s)
    {
      match s
      case Playing =>
        isPaused, isInventoryOpen, isInputEnabled := false, false, true;
      case Paused =>
        isPaused, isInventoryOpen, isInputEnabled := true, false, false;
      case Inventory =>
        isPaused, isInventoryOpen, isInputEnabled := true, true, false;
    }

    /** The state's `exit`. */
    method Exit(s: GameState)
      modifies this
      ensures Snapshot() == Exited(s, old(Snapshot()))
    {
      if s == Inventory {
        isInventoryOpen := false;
      }
    }
  }
}
