/**
 * The parts of lib/game/Game.ts that are not rendering or frame scheduling: the
 * initialized flag that guards `start`, the debug state snapshot, and the debug
 * action dispatcher.
 */
module GameCore {
  import opened Common

  /** The result of a debug action: `{pong: true, timestamp}` or `{error}`. */
  datatype DebugActionResult = Pong(timestamp: int) | Error(error: string)

  /** The debug state snapshot's non-placeholder fields. */
  datatype DebugState = DebugState(initialized: bool, timestamp: int)

  const UnknownActionPrefix: string := "Unknown action: "

  /** _executeDebugAction: `ping` answers with the time; any other name is an error naming it. */
  function ExecuteDebugAction(action: string, now: int): (r: DebugActionResult)
    ensures r.Pong? <==> action == "ping"
    ensures r.Pong? ==> r.timestamp == now
    ensures r.Error? ==> r.error == UnknownActionPrefix + action
  {
    if action == "ping" then Pong(now) else Error(UnknownActionPrefix + action)
  }

  /** The error message gives back the exact action name that was not recognised. */
  lemma UnknownActionRecoverable(action: string, now: int)
    requires action != "ping"
    ensures ExecuteDebugAction(action, now).Error?
    ensures ExecuteDebugAction(action, now).error[|UnknownActionPrefix|..] == action
  {
    var r := ExecuteDebugAction(action, now);
    assert r.error[|UnknownActionPrefix|..] == action;
  }

  /** So distinct unknown actions get distinct errors. */
  lemma UnknownActionsDistinct(a: string, b: string, now: int)
    requires a != "ping" && b != "ping"
    ensures ExecuteDebugAction(a, now) == ExecuteDebugAction(b, now) <==> a == b
  {
    UnknownActionRecoverable(a, now);
    UnknownActionRecoverable(b, now);
  }

  class Game {
    var initialized: bool

    constructor ()
      ensures !initialized
    {
      initialized := false;
    }

    /** initialize: sets the flag; a repeated call returns early and the flag stays set. */
    method Initialize()
      modifies this
      ensures initialized
    {
      if initialized {
        return;
      }
      initialized := true;
    }

    /** start: fails unless the game has been initialized; the frame loop itself is not modelled. */
    method Start() returns (r: Outcome)
      ensures r.Fail? <==> !initialized
      ensures r.Fail? ==> r.message == "Game must be initialized before starting"
    {
      if !initialized {
        return Fail("Game must be initialized before starting");
      }
      r := Pass;
    }

    /** _getGameState: reports the initialized flag and the time. */
    function GetState(now: int): (s: DebugState)
      reads this
      ensures s.initialized == initialized && s.timestamp == now
    {
      DebugState(initialized, now)
    }
  }
}
