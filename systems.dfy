/**
 * Systems: the units of per-frame logic a World schedules (lib/game/ecs/System.ts
 * with the execution groups of lib/game/ecs/types.ts).
 */
module Systems {

  /** The four execution groups; there is no other. */
  datatype Group = Input | Logic | Physics | Render

  /** Position of a group in the fixed order input, logic, physics, render. */
  function Rank(g: Group): (r: nat)
    ensures r < 4
    ensures g == Input <==> r == 0
    ensures g == Logic <==> r == 1
    ensures g == Physics <==> r == 2
    ensures g == Render <==> r == 3
  {
    match g
    case Input => 0
    case Logic => 1
    case Physics => 2
    case Render => 3
  }

  /**
   * A system. Its group, priority and required components are what its getters
   * return, fixed for its lifetime; `hasInitialize` and `hasCleanup` say whether the
   * optional hooks are defined; `enabled` is switched by callers.
   */
  class System {
    var enabled: bool
    const group: Group
    const priority: int
    const requiredComponents: seq<string>
    const hasInitialize: bool
    const hasCleanup: bool

    /** A new system starts enabled. */
    constructor (group: Group, priority: int, requiredComponents: seq<string>,
                 hasInitialize: bool, hasCleanup: bool)
      ensures enabled
      ensures this.group == group && this.priority == priority
      ensures this.requiredComponents == requiredComponents
      ensures this.hasInitialize == hasInitialize && this.hasCleanup == hasCleanup
    {
      enabled := true;
      this.group := group;
      this.priority := priority;
      this.requiredComponents := requiredComponents;
      this.hasInitialize := hasInitialize;
      this.hasCleanup := hasCleanup;
    }
  }
}
