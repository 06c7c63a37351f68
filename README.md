# A verified model of the FactorioClone game runtime core

This project models the runtime core of a small entity/component/system (ECS) game
engine written in TypeScript, and proves properties of the model in Dafny. The core has
five parts:

- the **World**: an entity/component store with counter-allocated entity ids, and a
  schedule of systems ordered by execution group (input, logic, physics, render) and
  priority;
- the **EventBus**: a synchronous publish/subscribe hub with per-type subscription
  buckets, failure isolation between listeners, one aggregated `system:error` event per
  failing emit, and a bounded event history;
- the **StateManager** with the three **game states** (Playing, Paused, Inventory): a
  guarded state machine that writes enter/exit effects into a context of three flags
  and announces every change on the bus;
- the **InputSystem** key logic: the pressed-key table, the events a key press emits,
  and the keys whose browser default is suppressed;
- the **component helpers** (Position, Renderable, Player) and the **Game** debug
  dispatcher with its initialization guard.

Modules, one per source area:

| file | module | models |
|---|---|---|
| common.dfy | `Common` | Option, Outcome (success or an error message), `indexOf`, `splice(i, 1)` |
| decimal.dfy | `Decimal` | decimal rendering of numbers in ids and messages |
| components.dfy | `Components` | the `Component` union and the three component kinds |
| systems.dfy | `Systems` | execution groups and the `System` base class |
| schedule.dfy | `Schedule` | the stable (group, priority) sort of the schedule |
| world.dfy | `Ecs` | the `World` |
| event_bus.dfy | `Events` | events, payloads and the `EventBus` |
| game_state.dfy | `GameStates` | the three states and the game context |
| state_manager.dfy | `States` | the `StateManager` |
| input_system.dfy | `Input` | the `InputSystem` |
| game.dfy | `GameCore` | the `Game` initialization guard and debug dispatcher |

Objects that the source updates in place are classes: `World`, `EventBus`,
`StateManager`, `InputSystem`, `GameContext`, `PlayerComponent`, `System` and `Game`.
`World`, `EventBus`, `StateManager` and `InputSystem` have a `Valid()` invariant that
their methods preserve; `GameContext`, `PlayerComponent`, `System` and `Game` have
none, since any values of their fields are consistent. Their methods state the whole
new state, usually through a pure function such as `StableSort`, `Trim`,
`Transition` or `KeyDownEvents`. The lemmas beside those
functions prove what the source promises.

Conventions:

- `Date.now()` becomes a `now: int` parameter, one value per call.
- A listener is represented by the `Reaction` it has when called: it returns, or it
  throws with a message.
- Map key order, which JavaScript `Map` iteration follows, is kept as a `seq` of keys
  beside a Dafny `map`.

## Model

| member | source | states |
|---|---|---|
| Common.IndexOf | lib/game/ecs/World.ts:140 | `indexOf`: -1 exactly when the element is absent; otherwise the index of its first occurrence |
| Common.RemoveAt | lib/game/ecs/World.ts:144 | `splice(i, 1)`: one element shorter; elements before `i` stay put and later ones shift down by one |
| Decimal.ParseNatToString | lib/game/events/EventBus.ts:36 | the decimal rendering of a number parses back to that number |
| Decimal.NatToStringInjective | lib/game/events/EventBus.ts:36 | two numbers render the same exactly when they are equal |
| Decimal.IntToString | lib/game/ecs/World.ts:42 | the rendering is non-empty and starts with `-` exactly for negative numbers |
| Decimal.IntToStringInjective | lib/game/ecs/World.ts:42 | distinct entity ids give distinct "Entity N does not exist" numerals |
| Components.CreatePositionComponent | lib/game/ecs/components/PositionComponent.ts:19-23 | the result is tagged "Position"; omitted coordinates are 0 and given ones, negatives included, are kept |
| Components.PositionGuard | lib/game/ecs/components/PositionComponent.ts:30-32 | a factory-made position passes the position guard and fails the other two |
| Components.CreateRenderableComponent | lib/game/ecs/components/RenderableComponent.ts:23-47 | tagged "Renderable"; each field is its option when supplied, else its default; the sprite is present iff supplied |
| Components.RenderableDefaults | lib/game/ecs/components/RenderableComponent.ts:34-39 | with no options: visible, color 0x3498db, 32 by 32, rotation 0, alpha 1, no sprite |
| Components.RenderableColorOnly | lib/game/ecs/components/RenderableComponent.ts:34-39 | supplying only a color changes only the color |
| Components.RenderableGuard | lib/game/ecs/components/RenderableComponent.ts:54-56 | a factory-made renderable passes the renderable guard and fails the other two |
| Components.CreatePlayerComponent | lib/game/ecs/components/PlayerComponent.ts:19-28 | maxHealth defaults to 100; health to the given health, else the given maxHealth, else 100; movementSpeed to 200 |
| Components.PlayerGuard | lib/game/ecs/components/PlayerComponent.ts:35-37 | a player component passes the player guard and fails the other two |
| Components.HealAmount | lib/game/ecs/components/PlayerComponent.ts:45-47 | 0 for a non-positive amount; otherwise the amount or the missing health, never more than either |
| Components.DamageAmount | lib/game/ecs/components/PlayerComponent.ts:58-60 | 0 for a non-positive amount; otherwise the amount or the current health, never more than either |
| Components.HealBounds | lib/game/ecs/components/PlayerComponent.ts:45-50 | healing leaves health at min(health + amount, maxHealth); from health <= maxHealth the amount is non-negative and health stays <= maxHealth |
| Components.DamageBounds | lib/game/ecs/components/PlayerComponent.ts:58-63 | damage leaves health at max(health - amount, 0); from health >= 0 health stays >= 0 |
| Components.HealPlayer | lib/game/ecs/components/PlayerComponent.ts:45-50 | returns the heal amount, adds it to health in place, leaves maxHealth and movementSpeed alone |
| Components.DamagePlayer | lib/game/ecs/components/PlayerComponent.ts:58-63 | returns the damage amount, subtracts it from health in place, leaves maxHealth and movementSpeed alone |
| Systems.Rank | lib/game/ecs/World.ts:170-174 | the group order input, logic, physics, render, as ranks 0 to 3 |
| Systems.System.constructor | lib/game/ecs/System.ts:8-12 | a new system is enabled and keeps its group, priority, required components and hook flags |
| Schedule.StableSortCorrect | lib/game/ecs/World.ts:169-184 | the schedule sort is ordered by (group, priority), is a permutation, and keeps each key's systems in their previous relative order |
| Schedule.SortedUnique | lib/game/ecs/World.ts:169-184 | two sorted schedules with the same per-key subsequences are equal, so every stable sort gives the same schedule |
| Schedule.SortedFixed | lib/game/ecs/World.ts:169-184 | re-sorting an already sorted schedule changes nothing |
| Schedule.PushThenSortInserts | lib/game/ecs/World.ts:128-130 | push then stable sort puts the new system after every system whose key is <= its own and before all the others |
| Ecs.RunTraceSpec | lib/game/ecs/World.ts:158-164 | without a throwing update a frame calls `update` on exactly the enabled systems, in schedule order (`EnabledOf`); the trace ends with a throwing system iff some enabled update throws |
| Ecs.RunTraceNoFailure | lib/game/ecs/World.ts:158-164 | when no enabled update throws, the frame updates exactly the enabled systems in schedule order |
| Ecs.RunTraceStopsAtFirstFailure | lib/game/ecs/World.ts:158-164 | when the k-th system is the first enabled one whose update throws, the frame updates exactly the enabled systems up to and including it, in order |
| Ecs.RunTraceSorted | lib/game/ecs/World.ts:158-164 | over a sorted schedule the updates run in (group, priority) order |
| Ecs.World.constructor | lib/game/ecs/World.ts:9-11 | an empty world whose first entity id is 1 |
| Ecs.World.CreateEntity | lib/game/ecs/World.ts:16-20 | returns the counter value, larger than every existing id; the entity starts with no components |
| Ecs.World.RemoveEntity | lib/game/ecs/World.ts:25-27 | true iff the entity existed; afterwards it does not exist and getComponent finds nothing for any tag |
| Ecs.World.AddComponent | lib/game/ecs/World.ts:39-46 | fails with "Entity N does not exist" for a missing entity; otherwise sets the tag, replacing any old one, and nothing else changes |
| Ecs.World.RemoveComponent | lib/game/ecs/World.ts:51-58 | true iff the entity exists and has the tag; exactly that tag is removed |
| Ecs.World.GetComponent | lib/game/ecs/World.ts:63-70 | finds the component iff the entity exists and has the tag |
| Ecs.World.HasEntitySpec | lib/game/ecs/World.ts:32-34 | hasEntity holds exactly for the ids getAllEntityIds lists, each issued by the counter |
| Ecs.World.QueriesAgree | lib/game/ecs/World.ts:75-94 | hasComponent agrees with getComponent; hasComponents holds iff the entity exists and has every tag |
| Ecs.World.GetEntitiesWithComponents | lib/game/ecs/World.ts:99-109 | exactly the existing entities that have every tag, in creation order |
| Ecs.World.GetAllEntityIds | lib/game/ecs/World.ts:114-116 | every existing entity once, in creation order |
| Ecs.World.GetEntityCount | lib/game/ecs/World.ts:121-123 | the entity count equals the length of getAllEntityIds |
| Ecs.World.AddSystem | lib/game/ecs/World.ts:128-134 | the schedule becomes the stable sort of the old schedule plus the system: a permutation with the system inserted after all keys <= its own; its initialize hook runs iff defined |
| Ecs.World.RemoveSystem | lib/game/ecs/World.ts:139-146 | an unregistered system changes nothing; otherwise its cleanup runs iff defined and its first occurrence is removed |
| Ecs.World.GetSystems | lib/game/ecs/World.ts:151-153 | the schedule is always in (group, priority) order |
| Ecs.World.UpdateSystems | lib/game/ecs/World.ts:158-164 | the update trace is RunTrace, so disabled systems are skipped and stay registered; the frame aborts iff some enabled update throws |
| Ecs.World.Clear | lib/game/ecs/World.ts:189-198 | runs the cleanup hooks in schedule order, empties entities and systems, and resets the next id to 1 |
| Events.SubscriptionIdInjective | lib/game/events/EventBus.ts:36 | `subscription_a` equals `subscription_b` iff a equals b |
| Events.NextIdFresh | lib/game/events/EventBus.ts:35-36 | the next id differs from every id issued since the last clear |
| Events.Without | lib/game/events/EventBus.ts:64 | deleting an id keeps exactly the subscriptions with other ids |
| Events.SubscribeKeepsOk | lib/game/events/EventBus.ts:35-53 | subscribing keeps the listener-map invariant: non-empty, correctly typed buckets with distinct, issued ids that are disjoint across buckets |
| Events.UnsubscribeKeepsOk | lib/game/events/EventBus.ts:61-76 | deleting an id, and pruning a bucket it empties, keeps the invariant; the id is in no other bucket |
| Events.DropTypeKeepsOk | lib/game/events/EventBus.ts:84-93 | dropping a whole bucket and its type keeps the invariant |
| Events.ThrownSpec | lib/game/events/EventBus.ts:110-121 | at most one error per listener, and none exactly when no listener throws |
| Events.Dispatch | lib/game/events/EventBus.ts:110-121 | calls every subscription of the bucket once, in order, and collects each thrown error without stopping |
| Events.FirstHolder | lib/game/events/EventBus.ts:62-63 | a type whose bucket holds the id and before which, in map order, no type holds it; none iff no bucket holds it |
| Events.TotalIsFlattenLength | lib/game/events/EventBus.ts:193-203 | the subscription total of getStats is the length of getAllSubscriptions |
| Events.TrimSpec | lib/game/events/EventBus.ts:259-264 | the trimmed history keeps the newest min(length, max(maxHistorySize, 0)) entries |
| Events.ReverseAt | lib/game/events/EventBus.ts:212 | reversing puts the newest entry first |
| Events.SliceEnd | lib/game/events/EventBus.ts:213 | the end index of `slice(0, limit)` never exceeds the length |
| Events.EventBus.constructor | lib/game/events/EventBus.ts:21-26 | an empty bus; options default to 1000 history entries and logging on |
| Events.EventBus.Subscribe | lib/game/events/EventBus.ts:35-53 | returns `subscription_N` for the incremented counter, an id not in use; appends to the type's bucket, creating it at the end of the type order |
| Events.EventBus.Unsubscribe | lib/game/events/EventBus.ts:61-76 | true iff some bucket holds the id; afterwards no bucket holds it, and an emptied bucket is gone |
| Events.EventBus.FindHolder | lib/game/events/EventBus.ts:62-63 | scans the event types in insertion order and stops at the first whose bucket holds the id, or reports that none does |
| Events.HolderExists | lib/game/events/EventBus.ts:62-75 | under the bus invariant, some bucket holds the id exactly when the insertion-order scan finds one, so `false` means no subscription has that id |
| Events.EventBus.RemoveFromBucket | lib/game/events/EventBus.ts:63-70 | deletes the id from its bucket and prunes the bucket when that empties it |
| Events.EventBus.UnsubscribeAll | lib/game/events/EventBus.ts:84-93 | returns the bucket's size (0 when absent) and removes only that bucket |
| Events.EventBus.Emit | lib/game/events/EventBus.ts:100-150 | with no subscribers nothing happens; otherwise the subscribers are called once each in order, the event is recorded with the listener count, and if any threw, one `system:error` with the event, the errors and the count goes to the `system:error` subscribers |
| Events.EventBus.EmitEvent | lib/game/events/EventBus.ts:158-166 | emits `{type, data, now}`: the same report as `Emit` (delivery, errors, whether recorded, the `system:error` event and who received it), history and frame |
| Events.EventBus.AddToHistory | lib/game/events/EventBus.ts:252-265 | appends the entry and drops the oldest entries beyond the bound |
| Events.EventBus.GetListenerCount | lib/game/events/EventBus.ts:174-177 | the type's bucket size; 0 iff the type is not subscribed |
| Events.EventBus.GetSubscribedEventTypes | lib/game/events/EventBus.ts:184-186 | exactly the types with at least one subscription, each once |
| Events.EventBus.GetAllSubscriptions | lib/game/events/EventBus.ts:193-203 | every subscription, bucket by bucket in type order; as many as getStats counts |
| Events.EventBus.GetEventHistory | lib/game/events/EventBus.ts:211-214 | the history newest first, cut to `slice(0, limit)` length, negative limits included |
| Events.EventBus.GetStats | lib/game/events/EventBus.ts:221-238 | the sum of bucket sizes, the number of types, the history length and its bound |
| Events.EventBus.Clear | lib/game/events/EventBus.ts:243-247 | no subscriptions, no history, and ids restart at subscription_1 |
| GameStates.StateNamed | lib/game/state/GameState.ts:53-55 | the state found for a name has that name |
| GameStates.StateNameRoundTrip | lib/game/state/GameState.ts:82-84 | looking up a state's name gives back the state |
| GameStates.StateNameInjective | lib/game/state/GameState.ts:113-115 | the three state names are distinct |
| GameStates.Successors | lib/game/state/GameState.ts:48-51 | Playing allows Paused and Inventory; Paused allows Playing and Inventory; Inventory allows only Playing; no state allows itself |
| GameStates.AllowedNamesAreStates | lib/game/state/GameState.ts:108-111 | every allowed successor name names one of the states, and never the current one |
| GameStates.InitialIsPlaying | lib/game/state/GameState.ts:136-142 | the initial context equals what entering Playing produces |
| GameStates.EnteredSpec | lib/game/state/GameState.ts:32-37 | entering writes (false, false, true), (true, false, false) or (true, true, false); the flags identify the state and are coherent |
| GameStates.ExitedSpec | lib/game/state/GameState.ts:103-106 | only leaving Inventory changes the flags, and it only closes the inventory; coherence is kept |
| GameStates.GameContext.Initial | lib/game/state/GameState.ts:136-142 | the initial context is not paused, inventory closed, input enabled |
| GameStates.GameContext.Enter | lib/game/state/GameState.ts:62-67 | entering sets all three flags to the state's profile |
| GameStates.GameContext.Exit | lib/game/state/GameState.ts:44-46 | exiting applies the state's exit effect in place |
| States.Transition | lib/game/state/StateManager.ts:113-124 | a transition succeeds iff the name is registered and the current state, if any, allows it; the new state is the registered one |
| States.ToggleTarget | lib/game/state/StateManager.ts:152-165 | back to Playing when the current name is the target or is not Playing; from Playing to the target |
| States.TransitionChangesState | lib/game/state/StateManager.ts:120-137 | with states registered under their own names, a successful transition always changes the state |
| States.ToggleFromAnyState | lib/game/state/StateManager.ts:152-165 | with the three game states, every key toggle succeeds: from Playing to the requested state, from any other state back to Playing |
| States.ToggleTwiceReturns | lib/game/state/StateManager.ts:152-165 | pressing the same toggle key twice from Playing returns to Playing |
| States.StateManager.constructor | lib/game/state/StateManager.ts:66-81 | nothing registered, no current state; the request handler is appended to the `state:transition_request` bucket (created at the end of the type order when missing) and every other bucket is unchanged |
| States.StateManager.RegisterState | lib/game/state/StateManager.ts:86-88 | sets the name's state, overwriting; a new name goes to the end of the name order |
| States.StateManager.GetCurrentStateName | lib/game/state/StateManager.ts:179-181 | the current state's own name, none iff there is no current state |
| States.StateManager.GetRegisteredStateNames | lib/game/state/StateManager.ts:193-202 | exactly the registered names, each once |
| States.StateManager.IsStateRegisteredSpec | lib/game/state/StateManager.ts:200-202 | isStateRegistered holds exactly for the listed names, i.e. the names a manager with no current state can transition to |
| States.StateManager.Initialize | lib/game/state/StateManager.ts:93-108 | fails with `State "X" is not registered` and changes nothing; otherwise binds the context, makes the state current, enters it without a guard, and emits `state:changed` from "none" |
| States.StateManager.TransitionTo | lib/game/state/StateManager.ts:113-147 | false and no change when refused; otherwise exit then enter (only with a context), the new state is current, and `state:changed` from the old name or "none" is emitted |
| States.StateManager.ToggleState | lib/game/state/StateManager.ts:152-165 | a transition to the toggle destination, with TransitionTo's full effect: on success the context holds the destination's entry flags and `state:changed` from the old name is recorded; on refusal state, context and history are unchanged; listeners untouched |
| States.StateManager.OnTransitionRequest | lib/game/state/StateManager.ts:70-80 | requests tagged `escape_key` or `inventory_key` toggle, others transition directly, both with the bound context: its flags become the destination's entry flags and `state:changed` is recorded on success, nothing changes on refusal |
| States.StateManager.Clear | lib/game/state/StateManager.ts:207-211 | no current state, no context and nothing registered |
| Input.TransitionRequestFor | lib/game/ecs/systems/InputSystem.ts:161-184 | Escape requests Paused (`escape_key`); `i` or `I` requests Inventory (`inventory_key`); any other key requests nothing |
| Input.ShouldPreventDefault | lib/game/ecs/systems/InputSystem.ts:189-193 | true exactly for Escape, i, I, w, a, s, d, W, A, S, D |
| Input.RequestKeysArePrevented | lib/game/ecs/systems/InputSystem.ts:161-193 | every key that requests a transition also has its default suppressed |
| Input.KeyDownEvents | lib/game/ecs/systems/InputSystem.ts:133-143 | every keydown emits `input:key_pressed` with all six key fields first, then the key's transition request if it has one |
| Input.PressedMembers | lib/game/ecs/systems/InputSystem.ts:97-105 | the pressed list holds exactly the seen codes marked pressed |
| Input.InputSystem.constructor | lib/game/ecs/systems/InputSystem.ts:42-57 | group input, priority 0, no required components, enabled, not initialized, no keys |
| Input.InputSystem.SetKey | lib/game/ecs/systems/InputSystem.ts:129 | sets one code's entry; a new code goes to the end of the table order |
| Input.InputSystem.HandleKeyDown | lib/game/ecs/systems/InputSystem.ts:126-149 | a non-repeat press marks the code pressed and a repeat changes nothing; the key's events are emitted in order; the result says whether to prevent the default |
| Input.InputSystem.HandleKeyUp | lib/game/ecs/systems/InputSystem.ts:154-156 | marks the code released; a code not seen before is appended to the table order, so `getPressedKeys` keeps its order |
| Input.InputSystem.IsKeyPressed | lib/game/ecs/systems/InputSystem.ts:90-92 | false for a code never seen |
| Input.InputSystem.GetPressedKeys | lib/game/ecs/systems/InputSystem.ts:97-105 | exactly the codes marked pressed, in table order |
| Input.InputSystem.Initialize | lib/game/ecs/systems/InputSystem.ts:59-71 | sets the flag; a second call changes nothing |
| Input.InputSystem.Cleanup | lib/game/ecs/systems/InputSystem.ts:78-85 | clears the key table and the flag |
| GameCore.ExecuteDebugAction | lib/game/Game.ts:160-174 | `ping` answers `{pong, timestamp}`; any other action gets `Unknown action: ` followed by its name |
| GameCore.UnknownActionRecoverable | lib/game/Game.ts:170-172 | the error message ends with the exact unknown action name |
| GameCore.UnknownActionsDistinct | lib/game/Game.ts:170-172 | distinct unknown actions get distinct errors |
| GameCore.Game.constructor | lib/game/Game.ts:43 | a new game is not initialized |
| GameCore.Game.Initialize | lib/game/Game.ts:53-69 | afterwards the game is initialized; a second call returns early |
| GameCore.Game.Start | lib/game/Game.ts:74-77 | fails with "Game must be initialized before starting" iff the game is not initialized |
| GameCore.Game.GetState | lib/game/Game.ts:142-145 | reports the initialized flag and the time |

## Left out

- Rendering and scheduling: the pixi.js application, `requestAnimationFrame` and
  `cancelAnimationFrame` in `start` and `stop`, `handleResize`, and the empty
  `_update`/`_render` of lib/game/Game.ts. These are foreign calls; `Start` models only
  the initialization guard.
- The React UI under app/ and the older entry point under src/: DOM code, not part of
  this model.
- InputSystem's `window` listener binding and removal (lib/game/ecs/systems/InputSystem.ts:110-121):
  host I/O. `Initialize` and `Cleanup` model only the flag and the key table.
- Console logging, including the `enableErrorLogging` switch, which only decides
  whether errors are logged.
- `Date.now()`: every call becomes the same `now` parameter of the operation. For
  example, the `system:error` timestamp equals the `now` given to `Emit`.
- Listener bodies and state hooks beyond the three game states: a listener is its
  `Reaction`, and a system's `update`, `initialize` and `cleanup` are represented only
  by whether they exist and whether `update` throws.
- Events.EventBus.Emit: does not model re-entrancy. A listener that subscribes,
  unsubscribes or emits during dispatch is not represented, because the source iterates
  the live map. Nested emits are not interleaved either. For example, the state manager's
  handler for a transition request is the separate method `OnTransitionRequest`, and
  `HandleKeyDown` records its two events one after the other.
- States.StateManager.OnTransitionRequest: returns whether the transition happened,
  although the source listener returns nothing.
- The payloads of events that the core only passes along are `Opaque` strings.
- `StateManager.update` and the three states' `update` methods: every concrete
  `update` body is empty, so updating changes nothing and has no operation here.
- `StateManager.getCurrentState` returns the state object itself; here the current
  state is the `current` field.
- The registry holds only the three concrete game states. The generic `State<T>` base
  class is represented by them.
- Numbers: coordinates, sizes and alpha are `real`; health, colors, priorities and
  timestamps are `int`. Floating-point rounding and NaN are not modelled.
- `Array.prototype.sort` is modelled by its required result (a stable sort), not by an
  engine's algorithm. Section 23.1.3.30 of ECMA-262 (2024 edition) requires stability.
- Two integration tests expect Paused plus the inventory key to open the inventory.
  The code sends it to Playing, and the model follows the code (`ToggleFromAnyState`).
