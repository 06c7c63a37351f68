/**
 * Components: tagged data attached to entities (the `Component` interface of
 * lib/game/ecs/types.ts) and the three concrete component kinds with their
 * factories, type guards and the player's health operations.
 */
module Components {
  import opened Common

  /**
   * The player component is an object whose `health` the game changes in place;
   * every holder of the component sees the change.
   */
  class PlayerComponent {
    var health: int
    var maxHealth: int
    var movementSpeed: Option<int>

    constructor (health: int, maxHealth: int, movementSpeed: Option<int>)
      ensures this.health == health && this.maxHealth == maxHealth
      ensures this.movementSpeed == movementSpeed
    {
      this.health := health;
      this.maxHealth := maxHealth;
      this.movementSpeed := movementSpeed;
    }
  }

  /**
   * A component is a value distinguished by its `type` tag. `Other` stands for any
   * component kind the core does not define (tests and gameplay code add their own).
   */
  datatype Component =
    | Position(x: real, y: real)
    | Renderable(sprite: Option<string>, color: Option<int>, visible: bool,
                 width: Option<real>, height: Option<real>,
                 rotation: Option<real>, alpha: Option<real>)
    | Player(player: PlayerComponent)
    | Other(tag: string)

  /** The component's `type` tag. */
  function Tag(c: Component): string {
    match c
    case Position(_, _) => "Position"
    case Renderable(_, _, _, _, _, _, _) => "Renderable"
    case Player(_) => "Player"
    case Other(t) => t
  }

  // ---------------------------------------------------------------- Position

  /** createPositionComponent: omitted coordinates default to 0. */
  function CreatePositionComponent(x: Option<real>, y: Option<real>): (c: Component)
    ensures Tag(c) == "Position" && c.Position?
    ensures c.x == (if x.Some? then x.value else 0.0)
    ensures c.y == (if y.Some? then y.value else 0.0)
  {
    Position(x.GetOr(0.0), y.GetOr(0.0))
  }

  predicate IsPositionComponent(c: Component) { Tag(c) == "Position" }

  /** Every factory-made position passes the position guard and no other guard. */
  lemma PositionGuard(x: Option<real>, y: Option<real>)
    ensures IsPositionComponent(CreatePositionComponent(x, y))
    ensures !IsRenderableComponent(CreatePositionComponent(x, y))
    ensures !IsPlayerComponent(CreatePositionComponent(x, y))
  {
  }

  // -------------------------------------------------------------- Renderable

  /** The options bag of createRenderableComponent; `None` is an omitted option. */
  datatype RenderableOptions = RenderableOptions(
    sprite: Option<string>, color: Option<int>, visible: Option<bool>,
    width: Option<real>, height: Option<real>, rotation: Option<real>, alpha: Option<real>)

  const NoRenderableOptions := RenderableOptions(None, None, None, None, None, None, None)

  const DefaultColor: int := 0x3498db

  /** createRenderableComponent: each supplied option overrides its own default only. */
  function CreateRenderableComponent(o: RenderableOptions): (c: Component)
    ensures Tag(c) == "Renderable" && c.Renderable?
    ensures c.visible == (if o.visible.Some? then o.visible.value else true)
    ensures c.color == Some(if o.color.Some? then o.color.value else DefaultColor)
    ensures c.width == Some(if o.width.Some? then o.width.value else 32.0)
    ensures c.height == Some(if o.height.Some? then o.height.value else 32.0)
    ensures c.rotation == Some(if o.rotation.Some? then o.rotation.value else 0.0)
    ensures c.alpha == Some(if o.alpha.Some? then o.alpha.value else 1.0)
    ensures c.sprite == o.sprite
  {
    Renderable(o.sprite, Some(o.color.GetOr(DefaultColor)), o.visible.GetOr(true),
               Some(o.width.GetOr(32.0)), Some(o.height.GetOr(32.0)),
               Some(o.rotation.GetOr(0.0)), Some(o.alpha.GetOr(1.0)))
  }

  predicate IsRenderableComponent(c: Component) { Tag(c) == "Renderable" }

  /** With no options the component is visible, blue, 32 by 32, unrotated, opaque and has no sprite. */
  lemma RenderableDefaults()
    ensures CreateRenderableComponent(NoRenderableOptions)
         == Renderable(None, Some(0x3498db), true, Some(32.0), Some(32.0), Some(0.0), Some(1.0))
  {
  }

  /** Supplying only a color changes the color field of the default component and nothing else. */
  lemma RenderableColorOnly(color: int)
    ensures CreateRenderableComponent(NoRenderableOptions.(color := Some(color)))
         == Renderable(None, Some(color), true, Some(32.0), Some(32.0), Some(0.0), Some(1.0))
  {
  }

  lemma RenderableGuard(o: RenderableOptions)
    ensures IsRenderableComponent(CreateRenderableComponent(o))
    ensures !IsPositionComponent(CreateRenderableComponent(o))
    ensures !IsPlayerComponent(CreateRenderableComponent(o))
  {
  }

  // ------------------------------------------------------------------ Player

  /** The options bag of createPlayerComponent. */
  datatype PlayerOptions = PlayerOptions(health: Option<int>, maxHealth: Option<int>, movementSpeed: Option<int>)

  /**
   * createPlayerComponent: maxHealth defaults to 100, health to the given health, else
   * the given maxHealth, else 100, and movementSpeed to 200.
   */
  method CreatePlayerComponent(o: PlayerOptions) returns (p: PlayerComponent)
    ensures fresh(p)
    ensures p.maxHealth == (if o.maxHealth.Some? then o.maxHealth.value else 100)
    ensures p.health == (if o.health.Some? then o.health.value
                         else if o.maxHealth.Some? then o.maxHealth.value else 100)
    ensures p.movementSpeed == Some(if o.movementSpeed.Some? then o.movementSpeed.value else 200)
  {
    p := new PlayerComponent(o.health.GetOr(o.maxHealth.GetOr(100)), o.maxHealth.GetOr(100),
                             Some(o.movementSpeed.GetOr(200)));
  }

  predicate IsPlayerComponent(c: Component) { Tag(c) == "Player" }

  lemma PlayerGuard(p: PlayerComponent)
    ensures IsPlayerComponent(Player(p))
    ensures !IsPositionComponent(Player(p)) && !IsRenderableComponent(Player(p))
  {
  }

  /** The amount healPlayer applies: nothing for a non-positive amount, else capped at the missing health. */
  function HealAmount(health: int, maxHealth: int, amount: int): (r: int)
    ensures amount <= 0 ==> r == 0
    ensures amount > 0 ==> r <= amount && r <= maxHealth - health
    ensures amount > 0 ==> (r == amount || r == maxHealth - health)
  {
    if amount <= 0 then 0 else Min(amount, maxHealth - health)
  }

  /** The amount damagePlayer applies: nothing for a non-positive amount, else capped at the current health. */
  function DamageAmount(health: int, amount: int): (r: int)
    ensures amount <= 0 ==> r == 0
    ensures amount > 0 ==> r <= amount && r <= health
    ensures amount > 0 ==> (r == amount || r == health)
  {
    if amount <= 0 then 0 else Min(amount, health)
  }

  /**
   * Healing by a positive amount leaves health at min(health + amount, maxHealth); from
   * health <= maxHealth the amount applied is non-negative and health stays within bounds.
   */
  lemma HealBounds(health: int, maxHealth: int, amount: int)
    requires amount > 0
    ensures health + HealAmount(health, maxHealth, amount) == Min(health + amount, maxHealth)
    ensures health <= maxHealth ==> 0 <= HealAmount(health, maxHealth, amount)
    ensures health <= maxHealth ==> health + HealAmount(health, maxHealth, amount) <= maxHealth
  {
  }

  /**
   * Damage by a positive amount leaves health at max(health - amount, 0); from health >= 0
   * the amount applied is non-negative and health stays non-negative.
   */
  lemma DamageBounds(health: int, amount: int)
    requires amount > 0
    ensures health - DamageAmount(health, amount) == Max(health - amount, 0)
    ensures health >= 0 ==> 0 <= DamageAmount(health, amount)
    ensures health >= 0 ==> health - DamageAmount(health, amount) >= 0
  {
  }

  /** healPlayer: adds the heal amount to health in place and returns it. */
  method HealPlayer(p: PlayerComponent, amount: int) returns (healed: int)
    modifies p
    ensures healed == HealAmount(old(p.health), old(p.maxHealth), amount)
    ensures p.health == old(p.health) + healed
    ensures p.maxHealth == old(p.maxHealth) && p.movementSpeed == old(p.movementSpeed)
  {
    if amount <= 0 {
      return 0;
    }
    healed := Min(amount, p.maxHealth - p.health);
    p.health := p.health + healed;
  }

  /** damagePlayer: subtracts the damage amount from health in place and returns it. */
  method DamagePlayer(p: PlayerComponent, amount: int) returns (dealt: int)
    modifies p
    ensures dealt == DamageAmount(old(p.health), amount)
    ensures p.health == old(p.health) - dealt
    ensures p.maxHealth == old(p.maxHealth) && p.movementSpeed == old(p.movementSpeed)
  {
    if amount <= 0 {
      return 0;
    }
    dealt := Min(amount, p.health);
    p.health := p.health - dealt;
  }
}
