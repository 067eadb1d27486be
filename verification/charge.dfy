/** The charge economy of the player (PlayerController): holding the button
    grows a preview projectile at the cost of the player's own radius, and
    releasing it fires the projectile and pays the cost.

    The preview projectile lives in the projectile pool's scene, so the
    player and that scene are modelled together as a Game. */
module Charge {
  import opened Options
  import opened Numeric
  import opened Config
  import opened Pools
  import opened Projectiles

  /** StartCharge refuses unless the player is this much above the critical radius. */
  const StartMargin: real := 0.0001

  /** The floor of the transfer coefficient used as a divisor. */
  const MinTransfer: real := 0.00001

  datatype Player = Player(
    config: GameplayConfig,
    radius: real,          // playerRadius
    isCharging: bool,
    chargeTime: real,
    advancing: bool,       // never set by the game; StartCharge still tests it
    hasStarted: bool,
    hasPool: bool,         // projectilePool is set
    preview: Option<Id>,   // previewProjectileComp
    doorChecks: nat)       // StartDoorCheck calls so far

  datatype Game = Game(player: Player, shots: Shots)

  /** The player's initial radius: the configured radius plus its reserve. */
  function InitialRadius(cfg: GameplayConfig): (r: real)
    ensures cfg.initialPlayerRadius >= 0.0 && cfg.initialReservePercent >= 0.0 ==>
              r >= cfg.initialPlayerRadius
    ensures r - cfg.initialPlayerRadius == cfg.initialPlayerRadius * cfg.initialReservePercent
  {
    cfg.initialPlayerRadius * (1.0 + cfg.initialReservePercent)
  }

  /** Start: without a config the component logs an error and sets nothing
      up (None); a later StartCharge would then fail on the missing config.
      Otherwise the player begins idle at its initial radius.
      `hasPool` says whether a projectile pool was assigned or found. */
  function Start(config: Option<GameplayConfig>, hasPool: bool): (p: Option<Player>)
    ensures config.None? <==> p.None?
    ensures p.Some? ==>
      && p.value.config == config.value
      && p.value.radius == InitialRadius(config.value)
      && !p.value.isCharging && !p.value.hasStarted && !p.value.advancing
      && p.value.preview.None? && p.value.doorChecks == 0
  {
    match config
    case None => None
    case Some(cfg) => Some(Player(cfg, InitialRadius(cfg), false, 0.0, false, false, hasPool, None, 0))
  }

  /** The projectile radius the charge asks for after `chargeTime`, capped by
      the configured range and by what the player can afford. */
  function DesiredRadius(cfg: GameplayConfig, chargeTime: real, playerRadius: real): (d: real)
    ensures cfg.minProjectileRadius <= cfg.maxProjectileRadius ==>
              cfg.minProjectileRadius <= d <= cfg.maxProjectileRadius
    ensures playerRadius - cfg.minCriticalRadius <= 0.0 ==> d == cfg.minProjectileRadius
    // the budget ceiling: the radius bought never costs more than the player has above the critical radius
    ensures playerRadius - cfg.minCriticalRadius > 0.0 && cfg.minProjectileRadius <= cfg.maxProjectileRadius ==>
              (d - cfg.minProjectileRadius) * Max(MinTransfer, cfg.transferK)
                <= playerRadius - cfg.minCriticalRadius
    // the value: the charged radius, or the whole budget when the charged radius costs more
    ensures playerRadius - cfg.minCriticalRadius > 0.0 && cfg.minProjectileRadius <= cfg.maxProjectileRadius ==>
              var w := Clamp(cfg.minProjectileRadius + cfg.chargeRate * chargeTime,
                             cfg.minProjectileRadius, cfg.maxProjectileRadius);
              && d <= w
              && (d == w || (d - cfg.minProjectileRadius) * Max(MinTransfer, cfg.transferK)
                              == playerRadius - cfg.minCriticalRadius)
  {
    var wanted := Clamp(cfg.minProjectileRadius + cfg.chargeRate * chargeTime,
                        cfg.minProjectileRadius, cfg.maxProjectileRadius);
    var maxDelta := playerRadius - cfg.minCriticalRadius;
    if maxDelta <= 0.0 then cfg.minProjectileRadius
    else
      var divisor := Max(MinTransfer, cfg.transferK);
      var ceiling := cfg.minProjectileRadius + maxDelta / divisor;
      CeilingCost(cfg.minProjectileRadius, maxDelta, divisor, Min3(wanted, ceiling, cfg.maxProjectileRadius));
      Min3(wanted, ceiling, cfg.maxProjectileRadius)
  }

  /** A radius no larger than the ceiling costs at most the budget. */
  lemma CeilingCost(min: real, budget: real, divisor: real, d: real)
    requires divisor > 0.0 && budget > 0.0
    requires d <= min + budget / divisor
    ensures (d - min) * divisor <= budget
    ensures min + budget / divisor > min
  {
    assert (d - min) * divisor <= (budget / divisor) * divisor by {
      MulRight(d - min, budget / divisor, divisor);
    }
  }

  lemma MulRight(a: real, b: real, c: real)
    requires a <= b && c >= 0.0
    ensures a * c <= b * c
  {
  }

  /** The player radius after paying for a projectile of radius `proj`,
      never below the critical radius. UpdateCharge shows this value as a
      preview; ReleaseCharge commits it. */
  function PaidRadius(cfg: GameplayConfig, playerRadius: real, proj: real): (r: real)
    ensures r >= cfg.minCriticalRadius
    ensures r >= playerRadius - (proj - cfg.minProjectileRadius) * cfg.transferK
    ensures r == cfg.minCriticalRadius || r == playerRadius - (proj - cfg.minProjectileRadius) * cfg.transferK
  {
    Max(cfg.minCriticalRadius, playerRadius - (proj - cfg.minProjectileRadius) * cfg.transferK)
  }

  /** The key property of the economy: a projectile within the budget never
      needs the critical-radius floor, so paying for it costs exactly its
      price. */
  lemma {:induction false} FloorInactive(cfg: GameplayConfig, playerRadius: real, proj: real)
    requires cfg.minProjectileRadius <= proj
    requires (proj - cfg.minProjectileRadius) * cfg.transferK <= playerRadius - cfg.minCriticalRadius
    ensures PaidRadius(cfg, playerRadius, proj) == playerRadius - (proj - cfg.minProjectileRadius) * cfg.transferK
  {
  }

  /** The desired radius of UpdateCharge is affordable with the real
      coefficient as well, whatever its sign. */
  lemma {:induction false} DesiredAffordable(cfg: GameplayConfig, chargeTime: real, playerRadius: real)
    requires cfg.minProjectileRadius <= cfg.maxProjectileRadius
    requires playerRadius - cfg.minCriticalRadius > 0.0
    ensures var d := DesiredRadius(cfg, chargeTime, playerRadius);
            (d - cfg.minProjectileRadius) * cfg.transferK <= playerRadius - cfg.minCriticalRadius
  {
    var d := DesiredRadius(cfg, chargeTime, playerRadius);
    var a := d - cfg.minProjectileRadius;
    assert a >= 0.0;
    if cfg.transferK < MinTransfer {
      assert Max(MinTransfer, cfg.transferK) == MinTransfer;
      assert a * cfg.transferK <= a * MinTransfer by {
        MulLeft(a, cfg.transferK, MinTransfer);
      }
    } else {
      assert Max(MinTransfer, cfg.transferK) == cfg.transferK;
    }
  }

  lemma MulLeft(a: real, b: real, c: real)
    requires a >= 0.0 && b <= c
    ensures a * b <= a * c
  {
  }

  /** The worked value: with the default config, a player of radius 0.6
      charging for 2 seconds asks for a projectile of radius 0.59, the whole
      budget above the critical radius. */
  lemma WorkedValue()
    ensures DesiredRadius(Defaults, 2.0, 0.6) == 0.59
    ensures PaidRadius(Defaults, 0.6, 0.59) == Defaults.minCriticalRadius
  {
  }

  /** Every preview the player holds is a projectile of the scene. */
  ghost predicate GameOk(g: Game) {
    Valid(g.shots) && (g.player.preview.Some? ==> g.player.preview.value in g.shots.world)
  }

  /** The radius of the preview projectile. */
  function PreviewRadius(g: Game): real
    requires GameOk(g) && g.player.preview.Some?
  {
    g.shots.world[g.player.preview.value].state.radius
  }

  /** Re-initialise projectile `id` with radius `r`, attached to the pool. */
  function Reinit(s: Shots, id: Id, cfg: GameplayConfig, r: real): (t: Shots)
    requires Valid(s) && id in s.world
    ensures Valid(t) && t.world.Keys == s.world.Keys && t.queue == s.queue && t.self == s.self
    ensures t.world[id].state == Init(s.world[id].state, cfg, r, Some(s.self))
    ensures t.world[id].active == s.world[id].active
    ensures forall o :: o in s.world && o != id ==> t.world[o] == s.world[o]
  {
    s.(world := s.world[id := s.world[id].(state := Init(s.world[id].state, cfg, r, Some(s.self)))])
  }

  /** StartCharge. Refused while advancing or when the player is within the
      margin of the critical radius. Otherwise the charge restarts from zero;
      with no pool (after a lookup, `lookup`) the charge is dropped again,
      and with one a projectile is taken from the pool and initialised to
      the minimum radius as the preview. */
  function StartCharge(g: Game, lookup: bool): (r: Game)
    requires GameOk(g)
    ensures GameOk(r)
    ensures var p := g.player;
            p.advancing || p.radius <= p.config.minCriticalRadius + StartMargin ==> r == g
    ensures var p := g.player;
            !p.advancing && p.radius > p.config.minCriticalRadius + StartMargin ==>
              && r.player.chargeTime == 0.0
              && r.player.radius == p.radius
              && r.player.hasPool == (p.hasPool || lookup)
              && (r.player.isCharging <==> p.hasPool || lookup)
              && (!(p.hasPool || lookup) ==> r.shots == g.shots && r.player.preview == p.preview)
              && (p.hasPool || lookup ==>
                    && r.player.preview.Some?
                    && PreviewRadius(r) == p.config.minProjectileRadius
                    && r.shots.world[r.player.preview.value].active
                    && Idle(r.shots.world[r.player.preview.value].state)
                    // the preview is the pool's next object, and nothing else in the scene changes
                    && r.shots.world.Keys == g.shots.world.Keys + {r.player.preview.value}
                    && (|g.shots.queue| > 0 ==>
                          r.player.preview.value == g.shots.queue[0] && r.shots.queue == g.shots.queue[1..])
                    && (|g.shots.queue| == 0 ==>
                          r.player.preview.value !in g.shots.world && r.shots.queue == [])
                    && forall o :: o in g.shots.world && o != r.player.preview.value ==>
                         r.shots.world[o] == g.shots.world[o])
    ensures r.player.hasStarted == g.player.hasStarted && r.player.doorChecks == g.player.doorChecks
    ensures r.player.config == g.player.config
  {
    var p := g.player;
    if p.advancing || p.radius <= p.config.minCriticalRadius + StartMargin then g
    else
      var hasPool := p.hasPool || lookup;
      var charging := p.(isCharging := true, chargeTime := 0.0, hasPool := hasPool);
      if !hasPool then Game(charging.(isCharging := false), g.shots)
      else
        var (s1, id) := PoolGet(g.shots);
        Game(charging.(preview := Some(id)), Reinit(s1, id, p.config, p.config.minProjectileRadius))
  }

  /** UpdateCharge(dt). Without a preview nothing happens. Otherwise the
      charge time grows by `dt` and the preview is re-initialised to the
      desired radius; the player's own radius is only previewed, never
      changed. */
  function UpdateCharge(g: Game, dt: real): (r: Game)
    requires GameOk(g)
    ensures GameOk(r)
    ensures g.player.preview.None? ==> r == g
    ensures r.player.radius == g.player.radius
    ensures r.player.preview == g.player.preview
    ensures g.player.preview.Some? ==>
      && r.player.chargeTime == g.player.chargeTime + dt
      && PreviewRadius(r) == DesiredRadius(g.player.config, g.player.chargeTime + dt, g.player.radius)
      && r.shots.queue == g.shots.queue
      && r.shots.world.Keys == g.shots.world.Keys
      && r.shots.world[g.player.preview.value].active == g.shots.world[g.player.preview.value].active
      && forall o :: o in g.shots.world && o != g.player.preview.value ==> r.shots.world[o] == g.shots.world[o]
    ensures r.player.hasStarted == g.player.hasStarted && r.player.doorChecks == g.player.doorChecks
    ensures r.player.isCharging == g.player.isCharging && r.player.config == g.player.config
  {
    var p := g.player;
    match p.preview
    case None => g
    case Some(id) =>
      var t := p.chargeTime + dt;
      var d := DesiredRadius(p.config, t, p.radius);
      Game(p.(chargeTime := t), Reinit(g.shots, id, p.config, d))
  }

  /** The radius UpdateCharge shows for the player while charging. */
  function PreviewPlayerRadius(g: Game): (r: real)
    requires GameOk(g) && g.player.preview.Some?
    ensures r >= g.player.config.minCriticalRadius
  {
    PaidRadius(g.player.config, g.player.radius, PreviewRadius(g))
  }

  /** ReleaseCharge. A no-op unless charging. Otherwise the charge ends;
      with a preview the player pays for its radius, the preview is fired
      and forgotten, and the first release starts the door check. */
  function ReleaseCharge(g: Game): (r: Game)
    requires GameOk(g)
    ensures GameOk(r)
    ensures r.shots.world.Keys == g.shots.world.Keys
    ensures !g.player.isCharging ==> r == g
    ensures g.player.isCharging ==> !r.player.isCharging && r.player.preview.None?
    ensures g.player.isCharging && g.player.preview.None? ==>
      r.shots == g.shots && r.player.radius == g.player.radius && r.player.hasStarted == g.player.hasStarted
    ensures g.player.isCharging && g.player.preview.Some? ==>
      && r.player.radius == PreviewPlayerRadius(g)
      && r.player.hasStarted
      && r.player.doorChecks == g.player.doorChecks + (if g.player.hasStarted then 0 else 1)
      && r.shots.world[g.player.preview.value].state == Fire(g.shots.world[g.player.preview.value].state)
      && r.shots.world[g.player.preview.value].active == g.shots.world[g.player.preview.value].active
      && r.shots.queue == g.shots.queue
      && forall o :: o in g.shots.world && o != g.player.preview.value ==> r.shots.world[o] == g.shots.world[o]
    ensures r.player.config == g.player.config
  {
    var p := g.player;
    if !p.isCharging then g
    else
      var idle := p.(isCharging := false);
      match p.preview
      case None => Game(idle, g.shots)
      case Some(id) =>
        var paid := PaidRadius(p.config, p.radius, g.shots.world[id].state.radius);
        var h := g.shots.world[id];
        var shots := g.shots.(world := g.shots.world[id := h.(state := Fire(h.state))]);
        var released := idle.(radius := paid, preview := None);
        if !p.hasStarted then Game(released.(hasStarted := true, doorChecks := p.doorChecks + 1), shots)
        else Game(released, shots)
  }

  /** Config values the economy relies on: a non-empty projectile range and
      a coefficient that does not grow the player (the defaults qualify). */
  predicate Sane(cfg: GameplayConfig) {
    cfg.minProjectileRadius <= cfg.maxProjectileRadius && cfg.transferK >= 0.0
  }

  /** The invariant of the economy: a preview exists only while the player
      is above the start margin, and it is affordable; the door check has
      started exactly when the game has. */
  ghost predicate Budget(g: Game) {
    && GameOk(g)
    && (g.player.preview.Some? ==>
          var pr := PreviewRadius(g);
          var cfg := g.player.config;
          && g.player.radius > cfg.minCriticalRadius + StartMargin
          && cfg.minProjectileRadius <= pr
          && (pr - cfg.minProjectileRadius) * cfg.transferK <= g.player.radius - cfg.minCriticalRadius)
    && g.player.doorChecks == (if g.player.hasStarted then 1 else 0)
  }

  /** A release under the budget invariant pays exactly the projectile's
      price: the floor at the critical radius never takes effect. */
  lemma ReleaseExact(g: Game)
    requires Budget(g) && g.player.isCharging && g.player.preview.Some?
    ensures var cfg := g.player.config;
            ReleaseCharge(g).player.radius
              == g.player.radius - (PreviewRadius(g) - cfg.minProjectileRadius) * cfg.transferK
    ensures ReleaseCharge(g).player.radius >= g.player.config.minCriticalRadius
  {
    FloorInactive(g.player.config, g.player.radius, PreviewRadius(g));
  }

  /** One input event as HandleInput dispatches it: a press starts the
      charge; holding and lifting reach UpdateCharge and ReleaseCharge only
      while charging. */
  datatype Input = Press(lookup: bool) | Hold(dt: real) | Lift

  function Step(g: Game, i: Input): (r: Game)
    requires GameOk(g)
    ensures GameOk(r)
  {
    match i
    case Press(lookup) => StartCharge(g, lookup)
    case Hold(dt) => if g.player.isCharging then UpdateCharge(g, dt) else g
    case Lift => if g.player.isCharging then ReleaseCharge(g) else g
  }

  function Run(g: Game, inputs: seq<Input>): (r: Game)
    requires GameOk(g)
    ensures GameOk(r)
    decreases |inputs|
  {
    if inputs == [] then g else Run(Step(g, inputs[0]), inputs[1..])
  }

  /** StartCharge keeps the budget invariant. */
  lemma PressKeepsBudget(g: Game, lookup: bool)
    requires Budget(g)
    ensures Budget(StartCharge(g, lookup))
  {
  }

  /** UpdateCharge keeps the budget invariant: the new preview is affordable. */
  lemma HoldKeepsBudget(g: Game, dt: real)
    requires Budget(g) && Sane(g.player.config)
    ensures Budget(UpdateCharge(g, dt))
  {
    var p := g.player;
    if p.preview.Some? {
      DesiredAffordable(p.config, p.chargeTime + dt, p.radius);
    }
  }

  /** ReleaseCharge keeps the budget invariant and never grows the player. */
  lemma LiftKeepsBudget(g: Game)
    requires Budget(g) && Sane(g.player.config)
    ensures Budget(ReleaseCharge(g))
    ensures ReleaseCharge(g).player.radius <= g.player.radius
  {
    var p := g.player;
    if p.isCharging && p.preview.Some? {
      ReleaseExact(g);
      MulLeft(PreviewRadius(g) - p.config.minProjectileRadius, 0.0, p.config.transferK);
    }
  }

  /** Each handler keeps the budget invariant, and the player never grows. */
  lemma StepKeepsBudget(g: Game, i: Input)
    requires Budget(g) && Sane(g.player.config)
    ensures Budget(Step(g, i))
    ensures Step(g, i).player.config == g.player.config
    ensures Step(g, i).player.radius <= g.player.radius
  {
    match i
    case Press(lookup) => PressKeepsBudget(g, lookup);
    case Hold(dt) => HoldKeepsBudget(g, dt);
    case Lift => LiftKeepsBudget(g);
  }

  /** Over any sequence of presses, holds and releases from the start: the
      budget invariant holds, so the door check starts at most once, and the
      player's radius never grows. */
  lemma {:induction false} RunKeepsBudget(g: Game, inputs: seq<Input>)
    requires Budget(g) && Sane(g.player.config)
    ensures Budget(Run(g, inputs))
    ensures Run(g, inputs).player.doorChecks <= 1
    ensures Run(g, inputs).player.radius <= g.player.radius
    decreases |inputs|
  {
    if inputs != [] {
      StepKeepsBudget(g, inputs[0]);
      RunKeepsBudget(Step(g, inputs[0]), inputs[1..]);
    }
  }

  /** A freshly started player satisfies the budget invariant. */
  lemma StartBudget(cfg: GameplayConfig, hasPool: bool, shots: Shots)
    requires Valid(shots)
    ensures Budget(Game(Start(Some(cfg), hasPool).value, shots))
  {
  }
}
