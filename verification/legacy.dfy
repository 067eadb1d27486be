/** The legacy entity classes (GameProcess/Obstacle.cs, GameProcess/Projectile.cs)
    and the legacy pool of plain GameObjects (SimpleObjectPool). They differ
    from the live classes in small but visible ways: the legacy obstacle
    keeps its pool privately and only accepts an obstacle pool; the legacy
    projectile has no fire-once guard, never touches its collider in Init,
    and its reset re-enables the collider. */
module Legacy {
  import opened Options
  import opened Config
  import opened Pools

  // ---------------------------------------------------------------- obstacle

  datatype LegacyObstacle = LegacyObstacle(exploded: bool, radius: real, pool: Option<PoolRef>)

  /** What kind of pool SetPool is handed. */
  datatype PoolKind = ObstaclePoolKind(ref: PoolRef) | OtherPoolKind(ref: PoolRef)

  /** SetPool: keep the pool only when it is an obstacle pool (the `as` cast
      yields null otherwise). */
  function SetPool(o: LegacyObstacle, candidate: PoolKind): (r: LegacyObstacle)
    ensures candidate.ObstaclePoolKind? ==> r.pool == Some(candidate.ref)
    ensures candidate.OtherPoolKind? ==> r.pool.None?
    ensures r.exploded == o.exploded && r.radius == o.radius
  {
    o.(pool := if candidate.ObstaclePoolKind? then Some(candidate.ref) else None)
  }

  /** The legacy obstacles' scene. Which ResetObject the pool runs on them
      is passed in as `reset`. */
  type Field = Pool<LegacyObstacle>

  /** Explode: a no-op once exploded; otherwise latch `exploded`, then
      return to the pool or deactivate. */
  function Explode(s: Field, id: Id, reset: Hook<LegacyObstacle>): (r: Field)
    requires Valid(s) && id in s.world
    ensures Valid(r) && r.world.Keys == s.world.Keys
    ensures forall o :: o in s.world && o != id ==> r.world[o] == s.world[o]
    ensures s.world[id].state.exploded ==> r == s
    ensures !s.world[id].state.exploded && s.world[id].state.pool.Some? ==>
      && r.queue == s.queue + [id]
      && r.world[id] == reset(s.world[id].(state := s.world[id].state.(exploded := true))).(active := false)
    ensures !s.world[id].state.exploded && s.world[id].state.pool.None? ==>
      && r.queue == s.queue
      && !r.world[id].active && r.world[id].state.exploded
  {
    var o := s.world[id].state;
    if o.exploded then s
    else
      var flagged := s.(world := s.world[id := s.world[id].(state := o.(exploded := true))]);
      if o.pool.Some? then Return(flagged, Some(id), reset)
      else flagged.(world := flagged.world[id := flagged.world[id].(active := false)])
  }

  /** HitBy: whatever the projectile, the obstacle simply explodes: a hit
      on an exploded obstacle changes nothing; any other hit leaves the
      obstacle inactive, queued in its pool when it has one and latched
      exploded when it has none, and touches no other object. */
  function HitBy(s: Field, id: Id, projectileRadius: real, reset: Hook<LegacyObstacle>): (r: Field)
    requires Valid(s) && id in s.world
    ensures Valid(r) && r.world.Keys == s.world.Keys
    ensures forall o :: o in s.world && o != id ==> r.world[o] == s.world[o]
    ensures s.world[id].state.exploded ==> r == s
    ensures !s.world[id].state.exploded ==> !r.world[id].active
    ensures !s.world[id].state.exploded && s.world[id].state.pool.Some? ==> r.queue == s.queue + [id]
    ensures !s.world[id].state.exploded && s.world[id].state.pool.None? ==>
      r.queue == s.queue && r.world[id].state.exploded
  {
    Explode(s, id, reset)
  }

  /** Unlike the live obstacle, the legacy one ignores the projectile's
      size: a second hit by any other projectile leaves no further trace
      while the flag is latched. */
  lemma HitByIgnoresRadius(s: Field, id: Id, a: real, b: real, reset: Hook<LegacyObstacle>)
    requires Valid(s) && id in s.world
    ensures HitBy(s, id, a, reset) == HitBy(s, id, b, reset)
    ensures s.world[id].state.exploded ==> HitBy(s, id, a, reset) == s
  {
  }

  /** Without a pool the legacy `exploded` flag latches: Explode then HitBy
      explodes once. */
  lemma UnpooledHitAfterExplode(s: Field, id: Id, projectileRadius: real, reset: Hook<LegacyObstacle>)
    requires Valid(s) && id in s.world && s.world[id].state.pool.None?
    ensures HitBy(Explode(s, id, reset), id, projectileRadius, reset) == Explode(s, id, reset)
  {
  }

  // -------------------------------------------------------------- projectile

  datatype LegacyProjectile = LegacyProjectile(
    radius: real,
    scale: real,
    fired: bool,
    colliderEnabled: bool,
    kinematic: bool,
    velocity: real,
    timerPending: bool,
    timerStarts: nat,      // lifetime timers started so far
    subscribers: nat,
    speed: real,
    hitLayers: bv32)

  /** Init(r): size the projectile and make it kinematic and unfired. The
      timer, the collider and the velocity are left as they were. */
  function Init(p: LegacyProjectile, r: real): (q: LegacyProjectile)
    ensures q.radius == r && q.scale == 2.0 * r && !q.fired && q.kinematic
    ensures q.timerPending == p.timerPending && q.colliderEnabled == p.colliderEnabled
    ensures q.velocity == p.velocity && q.subscribers == p.subscribers
  {
    p.(radius := r, scale := 2.0 * r, fired := false, kinematic := true)
  }

  /** ResetState: drop the handlers, cancel the timer, clear `fired`, and
      enable the collider. The body is left as it was. */
  function ResetState(p: LegacyProjectile): (q: LegacyProjectile)
    ensures !q.fired && !q.timerPending && q.subscribers == 0 && q.colliderEnabled
    ensures q.kinematic == p.kinematic && q.velocity == p.velocity
    ensures q.radius == p.radius && q.scale == p.scale && q.timerStarts == p.timerStarts
  {
    p.(subscribers := 0, timerPending := false, fired := false, colliderEnabled := true)
  }

  /** Fire: no guard; every call launches the projectile and starts a new
      lifetime timer in place of the previous one. */
  function Fire(p: LegacyProjectile): (q: LegacyProjectile)
    ensures q.fired && !q.kinematic && q.velocity == p.speed && q.timerPending
    ensures q.timerStarts == p.timerStarts + 1
    ensures q.colliderEnabled == p.colliderEnabled && q.radius == p.radius
  {
    p.(fired := true, kinematic := false, velocity := p.speed, timerPending := true,
       timerStarts := p.timerStarts + 1)
  }

  /** A second Fire restarts the timer again. */
  lemma FireRestarts(p: LegacyProjectile)
    ensures Fire(Fire(p)).timerStarts == p.timerStarts + 2
    ensures Fire(Fire(p)) == Fire(p).(timerStarts := p.timerStarts + 2)
  {
  }

  // ---------------------------------------------------------- the GameObject pool

  /** A pooled GameObject, which may or may not carry a projectile. */
  datatype Go = Go(projectile: Option<LegacyProjectile>)

  type Simple = Pool<Go>

  /** The reset SimpleObjectPool applies on Get and Return: ResetState on the
      projectile when there is one. */
  function SimpleReset(h: Handle<Go>): (r: Handle<Go>)
    ensures r.active == h.active && r.state.projectile.Some? == h.state.projectile.Some?
    ensures h.state.projectile.Some? ==> r.state.projectile.value == ResetState(h.state.projectile.value)
    ensures h.state.projectile.None? ==> r == h
  {
    match h.state.projectile
    case None => h
    case Some(p) => Handle(h.active, Go(Some(ResetState(p))))
  }

  function SimpleHook(): Hook<Go> {
    (h: Handle<Go>) => SimpleReset(h)
  }

  /** SimpleObjectPool.Awake: `initialSize` inactive copies of the prefab,
      queued in creation order. */
  function SimpleAwake(self: PoolRef, initialSize: int, prefab: Go): (s: Simple)
    ensures Valid(s)
    ensures |s.queue| == (if initialSize < 0 then 0 else initialSize)
    ensures forall id :: id in s.world ==> !s.world[id].active && s.world[id].state == prefab
  {
    Awake(self, initialSize, prefab)
  }

  /** SimpleObjectPool.Get: FIFO or instantiate, never null; the object is
      active and its projectile, if any, is reset. */
  function SimpleGet(s: Simple): (r: (Simple, Id))
    requires Valid(s)
    ensures Valid(r.0) && r.1 in r.0.world && r.0.world.Keys == s.world.Keys + {r.1}
    ensures r.0.world[r.1].active
    ensures |s.queue| > 0 ==> r.1 == s.queue[0] && r.0.queue == s.queue[1..]
    ensures |s.queue| == 0 ==> r.1 !in s.world && r.0.queue == []
    ensures r.0.world[r.1].state.projectile.Some? ==>
      var p := r.0.world[r.1].state.projectile.value;
      !p.fired && !p.timerPending && p.subscribers == 0 && p.colliderEnabled
  {
    Get(s, SimpleHook())
  }

  /** SimpleObjectPool.Return: null is ignored; otherwise reset, deactivate
      and enqueue. */
  function SimpleReturn(s: Simple, obj: Option<Id>): (r: Simple)
    requires Valid(s)
    requires obj.Some? ==> obj.value in s.world
    ensures Valid(r) && r.world.Keys == s.world.Keys
    ensures obj.None? ==> r == s
    ensures obj.Some? ==>
      && r.queue == s.queue + [obj.value]
      && |r.queue| == |s.queue| + 1
      && !r.world[obj.value].active
      && r.world[obj.value] == SimpleReset(s.world[obj.value]).(active := false)
      && forall o :: o in s.world && o != obj.value ==> r.world[o] == s.world[o]
  {
    Return(s, obj, SimpleHook())
  }

  // -------------------------------------------------------------- hits

  /** What a trigger collider belongs to: a legacy obstacle, another IHitble,
      or something without the hit contract. */
  datatype Target = ObstacleHit(id: Id) | Hittable(key: nat) | Plain

  datatype Other = Other(layer: nat, target: Target)

  datatype Event = HitTarget(key: nat) | Notified(subscribers: nat)

  datatype World = World(shots: Simple, field: Field)

  datatype Outcome = Outcome(world: World, events: seq<Event>)

  /** The projectile GameObject `id` is in the world and carries a projectile. */
  ghost predicate Armed(s: Simple, id: Id) {
    id in s.world && s.world[id].state.projectile.Some?
  }

  /** Bring projectile `id` to rest after a hit or a timeout, then hand it to
      the pool when the lookup finds one, or destroy it. `disable` says
      whether the collider is disabled first (the hit path does, the
      timeout path does not). */
  function Retire(s: Simple, id: Id, disable: bool, poolFound: bool): (r: Simple)
    requires Valid(s) && Armed(s, id)
    requires !poolFound ==> id !in s.queue
    ensures Valid(r)
    ensures forall o :: o in s.world && o != id ==> o in r.world && r.world[o] == s.world[o]
    ensures poolFound ==>
      && r.queue == s.queue + [id] && Armed(r, id) && !r.world[id].active
      && var p := r.world[id].state.projectile.value;
         !p.fired && !p.timerPending && p.velocity == 0.0 && p.kinematic
         && p.subscribers == 0 && p.colliderEnabled
    ensures !poolFound ==> r.world.Keys == s.world.Keys - {id} && r.queue == s.queue
  {
    var p := s.world[id].state.projectile.value;
    var stopped := p.(fired := false, timerPending := false, velocity := 0.0, kinematic := true,
                      colliderEnabled := if disable then false else p.colliderEnabled);
    var s1 := s.(world := s.world[id := s.world[id].(state := Go(Some(stopped)))]);
    if poolFound then SimpleReturn(s1, Some(id))
    else s1.(world := s1.world - {id})
  }

  /** OnTriggerEnter of the legacy projectile. Ignored unless fired and the
      layer is in `hitLayers`; otherwise HitBy on an IHitble target, the
      OnHit event, and the projectile retires (collider disabled first).
      `poolFound` is the result of looking the pool up in the registry. */
  function OnTriggerEnter(w: World, shot: Id, other: Other, poolFound: bool,
                          reset: Hook<LegacyObstacle>): (r: Outcome)
    requires Valid(w.shots) && Armed(w.shots, shot) && Valid(w.field)
    requires other.layer < 32
    requires other.target.ObstacleHit? ==> other.target.id in w.field.world
    requires !poolFound ==> shot !in w.shots.queue
    ensures var p := w.shots.world[shot].state.projectile.value;
            !p.fired || !InMask(p.hitLayers, other.layer) ==> r == Outcome(w, [])
    ensures var p := w.shots.world[shot].state.projectile.value;
            p.fired && InMask(p.hitLayers, other.layer) ==>
              && r.world.shots == Retire(w.shots, shot, true, poolFound)
              && (other.target.ObstacleHit? ==>
                    r.world.field == HitBy(w.field, other.target.id, p.radius, reset))
              && (!other.target.ObstacleHit? ==> r.world.field == w.field)
              && (other.target.Hittable? ==> |r.events| > 0 && r.events[0] == HitTarget(other.target.key))
              && (p.subscribers > 0 <==> |r.events| > 0 && r.events[|r.events| - 1] == Notified(p.subscribers))
  {
    var p := w.shots.world[shot].state.projectile.value;
    if !p.fired || !InMask(p.hitLayers, other.layer) then Outcome(w, [])
    else
      var field := if other.target.ObstacleHit? then HitBy(w.field, other.target.id, p.radius, reset) else w.field;
      var first := if other.target.Hittable? then [HitTarget(other.target.key)] else [];
      var notified := if p.subscribers > 0 then [Notified(p.subscribers)] else [];
      Outcome(World(Retire(w.shots, shot, true, poolFound), field), first + notified)
  }

  /** The lifetime timer of the legacy projectile running out: nothing
      without a pending timer; an inactive projectile only loses it; an
      active one is stopped (its collider untouched) and retires. */
  function Timeout(s: Simple, id: Id, poolFound: bool): (r: Simple)
    requires Valid(s) && Armed(s, id)
    requires !poolFound && s.world[id].active ==> id !in s.queue
    ensures Valid(r)
    ensures !s.world[id].state.projectile.value.timerPending ==> r == s
    ensures s.world[id].state.projectile.value.timerPending && !s.world[id].active ==>
      r.world.Keys == s.world.Keys && r.queue == s.queue && Armed(r, id)
      && !r.world[id].state.projectile.value.timerPending
    ensures s.world[id].state.projectile.value.timerPending && s.world[id].active ==>
      r == Retire(s, id, false, poolFound)
  {
    var h := s.world[id];
    var p := h.state.projectile.value;
    if !p.timerPending then s
    else if !h.active then s.(world := s.world[id := h.(state := Go(Some(p.(timerPending := false))))])
    else Retire(s, id, false, poolFound)
  }

  /** The hit path disables the collider so that the pooled projectile
      cannot trigger again, but the pool's reset enables it straight away:
      a projectile retired into the pool after a hit always has its
      collider enabled (harmless, since it is inactive). */
  lemma PooledHitReenablesCollider(w: World, shot: Id, other: Other, reset: Hook<LegacyObstacle>)
    requires Valid(w.shots) && Armed(w.shots, shot) && Valid(w.field)
    requires other.layer < 32
    requires other.target.ObstacleHit? ==> other.target.id in w.field.world
    requires w.shots.world[shot].state.projectile.value.fired
    requires InMask(w.shots.world[shot].state.projectile.value.hitLayers, other.layer)
    ensures var r := OnTriggerEnter(w, shot, other, true, reset);
            && Armed(r.world.shots, shot)
            && !r.world.shots.world[shot].active
            && r.world.shots.world[shot].state.projectile.value.colliderEnabled
  {
  }
}
