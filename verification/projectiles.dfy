/** The live projectile (Projectile/Projectile.cs) and its pool
    (ProjectilePool): a record of the flags its engine components carry,
    the lifecycle Init, Fire, trigger hit, timeout and return to the pool,
    and the one-hop explosion a hit sets off.

    The Rigidbody's velocity is kept as its magnitude (0 when at rest); the
    collider and the body are always present (both are required components).
    The projectile is never parented while in flight, so its lossy scale is
    its local scale, which Init makes uniform. */
module Projectiles {
  import opened Options
  import opened Config
  import opened Geometry
  import opened Pools
  import opened Obstacles
  import opened Infection

  datatype Projectile = Projectile(
    radius: real,
    scale: real,                 // uniform transform scale
    fired: bool,
    colliderEnabled: bool,
    kinematic: bool,
    velocity: real,              // speed of the Rigidbody, 0 at rest
    timerPending: bool,          // an AutoReturnCoroutine is running
    subscribers: nat,            // handlers attached to OnHit
    pool: Option<PoolRef>,       // projectilePool
    speed: real,                 // copied from the config by Init
    explosionMultiplier: real,   // copied from the config by Init
    hitLayers: bv32)             // copied from the config by Init

  /** The state Awake leaves a new instance in: field defaults, a kinematic
      body and a disabled collider. */
  function Awakened(scale: real): (p: Projectile)
    ensures Idle(p) && p.subscribers == 0 && p.pool.None?
  {
    Projectile(0.1, scale, false, false, true, 0.0, false, 0, None, 12.0, 3.0, 0)
  }

  /** At rest and harmless: not fired, collider off, kinematic, not moving,
      no lifetime timer. */
  predicate Idle(p: Projectile) {
    !p.fired && !p.colliderEnabled && p.kinematic && p.velocity == 0.0 && !p.timerPending
  }

  /** The fields no reset touches. */
  predicate SameBuild(p: Projectile, q: Projectile) {
    && p.radius == q.radius && p.scale == q.scale && p.pool == q.pool
    && p.speed == q.speed && p.explosionMultiplier == q.explosionMultiplier
    && p.hitLayers == q.hitLayers
  }

  /** The explosion radius: half the largest lossy scale axis, times the
      multiplier. */
  function ExplosionRadius(p: Projectile): real {
    p.scale * 0.5 * p.explosionMultiplier
  }

  /** Init(r, pool): copy the config values, size the projectile to `r`,
      bring it to rest, cancel any timer and remember the pool. Handlers on
      OnHit are kept. */
  function Init(p: Projectile, cfg: GameplayConfig, r: real, pool: Option<PoolRef>): (q: Projectile)
    ensures Idle(q)
    ensures q.radius == r && q.scale == 2.0 * r && q.pool == pool
    ensures q.speed == cfg.projectileSpeed && q.hitLayers == cfg.obstacleLayer
    ensures ExplosionRadius(q) == r * cfg.explosionMultiplier
    ensures q.subscribers == p.subscribers
  {
    p.(speed := cfg.projectileSpeed, explosionMultiplier := cfg.explosionMultiplier,
       hitLayers := cfg.obstacleLayer, radius := r, scale := 2.0 * r, fired := false,
       pool := pool, kinematic := true, velocity := 0.0, colliderEnabled := false,
       timerPending := false)
  }

  /** ResetState: drop the OnHit handlers, cancel the timer and bring the
      projectile to rest. Radius, scale and pool are kept, so a reused
      projectile keeps its old size until the next Init. */
  function ResetState(p: Projectile): (q: Projectile)
    ensures Idle(q) && q.subscribers == 0
    ensures SameBuild(q, p)
    ensures Idle(p) && p.subscribers == 0 ==> q == p
  {
    p.(subscribers := 0, timerPending := false, fired := false, kinematic := true,
       velocity := 0.0, colliderEnabled := false)
  }

  /** Fire: a fired projectile ignores it. Otherwise it is armed, launched at
      its speed and given one lifetime timer (replacing any earlier one). */
  function Fire(p: Projectile): (q: Projectile)
    ensures p.fired ==> q == p
    ensures !p.fired ==>
      && q.fired && q.colliderEnabled && !q.kinematic && q.velocity == p.speed && q.timerPending
      && SameBuild(q, p) && q.subscribers == p.subscribers
  {
    if p.fired then p
    else p.(fired := true, colliderEnabled := true, kinematic := false,
            velocity := p.speed, timerPending := true)
  }

  /** Repeating Init with the same arguments changes nothing. */
  lemma InitIdempotent(p: Projectile, cfg: GameplayConfig, r: real, pool: Option<PoolRef>)
    ensures Init(Init(p, cfg, r, pool), cfg, r, pool) == Init(p, cfg, r, pool)
  {
  }

  /** A second Fire changes nothing: a fired projectile is launched once and
      has one timer. */
  lemma FireOnce(p: Projectile)
    ensures Fire(Fire(p)) == Fire(p)
  {
  }

  /** Projectiles live in the projectile pool's scene. */
  type Shots = Pool<Projectile>

  /** ProjectilePool.ResetObject: delegate to ResetState; the active flag is
      left to the pool. */
  function ResetHook(): Hook<Projectile> {
    (h: Handle<Projectile>) => Handle(h.active, ResetState(h.state))
  }

  /** ProjectilePool.Get: the projectile handed out is active and at rest,
      with no handlers, and keeps the size it had. */
  function PoolGet(s: Shots): (r: (Shots, Id))
    requires Valid(s)
    ensures Valid(r.0) && r.1 in r.0.world && r.0.world.Keys == s.world.Keys + {r.1}
    ensures forall id :: id in s.world && id != r.1 ==> r.0.world[id] == s.world[id]
    ensures r.0.self == s.self
    ensures r.0.world[r.1].active && Idle(r.0.world[r.1].state) && r.0.world[r.1].state.subscribers == 0
    ensures |s.queue| > 0 ==> r.1 == s.queue[0] && SameBuild(r.0.world[r.1].state, s.world[r.1].state)
    ensures |s.queue| == 0 ==> SameBuild(r.0.world[r.1].state, s.prefab)
  {
    Get(s, ResetHook())
  }

  /** ProjectilePool.Return: a null object is ignored; otherwise the
      projectile is reset, deactivated and queued at the back. */
  function PoolReturn(s: Shots, obj: Option<Id>): (r: Shots)
    requires Valid(s)
    requires obj.Some? ==> obj.value in s.world
    ensures Valid(r) && r.world.Keys == s.world.Keys && r.self == s.self
    ensures obj.None? ==> r == s
    ensures obj.Some? ==>
      && r.queue == s.queue + [obj.value]
      && !r.world[obj.value].active
      && Idle(r.world[obj.value].state) && r.world[obj.value].state.subscribers == 0
      && SameBuild(r.world[obj.value].state, s.world[obj.value].state)
      && forall id :: id in s.world && id != obj.value ==> r.world[id] == s.world[id]
  {
    Return(s, obj, ResetHook())
  }

  /** Round trip through the pool: a projectile returned to an empty pool is
      the next one handed out, active, at rest, without handlers and with
      its old size. */
  lemma PoolRoundTrip(s: Shots, id: Id)
    requires Valid(s) && id in s.world && s.queue == []
    ensures var (s2, got) := PoolGet(PoolReturn(s, Some(id)));
            && got == id && s2.world[id].active
            && Idle(s2.world[id].state) && s2.world[id].state.subscribers == 0
            && SameBuild(s2.world[id].state, s.world[id].state)
  {
  }

  /** ReturnToPool: bring the projectile to rest and cancel its timer, then
      hand it to its pool, or deactivate it when it has none. Only the pool
      drops its OnHit handlers. */
  function ReturnToPool(s: Shots, id: Id): (r: Shots)
    requires Valid(s) && id in s.world
    ensures Valid(r) && r.world.Keys == s.world.Keys && r.self == s.self
    ensures forall o :: o in s.world && o != id ==> r.world[o] == s.world[o]
    ensures !r.world[id].active && Idle(r.world[id].state)
    ensures SameBuild(r.world[id].state, s.world[id].state)
    ensures s.world[id].state.pool.Some? ==>
      r.queue == s.queue + [id] && r.world[id].state.subscribers == 0
    ensures s.world[id].state.pool.None? ==>
      r.queue == s.queue && r.world[id].state.subscribers == s.world[id].state.subscribers
  {
    var p := s.world[id].state;
    var stopped := p.(fired := false, timerPending := false, velocity := 0.0,
                      kinematic := true, colliderEnabled := false);
    var s1 := s.(world := s.world[id := s.world[id].(state := stopped)]);
    if p.pool.Some? then PoolReturn(s1, Some(id))
    else s1.(world := s1.world[id := s1.world[id].(active := false)])
  }

  /** The lifetime timer running out (AutoReturnCoroutine): without a
      pending timer nothing happens; an inactive projectile only loses its
      timer; an active one goes back to the pool with no explosion. */
  function Timeout(s: Shots, id: Id): (r: Shots)
    requires Valid(s) && id in s.world
    ensures Valid(r) && r.world.Keys == s.world.Keys
    ensures forall o :: o in s.world && o != id ==> r.world[o] == s.world[o]
    ensures !s.world[id].state.timerPending ==> r == s
    ensures s.world[id].state.timerPending && !s.world[id].active ==>
      r.queue == s.queue && r.world[id] == s.world[id].(state := s.world[id].state.(timerPending := false))
    ensures s.world[id].state.timerPending && s.world[id].active ==>
      !r.world[id].active && Idle(r.world[id].state)
  {
    var h := s.world[id];
    if !h.state.timerPending then s
    else if !h.active then s.(world := s.world[id := h.(state := h.state.(timerPending := false))])
    else ReturnToPool(s, id)
  }

  /** A full sphere query (Physics.OverlapSphere on the obstacle layer): no
      capacity limit. */
  ghost predicate FullAnswer(res: seq<Id>, c: Point, r: real, live: set<Id>, s: Scene)
    requires live <= s.world.Keys
  {
    && Distinct(res)
    && (forall i :: 0 <= i < |res| ==> res[i] in live && Overlaps(c, r, Pos(s, res[i]), Ext(s, res[i])))
    && (forall id :: id in live && Overlaps(c, r, Pos(s, id), Ext(s, id)) ==> id in res)
  }

  ghost predicate FullOracle(sphere: Query, s: Scene) {
    forall c, r, live :: live <= s.world.Keys ==> FullAnswer(sphere(c, r, live), c, r, live, s)
  }

  /** HitBy on each obstacle of `hits` in turn, with the projectile's radius. */
  function HitAll(s: Scene, hits: seq<Id>, projectileRadius: real): (r: Scene)
    requires Valid(s) && InWorld(hits, s)
    ensures Valid(r) && SamePlaces(r, s)
    ensures forall id :: id in s.world && id !in hits ==> r.world[id] == s.world[id]
    decreases |hits|
  {
    if hits == [] then s
    else
      var s1 := HitBy(s, hits[0], projectileRadius).scene;
      ExplodePlaces(s, hits[0], projectileRadius);
      HitAll(s1, hits[1..], projectileRadius)
  }

  /** The set bookkeeping of one HitAll step: `t` is the scene after the
      head of `hits` exploded. */
  lemma HitAllStep(s: Scene, t: Scene, hits: seq<Id>)
    requires |hits| > 0 && Distinct(hits) && Elems(hits) <= Live(s)
    requires t.world.Keys == s.world.Keys && Live(t) == Live(s) - {hits[0]}
    ensures InWorld(hits[1..], t) && Distinct(hits[1..]) && Elems(hits[1..]) <= Live(t)
    ensures Live(t) - Elems(hits[1..]) == Live(s) - Elems(hits)
  {
    DistinctTail(hits);
    forall j | 0 <= j < |hits[1..]| ensures hits[1..][j] in t.world {
      assert hits[1..][j] in Elems(hits[1..]);
    }
  }

  /** HitBy on distinct live obstacles explodes exactly those. */
  lemma {:induction false} HitAllLive(s: Scene, hits: seq<Id>, projectileRadius: real)
    requires Valid(s) && LiveFresh(s) && InWorld(hits, s)
    requires Distinct(hits) && Elems(hits) <= Live(s)
    ensures LiveFresh(HitAll(s, hits, projectileRadius))
    ensures Live(HitAll(s, hits, projectileRadius)) == Live(s) - Elems(hits)
    decreases |hits|
  {
    if hits != [] {
      var id := hits[0];
      assert id in Elems(hits);
      ExplodeLive(s, id, projectileRadius);
      var s1 := HitBy(s, id, projectileRadius).scene;
      HitAllStep(s, s1, hits);
      HitAllLive(s1, hits[1..], projectileRadius);
    }
  }

  /** What a trigger collider belongs to. */
  datatype Target = ObstacleHit(id: Id) | Hittable(key: nat) | Plain

  /** The other collider of a trigger event: its layer, what it belongs to,
      and its point closest to the projectile. */
  datatype Other = Other(layer: nat, target: Target, closest: Point)

  /** What a hit does beyond the two scenes, in order. */
  datatype Event =
    | HitObstacle(id: Id, sourceRadius: real)
    | HitTarget(key: nat, sourceRadius: real)
    | Blast(center: Point, radius: real)
    | Notified(subscribers: nat)

  datatype World = World(shots: Shots, scene: Scene)

  datatype Outcome = Outcome(world: World, events: seq<Event>)

  ghost predicate WorldOk(w: World) {
    Valid(w.shots) && Valid(w.scene) && LiveFresh(w.scene)
  }

  /** Where the explosion of a hit is centred. */
  function BlastCenter(s: Scene, other: Other): Point
    requires other.target.ObstacleHit? ==> other.target.id in s.world
  {
    match other.target
    case ObstacleHit(id) => Pos(s, id)
    case _ => other.closest
  }

  /** The scene after the hit target itself is struck. */
  function Struck(s: Scene, other: Other, projectileRadius: real): (r: Scene)
    requires Valid(s)
    requires other.target.ObstacleHit? ==> other.target.id in s.world
    ensures Valid(r) && SamePlaces(r, s)
  {
    match other.target
    case ObstacleHit(id) => HitBy(s, id, projectileRadius).scene
    case _ => s
  }

  /** The event for the hit target itself. */
  function TargetEvents(other: Other, projectileRadius: real): seq<Event> {
    match other.target
    case ObstacleHit(id) => [HitObstacle(id, projectileRadius)]
    case Hittable(k) => [HitTarget(k, projectileRadius)]
    case Plain => []
  }

  function HitEvents(hits: seq<Id>, projectileRadius: real): (r: seq<Event>)
    ensures |r| == |hits|
    ensures forall i :: 0 <= i < |hits| ==> r[i] == HitObstacle(hits[i], projectileRadius)
  {
    if hits == [] then [] else [HitObstacle(hits[0], projectileRadius)] + HitEvents(hits[1..], projectileRadius)
  }

  /** OnTriggerEnter. The trigger is ignored unless the projectile is fired
      and the other collider's layer is in `hitLayers`. Otherwise: the
      target's HitBy; one explosion around the target, whose single sphere
      query strikes every obstacle found (no chaining); the OnHit event;
      and the return to the pool. */
  function OnTriggerEnter(w: World, shot: Id, other: Other, sphere: Query): (r: Outcome)
    requires WorldOk(w) && shot in w.shots.world
    requires other.layer < 32
    requires other.target.ObstacleHit? ==> other.target.id in w.scene.world
    requires FullOracle(sphere, w.scene)
    ensures var p := w.shots.world[shot].state;
            !p.fired || !InMask(p.hitLayers, other.layer) ==> r == Outcome(w, [])
    ensures var p := w.shots.world[shot].state;
            p.fired && InMask(p.hitLayers, other.layer) ==>
              && r.world.shots == ReturnToPool(w.shots, shot)
              && Valid(r.world.scene) && SamePlaces(r.world.scene, w.scene)
  {
    var p := w.shots.world[shot].state;
    if !p.fired || !InMask(p.hitLayers, other.layer) then Outcome(w, [])
    else
      var s1 := Struck(w.scene, other, p.radius);
      var center := BlastCenter(w.scene, other);
      var rad := ExplosionRadius(p);
      var live := Live(s1);
      var hits := sphere(center, rad, live);
      assert FullAnswer(hits, center, rad, live, w.scene);
      var notified := if p.subscribers > 0 then [Notified(p.subscribers)] else [];
      Outcome(World(ReturnToPool(w.shots, shot), HitAll(s1, hits, p.radius)),
              TargetEvents(other, p.radius) + [Blast(center, rad)] + HitEvents(hits, p.radius) + notified)
  }

  /** Number of explosions among `events`. */
  function Blasts(events: seq<Event>): (n: nat)
    ensures n <= |events|
  {
    if events == [] then 0 else (if events[0].Blast? then 1 else 0) + Blasts(events[1..])
  }

  lemma {:induction false} BlastsAppend(a: seq<Event>, b: seq<Event>)
    ensures Blasts(a + b) == Blasts(a) + Blasts(b)
    decreases |a|
  {
    if a == [] {
      assert a + b == b;
    } else {
      assert (a + b)[1..] == a[1..] + b;
      BlastsAppend(a[1..], b);
    }
  }

  lemma {:induction false} HitEventsNoBlast(hits: seq<Id>, projectileRadius: real)
    ensures Blasts(HitEvents(hits, projectileRadius)) == 0
    decreases |hits|
  {
    if hits != [] {
      HitEventsNoBlast(hits[1..], projectileRadius);
    }
  }

  /** A hit's event list holds exactly one explosion. */
  lemma EventsBlasts(first: seq<Event>, blast: Event, mid: seq<Event>, notified: seq<Event>)
    requires |first| <= 1 && (forall e :: e in first ==> !e.Blast?) && blast.Blast?
    requires Blasts(mid) == 0 && Blasts(notified) == 0
    ensures Blasts(first + [blast] + mid + notified) == 1
  {
    BlastsAppend(first + [blast] + mid, notified);
    BlastsAppend(first + [blast], mid);
    BlastsAppend(first, [blast]);
    assert Blasts(first) == 0 by {
      if first != [] {
        assert first[0] in first;
        assert first[1..] == [];
      }
    }
    assert Blasts([blast]) == 1 by {
      assert [blast][1..] == [];
    }
  }

  /** Where each part of a hit's event list sits. */
  lemma EventsOrder(first: seq<Event>, blast: Event, hits: seq<Id>, projectileRadius: real,
                    notified: seq<Event>, subscribers: nat)
    requires blast.Blast?
    requires notified == if subscribers > 0 then [Notified(subscribers)] else []
    ensures var evs := first + [blast] + HitEvents(hits, projectileRadius) + notified;
            && |evs| > |first|
            && evs[..|first|] == first && evs[|first|] == blast
            && (subscribers > 0 <==> evs[|evs| - 1].Notified?)
            && forall i :: |first| < i < |evs| ==> evs[i].HitObstacle? || evs[i] == Notified(subscribers)
  {
    var mid := HitEvents(hits, projectileRadius);
    var evs := first + [blast] + mid + notified;
    assert evs[..|first|] == first;
    forall i | |first| < i < |evs|
      ensures evs[i].HitObstacle? || evs[i] == Notified(subscribers)
    {
      if i < |first| + 1 + |mid| {
        assert evs[i] == mid[i - |first| - 1];
      } else {
        assert evs[i] == notified[i - |first| - 1 - |mid|];
      }
    }
    if subscribers == 0 {
      assert evs == first + [blast] + mid;
      if |mid| > 0 {
        assert evs[|evs| - 1] == mid[|mid| - 1];
      }
    }
  }

  /** The order of a qualifying hit: the target's own HitBy (if it has one)
      first, then exactly one explosion, sized from the projectile and
      centred on the target, then a HitBy for each obstacle the explosion
      found, and the OnHit event last exactly when someone subscribed. */
  lemma TriggerOrder(w: World, shot: Id, other: Other, sphere: Query)
    requires WorldOk(w) && shot in w.shots.world
    requires other.layer < 32
    requires other.target.ObstacleHit? ==> other.target.id in w.scene.world
    requires FullOracle(sphere, w.scene)
    requires w.shots.world[shot].state.fired
    requires InMask(w.shots.world[shot].state.hitLayers, other.layer)
    ensures var p := w.shots.world[shot].state;
            var r := OnTriggerEnter(w, shot, other, sphere);
            var k := |TargetEvents(other, p.radius)|;
            && k <= 1 && |r.events| > k
            && r.events[..k] == TargetEvents(other, p.radius)
            && r.events[k] == Blast(BlastCenter(w.scene, other), ExplosionRadius(p))
            && Blasts(r.events) == 1
            && (p.subscribers > 0 <==> r.events[|r.events| - 1].Notified?)
            && forall i :: k < i < |r.events| ==> r.events[i].HitObstacle? || r.events[i] == Notified(p.subscribers)
  {
    var p := w.shots.world[shot].state;
    var s1 := Struck(w.scene, other, p.radius);
    var center := BlastCenter(w.scene, other);
    var rad := ExplosionRadius(p);
    var hits := sphere(center, rad, Live(s1));
    var notified := if p.subscribers > 0 then [Notified(p.subscribers)] else [];
    HitEventsNoBlast(hits, p.radius);
    assert Blasts(notified) == 0 by {
      if notified != [] {
        assert notified[1..] == [];
      }
    }
    EventsBlasts(TargetEvents(other, p.radius), Blast(center, rad), HitEvents(hits, p.radius), notified);
    EventsOrder(TargetEvents(other, p.radius), Blast(center, rad), hits, p.radius, notified, p.subscribers);
  }

  /** A qualifying hit on a live obstacle, or on anything else, leaves
      exactly these obstacles live: those live before, except the target and
      every obstacle within the explosion radius of the blast centre. There
      is no chaining: an obstacle outside the sphere survives even when it
      is close to one that exploded. */
  lemma TriggerBlast(w: World, shot: Id, other: Other, sphere: Query)
    requires WorldOk(w) && shot in w.shots.world
    requires other.layer < 32
    requires other.target.ObstacleHit? ==> other.target.id in Live(w.scene)
    requires FullOracle(sphere, w.scene)
    requires w.shots.world[shot].state.fired
    requires InMask(w.shots.world[shot].state.hitLayers, other.layer)
    ensures var p := w.shots.world[shot].state;
            var r := OnTriggerEnter(w, shot, other, sphere);
            && LiveFresh(r.world.scene)
            && forall id :: id in w.scene.world ==>
                 (id in Live(r.world.scene) <==>
                    && id in Live(w.scene)
                    && other.target != ObstacleHit(id)
                    && !Overlaps(BlastCenter(w.scene, other), ExplosionRadius(p), Pos(w.scene, id), Ext(w.scene, id)))
  {
    var p := w.shots.world[shot].state;
    var s1 := Struck(w.scene, other, p.radius);
    var center := BlastCenter(w.scene, other);
    var rad := ExplosionRadius(p);
    var hits := sphere(center, rad, Live(s1));
    assert FullAnswer(hits, center, rad, Live(s1), w.scene);
    if other.target.ObstacleHit? {
      ExplodeLive(w.scene, other.target.id, p.radius);
      assert Live(s1) == Live(w.scene) - {other.target.id};
    } else {
      assert Live(s1) == Live(w.scene);
    }
    assert InWorld(hits, s1) by {
      forall j | 0 <= j < |hits| ensures hits[j] in s1.world {
        assert hits[j] in Live(s1);
      }
    }
    assert Elems(hits) <= Live(s1);
    HitAllLive(s1, hits, p.radius);
    assert OnTriggerEnter(w, shot, other, sphere).world.scene == HitAll(s1, hits, p.radius);
  }
}
