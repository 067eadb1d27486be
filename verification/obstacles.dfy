/** The live obstacle component (Obstacle/Obstacle.cs) and the reset hook of
    its pool (ObstaclePool). The scene of obstacles is the world of the one
    obstacle pool; a non-null `pool` back-reference is taken to denote it. */
module Obstacles {
  import opened Options
  import opened Numeric
  import opened Geometry
  import opened Pools

  /** `radius` sizes the explosion effect only. The obstacle's collider is a
      sphere around `position` whose radius at unit scale is `reach`; `scale`
      is the uniform scale the transform has accumulated. `foot` is how far
      the origin sits above the DownSpawnPos marker at unit scale, when the
      obstacle has one. */
  datatype Obstacle = Obstacle(position: Point, radius: real, scale: real,
                               exploded: bool, pool: Option<PoolRef>,
                               reach: real, foot: Option<real>)

  /** How far the collider reaches from `position` in world space: a sphere
      collider's radius grows with the absolute scale. */
  function Extent(o: Obstacle): (e: real)
    ensures e >= 0.0
  {
    Abs(o.reach * o.scale)
  }

  /** The same shape: how large it is, its collider and its marker. */
  predicate SameShape(a: Obstacle, b: Obstacle) {
    a.radius == b.radius && a.scale == b.scale && a.reach == b.reach && a.foot == b.foot
  }

  /** The same body: the same shape standing in the same place. Only flags
      and the pool link differ. */
  predicate SameBody(a: Obstacle, b: Obstacle) {
    a.position == b.position && SameShape(a, b)
  }

  /** Every obstacle, pooled or placed, keyed by identity. */
  type Scene = Pool<Obstacle>

  /** ObstaclePool.ResetObject: clear `exploded`, point the back-reference at
      this pool and deactivate. */
  function PoolReset(self: PoolRef, h: Handle<Obstacle>): (r: Handle<Obstacle>)
    ensures !r.active && !r.state.exploded && r.state.pool == Some(self)
    ensures SameBody(r.state, h.state)
  {
    Handle(false, h.state.(exploded := false, pool := Some(self)))
  }

  function ResetHook(self: PoolRef): Hook<Obstacle> {
    h => PoolReset(self, h)
  }

  /** ObstaclePool.Get(pos, rot): the object handed out stands at `pos`
      (moved there when it was queued, instantiated there otherwise) and,
      whatever its prior state, comes back fresh, attached to this pool, and
      inactive (the hook undoes the activation the base Get performed). The
      move does not interact with the activation or the hook, so it is
      applied last. */
  function PoolGet(s: Scene, pos: Point): (r: (Scene, Id))
    requires Valid(s)
    ensures Valid(r.0) && r.1 in r.0.world && r.0.world.Keys == s.world.Keys + {r.1}
    ensures var h := r.0.world[r.1];
            !h.active && !h.state.exploded && h.state.pool == Some(s.self) && h.state.position == pos
    ensures |s.queue| > 0 ==> r.1 == s.queue[0] && r.0.queue == s.queue[1..]
    ensures |s.queue| > 0 ==> SameShape(r.0.world[r.1].state, s.world[r.1].state)
    ensures |s.queue| == 0 ==> r.1 !in s.world && r.0.queue == []
    ensures |s.queue| == 0 ==> SameShape(r.0.world[r.1].state, s.prefab)
    ensures forall id :: id in s.world && id != r.1 ==> r.0.world[id] == s.world[id]
  {
    var (s1, id) := Get(s, ResetHook(s.self));
    var h := s1.world[id];
    (s1.(world := s1.world[id := h.(state := h.state.(position := pos))]), id)
  }

  /** ObstaclePool.Return: a null object is ignored; otherwise the object is
      reset, deactivated and queued at the back. */
  function PoolReturn(s: Scene, obj: Option<Id>): (r: Scene)
    requires Valid(s)
    requires obj.Some? ==> obj.value in s.world
    ensures Valid(r)
    ensures obj.None? ==> r == s
    ensures obj.Some? ==>
      && r.queue == s.queue + [obj.value]
      && r.world.Keys == s.world.Keys
      && !r.world[obj.value].active
      && !r.world[obj.value].state.exploded
      && r.world[obj.value].state.pool == Some(s.self)
      && SameBody(r.world[obj.value].state, s.world[obj.value].state)
      && (forall id :: id in s.world && id != obj.value ==> r.world[id] == s.world[id])
  {
    Return(s, obj, ResetHook(s.self))
  }

  /** Pool round trip: returning any obstacle to an empty pool and getting
      one back yields that same obstacle, not exploded, attached to this
      pool, with its shape and standing where Get asked, whatever state it
      was returned in. */
  lemma PoolRoundTrip(s: Scene, id: Id, pos: Point)
    requires Valid(s) && id in s.world && s.queue == []
    ensures var (s2, got) := PoolGet(PoolReturn(s, Some(id)), pos);
            && got == id
            && !s2.world[id].state.exploded
            && s2.world[id].state.pool == Some(s.self)
            && s2.world[id].state.position == pos
            && SameShape(s2.world[id].state, s.world[id].state)
  {
    ReturnThenGet(s, id, ResetHook(s.self));
  }

  /** The outcome of an explosion: the new scene and, when the explosion took
      effect, the radius passed to the visual effect. */
  datatype Exploded = Exploded(scene: Scene, effect: Option<real>)

  /** Explode(sourceRadius): a no-op once `exploded` is set. Otherwise the flag
      is set first; then the obstacle goes back to its pool (whose hook clears
      the flag again and deactivates it) or, without a pool, is deactivated
      with the flag left set. */
  function Explode(s: Scene, id: Id, sourceRadius: real): (r: Exploded)
    requires Valid(s) && id in s.world
    ensures Valid(r.scene)
    ensures r.scene.world.Keys == s.world.Keys && r.scene.self == s.self
    ensures forall o :: o in s.world && o != id ==> r.scene.world[o] == s.world[o]
    ensures SameBody(r.scene.world[id].state, s.world[id].state)
    ensures s.world[id].state.exploded ==> r == Exploded(s, None)
    ensures !s.world[id].state.exploded ==>
      && r.effect == Some(sourceRadius)
      && !r.scene.world[id].active
    ensures !s.world[id].state.exploded && s.world[id].state.pool.Some? ==>
      && !r.scene.world[id].state.exploded
      && r.scene.world[id].state.pool == Some(s.self)
      && r.scene.queue == s.queue + [id]
    ensures !s.world[id].state.exploded && s.world[id].state.pool.None? ==>
      && r.scene.world[id].state.exploded
      && r.scene.queue == s.queue
  {
    var o := s.world[id].state;
    if o.exploded then Exploded(s, None)
    else
      var flagged := s.(world := s.world[id := s.world[id].(state := o.(exploded := true))]);
      if o.pool.Some? then
        Exploded(PoolReturn(flagged, Some(id)), Some(sourceRadius))
      else
        Exploded(flagged.(world := flagged.world[id := flagged.world[id].(active := false)]),
                 Some(sourceRadius))
  }

  /** Explode(): the explosion effect is sized by the obstacle's own radius. */
  function ExplodeSelf(s: Scene, id: Id): (r: Exploded)
    requires Valid(s) && id in s.world
    ensures !s.world[id].state.exploded ==> r.effect == Some(s.world[id].state.radius)
    ensures r.scene == Explode(s, id, s.world[id].state.radius).scene
  {
    Explode(s, id, s.world[id].state.radius)
  }

  /** HitBy: a projectile hit explodes the obstacle, sizing the effect by the
      projectile's radius. */
  function HitBy(s: Scene, id: Id, projectileRadius: real): (r: Exploded)
    requires Valid(s) && id in s.world
    ensures !s.world[id].state.exploded ==> r.effect == Some(projectileRadius)
    ensures s.world[id].state.exploded ==> r.scene == s
    ensures r.scene == ExplodeSelf(s, id).scene
  {
    Explode(s, id, projectileRadius)
  }

  /** ResetState: clear `exploded` and nothing else. */
  function ResetState(o: Obstacle): (r: Obstacle)
    ensures !r.exploded
    ensures r.(exploded := o.exploded) == o
  {
    o.(exploded := false)
  }

  /** Without a pool, `exploded` latches: a second Explode changes nothing. */
  lemma UnpooledExplodeOnce(s: Scene, id: Id, sourceRadius: real, again: real)
    requires Valid(s) && id in s.world && s.world[id].state.pool.None?
    ensures var first := Explode(s, id, sourceRadius);
            Explode(first.scene, id, again) == Exploded(first.scene, None)
  {
  }

  /** With a pool, the hook clears `exploded` again, so the flag does not
      latch: a second Explode on the same obstacle takes effect again and
      queues it a second time. Only deactivation keeps the chain reaction
      from finding it twice. */
  lemma PooledExplodeDoesNotLatch(s: Scene, id: Id, sourceRadius: real)
    requires Valid(s) && id in s.world && s.world[id].state.pool.Some?
    requires !s.world[id].state.exploded
    ensures var first := Explode(s, id, sourceRadius);
            var second := Explode(first.scene, id, sourceRadius);
            second.effect.Some? && second.scene.queue == s.queue + [id, id]
  {
  }

  /** The obstacles a sphere query can find: those whose GameObject is active. */
  function Live(s: Scene): (live: set<Id>)
    ensures live <= s.world.Keys
  {
    set id | id in s.world && s.world[id].active
  }

  /** In every reachable scene a live obstacle has not exploded: Get resets
      the flag and every Explode deactivates. */
  ghost predicate LiveFresh(s: Scene) {
    forall id :: id in s.world && s.world[id].active ==> !s.world[id].state.exploded
  }

  /** Exploding a live obstacle removes exactly that obstacle from the live
      set and keeps the scene's invariant. */
  lemma ExplodeLive(s: Scene, id: Id, sourceRadius: real)
    requires Valid(s) && LiveFresh(s) && id in Live(s)
    ensures var r := Explode(s, id, sourceRadius);
            && r.effect == Some(sourceRadius)
            && Live(r.scene) == Live(s) - {id}
            && |Live(r.scene)| == |Live(s)| - 1
            && LiveFresh(r.scene)
  {
    var r := Explode(s, id, sourceRadius);
    assert Live(r.scene) == Live(s) - {id};
  }
}
