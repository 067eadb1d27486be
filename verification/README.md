# Test_Shoot_Ball: the game logic in Dafny

This project models the game logic of Test_Shoot_Ball, a Unity arcade game. The player is a ball. Holding the button grows a projectile at the cost of the player's own radius, and releasing it fires the projectile. The projectile explodes obstacles on impact. Obstacles and projectiles are recycled through object pools. The model covers these parts:

- **Pools** (`pools.dfy`): `ObjectPool<T>`, a FIFO queue of inactive objects. It grows on demand and runs a kind-specific reset hook (`ResetObject`) on every `Get` and `Return`. The world holds every object the pool ever made, keyed by identity, with its active flag.
- **Obstacles** (`obstacles.dfy`): the live obstacle (`Obstacle/Obstacle.cs`) and the reset hook of its pool (`ObstaclePool`). "Live" means active: a pooled obstacle's `exploded` flag is cleared again by the hook, so it does not latch.
- **Chain explosion** (`infection.dfy`): `InfectionSystem.HandleProjectileHit` and `ChainExplode`, a breadth-first flood fill over an overlap-query oracle with a 256-entry result buffer.
- **Projectiles** (`projectiles.dfy`): the live projectile and its pool (`ProjectilePool`), covering `Init`, `ResetState`, `Fire`, the trigger hit with its one-hop explosion, `ReturnToPool` and the lifetime timeout.
- **Charge economy** (`charge.dfy`): `PlayerController.Start`, `StartCharge`, `UpdateCharge` and `ReleaseCharge`, modelled over `real`.
- **Legacy classes** (`legacy.dfy`): `GameProcess/Obstacle.cs`, `GameProcess/Projectile.cs` and `SimpleObjectPool`, kept apart from the live classes of the same names.
- **Spawner** (`spawner.dfy`): `ObstacleSpawner.SpawnObstacles`, with the random draws given as an input sequence.
- **Registry** (`instances.dfy`): `Instances`, a type-keyed service map.
- **Door** (`door.dfy`): the `Door.Open` latch.

Shared definitions:

- `options.dfy`: null references and thrown exceptions (`Option`, `Result`).
- `numeric.dfy`: `Mathf.Max`, `Min` and `Clamp`, plus squared distances.
- `config.dfy`: the `GameplayConfig` asset with its default values.

The Unity physics overlap queries become oracles, which are function parameters with stated properties. An obstacle's collider is a sphere around its position whose world radius is its collider radius times its scale. A query finds an obstacle when that collider reaches the query sphere, so an obstacle whose centre lies beyond the query radius is still found when its collider reaches in.

- `Physics.OverlapSphereNonAlloc` returns at most 256 distinct live obstacles whose colliders reach the sphere, and all of them when fewer than 256 do.
- `Physics.OverlapSphere` returns all live obstacles whose colliders reach the sphere.

A layer-mask filter, a missing component, a coroutine or a random draw becomes an explicit parameter or event.

Four behaviours of the code shape the model:

- Reaching the critical radius only makes `StartCharge` refuse. There is no death transition.
- A projectile's collider is not disabled before the explosion runs. The hit handlers and the explosion run first, and `ReturnToPool` disables it last.
- The chain radius stays fixed for the whole flood fill, as the code has it.
- `advancing` is never set by any code shown. It is kept as a field that `StartCharge` tests.

## Model

| member | source | states |
|---|---|---|
| Pools.Awake | Assets/Scripts/Tools/ObjectPool.cs:16-26 | the prefill creates exactly `initialSize` inactive copies of the prefab (none for a negative size) and queues them in creation order |
| Pools.Get | Assets/Scripts/Tools/ObjectPool.cs:31-48 | never fails: a non-empty queue hands out its head and keeps the rest in order; an empty one instantiates an object it never had and stays empty; either way the object is activated and then reset by the hook; no other object changes |
| Pools.Return | Assets/Scripts/Tools/ObjectPool.cs:50-58 | `Return(null)` changes nothing; otherwise the object is reset, deactivated and appended, so its count in the queue grows by exactly one with no membership check |
| Pools.DoubleReturnQueuesTwice | Assets/Scripts/Tools/ObjectPool.cs:50-58 | returning the same object twice queues it twice |
| Pools.ReturnThenGet | Assets/Scripts/Tools/ObjectPool.cs:31-58 | on an empty queue, Get right after Return hands back the returned object: reset on the way in, then reactivated and reset again on the way out |
| Pools.ReturnedComesOutAfterQueue | Assets/Scripts/Tools/ObjectPool.cs:31-58 | FIFO: a returned object comes out only after every object queued before it, and those come out in order |
| Pools.GetNDrains | Assets/Scripts/Tools/ObjectPool.cs:31-48 | n Gets on a queue of at least n hand out its first n objects in order and leave the rest |
| Pools.AwakeThenGet | Assets/Scripts/Tools/ObjectPool.cs:16-48 | the first Get after a positive prefill hands out the first prefilled object, leaving `initialSize - 1` queued |
| Obstacles.PoolReset | Assets/Scripts/Tools/ObstaclePool.cs:11-16 | ObstaclePool.ResetObject clears `exploded`, points the back-reference at this pool and deactivates; position, size, collider and marker are kept |
| Obstacles.PoolGet | Assets/Scripts/Tools/ObjectPool.cs:31-48 | the obstacle handed out stands at the requested position and is inactive (ObstaclePool's hook undoes the base Get's activation), fresh and attached to this pool, FIFO as the base pool; it keeps the shape it had in the queue, or the prefab's when newly made |
| Obstacles.PoolReturn | Assets/Scripts/Tools/ObstaclePool.cs:11-16 | a returned obstacle is queued, inactive, fresh and attached to this pool, and stays where it was |
| Obstacles.PoolRoundTrip | Assets/Scripts/Tools/ObstaclePool.cs:11-16 | whatever its prior state, Return then Get yields the same obstacle with `exploded == false` and `pool == this`, standing where Get was asked to put it and with its shape kept |
| Obstacles.Explode | Assets/Scripts/GameProcess/Obstacle/Obstacle.cs:33-65 | a no-op once exploded; otherwise the effect gets the source radius and the obstacle ends inactive, either queued in its pool with `exploded` cleared by the hook, or deactivated with `exploded` still set; nothing else changes |
| Obstacles.ExplodeSelf | Assets/Scripts/GameProcess/Obstacle/Obstacle.cs:28-31 | `Explode()` uses the obstacle's own radius as the source radius |
| Obstacles.HitBy | Assets/Scripts/GameProcess/Obstacle/Obstacle.cs:19-26 | a hit explodes the obstacle with the projectile's radius as the source radius |
| Obstacles.ResetState | Assets/Scripts/GameProcess/Obstacle/Obstacle.cs:68-71 | clears `exploded` and changes nothing else |
| Obstacles.UnpooledExplodeOnce | Assets/Scripts/GameProcess/Obstacle/Obstacle.cs:33-65 | without a pool the flag latches: a second Explode does nothing |
| Obstacles.PooledExplodeDoesNotLatch | Assets/Scripts/GameProcess/Obstacle/Obstacle.cs:57-60 | with a pool the flag does not latch: a second Explode fires another effect and queues the obstacle a second time |
| Obstacles.ExplodeLive | Assets/Scripts/GameProcess/Obstacle/Obstacle.cs:33-65 | exploding a live obstacle removes exactly it from the live set and keeps every live obstacle unexploded |
| Infection.ExplodeNeighbours | Assets/Scripts/GameProcess/InfectionSystem.cs:23-31 | every obstacle of a distinct, live query result is exploded and listed in order; exactly those leave the live set; the others are untouched and nothing moves |
| Infection.FilterFresh | Assets/Scripts/GameProcess/InfectionSystem.cs:25-30 | keeps exactly the results that are in the scene and not exploded, and keeps distinct results distinct |
| Infection.FilterFreshKeepsLive | Assets/Scripts/GameProcess/InfectionSystem.cs:25-30 | on a sound query result, the `!exploded` test filters nothing out |
| Infection.FarColliderFound | Assets/Scripts/GameProcess/InfectionSystem.cs:43 | an unsaturated query finds every live obstacle whose collider reaches the sphere, even one whose centre lies beyond the radius |
| Infection.ChainStep | Assets/Scripts/GameProcess/InfectionSystem.cs:40-53 | one dequeue-query-explode-enqueue iteration keeps the queue discipline, the at-most-once account, the parent links and (for an unsaturated query) closure, and lowers the termination measure |
| Infection.ChainExplode | Assets/Scripts/GameProcess/InfectionSystem.cs:37-54 | the flood fill terminates; everything enqueued is dequeued once in order; each obstacle explodes at most once and only if live, so enqueues never exceed the live obstacles; each exploded obstacle's collider reaches within the fixed radius of an obstacle dequeued before; unless a query filled the 256-entry buffer, no live obstacle's collider is left reaching within the radius of a dequeued one |
| Infection.HandleProjectileHit | Assets/Scripts/GameProcess/InfectionSystem.cs:15-35 | a collider without an obstacle changes nothing; otherwise the radius is `p.radius * infectionMultiplier` for every hop; the seeds' colliders reach the sphere around the hit obstacle and they explode before the chain runs; no obstacle explodes twice; unless a buffer filled, no live collider reaches within the radius of the hit or of any exploded obstacle |
| Projectiles.Awakened | Assets/Scripts/GameProcess/Projectile/Projectile.cs:16-43 | a new projectile is at rest and kinematic with its collider off, no timer, no handlers and no pool |
| Projectiles.Init | Assets/Scripts/GameProcess/Projectile/Projectile.cs:53-76 | sets `radius = r` and scale `2r`, takes speed and layers from the config, comes to rest with the collider off and no timer, remembers the pool; the explosion radius becomes `r * explosionMultiplier` |
| Projectiles.InitIdempotent | Assets/Scripts/GameProcess/Projectile/Projectile.cs:53-76 | repeating Init with the same arguments changes nothing |
| Projectiles.ResetState | Assets/Scripts/GameProcess/Projectile/Projectile.cs:78-97 | clears the handlers, `fired` and the timer, disables the collider, stops the body; keeps radius, size and pool; a reset projectile is a fixed point |
| Projectiles.Fire | Assets/Scripts/GameProcess/Projectile/Projectile.cs:100-115 | a no-op once fired; otherwise sets `fired`, enables the collider, launches at `speed` and leaves exactly one timer pending |
| Projectiles.FireOnce | Assets/Scripts/GameProcess/Projectile/Projectile.cs:100-115 | a second Fire changes nothing |
| Projectiles.PoolGet | Assets/Scripts/Tools/ProjectilePool.cs:10-13 | the projectile handed out is active, at rest, unfired, with no timer and no handlers, and keeps its old radius until Init |
| Projectiles.PoolReturn | Assets/Scripts/Tools/ProjectilePool.cs:10-13 | a returned projectile is queued, inactive, reset and keeps its radius and pool |
| Projectiles.PoolRoundTrip | Assets/Scripts/Tools/ProjectilePool.cs:10-13 | Return then Get yields the same projectile reset and active, with its old radius |
| Projectiles.ReturnToPool | Assets/Scripts/GameProcess/Projectile/Projectile.cs:181-200 | the projectile ends stopped, unfired, timer-free, collider off and inactive; with a pool it is queued, without one only deactivated |
| Projectiles.Timeout | Assets/Scripts/GameProcess/Projectile/Projectile.cs:211-216 | nothing happens without a pending timer; an inactive projectile only loses its timer; an active one is returned with no explosion |
| Projectiles.HitAllLive | Assets/Scripts/GameProcess/Projectile/Projectile.cs:170-177 | HitBy on each distinct live obstacle of one query result removes exactly those from the live set |
| Projectiles.OnTriggerEnter | Assets/Scripts/GameProcess/Projectile/Projectile.cs:118-142 | a trigger is ignored unless fired and the layer is in `hitLayers`; a qualifying hit ends with the projectile returned, and nothing in the scene moves |
| Projectiles.TriggerOrder | Assets/Scripts/GameProcess/Projectile/Projectile.cs:118-178 | a qualifying hit runs in order: the target's HitBy, exactly one explosion at the target (or the projectile) with radius `scale * 0.5 * explosionMultiplier`, HitBy on the obstacles it reaches, and OnHit last, only when there are handlers |
| Projectiles.TriggerBlast | Assets/Scripts/GameProcess/Projectile/Projectile.cs:144-178 | after a qualifying hit an obstacle is still live exactly when it was live, is not the target, and its collider does not reach the explosion sphere: a single hop, no chaining |
| Charge.InitialRadius | Assets/Scripts/GameProcess/PlayerController.cs:53 | the initial radius is `initialPlayerRadius * (1 + initialReservePercent)` |
| Charge.Start | Assets/Scripts/GameProcess/PlayerController.cs:28-55 | without a config nothing is set up; otherwise the player starts at the initial radius, not charging and not started |
| Charge.DesiredRadius | Assets/Scripts/GameProcess/PlayerController.cs:148-163 | the preview radius lies in `[minProjectileRadius, maxProjectileRadius]`, is the minimum when no budget is left, and otherwise is the charged radius (clamped to the range) or, when that costs more, the radius whose cost at `max(0.00001, transferK)` uses exactly the budget `playerRadius - minCriticalRadius`, never more |
| Charge.DesiredAffordable | Assets/Scripts/GameProcess/PlayerController.cs:155-169 | the budget ceiling also holds at the real coefficient `transferK`, including `transferK = 0` |
| Charge.PaidRadius | Assets/Scripts/GameProcess/PlayerController.cs:181-183 | the radius after paying is never below the critical radius nor below `playerRadius - cost`, and equals one of the two |
| Charge.FloorInactive | Assets/Scripts/GameProcess/PlayerController.cs:181-183 | when the cost fits the budget, the `Max(minCriticalRadius, …)` floor is inactive |
| Charge.WorkedValue | Assets/Scripts/GameProcess/PlayerController.cs:148-163 | with the default config, radius 0.6 and 2 s of charge, the preview radius is 0.59 |
| Charge.StartCharge | Assets/Scripts/GameProcess/PlayerController.cs:110-142 | refuses while advancing or within 0.0001 of the critical radius; otherwise resets the charge time and, when a pool is found, takes the pool's next projectile and initialises it at `minProjectileRadius`, changing no other projectile; without a pool `isCharging` stays false |
| Charge.UpdateCharge | Assets/Scripts/GameProcess/PlayerController.cs:144-172 | without a preview nothing changes; otherwise the charge time advances and the preview takes the desired radius; the player's radius, the pool queue and every other projectile are untouched |
| Charge.PreviewPlayerRadius | Assets/Scripts/GameProcess/PlayerController.cs:169-171 | the radius shown while charging is never below the critical radius |
| Charge.ReleaseCharge | Assets/Scripts/GameProcess/PlayerController.cs:174-198 | a no-op unless charging; otherwise charging stops; with a preview the player pays for it, the projectile is fired and `hasStarted` latches, starting the door check only the first time; the pool queue and every other projectile are untouched |
| Charge.ReleaseExact | Assets/Scripts/GameProcess/PlayerController.cs:174-198 | under the budget invariant a release pays exactly `(projRadius - minProjectileRadius) * transferK` |
| Charge.RunKeepsBudget | Assets/Scripts/GameProcess/PlayerController.cs:100-198 | over any input sequence the budget invariant holds, the player's radius never grows, and the door check starts at most once |
| Charge.StartBudget | Assets/Scripts/GameProcess/PlayerController.cs:28-55 | the game starts inside the budget invariant |
| Legacy.SetPool | Assets/Scripts/GameProcess/Obstacle.cs:12-15 | the pool is stored only when it is an obstacle pool, otherwise null |
| Legacy.Explode | Assets/Scripts/GameProcess/Obstacle.cs:17-34 | a no-op once exploded; otherwise the flag is set, then the obstacle is returned to its pool or deactivated |
| Legacy.HitBy | Assets/Scripts/GameProcess/Obstacle.cs:36-40 | a hit on an exploded obstacle changes nothing; any other hit leaves it inactive, queued in its pool when it has one and latched exploded without one; no other object changes |
| Legacy.HitByIgnoresRadius | Assets/Scripts/GameProcess/Obstacle.cs:36-40 | the projectile's size makes no difference to a legacy hit |
| Legacy.UnpooledHitAfterExplode | Assets/Scripts/GameProcess/Obstacle.cs:17-40 | without a pool a hit after an explosion does nothing more |
| Legacy.Init | Assets/Scripts/GameProcess/Projectile.cs:26-32 | sets radius, scale `2r`, `fired = false` and kinematic, and leaves the timer, the collider and the velocity as they were |
| Legacy.ResetState | Assets/Scripts/GameProcess/Projectile.cs:34-46 | clears the handlers, the timer and `fired`, and enables the collider; the body is left as it was |
| Legacy.Fire | Assets/Scripts/GameProcess/Projectile.cs:48-56 | launches unconditionally and starts a new timer each time |
| Legacy.FireRestarts | Assets/Scripts/GameProcess/Projectile.cs:48-56 | there is no fired guard: a second Fire restarts the timer again |
| Legacy.SimpleAwake | Assets/Scripts/Tools/SimpleObjectPool.cs:11-22 | the prefill creates `initialSize` inactive copies of the prefab |
| Legacy.SimpleGet | Assets/Scripts/Tools/SimpleObjectPool.cs:24-49 | FIFO or instantiate, never null; the object is active, and a projectile on it is reset |
| Legacy.SimpleReturn | Assets/Scripts/Tools/SimpleObjectPool.cs:51-67 | null is ignored; otherwise the object is reset, deactivated and queued, and the queue grows by one |
| Legacy.Retire | Assets/Scripts/GameProcess/Projectile.cs:75-101 | a retired projectile is stopped and pooled (reset and inactive) when the pool is found, or destroyed otherwise, leaving the pool's queue as it was |
| Legacy.OnTriggerEnter | Assets/Scripts/GameProcess/Projectile.cs:58-87 | ignored unless fired and the layer is in the mask; otherwise the target's HitBy runs, a hittable target's event comes first, OnHit comes last only when there are handlers, and the projectile retires with its collider disabled before the pool sees it |
| Legacy.Timeout | Assets/Scripts/GameProcess/Projectile.cs:89-102 | an inactive projectile is left alone apart from the finished timer; an active one is stopped and retires without its collider being disabled |
| Legacy.PooledHitReenablesCollider | Assets/Scripts/GameProcess/Projectile.cs:80-85 | after a hit the pool's reset enables the collider again, undoing the disabling; the projectile is inactive, so this cannot trigger |
| Spawner.ClusterCentres | Assets/Scripts/GameProcess/Spawner/ObstacleSpawner.cs:53-61 | there is always at least one cluster centre; with no non-null cluster point it is exactly the spawner position or the origin; otherwise the centres are exactly the non-null points |
| Spawner.PositionValid | Assets/Scripts/GameProcess/Spawner/ObstacleSpawner.cs:133-144 | a position is valid iff no occupied position is strictly closer than the minimum distance in the XZ plane |
| Spawner.BoundaryDistanceAccepted | Assets/Scripts/GameProcess/Spawner/ObstacleSpawner.cs:137-140 | a position exactly the safe radius away from all others is accepted |
| Spawner.ScaleFactor | Assets/Scripts/GameProcess/Spawner/ObstacleSpawner.cs:97-99 | the scale factor lies in `[1 - mutation, 1 + mutation]` |
| Spawner.Place | Assets/Scripts/GameProcess/Spawner/ObstacleSpawner.cs:90-112 | the obstacle taken from the pool is activated, fresh, its scale multiplied by the factor (compounding on reuse), and moved to the accepted XZ position; its DownSpawnPos marker, whose offset is measured after scaling, ends at the ground height, or without a marker its origin does |
| Spawner.SpawnObstacles | Assets/Scripts/GameProcess/Spawner/ObstacleSpawner.cs:29-122 | nothing spawns without a pool, a config or a non-zero pool size; never more than `initialSize` obstacles nor `10 * initialSize` attempts; stopping short happens only when the attempts run out; every accepted position comes from its attempt, lies in the inclusive area rectangle and is at least `safeRadius` from every other; every other attempt was rejected for being outside the area or too close to an earlier acceptance |
| Spawner.FactorsInRange | Assets/Scripts/GameProcess/Spawner/ObstacleSpawner.cs:97-99 | every applied scale factor stays within the configured mutation |
| Registry.TryGet | Assets/Scripts/GameProcess/Instances.cs:83-92 | a missing type gives false and null; a present one gives its entry, cast to the type |
| Registry.Get | Assets/Scripts/GameProcess/Instances.cs:94-99 | the instance TryGet finds, or null |
| Registry.Register | Assets/Scripts/GameProcess/Instances.cs:77-81 | null throws ArgumentNullException; otherwise the type's entry is replaced and TryGet then returns the instance; other types are unaffected |
| Registry.RegisterOverwrites | Assets/Scripts/GameProcess/Instances.cs:77-81 | a second Register of a type replaces the first |
| Registry.RegisterPoolByType | Assets/Scripts/GameProcess/Instances.cs:68-75 | the first registration of a pool type wins and is never overwritten |
| Registry.PoolFirstWins | Assets/Scripts/GameProcess/Instances.cs:68-75 | a second pool of the same type does not displace the first |
| Registry.Unregister | Assets/Scripts/GameProcess/Instances.cs:101-104 | removes only that type's entry |
| Registry.RegisterUnregister | Assets/Scripts/GameProcess/Instances.cs:77-104 | Unregister undoes the Register of a type that was absent |
| Registry.ClearAll | Assets/Scripts/GameProcess/Instances.cs:106-109 | nothing is registered afterwards |
| Doors.Open | Assets/Scripts/GameProcess/Door.cs:9-14 | the first Open latches `opened` and sets the trigger when there is an animator; later calls do nothing |
| Doors.OpenAtMostOnce | Assets/Scripts/GameProcess/Door.cs:9-14 | over any number of calls the trigger is set at most once, and n calls act as one |
| Doors.OpenFromClosed | Assets/Scripts/GameProcess/Door.cs:11-13 | from a closed door any positive number of calls opens it, setting the trigger exactly once with an animator and never without one |

## Left out

- Rendering, particles, audio and animation are left out: `ExplosionEffect`, `RadiusInfection`, `TexturedPath`, `UpdateVisualScale`, the explosion prefab and every `OnDrawGizmos*`. They have no effect on game state.
- Obstacle colliders are spheres in the model, sized by the collider radius times the absolute uniform scale. The exact contact test of a box or mesh collider is not modelled. This concerns Infection.ChainExplode, Infection.HandleProjectileHit and Projectiles.TriggerBlast, whose soundness and closure clauses are stated against this sphere.
- Infection.ChainExplode, Infection.HandleProjectileHit and Projectiles.TriggerBlast assume that every collider on the obstacle layer belongs to an obstacle and that each obstacle has exactly one collider. The query buffer counts colliders. A foreign collider could fill slots, so fewer than 256 obstacles would come back while some were dropped. An obstacle with two colliders would be listed twice and, being pooled, exploded and returned twice. The oracles' distinctness and their "fewer than 256 means complete" property rest on this assumption.
- Unity physics is replaced by the two oracles described above. The layer mask passed to the overlap queries is part of what the oracle returns. Trigger dispatch becomes an explicit call, and rigidbody motion is reduced to a speed.
- Coroutines and timers are left out. `AutoReturnCoroutine` is a pending-timer flag plus an explicit timeout event. `SpawnDelayed` and `CheckDoorDistanceRoutine` are left out, along with the door-distance timing; the model only counts `StartDoorCheck` calls.
- `HandleInput` and `Update` are reduced to input events. Per-frame movement and aiming are left out.
- `float` arithmetic is modelled as exact `real`. Distances are compared squared. Rounding is not modelled.
- `Instances.GetOrFind` is called but not defined in `Instances.cs`. The model passes its outcome in as a parameter (pool found or not).
- The registry's singleton `Awake`, `RegisterDefaults`, `RegisterPoolsFromContainer` and `IsObjectPool` depend on the .NET type hierarchy and the engine's object lifecycle, so they are left out. Types are names, and an object carries the set of types it belongs to.
- `Transform` parenting (`SetParent`), rotations and `lossyScale` are left out. The explosion radius uses the projectile's own scale, which equals its lossy scale while it has no parent. An obstacle's scale is its uniform world scale: the spawner's `localScale *= factor` multiplies it by the factor.
- Projectiles.OnTriggerEnter: the contract states the returned projectile and the unchanged positions; the event order and the single-hop effect are in TriggerOrder and TriggerBlast.
- Projectiles.Timeout: the active case states the end state, not the queue; it uses the same ReturnToPool as the hit path.
- Charge.RunKeepsBudget: assumes a sane config (`minProjectileRadius <= maxProjectileRadius` and `transferK >= 0`). The defaults satisfy this; other configs are not covered.
- Charge.StartCharge: a pool `Get` that returns null is not modelled, because the pool never returns null.
- Obstacles.Explode: an obstacle with a non-null `pool` goes back to the scene's one ObstaclePool. A scene with a second ObstaclePool, which the field could name, is not modelled. The registry holds one ObstaclePool entry, the spawner places obstacles from that pool, and its reset hook makes every obstacle it hands out point back at it.
- Projectiles.ReturnToPool: a projectile with a non-null `projectilePool` goes back to the scene's one ProjectilePool. A second ProjectilePool is not modelled, for the same reason.
- Legacy.Explode: which `ResetObject` the legacy obstacle's pool runs is a parameter. `ObstaclePool` writes a `pool` field that is private in the legacy class, so the two obstacle classes cannot both be compiled.
- Legacy.OnTriggerEnter: the legacy projectile is assumed to have a collider, since the class does not require one. Without a pool a destroyed projectile leaves the world; a projectile destroyed while still queued in a SimpleObjectPool would leave a dead entry in that queue, and the model requires the projectile not to be queued.
- Legacy.Retire: requires a projectile that is destroyed (no pool found) not to be queued in the SimpleObjectPool, for the same reason.
- Legacy.Timeout: an active projectile retired without a pool must not be queued, as for Legacy.Retire. When the timer fires on an inactive projectile, the source exits before clearing `lifeCoroutine`. The model still records the timer as no longer pending, because the coroutine has ended.
- Spawner.SpawnObstacles:
  - `Random.Range(0, count)` is modelled as the draw taken modulo the number of centres.
  - `insideUnitCircle` is modelled as a supplied pair.
  - The scale draw is a fraction in `[0, 1]`.
  - The draw sequence must cover `10 * initialSize` attempts.
  - An obstacle handed out twice is not tracked per placement.
- Spawner.ScaleFactor: the range holds only for draws within `[0, 1]`, which `Random.Range` guarantees.
