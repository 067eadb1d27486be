/** The obstacle spawner (ObstacleSpawner.SpawnObstacles): draw a cluster
    centre and a point in a disc around it, keep the point when it lies in
    the spawn rectangle and no accepted point is strictly closer than the
    safe radius, and place a pooled obstacle there. The random draws are an
    input sequence, one per attempt. */
module Spawner {
  import opened Options
  import opened Numeric
  import opened Geometry
  import opened Config
  import opened Pools
  import opened Obstacles

  /** The spawner's serialized settings and the height it reads:
      `groundY` is the y of the spawn target (or of the spawner without one). */
  datatype Setup = Setup(
    spawnerPos: Point,
    useSpawnerAsCenter: bool,
    areaSize: Point,
    safeRadius: real,
    clusterPoints: seq<Option<Point>>,
    clusterRadius: real,
    groundY: real)

  /** One attempt's draws: Random.Range(0, count), insideUnitCircle, and the
      unit fraction behind Random.Range(-mutation, mutation). */
  datatype Draw = Draw(pick: nat, cx: real, cz: real, t: real)

  /** The non-null cluster points in order. */
  function NonNull(points: seq<Option<Point>>): (r: seq<Point>)
    ensures |r| <= |points|
    ensures forall p :: p in r <==> Some(p) in points
    ensures r == [] <==> forall i :: 0 <= i < |points| ==> points[i].None?
  {
    if points == [] then []
    else
      var rest := NonNull(points[1..]);
      assert forall i :: 1 <= i < |points| ==> points[i] == points[1..][i - 1];
      (if points[0].Some? then [points[0].value] else []) + rest
  }

  /** The spawn-area centre: the spawner, or the origin. */
  function AreaCenter(setup: Setup): Point {
    if setup.useSpawnerAsCenter then setup.spawnerPos else Origin
  }

  /** The cluster centres: the non-null cluster points, or, when there are
      none, the single area centre. */
  function ClusterCentres(setup: Setup): (r: seq<Point>)
    ensures |r| >= 1
    ensures (forall i :: 0 <= i < |setup.clusterPoints| ==> setup.clusterPoints[i].None?) ==>
              r == [AreaCenter(setup)]
    ensures (exists i :: 0 <= i < |setup.clusterPoints| && setup.clusterPoints[i].Some?) ==>
              forall p :: p in r <==> Some(p) in setup.clusterPoints
  {
    var found := NonNull(setup.clusterPoints);
    if |found| == 0 then [AreaCenter(setup)] else found
  }

  /** IsPositionInSpawnArea: inside the closed XZ rectangle
      `center ± areaSize/2`; the height is not looked at. */
  predicate InArea(p: Point, center: Point, size: Point) {
    && center.x - size.x * 0.5 <= p.x <= center.x + size.x * 0.5
    && center.z - size.z * 0.5 <= p.z <= center.z + size.z * 0.5
  }

  /** IsPositionValid: scan the occupied positions and reject on the first
      one strictly closer (in XZ) than `minDistance`. */
  function PositionValid(p: Point, occupied: seq<Point>, minDistance: real): (ok: bool)
    ensures ok <==> forall k :: 0 <= k < |occupied| ==> !CloserXZ(p, occupied[k], minDistance)
  {
    if occupied == [] then true
    else if CloserXZ(p, occupied[0], minDistance) then false
    else
      var ok := PositionValid(p, occupied[1..], minDistance);
      assert forall k :: 1 <= k < |occupied| ==> occupied[k] == occupied[1..][k - 1];
      ok
  }

  /** The point an attempt proposes: a cluster centre (shifted by the area
      centre when the spawner is not the centre, which is then the origin)
      plus the disc offset scaled by the cluster radius. */
  function Candidate(setup: Setup, d: Draw): Point {
    var centres := ClusterCentres(setup);
    var c := centres[d.pick % |centres|];
    var c' := if setup.useSpawnerAsCenter then c else Add(c, AreaCenter(setup));
    Add(c', Point(d.cx * setup.clusterRadius, 0.0, d.cz * setup.clusterRadius))
  }

  /** The scale factor `1 + Random.Range(-mutation, mutation)`. */
  function ScaleFactor(mutation: real, t: real): (f: real)
    ensures 0.0 <= t <= 1.0 ==> 1.0 - Abs(mutation) <= f <= 1.0 + Abs(mutation)
    ensures t == 0.5 ==> f == 1.0
  {
    ScaleBounds(mutation, t);
    1.0 + (-mutation + (mutation - -mutation) * t)
  }

  lemma ScaleBounds(m: real, t: real)
    ensures 0.0 <= t <= 1.0 && m >= 0.0 ==> 0.0 <= m * t <= m
    ensures 0.0 <= t <= 1.0 && m < 0.0 ==> m <= m * t <= 0.0
  {
    if 0.0 <= t <= 1.0 {
      if m >= 0.0 {
        assert m * t <= m * 1.0;
      } else {
        assert m * t >= m * 1.0;
      }
    }
  }

  /** The world height of an obstacle's DownSpawnPos marker: the offset
      below the origin grows with the obstacle's scale. */
  function MarkerY(o: Obstacle): real
    requires o.foot.Some?
  {
    o.position.y - o.foot.value * o.scale
  }

  /** The height of the origin of an obstacle scaled as `o` is, placed on
      the ground at `groundY`: raised by the marker offset measured after
      scaling, or on the ground itself without a marker. */
  function PlacedY(groundY: real, o: Obstacle): real {
    match o.foot
    case Some(h) => groundY + h * o.scale
    case None => groundY
  }

  /** Take an obstacle from the pool at `c`, activate it, multiply its scale by
      `factor` and move it to `c`'s ground position. Its DownSpawnPos marker,
      when it has one, ends on the ground; without one its origin does. */
  function Place(s: Scene, setup: Setup, c: Point, factor: real): (r: (Scene, Id))
    requires Valid(s)
    ensures Valid(r.0) && r.1 in r.0.world && r.0.world.Keys == s.world.Keys + {r.1}
    ensures var h := r.0.world[r.1];
            && h.active && !h.state.exploded && h.state.pool == Some(s.self)
            && h.state.position.x == c.x && h.state.position.z == c.z
            && (h.state.foot.Some? ==> MarkerY(h.state) == setup.groundY)
            && (h.state.foot.None? ==> h.state.position.y == setup.groundY)
    // the scale compounds: a reused obstacle keeps the factors applied before
    ensures var o := if r.1 in s.world then s.world[r.1].state else s.prefab;
            var h := r.0.world[r.1].state;
            && h.scale == o.scale * factor
            && h.reach == o.reach && h.foot == o.foot && h.radius == o.radius
    ensures r.0.self == s.self
    ensures forall id :: id in s.world && id != r.1 ==> r.0.world[id] == s.world[id]
  {
    var (s1, id) := PoolGet(s, c);
    var o := s1.world[id].state;
    var scaled := o.(scale := o.scale * factor);
    var placed := scaled.(position := Point(c.x, PlacedY(setup.groundY, scaled), c.z));
    (s1.(world := s1.world[id := Handle(true, placed)]), id)
  }

  /** Attempt `a` was turned down: its candidate lies outside the area, or
      some position accepted before it is strictly too close. */
  ghost predicate Rejected(setup: Setup, draws: seq<Draw>, a: nat, placed: seq<Point>, chosen: seq<nat>)
    requires a < |draws| && |chosen| == |placed|
  {
    var c := Candidate(setup, draws[a]);
    || !InArea(c, AreaCenter(setup), setup.areaSize)
    || exists k :: 0 <= k < |placed| && chosen[k] < a && CloserXZ(c, placed[k], setup.safeRadius)
  }

  /** SpawnObstacles. `pool` and `config` are what the registry lookups
      returned. Returns the scene, the accepted positions in order, the
      attempt indices that produced them, the obstacles placed, the scale
      factors applied, and the number of attempts made. */
  method SpawnObstacles(s0: Scene, pool: bool, config: Option<GameplayConfig>, setup: Setup,
                        draws: seq<Draw>)
    returns (s: Scene, placed: seq<Point>, chosen: seq<nat>, ids: seq<Id>, factors: seq<real>, attempts: nat)
    requires Valid(s0)
    requires |draws| >= 10 * s0.initialSize
    ensures Valid(s) && s0.world.Keys <= s.world.Keys
    // the early exits
    ensures !pool || config.None? || s0.initialSize == 0 ==> s == s0 && placed == [] && attempts == 0
    // bounded: never more than initialSize obstacles nor 10 * initialSize attempts
    ensures |placed| <= (if s0.initialSize < 0 then 0 else s0.initialSize)
    ensures attempts <= |draws| && (s0.initialSize > 0 ==> attempts <= 10 * s0.initialSize)
    ensures |chosen| == |placed| == |ids| == |factors|
    // giving up early happens only when the attempts ran out
    ensures pool && config.Some? && |placed| < s0.initialSize ==> attempts == 10 * s0.initialSize
    // every accepted position comes from its attempt, lies in the area and keeps its distance
    ensures forall k :: 0 <= k < |chosen| ==> chosen[k] < attempts
    ensures forall k :: 0 <= k < |chosen| ==> placed[k] == Candidate(setup, draws[chosen[k]])
    ensures forall k :: 0 <= k < |placed| ==> InArea(placed[k], AreaCenter(setup), setup.areaSize)
    ensures forall i, j :: 0 <= i < j < |placed| ==> !CloserXZ(placed[j], placed[i], setup.safeRadius)
    ensures forall k :: 0 <= k < |factors| ==>
              config.Some? && factors[k] == ScaleFactor(config.value.mutation, draws[chosen[k]].t)
    // every other attempt was rejected for a reason
    ensures forall a :: 0 <= a < attempts && a !in chosen ==> Rejected(setup, draws, a, placed, chosen)
    // each obstacle handed out is active and in the scene
    ensures forall k :: 0 <= k < |ids| ==> ids[k] in s.world && s.world[ids[k]].active
  {
    s, placed, chosen, ids, factors, attempts := s0, [], [], [], [], 0;
    if !pool || config.None? || s0.initialSize == 0 {
      return;
    }
    if s0.initialSize < 0 {
      return;
    }
    s, placed, chosen, ids, factors, attempts := Attempts(s0, config.value.mutation, setup, draws);
  }

  /** The attempt loop of SpawnObstacles, once the pool and the config are
      known and the pool's size is positive. */
  method Attempts(s0: Scene, mutation: real, setup: Setup, draws: seq<Draw>)
    returns (s: Scene, placed: seq<Point>, chosen: seq<nat>, ids: seq<Id>, factors: seq<real>, attempts: nat)
    requires Valid(s0) && s0.initialSize > 0
    requires |draws| >= 10 * s0.initialSize
    ensures Valid(s) && s0.world.Keys <= s.world.Keys
    ensures |placed| <= s0.initialSize && attempts <= 10 * s0.initialSize
    ensures |chosen| == |placed| == |ids| == |factors|
    ensures |placed| < s0.initialSize ==> attempts == 10 * s0.initialSize
    ensures Accepted(setup, draws, attempts, placed, chosen)
    ensures forall k :: 0 <= k < |factors| ==> factors[k] == ScaleFactor(mutation, draws[chosen[k]].t)
    ensures Handed(s, ids)
  {
    s, placed, chosen, ids, factors, attempts := s0, [], [], [], [], 0;
    var n := s0.initialSize;
    var center := AreaCenter(setup);
    while |placed| < n && attempts < 10 * n
      invariant Valid(s) && s0.world.Keys <= s.world.Keys
      invariant attempts <= 10 * n && |placed| <= n
      invariant |chosen| == |placed| == |ids| == |factors|
      invariant Accepted(setup, draws, attempts, placed, chosen)
      invariant forall k :: 0 <= k < |factors| ==> factors[k] == ScaleFactor(mutation, draws[chosen[k]].t)
      invariant Handed(s, ids)
      decreases 10 * n - attempts
    {
      var d := draws[attempts];
      var c := Candidate(setup, d);
      if InArea(c, center, setup.areaSize) && PositionValid(c, placed, setup.safeRadius) {
        var f := ScaleFactor(mutation, d.t);
        var (s', id) := Place(s, setup, c, f);
        AcceptStep(setup, draws, attempts, placed, chosen);
        PlaceStep(s, setup, c, f, ids);
        s := s';
        placed, chosen, ids, factors := placed + [c], chosen + [attempts], ids + [id], factors + [f];
      } else {
        RejectStep(setup, draws, attempts, placed, chosen);
      }
      attempts := attempts + 1;
    }
  }

  /** Every obstacle handed out is in the scene and active. */
  ghost predicate Handed(s: Scene, ids: seq<Id>) {
    forall k :: 0 <= k < |ids| ==> ids[k] in s.world && s.world[ids[k]].active
  }

  /** Placing one more obstacle keeps the earlier ones as they were. */
  lemma PlaceStep(s: Scene, setup: Setup, c: Point, factor: real, ids: seq<Id>)
    requires Valid(s) && Handed(s, ids)
    ensures var (s', id) := Place(s, setup, c, factor);
            Valid(s') && s.world.Keys <= s'.world.Keys && Handed(s', ids + [id])
  {
  }

  /** What the loop has established after `attempts` attempts: the
      accepted positions come from their attempts, in increasing order, lie
      in the area and keep their distance; every other attempt was rejected
      for a reason. */
  ghost predicate Accepted(setup: Setup, draws: seq<Draw>, attempts: nat, placed: seq<Point>, chosen: seq<nat>) {
    && attempts <= |draws| && |chosen| == |placed|
    && (forall k :: 0 <= k < |chosen| ==> chosen[k] < attempts)
    && (forall k :: 0 <= k < |chosen| ==> placed[k] == Candidate(setup, draws[chosen[k]]))
    && (forall k :: 0 <= k < |placed| ==> InArea(placed[k], AreaCenter(setup), setup.areaSize))
    && (forall i, j :: 0 <= i < j < |placed| ==> !CloserXZ(placed[j], placed[i], setup.safeRadius))
    && (forall a :: 0 <= a < attempts && a !in chosen ==> Rejected(setup, draws, a, placed, chosen))
  }

  /** Accepting attempt `a`'s candidate, which passed both tests, keeps the
      loop's account. */
  lemma AcceptStep(setup: Setup, draws: seq<Draw>, a: nat, placed: seq<Point>, chosen: seq<nat>)
    requires a < |draws| && Accepted(setup, draws, a, placed, chosen)
    requires var c := Candidate(setup, draws[a]);
             InArea(c, AreaCenter(setup), setup.areaSize) && PositionValid(c, placed, setup.safeRadius)
    ensures Accepted(setup, draws, a + 1, placed + [Candidate(setup, draws[a])], chosen + [a])
  {
    var c := Candidate(setup, draws[a]);
    KeepsRejections(setup, draws, a, placed, chosen, c);
    KeepsSpacing(setup.safeRadius, placed, c);
    var placed', chosen' := placed + [c], chosen + [a];
    assert forall k :: 0 <= k < |chosen| ==> chosen'[k] == chosen[k] && placed'[k] == placed[k];
  }

  /** The earlier rejections stay explained when a position is accepted. */
  lemma KeepsRejections(setup: Setup, draws: seq<Draw>, a: nat, placed: seq<Point>,
                        chosen: seq<nat>, c: Point)
    requires a < |draws| && |chosen| == |placed|
    requires forall b :: 0 <= b < a && b !in chosen ==> Rejected(setup, draws, b, placed, chosen)
    ensures forall b :: 0 <= b < a + 1 && b !in chosen + [a] ==>
              Rejected(setup, draws, b, placed + [c], chosen + [a])
  {
    var placed', chosen' := placed + [c], chosen + [a];
    forall b | 0 <= b < a + 1 && b !in chosen'
      ensures Rejected(setup, draws, b, placed', chosen')
    {
      assert b !in chosen && b < a;
      var cb := Candidate(setup, draws[b]);
      if InArea(cb, AreaCenter(setup), setup.areaSize) {
        var k :| 0 <= k < |placed| && chosen[k] < b && CloserXZ(cb, placed[k], setup.safeRadius);
        assert placed'[k] == placed[k] && chosen'[k] == chosen[k];
      }
    }
  }

  /** A position valid against all accepted ones keeps them pairwise spaced. */
  lemma KeepsSpacing(d: real, placed: seq<Point>, c: Point)
    requires forall i, j :: 0 <= i < j < |placed| ==> !CloserXZ(placed[j], placed[i], d)
    requires PositionValid(c, placed, d)
    ensures forall i, j :: 0 <= i < j < |placed + [c]| ==> !CloserXZ((placed + [c])[j], (placed + [c])[i], d)
  {
    var placed' := placed + [c];
    forall i, j | 0 <= i < j < |placed'|
      ensures !CloserXZ(placed'[j], placed'[i], d)
    {
      assert placed'[i] == placed[i];
      if j < |placed| {
        assert placed'[j] == placed[j];
      }
    }
  }

  /** Rejecting attempt `a` keeps the loop's account: out of the area, or
      too close to an accepted position, all of which came earlier. */
  lemma RejectStep(setup: Setup, draws: seq<Draw>, a: nat, placed: seq<Point>, chosen: seq<nat>)
    requires a < |draws| && Accepted(setup, draws, a, placed, chosen)
    requires var c := Candidate(setup, draws[a]);
             !InArea(c, AreaCenter(setup), setup.areaSize) || !PositionValid(c, placed, setup.safeRadius)
    ensures Accepted(setup, draws, a + 1, placed, chosen)
  {
    assert Rejected(setup, draws, a, placed, chosen);
  }

  /** The spawner's scale factors stay within the configured mutation. */
  lemma FactorsInRange(mutation: real, draws: seq<Draw>, chosen: seq<nat>, factors: seq<real>)
    requires |factors| == |chosen| && forall k :: 0 <= k < |chosen| ==> chosen[k] < |draws|
    requires forall k :: 0 <= k < |factors| ==> factors[k] == ScaleFactor(mutation, draws[chosen[k]].t)
    requires forall a :: 0 <= a < |draws| ==> 0.0 <= draws[a].t <= 1.0
    ensures forall k :: 0 <= k < |factors| ==> 1.0 - Abs(mutation) <= factors[k] <= 1.0 + Abs(mutation)
  {
  }

  /** Only a strictly smaller distance rejects: a point exactly the safe
      radius away from every accepted position is still valid. */
  lemma BoundaryDistanceAccepted(p: Point, occupied: seq<Point>, d: real)
    requires d > 0.0
    requires forall k :: 0 <= k < |occupied| ==> Dist2XZ(p, occupied[k]) == d * d
    ensures PositionValid(p, occupied, d)
  {
  }
}
