/** The chain reaction (InfectionSystem): a breadth-first flood fill that
    explodes every live obstacle reachable from the hit point through hops
    no longer than the infection radius.

    The physics overlap query is an oracle: given a centre, a radius and the
    set of live obstacles, it answers at most MaxOverlap distinct live
    obstacles that overlap the sphere, and every overlapping live obstacle
    when it answers fewer than MaxOverlap. */
module Infection {
  import opened Options
  import opened Geometry
  import opened Pools
  import opened Obstacles

  /** Capacity of the shared overlap buffer (MAX_OVERLAP). */
  const MaxOverlap: nat := 256

  /** Physics.OverlapSphereNonAlloc restricted to the obstacle layer. */
  type Query = (Point, real, set<Id>) -> seq<Id>

  predicate Distinct(xs: seq<Id>) {
    forall i, j :: 0 <= i < j < |xs| ==> xs[i] != xs[j]
  }

  function Elems(xs: seq<Id>): set<Id> {
    set x | x in xs
  }

  /** Where obstacle `id` stands in `s`. */
  function Pos(s: Scene, id: Id): Point
    requires id in s.world
  {
    s.world[id].state.position
  }

  /** How far obstacle `id`'s collider reaches from where it stands. */
  function Ext(s: Scene, id: Id): (e: real)
    requires id in s.world
    ensures e >= 0.0
  {
    Extent(s.world[id].state)
  }

  /** What a correct overlap query may answer for centre `c` and radius `r`
      when `live` are the live obstacles of a scene laid out like `s`. */
  ghost predicate SoundAnswer(res: seq<Id>, c: Point, r: real, live: set<Id>, s: Scene)
    requires live <= s.world.Keys
  {
    && |res| <= MaxOverlap
    && Distinct(res)
    && (forall i :: 0 <= i < |res| ==> res[i] in live && Overlaps(c, r, Pos(s, res[i]), Ext(s, res[i])))
    && (|res| < MaxOverlap ==>
          forall id :: id in live && Overlaps(c, r, Pos(s, id), Ext(s, id)) ==> id in res)
  }

  /** The oracle answers soundly for every centre, radius and live set. */
  ghost predicate SoundOracle(query: Query, s: Scene) {
    forall c, r, live :: live <= s.world.Keys ==> SoundAnswer(query(c, r, live), c, r, live, s)
  }

  /** A query finds obstacles by their colliders, not their centres: an
      unsaturated answer holds every live obstacle whose collider reaches the
      sphere, however far beyond the radius its centre lies. */
  lemma FarColliderFound(query: Query, s: Scene, c: Point, r: real, live: set<Id>, id: Id)
    requires SoundOracle(query, s) && live <= s.world.Keys && id in live
    requires r >= 0.0 && Dist2(c, Pos(s, id)) <= (r + Ext(s, id)) * (r + Ext(s, id))
    requires |query(c, r, live)| < MaxOverlap
    ensures id in query(c, r, live)
  {
    assert SoundAnswer(query(c, r, live), c, r, live, s);
  }

  /** `t` holds the same obstacles as `s`, each where it stood in `s` and
      with the collider it had there. */
  ghost predicate SamePlaces(t: Scene, s: Scene) {
    && t.world.Keys == s.world.Keys
    && forall id :: id in s.world ==> Pos(t, id) == Pos(s, id) && Ext(t, id) == Ext(s, id)
  }

  /** An explosion moves nothing and resizes nothing. */
  lemma ExplodePlaces(s: Scene, id: Id, sourceRadius: real)
    requires Valid(s) && id in s.world
    ensures SamePlaces(Explode(s, id, sourceRadius).scene, s)
  {
    var t := Explode(s, id, sourceRadius).scene;
    forall o | o in s.world
      ensures Pos(t, o) == Pos(s, o) && Ext(t, o) == Ext(s, o)
    {
      assert SameBody(t.world[o].state, s.world[o].state);
    }
  }

  /** Every element of `xs` is an obstacle of `s`. */
  ghost predicate InWorld(xs: seq<Id>, s: Scene) {
    forall j :: 0 <= j < |xs| ==> xs[j] in s.world
  }

  /** `n` copies of `v`. */
  function Repeat(n: nat, v: nat): (r: seq<nat>)
    ensures |r| == n
    ensures forall i :: 0 <= i < n ==> r[i] == v
  {
    if n == 0 then [] else [v] + Repeat(n - 1, v)
  }

  lemma TakeSnoc(xs: seq<Id>, i: nat)
    requires i < |xs|
    ensures xs[..i + 1] == xs[..i] + [xs[i]]
  {
  }

  lemma ElemsSnoc(xs: seq<Id>, i: nat)
    requires i < |xs|
    ensures Elems(xs[..i + 1]) == Elems(xs[..i]) + {xs[i]}
  {
    assert xs[..i + 1] == xs[..i] + [xs[i]];
  }

  /** Splitting off the head of a distinct sequence. */
  lemma DistinctTail(xs: seq<Id>)
    requires |xs| > 0 && Distinct(xs)
    ensures Distinct(xs[1..]) && xs[0] !in Elems(xs[1..])
    ensures Elems(xs) == {xs[0]} + Elems(xs[1..])
  {
    assert xs == [xs[0]] + xs[1..];
    forall j | 0 <= j < |xs[1..]| ensures xs[1..][j] != xs[0] {
      assert xs[1..][j] == xs[j + 1];
    }
  }

  lemma DistinctAppend(a: seq<Id>, b: seq<Id>)
    requires Distinct(a) && Distinct(b) && Elems(a) !! Elems(b)
    ensures Distinct(a + b) && Elems(a + b) == Elems(a) + Elems(b)
  {
    forall i, j | 0 <= i < j < |a + b|
      ensures (a + b)[i] != (a + b)[j]
    {
      if j >= |a| && i < |a| {
        assert (a + b)[i] in Elems(a) && (a + b)[j] in Elems(b);
      }
    }
  }

  /** The invariant of ExplodeNeighbours after `i` results. */
  ghost predicate HopInv(s0: Scene, s: Scene, found: seq<Id>, i: nat)
    requires i <= |found|
  {
    && Valid(s) && LiveFresh(s) && SamePlaces(s, s0)
    && Live(s) == Live(s0) - Elems(found[..i])
    && |Live(s)| + i == |Live(s0)|
    && forall id :: id in s0.world && id !in found[..i] ==> s.world[id] == s0.world[id]
  }

  /** Distinct results: the next one has not been exploded by this hop yet. */
  lemma NextIsLive(s0: Scene, s: Scene, found: seq<Id>, i: nat)
    requires Distinct(found) && Elems(found) <= Live(s0)
    requires i < |found|
    requires Live(s) == Live(s0) - Elems(found[..i])
    ensures found[i] in Live(s)
  {
    assert found[i] in Elems(found);
    assert forall k :: 0 <= k < i ==> found[..i][k] != found[i];
    assert found[i] !in Elems(found[..i]);
  }

  /** One iteration of ExplodeNeighbours keeps its invariant: `t` is the
      scene after exploding the next result, described by what ExplodeLive
      establishes about it. */
  lemma NeighbourStep(s0: Scene, s: Scene, t: Scene, found: seq<Id>, i: nat)
    requires i < |found|
    requires HopInv(s0, s, found, i)
    requires found[i] in Live(s)
    requires Valid(t) && LiveFresh(t) && t.world.Keys == s.world.Keys
    requires Pos(t, found[i]) == Pos(s, found[i]) && Ext(t, found[i]) == Ext(s, found[i])
    requires forall id :: id in s.world && id != found[i] ==> t.world[id] == s.world[id]
    requires Live(t) == Live(s) - {found[i]} && |Live(t)| + 1 == |Live(s)|
    ensures HopInv(s0, t, found, i + 1)
  {
    ElemsSnoc(found, i);
    TakeSnoc(found, i);
  }

  /** The next result is a live obstacle, and exploding it keeps the
      invariant of ExplodeNeighbours. */
  lemma ExplodeStep(s0: Scene, s: Scene, found: seq<Id>, i: nat)
    requires Distinct(found) && Elems(found) <= Live(s0)
    requires i < |found|
    requires HopInv(s0, s, found, i)
    ensures found[i] in s.world && !s.world[found[i]].state.exploded
    ensures HopInv(s0, ExplodeSelf(s, found[i]).scene, found, i + 1)
  {
    var o := found[i];
    NextIsLive(s0, s, found, i);
    ExplodeLive(s, o, s.world[o].state.radius);
    ExplodePlaces(s, o, s.world[o].state.radius);
    NeighbourStep(s0, s, ExplodeSelf(s, o).scene, found, i);
  }

  /** One hop of the chain loop: every query result that is an obstacle not
      yet exploded is exploded (with its own radius) and then enqueued.
      Returns the new scene and the obstacles enqueued, in order. When the
      results are distinct live obstacles, all of them are exploded. */
  method ExplodeNeighbours(s0: Scene, found: seq<Id>) returns (s: Scene, enqueued: seq<Id>)
    requires Valid(s0) && LiveFresh(s0)
    requires Distinct(found) && Elems(found) <= Live(s0)
    ensures Valid(s) && LiveFresh(s) && SamePlaces(s, s0)
    ensures enqueued == found
    ensures Live(s) == Live(s0) - Elems(found)
    ensures |Live(s)| + |found| == |Live(s0)|
    ensures forall id :: id in s0.world && id !in found ==> s.world[id] == s0.world[id]
  {
    s, enqueued := s0, [];
    var i := 0;
    assert found[..0] == [];
    while i < |found|
      invariant 0 <= i <= |found|
      invariant HopInv(s0, s, found, i)
      invariant enqueued == found[..i]
    {
      var o := found[i];
      ExplodeStep(s0, s, found, i);
      if o in s.world && !s.world[o].state.exploded {
        TakeSnoc(found, i);
        s := ExplodeSelf(s, o).scene;
        enqueued := enqueued + [o];
      }
      i := i + 1;
    }
    assert found[..|found|] == found;
  }

  /** Every exploded obstacle lies within `radius` of the dequeued obstacle
      whose query found it, and that obstacle was dequeued before. */
  ghost predicate Parented(s0: Scene, initial: seq<Id>, radius: real,
                           processed: seq<Id>, log: seq<Id>, parents: seq<nat>)
    requires InWorld(processed, s0) && InWorld(log, s0)
  {
    && |parents| == |log|
    && forall k :: 0 <= k < |log| ==>
         && parents[k] < |initial| + k
         && parents[k] < |processed|
         && Overlaps(Pos(s0, processed[parents[k]]), radius, Pos(s0, log[k]), Ext(s0, log[k]))
  }

  /** No obstacle of `live` lies within `radius` of a dequeued obstacle. */
  ghost predicate Closed(s0: Scene, radius: real, processed: seq<Id>, live: set<Id>)
    requires InWorld(processed, s0) && live <= s0.world.Keys
  {
    forall j, id :: 0 <= j < |processed| && id in live ==>
      !Overlaps(Pos(s0, processed[j]), radius, Pos(s0, id), Ext(s0, id))
  }

  /** The invariant of the chain loop. */
  ghost predicate ChainInv(s0: Scene, initial: seq<Id>, radius: real, s: Scene,
                           processed: seq<Id>, q: seq<Id>, log: seq<Id>,
                           parents: seq<nat>, saturated: bool)
  {
    && Valid(s) && LiveFresh(s) && SamePlaces(s, s0)
    && processed + q == initial + log
    && InWorld(processed, s0) && InWorld(q, s0) && InWorld(log, s0)
    && Distinct(log) && Elems(log) <= Live(s0)
    && Live(s) == Live(s0) - Elems(log)
    && |Live(s)| + |log| == |Live(s0)|
    && (forall id :: id in s0.world && id !in log ==> s.world[id] == s0.world[id])
    && Parented(s0, initial, radius, processed, log, parents)
    && (!saturated ==> Live(s) <= s0.world.Keys && Closed(s0, radius, processed, Live(s)))
  }

  /** The queue bookkeeping of one iteration: dequeue `cur`, append `found`. */
  lemma StepQueue(s0: Scene, initial: seq<Id>, processed: seq<Id>, q: seq<Id>,
                  log: seq<Id>, found: seq<Id>)
    requires |q| > 0
    requires processed + q == initial + log
    requires InWorld(processed, s0) && InWorld(q, s0) && InWorld(log, s0) && InWorld(found, s0)
    ensures (processed + [q[0]]) + (q[1..] + found) == initial + (log + found)
    ensures InWorld(processed + [q[0]], s0) && InWorld(q[1..] + found, s0) && InWorld(log + found, s0)
  {
    assert (processed + [q[0]]) + (q[1..] + found) == (processed + q) + found;
  }

  /** The scene bookkeeping of one iteration. */
  lemma StepScene(s0: Scene, s: Scene, t: Scene, log: seq<Id>, found: seq<Id>)
    requires Valid(s) && LiveFresh(s) && SamePlaces(s, s0)
    requires Distinct(log) && Elems(log) <= Live(s0)
    requires Live(s) == Live(s0) - Elems(log)
    requires |Live(s)| + |log| == |Live(s0)|
    requires forall id :: id in s0.world && id !in log ==> s.world[id] == s0.world[id]
    requires Distinct(found) && Elems(found) <= Live(s)
    requires Valid(t) && LiveFresh(t) && SamePlaces(t, s)
    requires Live(t) == Live(s) - Elems(found)
    requires |Live(t)| + |found| == |Live(s)|
    requires forall id :: id in s.world && id !in found ==> t.world[id] == s.world[id]
    ensures SamePlaces(t, s0)
    ensures Distinct(log + found) && Elems(log + found) <= Live(s0)
    ensures Live(t) == Live(s0) - Elems(log + found)
    ensures |Live(t)| + |log + found| == |Live(s0)|
    ensures forall id :: id in s0.world && id !in log + found ==> t.world[id] == s0.world[id]
  {
    DistinctAppend(log, found);
    forall id | id in s0.world && id !in log + found
      ensures t.world[id] == s0.world[id]
    {
      assert id !in Elems(log) && id !in Elems(found);
    }
  }

  /** The parent bookkeeping of one iteration: everything `cur`'s query found
      gets `cur`'s index as its parent. */
  lemma StepParents(s0: Scene, initial: seq<Id>, radius: real, processed: seq<Id>, q: seq<Id>,
                    log: seq<Id>, parents: seq<nat>, found: seq<Id>)
    requires |q| > 0
    requires processed + q == initial + log
    requires InWorld(q, s0) && InWorld(found, s0)
    requires InWorld(processed + [q[0]], s0) && InWorld(log + found, s0) && InWorld(log, s0) && InWorld(processed, s0)
    requires Parented(s0, initial, radius, processed, log, parents)
    requires forall i :: 0 <= i < |found| ==> Overlaps(Pos(s0, q[0]), radius, Pos(s0, found[i]), Ext(s0, found[i]))
    ensures Parented(s0, initial, radius, processed + [q[0]], log + found,
                     parents + Repeat(|found|, |processed|))
  {
    var ps := parents + Repeat(|found|, |processed|);
    assert |processed| + |q| == |initial| + |log|;
    forall k | 0 <= k < |log + found|
      ensures ps[k] < |initial| + k && ps[k] < |processed| + 1
      ensures Overlaps(Pos(s0, (processed + [q[0]])[ps[k]]), radius, Pos(s0, (log + found)[k]), Ext(s0, (log + found)[k]))
    {
      if k < |log| {
        assert ps[k] == parents[k] && (log + found)[k] == log[k];
        assert (processed + [q[0]])[ps[k]] == processed[parents[k]];
      } else {
        assert ps[k] == |processed| && (log + found)[k] == found[k - |log|];
        assert (processed + [q[0]])[ps[k]] == q[0];
      }
    }
  }

  /** The closure bookkeeping of one iteration: an unsaturated query found
      every live neighbour of `cur`, and all of them are now exploded. */
  lemma StepClosed(s0: Scene, radius: real, processed: seq<Id>, cur: Id,
                   s: Scene, t: Scene, found: seq<Id>)
    requires cur in s0.world
    requires InWorld(processed + [cur], s0) && InWorld(processed, s0)
    requires Live(s) <= s0.world.Keys && Live(t) <= Live(s)
    requires Closed(s0, radius, processed, Live(s))
    requires Live(t) == Live(s) - Elems(found)
    requires forall id :: id in Live(s) && Overlaps(Pos(s0, cur), radius, Pos(s0, id), Ext(s0, id)) ==> id in found
    ensures Closed(s0, radius, processed + [cur], Live(t))
  {
    forall j, id | 0 <= j < |processed + [cur]| && id in Live(t)
      ensures !Overlaps(Pos(s0, (processed + [cur])[j]), radius, Pos(s0, id), Ext(s0, id))
    {
      if j == |processed| {
        assert id !in Elems(found);
      } else {
        assert (processed + [cur])[j] == processed[j];
      }
    }
  }

  /** One iteration of the chain loop keeps its invariant and decreases its
      measure: `found` is a sound answer for the dequeued obstacle and `t` is
      the scene after ExplodeNeighbours exploded all of it. */
  lemma ChainStep(s0: Scene, initial: seq<Id>, radius: real, s: Scene,
                  processed: seq<Id>, q: seq<Id>, log: seq<Id>, parents: seq<nat>,
                  saturated: bool, found: seq<Id>, t: Scene)
    requires ChainInv(s0, initial, radius, s, processed, q, log, parents, saturated)
    requires |q| > 0
    requires SoundAnswer(found, Pos(s0, q[0]), radius, Live(s), s0)
    requires Valid(t) && LiveFresh(t) && SamePlaces(t, s)
    requires Live(t) == Live(s) - Elems(found)
    requires |Live(t)| + |found| == |Live(s)|
    requires forall id :: id in s.world && id !in found ==> t.world[id] == s.world[id]
    ensures ChainInv(s0, initial, radius, t, processed + [q[0]], q[1..] + found, log + found,
                     parents + Repeat(|found|, |processed|), saturated || |found| >= MaxOverlap)
    ensures 2 * |Live(t)| + |q[1..] + found| < 2 * |Live(s)| + |q|
  {
    StepQueue(s0, initial, processed, q, log, found);
    StepScene(s0, s, t, log, found);
    StepParents(s0, initial, radius, processed, q, log, parents, found);
    if !saturated && |found| < MaxOverlap {
      StepClosed(s0, radius, processed, q[0], s, t, found);
    }
  }

  /** The chain loop (ChainExplode). `initial` is the queue's initial
      content; every dequeued obstacle is re-queried with the same `radius`,
      and every live result is exploded and then enqueued.

      Results: the final scene; the dequeued obstacles in order; the
      obstacles the loop exploded, in order; for each of those, the index in
      `processed` of the obstacle whose query found it; and whether some
      query filled the whole buffer (so neighbours may have been dropped). */
  method ChainExplode(s0: Scene, initial: seq<Id>, radius: real, query: Query)
    returns (s: Scene, processed: seq<Id>, log: seq<Id>, parents: seq<nat>, saturated: bool)
    requires Valid(s0) && LiveFresh(s0)
    requires SoundOracle(query, s0)
    requires InWorld(initial, s0)
    ensures Valid(s) && LiveFresh(s) && SamePlaces(s, s0)
    // queue discipline: everything enqueued is dequeued once, in order
    ensures processed == initial + log
    ensures InWorld(processed, s0) && InWorld(log, s0)
    // at most once: each obstacle is exploded by the loop at most once, and only if it was live
    ensures Distinct(log) && Elems(log) <= Live(s0)
    ensures Live(s) == Live(s0) - Elems(log)
    // termination measure: enqueues never exceed the live obstacles
    ensures |log| <= |Live(s0)|
    ensures forall id :: id in s0.world && id !in log ==> s.world[id] == s0.world[id]
    // soundness: every explosion lies within `radius` of an obstacle dequeued before it was found
    ensures Parented(s0, initial, radius, processed, log, parents)
    // closure: unless a query filled the buffer, no live obstacle is left within `radius` of a dequeued one
    ensures !saturated ==> Closed(s0, radius, processed, Live(s))
  {
    s := s0;
    var q := initial;
    processed, log, parents, saturated := [], [], [], false;
    while |q| > 0
      invariant ChainInv(s0, initial, radius, s, processed, q, log, parents, saturated)
      decreases 2 * |Live(s)| + |q|
    {
      var cur := q[0];
      var live := Live(s);
      var found := query(s.world[cur].state.position, radius, live);
      assert SoundAnswer(found, Pos(s0, cur), radius, live, s0);
      var t, enqueued := ExplodeNeighbours(s, found);
      ChainStep(s0, initial, radius, s, processed, q, log, parents, saturated, found, t);
      saturated := saturated || |found| >= MaxOverlap;
      parents := parents + Repeat(|enqueued|, |processed|);
      processed := processed + [cur];
      q := q[1..] + enqueued;
      log := log + enqueued;
      s := t;
    }
  }

  /** The results of a query that are obstacles not yet exploded, in query
      order (the `toExplode` list of HandleProjectileHit). */
  function FilterFresh(s: Scene, found: seq<Id>): (r: seq<Id>)
    ensures |r| <= |found|
    ensures forall x :: x in r <==> x in found && x in s.world && !s.world[x].state.exploded
    ensures Distinct(found) ==> Distinct(r)
  {
    if found == [] then []
    else
      var rest := FilterFresh(s, found[1..]);
      if found[0] in s.world && !s.world[found[0]].state.exploded then [found[0]] + rest else rest
  }

  /** A query answers live obstacles only, and live obstacles are fresh, so
      the filter keeps every result. */
  lemma {:induction false} FilterFreshKeepsLive(s: Scene, found: seq<Id>)
    requires LiveFresh(s)
    requires forall i :: 0 <= i < |found| ==> found[i] in Live(s)
    ensures FilterFresh(s, found) == found
  {
    if found != [] {
      assert found[0] in Live(s);
      FilterFreshKeepsLive(s, found[1..]);
    }
  }

  /** Whether a query answer is sound depends on the scene only through its
      obstacles and their positions. */
  lemma OracleSamePlaces(query: Query, s0: Scene, s: Scene)
    requires SamePlaces(s, s0)
    requires SoundOracle(query, s0)
    ensures SoundOracle(query, s)
  {
    forall c, r, live | live <= s.world.Keys
      ensures SoundAnswer(query(c, r, live), c, r, live, s)
    {
      assert SoundAnswer(query(c, r, live), c, r, live, s0);
    }
  }

  /** Parented and Closed read positions only. */
  lemma TraceSamePlaces(s0: Scene, s: Scene, initial: seq<Id>, radius: real,
                        processed: seq<Id>, log: seq<Id>, parents: seq<nat>, live: set<Id>)
    requires SamePlaces(s, s0)
    requires InWorld(processed, s) && InWorld(log, s) && live <= s.world.Keys
    requires Parented(s, initial, radius, processed, log, parents)
    ensures InWorld(processed, s0) && InWorld(log, s0)
    ensures Parented(s0, initial, radius, processed, log, parents)
    ensures Closed(s, radius, processed, live) ==> Closed(s0, radius, processed, live)
  {
  }

  /** The scene bookkeeping of HandleProjectileHit: the seed phase took `s0`
      to `s1`, the chain loop took `s1` to `s`. */
  lemma HitScene(s0: Scene, s1: Scene, s: Scene, seeds: seq<Id>, log: seq<Id>)
    requires Distinct(seeds) && Elems(seeds) <= Live(s0) && InWorld(seeds, s0)
    requires Valid(s1) && LiveFresh(s1) && SamePlaces(s1, s0)
    requires Live(s1) == Live(s0) - Elems(seeds)
    requires forall id :: id in s0.world && id !in seeds ==> s1.world[id] == s0.world[id]
    requires Valid(s) && LiveFresh(s) && SamePlaces(s, s1)
    requires InWorld(log, s1) && Distinct(log) && Elems(log) <= Live(s1)
    requires Live(s) == Live(s1) - Elems(log)
    requires forall id :: id in s1.world && id !in log ==> s.world[id] == s1.world[id]
    ensures Valid(s) && LiveFresh(s) && SamePlaces(s, s0)
    ensures InWorld(log, s0) && InWorld(seeds + log, s0)
    ensures Distinct(seeds + log) && Elems(seeds + log) <= Live(s0)
    ensures Live(s) == Live(s0) - Elems(seeds + log)
    ensures forall id :: id in s0.world && id !in seeds + log ==> s.world[id] == s0.world[id]
  {
    DistinctAppend(seeds, log);
    forall id | id in s0.world && id !in seeds + log
      ensures s.world[id] == s0.world[id]
    {
      assert id !in Elems(seeds) && id !in Elems(log);
    }
  }

  /** The trace bookkeeping of HandleProjectileHit: the seeds are the sound
      answer of the query around the hit obstacle `h`. */
  lemma HitTrace(s0: Scene, s1: Scene, s: Scene, h: Id, radius: real, found: seq<Id>,
                 log: seq<Id>, parents: seq<nat>, chainSat: bool)
    requires h in s0.world
    requires SoundAnswer(found, Pos(s0, h), radius, Live(s0), s0)
    requires SamePlaces(s1, s0)
    requires InWorld(found + log, s1) && InWorld(log, s1)
    requires Parented(s1, found, radius, found + log, log, parents)
    requires Live(s) <= Live(s0) - Elems(found) && Live(s) <= s1.world.Keys
    requires !chainSat ==> Closed(s1, radius, found + log, Live(s))
    ensures forall i :: 0 <= i < |found| ==> Overlaps(Pos(s0, h), radius, Pos(s0, found[i]), Ext(s0, found[i]))
    ensures InWorld(found + log, s0) && InWorld(log, s0)
    ensures Parented(s0, found, radius, found + log, log, parents)
    ensures |found| < MaxOverlap ==> forall id :: id in Live(s) ==> !Overlaps(Pos(s0, h), radius, Pos(s0, id), Ext(s0, id))
    ensures !chainSat ==> Closed(s0, radius, found + log, Live(s))
  {
    TraceSamePlaces(s0, s1, found, radius, found + log, log, parents, Live(s));
    if |found| < MaxOverlap {
      forall id | id in Live(s)
        ensures !Overlaps(Pos(s0, h), radius, Pos(s0, id), Ext(s0, id))
      {
        assert id !in Elems(found);
      }
    }
  }

  /** HandleProjectileHit. A hit on something that is not an obstacle does
      nothing. Otherwise the infection radius is the projectile's radius
      times the infection multiplier; the obstacles found around the hit
      obstacle are the seeds, all exploded at once, and then the chain loop
      runs from them with the same radius.

      Results: the final scene; the seeds; the obstacles the chain loop
      exploded, in order; their parents' indices in `seeds + log`; and
      whether some query filled the whole buffer. */
  method HandleProjectileHit(s0: Scene, hit: Option<Id>, projectileRadius: real,
                             infectionMultiplier: real, query: Query)
    returns (s: Scene, seeds: seq<Id>, log: seq<Id>, parents: seq<nat>, saturated: bool)
    requires Valid(s0) && LiveFresh(s0)
    requires SoundOracle(query, s0)
    requires hit.Some? ==> hit.value in s0.world
    ensures hit.None? ==> s == s0 && seeds == [] && log == []
    ensures Valid(s) && LiveFresh(s) && SamePlaces(s, s0)
    ensures InWorld(seeds, s0) && InWorld(log, s0) && InWorld(seeds + log, s0)
    // every obstacle explodes at most once, and only if it was live
    ensures Distinct(seeds + log) && Elems(seeds + log) <= Live(s0)
    ensures Live(s) == Live(s0) - Elems(seeds + log)
    ensures forall id :: id in s0.world && id !in seeds + log ==> s.world[id] == s0.world[id]
    // soundness: the seeds lie within the infection radius of the hit obstacle,
    // and every other explosion within it of an obstacle exploded before
    ensures hit.Some? ==> forall i :: 0 <= i < |seeds| ==>
              Overlaps(Pos(s0, hit.value), projectileRadius * infectionMultiplier, Pos(s0, seeds[i]), Ext(s0, seeds[i]))
    ensures Parented(s0, seeds, projectileRadius * infectionMultiplier, seeds + log, log, parents)
    // closure: unless the buffer filled, nothing live is left within the
    // infection radius of the hit obstacle or of any exploded obstacle
    ensures hit.Some? && !saturated ==> forall id :: id in Live(s) ==>
              !Overlaps(Pos(s0, hit.value), projectileRadius * infectionMultiplier, Pos(s0, id), Ext(s0, id))
    ensures !saturated ==>
              && Live(s) <= s0.world.Keys
              && Closed(s0, projectileRadius * infectionMultiplier, seeds + log, Live(s))
  {
    var radius := projectileRadius * infectionMultiplier;
    if hit.None? {
      s, seeds, log, parents, saturated := s0, [], [], [], false;
      assert Live(s) == Live(s0) - Elems(seeds + log);
      return;
    }
    var h := hit.value;
    var found := query(s0.world[h].state.position, radius, Live(s0));
    assert SoundAnswer(found, Pos(s0, h), radius, Live(s0), s0);
    FilterFreshKeepsLive(s0, found);
    seeds := FilterFresh(s0, found);
    var s1, _ := ExplodeNeighbours(s0, seeds);
    OracleSamePlaces(query, s0, s1);
    var processed, chainSat;
    s, processed, log, parents, chainSat := ChainExplode(s1, seeds, radius, query);
    HitScene(s0, s1, s, seeds, log);
    HitTrace(s0, s1, s, h, radius, found, log, parents, chainSat);
    saturated := chainSat || |found| >= MaxOverlap;
  }
}
