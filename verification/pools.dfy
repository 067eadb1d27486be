/** The generic entity pool (ObjectPool<T>): a FIFO queue of inactive objects
    that grows on demand, with a kind-specific reset hook that runs on every
    object handed out and on every object handed back.

    The scene is modelled as a map from object identities to handles; a
    handle pairs the GameObject's active flag with the component's state.
    Instantiate allocates the next unused identity. */
module Pools {
  import opened Options

  type Id = nat

  /** Identity of a pool object (the target of a `pool` back-reference). */
  type PoolRef = nat

  /** A GameObject: its active flag and the state of its component. */
  datatype Handle<S> = Handle(active: bool, state: S)

  /** A kind's reset hook (ResetObject). It may change the active flag too. */
  type Hook<!S> = Handle<S> -> Handle<S>

  /** A pool together with every object it ever created.
      `queue` is the backing Queue<T>; `world` holds all objects, pooled or
      handed out; `next` is the next identity Instantiate will use. */
  datatype Pool<S> = Pool(self: PoolRef, initialSize: int, prefab: S,
                          queue: seq<Id>, world: map<Id, Handle<S>>, next: Id)

  /** Every queued object exists, and no existing object uses a fresh identity. */
  ghost predicate Valid<S>(p: Pool<S>) {
    && (forall id :: id in p.world ==> id < p.next)
    && (forall i :: 0 <= i < |p.queue| ==> p.queue[i] in p.world)
  }

  /** Counts of each object in the queue. */
  function Occurrences(q: seq<Id>, id: Id): (n: nat)
    ensures n <= |q|
    ensures n == 0 <==> id !in q
  {
    if q == [] then 0 else (if q[0] == id then 1 else 0) + Occurrences(q[1..], id)
  }

  /** Awake: instantiate `initialSize` copies of the prefab, each inactive,
      and queue them in creation order. The prefill does not run the hook.
      The registration that follows (RegisterPool) is a registry update,
      modelled by the Registry module; callers of the pool learn its outcome
      as a "pool found" parameter. */
  function Awake<S>(self: PoolRef, initialSize: int, prefab: S): (p: Pool<S>)
    ensures Valid(p)
    ensures initialSize >= 0 ==> |p.queue| == initialSize
    ensures initialSize < 0 ==> p.queue == []
    ensures forall i :: 0 <= i < |p.queue| ==> p.queue[i] == i
    ensures forall id: Id :: id in p.world <==> id < |p.queue|
    ensures forall id :: id in p.world ==> p.world[id] == Handle(false, prefab)
  {
    var n := if initialSize < 0 then 0 else initialSize;
    Pool(self, initialSize, prefab,
         seq(n, i => i),
         Prefill(n, prefab),
         n)
  }

  /** The world after instantiating `n` inactive copies of the prefab. */
  function Prefill<S>(n: nat, prefab: S): (w: map<Id, Handle<S>>)
    ensures forall id: Id :: id in w <==> id < n
    ensures forall id :: id in w ==> w[id] == Handle(false, prefab)
  {
    if n == 0 then map[] else Prefill(n - 1, prefab)[n - 1 := Handle(false, prefab)]
  }

  /** Get: take the oldest queued object and activate it, or instantiate a
      fresh active copy of the prefab when the queue is empty; either way the
      hook runs on it last. Returns the new pool and the object handed out. */
  function Get<S>(p: Pool<S>, reset: Hook<S>): (r: (Pool<S>, Id))
    requires Valid(p)
    ensures Valid(r.0)
    ensures r.1 in r.0.world
    ensures r.0.world.Keys == p.world.Keys + {r.1}
    ensures forall id :: id in p.world && id != r.1 ==> r.0.world[id] == p.world[id]
    ensures r.0.self == p.self && r.0.prefab == p.prefab && r.0.initialSize == p.initialSize
    // FIFO: the head of a non-empty queue is handed out and the rest keeps its order
    ensures |p.queue| > 0 ==>
      && r.1 == p.queue[0]
      && r.0.queue == p.queue[1..]
      && r.0.world[r.1] == reset(p.world[r.1].(active := true))
    // growth: an empty pool instantiates an object it never had
    ensures |p.queue| == 0 ==>
      && r.1 !in p.world
      && r.0.queue == []
      && r.0.world[r.1] == reset(Handle(true, p.prefab))
  {
    if |p.queue| > 0 then
      var id := p.queue[0];
      var h := p.world[id].(active := true);
      (p.(queue := p.queue[1..], world := p.world[id := reset(h)]), id)
    else
      var id := p.next;
      (p.(world := p.world[id := reset(Handle(true, p.prefab))], next := p.next + 1), id)
  }

  /** Return: a null object is ignored; otherwise the hook runs, the object
      is deactivated and appended to the queue. Nothing checks whether the
      object is already queued. */
  function Return<S>(p: Pool<S>, obj: Option<Id>, reset: Hook<S>): (r: Pool<S>)
    requires Valid(p)
    requires obj.Some? ==> obj.value in p.world
    ensures Valid(r)
    ensures obj.None? ==> r == p
    ensures obj.Some? ==>
      && r.queue == p.queue + [obj.value]
      && r.world == p.world[obj.value := reset(p.world[obj.value]).(active := false)]
      && Occurrences(r.queue, obj.value) == Occurrences(p.queue, obj.value) + 1
    ensures r.self == p.self && r.prefab == p.prefab && r.next == p.next
    ensures r.initialSize == p.initialSize
  {
    match obj
    case None => p
    case Some(id) =>
      OccurrencesAppend(p.queue, id, id);
      p.(queue := p.queue + [id], world := p.world[id := reset(p.world[id]).(active := false)])
  }

  lemma {:induction false} OccurrencesAppend(q: seq<Id>, x: Id, id: Id)
    ensures Occurrences(q + [x], id) == Occurrences(q, id) + (if x == id then 1 else 0)
  {
    if q == [] {
      assert [x][1..] == [];
    } else {
      assert (q + [x])[1..] == q[1..] + [x];
      OccurrencesAppend(q[1..], x, id);
    }
  }

  /** A double Return queues the object twice: the pool does not detect it. */
  lemma DoubleReturnQueuesTwice<S>(p: Pool<S>, id: Id, reset: Hook<S>)
    requires Valid(p) && id in p.world
    ensures var r := Return(Return(p, Some(id), reset), Some(id), reset);
            r.queue == p.queue + [id, id] && Occurrences(r.queue, id) == Occurrences(p.queue, id) + 2
  {
  }

  /** Round trip: an object returned to an empty pool is the next one handed
      out, and what the caller receives is the hook applied to the returned
      object after the pool re-activated it. */
  lemma ReturnThenGet<S>(p: Pool<S>, id: Id, reset: Hook<S>)
    requires Valid(p) && id in p.world && p.queue == []
    ensures var (p2, got) := Get(Return(p, Some(id), reset), reset);
            && got == id
            && p2.queue == []
            && p2.world[id] == reset(reset(p.world[id]).(active := true))
  {
  }

  /** FIFO order: after returning `id` to any pool, `id` is handed out exactly
      when every object queued before it has been handed out. */
  lemma {:induction false} ReturnedComesOutAfterQueue<S>(p: Pool<S>, id: Id, reset: Hook<S>)
    requires Valid(p) && id in p.world
    ensures GetN(Return(p, Some(id), reset), reset, |p.queue|).0.queue == [id]
    ensures GetN(Return(p, Some(id), reset), reset, |p.queue|).1 == p.queue
  {
    GetNDrains(Return(p, Some(id), reset), reset, |p.queue|);
  }

  /** `n` consecutive Get calls: the resulting pool and the objects handed out, in order. */
  function GetN<S>(p: Pool<S>, reset: Hook<S>, n: nat): (r: (Pool<S>, seq<Id>))
    requires Valid(p)
    ensures Valid(r.0)
    ensures |r.1| == n
    ensures r.0.self == p.self
    decreases n
  {
    if n == 0 then (p, [])
    else
      var (p1, id) := Get(p, reset);
      var (p2, ids) := GetN(p1, reset, n - 1);
      (p2, [id] + ids)
  }

  /** Draining: `n` Gets on a queue of at least `n` objects hand out its first
      `n` objects in queue order and leave the rest queued. */
  lemma {:induction false} GetNDrains<S>(p: Pool<S>, reset: Hook<S>, n: nat)
    requires Valid(p) && n <= |p.queue|
    ensures GetN(p, reset, n).1 == p.queue[..n]
    ensures GetN(p, reset, n).0.queue == p.queue[n..]
    decreases n
  {
    if n > 0 {
      var (p1, id) := Get(p, reset);
      GetNDrains(p1, reset, n - 1);
      assert p1.queue == p.queue[1..];
      assert p.queue[..n] == [p.queue[0]] + p.queue[1..][..n - 1];
      assert p.queue[n..] == p.queue[1..][n - 1..];
    }
  }

  /** Awake then Get on a positive initial size hands out the first prefilled
      object, re-activated and reset; the queue shrinks by one. */
  lemma AwakeThenGet<S>(self: PoolRef, initialSize: int, prefab: S, reset: Hook<S>)
    requires initialSize > 0
    ensures var (p, id) := Get(Awake(self, initialSize, prefab), reset);
            id == 0 && |p.queue| == initialSize - 1 && p.world[0] == reset(Handle(true, prefab))
  {
  }
}
