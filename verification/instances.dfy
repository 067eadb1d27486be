/** The service registry (Instances): a map from a type to the one object
    registered for it. Lookups cast the stored object to the requested type,
    so an entry whose object is not of its key's type reads as absent. */
module Registry {
  import opened Options

  /** A type's name; the registry is keyed by System.Type. */
  type TypeName = string

  /** An object, with every type it is an instance of (its class and the
      classes and interfaces above it). */
  datatype Obj = Obj(ref: nat, types: set<TypeName>)

  datatype Registry = Registry(entries: map<TypeName, Obj>)

  datatype Error = ArgumentNull

  const Empty := Registry(map[])

  /** Each entry's object is an instance of the type it is filed under. */
  ghost predicate WellTyped(r: Registry) {
    forall t :: t in r.entries ==> t in r.entries[t].types
  }

  /** TryGet<T>: the entry for T cast to T (`as T`), or null. The boolean
      result of the source is `instance != null`, i.e. `Some?` here. */
  function TryGet(r: Registry, t: TypeName): (instance: Option<Obj>)
    ensures t !in r.entries ==> instance.None?
    ensures instance.Some? ==> t in r.entries && instance.value == r.entries[t] && t in instance.value.types
    ensures WellTyped(r) ==> (instance.Some? <==> t in r.entries)
  {
    if t in r.entries && t in r.entries[t].types then Some(r.entries[t]) else None
  }

  /** Get<T>: the instance TryGet finds, or null (after a warning). */
  function Get(r: Registry, t: TypeName): (instance: Option<Obj>)
    ensures t !in r.entries ==> instance.None?
    ensures instance.Some? ==> t in r.entries && instance.value == r.entries[t]
    ensures WellTyped(r) && t in r.entries ==> instance == Some(r.entries[t])
  {
    match TryGet(r, t)
    case Some(o) => Some(o)
    case None => None
  }

  /** Register<T>(instance): null throws ArgumentNullException; otherwise
      the entry for T is set, replacing any earlier one. Static typing
      guarantees the instance is a T. */
  function Register(r: Registry, t: TypeName, instance: Option<Obj>): (res: Result<Registry, Error>)
    requires instance.Some? ==> t in instance.value.types
    ensures instance.None? <==> res == Failure(ArgumentNull)
    ensures instance.Some? ==>
      && res.Success?
      && TryGet(res.value, t) == instance
      && res.value.entries.Keys == r.entries.Keys + {t}
      && (forall u :: u != t ==> TryGet(res.value, u) == TryGet(r, u))
      && (WellTyped(r) ==> WellTyped(res.value))
  {
    match instance
    case None => Failure(ArgumentNull)
    case Some(o) => Success(Registry(r.entries[t := o]))
  }

  /** RegisterPoolByType: file a pool under its runtime type unless that
      type already has an entry; the first registration wins. */
  function RegisterPoolByType(r: Registry, pool: Obj, t: TypeName): (res: Registry)
    requires t in pool.types
    ensures t in r.entries ==> res == r
    ensures t !in r.entries ==>
      && TryGet(res, t) == Some(pool)
      && res.entries.Keys == r.entries.Keys + {t}
      && (forall u :: u != t ==> TryGet(res, u) == TryGet(r, u))
    ensures WellTyped(r) ==> WellTyped(res)
  {
    if t in r.entries then r else Registry(r.entries[t := pool])
  }

  /** Unregister<T>: drop T's entry and no other. */
  function Unregister(r: Registry, t: TypeName): (res: Registry)
    ensures TryGet(res, t).None? && t !in res.entries
    ensures res.entries.Keys == r.entries.Keys - {t}
    ensures forall u :: u != t ==> TryGet(res, u) == TryGet(r, u)
    ensures WellTyped(r) ==> WellTyped(res)
  {
    Registry(r.entries - {t})
  }

  /** ClearAll: nothing is registered afterwards. */
  function ClearAll(r: Registry): (res: Registry)
    ensures forall t :: TryGet(res, t).None?
    ensures res.entries.Keys == {}
    ensures WellTyped(res)
  {
    Empty
  }

  /** A later Register of the same type replaces the earlier one. */
  lemma RegisterOverwrites(r: Registry, t: TypeName, x: Obj, y: Obj)
    requires t in x.types && t in y.types
    ensures var first := Register(r, t, Some(x));
            first.Success? && Register(first.value, t, Some(y)).Success?
            && TryGet(Register(first.value, t, Some(y)).value, t) == Some(y)
  {
  }

  /** A second pool of the same type does not displace the first. */
  lemma PoolFirstWins(r: Registry, t: TypeName, p: Obj, q: Obj)
    requires t !in r.entries && t in p.types && t in q.types
    ensures TryGet(RegisterPoolByType(RegisterPoolByType(r, p, t), q, t), t) == Some(p)
  {
  }

  /** Register undoes Unregister, and Unregister undoes the registration of
      a type that was absent before. */
  lemma RegisterUnregister(r: Registry, t: TypeName, x: Obj)
    requires t in x.types && t !in r.entries
    ensures Register(r, t, Some(x)).Success?
    ensures Unregister(Register(r, t, Some(x)).value, t) == r
  {
    assert Unregister(Register(r, t, Some(x)).value, t).entries == r.entries;
  }
}
