/**
 * The process-wide property cache of ObjectExtensions: a map from a type to the
 * property list introspection gives for it, filled on first request and never
 * evicted. Modelled sequentially: the map is threaded through the calls.
 */
module PropertyCache {
  import opened Reflection

  type Cache = map<TypeId, seq<PropDesc>>

  /** Every cached entry is what introspection yields for its type. */
  ghost predicate Sound(cache: Cache, introspect: TypeId -> seq<PropDesc>) {
    forall t :: t in cache ==> cache[t] == introspect(t)
  }

  /**
   * `GetPropertiesCached`: `GetOrAdd(type, introspect)`. Returns the property
   * list and the cache afterwards.
   */
  function GetPropertiesCached(cache: Cache, introspect: TypeId -> seq<PropDesc>, t: TypeId): (r: (seq<PropDesc>, Cache))
    // afterwards the requested type is cached, mapped to the list returned
    ensures t in r.1 && r.1[t] == r.0
    // the only key that may be added is the requested one
    ensures r.1.Keys == cache.Keys + {t}
    // an existing entry is returned as it is, and no entry is ever replaced
    ensures t in cache ==> r.0 == cache[t]
    ensures forall u :: u in cache ==> r.1[u] == cache[u]
    // a miss stores what introspection yields
    ensures t !in cache ==> r.0 == introspect(t)
    // the cache invariant is kept, and then the answer is the introspected list
    ensures Sound(cache, introspect) ==> r.0 == introspect(t) && Sound(r.1, introspect)
  {
    if t in cache then (cache[t], cache) else (introspect(t), cache[t := introspect(t)])
  }

  /** Asking twice gives the same answer, and the second request leaves the cache as it is. */
  lemma GetPropertiesCachedIdempotent(cache: Cache, introspect: TypeId -> seq<PropDesc>, t: TypeId)
    ensures var (props, cache') := GetPropertiesCached(cache, introspect, t);
            GetPropertiesCached(cache', introspect, t) == (props, cache')
  {
  }
}
