/** The key-value backend, seen as a finite map from config name to stored value,
    and the two reads constance makes of it. */
module Backend {
  import opened Registry

  /** What `getattr(config, name)` makes of a stored value: None reads as the
      entry's default. */
  function ReadBack<V>(isNone: V -> bool, stored: V, e: ConfigEntry<V>): V {
    if isNone(stored) then e.default else stored
  }

  /** `getattr(config, name)`: the stored value if the backend holds one that is
      not None, the entry's default otherwise. */
  function Current<V>(isNone: V -> bool, backend: map<string, V>, e: ConfigEntry<V>): (r: V)
    ensures r == e.default || !isNone(r)
    ensures r != e.default ==> e.name in backend && r == backend[e.name]
    ensures e.name in backend && !isNone(backend[e.name]) ==> r == backend[e.name]
  {
    if e.name in backend then ReadBack(isNone, backend[e.name], e) else e.default
  }

  /** A value read through `getattr` reads back as itself. */
  lemma CurrentReadsBack<V>(isNone: V -> bool, backend: map<string, V>, e: ConfigEntry<V>)
    ensures ReadBack(isNone, Current(isNone, backend, e), e) == Current(isNone, backend, e)
  {
  }

  /** `backend.mget(keys)`: the pairs the backend holds for the requested keys. */
  function Mget<V>(backend: map<string, V>, keys: set<string>): (r: map<string, V>)
    ensures r.Keys == backend.Keys * keys
    ensures forall k :: k in r ==> r[k] == backend[k]
  {
    map k | k in backend && k in keys :: backend[k]
  }
}
