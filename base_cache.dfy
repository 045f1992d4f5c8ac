/**
  The marshalling steps of BaseCache (cache.py): the identity default, key
  normalisation through key_fn, (de)serialisation through serde, the reverse
  mapping from cache keys to caller keys, and the comprehensions the wrappers
  use to build their results.

  Python is untyped; here caller keys and cache keys share one type K, and
  values and serialised values share one type V, because the source hands the
  caller's own keys and values to the backend's write hook while its read hook
  receives cache keys.
*/
module BaseCache {

  import opened Wrappers

  /** `_return_x`: hands back its first argument; the default for key_fn, serde and the negative cache. */
  function ReturnX<T>(x: T): (r: T)
    ensures r == x
  {
    x
  }

  /** A serde object: the pair of functions BaseCache takes from it. */
  datatype Serde<!V> = Serde(serialize: V -> V, deserialize: V -> V)

  /** The three functions a BaseCache applies to keys and values. */
  datatype Codecs<!K, !V> = Codecs(keyFn: K -> K, serialize: V -> V, deserialize: V -> V)

  /** BaseCache.__init__: a missing key_fn or serde falls back to the identity. */
  function MakeCodecs<K(!new), V(!new)>(keyFn: Option<K -> K>, serde: Option<Serde<V>>): (c: Codecs<K, V>)
    ensures keyFn.Some? ==> forall k :: c.keyFn(k) == keyFn.value(k)
    ensures keyFn.None? ==> forall k :: c.keyFn(k) == k
    ensures serde.Some? ==> forall v :: c.serialize(v) == serde.value.serialize(v) && c.deserialize(v) == serde.value.deserialize(v)
    ensures serde.None? ==> forall v :: c.serialize(v) == v && c.deserialize(v) == v
  {
    var kf := if keyFn.Some? then keyFn.value else k => ReturnX(k);
    if serde.Some? then Codecs(kf, serde.value.serialize, serde.value.deserialize)
    else Codecs(kf, v => ReturnX(v), v => ReturnX(v))
  }

  /** All three functions are the identity, as in every DictCache. */
  ghost predicate Identity<K(!new), V(!new)>(c: Codecs<K, V>)
  {
    && (forall k :: c.keyFn(k) == k)
    && (forall v :: c.serialize(v) == v)
    && (forall v :: c.deserialize(v) == v)
  }

  /** The cache keys of a collection of caller keys. */
  function Image<K(!new)>(keyFn: K -> K, keys: set<K>): set<K>
  {
    set k | k in keys :: keyFn(k)
  }

  /** No two cache keys share a caller key. */
  ghost predicate Injective<K(!new)>(m: map<K, K>)
  {
    forall a, b :: a in m && b in m && m[a] == m[b] ==> a == b
  }

  /**
    `{key_fn(k): k for k in keys}`: the reverse mapping from each cache key to
    the caller key it came from; on a collision the later caller key wins.
  */
  function CacheKeys<K(!new)>(keyFn: K -> K, keys: seq<K>): (m: map<K, K>)
    ensures forall k :: k in keys ==> keyFn(k) in m
    ensures forall ck :: ck in m ==> m[ck] in keys && keyFn(m[ck]) == ck
    ensures Injective(m)
  {
    if keys == [] then map[]
    else
      var last := keys[|keys| - 1];
      CacheKeys(keyFn, keys[..|keys| - 1])[keyFn(last) := last]
  }

  /** The caller key a cache key maps back to is the last one in `keys` that produced it. */
  lemma {:induction false} CacheKeysLastWins<K(!new)>(keyFn: K -> K, keys: seq<K>, i: nat)
    requires i < |keys|
    requires forall j :: i < j < |keys| ==> keyFn(keys[j]) != keyFn(keys[i])
    ensures CacheKeys(keyFn, keys)[keyFn(keys[i])] == keys[i]
  {
    if i < |keys| - 1 {
      var front := keys[..|keys| - 1];
      assert keys[i] == front[i];
      assert forall j :: i < j < |front| ==> front[j] == keys[j];
      CacheKeysLastWins(keyFn, front, i);
    }
  }

  /**
    The dict comprehension that ends get_many: each value the backend found is
    deserialised and filed under the caller key of its cache key. Every cache
    key found must have been requested (otherwise `cache_keys[k]` raises).
  */
  function Rekey<K(!new), V(!new)>(cacheKeys: map<K, K>, found: map<K, V>, deserialize: V -> V): (r: map<K, V>)
    requires Injective(cacheKeys)
    requires found.Keys <= cacheKeys.Keys
    ensures forall ck :: ck in found ==> cacheKeys[ck] in r && r[cacheKeys[ck]] == deserialize(found[ck])
    ensures forall k :: k in r ==> exists ck :: ck in found && cacheKeys[ck] == k
  {
    map ck | ck in found :: cacheKeys[ck] := deserialize(found[ck])
  }

  /** `[k for k in exist_keys if k not in cache_mappings]`: the requested cache keys the backend did not return. */
  function Misses<K(!new), V(!new)>(keys: seq<K>, found: map<K, V>): (r: seq<K>)
    ensures forall k :: k in r <==> k in keys && k !in found
    ensures |r| <= |keys|
  {
    if keys == [] then []
    else if keys[0] in found then Misses(keys[1..], found)
    else [keys[0]] + Misses(keys[1..], found)
  }

  /** `ks` lists every element of `s` exactly once. */
  ghost predicate Enumerates<K(!new)>(ks: seq<K>, s: set<K>)
  {
    && (forall k :: k in ks <==> k in s)
    && (forall i, j :: 0 <= i < j < |ks| ==> ks[i] != ks[j])
  }

  /**
    Iterating a Python set or the keys of a dict: every element once, in an
    order the language leaves unspecified.
  */
  method Enumerate<K(!new)>(s: set<K>) returns (ks: seq<K>)
    ensures Enumerates(ks, s)
    ensures |ks| == |s|
  {
    ks := [];
    var rest := s;
    while rest != {}
      invariant rest <= s
      invariant forall k :: k in ks <==> k in s && k !in rest
      invariant forall i, j :: 0 <= i < j < |ks| ==> ks[i] != ks[j]
      invariant |ks| + |rest| == |s|
      decreases rest
    {
      var k :| k in rest;
      ks := ks + [k];
      rest := rest - {k};
    }
  }

  /**
    What set_many builds before writing: `cacheKeys` maps each cache key back to
    one caller key that produced it and `cacheMappings` holds that caller's
    serialised value.
  */
  ghost predicate Marshalled<K(!new), V(!new)>(c: Codecs<K, V>, mappings: map<K, V>, cacheKeys: map<K, K>, cacheMappings: map<K, V>)
  {
    && cacheKeys.Keys == cacheMappings.Keys == Image(c.keyFn, mappings.Keys)
    && forall ck :: ck in cacheKeys ==>
         && cacheKeys[ck] in mappings
         && c.keyFn(cacheKeys[ck]) == ck
         && cacheMappings[ck] == c.serialize(mappings[cacheKeys[ck]])
  }

  /** The loop at the head of set_many, over the caller's mapping in dict order. */
  method MarshalMappings<K(!new), V(!new)>(c: Codecs<K, V>, mappings: map<K, V>) returns (cacheKeys: map<K, K>, cacheMappings: map<K, V>)
    ensures Marshalled(c, mappings, cacheKeys, cacheMappings)
  {
    cacheKeys, cacheMappings := map[], map[];
    var rest := mappings.Keys;
    while rest != {}
      invariant rest <= mappings.Keys
      invariant cacheKeys.Keys == cacheMappings.Keys == Image(c.keyFn, mappings.Keys - rest)
      invariant forall ck :: ck in cacheKeys ==>
                  && cacheKeys[ck] in mappings
                  && c.keyFn(cacheKeys[ck]) == ck
                  && cacheMappings[ck] == c.serialize(mappings[cacheKeys[ck]])
      decreases rest
    {
      var k :| k in rest;
      var cacheKey := c.keyFn(k);
      cacheKeys := cacheKeys[cacheKey := k];
      cacheMappings := cacheMappings[cacheKey := c.serialize(mappings[k])];
      assert Image(c.keyFn, mappings.Keys - (rest - {k})) == Image(c.keyFn, mappings.Keys - rest) + {cacheKey};
      rest := rest - {k};
    }
  }

  /** `[cache_mappings[k] for k in ks]`. */
  function ValuesAt<K(!new), V(!new)>(m: map<K, V>, ks: seq<K>): (r: seq<V>)
    requires forall k :: k in ks ==> k in m
    ensures |r| == |ks|
    ensures forall i :: 0 <= i < |ks| ==> r[i] == m[ks[i]]
  {
    if ks == [] then [] else [m[ks[0]]] + ValuesAt(m, ks[1..])
  }

  /**
    The keys set_many reports: those both in the negative cache's answer (the
    cache keys) and in the backend's answer (the caller's keys), when each
    answers with what it was given.
  */
  function Confirmed<K(!new)>(keyFn: K -> K, keys: set<K>): (s: set<K>)
    ensures forall k :: k in s <==> k in keys && exists c :: c in keys && keyFn(c) == k
  {
    Image(keyFn, keys) * keys
  }

  /** `default or None`: a default Python treats as false comes back as None. */
  function DefaultOrNone<V(!new)>(default: Option<V>, truthy: V -> bool): (r: Option<V>)
    ensures r.Some? <==> default.Some? && truthy(default.value)
    ensures r.Some? ==> r == default
  {
    if default.Some? && truthy(default.value) then default else None
  }
}
