/**
  DictCache (cache.py): BaseCache's public wrappers running over an in-memory
  dictionary. The abstract hooks of BaseCache (_get_many, _set_many,
  _delete_many, _clear) are DictCache's own, written here as the Raw* members.
*/
module Backends {

  import opened Wrappers
  import opened BaseCache
  import opened NegativeCache
  import opened CacheSpec

  class DictCache<K(==, !new), V(!new)> {
    /** key_fn, serialize and deserialize, fixed at construction. */
    const codecs: Codecs<K, V>
    /** The negative cache; null means negative caching is off (the `_return_x` hooks). */
    const negativeCache: SetNegativeCache?<K>
    /** `_store`. */
    var store: map<K, V>
    /** How many times the backend read hook has run. */
    ghost var backendGets: nat

    /** The store and the negative cache's set, as values. */
    ghost function Abstract(): State<K, V>
      reads this, negativeCache
    {
      State(store, if negativeCache == null then None else Some(negativeCache.store))
    }

    /** Identity codecs and no key both stored and marked absent: while this cache is the only user of its negative cache, what makes negative caching invisible to readers. */
    ghost predicate Transparent()
      reads this, negativeCache
    {
      Identity(codecs) && Disjoint(Abstract())
    }

    /** DictCache.__init__: an empty store, identity key_fn and serde. */
    constructor (negativeCache: SetNegativeCache?<K>)
      ensures this.negativeCache == negativeCache
      ensures Identity(codecs)
      ensures store == map[] && backendGets == 0
      ensures Transparent()
    {
      this.codecs := MakeCodecs(None, None);
      this.negativeCache := negativeCache;
      this.store := map[];
      this.backendGets := 0;
    }

    /** BaseCache.__init__ with a key_fn and a serde, over an empty dictionary store. */
    constructor WithCodecs(keyFn: Option<K -> K>, serde: Option<Serde<V>>, negativeCache: SetNegativeCache?<K>)
      ensures this.negativeCache == negativeCache
      ensures codecs == MakeCodecs(keyFn, serde)
      ensures store == map[] && backendGets == 0
    {
      this.codecs := MakeCodecs(keyFn, serde);
      this.negativeCache := negativeCache;
      this.store := map[];
      this.backendGets := 0;
    }

    /** `_neg_filter`: the negative cache's filter, or the identity when there is none. */
    function NegFilter(keys: seq<K>): (r: seq<K>)
      reads negativeCache
      ensures forall k :: k in r <==> k in keys && (negativeCache != null ==> k !in negativeCache.store)
    {
      if negativeCache != null then negativeCache.Filter(keys) else ReturnX(keys)
    }

    /** `_neg_add`: marks the keys absent in the negative cache, if there is one. */
    method NegAdd(keys: seq<K>) returns (r: seq<K>)
      modifies negativeCache
      ensures Abstract() == old(Abstract()).(neg := Mark(old(Abstract()).neg, set k | k in keys))
      ensures r == keys
    {
      if negativeCache != null {
        r := negativeCache.Add(keys, false);
      } else {
        r := ReturnX(keys);
      }
    }

    /** `_neg_remove`: un-marks the keys in the negative cache, if there is one. */
    method NegRemove(keys: seq<K>, confirm: bool) returns (r: seq<K>)
      modifies negativeCache
      ensures Abstract() == old(Abstract()).(neg := Unmark(old(Abstract()).neg, set k | k in keys))
      ensures r == keys
    {
      if negativeCache != null {
        r := negativeCache.Remove(keys, confirm);
      } else {
        r := ReturnX(keys);
      }
    }

    /** `_get_many`: the stored entries among the keys; missing keys are left out. */
    function RawGetMany(keys: seq<K>): (r: map<K, V>)
      reads this
      ensures forall k :: k in r <==> k in keys && k in store
      ensures forall k :: k in r ==> r[k] == store[k]
    {
      Found(State(store, None), set k | k in keys)
    }

    /** `_set_many`: stores every pair and reports all keys written, whatever `confirm` is. */
    method RawSetMany(mappings: map<K, V>, confirm: bool) returns (written: set<K>)
      modifies this`store
      ensures store == old(store) + mappings
      ensures written == mappings.Keys
    {
      store := store + mappings;
      written := mappings.Keys;
    }

    /** `_delete_many`: pops each key if present and hands the keys back, whatever `confirm` is. */
    method RawDeleteMany(keys: seq<K>, confirm: bool) returns (deleted: seq<K>)
      modifies this`store
      ensures store == old(store) - (set k | k in keys)
      ensures deleted == keys
    {
      var i := 0;
      while i < |keys|
        invariant 0 <= i <= |keys|
        invariant store == old(store) - (set k | k in keys[..i])
      {
        assert keys[..i + 1] == keys[..i] + [keys[i]];
        store := store - {keys[i]};
        i := i + 1;
      }
      assert keys[..i] == keys;
      deleted := keys;
    }

    /** `_clear`: empties the store and reports success, whatever `confirm` is. */
    method RawClear(confirm: bool) returns (ok: bool)
      modifies this`store
      ensures store == map[]
      ensures ok
    {
      store := map[];
      ok := true;
    }

    /** get_many: normalise, filter through the negative cache, read, mark the misses, deserialise. */
    method GetMany(keys: seq<K>) returns (r: map<K, V>)
      modifies this`backendGets, negativeCache
      ensures r == ReadResult(old(Abstract()), codecs, keys)
      ensures Abstract() == AfterRead(old(Abstract()), codecs.keyFn, keys)
      ensures backendGets == old(backendGets) + if ExistKeys(old(Abstract()), codecs.keyFn, keys) == {} then 0 else 1
      ensures old(Disjoint(Abstract())) ==> Disjoint(Abstract())
    {
      ghost var st := Abstract();
      var cacheKeys := CacheKeys(codecs.keyFn, keys);
      var candidates := Enumerate(cacheKeys.Keys);
      var existKeys := NegFilter(candidates);
      if existKeys == [] {
        EmptyFilterReadsNothing(st, codecs, keys);
        return map[];
      }
      var cacheMappings := RawGetMany(existKeys);
      backendGets := backendGets + 1;
      var misses := Misses(existKeys, cacheMappings);
      ReadSteps(st, codecs, keys, existKeys, cacheMappings, misses);
      var _ := NegAdd(misses);
      r := Rekey(cacheKeys, cacheMappings, codecs.deserialize);
      if Disjoint(st) {
        ReadKeepsDisjoint(st, codecs.keyFn, keys);
      }
    }

    /** get_one: the value of one key, else `default or None`. */
    method GetOne(key: K, default: Option<V>, truthy: V -> bool) returns (r: Option<V>)
      modifies this`backendGets, negativeCache
      ensures var results := ReadResult(old(Abstract()), codecs, [key]);
              r == if key in results then Some(results[key]) else DefaultOrNone(default, truthy)
      ensures Abstract() == AfterRead(old(Abstract()), codecs.keyFn, [key])
      ensures backendGets == old(backendGets) + if ExistKeys(old(Abstract()), codecs.keyFn, [key]) == {} then 0 else 1
      ensures old(Disjoint(Abstract())) ==> Disjoint(Abstract())
    {
      var results := GetMany([key]);
      if key in results {
        return Some(results[key]);
      }
      r := DefaultOrNone(default, truthy);
    }

    /**
      set_many: marshal, un-mark the cache keys, hand the caller's own mapping
      to the backend, and when `confirm` is set report the serialised values
      of the keys both sides confirmed (in set order).
    */
    method SetMany(mappings: map<K, V>, confirm: bool) returns (r: seq<V>)
      modifies this`store, negativeCache
      ensures Abstract() == AfterWrite(old(Abstract()), codecs.keyFn, mappings)
      ensures !confirm ==> r == []
      ensures confirm ==> |r| == |Confirmed(codecs.keyFn, mappings.Keys)|
      ensures confirm ==> exists cacheKeys, cacheMappings, ks ::
                && Marshalled(codecs, mappings, cacheKeys, cacheMappings)
                && Enumerates(ks, Confirmed(codecs.keyFn, mappings.Keys))
                && r == ValuesAt(cacheMappings, ks)
      ensures old(Disjoint(Abstract())) && (forall k :: codecs.keyFn(k) == k) ==> Disjoint(Abstract())
    {
      ghost var st := Abstract();
      var cacheKeys, cacheMappings := MarshalMappings(codecs, mappings);
      var written := Enumerate(cacheKeys.Keys);
      WriteSteps(codecs, mappings, cacheKeys, cacheMappings, written);
      var negSucKeys := NegRemove(written, confirm);
      var cacheSucKeys := RawSetMany(mappings, confirm);
      if (forall k :: codecs.keyFn(k) == k) && Disjoint(st) {
        WriteKeepsDisjoint(st, codecs.keyFn, mappings);
      }
      if !confirm {
        return [];
      }
      var ok := Enumerate((set k | k in negSucKeys) * cacheSucKeys);
      r := ValuesAt(cacheMappings, ok);
    }

    /** set_one: true exactly when `confirm` is set and key_fn leaves the key unchanged (the backend confirms caller keys). */
    method SetOne(key: K, val: V, confirm: bool) returns (ok: bool)
      modifies this`store, negativeCache
      ensures Abstract() == AfterWrite(old(Abstract()), codecs.keyFn, map[key := val])
      ensures ok == (confirm && codecs.keyFn(key) == key)
      ensures old(Disjoint(Abstract())) && (forall k :: codecs.keyFn(k) == k) ==> Disjoint(Abstract())
    {
      var ret := SetMany(map[key := val], confirm);
      assert Image(codecs.keyFn, {key}) == {codecs.keyFn(key)};
      ok := confirm && |ret| != 0;
    }

    /** delete_many: the keys go to the backend untransformed; the negative cache is untouched. */
    method DeleteMany(keys: seq<K>, confirm: bool) returns (r: seq<K>)
      modifies this`store
      ensures Abstract() == AfterDelete(old(Abstract()), keys)
      ensures r == keys
      ensures old(Disjoint(Abstract())) ==> Disjoint(Abstract())
    {
      ghost var st := Abstract();
      r := RawDeleteMany(keys, confirm);
      if Disjoint(st) {
        DeleteAndClearKeepDisjoint(st, keys);
      }
    }

    /** delete_one: reports `confirm`, whether or not the key was stored. */
    method DeleteOne(key: K, confirm: bool) returns (ok: bool)
      modifies this`store
      ensures Abstract() == AfterDelete(old(Abstract()), [key])
      ensures ok == confirm
      ensures old(Disjoint(Abstract())) ==> Disjoint(Abstract())
    {
      var ret := DeleteMany([key], confirm);
      ok := confirm && |ret| != 0;
    }

    /** clear: empties the store and reports success, whatever `confirm` is. */
    method Clear(confirm: bool) returns (ok: bool)
      modifies this`store
      ensures Abstract() == AfterClear(old(Abstract()))
      ensures ok
      ensures old(Disjoint(Abstract())) ==> Disjoint(Abstract())
    {
      ghost var st := Abstract();
      ok := RawClear(confirm);
      if Disjoint(st) {
        DeleteAndClearKeepDisjoint(st, []);
      }
    }
  }
}
