# pycache cache access pipeline, in Dafny

This project models `cache.py` of pycache. That file holds three things:

- BaseCache's public wrappers (`get_one`, `get_many`, `set_one`, `set_many`, `delete_one`, `delete_many`, `clear`). They pass caller keys through `key_fn` and values through a serde. They also drive an optional negative cache (a record of keys known to be absent) around the backend hooks.
- `SetNegativeCache`, the set-based negative cache.
- `DictCache`, the in-memory dictionary backend.

The main result is an invariant of a `DictCache` with a `SetNegativeCache`: no key is both stored and marked absent. Get, delete and clear keep it for any codecs, and set keeps it when `key_fn` is the identity. With identity codecs it makes negative caching invisible to readers: `get_many` returns exactly the store restricted to the requested keys.

This holds only while the cache is the sole user of its negative cache. The source lets several caches share one `SetNegativeCache` (cache.py:41-44 binds the methods of whatever object it is given). Then a read through another cache can mark a key this cache has stored, after which this cache answers that key with nothing (`CacheSpec.SharedNegativeCacheCanBreakDisjoint`).

Layout:

- `wrappers.dfy`: `Option`, for Python's None.
- `base_cache.dfy` (module `BaseCache`): the `_return_x` default, the codecs chosen by `__init__`, and the comprehensions and loop the wrappers use to build their results.
- `negative_cache.dfy` (module `NegativeCache`): class `SetNegativeCache`, whose `store: set<K>` field the methods update in place.
- `cache_spec.dfy` (module `CacheSpec`): the cache as a value `State(store, neg)`, with one transition per public operation and the lemmas about them.
- `dict_cache.dfy` (module `Backends`): class `DictCache`. It holds BaseCache's wrappers and DictCache's hooks (`RawGetMany`, `RawSetMany`, `RawDeleteMany`, `RawClear`). Each wrapper is proved to follow the transitions of `CacheSpec` and to keep the invariant.

Modelling choices:

- Abstract hooks. BaseCache calls `_get_many`, `_set_many`, `_delete_many` and `_clear`, which subclasses override. This model has one backend, so the wrappers call DictCache's hooks directly.
- Constructors. `DictCache` has two. The unnamed one is `DictCache.__init__`: empty store, identity `key_fn` and serde. `WithCodecs` is `BaseCache.__init__` with a `key_fn` and a serde, which keeps the general key and value paths of the wrappers reachable.
- Types. Caller keys and cache keys share one type `K`, and values and serialised values share one type `V`. The source requires this: `set_many` hands the caller's own keys and values to `_set_many`, while `_get_many` receives cache keys.
- Negative cache. It is a nullable reference. `null` is the `_return_x` no-op path of `__init__`.
- Iteration order. Python 2 iterates dicts and sets in no fixed order. Such iteration is `Enumerate`, which picks elements nondeterministically. So `set_many`'s result is a `seq` in an unspecified order, and its contract quantifies over that order.
- Backend reads. The ghost counter `backendGets` counts calls of the read hook. It shows when `get_many` does not reach the backend.
- Falsy values. Python's truth test of a value is the `truthy` parameter of `GetOne`.

The model keeps these behaviours of the code, some of which contradict the hooks' docstrings (cache.py:111-112, 133-134, 148-149):

- `delete_one(k, True)` returns True even when `k` was never stored. `delete_many` hands back its input whatever happened.
- `clear` reports True whatever `confirm` is, and DictCache's `_set_many` and `_delete_many` report all their keys whatever `confirm` is.
- `delete_many` does not apply `key_fn`, and no delete touches the negative cache.
- A confirmed `set_many` returns the serialised values of the confirmed keys, not the keys. Its backend side confirms caller keys while its negative-cache side confirms cache keys. So `set_one(k, v, True)` is True only when `key_fn(k) == k`.
- `set_many` stores the caller's key but un-marks the cache key. With a `key_fn` other than the identity, a stored key can stay marked absent (`CacheSpec.WriteWithKeyFnCanBreakDisjoint`). For this reason the transparency results assume identity codecs, which every `DictCache` has.

## Model

| member | source | states |
|---|---|---|
| `BaseCache.ReturnX` | cache.py:12-13 | the default hook hands its argument back unchanged |
| `BaseCache.MakeCodecs` | cache.py:34-40 | a given key_fn or serde is used as is; a missing one becomes the identity |
| `BaseCache.CacheKeys` | cache.py:66 | every requested key's cache key is a key of the reverse map; each entry maps a cache key to a requested caller key that produces it; no two cache keys share a caller key |
| `BaseCache.CacheKeysLastWins` | cache.py:66 | on a collision, the reverse map keeps the last caller key that produced the cache key |
| `BaseCache.Rekey` | cache.py:72-74 | each found cache key's deserialised value is filed under its caller key, and nothing else is in the result |
| `BaseCache.Misses` | cache.py:71 | the misses are exactly the surviving keys the backend did not return |
| `BaseCache.Enumerate` | cache.py:67 | iterating a set or a dict's keys yields each element exactly once |
| `BaseCache.MarshalMappings` | cache.py:96-101 | after the loop, both dicts have exactly the cache keys of the mapping; each cache key maps back to a caller key that produces it, with that caller's serialised value |
| `BaseCache.ValuesAt` | cache.py:106-107 | the reported list has one entry per confirmed key, each that key's marshalled value |
| `BaseCache.Confirmed` | cache.py:106-107 | the keys set_many reports are the caller keys that are also the cache key of some written key |
| `BaseCache.DefaultOrNone` | cache.py:59 | the default comes back only when Python treats it as true; otherwise the result is None |
| `NegativeCache.SetNegativeCache.constructor` | cache.py:158-159 | a new negative cache marks nothing |
| `NegativeCache.SetNegativeCache.Filter` | cache.py:161-162 | a key is kept exactly when it is in the input and not marked; the result is no longer than the input |
| `NegativeCache.FilterKeepsOrder` | cache.py:161-162 | filtering distributes over concatenation, so kept keys stay in input order |
| `NegativeCache.FilterIsIdentityWhenUnmarked` | cache.py:161-162 | when no input key is marked, filter returns its input unchanged |
| `NegativeCache.SetNegativeCache.Add` | cache.py:164-166 | the set grows by exactly the given keys, and the keys come back unchanged |
| `NegativeCache.SetNegativeCache.Remove` | cache.py:168-170 | the set loses exactly the given keys, and the keys come back unchanged whatever confirm is |
| `CacheSpec.ExistKeys` | cache.py:66-67 | a cache key survives the filter iff some requested caller key produces it and, when there is a negative cache, it is not marked |
| `CacheSpec.Found` | cache.py:179-181 | the backend answers exactly the requested keys it stores, with their stored values |
| `CacheSpec.AfterRead` | cache.py:67-71 | get_many leaves the store alone and marks exactly the surviving cache keys the store lacks, in addition to the old marks |
| `CacheSpec.AfterWrite` | cache.py:98-103 | set_many stores every caller pair over the old store, keeps other entries, and un-marks exactly the cache keys of the mapping |
| `CacheSpec.AfterDelete` | cache.py:187-190 | delete_many removes exactly the given raw keys, keeps the values of the others, and leaves the negative cache alone |
| `CacheSpec.AfterClear` | cache.py:192-194 | clear leaves nothing stored and the negative cache unchanged |
| `CacheSpec.ReadResult` | cache.py:66-74 | get_many answers only requested caller keys, each with the deserialised stored value of its cache key, which survived the filter; every requested key whose cache key survives and is stored is answered, under the caller key that last produced that cache key |
| `CacheSpec.ReadOneReturnsStored` | cache.py:56-58 | a single key is answered iff its cache key is stored and not marked, with the deserialised stored value |
| `CacheSpec.ReadSteps` | cache.py:67-74 | the filter, the backend read, the misses and the rekeying together give get_many's result and its new negative cache |
| `CacheSpec.EmptyFilterReadsNothing` | cache.py:67-69 | when the filter leaves no key, get_many returns {} and changes no state |
| `CacheSpec.RepeatMissSkipsBackend` | cache.py:71 | a requested key missing from the store gets marked, so the next read of it returns {} and its filter leaves nothing for the backend |
| `CacheSpec.WriteSteps` | cache.py:102-107 | the negative cache gets every cache key of the mapping, and the confirmed keys all have marshalled values |
| `CacheSpec.WriteThenRead` | cache.py:98-103 | with identity codecs, reading a key just written returns the written value, even if it was marked absent before |
| `CacheSpec.ReadKeepsDisjoint` | cache.py:71 | get_many marks only keys the store lacks, so it keeps the stored and marked keys disjoint |
| `CacheSpec.WriteKeepsDisjoint` | cache.py:102-103 | with an identity key_fn, set_many un-marks every key it stores, so it keeps them disjoint |
| `CacheSpec.DeleteAndClearKeepDisjoint` | cache.py:187-194 | delete and clear only shrink the store, so they keep them disjoint |
| `CacheSpec.WriteWithKeyFnCanBreakDisjoint` | cache.py:99-103 | with key_fn k+1, writing key 1 while 1 is marked leaves 1 both stored and marked |
| `CacheSpec.SharedNegativeCacheCanBreakDisjoint` | cache.py:41-44 | when a second cache that lacks a key reads it through the shared negative cache after this cache wrote it, the key is stored and marked here, and this cache's read of it answers nothing |
| `CacheSpec.TransparentRead` | cache.py:66-74 | with identity codecs and disjointness, get_many returns exactly the stored entries of the requested keys |
| `CacheSpec.ConfirmedWriteReportsValues` | cache.py:104-107 | with identity codecs, a confirmed set_many reports each written value once, one per written key |
| `Backends.DictCache.constructor` | cache.py:175-177 | a DictCache starts empty, with identity codecs and the given negative cache, and satisfies the invariant |
| `Backends.DictCache.WithCodecs` | cache.py:28-48 | the cache uses the codecs MakeCodecs picks from the given key_fn and serde |
| `Backends.DictCache.NegFilter` | cache.py:41-48 | with a negative cache, keeps exactly the unmarked keys; without one, keeps all keys |
| `Backends.DictCache.NegAdd` | cache.py:41-48 | marks the keys absent when there is a negative cache, and changes nothing otherwise |
| `Backends.DictCache.NegRemove` | cache.py:41-48 | un-marks the keys when there is a negative cache, and changes nothing otherwise |
| `Backends.DictCache.RawGetMany` | cache.py:179-181 | returns exactly the stored entries among the given keys (Found over the store); missing keys are left out |
| `Backends.DictCache.RawSetMany` | cache.py:183-185 | stores every pair over the old store and reports all keys, whatever confirm is |
| `Backends.DictCache.RawDeleteMany` | cache.py:187-190 | removes exactly the given keys, ignoring absent ones, and returns its input whatever confirm is |
| `Backends.DictCache.RawClear` | cache.py:192-194 | empties the store and returns True whatever confirm is |
| `Backends.DictCache.GetMany` | cache.py:62-74 | returns the spec's read result, moves to the spec's post-read state, reads the backend exactly when some key survives the filter, and keeps stored and marked keys disjoint |
| `Backends.DictCache.GetOne` | cache.py:52-59 | returns the key's value when get_many answers it, else `default or None`; state, backend reads and disjointness as for get_many |
| `Backends.DictCache.SetMany` | cache.py:92-107 | stores the caller's mapping and un-marks its cache keys; returns an empty result without confirm (the source's `{}`), else the marshalled values of the confirmed keys in some order; with an identity key_fn keeps stored and marked keys disjoint |
| `Backends.DictCache.SetOne` | cache.py:85-89 | writes the pair; returns true iff confirm is set and key_fn leaves the key unchanged; with an identity key_fn keeps stored and marked keys disjoint |
| `Backends.DictCache.DeleteMany` | cache.py:126-130 | removes the raw keys from the store, leaves the negative cache alone, returns its input, and keeps stored and marked keys disjoint |
| `Backends.DictCache.DeleteOne` | cache.py:119-123 | removes the key and returns confirm, whether or not the key was stored; keeps stored and marked keys disjoint |
| `Backends.DictCache.Clear` | cache.py:141-145 | empties the store, leaves the negative cache alone, returns True, and keeps stored and marked keys disjoint |

## Left out

- The `logger` argument of `BaseCache.__init__` (cache.py:49): it is stored but never used.
- The `__main__` demo (cache.py:197-209): script glue that prints to the console.
- The `NotImplementedError` bodies of BaseCache's hooks (cache.py:76-82, 110-116, 132-138, 147-153): this model has only the DictCache backend, so the wrappers call its hooks directly.
- Hashing and equality of arbitrary Python objects: keys are a generic type with equality.
- The round-trip law of a serde (cache.py:32): the code states it only as a convention and never relies on it. The results about reads assume identity codecs instead.
- Python's None as a stored value: `GetOne` returns `Option<V>`, so a stored None is `Some` of that value, where Python cannot tell it from a miss.
- Backends.DictCache.SetMany: without confirm it returns an empty sequence where the source returns an empty dict (cache.py:105); the model has one result type, and both are empty and false to Python.
- Exceptions raised by a backend or a serde: the dictionary backend and total functions raise none.
