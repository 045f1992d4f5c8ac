/**
  What a DictCache with its optional SetNegativeCache holds, and how each
  public operation of BaseCache changes it. The class in module Backends is
  proved to follow these transitions; the lemmas here state what callers can
  rely on.
*/
module CacheSpec {

  import opened Wrappers
  import opened BaseCache

  /** The backend's dictionary and the negative cache's set (None: no negative cache). */
  datatype State<K, V> = State(store: map<K, V>, neg: Option<set<K>>)

  /** The requested cache keys that survive the negative-cache filter. */
  function ExistKeys<K(!new), V>(st: State<K, V>, keyFn: K -> K, keys: seq<K>): (r: set<K>)
    ensures forall k :: k in r <==>
              (exists c :: c in keys && keyFn(c) == k) && (st.neg.Some? ==> k !in st.neg.value)
  {
    var cacheKeys := CacheKeys(keyFn, keys).Keys;
    if st.neg.Some? then cacheKeys - st.neg.value else cacheKeys
  }

  /** DictCache._get_many: the stored entries among the given cache keys. */
  function Found<K(!new), V>(st: State<K, V>, keys: set<K>): (r: map<K, V>)
    ensures forall k :: k in r <==> k in keys && k in st.store
    ensures forall k :: k in r ==> r[k] == st.store[k]
  {
    map k | k in keys && k in st.store :: st.store[k]
  }

  /**
    The mapping get_many returns. It answers only requested caller keys, each
    with the deserialised stored value of its cache key, which survived the
    filter; and it answers every requested key whose cache key survives the
    filter and is stored (under the caller key that last produced that cache key).
  */
  function ReadResult<K(!new), V(!new)>(st: State<K, V>, c: Codecs<K, V>, keys: seq<K>): (r: map<K, V>)
    ensures forall k :: k in r ==>
              && k in keys
              && c.keyFn(k) in st.store
              && c.keyFn(k) in ExistKeys(st, c.keyFn, keys)
              && r[k] == c.deserialize(st.store[c.keyFn(k)])
    ensures forall k :: k in keys && c.keyFn(k) in ExistKeys(st, c.keyFn, keys) && c.keyFn(k) in st.store ==>
              CacheKeys(c.keyFn, keys)[c.keyFn(k)] in r
  {
    Rekey(CacheKeys(c.keyFn, keys), Found(st, ExistKeys(st, c.keyFn, keys)), c.deserialize)
  }

  /** The state after get_many: every surviving cache key the backend lacks is marked absent. */
  function AfterRead<K(!new), V>(st: State<K, V>, keyFn: K -> K, keys: seq<K>): (r: State<K, V>)
    ensures r.store == st.store
    ensures r.neg.Some? == st.neg.Some?
    ensures r.neg.Some? ==> forall k :: k in r.neg.value <==>
              k in st.neg.value || (k in ExistKeys(st, keyFn, keys) && k !in st.store)
  {
    st.(neg := Mark(st.neg, ExistKeys(st, keyFn, keys) - st.store.Keys))
  }

  /**
    The state after set_many: the negative cache un-marks the cache keys, while
    the backend receives the caller's own keys and values.
  */
  function AfterWrite<K(!new), V>(st: State<K, V>, keyFn: K -> K, mappings: map<K, V>): (r: State<K, V>)
    ensures forall k :: k in r.store <==> k in st.store || k in mappings
    ensures forall k :: k in mappings ==> r.store[k] == mappings[k]
    ensures forall k :: k in st.store && k !in mappings ==> r.store[k] == st.store[k]
    ensures r.neg.Some? == st.neg.Some?
    ensures r.neg.Some? ==> forall k :: k in r.neg.value <==>
              k in st.neg.value && !(exists c :: c in mappings && keyFn(c) == k)
  {
    State(st.store + mappings, Unmark(st.neg, Image(keyFn, mappings.Keys)))
  }

  /** The state after delete_many: the given keys, untransformed, leave the store; the negative cache is untouched. */
  function AfterDelete<K(!new), V>(st: State<K, V>, keys: seq<K>): (r: State<K, V>)
    ensures forall k :: k in r.store <==> k in st.store && k !in keys
    ensures forall k :: k in r.store ==> r.store[k] == st.store[k]
    ensures r.neg == st.neg
  {
    st.(store := st.store - (set k | k in keys))
  }

  /** The state after clear: nothing stored, the negative cache untouched. */
  function AfterClear<K, V>(st: State<K, V>): (r: State<K, V>)
    ensures r.store == map[]
    ensures r.neg == st.neg
  {
    st.(store := map[])
  }

  /** The negative cache after marking `keys` absent (`_neg_add`). */
  function Mark<K>(neg: Option<set<K>>, keys: set<K>): Option<set<K>>
  {
    if neg.Some? then Some(neg.value + keys) else None
  }

  /** The negative cache after un-marking `keys` (`_neg_remove`). */
  function Unmark<K>(neg: Option<set<K>>, keys: set<K>): Option<set<K>>
  {
    if neg.Some? then Some(neg.value - keys) else None
  }

  /** No key is both stored and marked absent. */
  ghost predicate Disjoint<K, V>(st: State<K, V>)
  {
    st.neg.Some? ==> st.neg.value !! st.store.Keys
  }

  /** get_one: the key is answered exactly when its cache key is stored and not marked absent. */
  lemma ReadOneReturnsStored<K(!new), V(!new)>(st: State<K, V>, c: Codecs<K, V>, key: K)
    ensures key in ReadResult(st, c, [key]) <==>
              c.keyFn(key) in st.store && (st.neg.Some? ==> c.keyFn(key) !in st.neg.value)
    ensures key in ReadResult(st, c, [key]) ==> ReadResult(st, c, [key])[key] == c.deserialize(st.store[c.keyFn(key)])
  {
    var cacheKeys := CacheKeys(c.keyFn, [key]);
    assert cacheKeys.Keys == {c.keyFn(key)};
  }

  /**
    The steps of get_many, each described by what it computes, yield
    ReadResult and AfterRead.
  */
  lemma ReadSteps<K(!new), V(!new)>(st: State<K, V>, c: Codecs<K, V>, keys: seq<K>, existKeys: seq<K>, got: map<K, V>, misses: seq<K>)
    requires forall k :: k in existKeys <==> k in ExistKeys(st, c.keyFn, keys)
    requires forall k :: k in got <==> k in existKeys && k in st.store
    requires forall k :: k in got ==> got[k] == st.store[k]
    requires forall k :: k in misses <==> k in existKeys && k !in got
    ensures got == Found(st, ExistKeys(st, c.keyFn, keys))
    ensures Rekey(CacheKeys(c.keyFn, keys), got, c.deserialize) == ReadResult(st, c, keys)
    ensures AfterRead(st, c.keyFn, keys) == st.(neg := Mark(st.neg, set k | k in misses))
  {
    assert got == Found(st, ExistKeys(st, c.keyFn, keys));
    assert (set k | k in misses) == ExistKeys(st, c.keyFn, keys) - st.store.Keys;
  }

  /**
    The bookkeeping of set_many: the negative cache is handed every cache key,
    and the keys both sides report are the Confirmed ones.
  */
  lemma WriteSteps<K(!new), V(!new)>(c: Codecs<K, V>, mappings: map<K, V>, cacheKeys: map<K, K>, cacheMappings: map<K, V>, written: seq<K>)
    requires Marshalled(c, mappings, cacheKeys, cacheMappings)
    requires forall k :: k in written <==> k in cacheKeys
    ensures (set k | k in written) == Image(c.keyFn, mappings.Keys)
    ensures (set k | k in written) * mappings.Keys == Confirmed(c.keyFn, mappings.Keys)
    ensures forall k :: k in Confirmed(c.keyFn, mappings.Keys) ==> k in cacheMappings
  {
  }

  /** When the filter leaves nothing, get_many answers {} and changes nothing. */
  lemma EmptyFilterReadsNothing<K(!new), V(!new)>(st: State<K, V>, c: Codecs<K, V>, keys: seq<K>)
    requires ExistKeys(st, c.keyFn, keys) == {}
    ensures ReadResult(st, c, keys) == map[]
    ensures AfterRead(st, c.keyFn, keys) == st
  {
    assert Found(st, {}) == map[];
    if st.neg.Some? {
      assert st.neg.value + ({} - st.store.Keys) == st.neg.value;
    }
  }

  /**
    A requested key whose cache key the backend lacks is marked absent by
    get_many, so reading it again filters it out: the answer is {} and the
    backend is not consulted.
  */
  lemma {:induction false} RepeatMissSkipsBackend<K(!new), V(!new)>(st: State<K, V>, c: Codecs<K, V>, keys: seq<K>, key: K)
    requires st.neg.Some?
    requires key in keys && c.keyFn(key) !in st.store
    ensures AfterRead(st, c.keyFn, keys).neg.Some?
    ensures c.keyFn(key) in AfterRead(st, c.keyFn, keys).neg.value
    ensures ExistKeys(AfterRead(st, c.keyFn, keys), c.keyFn, [key]) == {}
    ensures ReadResult(AfterRead(st, c.keyFn, keys), c, [key]) == map[]
  {
    var st' := AfterRead(st, c.keyFn, keys);
    assert c.keyFn(key) in CacheKeys(c.keyFn, keys);
    assert CacheKeys(c.keyFn, [key]).Keys == {c.keyFn(key)};
    EmptyFilterReadsNothing(st', c, [key]);
  }

  /**
    After set_many, with identity codecs, get_one of a written key returns the
    written value, even when that key was marked absent before.
  */
  lemma WriteThenRead<K(!new), V(!new)>(st: State<K, V>, c: Codecs<K, V>, mappings: map<K, V>, key: K)
    requires Identity(c)
    requires key in mappings
    ensures ReadResult(AfterWrite(st, c.keyFn, mappings), c, [key]) == map[key := mappings[key]]
  {
    var st' := AfterWrite(st, c.keyFn, mappings);
    assert c.keyFn(key) == key;
    assert key in Image(c.keyFn, mappings.Keys);
    ReadOneReturnsStored(st', c, key);
  }

  /** get_many only marks keys the store lacks. */
  lemma ReadKeepsDisjoint<K(!new), V>(st: State<K, V>, keyFn: K -> K, keys: seq<K>)
    requires Disjoint(st)
    ensures Disjoint(AfterRead(st, keyFn, keys))
  {
  }

  /** With an identity key_fn, set_many un-marks exactly the keys it stores. */
  lemma WriteKeepsDisjoint<K(!new), V>(st: State<K, V>, keyFn: K -> K, mappings: map<K, V>)
    requires forall k :: keyFn(k) == k
    requires Disjoint(st)
    ensures Disjoint(AfterWrite(st, keyFn, mappings))
  {
    forall k | k in mappings ensures k in Image(keyFn, mappings.Keys) {
      assert keyFn(k) == k;
    }
  }

  /** Deleting and clearing only shrink the store. */
  lemma DeleteAndClearKeepDisjoint<K(!new), V>(st: State<K, V>, keys: seq<K>)
    requires Disjoint(st)
    ensures Disjoint(AfterDelete(st, keys))
    ensures Disjoint(AfterClear(st))
  {
  }

  /**
    The quirk of set_many (it stores the caller's key but un-marks the cache
    key): with a key_fn other than the identity a stored key can stay marked.
  */
  lemma WriteWithKeyFnCanBreakDisjoint()
    ensures var st := State(map[], Some({1}));
            Disjoint(st) && !Disjoint(AfterWrite(st, (k: int) => k + 1, map[1 := 0]))
  {
    var st := State(map[], Some({1}));
    var after := AfterWrite(st, (k: int) => k + 1, map[1 := 0]);
    assert Image((k: int) => k + 1, {1}) == {2};
    assert 1 in after.neg.value && 1 in after.store;
  }

  /**
    Two caches sharing one negative cache: a write through one cache un-marks
    nothing the other later marks, so a read of the written key through the
    second cache leaves the first cache's stored key marked, and the first
    cache then answers that key with nothing.
  */
  lemma {:induction false} SharedNegativeCacheCanBreakDisjoint<K(!new), V(!new)>(
    c: Codecs<K, V>, a: State<K, V>, other: map<K, V>, mappings: map<K, V>, key: K)
    requires Identity(c)
    requires a.neg.Some?
    requires key in mappings && key !in other
    ensures var written := AfterWrite(a, c.keyFn, mappings);
            var read := AfterRead(State(other, written.neg), c.keyFn, [key]);
            var shared := written.(neg := read.neg);
            && key in shared.store
            && !Disjoint(shared)
            && ReadResult(shared, c, [key]) == map[]
  {
    var written := AfterWrite(a, c.keyFn, mappings);
    assert c.keyFn(key) == key;
    assert key in Image(c.keyFn, mappings.Keys);
    var read := AfterRead(State(other, written.neg), c.keyFn, [key]);
    assert key in CacheKeys(c.keyFn, [key]);
    assert key in ExistKeys(State(other, written.neg), c.keyFn, [key]);
    var shared := written.(neg := read.neg);
    assert key in shared.neg.value;
    ReadOneReturnsStored(shared, c, key);
  }

  /**
    Negative caching is transparent: with identity codecs and the invariant,
    get_many returns exactly the store restricted to the requested keys.
  */
  lemma TransparentRead<K(!new), V(!new)>(st: State<K, V>, c: Codecs<K, V>, keys: seq<K>)
    requires Identity(c)
    requires Disjoint(st)
    ensures ReadResult(st, c, keys) == map k | k in keys && k in st.store :: st.store[k]
  {
    var r := ReadResult(st, c, keys);
    var expected := map k | k in keys && k in st.store :: st.store[k];
    var cacheKeys := CacheKeys(c.keyFn, keys);
    forall k | k in expected ensures k in r && r[k] == expected[k] {
      assert c.keyFn(k) == k;
      assert k in cacheKeys && c.keyFn(cacheKeys[k]) == k;
    }
    forall k | k in r ensures k in expected {
      assert c.keyFn(k) == k;
    }
  }

  /**
    With identity codecs, the values a confirmed set_many reports are the
    written values, one per written key.
  */
  lemma ConfirmedWriteReportsValues<K(!new), V(!new)>(c: Codecs<K, V>, mappings: map<K, V>, cacheKeys: map<K, K>, cacheMappings: map<K, V>, ks: seq<K>)
    requires Identity(c)
    requires Marshalled(c, mappings, cacheKeys, cacheMappings)
    requires Enumerates(ks, Confirmed(c.keyFn, mappings.Keys))
    ensures Enumerates(ks, mappings.Keys)
    ensures forall k :: k in ks ==> k in cacheMappings
    ensures ValuesAt(cacheMappings, ks) == ValuesAt(mappings, ks)
  {
    forall k | k in mappings ensures k in Confirmed(c.keyFn, mappings.Keys) {
      assert c.keyFn(k) == k;
    }
    forall ck | ck in cacheKeys ensures cacheKeys[ck] == ck && cacheMappings[ck] == mappings[ck] {
      assert c.keyFn(cacheKeys[ck]) == cacheKeys[ck];
    }
  }
}
