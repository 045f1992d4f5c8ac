/** SetNegativeCache (cache.py): a mutable set of cache keys known to be absent from the backend. */
module NegativeCache {

  class SetNegativeCache<K(==, !new)> {
    /** `_store`: the keys marked absent. */
    var store: set<K>

    constructor ()
      ensures store == {}
    {
      store := {};
    }

    /** `filter`: the keys not marked absent, in their input order. */
    function Filter(keys: seq<K>): (r: seq<K>)
      reads this
      ensures forall k :: k in r <==> k in keys && k !in store
      ensures |r| <= |keys|
    {
      if keys == [] then []
      else if keys[0] in store then Filter(keys[1..])
      else [keys[0]] + Filter(keys[1..])
    }

    /** `add`: marks the keys absent and hands them back. */
    method Add(keys: seq<K>, confirm: bool) returns (r: seq<K>)
      modifies this
      ensures store == old(store) + (set k | k in keys)
      ensures r == keys
    {
      store := store + (set k | k in keys);
      r := keys;
    }

    /** `remove`: un-marks the keys and hands them back, whatever `confirm` is. */
    method Remove(keys: seq<K>, confirm: bool) returns (r: seq<K>)
      modifies this
      ensures store == old(store) - (set k | k in keys)
      ensures r == keys
    {
      store := store - (set k | k in keys);
      r := keys;
    }
  }

  /** Filtering distributes over concatenation, so it keeps the relative order of the keys it keeps. */
  lemma {:induction false} FilterKeepsOrder<K(!new)>(nc: SetNegativeCache<K>, a: seq<K>, b: seq<K>)
    ensures nc.Filter(a + b) == nc.Filter(a) + nc.Filter(b)
  {
    if a != [] {
      assert (a + b)[1..] == a[1..] + b;
      FilterKeepsOrder(nc, a[1..], b);
    } else {
      assert a + b == b;
    }
  }

  /** When no input key is marked, filter returns its input unchanged. */
  lemma {:induction false} FilterIsIdentityWhenUnmarked<K(!new)>(nc: SetNegativeCache<K>, keys: seq<K>)
    requires forall k :: k in keys ==> k !in nc.store
    ensures nc.Filter(keys) == keys
  {
    if keys != [] {
      FilterIsIdentityWhenUnmarked(nc, keys[1..]);
    }
  }
}
