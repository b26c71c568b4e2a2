/**
 * `SafeMap`: a Go map guarded by a read/write lock. Every operation takes the
 * lock for its whole duration, so the model treats each one as an atomic step
 * on the `data` field.
 */
module SafeMaps {
  import opened Wrappers
  import opened Listing

  class SafeMap<K(==), V> {
    var data: map<K, V>

    /**
     * `NewSafeMap(maps...)`: exactly one argument map is adopted as the
     * contents; none or several give an empty map.
     */
    constructor (maps: seq<map<K, V>>)
      ensures |maps| == 1 ==> data == maps[0]
      ensures |maps| != 1 ==> data == map[]
    {
      if |maps| == 1 {
        data := maps[0];
      } else {
        data := map[];
      }
    }

    /** `Get(k)`: the value stored under `k`, if any. */
    function Get(k: K): (r: Option<V>)
      reads this
      ensures r.Some? <==> k in data
      ensures r.Some? ==> r.value == data[k]
    {
      if k in data then Some(data[k]) else None
    }

    /** `Set(k, v)`: afterwards `Get(k)` finds `v`; every other entry is as before. */
    method Set(k: K, v: V)
      modifies this
      ensures data == old(data)[k := v]
      ensures Get(k) == Some(v)
    {
      data := data[k := v];
    }

    /** `Delete(k)`: afterwards `k` is absent; every other entry is as before. */
    method Delete(k: K)
      modifies this
      ensures data == old(data) - {k}
      ensures Get(k) == None
      ensures k !in old(data) ==> data == old(data)
    {
      data := data - {k};
    }

    /** `Len()`: the number of keys present. */
    function Len(): (n: nat)
      reads this
      ensures n == |data.Keys|
      ensures n == 0 <==> data == map[]
    {
      |data|
    }

    /**
     * `ForEach(f)` calls `f(key, value)` once per entry, in no fixed order,
     * without changing the map. The model returns that visiting order; a
     * caller's callback becomes a loop over it.
     */
    method ForEach() returns (visits: seq<(K, V)>)
      ensures Lists(Firsts(visits), data.Keys)
      ensures forall i :: 0 <= i < |visits| ==> visits[i].0 in data && visits[i].1 == data[visits[i].0]
      ensures |visits| == Len()
    {
      visits := [];
      var rest := data.Keys;
      while rest != {}
        invariant rest <= data.Keys
        invariant Distinct(Firsts(visits))
        invariant forall k :: k in Firsts(visits) <==> k in data.Keys - rest
        invariant forall i :: 0 <= i < |visits| ==> visits[i].0 in data && visits[i].1 == data[visits[i].0]
        decreases rest
      {
        var k :| k in rest;
        rest := rest - {k};
        assert k !in Firsts(visits);
        assert Firsts(visits + [(k, data[k])]) == Firsts(visits) + [k];
        visits := visits + [(k, data[k])];
      }
      ListsCardinality(Firsts(visits), data.Keys);
    }
  }
}
