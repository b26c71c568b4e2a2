/**
 * `MapComparator` and `SafeMapComparator`: a stored baseline map and the keys
 * that another map has gained or lost relative to it. Values are never
 * compared, and keys come out once each in no fixed order.
 */
module MapComparators {
  import opened Listing
  import opened SafeMaps

  class MapComparator<K(==), V> {
    var cur: map<K, V>

    /** `NewMapComparator(maps...)`: exactly one argument becomes the baseline, otherwise it is empty. */
    constructor (maps: seq<map<K, V>>)
      ensures |maps| == 1 ==> Data() == maps[0]
      ensures |maps| != 1 ==> Data() == map[]
    {
      if |maps| == 1 {
        cur := maps[0];
      } else {
        cur := map[];
      }
    }

    /** `Data()`: the baseline. */
    function Data(): (r: map<K, V>)
      reads this
      ensures r == cur
    {
      cur
    }

    /**
     * `CompareTo(data)`: `removedKeys` are the baseline keys missing from
     * `data`, `addedKeys` the keys of `data` missing from the baseline; no key
     * is in both, and equal key sets give two empty results.
     */
    method CompareTo(data: map<K, V>) returns (addedKeys: seq<K>, removedKeys: seq<K>)
      ensures Lists(removedKeys, cur.Keys - data.Keys)
      ensures Lists(addedKeys, data.Keys - cur.Keys)
      ensures forall k | k in addedKeys :: k !in removedKeys
      ensures cur.Keys == data.Keys ==> addedKeys == [] && removedKeys == []
    {
      removedKeys := KeysNotIn(cur, data.Keys);
      addedKeys := KeysNotIn(data, cur.Keys);
      ListsCardinality(removedKeys, cur.Keys - data.Keys);
      ListsCardinality(addedKeys, data.Keys - cur.Keys);
    }

    /** `CompareToSafe(data)`: `CompareTo` against the contents of a `SafeMap`. */
    method CompareToSafe(data: SafeMap<K, V>) returns (addedKeys: seq<K>, removedKeys: seq<K>)
      ensures Lists(removedKeys, cur.Keys - data.data.Keys)
      ensures Lists(addedKeys, data.data.Keys - cur.Keys)
    {
      removedKeys := KeysNotIn(cur, data.data.Keys);
      var visits := data.ForEach();
      addedKeys := FilterNotIn(Firsts(visits), cur.Keys);
      NotInLists(Firsts(visits), data.data.Keys, cur.Keys);
    }

    /** `RemovedKeys(data)`: the `removedKeys` half of `CompareTo`. */
    method RemovedKeys(data: map<K, V>) returns (removedKeys: seq<K>)
      ensures Lists(removedKeys, cur.Keys - data.Keys)
    {
      removedKeys := KeysNotIn(cur, data.Keys);
    }

    /** `RemovedKeysSafe(data)`: the `removedKeys` half of `CompareToSafe`. */
    method RemovedKeysSafe(data: SafeMap<K, V>) returns (removedKeys: seq<K>)
      ensures Lists(removedKeys, cur.Keys - data.data.Keys)
    {
      removedKeys := KeysNotIn(cur, data.data.Keys);
    }

    /** `AddedKeys(data)`: the `addedKeys` half of `CompareTo`. */
    method AddedKeys(data: map<K, V>) returns (addedKeys: seq<K>)
      ensures Lists(addedKeys, data.Keys - cur.Keys)
    {
      addedKeys := KeysNotIn(data, cur.Keys);
    }

    /** `AddedKeysSafe(data)`: the `addedKeys` half of `CompareToSafe`. */
    method AddedKeysSafe(data: SafeMap<K, V>) returns (addedKeys: seq<K>)
      ensures Lists(addedKeys, data.data.Keys - cur.Keys)
    {
      var visits := data.ForEach();
      addedKeys := FilterNotIn(Firsts(visits), cur.Keys);
      NotInLists(Firsts(visits), data.data.Keys, cur.Keys);
    }

    /** `Set(data)`: `data` becomes the baseline that `Data()` returns and later comparisons use. */
    method Set(data: map<K, V>)
      modifies this
      ensures Data() == data
    {
      cur := data;
    }
  }

  class SafeMapComparator<K(==), V> {
    var cur: SafeMap<K, V>

    /**
     * `NewSafeMapComparator(maps...)`: exactly one argument becomes the
     * baseline (shared, not copied); otherwise a new empty `SafeMap`.
     */
    constructor (maps: seq<SafeMap<K, V>>)
      ensures |maps| == 1 ==> Data() == maps[0]
      ensures |maps| != 1 ==> fresh(Data()) && Data().data == map[]
    {
      if |maps| == 1 {
        cur := maps[0];
      } else {
        cur := new SafeMap([]);
      }
    }

    /** `Data()`: the baseline `SafeMap`. */
    function Data(): (r: SafeMap<K, V>)
      reads this
      ensures r == cur
    {
      cur
    }

    /**
     * `CompareTo(data)`: the baseline's keys missing from `data` are removed,
     * the keys of `data` missing from the baseline are added; no key is in
     * both, and equal key sets give two empty results.
     */
    method CompareTo(data: map<K, V>) returns (addedKeys: seq<K>, removedKeys: seq<K>)
      ensures Lists(removedKeys, cur.data.Keys - data.Keys)
      ensures Lists(addedKeys, data.Keys - cur.data.Keys)
      ensures forall k | k in addedKeys :: k !in removedKeys
      ensures cur.data.Keys == data.Keys ==> addedKeys == [] && removedKeys == []
    {
      var visits := cur.ForEach();
      removedKeys := FilterNotIn(Firsts(visits), data.Keys);
      NotInLists(Firsts(visits), cur.data.Keys, data.Keys);
      addedKeys := KeysNotIn(data, cur.data.Keys);
      ListsCardinality(removedKeys, cur.data.Keys - data.Keys);
      ListsCardinality(addedKeys, data.Keys - cur.data.Keys);
    }

    /** `CompareToSafe(data)`: `CompareTo` against the contents of another `SafeMap`. */
    method CompareToSafe(data: SafeMap<K, V>) returns (addedKeys: seq<K>, removedKeys: seq<K>)
      ensures Lists(removedKeys, cur.data.Keys - data.data.Keys)
      ensures Lists(addedKeys, data.data.Keys - cur.data.Keys)
    {
      var mine := cur.ForEach();
      removedKeys := FilterNotIn(Firsts(mine), data.data.Keys);
      NotInLists(Firsts(mine), cur.data.Keys, data.data.Keys);
      var theirs := data.ForEach();
      addedKeys := FilterNotIn(Firsts(theirs), cur.data.Keys);
      NotInLists(Firsts(theirs), data.data.Keys, cur.data.Keys);
    }

    /** `RemovedKeys(data)`: the `removedKeys` half of `CompareTo`. */
    method RemovedKeys(data: map<K, V>) returns (removedKeys: seq<K>)
      ensures Lists(removedKeys, cur.data.Keys - data.Keys)
    {
      var visits := cur.ForEach();
      removedKeys := FilterNotIn(Firsts(visits), data.Keys);
      NotInLists(Firsts(visits), cur.data.Keys, data.Keys);
    }

    /** `RemovedKeysSafe(data)`: the `removedKeys` half of `CompareToSafe`. */
    method RemovedKeysSafe(data: SafeMap<K, V>) returns (removedKeys: seq<K>)
      ensures Lists(removedKeys, cur.data.Keys - data.data.Keys)
    {
      var visits := cur.ForEach();
      removedKeys := FilterNotIn(Firsts(visits), data.data.Keys);
      NotInLists(Firsts(visits), cur.data.Keys, data.data.Keys);
    }

    /** `AddedKeys(data)`: the `addedKeys` half of `CompareTo`. */
    method AddedKeys(data: map<K, V>) returns (addedKeys: seq<K>)
      ensures Lists(addedKeys, data.Keys - cur.data.Keys)
    {
      addedKeys := KeysNotIn(data, cur.data.Keys);
    }

    /** `AddedKeysSafe(data)`: the `addedKeys` half of `CompareToSafe`. */
    method AddedKeysSafe(data: SafeMap<K, V>) returns (addedKeys: seq<K>)
      ensures Lists(addedKeys, data.data.Keys - cur.data.Keys)
    {
      var visits := data.ForEach();
      addedKeys := FilterNotIn(Firsts(visits), cur.data.Keys);
      NotInLists(Firsts(visits), data.data.Keys, cur.data.Keys);
    }

    /** `Set(data)`: `data` becomes the baseline that `Data()` returns and later comparisons use. */
    method Set(data: SafeMap<K, V>)
      modifies this
      ensures Data() == data
    {
      cur := data;
    }
  }
}
