/**
 * `CompareMaps`, `CompareSlices`, `CompareSliceToMap`, `CompareMapToSlice`:
 * what was removed from a first collection and added in a second one.
 * Keys of maps come out once each in no fixed order; elements of slices come
 * out in slice order with their duplicates.
 */
module Compare {
  import opened Listing

  /**
   * `CompareMaps(m1, m2)`: `removed` lists the keys of m1 missing from m2,
   * `added` those of m2 missing from m1; values are not compared.
   */
  method CompareMaps<K, V>(m1: map<K, V>, m2: map<K, V>) returns (added: seq<K>, removed: seq<K>)
    ensures Lists(removed, m1.Keys - m2.Keys)
    ensures Lists(added, m2.Keys - m1.Keys)
    ensures forall k | k in added :: k !in removed
    ensures m1.Keys == m2.Keys ==> added == [] && removed == []
  {
    removed := KeysNotIn(m1, m2.Keys);
    added := KeysNotIn(m2, m1.Keys);
    ListsCardinality(removed, m1.Keys - m2.Keys);
    ListsCardinality(added, m2.Keys - m1.Keys);
  }

  /**
   * `CompareSlices(s1, s2)`: `removed` is s1 without the elements that occur
   * in s2, `added` is s2 without the elements that occur in s1, both in order
   * and with duplicates kept.
   */
  method CompareSlices<T(==)>(s1: seq<T>, s2: seq<T>) returns (added: seq<T>, removed: seq<T>)
    ensures removed == NotIn(s1, Elems(s2))
    ensures added == NotIn(s2, Elems(s1))
    ensures forall x | x in added :: x !in removed
    ensures |removed| <= |s1| && |added| <= |s2|
    ensures s1 == s2 ==> added == [] && removed == []
  {
    removed := FilterNotIn(s1, Elems(s2));
    added := FilterNotIn(s2, Elems(s1));
    forall x | x in added
      ensures x !in removed
    {
      NotInMembership(s2, Elems(s1), x);
      NotInMembership(s1, Elems(s2), x);
    }
    if s1 == s2 {
      NotInAll(s1, Elems(s2));
    }
  }

  /**
   * `CompareSliceToMap(s1, m2)`: `removed` is s1, in order, without the keys
   * of m2; `added` lists the keys of m2 that do not occur in s1.
   */
  method CompareSliceToMap<K, V>(s1: seq<K>, m2: map<K, V>) returns (added: seq<K>, removed: seq<K>)
    ensures removed == NotIn(s1, m2.Keys)
    ensures Lists(added, m2.Keys - Elems(s1))
  {
    removed := FilterNotIn(s1, m2.Keys);
    added := KeysNotIn(m2, Elems(s1));
  }

  /**
   * `CompareMapToSlice(m1, s2)`: `removed` lists the keys of m1 that do not
   * occur in s2; `added` is s2, in order, without the keys of m1.
   */
  method CompareMapToSlice<K, V>(m1: map<K, V>, s2: seq<K>) returns (added: seq<K>, removed: seq<K>)
    ensures Lists(removed, m1.Keys - Elems(s2))
    ensures added == NotIn(s2, m1.Keys)
  {
    removed := KeysNotIn(m1, Elems(s2));
    added := FilterNotIn(s2, m1.Keys);
  }
}
