/** `MapKeys` and `MapVals`: the keys or the values of a Go map as a slice, in iteration order. */
module MapHelpers {
  import opened Listing

  /** The values stored under `keys`, in that order. */
  function ValuesAt<K, V>(m: map<K, V>, keys: seq<K>): (vals: seq<V>)
    requires forall k | k in keys :: k in m
    ensures |vals| == |keys|
    ensures forall i :: 0 <= i < |keys| ==> vals[i] == m[keys[i]]
  {
    if keys == [] then [] else ValuesAt(m, keys[..|keys| - 1]) + [m[keys[|keys| - 1]]]
  }

  /** Looking values up along a concatenation is concatenating the look-ups. */
  lemma {:induction false} ValuesAtConcat<K, V>(m: map<K, V>, a: seq<K>, b: seq<K>)
    requires forall k | k in a + b :: k in m
    ensures ValuesAt(m, a + b) == ValuesAt(m, a) + ValuesAt(m, b)
  {
    if b != [] {
      ValuesAtConcat(m, a, b[..|b| - 1]);
      assert (a + b)[..|a + b| - 1] == a + b[..|b| - 1];
    } else {
      assert a + b == a;
    }
  }

  /** Taking one key out of the look-up takes its value out of the multiset. */
  lemma ValuesAtRemove<K, V>(m: map<K, V>, keys: seq<K>, i: nat)
    requires forall k | k in keys :: k in m
    requires i < |keys|
    ensures multiset(ValuesAt(m, keys)) == multiset{m[keys[i]]} + multiset(ValuesAt(m, keys[..i] + keys[i + 1..]))
  {
    var front, back := keys[..i], keys[i + 1..];
    assert keys == (front + [keys[i]]) + back;
    ValuesAtConcat(m, front + [keys[i]], back);
    ValuesAtConcat(m, front, [keys[i]]);
    ValuesAtConcat(m, front, back);
  }

  /**
   * The multiset of a map's values does not depend on the order in which its
   * keys are visited: any two listings of the keys give the same multiset.
   */
  lemma {:induction false} ValuesMultisetIndependentOfOrder<K, V>(m: map<K, V>, a: seq<K>, b: seq<K>, keys: set<K>)
    requires keys <= m.Keys && Lists(a, keys) && Lists(b, keys)
    ensures multiset(ValuesAt(m, a)) == multiset(ValuesAt(m, b))
    decreases |a|
  {
    if a != [] {
      var x := a[0];
      assert x in b;
      var i :| 0 <= i < |b| && b[i] == x;
      ListsRemoveAt(a, keys, 0);
      ListsRemoveAt(b, keys, i);
      ValuesAtRemove(m, a, 0);
      ValuesAtRemove(m, b, i);
      ValuesMultisetIndependentOfOrder(m, a[..0] + a[1..], b[..i] + b[i + 1..], keys - {x});
    }
  }

  /**
   * `MapVals(m)`: one value per key, `len(m)` of them; `order` is the key
   * visiting order the slice follows, so its multiset is that of m's values.
   */
  method MapVals<K, V>(m: map<K, V>) returns (vals: seq<V>, ghost order: seq<K>)
    ensures Lists(order, m.Keys)
    ensures vals == ValuesAt(m, order)
    ensures |vals| == |m|
    ensures forall v | v in vals :: exists k :: k in m && m[k] == v
  {
    vals, order := [], [];
    var rest := m.Keys;
    while rest != {}
      invariant rest <= m.Keys
      invariant Distinct(order)
      invariant forall k :: k in order <==> k in m.Keys - rest
      invariant vals == ValuesAt(m, order)
      decreases rest
    {
      var k :| k in rest;
      rest := rest - {k};
      assert k !in order;
      assert (order + [k])[..|order|] == order;
      vals, order := vals + [m[k]], order + [k];
    }
    ListsCardinality(order, m.Keys);
    forall v | v in vals
      ensures exists k :: k in m && m[k] == v
    {
      var i :| 0 <= i < |vals| && vals[i] == v;
      assert order[i] in m;
    }
  }

  /** `MapKeys(m)`: every key exactly once, `len(m)` of them. */
  method MapKeys<K, V>(m: map<K, V>) returns (keys: seq<K>)
    ensures Lists(keys, m.Keys)
    ensures |keys| == |m|
  {
    keys := [];
    var rest := m.Keys;
    while rest != {}
      invariant rest <= m.Keys
      invariant Distinct(keys)
      invariant forall k :: k in keys <==> k in m.Keys - rest
      decreases rest
    {
      var k :| k in rest;
      rest := rest - {k};
      assert k !in keys;
      keys := keys + [k];
    }
    ListsCardinality(keys, m.Keys);
  }
}
