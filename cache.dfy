/**
 * `Cache`: a set of keys, each stamped with the time it was last added, and
 * an expiry duration. Time is an integer supplied by the caller (`now`), in
 * the same unit as `expiry`.
 */
module Caches {
  import opened Listing

  class Cache<K(==)> {
    const expiry: int
    var items: map<K, int>

    /** `NewCache(expiry)`: an empty cache with the given expiry. */
    constructor (expiry: int)
      ensures this.expiry == expiry && items == map[]
    {
      this.expiry := expiry;
      items := map[];
    }

    /** A key stamped at `stamp` has expired at `now` when at least `expiry` has elapsed. */
    predicate Expired(stamp: int, now: int) {
      now - stamp >= expiry
    }

    /**
     * `DeleteExpired()` at time `now`: removes and returns exactly the expired
     * keys, each once; fresher keys keep their stamps.
     */
    method DeleteExpired(now: int) returns (deleted: seq<K>)
      modifies this
      ensures Lists(deleted, set k | k in old(items) && Expired(old(items)[k], now))
      ensures items == map k | k in old(items) && !Expired(old(items)[k], now) :: old(items)[k]
    {
      deleted := [];
      var rest := items.Keys;
      while rest != {}
        invariant rest <= old(items).Keys
        invariant Distinct(deleted)
        invariant forall k :: k in deleted <==> k in old(items) && k !in rest && Expired(old(items)[k], now)
        invariant items == map k | k in old(items) && (k in rest || !Expired(old(items)[k], now)) :: old(items)[k]
        decreases rest
      {
        var k :| k in rest;
        rest := rest - {k};
        if Expired(items[k], now) {
          items := items - {k};
          assert k !in deleted;
          deleted := deleted + [k];
        }
      }
    }

    /** `Add(keys...)` at time `now`: every given key gets the stamp `now`; other keys keep theirs. */
    method Add(keys: seq<K>, now: int)
      modifies this
      ensures items.Keys == old(items).Keys + Elems(keys)
      ensures forall k :: k in keys ==> items[k] == now
      ensures forall k :: k in old(items) && k !in keys ==> items[k] == old(items)[k]
    {
      for i := 0 to |keys|
        invariant items.Keys == old(items).Keys + Elems(keys[..i])
        invariant forall k :: k in keys[..i] ==> items[k] == now
        invariant forall k :: k in old(items) && k !in keys[..i] ==> items[k] == old(items)[k]
      {
        assert keys[..i + 1] == keys[..i] + [keys[i]];
        items := items[keys[i] := now];
      }
      assert keys[..|keys|] == keys;
    }

    /** `Delete(keys...)`: removes exactly the given keys; absent ones are ignored. */
    method Delete(keys: seq<K>)
      modifies this
      ensures items == old(items) - Elems(keys)
    {
      for i := 0 to |keys|
        invariant items == old(items) - Elems(keys[..i])
      {
        assert keys[..i + 1] == keys[..i] + [keys[i]];
        items := items - {keys[i]};
      }
      assert keys[..|keys|] == keys;
    }

    /** `Contains(k)`: whether `k` carries a stamp. */
    predicate Contains(key: K)
      reads this
      ensures Contains(key) <==> key in items.Keys
      ensures Contains(key) ==> Len() > 0
    {
      key in items
    }

    /** `Len()`: the number of stamped keys. */
    function Len(): (n: nat)
      reads this
      ensures n == |items.Keys|
      ensures n == 0 <==> items == map[]
    {
      |items|
    }

    /** `Keys()`: every stamped key once, as many entries as `Len()`. */
    method Keys() returns (keys: seq<K>)
      ensures Lists(keys, items.Keys)
      ensures |keys| == Len()
    {
      keys := KeysNotIn(items, {});
      ListsCardinality(keys, items.Keys);
    }

    /** `Clear()`: the cache is empty. */
    method Clear()
      modifies this
      ensures items == map[]
      ensures Len() == 0
    {
      items := map[];
    }
  }

  /** Adding five distinct keys stamps five keys. */
  method AddFive() returns (n: nat)
    ensures n == 5
  {
    var c := new Cache<int>(60);
    c.Add([1, 2, 3, 4, 5], 0);
    assert c.items.Keys == {1, 2, 3, 4, 5};
    n := c.Len();
  }

  /** Adding five keys and deleting three of them leaves two. */
  method AddFiveDeleteThree() returns (n: nat)
    ensures n == 2
  {
    var c := new Cache<int>(60);
    c.Add([1, 2, 3, 4, 5], 0);
    c.Delete([1, 2, 3]);
    assert c.items.Keys == {4, 5};
    n := c.Len();
  }

  /** After adding 1 to 5, the cache contains 1 and does not contain 6. */
  method ContainsAdded() returns (has1: bool, has6: bool)
    ensures has1 && !has6
  {
    var c := new Cache<int>(60);
    c.Add([1, 2, 3, 4, 5], 0);
    has1 := c.Contains(1);
    has6 := c.Contains(6);
  }

  /** Five keys added at one instant have all expired once `expiry` has elapsed. */
  method AllExpire(expiry: int, start: int) returns (deletedCount: nat, left: nat)
    ensures deletedCount == 5 && left == 0
  {
    var c := new Cache<int>(expiry);
    c.Add([1, 2, 3, 4, 5], start);
    var deleted := c.DeleteExpired(start + expiry);
    ListsCardinality(deleted, {1, 2, 3, 4, 5});
    deletedCount := |deleted|;
    left := c.Len();
  }
}
