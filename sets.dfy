/**
 * `StringSet` and `IntSet`: a Go `map[T]bool` behind a lock, used as a set.
 * The two Go types are the same code at two element types, so they are one
 * generic class here with the two names as synonyms; `Strings()` and `Ints()`
 * are both `Items()`.
 */
module Sets {
  import opened Listing

  type StringSet = ItemSet<string>
  type IntSet = ItemSet<int>

  class ItemSet<T(==)> {
    var items: map<T, bool>

    /**
     * The zero value `StringSet{}`: Go's nil map reads as empty, and `Add`
     * allocating it on first use is not observable, so it starts empty.
     */
    constructor ()
      ensures items == map[]
    {
      items := map[];
    }

    /** The elements: the keys present (the stored flag is never read). */
    ghost function Elements(): set<T>
      reads this
    {
      items.Keys
    }

    /** `Add(t)`: afterwards `t` is a member; adding a member changes nothing; returns the receiver. */
    method Add(t: T) returns (s: ItemSet<T>)
      modifies this
      ensures s == this
      ensures Has(t)
      ensures Elements() == old(Elements()) + {t}
      ensures old(Has(t)) ==> items == old(items)
      ensures forall x :: x in old(items) ==> x in items && items[x] == old(items)[x]
    {
      if t !in items {
        items := items[t := true];
      }
      s := this;
    }

    /** `Clear()`: no element is left. */
    method Clear()
      modifies this
      ensures Size() == 0
      ensures forall x :: !Has(x)
    {
      items := map[];
    }

    /** `Delete(x)`: reports whether `x` was a member and removes it; other elements stay. */
    method Delete(item: T) returns (ok: bool)
      modifies this
      ensures ok == old(Has(item))
      ensures !Has(item)
      ensures items == old(items) - {item}
    {
      ok := item in items;
      if ok {
        items := items - {item};
      }
    }

    /** `Has(x)`: whether `x` is a member. */
    predicate Has(item: T)
      reads this
      ensures Has(item) <==> item in Elements()
    {
      item in items
    }

    /** `Strings()` / `Ints()`: every element exactly once, as many entries as `Size()`. */
    method Items() returns (r: seq<T>)
      ensures Lists(r, Elements())
      ensures |r| == Size()
    {
      r := KeysNotIn(items, {});
      ListsCardinality(r, Elements());
    }

    /** `Size()`: the number of elements. */
    function Size(): (n: nat)
      reads this
      ensures n == |Elements()|
      ensures n == 0 <==> Elements() == {}
    {
      |items|
    }
  }

  /** Adding to a fresh set, adding again, deleting: the set is back to empty and `Delete` reports the member. */
  method AddTwiceDeleteOnce() returns (size: nat, wasThere: bool, sizeAfter: nat)
    ensures size == 1 && wasThere && sizeAfter == 0
  {
    var s: StringSet := new ItemSet();
    var _ := s.Add("a");
    var _ := s.Add("a");
    size := s.Size();
    wasThere := s.Delete("a");
    sizeAfter := s.Size();
  }
}
