/**
 * Specification vocabulary shared by the keyed stores and the comparators:
 * what it means for a slice to list a set (Go map iteration has no fixed
 * order, so results are only determined up to order), and the
 * order-preserving filter that the slice comparisons compute.
 */
module Listing {

  /** No element occurs twice in `s`. */
  ghost predicate Distinct<T>(s: seq<T>) {
    forall i, j :: 0 <= i < j < |s| ==> s[i] != s[j]
  }

  /** `s` lists every element of `elems` exactly once, and nothing else. */
  ghost predicate Lists<T>(s: seq<T>, elems: set<T>) {
    && Distinct(s)
    && (forall x | x in s :: x in elems)
    && (forall x | x in elems :: x in s)
  }

  /** The elements of a slice, as a set (the model of `slices.Contains`). */
  function Elems<T>(s: seq<T>): set<T> {
    set x | x in s
  }

  /** The keys of a sequence of key/value pairs, in order. */
  function Firsts<A, B>(ps: seq<(A, B)>): seq<A> {
    seq(|ps|, i requires 0 <= i < |ps| => ps[i].0)
  }

  /** A listing of a set has exactly as many entries as the set has elements. */
  lemma {:induction false} ListsCardinality<T>(s: seq<T>, elems: set<T>)
    requires Lists(s, elems)
    ensures |s| == |elems|
  {
    if s != [] {
      var x := s[0];
      var rest := s[1..];
      forall y | y in rest
        ensures y in elems - {x}
      {
        var j :| 0 <= j < |rest| && rest[j] == y;
        assert s[j + 1] == y;
      }
      ListsCardinality(rest, elems - {x});
    }
  }

  /** Dropping one entry of a listing lists the set without that element. */
  lemma ListsRemoveAt<T>(s: seq<T>, elems: set<T>, i: nat)
    requires Lists(s, elems) && i < |s|
    ensures Lists(s[..i] + s[i + 1..], elems - {s[i]})
  {
    var r := s[..i] + s[i + 1..];
    forall y | y in r
      ensures y in elems - {s[i]}
    {
      var j :| 0 <= j < |r| && r[j] == y;
      if j < i { assert s[j] == y; } else { assert s[j + 1] == y; }
    }
    forall y | y in elems - {s[i]}
      ensures y in r
    {
      assert y in s;
      var j :| 0 <= j < |s| && s[j] == y;
      if j < i { assert r[j] == y; } else { assert r[j - 1] == y; }
    }
    forall p, q | 0 <= p < q < |r|
      ensures r[p] != r[q]
    {
      var p' := if p < i then p else p + 1;
      var q' := if q < i then q else q + 1;
      assert r[p] == s[p'] && r[q] == s[q'];
    }
  }

  /**
   * The elements of `s` that are not in `excluded`, in their original order,
   * duplicates kept. Defined from the back, as an appending loop builds it.
   */
  function NotIn<T>(s: seq<T>, excluded: set<T>): (r: seq<T>)
    ensures |r| <= |s|
  {
    if s == [] then []
    else NotIn(s[..|s| - 1], excluded) + (if s[|s| - 1] in excluded then [] else [s[|s| - 1]])
  }

  /** An element survives the filter exactly when it occurs in `s` and is not excluded. */
  lemma {:induction false} NotInMembership<T>(s: seq<T>, excluded: set<T>, x: T)
    ensures x in NotIn(s, excluded) <==> x in s && x !in excluded
  {
    if s != [] {
      var init := s[..|s| - 1];
      NotInMembership(init, excluded, x);
      assert s == init + [s[|s| - 1]];
    }
  }

  /** Duplicates are kept: every surviving value occurs as often as in `s`. */
  lemma {:induction false} NotInCount<T>(s: seq<T>, excluded: set<T>, x: T)
    ensures multiset(NotIn(s, excluded))[x] == if x in excluded then 0 else multiset(s)[x]
  {
    if s != [] {
      var init := s[..|s| - 1];
      NotInCount(init, excluded, x);
      assert s == init + [s[|s| - 1]];
    }
  }

  /** The filter respects concatenation, so it keeps the relative order of `s`. */
  lemma {:induction false} NotInConcat<T>(a: seq<T>, b: seq<T>, excluded: set<T>)
    ensures NotIn(a + b, excluded) == NotIn(a, excluded) + NotIn(b, excluded)
  {
    if b != [] {
      var init := b[..|b| - 1];
      NotInConcat(a, init, excluded);
      assert (a + b)[..|a + b| - 1] == a + init;
    } else {
      assert a + b == a;
    }
  }

  /** Filtering a listing of a set lists what is left of the set. */
  lemma {:induction false} NotInLists<T>(s: seq<T>, elems: set<T>, excluded: set<T>)
    requires Lists(s, elems)
    ensures Lists(NotIn(s, excluded), elems - excluded)
  {
    var r := NotIn(s, excluded);
    forall x | x in r
      ensures x in elems - excluded
    {
      NotInMembership(s, excluded, x);
    }
    forall x | x in elems - excluded
      ensures x in r
    {
      NotInMembership(s, excluded, x);
    }
    NotInDistinct(s, excluded);
  }

  /** Filtering keeps a duplicate-free slice duplicate-free. */
  lemma {:induction false} NotInDistinct<T>(s: seq<T>, excluded: set<T>)
    requires Distinct(s)
    ensures Distinct(NotIn(s, excluded))
  {
    if s != [] {
      var init, last := s[..|s| - 1], s[|s| - 1];
      NotInDistinct(init, excluded);
      NotInMembership(init, excluded, last);
      assert last !in init;
    }
  }

  /** Excluding every element of `s` leaves nothing. */
  lemma {:induction false} NotInAll<T>(s: seq<T>, excluded: set<T>)
    requires Elems(s) <= excluded
    ensures NotIn(s, excluded) == []
  {
    if s != [] {
      NotInAll(s[..|s| - 1], excluded);
      assert s[|s| - 1] in Elems(s);
    }
  }

  /** Excluding nothing that occurs in `s` leaves `s` as it is. */
  lemma {:induction false} NotInNone<T>(s: seq<T>, excluded: set<T>)
    requires Elems(s) !! excluded
    ensures NotIn(s, excluded) == s
  {
    if s != [] {
      NotInNone(s[..|s| - 1], excluded);
      assert s[|s| - 1] in Elems(s);
      assert s[..|s| - 1] + [s[|s| - 1]] == s;
    }
  }

  /**
   * `for _, v := range s { if !excluded(v) { r = append(r, v) } }`: the loop
   * shared by the slice comparisons.
   */
  method FilterNotIn<T>(s: seq<T>, excluded: set<T>) returns (r: seq<T>)
    ensures r == NotIn(s, excluded)
  {
    r := [];
    for i := 0 to |s|
      invariant r == NotIn(s[..i], excluded)
    {
      assert s[..i + 1][..i] == s[..i];
      if s[i] !in excluded {
        r := r + [s[i]];
      }
    }
    assert s[..|s|] == s;
  }

  /**
   * `for k := range m { if !excluded(k) { r = append(r, k) } }`: Go visits the
   * keys of a map once each in no fixed order, which the loop models by
   * picking any key not yet visited.
   */
  method KeysNotIn<K, V>(m: map<K, V>, excluded: set<K>) returns (r: seq<K>)
    ensures Lists(r, m.Keys - excluded)
  {
    r := [];
    var rest := m.Keys;
    while rest != {}
      invariant rest <= m.Keys
      invariant Distinct(r)
      invariant forall k :: k in r <==> k in m.Keys - rest - excluded
      decreases rest
    {
      var k :| k in rest;
      rest := rest - {k};
      if k !in excluded {
        assert k !in r;
        r := r + [k];
      }
    }
  }
}
