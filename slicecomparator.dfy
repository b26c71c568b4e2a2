/**
 * The second `CompareSlices`, over `[]any`: the same two loops as the one in
 * the `Compare` module, so it has the same specification.
 */
module SliceComparator {
  import opened Listing

  /**
   * `removed` is s1 without the elements that occur in s2, `added` is s2
   * without the elements that occur in s1, both in order with duplicates.
   */
  method CompareSlices<T(==)>(s1: seq<T>, s2: seq<T>) returns (added: seq<T>, removed: seq<T>)
    ensures removed == NotIn(s1, Elems(s2))
    ensures added == NotIn(s2, Elems(s1))
    ensures |removed| <= |s1| && |added| <= |s2|
    ensures s1 == s2 ==> added == [] && removed == []
  {
    removed := [];
    for i := 0 to |s1|
      invariant removed == NotIn(s1[..i], Elems(s2))
    {
      assert s1[..i + 1][..i] == s1[..i];
      if s1[i] !in s2 {
        removed := removed + [s1[i]];
      }
    }
    added := [];
    for i := 0 to |s2|
      invariant added == NotIn(s2[..i], Elems(s1))
    {
      assert s2[..i + 1][..i] == s2[..i];
      if s2[i] !in s1 {
        added := added + [s2[i]];
      }
    }
    assert s1[..|s1|] == s1 && s2[..|s2|] == s2;
    if s1 == s2 {
      NotInAll(s1, Elems(s2));
    }
  }
}
