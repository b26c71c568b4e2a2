/**
 * `CircularLinkedList`: a singly-linked ring of nodes reached through a
 * single `tail` reference; the head is `tail.next`. `size` is kept up to date
 * by every operation rather than recomputed.
 *
 * The abstract value is the ghost `contents`, read head to tail; the ghost
 * `nodes` holds the ring's nodes in the same order. One state outside the
 * textbook invariant is tolerated: `RemoveLast` on a one-element list sets
 * `size` to 0 but leaves `tail` on the removed node, which points to itself.
 */
module CircularList {
  import opened Wrappers

  /** `Node`: one value and the link to the next node of the ring. */
  class Node<T> {
    var data: T
    var next: Node?<T>

    constructor (data: T, next: Node?<T>)
      ensures this.data == data && this.next == next
    {
      this.data := data;
      this.next := next;
    }
  }

  /** The sequence moved on by one: the head goes to the back. */
  function Rotated<T>(s: seq<T>): seq<T> {
    if s == [] then [] else s[1..] + [s[0]]
  }

  /** `s` rotated `k` times. */
  function RotatedBy<T>(s: seq<T>, k: nat): seq<T> {
    if k == 0 then s else Rotated(RotatedBy(s, k - 1))
  }

  /** Rotating `k <= |s|` times moves the first `k` elements to the back, in order. */
  lemma {:induction false} RotatedBySplit<T>(s: seq<T>, k: nat)
    requires k <= |s|
    ensures RotatedBy(s, k) == s[k..] + s[..k]
  {
    if k > 0 {
      RotatedBySplit(s, k - 1);
      var r := s[k - 1..] + s[..k - 1];
      assert r[0] == s[k - 1];
      assert r[1..] == s[k..] + s[..k - 1];
      assert s[..k - 1] + [s[k - 1]] == s[..k];
    }
  }

  /** `Size` rotations bring every element back to where it started. */
  lemma FullRotationRestores<T>(s: seq<T>)
    ensures RotatedBy(s, |s|) == s
  {
    RotatedBySplit(s, |s|);
  }

  /** `s` without its first occurrence of `x`; `s` itself when `x` does not occur. */
  function DeleteFirst<T(==)>(s: seq<T>, x: T): seq<T> {
    if s == [] then []
    else if s[0] == x then s[1..]
    else [s[0]] + DeleteFirst(s[1..], x)
  }

  /** When the first occurrence of `x` is at index `i`, exactly that index goes. */
  lemma {:induction false} DeleteFirstAt<T>(s: seq<T>, x: T, i: nat)
    requires i < |s| && s[i] == x && x !in s[..i]
    ensures DeleteFirst(s, x) == s[..i] + s[i + 1..]
  {
    if i > 0 {
      assert s[0] in s[..i];
      assert s[1..][..i - 1] == s[1..i];
      DeleteFirstAt(s[1..], x, i - 1);
    }
  }

  /** An absent value leaves the sequence unchanged. */
  lemma {:induction false} DeleteFirstAbsent<T>(s: seq<T>, x: T)
    requires x !in s
    ensures DeleteFirst(s, x) == s
  {
    if s != [] {
      assert x !in s[1..];
      DeleteFirstAbsent(s[1..], x);
    }
  }

  /** Exactly one copy of `x` goes when there is one, and none otherwise. */
  lemma {:induction false} DeleteFirstMultiset<T>(s: seq<T>, x: T)
    ensures multiset(DeleteFirst(s, x)) == multiset(s) - multiset{x}
  {
    if s != [] {
      DeleteFirstMultiset(s[1..], x);
      assert s == [s[0]] + s[1..];
    }
  }

  class CircularLinkedList<T(==)> {
    var tail: Node?<T>
    var size: int

    ghost var contents: seq<T>
    ghost var nodes: seq<Node<T>>
    ghost var Repr: set<object>

    /** The ring invariant, with the stale self-looping tail allowed when `size` is 0. */
    ghost predicate Valid()
      reads this, Repr
    {
      && this in Repr
      && size == |contents| == |nodes|
      && (forall i :: 0 <= i < |nodes| ==> nodes[i] in Repr && nodes[i].data == contents[i])
      && (forall i, j :: 0 <= i < j < |nodes| ==> nodes[i] != nodes[j])
      && (forall i :: 0 <= i < |nodes| - 1 ==> nodes[i].next == nodes[i + 1])
      && (size > 0 ==> tail == nodes[|nodes| - 1] && tail.next == nodes[0])
      && (size == 0 ==> tail == null || (tail in Repr && tail.next == tail))
    }

    /** `NewCircularLinkedList()`: the empty list. */
    constructor ()
      ensures Valid() && fresh(Repr)
      ensures contents == []
    {
      tail := null;
      size := 0;
      contents, nodes := [], [];
      Repr := {this};
    }

    /** `IsEmpty()`: the list holds no value. */
    predicate IsEmpty()
      requires Valid()
      reads this, Repr
      ensures IsEmpty() <==> contents == []
    {
      size == 0
    }

    /** `First()`: the head value, or `None` on an empty list. */
    function First(): (r: Option<T>)
      requires Valid()
      reads this, Repr
      ensures contents == [] ==> r == None
      ensures contents != [] ==> r == Some(contents[0])
    {
      if size == 0 then None else Some(tail.next.data)
    }

    /** `Last()`: the tail value, or `None` on an empty list. */
    function Last(): (r: Option<T>)
      requires Valid()
      reads this, Repr
      ensures contents == [] ==> r == None
      ensures contents != [] ==> r == Some(contents[|contents| - 1])
    {
      if size == 0 then None else Some(tail.data)
    }

    /** `Rotate()`: the head moves to the back; nothing happens on an empty list. */
    method Rotate()
      requires Valid()
      modifies this
      ensures Valid() && Repr == old(Repr)
      ensures contents == Rotated(old(contents))
      ensures size == old(size)
    {
      if tail != null {
        tail := tail.next;
        if size > 0 {
          nodes := nodes[1..] + [nodes[0]];
          contents := contents[1..] + [contents[0]];
        }
      }
    }

    /** `AddFirst(x)`: `x` becomes the new head. */
    method AddFirst(x: T)
      requires Valid()
      modifies Repr
      ensures Valid() && fresh(Repr - old(Repr))
      ensures contents == [x] + old(contents)
      ensures size == old(size) + 1
    {
      if size == 0 {
        tail := new Node(x, null);
        tail.next := tail;
        nodes, contents := [tail], [x];
        Repr := Repr + {tail};
      } else {
        var n := new Node(x, tail.next);
        tail.next := n;
        nodes, contents := [n] + nodes, [x] + contents;
        Repr := Repr + {n};
      }
      size := size + 1;
    }

    /** `AddLast(x)`: `x` becomes the new tail; the head stays. */
    method AddLast(x: T)
      requires Valid()
      modifies Repr
      ensures Valid() && fresh(Repr - old(Repr))
      ensures contents == old(contents) + [x]
      ensures size == old(size) + 1
    {
      AddFirst(x);
      tail := tail.next;
      nodes := nodes[1..] + [nodes[0]];
      contents := contents[1..] + [contents[0]];
    }

    /** `RemoveFirst()`: takes off and returns the head, or `None` on an empty list. */
    method RemoveFirst() returns (r: Option<T>)
      requires Valid()
      modifies Repr
      ensures Valid() && Repr == old(Repr)
      ensures old(contents) == [] ==> r == None && contents == [] && size == old(size)
      ensures old(contents) != [] ==> r == Some(old(contents)[0]) && contents == old(contents)[1..]
    {
      if size == 0 {
        return None;
      }
      var head := tail.next;
      var val := head.data;
      if head == tail {
        tail := null;
      } else {
        tail.next := head.next;
      }
      size := size - 1;
      nodes, contents := nodes[1..], contents[1..];
      return Some(val);
    }

    /**
     * `RemoveLast()`: takes off and returns the tail, or `None` on an empty
     * list. The predecessor of the tail is found by walking from the head.
     */
    method RemoveLast() returns (r: Option<T>)
      requires Valid()
      modifies Repr
      ensures Valid() && Repr == old(Repr)
      ensures old(contents) == [] ==> r == None && contents == [] && size == old(size)
      ensures old(contents) != [] ==> r == Some(old(contents)[|old(contents)| - 1]) && contents == old(contents)[..|old(contents)| - 1]
      ensures |old(contents)| == 1 ==> size == 0 && tail == old(tail) != null
    {
      if size == 0 {
        return None;
      }
      var val := tail.data;
      var current := tail.next;
      ghost var i := 0;
      while current.next != tail
        invariant 0 <= i < |nodes| && current == nodes[i]
        invariant |nodes| > 1 ==> i <= |nodes| - 2
        decreases |nodes| - i
      {
        current := current.next;
        i := i + 1;
      }
      assert |nodes| > 1 ==> nodes[i].next == nodes[i + 1];
      current.next := tail.next;
      tail := current;
      size := size - 1;
      nodes, contents := nodes[..|nodes| - 1], contents[..|contents| - 1];
      return Some(val);
    }

    /**
     * `Remove(x)`: unlinks the first node, head to tail, that holds `x`; the
     * tail moves back when it is the one removed. Nothing changes when `x`
     * is absent.
     */
    method Remove(x: T)
      requires Valid()
      modifies Repr
      ensures Valid() && Repr == old(Repr)
      ensures contents == DeleteFirst(old(contents), x)
      ensures size == |contents|
    {
      if size == 0 {
        return;
      }
      var prev: Node?<T> := null;
      var current := tail.next;
      ghost var i := 0;
      while current != tail
        invariant Valid() && Repr == old(Repr)
        invariant nodes == old(nodes) && contents == old(contents)
        invariant 0 <= i < |nodes| && current == nodes[i]
        invariant prev == if i == 0 then null else nodes[i - 1]
        invariant x !in contents[..i]
        decreases |nodes| - i
      {
        if current.data == x {
          DeleteFirstAt(contents, x, i);
          Unlink(prev, current, i);
          return;
        }
        prev := current;
        current := current.next;
        i := i + 1;
      }
      if current.data == x {
        if prev == null {
          tail := null;
        } else {
          prev.next := current.next;
          tail := prev;
        }
        size := size - 1;
        DeleteFirstAt(contents, x, i);
        nodes, contents := nodes[..i], contents[..i];
      } else {
        assert contents == contents[..i] + [contents[i]];
        DeleteFirstAbsent(contents, x);
      }
    }

    /**
     * The unlinking step of `Remove` for a node other than the tail: its
     * predecessor (the tail when it is the head) skips over it.
     */
    method Unlink(prev: Node?<T>, current: Node<T>, ghost i: nat)
      requires Valid() && i < |nodes| - 1 && current == nodes[i]
      requires prev == if i == 0 then null else nodes[i - 1]
      modifies Repr
      ensures Valid() && Repr == old(Repr)
      ensures nodes == old(nodes[..i] + nodes[i + 1..])
      ensures contents == old(contents[..i] + contents[i + 1..])
    {
      if prev == null {
        tail.next := current.next;
      } else {
        prev.next := current.next;
      }
      size := size - 1;
      nodes, contents := nodes[..i] + nodes[i + 1..], contents[..i] + contents[i + 1..];
    }

    /** `Vals()`: the values head to tail, `size` of them. */
    method Vals() returns (vals: seq<T>)
      requires Valid()
      ensures vals == contents
      ensures |vals| == size
    {
      vals := [];
      if size == 0 {
        return;
      }
      var current := tail.next;
      ghost var i := 0;
      while current != tail
        invariant 0 <= i < |nodes| && current == nodes[i]
        invariant vals == contents[..i]
        decreases |nodes| - i
      {
        vals := vals + [current.data];
        current := current.next;
        i := i + 1;
      }
      vals := vals + [tail.data];
    }

    /** `Add(x)`: the same as `AddFirst(x)`. */
    method Add(x: T)
      requires Valid()
      modifies Repr
      ensures Valid() && fresh(Repr - old(Repr))
      ensures contents == [x] + old(contents)
      ensures size == old(size) + 1
    {
      AddFirst(x);
    }
  }

  /** `AddFirst(x)` followed by `RemoveFirst()` gives back `x` and the original list. */
  method AddFirstThenRemoveFirst<T(==)>(l: CircularLinkedList<T>, x: T) returns (r: Option<T>)
    requires l.Valid()
    modifies l.Repr
    ensures l.Valid() && r == Some(x)
    ensures l.contents == old(l.contents)
  {
    l.AddFirst(x);
    r := l.RemoveFirst();
  }

  /**
   * `RemoveLast` on a one-element list leaves `size` at 0 with `tail` still
   * set; the list then behaves as empty: no first value, rotation does
   * nothing, `Vals` is empty, and `AddLast` starts a new one-element list.
   */
  method RemoveLastOnSingleton() returns (last: Option<int>, staleTail: bool, first: Option<int>, vals: seq<int>, after: seq<int>)
    ensures last == Some(7) && staleTail
    ensures first == None && vals == [] && after == [8]
  {
    var l := new CircularLinkedList<int>();
    l.AddFirst(7);
    last := l.RemoveLast();
    staleTail := l.tail != null;
    first := l.First();
    l.Rotate();
    vals := l.Vals();
    l.AddLast(8);
    after := l.Vals();
  }
}
