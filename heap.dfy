/**
 * The array-backed binary max-heap of src/core/heap.rs, a port of the
 * standard library's `BinaryHeap`. The root holds the greatest element;
 * here the elements are `Neighbor` records ordered by distance, so the
 * root is the farthest neighbour kept.
 */
module Heap {
  import opened Neighbors
  import opened Wrappers

  /** The element at position `c` is no farther than its parent's. */
  ghost predicate ParentAbove(s: seq<Neighbor>, c: nat)
    requires 0 < c < |s|
  {
    s[(c - 1) / 2].distance >= s[c].distance
  }

  /** Heap order on a sequence laid out as a complete binary tree. */
  ghost predicate HeapOrdered(s: seq<Neighbor>) {
    forall c :: 0 < c < |s| ==> ParentAbove(s, c)
  }

  /** In a heap-ordered sequence the root is at least as far as position `j`. */
  lemma {:induction false} RootDominates(s: seq<Neighbor>, j: nat)
    requires HeapOrdered(s) && j < |s|
    ensures s[0].distance >= s[j].distance
    decreases j
  {
    if j > 0 {
      assert ParentAbove(s, j);
      RootDominates(s, (j - 1) / 2);
    }
  }

  /** In a non-empty heap-ordered sequence the root is a maximum. */
  lemma RootIsMaximum(s: seq<Neighbor>)
    requires HeapOrdered(s) && |s| > 0
    ensures forall e | e in s :: e.distance <= s[0].distance
  {
    forall e | e in s
      ensures e.distance <= s[0].distance
    {
      var j :| 0 <= j < |s| && s[j] == e;
      RootDominates(s, j);
    }
  }

  /** The parent of position `i > 0` dominates `i`'s children. */
  ghost predicate GrandparentAbove(s: seq<Neighbor>, i: nat) {
    0 < i < |s| ==>
      && (2 * i + 1 < |s| ==> s[(i - 1) / 2].distance >= s[2 * i + 1].distance)
      && (2 * i + 2 < |s| ==> s[(i - 1) / 2].distance >= s[2 * i + 2].distance)
  }

  /**
   * The state of a sift-down at position `i`: every edge is in order except
   * possibly those from `i` to its children, and `i`'s parent already
   * dominates those children.
   */
  ghost predicate DownInvariant(s: seq<Neighbor>, i: nat) {
    OrderedBelowExcept(s, i) && GrandparentAbove(s, i)
  }

  /** Every edge is in order except possibly those out of position `i`. */
  ghost predicate OrderedBelowExcept(s: seq<Neighbor>, i: nat) {
    forall c :: 0 < c < |s| && (c - 1) / 2 != i ==> ParentAbove(s, c)
  }

  /**
   * The state of a sift-up at position `i`: every edge is in order except
   * possibly the one from `i`'s parent to `i`, and that parent already
   * dominates `i`'s children.
   */
  ghost predicate UpInvariant(s: seq<Neighbor>, i: nat) {
    OrderedExcept(s, i) && GrandparentAbove(s, i)
  }

  /** Every edge is in order except possibly the one into position `i`. */
  ghost predicate OrderedExcept(s: seq<Neighbor>, i: nat) {
    forall c :: 0 < c < |s| && c != i ==> ParentAbove(s, c)
  }

  /** Exchanging two positions permutes a sequence. */
  lemma SwapPermutes(s: seq<Neighbor>, i: nat, j: nat)
    requires i < |s| && j < |s|
    ensures multiset(s[i := s[j]][j := s[i]]) == multiset(s)
  {
  }

  /** The parent of position `d > 0` is `p` exactly when `d` is one of `p`'s two children. */
  lemma ParentIndex(d: nat, p: nat)
    requires d > 0
    ensures (d - 1) / 2 == p <==> d == 2 * p + 1 || d == 2 * p + 2
  {
  }

  /** Swapping `i` with its larger child `c` moves the sift-down one level. */
  lemma SiftDownStep(s: seq<Neighbor>, i: nat, c: nat)
    requires DownInvariant(s, i)
    requires (c == 2 * i + 1 || c == 2 * i + 2) && c < |s|
    requires s[c].distance > s[i].distance
    requires 2 * i + 2 < |s| ==> s[2 * i + 1].distance <= s[c].distance && s[2 * i + 2].distance <= s[c].distance
    ensures DownInvariant(s[i := s[c]][c := s[i]], c)
  {
    SiftDownEdges(s, i, c);
    var t := s[i := s[c]][c := s[i]];
    if 2 * c + 1 < |t| {
      assert ParentAbove(s, 2 * c + 1);
    }
    if 2 * c + 2 < |t| {
      assert ParentAbove(s, 2 * c + 2);
    }
  }

  /** After the swap, every edge is in order except those out of the child's position. */
  lemma SiftDownEdges(s: seq<Neighbor>, i: nat, c: nat)
    requires DownInvariant(s, i)
    requires (c == 2 * i + 1 || c == 2 * i + 2) && c < |s|
    requires s[c].distance > s[i].distance
    requires 2 * i + 2 < |s| ==> s[2 * i + 1].distance <= s[c].distance && s[2 * i + 2].distance <= s[c].distance
    ensures OrderedBelowExcept(s[i := s[c]][c := s[i]], c)
  {
    var t := s[i := s[c]][c := s[i]];
    forall d | 0 < d < |t| && (d - 1) / 2 != c
      ensures ParentAbove(t, d)
    {
      ParentIndex(d, i);
      if d == c || d == 2 * i + 1 || d == 2 * i + 2 {
      } else if d == i {
        ParentIndex(i, c);
      } else {
        assert ParentAbove(s, d);
      }
    }
  }

  /** A sift-down whose position dominates its children has finished. */
  lemma SiftDownDone(s: seq<Neighbor>, i: nat)
    requires DownInvariant(s, i)
    requires 2 * i + 1 < |s| ==> s[2 * i + 1].distance <= s[i].distance
    requires 2 * i + 2 < |s| ==> s[2 * i + 2].distance <= s[i].distance
    ensures HeapOrdered(s)
  {
    forall d | 0 < d < |s|
      ensures ParentAbove(s, d)
    {
    }
  }

  /** Swapping `i` with its smaller parent moves the sift-up one level. */
  lemma SiftUpStep(s: seq<Neighbor>, i: nat)
    requires UpInvariant(s, i)
    requires 0 < i < |s| && s[(i - 1) / 2].distance < s[i].distance
    ensures UpInvariant(s[(i - 1) / 2 := s[i]][i := s[(i - 1) / 2]], (i - 1) / 2)
  {
    SiftUpEdges(s, i);
    SiftUpAbove(s, i);
  }

  /** After the swap, every edge except the one into the parent's position is in order. */
  lemma SiftUpEdges(s: seq<Neighbor>, i: nat)
    requires UpInvariant(s, i)
    requires 0 < i < |s| && s[(i - 1) / 2].distance < s[i].distance
    ensures var p := (i - 1) / 2; OrderedExcept(s[p := s[i]][i := s[p]], p)
  {
    var p := (i - 1) / 2;
    var t := s[p := s[i]][i := s[p]];
    forall d | 0 < d < |t| && d != p
      ensures ParentAbove(t, d)
    {
      ParentIndex(d, p);
      ParentIndex(d, i);
      if d == i {
      } else if d == 2 * p + 1 || d == 2 * p + 2 {
        assert ParentAbove(s, d);
      } else if d == 2 * i + 1 || d == 2 * i + 2 {
      } else {
        assert ParentAbove(s, d);
      }
    }
  }

  /** After the swap, the grandparent dominates the parent position's children. */
  lemma SiftUpAbove(s: seq<Neighbor>, i: nat)
    requires UpInvariant(s, i)
    requires 0 < i < |s| && s[(i - 1) / 2].distance < s[i].distance
    ensures var p := (i - 1) / 2; GrandparentAbove(s[p := s[i]][i := s[p]], p)
  {
    var p := (i - 1) / 2;
    var t := s[p := s[i]][i := s[p]];
    if 0 < p {
      assert ParentAbove(s, p);
      if 2 * p + 1 < |t| && 2 * p + 1 != i {
        assert ParentAbove(s, 2 * p + 1);
      }
      if 2 * p + 2 < |t| && 2 * p + 2 != i {
        assert ParentAbove(s, 2 * p + 2);
      }
    }
  }

  /** A sift-up at the root, or below a parent that dominates it, has finished. */
  lemma SiftUpDone(s: seq<Neighbor>, i: nat)
    requires UpInvariant(s, i) && i < |s|
    requires i > 0 ==> s[(i - 1) / 2].distance >= s[i].distance
    ensures HeapOrdered(s)
  {
    forall d | 0 < d < |s|
      ensures ParentAbove(s, d)
    {
    }
  }

  /** Appending to a heap leaves only the new edge to be sifted up. */
  lemma AppendStartsSiftUp(s: seq<Neighbor>, x: Neighbor)
    requires HeapOrdered(s)
    ensures UpInvariant(s + [x], |s|)
  {
    var t := s + [x];
    forall d | 0 < d < |t| && d != |s|
      ensures ParentAbove(t, d)
    {
      assert ParentAbove(s, d);
    }
  }

  /** The heap left after removing the root: the last element moves to the root. */
  function Refilled(s: seq<Neighbor>): (t: seq<Neighbor>)
    requires |s| > 0
    ensures |t| == |s| - 1
  {
    if |s| == 1 then [] else s[..|s| - 1][0 := s[|s| - 1]]
  }

  /**
   * Removing the root of a heap: the rest keeps every other element, the
   * root is a greatest element, and only the new root may need sifting down.
   */
  lemma RefillRemovesRoot(s: seq<Neighbor>)
    requires HeapOrdered(s) && |s| > 0
    ensures multiset(Refilled(s)) + multiset{s[0]} == multiset(s)
    ensures forall e | e in multiset(s) :: e.distance <= s[0].distance
    ensures |s| > 1 ==> DownInvariant(Refilled(s), 0)
  {
    RootIsMaximum(s);
    var n := |s|;
    if n == 1 {
      assert s == [s[0]];
    } else {
      var t := Refilled(s);
      assert s == [s[0]] + s[1..n - 1] + [s[n - 1]];
      assert t == [s[n - 1]] + s[1..n - 1];
      forall d | 0 < d < |t| && (d - 1) / 2 != 0
        ensures ParentAbove(t, d)
      {
        assert ParentAbove(s, d);
      }
    }
  }

  class BinaryHeap {
    /** `data: Vec<T>`: the allocated buffer; its first `len` slots are the heap. */
    var data: array<Neighbor>
    var len: nat

    ghost predicate Valid()
      reads this, data
    {
      len <= data.Length && HeapOrdered(data[..len])
    }

    /** The heap's elements in array order. */
    ghost function Contents(): seq<Neighbor>
      reads this, data
      requires len <= data.Length
    {
      data[..len]
    }

    /** The heap's elements, forgetting their positions. */
    ghost function Elements(): multiset<Neighbor>
      reads this, data
      requires len <= data.Length
    {
      multiset(data[..len])
    }

    /** `BinaryHeap::new()`: an empty heap. */
    constructor ()
      ensures Valid() && fresh(data)
      ensures len == 0 && Elements() == multiset{}
    {
      data := new Neighbor[0];
      len := 0;
    }

    /**
     * `BinaryHeap::with_capacity(capacity)`: an empty heap whose buffer has
     * room for `capacity` elements. The capacity is an allocation hint only:
     * `Push` grows the buffer when it is full.
     */
    constructor WithCapacity(capacity: nat)
      ensures Valid() && fresh(data)
      ensures len == 0 && Elements() == multiset{}
      ensures data.Length == capacity
    {
      data := new Neighbor[capacity];
      len := 0;
    }

    /** `peek()`: the greatest element, or `None` when the heap is empty. */
    function Peek(): (r: Option<Neighbor>)
      reads this, data
      requires Valid()
      ensures r == None <==> len == 0
      ensures r.Some? ==> r.value in Elements()
      ensures r.Some? ==> forall e | e in Elements() :: e.distance <= r.value.distance
    {
      if len == 0 then None
      else
        RootIsMaximum(data[..len]);
        Some(data[0])
    }

    /** Replaces the buffer by one twice as large, keeping the elements. */
    method Grow()
      requires Valid()
      modifies this
      ensures Valid() && fresh(data)
      ensures len == old(len) && len < data.Length
      ensures Contents() == old(Contents())
    {
      var bigger := new Neighbor[2 * data.Length + 1];
      forall i | 0 <= i < len {
        bigger[i] := data[i];
      }
      assert bigger[..len] == data[..len];
      data := bigger;
      assert Contents() == old(Contents());
    }

    /** `push(item)`: appends `x` and sifts it up; the buffer grows when full. */
    method Push(x: Neighbor)
      requires Valid()
      modifies this, data
      ensures Valid() && (data == old(data) || fresh(data))
      ensures len == old(len) + 1
      ensures Elements() == old(Elements()) + multiset{x}
    {
      if len == data.Length {
        Grow();
      }
      ghost var before := data[..len];
      data[len] := x;
      len := len + 1;
      assert data[..len] == before + [x];
      AppendStartsSiftUp(before, x);
      SiftUp(len - 1);
    }

    /** Restores heap order when only the edge above `start` may be out of order. */
    method SiftUp(start: nat)
      requires len <= data.Length && start < len
      requires UpInvariant(data[..len], start)
      modifies data
      ensures Valid()
      ensures Elements() == old(Elements())
    {
      var i: nat := start;
      while i > 0 && data[(i - 1) / 2].distance < data[i].distance
        invariant i < len
        invariant UpInvariant(data[..len], i)
        invariant multiset(data[..len]) == old(multiset(data[..len]))
        decreases i
      {
        var p := (i - 1) / 2;
        SiftUpStep(data[..len], i);
        Exchange(p, i);
        i := p;
      }
      SiftUpDone(data[..len], i);
    }

    /** Swaps the elements at positions `i` and `j` of the heap's buffer. */
    method Exchange(i: nat, j: nat)
      requires len <= data.Length && i < len && j < len
      modifies data
      ensures data[..len] == old(data[..len])[i := old(data[j])][j := old(data[i])]
      ensures multiset(data[..len]) == old(multiset(data[..len]))
    {
      ghost var s := data[..len];
      SwapPermutes(s, i, j);
      data[i], data[j] := data[j], data[i];
      assert data[..len] == s[i := s[j]][j := s[i]];
    }

    /** Restores heap order when only the edges below the root may be out of order. */
    method SiftDown()
      requires 0 < len <= data.Length
      requires DownInvariant(data[..len], 0)
      modifies data
      ensures Valid()
      ensures Elements() == old(Elements())
    {
      var i: nat := 0;
      while 2 * i + 1 < len
        invariant i < len
        invariant DownInvariant(data[..len], i)
        invariant multiset(data[..len]) == old(multiset(data[..len]))
        decreases len - i
      {
        var c := 2 * i + 1;
        if c + 1 < len && data[c + 1].distance > data[c].distance {
          c := c + 1;
        }
        if data[c].distance <= data[i].distance {
          break;
        }
        SiftDownStep(data[..len], i, c);
        Exchange(i, c);
        i := c;
      }
      SiftDownDone(data[..len], i);
    }

    /** Moves the last element to the root, shortening the heap by one. */
    method RemoveRoot()
      requires 0 < len <= data.Length
      modifies this, data
      ensures data == old(data) && len == old(len) - 1
      ensures Contents() == Refilled(old(Contents()))
    {
      ghost var s := data[..len];
      if len > 1 {
        data[0] := data[len - 1];
      }
      len := len - 1;
      assert data[..len] == Refilled(s);
    }

    /**
     * `pop()`: `None` on an empty heap; otherwise removes and returns a
     * greatest element, moving the last element to the root and sifting it
     * down.
     */
    method Pop() returns (r: Option<Neighbor>)
      requires Valid()
      modifies this, data
      ensures Valid() && data == old(data)
      ensures old(len) == 0 ==> r == None && len == 0
      ensures old(len) > 0 ==> r.Some? && len == old(len) - 1
      ensures old(len) > 0 ==> Elements() + multiset{r.value} == old(Elements())
      ensures old(len) > 0 ==> forall e | e in old(Elements()) :: e.distance <= r.value.distance
    {
      if len == 0 {
        return None;
      }
      ghost var s := data[..len];
      RefillRemovesRoot(s);
      var item := data[0];
      RemoveRoot();
      if len > 0 {
        SiftDown();
      }
      r := Some(item);
    }
  }
}
