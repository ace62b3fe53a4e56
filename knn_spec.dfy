/**
 * What the k-NN builders of src/core/knn.rs compute, stated on values: the
 * list a node ends up with, the state of its bounded heap part way through
 * the scan, and the steps (skip, push, push-then-pop, drain) that carry
 * that state from one node to the next.
 */
module KnnSpec {
  import opened Neighbors

  function Min(a: nat, b: nat): nat {
    if a < b then a else b
  }

  /** The record `Neighbor::new(j, metric(nodes[n], nodes[j]))` built for node `j` seen from node `n`. */
  function Candidate<P>(nodes: seq<P>, metric: (P, P) -> int, n: nat, j: nat): (r: Neighbor)
    requires n < |nodes| && j < |nodes|
    ensures r.idx == j
  {
    Neighbor(j, metric(nodes[n], nodes[j]))
  }

  /**
   * What `graph[n]` holds after the naive build: `min(k, N - 1)` records,
   * none of them `n` itself, no index twice, in non-increasing distance
   * (the order a max-heap drains in), and no node left out is closer to
   * `n` than any node kept.
   */
  ghost predicate IsKnnList<P>(nodes: seq<P>, metric: (P, P) -> int, k: nat, n: nat, list: seq<Neighbor>)
    requires n < |nodes|
  {
    && |list| == Min(k, |nodes| - 1)
    && (forall p :: 0 <= p < |list| ==>
          list[p].idx < |nodes| && list[p].idx != n && list[p] == Candidate(nodes, metric, n, list[p].idx))
    && (forall p, q :: 0 <= p < q < |list| ==> list[p].idx != list[q].idx)
    && (forall p, q :: 0 <= p < q < |list| ==> list[p].distance >= list[q].distance)
    && (forall j, p :: 0 <= j < |nodes| && j != n && Candidate(nodes, metric, n, j) !in list && 0 <= p < |list| ==>
          list[p].distance <= Candidate(nodes, metric, n, j).distance)
  }

  /** How many nodes other than `n` lie below `i`. */
  function Seen(n: nat, i: nat): nat {
    if n < i then i - 1 else i
  }

  /** The distances from node `n` to every node, in node order. */
  function DistanceRow<P>(nodes: seq<P>, metric: (P, P) -> int, n: nat): (row: seq<int>)
    requires n < |nodes|
    ensures |row| == |nodes|
    ensures forall j :: 0 <= j < |nodes| ==> Candidate(nodes, metric, n, j) == Neighbor(j, row[j])
  {
    seq(|nodes|, j requires 0 <= j < |nodes| => metric(nodes[n], nodes[j]))
  }

  /**
   * The heap of node `n` after the scan has reached `i`, where `row` holds
   * node `n`'s distances: it holds, once each, the records of
   * `min(k, Seen(n, i))` of the nodes below `i` other than `n`, and such a
   * node is left out only when the heap is full and nothing kept is
   * farther than it.
   */
  ghost predicate Retained(row: seq<int>, k: nat, n: nat, i: nat, m: multiset<Neighbor>)
    requires i <= |row|
  {
    && (forall e | e in m :: m[e] == 1 && e.idx < i && e.idx != n && e.distance == row[e.idx])
    && |m| == Min(k, Seen(n, i))
    && (forall j :: 0 <= j < i && j != n && Neighbor(j, row[j]) !in m ==> Dropped(row[j], k, m))
  }

  /** A node at distance `d` may be left out of `m` only when `m` is full and nothing in it is farther. */
  ghost predicate Dropped(d: int, k: nat, m: multiset<Neighbor>) {
    |m| >= k && forall e | e in m :: e.distance <= d
  }

  lemma RetainedStart(row: seq<int>, k: nat, n: nat)
    ensures Retained(row, k, n, 0, multiset{})
  {
  }

  /** Node `n` itself is skipped: nothing changes. */
  lemma RetainedSkipSelf(row: seq<int>, k: nat, n: nat, m: multiset<Neighbor>)
    requires n < |row|
    requires Retained(row, k, n, n, m)
    ensures Retained(row, k, n, n + 1, m)
  {
  }

  /** The record of node `i` is pushed and the heap is still within `k`. */
  lemma RetainedPush(row: seq<int>, k: nat, n: nat, i: nat, m: multiset<Neighbor>)
    requires i < |row| && i != n
    requires Retained(row, k, n, i, m)
    requires |m| + 1 <= k
    ensures Retained(row, k, n, i + 1, m + multiset{Neighbor(i, row[i])})
  {
    var x := Neighbor(i, row[i]);
    var m' := m + multiset{x};
    assert x !in m;
    forall j | 0 <= j < i + 1 && j != n
      ensures Neighbor(j, row[j]) in m'
    {
      if j < i {
        assert Neighbor(j, row[j]) in m;
      }
    }
  }

  /**
   * The record of node `i` is pushed, the heap grows past `k` and a
   * farthest record `top` is popped again.
   */
  lemma RetainedPushPop(row: seq<int>, k: nat, n: nat, i: nat,
                        m: multiset<Neighbor>, m': multiset<Neighbor>, top: Neighbor)
    requires i < |row| && i != n
    requires Retained(row, k, n, i, m)
    requires |m| + 1 > k
    requires m' + multiset{top} == m + multiset{Neighbor(i, row[i])}
    requires forall e | e in m + multiset{Neighbor(i, row[i])} :: e.distance <= top.distance
    ensures Retained(row, k, n, i + 1, m')
  {
    var x := Neighbor(i, row[i]);
    var pushed := m + multiset{x};
    assert x !in m;
    assert top in pushed;
    assert |m' + multiset{top}| == |m'| + 1;
    assert |m + multiset{x}| == |m| + 1;
    assert |m| == k;
    forall e | e in m'
      ensures e.idx < i + 1 && e.idx != n && e.distance == row[e.idx]
      ensures m'[e] == 1
    {
      assert e in pushed;
    }
    forall j, e | 0 <= j < i + 1 && j != n && Neighbor(j, row[j]) !in m' && e in m'
      ensures e.distance <= row[j]
    {
      var c := Neighbor(j, row[j]);
      assert e in pushed;
      if c in pushed {
        // `c` was the record popped
        assert c == top;
      } else {
        assert j < i;
        if e == x {
          // `x` survived, so the popped record came from `m` and is no farther than `c`
          assert top != x;
          assert top in m;
        }
      }
    }
  }

  /** A record occurring at two positions of a sequence occurs twice in its multiset. */
  lemma RepeatedTwice(s: seq<Neighbor>, p: nat, q: nat)
    requires p < q < |s| && s[p] == s[q]
    ensures multiset(s)[s[p]] >= 2
  {
    assert s == s[..q] + s[q..];
    assert s[p] in s[..q];
    assert s[q] == s[q..][0];
  }

  /** A drained heap that retained all nodes is a k-NN list. */
  lemma DrainedIsKnnList<P>(nodes: seq<P>, metric: (P, P) -> int, k: nat, n: nat, list: seq<Neighbor>)
    requires n < |nodes|
    requires Retained(DistanceRow(nodes, metric, n), k, n, |nodes|, multiset(list))
    requires forall p, q :: 0 <= p < q < |list| ==> list[p].distance >= list[q].distance
    ensures IsKnnList(nodes, metric, k, n, list)
  {
    var row := DistanceRow(nodes, metric, n);
    var m := multiset(list);
    forall p | 0 <= p < |list|
      ensures list[p].idx < |nodes| && list[p].idx != n && list[p] == Candidate(nodes, metric, n, list[p].idx)
    {
      assert list[p] in m;
    }
    forall p, q | 0 <= p < q < |list|
      ensures list[p].idx != list[q].idx
    {
      assert list[p] in m && list[q] in m;
      if list[p].idx == list[q].idx {
        RepeatedTwice(list, p, q);
      }
    }
  }

  /**
   * Part way through draining a heap that held `all`: `list` was popped in
   * non-increasing order, `rest` is still in the heap and no farther than
   * anything popped.
   */
  ghost predicate DrainedSoFar(list: seq<Neighbor>, rest: multiset<Neighbor>, all: multiset<Neighbor>) {
    && multiset(list) + rest == all
    && (forall p, q :: 0 <= p < q < |list| ==> list[p].distance >= list[q].distance)
    && (forall p, e :: 0 <= p < |list| && e in rest ==> e.distance <= list[p].distance)
  }

  /** Popping a farthest record `top` of `rest` extends the drained list. */
  lemma DrainStep(list: seq<Neighbor>, rest: multiset<Neighbor>, rest': multiset<Neighbor>, top: Neighbor,
                  all: multiset<Neighbor>)
    requires DrainedSoFar(list, rest, all)
    requires rest' + multiset{top} == rest
    requires forall e | e in rest :: e.distance <= top.distance
    ensures DrainedSoFar(list + [top], rest', all)
  {
    assert top in rest;
    assert multiset(list + [top]) == multiset(list) + multiset{top};
    forall p, e | 0 <= p < |list| + 1 && e in rest'
      ensures e.distance <= (list + [top])[p].distance
    {
      assert e in rest;
    }
  }

  /**
   * Offering `x` to a heap that held `before` left it holding `after`: the
   * one record of `before` and `x` that is gone, `evicted`, is a farthest one.
   */
  ghost predicate DropsFarthest(before: multiset<Neighbor>, x: Neighbor, after: multiset<Neighbor>, evicted: Neighbor) {
    && after + multiset{evicted} == before + multiset{x}
    && forall e | e in before + multiset{x} :: e.distance <= evicted.distance
  }

  /**
   * Offering `x` to a full heap that held `before`, with farthest record
   * `top`, left it holding `after`: a farthest record `evicted` of `before`
   * and `x` is gone, nothing kept is farther than `top`, and `x` is kept
   * when it is strictly closer than `top`.
   */
  ghost predicate OfferedTo(before: multiset<Neighbor>, top: Neighbor, x: Neighbor, after: multiset<Neighbor>, evicted: Neighbor) {
    && DropsFarthest(before, x, after, evicted)
    && (forall e | e in after :: e.distance <= top.distance)
    && (x.distance < top.distance ==> x in after)
  }

  /**
   * Trimming a heap after pushing `x`, no farther than the heap's farthest
   * record `top`: nothing kept is farther than `top`, everything kept was
   * there before or is `x`, and `x` is kept when strictly closer than `top`.
   */
  lemma BoundedKeepsWorst(before: multiset<Neighbor>, after: multiset<Neighbor>, x: Neighbor, evicted: Neighbor, top: Neighbor)
    requires top in before && forall e | e in before :: e.distance <= top.distance
    requires x.distance <= top.distance
    requires after + multiset{evicted} == before + multiset{x}
    requires forall e | e in before + multiset{x} :: e.distance <= evicted.distance
    ensures after <= before + multiset{x}
    ensures forall e | e in after :: e.distance <= top.distance
    ensures x.distance < top.distance ==> x in after
  {
    forall e | e in after
      ensures e.distance <= top.distance
    {
      assert e in before + multiset{x};
    }
    if x.distance < top.distance {
      assert top.distance <= evicted.distance;
      assert x != evicted;
      assert x in after + multiset{evicted};
    }
  }
}
