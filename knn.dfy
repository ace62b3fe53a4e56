/**
 * k-nearest-neighbour graph construction (src/core/knn.rs): the naive
 * builder, which keeps the k closest other nodes of every node in a bounded
 * max-heap, and the per-node heap maintenance of NN-descent.
 *
 * Nodes are values of an arbitrary type `P`; the distance function is the
 * parameter `metric`, into `int` because distances are only compared.
 */
module Knn {
  import opened Neighbors
  import opened Heap
  import opened KnnSpec

  /**
   * Pushes `x` and pops once if the heap then holds more than `k` records:
   * the step both builders use to keep a node's `k` closest candidates.
   * `evicted` names the record the pop removed.
   */
  method PushWithin(heap: BinaryHeap, x: Neighbor, k: nat) returns (ghost evicted: Neighbor)
    requires heap.Valid()
    modifies heap, heap.data
    ensures heap.Valid() && (heap.data == old(heap.data) || fresh(heap.data))
    ensures old(heap.len) + 1 <= k ==> heap.len == old(heap.len) + 1 && heap.Elements() == old(heap.Elements()) + multiset{x}
    ensures old(heap.len) + 1 > k ==> heap.len == old(heap.len)
    ensures old(heap.len) + 1 > k ==> heap.Elements() + multiset{evicted} == old(heap.Elements()) + multiset{x}
    ensures old(heap.len) + 1 > k ==> forall e | e in old(heap.Elements()) + multiset{x} :: e.distance <= evicted.distance
  {
    heap.Push(x);
    evicted := x;
    if heap.len > k {
      var top := heap.Pop();
      evicted := top.value;
    }
  }

  /**
   * The body of the scan over node `i`: skipped when `i` is `n` itself,
   * otherwise node `i`'s record is pushed and the heap trimmed back to `k`.
   */
  method Offer<P>(heap: BinaryHeap, nodes: seq<P>, metric: (P, P) -> int, k: nat, n: nat, i: nat, ghost row: seq<int>)
    requires n < |nodes| && i < |nodes| && row == DistanceRow(nodes, metric, n)
    requires heap.Valid() && Retained(row, k, n, i, heap.Elements())
    modifies heap, heap.data
    ensures heap.Valid() && (heap.data == old(heap.data) || fresh(heap.data))
    ensures Retained(row, k, n, i + 1, heap.Elements())
  {
    if i == n {
      RetainedSkipSelf(row, k, n, heap.Elements());
    } else {
      ghost var before := heap.Elements();
      ghost var full := heap.len + 1 > k;
      ghost var evicted := PushWithin(heap, Candidate(nodes, metric, n, i), k);
      if full {
        RetainedPushPop(row, k, n, i, before, heap.Elements(), evicted);
      } else {
        RetainedPush(row, k, n, i, before);
      }
    }
  }

  /** Pops a heap until it is empty, collecting the records in the order popped. */
  method Drain(heap: BinaryHeap) returns (list: seq<Neighbor>)
    requires heap.Valid()
    modifies heap, heap.data
    ensures heap.Valid() && heap.len == 0 && heap.data == old(heap.data)
    ensures multiset(list) == old(heap.Elements())
    ensures forall p, q :: 0 <= p < q < |list| ==> list[p].distance >= list[q].distance
  {
    list := [];
    ghost var all := heap.Elements();
    ghost var rest := all;
    while heap.len > 0
      invariant heap.Valid() && heap.data == old(heap.data)
      invariant heap.Elements() == rest
      invariant DrainedSoFar(list, rest, all)
      decreases heap.len
    {
      var top := heap.Pop();
      DrainStep(list, rest, heap.Elements(), top.value, all);
      list := list + [top.value];
      rest := heap.Elements();
    }
  }

  /**
   * The scan of one iteration of `naive_build_knn_graph`'s outer loop: every
   * other node is offered to a heap created with capacity `k`.
   */
  method ScanOthers<P>(nodes: seq<P>, metric: (P, P) -> int, k: nat, n: nat) returns (heap: BinaryHeap)
    requires n < |nodes|
    ensures fresh(heap) && fresh(heap.data) && heap.Valid()
    ensures Retained(DistanceRow(nodes, metric, n), k, n, |nodes|, heap.Elements())
  {
    ghost var row := DistanceRow(nodes, metric, n);
    heap := new BinaryHeap.WithCapacity(k);
    RetainedStart(row, k, n);
    var i := 0;
    ghost var kept := heap.Elements();
    while i < |nodes|
      invariant i <= |nodes|
      invariant fresh(heap) && fresh(heap.data) && heap.Valid()
      invariant Retained(row, k, n, i, kept)
      invariant heap.Elements() == kept
    {
      Offer(heap, nodes, metric, k, n, i, row);
      kept := heap.Elements();
      i := i + 1;
    }
  }

  /**
   * One iteration of `naive_build_knn_graph`'s outer loop: the list that
   * replaces `graph[n]`, made by scanning the other nodes into a bounded
   * heap and draining it.
   */
  method NodeNeighbors<P>(nodes: seq<P>, metric: (P, P) -> int, k: nat, n: nat) returns (list: seq<Neighbor>)
    requires n < |nodes|
    ensures IsKnnList(nodes, metric, k, n, list)
  {
    var heap := ScanOthers(nodes, metric, k, n);
    list := Drain(heap);
    DrainedIsKnnList(nodes, metric, k, n, list);
  }

  /**
   * `naive_build_knn_graph`: replaces `graph[n]` by node `n`'s k-NN list
   * for every node, one node at a time; slots past the last node are left
   * alone.
   */
  method NaiveBuildKnnGraph<P>(nodes: seq<P>, metric: (P, P) -> int, k: nat, graph: array<seq<Neighbor>>)
    requires |nodes| <= graph.Length
    modifies graph
    ensures forall n :: 0 <= n < |nodes| ==> IsKnnList(nodes, metric, k, n, graph[n])
    ensures forall m :: |nodes| <= m < graph.Length ==> graph[m] == old(graph[m])
  {
    for n := 0 to |nodes|
      invariant forall m :: 0 <= m < n ==> IsKnnList(nodes, metric, k, m, graph[m])
      invariant forall m :: n <= m < graph.Length ==> graph[m] == old(graph[m])
    {
      var list := NodeNeighbors(nodes, metric, k, n);
      graph[n] := list;
    }
  }

  /**
   * `NNDescentHandler`: the part of NN-descent that keeps every node's heap
   * of its `k` best candidates so far. `graph[n]` is node `n`'s heap; every
   * heap starts with `k` sentinel records, which point at the non-existent
   * node `|nodes|` with the largest distance `maxDistance` (`E::max_value()`).
   */
  class NNDescentHandler<P> {
    const nodes: seq<P>
    const metric: (P, P) -> int
    const k: nat
    const maxDistance: int
    var graph: seq<BinaryHeap>

    /** `NNDescentHandler::new`: the graph is empty until `Init`. */
    constructor (nodes: seq<P>, metric: (P, P) -> int, k: nat, maxDistance: int)
      ensures this.nodes == nodes && this.metric == metric && this.k == k && this.maxDistance == maxDistance
      ensures graph == []
    {
      this.nodes := nodes;
      this.metric := metric;
      this.k := k;
      this.maxDistance := maxDistance;
      graph := [];
    }

    /** The placeholder record `Neighbor::new(nodes.len(), E::max_value())`. */
    function Sentinel(): (r: Neighbor)
      ensures r.idx == |nodes| && r.distance == maxDistance
    {
      Neighbor(|nodes|, maxDistance)
    }

    /** A record heap `me` may hold: a sentinel, or the true record of another node. */
    ghost predicate Entry(me: nat, e: Neighbor)
      requires me < |nodes|
    {
      e == Sentinel() || (e.idx < |nodes| && e.idx != me && e == Candidate(nodes, metric, me, e.idx))
    }

    /** Heap `h` is a well-formed heap for node `me` holding exactly `k` entries. */
    ghost predicate NodeHeap(h: BinaryHeap, me: nat)
      reads h, h.data
      requires me < |nodes|
    {
      && h.Valid() && h.len == k
      && forall e | e in h.Elements() :: Entry(me, e)
    }

    /** Each of the first `|g|` nodes has its own heap, and no two heaps share an object. */
    ghost predicate HeapsReady(g: seq<BinaryHeap>)
      reads set i | 0 <= i < |g| :: g[i]
      reads set i | 0 <= i < |g| :: g[i].data
    {
      && |g| <= |nodes|
      && (forall i :: 0 <= i < |g| ==> NodeHeap(g[i], i))
      && (forall i, j :: 0 <= i < j < |g| ==> g[i] != g[j] && g[i].data != g[j].data)
    }

    /** A heap for the next node that shares no object with the others extends the graph. */
    lemma HeapsReadyAppend(g: seq<BinaryHeap>, h: BinaryHeap)
      requires HeapsReady(g) && |g| < |nodes| && NodeHeap(h, |g|)
      requires forall i :: 0 <= i < |g| ==> g[i] != h && g[i].data != h.data
      ensures HeapsReady(g + [h])
    {
      var g' := g + [h];
      forall i | 0 <= i < |g'|
        ensures NodeHeap(g'[i], i)
      {
        if i < |g| { assert g'[i] == g[i]; }
      }
    }

    /** The shape `Init` gives the graph and `Update` keeps. */
    ghost predicate GraphInvariant(g: seq<BinaryHeap>)
      reads set i | 0 <= i < |g| :: g[i]
      reads set i | 0 <= i < |g| :: g[i].data
    {
      |g| == |nodes| && HeapsReady(g)
    }

    /** The heap `init` builds for one node: capacity `2k`, then `k` sentinels. */
    method SentinelHeap() returns (heap: BinaryHeap)
      ensures fresh(heap) && fresh(heap.data)
      ensures heap.Valid() && heap.len == k
      ensures forall e | e in heap.Elements() :: e == Sentinel()
    {
      heap := new BinaryHeap.WithCapacity(2 * k);
      for j := 0 to k
        invariant fresh(heap) && fresh(heap.data)
        invariant heap.Valid() && heap.len == j
        invariant forall e | e in heap.Elements() :: e == Sentinel()
      {
        heap.Push(Sentinel());
      }
    }

    /** `init`: gives every node a fresh heap of `k` sentinels. */
    method Init()
      modifies this
      ensures GraphInvariant(graph)
      ensures forall i, e :: 0 <= i < |graph| && e in graph[i].Elements() ==> e == Sentinel()
      ensures forall i :: 0 <= i < |graph| ==> fresh(graph[i]) && fresh(graph[i].data)
    {
      graph := SentinelGraph();
    }

    /** One fresh heap of `k` sentinels per node. */
    method SentinelGraph() returns (g: seq<BinaryHeap>)
      ensures GraphInvariant(g)
      ensures forall i, e :: 0 <= i < |g| && e in g[i].Elements() ==> e == Sentinel()
      ensures forall i :: 0 <= i < |g| ==> fresh(g[i]) && fresh(g[i].data)
    {
      g := [];
      for i := 0 to |nodes|
        invariant |g| == i
        invariant forall j :: 0 <= j < i ==> fresh(g[j]) && fresh(g[j].data)
        invariant HeapsReady(g)
        invariant forall j, e :: 0 <= j < i && e in g[j].Elements() ==> e == Sentinel()
      {
        var heap := SentinelHeap();
        HeapsReadyAppend(g, heap);
        g := g + [heap];
      }
    }

    /**
     * `update_nn_node`: offers node `candidate` to node `me`'s heap. The
     * offer is refused when it is farther than the heap's current farthest
     * record; otherwise it is pushed, and the heap is trimmed back to `k`.
     * On a heap already holding `k` records, `evicted` names the one record
     * of the old heap and the candidate that is not kept, a farthest one:
     * the popped record, or the refused candidate itself.
     */
    method UpdateNnNode(me: nat, candidate: nat, myGraph: seq<BinaryHeap>) returns (accepted: bool, ghost evicted: Neighbor)
      requires me < |nodes| && candidate < |nodes| && me < |myGraph|
      requires myGraph[me].Valid() && myGraph[me].len > 0
      modifies myGraph[me], myGraph[me].data
      ensures myGraph[me].Valid()
      ensures myGraph[me].data == old(myGraph[me].data) || fresh(myGraph[me].data)
      ensures accepted == (Candidate(nodes, metric, me, candidate).distance <= old(myGraph[me].Peek().value.distance))
      ensures !accepted ==> myGraph[me].len == old(myGraph[me].len) && myGraph[me].Elements() == old(myGraph[me].Elements())
      ensures accepted && old(myGraph[me].len) < k ==>
        && myGraph[me].len == old(myGraph[me].len) + 1
        && myGraph[me].Elements() == old(myGraph[me].Elements()) + multiset{Candidate(nodes, metric, me, candidate)}
      ensures old(myGraph[me].len) >= k ==>
        && myGraph[me].len == old(myGraph[me].len)
        && DropsFarthest(old(myGraph[me].Elements()), Candidate(nodes, metric, me, candidate), myGraph[me].Elements(), evicted)
      ensures accepted && old(myGraph[me].len) >= k ==>
        && myGraph[me].Elements() <= old(myGraph[me].Elements()) + multiset{Candidate(nodes, metric, me, candidate)}
        && (forall e | e in myGraph[me].Elements() :: e.distance <= old(myGraph[me].Peek().value.distance))
        && (Candidate(nodes, metric, me, candidate).distance < old(myGraph[me].Peek().value.distance) ==>
              Candidate(nodes, metric, me, candidate) in myGraph[me].Elements())
    {
      var heap := myGraph[me];
      var dist := metric(nodes[me], nodes[candidate]);
      var worst := heap.Peek();
      evicted := Neighbor(candidate, dist);
      if dist > worst.value.distance {
        accepted := false;
      } else {
        ghost var x := Neighbor(candidate, dist);
        ghost var before := heap.Elements();
        evicted := PushWithin(heap, Neighbor(candidate, dist), k);
        if old(heap.len) >= k {
          BoundedKeepsWorst(before, heap.Elements(), x, evicted, worst.value);
        }
        accepted := true;
      }
    }

    /**
     * `update`: offers `u1` and `u2` to each other's heaps; a node is never
     * offered to itself. Every heap keeps its `k` entries and no entry gets
     * farther than the heap's farthest record was before. `evicted1` and
     * `evicted2` name the record each heap lets go: a farthest one among its
     * old records and the candidate offered to it.
     */
    method Update(u1: nat, u2: nat, myGraph: seq<BinaryHeap>) returns (updated: bool, ghost evicted1: Neighbor, ghost evicted2: Neighbor)
      requires u1 < |nodes| && u2 < |nodes| && (u1 != u2 ==> k > 0)
      requires GraphInvariant(myGraph)
      modifies myGraph[u1], myGraph[u1].data, myGraph[u2], myGraph[u2].data
      ensures GraphInvariant(myGraph)
      ensures updated == (u1 != u2)
      ensures !updated ==> myGraph[u1].Elements() == old(myGraph[u1].Elements())
      ensures updated ==> OfferedTo(old(myGraph[u1].Elements()), old(myGraph[u1].Peek().value),
                                    Candidate(nodes, metric, u1, u2), myGraph[u1].Elements(), evicted1)
      ensures updated ==> OfferedTo(old(myGraph[u2].Elements()), old(myGraph[u2].Peek().value),
                                    Candidate(nodes, metric, u2, u1), myGraph[u2].Elements(), evicted2)
    {
      if u1 == u2 {
        return false, Sentinel(), Sentinel();
      }
      evicted1, evicted2 := OfferBoth(u1, u2, myGraph);
      updated := true;
    }

    /** The two `update_nn_node` calls of `update` on distinct nodes. */
    method OfferBoth(u1: nat, u2: nat, myGraph: seq<BinaryHeap>) returns (ghost evicted1: Neighbor, ghost evicted2: Neighbor)
      requires u1 < |nodes| && u2 < |nodes| && u1 != u2 && k > 0
      requires GraphInvariant(myGraph)
      modifies myGraph[u1], myGraph[u1].data, myGraph[u2], myGraph[u2].data
      ensures GraphInvariant(myGraph)
      ensures OfferedTo(old(myGraph[u1].Elements()), old(myGraph[u1].Peek().value),
                        Candidate(nodes, metric, u1, u2), myGraph[u1].Elements(), evicted1)
      ensures OfferedTo(old(myGraph[u2].Elements()), old(myGraph[u2].Peek().value),
                        Candidate(nodes, metric, u2, u1), myGraph[u2].Elements(), evicted2)
    {
      evicted1 := OfferKeeps(u1, u2, myGraph);
      evicted2 := OfferKeeps(u2, u1, myGraph);
    }

    /**
     * One `update_nn_node` call inside `update`, together with the proof
     * that the graph keeps its shape: only heap `me` changes, it keeps `k`
     * entries, and its one possible newcomer is `candidate`'s true record.
     */
    method OfferKeeps(me: nat, candidate: nat, myGraph: seq<BinaryHeap>) returns (ghost evicted: Neighbor)
      requires k > 0 && me < |nodes| && candidate < |nodes| && me != candidate
      requires GraphInvariant(myGraph)
      modifies myGraph[me], myGraph[me].data
      ensures GraphInvariant(myGraph)
      ensures OfferedTo(old(myGraph[me].Elements()), old(myGraph[me].Peek().value),
                        Candidate(nodes, metric, me, candidate), myGraph[me].Elements(), evicted)
    {
      ghost var before := myGraph[me].Elements();
      ghost var top := myGraph[me].Peek().value;
      var accepted;
      accepted, evicted := UpdateNnNode(me, candidate, myGraph);
      ghost var x := Candidate(nodes, metric, me, candidate);
      ghost var after := myGraph[me].Elements();
      assert after <= before + multiset{x};
      forall e | e in after
        ensures Entry(me, e)
      {
        assert e in before + multiset{x};
      }
      assert NodeHeap(myGraph[me], me);
      forall i | 0 <= i < |myGraph|
        ensures NodeHeap(myGraph[i], i)
      {
        if i != me {
          assert myGraph[i] != myGraph[me];
        }
      }
    }
  }
}
