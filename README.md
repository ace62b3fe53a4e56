# Bounded top-k neighbour retention, modelled in Dafny

This project models the part of an approximate-nearest-neighbour library
that decides which neighbours each point keeps:

- `heap.dfy` (module `Heap`): the array-backed binary max-heap of
  `src/core/heap.rs`, a port of the standard library's `BinaryHeap`. It is
  a class over an `array<Neighbor>` and a length. `Push` sifts up and `Pop`
  moves the last element to the root and sifts down. Both are proved to
  keep heap order (every parent at least as far as its children), and `Pop`
  is proved to return a farthest element and to keep the multiset.
- `neighbors.dfy` (module `Neighbors`): the `(idx, distance)` record of
  `src/core/neighbor.rs`.
- `knn_spec.dfy` (module `KnnSpec`) and `knn.dfy` (module `Knn`): the
  builders of `src/core/knn.rs`.
  - `naive_build_knn_graph` is proved to give every node its `min(k, N-1)`
    closest other nodes. The list never contains the node itself, holds no
    index twice, is in non-increasing distance (the drain order of a
    max-heap), and leaves out no node closer than one it keeps.
  - The `NNDescentHandler` heap maintenance is modelled as a class:
    - `init` fills every node's heap with `k` sentinels;
    - `update_nn_node` rejects a candidate farther than the current worst,
      and otherwise pushes it and trims back to `k`;
    - `update` offers two distinct nodes to each other.
    These operations are proved to keep a graph invariant: `N` pairwise
    distinct heaps of exactly `k` entries, each entry a sentinel or the true
    record of another node.
- `bpt.dfy` (module `Bpt`): from `src/index/bpt_idx.rs`, the `Leaf` record
  and its copy helpers, and the discrete logic of `two_means`. That logic
  covers the input guard, the distinct-seed draw, the cosine skip, and the
  rule that decides which seed absorbs a sample and which counter goes up.
  The sampling loop is proved to compute `Run`, a function of the drawn
  samples, and the counting properties are proved about `Run`.

Distances in the k-NN part are `int`, because they are only compared. The
metric is a function parameter `(P, P) -> int` over an arbitrary node type
`P`. In `Bpt`, coordinates are `real` and the float operations are the
fields of a `VectorOps` parameter. These operations are the metric, the
norm, normalisation and the running average that moves a seed. Every
`random::index(n)` call becomes a parameter below `n`.

The model follows the code where the two could be read differently:

- `Leaf::is_empty` returns the `has_init` flag itself, so a freshly built
  leaf is not "empty"; `Bpt.Leaf.IsEmpty` says exactly that.
- `update_nn_node` accepts a candidate at the same distance as the current
  worst, because only a strictly greater distance is rejected.

## Model

| member | source | states |
|---|---|---|
| Neighbors.Idx | src/core/neighbor.rs:21-23 | `idx()` gives back the stored index; together with the distance it rebuilds the record, so reading it changes nothing |
| Neighbors.NewThenIdx | src/core/neighbor.rs:14-23 | `Neighbor::new(i, d).idx()` is `i` |
| Neighbors.NewKeepsDistance | src/core/neighbor.rs:14-19 | `Neighbor::new(i, d)` stores `d` unchanged |
| Neighbors.EqualityIsFieldwise | src/core/neighbor.rs:7-11 | the derived equality holds exactly when both fields are equal |
| Heap.RootDominates | src/core/heap.rs:21-22 | in a heap-ordered sequence the root is at least as far as every position |
| Heap.RootIsMaximum | src/core/heap.rs:21-22 | the root of a non-empty heap-ordered sequence is a farthest element |
| Heap.SwapPermutes | src/core/heap.rs:21-22 | exchanging two positions leaves the multiset unchanged |
| Heap.ParentIndex | src/core/heap.rs:6-8 | in the array layout, `p` is the parent of `d` exactly when `d` is `2p+1` or `2p+2` |
| Heap.SiftDownStep | src/core/heap.rs:21-22 | swapping a sift-down position with its larger, farther child moves the sift-down invariant one level down |
| Heap.SiftDownEdges | src/core/heap.rs:21-22 | after that swap every edge is in order except those out of the child's position |
| Heap.SiftDownDone | src/core/heap.rs:21-22 | a sift-down position no closer than its children leaves the whole sequence heap-ordered |
| Heap.SiftUpStep | src/core/knn.rs:29 | swapping a sift-up position with a closer parent moves the sift-up invariant one level up |
| Heap.SiftUpEdges | src/core/knn.rs:29 | after that swap every edge is in order except the one into the parent's position |
| Heap.SiftUpAbove | src/core/knn.rs:29 | after that swap the grandparent still dominates the parent position's children |
| Heap.SiftUpDone | src/core/knn.rs:29 | a sift-up at the root, or under a parent that is no closer, leaves the sequence heap-ordered |
| Heap.AppendStartsSiftUp | src/core/knn.rs:29 | appending to a heap-ordered sequence gives the sift-up invariant at the new last position |
| Heap.Refilled | src/core/heap.rs:21-22 | moving the last element to the root shortens the sequence by one |
| Heap.RefillRemovesRoot | src/core/heap.rs:21-22 | the refilled sequence plus the old root is the old multiset, the old root is a farthest element, and the refilled sequence is ready to sift down from the root |
| Heap.BinaryHeap.constructor | src/core/heap.rs:11-13 | `new()` is a valid heap with no elements |
| Heap.BinaryHeap.WithCapacity | src/core/heap.rs:15-19 | `with_capacity(c)` is a valid, empty heap for every `c`, with `c` slots reserved |
| Heap.BinaryHeap.Peek | src/core/knn.rs:97 | `peek()` is `None` exactly on an empty heap, and otherwise an element no closer than any other |
| Heap.BinaryHeap.Grow | src/core/heap.rs:6-8 | reallocation keeps the contents and leaves room for one more element |
| Heap.BinaryHeap.Push | src/core/knn.rs:29 | `push(x)` keeps heap order, adds one to the length and adds `x` to the multiset |
| Heap.BinaryHeap.SiftUp | src/core/knn.rs:29 | sifting up restores heap order and keeps the multiset |
| Heap.BinaryHeap.SiftDown | src/core/heap.rs:21-22 | sifting down from the root restores heap order and keeps the multiset |
| Heap.BinaryHeap.RemoveRoot | src/core/heap.rs:21-22 | the stored sequence becomes the refilled one, one shorter |
| Heap.BinaryHeap.Pop | src/core/heap.rs:21-22 | `pop()` on an empty heap is `None` and changes nothing; otherwise it returns a farthest element, the length drops by one, the returned element plus the rest is the old multiset, and heap order holds |
| KnnSpec.RetainedStart | src/core/knn.rs:24 | the empty heap before the scan satisfies the retention invariant |
| KnnSpec.RetainedSkipSelf | src/core/knn.rs:26-28 | skipping the node itself keeps the retention invariant |
| KnnSpec.RetainedPush | src/core/knn.rs:29-32 | pushing the next node's record while the heap holds fewer than `k` keeps the invariant |
| KnnSpec.RetainedPushPop | src/core/knn.rs:29-32 | pushing the next node's record and popping a farthest record keeps the invariant: only a full heap drops anything, and only a record no closer than everything kept |
| KnnSpec.RepeatedTwice | src/core/knn.rs:34-37 | a record at two positions of a list occurs twice in its multiset |
| KnnSpec.DrainedIsKnnList | src/core/knn.rs:34-37 | a list drained in non-increasing order from a heap that retained every node is node `n`'s k-NN list |
| KnnSpec.DrainStep | src/core/knn.rs:35-37 | popping a farthest remaining record extends the drained list and keeps it non-increasing |
| KnnSpec.BoundedKeepsWorst | src/core/knn.rs:100-106 | after a push and a trim, every kept record is no farther than the old worst, every kept record was there before or is the newcomer, and a strictly closer newcomer is kept |
| Knn.PushWithin | src/core/knn.rs:29-32 | push then pop-if-over-`k`: below `k` the record is added; otherwise the length is unchanged and a farthest record of the old heap plus the newcomer is removed |
| Knn.Offer | src/core/knn.rs:25-33 | one scan step carries the retention invariant from node `i` to node `i + 1` |
| Knn.Drain | src/core/knn.rs:34-37 | draining empties the heap and yields its multiset in non-increasing distance |
| Knn.ScanOthers | src/core/knn.rs:24-33 | the heap after scanning every node satisfies the retention invariant for all nodes |
| Knn.NodeNeighbors | src/core/knn.rs:23-37 | the list for node `n` is its k-NN list: `min(k, N-1)` records, never `n`, no index twice, non-increasing, no left-out node closer than a kept one |
| Knn.NaiveBuildKnnGraph | src/core/knn.rs:15-41 | every `graph[n]` becomes node `n`'s k-NN list, and every other slot is unchanged |
| Knn.NNDescentHandler.constructor | src/core/knn.rs:58-71 | `new` keeps the nodes, metric and `k`, and starts with an empty graph |
| Knn.NNDescentHandler.HeapsReadyAppend | src/core/knn.rs:115-124 | adding a well-formed heap for the next node that shares no object with the others keeps the graph invariant |
| Knn.NNDescentHandler.SentinelHeap | src/core/knn.rs:118-121 | a fresh, valid heap holding exactly `k` sentinels |
| Knn.NNDescentHandler.SentinelGraph | src/core/knn.rs:115-124 | one fresh sentinel heap per node, pairwise distinct, satisfying the graph invariant |
| Knn.NNDescentHandler.Init | src/core/knn.rs:111-124 | after `init`, every node has its own fresh heap of exactly `k` sentinels |
| Knn.NNDescentHandler.UpdateNnNode | src/core/knn.rs:88-109 | returns `true` exactly when the candidate is no farther than the current worst. A rejected candidate changes nothing. An accepted one is added below `k`. On a heap of `k` or more records the length stays, and the heap loses exactly one record of the old heap plus the candidate, a farthest one: the popped maximum, or the refused candidate. Nothing kept is then farther than the old worst, and a strictly closer candidate is kept |
| Knn.NNDescentHandler.OfferKeeps | src/core/knn.rs:83-84 | one `update_nn_node` call inside `update` keeps the graph invariant, drops a farthest record of the heap plus the candidate, keeps nothing farther than the old worst, and keeps a strictly closer candidate |
| Knn.NNDescentHandler.Update | src/core/knn.rs:73-86 | returns `false` and changes nothing when `u1 == u2`, for every `k`. Otherwise it returns `true` and keeps the graph invariant. Each of the two heaps then loses exactly one farthest record of its old records plus the candidate offered to it, keeps nothing farther than its old worst, and keeps a strictly closer candidate |
| Knn.NNDescentHandler.OfferBoth | src/core/knn.rs:83-85 | the two `update_nn_node` calls on distinct nodes: each heap ends as `update_nn_node` leaves it, and the graph invariant holds |
| Bpt.Leaf.constructor | src/index/bpt_idx.rs:33-38 | `Leaf::new` has children `[0, 0]` and default values elsewhere |
| Bpt.Leaf.WithVectors | src/index/bpt_idx.rs:40-46 | children `[0, 0]`, a node with the given coordinates, defaults elsewhere |
| Bpt.Leaf.WithItem | src/index/bpt_idx.rs:48-54 | children `[0, 0]`, a copy of the given node, defaults elsewhere |
| Bpt.Leaf.IsEmpty | src/index/bpt_idx.rs:56-58 | `is_empty` is true exactly when `has_init` is |
| Bpt.Leaf.Init | src/index/bpt_idx.rs:60-62 | `init` sets the children to `[0, 0]` and changes no other field |
| Bpt.Leaf.Copy | src/index/bpt_idx.rs:77-82 | `copy` sets `dst`'s descendant count, children, node and norm from `src` and keeps `dst`'s `has_init` and `tmp_node` |
| Bpt.Leaf.CopyLeaf | src/index/bpt_idx.rs:92-99 | `copy_leaf` is a new leaf with `src`'s descendant count, node and children, `tmp_node` `None`, norm zero and `has_init` false |
| Bpt.SeedPair | src/index/bpt_idx.rs:113-118 | the two seeds are distinct, both below `count`, and the first is the first draw |
| Bpt.SeedPairCoversEachPairOnce | src/index/bpt_idx.rs:113-118 | every ordered pair of distinct seeds comes from exactly one pair of in-range draws |
| Bpt.Classify | src/index/bpt_idx.rs:138-154 | a sample is skipped exactly when the metric is cosine similarity and the sample's norm is not positive |
| Bpt.Step | src/index/bpt_idx.rs:144-168 | a counter goes up, by one, exactly when its seed absorbs the sample; a seed whose counter stays put does not move |
| Bpt.CountersCountMoves | src/index/bpt_idx.rs:132-168 | each counter equals its start value plus the number of samples its seed absorbed |
| Bpt.MovesAtMostOnePerSample | src/index/bpt_idx.rs:154-168 | no sample moves both seeds |
| Bpt.SkippedSamplesChangeNothing | src/index/bpt_idx.rs:144-151 | under cosine similarity, samples that all have a non-positive norm leave seeds and counters unchanged |
| Bpt.EqualSeedsNeverMove | src/index/bpt_idx.rs:154-168 | two seeds at the same point with the same weight tie on every sample, so neither moves |
| Bpt.ClassifySwapsSeeds | src/index/bpt_idx.rs:154-168 | exchanging the seeds with their counters exchanges which seed a sample moves |
| Bpt.Samples | src/index/bpt_idx.rs:137-141 | the coordinates of the drawn leaves, one per draw, in draw order |
| Bpt.Sample | src/index/bpt_idx.rs:137-168 | one loop iteration moves the seeds and counters as `Step` does and changes no other leaf field |
| Bpt.SampleAll | src/index/bpt_idx.rs:132-169 | the sampling loop takes the seeds from counters `1, 1` to `Run` over the drawn samples and changes no other leaf field |
| Bpt.TwoMeans | src/index/bpt_idx.rs:102-171 | fails with "empty leaves" exactly on fewer than two leaves. Otherwise it returns two new, distinct leaves with the descendant counts and children of the two distinct seed leaves, `tmp_node` `None`, norm zero and `has_init` false, and with coordinates normalised under cosine similarity and then moved as `Run` over the drawn samples says |

## Left out

- Parallelism and locking: the `rayon` iteration and the `Arc<Mutex<…>>` wrappers in `src/core/knn.rs` only split independent per-node work, so every node is processed in sequence.
- Panics on `unwrap`: the metric is assumed to succeed. `Knn.NNDescentHandler.Update` requires `k > 0` when `u1 != u2`, because with `k == 0` the heaps are empty and the source's `peek().unwrap()` panics; `update(u, u)` returns before any `peek` and is allowed for every `k`. `Knn.NaiveBuildKnnGraph` requires `graph` to have a slot for every node, because the source indexes `graph[n]`.
- The metric itself, `metrics::metric`: it is a function parameter. Distances are `int` in the k-NN part and `real` in `two_means`. NaN, where `partial_cmp` has no answer, is not modelled.
- `E::max_value()` is the parameter `maxDistance`; nothing relies on it being the largest value.
- Float vector arithmetic in `two_means` (`Leaf::normalize`, `calc::get_norm` and the running average): these are the uninterpreted fields of `VectorOps`. `Leaf::normalize` is applied to the seed's coordinates as one function.
- Randomness: `random::index`, `src/core/random.rs`, and the random `calculation_context` seeding in `NNDescentHandler::init`. The draws are parameters below their bounds.
- `NNDescentHandler` fields `visited_id`, `calculation_context`, `rho`, `s`, `cost` and `update_cnt`. They are not used by `update`, `update_nn_node` or the sentinel set-up.
- `Knn.NNDescentHandler.Update` does not expose the values `update_nn_node` returns inside it, which the source ignores. The record each heap drops is a ghost result: the source discards it.
- `Leaf::get_literal` and `Leaf::clone_node`: string formatting and a plain clone.
- The heap is specialised to `Neighbor` ordered by distance, its only use here, rather than generic over `T: Ord`. `knn.rs` imports the standard library heap, which `src/core/heap.rs` ports; one heap class models both.
- The heap's text ends inside `pop`, so the `pop` layout follows the standard algorithm: move the last element to the root, then sift down. The standard library's `sift_down_to_bottom` variant can leave the elements in a different array order, with the same multiset and the same heap order. `into_sorted_vec` and the rest of the heap's interface are not part of this model.
- `src/core/node.rs` is not part of this model. A node is reduced to its coordinates.
- Integer widths: `i32` children and descendant counts, and `usize` node indices and loop bounds, are unbounded integers. Nothing here comes near their limits.
- The `two_means` counters `ic` and `jc` are floats of the element type `E` in the source and `nat` here. This is exact: they start at one and grow by one at most once per sample, so they never exceed 201. The weighted distances `ic * di` and `jc * dj` are exact `real` products here; float rounding in those products, which could change which seed moves on a near tie, is not modelled.
- Serialisation (`serde`) and file I/O, the HNSW, SSG and PQ indexes, k-means and the parameter builders are outside the core.
