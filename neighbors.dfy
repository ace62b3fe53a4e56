/**
 * The `(idx, distance)` record held in every heap of the k-NN builders
 * (src/core/neighbor.rs). Distances are only ever compared, so they are
 * modelled as `int`; indices are `usize` values, modelled as `nat`.
 */
module Neighbors {

  /** `Neighbor::new(idx, distance)` is the datatype constructor. */
  datatype Neighbor = Neighbor(idx: nat, distance: int)

  /** `idx()`: a copy of the stored index. */
  function Idx(n: Neighbor): (r: nat)
    ensures Neighbor(r, n.distance) == n
  {
    n.idx
  }

  /** `Neighbor::new(i, d).idx()` gives back `i`. */
  lemma NewThenIdx(i: nat, d: int)
    ensures Idx(Neighbor(i, d)) == i
  {
  }

  /** `Neighbor::new(i, d)` stores `d` unchanged. */
  lemma NewKeepsDistance(i: nat, d: int)
    ensures Neighbor(i, d).distance == d
  {
  }

  /** Derived `PartialEq`: two neighbours are equal exactly when both fields are. */
  lemma EqualityIsFieldwise(a: Neighbor, b: Neighbor)
    ensures a == b <==> a.idx == b.idx && a.distance == b.distance
  {
  }
}
