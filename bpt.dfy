/**
 * The discrete parts of the random-projection tree's split step
 * (src/index/bpt_idx.rs): the `Leaf` record and its field-copy helpers, and
 * `two_means`, which picks two distinct seed leaves at random and then, for a
 * fixed number of random samples, moves whichever seed is closer (after
 * weighting by how many points it has already absorbed) towards the sample.
 *
 * Coordinates are `real`s. The float operations the split relies on (the
 * metric, the norm, normalisation and the running average that moves a
 * seed) are the fields of a `VectorOps` parameter, and the random draws are
 * parameters too, so a run is a function of them.
 */
module Bpt {
  import opened Wrappers

  /** `metrics::Metric`. */
  datatype Metric = Unknown | Manhattan | DotProduct | Euclidean | CosineSimilarity | Angular

  type Vector = seq<real>

  /** A point of the index; only its coordinates matter to the split. */
  datatype Node = Node(vectors: Vector)

  /**
   * The float operations `two_means` calls, for the index's metric:
   * `distance` is `metrics::metric(a, b, mt).unwrap()`, `norm` is
   * `calc::get_norm`, `normalize` is `Leaf::normalize` on a leaf's
   * coordinates, and `absorb(v, c, w, norm)` is the running average
   * `(v * c + w / norm) / (c + 1)` that moves seed `v`, of weight `c`,
   * towards sample `w`.
   */
  datatype VectorOps = VectorOps(
    distance: (Vector, Vector) -> real,
    norm: Vector -> real,
    normalize: Vector -> Vector,
    absorb: (Vector, real, Vector, real) -> Vector)

  /** `ITERATION_STEPS`: how many samples `two_means` draws. */
  const IterationSteps: nat := 200

  /**
   * A node of the tree. Every field not set by a constructor takes its
   * `Default` value: `0`, `[]`, an empty node, `None`, `0.0`, `false`.
   */
  class Leaf {
    var nDescendants: int
    var children: seq<int>
    var node: Node
    var tmpNode: Option<Node>
    var norm: real
    var hasInit: bool

    /** `Leaf::new`: a default leaf with two zero children. */
    constructor ()
      ensures children == [0, 0]
      ensures nDescendants == 0 && node == Node([]) && tmpNode == None && norm == 0.0
      ensures !IsEmpty()
    {
      nDescendants := 0;
      children := [0, 0];
      node := Node([]);
      tmpNode := None;
      norm := 0.0;
      hasInit := false;
    }

    /** `Leaf::new_with_vectors`: a default leaf holding a node with coordinates `v`. */
    constructor WithVectors(v: Vector)
      ensures children == [0, 0] && node == Node(v)
      ensures nDescendants == 0 && tmpNode == None && norm == 0.0
      ensures !IsEmpty()
    {
      nDescendants := 0;
      children := [0, 0];
      node := Node(v);
      tmpNode := None;
      norm := 0.0;
      hasInit := false;
    }

    /** `Leaf::new_with_item`: a default leaf holding a copy of `item`. */
    constructor WithItem(item: Node)
      ensures children == [0, 0] && node == item
      ensures nDescendants == 0 && tmpNode == None && norm == 0.0
      ensures !IsEmpty()
    {
      nDescendants := 0;
      children := [0, 0];
      node := item;
      tmpNode := None;
      norm := 0.0;
      hasInit := false;
    }

    /**
     * `is_empty`: reports the stored `has_init` flag as it is, so a leaf
     * that was never initialised is not "empty".
     */
    function IsEmpty(): (r: bool)
      reads this
      ensures r <==> hasInit
    {
      hasInit
    }

    /** `init`: resets the children to two zeros; nothing else changes. */
    method Init()
      modifies this
      ensures children == [0, 0]
      ensures nDescendants == old(nDescendants) && node == old(node) && tmpNode == old(tmpNode)
      ensures norm == old(norm) && hasInit == old(hasInit)
    {
      children := [0, 0];
    }

    /**
     * `Leaf::copy(dst, src)`: copies the descendant count, the children,
     * the node and the norm of `src` into `dst`; `dst` keeps its own
     * `has_init` and `tmp_node`.
     */
    static method Copy(dst: Leaf, src: Leaf)
      modifies dst
      ensures dst.nDescendants == old(src.nDescendants) && dst.children == old(src.children)
      ensures dst.node == old(src.node) && dst.norm == old(src.norm)
      ensures dst.hasInit == old(dst.hasInit) && dst.tmpNode == old(dst.tmpNode)
    {
      dst.nDescendants := src.nDescendants;
      dst.children := src.children;
      dst.node := src.node;
      dst.norm := src.norm;
    }

    /**
     * `Leaf::copy_leaf(src)`: a new leaf with the descendant count, node
     * and children of `src`, and default values everywhere else.
     */
    static method CopyLeaf(src: Leaf) returns (r: Leaf)
      ensures fresh(r)
      ensures r.nDescendants == src.nDescendants && r.node == src.node && r.children == src.children
      ensures r.tmpNode == None && r.norm == 0.0 && !r.IsEmpty()
    {
      r := new Leaf();
      r.nDescendants := src.nDescendants;
      r.node := src.node;
      r.children := src.children;
    }
  }

  /**
   * The two seed indices drawn from `ri = random::index(count)` and
   * `rj = random::index(count - 1)`: `rj` is shifted past `ri`, so the
   * seeds are distinct.
   */
  function SeedPair(count: nat, ri: nat, rj: nat): (r: (nat, nat))
    requires ri < count && rj < count - 1
    ensures r.0 == ri && r.1 < count && r.0 != r.1
  {
    if rj >= ri then (ri, rj + 1) else (ri, rj)
  }

  /**
   * Every ordered pair of distinct seeds comes from exactly one pair of
   * draws, so uniform draws give uniformly distributed seed pairs.
   */
  lemma SeedPairCoversEachPairOnce(count: nat, i: nat, j: nat)
    requires i < count && j < count && i != j
    ensures exists rj: nat :: rj < count - 1 && SeedPair(count, i, rj) == (i, j)
    ensures forall ri: nat, rj: nat :: ri < count && rj < count - 1 && SeedPair(count, ri, rj) == (i, j) ==>
      ri == i && rj == (if j > i then j - 1 else j)
  {
    var rj := if j > i then j - 1 else j;
    assert SeedPair(count, i, rj) == (i, j);
  }

  /** The two moving seeds and how many points each has absorbed, plus one. */
  datatype Means = Means(first: Vector, second: Vector, ic: nat, jc: nat)

  /** What one sample does to the seeds. */
  datatype Outcome = Skipped | MoveFirst | MoveSecond | Tie

  /**
   * The move rule: under cosine similarity a sample whose norm is not
   * positive is skipped; otherwise the seed with the smaller weighted
   * distance `c * distance(seed, sample)` moves, and equal weighted
   * distances move neither.
   */
  function Classify(ops: VectorOps, mt: Metric, m: Means, sample: Vector): (o: Outcome)
    ensures o == Skipped <==> mt == CosineSimilarity && ops.norm(sample) <= 0.0
  {
    var di := (m.ic as real) * ops.distance(m.first, sample);
    var dj := (m.jc as real) * ops.distance(m.second, sample);
    if mt == CosineSimilarity && ops.norm(sample) <= 0.0 then Skipped
    else if di < dj then MoveFirst
    else if dj < di then MoveSecond
    else Tie
  }

  /** The divisor a sample is scaled by: its norm under cosine similarity, else one. */
  function SampleNorm(ops: VectorOps, mt: Metric, sample: Vector): real {
    if mt == CosineSimilarity then ops.norm(sample) else 1.0
  }

  /**
   * One iteration of the sampling loop. A counter goes up exactly when its
   * seed moves, by one, and a seed whose counter stays put does not move.
   */
  function Step(ops: VectorOps, mt: Metric, m: Means, sample: Vector): (r: Means)
    ensures r.ic > m.ic <==> Classify(ops, mt, m, sample) == MoveFirst
    ensures r.jc > m.jc <==> Classify(ops, mt, m, sample) == MoveSecond
    ensures m.ic <= r.ic <= m.ic + 1 && m.jc <= r.jc <= m.jc + 1
    ensures r.ic == m.ic ==> r.first == m.first
    ensures r.jc == m.jc ==> r.second == m.second
  {
    match Classify(ops, mt, m, sample)
    case MoveFirst =>
      Means(ops.absorb(m.first, m.ic as real, sample, SampleNorm(ops, mt, sample)), m.second, m.ic + 1, m.jc)
    case MoveSecond =>
      Means(m.first, ops.absorb(m.second, m.jc as real, sample, SampleNorm(ops, mt, sample)), m.ic, m.jc + 1)
    case _ => m
  }

  /** The seeds after the samples `s`, taken in order, starting from `m`. */
  function Run(ops: VectorOps, mt: Metric, m: Means, s: seq<Vector>): Means
    decreases |s|
  {
    if |s| == 0 then m else Step(ops, mt, Run(ops, mt, m, s[..|s| - 1]), s[|s| - 1])
  }

  /** How many of the samples `s` moved the first (`which`) or the second seed. */
  function Moves(ops: VectorOps, mt: Metric, m: Means, s: seq<Vector>, which: Outcome): nat
    decreases |s|
  {
    if |s| == 0 then 0
    else
      var before := Run(ops, mt, m, s[..|s| - 1]);
      Moves(ops, mt, m, s[..|s| - 1], which) + (if Classify(ops, mt, before, s[|s| - 1]) == which then 1 else 0)
  }

  /** Each counter is its starting value plus the number of samples its seed absorbed. */
  lemma {:induction false} CountersCountMoves(ops: VectorOps, mt: Metric, m: Means, s: seq<Vector>)
    ensures Run(ops, mt, m, s).ic == m.ic + Moves(ops, mt, m, s, MoveFirst)
    ensures Run(ops, mt, m, s).jc == m.jc + Moves(ops, mt, m, s, MoveSecond)
    decreases |s|
  {
    if |s| > 0 {
      CountersCountMoves(ops, mt, m, s[..|s| - 1]);
    }
  }

  /** Every sample moves at most one seed. */
  lemma {:induction false} MovesAtMostOnePerSample(ops: VectorOps, mt: Metric, m: Means, s: seq<Vector>)
    ensures Moves(ops, mt, m, s, MoveFirst) + Moves(ops, mt, m, s, MoveSecond) <= |s|
    decreases |s|
  {
    if |s| > 0 {
      MovesAtMostOnePerSample(ops, mt, m, s[..|s| - 1]);
    }
  }

  /** Samples that are all skipped leave the seeds and counters as they were. */
  lemma {:induction false} SkippedSamplesChangeNothing(ops: VectorOps, mt: Metric, m: Means, s: seq<Vector>)
    requires mt == CosineSimilarity
    requires forall z :: 0 <= z < |s| ==> ops.norm(s[z]) <= 0.0
    ensures Run(ops, mt, m, s) == m
    decreases |s|
  {
    if |s| > 0 {
      SkippedSamplesChangeNothing(ops, mt, m, s[..|s| - 1]);
    }
  }

  /**
   * Two seeds at the same point with the same weight tie on every sample,
   * so neither ever moves.
   */
  lemma {:induction false} EqualSeedsNeverMove(ops: VectorOps, mt: Metric, v: Vector, c: nat, s: seq<Vector>)
    ensures Run(ops, mt, Means(v, v, c, c), s) == Means(v, v, c, c)
    decreases |s|
  {
    if |s| > 0 {
      EqualSeedsNeverMove(ops, mt, v, c, s[..|s| - 1]);
    }
  }

  /** Exchanging the two seeds, with their counters, exchanges which one a sample moves. */
  lemma ClassifySwapsSeeds(ops: VectorOps, mt: Metric, m: Means, sample: Vector)
    ensures Classify(ops, mt, Means(m.second, m.first, m.jc, m.ic), sample) ==
      match Classify(ops, mt, m, sample)
      case MoveFirst => MoveSecond
      case MoveSecond => MoveFirst
      case o => o
  {
  }

  /** The coordinates of the leaves drawn by `ds`, in order. */
  function Samples(leaves: seq<Leaf>, ds: seq<nat>): (r: seq<Vector>)
    reads leaves
    requires forall z :: 0 <= z < |ds| ==> ds[z] < |leaves|
    ensures |r| == |ds|
    ensures forall z :: 0 <= z < |ds| ==> r[z] == leaves[ds[z]].node.vectors
    decreases |ds|
  {
    if |ds| == 0 then []
    else Samples(leaves, ds[..|ds| - 1]) + [leaves[ds[|ds| - 1]].node.vectors]
  }

  /** A seed's starting coordinates: normalised under cosine similarity. */
  function Prepared(ops: VectorOps, mt: Metric, v: Vector): Vector {
    if mt == CosineSimilarity then ops.normalize(v) else v
  }

  /** Every field of `l` except its node is as it was. */
  twostate predicate OnlyNodeChanged(l: Leaf)
    reads l
  {
    && l.nDescendants == old(l.nDescendants) && l.children == old(l.children)
    && l.tmpNode == old(l.tmpNode) && l.hasInit == old(l.hasInit) && l.norm == old(l.norm)
  }

  /**
   * The body of the sampling loop for one drawn leaf's coordinates
   * `sample`: the weighted distances, the cosine skip, and the move of the
   * closer seed with its counter. Only the seeds' nodes change.
   */
  method Sample(first: Leaf, second: Leaf, ic: nat, jc: nat, sample: Vector, mt: Metric, ops: VectorOps)
    returns (ic': nat, jc': nat)
    requires first != second
    modifies first, second
    ensures Means(first.node.vectors, second.node.vectors, ic', jc') ==
      Step(ops, mt, Means(old(first.node.vectors), old(second.node.vectors), ic, jc), sample)
    ensures OnlyNodeChanged(first) && OnlyNodeChanged(second)
  {
    ic', jc' := ic, jc;
    var di := (ic as real) * ops.distance(first.node.vectors, sample);
    var dj := (jc as real) * ops.distance(second.node.vectors, sample);
    var norm := 1.0;
    if mt == CosineSimilarity {
      norm := ops.norm(sample);
      if norm <= 0.0 {
        return;
      }
    }
    if di < dj {
      first.node := Node(ops.absorb(first.node.vectors, ic as real, sample, norm));
      ic' := ic + 1;
    } else if dj < di {
      second.node := Node(ops.absorb(second.node.vectors, jc as real, sample, norm));
      jc' := jc + 1;
    }
  }

  /**
   * The sampling loop of `two_means`: both counters start at one, and each
   * drawn leaf is offered to the seeds in turn. The seeds end where `Run`
   * takes them; nothing else about them changes.
   */
  method SampleAll(first: Leaf, second: Leaf, leaves: seq<Leaf>, draws: seq<nat>, mt: Metric, ops: VectorOps)
    requires first != second && first !in leaves && second !in leaves
    requires |draws| == IterationSteps && forall z :: 0 <= z < |draws| ==> draws[z] < |leaves|
    modifies first, second
    ensures
      var means := Run(ops, mt, Means(old(first.node.vectors), old(second.node.vectors), 1, 1), Samples(leaves, draws));
      first.node.vectors == means.first && second.node.vectors == means.second
    ensures OnlyNodeChanged(first) && OnlyNodeChanged(second)
  {
    var ic: nat := 1;
    var jc: nat := 1;
    ghost var start := Means(first.node.vectors, second.node.vectors, ic, jc);
    ghost var samples := Samples(leaves, draws);
    for z := 0 to IterationSteps
      invariant Means(first.node.vectors, second.node.vectors, ic, jc) == Run(ops, mt, start, samples[..z])
      invariant OnlyNodeChanged(first) && OnlyNodeChanged(second)
    {
      assert samples[..z + 1][..z] == samples[..z];
      var randK := draws[z];
      ic, jc := Sample(first, second, ic, jc, leaves[randK].node.vectors, mt, ops);
    }
    assert samples[..IterationSteps] == samples;
  }

  /**
   * `two_means`: fails with "empty leaves" on fewer than two leaves;
   * otherwise copies two distinct random leaves as seeds and runs the
   * sampling loop on the drawn leaves, returning the two moved seeds.
   * `ri`, `rj` and `draws` are the values of the successive
   * `random::index` calls, each below its bound.
   */
  method TwoMeans(leaves: seq<Leaf>, mt: Metric, ops: VectorOps, ri: nat, rj: nat, draws: seq<nat>)
    returns (r: Result<(Leaf, Leaf)>)
    requires |leaves| >= 2 ==> ri < |leaves| && rj < |leaves| - 1
    requires |leaves| >= 2 ==> |draws| == IterationSteps && forall z :: 0 <= z < |draws| ==> draws[z] < |leaves|
    ensures r.Err? <==> |leaves| < 2
    ensures r.Err? ==> r.error == "empty leaves"
    ensures r.Ok? ==>
      var (i, j) := SeedPair(|leaves|, ri, rj);
      var means := Run(ops, mt, Means(Prepared(ops, mt, leaves[i].node.vectors), Prepared(ops, mt, leaves[j].node.vectors), 1, 1),
                       Samples(leaves, draws));
      && fresh(r.value.0) && fresh(r.value.1) && r.value.0 != r.value.1
      && r.value.0.node.vectors == means.first && r.value.1.node.vectors == means.second
      && r.value.0.nDescendants == leaves[i].nDescendants && r.value.0.children == leaves[i].children
      && r.value.1.nDescendants == leaves[j].nDescendants && r.value.1.children == leaves[j].children
      && r.value.0.tmpNode == None && r.value.1.tmpNode == None
      && r.value.0.norm == 0.0 && r.value.1.norm == 0.0
      && !r.value.0.IsEmpty() && !r.value.1.IsEmpty()
  {
    if |leaves| < 2 {
      return Err("empty leaves");
    }
    var count := |leaves|;
    var i := ri;
    var j := rj;
    if j >= i {
      j := j + 1;
    }
    var first := Leaf.CopyLeaf(leaves[i]);
    var second := Leaf.CopyLeaf(leaves[j]);
    if mt == CosineSimilarity {
      first.node := Node(ops.normalize(first.node.vectors));
      second.node := Node(ops.normalize(second.node.vectors));
    }
    assert (i, j) == SeedPair(|leaves|, ri, rj);
    SampleAll(first, second, leaves, draws, mt, ops);
    r := Ok((first, second));
  }
}
