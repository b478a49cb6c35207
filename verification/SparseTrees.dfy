/** Authenticated sparse maps of the hidden-head witness store.

    The specification is the dense Merkle tree over all 2^depth leaves; the
    implementation keeps, level by level, only the nodes that differ from the
    digest of an empty subtree. The hash is a parameter: every result holds for
    every two-to-one compression function, with no collision assumption. */
module SparseTrees {
  import opened Wrappers

  type Hash = seq<nat> -> nat

  /** The BN254 scalar field, the range of every digest and leaf. */
  const FIELD := 21888242871839275222246405745257275088548364400416034343698204186575808495617

  ghost predicate IntoField(h: Hash) {
    forall xs :: h(xs) < FIELD
  }

  // ---------------------------------------------------------------- indices

  function Pow2(n: nat): (r: nat)
    ensures r >= 1
  {
    if n == 0 then 1 else 2 * Pow2(n - 1)
  }

  /** `index >> level` for a non-negative index. */
  function Shr(index: nat, level: nat): nat {
    if level == 0 then index else Shr(index, level - 1) / 2
  }

  /** `index ^ 1`: the other child of the same parent. */
  function Flip(index: nat): nat {
    if index % 2 == 0 then index + 1 else index - 1
  }

  lemma {:induction false} ShrBound(index: nat, depth: nat, level: nat)
    requires index < Pow2(depth) && level <= depth
    ensures Shr(index, level) < Pow2(depth - level)
  {
    if level > 0 {
      ShrBound(index, depth, level - 1);
    }
  }

  // ----------------------------------------------- dense tree (specification)

  function Leaf(leaves: map<nat, nat>, index: nat): nat {
    if index in leaves then leaves[index] else 0
  }

  /** Node `index` of level `level` in the dense tree, leaves at level 0. */
  function DenseNode(h: Hash, leaves: map<nat, nat>, level: nat, index: nat): nat {
    if level == 0 then Leaf(leaves, index)
    else h([DenseNode(h, leaves, level - 1, 2 * index), DenseNode(h, leaves, level - 1, 2 * index + 1)])
  }

  function DenseRoot(h: Hash, depth: nat, leaves: map<nat, nat>): nat {
    DenseNode(h, leaves, depth, 0)
  }

  /** Digest of an empty subtree of the given height. */
  function Zero(h: Hash, level: nat): nat {
    if level == 0 then 0 else h([Zero(h, level - 1), Zero(h, level - 1)])
  }

  function DenseSiblings(h: Hash, depth: nat, leaves: map<nat, nat>, index: nat): (s: seq<nat>)
    ensures |s| == depth
    ensures forall level :: 0 <= level < depth ==> s[level] == DenseNode(h, leaves, level, Flip(Shr(index, level)))
  {
    if depth == 0 then []
    else DenseSiblings(h, depth - 1, leaves, index) + [DenseNode(h, leaves, depth - 1, Flip(Shr(index, depth - 1)))]
  }

  /** Parent digest of `node`, which is a right child exactly when `index` is odd. */
  function Join(h: Hash, node: nat, index: nat, sibling: nat): nat {
    if index % 2 == 1 then h([sibling, node]) else h([node, sibling])
  }

  /** Root recomputed from one leaf upward; only the low |siblings| bits of `index` are consumed. */
  function Climb(h: Hash, node: nat, index: nat, siblings: seq<nat>): nat
    decreases |siblings|
  {
    if siblings == [] then node else Climb(h, Join(h, node, index, siblings[0]), index / 2, siblings[1..])
  }

  // -------------------------------------------------- one leaf at a time

  /** Rewriting leaf `index` leaves every node off its path unchanged. */
  lemma {:induction false} OffPathUnchanged(h: Hash, leaves: map<nat, nat>, index: nat, v: nat, level: nat, node: nat)
    requires node != Shr(index, level)
    ensures DenseNode(h, leaves[index := v], level, node) == DenseNode(h, leaves, level, node)
  {
    if level > 0 {
      OffPathUnchanged(h, leaves, index, v, level - 1, 2 * node);
      OffPathUnchanged(h, leaves, index, v, level - 1, 2 * node + 1);
    }
  }

  lemma ParentIsJoin(h: Hash, leaves: map<nat, nat>, level: nat, index: nat)
    ensures DenseNode(h, leaves, level + 1, index / 2)
         == Join(h, DenseNode(h, leaves, level, index), index, DenseNode(h, leaves, level, Flip(index)))
  {
    assert 2 * (index / 2) == (if index % 2 == 1 then Flip(index) else index);
    assert 2 * (index / 2) + 1 == (if index % 2 == 1 then index else Flip(index));
  }

  /** The left child is hashed first, and a missing leaf is zero. */
  lemma TwoLeaves(h: Hash, a: nat, b: nat)
    ensures DenseRoot(h, 1, map[0 := a, 1 := b]) == h([a, b]) && DenseRoot(h, 1, map[1 := b]) == h([0, b])
  {
    assert DenseNode(h, map[0 := a, 1 := b], 0, 0) == a && DenseNode(h, map[0 := a, 1 := b], 0, 1) == b;
    assert DenseNode(h, map[1 := b], 0, 0) == 0 && DenseNode(h, map[1 := b], 0, 1) == b;
  }

  /** Climbing with the OLD siblings of `index` follows the NEW tree, level by level. */
  lemma {:induction false} ClimbFollowsPath(h: Hash, leaves: map<nat, nat>, index: nat, v: nat, level: nat, siblings: seq<nat>)
    requires forall l :: 0 <= l < |siblings| ==>
      siblings[l] == DenseNode(h, leaves, level + l, Flip(Shr(index, level + l)))
    ensures Climb(h, DenseNode(h, leaves[index := v], level, Shr(index, level)), Shr(index, level), siblings)
         == DenseNode(h, leaves[index := v], level + |siblings|, Shr(index, level + |siblings|))
    decreases |siblings|
  {
    hide DenseNode;
    if siblings != [] {
      var i := Shr(index, level);
      assert siblings[0] == DenseNode(h, leaves, level + 0, Flip(Shr(index, level + 0)));
      OffPathUnchanged(h, leaves, index, v, level, Flip(i));
      ParentIsJoin(h, leaves[index := v], level, i);
      forall l | 0 <= l < |siblings[1..]|
        ensures siblings[1..][l] == DenseNode(h, leaves, level + 1 + l, Flip(Shr(index, level + 1 + l)))
      {
        assert siblings[1..][l] == siblings[1 + l];
        assert level + 1 + l == level + (1 + l);
      }
      ClimbFollowsPath(h, leaves, index, v, level + 1, siblings[1..]);
    }
  }

  lemma {:induction false} PathEnds(h: Hash, leaves: map<nat, nat>, depth: nat, index: nat, v: nat)
    requires index < Pow2(depth)
    ensures DenseNode(h, leaves[index := v], 0, Shr(index, 0)) == v
    ensures Shr(index, 0) == index && Shr(index, depth) == 0
  {
    ShrBound(index, depth, depth);
  }

  /** Incremental update: old siblings and a new leaf give the root of the rebuilt tree. */
  lemma {:induction false} ClimbIsRebuiltRoot(h: Hash, leaves: map<nat, nat>, depth: nat, index: nat, v: nat)
    requires index < Pow2(depth)
    ensures Climb(h, v, index, DenseSiblings(h, depth, leaves, index)) == DenseRoot(h, depth, leaves[index := v])
  {
    hide DenseNode, Climb, Shr, DenseSiblings, Pow2, Flip;
    PathEnds(h, leaves, depth, index, v);
    ClimbFollowsPath(h, leaves, index, v, 0, DenseSiblings(h, depth, leaves, index));
  }

  lemma {:induction false} SameLeavesSameNode(h: Hash, a: map<nat, nat>, b: map<nat, nat>, level: nat, index: nat)
    requires forall i: nat :: Leaf(a, i) == Leaf(b, i)
    ensures DenseNode(h, a, level, index) == DenseNode(h, b, level, index)
  {
    if level > 0 {
      SameLeavesSameNode(h, a, b, level - 1, 2 * index);
      SameLeavesSameNode(h, a, b, level - 1, 2 * index + 1);
    }
  }

  /** Inclusion, for present and absent leaves alike: an absent index climbs from leaf 0. */
  lemma {:induction false} ClimbFromOwnLeaf(h: Hash, leaves: map<nat, nat>, depth: nat, index: nat)
    requires index < Pow2(depth)
    ensures Climb(h, Leaf(leaves, index), index, DenseSiblings(h, depth, leaves, index)) == DenseRoot(h, depth, leaves)
  {
    ClimbIsRebuiltRoot(h, leaves, depth, index, Leaf(leaves, index));
    SameLeavesSameNode(h, leaves[index := Leaf(leaves, index)], leaves, depth, 0);
  }

  // ------------------------------------------------------------- low bits

  lemma ModHalves(index: nat, p: nat)
    requires p > 0
    ensures (index % (2 * p)) % 2 == index % 2
    ensures (index % (2 * p)) / 2 == (index / 2) % p
  {
    var q, r := index / (2 * p), index % (2 * p);
    assert index == 2 * (p * q) + r;
    assert index / 2 == p * q + r / 2;
    assert 0 <= r / 2 < p;
    ModUnique(index / 2, p, q, r / 2);
  }

  lemma MulAtLeast(p: nat, d: int)
    requires d >= 1
    ensures p * d >= p
  {
    assert p * d == p + p * (d - 1);
  }

  lemma ModUnique(x: int, p: nat, q: int, r: int)
    requires p > 0 && x == p * q + r && 0 <= r < p
    ensures x % p == r && x / p == q
  {
    var d := q - x / p;
    assert p * d == x % p - r;
    if d >= 1 {
      MulAtLeast(p, d);
    } else if d <= -1 {
      MulAtLeast(p, -d);
    }
  }

  /** Only the low |siblings| bits of the index matter, so an unreduced key climbs like its index. */
  lemma {:induction false} ClimbUsesLowBits(h: Hash, node: nat, index: nat, siblings: seq<nat>)
    ensures Climb(h, node, index, siblings) == Climb(h, node, index % Pow2(|siblings|), siblings)
    decreases |siblings|
  {
    if siblings != [] {
      var n := |siblings| - 1;
      ModHalves(index, Pow2(n));
      ClimbUsesLowBits(h, Join(h, node, index, siblings[0]), index / 2, siblings[1..]);
    }
  }

  // ------------------------------------------------------ implementation

  datatype SparseTree = SparseTree(depth: nat, zeros: seq<nat>, levels: seq<map<nat, nat>>, root: nat)

  function Get(nodes: map<nat, nat>, index: nat, default: nat): nat {
    if index in nodes then nodes[index] else default
  }

  /** A stored level holds exactly the dense nodes that differ from the empty digest. */
  ghost predicate StoresLevel(h: Hash, leaves: map<nat, nat>, depth: nat, level: nat, nodes: map<nat, nat>)
    requires level <= depth
  {
    forall i: nat ::
      && (i in nodes <==> i < Pow2(depth - level) && DenseNode(h, leaves, level, i) != Zero(h, level))
      && (i in nodes ==> nodes[i] == DenseNode(h, leaves, level, i))
  }

  ghost predicate Represents(h: Hash, t: SparseTree, depth: nat, leaves: map<nat, nat>) {
    && t.depth == depth
    && |t.zeros| == depth + 1 && |t.levels| == depth + 1
    && (forall l :: 0 <= l <= depth ==> t.zeros[l] == Zero(h, l))
    && (forall l :: 0 <= l <= depth ==> StoresLevel(h, leaves, depth, l, t.levels[l]))
    && t.root == DenseRoot(h, depth, leaves)
  }

  lemma {:induction false} StoredGet(h: Hash, leaves: map<nat, nat>, depth: nat, level: nat, nodes: map<nat, nat>, index: nat)
    requires level <= depth && StoresLevel(h, leaves, depth, level, nodes) && index < Pow2(depth - level)
    ensures Get(nodes, index, Zero(h, level)) == DenseNode(h, leaves, level, index)
  {
  }

  predicate InRange(leaves: map<nat, nat>, depth: nat) {
    forall k :: k in leaves ==> k < Pow2(depth)
  }

  predicate InField(leaves: map<nat, nat>) {
    forall k :: k in leaves ==> leaves[k] < FIELD
  }

  lemma {:induction false} EmptyParent(h: Hash, leaves: map<nat, nat>, level: nat, i: nat)
    requires DenseNode(h, leaves, level, 2 * i) == Zero(h, level) == DenseNode(h, leaves, level, 2 * i + 1)
    ensures DenseNode(h, leaves, level + 1, i) == Zero(h, level + 1)
  {
  }

  /** What the parents visited so far must look like. */
  ghost predicate ParentsDone(h: Hash, leaves: map<nat, nat>, level: nat, done: set<nat>, parents: map<nat, nat>) {
    && parents.Keys <= done
    && forall p :: p in done ==>
         && (p in parents <==> DenseNode(h, leaves, level + 1, p) != Zero(h, level + 1))
         && (p in parents ==> parents[p] == DenseNode(h, leaves, level + 1, p))
  }

  lemma AllParentsDone(h: Hash, leaves: map<nat, nat>, depth: nat, level: nat, nodes: map<nat, nat>, parents: map<nat, nat>)
    requires level < depth && StoresLevel(h, leaves, depth, level, nodes)
    requires ParentsDone(h, leaves, level, set index | index in nodes :: index / 2, parents)
    ensures StoresLevel(h, leaves, depth, level + 1, parents)
  {
    hide DenseNode;
    hide Zero;
    var done := set index | index in nodes :: index / 2;
    var width := Pow2(depth - (level + 1));
    assert Pow2(depth - level) == 2 * width;
    forall i: nat
      ensures i in parents <==> i < width && DenseNode(h, leaves, level + 1, i) != Zero(h, level + 1)
    {
      if i < width && i !in done {
        assert (2 * i) / 2 == i && (2 * i + 1) / 2 == i;
        EmptyParent(h, leaves, level, i);
      }
    }
  }

  /** One level up: hash the parents of the stored nodes, dropping empty digests. */
  method ParentLevel(h: Hash, ghost leaves: map<nat, nat>, ghost depth: nat, level: nat, nodes: map<nat, nat>,
                     zero: nat, nextZero: nat) returns (parents: map<nat, nat>)
    requires level < depth && StoresLevel(h, leaves, depth, level, nodes)
    requires zero == Zero(h, level) && nextZero == Zero(h, level + 1)
    ensures StoresLevel(h, leaves, depth, level + 1, parents)
  {
    hide Zero;
    parents := map[];
    var todo := set index | index in nodes :: index / 2;
    ghost var all := todo;
    assert Pow2(depth - level) == 2 * Pow2(depth - level - 1);
    while todo != {}
      invariant todo <= all && ParentsDone(h, leaves, level, all - todo, parents)
    {
      var p :| p in todo;
      StoredGet(h, leaves, depth, level, nodes, 2 * p);
      StoredGet(h, leaves, depth, level, nodes, 2 * p + 1);
      var digest := h([Get(nodes, 2 * p, zero), Get(nodes, 2 * p + 1, zero)]);
      assert digest == DenseNode(h, leaves, level + 1, p);
      if digest != nextZero {
        parents := parents[p := digest];
      }
      todo := todo - {p};
    }
    assert all - todo == all;
    AllParentsDone(h, leaves, depth, level, nodes, parents);
  }

  lemma BottomLevel(h: Hash, leaves: map<nat, nat>, depth: nat)
    requires InRange(leaves, depth)
    ensures StoresLevel(h, leaves, depth, 0, map k | k in leaves && leaves[k] != 0 :: leaves[k])
  {
  }

  /** The constructor: refuses out-of-range indices and leaves outside the field. */
  method Build(h: Hash, depth: nat, leaves: map<nat, nat>) returns (r: Result<SparseTree>)
    ensures r.Ok? <==> InRange(leaves, depth) && InField(leaves)
    ensures r.Ok? ==> Represents(h, r.value, depth, leaves)
  {
    hide DenseNode;
    var zeros := [0];
    for level := 0 to depth
      invariant |zeros| == level + 1
      invariant forall l :: 0 <= l <= level ==> zeros[l] == Zero(h, l)
    {
      zeros := zeros + [h([zeros[level], zeros[level]])];
    }
    if !InRange(leaves, depth) {
      return Err("Hidden-head sparse index is out of range");
    }
    if !InField(leaves) {
      return Err("Hidden-head witness field is outside BN254");
    }
    var levels := [map k | k in leaves && leaves[k] != 0 :: leaves[k]];
    BottomLevel(h, leaves, depth);
    for level := 0 to depth
      invariant |levels| == level + 1
      invariant forall l :: 0 <= l <= level ==> StoresLevel(h, leaves, depth, l, levels[l])
    {
      var parents := ParentLevel(h, leaves, depth, level, levels[level], zeros[level], zeros[level + 1]);
      levels := levels + [parents];
    }
    StoredGet(h, leaves, depth, depth, levels[depth], 0);
    r := Ok(SparseTree(depth, zeros, levels, Get(levels[depth], 0, zeros[depth])));
  }

  lemma {:induction false} StoredSibling(h: Hash, t: SparseTree, leaves: map<nat, nat>, index: nat, level: nat)
    requires Represents(h, t, t.depth, leaves) && index < Pow2(t.depth) && level < t.depth
    ensures Get(t.levels[level], Flip(Shr(index, level)), t.zeros[level]) == DenseNode(h, leaves, level, Flip(Shr(index, level)))
  {
    hide DenseNode, Zero, Shr;
    assert StoresLevel(h, leaves, t.depth, level, t.levels[level]);
    ShrBound(index, t.depth, level);
    assert Pow2(t.depth - level) == 2 * Pow2(t.depth - level - 1);
    StoredGet(h, leaves, t.depth, level, t.levels[level], Flip(Shr(index, level)));
  }

  /** Sibling list of any index, present or absent. */
  method Siblings(h: Hash, t: SparseTree, ghost leaves: map<nat, nat>, index: nat) returns (s: seq<nat>)
    requires Represents(h, t, t.depth, leaves) && index < Pow2(t.depth)
    ensures s == DenseSiblings(h, t.depth, leaves, index)
  {
    hide DenseNode, Zero, Shr;
    s := [];
    for level := 0 to t.depth
      invariant |s| == level
      invariant forall l :: 0 <= l < level ==> s[l] == DenseNode(h, leaves, l, Flip(Shr(index, l)))
    {
      StoredSibling(h, t, leaves, index, level);
      s := s + [Get(t.levels[level], Flip(Shr(index, level)), t.zeros[level])];
    }
  }

  /** `path_root`. */
  method PathRoot(h: Hash, leaf: nat, index: nat, siblings: seq<nat>) returns (node: nat)
    ensures node == Climb(h, leaf, index, siblings)
  {
    node := leaf;
    for level := 0 to |siblings|
      invariant Climb(h, node, Shr(index, level), siblings[level..]) == Climb(h, leaf, index, siblings)
    {
      assert siblings[level..][1..] == siblings[level + 1..];
      node := if Shr(index, level) % 2 == 1 then h([siblings[level], node]) else h([node, siblings[level]]);
    }
  }
}
