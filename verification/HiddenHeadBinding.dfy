/** The shared root binds the snapshot: with a hash that separates the inputs actually hashed, two valid
    snapshots under one root have the same heads, balances and nullifiers. */
module HiddenHeadBinding {
  import opened SparseTrees
  import opened Groups
  import opened PointGroup
  import opened HiddenHeads
  import opened HiddenHeadStore

  // ---------------------------------------------------------------- hashed inputs

  /** An inner node of a tree is hashed from its two children. */
  ghost predicate NodeInput(h: Hash, depth: nat, leaves: map<nat, nat>, x: seq<nat>) {
    exists level: nat, i: nat :: level < depth && x == Children(h, leaves, level, i)
  }

  function Children(h: Hash, leaves: map<nat, nat>, level: nat, i: nat): seq<nat> {
    [DenseNode(h, leaves, level, 2 * i), DenseNode(h, leaves, level, 2 * i + 1)]
  }

  ghost predicate HeadInput(e: Env, heads: map<nat, Head>, x: seq<nat>) {
    exists key :: key in heads
      && x == [key, heads[key].sequence, heads[key].memo, heads[key].action, PortfolioRoot(e, heads[key].portfolio)]
  }

  ghost predicate PortfolioInput(e: Env, portfolio: map<nat, Point>, x: seq<nat>) {
    || NodeInput(e.h, e.tokenDepth, TokenLeaves(e, portfolio), x)
    || exists token :: token in portfolio && x == [token, portfolio[token].x, portfolio[token].y]
  }

  ghost predicate InnerInput(e: Env, heads: map<nat, Head>, x: seq<nat>) {
    exists key :: key in heads && PortfolioInput(e, heads[key].portfolio, x)
  }

  /** Every input that a rebuild of the snapshot hashes. */
  ghost predicate Hashed(e: Env, s: Snapshot, x: seq<nat>)
    requires IndicesDistinct(e, s.heads)
  {
    || x == [DenseRoot(e.h, e.depth, HeadLeaves(e, s.heads)), DenseRoot(e.h, e.depth, NullifierLeaves(e, s.nullifiers))]
    || NodeInput(e.h, e.depth, HeadLeaves(e, s.heads), x)
    || NodeInput(e.h, e.depth, NullifierLeaves(e, s.nullifiers), x)
    || HeadInput(e, s.heads, x)
    || InnerInput(e, s.heads, x)
    || exists n :: n in s.nullifiers && x == [n]
  }

  /** The hash neither collides nor vanishes on what the two rebuilds hash. */
  ghost predicate Separates(e: Env, a: Snapshot, b: Snapshot)
    requires IndicesDistinct(e, a.heads) && IndicesDistinct(e, b.heads)
  {
    && (forall x, y :: Hashed(e, a, x) && Hashed(e, b, y) && e.h(x) == e.h(y) ==> x == y)
    && (forall x :: Hashed(e, a, x) || Hashed(e, b, x) ==> e.h(x) != 0)
  }

  // ---------------------------------------------------------------------- one tree

  ghost predicate SeparatesNodes(h: Hash, depth: nat, a: map<nat, nat>, b: map<nat, nat>) {
    forall x, y :: NodeInput(h, depth, a, x) && NodeInput(h, depth, b, y) && h(x) == h(y) ==> x == y
  }

  lemma {:induction false} SameChildren(h: Hash, depth: nat, a: map<nat, nat>, b: map<nat, nat>, level: nat, i: nat)
    requires SeparatesNodes(h, depth, a, b) && level < depth
    requires DenseNode(h, a, level + 1, i) == DenseNode(h, b, level + 1, i)
    ensures DenseNode(h, a, level, 2 * i) == DenseNode(h, b, level, 2 * i)
    ensures DenseNode(h, a, level, 2 * i + 1) == DenseNode(h, b, level, 2 * i + 1)
  {
    var x, y := Children(h, a, level, i), Children(h, b, level, i);
    assert NodeInput(h, depth, a, x) && NodeInput(h, depth, b, y);
    assert x == y && x[0] == y[0] && x[1] == y[1];
  }

  /** Equal roots have equal nodes all the way down the path of an index. */
  lemma {:induction false} SamePath(h: Hash, depth: nat, a: map<nat, nat>, b: map<nat, nat>, j: nat, level: nat)
    requires SeparatesNodes(h, depth, a, b) && DenseRoot(h, depth, a) == DenseRoot(h, depth, b)
    requires j < Pow2(depth) && level <= depth
    ensures DenseNode(h, a, level, Shr(j, level)) == DenseNode(h, b, level, Shr(j, level))
    decreases depth - level
  {
    hide DenseNode, SeparatesNodes;
    if level == depth {
      ShrBound(j, depth, depth);
    } else {
      SamePath(h, depth, a, b, j, level + 1);
      SameChildren(h, depth, a, b, level, Shr(j, level + 1));
    }
  }

  /** Equal roots have equal leaves. */
  lemma {:induction false} TreeBinds(h: Hash, depth: nat, a: map<nat, nat>, b: map<nat, nat>, j: nat)
    requires SeparatesNodes(h, depth, a, b) && DenseRoot(h, depth, a) == DenseRoot(h, depth, b) && j < Pow2(depth)
    ensures Leaf(a, j) == Leaf(b, j)
  {
    hide SeparatesNodes;
    SamePath(h, depth, a, b, j, 0);
  }

  // --------------------------------------------------------------------- portfolios

  ghost predicate SeparatesPortfolios(e: Env, a: map<nat, Point>, b: map<nat, Point>) {
    && (forall x, y :: PortfolioInput(e, a, x) && PortfolioInput(e, b, y) && e.h(x) == e.h(y) ==> x == y)
    && (forall x :: PortfolioInput(e, a, x) || PortfolioInput(e, b, x) ==> e.h(x) != 0)
  }

  lemma PortfolioNodes(e: Env, a: map<nat, Point>, b: map<nat, Point>)
    requires SeparatesPortfolios(e, a, b)
    ensures SeparatesNodes(e.h, e.tokenDepth, TokenLeaves(e, a), TokenLeaves(e, b))
  {
    hide NodeInput, TokenLeaves;
  }

  /** One balance, bound by the portfolio root. */
  lemma BalanceBound(e: Env, a: map<nat, Point>, b: map<nat, Point>, token: nat)
    requires ValidEnv(e) && TokenOk(token) && token in a && SeparatesPortfolios(e, a, b)
    requires PortfolioRoot(e, a) == PortfolioRoot(e, b)
    ensures token in b && b[token] == a[token]
  {
    PortfolioNodes(e, a, b);
    hide Abelian, InSubgroup, DenseNode, NodeInput;
    TreeBinds(e.h, e.tokenDepth, TokenLeaves(e, a), TokenLeaves(e, b), token);
    var x := [token, a[token].x, a[token].y];
    assert PortfolioInput(e, a, x) && e.h(x) != 0;
    assert token in b;
    var y := [token, b[token].x, b[token].y];
    assert PortfolioInput(e, b, y) && x == y && x[1] == y[1] && x[2] == y[2];
  }

  lemma SeparatesPortfoliosBoth(e: Env, a: map<nat, Point>, b: map<nat, Point>)
    requires SeparatesPortfolios(e, a, b)
    ensures SeparatesPortfolios(e, b, a)
  {
    hide PortfolioInput;
  }

  /** The portfolio root binds every balance point. */
  lemma PortfolioBinds(e: Env, a: map<nat, Point>, b: map<nat, Point>)
    requires ValidEnv(e) && ValidPortfolio(e, a) && ValidPortfolio(e, b) && SeparatesPortfolios(e, a, b)
    requires PortfolioRoot(e, a) == PortfolioRoot(e, b)
    ensures a == b
  {
    SeparatesPortfoliosBoth(e, a, b);
    hide InSubgroup, SeparatesPortfolios, ValidEnv;
    forall token | token in a ensures token in b && b[token] == a[token] {
      BalanceBound(e, a, b, token);
    }
    forall token | token in b ensures token in a {
      BalanceBound(e, b, a, token);
    }
  }

  // -------------------------------------------------------------------------- heads

  lemma {:induction false} HeadNodes(e: Env, a: Snapshot, b: Snapshot)
    requires IndicesDistinct(e, a.heads) && IndicesDistinct(e, b.heads) && Separates(e, a, b)
    ensures SeparatesNodes(e.h, e.depth, HeadLeaves(e, a.heads), HeadLeaves(e, b.heads))
    ensures SeparatesNodes(e.h, e.depth, NullifierLeaves(e, a.nullifiers), NullifierLeaves(e, b.nullifiers))
  {
    hide NodeInput, IndicesDistinct, HeadLeaves, NullifierLeaves, HeadInput, InnerInput;
  }

  lemma SeparatesBoth(e: Env, a: Snapshot, b: Snapshot)
    requires IndicesDistinct(e, a.heads) && IndicesDistinct(e, b.heads) && Separates(e, a, b)
    ensures Separates(e, b, a)
  {
    hide Hashed, IndicesDistinct;
  }

  lemma {:induction false} OuterRoots(e: Env, a: Snapshot, b: Snapshot)
    requires IndicesDistinct(e, a.heads) && IndicesDistinct(e, b.heads) && Separates(e, a, b)
    requires GlobalRoot(e, a) == GlobalRoot(e, b)
    ensures DenseRoot(e.h, e.depth, HeadLeaves(e, a.heads)) == DenseRoot(e.h, e.depth, HeadLeaves(e, b.heads))
    ensures DenseRoot(e.h, e.depth, NullifierLeaves(e, a.nullifiers)) == DenseRoot(e.h, e.depth, NullifierLeaves(e, b.nullifiers))
  {
    hide IndicesDistinct, HeadLeaves, NullifierLeaves, DenseRoot, NodeInput, HeadInput, InnerInput;
    var x := [DenseRoot(e.h, e.depth, HeadLeaves(e, a.heads)), DenseRoot(e.h, e.depth, NullifierLeaves(e, a.nullifiers))];
    var y := [DenseRoot(e.h, e.depth, HeadLeaves(e, b.heads)), DenseRoot(e.h, e.depth, NullifierLeaves(e, b.nullifiers))];
    assert Hashed(e, a, x) && Hashed(e, b, y);
    assert x == y && x[0] == y[0] && x[1] == y[1];
  }

  /** What is hashed for one head. */
  function HeadFields(e: Env, key: nat, head: Head): seq<nat> {
    [key, head.sequence, head.memo, head.action, PortfolioRoot(e, head.portfolio)]
  }

  lemma HeadIsHashed(e: Env, s: Snapshot, key: nat)
    requires IndicesDistinct(e, s.heads) && key in s.heads
    ensures Hashed(e, s, HeadFields(e, key, s.heads[key])) && HeadLeaf(e, key, s.heads[key]) == e.h(HeadFields(e, key, s.heads[key]))
  {
    hide IndicesDistinct, HeadLeaves, NullifierLeaves, DenseRoot, NodeInput, InnerInput, PortfolioRoot;
    assert HeadInput(e, s.heads, HeadFields(e, key, s.heads[key]));
  }

  lemma PortfoliosSeparated(e: Env, a: Snapshot, b: Snapshot, k: nat, l: nat)
    requires IndicesDistinct(e, a.heads) && IndicesDistinct(e, b.heads) && Separates(e, a, b) && k in a.heads && l in b.heads
    ensures SeparatesPortfolios(e, a.heads[k].portfolio, b.heads[l].portfolio)
  {
    hide IndicesDistinct, HeadLeaves, NullifierLeaves, DenseRoot, NodeInput, HeadInput, PortfolioInput;
    forall x | PortfolioInput(e, a.heads[k].portfolio, x) ensures Hashed(e, a, x) {
      assert InnerInput(e, a.heads, x);
    }
    forall x | PortfolioInput(e, b.heads[l].portfolio, x) ensures Hashed(e, b, x) {
      assert InnerInput(e, b.heads, x);
    }
  }

  lemma LeafAtIndex(e: Env, heads: map<nat, Head>, key: nat)
    requires IndicesDistinct(e, heads) && key in heads
    ensures Index(e, key) < Pow2(e.depth) && Leaf(HeadLeaves(e, heads), Index(e, key)) == HeadLeaf(e, key, heads[key])
  {
    hide HeadLeaf, HeadLeaves;
    HeadLeafAt(e, heads, key);
  }

  /** One head, bound by the shared root. */
  lemma HeadBound(e: Env, a: Snapshot, b: Snapshot, key: nat)
    requires ValidEnv(e) && ValidSnapshot(e, a) && ValidSnapshot(e, b) && Separates(e, a, b) && key in a.heads
    requires GlobalRoot(e, a) == GlobalRoot(e, b)
    ensures key in b.heads && b.heads[key] == a.heads[key]
  {
    OuterRoots(e, a, b);
    HeadNodes(e, a, b);
    LeafAtIndex(e, a.heads, key);
    hide ValidEnv, IndicesDistinct, Index, HeadLeaf, HeadLeaves, NullifierLeaves, DenseRoot, Hashed, PortfolioRoot, SeparatesNodes,
      GlobalRoot, ValidNullifiers, ValidPortfolio;
    var i := Index(e, key);
    TreeBinds(e.h, e.depth, HeadLeaves(e, a.heads), HeadLeaves(e, b.heads), i);
    HeadIsHashed(e, a, key);
    assert i in HeadLeaves(e, b.heads);
    var l := HeadKeyAt(e, b.heads, i);
    HeadIsHashed(e, b, l);
    SameHead(e, key, a.heads[key], l, b.heads[l]);
    PortfoliosSeparated(e, a, b, key, l);
    PortfolioBinds(e, a.heads[key].portfolio, b.heads[l].portfolio);
  }

  lemma SameHead(e: Env, k: nat, a: Head, l: nat, b: Head)
    requires HeadFields(e, k, a) == HeadFields(e, l, b)
    ensures k == l && a.sequence == b.sequence && a.memo == b.memo && a.action == b.action
    ensures PortfolioRoot(e, a.portfolio) == PortfolioRoot(e, b.portfolio)
  {
    hide PortfolioRoot;
    var x, y := HeadFields(e, k, a), HeadFields(e, l, b);
    assert x[0] == y[0] && x[1] == y[1] && x[2] == y[2] && x[3] == y[3] && x[4] == y[4];
  }

  // --------------------------------------------------------------------- nullifiers

  lemma {:induction false} NullifierLeafAt(e: Env, ns: seq<nat>, i: nat)
    requires ValidNullifiers(e, ns) && i < |ns|
    ensures Slot(e, ns[i]) in NullifierLeaves(e, ns) && NullifierLeaves(e, ns)[Slot(e, ns[i])] == e.h([ns[i]])
  {
    hide Slot;
    if i < |ns| - 1 {
      NullifierLeafAt(e, ns[..|ns| - 1], i);
    }
  }

  lemma NullifierIsHashed(e: Env, s: Snapshot, n: nat)
    requires IndicesDistinct(e, s.heads) && n in s.nullifiers
    ensures Hashed(e, s, [n])
  {
    hide IndicesDistinct, HeadLeaves, NullifierLeaves, DenseRoot, NodeInput, HeadInput, InnerInput;
  }

  lemma SlotFits(e: Env, n: nat)
    ensures Slot(e, n) < Pow2(e.depth)
  {
  }

  /** One nullifier, bound by the shared root. */
  lemma NullifierBound(e: Env, a: Snapshot, b: Snapshot, i: nat)
    requires ValidEnv(e) && ValidSnapshot(e, a) && ValidSnapshot(e, b) && Separates(e, a, b) && i < |a.nullifiers|
    requires GlobalRoot(e, a) == GlobalRoot(e, b)
    ensures a.nullifiers[i] in b.nullifiers
  {
    OuterRoots(e, a, b);
    HeadNodes(e, a, b);
    NullifierLeafAt(e, a.nullifiers, i);
    hide ValidEnv, IndicesDistinct, HeadOk, Slot, NullifierLeaves, DenseRoot, Hashed, SeparatesNodes, GlobalRoot, HeadLeaves;
    var n := a.nullifiers[i];
    SlotFits(e, n);
    TreeBinds(e.h, e.depth, NullifierLeaves(e, a.nullifiers), NullifierLeaves(e, b.nullifiers), Slot(e, n));
    NullifierIsHashed(e, a, n);
    assert Slot(e, n) in NullifierLeaves(e, b.nullifiers);
    var j := NullifierAtSlot(e, b.nullifiers, Slot(e, n));
    NullifierLeafAt(e, b.nullifiers, j);
    NullifierIsHashed(e, b, b.nullifiers[j]);
    assert [n] == [b.nullifiers[j]];
    assert [n][0] == [b.nullifiers[j]][0];
  }

  // ----------------------------------------------------------------------- theorems

  /** The shared root binds the snapshot, up to the order of its nullifiers. */
  lemma RootBinds(e: Env, a: Snapshot, b: Snapshot)
    requires ValidEnv(e) && ValidSnapshot(e, a) && ValidSnapshot(e, b) && Separates(e, a, b)
    requires GlobalRoot(e, a) == GlobalRoot(e, b)
    ensures a.heads == b.heads
    ensures forall n :: n in a.nullifiers <==> n in b.nullifiers
  {
    SeparatesBoth(e, a, b);
    hide ValidEnv, ValidSnapshot, IndicesDistinct, Separates, GlobalRoot;
    HeadsBound(e, a, b);
    HeadsBound(e, b, a);
    assert a.heads == b.heads;
    NullifiersBound(e, a, b);
    NullifiersBound(e, b, a);
  }

  lemma HeadsBound(e: Env, a: Snapshot, b: Snapshot)
    requires ValidEnv(e) && ValidSnapshot(e, a) && ValidSnapshot(e, b) && Separates(e, a, b)
    requires GlobalRoot(e, a) == GlobalRoot(e, b)
    ensures forall key :: key in a.heads ==> key in b.heads && b.heads[key] == a.heads[key]
  {
    hide ValidEnv, ValidSnapshot, IndicesDistinct, Separates, GlobalRoot;
    forall key | key in a.heads ensures key in b.heads && b.heads[key] == a.heads[key] {
      HeadBound(e, a, b, key);
    }
  }

  lemma NullifiersBound(e: Env, a: Snapshot, b: Snapshot)
    requires ValidEnv(e) && ValidSnapshot(e, a) && ValidSnapshot(e, b) && Separates(e, a, b)
    requires GlobalRoot(e, a) == GlobalRoot(e, b)
    ensures forall n :: n in a.nullifiers ==> n in b.nullifiers
  {
    hide ValidEnv, ValidSnapshot, IndicesDistinct, Separates, GlobalRoot;
    forall n | n in a.nullifiers ensures n in b.nullifiers {
      var i :| 0 <= i < |a.nullifiers| && a.nullifiers[i] == n;
      NullifierBound(e, a, b, i);
    }
  }

  /** So a file that was changed in any balance, head or nullifier is refused under its old root. */
  lemma ChangedFileRefused(e: Env, tcaps: map<nat, Snapshot>, root: nat, changed: Snapshot)
    requires ValidEnv(e) && SnapshotAt(e, tcaps, root)
    requires IndicesDistinct(e, changed.heads) ==> Separates(e, tcaps[root], changed)
    requires changed.heads != tcaps[root].heads || exists n :: (n in changed.nullifiers) != (n in tcaps[root].nullifiers)
    ensures !SnapshotAt(e, tcaps[root := changed], root)
  {
    hide ValidEnv, IndicesDistinct, Separates, GlobalRoot, HeadOk, ValidNullifiers;
    if SnapshotAt(e, tcaps[root := changed], root) {
      RootBinds(e, tcaps[root], changed);
    }
  }

  /** The action commitment binds what is credited. */
  lemma ActionBinds(e: Env, t: Credit, u: Credit)
    requires ActionCommitment(e, t) == ActionCommitment(e, u)
    requires var x, y := [1, t.token, t.amount, t.authorization, t.nullifier], [1, u.token, u.amount, u.authorization, u.nullifier];
      e.h(x) == e.h(y) ==> x == y
    ensures t.token == u.token && t.amount == u.amount && t.authorization == u.authorization && t.nullifier == u.nullifier
  {
    var x, y := [1, t.token, t.amount, t.authorization, t.nullifier], [1, u.token, u.amount, u.authorization, u.nullifier];
    assert x[1] == y[1] && x[2] == y[2] && x[3] == y[3] && x[4] == y[4];
  }

  /** The route leaf binds the reduced commitments and the scan key. */
  lemma RouteBinds(e: Env, a: Route, b: Route)
    requires RouteLeaf(e, a) == RouteLeaf(e, b)
    requires
      var x := [a.lookup % FIELD, a.elgamalKey % FIELD, a.scan.x, a.scan.y, a.policy % FIELD];
      var y := [b.lookup % FIELD, b.elgamalKey % FIELD, b.scan.x, b.scan.y, b.policy % FIELD];
      e.h(x) == e.h(y) ==> x == y
    ensures a.lookup % FIELD == b.lookup % FIELD && a.elgamalKey % FIELD == b.elgamalKey % FIELD
    ensures a.scan == b.scan && a.policy % FIELD == b.policy % FIELD
  {
    var x := [a.lookup % FIELD, a.elgamalKey % FIELD, a.scan.x, a.scan.y, a.policy % FIELD];
    var y := [b.lookup % FIELD, b.elgamalKey % FIELD, b.scan.x, b.scan.y, b.policy % FIELD];
    assert x[0] == y[0] && x[1] == y[1] && x[2] == y[2] && x[3] == y[3] && x[4] == y[4];
  }
}
