/** The witness store itself: rebuild and check a snapshot, derive a credit
    witness from it, finish the credit in place and publish the candidate. */
module HiddenHeadStore {
  import opened Wrappers
  import opened SparseTrees
  import opened Groups
  import opened PointGroup
  import opened HiddenHeads
  import opened HiddenHeadRuns

  function Restrict<T>(m: map<nat, T>, keys: set<nat>): map<nat, T> {
    map k | k in m && k in keys :: m[k]
  }

  lemma RestrictGrows<T>(m: map<nat, T>, keys: set<nat>, k: nat)
    requires k in m
    ensures Restrict(m, keys + {k}) == Restrict(m, keys)[k := m[k]]
  {
  }

  // ------------------------------------------------------------------ rebuild

  /** `_portfolio`. */
  method RebuildPortfolio(e: Env, portfolio: map<nat, Point>) returns (r: Result<SparseTree>)
    requires ValidEnv(e)
    ensures r.Ok? <==> ValidPortfolio(e, portfolio)
    ensures r.Ok? ==> Represents(e.h, r.value, e.tokenDepth, TokenLeaves(e, portfolio))
  {
    hide InSubgroup, Abelian, Represents;
    var leaves: map<nat, nat> := map[];
    var todo: set<nat> := portfolio.Keys;
    ghost var done: set<nat> := {};
    while todo != {}
      invariant done !! todo && done + todo == portfolio.Keys
      invariant ValidPortfolio(e, Restrict(portfolio, done))
      invariant leaves == TokenLeaves(e, Restrict(portfolio, done))
    {
      var token: nat :| token in todo;
      if !TokenOk(token) {
        return Err("Hidden-head portfolio token must be a positive u32");
      }
      var ok := CheckPoint(e.c, portfolio[token]);
      if !ok {
        return Err("Hidden-head token point is off the curve or outside the subgroup");
      }
      leaves := leaves[token := TokenLeaf(e, token, portfolio[token])];
      RestrictGrows(portfolio, done, token);
      todo, done := todo - {token}, done + {token};
    }
    assert Restrict(portfolio, done) == portfolio;
    TokenLeavesFit(e, portfolio);
    r := Build(e.h, e.tokenDepth, leaves);
  }

  lemma TokenLeavesFit(e: Env, portfolio: map<nat, Point>)
    requires ValidEnv(e) && ValidPortfolio(e, portfolio)
    ensures InRange(TokenLeaves(e, portfolio), e.tokenDepth) && InField(TokenLeaves(e, portfolio))
  {
    hide InSubgroup, Abelian;
  }

  /** The first loop of `prepare_credit`: leaves of the head tree, with collision checks. */
  method RebuildHeads(e: Env, heads: map<nat, Head>) returns (r: Result<map<nat, nat>>)
    requires ValidEnv(e)
    ensures r.Ok? <==> ValidHeads(e, heads)
    ensures r.Ok? ==> r.value == HeadLeaves(e, heads)
  {
    hide InSubgroup, Abelian, HeadLeaf, Index, TokenLeaves, ValidEnv, HeadLeaves;
    var leaves: map<nat, nat> := map[];
    var todo: set<nat> := heads.Keys;
    ghost var done: set<nat> := {};
    NoHeadLeaves(e);
    assert Restrict(heads, done) == map[];
    while todo != {}
      invariant done !! todo && done + todo == heads.Keys
      invariant ValidHeads(e, Restrict(heads, done))
      invariant leaves == HeadLeaves(e, Restrict(heads, done))
    {
      var key: nat :| key in todo;
      var head := heads[key];
      ghost var sofar := Restrict(heads, done);
      if key >= FIELD {
        return Err("Hidden-head witness field is outside BN254");
      }
      if Index(e, key) in leaves {
        ghost var other := HeadKeyAt(e, sofar, Index(e, key));
        return Err("TCAP witness contains colliding hidden-head indices");
      }
      if !(0 < head.sequence <= U64_MAX) {
        return Err("TCAP predecessor sequence is not a positive u64");
      }
      if !(0 < head.memo < FIELD && 0 < head.action < FIELD) {
        return Err("TCAP predecessor commitments must be nonzero");
      }
      var portfolio := RebuildPortfolio(e, head.portfolio);
      if portfolio.Err? {
        return Err(portfolio.reason);
      }
      SlotIsFree(e, sofar, key);
      HeadLeavesPut(e, sofar, key, head);
      assert portfolio.value.root == PortfolioRoot(e, head.portfolio);
      leaves := leaves[Index(e, key) := LeafOf(e, key, head, portfolio.value.root)];
      RestrictGrows(heads, done, key);
      todo, done := todo - {key}, done + {key};
    }
    assert Restrict(heads, done) == heads;
    r := Ok(leaves);
  }

  lemma NoHeadLeaves(e: Env)
    ensures HeadLeaves(e, map[]) == map[]
  {
  }

  /** The head digest from an already computed portfolio root. */
  function LeafOf(e: Env, key: nat, head: Head, portfolioRoot: nat): (leaf: nat)
    ensures portfolioRoot == PortfolioRoot(e, head.portfolio) ==> leaf == HeadLeaf(e, key, head)
  {
    e.h([key, head.sequence, head.memo, head.action, portfolioRoot])
  }

  lemma SlotIsFree(e: Env, heads: map<nat, Head>, key: nat)
    requires IndicesDistinct(e, heads) && Index(e, key) !in HeadLeaves(e, heads)
    ensures SlotFree(e, heads, key) && key !in heads
  {
    hide Index, HeadLeaf, HeadLeaves;
    forall k | k in heads ensures Index(e, k) != Index(e, key) {
      HeadLeafAt(e, heads, k);
    }
  }

  /** The second loop of `prepare_credit`. */
  method RebuildNullifiers(e: Env, nullifiers: seq<nat>) returns (r: Result<map<nat, nat>>)
    ensures r.Ok? <==> ValidNullifiers(e, nullifiers)
    ensures r.Ok? ==> r.value == NullifierLeaves(e, nullifiers)
  {
    hide Slot, NullifierKey, NullifierLeaves;
    var leaves: map<nat, nat> := map[];
    NoNullifierLeaves(e);
    assert nullifiers[..0] == [];
    for i := 0 to |nullifiers|
      invariant ValidNullifiers(e, nullifiers[..i])
      invariant leaves == NullifierLeaves(e, nullifiers[..i])
    {
      var n := nullifiers[i];
      if n >= FIELD {
        return Err("Hidden-head witness field is outside BN254");
      }
      if n == 0 {
        return Err("TCAP witness contains duplicate or colliding nullifiers");
      }
      if Slot(e, n) in leaves {
        ghost var j := NullifierAtSlot(e, nullifiers[..i], Slot(e, n));
        return Err("TCAP witness contains duplicate or colliding nullifiers");
      }
      assert nullifiers[..i + 1] == nullifiers[..i] + [n];
      CreditedNullifiersValid(e, nullifiers[..i], n);
      NullifierLeavesAppend(e, nullifiers[..i], n);
      leaves := leaves[Slot(e, n) := NullifierKey(e, n)];
    }
    assert nullifiers[..|nullifiers|] == nullifiers;
    r := Ok(leaves);
  }

  lemma {:induction false} NoNullifierLeaves(e: Env)
    ensures NullifierLeaves(e, []) == map[]
  {
  }

  // ------------------------------------------------------------- TIP routes

  /** The resolved recipient route, as the numbers its hex fields denote. */
  datatype Route = Route(lookup: nat, elgamalKey: nat, scan: Point, policy: nat)

  function RouteKey(route: Route): nat {
    route.elgamalKey % FIELD
  }

  function RouteLeaf(e: Env, route: Route): nat {
    e.h([route.lookup % FIELD, RouteKey(route), route.scan.x, route.scan.y, route.policy % FIELD])
  }

  function Enumerate(leaves: seq<nat>): map<nat, nat> {
    map i: nat | i < |leaves| :: leaves[i]
  }

  predicate LeavesOk(e: Env, leaves: seq<nat>, leaf: nat) {
    && (forall i :: 0 <= i < |leaves| ==> 0 < leaves[i] < FIELD)
    && multiset(leaves)[leaf] == 1
    && |leaves| <= Pow2(e.routeDepth)
  }

  /** The TIP snapshot lists the route exactly once and rebuilds to the chain's root. */
  ghost predicate RouteListed(e: Env, leaves: seq<nat>, leaf: nat, tipRoot: nat) {
    LeavesOk(e, leaves, leaf) && DenseRoot(e.h, e.routeDepth, Enumerate(leaves)) == tipRoot
  }

  method FindRoute(e: Env, leaves: seq<nat>, leaf: nat, tipRoot: nat) returns (r: Result<(nat, seq<nat>)>)
    ensures r.Ok? <==> RouteListed(e, leaves, leaf, tipRoot)
    ensures r.Ok? <==>
      && (forall i :: 0 <= i < |leaves| ==> 0 < leaves[i] < FIELD) && multiset(leaves)[leaf] == 1
      && |leaves| <= Pow2(e.routeDepth) && DenseRoot(e.h, e.routeDepth, Enumerate(leaves)) == tipRoot
    ensures r.Ok? ==> r.value.0 < |leaves| && leaves[r.value.0] == leaf
    ensures r.Ok? ==> Climb(e.h, leaf, r.value.0, r.value.1) == tipRoot
  {
    hide DenseNode, Climb;
    if !LeavesOk(e, leaves, leaf) {
      return Err("TIP witness does not contain the uniquely resolved recipient route");
    }
    assert InRange(Enumerate(leaves), e.routeDepth) && InField(Enumerate(leaves));
    var built := Build(e.h, e.routeDepth, Enumerate(leaves));
    var tree := built.value;
    if tree.root != tipRoot {
      return Err("TIP witness does not match the on-chain route root");
    }
    assert leaf in leaves;
    var index := 0;
    while leaves[index] != leaf
      invariant index < |leaves| && leaf !in leaves[..index]
      decreases |leaves| - index
    {
      assert leaves == leaves[..index + 1] + leaves[index + 1..];
      index := index + 1;
      if index == |leaves| {
        assert false;
      }
    }
    var siblings := Siblings(e.h, tree, Enumerate(leaves), index);
    ClimbFromOwnLeaf(e.h, Enumerate(leaves), e.routeDepth, index);
    r := Ok((index, siblings));
  }

  // --------------------------------------------------------------- witnesses

  datatype Request = Request(oldRoot: nat, tipRoot: nat, route: Route, token: nat, amount: nat, authorization: nat, nullifier: nat)

  datatype Witness = Witness(
    oldGlobalRoot: nat, actionCommitment: nat, nullifier: nat, successorPortfolioRoot: nat, successorBalance: Point,
    cipher: DeltaCipher, tipRouteIndex: nat, tipSiblings: seq<nat>, accountPathKey: nat, priorSequence: nat,
    predecessorMemo: nat, predecessorAction: nat, predecessorPortfolioRoot: nat, accountSiblings: seq<nat>,
    isFirstToken: bool, predecessorBalance: Point, portfolioSiblings: seq<nat>, nullifierSiblings: seq<nat>,
    assetId: nat, amount: nat, authorization: nat, delta: nat)

  /** The credit a request stands for, once the delta is sampled and the memo is known. */
  function CreditOf(q: Request, delta: nat, memo: nat): Credit {
    Credit(RouteKey(q.route), q.token, q.amount, q.authorization, q.nullifier, delta, memo)
  }

  /** The parts of the witness that `finish_credit` and the circuit open against the old snapshot. */
  ghost predicate WitnessFor(e: Env, s: Snapshot, t: Credit, w: Witness)
    requires IndicesDistinct(e, s.heads)
  {
    var prior := PriorHead(s, t.key);
    && w.oldGlobalRoot == GlobalRoot(e, s)
    && w.actionCommitment == ActionCommitment(e, t)
    && w.nullifier == t.nullifier && w.accountPathKey == t.key
    && w.assetId == t.token && w.amount == t.amount && w.authorization == t.authorization && w.delta == t.delta
    && w.priorSequence == prior.sequence && w.predecessorMemo == prior.memo && w.predecessorAction == prior.action
    && w.predecessorPortfolioRoot == PortfolioRoot(e, prior.portfolio)
    && w.isFirstToken == (t.token !in prior.portfolio)
    && w.predecessorBalance == PriorPoint(s, t.key, t.token)
    && w.successorBalance == SuccessorPoint(e, s, t)
    && w.portfolioSiblings == DenseSiblings(e.h, e.tokenDepth, TokenLeaves(e, prior.portfolio), t.token)
    && w.successorPortfolioRoot == PortfolioRoot(e, prior.portfolio[t.token := SuccessorPoint(e, s, t)])
    && w.accountSiblings == DenseSiblings(e.h, e.depth, HeadLeaves(e, s.heads), Index(e, t.key))
    && w.nullifierSiblings == DenseSiblings(e.h, e.depth, NullifierLeaves(e, s.nullifiers), Slot(e, t.nullifier))
  }

  ghost predicate SnapshotAt(e: Env, tcaps: map<nat, Snapshot>, root: nat) {
    && root < FIELD && root in tcaps
    && ValidSnapshot(e, tcaps[root]) && GlobalRoot(e, tcaps[root]) == root
  }

  predicate ArgumentsOk(q: Request) {
    TokenOk(q.token) && 0 < q.amount <= U64_MAX && 0 < q.authorization < FIELD
  }

  ghost predicate RouteAccepted(e: Env, tips: map<nat, seq<nat>>, q: Request) {
    && q.route.scan.x < FIELD && q.route.scan.y < FIELD
    && q.tipRoot < FIELD && q.tipRoot in tips && RouteListed(e, tips[q.tipRoot], RouteLeaf(e, q.route), q.tipRoot)
  }

  ghost predicate CreditAccepted(e: Env, s: Snapshot, q: Request) {
    CreditAllowed(e, s, CreditOf(q, 0, 0)) && InSubgroup(e.c, q.route.scan) && q.route.scan != IDENTITY
  }

  /** Exactly what `prepare_credit` accepts. */
  ghost predicate Accepts(e: Env, tips: map<nat, seq<nat>>, tcaps: map<nat, Snapshot>, q: Request) {
    && ArgumentsOk(q)
    && RouteAccepted(e, tips, q)
    && SnapshotAt(e, tcaps, q.oldRoot)
    && CreditAccepted(e, tcaps[q.oldRoot], q)
  }

  /** `prepare_credit` accepts these requests, bound by bound: a positive u32 token, a positive u64 amount, non-zero field
      elements, a uniquely listed route under the TIP root, a scan key in the subgroup other than the identity, a snapshot under
      the old root, a key of its own slot whose sequence is not exhausted, and a nullifier of a free slot. */
  lemma AcceptsIff(e: Env, tips: map<nat, seq<nat>>, tcaps: map<nat, Snapshot>, q: Request)
    ensures Accepts(e, tips, tcaps, q) <==>
      && 0 < q.token <= 4_294_967_295 && 0 < q.amount <= 18_446_744_073_709_551_615
      && 0 < q.authorization < FIELD && 0 < q.nullifier < FIELD
      && q.route.scan.x < FIELD && q.route.scan.y < FIELD && InSubgroup(e.c, q.route.scan) && q.route.scan != Point(0, 1)
      && q.tipRoot < FIELD && q.tipRoot in tips && RouteListed(e, tips[q.tipRoot], RouteLeaf(e, q.route), q.tipRoot)
      && SnapshotAt(e, tcaps, q.oldRoot)
      && KeyAccepted(e, tcaps[q.oldRoot].heads, q.route.elgamalKey % FIELD)
      && forall i :: 0 <= i < |tcaps[q.oldRoot].nullifiers| ==>
           e.h([tcaps[q.oldRoot].nullifiers[i]]) % Pow2(e.depth) != e.h([q.nullifier]) % Pow2(e.depth)
  {
    if SnapshotAt(e, tcaps, q.oldRoot) {
      CreditAllowedIff(e, tcaps[q.oldRoot], q);
    }
    hide CreditAllowed, InSubgroup, RouteListed, RouteLeaf, SnapshotAt, CreditOf, KeyAccepted;
  }

  lemma CreditAllowedIff(e: Env, s: Snapshot, q: Request)
    ensures CreditAllowed(e, s, CreditOf(q, 0, 0)) <==>
      && 0 < q.token <= 4_294_967_295 && 0 < q.amount <= 18_446_744_073_709_551_615
      && 0 < q.authorization < FIELD && 0 < q.nullifier < FIELD && KeyAccepted(e, s.heads, q.route.elgamalKey % FIELD)
      && forall i :: 0 <= i < |s.nullifiers| ==> e.h([s.nullifiers[i]]) % Pow2(e.depth) != e.h([q.nullifier]) % Pow2(e.depth)
  {
    UnusedIff(e, s.nullifiers, q.nullifier);
    hide NullifierLeaves, Slot;
  }

  /** A key already in the map with a sequence below 2^64 - 1, or one whose index no other key has. */
  predicate KeyAccepted(e: Env, heads: map<nat, Head>, key: nat) {
    if key in heads then heads[key].sequence != 18_446_744_073_709_551_615
    else forall k :: k in heads ==> k % Pow2(e.depth) != key % Pow2(e.depth)
  }

  lemma {:induction false} UnusedIff(e: Env, ns: seq<nat>, n: nat)
    ensures Slot(e, n) !in NullifierLeaves(e, ns)
       <==> forall i :: 0 <= i < |ns| ==> e.h([ns[i]]) % Pow2(e.depth) != e.h([n]) % Pow2(e.depth)
  {
    hide NullifierLeaves;
    forall i | 0 <= i < |ns| ensures Slot(e, ns[i]) in NullifierLeaves(e, ns) {
      NullifierTakesSlot(e, ns, i);
    }
    if Slot(e, n) in NullifierLeaves(e, ns) {
      var i := NullifierAtSlot(e, ns, Slot(e, n));
      assert e.h([ns[i]]) % Pow2(e.depth) == e.h([n]) % Pow2(e.depth);
    }
  }

  /** A snapshot passes the structural checks, bound by bound. */
  lemma SnapshotIff(e: Env, s: Snapshot)
    ensures ValidSnapshot(e, s) <==>
      && (forall k, l :: k in s.heads && l in s.heads && k % Pow2(e.depth) == l % Pow2(e.depth) ==> k == l)
      && (forall k :: k in s.heads ==> HeadAccepted(e, k, s.heads[k]))
      && (forall i :: 0 <= i < |s.nullifiers| ==> 0 < s.nullifiers[i] < FIELD)
      && (forall i, j :: 0 <= i < j < |s.nullifiers| ==>
            e.h([s.nullifiers[i]]) % Pow2(e.depth) != e.h([s.nullifiers[j]]) % Pow2(e.depth))
  {
    IndicesIff(e, s.heads);
    HeadsIff(e, s.heads);
    NullifiersIff(e, s.nullifiers);
    hide IndicesDistinct, HeadOk, HeadAccepted, ValidNullifiers;
  }

  lemma IndicesIff(e: Env, heads: map<nat, Head>)
    ensures IndicesDistinct(e, heads)
       <==> forall k, l :: k in heads && l in heads && k % Pow2(e.depth) == l % Pow2(e.depth) ==> k == l
  {
    assert forall k: nat :: Index(e, k) == k % Pow2(e.depth);
    hide Index;
  }

  lemma HeadsIff(e: Env, heads: map<nat, Head>)
    ensures (forall k :: k in heads ==> HeadOk(e, k, heads[k])) <==> (forall k :: k in heads ==> HeadAccepted(e, k, heads[k]))
  {
    hide InSubgroup;
    forall k | k in heads ensures HeadOk(e, k, heads[k]) <==> HeadAccepted(e, k, heads[k]) {
    }
    hide HeadOk, HeadAccepted;
  }

  lemma NullifiersIff(e: Env, ns: seq<nat>)
    ensures ValidNullifiers(e, ns) <==>
      && (forall i :: 0 <= i < |ns| ==> 0 < ns[i] < FIELD)
      && (forall i, j :: 0 <= i < j < |ns| ==> e.h([ns[i]]) % Pow2(e.depth) != e.h([ns[j]]) % Pow2(e.depth))
  {
    assert forall n: nat :: Slot(e, n) == e.h([n]) % Pow2(e.depth);
    hide Slot;
  }

  ghost predicate HeadAccepted(e: Env, key: nat, head: Head) {
    && key < FIELD && 0 < head.sequence <= 18_446_744_073_709_551_615 && 0 < head.memo < FIELD && 0 < head.action < FIELD
    && forall token :: token in head.portfolio ==> 0 < token <= 4_294_967_295 && InSubgroup(e.c, head.portfolio[token])
  }

  /** The two outer trees of a snapshot with the leaf tables they were built from. */
  datatype Opened = Opened(headLeaves: map<nat, nat>, headTree: SparseTree, nullifierLeaves: map<nat, nat>, nullifierTree: SparseTree)

  ghost predicate Opens(e: Env, s: Snapshot, o: Opened)
    requires IndicesDistinct(e, s.heads)
  {
    && o.headLeaves == HeadLeaves(e, s.heads) && Represents(e.h, o.headTree, e.depth, o.headLeaves)
    && o.nullifierLeaves == NullifierLeaves(e, s.nullifiers) && Represents(e.h, o.nullifierTree, e.depth, o.nullifierLeaves)
  }

  /** Rebuild both outer trees of the snapshot under `root`, or say why it is refused. */
  method OpenSnapshot(e: Env, tcaps: map<nat, Snapshot>, root: nat) returns (r: Result<Opened>)
    requires ValidEnv(e)
    ensures r.Ok? <==> SnapshotAt(e, tcaps, root)
    ensures r.Ok? ==> Opens(e, tcaps[root], r.value)
  {
    hide DenseNode, Represents, HeadLeaves, NullifierLeaves, Abelian, InSubgroup, HeadOk;
    if root >= FIELD {
      return Err("Hidden-head witness field is outside BN254");
    }
    if root !in tcaps {
      return Err("GPRU_HIDDEN_HEAD_WITNESS_UNAVAILABLE: no snapshot for the chain-selected root");
    }
    var s := tcaps[root];
    var heads := RebuildHeads(e, s.heads);
    if heads.Err? {
      return Err(heads.reason);
    }
    var nullifiers := RebuildNullifiers(e, s.nullifiers);
    if nullifiers.Err? {
      return Err(nullifiers.reason);
    }
    OuterLeavesFit(e, s);
    var headTree := Build(e.h, e.depth, heads.value);
    var nullifierTree := Build(e.h, e.depth, nullifiers.value);
    RootOf(e.h, headTree.value, e.depth, heads.value);
    RootOf(e.h, nullifierTree.value, e.depth, nullifiers.value);
    if e.h([headTree.value.root, nullifierTree.value.root]) != root {
      return Err("TCAP witness does not match the on-chain shared root");
    }
    r := Ok(Opened(heads.value, headTree.value, nullifiers.value, nullifierTree.value));
  }

  lemma RootOf(h: Hash, t: SparseTree, depth: nat, leaves: map<nat, nat>)
    requires Represents(h, t, depth, leaves)
    ensures t.root == DenseRoot(h, depth, leaves) && t.depth == depth
  {
  }

  lemma {:induction false} OuterLeavesFit(e: Env, s: Snapshot)
    requires ValidEnv(e) && IndicesDistinct(e, s.heads)
    ensures InRange(HeadLeaves(e, s.heads), e.depth) && InField(HeadLeaves(e, s.heads))
    ensures InRange(NullifierLeaves(e, s.nullifiers), e.depth) && InField(NullifierLeaves(e, s.nullifiers))
  {
    hide Abelian, InSubgroup, HeadLeaves, NullifierLeaves;
    forall i | i in HeadLeaves(e, s.heads) ensures HeadLeaves(e, s.heads)[i] < FIELD {
      var k := HeadKeyAt(e, s.heads, i);
    }
    NullifierLeavesInField(e, s.nullifiers);
  }

  lemma {:induction false} NullifierLeavesInField(e: Env, ns: seq<nat>)
    requires IntoField(e.h)
    ensures InField(NullifierLeaves(e, ns))
  {
    if ns != [] {
      NullifierLeavesInField(e, ns[..|ns| - 1]);
    }
  }

  /** The predecessor openings that the circuit checks: the old shared root opens at the
      prior head (or at an empty leaf) and at an EMPTY nullifier leaf. */
  lemma WitnessOpensOldRoot(e: Env, s: Snapshot, t: Credit, w: Witness)
    requires ValidEnv(e) && ValidSnapshot(e, s) && CreditAllowed(e, s, t) && WitnessFor(e, s, t, w)
    ensures w.oldGlobalRoot
         == e.h([Climb(e.h, if t.key in s.heads then HeadLeaf(e, t.key, s.heads[t.key]) else 0, t.key, w.accountSiblings),
                 Climb(e.h, 0, NullifierKey(e, t.nullifier), w.nullifierSiblings)])
    ensures w.predecessorPortfolioRoot
         == Climb(e.h, if w.isFirstToken then 0 else TokenLeaf(e, t.token, w.predecessorBalance), t.token, w.portfolioSiblings)
  {
    hide Climb, DenseNode, Abelian, InSubgroup, NullifierLeaves, HeadLeaves, DenseSiblings, HeadLeaf;
    var heads := HeadLeaves(e, s.heads);
    if t.key in s.heads {
      HeadLeafAt(e, s.heads, t.key);
    } else if Index(e, t.key) in heads {
      var k := HeadKeyAt(e, s.heads, Index(e, t.key));
    }
    UnreducedOpening(e, heads, t.key);
    UnreducedOpening(e, NullifierLeaves(e, s.nullifiers), NullifierKey(e, t.nullifier));
    ClimbFromOwnLeaf(e.h, TokenLeaves(e, PriorHead(s, t.key).portfolio), e.tokenDepth, t.token);
  }

  lemma {:induction false} UnreducedOpening(e: Env, leaves: map<nat, nat>, key: nat)
    ensures Climb(e.h, Leaf(leaves, Index(e, key)), key, DenseSiblings(e.h, e.depth, leaves, Index(e, key)))
         == DenseRoot(e.h, e.depth, leaves)
  {
    hide Climb, DenseNode;
    var i := Index(e, key);
    ClimbFromOwnLeaf(e.h, leaves, e.depth, i);
    ClimbUsesLowBits(e.h, Leaf(leaves, i), key, DenseSiblings(e.h, e.depth, leaves, i));
  }

  lemma EmptyRoot(e: Env)
    ensures GlobalRoot(e, EMPTY) == e.h([Zero(e.h, e.depth), Zero(e.h, e.depth)])
  {
    EmptyTree(e.h, e.depth, 0);
    assert HeadLeaves(e, map[]) == map[];
  }

  lemma {:induction false} EmptyTree(h: Hash, level: nat, index: nat)
    ensures DenseNode(h, map[], level, index) == Zero(h, level)
  {
    if level > 0 {
      EmptyTree(h, level - 1, 2 * index);
      EmptyTree(h, level - 1, 2 * index + 1);
    }
  }

  lemma {:induction false} RunExtends(e: Env, run: seq<Credit>, t: Credit)
    requires LegalRun(e, run) && ValidSnapshot(e, Replay(e, run)) && CreditAllowed(e, Replay(e, run), t) && t.memo < FIELD
    ensures LegalRun(e, run + [t]) && Replay(e, run + [t]) == Credited(e, Replay(e, run), t)
  {
    hide ValidSnapshot, CreditAllowed, Credited;
    assert Front(run + [t]) == run && Last(run + [t]) == t;
  }

  method OpenRoute(e: Env, tips: map<nat, seq<nat>>, q: Request) returns (r: Result<(nat, seq<nat>)>)
    ensures r.Ok? <==> RouteAccepted(e, tips, q)
    ensures r.Ok? ==> Climb(e.h, RouteLeaf(e, q.route), r.value.0, r.value.1) == q.tipRoot
  {
    hide RouteListed, RouteLeaf, Climb;
    if q.route.scan.x >= FIELD || q.route.scan.y >= FIELD {
      return Err("GPRU Poseidon inputs must be canonical BN254 fields");
    }
    if q.tipRoot >= FIELD || q.tipRoot !in tips {
      return Err("GPRU_HIDDEN_HEAD_WITNESS_UNAVAILABLE: no snapshot for the chain-selected root");
    }
    r := FindRoute(e, tips[q.tipRoot], RouteLeaf(e, q.route), q.tipRoot);
  }

  /** The body of `prepare_credit`: every check in order, then the witness fields. */
  method DeriveWitness(e: Env, tips: map<nat, seq<nat>>, tcaps: map<nat, Snapshot>, q: Request, delta: nat, ephemeral: nat)
    returns (r: Result<Witness>)
    requires ValidEnv(e) && 0 < delta < SUBORDER
    ensures r.Ok? <==> Accepts(e, tips, tcaps, q)
    ensures r.Ok? ==> WitnessFor(e, tcaps[q.oldRoot], CreditOf(q, delta, 0), r.value)
    ensures r.Ok? ==> Climb(e.h, RouteLeaf(e, q.route), r.value.tipRouteIndex, r.value.tipSiblings) == q.tipRoot
    ensures r.Ok? ==> CarryEquations(r.value.cipher, Mul(e.c, q.route.scan, ephemeral).x, delta)
  {
    hide Climb, Mul, RouteLeaf, CarryEquations, WitnessFor, ValidEnv, RouteAccepted, CreditAccepted, ArgumentsOk, Opens,
      CreditOf, ValidHeads, ValidNullifiers, GlobalRoot, IndicesDistinct;
    if !ArgumentsOk(q) {
      return Err("Hidden-head credit requires a positive u32 token, a u64 amount and a nonzero authorization");
    }
    var route := OpenRoute(e, tips, q);
    if route.Err? {
      return Err(route.reason);
    }
    var trees := OpenSnapshot(e, tcaps, q.oldRoot);
    if trees.Err? {
      return Err(trees.reason);
    }
    r := DeriveFromTrees(e, tcaps[q.oldRoot], q, delta, ephemeral, route.value, trees.value);
  }

  /** The successor point, by double-and-add. */
  method Successor(e: Env, predecessor: Point, amount: nat, delta: nat) returns (p: Point)
    requires ValidEnv(e)
    ensures p == e.c.add(e.c.add(predecessor, Mul(e.c, e.base8, amount)), Mul(e.c, e.balanceH, delta))
  {
    hide Abelian, Mul;
    var g := BabyjubMul(e.c, e.base8, amount);
    var b := BabyjubMul(e.c, e.balanceH, delta);
    p := e.c.add(e.c.add(predecessor, g), b);
  }

  /** Portfolio root, siblings and successor root of one head. */
  method OpenPortfolio(e: Env, portfolio: map<nat, Point>, token: nat, successor: Point)
    returns (root: nat, siblings: seq<nat>, successorRoot: nat)
    requires ValidEnv(e) && ValidPortfolio(e, portfolio) && TokenOk(token)
    ensures root == PortfolioRoot(e, portfolio)
    ensures siblings == DenseSiblings(e.h, e.tokenDepth, TokenLeaves(e, portfolio), token)
    ensures successorRoot == PortfolioRoot(e, portfolio[token := successor])
  {
    hide DenseNode, Climb, Abelian, InSubgroup, TokenLeaves, Represents, DenseSiblings, DenseRoot;
    var tree := RebuildPortfolio(e, portfolio);
    RootOf(e.h, tree.value, e.tokenDepth, TokenLeaves(e, portfolio));
    root := tree.value.root;
    siblings := Siblings(e.h, tree.value, TokenLeaves(e, portfolio), token);
    successorRoot := PathRoot(e.h, TokenLeaf(e, token, successor), token, siblings);
    PortfolioClimb(e, portfolio, token, successor);
  }

  /** The rest of `prepare_credit`, once the route and the snapshot are open. */
  method DeriveFromTrees(e: Env, s: Snapshot, q: Request, delta: nat, ephemeral: nat, route: (nat, seq<nat>), o: Opened)
    returns (r: Result<Witness>)
    requires ValidEnv(e) && 0 < delta < SUBORDER && ValidSnapshot(e, s)
    requires ArgumentsOk(q) && GlobalRoot(e, s) == q.oldRoot && Opens(e, s, o)
    ensures r.Ok? <==> CreditAccepted(e, s, q)
    ensures r.Ok? ==> WitnessFor(e, s, CreditOf(q, delta, 0), r.value)
    ensures r.Ok? ==> r.value.tipRouteIndex == route.0 && r.value.tipSiblings == route.1
    ensures r.Ok? ==> CarryEquations(r.value.cipher, Mul(e.c, q.route.scan, ephemeral).x, delta)
  {
    hide DenseNode, Climb, Abelian, InSubgroup, HeadLeaves, NullifierLeaves, TokenLeaves, HeadLeaf,
      Represents, CarryEquations, Mul, GlobalRoot, NullifierKey, DenseSiblings, DenseRoot, IntoField;
    var key := RouteKey(q.route);
    var n := q.nullifier;
    if n >= FIELD {
      return Err("Hidden-head witness field is outside BN254");
    }
    if n == 0 || Slot(e, n) in o.nullifierLeaves {
      return Err("TCAP funding nullifier has already been used");
    }
    if key !in s.heads && Index(e, key) in o.headLeaves {
      ghost var k := HeadKeyAt(e, s.heads, Index(e, key));
      return Err("Recipient route collides with an existing TCAP head");
    }
    if key !in s.heads {
      SlotIsFree(e, s.heads, key);
    }
    var head := if key in s.heads then s.heads[key] else Head(0, 0, 0, map[]);
    if head.sequence == U64_MAX {
      return Err("TCAP hidden-head sequence is exhausted");
    }
    assert ValidPortfolio(e, head.portfolio);
    var predecessor := if q.token in head.portfolio then head.portfolio[q.token] else IDENTITY;
    SubgroupOnCurve(e.c, e.base8);
    var cipher := EncryptDelta(e.c, e.base8, q.route.scan, delta, ephemeral);
    if cipher.Err? {
      return Err(cipher.reason);
    }
    var successor := Successor(e, predecessor, q.amount, delta);
    var root, siblings, successorRoot := OpenPortfolio(e, head.portfolio, q.token, successor);
    var action := e.h([1, q.token, q.amount, q.authorization, n]);
    RootOf(e.h, o.headTree, e.depth, o.headLeaves);
    RootOf(e.h, o.nullifierTree, e.depth, o.nullifierLeaves);
    var accountSiblings := Siblings(e.h, o.headTree, o.headLeaves, Index(e, key));
    var nullifierSiblings := Siblings(e.h, o.nullifierTree, o.nullifierLeaves, Slot(e, n));
    r := Ok(Witness(q.oldRoot, action, n, successorRoot, successor, cipher.value, route.0, route.1, key, head.sequence,
                    head.memo, head.action, root, accountSiblings, q.token !in head.portfolio, predecessor,
                    siblings, nullifierSiblings, q.token, q.amount, q.authorization, delta));
  }

  // ------------------------------------------------------------------- store

  /** The dictionary handed from `prepare_credit` to `finish_credit` and `save_candidate`. */
  class Prepared {
    const w: Witness
    var memoCommitment: Option<nat>
    var newGlobalRoot: Option<nat>
    var state: Snapshot

    constructor (w: Witness, state: Snapshot)
      ensures this.w == w && this.state == state
      ensures memoCommitment == None && newGlobalRoot == None
    {
      this.w, this.state := w, state;
      memoCommitment, newGlobalRoot := None, None;
    }
  }

  lemma WitnessRoot(e: Env, s: Snapshot, t: Credit, w: Witness)
    requires IndicesDistinct(e, s.heads) && WitnessFor(e, s, t, w)
    ensures w.oldGlobalRoot == GlobalRoot(e, s)
  {
  }

  /** The edited heads still have distinct indices, so the edited snapshot has a root, inside the field. */
  lemma CreditedDistinct(e: Env, s: Snapshot, t: Credit)
    requires ValidEnv(e) && ValidSnapshot(e, s) && CreditAllowed(e, s, t)
    ensures IndicesDistinct(e, Credited(e, s, t).heads) && GlobalRoot(e, Credited(e, s, t)) < FIELD
  {
    hide Abelian, InSubgroup;
    IncrementalEqualsRebuilt(e, s, t);
  }

  /** The hash maps the edited snapshot to its predecessor's root, or to the root of a different file. */
  ghost predicate RootCollides(e: Env, tcaps: map<nat, Snapshot>, oldRoot: nat, after: Snapshot) {
    IndicesDistinct(e, after.heads)
    && (GlobalRoot(e, after) == oldRoot || (GlobalRoot(e, after) in tcaps && tcaps[GlobalRoot(e, after)] != after))
  }

  class HiddenHeadWitnessStore {
    const e: Env
    var tips: map<nat, seq<nat>>       // tip-<root>.json
    var tcaps: map<nat, Snapshot>      // tcap-<root>.json
    ghost var runs: map<nat, seq<Credit>>  // the credits behind each TCAP file

    /** Every TCAP file was reached by a legal run, and rebuilds to the root that names it. */
    ghost predicate Valid()
      reads this
    {
      && ValidEnv(e)
      && runs.Keys == tcaps.Keys
      && forall r :: r in tcaps ==>
           LegalRun(e, runs[r]) && tcaps[r] == Replay(e, runs[r]) && RunRoot(e, runs[r]) == r
    }

    constructor (e: Env, tips: map<nat, seq<nat>>)
      requires ValidEnv(e)
      ensures Valid() && this.e == e && this.tips == tips
      ensures tcaps == map[GlobalRoot(e, EMPTY) := EMPTY]
    {
      this.e, this.tips := e, tips;
      var none := e.h([Zero(e.h, e.depth), Zero(e.h, e.depth)]);
      tcaps := map[none := EMPTY];
      runs := map[none := []];
      EmptyRoot(e);
    }

    /** `prepare_credit`; the sampled delta and ephemeral scalar are arguments. */
    method PrepareCredit(q: Request, delta: nat, ephemeral: nat) returns (r: Result<Prepared>)
      requires ValidEnv(e) && 0 < delta < SUBORDER
      ensures r.Ok? <==> Accepts(e, tips, tcaps, q)
      ensures r.Ok? ==> fresh(r.value) && r.value.memoCommitment == None && r.value.newGlobalRoot == None
      ensures r.Ok? ==> r.value.state == tcaps[q.oldRoot]
      ensures r.Ok? ==> WitnessFor(e, tcaps[q.oldRoot], CreditOf(q, delta, 0), r.value.w)
      ensures r.Ok? ==> Climb(e.h, RouteLeaf(e, q.route), r.value.w.tipRouteIndex, r.value.w.tipSiblings) == q.tipRoot
      ensures r.Ok? ==> CarryEquations(r.value.w.cipher, Mul(e.c, q.route.scan, ephemeral).x, delta)
    {
      hide DenseNode, Climb, ValidEnv, WitnessFor, CarryEquations, Mul;
      var w := DeriveWitness(e, tips, tcaps, q, delta, ephemeral);
      if w.Err? {
        return Err(w.reason);
      }
      var p := new Prepared(w.value, tcaps[q.oldRoot]);
      r := Ok(p);
    }

    /** `finish_credit`: on success the new root is the root of the edited snapshot. */
    method FinishCredit(p: Prepared, memo: nat, ghost t: Credit) returns (r: Result<()>)
      requires ValidEnv(e) && ValidSnapshot(e, p.state) && CreditAllowed(e, p.state, t) && WitnessFor(e, p.state, t, p.w)
      modifies p
      ensures r.Ok? <==> memo < FIELD && GlobalRoot(e, Credited(e, old(p.state), t.(memo := memo))) != p.w.oldGlobalRoot
      ensures r.Ok? ==> p.state == Credited(e, old(p.state), t.(memo := memo))
      ensures r.Ok? ==> p.newGlobalRoot == Some(GlobalRoot(e, p.state))
      ensures r.Ok? ==> p.memoCommitment == Some(memo)
      ensures r.Err? ==> p.state == old(p.state)
    {
      hide Climb, DenseNode, Abelian, InSubgroup, NullifierLeaves, HeadLeaves, TokenLeaves, DenseSiblings, DenseRoot, HeadOk;
      if memo >= FIELD {
        return Err("Hidden-head witness field is outside BN254");
      }
      var w := p.w;
      ghost var s, t' := p.state, t.(memo := memo);
      p.memoCommitment := Some(memo);
      var key := w.accountPathKey;
      var nextLeaf := e.h([key, w.priorSequence + 1, memo, w.actionCommitment, w.successorPortfolioRoot]);
      var nextHeadRoot := PathRoot(e.h, nextLeaf, key, w.accountSiblings);
      var nullifierKey := e.h([w.nullifier]);
      var nextNullifierRoot := PathRoot(e.h, nullifierKey, nullifierKey, w.nullifierSiblings);
      var root := e.h([nextHeadRoot, nextNullifierRoot]);
      p.newGlobalRoot := Some(root);
      PortfolioClimb(e, PriorHead(s, t.key).portfolio, t.token, SuccessorPoint(e, s, t));
      IncrementalEqualsRebuilt(e, s, t');
      if root == w.oldGlobalRoot {
        return Err("TCAP successor must change the shared root");
      }
      var prior := if key in p.state.heads then p.state.heads[key].portfolio else map[];
      p.state := Snapshot(
        p.state.heads[key := Head(w.priorSequence + 1, memo, w.actionCommitment, prior[w.assetId := w.successorBalance])],
        p.state.nullifiers + [w.nullifier]);
      r := Ok(());
    }

    /** `save_candidate`: publish without overwriting. */
    method SaveCandidate(p: Prepared, ghost oldRoot: nat, ghost t: Credit) returns (r: Result<()>)
      requires Valid() && oldRoot in tcaps
      requires ValidSnapshot(e, tcaps[oldRoot]) && CreditAllowed(e, tcaps[oldRoot], t) && t.memo < FIELD
      requires p.state == Credited(e, tcaps[oldRoot], t)
      requires IndicesDistinct(e, p.state.heads) && p.newGlobalRoot == Some(GlobalRoot(e, p.state))
      modifies this
      ensures Valid() && tips == old(tips)
      ensures r.Ok? <==> GlobalRoot(e, p.state) in old(tcaps) ==> old(tcaps)[GlobalRoot(e, p.state)] == p.state
      ensures tcaps == if r.Ok? then old(tcaps)[GlobalRoot(e, p.state) := p.state] else old(tcaps)
      ensures forall root :: root in old(tcaps) ==> root in tcaps && tcaps[root] == old(tcaps)[root]
    {
      hide Replay, LegalRun, GlobalRoot, IndicesDistinct, ValidEnv, ValidSnapshot, CreditAllowed, Credited;
      var root := p.newGlobalRoot.value;
      if root in tcaps {
        if tcaps[root] != p.state {
          return Err("A different candidate snapshot already exists for this root");
        }
      } else {
        ghost var run := runs[oldRoot] + [t];
        RunExtends(e, runs[oldRoot], t);
        runs := runs[root := run];
        tcaps := tcaps[root := p.state];
      }
      r := Ok(());
    }

    /** Prepare, finish and publish one credit, in the order of the Node's settlement route, with a proof
        attempt in between. A published file rebuilds to the root that names it, and `PrepareCredit` accepts
        it as a snapshot again exactly when the memo and action commitments are non-zero. */
    method PublishCredit(q: Request, delta: nat, ephemeral: nat, memo: nat, proved: bool) returns (r: Result<nat>)
      requires Valid() && 0 < delta < SUBORDER
      modifies this
      ensures Valid() && tips == old(tips)
      ensures r.Ok? ==> Accepts(e, tips, old(tcaps), q) && memo < FIELD && proved
      ensures r.Ok? ==> r.value != q.oldRoot
      ensures r.Ok? ==> tcaps == old(tcaps)[r.value := Credited(e, old(tcaps)[q.oldRoot], CreditOf(q, delta, memo))]
      ensures r.Ok? ==> (SnapshotAt(e, tcaps, r.value) <==> memo != 0 && ActionCommitment(e, CreditOf(q, delta, memo)) != 0)
      ensures r.Err? ==> tcaps == old(tcaps)
      ensures r.Err? && Accepts(e, tips, old(tcaps), q) && memo < FIELD && proved
        ==> RootCollides(e, old(tcaps), q.oldRoot, Credited(e, old(tcaps)[q.oldRoot], CreditOf(q, delta, memo)))
    {
      hide GlobalRoot, IndicesDistinct, ValidEnv, ValidSnapshot, Credited, WitnessFor, RouteAccepted, Climb, CarryEquations, Mul,
        Replay, LegalRun, ActionCommitment;
      var prepared := PrepareCredit(q, delta, ephemeral);
      if prepared.Err? {
        return Err(prepared.reason);
      }
      var p := prepared.value;
      ghost var s, t := tcaps[q.oldRoot], CreditOf(q, delta, 0);
      RunIndicesDistinct(e, runs[q.oldRoot]);
      WitnessRoot(e, s, t, p.w);
      var finished := FinishCredit(p, memo, t);
      CreditedDistinct(e, s, t.(memo := memo));
      if finished.Err? {
        return Err(finished.reason);
      }
      if !proved {
        return Err("proof");
      }
      var saved := SaveCandidate(p, q.oldRoot, t.(memo := memo));
      if saved.Err? {
        return Err(saved.reason);
      }
      CreditedValidIff(e, s, t.(memo := memo));
      r := Ok(p.newGlobalRoot.value);
    }
  }
}
