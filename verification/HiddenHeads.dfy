/** Snapshots of the hidden-head maps: what a snapshot must satisfy, the shared
    root it rebuilds to, and the credit that edits it.

    The tree depths are parameters (the deployed store uses 128 for heads and
    nullifiers and 32 for portfolios and routes). Hex and decimal strings are
    represented by the numbers they denote. */
module HiddenHeads {
  import opened SparseTrees
  import opened Groups
  import opened PointGroup

  const U32_MAX := 0xFFFF_FFFF
  const U64_MAX := 0xFFFF_FFFF_FFFF_FFFF

  /** Hash, curve, the two balance generators and the tree depths. */
  datatype Env = Env(h: Hash, c: Curve, base8: Point, balanceH: Point, depth: nat, tokenDepth: nat, routeDepth: nat)

  ghost predicate ValidEnv(e: Env) {
    && IntoField(e.h) && Abelian(e.c) && CurveShape(e.c)
    && InSubgroup(e.c, e.base8) && InSubgroup(e.c, e.balanceH)
    && U32_MAX < Pow2(e.tokenDepth)
  }

  datatype Head = Head(sequence: nat, memo: nat, action: nat, portfolio: map<nat, Point>)

  datatype Snapshot = Snapshot(heads: map<nat, Head>, nullifiers: seq<nat>)

  const EMPTY := Snapshot(map[], [])

  function Index(e: Env, key: nat): nat {
    key % Pow2(e.depth)
  }

  // ------------------------------------------------------------- portfolios

  predicate TokenOk(token: nat) {
    0 < token <= U32_MAX
  }

  ghost predicate ValidPortfolio(e: Env, portfolio: map<nat, Point>) {
    forall token :: token in portfolio ==> TokenOk(token) && InSubgroup(e.c, portfolio[token])
  }

  function TokenLeaf(e: Env, token: nat, p: Point): nat {
    e.h([token, p.x, p.y])
  }

  function TokenLeaves(e: Env, portfolio: map<nat, Point>): map<nat, nat> {
    map token | token in portfolio :: TokenLeaf(e, token, portfolio[token])
  }

  function PortfolioRoot(e: Env, portfolio: map<nat, Point>): nat {
    DenseRoot(e.h, e.tokenDepth, TokenLeaves(e, portfolio))
  }

  // ------------------------------------------------------------------ heads

  ghost predicate HeadOk(e: Env, key: nat, head: Head) {
    && key < FIELD
    && 0 < head.sequence <= U64_MAX
    && 0 < head.memo < FIELD && 0 < head.action < FIELD
    && ValidPortfolio(e, head.portfolio)
  }

  ghost predicate IndicesDistinct(e: Env, heads: map<nat, Head>) {
    forall k, l :: k in heads && l in heads && Index(e, k) == Index(e, l) ==> k == l
  }

  ghost predicate ValidHeads(e: Env, heads: map<nat, Head>) {
    && IndicesDistinct(e, heads)
    && forall key :: key in heads ==> HeadOk(e, key, heads[key])
  }

  function HeadLeaf(e: Env, key: nat, head: Head): nat {
    e.h([key, head.sequence, head.memo, head.action, PortfolioRoot(e, head.portfolio)])
  }

  ghost function HeadLeaves(e: Env, heads: map<nat, Head>): (leaves: map<nat, nat>)
    requires IndicesDistinct(e, heads)
    ensures forall i :: i in leaves ==> i < Pow2(e.depth)
  {
    map key | key in heads :: Index(e, key) := HeadLeaf(e, key, heads[key])
  }

  /** A key may take a slot that is free or already its own. */
  ghost predicate SlotFree(e: Env, heads: map<nat, Head>, key: nat) {
    key in heads || forall k :: k in heads ==> Index(e, k) != Index(e, key)
  }

  lemma HeadLeafAt(e: Env, heads: map<nat, Head>, key: nat)
    requires IndicesDistinct(e, heads) && key in heads
    ensures Index(e, key) in HeadLeaves(e, heads) && HeadLeaves(e, heads)[Index(e, key)] == HeadLeaf(e, key, heads[key])
  {
    hide HeadLeaf, Index;
  }

  lemma HeadKeyAt(e: Env, heads: map<nat, Head>, i: nat) returns (key: nat)
    requires IndicesDistinct(e, heads) && i in HeadLeaves(e, heads)
    ensures key in heads && Index(e, key) == i && HeadLeaves(e, heads)[i] == HeadLeaf(e, key, heads[key])
  {
    hide HeadLeaf, Index;
    key :| key in heads && Index(e, key) == i;
  }

  lemma HeadLeavesPut(e: Env, heads: map<nat, Head>, key: nat, head: Head)
    requires IndicesDistinct(e, heads) && SlotFree(e, heads, key)
    ensures IndicesDistinct(e, heads[key := head])
    ensures HeadLeaves(e, heads[key := head]) == HeadLeaves(e, heads)[Index(e, key) := HeadLeaf(e, key, head)]
  {
    hide HeadLeaf, Index, HeadLeaves;
    var heads' := heads[key := head];
    var put := HeadLeaves(e, heads)[Index(e, key) := HeadLeaf(e, key, head)];
    forall i | i in HeadLeaves(e, heads') ensures i in put && put[i] == HeadLeaves(e, heads')[i] {
      var k := HeadKeyAt(e, heads', i);
      if k != key {
        HeadLeafAt(e, heads, k);
      }
    }
    forall i | i in put ensures i in HeadLeaves(e, heads') {
      if i == Index(e, key) {
        HeadLeafAt(e, heads', key);
      } else {
        var k := HeadKeyAt(e, heads, i);
        HeadLeafAt(e, heads', k);
      }
    }
  }

  // -------------------------------------------------------------- nullifiers

  function NullifierKey(e: Env, n: nat): nat {
    e.h([n])
  }

  /** Leaf position of a nullifier. */
  function Slot(e: Env, n: nat): nat {
    Index(e, NullifierKey(e, n))
  }

  ghost predicate ValidNullifiers(e: Env, ns: seq<nat>) {
    && (forall i :: 0 <= i < |ns| ==> 0 < ns[i] < FIELD)
    && (forall i, j :: 0 <= i < j < |ns| ==> Slot(e, ns[i]) != Slot(e, ns[j]))
  }

  function NullifierLeaves(e: Env, ns: seq<nat>): (leaves: map<nat, nat>)
    ensures forall i :: i in leaves ==> i < Pow2(e.depth)
  {
    if ns == [] then map[]
    else
      var n := ns[|ns| - 1];
      NullifierLeaves(e, ns[..|ns| - 1])[Slot(e, n) := NullifierKey(e, n)]
  }

  lemma {:induction false} NullifierTakesSlot(e: Env, ns: seq<nat>, i: nat)
    requires i < |ns|
    ensures Slot(e, ns[i]) in NullifierLeaves(e, ns)
  {
    hide Slot;
    if i < |ns| - 1 {
      NullifierTakesSlot(e, ns[..|ns| - 1], i);
    }
  }

  lemma {:induction false} NullifierAtSlot(e: Env, ns: seq<nat>, slot: nat) returns (i: nat)
    requires slot in NullifierLeaves(e, ns)
    ensures i < |ns| && Slot(e, ns[i]) == slot
  {
    hide Slot;
    i := |ns| - 1;
    if slot != Slot(e, ns[i]) {
      i := NullifierAtSlot(e, ns[..|ns| - 1], slot);
    }
  }

  lemma {:induction false} NullifierLeavesAppend(e: Env, ns: seq<nat>, n: nat)
    ensures NullifierLeaves(e, ns + [n]) == NullifierLeaves(e, ns)[Slot(e, n) := NullifierKey(e, n)]
  {
    assert (ns + [n])[..|ns|] == ns;
  }

  // -------------------------------------------------------------- shared root

  /** Every structural check that `prepare_credit` makes on the TCAP snapshot. */
  ghost predicate ValidSnapshot(e: Env, s: Snapshot) {
    ValidHeads(e, s.heads) && ValidNullifiers(e, s.nullifiers)
  }

  /** The root that `prepare_credit` rebuilds from nothing but the snapshot. */
  ghost function GlobalRoot(e: Env, s: Snapshot): nat
    requires IndicesDistinct(e, s.heads)
  {
    e.h([DenseRoot(e.h, e.depth, HeadLeaves(e, s.heads)), DenseRoot(e.h, e.depth, NullifierLeaves(e, s.nullifiers))])
  }

  // ------------------------------------------------------------------- credits

  /** One credit, with the blinding delta that the store samples. */
  datatype Credit = Credit(key: nat, token: nat, amount: nat, authorization: nat, nullifier: nat, delta: nat, memo: nat)

  function PriorHead(s: Snapshot, key: nat): Head {
    if key in s.heads then s.heads[key] else Head(0, 0, 0, map[])
  }

  function PriorPoint(s: Snapshot, key: nat, token: nat): Point {
    var portfolio := PriorHead(s, key).portfolio;
    if token in portfolio then portfolio[token] else IDENTITY
  }

  /** predecessor + amount·G + delta·H. */
  function SuccessorPoint(e: Env, s: Snapshot, t: Credit): Point {
    e.c.add(e.c.add(PriorPoint(s, t.key, t.token), Mul(e.c, e.base8, t.amount)), Mul(e.c, e.balanceH, t.delta))
  }

  function ActionCommitment(e: Env, t: Credit): nat {
    e.h([1, t.token, t.amount, t.authorization, t.nullifier])
  }

  function NextHead(e: Env, s: Snapshot, t: Credit): Head {
    var prior := PriorHead(s, t.key);
    Head(prior.sequence + 1, t.memo, ActionCommitment(e, t), prior.portfolio[t.token := SuccessorPoint(e, s, t)])
  }

  /** The snapshot after `finish_credit`. */
  function Credited(e: Env, s: Snapshot, t: Credit): Snapshot {
    Snapshot(s.heads[t.key := NextHead(e, s, t)], s.nullifiers + [t.nullifier])
  }

  /** What `prepare_credit` demands of the credit against a valid snapshot. */
  ghost predicate CreditAllowed(e: Env, s: Snapshot, t: Credit) {
    && TokenOk(t.token) && 0 < t.amount <= U64_MAX
    && 0 < t.authorization < FIELD
    && t.key < FIELD && SlotFree(e, s.heads, t.key)
    && PriorHead(s, t.key).sequence != U64_MAX
    && 0 < t.nullifier < FIELD
    && Slot(e, t.nullifier) !in NullifierLeaves(e, s.nullifiers)
  }

  // ------------------------------------------------ incremental equals rebuilt

  /** The new shared root as `finish_credit` computes it: three nested climbs over the
      siblings of the OLD trees, with the unreduced head key and nullifier key. */
  ghost function IncrementalRoot(e: Env, s: Snapshot, t: Credit): nat
    requires IndicesDistinct(e, s.heads)
  {
    var prior := PriorHead(s, t.key);
    var nullifierKey := NullifierKey(e, t.nullifier);
    var portfolioRoot := Climb(e.h, TokenLeaf(e, t.token, SuccessorPoint(e, s, t)), t.token,
                               DenseSiblings(e.h, e.tokenDepth, TokenLeaves(e, prior.portfolio), t.token));
    var leaf := e.h([t.key, prior.sequence + 1, t.memo, ActionCommitment(e, t), portfolioRoot]);
    e.h([Climb(e.h, leaf, t.key, DenseSiblings(e.h, e.depth, HeadLeaves(e, s.heads), Index(e, t.key))),
         Climb(e.h, nullifierKey, nullifierKey,
               DenseSiblings(e.h, e.depth, NullifierLeaves(e, s.nullifiers), Index(e, nullifierKey)))])
  }

  /** Climbing with an unreduced key from the siblings of its index rebuilds the tree. */
  lemma {:induction false} UnreducedClimb(e: Env, leaves: map<nat, nat>, key: nat, v: nat)
    ensures Climb(e.h, v, key, DenseSiblings(e.h, e.depth, leaves, Index(e, key)))
         == DenseRoot(e.h, e.depth, leaves[Index(e, key) := v])
  {
    var siblings := DenseSiblings(e.h, e.depth, leaves, Index(e, key));
    ClimbUsesLowBits(e.h, v, key, siblings);
    ClimbIsRebuiltRoot(e.h, leaves, e.depth, Index(e, key), v);
  }

  lemma {:induction false} PortfolioClimb(e: Env, portfolio: map<nat, Point>, token: nat, p: Point)
    requires ValidEnv(e) && TokenOk(token)
    ensures Climb(e.h, TokenLeaf(e, token, p), token, DenseSiblings(e.h, e.tokenDepth, TokenLeaves(e, portfolio), token))
         == PortfolioRoot(e, portfolio[token := p])
  {
    hide Climb, DenseNode, Abelian, InSubgroup;
    ClimbIsRebuiltRoot(e.h, TokenLeaves(e, portfolio), e.tokenDepth, token, TokenLeaf(e, token, p));
    assert TokenLeaves(e, portfolio[token := p]) == TokenLeaves(e, portfolio)[token := TokenLeaf(e, token, p)];
  }

  /** The root computed from old siblings is the root rebuilt from the edited snapshot. */
  lemma IncrementalEqualsRebuilt(e: Env, s: Snapshot, t: Credit)
    requires ValidEnv(e) && ValidSnapshot(e, s) && CreditAllowed(e, s, t)
    ensures IndicesDistinct(e, Credited(e, s, t).heads)
    ensures IncrementalRoot(e, s, t) == GlobalRoot(e, Credited(e, s, t))
  {
    hide Climb, DenseNode, Abelian, InSubgroup, HeadLeaves, NullifierLeaves, TokenLeaves, DenseSiblings, DenseRoot;
    var next := NextHead(e, s, t);
    PortfolioClimb(e, PriorHead(s, t.key).portfolio, t.token, SuccessorPoint(e, s, t));
    UnreducedClimb(e, HeadLeaves(e, s.heads), t.key, HeadLeaf(e, t.key, next));
    HeadLeavesPut(e, s.heads, t.key, next);
    var nullifierKey := NullifierKey(e, t.nullifier);
    UnreducedClimb(e, NullifierLeaves(e, s.nullifiers), nullifierKey, nullifierKey);
    NullifierLeavesAppend(e, s.nullifiers, t.nullifier);
  }

  lemma PriorPointValid(e: Env, s: Snapshot, key: nat, token: nat)
    requires ValidEnv(e) && ValidSnapshot(e, s)
    ensures InSubgroup(e.c, PriorPoint(s, key, token))
  {
    hide Abelian, InSubgroup, IndicesDistinct, ValidNullifiers;
    IdentityInSubgroup(e.c);
  }

  lemma SuccessorPointValid(e: Env, s: Snapshot, t: Credit)
    requires ValidEnv(e) && ValidSnapshot(e, s)
    ensures InSubgroup(e.c, SuccessorPoint(e, s, t))
  {
    hide Abelian, InSubgroup, ValidSnapshot;
    PriorPointValid(e, s, t.key, t.token);
    MulInSubgroup(e.c, e.base8, t.amount);
    MulInSubgroup(e.c, e.balanceH, t.delta);
    AddInSubgroup(e.c, PriorPoint(s, t.key, t.token), Mul(e.c, e.base8, t.amount));
    AddInSubgroup(e.c, e.c.add(PriorPoint(s, t.key, t.token), Mul(e.c, e.base8, t.amount)), Mul(e.c, e.balanceH, t.delta));
  }

  lemma {:induction false} CreditedNullifiersValid(e: Env, ns: seq<nat>, n: nat)
    requires ValidNullifiers(e, ns) && 0 < n < FIELD
    requires Slot(e, n) !in NullifierLeaves(e, ns)
    ensures ValidNullifiers(e, ns + [n])
  {
    hide Slot;
    forall i | 0 <= i < |ns| ensures Slot(e, ns[i]) != Slot(e, n) {
      NullifierTakesSlot(e, ns, i);
    }
  }

  /** The edited snapshot passes every structural check again exactly when the memo and
      action commitments are non-zero; `finish_credit` itself does not test them. */
  lemma CreditedValidIff(e: Env, s: Snapshot, t: Credit)
    requires ValidEnv(e) && ValidSnapshot(e, s) && CreditAllowed(e, s, t) && t.memo < FIELD
    ensures ValidSnapshot(e, Credited(e, s, t)) <==> t.memo != 0 && ActionCommitment(e, t) != 0
  {
    hide Abelian, InSubgroup, NullifierLeaves, HeadLeaves, ActionCommitment, SuccessorPoint, Index;
    assert ActionCommitment(e, t) < FIELD by { ActionInField(e, t); }
    SuccessorPointValid(e, s, t);
    HeadLeavesPut(e, s.heads, t.key, NextHead(e, s, t));
    CreditedNullifiersValid(e, s.nullifiers, t.nullifier);
    var next := NextHead(e, s, t);
    var heads' := s.heads[t.key := next];
    assert HeadOk(e, t.key, next) <==> t.memo != 0 && ActionCommitment(e, t) != 0;
    assert t.key in heads' && heads'[t.key] == next;
  }

  /** A first credit that `finish_credit` completes with memo commitment zero: the snapshot that it leaves
      is refused from then on. */
  lemma ZeroMemoRefused(e: Env)
    requires ValidEnv(e)
    ensures
      var t := Credit(1, 1, 1, 1, 1, 1, 0);
      && ValidSnapshot(e, EMPTY) && CreditAllowed(e, EMPTY, t)
      && IncrementalRoot(e, EMPTY, t) == GlobalRoot(e, Credited(e, EMPTY, t))
      && !ValidSnapshot(e, Credited(e, EMPTY, t))
  {
    hide Abelian, InSubgroup, ActionCommitment, SuccessorPoint, Index;
    var t := Credit(1, 1, 1, 1, 1, 1, 0);
    assert EMPTY.heads == map[] && EMPTY.nullifiers == [];
    IncrementalEqualsRebuilt(e, EMPTY, t);
    CreditedValidIff(e, EMPTY, t);
  }

  lemma ActionInField(e: Env, t: Credit)
    requires IntoField(e.h)
    ensures ActionCommitment(e, t) < FIELD
  {
  }
}
