/** Whole runs of credits from the empty snapshot. */
module HiddenHeadRuns {
  import opened SparseTrees
  import opened Groups
  import opened PointGroup
  import opened HiddenHeads

  function Last(ts: seq<Credit>): Credit
    requires ts != []
  {
    ts[|ts| - 1]
  }

  function Front(ts: seq<Credit>): seq<Credit>
    requires ts != []
  {
    ts[..|ts| - 1]
  }

  function Replay(e: Env, ts: seq<Credit>): Snapshot {
    if ts == [] then EMPTY else Credited(e, Replay(e, Front(ts)), Last(ts))
  }

  /** Every credit was prepared against a snapshot that passed the structural checks. */
  ghost predicate LegalRun(e: Env, ts: seq<Credit>) {
    ts != [] ==>
      var s := Replay(e, Front(ts));
      LegalRun(e, Front(ts)) && ValidSnapshot(e, s) && CreditAllowed(e, s, Last(ts)) && Last(ts).memo < FIELD
  }

  /** A snapshot reached by a run is accepted again exactly when its last credit carried
      non-zero commitments. */
  lemma {:induction false} RunValidIff(e: Env, ts: seq<Credit>)
    requires ValidEnv(e) && LegalRun(e, ts)
    ensures ValidSnapshot(e, Replay(e, ts)) <==> ts == [] || (Last(ts).memo != 0 && ActionCommitment(e, Last(ts)) != 0)
  {
    hide ValidEnv, ActionCommitment, ValidSnapshot, CreditAllowed, Credited;
    if ts == [] {
      EmptyValid(e);
    } else {
      CreditedValidIff(e, Replay(e, Front(ts)), Last(ts));
    }
  }

  lemma EmptyValid(e: Env)
    ensures ValidSnapshot(e, EMPTY)
  {
  }

  lemma {:induction false} RunIndicesDistinct(e: Env, ts: seq<Credit>)
    requires ValidEnv(e) && LegalRun(e, ts)
    ensures IndicesDistinct(e, Replay(e, ts).heads)
  {
    if ts != [] {
      hide ValidEnv, IndicesDistinct, NextHead;
      HeadLeavesPut(e, Replay(e, Front(ts)).heads, Last(ts).key, NextHead(e, Replay(e, Front(ts)), Last(ts)));
    }
  }

  /** The root that a run leads to. */
  ghost function RunRoot(e: Env, ts: seq<Credit>): nat
    requires ValidEnv(e) && LegalRun(e, ts)
  {
    RunIndicesDistinct(e, ts);
    GlobalRoot(e, Replay(e, ts))
  }

  // --------------------------------------------------------------- nullifiers

  function NullifiersOf(ts: seq<Credit>): (ns: seq<nat>)
    ensures |ns| == |ts| && forall i :: 0 <= i < |ts| ==> ns[i] == ts[i].nullifier
  {
    if ts == [] then [] else NullifiersOf(Front(ts)) + [Last(ts).nullifier]
  }

  lemma {:induction false} RunNullifiers(e: Env, ts: seq<Credit>)
    ensures Replay(e, ts).nullifiers == NullifiersOf(ts)
  {
    if ts != [] {
      RunNullifiers(e, Front(ts));
    }
  }

  /** No nullifier is ever used by two credits of a run. */
  lemma {:induction false} NoNullifierTwice(e: Env, ts: seq<Credit>, i: nat, j: nat)
    requires LegalRun(e, ts) && i < j < |ts|
    ensures ts[i].nullifier != ts[j].nullifier
  {
    hide ValidSnapshot, Slot, Credited, NextHead;
    if j < |ts| - 1 {
      NoNullifierTwice(e, Front(ts), i, j);
    } else {
      RunNullifiers(e, Front(ts));
      NullifierTakesSlot(e, NullifiersOf(Front(ts)), i);
    }
  }

  // ------------------------------------------------------- sequence conservation

  ghost function SumSequences(heads: map<nat, Head>): nat
    decreases |heads|
  {
    if heads == map[] then 0
    else var k :| k in heads; heads[k].sequence + SumSequences(heads - {k})
  }

  lemma {:induction false} SumSplit(heads: map<nat, Head>, key: nat)
    requires key in heads
    ensures SumSequences(heads) == heads[key].sequence + SumSequences(heads - {key})
    decreases |heads|
  {
    var k :| k in heads && SumSequences(heads) == heads[k].sequence + SumSequences(heads - {k});
    if k != key {
      SumSplit(heads - {k}, key);
      SumSplit(heads - {key}, k);
      assert heads - {k} - {key} == heads - {key} - {k};
    }
  }

  /** The head sequences of a run add up to the number of nullifiers it consumed. */
  lemma {:induction false} SequencesCountNullifiers(e: Env, ts: seq<Credit>)
    ensures SumSequences(Replay(e, ts).heads) == |ts| == |Replay(e, ts).nullifiers|
  {
    hide Slot, SuccessorPoint, ActionCommitment;
    if ts != [] {
      SequencesCountNullifiers(e, Front(ts));
      var heads, key := Replay(e, Front(ts)).heads, Last(ts).key;
      var heads' := Replay(e, ts).heads;
      SumSplit(heads', key);
      assert heads' - {key} == heads - {key};
      if key in heads {
        SumSplit(heads, key);
      } else {
        assert heads - {key} == heads;
      }
    }
  }

  // ------------------------------------------------------------ balances

  predicate Pays(t: Credit, key: nat, token: nat) {
    t.key == key && t.token == token
  }

  function TotalAmount(ts: seq<Credit>, key: nat, token: nat): nat {
    if ts == [] then 0
    else TotalAmount(Front(ts), key, token) + if Pays(Last(ts), key, token) then Last(ts).amount else 0
  }

  function TotalDelta(ts: seq<Credit>, key: nat, token: nat): nat {
    if ts == [] then 0
    else TotalDelta(Front(ts), key, token) + if Pays(Last(ts), key, token) then Last(ts).delta else 0
  }

  /** amount·G + delta·H. */
  function Commitment(e: Env, amount: nat, delta: nat): Point {
    e.c.add(Mul(e.c, e.base8, amount), Mul(e.c, e.balanceH, delta))
  }

  /** Adding two openings commits to their sums. */
  lemma {:induction false} CommitmentAdds(e: Env, a: nat, d: nat, amount: nat, delta: nat)
    requires ValidEnv(e)
    ensures e.c.add(e.c.add(Commitment(e, a, d), Mul(e.c, e.base8, amount)), Mul(e.c, e.balanceH, delta))
         == Commitment(e, a + amount, d + delta)
  {
    hide Mul, Abelian;
    var c := e.c;
    var g0, h0 := Mul(c, e.base8, a), Mul(c, e.balanceH, d);
    var g1, h1 := Mul(c, e.base8, amount), Mul(c, e.balanceH, delta);
    MulInGroup(c, e.base8, a);
    MulInGroup(c, e.balanceH, d);
    MulInGroup(c, e.base8, amount);
    MulInGroup(c, e.balanceH, delta);
    AddLaws(c, g0, h0);
    AddAssociates(c, c.add(g0, h0), g1, h1);
    Regroup(c, g0, h0, g1, h1);
    MulOfSum(c, e.base8, a, amount);
    MulOfSum(c, e.balanceH, d, delta);
  }

  lemma CommitmentOfNothing(e: Env)
    requires ValidEnv(e)
    ensures Commitment(e, 0, 0) == IDENTITY
  {
    AddLaws(e.c, e.c.zero, e.c.zero);
  }

  /** Every balance point is the Pedersen commitment to the total credited to that head and token. */
  lemma {:induction false} BalancesAreCommitments(e: Env, ts: seq<Credit>, key: nat, token: nat)
    requires ValidEnv(e)
    ensures PriorPoint(Replay(e, ts), key, token)
         == Commitment(e, TotalAmount(ts, key, token), TotalDelta(ts, key, token))
  {
    hide ValidEnv, Commitment, ActionCommitment;
    if ts == [] {
      CommitmentOfNothing(e);
    } else {
      BalancesAreCommitments(e, Front(ts), key, token);
      var t := Last(ts);
      if Pays(t, key, token) {
        CommitmentAdds(e, TotalAmount(Front(ts), key, token), TotalDelta(Front(ts), key, token), t.amount, t.delta);
      }
    }
  }

  /** A step touches one head and, inside it, one token. */
  lemma StepFrame(e: Env, s: Snapshot, t: Credit, key: nat, token: nat)
    ensures key != t.key ==> PriorHead(Credited(e, s, t), key) == PriorHead(s, key)
    ensures !Pays(t, key, token) ==> PriorPoint(Credited(e, s, t), key, token) == PriorPoint(s, key, token)
    ensures PriorHead(Credited(e, s, t), t.key).sequence == PriorHead(s, t.key).sequence + 1
    ensures Credited(e, s, t).heads.Keys == s.heads.Keys + {t.key}
  {
  }
}
