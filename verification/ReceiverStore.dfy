/** The receiver's operations on its own documents, each proved to be one transaction of `WorkQueue.Apply`. */
module ReceiverStore {
  import opened Wrappers
  import opened WorkContract
  import opened WorkQueue
  import opened WorkQueueRuns

  datatype Outcome = Done(work: Work) | Thrown(error: string)

  /** The first look at a leased document, before its requeue transaction. */
  predicate Overdue(w: Work, next: Status, now: int) {
    LeaseFor(w, next).Some? && LeaseFor(w, next).value.expiresAt <= now
  }

  /** The documents after the requeue transactions for the first to the last of the stale ids. */
  function RequeueAll(cfg: Config, docs: Docs, next: Status, stale: seq<string>, clock: nat -> int): Docs {
    if stale == [] then docs
    else
      var i := |stale| - 1;
      var before := RequeueAll(cfg, docs, next, stale[..i], clock);
      if stale[i] in before && Overdue(before[stale[i]], next, clock(2 * i))
      then Apply(cfg, before, Requeue(stale[i], next, clock(2 * i + 1)))
      else before
  }

  /** Leased, and expired at every reading of the clock. */
  ghost predicate AlwaysOverdue(w: Work, next: Status, clock: nat -> int) {
    && w.status == next
    && (if next == NodeVerifying then w.nodeLease.Some? && forall k :: w.nodeLease.value.expiresAt <= clock(k)
        else w.crankerLease.Some? && forall k :: w.crankerLease.value.expiresAt <= clock(k))
  }

  lemma {:induction false} RequeueFrame(cfg: Config, docs: Docs, next: Status, stale: seq<string>, clock: nat -> int)
    ensures RequeueAll(cfg, docs, next, stale, clock).Keys == docs.Keys
    ensures forall id :: id in docs && id !in stale ==> RequeueAll(cfg, docs, next, stale, clock)[id] == docs[id]
  {
    hide Overdue, RequeueAllowed;
    if stale != [] {
      RequeueFrame(cfg, docs, next, stale[..|stale| - 1], clock);
    }
  }

  /** A document whose lease is overdue throughout is back in its source status once it was looked at. */
  lemma {:induction false} OverdueRequeued(cfg: Config, docs: Docs, next: Status, stale: seq<string>, clock: nat -> int, id: string)
    requires LeaseTarget(next) && id in docs && AlwaysOverdue(docs[id], next, clock)
    ensures id in RequeueAll(cfg, docs, next, stale, clock)
    ensures RequeueAll(cfg, docs, next, stale, clock)[id]
         == if id in stale then Requeued(docs[id], next) else docs[id]
  {
    if stale != [] {
      var front := stale[..|stale| - 1];
      OverdueRequeued(cfg, docs, next, front, clock, id);
      assert stale == front + [stale[|stale| - 1]];
    }
  }

  lemma {:induction false} AllOverdueRequeued(cfg: Config, docs: Docs, next: Status, stale: seq<string>, clock: nat -> int)
    requires LeaseTarget(next)
    ensures forall id :: id in stale && id in docs && AlwaysOverdue(docs[id], next, clock) ==>
      id in RequeueAll(cfg, docs, next, stale, clock)
      && RequeueAll(cfg, docs, next, stale, clock)[id].status == if next == NodeVerifying then Received else Verified
  {
    hide RequeueAll, AlwaysOverdue;
    forall id | id in stale && id in docs && AlwaysOverdue(docs[id], next, clock)
      ensures id in RequeueAll(cfg, docs, next, stale, clock)
      ensures RequeueAll(cfg, docs, next, stale, clock)[id].status == if next == NodeVerifying then Received else Verified
    {
      OverdueRequeued(cfg, docs, next, stale, clock, id);
    }
  }

  /** Position of the first candidate that may be leased, or their number. */
  function FirstEligible(docs: Docs, next: Status, kinds: set<Kind>, candidates: seq<string>): (k: nat)
    ensures k <= |candidates|
  {
    if candidates == [] || Eligible(docs, candidates[0], next, kinds) then 0
    else 1 + FirstEligible(docs, next, kinds, candidates[1..])
  }

  lemma {:induction false} FirstIs(docs: Docs, next: Status, kinds: set<Kind>, candidates: seq<string>, k: nat)
    requires k <= |candidates| && forall j :: 0 <= j < k ==> !Eligible(docs, candidates[j], next, kinds)
    requires k < |candidates| ==> Eligible(docs, candidates[k], next, kinds)
    ensures FirstEligible(docs, next, kinds, candidates) == k
  {
    hide Eligible;
    if k > 0 {
      var rest := candidates[1..];
      assert forall j :: 0 <= j < k - 1 ==> rest[j] == candidates[j + 1];
      FirstIs(docs, next, kinds, rest, k - 1);
    }
  }

  /** The funding document is never the settlement that is being leased, so the gate is still open afterwards. */
  lemma GatedLeaseOk(cfg: Config, docs: Docs, id: string, next: Status, owner: string, now: int, kinds: set<Kind>)
    requires DocsOk(docs) && LeaseTarget(next) && Eligible(docs, id, next, kinds)
    ensures var docs' := Apply(cfg, docs, TakeLease(id, next, owner, now));
      DocsOk(docs') && id in docs' && docs'[id].id == id && docs'[id].status == next
      && docs'[id].kind == docs[id].kind && GateOpen(docs'[id], next, docs')
  {
    ExistingFunding(docs, id);
    GateMeansFunded(docs, Reader(docs[id], next, false));
    ApplyKeepsDocs(cfg, docs, TakeLease(id, next, owner, now));
  }

  /** A lease of the given kind that has not expired. */
  predicate LiveLease(w: Work, next: Status, now: int) {
    if next == NodeVerifying then w.nodeLease.Some? && w.nodeLease.value.expiresAt > now
    else w.crankerLease.Some? && w.crankerLease.value.expiresAt > now
  }

  /** `String(result?.signature ?? "")`. */
  function SignatureText(cfg: Config, report: Option<Fields>): string {
    if report.Some? && "signature" in report.value && report.value["signature"] != Null
    then cfg.text(report.value["signature"]) else ""
  }

  /** A cranker report of the stored status with the stored, non-empty signature. */
  predicate IsReplay(cfg: Config, w: Work, actor: Actor, status: Status, evidence: Option<Fields>) {
    && actor == Cranker && w.status == status
    && SignatureText(cfg, w.result) != "" && SignatureText(cfg, w.result) == SignatureText(cfg, evidence)
  }

  /** The actor's own lease, held by this owner and not expired. */
  predicate LiveOwnLease(w: Work, actor: Actor, owner: string, now: int) {
    var lease := if actor == Node then w.nodeLease else w.crankerLease;
    lease.Some? && lease.value.owner == owner && lease.value.expiresAt > now
  }

  predicate SameRecord(w: Work, w': Work) {
    w'.id == w.id && w'.kind == w.kind && w'.commitment == w.commitment && w'.retries == w.retries
  }

  predicate HasObject(m: Fields, key: string) {
    key in m && m[key].Obj?
  }

  predicate KeepsField(m: Fields, m': Fields, key: string)
    requires key in m
  {
    key in m' && m'[key] == m[key]
  }

  /** What a node decision leaves behind. */
  predicate DecisionStored(w: Work, w': Work, status: Status, evidence: Fields) {
    && SameRecord(w, w') && w'.status == status && w'.stateVersion == w.stateVersion + 1
    && w'.nodeLease == None && w'.crankerLease == w.crankerLease && w'.result == w.result && w'.authorization == w.authorization
    && (status == Rejected ==> w'.verification == Some(Raw(evidence)))
    && (status == Verified && HasObject(evidence, "verifiedPayload") ==> w'.verification.Some? && w'.verification.value.Compact?)
    && (w.kind != AuthorizedFunding ==> w'.payload == w.payload)
    && (w.kind == AuthorizedFunding ==> w'.payload.Keys <= {"paymentId", "recipientHash", "nodeEncryptedPayload"})
    && (w.kind == AuthorizedFunding && HasObject(w.payload, "nodeEncryptedPayload") ==> KeepsField(w.payload, w'.payload, "nodeEncryptedPayload"))
  }

  /** What a cranker report leaves behind. */
  predicate ReportStored(w: Work, w': Work, status: Status, evidence: Fields) {
    && SameRecord(w, w') && w'.status == status && w'.stateVersion == w.stateVersion + 1
    && w'.crankerLease == None && w'.nodeLease == w.nodeLease && w'.payload == w.payload && w'.result == Some(evidence)
    && (status != Confirmed || w.kind != AuthorizedFunding ==> w'.verification == w.verification)
    && (status == Confirmed && w.kind == AuthorizedFunding ==> w'.verification.Some?)
    && w'.authorization == (if status == Confirmed && w.kind == Settlement then None else w.authorization)
  }

  /** What an accepted transition leaves behind. */
  predicate TransitionStored(w: Work, w': Work, actor: Actor, status: Status, evidence: Option<Fields>) {
    var stored: Fields := if evidence.Some? then evidence.value else map[];
    if actor == Node then DecisionStored(w, w', status, stored) else ReportStored(w, w', status, stored)
  }

  lemma ReplayIs(cfg: Config, w: Work, actor: Actor, status: Status, evidence: Option<Fields>)
    ensures Replayed(cfg, w, actor, status, evidence) <==> IsReplay(cfg, w, actor, status, evidence)
  {
  }

  /** The guards of the transaction, in terms of the document. */
  lemma TransitionGuards(cfg: Config, docs: Docs, id: string, actor: Actor, owner: string, expectedVersion: nat, status: Status,
                         evidence: Option<Fields>, attested: bool, now: int)
    requires id in docs
    ensures TransitionAllowed(cfg, docs, id, actor, owner, expectedVersion, status, evidence, attested, now) <==>
      && !IsReplay(cfg, docs[id], actor, status, evidence) && LiveOwnLease(docs[id], actor, owner, now)
      && docs[id].stateVersion == expectedVersion
      && (actor == Node ==> attested && (status == Verified || status == Rejected))
      && (actor == Cranker ==> status == Submitted || status == Confirmed || status == Failed)
  {
    ReplayIs(cfg, docs[id], actor, status, evidence);
    hide Replayed, IsReplay;
  }

  lemma DecisionIsStored(cfg: Config, w: Work, status: Status, evidence: Fields)
    ensures DecisionStored(w, NodeDecided(cfg, w, status, evidence), status, evidence)
  {
    hide CompactFunding, CompactVerification;
    if "verifiedPayload" in evidence && evidence["verifiedPayload"].Obj? {
      IsCompact(cfg.stable, Redacted(cfg, w.payload), evidence);
      IsCompact(cfg.stable, w.payload, evidence);
    }
  }

  lemma IsCompact(stable: Stable, payload: Fields, evidence: Fields)
    requires "verifiedPayload" in evidence && evidence["verifiedPayload"].Obj?
    ensures CompactFunding(stable, payload, evidence).Compact? && CompactVerification(stable, payload, evidence).Compact?
  {
    hide DeltaOf;
  }

  lemma ReportIsStored(cfg: Config, w: Work, status: Status, evidence: Fields)
    ensures ReportStored(w, CrankerReported(cfg, w, status, evidence), status, evidence)
  {
    hide ReceiptVerification;
  }

  /** The same cranker report once more is a replay. */
  lemma ReportThenReplay(cfg: Config, w: Work, w': Work, status: Status, evidence: Option<Fields>)
    requires TransitionStored(w, w', Cranker, status, evidence) && SignatureText(cfg, evidence) != ""
    ensures IsReplay(cfg, w', Cranker, status, evidence)
  {
  }

  /** A settlement as ingress creates it. */
  predicate IsNewSettlement(w: Work, id: string, fundingId: string) {
    && w.id == id && w.kind == Settlement && w.status == Received && w.stateVersion == 1
    && w.payload.Keys == {"paymentId", "intentId", "source"} && w.payload["intentId"] == Str(fundingId)
    && w.nodeLease == None && w.crankerLease == None && w.authorization == None && w.result == None
  }

  /** `String(current.verification?.reason ?? "")`. */
  function ReasonText(cfg: Config, verification: Option<Verification>): string {
    match verification
    case None => ""
    case Some(Raw(evidence)) =>
      if "reason" in evidence && evidence["reason"] != Null then cfg.text(evidence["reason"]) else ""
    case Some(Compact(decision, _)) =>
      if "reason" in decision && decision["reason"] != Null then cfg.text(decision["reason"]) else ""
  }

  /** The two reasons that allow a retry. */
  predicate RetryReasonOk(reason: string) {
    || "GPRU_HIDDEN_HEAD_WITNESS_UNAVAILABLE:" <= reason
    || reason == "TCAP settlement asset is unavailable or its reserve binding is invalid"
  }

  predicate NoExecutionState(w: Work) {
    w.nodeLease == None && w.crankerLease == None && w.authorization == None && (w.result == None || w.result == Some(map[]))
  }

  /** A confirmed funding with a signature on record. */
  predicate FundingReported(docs: Docs, id: string) {
    && id in docs && docs[id].kind == AuthorizedFunding && docs[id].status == Confirmed && docs[id].result.Some?
    && "signature" in docs[id].result.value && docs[id].result.value["signature"] !in {Null, Bool(false), Num(0), Str("")}
  }

  /** A rejected settlement whose reason allows a retry, without execution state, of its own reported funding. */
  predicate MayRetry(cfg: Config, docs: Docs, w: Work) {
    && w.kind == Settlement && w.status == Rejected && RetryReasonOk(ReasonText(cfg, w.verification)) && NoExecutionState(w)
    && var fundingId := IntentId(w.payload);
       && fundingId != "" && FundingReported(docs, fundingId)
       && w.id == cfg.settlementId(fundingId, docs[fundingId].commitment) && cfg.commit(w.payload) == w.commitment
  }

  lemma RetryReasonIs(cfg: Config, verification: Option<Verification>)
    ensures RetryReason(cfg, verification) <==> RetryReasonOk(ReasonText(cfg, verification))
  {
  }

  lemma TruthyIs(j: Json)
    ensures Truthy(j) <==> j !in {Null, Bool(false), Num(0), Str("")}
  {
  }

  /** The guards of the retry, in terms of the documents. */
  lemma RetryGuards(cfg: Config, docs: Docs, id: string, expectedVersion: nat)
    requires DocsOk(docs)
    ensures RetryAllowed(cfg, docs, id, expectedVersion)
       <==> (id in docs && docs[id].stateVersion == expectedVersion && MayRetry(cfg, docs, docs[id]))
  {
    if id in docs {
      var w := docs[id];
      RetryReasonIs(cfg, w.verification);
      var fundingId := IntentId(w.payload);
      if fundingId in docs {
        assert docs[fundingId].id == fundingId;
        if docs[fundingId].result.Some? {
          TruthyIs(Field(docs[fundingId].result.value, "signature"));
        }
      }
      hide DocsOk, RetryReason, RetryReasonOk, Truthy, IntentId, ReasonText;
    }
  }

  /** RECEIVED again with the next version, without decision or execution state, and one more retry on record. */
  predicate Restarted(w: Work, w': Work) {
    && w'.status == Received && w'.stateVersion == w.stateVersion + 1
    && w'.id == w.id && w'.kind == w.kind && w'.commitment == w.commitment && w'.payload == w.payload && w'.result == w.result
    && w'.nodeLease == None && w'.crankerLease == None && w'.verification == None && w'.authorization == None
    && |w'.retries| == |w.retries| + 1 && w.retries <= w'.retries
    && w'.retries[|w.retries|].rejectedVersion == w.stateVersion && w'.retries[|w.retries|].rejection == w.verification
  }

  /** A document in the source status, of a supported kind; a settlement needs its funding confirmed. */
  predicate MayLease(docs: Docs, id: string, next: Status, kinds: set<Kind>) {
    && id in docs && docs[id].status == (if next == NodeVerifying then Received else Verified)
    && (kinds == {} || docs[id].kind in kinds)
    && (docs[id].kind == Settlement ==> FundingConfirmed(docs, IntentId(docs[id].payload)))
  }

  lemma NoneMayLease(docs: Docs, next: Status, kinds: set<Kind>, candidates: seq<string>)
    requires LeaseTarget(next) && forall k :: 0 <= k < |candidates| ==> !Eligible(docs, candidates[k], next, kinds)
    ensures forall id :: id in candidates ==> !MayLease(docs, id, next, kinds)
  {
    hide FundingConfirmed;
  }

  lemma RetriedIs(w: Work, funding: Work)
    requires funding.result.Some?
    ensures Restarted(w, Retried(w, funding))
  {
  }

  class WorkStore {
    const cfg: Config
    var docs: Docs

    constructor (cfg: Config)
      ensures this.cfg == cfg && docs == map[]
    {
      this.cfg, docs := cfg, map[];
    }

    /** What is stored of an incoming payload: a funding payload is sealed but for four fields. */
    method StoredPayload(kind: Kind, payload: Fields) returns (stored: Fields)
      ensures kind != AuthorizedFunding ==> stored == payload
      ensures kind == AuthorizedFunding ==> stored == FundingPayload(cfg, payload)
      ensures kind == AuthorizedFunding ==> stored.Keys == {"paymentId", "recipientHash", "tokenMintAddress", "amount", "nodeEncryptedPayload"}
      ensures kind == AuthorizedFunding ==> stored["nodeEncryptedPayload"] == cfg.seal(payload)
    {
      stored := payload;
      if kind == AuthorizedFunding {
        stored := map["paymentId" := Str(TextOf(cfg, Field(payload, "paymentId"))),
                      "recipientHash" := Str(TextOf(cfg, Field(payload, "recipientHash"))),
                      "tokenMintAddress" := Field(payload, "tokenMintAddress"),
                      "amount" := Field(payload, "amount"),
                      "nodeEncryptedPayload" := cfg.seal(payload)];
      }
    }

    /** `receive`: idempotent ingress; `uuid` stands for the generated id when none is given. */
    method ReceiveWork(given: string, uuid: string, kind: Kind, payload: Fields) returns (r: Outcome)
      requires uuid != ""
      modifies this
      ensures docs == Apply(cfg, old(docs), Receive(if given != "" then given else uuid, kind, payload))
      ensures var id := if given != "" then given else uuid;
        r.Done? ==> id in docs && r.work == docs[id] && r.work.kind == kind && r.work.commitment == cfg.commit(payload)
      ensures r.Thrown? ==> docs == old(docs)
      ensures r.Done? <==>
        var id := if given != "" then given else uuid;
        var settlementId := cfg.settlementId(id, cfg.commit(payload));
        && kind != Settlement
        && (kind == AuthorizedFunding ==> cfg.ingressOk(payload))
        && (kind == TinOperation ==> payload.Keys <= TIN_PAYLOAD_KEYS)
        && (id in old(docs) ==> old(docs)[id].commitment == cfg.commit(payload) && old(docs)[id].kind == kind)
        && (id !in old(docs) && kind == AuthorizedFunding ==> settlementId != id && settlementId !in old(docs))
      ensures r.Done? && (if given != "" then given else uuid) !in old(docs) ==> r.work.status == Received && r.work.stateVersion == 1
      ensures r.Done? && kind == AuthorizedFunding ==>
        var settlementId := cfg.settlementId(if given != "" then given else uuid, cfg.commit(payload));
        settlementId in docs && (settlementId !in old(docs) ==> IsNewSettlement(docs[settlementId], settlementId, r.work.id))
    {
      hide FundingPayload;
      if kind == Settlement {
        return Thrown("SETTLEMENT_WORK_INTERNAL_ONLY");
      }
      if kind == AuthorizedFunding && !cfg.ingressOk(payload) {
        return Thrown("INVALID_SENDER_SIGNATURE");
      }
      if kind == TinOperation && !(payload.Keys <= TIN_PAYLOAD_KEYS) {
        return Thrown("UNSUPPORTED_PAYLOAD_FIELD");
      }
      var id := if given != "" then given else uuid;
      var stored := StoredPayload(kind, payload);
      var work := Work(id, kind, Received, 1, cfg.commit(payload), stored, None, None, None, None, None, []);
      var settlementId := cfg.settlementId(id, work.commitment);
      if id in docs {
        var current := docs[id];
        if current.commitment != work.commitment || current.kind != work.kind {
          return Thrown("IDEMPOTENCY_CONFLICT");
        }
        if kind == AuthorizedFunding && settlementId !in docs {
          docs := docs[settlementId := SettlementFor(cfg, current, settlementId)];
        }
        return Done(current);
      }
      if kind == AuthorizedFunding {
        if settlementId == id || settlementId in docs {
          return Thrown("ALREADY_EXISTS");
        }
        docs := docs[id := work][settlementId := SettlementFor(cfg, work, settlementId)];
      } else {
        docs := docs[id := work];
      }
      r := Done(work);
    }

    /** The requeue transaction inside `lease`. */
    method RequeueStale(id: string, next: Status, now: int)
      requires LeaseTarget(next)
      modifies this
      ensures docs == Apply(cfg, old(docs), Requeue(id, next, now))
      ensures if id in old(docs) && old(docs)[id].status == next && !LiveLease(old(docs)[id], next, now)
        then docs == old(docs)[id := old(docs)[id].(
               status := if next == NodeVerifying then Received else Verified,
               stateVersion := old(docs)[id].stateVersion + 1, nodeLease := None, crankerLease := None)]
        else docs == old(docs)
    {
      if id !in docs || docs[id].status != next {
        return;
      }
      var current := docs[id];
      var lease := if next == NodeVerifying then current.nodeLease else current.crankerLease;
      if lease.Some? && lease.value.expiresAt > now {
        return;
      }
      docs := docs[id := current.(status := if next == NodeVerifying then Received else Verified,
                                  stateVersion := current.stateVersion + 1, nodeLease := None, crankerLease := None)];
    }

    /** The lease transaction inside `lease`. */
    method TakeLeaseOn(id: string, next: Status, owner: string, now: int) returns (r: Option<Work>)
      requires LeaseTarget(next)
      modifies this
      ensures docs == Apply(cfg, old(docs), TakeLease(id, next, owner, now))
      ensures r.Some? <==> id in old(docs) && old(docs)[id].status == if next == NodeVerifying then Received else Verified
      ensures r.Some? ==>
        var lease := Some(Lease(owner, now + 60_000, r.value.id, old(docs)[id].stateVersion + 1));
        var w := old(docs)[id].(status := next, stateVersion := old(docs)[id].stateVersion + 1);
        r.value == (if next == NodeVerifying then w.(nodeLease := lease) else w.(crankerLease := lease))
      ensures docs == if r.Some? then old(docs)[id := r.value] else old(docs)
    {
      if id !in docs || docs[id].status != (if next == NodeVerifying then Received else Verified) {
        return None;
      }
      var current := docs[id];
      var lease := Some(Lease(owner, now + LEASE_MS, current.id, current.stateVersion + 1));
      var taken := current.(status := next, stateVersion := current.stateVersion + 1);
      taken := if next == NodeVerifying then taken.(nodeLease := lease) else taken.(crankerLease := lease);
      docs := docs[id := taken];
      r := Some(taken);
    }

    /** The requeue loop of `lease`: a look at each document, and a transaction if its lease was overdue. */
    method RequeueEach(next: Status, stale: seq<string>, clock: nat -> int) returns (ghost trace: seq<Step>)
      requires LeaseTarget(next) && DocsOk(docs)
      modifies this
      ensures DocsOk(docs) && docs == RequeueAll(cfg, old(docs), next, stale, clock)
      ensures docs.Keys == old(docs).Keys && forall id :: id in docs && id !in stale ==> docs[id] == old(docs)[id]
      ensures forall id :: id in stale && id in old(docs) && AlwaysOverdue(old(docs)[id], next, clock) ==>
        docs[id].status == (if next == NodeVerifying then Received else Verified)
      ensures Run(cfg, Sys(old(docs), map[]), trace) == Sys(docs, map[])
    {
      hide DocsOk, Apply, Requeued, Overdue, Run, AlwaysOverdue;
      trace := [];
      ghost var start := Sys(docs, map[]);
      RunNone(cfg, start);
      for i := 0 to |stale|
        invariant Run(cfg, start, trace) == Sys(docs, map[]) && DocsOk(docs)
        invariant docs == RequeueAll(cfg, old(docs), next, stale[..i], clock)
      {
        assert stale[..i + 1][..i] == stale[..i];
        if stale[i] in docs && Overdue(docs[stale[i]], next, clock(2 * i)) {
          ghost var step := Txn(Requeue(stale[i], next, clock(2 * i + 1)));
          RunSnoc(cfg, start, trace, step);
          ApplyKeepsDocs(cfg, docs, Requeue(stale[i], next, clock(2 * i + 1)));
          trace := trace + [step];
          RequeueStale(stale[i], next, clock(2 * i + 1));
        }
      }
      assert stale[..|stale|] == stale;
      RequeueFrame(cfg, old(docs), next, stale, clock);
      AllOverdueRequeued(cfg, old(docs), next, stale, clock);
    }

    /** `lease`, run without interruption: requeue the stale documents, then try the candidates in
        order. `stale` and `candidates` are the ids the two queries returned, `kinds` the supported
        kinds (empty for all), and `clock` the successive readings of the clock. Its effect is one run of the
        interleaving system. */
    method LeaseNext(next: Status, owner: string, kinds: set<Kind>, stale: seq<string>, candidates: seq<string>, clock: nat -> int)
      returns (r: Option<Work>, ghost trace: seq<Step>)
      requires LeaseTarget(next) && DocsOk(docs)
      modifies this
      ensures DocsOk(docs)
      ensures Run(cfg, Sys(old(docs), map[]), trace) == Sys(docs, map[])
      ensures r.Some? ==> r.value.id in candidates && r.value.id in docs && docs[r.value.id] == r.value
      ensures r.Some? ==> r.value.status == next && (kinds != {} ==> r.value.kind in kinds) && GateOpen(r.value, next, docs)
      ensures r.None? ==> forall id :: id in candidates ==> !MayLease(docs, id, next, kinds)
      ensures var requeued := RequeueAll(cfg, old(docs), next, stale, clock);
        var k := FirstEligible(requeued, next, kinds, candidates);
        docs == if k == |candidates| then requeued
                else Apply(cfg, requeued, TakeLease(candidates[k], next, owner, clock(2 * |stale| + k)))
    {
      hide DocsOk, Apply, GateOpen, Eligible, Run, RequeueAll;
      r := None;
      ghost var start := Sys(docs, map[]);
      trace := RequeueEach(next, stale, clock);
      for i := 0 to |candidates|
        invariant Run(cfg, start, trace) == Sys(docs, map[]) && DocsOk(docs)
        invariant docs == RequeueAll(cfg, old(docs), next, stale, clock)
        invariant forall k :: 0 <= k < i ==> !Eligible(docs, candidates[k], next, kinds)
      {
        var id := candidates[i];
        if Eligible(docs, id, next, kinds) {
          FirstIs(docs, next, kinds, candidates, i);
          EligibleGate(docs, id, next, kinds);
          ghost var before := docs;
          trace := GatedLease(cfg, start, trace, before, id, next, owner, clock(2 * |stale| + i), kinds);
          r := TakeLeaseOn(id, next, owner, clock(2 * |stale| + i));
          GatedLeaseOk(cfg, before, id, next, owner, clock(2 * |stale| + i), kinds);
          return;
        }
      }
      FirstIs(docs, next, kinds, candidates, |candidates|);
      NoneMayLease(docs, next, kinds, candidates);
    }

    /** `attachCrankerAuthorization`. */
    method AttachCrankerAuthorization(id: string, owner: string, expectedVersion: nat, a: Authorization, now: int)
      returns (r: Outcome)
      requires DocsOk(docs)
      modifies this
      ensures docs == Apply(cfg, old(docs), Attach(id, owner, expectedVersion, a, now)) && DocsOk(docs)
      ensures r.Done? <==>
        && id in old(docs) && old(docs)[id].status == CrankerLeased && old(docs)[id].stateVersion == expectedVersion
        && old(docs)[id].crankerLease.Some?
        && var lease := old(docs)[id].crankerLease.value;
           && lease.owner == owner && lease.expiresAt > now
           && a.leaseId == lease.leaseId && a.leaseVersion == lease.version && a.leaseExpiresAt == lease.expiresAt
           && now / 1000 < a.expiresAtTs <= lease.expiresAt / 1000
      ensures r.Done? ==> r.work == old(docs)[id].(authorization := Some(a), stateVersion := expectedVersion + 1)
      ensures docs == if r.Done? then old(docs)[id := r.work] else old(docs)
    {
      ApplyKeepsDocs(cfg, docs, Attach(id, owner, expectedVersion, a, now));
      hide DocsOk;
      if id !in docs {
        return Thrown("WORK_NOT_FOUND");
      }
      var current := docs[id];
      if current.status != CrankerLeased || current.crankerLease.None? || current.crankerLease.value.owner != owner {
        return Thrown("LEASE_INVALID");
      }
      if current.stateVersion != expectedVersion {
        return Thrown("STALE_STATE_VERSION");
      }
      var lease := current.crankerLease.value;
      if lease.expiresAt <= now {
        return Thrown("LEASE_EXPIRED");
      }
      if a.leaseId != lease.leaseId || a.leaseVersion != lease.version || a.leaseExpiresAt != lease.expiresAt
         || a.expiresAtTs <= Seconds(now) || a.expiresAtTs > Seconds(lease.expiresAt) {
        return Thrown("LEASE_AUTHORIZATION_MISMATCH");
      }
      docs := docs[id := current.(authorization := Some(a), stateVersion := current.stateVersion + 1)];
      r := Done(docs[id]);
    }

    /** The patch of a node decision. */
    method NodePatch(current: Work, status: Status, evidence: Fields) returns (next: Work)
      ensures next == NodeDecided(cfg, current, status, evidence)
    {
      hide NodeVerification, Redacted, Envelope;
      next := current.(status := status, stateVersion := current.stateVersion + 1,
                       verification := Some(NodeVerification(cfg, current, status, evidence)), nodeLease := None);
      if current.kind == AuthorizedFunding {
        next := next.(payload := Redacted(cfg, current.payload) + Envelope(current.payload));
      }
    }

    /** The patch of a cranker report. */
    method CrankerPatch(current: Work, status: Status, evidence: Fields) returns (next: Work)
      ensures next == CrankerReported(cfg, current, status, evidence)
    {
      hide ReceiptVerification;
      next := current.(status := status, stateVersion := current.stateVersion + 1, result := Some(evidence), crankerLease := None);
      if status == Confirmed && current.kind == AuthorizedFunding {
        next := next.(verification := Some(ReceiptVerification(cfg.stable, current.payload, current.verification)));
      }
      if status == Confirmed && current.kind == Settlement {
        next := next.(authorization := None);
      }
    }

    /** `transition`: a node decision or a cranker report. */
    method MakeTransition(id: string, actor: Actor, owner: string, expectedVersion: nat, status: Status,
                          evidence: Option<Fields>, attested: bool, now: int) returns (r: Outcome)
      requires DocsOk(docs)
      modifies this
      ensures docs == Apply(cfg, old(docs), Transition(id, actor, owner, expectedVersion, status, evidence, attested, now))
      ensures DocsOk(docs)
      ensures id !in old(docs) ==> r.Thrown?
      ensures id in old(docs) ==> (r.Done? <==>
        || IsReplay(cfg, old(docs)[id], actor, status, evidence)
        || (LiveOwnLease(old(docs)[id], actor, owner, now) && old(docs)[id].stateVersion == expectedVersion
            && (actor == Node ==> attested && (status == Verified || status == Rejected))
            && (actor == Cranker ==> status == Submitted || status == Confirmed || status == Failed)))
      ensures r.Done? ==> id in docs && r.work == docs[id] && r.work.status == status
      ensures docs == if r.Done? then old(docs)[id := r.work] else old(docs)
      ensures r.Done? ==> if IsReplay(cfg, old(docs)[id], actor, status, evidence) then r.work == old(docs)[id]
        else TransitionStored(old(docs)[id], r.work, actor, status, evidence)
      ensures r.Done? && actor == Cranker && SignatureText(cfg, evidence) != "" ==> IsReplay(cfg, r.work, actor, status, evidence)
    {
      ApplyKeepsDocs(cfg, docs, Transition(id, actor, owner, expectedVersion, status, evidence, attested, now));
      hide DocsOk, DocsEvolve, NodeDecided, CrankerReported, Replayed, TransitionAllowed, DecisionStored, ReportStored;
      if id !in docs {
        return Thrown("WORK_NOT_FOUND");
      }
      TransitionGuards(cfg, docs, id, actor, owner, expectedVersion, status, evidence, attested, now);
      var current := docs[id];
      if actor == Cranker && current.status == status {
        var currentSignature, reportedSignature := SignatureText(cfg, current.result), SignatureText(cfg, evidence);
        if currentSignature != "" && reportedSignature != "" && currentSignature == reportedSignature {
          return Done(current);
        }
      }
      var lease := if actor == Node then current.nodeLease else current.crankerLease;
      if lease.None? || lease.value.owner != owner || lease.value.expiresAt <= now {
        return Thrown("LEASE_INVALID");
      }
      if current.stateVersion != expectedVersion {
        return Thrown("STALE_STATE_VERSION");
      }
      if actor == Node && (status == Verified || status == Rejected) && !attested {
        return Thrown("NODE_ATTESTATION_REQUIRED");
      }
      if !(if actor == Node then status in {Verified, Rejected} else status in {Submitted, Confirmed, Failed}) {
        return Thrown("INVALID_TRANSITION");
      }
      var stored: Fields := if evidence.Some? then evidence.value else map[];
      var next: Work;
      if actor == Node {
        next := NodePatch(current, status, stored);
        DecisionIsStored(cfg, current, status, stored);
      } else {
        next := CrankerPatch(current, status, stored);
        ReportIsStored(cfg, current, status, stored);
        if SignatureText(cfg, evidence) != "" {
          ReportThenReplay(cfg, current, next, status, evidence);
        }
      }
      docs := docs[id := next];
      r := Done(next);
    }

    /** `retrySettlementSnapshot`, with the guards of `snapshotRetryPatch` in their order. */
    method RetrySettlementSnapshot(id: string, expectedVersion: nat) returns (r: Outcome)
      requires DocsOk(docs)
      modifies this
      ensures docs == Apply(cfg, old(docs), RetrySettlement(id, expectedVersion)) && DocsOk(docs)
      ensures r.Done? <==> id in old(docs) && old(docs)[id].stateVersion == expectedVersion && MayRetry(cfg, old(docs), old(docs)[id])
      ensures docs == if r.Done? then old(docs)[id := r.work] else old(docs)
      ensures r.Done? ==> Restarted(old(docs)[id], r.work)
    {
      ApplyKeepsDocs(cfg, docs, RetrySettlement(id, expectedVersion));
      RetryGuards(cfg, docs, id, expectedVersion);
      hide DocsOk, DocsEvolve, MayRetry, RetryReason, ReasonText, Truthy, Restarted, Retried;
      if id !in docs {
        return Thrown("WORK_NOT_FOUND");
      }
      var current := docs[id];
      var fundingId := IntentId(current.payload);
      if fundingId == "" {
        return Thrown("SETTLEMENT_FUNDING_REFERENCE_MISMATCH");
      }
      if fundingId !in docs {
        return Thrown("SETTLEMENT_FUNDING_NOT_CONFIRMED");
      }
      var funding := docs[fundingId];
      if current.stateVersion != expectedVersion {
        return Thrown("STALE_STATE_VERSION");
      }
      if current.kind != Settlement || current.status != Rejected {
        return Thrown("SETTLEMENT_RETRY_NOT_REJECTED");
      }
      RetryReasonIs(cfg, current.verification);
      if !RetryReasonOk(ReasonText(cfg, current.verification)) {
        return Thrown("SETTLEMENT_RETRY_REASON_NOT_ALLOWED");
      }
      if current.nodeLease.Some? || current.crankerLease.Some? || current.authorization.Some?
         || (current.result.Some? && current.result.value != map[]) {
        return Thrown("SETTLEMENT_RETRY_HAS_EXECUTION_STATE");
      }
      if funding.kind != AuthorizedFunding || funding.status != Confirmed || funding.result.None?
         || !Truthy(Field(funding.result.value, "signature")) {
        return Thrown("SETTLEMENT_FUNDING_NOT_CONFIRMED");
      }
      if current.id != cfg.settlementId(funding.id, funding.commitment) || IntentId(current.payload) != funding.id
         || cfg.commit(current.payload) != current.commitment {
        return Thrown("SETTLEMENT_FUNDING_REFERENCE_MISMATCH");
      }
      RetriedIs(current, funding);
      docs := docs[id := Retried(current, funding)];
      r := Done(docs[id]);
    }
  }
}
