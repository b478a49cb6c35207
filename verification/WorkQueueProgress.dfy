/** The protocol gets somewhere: runs in which an accepted funding is confirmed and its settlement executed,
    and runs in which a rejected settlement is taken up again. */
module WorkQueueProgress {
  import opened Wrappers
  import opened WorkContract
  import opened WorkQueue
  import opened WorkQueueRuns

  /** The documents after a trace from the start, with no reader in between. */
  ghost predicate Reached(cfg: Config, trace: seq<Step>, docs: Docs) {
    Run(cfg, START, trace) == Sys(docs, map[])
  }

  lemma Acts(cfg: Config, trace: seq<Step>, docs: Docs, a: Action)
    requires Reached(cfg, trace, docs) && !a.TakeLease?
    ensures Reached(cfg, trace + [Txn(a)], Apply(cfg, docs, a))
  {
    hide Apply, Run;
    RunSnoc(cfg, START, trace, Txn(a));
  }

  lemma ReachedOk(cfg: Config, trace: seq<Step>, docs: Docs)
    requires Reached(cfg, trace, docs)
    ensures DocsOk(docs)
  {
    hide Run, DocsOk;
    RunKeepsInv(cfg, trace);
  }

  // ---------------------------------------------------------------- one document

  /** Received or verified, and funded if it is a settlement. */
  predicate Ready(docs: Docs, id: string, status: Status) {
    id in docs && docs[id].status == status && (docs[id].kind == Settlement ==> FundingConfirmed(docs, IntentId(docs[id].payload)))
  }

  /** A document with one lease, held by an owner. */
  predicate HeldBy(w: Work, next: Status, owner: string, expiresAt: int) {
    && w.status == next
    && if next == NodeVerifying then w.nodeLease == Some(Lease(owner, expiresAt, w.id, w.stateVersion))
       else w.crankerLease == Some(Lease(owner, expiresAt, w.id, w.stateVersion))
  }

  /** Anybody may lease a ready document. */
  lemma LeaseStep(cfg: Config, trace: seq<Step>, docs: Docs, id: string, next: Status, owner: string, now: int)
    returns (longer: seq<Step>, docs': Docs)
    requires Reached(cfg, trace, docs) && Ready(docs, id, if next == NodeVerifying then Received else Verified)
    requires next == NodeVerifying || next == CrankerLeased
    ensures Reached(cfg, longer, docs') && id in docs' && docs' == docs[id := docs'[id]]
    ensures HeldBy(docs'[id], next, owner, now + 60_000)
    ensures SamePapers(docs[id], docs'[id]) && docs'[id].stateVersion == docs[id].stateVersion + 1
  {
    ReachedOk(cfg, trace, docs);
    longer := LeaseTrace(cfg, trace, docs, id, next, owner, now);
    docs' := Apply(cfg, docs, TakeLease(id, next, owner, now));
    LeaseEffect(cfg, docs, id, next, owner, now);
  }

  /** Identity and contents that a lease or decision on a settlement does not touch. */
  predicate SamePapers(w: Work, w': Work) {
    w'.id == w.id && w'.kind == w.kind && w'.commitment == w.commitment && w'.payload == w.payload && w'.result == w.result
    && w'.verification == w.verification && w'.retries == w.retries
  }

  lemma LeaseTrace(cfg: Config, trace: seq<Step>, docs: Docs, id: string, next: Status, owner: string, now: int)
    returns (longer: seq<Step>)
    requires Reached(cfg, trace, docs) && DocsOk(docs) && Ready(docs, id, if next == NodeVerifying then Received else Verified)
    requires next == NodeVerifying || next == CrankerLeased
    ensures Reached(cfg, longer, Apply(cfg, docs, TakeLease(id, next, owner, now)))
  {
    hide Apply, Run, DocsOk, FundingConfirmed;
    assert Eligible(docs, id, next, {});
    longer := GatedLease(cfg, START, trace, docs, id, next, owner, now, {});
  }

  lemma LeaseEffect(cfg: Config, docs: Docs, id: string, next: Status, owner: string, now: int)
    requires DocsOk(docs) && Ready(docs, id, if next == NodeVerifying then Received else Verified)
    requires next == NodeVerifying || next == CrankerLeased
    ensures var docs' := Apply(cfg, docs, TakeLease(id, next, owner, now));
      && id in docs' && docs' == docs[id := docs'[id]] && HeldBy(docs'[id], next, owner, now + 60_000)
      && SamePapers(docs[id], docs'[id]) && docs'[id].stateVersion == docs[id].stateVersion + 1
  {
    assert docs[id].id == id;
  }

  /** The holder of a node lease may decide either way, in time. */
  lemma DecideStep(cfg: Config, trace: seq<Step>, docs: Docs, id: string, owner: string, expiresAt: int, now: int, status: Status,
                   evidence: Option<Fields>)
    returns (longer: seq<Step>, docs': Docs)
    requires Reached(cfg, trace, docs) && id in docs && HeldBy(docs[id], NodeVerifying, owner, expiresAt) && now < expiresAt
    requires status == Verified || status == Rejected
    ensures Reached(cfg, longer, docs') && id in docs' && docs' == docs[id := docs'[id]]
    ensures docs'[id].status == status && docs'[id].stateVersion == docs[id].stateVersion + 1
    ensures docs'[id].id == docs[id].id && docs'[id].kind == docs[id].kind && docs'[id].commitment == docs[id].commitment
    ensures docs'[id].retries == docs[id].retries
    ensures docs[id].kind == Settlement ==> docs'[id].payload == docs[id].payload
    ensures status == Rejected ==> docs'[id].verification == Some(Raw(if evidence.Some? then evidence.value else map[]))
  {
    var a := Transition(id, Node, owner, docs[id].stateVersion, status, evidence, true, now);
    longer := trace + [Txn(a)];
    docs' := Apply(cfg, docs, a);
    Acts(cfg, trace, docs, a);
    hide CompactFunding, CompactVerification, Redacted, Envelope;
  }

  /** The holder of a cranker lease may report any of the three outcomes, in time. */
  lemma ReportStep(cfg: Config, trace: seq<Step>, docs: Docs, id: string, owner: string, expectedVersion: nat, expiresAt: int, now: int,
                   status: Status, evidence: Option<Fields>)
    returns (longer: seq<Step>, docs': Docs)
    requires Reached(cfg, trace, docs) && id in docs && docs[id].status == CrankerLeased && docs[id].crankerLease.Some?
    requires docs[id].crankerLease.value.owner == owner && docs[id].crankerLease.value.expiresAt == expiresAt && now < expiresAt
    requires docs[id].stateVersion == expectedVersion
    requires status == Submitted || status == Confirmed || status == Failed
    ensures Reached(cfg, longer, docs') && id in docs' && docs' == docs[id := docs'[id]]
    ensures docs'[id].status == status && docs'[id].result == Some(if evidence.Some? then evidence.value else map[])
    ensures docs'[id].id == docs[id].id && docs'[id].kind == docs[id].kind && docs'[id].commitment == docs[id].commitment
  {
    var a := Transition(id, Cranker, owner, expectedVersion, status, evidence, true, now);
    longer := trace + [Txn(a)];
    docs' := Apply(cfg, docs, a);
    Acts(cfg, trace, docs, a);
    hide ReceiptVerification;
  }

  /** The Node may authorize a live cranker lease for as long as it lasts. */
  lemma AuthorizeStep(cfg: Config, trace: seq<Step>, docs: Docs, id: string, owner: string, expiresAt: int, now: int, expiresAtTs: int,
                      body: Fields)
    returns (longer: seq<Step>, docs': Docs)
    requires Reached(cfg, trace, docs) && id in docs && HeldBy(docs[id], CrankerLeased, owner, expiresAt) && now < expiresAt
    requires now / 1000 < expiresAtTs <= expiresAt / 1000
    ensures Reached(cfg, longer, docs') && id in docs' && docs' == docs[id := docs'[id]]
    ensures docs'[id].authorization == Some(Authorization(docs[id].id, docs[id].stateVersion, expiresAt, expiresAtTs, body))
    ensures docs'[id].status == CrankerLeased && docs'[id].crankerLease == docs[id].crankerLease
    ensures docs'[id].stateVersion == docs[id].stateVersion + 1 && SamePapers(docs[id], docs'[id])
  {
    var w := docs[id];
    var authorization := Authorization(w.id, w.stateVersion, expiresAt, expiresAtTs, body);
    var a := Attach(id, owner, w.stateVersion, authorization, now);
    longer := trace + [Txn(a)];
    docs' := Apply(cfg, docs, a);
    Acts(cfg, trace, docs, a);
  }

  /** A rejected settlement with one of the two reasons is RECEIVED again. */
  lemma RetryStep(cfg: Config, trace: seq<Step>, docs: Docs, id: string, fundingId: string, evidence: Fields)
    returns (longer: seq<Step>, docs': Docs)
    requires Reached(cfg, trace, docs) && id in docs && docs[id].id == id && docs[id].kind == Settlement && docs[id].status == Rejected
    requires docs[id].verification == Some(Raw(evidence)) && "reason" in evidence && evidence["reason"] != Null
    requires "GPRU_HIDDEN_HEAD_WITNESS_UNAVAILABLE:" <= cfg.text(evidence["reason"])
      || cfg.text(evidence["reason"]) == "TCAP settlement asset is unavailable or its reserve binding is invalid"
    requires IntentId(docs[id].payload) == fundingId && fundingId != "" && FundingConfirmed(docs, fundingId)
    requires docs[fundingId].result.Some? && "signature" in docs[fundingId].result.value
    requires docs[fundingId].result.value["signature"].Str? && docs[fundingId].result.value["signature"].s != ""
    requires id == cfg.settlementId(fundingId, docs[fundingId].commitment) && docs[id].commitment == cfg.commit(docs[id].payload)
    ensures Reached(cfg, longer, docs') && id in docs' && docs' == docs[id := docs'[id]]
    ensures docs'[id].status == Received && docs'[id].kind == Settlement && docs'[id].payload == docs[id].payload
    ensures |docs'[id].retries| == |docs[id].retries| + 1
  {
    ReachedOk(cfg, trace, docs);
    assert docs[fundingId].id == fundingId && WorkOk(docs[id]);
    hide DocsOk, Reached, IntentId, Linked;
    var a := RetrySettlement(id, docs[id].stateVersion);
    longer := trace + [Txn(a)];
    docs' := Apply(cfg, docs, a);
    Acts(cfg, trace, docs, a);
  }

  /** After its lease expired a document can be requeued and leased by somebody else. */
  lemma RecoverStep(cfg: Config, trace: seq<Step>, docs: Docs, id: string, next: Status, owner: string, expiresAt: int,
                    other: string, now: int)
    returns (longer: seq<Step>, docs': Docs)
    requires Reached(cfg, trace, docs) && id in docs && HeldBy(docs[id], next, owner, expiresAt) && expiresAt <= now
    requires next == NodeVerifying || next == CrankerLeased
    ensures Reached(cfg, longer, docs') && id in docs' && HeldBy(docs'[id], next, other, now + 60_000)
    ensures SamePapers(docs[id], docs'[id]) && docs'[id].stateVersion == docs[id].stateVersion + 2
  {
    hide Reached;
    var a := Requeue(id, next, now);
    Acts(cfg, trace, docs, a);
    RequeueReady(cfg, trace, docs, id, next, now);
    longer, docs' := LeaseStep(cfg, trace + [Txn(a)], Apply(cfg, docs, a), id, next, other, now);
  }

  lemma RequeueReady(cfg: Config, trace: seq<Step>, docs: Docs, id: string, next: Status, now: int)
    requires Reached(cfg, trace, docs) && id in docs && docs[id].status == next && Expired(LeaseFor(docs[id], next), now)
    requires next == NodeVerifying || next == CrankerLeased
    ensures var docs' := Apply(cfg, docs, Requeue(id, next, now));
      && Ready(docs', id, if next == NodeVerifying then Received else Verified)
      && SamePapers(docs[id], docs'[id]) && docs'[id].stateVersion == docs[id].stateVersion + 1
  {
    ReachedOk(cfg, trace, docs);
    hide IntentId;
    assert WorkOk(docs[id]) && Linked(docs, docs[id]);
  }

  // ------------------------------------------------------------------- whole runs

  /** The parties of a run and what they report. */
  datatype Parties = Parties(node: string, cranker: string, fundingEvidence: Fields, fundingResult: Fields,
                             settlementEvidence: Option<Fields>, settlementResult: Option<Fields>, authorization: Fields)

  lemma Ingress(cfg: Config, id: string, payload: Fields) returns (trace: seq<Step>, docs: Docs)
    requires id != "" && cfg.ingressOk(payload) && cfg.settlementId(id, cfg.commit(payload)) != id
    ensures var sid := cfg.settlementId(id, cfg.commit(payload));
      && Reached(cfg, trace, docs) && docs.Keys == {id, sid}
      && docs[id].kind == AuthorizedFunding && docs[id].status == Received && docs[id].commitment == cfg.commit(payload)
      && docs[sid].kind == Settlement && docs[sid].status == Received && docs[sid].id == sid
      && IntentId(docs[sid].payload) == id && docs[sid].commitment == cfg.commit(docs[sid].payload) && docs[sid].retries == []
  {
    var a := Receive(id, AuthorizedFunding, payload);
    trace := [] + [Txn(a)];
    docs := Apply(cfg, map[], a);
    assert Reached(cfg, [], map[]);
    Acts(cfg, [], map[], a);
  }

  /** Every funding that ingress accepts, with a fresh settlement id, can be verified and confirmed. */
  lemma FundingCanConfirm(cfg: Config, id: string, payload: Fields, p: Parties) returns (trace: seq<Step>, docs: Docs)
    requires id != "" && cfg.ingressOk(payload) && cfg.settlementId(id, cfg.commit(payload)) != id
    ensures var sid := cfg.settlementId(id, cfg.commit(payload));
      && Reached(cfg, trace, docs) && docs.Keys == {id, sid}
      && docs[id].kind == AuthorizedFunding && docs[id].status == Confirmed && docs[id].commitment == cfg.commit(payload)
      && docs[id].result == Some(p.fundingResult)
      && docs[sid].kind == Settlement && docs[sid].status == Received && docs[sid].id == sid
      && IntentId(docs[sid].payload) == id && docs[sid].commitment == cfg.commit(docs[sid].payload) && docs[sid].retries == []
  {
    hide Reached, IntentId;
    trace, docs := Ingress(cfg, id, payload);
    trace, docs := LeaseStep(cfg, trace, docs, id, NodeVerifying, p.node, 0);
    trace, docs := DecideStep(cfg, trace, docs, id, p.node, 60_000, 0, Verified, Some(p.fundingEvidence));
    trace, docs := LeaseStep(cfg, trace, docs, id, CrankerLeased, p.cranker, 0);
    trace, docs := ReportStep(cfg, trace, docs, id, p.cranker, docs[id].stateVersion, 60_000, 0, Confirmed, Some(p.fundingResult));
  }

  /** And its settlement can then be verified, leased, authorized and confirmed. */
  lemma SettlementCanExecute(cfg: Config, id: string, payload: Fields, p: Parties) returns (trace: seq<Step>)
    requires id != "" && cfg.ingressOk(payload) && cfg.settlementId(id, cfg.commit(payload)) != id
    ensures var sid := cfg.settlementId(id, cfg.commit(payload));
      var docs := Run(cfg, START, trace).docs;
      && id in docs && docs[id].kind == AuthorizedFunding && docs[id].status == Confirmed
      && sid in docs && docs[sid].kind == Settlement && docs[sid].status == Confirmed
  {
    hide IntentId;
    var sid := cfg.settlementId(id, cfg.commit(payload));
    var docs: Docs;
    trace, docs := FundingCanConfirm(cfg, id, payload, p);
    trace, docs := LeaseStep(cfg, trace, docs, sid, NodeVerifying, p.node, 0);
    trace, docs := DecideStep(cfg, trace, docs, sid, p.node, 60_000, 0, Verified, p.settlementEvidence);
    trace, docs := LeaseStep(cfg, trace, docs, sid, CrankerLeased, p.cranker, 0);
    trace, docs := AuthorizeStep(cfg, trace, docs, sid, p.cranker, 60_000, 0, 60, p.authorization);
    trace, docs := ReportStep(cfg, trace, docs, sid, p.cranker, docs[sid].stateVersion, 60_000, 0, Confirmed, p.settlementResult);
  }

  /** A TIN operation with allowed fields can be verified and confirmed. */
  lemma TinCanExecute(cfg: Config, id: string, payload: Fields, p: Parties) returns (trace: seq<Step>)
    requires id != "" && payload.Keys <= TIN_PAYLOAD_KEYS
    ensures var docs := Run(cfg, START, trace).docs; id in docs && docs[id].kind == TinOperation && docs[id].status == Confirmed
  {
    var a := Receive(id, TinOperation, payload);
    var docs: Docs := Apply(cfg, map[], a);
    trace := [] + [Txn(a)];
    assert Reached(cfg, [], map[]);
    Acts(cfg, [], map[], a);
    trace, docs := LeaseStep(cfg, trace, docs, id, NodeVerifying, p.node, 0);
    trace, docs := DecideStep(cfg, trace, docs, id, p.node, 60_000, 0, Verified, Some(p.fundingEvidence));
    trace, docs := LeaseStep(cfg, trace, docs, id, CrankerLeased, p.cranker, 0);
    trace, docs := ReportStep(cfg, trace, docs, id, p.cranker, docs[id].stateVersion, 60_000, 0, Confirmed, Some(p.fundingResult));
  }

  /** A settlement that was rejected because its witness or asset was unavailable can be taken up again, once its
      funding is confirmed with a signature on record, and leased anew. */
  lemma RejectedCanRetry(cfg: Config, id: string, payload: Fields, p: Parties, evidence: Fields) returns (trace: seq<Step>)
    requires id != "" && cfg.ingressOk(payload) && cfg.settlementId(id, cfg.commit(payload)) != id
    requires "signature" in p.fundingResult && p.fundingResult["signature"].Str? && p.fundingResult["signature"].s != ""
    requires "reason" in evidence && evidence["reason"] != Null
    requires "GPRU_HIDDEN_HEAD_WITNESS_UNAVAILABLE:" <= cfg.text(evidence["reason"])
      || cfg.text(evidence["reason"]) == "TCAP settlement asset is unavailable or its reserve binding is invalid"
    ensures var sid := cfg.settlementId(id, cfg.commit(payload));
      var docs := Run(cfg, START, trace).docs;
      && sid in docs && docs[sid].kind == Settlement && docs[sid].status == NodeVerifying && |docs[sid].retries| == 1
  {
    hide IntentId;
    var sid := cfg.settlementId(id, cfg.commit(payload));
    var docs: Docs;
    trace, docs := FundingCanConfirm(cfg, id, payload, p);
    trace, docs := LeaseStep(cfg, trace, docs, sid, NodeVerifying, p.node, 0);
    trace, docs := DecideStep(cfg, trace, docs, sid, p.node, 60_000, 0, Rejected, Some(evidence));
    trace, docs := RetryStep(cfg, trace, docs, sid, id, evidence);
    trace, docs := LeaseStep(cfg, trace, docs, sid, NodeVerifying, p.node, 0);
  }
}
