/** Every interleaving of the receiver's transactions.

    `lease` reads its candidate and the linked funding outside the transaction that
    takes the lease, so a system state also holds the readers that are between those
    steps; any other step may come in between. */
module WorkQueueRuns {
  import opened Wrappers
  import opened WorkContract
  import opened WorkQueue

  datatype Reader = Reader(candidate: Work, next: Status, passed: bool)

  datatype Sys = Sys(docs: Docs, readers: map<nat, Reader>)

  datatype Step =
    | Txn(a: Action)
    | Query(pid: nat, id: string, next: Status)
    | CheckFunding(pid: nat)
    | LeaseTxn(pid: nat, owner: string, now: int)

  predicate FundingConfirmed(docs: Docs, id: string) {
    id in docs && docs[id].kind == AuthorizedFunding && docs[id].status == Confirmed
  }

  /** The funding test on a candidate as it was read; a cranker lease skips it when there is no reference. */
  predicate GateOpen(candidate: Work, next: Status, docs: Docs) {
    candidate.kind == Settlement ==>
      var fundingId := IntentId(candidate.payload);
      (next == CrankerLeased && fundingId == "") || FundingConfirmed(docs, fundingId)
  }

  function Next(cfg: Config, s: Sys, step: Step): Sys {
    match step
    case Txn(a) => if a.TakeLease? then s else s.(docs := Apply(cfg, s.docs, a))
    case Query(pid, id, next) =>
      if LeaseAllowed(s.docs, id, next) then s.(readers := s.readers[pid := Reader(s.docs[id], next, false)]) else s
    case CheckFunding(pid) =>
      if pid in s.readers
      then s.(readers := s.readers[pid := s.readers[pid].(passed := GateOpen(s.readers[pid].candidate, s.readers[pid].next, s.docs))])
      else s
    case LeaseTxn(pid, owner, now) =>
      if pid in s.readers && s.readers[pid].passed
      then Sys(Apply(cfg, s.docs, TakeLease(s.readers[pid].candidate.id, s.readers[pid].next, owner, now)), s.readers - {pid})
      else s
  }

  function Run(cfg: Config, s: Sys, steps: seq<Step>): Sys {
    if steps == [] then s else Next(cfg, Run(cfg, s, steps[..|steps| - 1]), steps[|steps| - 1])
  }

  const START := Sys(map[], map[])

  // ------------------------------------------------------------------ invariant

  predicate BeforeVerified(status: Status) {
    status in {Received, NodeVerifying, Rejected}
  }

  predicate Terminal(status: Status) {
    status in {Submitted, Confirmed, Failed}
  }

  /** A lease is present exactly in the status that it belongs to, and so on, for one document. */
  predicate WorkOk(w: Work) {
    && (w.nodeLease.Some? <==> w.status == NodeVerifying)
    && (w.crankerLease.Some? <==> w.status == CrankerLeased)
    && (w.nodeLease.Some? ==> w.nodeLease.value.version <= w.stateVersion && w.nodeLease.value.leaseId == w.id)
    && (w.crankerLease.Some? ==> w.crankerLease.value.version <= w.stateVersion && w.crankerLease.value.leaseId == w.id)
    && (BeforeVerified(w.status) ==> w.authorization.None? && w.result.None?)
    && (w.authorization.Some? ==> w.authorization.value.leaseVersion < w.stateVersion)
    && (w.kind != Settlement ==> w.id != "")
    && (w.kind == Settlement ==> w.payload.Keys == {"paymentId", "intentId", "source"} && IntentId(w.payload) != "")
  }

  /** A settlement refers to a funding document, and has left RECEIVED only if that one is CONFIRMED. */
  predicate Linked(docs: Docs, w: Work) {
    w.kind == Settlement ==>
      && IntentId(w.payload) in docs && docs[IntentId(w.payload)].kind == AuthorizedFunding
      && (w.status != Received ==> FundingConfirmed(docs, IntentId(w.payload)))
  }

  ghost predicate DocsOk(docs: Docs) {
    forall id :: id in docs ==> docs[id].id == id && WorkOk(docs[id]) && Linked(docs, docs[id])
  }

  ghost predicate ReaderOk(docs: Docs, r: Reader) {
    && LeaseTarget(r.next)
    && r.candidate.id in docs
    && docs[r.candidate.id].kind == r.candidate.kind
    && (r.candidate.kind == Settlement ==> docs[r.candidate.id].payload == r.candidate.payload)
    && (r.passed && r.candidate.kind == Settlement ==> FundingConfirmed(docs, IntentId(r.candidate.payload)))
  }

  ghost predicate Inv(s: Sys) {
    DocsOk(s.docs) && forall pid :: pid in s.readers ==> ReaderOk(s.docs, s.readers[pid])
  }

  // ----------------------------------------------------- what one document may become

  predicate LegalMove(w: Work, to: Status) {
    match w.status
    case Received => to == NodeVerifying
    case NodeVerifying => to in {Verified, Rejected, Received}
    case Verified => to == CrankerLeased
    case Rejected => to == Received && w.kind == Settlement
    case CrankerLeased => to in {Verified, CrankerLeased, Submitted, Confirmed, Failed}
    case _ => false
  }

  /** `b` is `a` some writes later. Transitive, so it relates any two moments of a run. */
  predicate Evolves(a: Work, b: Work) {
    && a.id == b.id && a.kind == b.kind && a.commitment == b.commitment
    && (a.kind == Settlement ==> a.payload == b.payload)
    && a.stateVersion <= b.stateVersion
    && (a.stateVersion == b.stateVersion ==> a == b)
    && (!BeforeVerified(a.status) ==> !BeforeVerified(b.status))
    && (Terminal(a.status) ==> a == b)
    && (!BeforeVerified(a.status) ==> a.payload == b.payload)
    && (!BeforeVerified(a.status) && !Terminal(b.status) ==> a.verification == b.verification)
    && (b.crankerLease.Some? && a.crankerLease != b.crankerLease ==> b.crankerLease.value.version > a.stateVersion)
    && a.retries <= b.retries
  }

  lemma EvolvesTransitive(a: Work, b: Work, c: Work)
    requires Evolves(a, b) && Evolves(b, c)
    ensures Evolves(a, c)
  {
  }

  ghost predicate DocsEvolve(docs: Docs, docs': Docs) {
    forall id :: id in docs ==> id in docs' && Evolves(docs[id], docs'[id])
  }

  /** One write to one existing document. */
  predicate Writes(w: Work, w': Work) {
    WorkOk(w') && Evolves(w, w') && w'.stateVersion == w.stateVersion + 1 && LegalMove(w, w'.status)
  }

  lemma RequeueWrites(docs: Docs, id: string, next: Status, now: int)
    requires DocsOk(docs) && RequeueAllowed(docs, id, next, now)
    ensures Writes(docs[id], Requeued(docs[id], next))
  {
  }

  lemma LeaseWrites(docs: Docs, id: string, next: Status, owner: string, now: int)
    requires DocsOk(docs) && LeaseAllowed(docs, id, next)
    ensures Writes(docs[id], Leased(docs[id], next, owner, now))
  {
  }

  lemma AttachWrites(docs: Docs, id: string, owner: string, expectedVersion: nat, a: Authorization, now: int)
    requires DocsOk(docs) && AttachAllowed(docs, id, owner, expectedVersion, a, now)
    ensures Writes(docs[id], Attached(docs[id], a))
  {
  }

  /** The guard of `transition` reads only leases, yet the move it makes is always legal. */
  lemma TransitionWrites(cfg: Config, docs: Docs, id: string, actor: Actor, owner: string, expectedVersion: nat,
                         status: Status, evidence: Option<Fields>, attested: bool, now: int)
    requires DocsOk(docs) && TransitionAllowed(cfg, docs, id, actor, owner, expectedVersion, status, evidence, attested, now)
    ensures Writes(docs[id], Transitioned(cfg, docs[id], actor, status, EvidenceOf(evidence)))
    ensures docs[id].status == if actor == Node then NodeVerifying else CrankerLeased
  {
    hide NodeVerification, ReceiptVerification, Redacted, Envelope;
  }

  lemma RetryWrites(cfg: Config, docs: Docs, id: string, expectedVersion: nat)
    requires DocsOk(docs) && RetryAllowed(cfg, docs, id, expectedVersion)
    ensures Writes(docs[id], Retried(docs[id], docs[IntentId(docs[id].payload)]))
  {
  }

  /** A write keeps the store sound, if it does not move an unfunded settlement out of RECEIVED. */
  lemma WriteKeepsDocs(docs: Docs, id: string, w': Work)
    requires DocsOk(docs) && id in docs && Writes(docs[id], w')
    requires w'.kind == Settlement && w'.status != Received ==> FundingConfirmed(docs, IntentId(w'.payload))
    ensures DocsOk(docs[id := w']) && DocsEvolve(docs, docs[id := w'])
  {
    hide WorkOk, LegalMove;
    forall other | other in docs ensures Linked(docs[id := w'], docs[id := w'][other]) {
      assert Linked(docs, docs[other]);
    }
  }

  lemma ConfirmedStays(docs: Docs, docs': Docs, id: string)
    requires DocsEvolve(docs, docs') && FundingConfirmed(docs, id)
    ensures FundingConfirmed(docs', id)
  {
  }

  lemma CreateKeepsDocs(docs: Docs, w: Work)
    requires DocsOk(docs) && w.id !in docs && WorkOk(w) && w.status == Received && Linked(docs, w)
    ensures DocsOk(docs[w.id := w]) && DocsEvolve(docs, docs[w.id := w])
  {
    hide WorkOk;
    forall other | other in docs ensures Linked(docs[w.id := w], docs[other]) {
      assert Linked(docs, docs[other]);
    }
  }

  lemma ReceiveKeepsDocs(cfg: Config, docs: Docs, id: string, kind: Kind, payload: Fields)
    requires DocsOk(docs)
    ensures DocsOk(ApplyReceive(cfg, docs, id, kind, payload)) && DocsEvolve(docs, ApplyReceive(cfg, docs, id, kind, payload))
  {
    hide FundingPayload, DocsOk, DocsEvolve, Linked, WorkOk;
    NothingChanged(docs);
    if ReceiveAccepted(cfg, id, kind, payload) {
      var work := IncomingWork(cfg, id, kind, payload);
      var settlementId := cfg.settlementId(id, work.commitment);
      if id in docs {
        ExistingFunding(docs, id);
        if docs[id].kind == kind == AuthorizedFunding && settlementId !in docs {
          SettlementOk(cfg, docs, docs[id], settlementId);
          CreateKeepsDocs(docs, SettlementFor(cfg, docs[id], settlementId));
        }
      } else {
        IncomingOk(cfg, docs, id, kind, payload);
        CreateKeepsDocs(docs, work);
        if kind == AuthorizedFunding && settlementId != id && settlementId !in docs {
          var docs' := docs[id := work];
          SettlementOk(cfg, docs', work, settlementId);
          CreateKeepsDocs(docs', SettlementFor(cfg, work, settlementId));
          DocsEvolveTransitive(docs, docs', docs'[settlementId := SettlementFor(cfg, work, settlementId)]);
        }
      }
    }
  }

  lemma NothingChanged(docs: Docs)
    ensures DocsEvolve(docs, docs)
  {
  }

  lemma ExistingFunding(docs: Docs, id: string)
    requires DocsOk(docs) && id in docs
    ensures docs[id].id == id && (docs[id].kind == AuthorizedFunding ==> id != "")
  {
  }

  lemma IncomingOk(cfg: Config, docs: Docs, id: string, kind: Kind, payload: Fields)
    requires ReceiveAccepted(cfg, id, kind, payload)
    ensures WorkOk(IncomingWork(cfg, id, kind, payload)) && Linked(docs, IncomingWork(cfg, id, kind, payload))
  {
  }

  lemma SettlementOk(cfg: Config, docs: Docs, funding: Work, settlementId: string)
    requires funding.id in docs && docs[funding.id] == funding && funding.kind == AuthorizedFunding && funding.id != ""
    ensures WorkOk(SettlementFor(cfg, funding, settlementId)) && Linked(docs, SettlementFor(cfg, funding, settlementId))
  {
    assert IntentId(SettlementFor(cfg, funding, settlementId).payload) == funding.id;
  }

  lemma DocsEvolveTransitive(a: Docs, b: Docs, c: Docs)
    requires DocsEvolve(a, b) && DocsEvolve(b, c)
    ensures DocsEvolve(a, c)
  {
    hide Evolves;
    forall id | id in a ensures id in c && Evolves(a[id], c[id]) {
      EvolvesTransitive(a[id], b[id], c[id]);
    }
  }

  /** Every transaction except an ungated lease keeps the store sound. */
  lemma ApplyKeepsDocs(cfg: Config, docs: Docs, a: Action)
    requires DocsOk(docs)
    requires a.TakeLease? && a.id in docs && docs[a.id].kind == Settlement ==> FundingConfirmed(docs, IntentId(docs[a.id].payload))
    ensures DocsOk(Apply(cfg, docs, a)) && DocsEvolve(docs, Apply(cfg, docs, a))
  {
    hide DocsOk, DocsEvolve, WorkOk, Writes, Transitioned;
    NothingChanged(docs);
    match a
    case Receive(id, kind, payload) =>
      ReceiveKeepsDocs(cfg, docs, id, kind, payload);
    case Requeue(id, next, now) =>
      if RequeueAllowed(docs, id, next, now) {
        RequeueWrites(docs, id, next, now);
        SettlementFunded(docs, id, Requeued(docs[id], next));
        WriteKeepsDocs(docs, id, Requeued(docs[id], next));
      }
    case TakeLease(id, next, owner, now) =>
      if LeaseAllowed(docs, id, next) {
        LeaseWrites(docs, id, next, owner, now);
        WriteKeepsDocs(docs, id, Leased(docs[id], next, owner, now));
      }
    case Attach(id, owner, expectedVersion, authorization, now) =>
      if AttachAllowed(docs, id, owner, expectedVersion, authorization, now) {
        AttachWrites(docs, id, owner, expectedVersion, authorization, now);
        SettlementFunded(docs, id, Attached(docs[id], authorization));
        WriteKeepsDocs(docs, id, Attached(docs[id], authorization));
      }
    case Transition(id, actor, owner, expectedVersion, status, evidence, attested, now) =>
      if TransitionAllowed(cfg, docs, id, actor, owner, expectedVersion, status, evidence, attested, now) {
        var w' := Transitioned(cfg, docs[id], actor, status, EvidenceOf(evidence));
        TransitionWrites(cfg, docs, id, actor, owner, expectedVersion, status, evidence, attested, now);
        SettlementFunded(docs, id, w');
        WriteKeepsDocs(docs, id, w');
      }
    case RetrySettlement(id, expectedVersion) =>
      if RetryAllowed(cfg, docs, id, expectedVersion) {
        var w' := Retried(docs[id], docs[IntentId(docs[id].payload)]);
        RetryWrites(cfg, docs, id, expectedVersion);
        WriteKeepsDocs(docs, id, w');
      }
  }

  /** A settlement that is already past RECEIVED is funded, whatever it becomes. */
  lemma SettlementFunded(docs: Docs, id: string, w': Work)
    requires DocsOk(docs) && id in docs && Writes(docs[id], w') && docs[id].status != Received
    ensures w'.kind == Settlement && w'.status != Received ==> FundingConfirmed(docs, IntentId(w'.payload))
  {
    hide WorkOk, LegalMove;
    assert Linked(docs, docs[id]);
  }

  // --------------------------------------------------------------------- runs

  lemma ReaderSurvives(docs: Docs, docs': Docs, r: Reader)
    requires DocsEvolve(docs, docs') && ReaderOk(docs, r)
    ensures ReaderOk(docs', r)
  {
    if r.passed && r.candidate.kind == Settlement {
      ConfirmedStays(docs, docs', IntentId(r.candidate.payload));
    }
  }

  lemma ReadersSurvive(docs: Docs, docs': Docs, readers: map<nat, Reader>)
    requires DocsEvolve(docs, docs') && forall pid :: pid in readers ==> ReaderOk(docs, readers[pid])
    ensures forall pid :: pid in readers ==> ReaderOk(docs', readers[pid])
  {
    hide ReaderOk, DocsEvolve;
    forall pid | pid in readers ensures ReaderOk(docs', readers[pid]) {
      ReaderSurvives(docs, docs', readers[pid]);
    }
  }

  lemma NextKeepsInv(cfg: Config, s: Sys, step: Step)
    requires Inv(s)
    ensures Inv(Next(cfg, s, step)) && DocsEvolve(s.docs, Next(cfg, s, step).docs)
  {
    hide DocsOk, DocsEvolve, Apply, Evolves, WorkOk, Linked;
    NothingChanged(s.docs);
    match step
    case Txn(a) =>
      if !a.TakeLease? {
        ApplyKeepsDocs(cfg, s.docs, a);
        ReadersSurvive(s.docs, Apply(cfg, s.docs, a), s.readers);
      }
    case Query(pid, id, next) =>
      if LeaseAllowed(s.docs, id, next) {
        ExistingFunding(s.docs, id);
      }
    case CheckFunding(pid) =>
      if pid in s.readers {
        GateMeansFunded(s.docs, s.readers[pid]);
      }
    case LeaseTxn(pid, owner, now) =>
      if pid in s.readers && s.readers[pid].passed {
        var r := s.readers[pid];
        ApplyKeepsDocs(cfg, s.docs, TakeLease(r.candidate.id, r.next, owner, now));
        ReadersSurvive(s.docs, Apply(cfg, s.docs, TakeLease(r.candidate.id, r.next, owner, now)), s.readers - {pid});
      }
  }

  /** The funding test says what it seems to, because every settlement has a reference. */
  lemma GateMeansFunded(docs: Docs, r: Reader)
    requires DocsOk(docs) && ReaderOk(docs, r)
    ensures GateOpen(r.candidate, r.next, docs) && r.candidate.kind == Settlement
         ==> FundingConfirmed(docs, IntentId(r.candidate.payload))
  {
  }

  lemma {:induction false} RunKeepsInv(cfg: Config, steps: seq<Step>)
    ensures Inv(Run(cfg, START, steps))
  {
    hide Inv, Next;
    if steps == [] {
      StartOk();
    } else {
      RunKeepsInv(cfg, steps[..|steps| - 1]);
      NextKeepsInv(cfg, Run(cfg, START, steps[..|steps| - 1]), steps[|steps| - 1]);
    }
  }

  lemma StartOk()
    ensures Inv(START)
  {
  }

  /** The documents at any two moments of a run. */
  lemma {:induction false} RunEvolves(cfg: Config, steps: seq<Step>, i: nat)
    requires i <= |steps|
    ensures DocsEvolve(Run(cfg, START, steps[..i]).docs, Run(cfg, START, steps).docs)
    decreases |steps|
  {
    hide Inv, Next, DocsEvolve;
    if i == |steps| {
      assert steps[..i] == steps;
      NothingChanged(Run(cfg, START, steps).docs);
    } else {
      var front := steps[..|steps| - 1];
      assert front[..i] == steps[..i];
      RunEvolves(cfg, front, i);
      RunKeepsInv(cfg, front);
      NextKeepsInv(cfg, Run(cfg, START, front), steps[|steps| - 1]);
      DocsEvolveTransitive(Run(cfg, START, steps[..i]).docs, Run(cfg, START, front).docs, Run(cfg, START, steps).docs);
    }
  }

  // ------------------------------------------------------------- main results

  /** In every interleaving, a settlement that is not RECEIVED has its funding CONFIRMED. */
  lemma {:induction false} SettlementsAreFunded(cfg: Config, steps: seq<Step>, id: string)
    requires id in Run(cfg, START, steps).docs
    ensures var docs := Run(cfg, START, steps).docs;
      docs[id].kind == Settlement && docs[id].status != Received ==> FundingConfirmed(docs, IntentId(docs[id].payload))
  {
    hide Run, WorkOk;
    RunKeepsInv(cfg, steps);
    assert Linked(Run(cfg, START, steps).docs, Run(cfg, START, steps).docs[id]);
  }

  /** Leases sit exactly in their own status; work before verification carries no execution state. */
  lemma {:induction false} LeasesMatchStatus(cfg: Config, steps: seq<Step>, id: string)
    requires id in Run(cfg, START, steps).docs
    ensures var w := Run(cfg, START, steps).docs[id];
      && (w.nodeLease.Some? <==> w.status == NodeVerifying)
      && (w.crankerLease.Some? <==> w.status == CrankerLeased)
      && (BeforeVerified(w.status) ==> w.authorization.None? && w.result.None?)
  {
    hide Run;
    RunKeepsInv(cfg, steps);
    assert WorkOk(Run(cfg, START, steps).docs[id]);
  }

  /** One moment `i`, a later moment: versions identify contents, and the past explains the present. */
  lemma {:induction false} PastAndPresent(cfg: Config, steps: seq<Step>, i: nat, id: string)
    requires i <= |steps| && id in Run(cfg, START, steps[..i]).docs
    ensures id in Run(cfg, START, steps).docs
    ensures var past, now := Run(cfg, START, steps[..i]).docs[id], Run(cfg, START, steps).docs[id];
      && past.stateVersion <= now.stateVersion
      && (past.stateVersion == now.stateVersion ==> past == now)
      && (Terminal(past.status) ==> now == past)
      && (past.status == Verified ==> now.status !in {Received, NodeVerifying, Rejected})
      && (BeforeVerified(now.status) ==> past.crankerLease.None? && past.authorization.None? && past.result.None?)
  {
    hide Run, Inv;
    RunEvolves(cfg, steps, i);
    var past, now := Run(cfg, START, steps[..i]).docs[id], Run(cfg, START, steps).docs[id];
    assert Evolves(past, now);
    if BeforeVerified(now.status) {
      LeasesMatchStatus(cfg, steps[..i], id);
    }
  }

  /** No ABA: equal versions at two moments mean the document was the same throughout. */
  lemma {:induction false} NoAba(cfg: Config, steps: seq<Step>, i: nat, k: nat, id: string)
    requires i <= k <= |steps| && id in Run(cfg, START, steps[..i]).docs && id in Run(cfg, START, steps).docs
    requires Run(cfg, START, steps[..i]).docs[id].stateVersion == Run(cfg, START, steps).docs[id].stateVersion
    ensures id in Run(cfg, START, steps[..k]).docs
    ensures Run(cfg, START, steps[..k]).docs[id] == Run(cfg, START, steps).docs[id]
  {
    hide Run;
    assert steps[..k][..i] == steps[..i];
    PastAndPresent(cfg, steps[..k], i, id);
    PastAndPresent(cfg, steps, k, id);
  }

  /** An authorization that survived its lease matches no later lease of the document. */
  lemma {:induction false} LeftoverAuthorizationIsDead(cfg: Config, steps: seq<Step>, i: nat, id: string)
    requires i <= |steps| && id in Run(cfg, START, steps[..i]).docs
    requires Run(cfg, START, steps[..i]).docs[id].authorization.Some? && Run(cfg, START, steps[..i]).docs[id].crankerLease.None?
    ensures id in Run(cfg, START, steps).docs
    ensures var a, now := Run(cfg, START, steps[..i]).docs[id].authorization.value, Run(cfg, START, steps).docs[id];
      now.crankerLease.Some? ==> a.leaseVersion < now.crankerLease.value.version && !AuthorizationMatches(a, now.crankerLease.value)
  {
    hide Run;
    RunEvolves(cfg, steps, i);
    RunKeepsInv(cfg, steps[..i]);
    assert WorkOk(Run(cfg, START, steps[..i]).docs[id]);
    assert Evolves(Run(cfg, START, steps[..i]).docs[id], Run(cfg, START, steps).docs[id]);
  }

  /** A retry only ever applies to work that never reached a Cranker, at any earlier moment. */
  lemma {:induction false} RetryNeverRevivesExecuted(cfg: Config, steps: seq<Step>, i: nat, id: string, expectedVersion: nat)
    requires i <= |steps| && id in Run(cfg, START, steps[..i]).docs
    requires RetryAllowed(cfg, Run(cfg, START, steps).docs, id, expectedVersion)
    ensures var past := Run(cfg, START, steps[..i]).docs[id];
      past.crankerLease.None? && past.authorization.None? && past.result.None? && BeforeVerified(past.status)
  {
    hide Run;
    PastAndPresent(cfg, steps, i, id);
    RunEvolves(cfg, steps, i);
    assert Evolves(Run(cfg, START, steps[..i]).docs[id], Run(cfg, START, steps).docs[id]);
  }

  /** What the Cranker may execute from a record, or nothing. */
  function Executable(w: Work): Fields {
    match VerifiedPayload(w.payload, w.verification)
    case Some(verified) => ExecutionPayload(w.kind, verified)
    case None => map[]
  }

  /** Exactly the verified fields, or for TIN operations the same fields up to canonical text. */
  ghost predicate ExecutesAsVerified(stable: Stable, w: Work, evidence: Fields) {
    WithVerified(evidence).Some? ==>
      var signed := ExecutionPayload(w.kind, WithVerified(evidence).value);
      if w.kind == TinOperation then SameContent(stable, Executable(w), signed) else Executable(w) == signed
  }

  lemma VerifiedRecordExecutes(cfg: Config, w: Work, evidence: Fields)
    requires WorkOk(w)
    ensures ExecutesAsVerified(cfg.stable, NodeDecided(cfg, w, Verified, evidence), evidence)
  {
    hide ExecutionPayload, ApplyDelta, DeltaOf, SameContent;
    if WithVerified(evidence).Some? {
      match w.kind
      case Settlement => SettlementExecutionExact(cfg.stable, w.payload, evidence);
      case AuthorizedFunding => FundingExecutionExact(cfg.stable, Redacted(cfg, w.payload), Envelope(w.payload), evidence);
      case TinOperation => TinExecutionSame(cfg.stable, w.payload, evidence);
    }
  }

  /** The payload the Node verified in step `i` is the payload executable at every later moment before
      a terminal report, across cranker leases, requeues and authorizations. */
  lemma {:induction false} LeasedWorkExecutesAsVerified(cfg: Config, steps: seq<Step>, i: nat, a: Action)
    requires i < |steps| && steps[i] == Txn(a) && a.Transition? && a.actor == Node && a.status == Verified && a.evidence.Some?
    requires TransitionAllowed(cfg, Run(cfg, START, steps[..i]).docs, a.id, a.actor, a.owner, a.expectedVersion, a.status,
                               a.evidence, a.attested, a.now)
    ensures a.id in Run(cfg, START, steps).docs
    ensures !Terminal(Run(cfg, START, steps).docs[a.id].status)
        ==> ExecutesAsVerified(cfg.stable, Run(cfg, START, steps).docs[a.id], a.evidence.value)
  {
    var before := Run(cfg, START, steps[..i]);
    assert steps[..i + 1][..i] == steps[..i];
    assert Run(cfg, START, steps[..i + 1]) == Next(cfg, before, steps[i]);
    hide Run, ExecutesAsVerified, NodeVerification, Inv;
    RunKeepsInv(cfg, steps[..i]);
    SystemDocOk(before, a.id);
    VerifiedRecordExecutes(cfg, before.docs[a.id], a.evidence.value);
    RunEvolves(cfg, steps, i + 1);
    if !Terminal(Run(cfg, START, steps).docs[a.id].status) {
      SameExecutable(cfg.stable, Run(cfg, START, steps[..i + 1]).docs[a.id], Run(cfg, START, steps).docs[a.id], a.evidence.value);
    }
  }

  lemma SystemDocOk(s: Sys, id: string)
    requires Inv(s) && id in s.docs
    ensures WorkOk(s.docs[id])
  {
  }

  lemma SameExecutable(stable: Stable, past: Work, now: Work, evidence: Fields)
    requires Evolves(past, now) && past.status == Verified && !Terminal(now.status) && ExecutesAsVerified(stable, past, evidence)
    ensures ExecutesAsVerified(stable, now, evidence)
  {
    hide SameContent, ExecutionPayload, VerifiedPayload;
  }

  // ------------------------------------------------------------- building runs

  predicate Eligible(docs: Docs, id: string, next: Status, kinds: set<Kind>) {
    && id in docs && docs[id].status == Source(next)
    && (kinds != {} ==> docs[id].kind in kinds)
    && GateOpen(docs[id], next, docs)
  }

  lemma EligibleGate(docs: Docs, id: string, next: Status, kinds: set<Kind>)
    requires Eligible(docs, id, next, kinds)
    ensures id in docs && docs[id].status == Source(next) && (kinds != {} ==> docs[id].kind in kinds)
  {
    hide GateOpen;
  }

  lemma {:induction false} RunNone(cfg: Config, s: Sys)
    ensures Run(cfg, s, []) == s
  {
  }

  lemma {:induction false} RunSnoc(cfg: Config, s: Sys, steps: seq<Step>, step: Step)
    ensures Run(cfg, s, steps + [step]) == Next(cfg, Run(cfg, s, steps), step)
  {
    assert (steps + [step])[..|steps|] == steps;
  }

  /** Candidate read, funding read and lease transaction with nothing in between. */
  lemma GatedLease(cfg: Config, start: Sys, trace: seq<Step>, docs: Docs, id: string, next: Status, owner: string, now: int,
                   kinds: set<Kind>)
    returns (longer: seq<Step>)
    requires Run(cfg, start, trace) == Sys(docs, map[]) && DocsOk(docs) && LeaseTarget(next) && Eligible(docs, id, next, kinds)
    ensures Run(cfg, start, longer) == Sys(Apply(cfg, docs, TakeLease(id, next, owner, now)), map[])
  {
    ExistingFunding(docs, id);
    hide DocsOk, Run, GateOpen, Apply;
    var reader := Reader(docs[id], next, true);
    RunSnoc(cfg, start, trace, Query(0, id, next));
    RunSnoc(cfg, start, trace + [Query(0, id, next)], CheckFunding(0));
    longer := trace + [Query(0, id, next)] + [CheckFunding(0)];
    assert Run(cfg, start, longer) == Sys(docs, map[0 := reader]);
    RunSnoc(cfg, start, longer, LeaseTxn(0, owner, now));
    longer := longer + [LeaseTxn(0, owner, now)];
    assert map[0 := reader] - {0} == map[];
  }
}
