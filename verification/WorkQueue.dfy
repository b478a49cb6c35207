/** The receiver's work documents and the transactions that move them.

    `Apply` gives the store after one committed transaction; the class below runs
    the same transactions on its own documents. Timestamps that no guard reads
    (`receivedAt`, `updatedAt`) are not represented. */
module WorkQueue {
  import opened Wrappers
  import opened WorkContract

  datatype Status = Received | NodeVerifying | Verified | Rejected | CrankerLeased | Submitted | Confirmed | Failed

  datatype Lease = Lease(owner: string, expiresAt: int, leaseId: string, version: nat)

  /** The Node's short-lived authorization of one cranker lease. */
  datatype Authorization = Authorization(leaseId: string, leaseVersion: nat, leaseExpiresAt: int, expiresAtTs: int, body: Fields)

  datatype Retry = Retry(rejectedVersion: nat, rejection: Option<Verification>, fundingId: string, fundingVersion: nat, signature: Json)

  datatype Work = Work(
    id: string, kind: Kind, status: Status, stateVersion: nat, commitment: string, payload: Fields,
    nodeLease: Option<Lease>, crankerLease: Option<Lease>, verification: Option<Verification>,
    result: Option<Fields>, authorization: Option<Authorization>, retries: seq<Retry>)

  type Docs = map<string, Work>

  /** Everything the store calls but does not define: digests, the sealed envelope,
      string conversion and the ingress check on a signed funding payload. */
  datatype Config = Config(
    settlementId: (string, string) -> string, commit: Fields -> string, seal: Fields -> Json,
    text: Json -> string, stable: Stable, ingressOk: Fields -> bool)

  datatype Actor = Node | Cranker

  datatype Action =
    | Receive(id: string, kind: Kind, payload: Fields)
    | Requeue(id: string, next: Status, now: int)
    | TakeLease(id: string, next: Status, owner: string, now: int)
    | Attach(id: string, owner: string, expectedVersion: nat, authorization: Authorization, now: int)
    | Transition(id: string, actor: Actor, owner: string, expectedVersion: nat, status: Status,
                 evidence: Option<Fields>, attested: bool, now: int)
    | RetrySettlement(id: string, expectedVersion: nat)

  const LEASE_MS := 60_000

  function Field(m: Fields, key: string): Json {
    if key in m then m[key] else Null
  }

  /** `String(value ?? "")`. */
  function TextOf(cfg: Config, j: Json): string {
    if j == Null then "" else cfg.text(j)
  }

  /** `String(payload.intentId ?? "")`; ids are stored as strings. */
  function IntentId(payload: Fields): string {
    match Field(payload, "intentId")
    case Str(s) => s
    case _ => ""
  }

  function Signature(cfg: Config, result: Option<Fields>): string {
    match result
    case Some(m) => TextOf(cfg, Field(m, "signature"))
    case None => ""
  }

  // ------------------------------------------------------------------ receive

  const TIN_PAYLOAD_KEYS: set<string> := {
    "intentType", "intentId", "ownerPubkey", "ownerSignature", "ownerIntentHash", "ownerIntentMessage", "nonce", "expiry",
    "lookupCommitment", "lookupIssuanceProof", "encryptedIdentityEnvelope", "encryptedTinRecovery", "encryptedMasterSeed",
    "encryptedMetadataHash", "routeVersion", "routeNonce", "tipRouteVersion", "gpruElgamalKeyVersion",
    "gpruElgamalPublicKey", "gpruElgamalKeyCommitment", "gpruBalanceScanKeyVersion", "gpruBalanceScanPublicKeyX",
    "gpruBalanceScanPublicKeyY", "policyCommitment"}

  /** A TIN operation hands the Cranker what came in, but for the issuance proof; one more field may come from the Node. */
  lemma TinFieldsReachCranker()
    ensures TIN_EXECUTION_KEYS == TIN_PAYLOAD_KEYS - {"lookupIssuanceProof"} + {"ownerSignatureMessageFormat"}
  {
  }

  function NewWork(id: string, kind: Kind, payload: Fields, commitment: string): Work {
    Work(id, kind, Received, 1, commitment, payload, None, None, None, None, None, [])
  }

  function FundingPayload(cfg: Config, payload: Fields): Fields {
    map["paymentId" := Str(TextOf(cfg, Field(payload, "paymentId"))),
        "recipientHash" := Str(TextOf(cfg, Field(payload, "recipientHash"))),
        "tokenMintAddress" := Field(payload, "tokenMintAddress"),
        "amount" := Field(payload, "amount"),
        "nodeEncryptedPayload" := cfg.seal(payload)]
  }

  /** The pre-created settlement of a funding document. */
  function SettlementFor(cfg: Config, funding: Work, settlementId: string): Work {
    var payload: Fields :=
      map["paymentId" := if Field(funding.payload, "paymentId") == Null then Str(funding.id) else Field(funding.payload, "paymentId"),
          "intentId" := Str(funding.id),
          "source" := Str("tsn-receiver-at-ingress")];
    NewWork(settlementId, Settlement, payload, cfg.commit(payload))
  }

  predicate ReceiveAccepted(cfg: Config, id: string, kind: Kind, payload: Fields) {
    && id != ""
    && kind != Settlement
    && (kind == AuthorizedFunding ==> cfg.ingressOk(payload))
    && (kind == TinOperation ==> payload.Keys <= TIN_PAYLOAD_KEYS)
  }

  function IncomingWork(cfg: Config, id: string, kind: Kind, payload: Fields): Work {
    NewWork(id, kind, if kind == AuthorizedFunding then FundingPayload(cfg, payload) else payload, cfg.commit(payload))
  }

  function ApplyReceive(cfg: Config, docs: Docs, id: string, kind: Kind, payload: Fields): Docs {
    if !ReceiveAccepted(cfg, id, kind, payload) then docs
    else
      var work := IncomingWork(cfg, id, kind, payload);
      var settlementId := cfg.settlementId(id, work.commitment);
      if id in docs then
        var current := docs[id];
        if current.commitment != work.commitment || current.kind != kind then docs
        else if kind == AuthorizedFunding && settlementId !in docs
        then docs[settlementId := SettlementFor(cfg, current, settlementId)]
        else docs
      else if kind != AuthorizedFunding then docs[id := work]
      else if settlementId == id || settlementId in docs then docs
      else docs[id := work][settlementId := SettlementFor(cfg, work, settlementId)]
  }

  // ------------------------------------------------------------------- leases

  predicate LeaseTarget(next: Status) {
    next == NodeVerifying || next == CrankerLeased
  }

  function Source(next: Status): Status {
    if next == NodeVerifying then Received else Verified
  }

  function LeaseFor(w: Work, next: Status): Option<Lease> {
    if next == NodeVerifying then w.nodeLease else w.crankerLease
  }

  predicate Expired(lease: Option<Lease>, now: int) {
    lease.Some? ==> lease.value.expiresAt <= now
  }

  predicate RequeueAllowed(docs: Docs, id: string, next: Status, now: int) {
    LeaseTarget(next) && id in docs && docs[id].status == next && Expired(LeaseFor(docs[id], next), now)
  }

  function Requeued(w: Work, next: Status): Work {
    w.(status := Source(next), stateVersion := w.stateVersion + 1, nodeLease := None, crankerLease := None)
  }

  predicate LeaseAllowed(docs: Docs, id: string, next: Status) {
    LeaseTarget(next) && id in docs && docs[id].status == Source(next)
  }

  function Leased(w: Work, next: Status, owner: string, now: int): Work {
    var lease := Some(Lease(owner, now + LEASE_MS, w.id, w.stateVersion + 1));
    var taken := w.(status := next, stateVersion := w.stateVersion + 1);
    if next == NodeVerifying then taken.(nodeLease := lease) else taken.(crankerLease := lease)
  }

  // ------------------------------------------------------------ authorization

  /** `Math.floor(ms / 1000)`: Dafny's division by a positive number also rounds down. */
  function Seconds(ms: int): int {
    ms / 1000
  }

  /** The match demanded between an authorization and the active lease. */
  predicate AuthorizationMatches(a: Authorization, lease: Lease) {
    a.leaseId == lease.leaseId && a.leaseVersion == lease.version && a.leaseExpiresAt == lease.expiresAt
  }

  predicate AttachAllowed(docs: Docs, id: string, owner: string, expectedVersion: nat, a: Authorization, now: int) {
    && id in docs
    && var w := docs[id];
       && w.status == CrankerLeased && w.crankerLease.Some? && w.crankerLease.value.owner == owner
       && w.stateVersion == expectedVersion
       && w.crankerLease.value.expiresAt > now
       && AuthorizationMatches(a, w.crankerLease.value)
       && Seconds(now) < a.expiresAtTs <= Seconds(w.crankerLease.value.expiresAt)
  }

  function Attached(w: Work, a: Authorization): Work {
    w.(authorization := Some(a), stateVersion := w.stateVersion + 1)
  }

  // --------------------------------------------------------------- transition

  function ActorLease(w: Work, actor: Actor): Option<Lease> {
    if actor == Node then w.nodeLease else w.crankerLease
  }

  predicate ActorMay(actor: Actor, status: Status) {
    if actor == Node then status in {Verified, Rejected} else status in {Submitted, Confirmed, Failed}
  }

  /** A repeated cranker report with the stored signature changes nothing. */
  predicate Replayed(cfg: Config, w: Work, actor: Actor, status: Status, evidence: Option<Fields>) {
    && actor == Cranker && w.status == status
    && Signature(cfg, w.result) != "" && Signature(cfg, w.result) == Signature(cfg, evidence)
  }

  /** The guard in front of the write; it tests the lease, never the current status. */
  predicate TransitionAllowed(cfg: Config, docs: Docs, id: string, actor: Actor, owner: string, expectedVersion: nat,
                              status: Status, evidence: Option<Fields>, attested: bool, now: int) {
    && id in docs
    && var w := docs[id]; var lease := ActorLease(w, actor);
       && !Replayed(cfg, w, actor, status, evidence)
       && lease.Some? && lease.value.owner == owner && lease.value.expiresAt > now
       && w.stateVersion == expectedVersion
       && (actor == Node ==> attested)
       && ActorMay(actor, status)
  }

  function Redacted(cfg: Config, payload: Fields): Fields {
    map["paymentId" := Str(TextOf(cfg, Field(payload, "paymentId"))),
        "recipientHash" := Str(TextOf(cfg, Field(payload, "recipientHash")))]
  }

  function Envelope(payload: Fields): Fields {
    if Truthy(Field(payload, "nodeEncryptedPayload")) then map["nodeEncryptedPayload" := Field(payload, "nodeEncryptedPayload")]
    else map[]
  }

  function EvidenceOf(evidence: Option<Fields>): Fields {
    if evidence.Some? then evidence.value else map[]
  }

  function NodeVerification(cfg: Config, w: Work, status: Status, evidence: Fields): Verification {
    if status == Verified && Truthy(Field(evidence, "verifiedPayload")) then
      if w.kind == AuthorizedFunding then CompactFunding(cfg.stable, Redacted(cfg, w.payload), evidence)
      else CompactVerification(cfg.stable, w.payload, evidence)
    else Raw(evidence)
  }

  function NodeDecided(cfg: Config, w: Work, status: Status, evidence: Fields): Work {
    w.(status := status, stateVersion := w.stateVersion + 1, nodeLease := None,
       verification := Some(NodeVerification(cfg, w, status, evidence)),
       payload := if w.kind == AuthorizedFunding then Redacted(cfg, w.payload) + Envelope(w.payload) else w.payload)
  }

  function CrankerReported(cfg: Config, w: Work, status: Status, evidence: Fields): Work {
    w.(status := status, stateVersion := w.stateVersion + 1, crankerLease := None, result := Some(evidence),
       verification := if status == Confirmed && w.kind == AuthorizedFunding
                       then Some(ReceiptVerification(cfg.stable, w.payload, w.verification)) else w.verification,
       authorization := if status == Confirmed && w.kind == Settlement then None else w.authorization)
  }

  function Transitioned(cfg: Config, w: Work, actor: Actor, status: Status, evidence: Fields): Work {
    if actor == Node then NodeDecided(cfg, w, status, evidence) else CrankerReported(cfg, w, status, evidence)
  }

  // -------------------------------------------------------------------- retry

  const WITNESS_UNAVAILABLE := "GPRU_HIDDEN_HEAD_WITNESS_UNAVAILABLE:"
  const ASSET_UNAVAILABLE := "TCAP settlement asset is unavailable or its reserve binding is invalid"

  predicate RetryReason(cfg: Config, verification: Option<Verification>) {
    && verification.Some?
    && var reason := TextOf(cfg, Field(DecisionFields(verification.value), "reason"));
       WITNESS_UNAVAILABLE <= reason || reason == ASSET_UNAVAILABLE
  }

  /** `snapshotRetryPatch`: every guard, in terms of the settlement and its funding. */
  predicate RetryAllowed(cfg: Config, docs: Docs, id: string, expectedVersion: nat) {
    && id in docs
    && var w := docs[id]; var fundingId := IntentId(w.payload);
       && fundingId != "" && fundingId in docs
       && var funding := docs[fundingId];
          && w.stateVersion == expectedVersion
          && w.kind == Settlement && w.status == Rejected
          && RetryReason(cfg, w.verification)
          && w.nodeLease.None? && w.crankerLease.None? && w.authorization.None?
          && (w.result.Some? ==> w.result.value == map[])
          && funding.kind == AuthorizedFunding && funding.status == Confirmed
          && funding.result.Some? && Truthy(Field(funding.result.value, "signature"))
          && w.id == cfg.settlementId(funding.id, funding.commitment)
          && IntentId(w.payload) == funding.id && cfg.commit(w.payload) == w.commitment
  }

  function Retried(w: Work, funding: Work): Work
    requires funding.result.Some?
  {
    w.(status := Received, stateVersion := w.stateVersion + 1, verification := None, nodeLease := None, crankerLease := None,
       authorization := None,
       retries := w.retries + [Retry(w.stateVersion, w.verification, funding.id, funding.stateVersion,
                                     Field(funding.result.value, "signature"))])
  }

  // -------------------------------------------------------------- transactions

  /** The documents after one transaction; a transaction that throws changes nothing. */
  function Apply(cfg: Config, docs: Docs, a: Action): Docs {
    match a
    case Receive(id, kind, payload) => ApplyReceive(cfg, docs, id, kind, payload)
    case Requeue(id, next, now) =>
      if RequeueAllowed(docs, id, next, now) then docs[id := Requeued(docs[id], next)] else docs
    case TakeLease(id, next, owner, now) =>
      if LeaseAllowed(docs, id, next) then docs[id := Leased(docs[id], next, owner, now)] else docs
    case Attach(id, owner, expectedVersion, authorization, now) =>
      if AttachAllowed(docs, id, owner, expectedVersion, authorization, now)
      then docs[id := Attached(docs[id], authorization)] else docs
    case Transition(id, actor, owner, expectedVersion, status, evidence, attested, now) =>
      if TransitionAllowed(cfg, docs, id, actor, owner, expectedVersion, status, evidence, attested, now)
      then docs[id := Transitioned(cfg, docs[id], actor, status, EvidenceOf(evidence))] else docs
    case RetrySettlement(id, expectedVersion) =>
      if RetryAllowed(cfg, docs, id, expectedVersion)
      then docs[id := Retried(docs[id], docs[IntentId(docs[id].payload)])] else docs
  }
}
