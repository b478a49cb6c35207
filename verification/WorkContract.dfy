/** The receiver's payload records: compact deltas, redaction and the fields a Cranker may execute. */
module WorkContract {
  import opened Wrappers

  datatype Json = Null | Bool(b: bool) | Num(n: int) | Str(s: string) | Arr(items: seq<Json>) | Obj(fields: Fields)

  type Fields = map<string, Json>

  datatype Kind = AuthorizedFunding | Settlement | TinOperation

  /** Canonical text of a value; two values are the same payload content when their texts agree. */
  type Stable = Json -> string

  datatype PayloadDelta = PayloadDelta(added: Fields, changed: Fields, removed: set<string>)

  /** A stored Node decision: as received, or with the verified payload replaced by a delta. */
  datatype Verification = Raw(evidence: Fields) | Compact(decision: Fields, delta: PayloadDelta)

  function Truthy(j: Json): bool {
    match j
    case Null => false
    case Bool(b) => b
    case Num(n) => n != 0
    case Str(s) => s != ""
    case Arr(_) => true
    case Obj(_) => true
  }

  function Filter(m: Fields, keys: set<string>): Fields {
    map k | k in m && k in keys :: m[k]
  }

  // -------------------------------------------------------------- payload delta

  /** What it means for a delta to lead from `base` to `next`. */
  function DeltaOf(stable: Stable, base: Fields, next: Fields): PayloadDelta {
    PayloadDelta(map k | k in next && k !in base :: next[k],
                 map k | k in next && k in base && stable(base[k]) != stable(next[k]) :: next[k],
                 set k | k in base && k !in next)
  }

  /** `diffPayload`. */
  method DiffPayload(stable: Stable, base: Fields, next: Fields) returns (d: PayloadDelta)
    ensures d == DeltaOf(stable, base, next)
  {
    var added: Fields, changed: Fields, removed := map[], map[], {};
    var todo := next.Keys;
    while todo != {}
      invariant todo <= next.Keys
      invariant added == DeltaOf(stable, base, next - todo).added
      invariant changed == DeltaOf(stable, base, next - todo).changed
    {
      var key :| key in todo;
      if key !in base {
        added := added[key := next[key]];
      } else if stable(base[key]) != stable(next[key]) {
        changed := changed[key := next[key]];
      }
      todo := todo - {key};
    }
    assert next - todo == next;
    todo := base.Keys;
    while todo != {}
      invariant todo <= base.Keys
      invariant removed == set k | k in base && k !in todo && k !in next
    {
      var key :| key in todo;
      if key !in next {
        removed := removed + {key};
      }
      todo := todo - {key};
    }
    d := PayloadDelta(added, changed, removed);
  }

  /** The reader's side of a delta: delete, then overlay. */
  function ApplyDelta(base: Fields, d: PayloadDelta): Fields {
    (base - d.removed) + d.added + d.changed
  }

  /** Equal field sets with `stable`-equal values. */
  ghost predicate SameContent(stable: Stable, a: Fields, b: Fields) {
    a.Keys == b.Keys && forall k :: k in a ==> stable(a[k]) == stable(b[k])
  }

  /** Round trip of a delta on its own base; fields the base never had come back unchanged. */
  lemma DeltaRoundTrip(stable: Stable, base: Fields, next: Fields)
    ensures SameContent(stable, ApplyDelta(base, DeltaOf(stable, base, next)), next)
    ensures forall k :: k in next && k !in base ==> ApplyDelta(base, DeltaOf(stable, base, next))[k] == next[k]
  {
  }

  /** The same delta read over a base that gained fields: they survive unless the delta sets them. */
  lemma DeltaOverLargerBase(stable: Stable, base: Fields, extra: Fields, next: Fields, keys: set<string>)
    requires keys !! base.Keys && keys !! extra.Keys
    ensures Filter(ApplyDelta(base + extra, DeltaOf(stable, base, next)), keys) == Filter(next, keys)
  {
  }

  // -------------------------------------------------------- stored verifications

  function WithVerified(evidence: Fields): Option<Fields> {
    if "verifiedPayload" in evidence && evidence["verifiedPayload"].Obj? then Some(evidence["verifiedPayload"].fields) else None
  }

  /** `compactVerificationPayload`. */
  function CompactVerification(stable: Stable, payload: Fields, evidence: Fields): Verification {
    match WithVerified(evidence)
    case None => Raw(evidence)
    case Some(verified) => Compact(evidence - {"verifiedPayload"}, DeltaOf(stable, payload, verified))
  }

  const FUNDING_VERIFIED_KEYS: set<string> :=
    {"paymentId", "recipientHash", "tokenMintAddress", "amount", "senderSignedFundingTransaction", "senderFundingMode"}

  const FUNDING_DECISION_KEYS: set<string> := {"verificationType", "nodeAttestation", "programSimulation"}

  /** `compactAuthorizedFundingVerification`: only a fixed part of the evidence is kept. */
  function CompactFunding(stable: Stable, payload: Fields, evidence: Fields): Verification {
    var verified := match WithVerified(evidence) case Some(v) => Filter(v, FUNDING_VERIFIED_KEYS) case None => map[];
    CompactVerification(stable, payload, Filter(evidence, FUNDING_DECISION_KEYS)["verifiedPayload" := Obj(verified)])
  }

  /** `verifiedPayloadForWork`. */
  function VerifiedPayload(payload: Fields, verification: Option<Verification>): Option<Fields> {
    match verification
    case None => None
    case Some(Raw(evidence)) => WithVerified(evidence)
    case Some(Compact(decision, delta)) => Some(ApplyDelta(payload, delta))
  }

  // ---------------------------------------------------------- execution payload

  const TIN_EXECUTION_KEYS: set<string> := {
    "intentId", "intentType", "ownerPubkey", "ownerSignature", "ownerIntentHash", "ownerIntentMessage",
    "ownerSignatureMessageFormat", "expiry", "nonce", "lookupCommitment", "encryptedIdentityEnvelope",
    "encryptedTinRecovery", "encryptedMasterSeed", "encryptedMetadataHash", "routeVersion", "routeNonce",
    "tipRouteVersion", "gpruElgamalKeyVersion", "gpruElgamalPublicKey", "gpruElgamalKeyCommitment",
    "gpruBalanceScanKeyVersion", "gpruBalanceScanPublicKeyX", "gpruBalanceScanPublicKeyY", "policyCommitment"}

  const TRANSITION_KEYS: set<string> := {
    "commitmentRoot", "previousTcapRoot", "tcapRootSequence", "tokenId", "amountBaseUnits", "nullifier",
    "validAfterSlot", "expiresAtSlot", "authorizationDigest", "proof", "memoPayload", "memoBodyPayload",
    "memoLedgerSlots", "memoDocument", "memoCommitment", "successorBalancePoint", "assetEntry", "tcapConfig", "reserveState"}

  function ExecutionKeys(kind: Kind): set<string> {
    match kind
    case AuthorizedFunding => {"senderSignedFundingTransaction", "senderFundingMode"}
    case Settlement => {"tcapCreditTransition"}
    case TinOperation => TIN_EXECUTION_KEYS
  }

  /** A settlement's transition is itself cut down to the fields the Cranker needs; an array has none of them. */
  function CutTransition(j: Json): Json {
    match j
    case Obj(fields) => Obj(Filter(fields, TRANSITION_KEYS))
    case Arr(_) => Obj(map[])
    case _ => j
  }

  /** `crankerExecutionPayload`. */
  function ExecutionPayload(kind: Kind, payload: Fields): Fields {
    var filtered := Filter(payload, ExecutionKeys(kind));
    if kind == Settlement && "tcapCreditTransition" in filtered
    then filtered["tcapCreditTransition" := CutTransition(filtered["tcapCreditTransition"])]
    else filtered
  }

  lemma ExecutionReadsOnlyItsKeys(kind: Kind, a: Fields, b: Fields)
    requires Filter(a, ExecutionKeys(kind)) == Filter(b, ExecutionKeys(kind))
    ensures ExecutionPayload(kind, a) == ExecutionPayload(kind, b)
  {
  }

  /** Settlement: the reconstructed record executes exactly what the Node verified. */
  lemma SettlementExecutionExact(stable: Stable, payload: Fields, evidence: Fields)
    requires "tcapCreditTransition" !in payload && WithVerified(evidence).Some?
    ensures VerifiedPayload(payload, Some(CompactVerification(stable, payload, evidence))).Some?
    ensures ExecutionPayload(Settlement, VerifiedPayload(payload, Some(CompactVerification(stable, payload, evidence))).value)
         == ExecutionPayload(Settlement, WithVerified(evidence).value)
  {
    hide ExecutionPayload, ApplyDelta;
    var verified := WithVerified(evidence).value;
    DeltaOverLargerBase(stable, payload, map[], verified, ExecutionKeys(Settlement));
    assert payload + map[] == payload;
    ExecutionReadsOnlyItsKeys(Settlement, ApplyDelta(payload, DeltaOf(stable, payload, verified)), verified);
  }

  /** Funding: exact too, although the delta is taken against the redacted payload and read
      over one that still carries the sealed envelope. */
  lemma FundingExecutionExact(stable: Stable, redacted: Fields, envelope: Fields, evidence: Fields)
    requires redacted.Keys == {"paymentId", "recipientHash"} && envelope.Keys <= {"nodeEncryptedPayload"}
    requires WithVerified(evidence).Some?
    ensures VerifiedPayload(redacted + envelope, Some(CompactFunding(stable, redacted, evidence))).Some?
    ensures ExecutionPayload(AuthorizedFunding, VerifiedPayload(redacted + envelope, Some(CompactFunding(stable, redacted, evidence))).value)
         == ExecutionPayload(AuthorizedFunding, WithVerified(evidence).value)
  {
    hide ExecutionPayload, ApplyDelta, DeltaOf;
    var verified := WithVerified(evidence).value;
    var kept := Filter(verified, FUNDING_VERIFIED_KEYS);
    var delta := DeltaOf(stable, redacted, kept);
    assert CompactFunding(stable, redacted, evidence).Compact? && CompactFunding(stable, redacted, evidence).delta == delta;
    DeltaOverLargerBase(stable, redacted, envelope, kept, ExecutionKeys(AuthorizedFunding));
    assert Filter(kept, ExecutionKeys(AuthorizedFunding)) == Filter(verified, ExecutionKeys(AuthorizedFunding));
    ExecutionReadsOnlyItsKeys(AuthorizedFunding, ApplyDelta(redacted + envelope, delta), verified);
  }

  /** TIN operations: the same fields with `stable`-equal values, because an unchanged field is read from the base. */
  lemma TinExecutionSame(stable: Stable, payload: Fields, evidence: Fields)
    requires WithVerified(evidence).Some?
    ensures VerifiedPayload(payload, Some(CompactVerification(stable, payload, evidence))).Some?
    ensures SameContent(stable,
      ExecutionPayload(TinOperation, VerifiedPayload(payload, Some(CompactVerification(stable, payload, evidence))).value),
      ExecutionPayload(TinOperation, WithVerified(evidence).value))
  {
    hide ApplyDelta, DeltaOf;
    DeltaRoundTrip(stable, payload, WithVerified(evidence).value);
  }

  /** What a Cranker gets of a funding: the signed transaction and its mode, unchanged. */
  lemma FundingExecutionIs(payload: Fields, k: string)
    ensures k in ExecutionPayload(AuthorizedFunding, payload)
       <==> k in payload && (k == "senderSignedFundingTransaction" || k == "senderFundingMode")
    ensures k in ExecutionPayload(AuthorizedFunding, payload) ==> ExecutionPayload(AuthorizedFunding, payload)[k] == payload[k]
  {
  }

  /** What a Cranker gets of a settlement: the transition, in which every field that the Mother check reads is unchanged. */
  lemma SettlementExecutionIs(payload: Fields, k: string)
    ensures k in ExecutionPayload(Settlement, payload) <==> k in payload && k == "tcapCreditTransition"
    ensures "tcapCreditTransition" in payload && payload["tcapCreditTransition"].Obj? ==>
      var transition := ExecutionPayload(Settlement, payload)["tcapCreditTransition"];
      transition.Obj? && forall f :: f in payload["tcapCreditTransition"].fields && f in MOTHER_KEYS ==>
        f in transition.fields && transition.fields[f] == payload["tcapCreditTransition"].fields[f]
  {
    assert MOTHER_KEYS <= TRANSITION_KEYS;
  }

  /** The fields of a transition that the Mother check reads before it signs. */
  const MOTHER_KEYS: set<string> := {
    "previousTcapRoot", "tcapRootSequence", "authorizationDigest", "tokenId", "proof", "amountBaseUnits", "validAfterSlot",
    "expiresAtSlot", "nullifier", "assetEntry", "tcapConfig", "commitmentRoot", "reserveState", "memoPayload", "memoCommitment"}

  /** What a Cranker gets of a TIN operation, field by field. */
  lemma TinExecutionIs(payload: Fields, k: string)
    ensures k in ExecutionPayload(TinOperation, payload) <==> k in payload && k in TIN_EXECUTION_KEYS
    ensures k in ExecutionPayload(TinOperation, payload) ==> ExecutionPayload(TinOperation, payload)[k] == payload[k]
  {
  }

  // ------------------------------------------------------------- funding receipt

  function DecisionFields(v: Verification): Fields {
    match v
    case Raw(evidence) => evidence
    case Compact(decision, _) => decision
  }

  const RECEIPT_KEYS: set<string> := {"paymentId", "tokenMintAddress", "amount"}

  /** `paymentReceiptVerification`: what is kept once funding has confirmed. */
  function ReceiptVerification(stable: Stable, payload: Fields, verification: Option<Verification>): Verification {
    match VerifiedPayload(payload, verification)
    case None => if verification.Some? then verification.value else Raw(map[])
    case Some(verified) =>
      var decision := DecisionFields(verification.value);
      var kind := if "verificationType" in decision && decision["verificationType"] != Null
                  then decision["verificationType"] else Str("TSN_AUTHORIZED_FUNDING");
      var attestation: Fields := if "nodeAttestation" in decision && Truthy(decision["nodeAttestation"])
                                 then map["nodeAttestation" := decision["nodeAttestation"]] else map[];
      CompactVerification(stable, payload,
        (map["verificationType" := kind] + attestation)["verifiedPayload" := Obj(Filter(verified, RECEIPT_KEYS))])
  }

  /** A confirmed funding record still yields its three receipt fields, and no longer the signed transaction. */
  lemma ReceiptKeepsOnlyReceipt(stable: Stable, payload: Fields, verification: Option<Verification>)
    requires VerifiedPayload(payload, verification).Some?
    ensures VerifiedPayload(payload, Some(ReceiptVerification(stable, payload, verification))).Some?
    ensures SameContent(stable, VerifiedPayload(payload, Some(ReceiptVerification(stable, payload, verification))).value,
                        Filter(VerifiedPayload(payload, verification).value, RECEIPT_KEYS))
    ensures ExecutionPayload(AuthorizedFunding,
              VerifiedPayload(payload, Some(ReceiptVerification(stable, payload, verification))).value) == map[]
  {
    hide ApplyDelta, DeltaOf;
    var kept := Filter(VerifiedPayload(payload, verification).value, RECEIPT_KEYS);
    DeltaRoundTrip(stable, payload, kept);
  }

  /** A confirmed funding resolves to the payment id, token and amount that the Node verified, and to nothing else. */
  lemma ReceiptIsExact(stable: Stable, redacted: Fields, envelope: Fields, evidence: Fields)
    requires redacted.Keys == {"paymentId", "recipientHash"} && envelope.Keys <= {"nodeEncryptedPayload"}
    requires WithVerified(evidence).Some?
    ensures var receipt := ReceiptVerification(stable, redacted + envelope, Some(CompactFunding(stable, redacted, evidence)));
      && VerifiedPayload(redacted + envelope, Some(receipt)).Some?
      && SameContent(stable, VerifiedPayload(redacted + envelope, Some(receipt)).value,
                     Filter(WithVerified(evidence).value, {"paymentId", "tokenMintAddress", "amount"}))
  {
    var compact := CompactFunding(stable, redacted, evidence);
    var payload := redacted + envelope;
    FundingResolves(stable, redacted, envelope, evidence);
    ReceiptKeepsOnlyReceipt(stable, payload, Some(compact));
    hide ReceiptVerification, CompactFunding, VerifiedPayload;
  }

  predicate AgreeOn(stable: Stable, a: Fields, b: Fields, k: string) {
    (k in a <==> k in b) && (k in a ==> stable(a[k]) == stable(b[k]))
  }

  /** One field, read through a delta over a larger base. */
  lemma DeltaKey(stable: Stable, base: Fields, extra: Fields, next: Fields, k: string)
    requires k !in extra
    ensures AgreeOn(stable, ApplyDelta(base + extra, DeltaOf(stable, base, next)), next, k)
  {
  }

  lemma AgreeOnAll(stable: Stable, a: Fields, b: Fields, keys: set<string>)
    requires forall k :: k in keys ==> AgreeOn(stable, a, b, k)
    ensures SameContent(stable, Filter(a, keys), Filter(b, keys))
  {
  }

  lemma FilterTwice(m: Fields, keys: set<string>, fewer: set<string>)
    requires fewer <= keys
    ensures Filter(Filter(m, keys), fewer) == Filter(m, fewer)
  {
  }

  lemma CompactFundingIs(stable: Stable, redacted: Fields, evidence: Fields)
    requires WithVerified(evidence).Some?
    ensures CompactFunding(stable, redacted, evidence).Compact?
    ensures CompactFunding(stable, redacted, evidence).delta
         == DeltaOf(stable, redacted, Filter(WithVerified(evidence).value, FUNDING_VERIFIED_KEYS))
  {
    hide DeltaOf;
  }

  lemma FundingResolves(stable: Stable, redacted: Fields, envelope: Fields, evidence: Fields)
    requires redacted.Keys == {"paymentId", "recipientHash"} && envelope.Keys <= {"nodeEncryptedPayload"}
    requires WithVerified(evidence).Some?
    ensures var resolved := VerifiedPayload(redacted + envelope, Some(CompactFunding(stable, redacted, evidence)));
      && resolved.Some?
      && SameContent(stable, Filter(resolved.value, {"paymentId", "tokenMintAddress", "amount"}),
                     Filter(WithVerified(evidence).value, {"paymentId", "tokenMintAddress", "amount"}))
  {
    hide DeltaOf, ApplyDelta, CompactFunding, SameContent, Filter, AgreeOn, WithVerified;
    var verified, keys := WithVerified(evidence).value, {"paymentId", "tokenMintAddress", "amount"};
    var kept := Filter(verified, FUNDING_VERIFIED_KEYS);
    CompactFundingIs(stable, redacted, evidence);
    var resolved := ApplyDelta(redacted + envelope, DeltaOf(stable, redacted, kept));
    forall k | k in keys ensures AgreeOn(stable, resolved, kept, k) {
      DeltaKey(stable, redacted, envelope, kept, k);
    }
    AgreeOnAll(stable, resolved, kept, keys);
    FilterTwice(verified, FUNDING_VERIFIED_KEYS, keys);
  }

  /** The Node's attestation survives verification and confirmation of a funding. */
  lemma AttestationSurvives(stable: Stable, redacted: Fields, payload: Fields, evidence: Fields)
    requires WithVerified(evidence).Some? && "nodeAttestation" in evidence && evidence["nodeAttestation"].Obj?
    ensures var verified := CompactFunding(stable, redacted, evidence);
      var receipt := ReceiptVerification(stable, payload, Some(verified));
      && "nodeAttestation" in DecisionFields(verified) && DecisionFields(verified)["nodeAttestation"] == evidence["nodeAttestation"]
      && "nodeAttestation" in DecisionFields(receipt) && DecisionFields(receipt)["nodeAttestation"] == evidence["nodeAttestation"]
  {
    hide DeltaOf, ApplyDelta;
  }
}
