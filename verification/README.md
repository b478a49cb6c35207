# TSN protocol model

Dafny models of the parts of the TSN payment system where correctness rests on agreement between
pieces of code that never meet: an incremental root and a rebuilt one, a lease transaction and a gate
that was read earlier, a printer in one language and a parser in another.

| module | models |
|---|---|
| `Wrappers`, `Sequences` | the shared result types and facts on slices |
| `SparseTrees` | sparse Merkle trees against the dense tree over all 2^depth leaves |
| `Groups`, `PointGroup` | scalar multiplication and the blinding cipher over any abelian group |
| `HiddenHeads`, `HiddenHeadRuns`, `HiddenHeadStore`, `HiddenHeadNodes`, `HiddenHeadBinding` | snapshots of the hidden-head maps, runs of credits, the witness store that prepares, finishes and publishes them, several Nodes interleaving on one directory, and what a root binds |
| `WorkContract`, `WorkQueue`, `WorkQueueRuns`, `WorkQueueProgress`, `ReceiverStore` | payload deltas, the receiver's transactions, what holds in every interleaving of them, what can be reached, and the store object that runs them |
| `WideScalar`, `Bn254Scalar` | the two hand-written modular reductions |
| `DnaKeys` | one-time key derivation, its public proof as verified on the host and on the chain, and owner recovery |
| `CrankerAuth` | challenges, sessions, counters and the rate limit under pruning |
| `Base58`, `LedgerMemo`, `SolanaMessage`, `CanonicalMessage` | printers and parsers |

The source's stateful objects are classes or in-place array methods here. Each method is proved against a
specification function or relation, and the theorems are about runs of those specifications: `Run` takes
every interleaving of the receiver's transactions, `Replay` every sequence of credits, `Play` and `Elapse`
every sequence of session and rate-limit events.

Hashes are function parameters, so the results on trees and roots hold for every compression function. Only the
binding results of `HiddenHeadBinding` assume that the hash separates the inputs that two rebuilds actually hash.
The curve is any abelian group in which the fixed generators have the required order. Random values and clocks are
arguments.

Where a property fails for some inputs, the failing case is kept as the code has it and the exact condition
is proved: a zero memo or action commitment (`CreditedValidIff`, with `ZeroMemoRefused`), an all-zero byte
string in base58 (`DecodeEncodeIff`, with `OneZeroByteGrows`), a whole amount of a token with one decimal
(`AmountRoundTripIff`, with `OneDecimalFails`), a field text that does not survive splitting and trimming
(`BuildParseRoundTripIff`, with `TwoLineDisplayName`), a derived key whose challenge reduces to zero, which the
on-chain verifier refuses although the host accepts it (`OnChainIff`, with `ZeroChallengeRefused`), and a
rate-limit bucket whose document was pruned before a late commit (`NextPassesIff`, with `LateCommitExceeds`).

Verify with `dafny verify dfyconfig.toml`.

## Model

| member | source | states |
|---|---|---|
| `SparseTrees.Build` | services/tsn-node/hidden_head_witness.py:49-68 | accepts exactly the leaf tables inside the depth and the field; every level it stores, although it drops zero leaves and empty digests, agrees with the dense 2^depth tree, root included |
| `SparseTrees.ParentLevel` | services/tsn-node/hidden_head_witness.py:58-67 | one level up: the stored nodes again determine every dense node of that level |
| `SparseTrees.Siblings` | services/tsn-node/hidden_head_witness.py:70-71 | the siblings read from the sparse levels are the dense siblings, for present and absent indices |
| `SparseTrees.PathRoot` | services/tsn-node/hidden_head_witness.py:74-78 | the loop computes the climb from a leaf along its siblings |
| `SparseTrees.ClimbFromOwnLeaf` | services/tsn-node/hidden_head_witness.py:70-78 | climbing from the leaf that is there, or from zero, along its siblings gives the root, for every depth, table and index |
| `SparseTrees.ClimbIsRebuiltRoot` | services/tsn-node/hidden_head_witness.py:74-78 | climbing with another leaf value along the OLD siblings gives the root of the tree rebuilt with that value |
| `SparseTrees.ClimbUsesLowBits` | services/tsn-node/hidden_head_witness.py:74-78 | only the low `depth` bits of the index matter, so an unreduced 254-bit key may be used |
| `SparseTrees.OffPathUnchanged` | services/tsn-node/hidden_head_witness.py:49-68 | changing one leaf changes no node off its path |
| `SparseTrees.TwoLeaves` | services/tsn-node/hidden_head_witness.py:53-67 | a tree of two leaves hashes the left one first, and a missing leaf is zero |
| `PointGroup.BabyjubMul` | services/tsn-node/gpru_crypto.py:30-38 | double-and-add equals repeated addition for every scalar, and terminates |
| `PointGroup.HalvingStep` | services/tsn-node/gpru_crypto.py:30-38 | one doubling step preserves result + n·base |
| `PointGroup.CheckPoint` | services/tsn-node/hidden_head_witness.py:81-89 | accepts exactly the curve points killed by the subgroup order |
| `PointGroup.EncryptDelta` | services/tsn-node/gpru_crypto.py:41-68 | succeeds exactly for a non-identity subgroup scan key and a delta in range; both carry equations hold, with sharedXCarry at most 7 and encryptedDeltaCarry at most 1 |
| `PointGroup.OwnerDecryptsDelta` | services/tsn-node/gpru_crypto.py:41-68 | the holder of the scan secret recovers the blinding delta from the cipher, for every delta below the suborder |
| `PointGroup.SuborderTimesCofactor` | services/tsn-node/gpru_crypto.py:41-68 | the subgroup order times 8 is the order of the Baby Jubjub curve, and the field holds it seven times |
| `Groups.MulOfSum` | services/tsn-node/gpru_crypto.py:30-38 | (a + b)·P = a·P + b·P |
| `Groups.MulOfProduct` | services/tsn-node/gpru_crypto.py:30-38 | (ab)·P = b·(a·P) |
| `Groups.MulOfAdd` | services/tsn-node/gpru_crypto.py:30-38 | n·(P + Q) = n·P + n·Q |
| `HiddenHeads.UnreducedClimb` | services/tsn-node/hidden_head_witness.py:228-236 | a climb with the unreduced key from the siblings of its index rebuilds the tree with the new leaf |
| `HiddenHeads.PortfolioClimb` | services/tsn-node/hidden_head_witness.py:202-203 | the portfolio root computed from old siblings is the root of the edited portfolio |
| `HiddenHeads.IncrementalEqualsRebuilt` | services/tsn-node/hidden_head_witness.py:228-246 | three nested climbs over the old siblings give the root that a rebuild of the edited snapshot gives |
| `HiddenHeads.CreditedValidIff` | services/tsn-node/hidden_head_witness.py:153-183 | the edited snapshot passes every structural check again exactly when memo and action commitments are non-zero |
| `HiddenHeads.ZeroMemoRefused` | services/tsn-node/hidden_head_witness.py:228-246 | a concrete credit that is completed with memo commitment zero and whose snapshot is refused afterwards |
| `HiddenHeads.SuccessorPointValid` | services/tsn-node/hidden_head_witness.py:196-201 | the successor balance is again a subgroup point, whatever the amount and delta |
| `HiddenHeads.HeadLeavesPut` | services/tsn-node/hidden_head_witness.py:153-168 | putting a head under a free or own key changes exactly the leaf at its index |
| `HiddenHeadRuns.NoNullifierTwice` | services/tsn-node/hidden_head_witness.py:170-183 | no two credits of a run from the empty snapshot use the same nullifier |
| `HiddenHeadRuns.SequencesCountNullifiers` | services/tsn-node/hidden_head_witness.py:228-246 | the head sequences of any run add up to its credits and to its nullifiers |
| `HiddenHeadRuns.BalancesAreCommitments` | services/tsn-node/hidden_head_witness.py:194-201 | every stored point is (sum of amounts)·G + (sum of deltas)·H for that head and token |
| `HiddenHeadRuns.StepFrame` | services/tsn-node/hidden_head_witness.py:239-246 | a credit changes one head and one token, and raises that head's sequence by one |
| `HiddenHeadRuns.RunValidIff` | services/tsn-node/hidden_head_witness.py:150-183 | a snapshot reached by a run is accepted again exactly when its last credit had non-zero commitments |
| `HiddenHeadRuns.RunIndicesDistinct` | services/tsn-node/hidden_head_witness.py:153-159 | the head indices of a snapshot reached by a run are distinct, so it has a root |
| `HiddenHeadBinding.RootBinds` | services/tsn-node/hidden_head_witness.py:153-179 | with a hash that separates what the two rebuilds hash, two valid snapshots under one shared root have the same heads, balance points and nullifiers |
| `HiddenHeadBinding.PortfolioBinds` | services/tsn-node/hidden_head_witness.py:92-101 | the portfolio root binds every balance point |
| `HiddenHeadBinding.TreeBinds` | services/tsn-node/hidden_head_witness.py:49-68 | equal roots have equal leaves |
| `HiddenHeadBinding.ChangedFileRefused` | services/tsn-node/hidden_head_witness.py:150-179 | a file changed in any balance, head or nullifier is refused under its old root |
| `HiddenHeadBinding.ActionBinds` | services/tsn-node/hidden_head_witness.py:204-204 | the action commitment binds token, amount, authorization and nullifier |
| `HiddenHeadBinding.RouteBinds` | services/tsn-node/hidden_head_witness.py:133-139 | the route leaf binds the reduced commitments and the scan key |
| `HiddenHeadStore.RebuildPortfolio` | services/tsn-node/hidden_head_witness.py:92-101 | accepts exactly the valid portfolios and builds their tree |
| `HiddenHeadStore.RebuildHeads` | services/tsn-node/hidden_head_witness.py:153-168 | accepts exactly valid heads with distinct 128-bit indices and returns their leaf table |
| `HiddenHeadStore.RebuildNullifiers` | services/tsn-node/hidden_head_witness.py:170-176 | accepts exactly non-zero nullifiers in distinct slots and returns their leaf table |
| `HiddenHeadStore.FindRoute` | services/tsn-node/hidden_head_witness.py:140-148 | accepts exactly when the route leaf is listed once, no leaf is zero and the tree has the TIP root; the index and siblings then open that root |
| `HiddenHeadStore.OpenSnapshot` | services/tsn-node/hidden_head_witness.py:150-179 | accepts exactly a valid file that rebuilds to the requested root |
| `HiddenHeadStore.DeriveWitness` | services/tsn-node/hidden_head_witness.py:126-226 | accepts exactly the credits that satisfy every check, and fills the witness from the old trees |
| `HiddenHeadStore.AcceptsIff` | services/tsn-node/hidden_head_witness.py:126-195 | the requests that are accepted, bound by bound, in terms of the numbers in the source |
| `HiddenHeadStore.SnapshotIff` | services/tsn-node/hidden_head_witness.py:153-176 | the snapshots that pass the structural checks, bound by bound |
| `HiddenHeadStore.WitnessOpensOldRoot` | services/tsn-node/hidden_head_witness.py:205-226 | the siblings in a witness open the old shared root and the old portfolio root, for old and new heads and tokens |
| `HiddenHeadStore.HiddenHeadWitnessStore.constructor` | services/tsn-node/hidden_head_witness.py:122-124 | a store with only the empty snapshot, filed under the root it rebuilds to |
| `HiddenHeadStore.HiddenHeadWitnessStore.PrepareCredit` | services/tsn-node/hidden_head_witness.py:126-226 | succeeds exactly on acceptable requests; the candidate carries the witness and the unedited snapshot |
| `HiddenHeadStore.HiddenHeadWitnessStore.FinishCredit` | services/tsn-node/hidden_head_witness.py:228-246 | the incremental root is the root of the edited snapshot; refused exactly for a memo outside the field or an unchanged root |
| `HiddenHeadStore.HiddenHeadWitnessStore.SaveCandidate` | services/tsn-node/hidden_head_witness.py:248-267 | publishes without overwriting; every file stays reached by a legal run and rebuilds to the root in its name |
| `HiddenHeadStore.HiddenHeadWitnessStore.PublishCredit` | services/tsn-node/server.py:2852-2877 | the three calls in sequence: the store stays valid, a new file is accepted as a snapshot exactly when its commitments are non-zero, and an acceptable proved credit fails only on a root collision |
| `HiddenHeadNodes.EveryFileRebuilds` | services/tsn-node/hidden_head_witness.py:126-267 | however several Nodes interleave on one directory, every file is the snapshot of a legal run and rebuilds to the root in its name |
| `HiddenHeadNodes.FilesStay` | services/tsn-node/hidden_head_witness.py:248-267 | however they interleave, a published file never changes and is never removed |
| `HiddenHeadNodes.CandidateStaysGood` | services/tsn-node/hidden_head_witness.py:228-267 | whatever was published since, the file a Node prepared from is the one it loaded, and its candidate rebuilds to its root and is accepted exactly when its commitments are non-zero |
| `HiddenHeadNodes.AcceptedCanBePublished` | services/tsn-node/server.py:2852-2877 | after any interleaving, a credit accepted against a file can be finished and published, unless the hash maps it to its predecessor's root |
| `WorkContract.DiffPayload` | services/tsn-receiver/lib/work-contract.ts:125-135 | the loops compute the delta: added, changed and removed fields |
| `WorkContract.DeltaRoundTrip` | services/tsn-receiver/lib/work-contract.ts:125-185 | applying a delta to its base gives the verified payload, with stable-equal values |
| `WorkContract.DeltaOverLargerBase` | services/tsn-receiver/lib/work-contract.ts:172-185 | on keys outside the base the delta gives exactly the verified fields, even over a base with more fields than it was taken from |
| `WorkContract.SettlementExecutionExact` | services/tsn-receiver/lib/work-contract.ts:138-149 | a settlement record executes exactly what the Node verified |
| `WorkContract.FundingExecutionExact` | services/tsn-receiver/lib/work-contract.ts:151-169 | so does a funding record, although the delta is taken against the redacted payload and read over one that keeps the sealed envelope |
| `WorkContract.TinExecutionSame` | services/tsn-receiver/lib/work-contract.ts:188-214 | a TIN record executes the verified fields with stable-equal values |
| `WorkContract.FundingExecutionIs` | services/tsn-receiver/lib/work-contract.ts:188-214 | the Cranker gets of a funding exactly the signed transaction and its mode, unchanged |
| `WorkContract.SettlementExecutionIs` | services/tsn-receiver/lib/work-contract.ts:188-214 | of a settlement exactly the transition, in which every field that the Mother check reads is unchanged |
| `WorkContract.TinExecutionIs` | services/tsn-receiver/lib/work-contract.ts:188-203 | of a TIN operation exactly the listed fields, unchanged |
| `WorkQueue.TinFieldsReachCranker` | services/tsn-receiver/lib/work-contract.ts:193-201 | the listed fields are those that ingress admits, but for the issuance proof, and one more |
| `WorkContract.ReceiptKeepsOnlyReceipt` | services/tsn-receiver/lib/store.ts:24-35 | after confirmation a funding record resolves to the receipt fields only, and nothing can be executed from it |
| `WorkContract.ReceiptIsExact` | services/tsn-receiver/lib/store.ts:24-35 | from the Node's evidence to the confirmed record: payment id, token and amount as verified, and nothing else |
| `WorkContract.AttestationSurvives` | services/tsn-receiver/lib/work-contract.ts:163-168 | the Node's attestation survives verification and confirmation of a funding |
| `WorkQueueRuns.SettlementsAreFunded` | services/tsn-receiver/lib/store.ts:184-254 | in every reachable store and interleaving, a settlement that is not RECEIVED has its funding CONFIRMED, although the gate is read outside the lease transaction |
| `WorkQueueRuns.LeasesMatchStatus` | services/tsn-receiver/lib/store.ts:198-250 | nodeLease is set exactly in NODE_VERIFYING and crankerLease exactly in CRANKER_LEASED; work before VERIFIED has no authorization or result |
| `WorkQueueRuns.TransitionWrites` | services/tsn-receiver/lib/store.ts:294-347 | whenever its guard passes, which never reads the status, a transition leaves NODE_VERIFYING or CRANKER_LEASED by a legal move |
| `WorkQueueRuns.PastAndPresent` | services/tsn-receiver/lib/store.ts:116-361 | versions never fall, an equal version means an equal document, terminal documents never change, VERIFIED work never goes back, and work before VERIFIED never had execution state |
| `WorkQueueRuns.NoAba` | services/tsn-node/server.py:3203-3208 | equal versions at two reads mean the document was the same at every moment in between |
| `WorkQueueRuns.LeftoverAuthorizationIsDead` | services/tsn-cranker-op-daemon/scripts/cranker.ts:567-571 | an authorization left attached by a requeue matches no later lease |
| `WorkQueueRuns.RetryNeverRevivesExecuted` | services/tsn-receiver/lib/settlement-retry.ts:5-33 | work that may be retried never carried a cranker lease, an authorization or a result, at any earlier moment |
| `WorkQueueRuns.LeasedWorkExecutesAsVerified` | services/tsn-receiver/lib/work-contract.ts:172-214 | from the Node's decision to the Cranker's report, in every interleaving, the executable payload stays the one the Node verified |
| `WorkQueueRuns.NextKeepsInv` | services/tsn-receiver/lib/store.ts:37-361 | every step of every reader and transaction keeps the invariant, and only evolves documents |
| `WorkQueueRuns.RetryWrites` | services/tsn-receiver/lib/settlement-retry.ts:5-33 | a retry is a legal move from REJECTED to RECEIVED |
| `WorkQueueProgress.FundingCanConfirm` | services/tsn-receiver/lib/store.ts:268-347 | from the empty store, every funding that ingress accepts, with a fresh settlement id, has a run in which it is confirmed, whatever the parties report |
| `WorkQueueProgress.SettlementCanExecute` | services/tsn-receiver/lib/store.ts:150-347 | and its settlement can then be verified, leased, authorized and confirmed |
| `WorkQueueProgress.RejectedCanRetry` | services/tsn-receiver/lib/settlement-retry.ts:5-33 | a settlement rejected for one of the two retriable reasons can be taken up again and leased anew |
| `WorkQueueProgress.TinCanExecute` | services/tsn-receiver/lib/store.ts:37-90 | a TIN operation with admitted fields can be verified and confirmed |
| `WorkQueueProgress.RecoverStep` | services/tsn-receiver/lib/store.ts:193-212 | after a lease expired the document can be requeued and leased by somebody else, its papers unchanged |
| `ReceiverStore.WorkStore.ReceiveWork` | services/tsn-receiver/lib/store.ts:37-90 | ingress is the Receive transaction; done exactly for admitted payloads that conflict with nothing stored, and then a funding has its RECEIVED settlement |
| `ReceiverStore.WorkStore.RequeueStale` | services/tsn-receiver/lib/store.ts:198-211 | moves the document back exactly when its status is still leased and its lease is not live |
| `ReceiverStore.WorkStore.TakeLeaseOn` | services/tsn-receiver/lib/store.ts:235-250 | leases exactly from RECEIVED or VERIFIED, for 60 seconds, under the next version |
| `ReceiverStore.WorkStore.LeaseNext` | services/tsn-receiver/lib/store.ts:184-254 | requeues the overdue documents one by one, then leases exactly the first eligible candidate, if any, with a fresh clock reading at each look; the whole effect is a run of the interleaving model |
| `ReceiverStore.WorkStore.RequeueEach` | services/tsn-receiver/lib/store.ts:193-212 | the requeue loop, with its look before each transaction: listed documents whose lease is overdue throughout go back, unlisted ones stay |
| `ReceiverStore.WorkStore.AttachCrankerAuthorization` | services/tsn-receiver/lib/store.ts:150-182 | attaches exactly when owner, version, lease id, lease version and both expiries match |
| `ReceiverStore.WorkStore.MakeTransition` | services/tsn-receiver/lib/store.ts:268-361 | done exactly for the live lease of that owner, the expected version and VERIFIED or REJECTED from an attested Node, SUBMITTED, CONFIRMED or FAILED from a Cranker, or for a replay; what is stored is stated, and the same signed report again is a replay |
| `ReceiverStore.WorkStore.RetrySettlementSnapshot` | services/tsn-receiver/lib/store.ts:116-134 | done exactly for the expected version and a rejected settlement that may be retried; RECEIVED again without decision or execution state, and one more retry on record |
| `WideScalar.ReduceWideScalar` | programs/gpru/src/stealth_keys.rs:267-304 | for every 64 bytes, the result is the little-endian value modulo the group order, below the order (section 4.4 of RFC 9496) |
| `WideScalar.Round` | programs/gpru/src/stealth_keys.rs:269-297 | one bit: the shift cannot overflow four limbs and one conditional subtraction restores a remainder |
| `WideScalar.ShiftIn` | programs/gpru/src/stealth_keys.rs:271-276 | the limb shift doubles the value exactly, carry out included |
| `WideScalar.AtLeastOrder` | programs/gpru/src/stealth_keys.rs:278-287 | limb comparison from the top decides value >= order |
| `WideScalar.SubtractOrder` | programs/gpru/src/stealth_keys.rs:288-296 | the double-borrow chain subtracts the order exactly, with no borrow left |
| `WideScalar.DoubleBorrow` | programs/gpru/src/stealth_keys.rs:291-294 | two wrapping subtractions and an or of their flags are one subtraction with borrow |
| `WideScalar.ScalarIsCanonical` | programs/gpru/src/stealth_keys.rs:255-265 | accepts exactly the values below the order |
| `Bn254Scalar.SubtractModulus` | programs/gpru/src/hidden_head.rs:423-434 | the byte-wise borrow chain subtracts the modulus exactly, in place |
| `Bn254Scalar.Sha256ToBn254Scalar` | programs/gpru/src/hidden_head.rs:421-437 | for every digest the result is the value modulo p, byte for byte the Python reduction, after at most five subtractions |
| `Bn254Scalar.LexIsNumeric` | programs/gpru/src/hidden_head.rs:422-422 | byte-array order is numeric order |
| `Bn254Scalar.IsCanonical` | programs/gpru/src/hidden_head.rs:439-441 | accepts exactly the values below the modulus |
| `Bn254Scalar.BytesOfValue` | services/tsn-node/dbrix_transaction_record.py:21-23 | to_bytes undoes from_bytes on byte strings, so both reductions print the same bytes |
| `DnaKeys.DerivedIsAccepted` | programs/gpru/src/stealth_keys.rs:102-154 | every key and proof that derivation returns is accepted by the host verifier |
| `DnaKeys.OnChainIff` | programs/gpru/src/stealth_keys.rs:231-398 | the verifier compiled for the chain, with the identity refusals of its checked multiply and add, accepts what the host verifier accepts except proofs whose challenge reduces to zero |
| `DnaKeys.DerivedOnChainIff` | programs/gpru/src/stealth_keys.rs:102-154 | a derived key is accepted on chain exactly when its challenge is non-zero, which derivation does not test |
| `DnaKeys.EquationOnChainIff` | programs/gpru/src/stealth_keys.rs:338-384 | one equation on encodings is the group equation, unless the challenge is zero |
| `DnaKeys.ZeroChallengeRefused` | programs/gpru/src/stealth_keys.rs:338-384 | in a valid suite over the integers modulo the order, with any modular inverse, a concrete derived key that the host verifier accepts and the on-chain verifier refuses |
| `DnaKeys.OwnerRecoversOneTimeKey` | programs/gpru/src/stealth_keys.rs:403-430 | the owner derives the same one-time public key from the scan secret, for every derived key |
| `DnaKeys.OwnerRecoversAccepted` | programs/gpru/src/stealth_keys.rs:403-430 | the owner recovers every accepted key whose two relations hold for one scalar, not only derived ones |
| `DnaKeys.AcceptedKeyIs` | programs/gpru/src/stealth_keys.rs:182-225 | an accepted key is the tweak of its DNA and shared point times the scan key, and no accepted point is the identity |
| `DnaKeys.TweakBinds` | programs/gpru/src/stealth_keys.rs:64-75 | the tweak depends on the whole DNA and on the shared point |
| `DnaKeys.ChallengeBinds` | programs/gpru/src/stealth_keys.rs:78-97 | the challenge depends on the DNA, the three keys, the shared point and both commitments |
| `DnaKeys.OneTimeSecretOpens` | programs/gpru/src/stealth_keys.rs:403-430 | the owner's one-time secret is the secret of the one-time key |
| `DnaKeys.SpecialSoundness` | programs/gpru/src/stealth_keys.rs:182-225 | two accepting transcripts with equal commitments and different challenges force one discrete logarithm for both relations |
| `DnaKeys.HonestAccepts` | programs/gpru/src/stealth_keys.rs:102-154 | an honest response satisfies the verification equation, for every nonce, challenge and secret |
| `CrankerAuth.AuthStore.ConsumeChallenge` | services/tsn-receiver/lib/cranker-auth.ts:187-193 | consumes exactly an open challenge of that key, which is not open afterwards; the store step of the interleaving model |
| `CrankerAuth.AuthStore.CreateSession` | services/tsn-receiver/lib/cranker-auth.ts:195-209 | the created session accepts every counter from one on until it expires or falls idle, nobody else's answers change, and for a pending challenge this is the OpenSession step of the interleaving model |
| `CrankerAuth.AuthStore.IssueSession` | services/tsn-receiver/lib/cranker-auth.ts:186-210 | issues exactly for an open challenge and a fresh id; an open challenge is spent for every key and time, also when creation fails, and any other is left alone; the effect is two steps of the interleaving model |
| `CrankerAuth.AuthStore.Authenticate` | services/tsn-receiver/lib/cranker-auth.ts:231-247 | accepts exactly the session's key and token hash with a larger counter before expiry and idling; then refuses that counter at any time and answers Ok to every larger one while the session lives |
| `CrankerAuth.OneSessionPerChallenge` | services/tsn-receiver/lib/cranker-auth.ts:171-210 | in every interleaving, pruning included, a challenge is behind at most one session |
| `CrankerAuth.ConsumedAtMostOnce` | services/tsn-receiver/lib/cranker-auth.ts:187-193 | in every interleaving, pruning included, a challenge is consumed at most once |
| `CrankerAuth.SessionKeyIsChallengeKey` | services/tsn-receiver/lib/cranker-auth.ts:187-209 | in every interleaving a stored session and every request it accepted carry the key that the session's challenge was issued to |
| `CrankerAuth.AcceptedWithOpeningToken` | services/tsn-receiver/lib/cranker-auth.ts:195-247 | in every interleaving every accepted request carries the token hash its session was opened with |
| `CrankerAuth.NewChallengeIsOpen` | services/tsn-receiver/lib/cranker-auth.ts:139-146 | a challenge just issued can be consumed by its key, and by no other, until it expires |
| `CrankerAuth.NoRequestAcceptedTwice` | services/tsn-receiver/lib/cranker-auth.ts:212-249 | in every interleaving a session accepts strictly increasing counters |
| `CrankerAuth.RateStore.Attempt` | services/tsn-receiver/lib/cranker-auth.ts:261-273 | passes and counts exactly below the limit |
| `CrankerAuth.AtMostThirtyPerMinute` | services/tsn-receiver/lib/cranker-auth.ts:261-279 | however pruning interleaves, at most 30 attempts of a key commit and pass within their own minute |
| `CrankerAuth.NextPassesIff` | services/tsn-receiver/lib/cranker-auth.ts:261-273 | an attempt of any bucket, late or not, passes exactly when fewer than 30 passed since the bucket's document was last deleted |
| `CrankerAuth.EverBounded` | services/tsn-receiver/lib/cranker-auth.ts:261-279 | without a deletion of its document a bucket never exceeds 30 passes, late commits included; each deletion allows 30 more |
| `CrankerAuth.DeletedOnlyLater` | services/tsn-receiver/lib/cranker-auth.ts:276-279 | a bucket's document is deleted only after its minute |
| `CrankerAuth.ExcessIsLate` | services/tsn-receiver/lib/cranker-auth.ts:261-279 | an attempt that passes after 30 others did commits late, after a deletion of the bucket's document |
| `CrankerAuth.LateCommitExceeds` | services/tsn-receiver/lib/cranker-auth.ts:261-279 | for every bucket there is a run with a thirty-first pass: a late commit after its document was pruned |
| `CrankerAuth.AdvanceKeepsLimiter` | services/tsn-receiver/lib/cranker-auth.ts:261-279 | a prune with a 60 s cutoff never selects the counter of the current minute |
| `Base58.EncodeBigInteger` | services/tsn-node/server.py:340-347 | the big-integer loop writes the specified digits |
| `Base58.EncodeDigitArray` | sdks/tsn-sdk/src/tins.ts:229-255 | the digit-array loops write the same digits as the big-integer encoder |
| `Base58.MulAdd` | sdks/tsn-sdk/src/tins.ts:234-243 | one byte: the carry loops multiply by 256 and add, keeping canonical digits |
| `Base58.Decode` | services/tsn-node/server.py:349-359 | refuses exactly strings with a foreign character and otherwise decodes |
| `Base58.DecodeEncodeIff` | services/tsn-node/server.py:340-359 | decode undoes encode exactly when some byte is non-zero |
| `Base58.EncodeDecodeIff` | services/tsn-node/server.py:340-359 | encode undoes decode exactly when some digit is non-zero |
| `Base58.OneZeroByteGrows` | services/tsn-node/server.py:340-359 | one zero byte comes back as two |
| `Base58.AlphabetByRanges` | sdks/tsn-sdk/src/tins.ts:226-227 | the alphabet is the Bitcoin alphabet, letter by letter |
| `LedgerMemo.DecodeHex32` | programs/gpru/src/hidden_head.rs:398-407 | decodes exactly 64 hex digits |
| `LedgerMemo.SplitMemo` | programs/gpru/src/hidden_head.rs:370-391 | accepts exactly the prefix, seven 64-character fields, eight colons and a non-empty body, with every index in range |
| `LedgerMemo.ParseMemo` | programs/gpru/src/hidden_head.rs:357-396 | the loops compute the functional parser: the seven values of a well-shaped Memo with canonical fields, or refusal |
| `LedgerMemo.PrintedMemoParses` | services/tsn-node/dbrix_transaction_record.py:169-173 | a Memo printed from seven 32-byte fields and a base64url body reads back as exactly those seven fields if all are canonical, and is refused otherwise |
| `LedgerMemo.PrintedShape` | services/tsn-node/dbrix_transaction_record.py:169-173 | a printed Memo has the demanded shape and its field texts are the printed fields |
| `LedgerMemo.ParsedMemoReprints` | programs/gpru/src/hidden_head.rs:369-396 | an accepted Memo with lower-case fields is the printout of what the parser returned |
| `LedgerMemo.SlotsRejoin` | services/tsn-node/dbrix_transaction_record.py:25-28 | the padded 32-character slots re-join to the body |
| `LedgerMemo.SlotAt` | services/tsn-node/dbrix_transaction_record.py:25-27 | slot k holds the characters from 32 k on, filled up with '=' at the end |
| `LedgerMemo.UnhexHex` | programs/gpru/src/hidden_head.rs:398-416 | decoding undoes lower-case hex |
| `LedgerMemo.HexUnhex` | programs/gpru/src/hidden_head.rs:398-416 | lower-case hex undoes decoding of lower-case text |
| `LedgerMemo.HexDigits` | programs/gpru/src/hidden_head.rs:409-416 | nibbles print as 0123456789abcdef and read in either case |
| `LedgerMemo.OnlyHexDigits` | programs/gpru/src/hidden_head.rs:409-416 | no other character is a hex digit |
| `LedgerMemo.BodyAlphabet` | programs/gpru/src/hidden_head.rs:386-388 | the body characters are the base64url alphabet |
| `SolanaMessage.Parse` | services/tsn-node/server.py:2317-2369 | accepts exactly the byte strings that encode a well-formed message, and returns the only message that they encode |
| `SolanaMessage.ReadHeaders` | services/tsn-node/server.py:2350-2356 | program index, account count and data length of every header are the bytes at its place, the length with its low byte first |
| `SolanaMessage.KeyBytes` | services/tsn-node/server.py:2338-2342 | key i of an encoded message is its 32 bytes from 42 + 32 i on |
| `SolanaMessage.InstructionHeaderBytes` | services/tsn-node/server.py:2350-2356 | so are the three header fields of every instruction of an encoded message |
| `SolanaMessage.InstructionPayloadBytes` | services/tsn-node/server.py:2357-2366 | and its account indices, followed by its data, instruction after instruction |
| `SolanaMessage.ReadPayloads` | services/tsn-node/server.py:2357-2369 | the payload walk refuses only when the bytes spell no list of instructions, and otherwise returns the only one |
| `SolanaMessage.ParsedIsEncoding` | services/tsn-node/server.py:2317-2369 | the parts that were read re-encode to the message |
| `SolanaMessage.OnlyReading` | services/tsn-node/server.py:2317-2369 | whatever encodes to the message is what was read |
| `SolanaMessage.DistinctIffCount` | services/tsn-node/server.py:2367-2368 | comparing the size of the key set with the list length decides that no key occurs twice |
| `SolanaMessage.EncodedSize` | services/tsn-node/server.py:2317-2369 | length of an encoded message from its counts |
| `SolanaMessage.CheckSettlement` | services/tsn-node/server.py:2411-2517 | returns the recent blockhash exactly for the encodings of messages that pass every test of the Mother |
| `SolanaMessage.WireSizeIsExact` | services/tsn-node/server.py:2750-2756 | for every settlement message the Mother accepts with 15 distinct keys, the size formula is exact up to 8 bytes for the priority fee and 4 for bit 4 |
| `SolanaMessage.OnlyFourWritableKeys` | services/tsn-node/server.py:2411-2517 | such a message has 15 keys, 11 of them read-only, and can write to the two signers and the two TCAP accounts only |
| `SolanaMessage.EarlyArgPositions` | services/tsn-node/server.py:2456-2471 | where the first seven credit arguments lie, in their 100 bytes |
| `SolanaMessage.LateArgPositions` | services/tsn-node/server.py:2456-2471 | where the other seven lie, in their 717 bytes |
| `SolanaMessage.ArgPositions` | services/tsn-node/server.py:2456-2471 | the 817 argument bytes are those two runs |
| `CanonicalMessage.ParseMessage` | sdks/tsn-sdk/src/canonical-message.ts:58-87 | the loop over the lines computes the specified map or refusal |
| `CanonicalMessage.BuildParseRoundTripIff` | sdks/tsn-sdk/src/canonical-message.ts:49-87 | parsing a built message gives back all fields and the domain, and nothing else, exactly when names, values and first line are well formed |
| `CanonicalMessage.TwoLineValueBuilds` | sdks/tsn-sdk/src/canonical-message.ts:49-56 | a value with a line break and a field line prints the same message as two fields |
| `CanonicalMessage.TwoLineValueParses` | sdks/tsn-sdk/src/canonical-message.ts:58-87 | so the parser accepts it and returns both fields, for every position among well-formed fields |
| `CanonicalMessage.TwoLineDisplayName` | sdks/tsn-sdk/src/canonical-message.ts:322-336 | the TIN creation message with a two-line display name, whatever its other values: the accepted map holds a field that was never passed |
| `CanonicalMessage.MessageText` | sdks/tsn-sdk/src/canonical-message.ts:49-56 | the printed text of a message with one field, character by character |
| `CanonicalMessage.CrlfReadsTheSame` | sdks/tsn-sdk/src/canonical-message.ts:62-62 | a message reads the same with either line ending |
| `CanonicalMessage.SplitJoin` | sdks/tsn-sdk/src/canonical-message.ts:62-62 | splitting undoes joining for lines without line breaks |
| `CanonicalMessage.FieldRoundTrip` | sdks/tsn-sdk/src/canonical-message.ts:70-82 | one printed field survives trimming and reads back |
| `CanonicalMessage.AmountRoundTripIff` | sdks/tsn-sdk/src/canonical-message.ts:130-153 | a formatted amount reads back exactly for 0 to 18 decimals, except whole amounts of a token with one decimal |
| `CanonicalMessage.FormatShift` | sdks/tsn-sdk/src/canonical-message.ts:144-153 | ten times the units with one decimal more print the same text |
| `CanonicalMessage.ParseShift` | sdks/tsn-sdk/src/canonical-message.ts:130-142 | a text read with one decimal more is ten times as many units |
| `CanonicalMessage.DecSnoc` | sdks/tsn-sdk/src/canonical-message.ts:149-149 | printing goes on digit by digit, with the ten decimal digits |
| `CanonicalMessage.OneDecimalFails` | sdks/tsn-sdk/src/canonical-message.ts:144-153 | "1.00" is printed for a token with one decimal and then refused |

## Left out

- Hidden-head trees: the depths 128 and 32 are parameters of the theorems; hex and decimal strings are the numbers they denote, and file size, JSON syntax and exact field-set checks of snapshot files are not modelled.
- Poseidon, SHA-256, SHA3-512, Ed25519, AES-GCM, SecretBox, Groth16 proofs and the circuit: function parameters, booleans or absent.
- The Edwards and ristretto addition formulas: any abelian group with the required orders; point compression and scalar inversion are parameters with their defining laws.
- Sampling of the blinding delta and the ephemeral scalars, and of challenge, session and work ids: arguments, with challenge and session ids taken as fresh.
- HiddenHeadStore.HiddenHeadWitnessStore.PublishCredit: the other checks of the settlement route between the three calls (proof, digest, program accounts) are one boolean; other Nodes that publish in between are the subject of HiddenHeadNodes.
- HiddenHeadStore.HiddenHeadWitnessStore.SaveCandidate: snapshot files are compared as values rather than as encoded bytes; the temporary file and the hard link are not modelled.
- Receiver documents: `receivedAt`, `updatedAt` and the requester of a retry are not stored, because no guard reads them; query limits and candidate order are arguments.
- ReceiverStore.WorkStore.LeaseNext: one call runs without interruption; interruptions between its reads and transactions are the subject of WorkQueueRuns.
- ReceiverStore.WorkStore.MakeTransition: the Node attestation check is a boolean argument.
- WorkContract.DiffPayload: removed fields are a set, so their order is not modelled; a field with the value `undefined` is an absent field, and property names inherited from the JavaScript prototype are not considered.
- WorkQueueRuns.LeasedWorkExecutesAsVerified: says nothing of evidence without a `verifiedPayload` object, whose record is stored as it came.
- `getWorkForNode`, `list`, wake notifications, the local file-backed store, HTTP routes and allow-list checks of external payloads other than the TIN key set and the ingress check (a boolean).
- CrankerAuth: signatures, timestamps and header syntax are checked before the transactions and are not modelled; the digest of a rate bucket is taken to be injective, and a clock is one monotone counter.
- DnaKeys.VerifyOnChain: the curve syscalls are the group operations on decoded points; the sender-side record key is not modelled.
- LedgerMemo: the instruction sysvar checks and the Memo digest are not modelled; the base64url encoder is represented by the texts it can produce.
- SolanaMessage.Parse: keys are their 32 bytes, the base58 text of a key being taken as injective; `MotherAccepts` takes the expected accounts, arguments and Memo as given instead of deriving addresses from seeds.
- CanonicalMessage.BuildParseRoundTripIff: field values are the strings that are printed; characters are Unicode code points rather than UTF-16 units; the parsers of single message types are not modelled.
- CanonicalMessage.AmountRoundTripIff: negative amounts are not considered, since base units are unsigned everywhere.
- `write_ic_points`, verifier set-up, epoch close, attestation workers, plain field validators, reserve accounting and the TIP, TCAP and TSN programs: short branches or sources that are not part of this model.
