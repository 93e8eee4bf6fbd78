# StellarConduit sync engine: verification model

A Dafny 4.11 model of the offline payment engine: how a phone without connectivity reserves Stellar
sequence numbers, signs and stores payments, hands them to a mesh, tracks their settlement, keeps a
tamper-evident log of what happened, and decides double-spend conflicts together with its neighbours.
`dafny verify dfyconfig.toml` checks everything.

The files follow the Rust modules.

| part | files |
|---|---|
| number theory of the VDF | `ModularArithmetic`, `Primes`, `PrimalityTest`, `VerifiableDelay`, `DispatchOrder` |
| Merkle transparency log | `Encoding`, `MerkleTree`, `MerkleProofs`, `TransparencyLog` |
| crash-safe engine | `Settlement`, `SequenceReservation`, `SequenceRuns`, `PriorityOrder`, `OutboundQueue`, `StorageDb`, `EnvelopeBuilder`, `MultisigGate`, `EngineMachine`, `EngineConservation`, `EngineRehydration`, `EngineDelivery`, `EngineStatuses`, `SyncEngine` |
| conflicts | `Sorting`, `ConflictDetector`, `ConflictResolver`, `VoteQuorum` |
| rate limits | `OutboundQueue`, `DispatchWindow`, `DpExporter` |

How it is modelled:

- Code that mutates is a class or a loop. Each mutating method is proved equal to a function on values
  (`Book`, `Tables`, `Prune`, `TryAcquire`, ...), and whole runs are lists of operations over these
  functions. What such a function means is then stated without it: in plain arithmetic, in field values, or
  by what it undoes.
- The engine is a machine whose steps are the single durable writes, memory updates, storage failures,
  crashes and reopens of a call (`EngineMachine.Apply`). The methods of class `SyncEngine` are proved to
  take exactly those steps, and to stand in the machine's states in between (`midCall`), so that the order
  of durable writes and memory updates is part of their contracts. A run is any list of actions from an
  empty database.
- SHA-256 over log leaves and nodes is a free algebra: collision-free and domain-separated. The other
  hashes and all signature checks are arbitrary functions passed as parameters, so a theorem holds
  whatever they answer. `BigUint` is `nat`; message ids are 32-byte strings read as big-endian numbers.
- The walk order of a `HashMap` and the choice among equal heap elements are left open, so a result that
  is proved unique does not depend on them.

Where the code does not do what its comments say, the model keeps the code, shows an input at which the
promise fails, and proves an if-and-only-if for when it holds:

- An inclusion proof of a log whose length is not a power of two can fail: the tree promotes an unpaired
  node, the generator records an all-zero sibling for it. A generated proof verifies if and only if no
  node on its path is unpaired (`GeneratedProofVerifiesIffPaired`); all proofs of a log verify if and only
  if its length is a power of two (`EveryLeafIsProvableIffPowerOfTwo`).
- `to_hash_bytes` joins the two statuses without a separator. Two entries share a leaf hash if and only if
  they agree in index, id, timestamp and the joined statuses (`LeavesCollideIff`), so bytes can move across
  the join unnoticed (`UnseparatedStatusesCollide`); over the five status names that makes the hash
  injective (`HashBytesInjective`).
- `verify_integrity` compares entries and leaves with `zip`, so surplus or missing entries go unnoticed
  (`IntegrityIgnoresSurplusEntries`); of two states with one root, the first one whole, the second holds the
  same history if and only if it has as many entries as leaves (`SameHistoryIffMatched`). The log's own
  methods keep both lists equally long, so this concerns memory that was tampered with.
- `verify_consistency_proof` compares neither the proof hashes nor the two sizes with the leaves it is given.
  A hand-made proof gets any old root accepted (`AnyOldRootIsAccepted`), and growth between sizes that the
  log never had is accepted with the log's own hashes (`OverlongSizesAreAccepted`). An accepted proof is
  genuine if and only if the new size is the number of leaves and the hashes run like those of the leaves
  (`AcceptedProofIsGenuineIffAlike`); with the right number of hashes that means that they are the block
  hashes of the leaves (`AcceptedProofIsGenuineIff`).
- `multisig_payload_hash` joins account, sequence and transaction without separators. For accounts of one
  length, as Stellar's are, equal payloads mean equal fields (`PayloadsCoincideIff`); otherwise not
  (`LongerAccountSharesThePayload`).
- `mark_settlement` leaves the in-memory queue alone, so memory and storage agree afterwards if and only
  if the payment had left the queue (`MarkAgreesIffDequeued`); its two writes share no transaction
  (`LostHistoryRowBreaksAgreement`); `seed_account` changes memory first
  (`FailedSeedAgreesIffHarmless`); and seeding again after a first payment is safe if and only if it
  repeats the last reserved number (`ReseedIsSoundIffItRepeats`).
- `next_to_dispatch` counts on a queue of Queued payments only (src/engine.rs:287-288). A payment that is
  marked Propagating and Settled while still in the queue is taken back to Propagating in storage and handed
  out all the same (`SettledPaymentIsHandedOut`). The marker makes a legal move if and only if the payment
  is not settled or disputed by then (`DispatchMovesLegallyIff`), and in runs that mark dequeued payments
  only, every stored status moves legally and Settled is final (`StepMovesLegally`, `SettledIsFinal`).
- A crash mid-call is said never to lose a queued payment (src/engine.rs:11-13). At-most-once dispatch has
  that price: a crash loses a payment if and only if it strikes between the durable marker and the
  hand-over (`CrashLosesNothingIff`), and then for good (`CrashAfterMarkerLosesThePayment`); outside that
  window nothing is lost (`HandedOverOnceOrStillQueued`).
- `release` would give the seed itself back (`GiveBackKeepsOrderIffOutstanding`).
- The Emergency guard prunes from the front only. It never admits too much, but it refuses exactly when the
  window is full if and only if the expired admissions stand first in its history
  (`RefusesExactlyWhenFullIff`). The table that wallets replay from is read in no particular order
  (src/storage/db.rs:652-661): such a replay can make the guard refuse too much
  (`UnorderedReplayRejectsTooMuch`), and it is exact from some instant on if and only if every admission
  replayed ahead of an older one has left the window by then (`ReplayIsExactIff`).
- The comments of the queue let `push_at` replay without a check (src/queue/priority.rs:41-59); it checks.
  Replayed oldest first through `push_at`, all admissions survive if and only if each finds room among those
  before it (`PushReplayKeepsAllIff`). `restore_at` is the call that does not check.
- A vote threshold above two thirds of the quorum size does not fix the outcome when more votes than that
  come in: what fixes it is a threshold above half the votes (`DeterminismNeedsAMajorityThreshold`).

## Model

| member | source | states |
|---|---|---|
| PrimalityTest.DeterministicWitness | src/queue/vdf_ordering.rs:369-379 | whatever SHA-256 returns, the witness lies in [2, n-2] |
| PrimalityTest.OddDecomposition | src/queue/vdf_ordering.rs:399-406 | n-1 splits as 2^r * d with d odd |
| PrimalityTest.ChainReachesMinusOne | src/queue/vdf_ordering.rs:410-420 | modulo a prime, a squaring chain that ends at 1 starts at 1 or meets -1 on the way |
| PrimalityTest.PrimePassesEveryBase | src/queue/vdf_ordering.rs:408-421 | a prime passes a Miller-Rabin round for every base in [1, n-1], by Fermat's little theorem and the square roots of 1 |
| PrimalityTest.PrimeIsAccepted | src/queue/vdf_ordering.rs:381-423 | no prime is ever rejected, for any witness hash |
| PrimalityTest.SieveIsPrime | src/queue/vdf_ordering.rs:205-207 | the 25 sieve entries are primes |
| PrimalityTest.PrimeBelow101InSieve | src/queue/vdf_ordering.rs:205-207 | and they are all the primes up to 100 |
| PrimalityTest.AcceptsIsExactBelow10201 | src/queue/vdf_ordering.rs:389-397 | below 101 squared the test accepts exactly the primes, for any witness hash |
| PrimalityTest.PassesRound | src/queue/vdf_ordering.rs:409-420 | the round loop decides "strong probable prime to base a" |
| PrimalityTest.StrongIffOnlyTrivialRoots | src/queue/vdf_ordering.rs:408-421 | a round accepts n if and only if a^(n-1) is 1 and halving the exponent meets only the square roots 1 and -1 of 1 |
| PrimalityTest.NoSieveDivisorIff | src/queue/vdf_ordering.rs:389-397 | no sieve prime divides n if and only if no number from 2 to 100 does |
| PrimalityTest.AcceptsIffPassesAll | src/queue/vdf_ordering.rs:197-201 | the answer in plain arithmetic, for all 40 rounds |
| PrimalityTest.SieveVerdict | src/queue/vdf_ordering.rs:386-397 | the sieve loop says prime for its own entries, composite for their other multiples, and leaves only odd numbers above 97 open |
| PrimalityTest.IsProbablyPrime | src/queue/vdf_ordering.rs:381-423 | the whole test: true for every prime, hence false only for non-primes; exact below 10201; above 100, true if and only if no number up to 100 divides n and none of the 40 witnesses digest mod (n-3) + 2 shows a square root of 1 besides 1 and -1 |
| VerifiableDelay.WesolowskiIdentity | src/queue/vdf_ordering.rs:299-306 | pi^ell * x^r = x^(q*ell + r) mod N with q and r the quotient and remainder of 2^T by ell |
| VerifiableDelay.VerifyIff | src/queue/vdf_ordering.rs:291-332 | whatever the proof, it is accepted if and only if pi^ell * x^(2^T mod ell) mod N is the claimed output, with x the digest of modulus, seed and envelope id mod N and ell the prime of x, output and T |
| VerifiableDelay.AcceptedOutputIsReduced | src/queue/vdf_ordering.rs:304-306 | an output that is no residue of the modulus is never accepted |
| VerifiableDelay.VerifyAcceptsExactlyTheDelayedOutput | src/queue/vdf_ordering.rs:291-332 | with the pi that belongs to its challenge, a claimed output is accepted if and only if it is (digest(N, seed, id) mod N)^(2^T) mod N for the verifier's own T |
| VerifiableDelay.Evaluate | src/queue/vdf_ordering.rs:255-332 | T squarings of digest(N, seed, id) mod N reach its 2^T-th power mod N, pi is its power 2^T / ell, and the proof verifies, for every modulus and delay, 0 and 2^T < ell included |
| DispatchOrder.SortForDispatch | src/queue/vdf_ordering.rs:465-490 | a permutation of the entries in rank order |
| DispatchOrder.OrderIsIndependentOfInput | src/queue/vdf_ordering.rs:481-487 | for distinct envelope ids the order does not depend on how the entries came in |
| DispatchOrder.TierThenEvidence | src/queue/vdf_ordering.rs:457-461 | Emergency before Normal before Low; within a tier no entry without a passing proof stands before one with a proof that `verify` accepts; among equals in both the earlier claimed time goes first, and at one time the smaller id |
| DispatchOrder.FailingProofsDoNotCount | src/queue/vdf_ordering.rs:470-479 | entries with distinct ids sort as if the proofs that `verify` rejects had not been there |
| DispatchOrder.NonePassesIsBare | src/queue/vdf_ordering.rs:463-464 | so when no proof passes, as if there were no proofs at all |
| Sorting.LexLeIff | src/queue/vdf_ordering.rs:486 | ids compare at the first byte where they differ |
| DispatchOrder.WithoutEvidenceItDrainsTheQueue | src/queue/vdf_ordering.rs:463-464 | when no proof verifies, the order is one in which the outbound heap could have been popped empty |
| MerkleTree.SplitPoint | src/settlement/transparency_log.rs:251-255 | half of the next power of two is the largest power of two below the length, the split of section 2.1 of RFC 6962 |
| MerkleTree.SubtreeMiddleIsInside | src/settlement/transparency_log.rs:255-265 | the `mid >= end` and all-zero branches of `subtree_hash` are never taken |
| MerkleTree.SubtreeHashIsTreeHash | src/settlement/transparency_log.rs:249-267 | `subtree_hash` over any range is the RFC 6962 tree over that slice |
| MerkleTree.NextLevelKeepsTreeHash | src/settlement/transparency_log.rs:134-141 | one round of pairing with promotion of the odd node leaves the tree hash unchanged |
| MerkleTree.PairUp | src/settlement/transparency_log.rs:132-141 | the chunk loop computes that round |
| MerkleTree.BuildTreeLevels | src/settlement/transparency_log.rs:124-145 | the levels form a tower over the leaves, and the single top node is the RFC 6962 tree hash, all-zero when there are no leaves |
| MerkleTree.RootFromLeaves | src/settlement/transparency_log.rs:148-150 | the bottom-up root equals the top-down `subtree_hash(0, n)` |
| MerkleTree.RootBindsSameLength | src/settlement/transparency_log.rs:99-107 | hash lists of one length with one root are equal, whatever the hashes are |
| MerkleTree.RootBindsLeaves | src/settlement/transparency_log.rs:56-59 | lists of leaf hashes have the same root if and only if they are equal, lengths included |
| MerkleProofs.VerifyInclusionProof | src/settlement/transparency_log.rs:215-225 | true exactly when the leaf climbs to the claimed root |
| MerkleProofs.InclusionProofFromLevels | src/settlement/transparency_log.rs:174-211 | none for an index out of range; else the leaf, its siblings bottom-up, and the root |
| MerkleProofs.OvershootIsNeverRepaired | src/settlement/transparency_log.rs:196-200 | once an all-zero sibling is hashed in, no later sibling brings the climb back to the root |
| MerkleProofs.GeneratedProofVerifiesIffPaired | src/settlement/transparency_log.rs:137-140 | the generated proof verifies if and only if no node on the path is an unpaired rightmost node |
| MerkleProofs.EveryLeafIsProvableIffPowerOfTwo | src/settlement/transparency_log.rs:173-211 | all generated proofs of a log verify if and only if its length is a power of two |
| MerkleProofs.InclusionIsSound | src/settlement/transparency_log.rs:213-225 | whoever made it, a path from a leaf hash to the root shows that the leaf is in the log |
| MerkleProofs.CollectSubtreeHashes | src/settlement/transparency_log.rs:315-335 | the hashes are the roots of the power-of-two blocks that tile the first `size` leaves, cut off where the leaves end |
| MerkleProofs.ChainedBlocksAreTheTree | src/settlement/transparency_log.rs:352-360 | folding the block hashes right to left gives the tree of the tiled leaves |
| MerkleProofs.MakeConsistencyProof | src/settlement/transparency_log.rs:272-310 | none for size zero or a shrinking log; else both roots and the block hashes of the new leaves |
| MerkleProofs.VerifyConsistencyProof | src/settlement/transparency_log.rs:342-365 | decides sizes, new root over the given leaves, and old root over the chained hashes |
| MerkleProofs.HonestProofAcceptsOnlyItsLog | src/settlement/transparency_log.rs:342-365 | a log's own proof for its first m leaves verifies against a list of leaf hashes of any length, or any list of the log's length, if and only if that list is the log |
| MerkleProofs.CollectedHashesProveThePrefix | src/settlement/transparency_log.rs:297-301 | for hashes taken from the new leaves, acceptance says exactly that the old root is the root of their first `old_size`, cut off where the leaves end; together with a new size equal to the number of leaves, exactly that the proof is genuine |
| MerkleProofs.AnyOldRootIsAccepted | src/settlement/transparency_log.rs:352-364 | a growing proof whose only hash is the claimed old root is accepted for any old root |
| MerkleProofs.OverlongSizesAreAccepted | src/settlement/transparency_log.rs:342-365 | two sizes above the number of leaves, growing or equal, are accepted with the leaves' own hashes, although there is no such log |
| MerkleProofs.ChainsEqualIffAlike | src/settlement/transparency_log.rs:357-360 | two right-to-left chains fold to one hash if and only if they run alike up to the end of the shorter one and the rests fold alike; at one length, if and only if they are equal |
| MerkleProofs.AcceptedProofIsGenuineIffAlike | src/settlement/transparency_log.rs:337-365 | any accepted proof is genuine (the new size is the number of leaves, the old root that of their first `old_size`) if and only if the new size is the number of leaves and the hashes of a growing proof run like the block hashes |
| MerkleProofs.AcceptedProofIsGenuineIff | src/settlement/transparency_log.rs:337-365 | an accepted growing proof with as many hashes as the leaves have blocks is genuine if and only if the new size is the number of leaves and the hashes are the block hashes |
| Encoding.LittleEndianInjective | src/settlement/transparency_log.rs:82-86 | fixed-width little-endian numbers are decodable |
| Encoding.LittleEndianDigit | src/settlement/transparency_log.rs:82-86 | byte k of the encoding is the k-th digit to the base 256 |
| TransparencyLog.LeafLayout | src/settlement/transparency_log.rs:80-97 | where index, id, both statuses and timestamp stand in the bytes of a leaf |
| TransparencyLog.JoinedNamesSplitUniquely | src/settlement/transparency_log.rs:84-85 | joined status names split in one way only, an empty first name included |
| TransparencyLog.HashBytesInjective | src/settlement/transparency_log.rs:80-88 | over the status vocabulary two entries have the same hash bytes if and only if they are equal |
| TransparencyLog.LeavesCollideIff | src/settlement/transparency_log.rs:80-97 | whatever the statuses, two entries have one leaf hash if and only if they agree in index, id, timestamp and the statuses joined to one string |
| TransparencyLog.UnseparatedStatusesCollide | src/settlement/transparency_log.rs:84-85 | outside it, moving bytes across the join changes the entry and not its leaf hash |
| TransparencyLog.RootBindsEntries | src/settlement/transparency_log.rs:470-472 | two states that pass the integrity check, each with as many leaves as entries, have one root if and only if they have one history |
| TransparencyLog.IntegrityIgnoresSurplusEntries | src/settlement/transparency_log.rs:461-466 | without equal lengths the check passes for extra and for missing entries |
| TransparencyLog.SameHistoryIffMatched | src/settlement/transparency_log.rs:454-472 | of two states that pass the check with one root, the first one matched, the second has the same entries if and only if it has as many entries as leaves |
| TransparencyLog.InclusionProvesMembership | src/settlement/transparency_log.rs:213-225 | a verifying path from an entry's hash means that the log holds this entry at the index it names |
| TransparencyLog.TransparencyLog.constructor | src/settlement/transparency_log.rs:387-393 | an empty log is consistent |
| TransparencyLog.TransparencyLog.Append | src/settlement/transparency_log.rs:398-405 | adds the entry under the log's own next index, keeps all earlier leaves, and keeps root, leaves and entries consistent |
| TransparencyLog.TransparencyLog.MakeInclusionProof | src/settlement/transparency_log.rs:433-436 | the generated proof for the log's leaves and root |
| TransparencyLog.TransparencyLog.ConsistencyProofFor | src/settlement/transparency_log.rs:441-447 | the honest proof for every size from 1 to the length, none otherwise |
| TransparencyLog.TransparencyLog.VerifyIntegrity | src/settlement/transparency_log.rs:454-472 | decides the root over the leaves and the leaf hash of each entry, as far as both lists go |
| TransparencyLog.TransparencyLog.FromEntries | src/settlement/transparency_log.rs:478-484 | rebuilds a consistent log with the same entries, renumbered |
| Settlement.Parse | src/settlement/tracker.rs:56-68 | reads exactly the five names, each as its own status |
| Settlement.ReadTextRoundTrip | src/settlement/tracker.rs:26-34 | status columns and parsed statuses correspond one to one |
| Settlement.SettlementTracker.ApplyTransition | src/settlement/tracker.rs:105-125 | the reference transition: unknown id and illegal step are refused without a change |
| Settlement.LegalTargets | src/settlement/tracker.rs:37-50 | from which statuses each of the five can be reached in one step |
| Settlement.TransitionEffect | src/settlement/tracker.rs:105-125 | a transition succeeds if and only if the id is tracked and the step legal, and then moves this id alone |
| Settlement.NoWalkReentersQueued | src/settlement/tracker.rs:37-50 | no sequence of legal transitions returns to Queued, and none leaves Settled |
| Settlement.ReachesIff | src/settlement/tracker.rs:37-50 | legal transitions connect two statuses if and only if they are equal, or the first is not Settled and the second not Queued |
| Settlement.NothingSettlesUndispatched | src/settlement/tracker.rs:10-22 | a queued or failed payment is settled or disputed only after a hand-over to the mesh |
| SequenceReservation.After | src/queue/sequence.rs:126-131 | the stale range: exactly the numbers above the baseline and up to the end, in order |
| SequenceReservation.SequenceReservationManager.SeedAccount | src/queue/sequence.rs:48-52 | baseline and reservation both become the seed |
| SequenceReservation.SequenceReservationManager.ReserveNextFor | src/queue/sequence.rs:56-65 | the next number, or an error for an account never seeded |
| SequenceReservation.SequenceReservationManager.ReleaseFor | src/queue/sequence.rs:78-93 | takes back the last number only |
| SequenceReservation.SequenceReservationManager.ReconcileAccount | src/queue/sequence.rs:99-146 | all five outcomes of an observation, with the stale numbers and the new book |
| SequenceReservation.ReserveThenRelease | src/queue/sequence.rs:56-93 | a reservation hands out the number after the last one; giving it back restores the book |
| SequenceReservation.ReleaseAnswers | src/queue/sequence.rs:78-93 | every answer of a return, with its error values; other accounts and the baselines stay |
| SequenceReservation.ReconcileAnswers | src/queue/sequence.rs:99-146 | an unknown account is seeded; an observation at or below the baseline changes nothing and says so; one above becomes the baseline, lifts a lower reservation and reports exactly the reserved numbers it overtook; other accounts stay |
| SequenceRuns.StepKeepsReconciled | src/queue/sequence.rs:95-146 | each reservation, return of an outstanding number and observation keeps the reconciliation invariant |
| SequenceRuns.RunStaysReconciled | src/queue/sequence.rs:48-146 | in every run the baseline is the maximum of seed and observations and at most the reservation; each number issued and kept is outstanding or was reported stale exactly once; the next number exceeds everything seen |
| SequenceRuns.SeededRunStaysReconciled | src/queue/sequence.rs:48-52 | the same for every run of a freshly seeded account |
| SequenceRuns.GiveBackKeepsOrderIffOutstanding | src/queue/sequence.rs:75-93 | a return keeps the invariant if and only if the number was above the baseline |
| PriorityOrder.AtMostIsTotalPreorder | src/queue/priority.rs:115-121 | the heap order is total and transitive |
| PriorityOrder.TopGoesFirst | src/queue/priority.rs:71-121 | an element is maximal in the heap if and only if no higher tier is present and nothing of its own tier was enqueued earlier |
| PriorityOrder.TopExists | src/queue/priority.rs:296-298 | every non-empty heap has an element that no other one exceeds |
| OutboundQueue.ExpiredIff | src/queue/priority.rs:160-169 | an admission counts until the window has gone by; a window of zero counts none |
| OutboundQueue.EmergencyGuard.PruneFront | src/queue/priority.rs:160-169 | drops expired admissions from the front, up to the first that still counts |
| OutboundQueue.EmergencyGuard.Check | src/queue/priority.rs:173-183 | refuses exactly when the pruned history is full, and reports its size and the limits |
| OutboundQueue.OutboundTxQueue.PushAt | src/queue/priority.rs:248-266 | a refused Emergency push leaves the heap as it was and reports count and limits; an accepted one is recorded; other tiers are never gated; the root stays maximal |
| OutboundQueue.OutboundTxQueue.RestoreAt | src/queue/priority.rs:274-290 | always admitted, and recorded in the guard's history |
| OutboundQueue.OutboundTxQueue.Peek | src/queue/priority.rs:296-298 | none only when the heap is empty; else an element before which nothing goes: Emergency before Normal before Low, then the earliest |
| OutboundQueue.OutboundTxQueue.Pop | src/queue/priority.rs:292-294 | takes out the very element that `peek` shows, one before which nothing goes, and leaves such a one at the root |
| OutboundQueue.RunKeepsWindow | src/queue/priority.rs:160-188 | in every run with ordered pushes, what pruning has removed is and stays outside the window |
| OutboundQueue.AcceptedPushFitsTheWindow | src/queue/priority.rs:231-290 | however restored entries were ordered, an accepted push leaves at most `max_count` admissions in the trailing window |
| OutboundQueue.PruneIsExactIff | src/queue/priority.rs:160-169 | looking at the front keeps at least the admissions in the window, and exactly those if and only if the expired ones stand first |
| OutboundQueue.RefusesExactlyWhenFullIff | src/queue/priority.rs:171-183 | after any run with ordered pushes, for every limit a push is refused exactly when the window is full, if and only if the expired admissions stand first in the history |
| OutboundQueue.ReplayIsExactIff | src/queue/priority.rs:268-290 | a replay makes the guard exact at every instant from a given one on if and only if each admission replayed ahead of an older one has left the window by then, or the window is empty |
| OutboundQueue.ReplayIsAlwaysExactIffSorted | src/queue/priority.rs:160-169 | at every instant whatsoever if and only if the replayed times never decrease |
| OutboundQueue.PushReplayKeepsAllIff | src/queue/priority.rs:248-259 | replayed oldest first through `push_at`, all admissions are recorded if and only if each finds room in the window among those before it |
| OutboundQueue.PruneKeepsExactlyTheWindow | src/queue/priority.rs:160-169 | on an oldest-first history, looking at the front finds exactly the admissions in the window |
| OutboundQueue.OldestFirstRejectsExactlyWhenFull | src/queue/priority.rs:173-183 | after an oldest-first replay a push is refused if and only if the window holds `max_count` or more |
| OutboundQueue.UnorderedReplayRejectsTooMuch | src/queue/priority.rs:268-290 | a replay in another order makes the guard refuse a push that the window has room for |
| StorageDb.SyncEngineDb.SetSettlementStatus | src/storage/db.rs:708-742 | a read and two writes: a failed read counts as an empty old status; the second write can fail with the first one kept; the tables in between are named |
| StorageDb.SyncEngineDb.SetSettlementStatusBatch | src/storage/db.rs:750-816 | refines folding the tracker over the batch and skipping what it refuses: final statuses, applied and refused in their order, the reason of each refusal, and one history row per applied update; all or nothing on a storage failure |
| StorageDb.SplitIsPartition | src/storage/db.rs:744-749 | applied and refused updates are together the batch |
| StorageDb.RejectionsAreTheSplit | src/storage/db.rs:773-793 | the report names exactly the refused updates, in order |
| StorageDb.FoldKeepsKeys | src/storage/db.rs:795-799 | a batch adds and removes no status row |
| StorageDb.HistoryIsLegalWalk | src/storage/db.rs:801-805 | per message, the new history rows are a legal walk from the old status to the new one |
| StorageDb.HistoryIsTheAppliedUpdates | src/storage/db.rs:801-807 | one new row per applied update, in order, with its id, new status and time, and the old status that the rows before it left |
| StorageDb.StaleIff | src/storage/db.rs:1239-1248 | a sweep takes exactly the payments enqueued longer ago than the limit whose status column reads queued or propagating |
| StorageDb.SyncEngineDb.SweepStaleEnvelopes | src/storage/db.rs:1234-1271 | finds exactly the old unfinished payments and fails each once, with a history row that names the old status as far as it could be read, and changes nothing else; when storage refuses a write it stops there and keeps what it has written |
| StorageDb.SweepIsABatch | src/storage/db.rs:1265-1268 | a sweep has the effect on the statuses of a batch that fails the stale payments, none of them refused, and writes the same history if and only if every old status could be read |
| StorageDb.SecondSweepFindsNothing | src/storage/db.rs:1234-1271 | sweeping again with the same limits finds nothing |
| StorageDb.StillStaleAfterPartialSweep | src/storage/db.rs:1265-1268 | after a sweep that stopped, the stale payments are exactly those it did not reach |
| StorageDb.RetryCompletesTheSweep | src/storage/db.rs:1265-1268 | sweeping again gives the statuses of one whole sweep, and a history row for every stale payment but the one whose status write was the last to succeed |
| EnvelopeBuilder.BuildReservesIffItSigns | src/envelope/builder.rs:64-85 | an envelope is signed if and only if the transaction parses, names the claimed account and carries its next number; every failure restores all reservations |
| EnvelopeBuilder.RefusalsSayWhy | src/envelope/builder.rs:66-85 | which error each refusal gives, with its values, in the order of the checks |
| EnvelopeBuilder.BuildAndSignEnvelope | src/envelope/builder.rs:54-107 | the method has this effect on the reservation manager, error by error |
| MultisigGate.PartiallySignedEnvelope.AccumulatedWeight | src/envelope/builder.rs:254-259 | the weights of the distinct contributors, in any walk order |
| MultisigGate.WeightOfOneMore | src/envelope/builder.rs:254-259 | each further known signer adds its cached weight, any other key nothing |
| MultisigGate.PartiallySignedEnvelope.AddSignature | src/envelope/builder.rs:279-294 | an unknown signer is refused without a change; a known one replaces its own contribution, a signature over the payload of all three fields |
| MultisigGate.PayloadLayout | src/envelope/builder.rs:209-215 | account, then the two's complement sequence from its lowest byte, then the transaction |
| MultisigGate.PayloadsCoincideIff | src/envelope/builder.rs:209-215 | for account strings of one length, signed payloads coincide if and only if account, sequence and transaction do |
| MultisigGate.LongerAccountSharesThePayload | src/envelope/builder.rs:209-215 | without that, every payload with a non-empty transaction has a second reading with a longer account |
| MultisigGate.PartiallySignedEnvelope.TryPromote | src/envelope/builder.rs:307-320 | promoted if and only if the account is known and its threshold met; else the weights are reported |
| MultisigGate.ContributorsAreTheKnownSigners | src/envelope/builder.rs:285-292 | after any attempts the contributors are the known signers among them |
| MultisigGate.GateDependsOnKnownSignersOnly | src/envelope/builder.rs:271-278 | order, repetition and outsiders never influence the gate |
| MultisigGate.PromotionIsStable | src/envelope/builder.rs:296-302 | further attempts never take an authorization away |
| EngineMachine.StepKeepsDispatchSound | src/engine.rs:94-111 | every step of every call, failure, crash and reopen keeps the queue free of payments handed over before |
| EngineMachine.AtMostOnceDispatch | src/engine.rs:254-301 | over every run no message id is handed out twice, and none handed out looks Queued again |
| EngineConservation.StoreKeepsConserved | src/storage/db.rs:535-545 | storing the next number extends the account's interval by exactly one |
| EngineConservation.StepKeepsSequencesSound | src/engine.rs:206-252 | every step, with failures and crashes anywhere, keeps memory and storage aligned on the numbers of accounts that have paid, and every other account at its baseline |
| EngineConservation.FirstPaymentStartsAtTheBaseline | src/engine.rs:214-229 | the first stored payment of an account takes the number after its baseline |
| EngineConservation.BaselineMovesOnlyBySeeds | src/engine.rs:83-88 | a baseline is the last seed, the automatic 0 of an account never seen, or the durable reservation that `open` found; no other step moves it |
| EngineConservation.SeededAccountIsConserved | src/engine.rs:22-31 | from a stored seed before its first payment on, in every run with crashes and storage failures anywhere, an account's stored payments occupy seed+1 .. last reserved exactly once each: none skipped, none reused |
| EngineConservation.UnseededAccountIsConserved | src/engine.rs:214-219 | the same from 1 on for an account that is never seeded |
| EngineConservation.SequencesAreConserved | src/engine.rs:241-244 | the same for all accounts of a run together, each from the number before its first stored payment |
| EngineConservation.NoSelfConflictInAnyRun | src/conflict/detector.rs:66-112 | so conflict detection over everything stored reports nothing |
| EngineConservation.ReseedIsSoundIffItRepeats | src/engine.rs:134-144 | seeding again after a first payment keeps this if and only if it repeats the last reserved number |
| EngineRehydration.StepKeepsRehydratable | src/engine.rs:231-251 | every step keeps "`open` now gives the memory this call ends with" |
| EngineRehydration.OpenRebuildsLiveState | src/engine.rs:80-123 | in every run whose seeds and history writes reach storage and whose marks concern dequeued payments, `open` rebuilds the tracker, the queue and the reservations: between calls the live memory, within a call its completed or its never-started form |
| EngineRehydration.WriteStatusAgreesIffDequeued | src/engine.rs:325-331 | storing a status and advancing the tracker agree with the queue if and only if the payment is not in it |
| EngineRehydration.MarkAgreesIffDequeued | src/engine.rs:303-333 | the whole call keeps memory and storage in agreement if and only if the payment has left the queue |
| EngineRehydration.LostHistoryRowBreaksAgreement | src/storage/db.rs:726-736 | a history write that fails after the status write always leaves storage ahead of the tracker |
| EngineRehydration.FailedSeedAgreesIffHarmless | src/engine.rs:139-142 | a seed that storage refuses leaves memory right if and only if the account has no row or already stands there |
| EngineStatuses.DispatchMovesLegallyIff | src/engine.rs:339-354 | the unconditional dispatch marker makes a legal move in storage if and only if the payment is not stored as Settled or Disputed |
| EngineStatuses.MarkedInQueueIsHandedOutSettled | src/engine.rs:279-298 | from any sound state, the top of the queue marked Propagating and Settled goes back to Propagating in storage at the next dispatch, and is handed out |
| EngineStatuses.SettledPaymentIsHandedOut | src/engine.rs:287-298 | such a run from an empty database, for every payment |
| EngineStatuses.StepMovesLegally | src/engine.rs:303-333 | when only dequeued payments are marked, every step of every call, failure, crash and reopen keeps each stored status or moves it along a legal transition |
| EngineStatuses.RunMovesLegally | src/settlement/tracker.rs:36-50 | over such a run a stored status goes only where legal transitions lead |
| EngineStatuses.SettledIsFinal | src/settlement/tracker.rs:36-50 | in every such run a stored Settled stays, and nothing stored returns to Queued |
| EngineDelivery.HandedOverOnceOrStillQueued | src/engine.rs:254-263 | in every run without a crash between marker and hand-over, each stored payment is handed over once or still Queued in storage |
| EngineDelivery.NeverHandedOver | src/engine.rs:94-111 | a stored payment that is neither queued nor handed over stays so in every continuation |
| EngineDelivery.CrashAfterMarkerLosesThePayment | src/engine.rs:271-285 | a crash inside that window loses the payment: no continuation hands it out |
| EngineDelivery.CrashLosesNothingIff | src/engine.rs:268-285 | a crash loses something if and only if it strikes inside that window |
| EngineDelivery.OpenNeverFails | src/engine.rs:95-98 | wherever a run was interrupted, every stored status can be read back |
| SyncEngine.SyncEngine.Open | src/engine.rs:80-123 | rebuilds memory in any row order, exactly as the machine's reopen step: each payment at its stored status, each Queued one once in the queue as it was enqueued, each account at its stored number; fails only on a status that does not parse |
| SyncEngine.SyncEngine.SeedAccount | src/engine.rs:134-144 | takes the machine's two seed steps, memory first; both maps and, if storage accepts it, the stored row hold the seed |
| SyncEngine.SyncEngine.QueuePayment | src/engine.rs:206-252 | takes the three steps reserve, store, admit in this order, so that memory changes only once storage holds the payment; succeeds if and only if the envelope builds and storage accepts it; says what is stored and queued then, and that nothing is otherwise |
| SyncEngine.SyncEngine.NextToDispatch | src/engine.rs:264-301 | marks in storage, while it is still in the queue, one element before which nothing goes, then takes it out; or changes nothing |
| SyncEngine.SyncEngine.MarkSettlement | src/engine.rs:307-333 | takes the three mark steps, storage before memory, and stands in both states between them; succeeds if and only if the transition is legal and both writes reach storage; says which status and history row are stored then |
| ConflictDetector.DetectConflicts | src/conflict/detector.rs:68-112 | every pair of different envelopes on one slot, once, smaller id first, in strict order, for any walk of the map |
| ConflictDetector.DetectNWayConflicts | src/conflict/detector.rs:139-170 | every contested slot once, with all its contenders once in increasing order |
| ConflictDetector.ReportIsAFunctionOfTheSet | src/conflict/detector.rs:92-96 | permuting or repeating slots leaves the pairwise report identical |
| ConflictDetector.NWayReportIsAFunctionOfTheSet | src/conflict/detector.rs:160-168 | and the n-way report |
| ConflictDetector.ConflictLeIff | src/conflict/detector.rs:97-110 | reports are ordered by account in byte order, sequence, smaller id, larger id |
| ConflictDetector.NWayLeIff | src/conflict/detector.rs:162-168 | n-way reports by account and sequence |
| ConflictDetector.GroupingMatchesNaiveScan | src/conflict/detector.rs:48-64 | grouping finds exactly what `conflicts_between` finds over all pairs of positions |
| ConflictDetector.PairsAreThePairsOfGroups | src/conflict/detector.rs:17-29 | the pairwise conflicts are exactly the pairs inside the n-way groups |
| ConflictResolver.ResolveNWayConflict | src/conflict/resolver.rs:237-290 | a strict maximum of at least MIN_QUORUM distinct valid relays wins, and nothing else; mismatched evidence decides nothing |
| ConflictResolver.FirstMaximum | src/conflict/resolver.rs:268-275 | the first maximum and whether it is the only one |
| ConflictResolver.NWayAnswerIsUnique | src/conflict/resolver.rs:156-158 | the evidence determines the answer |
| ConflictResolver.QuorumIffTwoVouch | src/conflict/resolver.rs:105-121 | a candidate has a quorum if and only if two different relays have proofs that verify for it and name the conflict's sequence |
| ConflictResolver.WinnerIsVouchedFor | src/conflict/resolver.rs:137-141 | a winner has two such relays |
| ConflictResolver.TwoAgainstNoneWin | src/conflict/resolver.rs:222-226 | two such relays for one candidate and none for the others decide the conflict |
| ConflictResolver.OnlyVouchingObservationsCount | src/conflict/resolver.rs:94-101 | removing every observation that does not verify or names another sequence changes no answer |
| ConflictResolver.TwoWayWinnerIsVouchedFor | src/conflict/resolver.rs:159-182 | the winner of a two-way conflict has two such relays as well |
| ConflictResolver.TwoWayAgreesWithNWay | src/conflict/resolver.rs:159-199 | on two candidates both resolvers decide the same |
| ConflictResolver.OnlyTheSetOfObservationsCounts | src/conflict/resolver.rs:82-85 | permuting or repeating observations changes no answer |
| ConflictResolver.EvidenceOrderDoesNotCount | src/conflict/resolver.rs:233-244 | permuting the candidates' evidence changes no answer |
| ConflictResolver.OneRelayCannotSwitchTheWinner | src/conflict/resolver.rs:43-52 | any number of observations bearing one relay key can at most make a decided conflict unresolved |
| ConflictResolver.OneRelayIsNoQuorum | src/conflict/resolver.rs:137-141 | one relay key alone decides nothing |
| VoteQuorum.ResolveByQuorum | src/conflict/quorum.rs:65-86 | the result is one that some walk of the count map allows |
| VoteQuorum.DeterministicIffNoTwoReach | src/conflict/quorum.rs:79-85 | the result is independent of the walk if and only if no two candidates reach the threshold |
| VoteQuorum.MajorityThresholdIsDeterministic | src/conflict/quorum.rs:79-85 | a threshold above half the votes suffices |
| VoteQuorum.DeterminismNeedsAMajorityThreshold | src/conflict/quorum.rs:63-64 | at each number of votes a positive threshold fixes every result if and only if it exceeds half of them |
| VoteQuorum.SmallBlocElectsNobody | src/conflict/quorum.rs:13-17 | fewer voters than the threshold cannot elect a candidate of their own |
| VoteQuorum.HonestAgreementIsNotMasked | src/conflict/quorum.rs:15-17 | when the honest votes agree and reach the threshold and the bloc is smaller than it, their candidate is the only possible result |
| DispatchWindow.DispatchWindow.Create | src/queue/dispatch.rs:80-98 | refuses exactly a zero capacity or a zero timeout |
| DispatchWindow.DispatchWindow.Acquire | src/queue/dispatch.rs:115-129 | keeps the slots whose timeout has not passed; grants one from now on if and only if the id holds none and the kept ones are fewer than the capacity; else says why |
| DispatchWindow.DispatchWindow.Acknowledge | src/queue/dispatch.rs:136-144 | frees the slot and says whether it was held |
| DispatchWindow.DispatchWindow.ReleaseExpired | src/queue/dispatch.rs:149-153 | frees exactly the slots whose timeout has passed and counts them |
| DispatchWindow.CapacityIsNeverExceeded | src/queue/dispatch.rs:115-129 | over every run and for any clock |
| DispatchWindow.AcquiresAreBounded | src/queue/dispatch.rs:103-129 | in any stretch shorter than the timeout, successful acquires number at most the capacity plus the slots freed in it |
| DpExporter.DpExporter.Export | src/metrics.rs:668-714 | the cached release inside its window; nothing past it with the budget spent; else a new release of every delta plus its own noise, clamped at zero; the new state in each case |
| DpExporter.EveryRunIsPaced | src/metrics.rs:672-685 | for any clock and noise, release starts are a window apart and the budget counts the releases within its cap |
| DpExporter.DeltasTelescope | src/metrics.rs:691-700 | when a counter never decreases, the released deltas add up to its last released lifetime value |

## Left out

- SHA-256, ed25519, Dilithium, AES-GCM and Argon2: hash and signature outcomes are parameters, or a free algebra in the log.
- `hash_to_prime` and `generate_prime`: whether their loops end, and whether the delay or the proof is hard to forge; the challenge is any positive number.
- The cryptographic content of an envelope, XDR and StrKey coding: a payment carries what its transaction parses to, if it parses.
- PrimalityTest.IsProbablyPrime: says nothing about how rarely a composite from 10201 on is accepted.
- MerkleProofs.VerifyConsistencyProof: requires a proof hash when the log has grown, because the source indexes the last one and panics without it.
- ConflictResolver.ResolveNWayConflict: requires candidates or evidence, because the source panics without both.
- VerifiableDelay.Evaluate: a zero modulus, which panics in the source, is excluded by type.
- SequenceReservation.SequenceReservationManager.ReserveNextFor: numbers are unbounded; the overflow of a 64-bit sequence number is not modelled.
- MultisigGate.PartiallySignedEnvelope.AccumulatedWeight: the overflow of the 32-bit weight sum is not modelled.
- StorageDb.SyncEngineDb.SweepStaleEnvelopes: assumes that times fit a signed 64-bit column.
- SyncEngine.SyncEngine.Open: requires each stored row to be keyed by its own message id, as every writer of the table does; a row that cannot be decoded or decrypted is not modelled.
- SQLite, tokio, file paths and the second connection: each statement or transaction is one atomic update that succeeds or fails. In-memory databases, which give the two connections unrelated data, are not modelled, and neither is the `updated_at` column.
- `sort_by`, `dedup` and `BinaryHeap` of the Rust standard library are functions and a multiset here.
- DpExporter.DpExporter.Export: noise is an arbitrary vector of reals; Laplace sampling, floating-point rounding and the text format are not modelled.
- The order of system calls between two durable writes: memory changes in one step, because a crash discards it.
- Escalation, spendable balance, clocks, snapshots, simulation, invariant checker, FFI, command line, benches and fuzz targets: folds, plumbing or rendering.
