# Verified model of the capsule-anchor transparency service

capsule-anchor is a neutral witness: it registers digests, signed statements and checkpoints of other
logs in an append-only RFC 6962 log, hands out inclusion receipts, publishes signed tree heads, and
refuses checkpoints that do not extend what it has already accepted. This project models that logic in
Dafny and proves what holders of its receipts and heads rely on.

- `MerkleTree`, `InclusionProof`, `ConsistencyProof`: the RFC 6962 tree (sections 2.1, 2.1.1, 2.1.2),
  generated top down, and the shifting verifiers of RFC 9162 (sections 2.1.3.2, 2.1.4.2). One lemma,
  `PairUpKeepsRoot`, joins the two views: pairing a level and promoting its odd node keeps the tree hash.
- `TenantTree`, `PeakBagging`: the tenant ledger tree, and the bagging of MMR peaks.
- `HashChain`, `MultiInstance`: the log's hash chain; and N service instances over one database, with every
  database access a separate step.
- `Checkpoints`, `WitnessState`: the checkpoint types, and one witness process as functions from state to
  state. `AnchoringService` has the two mutable classes, each method proved to compute its function.
- `WitnessRuns` and, on top of it, `ReceiptGuarantees`, `AfterPruning`, `TipChain`, `NoFork`, `CacheHits`,
  `ReadSurface`, `GradeReadback`: statements over every sequence of operations of a process. The two critical
  sections of `witness_checkpoint` are two operations, so anything may happen between them. `PolicyModes` compares
  the three policies.
- `VerifierShapes`: the log's two verifiers against the tenant tree's fold. `Admission` and `Commitments`: what every
  registration answers, and what entries, receipts and heads commit to, in terms of the submitted bytes, the stored
  tip and the foreign functions alone.
- `ReceiptOwnership`: whose row a receipt is for, between N instances.
- `SharedRegistration`: dedup and the continuity gate between N instances, where no lock makes them atomic.
- `RateLimiter`: the sliding-window limiter.

Hashes are parameters. A digest is a string of bytes of any length, and the hash of a tree node is a hash of its two
children's bytes one after the other, as in the code. Of a hash only the length of its results is assumed
(`MerkleTree.FixedWidth`), and only where a proof must bind. Where the repository relies on collision resistance, the
result is a function that computes two different hash inputs with one hash from the inputs of the false claim
(`ForgedInclusion`, `ForkEvidence`, `ForgedLeaf`, `BagCollision`, `TamperEvidence`). Signing is a pair of functions
of which only "a signature made verifies" (`Authority.Sound`) is assumed. Of the foreign decoders three facts are
assumed (`WitnessState.Faithful`): a checkpoint digest has 32 bytes, a decoded payload lies inside the bytes it was
decoded from, and fewer than 34 bytes of payload declare no checkpoint; and where two statements share an entry, that a
Sig_structure has one header and one payload (`Commitments.SigStructureInjective`). Clock readings are arguments.

Where the code and its own comments differ, the model follows the code, shows a case, and says exactly when the
comment holds:

- `verify_consistency_proof` is described as confirming a prefix, but from size 0 it accepts every pair of
  roots (`EmptyTreeBindsNothing`).
- `register_signed_statement_full` says the continuity gate always runs for a new checkpoint; a checkpoint whose
  digest is in the cache passes it by. Under `enforce` a log forks if and only if a checkpoint is such a cache hit
  and another root holds its position (`ForkIffCacheHit`); registering the digest as raw bytes first is enough
  (`RawDigestForks`, `EnforceForks`).
- A checkpoint's digest is said never to decode as a COSE_Sign1. 32 bytes may decode as one. What the service needs
  is true all the same, a digest declares no checkpoint (`DigestDeclaresNothing`); but two digests that decode to one
  header and payload share an entry hash, a second way past the gate (`TwinDigestForks`).
- The grade read back for a resubmission is described as the one it earned. It is the one on the record at its
  position, which may stay ungraded for good (`UngradedForGood`) or be another checkpoint's (`OtherGradeTold`);
  `GradeReadBack` and `AdjacentGradeReadBack` say when it is the earned one.
- "Exactly once" holds until a prune forgets the key. Then a plain statement gets a second leaf (`SecondLeaf`), and
  a checkpoint meets its gate again (`PruneForgetsDedup`, `PrunedDeclaredRefused`, `PrunedCheckpointOutcome`).
- An inclusion proof is said to show that a leaf is in the log. The length of the submitted leaf hash is not checked,
  and any cut of two sibling leaf hashes is accepted in the place of one (`InclusionProof.CutLeafAccepted`); short of
  a collision an accepted digest is the leaf exactly when it has the length of a hash (`Breach`).
- The tenant proof is said to show that a leaf is under an anchored root. Inner nodes pass as leaves
  (`InnerNodeAccepted`), and so do cut leaves (`TenantTree.CutLeafAccepted`); short of a collision an accepted proof
  is one of leaf i exactly when its sides are those of index i and its digest has the length of a hash
  (`SidesDecide`, `ForgedLeaf`).
- The number of peaks of a checkpoint is not checked against its size, so regrouped peaks give the same checkpoint
  (`RegroupedPeaksPass`), and nothing else does (`PeakForgery`).
- The limiter's window holds at most `max_calls` calls if no reading beyond it is processed before one inside it;
  the clock is read before the lock is taken, and a late reading breaks every limit above one (`BoundInAnyOrderIff`).

## Model

| member | source | states |
|---|---|---|
| MerkleTree.LargestPowerOfTwoBelow | packages/capsule_anchor/anchoring/ct.py:55-60 | the doubling loop ends at the power of two with k < n <= 2k, the split point of the tree |
| MerkleTree.TreeRootIsRfc6962 | packages/capsule_anchor/anchoring/ct.py:63-74 | the tree hash from the hash alone: the empty tree, a leaf, and otherwise the hash of the part of 2^e leaves, 2^e < n <= 2^(e+1), before the rest |
| MerkleTree.PairUpKeepsRoot | packages/capsule_anchor/anchoring/ct.py:63-74 | for every non-empty level, pairing neighbours and promoting the odd node leaves the top-down tree hash unchanged |
| InclusionProof.AuditPathByLevels | packages/capsule_anchor/anchoring/ct.py:77-93 | the path built by recursion on the split is, bottom up, the sibling of each level's node, with none where the node is promoted |
| InclusionProof.VerifyInclusionPath | packages/capsule_anchor/anchoring/ct.py:96-133 | the nested shifting loops accept exactly when the level-by-level climb uses the whole path and ends at the root; an index out of range and a path of any other length than the generated one are refused |
| VerifierShapes.InclusionIsFold | packages/capsule_anchor/anchoring/ct.py:96-133 | for all inputs: accepted exactly when the index is in range, the path has as many hashes as index and size give sides, and folding them on those sides, as the tenant verifier does, gives the root |
| InclusionProof.GeneratedPathLength | packages/capsule_anchor/anchoring/ct.py:77-93 | a generated path has a hash for each level at which the node has a sibling |
| InclusionProof.GeneratedPathAccepted | packages/capsule_anchor/anchoring/ct.py:77-133 | completeness: for every leaf of every list the generated path is accepted against the tree hash |
| InclusionProof.GeneratedIffAcceptable | packages/capsule_anchor/anchoring/ct.py:77-88 | an index is refused by the generator exactly when no leaf and path could be accepted for it |
| InclusionProof.AuditPathIsShort | packages/capsule_anchor/anchoring/ct.py:77-93 | a path has at most ceil(log2 n) hashes, that is at most e for up to 2^e leaves |
| InclusionProof.ForgedInclusion | packages/capsule_anchor/anchoring/ct.py:96-133 | soundness: from an accepted proof, its siblings of any length, of a hash-long digest other than the leaf at that index, two different hash inputs with one hash are computed |
| InclusionProof.Breach | packages/capsule_anchor/anchoring/ct.py:96-133 | of an accepted digest of any length: a collision is computed, or it is the leaf at the index if and only if it has the length of a hash |
| InclusionProof.CutLeafAccepted | packages/capsule_anchor/anchoring/ct.py:96-133 | at every leaf with a sibling, of every tree, any cut of the two leaf hashes' bytes is accepted in the place of the leaf |
| ConsistencyProof.VerifyConsistencyProof | packages/capsule_anchor/anchoring/ct.py:163-214 | the three shifting loops accept exactly when the climb of both roots does; shrinking or negative sizes are refused, equal sizes ask for equal roots and no proof, and otherwise a proof must have the generated length |
| VerifierShapes.ConsistencyIsFolds | packages/capsule_anchor/anchoring/ct.py:163-214 | for all inputs, from an old tree of 2^e times an odd m leaves: accepted exactly when the proof is the node m - 1 of level e and its path there, all of whose siblings fold to the new root and those on the left to the old one |
| ConsistencyProof.GeneratedProofLength | packages/capsule_anchor/anchoring/ct.py:136-160 | the generated proof has the length the verifier asks for |
| ConsistencyProof.PowerOfTwoTest | packages/capsule_anchor/anchoring/ct.py:217-218 | n & (n - 1) == 0 holds of a positive n exactly when it is a power of two |
| ConsistencyProof.EvenSubProofLifts | packages/capsule_anchor/anchoring/ct.py:149-160 | a complete old boundary moves up one level without changing the proof, the step the verifier's first loop takes |
| ConsistencyProof.OddSubProofIsAuditPath | packages/capsule_anchor/anchoring/ct.py:149-160 | at an incomplete boundary the proof is the boundary node followed by its own audit path |
| ConsistencyProof.GeneratedProofAccepted | packages/capsule_anchor/anchoring/ct.py:136-214 | completeness for all 0 < first <= second <= n, with the power-of-two case, and at most ceil(log2 second) + 1 hashes |
| ConsistencyProof.GeneratedProofIsShort | packages/capsule_anchor/anchoring/ct.py:136-160 | at most e + 1 hashes for up to 2^e leaves |
| ConsistencyProof.SameRootCollision | packages/capsule_anchor/anchoring/ct.py:177-178 | two different lists of leaf hashes of one size with one tree hash give two different hash inputs with one hash |
| ConsistencyProof.ForkEvidence | packages/capsule_anchor/anchoring/ct.py:163-214 | soundness: an accepted proof, with digests of any length, between the tree hashes of a non-empty A and of B with A not a prefix of B, also when A is the longer one, gives two different hash inputs with one hash |
| ConsistencyProof.EmptyTreeBindsNothing | packages/capsule_anchor/anchoring/ct.py:179-181 | from size 0, and any second size above it, acceptance means an empty proof and nothing about the roots |
| TenantTree.MerkleRoot | packages/capsule_anchor/contracts/crypto_shim.py:73-87 | the pair-and-promote loop returns the RFC 6962 tree hash of every non-empty list, and "" for none |
| TenantTree.ScanLevel | packages/capsule_anchor/contracts/crypto_shim.py:95-111 | rewriting the index in the middle of the scan never matches a later pair: one level yields its parents, the parent position and the one sibling step |
| TenantTree.MerkleProof | packages/capsule_anchor/contracts/crypto_shim.py:89-114 | an error exactly for a bad index; otherwise the proof names the leaf and the RFC 6962 root and folds from one to the other |
| TenantTree.VerifyMerkleProof | packages/capsule_anchor/contracts/crypto_shim.py:116-121 | the loop accepts exactly when the path folds the leaf to the named root; then a hash-long leaf is, for every list with that root and every index whose sides the path has, the one at the index, or a collision of hash inputs is computed |
| TenantTree.VerifyInclusionLedger | packages/capsule_anchor/anchoring/service.py:1800-1810 | the same, bound to the anchored root |
| TenantTree.ForgedLeaf | packages/capsule_anchor/anchoring/service.py:1790-1810 | soundness: from an accepted proof, with the sides of index i and siblings of any length, of a hash-long digest other than leaf i, two different hash inputs with one hash are computed |
| TenantTree.CutLeafAccepted | packages/capsule_anchor/contracts/crypto_shim.py:116-121 | at every leaf with a sibling, of every tree, any cut of the two leaves' text is accepted in the place of the leaf, with the sides of its index |
| TenantTree.Locate | packages/capsule_anchor/contracts/crypto_shim.py:116-121 | what an accepted proof of any shape shows: its digest is the tree hash of some of the leaves, or part of the input of a node over some of them, or lies below a leaf, or a collision of hash inputs is computed |
| TenantTree.SidesDecide | packages/capsule_anchor/anchoring/service.py:1790-1810 | barring a collision of hash inputs, an accepted proof is one of leaf i if and only if its sides are those the index and the number of leaves give and its digest has the length of a hash |
| TenantTree.InnerNodeAccepted | packages/capsule_anchor/anchoring/service.py:1790-1810 | of every tree of three or more leaves an inner node is accepted as a leaf, by a path with the sides of no index |
| TenantTree.PathHasExpectedSides | packages/capsule_anchor/contracts/crypto_shim.py:89-114 | the generated path has those sides |
| TenantTree.PathFoldsToRoot | packages/capsule_anchor/contracts/crypto_shim.py:89-121 | round trip: for every leaf the generated path folds to the tree hash of all leaves |
| TenantTree.PathCarriesAuditPath | packages/capsule_anchor/contracts/crypto_shim.py:89-114 | the tenant path carries exactly the siblings of the RFC 6962 audit path, in order |
| PeakBagging.RootFromPeaks | packages/capsule_anchor/anchoring/checkpoint_cose.py:74-87 | the pop/pop/append loop ends with one digest, the right-to-left fold of the peaks |
| PeakBagging.BagsRightToLeft | packages/capsule_anchor/anchoring/checkpoint_cose.py:74-87 | the bag from the hash alone: 32 zero bytes for none, a peak as it is, and the last two hashed, the right one first, count as one |
| PeakBagging.BagCollision | packages/capsule_anchor/anchoring/checkpoint_cose.py:74-87 | two non-empty peak lists of any lengths with one root, of which neither is the other with some last peaks bagged, give two different hash inputs with one hash |
| PeakBagging.RefinedBagsAgree | packages/capsule_anchor/anchoring/checkpoint_cose.py:74-87 | lists that differ by bagging some last peaks have one root |
| PeakBagging.SameLengthCollision | packages/capsule_anchor/anchoring/checkpoint_cose.py:74-87 | two different peak lists of one length with one root give two different hash inputs with one hash |
| Checkpoints.AdmitCose | packages/capsule_anchor/anchoring/checkpoint_cose.py:301-369 | admitted exactly when sizes are 0 <= prev < size, both peak lists hold 32-byte digests, a proof spans the sizes, and the subject is the issuer with the size; the root is the bag of the peaks, the previous root that of the previous peaks or empty without any, and every other field that of the claims |
| Checkpoints.DecimalReads | packages/capsule_anchor/anchoring/checkpoint_cose.py:360-364 | the decimal text in the subject stands for the size |
| Checkpoints.PeakForgery | packages/capsule_anchor/anchoring/checkpoint_cose.py:341-350 | two admitted claims with one signing body, so registered under one digest, have the same peaks and the same previous peaks up to regrouping, or give two different hash inputs with one hash |
| Checkpoints.BodyIsAllButGradeAndProof | packages/capsule_anchor/anchoring/service.py:536-547 | two checkpoints have one signing body exactly when they agree on all eight fields but grade and proof |
| Checkpoints.RegroupedPeaksPass | packages/capsule_anchor/anchoring/checkpoint_cose.py:341-350 | a claim with some last peaks bagged, new or previous, is admitted as the very same checkpoint, as the number of peaks is not checked |
| Checkpoints.ParsedCheckpointIsDeclared | packages/capsule_anchor/anchoring/service.py:415-472 | a payload parses to a checkpoint exactly when it declares that checkpoint in full |
| RateLimiter.SlidingWindowLimiter.IsAllowed | packages/capsule_anchor/anchoring/router.py:146-156 | eviction included, for readings that arrive in any order: an allowed call joins its key's allowed calls, other keys are untouched, and in clock order the answer is whether the closed window ending now has room |
| RateLimiter.WindowBound | packages/capsule_anchor/anchoring/router.py:129-156 | over every run, a closed interval of the window's length holds at most max_calls allowed calls if no reading beyond it was processed before one inside it |
| RateLimiter.OrderedWindowBound | packages/capsule_anchor/anchoring/router.py:129-156 | so on readings processed in clock order every such interval does |
| RateLimiter.RejectedIffFull | packages/capsule_anchor/anchoring/router.py:150-156 | in clock order a call is rejected exactly when max_calls allowed calls lie in the closed window ending now |
| RateLimiter.LateReadingBreaksBound | packages/capsule_anchor/anchoring/router.py:146-156 | a full window at 0, a reading beyond it and a late one inside it are all allowed: max_calls + 1 calls in one interval |
| RateLimiter.LateReadingRejected | packages/capsule_anchor/anchoring/router.py:146-156 | a late reading is rejected although the window ending at it is empty |
| RateLimiter.BoundInAnyOrderIff | packages/capsule_anchor/anchoring/router.py:146-156 | the bound holds for all orders of readings if and only if max_calls is at most one |
| HashChain.VerifyLog | packages/capsule_anchor/anchoring/service.py:889-911 | one pass accepts exactly the logs in which every index is its position, every link the hash of the entry before, and every signature verified over index, payload hash and link |
| HashChain.ChainedAppend | packages/capsule_anchor/anchoring/service.py:854-877 | appending keeps a log acceptable to verify_log |
| HashChain.TamperEvidence | packages/capsule_anchor/anchoring/service.py:889-911 | two accepted logs of one length and final head that differ in an index or payload hash give a computed head-hash collision |
| MultiInstance.StoredLogVerifies | packages/capsule_anchor/anchoring/service.py:854-886 | under every interleaving of N writers the table has indices 0..n-1, every link is its predecessor's head hash, and verify_log accepts it |
| MultiInstance.InsertIffNothingAdded | packages/capsule_anchor/anchoring/store.py:1276-1293 | an insert goes through exactly when no row was added since its instance counted, and then it chains to the last row |
| MultiInstance.StoredHeadIsLatest | packages/capsule_anchor/anchoring/store.py:1602-1630 | the stored head is the maximum by size and then by time of all heads put so far, and every size put is in the history |
| MultiInstance.HistoryHoldsTreeHashes | packages/capsule_anchor/anchoring/service.py:939-958 | every retained head is the signed tree hash of exactly the first tree_size entries, although the log may grow between the size and the leaf reads |
| MultiInstance.IssuedReceiptsVerify | packages/capsule_anchor/anchoring/service.py:1323-1331 | every receipt an instance builds proves the entry at its index, whatever others add in between |
| ReceiptOwnership.ReceiptsAreForOwnRows | packages/capsule_anchor/anchoring/service.py:854-886 | in every run, the receipt of a job has the index of the row its instance's own insert wrote for that job, that row records the job's kind, payload hash and time, no two receipts share an index, and every row was written once, for one job |
| ReceiptOwnership.ReceiptsProveOwnJobs | packages/capsule_anchor/anchoring/service.py:1323-1331 | its proof leads from the leaf hash of exactly that job to the tree hash of the log |
| MultiInstance.RunGrows | packages/capsule_anchor/anchoring/store.py:1602-1630 | between any two moments, rows, history rows and receipts are unchanged and the stored head has not gone back |
| MultiInstance.ReadsNeverGoBack | packages/capsule_anchor/anchoring/service.py:960-977 | a get_sth covers every row that was there when it started and never returns an older head than one that had returned by then, also when it signs its own and loses the swap |
| MultiInstance.ReadsAreHeads | packages/capsule_anchor/anchoring/service.py:960-977 | every head get_sth returns is the signed tree hash of the first tree_size entries |
| AnchoringService.InMemoryLogStore.PutCheckpointRecord | packages/capsule_anchor/anchoring/store.py:191-208 | the in-place update is PutRecord on the whole store, and reports exactly the conflicts |
| AnchoringService.InMemoryLogStore.GetLastCheckpointRecord | packages/capsule_anchor/anchoring/store.py:214-222 | the record at the largest position of the log, none exactly when it has none |
| AnchoringService.InMemoryLogStore.PutSth | packages/capsule_anchor/anchoring/store.py:228-250 | the in-place update is PutHead on the whole store |
| AnchoringService.InMemoryLogStore.PruneStatementsOlderThan | packages/capsule_anchor/anchoring/store.py:140-158 | removes exactly the cached receipts whose entry is older than the cutoff, returns their number, touches nothing else |
| AnchoringService.AnchorerService.AppendLog | packages/capsule_anchor/anchoring/service.py:854-877 | the log grows by exactly the entry that chains to its head |
| AnchoringService.AnchorerService.GetSth | packages/capsule_anchor/anchoring/service.py:960-977 | result and whole new state are those of ReadHead |
| TipChain.OneDeclaredSuccessor | packages/capsule_anchor/anchoring/service.py:1440-1469 | once a declared checkpoint is admitted and the tip moved, the gate admits exactly its continuations, none under enforce, and refuses as a rollback every rival it would have admitted before |
| TipChain.OneWitnessedSuccessor | packages/capsule_anchor/anchoring/service.py:1528-1564 | of two proven continuations of one tip, whichever comes second is refused and told the new tip; witnessed next is exactly what names the new tip and has a proof verified from its root and size to the rival's |
| Admission.RefusedOutright | packages/capsule_anchor/anchoring/service.py:1208-1246 | more than 65536 bytes, or a payload that claims to be a checkpoint and is not complete, is refused with its own error and nothing changed, and nothing else is |
| Admission.DedupKeys | packages/capsule_anchor/anchoring/service.py:1213-1297 | a statement is answered from the cache, changing nothing, if the hash of its bytes or of the Sig_structure of its header and payload is a key; otherwise one accepted entry is appended |
| Admission.DeclaredOutcome | packages/capsule_anchor/anchoring/service.py:1440-1469 | what a complete mmr-checkpoint statement is answered in every state: already registered, required to prove under enforce, rollback unless it starts at the tip's size, and otherwise the new tip, field by field |
| Admission.DirectOutcome | packages/capsule_anchor/anchoring/service.py:1528-1643 | what a new checkpoint of POST /checkpoints is answered in every state: first-seen without a tip; with a proof witnessed if and only if it names the tip and the proof is verified from the tip to it; without one registered, or refused if native under enforce, the JSON form and observed logs exempt |
| AnchoringService.AnchorerService.RegisterSignedStatement | packages/capsule_anchor/anchoring/service.py:1208-1438 | result and whole new state are those of Register, error cases included |
| AnchoringService.AnchorerService.WitnessCheckpoint | packages/capsule_anchor/anchoring/service.py:1674-1709 | registration, then the read-surface record exactly if it succeeded |
| WitnessRuns.OnlyFreshChangesStore | packages/capsule_anchor/anchoring/service.py:1258-1313 | refusals and resubmissions leave log, cache, tips, heads, records and conflicts as they were |
| WitnessRuns.RefusalCountsOnlyUnderWarn | packages/capsule_anchor/anchoring/service.py:1450-1468 | a refusal changes the would-refuse counter exactly when the policy is warn and it is a rollback |
| WitnessRuns.ExecKeepsInv | packages/capsule_anchor/anchoring/service.py:1315-1391 | in every reachable state the log chains, heads are its tree hashes, receipts prove and sign their entry at its logged time, and the cache holds only issued receipts |
| ReceiptGuarantees.RunGrows | packages/capsule_anchor/anchoring/store.py:140-158 | between any two moments, log, retained heads, issued receipts, records and unpruned cache entries are unchanged and the head has not gone back |
| ReceiptGuarantees.ReceiptsStayGood | packages/capsule_anchor/anchoring/service.py:1315-1391 | every receipt ever issued, pruned or not, proves its entry at every later moment, the history holds its root, and a verifying consistency proof exists to every later retained head |
| ReceiptGuarantees.ReachableLogVerifies | packages/capsule_anchor/anchoring/service.py:889-911 | verify_log accepts every reachable log and every prefix of it |
| ReceiptGuarantees.ReadHeadCovers | packages/capsule_anchor/anchoring/service.py:960-977 | a head that is read covers the whole log and is its signed tree hash; a stored one is returned unchanged, a new one has the present time |
| ReceiptGuarantees.ExactlyOnce | packages/capsule_anchor/anchoring/service.py:1250-1297 | in every run without pruning each entry hash has at most one statement leaf, and the cache has exactly those hashes |
| ReceiptGuarantees.ResubmissionReturnsOriginal | packages/capsule_anchor/anchoring/service.py:283-310 | the same bytes, or another signature or unprotected header over the same signing act, get the original receipt, index and size and change nothing, after any operations that left the entry hash in the cache |
| ReceiptGuarantees.StepKeepsEntry | packages/capsule_anchor/anchoring/store.py:132-158 | an entry hash that stays in the cache keeps its receipt |
| Commitments.AnswersCommit | packages/capsule_anchor/anchoring/service.py:283-310 | in every reachable state an accepted statement is answered with a statement entry whose payload hash is SHA-256 of the Sig_structure of its header and payload, or of its bytes under the legacy scheme |
| Commitments.SharedEntryCollision | packages/capsule_anchor/anchoring/service.py:283-310 | two submissions of a run answered with one entry are the same bytes, one signing act, or one the Sig_structure of the other, or two different SHA-256 inputs with one hash are computed |
| Commitments.AnchorCommits | packages/capsule_anchor/anchoring/service.py:789 | anchoring appends one entry with the hash of its payload and its time |
| Commitments.ReceiptSays | packages/capsule_anchor/anchoring/service.py:1323-1391 | a new receipt is dated with the witness's clock in whole seconds, carries the submitted grade and, for a witnessed checkpoint only, an assertion of its log, sizes, roots and time; the signed head covers the entry at once |
| Commitments.CheckpointReceiptSays | packages/capsule_anchor/anchoring/service.py:1674-1678 | a new checkpoint is entered under the digest of its signing body and its receipt carries its grade |
| Commitments.ForgedHead | packages/capsule_anchor/anchoring/service.py:625-658 | two logs with one tree hash at one size that differ in an entry below give two different node inputs or two different leaves with one hash |
| AfterPruning.PruneForgetsDedup | packages/capsule_anchor/anchoring/store.py:140-158 | for every submission after a prune: the cached answer if one of its two keys was logged at or after the cutoff; otherwise both gates decide between a refusal that changes nothing and a new leaf beside the pruned one |
| AfterPruning.SecondLeaf | packages/capsule_anchor/anchoring/store.py:140-158 | a run of three operations that gives any plain statement two leaves |
| AfterPruning.PrunedDeclaredRefused | packages/capsule_anchor/anchoring/service.py:1440-1469 | a declared checkpoint that has left the cache is refused from then on, under every policy |
| AfterPruning.PrunedCheckpointOutcome | packages/capsule_anchor/anchoring/service.py:1528-1564 | an uncached checkpoint at or below a position that moved the tip is refused with a proof, refused without one if native under enforce, and otherwise registered without moving the tip |
| TipChain.TipsFormAChain | packages/capsule_anchor/anchoring/service.py:1471-1564 | over every run of both surfaces under every policy, each acceptance met its gate against the then-last tip of its log, witnessed ones matching its size and root with a proof verified from that tip to the checkpoint, and bare registrations move nothing |
| TipChain.StoredTipIsLastMove | packages/capsule_anchor/anchoring/service.py:1393-1424 | the stored tip of a log is, field by field, the last accepted checkpoint that was not merely registered |
| TipChain.TipsStrictlyGrow | packages/capsule_anchor/anchoring/service.py:1393-1424 | the tip size of a log strictly grows at every change of the whole run |
| TipChain.ContinuityClaimsAreTrue | packages/capsule_anchor/anchoring/service.py:1333-1351 | receipts that assert continuity are exactly those of checkpoints accepted as witnessed, with their values |
| WitnessState.DigestDeclaresNothing | packages/capsule_anchor/anchoring/service.py:415-429 | a digest registered as a checkpoint never declares one as well, whatever it decodes as |
| NoFork.EnforceAdmitsNoFork | packages/capsule_anchor/anchoring/service.py:1528-1643 | under enforce a log with only native or declared checkpoints whose digests are not made cache hits by other submissions never has an equivocation, and every accepted checkpoint is strictly larger than all before |
| NoFork.TakenPositionNeedsCacheHit | packages/capsule_anchor/anchoring/service.py:1258-1297 | a native checkpoint for a taken position of such a log is accepted if and only if its digest is in the dedup cache |
| CacheHits.ForkIffCacheHit | packages/capsule_anchor/anchoring/service.py:1258-1297 | and an equivocation is recorded for it if and only if it is a cache hit and another root holds its position |
| CacheHits.RawDigestForks | packages/capsule_anchor/anchoring/service.py:1258-1297 | in every reachable state and under every policy, registering the digest of a second root for a taken position as raw bytes and then the checkpoint records an equivocation |
| CacheHits.EnforceForks | packages/capsule_anchor/anchoring/service.py:1674-1709 | a run from the empty witness under enforce that ends with an equivocation |
| CacheHits.TwinDigestForks | packages/capsule_anchor/anchoring/service.py:283-297 | so does a checkpoint whose digest decodes to the header and payload of one already registered |
| ReadSurface.ReadSurfaceIsExact | packages/capsule_anchor/anchoring/store.py:191-225 | in every run a position shows, in all twelve fields, the first checkpoint recorded there for good, and the flagged events are exactly the recorded checkpoints with another root, each giving root, entry hash and time of that first and of itself |
| GradeReadback.ExecKeepsGrades | packages/capsule_anchor/anchoring/service.py:1681-1709 | in every run, a graded record shows a grade that a checkpoint of that position and entry hash earned |
| GradeReadback.AcceptedOnce | packages/capsule_anchor/anchoring/service.py:1250-1297 | without a prune of its entry hash a checkpoint is accepted at most once and stays cached |
| GradeReadback.GradeReadBack | packages/capsule_anchor/anchoring/service.py:1270-1287 | in every run, resubmitting a cached checkpoint accepted once returns its earned grade if and only if the record at its position is graded and its own, or both were merely registered; none without a record |
| GradeReadback.AdjacentGradeReadBack | packages/capsule_anchor/anchoring/service.py:1674-1709 | with both sections of each checkpoint adjacent there is always a record, and the earned grade is returned if and only if it shows the checkpoint's own entry hash or both were merely registered |
| GradeReadback.UngradedForGood | packages/capsule_anchor/anchoring/service.py:1270-1287 | a checkpoint resubmitted between its own two sections is accepted as first-seen and told no grade ever after |
| GradeReadback.OtherGradeTold | packages/capsule_anchor/anchoring/service.py:1270-1287 | of two checkpoints for one position the second is told the first one's grade |
| SharedRegistration.UndisturbedOnce | packages/capsule_anchor/anchoring/service.py:1250-1323 | over every interleaving of N instances, an entry hash has at most one leaf if no two instances register it at once and none fails between its append and its cache write |
| SharedRegistration.OverlapDoubles | packages/capsule_anchor/anchoring/service.py:1250-1323 | in every run, two instances that look an uncached entry hash up before either caches it append two leaves |
| SharedRegistration.LostReceiptDoubles | packages/capsule_anchor/anchoring/service.py:1323-1372 | in every run, a failure between the append and the cache write lets a retry append a second leaf |
| SharedRegistration.SeparateChain | packages/capsule_anchor/anchoring/service.py:1393-1424 | over every interleaving, a log's acceptances, counted from the stored receipt, form one chain if no two instances hold a tip of it at once and none that moves it fails between its cache write and its tip write |
| SharedRegistration.AbreastForks | packages/capsule_anchor/anchoring/service.py:1528-1564 | in every run, two instances abreast accept two checkpoints against one tip, under every policy |
| SharedRegistration.LostTipForks | packages/capsule_anchor/anchoring/service.py:1372-1424 | in every run, an instance that fails between its cache write and its tip write lets the next one accept a rival against the same tip |
| SharedRegistration.LostTipIsNoOverlap | packages/capsule_anchor/anchoring/service.py:1372-1424 | at no moment of that do two instances hold a tip at once |
| PolicyModes.WarnDecidesAsOff | packages/capsule_anchor/anchoring/service.py:389-403 | warn gives the same results and the same store as off for every state and submission |
| PolicyModes.WarnCountsWhatEnforceRefuses | packages/capsule_anchor/anchoring/service.py:1627-1643 | warn counts a submission exactly when enforce would refuse it for want of a proof |

## Left out

- NoFork.EnforceAdmitsNoFork: takes as a condition that no other submission of the run makes one of the log's checkpoints a cache hit; CacheHits.ForkIffCacheHit says why, and that nothing else forks the log.
- GradeReadback.AdjacentGradeReadBack: takes as a condition that the entry hash was not pruned; a checkpoint recorded as a hit on its raw digest, pruned and then accepted stays ungraded.
- RateLimiter.SlidingWindowLimiter.IsAllowed: time is a real number, so floating-point rounding of the cutoff is not modelled.
- SharedRegistration.SeparateChain: the declared checkpoints of signed statements, which share the tips, are modelled for one process only.
- MultiInstance.StoredLogVerifies: a lost database connection is a failed step.
- Checkpoints.AdmitCose: signature verification and CBOR decoding happen before its claims exist; the enrolled-key choice is not part of this model.
- The JSON checkpoint form is represented by the checkpoints it yields; its field map is not modelled.
- CBOR, JSON, COSE and hex encoding, SHA-256 and Ed25519: parameters or datatype constructors; a digest is the bytes its hex denotes (in the tenant tree, its text), so hex in another letter case, which the verifiers compare as text, and text that is no hex, which they refuse, are not represented.
- cll.checkpoint.core.verify_consistency is not part of this model: an arbitrary predicate on two roots, two sizes and a proof.
- Subject index, capsule bindings, countersigned roots and public-log receipts: plain keyed storage.
- HTTP routes, configuration, schema migration, reconnection, background threads, the TSA and public-log clients.
- SQLite and Postgres rows of the checkpoint tables: the same first-wins rules as the in-memory store.
