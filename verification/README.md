# Hara registry: a verified model of its ledger, its anchoring pipeline and its proofs

The registry keeps attestations and evidence records in append-only logs. Each log is a Merkle tree
in the style of RFC 6962; anyone can check offline, from a signed tree head and a short path of
hashes, that a record is in the log and that the log only grew. Beside it an indexer copies watched
chain events into a table, and a worker anchors them in batches under a signed root. This project
models that code in Dafny and proves what it is for.

Check everything with `dafny verify dfyconfig.toml`.

## What is modelled

**Trees and proofs** (`PowersOfTwo`, `MerkleTree`, `BitWalk`, `ProofFold`, `InclusionProofs`,
`ConsistencyProofs`, `SdkVerifier`, `LedgerVerifier`, `VerifierAgreement`, `LedgerSoundness`,
`TransparencyLog`).
`MerkleTree` is MTH, PATH and SUBPROOF of sections 2.1 to 2.1.2 of RFC 6962. The log class emits paths
by recursive splitting; the two verifiers never see a tree and walk the bits of two counters. `BitWalk`
is the bridge: the sides met by the bit walk are the sides of the recursive descent, for every size.
From it follow completeness (every emitted path is accepted by both verifiers) and the soundness of the SDK's
verifiers (what is accepted against the root of a list is about that list, and is the very path the tree
emits). The ledger's own verifiers check less; `LedgerSoundness` says for every tree exactly what they accept.

**The ledger** (`LedgerModel`, `LedgerInvariant`, `LedgerAnswers`, `LedgerRuns`, `LedgerRecords`,
`LedgerRequests`, `LedgerBundles`, `LedgerLeaves`, `EvidenceRuns`, `ContentKeys`, `LeafEncodings`,
`MemoryStore`, `LedgerService`). `LedgerModel` says what each operation does to the store, the cached trees and
the caller. `LedgerService.Service` and `MemoryStore.Store` are the source's classes, with maps of shared record
objects that are changed in place; each method is proved to do exactly what the model says. The theorems are
about every run: any sequence of operations, an anchor service that may fail after a leaf was written, and
restarts that lose every cached tree. `LedgerAnswers` says what each request is answered in every state;
`LedgerRequests`, `LedgerBundles` and `LedgerLeaves` say of whole runs that records, statuses, dates, bundles
and logs are exactly what was asked for and granted, and nothing else.

**The anchoring pipeline** (`Indexer`, `AnchorPipeline`, `AnchorWorker`, `AnchorTree`, `AnchorMessage`).
Indexer and worker interleave freely, with rollbacks, failures and crashes between any two steps. The
worker's keccak tree, which doubles the last node of an odd level, is compared with a recursive
definition, and the signed message is shown to bind the events.

**Smaller parts**: the byte encodings (`Texts`, where strings are lists of UTF-16 units as in JavaScript,
`Encoding`, `SthMessage`), the console's Keccak-256 on 32-bit halves against FIPS 202 (`KeccakWords`,
`KeccakSpec`, `KeccakBits`, `KeccakTables`, `Keccak`), the custody graph (`TraceNodes`, `TraceEdges`,
`TraceGraph`), nonce reservation (`NonceReservation`) and the broadcaster (`Broadcaster`).

Hash functions are parameters about which nothing is known. A 32-byte node hash is never injective, so
soundness asks only that no pair the verifier hashed collides with a different pair of the tree
(`Hashing.CollisionFree`), and where a walk might leave the tree, with a leaf of it
(`LedgerSoundness.LeavesApart`).

## Where the code does not do what its documentation says

- The ledger's `verifyConsistency` ends on `fn === 0`, section 2.1.4.2 of RFC 9162 on `sn == 0`. It
  therefore also accepts a proof for a smaller second size that is a power of two
  (`LedgerAcceptsTruncatedSizes`, both directions). What it accepts for the root of a real tree is exactly the
  tree's own proof, and one more path for each such size along whose sides the tree can be descended
  (`AcceptedForTree`); the first root is then the one of more leaves than claimed, for instance the root of six
  leaves for three in a tree of eight (`ThreeOfEight`). From size 0 it accepts anything (`LedgerUnsound`), and
  of the negative sizes -2^31 (`NegativeFirstSizes`).
- The ledger's `verifyInclusion` does not refuse a negative leaf index (`InclusionVerifiersAgree`). For the root of a
  tree it accepts the node its walk arrives at (`InclusionForTree`); in a tree of 2^t leaves index m passes for leaf
  m mod 2^t (`NegativeIndexWraps`), for instance -1 for the second of two (`MinusOneOfTwo`). From index 0 on it is
  sound (`InclusionSoundFromZero`).
- A checkpoint is signed and anchored as a head of any log its submitter names, whatever its root. All other heads
  the service hands to the anchor service fit together, those of refused deletes and failed operations included
  (`HeadsAreConsistent`); a checkpoint fits them exactly if its root is the one of that many leaves
  (`CheckpointFitsExactly`), and one that does not can be submitted (`CheckpointContradictsHead`).
- Beyond 2^30 leaves the search for the split point does not end, because of 32-bit shifts (`KLoopEnds`).
- A slice of the anchor worker that is cut inside a block loses the rest of that block for ever.
  `CoveredExactlyIfClean` says for all runs exactly when nothing is lost, `SmallFetchesAreClean` gives a condition a
  caller can see, and `CutLogIsLostForever` is a run in which it happens.
- A transaction the node accepted is broadcast again exactly if its accepting broadcast was seen as an error with
  retries left (`RebroadcastExactly`), and can end as FAILED (`AcceptedThenFailed`).
- A settled transaction can be overwritten by a broadcaster that still polls it, or by a retry that is under way
  after a failed write (`FinalExactlyAtRest`, `ConfirmedWhilePolled`, `ConfirmedWhileRetrying`).
- A retention date that cannot be read, such as 2024-13-45, passes the routes and never locks
  (`DeleteSucceedsExactlyWhenDue`, `UnreadableDateNeverLocks`).
- A deleted evidence record is still shown, and called deletable, when its content hash is registered again, while
  deleting or reading it answers that it is not found (`DeletableFlagExactly`, `DeletedIsShownAsDeletable`).
- The leaf of an evidence record is the one of its registration; later changes of date or hold write no
  leaf (`EvidenceLeafIsRegistration` says exactly when leaf and record agree, `HeldLaterHasOldLeaf` is a run in which
  they do not).
- A missing and an empty successor are encoded alike (`StatusLeafInjective`, `EmptySuccessorIsAmbiguous`). Texts that
  differ in lone surrogates only have the same bytes, so the same leaf and the same signed message (`Utf8Exact`,
  `LoneSurrogatesCollide`).
- A tenant named without the prefix `did:hara:tenant:` shares the log of the one named with it (`SharedLogExactly`).
- The anchor worker's comment promises to write the blob first; the code submits to the chain first, and
  the model follows the code.

## Model

| member | source | states |
|---|---|---|
| PowersOfTwo.LargestPowerOfTwoSmallerThan | services/registry-ledger/src/transparency-log.ts:46-51 | the loop on 32-bit shifts finds the split point for every n up to 2^30, and is undefined below 2 |
| PowersOfTwo.KLoopEnds | services/registry-ledger/src/transparency-log.ts:46-51 | with 32-bit shifts the loop guard ever turns false if and only if n is at most 2^30 |
| PowersOfTwo.SplitUnique | services/registry-ledger/src/transparency-log.ts:45-51 | the split point is the only power of two k with k < n <= 2k |
| PowersOfTwo.SplitIsLargest | services/registry-ledger/src/transparency-log.ts:45-51 | the split point is a power of two below n and no power of two below n is larger |
| PowersOfTwo.PowerOfTwoTest | sdk/aurum/typescript/src/verifier.ts:163-165 | `m & (m - 1)` is zero exactly for powers of two |
| PowersOfTwo.PowerOfTwoTestBelowZero | services/registry-ledger/src/transparency-log.ts:246 | among the negative 32-bit numbers only -2^31 passes that test |
| Hashing.NodeCollisionIsShaCollision | services/registry-ledger/src/transparency-log.ts:35-43 | with the prefixes and 32-byte operands a collision of node hashes is a SHA-256 collision on two different inputs |
| MerkleTree.MthOfConcatenation | services/registry-ledger/src/transparency-log.ts:120-126 | the root of 2^e leaves followed by at most as many others is the node hash of both roots, the first on the left |
| MerkleTree.ShaRoots | services/registry-ledger/src/transparency-log.ts:35-43 | the SHA-256 root of no leaf, of one and of two, as concatenations of bytes |
| BitWalk.SidesFollowSplit | sdk/aurum/typescript/src/verifier.ts:126-151 | the sides met by walking the bits of leaf index and last index are the sides of the recursive descent, for every leaf and size |
| BitWalk.StrippedSidesFollowSplit | sdk/aurum/typescript/src/verifier.ts:228-259 | the same for the consistency walk after the trailing ones are shifted out |
| InclusionProofs.Complete | services/registry-ledger/src/transparency-log.ts:128-154 | the audit path of every leaf of every tree is accepted against the root |
| InclusionProofs.Sound | sdk/aurum/typescript/src/verifier.ts:108-156 | what is accepted against the root of d is the leaf hash of leaf m of d, with exactly the path the tree emits |
| InclusionProofs.PathBounded | services/registry-ledger/src/transparency-log.ts:143-154 | an audit path of n leaves has at most ceil(log2 n) entries |
| ConsistencyProofs.SubproofFlag | services/registry-ledger/src/transparency-log.ts:175-189 | the flag of subproof drops exactly a leading first root, and does so exactly for a power of two |
| ConsistencyProofs.Complete | services/registry-ledger/src/transparency-log.ts:156-189 | the consistency path between the roots of any two sizes is accepted |
| ConsistencyProofs.Sound | sdk/aurum/typescript/src/verifier.ts:176-263 | an accepted path to the root of d comes from the root of the first m leaves of d and is the path the tree emits |
| ConsistencyProofs.ProofBounded | services/registry-ledger/src/transparency-log.ts:156-189 | a consistency path to n leaves has at most ceil(log2 n) + 1 entries |
| SdkVerifier.VerifyInclusion | sdk/aurum/typescript/src/verifier.ts:108-156 | the loop over the path answers true exactly when folding the path along the sides gives the root |
| SdkVerifier.VerifyConsistency | sdk/aurum/typescript/src/verifier.ts:176-263 | the loop answers true exactly when the path folds to both roots along the stripped sides |
| LedgerVerifier.VerifyInclusion | services/registry-ledger/src/transparency-log.ts:199-228 | the ledger's loop answers true exactly for the accepted proofs, also for negative leaf indexes |
| LedgerVerifier.VerifyConsistency | services/registry-ledger/src/transparency-log.ts:231-279 | the ledger's loop answers true exactly when the walk it ends on `fn` is covered by the path and every unread side is right, for first sizes from -2^31 on |
| VerifierAgreement.InclusionVerifiersAgree | services/registry-ledger/src/transparency-log.ts:193-228 | the two inclusion verifiers agree on all paths and roots exactly when the leaf index is not negative or the size is not positive |
| VerifierAgreement.LedgerAcceptsTruncatedSizes | services/registry-ledger/src/transparency-log.ts:231-279 | the ledger accepts exactly what the SDK accepts at the claimed second size or at a smaller power of two |
| VerifierAgreement.ConsistencyVerifiersAgree | services/registry-ledger/src/transparency-log.ts:231-279 | for given sizes and path length the two consistency verifiers agree on all inputs exactly when that length is not the one of a proof to a smaller power of two |
| VerifierAgreement.ShortProof | services/registry-ledger/src/transparency-log.ts:231-279 | for every size a walk can stop at there is a proof the ledger accepts and the SDK refuses |
| VerifierAgreement.LedgerSoundAtFullLength | services/registry-ledger/src/transparency-log.ts:231-279 | with a path of full length the ledger's answer is sound |
| VerifierAgreement.LedgerSoundForSomeSize | services/registry-ledger/src/transparency-log.ts:231-279 | a shorter accepted path proves the first root for a tree of a power of two of leaves, whatever size was claimed |
| VerifierAgreement.LedgerUnsound | services/registry-ledger/src/transparency-log.ts:238-278 | from size 0 any roots are accepted, and from a power of two equal roots with an empty path; the SDK refuses both |
| VerifierAgreement.LedgerUnsoundAtOneAndFour | services/registry-ledger/src/transparency-log.ts:278 | the root of four leaves passes for the root of the first one |
| VerifierAgreement.NegativeFirstSizes | services/registry-ledger/src/transparency-log.ts:238-278 | of the negative first sizes below the second one only -2^31 is ever accepted; the SDK accepts none |
| LedgerSoundness.AcceptedForTree | services/registry-ledger/src/transparency-log.ts:231-279 | for the root of a tree the ledger accepts exactly the tree's own proof, and one root and path for each power of two at which the walk down the tree can stop |
| LedgerSoundness.AcceptedAtStop | services/registry-ledger/src/transparency-log.ts:252-278 | for one such size: accepted exactly if the tree is deep enough along the sides, and the first root is the one of more leaves than claimed |
| LedgerSoundness.LargerRootPasses | services/registry-ledger/src/transparency-log.ts:252-278 | every tree that is deep enough has a path by which the root of more leaves passes for the first root |
| LedgerSoundness.FoldGoesDown | services/registry-ledger/src/transparency-log.ts:257-278 | hashes that fold to the root of a tree along any given sides are the siblings on the way down, and the tree is that deep |
| LedgerSoundness.ScaledWalk | services/registry-ledger/src/transparency-log.ts:231-279 | in a tree of 2^u leaves the stop at 2^t passes the root of m * 2^(u-t) leaves for the root of m |
| LedgerSoundness.WalkOfThree | services/registry-ledger/src/transparency-log.ts:231-279 | from three leaves to n > 4 it is so exactly if the right subtree has more than one leaf |
| LedgerSoundness.ThreeOfEight | services/registry-ledger/src/transparency-log.ts:231-279 | the root of six leaves passes for the root of three in a tree of eight |
| LedgerSoundness.LeafIsNodeIsShaCollision | services/registry-ledger/src/transparency-log.ts:35-43 | with the prefixes a leaf hash that is a node hash is a SHA-256 collision |
| LedgerSoundness.InclusionForTree | services/registry-ledger/src/transparency-log.ts:199-228 | for the root of a tree and any leaf index, negative ones too, the ledger accepts exactly one hash and path: those of the node the walk arrives at, if the tree is deep enough |
| LedgerSoundness.InclusionSoundFromZero | services/registry-ledger/src/transparency-log.ts:199-228 | from index 0 on an accepted proof is for the leaf hash of leaf m, with exactly the path the tree emits |
| LedgerSoundness.NegativeIndexWraps | services/registry-ledger/src/transparency-log.ts:205-228 | in a tree of 2^t leaves a negative index m is accepted exactly for leaf m mod 2^t with its path |
| LedgerSoundness.MinusOneOfTwo | services/registry-ledger/src/transparency-log.ts:205-228 | in a tree of two leaves the second passes at index -1; the SDK refuses it |
| TransparencyLog.Log.Append | services/registry-ledger/src/transparency-log.ts:89-91 | appending keeps every earlier leaf and returns the next index |
| TransparencyLog.Log.MthRangeIsMth | services/registry-ledger/src/transparency-log.ts:120-126 | the recursion over index ranges is MTH of the slice |
| TransparencyLog.Log.PathRangeIsPath | services/registry-ledger/src/transparency-log.ts:144-154 | the recursion over index ranges is PATH of the slice |
| TransparencyLog.Log.SubproofRangeIsSubproof | services/registry-ledger/src/transparency-log.ts:176-189 | the recursion over index ranges is SUBPROOF of the slice |
| TransparencyLog.Log.RootAt | services/registry-ledger/src/transparency-log.ts:112-117 | MTH of the first leaves for every size in range, an error outside |
| TransparencyLog.Log.InclusionProofFor | services/registry-ledger/src/transparency-log.ts:132-141 | PATH of the leaf in the tree of that past size, an error outside the ranges |
| TransparencyLog.Log.ConsistencyProofFor | services/registry-ledger/src/transparency-log.ts:161-173 | PROOF between the two sizes, empty from zero and between equal sizes, an error outside the ranges |
| TransparencyLog.InclusionProofsVerify | services/registry-ledger/src/transparency-log.ts:132-228 | every inclusion proof the log emits, for any leaf and past size, is accepted by both verifiers against the log's own root |
| TransparencyLog.ConsistencyProofsVerify | services/registry-ledger/src/transparency-log.ts:161-279 | every consistency proof the log emits is accepted by both verifiers |
| TransparencyLog.SdkAcceptanceIsEnough | services/registry-ledger/src/transparency-log.ts:231-279 | from first size 1 on, what the SDK accepts the ledger accepts |
| Texts.Utf8Exact | services/registry-ledger/src/services/ledger.ts:58-96 | two JavaScript strings have the same UTF-8 bytes exactly if they differ in nothing but lone surrogates |
| Texts.Utf8RoundTrip | services/registry-ledger/src/services/ledger.ts:42-44 | a reader of RFC 3629 gives every string back, with its lone surrogates replaced |
| Texts.RepairedIsSame | services/registry-ledger/src/services/ledger.ts:58-96 | replacing lone surrogates changes a text exactly if it has one |
| Texts.Utf8Injective | services/registry-ledger/src/services/ledger.ts:58-96 | texts without lone surrogates are determined by their bytes |
| Texts.JoinLinesInjective | services/registry-ledger/src/services/ledger.ts:58-96 | newline-joined fields without newlines can be read back |
| Texts.JoinedBytesExact | services/registry-ledger/src/services/ledger.ts:58-96 | the bytes of newline-joined fields determine the fields up to lone surrogates, and no further |
| Encoding.HexRoundTrip | services/registry-ledger/src/transparency-log.ts:55-65 | reading the hexadecimal text of bytes gives the bytes back |
| Encoding.HexDigitsAt | services/registry-ledger/src/transparency-log.ts:55-57 | two lower-case digits for each byte, the high one first, behind 0x |
| Encoding.BigEndianRoundTrip | services/registry-ledger/src/services/pq.ts:84-88 | reading the big-endian bytes of a number that fits gives it back |
| Encoding.BigEndianAt | services/registry-ledger/src/services/pq.ts:84-88 | each byte is the quotient by its power of 256, the highest first |
| SthMessage.SthRoundTrip | services/registry-ledger/src/services/pq.ts:69-101 | a parser gives back every field of every tree head message that can be built |
| SthMessage.SthLayout | services/registry-ledger/src/services/pq.ts:60-101 | where each field of the signed tree head stands, byte by byte |
| SthMessage.SthInjective | services/registry-ledger/src/services/pq.ts:69-101 | two tree head messages are equal exactly if their fields are, texts up to lone surrogates |
| LeafEncodings.SameTextOfWellFormed | services/registry-ledger/src/services/ledger.ts:58-96 | for texts without lone surrogates "up to lone surrogates" is equality |
| LeafEncodings.LeafDeterminesFields | services/registry-ledger/src/services/ledger.ts:58-96 | two leaves of newline-free fields are equal exactly if the fields are, up to lone surrogates |
| LeafEncodings.AttestationLeafText | services/registry-ledger/src/services/ledger.ts:58-68 | the six lines of an attestation leaf |
| LeafEncodings.StatusLeafText | services/registry-ledger/src/services/ledger.ts:70-80 | the six lines of a status leaf, with the word for each status |
| LeafEncodings.EvidenceLeafText | services/registry-ledger/src/services/ledger.ts:82-92 | the six lines of an evidence leaf |
| LeafEncodings.DeleteAttemptLeafText | services/registry-ledger/src/services/ledger.ts:94-96 | the four lines of the leaf of a refused delete |
| LeafEncodings.AttestationLeafInjective | services/registry-ledger/src/services/ledger.ts:58-68 | two attestation leaves are equal exactly if all encoded fields are, up to the case of the content hash and lone surrogates |
| LeafEncodings.StatusLeafInjective | services/registry-ledger/src/services/ledger.ts:70-80 | two status leaves are equal exactly when all fields are, where no successor and the empty one count as the same, and texts up to lone surrogates |
| LeafEncodings.EmptySuccessorIsAmbiguous | services/registry-ledger/src/services/ledger.ts:70-80 | no successor and the empty successor have one leaf |
| LeafEncodings.EvidenceLeafInjective | services/registry-ledger/src/services/ledger.ts:82-92 | two evidence leaves are equal exactly if all encoded fields are, up to the case of the content hash and lone surrogates |
| LeafEncodings.DeleteAttemptLeafInjective | services/registry-ledger/src/services/ledger.ts:94-96 | two leaves of refused deletes are equal exactly if the attempts are, up to lone surrogates |
| LeafEncodings.KindsAreDisjoint | services/registry-ledger/src/services/ledger.ts:58-96 | leaves of different kinds differ |
| LeafEncodings.LoneSurrogatesCollide | services/registry-ledger/src/services/ledger.ts:58-68 | two subjects that differ in a lone surrogate have one leaf |
| ContentKeys.LowerExactly | services/registry-ledger/src/store/memory.ts:27-29 | lower-casing identifies exactly the texts that differ in letter case alone |
| ContentKeys.ContentKeyExactly | services/registry-ledger/src/store/memory.ts:27-29 | for hashes without a bar two content keys are equal exactly for one tenant and one hash up to letter case |
| ContentKeys.BarredKeysCollide | services/registry-ledger/src/store/memory.ts:27-29 | with a bar in the hash a key can stand for two tenants |
| ContentKeys.LogOfDid | services/registry-ledger/src/services/ledger.ts:50-54 | the log of a tenant is named after the last part of its DID |
| ContentKeys.SharedLogExactly | services/registry-ledger/src/services/ledger.ts:50-54 | two tenants share a log exactly if one is the other without the prefix of the DID |
| MemoryStore.Store.PutAttestation | services/registry-ledger/src/store/memory.ts:43-46 | both indexes lead to the record object, whatever the id; a new id comes last in the order, a known one keeps its place |
| MemoryStore.Store.SetAttestationStatus | services/registry-ledger/src/store/memory.ts:48-51 | the change in place is seen through both indexes, an unknown id changes nothing |
| MemoryStore.Store.ListAttestationsBySubject | services/registry-ledger/src/store/memory.ts:53-62 | exactly the records that match by subject or passport, in the order they were first stored |
| MemoryStore.Store.AppendStatus | services/registry-ledger/src/store/memory.ts:64-68 | the history of one record gets one more entry at its end |
| MemoryStore.Store.GetLatestStatus | services/registry-ledger/src/store/memory.ts:70-73 | the last entry of the history, none if there is no history |
| MemoryStore.Store.PutEvidence | services/registry-ledger/src/store/memory.ts:87-95 | stores, or stores again, the record object under both indexes, in the order of first storing |
| MemoryStore.Store.ListEvidenceBySubject | services/registry-ledger/src/store/memory.ts:97-107 | exactly the matching records that are not deleted, in the order they were first stored |
| MemoryStore.Store.PutCheckpoint | services/registry-ledger/src/store/memory.ts:110-115 | one more checkpoint at the end of the list of its log |
| MemoryStore.Store.LatestCheckpoint | services/registry-ledger/src/store/memory.ts:121-124 | the last checkpoint of the log, none if there is none |
| MemoryStore.Store.AppendLeaf | services/registry-ledger/src/store/memory.ts:127-132 | the leaf list of one log gets one more text at its end, whose index is returned |
| LedgerService.AnchorService.AnchorSth | services/registry-ledger/src/services/anchor.ts:177-280 | the service takes every head it is handed, in order, whether it then answers or not |
| LedgerService.Service.constructor | services/registry-ledger/src/services/ledger.ts:98-104 | a new service over any store starts without cached trees and sees the store as it is |
| LedgerService.Service.GetLog | services/registry-ledger/src/services/ledger.ts:107-115 | the cached tree, or one rebuilt from the leaf table; the other trees are untouched |
| LedgerService.Service.AppendAndAnchor | services/registry-ledger/src/services/ledger.ts:118-130 | cached tree and leaf table get the leaf together, also when anchoring then fails; exactly the new head is handed out, and index, hash and head are those of the new tree |
| LedgerService.Service.AnchorAttestation | services/registry-ledger/src/services/ledger.ts:138-212 | new state, reply and heads handed out are those of the model: a known hash is answered, a new one is appended, stored and proved |
| LedgerService.Service.GetAttestation | services/registry-ledger/src/services/ledger.ts:214-246 | new state and reply are those of the model, error cases included |
| LedgerService.Service.GetInclusion | services/registry-ledger/src/services/ledger.ts:249-263 | the proof and root of exactly the requested size, an error outside the range |
| LedgerService.Service.GetStatusRecord | services/registry-ledger/src/services/ledger.ts:266-285 | the latest entry of the history, its successor included, with the proof of its leaf |
| LedgerService.Service.SetStatus | services/registry-ledger/src/services/ledger.ts:291-340 | new state, reply and heads are those of the model: checks in order, leaf, history entry with its successor, status of the shared record, proof |
| LedgerService.Service.SubmitCheckpoint | services/registry-ledger/src/services/ledger.ts:345-359 | the client's head is handed out as it is, and stored once that was answered |
| LedgerService.Service.GetConsistency | services/registry-ledger/src/services/ledger.ts:368-384 | the path between the roots of the two requested sizes, an error for an empty log or a bad range; the second head is handed out only if the first was answered |
| LedgerService.Service.RegisterEvidence | services/registry-ledger/src/services/ledger.ts:401-450 | new state and reply are those of the model, for known and new content hashes |
| LedgerService.Service.GetEvidence | services/registry-ledger/src/services/ledger.ts:452-476 | new state and reply are those of the model; deleted records are not found |
| LedgerService.Service.UpdateRetention | services/registry-ledger/src/services/ledger.ts:482-508 | the record changes only after every check passed, and stays changed when anchoring then fails |
| LedgerService.Service.DeleteEvidence | services/registry-ledger/src/services/ledger.ts:515-540 | a locked record is kept and the attempt appended, any other is marked deleted |
| LedgerService.Service.VerifyBundle | services/registry-ledger/src/services/ledger.ts:545-600 | the loops give exactly the model's bundle for the matching records in the order they were first stored, with the latest checkpoints of their logs, and stop at the first call that is not answered |
| LedgerInvariant.StepKeeps | services/registry-ledger/src/services/ledger.ts:98-600 | every operation keeps the ledger invariant and lets the ledger only grow |
| LedgerAnswers.AttestingAnswers | services/registry-ledger/src/services/ledger.ts:138-212 | in every state a known content key is answered with its record and stores nothing; a new one stores a record that says what the request said, under its key, once anchored |
| LedgerAnswers.StatusAnswers | services/registry-ledger/src/services/ledger.ts:291-340 | in every state a change of status is refused for an unknown record, another tenant, a revoked record, in this order; else reply, record and history say revoked exactly if revoking was asked for |
| LedgerAnswers.RegisteringAnswers | services/registry-ledger/src/services/ledger.ts:401-450 | the same for evidence as for attestations |
| LedgerAnswers.RetentionAnswers | services/registry-ledger/src/services/ledger.ts:482-508 | in every state a change of retention is refused for an unknown or deleted record, another tenant, an unreadable date, a date before a readable recorded one, in this order; else record and reply carry exactly the date and hold asked for, or the old ones |
| LedgerAnswers.DeleteAnswers | services/registry-ledger/src/services/ledger.ts:515-540 | in every state: refused for an unknown or deleted record, another tenant, a date to come or a hold; else marked as deleted |
| LedgerAnswers.InclusionAnswers | services/registry-ledger/src/services/ledger.ts:249-263 | a proof is given at exactly the requested size, or the size of the log, if and only if the record is among that many leaves of it |
| LedgerAnswers.ConsistencyAnswers | services/registry-ledger/src/services/ledger.ts:368-384 | a path is given between exactly the two requested sizes, if and only if the log is known and has them |
| LedgerAnswers.CheckpointAnswers | services/registry-ledger/src/services/ledger.ts:345-359 | a checkpoint is stored last in the list of its log, once anchored, and changes nothing else |
| LedgerAnswers.ReadsFind | services/registry-ledger/src/services/ledger.ts:214-285 | records are found if and only if they are stored and, for evidence, not deleted, and are shown as they are |
| LedgerRuns.FirstAttestation | services/registry-ledger/src/services/ledger.ts:138-212 | the premises of the theorems over runs can be met: any first request makes a possible run and is answered |
| LedgerRuns.BundlesArePossible | services/registry-ledger/src/services/ledger.ts:545-600 | in every state there is a listing for which a bundle can be asked |
| LedgerRuns.RunKeepsInv | services/registry-ledger/src/services/ledger.ts:98-600 | the invariant holds after every run |
| LedgerRuns.CachedTreesAreStoredLeaves | services/registry-ledger/src/services/ledger.ts:107-130 | at every moment of a run each cached tree is the decoded leaf table |
| LedgerRuns.EveryReplyTrue | services/registry-ledger/src/services/ledger.ts:138-600 | every reply of a run tells the truth about the state it leaves: heads are real heads, both verifiers accept every proof it carries, statuses and leaf indexes are those of the record |
| LedgerRuns.ShownHeadsAreHanded | services/registry-ledger/src/services/ledger.ts:138-600 | no reply shows a head that was not handed to the anchor service |
| LedgerRuns.HandedHeadsTrue | services/registry-ledger/src/services/ledger.ts:118-130 | every head an operation hands to the anchor service, answered or not, is the root of the first leaves of its log, unless it is a client's checkpoint |
| LedgerRuns.HeadsStayTrue | services/registry-ledger/src/services/ledger.ts:118-130 | such a head is the head of that size at every later moment |
| LedgerRuns.HeadsAreConsistent | services/registry-ledger/src/services/ledger.ts:118-130 | any two heads of its own that the ledger ever handed to the anchor service for one log, also in refused or failed operations, are joined by a consistency proof that both verifiers accept; equal sizes have equal roots |
| LedgerRuns.JoinedHeads | services/registry-ledger/src/services/ledger.ts:368-384 | the consistency reply joins two given heads exactly if both are true of the log |
| LedgerRuns.CheckpointFitsExactly | services/registry-ledger/src/services/ledger.ts:345-384 | a client's checkpoint is the head the consistency reply starts from exactly if its root is the one of that many leaves |
| LedgerRuns.CheckpointContradictsHead | services/registry-ledger/src/services/ledger.ts:345-359 | a run in which two heads of one log and size with any two roots are handed to the anchor service |
| LedgerRuns.StoredCheckpointsWereHanded | services/registry-ledger/src/services/ledger.ts:345-359 | every stored checkpoint was submitted by an operation of the run, for the log it is filed under |
| LedgerRuns.OldRootsNeverChange | services/registry-ledger/src/transparency-log.ts:89-117 | no tree ever loses or changes a leaf, so no past root changes |
| LedgerRuns.BundleIs | services/registry-ledger/src/services/ledger.ts:545-600 | the bundle has one entry for each matching record, in order, against the state before the call, and the latest checkpoints of their logs, exactly if all calls of the anchor service are answered; handed out are the heads up to the first that is not |
| LedgerRecords.AttestationPointsAtItsLeaf | services/registry-ledger/src/services/ledger.ts:138-190 | in every run each stored attestation points at the leaf that encodes it, and both indexes lead to it |
| LedgerRecords.BundleEntriesVerify | services/registry-ledger/src/services/ledger.ts:545-600 | every matching record has exactly one entry, and the SDK accepts it for the hash of the record's own leaf |
| LedgerRecords.ResubmissionIsIdempotent | services/registry-ledger/src/services/ledger.ts:144-147 | submitting a content hash again, in any letter case and at any later moment, answers with the same id and appends nothing |
| LedgerRecords.ReregistrationIsIdempotent | services/registry-ledger/src/services/ledger.ts:401-409 | registering a known evidence hash again answers with the first record as it now is and appends nothing, also if it is deleted |
| LedgerRecords.StatusHistoryShape | services/registry-ledger/src/services/ledger.ts:181-326 | the status is that of the last entry, the history starts active at the attestation leaf, leaf indexes strictly increase, nothing follows a revocation |
| LedgerRecords.StatusHistoryGrows | services/registry-ledger/src/services/ledger.ts:291-340 | histories are append-only over runs, and a revoked record keeps status and history for ever |
| LedgerRecords.StatusEntriesStayProvable | services/registry-ledger/src/services/ledger.ts:266-340 | every entry can be proved at every later size of its log, for the hash of its own leaf |
| LedgerRecords.NoDeletionBeforeAnyRecordedDate | services/registry-ledger/src/services/ledger.ts:388-540 | evidence is deleted only by its tenant, without a hold, and not before any date ever recorded for it |
| LedgerRecords.DeletedIsFinal | services/registry-ledger/src/services/ledger.ts:452-540 | a deleted evidence record never changes again |
| LedgerRecords.RefusedDeleteLeavesOneLeaf | services/registry-ledger/src/services/ledger.ts:515-540 | a delete by the owner is refused exactly while the record is not deletable; a refusal adds exactly the leaf of the attempt and changes no record |
| LedgerRecords.DeletableFlagExactly | services/registry-ledger/src/services/ledger.ts:388-540 | in every run each evidence entry a reply shows has a flag that says whether its owner can delete the record at that instant, if and only if the record is not both deleted and due; only a repeated registration shows deleted ones |
| LedgerRecords.DeleteSucceedsExactlyWhenDue | services/registry-ledger/src/services/ledger.ts:515-540 | in every state a delete succeeds exactly for the tenant of a record that is not deleted, has no hold, and whose date either cannot be read or has come |
| EvidenceRuns.RegisterThenDelete | services/registry-ledger/src/services/ledger.ts:401-540 | evidence that is not locked when it is registered can be deleted at once |
| EvidenceRuns.UnreadableDateNeverLocks | services/registry-ledger/src/services/ledger.ts:388-540 | a date such as 2024-13-45 is such a case, whatever the time |
| EvidenceRuns.DeletedIsShownAsDeletable | services/registry-ledger/src/services/ledger.ts:406-409 | registered, deleted and registered again: shown as deletable, but neither deletable nor readable |
| EvidenceRuns.HeldLaterHasOldLeaf | services/registry-ledger/src/services/ledger.ts:482-508 | registered without a hold and held later: the leaf still says that there is no hold |
| LedgerRecords.EvidenceLeafIsRegistration | services/registry-ledger/src/services/ledger.ts:401-508 | the evidence leaf stays that of the registration, and encodes the record exactly while date and hold are unchanged |
| LedgerRequests.IndexIsSubmissions | services/registry-ledger/src/services/ledger.ts:138-212 | after every run a content key leads to a record if and only if content was submitted under it and answered |
| LedgerRequests.AlreadyAnchoredExactly | services/registry-ledger/src/services/ledger.ts:138-147 | in every run a submission is answered as already anchored if and only if the same tenant was answered before for the same hash up to letter case; the record shown is always one of this tenant and hash |
| LedgerRequests.AlreadyRegisteredExactly | services/registry-ledger/src/services/ledger.ts:401-409 | the same for evidence |
| LedgerRequests.AttestationComesFromRequest | services/registry-ledger/src/services/ledger.ts:138-190 | every stored attestation says what one answered request said |
| LedgerRequests.StoredRequestStays | services/registry-ledger/src/services/ledger.ts:138-190 | what an answered request stored is there at every later moment, unchanged but for its status |
| LedgerRequests.HistoryIsAnsweredRequests | services/registry-ledger/src/services/ledger.ts:291-340 | in every run the history behind its first entry is the answered changes of status, one by one, revoked exactly where revoking was asked for |
| LedgerRequests.StatusIsWhatWasAsked | services/registry-ledger/src/services/ledger.ts:291-340 | at every moment a record is revoked if and only if revoking it was ever answered, and superseded if and only if only that was |
| LedgerRequests.EvidenceComesFromRequest | services/registry-ledger/src/services/ledger.ts:401-450 | every stored evidence record says what one answered request said, but for date, hold and deletion |
| LedgerRequests.DateIsLastRequested | services/registry-ledger/src/services/ledger.ts:401-508 | its date is the one of the last granted request that named one |
| LedgerRequests.HoldIsLastRequested | services/registry-ledger/src/services/ledger.ts:401-508 | its hold is the one of the last granted request that named one |
| LedgerRequests.DeletedExactlyIfAsked | services/registry-ledger/src/services/ledger.ts:515-540 | it is deleted if and only if a delete was answered as done |
| LedgerRequests.ExtensionBinds | services/registry-ledger/src/services/ledger.ts:482-540 | after a granted extension no delete succeeds before the date it named, whatever is asked in between |
| LedgerBundles.BundleIsWhatWasAsked | services/registry-ledger/src/services/ledger.ts:545-600 | in every run a bundle has one entry for each attestation whose request named the subject, as subject or passport, one for each such evidence record that was not deleted, and no others |
| LedgerBundles.CheckpointsAreSubmissions | services/registry-ledger/src/services/ledger.ts:345-359 | in every run the checkpoints stored for a log are the answered submissions for it, one by one |
| LedgerBundles.SubmissionsAre | services/registry-ledger/src/services/ledger.ts:345-359 | and these are all the answered submissions for that log |
| LedgerBundles.BundleCheckpointsAreLast | services/registry-ledger/src/services/ledger.ts:545-600 | a bundle shows, of each log of its attestations, the checkpoint submitted last |
| LedgerLeaves.StepWrites | services/registry-ledger/src/services/ledger.ts:118-540 | each operation appends exactly one leaf of given text for a new hash, an accepted change of status or a refused delete, and none otherwise, whether anchored or not |
| LedgerLeaves.LogIsRequests | services/registry-ledger/src/services/ledger.ts:98-600 | after every run, with any anchor failures and restarts, each log is exactly the leaves of the requests that were let through, in order |
| LedgerLeaves.HandedExactly | services/registry-ledger/src/services/ledger.ts:118-540 | refusals other than that of a delete hand out no head, an unanswered anchor call was handed one, and a reply was paid for with exactly the heads it shows |
| AnchorTree.MerkleRoot | services/anchor-worker/src/merkle.ts:29-48 | the level loop with its doubling computes the recursive root, and fails exactly on the empty list |
| AnchorTree.RootOfConcatenation | services/anchor-worker/src/merkle.ts:22-48 | the root of 2^e nodes followed by at most as many others is keccak256 of the left root and then the right one, first doubled up to the same height |
| AnchorTree.RootOfFew | services/anchor-worker/src/merkle.ts:22-48 | the root of one node is that node, of two keccak256 of their concatenation |
| AnchorTree.RootBindsListsOfOneLength | services/anchor-worker/src/merkle.ts:29-48 | lists of one length with one root are equal |
| AnchorTree.RootDoesNotBindLength | services/anchor-worker/src/merkle.ts:36-46 | for any two lengths there are lists of these lengths with one root |
| AnchorTree.DoubledLastLeaf | services/anchor-worker/src/merkle.ts:36-46 | [a, b, c] and [a, b, c, c] have one root |
| AnchorTree.EventBytesInjective | services/anchor-worker/src/merkle.ts:51-58 | the bytes under an event leaf determine transaction hash and log index |
| AnchorMessage.MessageRoundTrip | services/anchor-worker/src/index.ts:82-111 | a parser gives back every field of every anchor message that can be built |
| AnchorMessage.MessageLayout | services/anchor-worker/src/index.ts:82-111 | where each field of the signed anchor message stands |
| AnchorMessage.SliceFields | services/anchor-worker/src/index.ts:141-163 | a slice signs its root, the blocks of its first and last event and their number |
| AnchorMessage.RootOfTwoEvents | services/anchor-worker/src/merkle.ts:22-58 | the signed root of two events from their transaction hashes and log indexes |
| AnchorMessage.MessageBindsEvents | services/anchor-worker/src/index.ts:141-163 | equal signed messages mean the same events in the same order |
| Indexer.Service.IndexRange | services/indexer/src/index.ts:95-233 | events and cursor are committed together or, on any failure before the commit, not at all; an error seen after the commit takes nothing back |
| Indexer.Service.TickOnce | services/indexer/src/index.ts:235-248 | one tick does to the database what the model says, for every head and every failure |
| Indexer.TickKeepsExact | services/indexer/src/index.ts:95-248 | every tick keeps the table equal to the watched logs between start and cursor |
| Indexer.TableIsChain | services/indexer/src/index.ts:95-248 | after any run of ticks and rollbacks the table holds exactly those logs, each once |
| Indexer.CursorOfRun | services/indexer/src/index.ts:235-248 | after any run of ticks with one target the cursor is that of the committed ticks alone |
| Indexer.TargetReached | services/indexer/src/index.ts:243-247 | such a run has reached its target if and only if at least ceil((target - cursor) / batchSize) ticks were committed, with any failures in between |
| AnchorPipeline.RunKeepsInv | services/anchor-worker/src/index.ts:121-236 | every step of every interleaving keeps the invariant: exact table, sound slice, anchors with the root of their events |
| AnchorPipeline.IndexedLogsAreConfirmed | services/indexer/src/index.ts:235-248 | in every interleaving a log in the table had the configured confirmations when it was read |
| AnchorPipeline.AnchorsAreSlices | services/anchor-worker/src/index.ts:121-236 | in every interleaving each anchor is a fetched slice of allowed length, in order, of blocks behind the one the chain was at, with its blocks, count and root |
| AnchorPipeline.CoveredExactlyIfClean | services/anchor-worker/src/index.ts:121-236 | with any rollbacks, failures and crashes every watched log up to the worker's cursor is in an anchor, if and only if each cycle that moved the cursor left out no log of its last block that was not anchored before |
| AnchorPipeline.AdvanceCoversExactly | services/anchor-worker/src/index.ts:121-236 | the same for one completed cycle |
| AnchorPipeline.SmallFetchesAreClean | services/anchor-worker/src/store.ts:132-150 | slices below the limit never cut a block |
| AnchorPipeline.EveryDueLogIsAnchored | services/anchor-worker/src/index.ts:121-236 | in such a run each watched log up to the worker's cursor is in an anchor with the root of its events |
| AnchorPipeline.EveryDueLogIsAnchoredOnce | services/anchor-worker/src/index.ts:121-236 | without failures of the worker it is in exactly one anchor, once |
| AnchorPipeline.LostForever | services/anchor-worker/src/store.ts:107-150 | a log lost at some moment of a run is lost at every later one |
| AnchorPipeline.CutLogIsLostForever | services/anchor-worker/src/store.ts:132-150 | a run on a block of two logs with a limit of one, after which the second is never anchored, in any continuation |
| AnchorPipeline.LostStaysLost | services/anchor-worker/src/store.ts:107-150 | no step ever recovers a log the cursor has passed |
| AnchorWorker.Worker.RunOnce | services/anchor-worker/src/index.ts:121-236 | one cycle is its four pipeline steps in order; it signs the canonical message of its slice and moves the cursor only at the end |
| KeccakWords.RotlIsRot | api-console/app.js:49-61 | `rotl` on two 32-bit halves is the 64-bit rotation for every distance below 64 |
| KeccakTables.OffsetsFollowWalk | api-console/app.js:47 | the offsets are those algorithm 2 of FIPS 202 computes |
| KeccakTables.WalkReachesLane | api-console/app.js:47 | and algorithm 2 reaches every lane but lane 0 |
| KeccakTables.RoundConstantsFollowLfsr | api-console/app.js:37-46 | the round constants are those the shift register of algorithm 5 of FIPS 202 computes |
| Keccak.Theta | api-console/app.js:65-79 | the in-place loops compute theta |
| Keccak.RhoPi | api-console/app.js:80-87 | the scattering loops compute pi after rho |
| Keccak.Chi | api-console/app.js:88-94 | the loops over rows compute chi |
| Keccak.KeccakF | api-console/app.js:63-97 | 24 rounds in place on 50 halves are Keccak-f[1600] on 25 lanes |
| KeccakBits.ThetaOfZero | api-console/app.js:65-79 | theta leaves the zero state alone |
| KeccakBits.ThetaFlips | api-console/app.js:65-79 | flipping one bit before theta flips exactly that bit and the five bits of each of two columns after it |
| KeccakBits.RoundBit | api-console/app.js:63-97 | each bit after a round as one formula in the bits before it, the offsets and the round constant |
| KeccakBits.TwentyFourRounds | api-console/app.js:63-97 | Keccak-f is the rounds 0 to 23 in this order |
| KeccakBits.KeccakFIsPermutation | api-console/app.js:63-97 | Keccak-f never takes two states to one |
| Keccak.PadBytes | api-console/app.js:102-104 | the padding loop is pad10*1 on bits, for every message length |
| Keccak.Keccak256 | api-console/app.js:99-122 | the digest of every message is the sponge of rate 1088 over Keccak-f[1600] |
| KeccakSpec.PadInjective | api-console/app.js:102-104 | different messages have different paddings |
| KeccakBits.PadShape | api-console/app.js:102-104 | the message, a one, zeros and a one, in the least number of blocks |
| KeccakBits.AbsorbFirst | api-console/app.js:105-112 | a block flips the bits of the state at its ones, lane after lane, and blocks are absorbed in order |
| KeccakBits.DigestBits | api-console/app.js:100-119 | the digest starts from the zero state and is read off the first four lanes |
| TraceNodes.NodeTable.Ensure | services/indexer/src/trace-api.ts:67-75 | finds or makes the entry of an address and moves its last time |
| TraceNodes.BuildNodes | services/indexer/src/trace-api.ts:66-79 | one node for each address of the hops, in order of first appearance and the sender of a hop before its receiver, with its own totals, first and last times |
| TraceEdges.EdgeTable.Add | services/indexer/src/trace-api.ts:106-121 | one turn of the loop merges the hop into the entry of its key in place, or makes one |
| TraceEdges.BuildEdges | services/indexer/src/trace-api.ts:103-121 | one edge for each key of the hops, in the order the keys first appear, with its litres, count, first and latest times |
| TraceGraph.LitersAreConserved | services/indexer/src/trace-api.ts:76-82 | total received, total sent and total moved are the same, and all balances add up to zero |
| TraceGraph.EdgesConserve | services/indexer/src/trace-api.ts:103-121 | aggregation loses no litre and no transfer |
| TraceGraph.EdgesKeepPairs | services/indexer/src/trace-api.ts:106-121 | each pair of addresses with a transfer has exactly one edge with all its litres and transfers |
| TraceGraph.KeysCanCollide | services/indexer/src/trace-api.ts:107 | without plain addresses one key could stand for two pairs |
| TraceGraph.BalanceIsEdgeFlow | services/indexer/src/trace-api.ts:81-121 | the balance of a node is aggregated inflow less outflow |
| TraceGraph.NodeOfLegalHistory | services/indexer/src/trace-api.ts:81-82 | for a legal history the balance is the replayed one, and not negative except at the mint address |
| TraceGraph.FlagsOfLegalHistory | services/indexer/src/trace-api.ts:93-98 | for a legal history the holder flag says that litres are held and none was ever passed on, the pass-through flag that all were |
| TraceGraph.HeldIsMinted | services/indexer/src/trace-api.ts:76-99 | the other nodes together hold what was minted and not burnt |
| NonceReservation.NoncesNeverRepeat | services/signer/src/nonce.ts:24-61 | in every interleaving, with arbitrarily stale chain reads, the nonces of a wallet strictly increase in commit order and are not behind the chain as their signer saw it |
| NonceReservation.NoncesAreNext | services/signer/src/nonce.ts:24-61 | in every interleaving each nonce is the one after the wallet's last, or the chain's exactly if that is further |
| NonceReservation.Signer.ReserveNonce | services/signer/src/nonce.ts:24-61 | an undisturbed reservation is the four steps in order: the larger of the last nonce plus one and the chain's, stored and returned; it fails exactly for a wallet without a row |
| Broadcaster.Consumer.Submit | services/signer/src/index.ts:107-115 | a new transaction gets its row and its first message, and no other changes |
| Broadcaster.Consumer.ProcessTx | services/broadcaster/src/index.ts:41-153 | one message processed without a crash is exactly its events in order for its transaction, also when the call throws although the node took the broadcast, or a write after it; it touches no other |
| Broadcaster.Consumer.Requeue | services/broadcaster/src/index.ts:96-101 | the timer of a refused broadcast puts one message back |
| Broadcaster.Consumer.RecoverOrphanedTxs | services/broadcaster/src/index.ts:205-243 | the loop over the selected rows settles exactly those whose receipt is there, one after the other, without a second look at the status |
| Broadcaster.BroadcastsAreBounded | services/broadcaster/src/index.ts:41-144 | no transaction is broadcast more often than the retry limit, and at least one attempt, allows |
| Broadcaster.StatusTellsTheTruth | services/broadcaster/src/index.ts:41-243 | in every run CONFIRMED and REVERTED are what the receipt says of an accepted transaction, and FAILED means nothing to send, acceptance, or that every allowed attempt was made |
| Broadcaster.RebroadcastExactly | services/broadcaster/src/index.ts:61-105 | an accepted transaction can be broadcast again if and only if its accepting broadcast was seen as an error, by the call or by a write after it, with retries left |
| Broadcaster.NoChanceNoBroadcast | services/broadcaster/src/index.ts:41-144 | without a message, a timer, an attempt under way or an error on its way to a retry no continuation broadcasts the transaction |
| Broadcaster.AcceptedThenFailed | services/broadcaster/src/index.ts:80-105 | a run in which an accepted transaction is sent twice and ends as FAILED |
| Broadcaster.FinalExactlyAtRest | services/broadcaster/src/index.ts:61-243 | a confirmed or reverted status is final, also against recoveries under way, exactly when no consumer still polls the transaction and no attempt is under way or to come |
| Broadcaster.ConfirmedWhilePolled | services/broadcaster/src/index.ts:205-243 | recovery can settle a transaction that another broadcaster still polls |
| Broadcaster.ConfirmedWhileRetrying | services/broadcaster/src/index.ts:68-105 | recovery can settle a transaction that nobody polls and that will be tried again, after a write failed behind BROADCASTED |

## Left out

- SHA-256, keccak256 as a collision-resistant function, ML-DSA-65 and ECDSA: hashes are unknown functions and signatures are not modelled; what is signed is.
- Parsing of malformed hexadecimal text in proofs and roots: hashes are 32 bytes. The verifiers do not check entry lengths, so for other lengths nothing is claimed.
- Numbers that are not integers, which only the SDK's verifiers reject explicitly.
- PowersOfTwo.LargestPowerOfTwoSmallerThan: asks for n up to 2^30, because beyond it the loop does not end (KLoopEnds); the log's functions and the service ask for trees below that size for the same reason.
- SdkVerifier.VerifyInclusion: asks for sizes up to 2^32, where the unsigned shifts lose nothing.
- SdkVerifier.VerifyConsistency: asks for second sizes up to 2^32, for the same reason.
- LedgerVerifier.VerifyInclusion: asks for sizes up to 2^31 and leaf indexes from -2^31, where the signed shifts lose nothing.
- LedgerVerifier.VerifyConsistency: asks for second sizes up to 2^31 and first sizes from -2^31, where the signed shifts lose nothing; below, at negative multiples of 2^32, the shifting loop does not end.
- LedgerRequests.AlreadyAnchoredExactly: asks for content hashes without a bar, as the pattern of the routes sees to (services/registry-ledger/src/routes/attestations.ts:16); with one the keys of two tenants can coincide (ContentKeys.BarredKeysCollide).
- LedgerRequests.AlreadyRegisteredExactly: the same.
- LedgerRuns: operations run one at a time. Interleavings at the awaits of one operation, where a proof and its head can be of different sizes, are not modelled.
- LedgerService.Service.AnchorAttestation: random ids are parameters and must be new; hashAlg, links beyond the passport, issuedAt and the reason of a status change are carried by no property and left out.
- LedgerService.Service.SubmitCheckpoint: the index of checkpoints by id, which no operation reads, and their timestamps and transaction hashes are left out.
- MemoryStore.Store.PutAttestation: promises the store's invariant only for a new id or the object already under it, since another object under a used id would part the two indexes.
- MemoryStore.Store.PutEvidence: the same.
- LedgerService.AnchorService.AnchorSth: whether each call is answered is a parameter, and a head that was handed over may or may not be on the chain; timestamps, transaction hashes and signatures of heads are not modelled.
- Letter case: `toLowerCase` is modelled on ASCII letters, those of a hexadecimal hash.
- Dates: how a date text is read is a parameter; the same text always reads as the same instant.
- Postgres stores, HTTP routes, authentication, metrics, console user interface, other SDKs and clients.
- Reorganisations of the chain under the indexer: blocks are final, as the service assumes. Block metadata and decoding of events carry no property.
- AnchorWorker.Worker.RunOnce: covers one cycle without a crash inside; crashes between its steps are steps of AnchorPipeline. Blob metadata, signature rows and the ids of anchors are left out.
- The conversion of litres to floating-point numbers, labels, and the list of single transfers in the graph.
- KeccakWords: JavaScript's sign of a 32-bit pattern is not represented, since only bit operations read it.
- Broadcaster.Consumer.ProcessTx: rows are the table's values, several consumers and crashes are events of the state machine beside it; attempt rows, delays, error texts and nonces of confirmed transactions are left out.
- Broadcaster.BroadcastsAreBounded: each transaction enters the queue once, as the signer does it. Failed writes are events: an error seen by the sender inside the try block, a crash of the consumer elsewhere.
- Broadcaster.Consumer.Submit: the status of a transaction not yet broadcast is Pending, for the signer's QUEUED as well.
- Broadcaster.Consumer.RecoverOrphanedTxs: which selected rows have a receipt is a parameter; the age limit of one hour is not modelled.
- NonceReservation.NoncesNeverRepeat: the loss of precision when a reserved number beyond 2^53 is returned as a JavaScript number is not modelled.
