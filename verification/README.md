# ObjeX: a verified model of replication, storage, listing and signing

ObjeX is an S3-compatible object store written in Go. This project models its hardest logic in
Dafny and proves what the code and its documentation promise, for every input and every run.
Where a promise fails, a lemma gives the failing input and another says exactly when it holds.

`dafny verify dfyconfig.toml` checks everything.

## What is modelled

**Quorum replication of one key** (`Quorum`, `Replica`, `Protocol`, `ProtocolInvariant`,
`ProtocolTheorems`, `ProtocolProgress`, `Coordinators`). `Protocol` is a transition system: node rows (absent, live or
tombstone, each with a version), the history of what the primary wrote at each version, requests
that may be lost, delayed, repeated or reordered, pending hints, reads in progress and the replicated
mark. `ProtocolInvariant` proves one inductive invariant; `ProtocolTheorems` derives the guarantees for
whole runs, `ProtocolProgress` what can and cannot happen from a reachable state. `Coordinators` writes the coordinator, fan-out, hint worker and healer as methods that
only take protocol steps, with arbitrary interference between any two: by everything else that runs
for a write or healing pass, and by everything including those for reads and hint deliveries. Silent
nodes, lost replies and failing stores are parameters, so each contract says exactly what the outcome
is. The theorems apply to each object's own run.

**One node's storage** (`Validation`, `MetadataStore`, `ObjectService`, `Hints`). Rows and bucket
counters, blobs and rows across every failure exit, the hint table and its staged payload files.
`ObjectService.PutReplicaIsHandle` and `BuryReplicaIsHandle` tie this level to the protocol's replica step.

**Placement, listing, peer health, multipart, upload stream** (`Basics`, `Orders`, `Placement`, `Listing`,
`PeerHealth`, `Multipart`, `UploadStream`).

**SigV4 presigned URLs** (`UriEncoding`, `CanonicalUri`, `CanonicalQuery`, `SigV4`).

## Assumptions

The code relies on these without enforcing them.

- The primary runs one write or healing pass on a key at a time; reads, read repairs and hint
  deliveries interleave freely. docs/architecture/consistency.md:42
  calls it the serialization point, but no lock spans the choice of a version and the write
  (internal/replication/coordinator.go:76-81). `ProtocolTheorems.OverlappingWritesAgreeIff` shows why it is needed.
- One replica handler call is one atomic step; nothing spans its check and its write
  (internal/object/service.go:230-285). `Replica.SplitHandlerSafeIff` says exactly when that does not matter.
- The quorum configuration passed `Validate` and the replica set has N distinct nodes.
- Copies and multipart completions are not used on replicated keys: both store version 0.
- MD5, SHA-256, HMAC and the rendezvous hash are function parameters; SHA-256 of a bucket and a
  sanitised key is taken to name the file, so addresses are compared before hashing.
- A statement batch of the metadata store is one transaction. Times are integers.
- A presigned request reaches the server with the signed method and host, a base URL without a path,
  and no x-amz-date or x-amz-content-sha256 header. Signing dates have eight digits and times six.
- Strings in `UriEncoding`, `CanonicalUri`, `CanonicalQuery` and `SigV4` are byte strings.

## Where the code falls short of its promise

- object_count drifts down when a deleted key is written again or a tombstone row is deleted
  (`MetadataStore.CounterExactIff`, `RewrittenKeyLosesItsCount`).
- Accepted keys such as `a` and `a/` share one blob, so one can destroy the other's bytes
  (`Validation.AcceptedKeysCanAlias`, `ObjectService.NeverWrongBytesIff`).
- A live row can lose its bytes, against the comment at internal/object/service.go:518: a put that
  fails after its rename removes the blob it replaced (a replica put with wrong bytes among them),
  and a tombstone removes the blob before its row write fails (`ObjectService.WholeThroughoutIff`,
  `FailedOverwriteLosesBlob`, `MismatchLosesBlob`, `FailedTombstoneLosesBlob`).
- A put whose row and whose clean-up both fail leaves its bytes under the old row: the clean-up's
  result is ignored (`ObjectService.SoundThroughoutIff`, `FailedCleanupLeavesWrongBytes`).
- Staging copies the current bytes whatever version is hinted, so a read repair queued after an
  overwrite replaces the payload of a pending put hint by bytes of the newer version
  (`Hints.PayloadsKeptThroughoutIff`, `StaleRepairLosesPayload`, `LateRepairLosesPayload`).
- A repair whose copy breaks off deletes the payload of a pending put hint
  (`Hints.FailedRepairLosesPayload`), and keys that differ only in `/` against `_` share a staged
  payload (`Hints.SafeIsEnoughIff`).
- A superseded hint is never delivered and never dropped (`ProtocolProgress.HintCanLeaveIff`).
- StartAfter lists its own key when that is live and matches (`Listing.StartAfterIsInclusive`,
  `StartAfterExclusiveIff`).
- The upload limit can truncate a body that is one byte too long, or refuse one that just fits,
  depending on how the reader reports its end (`UploadStream.LimitEnforcedIff` and the two examples).
- Re-uploading a part and losing its row lets a completion record a wrong size (`Multipart.PartsAgreeIff`).
- A key with a percent sign whose whole path reads as an escaped string gets a presigned URL that
  is accepted only on a hash collision (`CanonicalUri.PathRoundTripIff`, `SigV4.EscapedKeyMismatch`,
  `SigV4.UnsafeNeedsCollision`).
- The default quorums are refused at start-up for N above 3 (`Quorum.DefaultsAcceptedIff`).
- Parts listed out of order are sorted, not refused; only duplicates give the order error (`Multipart.Judge`).

## Model

| member | source | states |
|---|---|---|
| `ProtocolTheorems.QuorumReadSafety` | internal/replication/coordinator.go:303-324 | On every run, a quorum read begun after write v was reported successful yields a winner of version at least v with exactly the ETag and delete flag the primary wrote at that version, whichever R nodes answer and whenever each is sampled. |
| `ProtocolTheorems.OverlapGivesSafety` | internal/quorum/quorum.go:24-38 | A write quorum and the nodes that answered a read share a node, so the newest answer is not older than the write. |
| `ProtocolTheorems.FoundAreDistinct` | internal/replication/coordinator.go:303-312 | The found states counted against R belong to as many distinct nodes. |
| `ProtocolTheorems.QuorumReadIsPrimaryRead` | internal/replication/coordinator.go:326-341 | On every run, a read that lists the primary first and has its answer, taken at any moment, never returns less than that answer, whenever the other nodes are sampled; and it returns the primary's own row while no write begins between that answer and the end of the read. |
| `ProtocolTheorems.SamplesBehindPrimary` | internal/replication/coordinator.go:326-341 | Nothing a read has sampled, at whatever moment, is newer than the primary. |
| `ProtocolTheorems.ReplicasAgree` | internal/object/service.go:129-138 | On every run each row's version never falls and never exceeds the primary's, nodes at one version hold one content, and what was written at a version never changes. |
| `ProtocolTheorems.NoConflictReply` | internal/object/service.go:230-247 | On every run no replica ever answers version conflict, and answers stale only to a strictly older version. |
| `ProtocolTheorems.ReplicatedStatusSound` | internal/replication/coordinator.go:134-137 | On every run a live primary row marked replicated is held, at that version or newer, by at least W nodes, whether the put or the healing pass marked it. |
| `ProtocolTheorems.HintCoverage` | internal/replication/coordinator.go:128-132 | In every later state each node of the set has every write reported successful, or a pending hint that brings exactly it, unless storing that very hint failed; other writes, nodes and hints do not matter. |
| `ProtocolTheorems.HintRetiredAfterHeld` | internal/replication/hints_worker.go:60-80 | A hint leaves the queue only after its target held exactly the hinted version with the content the primary wrote. |
| `ProtocolTheorems.HintPendingOrHeld` | internal/replication/hints_worker.go:60-80 | On every run a pending hint stays pending until its target holds the hinted version or a newer one. |
| `ProtocolTheorems.OkWasHeld` | internal/object/service.go:230-290 | Every Ok reply at a version was preceded by a state in which that node held exactly that version. |
| `ProtocolTheorems.HintsConverge` | internal/replication/coordinator.go:423-477 | After a last successful write, delivering the hints pending for it at a node in any order, mixed with any late, repeated or stale deliveries, leaves that node with the primary's row. |
| `ProtocolTheorems.PrimaryStays` | internal/replication/coordinator.go:76-84 | Nothing but the primary's own write changes the primary's row: no hint, repair or late delivery does. |
| `ProtocolTheorems.OverlappingWritesAgreeIff` | internal/replication/coordinator.go:76-81 | Two writes that choose the same version leave replicas at or behind the row it was chosen on agreeing, whatever the order of arrival, only when their contents are equal: why the primary must run one write at a time. |
| `ProtocolProgress.WriteCanCommit` | internal/replication/coordinator.go:60-138 | From every reachable idle state, and for every set of W nodes with the primary, some run sends the write, has it taken by exactly these nodes and commits it. |
| `ProtocolProgress.HintCanLeaveIff` | internal/replication/hints_worker.go:60-80 | In every reachable state a pending hint can still leave the queue if and only if its target is not past the hinted version or has already answered Ok to it. |
| `ProtocolProgress.SupersededHintStays` | internal/object/service.go:235-237 | A hint whose target is past its version is retried for ever: it is pending in every later state of every run. |
| `ProtocolInvariant.BehaviorInv` | internal/replication/coordinator.go:60-197 | The inductive invariant (rows, network, hints, acknowledgements, committed quorums, status, reads in progress) holds in every state of every run. |
| `ProtocolInvariant.StepKeepsInv` | internal/replication/coordinator.go:60-197 | Every step of writes, deliveries, hint work, healing and reads keeps the invariant. |
| `ProtocolInvariant.BehaviorGrows` | internal/object/service.go:218-290 | Along every run rows only gain versions, and written and reported versions stay written and reported. |
| `ProtocolInvariant.InSyncMeansHeld` | internal/replication/coordinator.go:565-578 | When all polled nodes are in sync with the primary's row, every node of the set holds it. |
| `ProtocolInvariant.EndHealKeepsInv` | internal/replication/coordinator.go:537-563 | A healing pass, with any subset of its repairs queued, keeps the invariant including the status claim. |
| `Coordinators.Coordinator.PutObject` | internal/replication/coordinator.go:60-138 | A put fails locally exactly when the local store or reopening does; else it assigns the next version, sends it to every replica, counts every reply once, and succeeds exactly when the Ok replies and the primary are at least W; then exactly those nodes are committed, every other node has the write or its hint unless that cannot be stored, and the row is marked replicated; a missed quorum reports nothing. |
| `Coordinators.Coordinator.DeleteObject` | internal/replication/coordinator.go:141-197 | The same for a tombstone; deleting a key the primary never held, and only that, does nothing. |
| `Coordinators.Coordinator.Replicate` | internal/replication/coordinator.go:86-137 | Success if and only if, when all replies were counted, at least W nodes including the primary had acknowledged; then those nodes are committed and each failed replica whose hint can be stored has the write or the hint. |
| `Coordinators.Coordinator.FanOut` | internal/replication/replicator.go:59-104 | Under every schedule of the goroutines each replica lands in exactly one of the success and failure lists, once, as a success exactly when it had answered Ok by then and the reply came back; the ack counter is the number of successes. |
| `Coordinators.Coordinator.AwaitNext` | internal/replication/replicator.go:68-93 | One goroutine that ends moves one unheard replica into one of the two lists and keeps the tally exact. |
| `Coordinators.Coordinator.EnqueueHints` | internal/replication/coordinator.go:128-132 | Every failed replica gets its hint queued, save those that cannot be stored, before the write is reported. |
| `Coordinators.Coordinator.QuorumRead` | internal/replication/coordinator.go:303-324 | Every node is asked; the read has a winner if and only if at least R of the answering nodes have the key; the winner is the first of greatest version, is what the primary wrote at it, and is at least as new as every write reported before the call, whatever writes, healing passes and deliveries run meanwhile. |
| `Coordinators.Coordinator.GetObject` | internal/replication/coordinator.go:200-219 | Unavailable if and only if the read quorum is missed; else the winner, found with its ETag and a repair queued for each stale node, or not found for a tombstone; neither is older than any write reported before the call. |
| `Coordinators.Coordinator.CollectReplicaStates` | internal/replication/coordinator.go:326-341 | The local state comes first, then the others in the order of the replica set, each the row sampled at that node's own moment, or not found. |
| `Coordinators.Coordinator.FetchReplicaStates` | internal/replication/replicator.go:228-240 | Concurrent lookups that end in any order put each answer at its node's place. |
| `Coordinators.Coordinator.ScheduleReadRepair` | internal/replication/coordinator.go:360-386 | Read repair adds exactly one hint, with the winner's version and ETag, for each answering node that is stale against the winner, save those whose hint cannot be stored, and changes nothing else. |
| `Coordinators.Coordinator.DeliverHint` | internal/replication/coordinator.go:423-477 | The hint is sent; it is delivered if and only if its target has answered Ok and the reply comes back, then it is gone from the queue and held; else it stays pending until its target holds it, whatever writes and healing passes run meanwhile. |
| `Coordinators.Coordinator.ProcessDue` | internal/replication/hints_worker.go:46-91 | Every due hint is tried, and delivered exactly on an Ok that comes back; a delivered one has left the queue and is held, every other pending one is still pending or held. |
| `Coordinators.Coordinator.HealObject` | internal/replication/coordinator.go:537-563 | For a live row every node is asked once, each stale answering node gets a repair unless it cannot be stored, and the row is marked replicated if and only if all answered with it and the status can be stored; then every node holds it. For any other row nothing happens. |
| `Coordinators.Coordinator.FinishHealing` | internal/replication/coordinator.go:556-562 | A healing pass queues exactly the repairs of its stale answering nodes, save those that cannot be stored, and marks the row exactly when all its states are in sync and the status can be stored. |
| `Coordinators.FilterFound` | internal/replication/coordinator.go:305-310 | Keeps exactly the found states, in order. |
| `Coordinators.LocalFirstMeans` | internal/replication/coordinator.go:328-340 | The local node comes first, the others follow as listed. |
| `Replica.HandleAllNewest` | internal/object/service.go:218-290 | Whatever requests reach an empty replica, in whatever order, its row is one of the newest requested. |
| `Replica.ReplyMeans` | internal/object/service.go:218-290 | A reply is Ok exactly when the row now is what was requested, stale or conflict exactly when it stays newer or as new with other content, and a newer request is taken exactly when accepted. |
| `Replica.OrderIndependentIff` | internal/object/service.go:467-487 | Order and repetition of requests never matter exactly when the newest requests agree. |
| `Replica.TombstoneNotUndone` | internal/object/service.go:467-487 | A tombstone survives every older or equal request before or after it. |
| `Replica.SplitHandlerSafeIff` | internal/object/service.go:230-285 | A handler whose check and write are separate steps acts as one atomic call exactly when the row it overwrites is still older or already the same. |
| `Replica.SplitHandlerLosesUpdate` | internal/object/service.go:230-285 | Two overlapping handlers can replace an acknowledged version 2 by version 1. |
| `Replica.PickNewestState` | internal/replication/state.go:16-29 | Returns the first found state of greatest version, and none exactly when none is found. |
| `Replica.WinnerUnique` | internal/replication/state.go:16-29 | That state is unique. |
| `Replica.ReplicasInSync` | internal/replication/coordinator.go:565-578 | True exactly when there are states and each is found, not older, agrees on the ETag at equal version and on the delete flag. |
| `Replica.NeedsRepairIff` | internal/replication/coordinator.go:360-372 | Where nodes at one version agree, the nodes that need repair are exactly the answering ones behind the winner. |
| `Replica.InSyncIff` | internal/replication/coordinator.go:565-578 | And the nodes in sync are exactly those that hold the winner's row. |
| `Quorum.OverlapIff` | internal/quorum/quorum.go:24-38 | For quorums within 1..N, validation accepts exactly when every write quorum meets every read quorum. |
| `Quorum.AcceptedIff` | internal/quorum/quorum.go:24-48 | Validation accepts exactly when no empty set is a quorum, the whole set is one, and every write quorum meets every read quorum. |
| `Quorum.VerdictMeans` | internal/quorum/quorum.go:24-38 | Which of the four faults is reported. |
| `Quorum.QuorumsIntersect` | internal/quorum/quorum.go:35-37 | W + R > N gives two quorums a common node. |
| `Quorum.DefaultsAcceptedIff` | internal/quorum/quorum.go:16-21 | The default quorums pass validation for N of 1, 2 and 3 only. |
| `Quorum.DefaultsAreMajority` | internal/quorum/quorum.go:16-21 | Where they pass, the defaults are the smallest majority. |
| `MetadataStore.Store.PutObject` | internal/metadata/sqlite/store.go:302-403 | The row and both counters change together as the update or insert branch says, or not at all. |
| `MetadataStore.Store.PutTombstone` | internal/metadata/sqlite/store.go:419-472 | The row becomes an empty tombstone; counters move only if it was live. |
| `MetadataStore.Store.DeleteObject` | internal/metadata/sqlite/store.go:520-552 | A present row is removed and counted down, a missing one is no error. |
| `MetadataStore.ApplyRows` | internal/metadata/sqlite/store.go:302-403 | Only the operation's own row changes: a put stores the row given, a new one never with version 0 or without a status, a tombstone is an empty deleted row, a delete leaves none. |
| `MetadataStore.ObjectCountConserved` | internal/metadata/sqlite/store.go:337-403 | Over every operation sequence object_count is the number of live rows, less puts that landed on a tombstone, less tombstone rows deleted (plus deleted rows put over live ones). |
| `MetadataStore.CounterExactIff` | internal/metadata/sqlite/store.go:337-403 | Without puts of deleted rows, the counter is exact if and only if no put landed on a tombstone and no tombstone row was deleted. |
| `MetadataStore.TotalSizeConserved` | internal/metadata/sqlite/store.go:435-471 | Over every operation sequence total_size is the sum of the row sizes plus the sizes of deleted rows buried again. |
| `MetadataStore.TotalSizeExact` | internal/metadata/sqlite/store.go:435-471 | Without puts of deleted rows, total_size is exactly the sum of the row sizes. |
| `MetadataStore.RewrittenKeyLosesItsCount` | internal/metadata/sqlite/store.go:389-393 | A live key deleted and written again is live but counted once less. |
| `ObjectService.Service.PutObjectWithVersion` | internal/object/service.go:141-210 | The put with all its failure exits has the effect and outcome of the specified step. |
| `ObjectService.Service.PutReplica` | internal/object/service.go:218-290 | The guarded replica put with all its failure exits has the effect and outcome of the specified step. |
| `ObjectService.Service.PutTombstone` | internal/object/service.go:449-464 | The tombstone drops a live blob, then records the marker. |
| `ObjectService.Service.PutTombstoneReplica` | internal/object/service.go:467-487 | The guarded replica tombstone has the effect and outcome of the specified step. |
| `ObjectService.Service.DeleteObject` | internal/object/service.go:502-523 | Row first, then blob; a missing row is no error. |
| `ObjectService.PutReplicaIsHandle` | internal/object/service.go:218-290 | A replica put over table and blobs is exactly the protocol's replica step, accepted when the bytes match their checksum and no call fails. |
| `ObjectService.BuryReplicaIsHandle` | internal/object/service.go:467-487 | Likewise for a replica tombstone. |
| `ObjectService.PutIsWrite` | internal/object/service.go:141-203 | An unhindered put leaves the bytes at the key's address and a live row of exactly that size, digest, version and status: the row of the primary's write step. |
| `ObjectService.PutReplicaStores` | internal/object/service.go:218-290 | An unhindered newer replica put leaves a replicated row of its own size, digest and version, and its bytes. |
| `ObjectService.BuryIsWrite` | internal/object/service.go:449-487 | An unhindered tombstone leaves an empty marker of its version and removes the bytes of a live row. |
| `ObjectService.DeleteIsGone` | internal/object/service.go:502-523 | An unhindered delete leaves neither row nor bytes. |
| `ObjectService.PutOutcomeMeans` | internal/object/service.go:141-203 | Done exactly when the row is committed, too large exactly for no room or a passed limit, mismatch exactly for other bytes than announced. |
| `ObjectService.RefusedChangesNothing` | internal/object/service.go:218-247 | An operation refused by its checks changes nothing. |
| `ObjectService.StepSoundIff` | internal/object/service.go:162-203 | With no two keys at one blob address, an operation keeps every live row's blob absent or matching its ETag exactly unless it leaves foreign bytes behind because its clean-up failed. |
| `ObjectService.SoundThroughoutIff` | internal/object/service.go:162-203 | Over every sequence of puts, replica puts, tombstones and deletes, through every failure exit, ignored clean-up failures included, every live row's blob stays absent or matching its ETag at every moment if and only if no put leaves behind bytes its own still live row does not name. |
| `ObjectService.CleanPutsSpoilNothing` | internal/object/service.go:162-203 | That is so while the clean-ups of puts succeed, whatever happens to those of tombstones and deletes. |
| `ObjectService.FailedCleanupLeavesWrongBytes` | internal/object/service.go:198-202 | The other case is real: an overwrite whose row and clean-up both fail leaves the new bytes under the old row. |
| `ObjectService.NeverWrongBytesIff` | internal/object/service.go:254-289 | From a sound node, the histories in which no put leaves foreign bytes behind never give a live row wrong bytes if and only if no two keys used share a blob address. |
| `ObjectService.WholeThroughoutIff` | internal/object/service.go:518-523 | Over every sequence of operations, through every failure exit, every live row keeps its own bytes at every moment if and only if no put fails after its rename and no tombstone after its removal over a live row (a put that leaves equal bytes aside). |
| `ObjectService.NeverMissingBytesIff` | internal/object/service.go:518-523 | From a node whose rows all have their bytes, undamaged histories keep it so if and only if no two keys used share a blob address. |
| `ObjectService.FailedTombstoneLosesBlob` | internal/object/service.go:460-463 | A tombstone whose row write fails leaves the row live and its blob removed. |
| `ObjectService.FailedOverwriteLosesBlob` | internal/object/service.go:162-203 | An overwrite that fails after its rename, with its clean-up, removes the blob the old row names. |
| `ObjectService.MismatchLosesBlob` | internal/object/service.go:259-267 | A replica put with wrong bytes removes the blob its live row still names. |
| `ObjectService.ExecFrame` | internal/storage/filesystem/storage.go:52-113 | An operation touches only its own key's row. |
| `Validation.AcceptedKeysCanAlias` | internal/validation/validation.go:62-67 | Two accepted keys can have one blob address. |
| `Validation.SanitizedIsClean` | internal/validation/validation.go:62-67 | An address holds no parent step, no backslash and no slash at either end. |
| `Validation.SanitizedUnchangedIff` | internal/validation/validation.go:62-67 | Exactly the keys that are clean already are their own address. |
| `Hints.HintQueue.StageHintCopy` | internal/storage/filesystem/hint_staging.go:34-49 | Staging copies the current bytes to the path of target, bucket, version and underscored key; a copy that breaks off removes the file. |
| `Hints.HintQueue.CreateHint` | internal/metadata/sqlite/hints.go:11-40 | An upsert on target, bucket, key, version and kind: an existing row keeps its id and attempts. |
| `Hints.HintQueue.EnqueueHint` | internal/replication/coordinator.go:388-420 | Payload first, then the row, with the path only if staging succeeded. |
| `Hints.HintQueue.FinishHint` | internal/replication/hints_worker.go:60-88 | Delivery removes row and payload, failure raises the attempt count. |
| `Hints.HintQueue.ResetHintsForTarget` | internal/metadata/sqlite/hints.go:88-96 | All hints of the target become due at once with no attempts. |
| `Hints.UpsertMeans` | internal/metadata/sqlite/hints.go:26-40 | An upsert over an existing row keeps id and attempts, a new row has a fresh id and none; no other row changes. |
| `Hints.EnqueueMeans` | internal/replication/coordinator.go:405-420 | Staging happens exactly for put and repair hints of the node's own objects, with the current bytes at the path of target, bucket, version and underscored key; the row has a path exactly if the copy is complete. |
| `Hints.FinishMeans` | internal/replication/hints_worker.go:60-80 | A delivery removes the row with the listed id and its staged file, and nothing else; a failure adds an attempt and puts the row off. |
| `Hints.UnderscoredMeans` | internal/storage/filesystem/hint_staging.go:71-74 | Slashes of a key become underscores in its payload name, and nothing else changes. |
| `Hints.ResetMeans` | internal/metadata/sqlite/hints.go:88-96 | A reset touches the rows of its target only. |
| `Hints.EnqueueKeepsPayloadsIff` | internal/replication/coordinator.go:405-414 | With no shared payload names, an enqueue keeps every pending payload exactly when it leaves the file alone, its target already has the version, it stages bytes of that version, or no pending hint points at the file. |
| `Hints.PayloadsKeptThroughoutIff` | internal/storage/filesystem/hint_staging.go:34-74 | Over every history of writes, removals, enqueues, deliveries and resets, with no shared payload names, every pending put or repair hint has its own bytes staged, or its target has the version, at every moment if and only if every enqueue stages safely. |
| `Hints.SafeIsEnoughIff` | internal/storage/filesystem/hint_staging.go:71-74 | Staging safely is enough on every history if and only if no two keys of a bucket are equal once "/" is written "_". |
| `Hints.CurrentVersionIsSafe` | internal/replication/coordinator.go:405-414 | Hinting the current version of a key stages safely while the copy does not break off. |
| `Hints.StaleRepairLosesPayload` | internal/object/service.go:319-333 | Staging copies the current bytes whatever version is hinted: in any state, a repair of an overwritten version replaces the payload of the pending put hint of that version. |
| `Hints.LateRepairLosesPayload` | internal/replication/coordinator.go:360-386 | Such a repair is queued: a target that holds an older version is found stale by a read that sampled the version before it was overwritten; for all three versions. |
| `Hints.FinishKeepsPayloads` | internal/replication/hints_worker.go:62-65 | A delivery that removes the file shared by a put and a repair hint of one version loses nothing: the target holds the version. |
| `Hints.FailedRepairLosesPayload` | internal/storage/filesystem/hint_staging.go:44-47 | A repair whose copy breaks off removes the payload of the pending put hint of the same version. |
| `Hints.NextHintDelay` | internal/replication/hints_worker.go:94-104 | The delay is two to the number of attempts in seconds, capped at five minutes. |
| `Hints.HintQueue.ProcessDue` | internal/replication/hints_worker.go:60-91 | The loop over the due hints finishes each with its own outcome and delay. |
| `Hints.PassProcesses` | internal/replication/hints_worker.go:60-91 | A pass removes each listed hint that is delivered, and gives each other one more attempt and its backed-off time. |
| `Hints.PassKeepsOthers` | internal/replication/hints_worker.go:60-91 | A pass leaves the rows it was not given alone. |
| `Placement.NewStaticMembership` | internal/cluster/membership.go:26-64 | Accepted exactly for present, distinct IDs, present addresses and a listed local node; the kept list is the nodes by ascending ID. |
| `Placement.Locate` | internal/cluster/placement.go:55-105 | The replica set is the first rf of the ranking: rf distinct members, best first; an empty or too small cluster is an error. |
| `Placement.RankingAscending` | internal/cluster/placement.go:70-83 | The ranking orders all members by score, ties by ID, each once. |
| `Placement.RankingMeans` | internal/cluster/placement.go:78-83 | The node with the higher score comes first, of two with one score the smaller ID. |
| `Placement.KeptMeans` | internal/cluster/membership.go:26-64 | Members keep ID and address; one without a status is active. |
| `Placement.RankingOrderFree` | internal/cluster/placement.go:55-105 | The ranked IDs depend on the set of IDs only, not on the order members are configured in, nor on their addresses and statuses. |
| `Placement.TopRankedIff` | internal/cluster/placement.go:85-89 | A member is among the first k exactly when fewer than k members outrank it. |
| `Placement.AddingNodeDisruptsLittle` | internal/cluster/placement.go:55-105 | A new member leaves the ordered replica set unchanged, or enters it and pushes out exactly the last ranked member. |
| `Placement.RemovingNodeDisruptsLittle` | internal/cluster/placement.go:55-105 | Removing a member leaves the ordered set unchanged, or deletes it there and appends the next ranked member. |
| `Listing.ScanRows` | internal/metadata/sqlite/store.go:559-584 | The range query and the row filters keep exactly the live keys in range with the prefix. |
| `Listing.RangeScanIsPlainFilter` | internal/metadata/sqlite/store.go:735-743 | Without StartAfter, starting the scan at the prefix loses no matching key. |
| `Listing.StartAfterExclusiveIff` | internal/metadata/sqlite/store.go:559-562 | A listing starts strictly after StartAfter exactly when that is not itself a live matching key. |
| `Listing.StartAfterIsInclusive` | internal/metadata/sqlite/store.go:559-562 | StartAfter does not exclude its own key. |
| `Listing.PaginateFlat` | internal/metadata/sqlite/store.go:598-628 | The page starts after the token, holds at most MaxKeys objects, and its token is its last key when more follow. |
| `Listing.PageMeans` | internal/metadata/sqlite/store.go:598-628 | The listing falls into what is not past the token, the page and what follows; the page has at most MaxKeys objects, 1000 by default, and is truncated exactly when something follows, with its last key as the token. |
| `Listing.TokenResumes` | internal/metadata/sqlite/store.go:598-628 | A token resumes right behind the object it names. |
| `Listing.ListedIff` | internal/metadata/sqlite/store.go:554-590 | What is listed is exactly the live matching keys from the start on, less those rolled up, in strictly ascending order. |
| `Listing.WalkPages` | internal/metadata/sqlite/store.go:598-628 | Calling ListObjects again with each continuation token ends, and the pages together are the whole listing in order, each object once, for any MaxKeys. |
| `Listing.ListedIgnoresToken` | internal/metadata/sqlite/store.go:598-611 | The token decides where a page starts, not what there is to list. |
| `Listing.ListWithDelimiter` | internal/metadata/sqlite/store.go:630-658 | Objects are the keys not rolled up, common prefixes the strictly sorted set of roll-ups, whatever order the set is ranged over. |
| `Listing.OnePrefixPerKey` | internal/metadata/sqlite/store.go:634-642 | No key falls under two common prefixes. |
| `Listing.RollsUpMeans` | internal/metadata/sqlite/store.go:634-642 | A key is rolled up exactly when the delimiter occurs in what follows the prefix, and its common prefix ends with the first occurrence. |
| `Listing.IndexMeans` | internal/metadata/sqlite/store.go:636-637 | The place found is the first occurrence, and none is found exactly when there is none. |
| `Listing.RollUpPartition` | internal/metadata/sqlite/store.go:630-658 | Every live matching key is listed, or falls under exactly one common prefix, never both. |
| `Listing.ListObjects` | internal/metadata/sqlite/store.go:554-590 | The whole listing call, with or without a delimiter. |
| `Orders.DifferenceDecides` | internal/metadata/sqlite/store.go:559-562 | Keys are ordered by the first byte in which they differ. |
| `Orders.PrefixDecides` | internal/metadata/sqlite/store.go:559-562 | A proper prefix comes first. |
| `PeerHealth.Hysteresis` | internal/cluster/peer_health.go:74-108 | After any probe history a peer is unreachable exactly when some run of failThreshold failures is not followed by a run of recoverThreshold successes. |
| `PeerHealth.ReportIff` | internal/cluster/peer_health.go:74-108 | A success reports a recovery exactly when it completes a run of successes while the peer is marked down, a failure a loss exactly when it completes a run of failures while it is not. |
| `PeerHealth.ReportsAlternate` | internal/cluster/peer_health.go:74-108 | After any history recordFailure has returned true once more than recordSuccess if the peer is marked down by the run condition, and as often otherwise. |
| `PeerHealth.PeerHealthTracker.RecordSuccess` | internal/cluster/peer_health.go:74-90 | One success changes this peer's counters only, and returns true exactly on a flip to reachable. |
| `PeerHealth.PeerHealthTracker.RecordFailure` | internal/cluster/peer_health.go:92-108 | One failure changes this peer's counters only, and returns true exactly on a flip to unreachable. |
| `PeerHealth.PeerHealthTracker.IsReachable` | internal/cluster/peer_health.go:47-58 | The node itself and unknown nodes count as reachable. |
| `PeerHealth.PeerHealthMonitor.ProbeOnce` | internal/cluster/peer_health.go:189-226 | A round adds one result to every peer's history and names exactly the peers whose result completes a recovery, each once. |
| `PeerHealth.PeerHealthMonitor.Reachable` | internal/cluster/peer_health.go:47-58 | Reachability after any number of rounds is the run condition on the peer's own history. |
| `Multipart.Session.CompleteMultipartUpload` | internal/object/multipart.go:75-155 | Succeeds exactly for an acceptable request without faults; then the blob is the requested parts in ascending number, the recorded size the sum of the row sizes and, while rows describe files, the blob's length; every failure exit is spelled out. |
| `Multipart.Session.UploadPart` | internal/object/multipart.go:27-72 | File first, then row; a lost row leaves the new file under the old row. |
| `Multipart.Session.AbortMultipartUpload` | internal/object/multipart.go:158-170 | Object and record are never touched. |
| `Multipart.Judge` | internal/object/multipart.go:93-122 | Refuses duplicates as an order error and otherwise the lowest faulty part, or yields the parts in ascending number with their ETags and total size. |
| `Multipart.CheckParts` | internal/object/multipart.go:106-122 | Accepts exactly when every part exists with its ETag and all but the last have at least 5 MiB. |
| `Multipart.RequestOrderIrrelevant` | internal/object/multipart.go:97-104 | A request and any rearrangement of it get the same verdict and the same assembly. |
| `Multipart.InOrderMeans` | internal/object/multipart.go:97-104 | The parts in order are the requested ones with rising numbers. |
| `Multipart.ConcatMeans` | internal/storage/filesystem/parts.go:74-94 | The bytes of earlier parts come first. |
| `Multipart.ETagsMeans` | internal/object/multipart.go:117-121 | The part ETags are collected in the order of the parts. |
| `Multipart.AssembleParts` | internal/storage/filesystem/parts.go:49-107 | The concatenation of the part files in order, or nothing when one is missing. |
| `Multipart.SizesAreLengths` | internal/object/multipart.go:119-122 | While part rows describe part files, the summed sizes are the assembled length. |
| `Multipart.PartsAgreeIff` | internal/object/multipart.go:52-71 | Over any upload history rows describe files exactly when no part's last upload lost its row while writing different bytes. |
| `Multipart.LostRowMisreportsSize` | internal/object/multipart.go:59-71 | After such a loss a request for the first upload is accepted and assembles the second, and the recorded size is right only if both were equally long. |
| `Multipart.HexIsUnquoted` | internal/object/multipart.go:194-210 | A hexadecimal digest is compared as it is. |
| `Multipart.UnquoteETagUndoesQuotes` | internal/object/multipart.go:194-210 | Blanks around an ETag and one pair of quotes make no difference. |
| `UploadStream.LimitEnforcedIff` | internal/object/limitreader.go:22-44 | A body of at most limit bytes is copied unchanged and any other is an error, exactly when the reader's reply to the probe at the limit tells a longer body from an ended one. |
| `UploadStream.PlainReaderLimited` | internal/object/limitreader.go:22-44 | Readers that report EOF apart from data and never return an empty read are such readers, however they cut up the body. |
| `UploadStream.PlainTooLong` | internal/object/limitreader.go:27-37 | A longer body is refused as too large. |
| `UploadStream.LastByteWithEOF` | internal/object/limitreader.go:27-37 | One byte too many that comes together with EOF is dropped and the rest stored. |
| `UploadStream.EmptyReadAtLimit` | internal/object/limitreader.go:27-37 | An empty read at the limit refuses a body that just fits. |
| `UploadStream.CopyAllIsBody` | internal/storage/filesystem/storage.go:169-194 | Without a limit the copy is the body and ends as the body ends. |
| `UploadStream.LimitReader.Read` | internal/object/limitreader.go:22-44 | Never hands out more than the limit, and probes once it is reached. |
| `UploadStream.MD5Reader.Read` | internal/hash/md5reader.go:24-37 | The digest covers exactly the bytes handed on. |
| `UploadStream.BlobFile.CopyWithContext` | internal/storage/filesystem/storage.go:169-194 | Copies all that the reader gives, up to its first error, and hashes exactly that. |
| `UploadStream.BlobFile.Put` | internal/storage/filesystem/storage.go:52-79 | A stored blob is the whole copy under its length and MD5; anything else leaves the previous blob. |
| `UploadStream.Upload` | internal/storage/filesystem/storage.go:149-167 | The whole upload path, with and without a limit. |
| `UriEncoding.UriEncodeStrict` | internal/auth/encode.go:9-24 | The rune loop is byte-wise percent-encoding (sections 2.1 and 2.3 of RFC 3986) of the string with ill-formed bytes replaced. |
| `UriEncoding.EncodeDecodeRune` | internal/auth/encode.go:11-20 | Re-encoding a decoded rune gives back its bytes (section 3 of RFC 3629). |
| `UriEncoding.DecodeEncodeRune` | internal/auth/encode.go:11-20 | Every Unicode scalar value is decoded from its own encoding. |
| `UriEncoding.EscapedByteForm` | internal/auth/encode.go:26-36 | The characters A-Z a-z 0-9 - _ . ~ stand for themselves, every other byte is a percent sign and its value in two upper-case hexadecimal digits. |
| `UriEncoding.EncodedEscapesAreUpper` | internal/auth/encode.go:33-36 | In the output every percent sign is followed by two upper-case hexadecimal digits. |
| `UriEncoding.SlashEncoded` | internal/auth/encode.go:33-36 | A slash becomes %2F. |
| `UriEncoding.DecodeEncodeIff` | internal/auth/encode.go:9-36 | Decoding undoes the encoding, in paths and queries, exactly for UTF-8 strings. |
| `CanonicalUri.CanonicalURI` | internal/auth/canonical.go:75-88 | The path is unescaped once more, then split and encoded segment by segment. |
| `CanonicalUri.SignPath` | internal/auth/presign.go:47-52 | The signer encodes the bucket as one segment and the key by segments. |
| `CanonicalUri.SegmentsArePath` | internal/auth/canonical.go:83-87 | Encoding segment by segment is encoding the path and keeping its slashes. |
| `CanonicalUri.PathRoundTripIff` | internal/auth/canonical.go:75-88 | For every bucket and key the verifier rebuilds the signed path exactly when the bucket has no slash and the path has no percent sign or is not a well-formed escaped path. |
| `CanonicalQuery.CanonicalQueryString` | internal/auth/canonical.go:91-134 | Pairs other than the signature, encoded and sorted, for any order of the map. |
| `CanonicalQuery.SignQuery` | internal/auth/presign.go:61-70 | Parameters by ascending key, encoded, for any order of the map. |
| `CanonicalQuery.QueryOrderIrrelevant` | internal/auth/canonical.go:91-134 | Whatever order either side ranges over its map in, both build the same query. |
| `CanonicalQuery.ParseQueryRoundTrip` | internal/auth/presign.go:66-70 | Parsing an encoded query gives its pairs back in order. |
| `SigV4.GeneratePresignedURL` | internal/auth/presign.go:24-94 | The signed URL of path, sorted query and signature. |
| `SigV4.BuildCanonicalRequest` | internal/auth/canonical.go:56-72 | The canonical request the verifier rebuilds. |
| `SigV4.RequestRoundTripIff` | internal/auth/canonical.go:56-134 | From the parsed presigned URL the verifier recovers access key, date, region and signature, and rebuilds the signed canonical request exactly when the path is safe. |
| `SigV4.StringRoundTrip` | internal/auth/canonical.go:186-208 | When the path is safe the string to sign is the same too. |
| `SigV4.PresignedIsAccepted` | internal/auth/canonical.go:211-231 | Hence the signature check accepts a URL with a safe path for the access key it was made for, when the store has its secret. |
| `SigV4.PresignedCanBeSent` | internal/auth/presign.go:24-94 | Every option set without slashes in access key and region has a URL and a request that meet the conditions of these round trips. |
| `SigV4.SentQueryIdentifies` | internal/auth/parser.go:73-105 | The parsed query names the access key, date, region, service and signed headers that were signed. |
| `SigV4.EscapedKeyMismatch` | internal/auth/canonical.go:75-88 | For every key that holds a percent sign and reads as an escaped string, the canonical request rebuilt from its presigned URL differs from the signed one. |
| `SigV4.PercentKeyMismatch` | internal/auth/canonical.go:75-79 | For instance key %41 of bucket pics. |
| `SigV4.AcceptedIff` | internal/auth/canonical.go:211-231 | A presigned URL is accepted exactly when the string the verifier signs and the string that was signed have one HMAC. |
| `SigV4.UnsafeNeedsCollision` | internal/auth/canonical.go:211-231 | With an unsafe path that takes a collision: two canonical requests that differ with one SHA-256, or two strings to sign that differ with one HMAC. |
| `SigV4.SignaturesMatchIff` | internal/auth/canonical.go:220-231 | Two hexadecimal signatures match exactly when they stand for the same bytes. |
| `SigV4.AcceptedSaysWhatWasSigned` | internal/auth/canonical.go:186-231 | A signature made for one URL is accepted only on a request with the same date, region, service and time and a canonical request of the same hash, under the same secret, unless two named HMACs collide. |
| `SigV4.SigningKeyBinds` | internal/auth/signing.go:17-22 | Signing keys are equal only for one secret, date, region and service, or on a collision in the chain. |
| `SigV4.StringBinds` | internal/auth/canonical.go:186-196 | Under one scope strings to sign are equal only for one timestamp and one request hash. |
| `SigV4.RequestLines` | internal/auth/canonical.go:56-72 | The lines of the canonical request: method, path, query, header, an empty line, signed headers, payload. |
| `SigV4.ScopeParts` | internal/auth/canonical.go:186-189 | The parts of the scope: date, region, service and the fixed end. |
| `SigV4.PresignDefaults` | internal/auth/presign.go:25-34 | Region us-east-1, 3600 seconds and GET stand where nothing is asked for. |
| `SigV4.ParseIntDecimal` | internal/auth/verifier.go:110-119 | The expiry comes back from its decimal form. |
| `SigV4.CollapseMeans` | internal/auth/encode.go:39-57 | A collapsed header value has no two spaces in a row. |
| `SigV4.CollapseKeeps` | internal/auth/encode.go:39-57 | A value without two spaces in a row is unchanged. |
| `SigV4.NoPercentIsSafe` | internal/auth/canonical.go:75-79 | Buckets without slash and percent sign and keys without percent sign are safe. |

## Left out

- HTTP handlers, routing, XML and JSON, proxying, metrics, logging, configuration loading and start-up: plumbing without hard state.
- SQLite, the operating system's file layer and the hash functions themselves: maps and function parameters stand for them.
- Fairness: that a deliverable hint is in fact delivered; `ProtocolProgress.HintCanLeaveIff` says when it can be.
- Repair of replicas without a row, by reads or healing: internal/replication/coordinator.go:362 skips them, and a tombstone winner returns before repair (internal/replication/coordinator.go:217).
- Body bytes of a GET that races an overwrite: nothing ties internal/replication/coordinator.go:213 to internal/replication/coordinator.go:226, so reads are modelled at the metadata level.
- Custom metadata and content types across replicas: the header prefix is added again on each replica put (internal/replication/replicator.go:133).
- The order and batch size in which due hints are listed; delivery is proved for any order and any selection.
- Integer overflow: counters, sizes, versions and start + MaxKeys are unbounded here.
- Pagination of common prefixes: the code returns all of them with every page, and so does the model.
- The header form of SigV4, request freshness and the payload hash check: easy or clock-bound.
- Trimming and case folding of non-ASCII characters in header names, methods and signatures.
- Bucket creation and deletion, copies, orphan and integrity jobs, credentials and the showcase site.
- Coordinators.Coordinator.PutObject: bytes are named by their ETag, since blobs are the subject of `ObjectService`.
- Coordinators.Coordinator.ProcessDue: attempt counts and next times are in `Hints.HintQueue.ProcessDue`, over the table of all keys.
- Multipart.Session.CompleteMultipartUpload: a part file is named by its number and the combined ETag is a function parameter; key validation and bucket lookup are not repeated here.
- UploadStream.BlobFile.Put: the temporary file is a local value, so a crash that leaves it behind is not modelled.
- PeerHealth.PeerHealthMonitor.ProbeOnce: probe results are a parameter; the tracker's lock makes each record call one step.
- Placement.Locate: the score of a node is a function parameter and may collide; ties are ordered by ID as in the code.
