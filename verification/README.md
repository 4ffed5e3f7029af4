# Verified models of checkpoint retention, dataset publication and two scanners

This project models, in Dafny 4.11, the parts of the repository whose correctness spans several
functions or a whole run, and proves what they promise. `dafny verify dfyconfig.toml` checks all
of it.

**Checkpoint retention** (`scripts/checkpoints`)

- `Records` – canonical (key-sorted, duplicate-free) inventories.
- `RetentionLog`, `RetentionStore`, `RetentionGateway`, `RetentionTrace`, `RetentionValidator`,
  `RetentionControls`, `RetentionDeletes`, `RetentionOperations` – the crash-tolerant delete
  protocol. `OperationManager` is a class whose methods write control objects one by one through a
  `Gateway` in which every call may answer, fail, take effect with its answer lost, or be the point
  where the process dies. The gateway itself records every HEAD, delete and listing with its
  answer, and counts the calls that failed. The attempt log has a specification of its own
  (`AcceptedLog`); the writer is proved to keep it on every exit of every method, and the separately
  written validator is proved to accept exactly it. Safety is stated over the gateway's record, and
  progress for runs in which no call failed.
- `CheckpointLease`, `CheckpointLocks` – the writer lease with its terminal record, and all
  interleavings of lease calls and applies that share the per-checkpoint locks.
- `RetentionPolicy` – the refusal codes of an evaluation, exactly when each is among them, and
  exactly when there are none.
- `Sharding`, `PlanDocument` – size-bounded manifest shards and the plan as a JSON document.

**Dataset publication** (`datasets/s3.py`, `datasets/publication.py`)

- `DatasetLease` – the lease judged by server dates: a transition system of any number of clients
  whose conditional writes may be lost, delayed or repeated, and the imperative client methods.
- `PublicationHistory`, `PublicationRollback`, `Publication` – runs of writes to one bucket, what a
  rollback must look for in the store, and the clients: publish, roll back, resolve, walk the
  history, list unreferenced generations. Between any two requests
  of a client everything else that is legal may happen (`Interfere`); each method is proved to
  send only requests that are justified, so every run of such clients is a legal run, and the
  theorems about legal runs hold of it.

**Scanners**

- `ZipPreflight`, `ZipArchive` – the end-of-central-directory search, the ZIP64 records and the walk
  over the central directory (sections 4.3.12 and 4.3.14 to 4.3.16 of PKWARE's APPNOTE.TXT), and
  what they make of archives written in that layout.
- `JsonDepth` – the one-pass bracket scan and the walk over the parsed tree (RFC 8259).

## Assumptions

- SHA-256 is injective. In the retention modules a digest carries what it digests; in
  `PublicationHistory` it is any function without collisions, so that links between manifests are
  not acyclic by construction. An ETag is a function of the body, and different bodies differ in it.
  Audit identifiers, name-based UUIDs of an attempt's number and digest, do not collide either.
- Calls on one retention operation are serialised: `prepare` and the path before the end of the
  quiescence period write outside the lock. The monotonic clock does not throw
  (`ClockFailureIsRejected` shows why). Wall-clock readings are arbitrary, and so are the plans that
  are prepared.
- The server's dates do not go backwards. Owner nonces and lease epochs are fresh.
  Safety of publication does not need fresh publication ids; that a publish succeeds does.
- Apply locks the checkpoint that its prefix belongs to: the prepared record fixes both
  (scripts/checkpoints/operations.py:869-871). One process holds the locks, and a delete request
  takes effect while its call lasts.
- Keys are compared by code point, which is also the order of their UTF-8 encodings.

## What the proofs found

- A delete whose log entry is lost blocks its operation: revalidation compares the live inventory
  with the planned records not *logged* as deleted, so while such a record stays out of every fresh
  plan no sequence of calls deletes anything or completes (`Serve`, `LostDeleteBlocks`).
- A plan without records or with a key in two shards is prepared like any other and gets its first
  attempt; every apply then refuses it and writes nothing (`Prepare`, `Apply`, `Serve`), and with a
  repeated record no attempt can be accepted (`RepeatedRecordIsRejected`).
- A clock that steps back below `acquired_at` makes a heartbeat write a lease that no call can
  decode again (`DecodesUnlessClockWentBack`, `ClockBackWedgesLease`).
- Terminal evidence with a flag that is no boolean is refused only after the lease has ended;
  then neither the same nor a corrected request gets its terminal record (`StrandedByEvidence`).
- The terminal record that the lease manager writes has no retirement review, so by itself it never
  makes a durable stream eligible (`OwnRecordNeverFreesDurableStream`).
- A rollback may target a manifest that was never committed. A publisher that lost the race then
  reads its own pointer back and reports success, although its link does not name the manifest
  that was active before (`RollbackCompletesStalePublish`, `StalePublishHappens`). Whether a stored
  manifest was ever active is not recorded in the store. What whoever rolls back can look for is
  that the target is active, that some stored manifest links to it (so does every ancestor of the
  active one, `AncestorsAreChecked`), or that it links to the active manifest; a rollback keeps the
  links in every run that leads to the store it sees exactly then (`CheckedIsExact`,
  `CheckedRollbacksKeepLinks`).

## Model

| member | source | states |
|---|---|---|
| `Records.CanonicalCharacterised` | scripts/checkpoints/records.py:257-264 | an inventory has a canonical form exactly when no key repeats, and it is then the strictly ascending permutation of it |
| `Records.KeyLessIsCodePointOrder` | scripts/checkpoints/records.py:257-264 | keys are ordered by code point at the first difference, and a proper prefix comes first |
| `Records.AscendingUnique` | scripts/checkpoints/records.py:257-264 | two strictly ascending inventories are equal exactly when they have the same members |
| `RetentionLog.SplitConserves` | scripts/checkpoints/operations.py:946-1006 | splitting records by a deleted set conserves objects and bytes |
| `RetentionLog.KeepOutAscending` | scripts/checkpoints/operations.py:317 | filtering out deleted records keeps canonical order |
| `RetentionLog.LogMonotone` | scripts/checkpoints/operations.py:740-767 | along an acceptable log rank, time and deleted set never decrease; `prepared` is only first and `completed` only last |
| `RetentionLog.StatesInOrder` | scripts/checkpoints/operations.py:740-767 | prepared first and only first, then not ready, then refused or partial in any order, then completed |
| `RetentionLog.FollowsExactly` | scripts/checkpoints/operations.py:740-767 | what is asked of neighbouring attempts, state by state |
| `RetentionLog.NewlyDeletedDisjoint` | scripts/checkpoints/operations.py:740-767 | no object is newly deleted by two attempts |
| `RetentionLog.StatusConserves` | scripts/checkpoints/operations.py:1058-1122 | in every accepted attempt deleted plus remaining objects and bytes are the planned totals |
| `RetentionLog.CompletedMeansEverything` | scripts/checkpoints/operations.py:740-767 | `completed` is last, classifies every planned record as deleted and carries the digest of an empty inventory |
| `RetentionLog.NewStatusOk` | scripts/checkpoints/operations.py:928-1014 | every status the writer builds is one the validator accepts |
| `RetentionLog.AcceptedIsWritable` | scripts/checkpoints/operations.py:597-739 | conversely, every attempt the validator accepts by itself is one the writer could have built from the sets its classification names |
| `RetentionLog.LogAppend` | scripts/checkpoints/operations.py:928-1014 | appending an attempt that follows the last one keeps the log acceptable |
| `RetentionLog.RepeatedRecordIsRejected` | scripts/checkpoints/operations.py:1058-1122 | a plan that repeats a record can never have an accepted attempt |
| `RetentionLog.ClockFailureIsRejected` | scripts/checkpoints/operations.py:1230-1249 | a logged clock failure makes the log unacceptable |
| `RetentionStore.ManifestRoundTrip` | scripts/checkpoints/operations.py:773-834 | reading shards back by digest gives the planned inventory in order |
| `RetentionStore.AddAttempt` | scripts/checkpoints/operations.py:928-1014 | writing the next attempt object keeps the store invariant |
| `RetentionStore.StoreAcceptsLog` | scripts/checkpoints/operations.py:597-771 | a store that satisfies the invariant is acceptable to the validator |
| `RetentionStore.LogUnique` | scripts/checkpoints/operations.py:597-771 | a store holds at most one log |
| `RetentionGateway.ClassifyDeleteExact` | scripts/checkpoints/s3_gateway.py:315-357 | a response is invalid exactly when it names a key twice or outside the batch; a valid one counts as all deleted exactly when every key and no error is reported, and otherwise exactly the keys it names as deleted count |
| `RetentionGateway.Gateway.CreateControl` | scripts/checkpoints/s3_gateway.py:509-535 | a conditional create adds the object or changes nothing, whatever it answers |
| `RetentionValidator.ReadClassification` | scripts/checkpoints/operations.py:1058-1122 | unless a read fails, succeeds exactly on stored shards that classify each planned record once and agree with the totals |
| `RetentionValidator.CheckOrder` | scripts/checkpoints/operations.py:740-767 | the running checks accept exactly a log numbered 1..n, starting `prepared`, never decreasing |
| `RetentionValidator.ReadLog` | scripts/checkpoints/operations.py:597-771 | unless a gateway call fails, accepts exactly the acceptable stores of at most 1,024 attempts, and returns their log |
| `RetentionValidator.OrderDecides` | scripts/checkpoints/operations.py:740-767 | of attempts that are each acceptable, the order checks accept exactly the acceptable log |
| `RetentionControls.CreateIdentical` | scripts/checkpoints/operations.py:1170-1212 | success means the object is there with these bytes, refusal that other bytes were; nothing stored is ever replaced; any other end is a failed gateway call |
| `RetentionControls.Chunk` | scripts/checkpoints/operations.py:1024-1039 | refused exactly when an entry fits in no shard; else the chunks are the entries in order, none empty, each within the bound |
| `RetentionControls.ShardBytesIsLength` | scripts/checkpoints/operations.py:1024-1039 | the running size is the length of the JSON array of the entries |
| `RetentionControls.WriteResultShards` | scripts/checkpoints/operations.py:1016-1056 | the stored shards concatenate to the classification, each within the byte bound, all different when no object repeats; refused only when an entry fits in no shard, and then nothing is written |
| `RetentionOperations.OperationManager.RecordStatus` | scripts/checkpoints/operations.py:928-1014 | appends exactly the one attempt asked for, field by field: identity, number, state, category, time, both request counters, totals, and for every planned record in order deleted, else failed, else unattempted; or nothing; only a failed call or a full log or shard bound prevents it |
| `RetentionOperations.OperationManager.EnsureAudit` | scripts/checkpoints/operations.py:506-567 | success leaves the audit of a logged attempt, with that status, its prepared record, its digest and the planned bytes; it is never in conflict |
| `RetentionOperations.OperationManager.ReadOwnLog` | scripts/checkpoints/operations.py:597-771 | the validator never refuses a log written here, and unless a gateway call fails returns exactly it |
| `RetentionOperations.OperationManager.LatestStatus` | scripts/checkpoints/operations.py:597-771 | returns the last attempt, with every audit present when repair was asked for |
| `RetentionOperations.OperationManager.ReadBoundManifest` | scripts/checkpoints/operations.py:773-834 | returns exactly the records the prepared record names, in order, with its inventory digest; refused exactly when they are not stored, not usable or of another digest, unless a read fails |
| `RetentionOperations.OperationManager.LatestOrReconstruct` | scripts/checkpoints/operations.py:241-274 | at most the missing first attempt is added, at the prepared time |
| `RetentionOperations.OperationManager.ProveCompletedAbsence` | scripts/checkpoints/operations.py:585-595 | success means a listing just now was empty and the status carries the empty digest |
| `RetentionDeletes.HeadBatch` | scripts/checkpoints/operations.py:412-417 | a clean pass sent exactly one HEAD per record, in order, and all matched; otherwise all but the last did, and the last answer decides the category and whether the one record or the whole batch is blamed |
| `RetentionDeletes.DeleteBatch` | scripts/checkpoints/operations.py:411-421 | one delete request of exactly the batch, right after the matching HEADs of all of it; what is reported as deleted is what the answer confirmed, and the answer decides the category and what is blamed |
| `RetentionDeletes.Postflight` | scripts/checkpoints/operations.py:422-426 | clean exactly when the one listing it sends is answered empty in time; a non-empty one is reported as such, unless the deadline passed |
| `RetentionDeletes.DeleteBatches` | scripts/checkpoints/operations.py:403-443 | over the requests recorded by the gateway: every delete names between one record and the bound, all planned, unlogged and HEAD-matched as a batch right before; deleted is what the answers confirmed; a clean end means all are deleted by as few requests as the bound allows and the last answer was an empty listing; the last answer decides category and blame; the counters count the requests |
| `RetentionTrace.SafeConcat` | scripts/checkpoints/operations.py:403-443 | safe requests stay safe after whatever was sent before them |
| `RetentionTrace.ConfirmedWasSent` | scripts/checkpoints/s3_gateway.py:315-357 | nothing is reported as deleted that no delete request named |
| `RetentionOperations.OperationManager.Revalidate` | scripts/checkpoints/operations.py:318-402 | passes exactly when a fresh eligible plan names the remaining records, or, with none remaining, when a listing just now was empty, unless a call fails; otherwise at most one refusal is logged, as a mismatch, a failure or a passed deadline by what happened |
| `RetentionOperations.OperationManager.PersistFailure` | scripts/checkpoints/operations.py:428-479 | an interrupted run is logged as partial exactly when something is deleted, else as refused, with its category, counters and failed records; the failure itself is never hidden |
| `RetentionOperations.OperationManager.RecordCompleted` | scripts/checkpoints/operations.py:480-504 | logs `completed` for every planned record with the true counters, and audits it, unless a call fails or the log is full |
| `RetentionOperations.OperationManager.DeleteAndRecord` | scripts/checkpoints/operations.py:403-504 | the one attempt logged counts exactly the requests of this call, its deleted set is the earlier one and what their answers confirmed, and the category of a partial one is decided by the last answer; `completed` only after an empty listing; nothing left means no delete |
| `RetentionOperations.OperationManager.ApplyLocked` | scripts/checkpoints/operations.py:276-504 | after `completed` nothing is logged or deleted and success proves the absence again; deletes and `completed` only when cleared by revalidation; without a fault or a bad answer a cleared operation completes |
| `RetentionOperations.OperationManager.ApplyNotReady` | scripts/checkpoints/operations.py:201-232 | sends no delete; the deleted set and completion do not change |
| `RetentionOperations.OperationManager.Apply` | scripts/checkpoints/operations.py:176-274 | on every exit, crashes included: log acceptable and only longer; every delete sent is allowed, within the bound, past the quiescence period, confirmed by the caller and cleared by a fresh plan that is eligible, under the same policy, for the same prefix and of exactly what the log leaves; new deletions were confirmed by answers; an attempt logged after requests counts exactly them; `completed` only after an empty listing; success leaves every attempt audited unless the clock went back; without a fault or a bad answer it completes; of an unusable plan it writes nothing |
| `RetentionOperations.OperationManager.Prepare` | scripts/checkpoints/operations.py:107-174 | of any plan: the prepared record says exactly what the request says, field by field, and when; repeated after a crash at any write it leaves one prepared record and one first attempt, never deletes, and without a fault succeeds on a usable plan; an unusable plan (no record, or a repeated key) also gets its one first attempt, and the operation is stuck |
| `RetentionOperations.OperationManager.Serve` | scripts/checkpoints/operations.py:107-274 | any sequence of calls failing anywhere leaves a log the validator accepts and only allowed deletes, none of what was logged as deleted before, and only confirmed deletions logged; after `completed` nothing is deleted or logged; of an unusable plan nothing is deleted and at most the first attempt is ever stored; while an unlogged planned record stays out of every fresh plan nothing is deleted and the operation never completes |
| `RetentionOperations.OperationManager.LoggedDeleteWasSent` | scripts/checkpoints/operations.py:403-443 | everything logged as deleted was named by an allowed delete request whose answer confirmed it |
| `RetentionOperations.RevalidationIsSetEquality` | scripts/checkpoints/operations.py:347-358 | for canonical inventories a fresh plan clears the rest exactly when it is eligible under the same policy for the same prefix and its records are, as a set, the planned ones not logged as deleted |
| `RetentionOperations.LostDeleteBlocks` | scripts/checkpoints/operations.py:310-317 | a fresh plan without an unlogged planned record never clears what is left |
| `CheckpointLease.EpochEnds` | scripts/checkpoints/leases.py:288-320 | a terminal or superseded epoch never writes the lease again |
| `CheckpointLease.SuccessionNeedsTerminal` | scripts/checkpoints/leases.py:116-179 | between the documents of two epochs lies a terminal document of the earlier one; expiry admits nobody |
| `CheckpointLease.EveryLeaseDecodes` | scripts/checkpoints/leases.py:344-367 | with a clock that never goes back every written lease decodes |
| `CheckpointLease.DecodesUnlessClockWentBack` | scripts/checkpoints/leases.py:344-367 | a written lease decodes exactly when its last reading is not before its acquisition; one that does not is never replaced |
| `CheckpointLease.ClockBackWedgesLease` | scripts/checkpoints/leases.py:288-320 | a legal two-document history whose last lease does not decode and that nothing can follow |
| `CheckpointLease.LeaseManager.Acquire` | scripts/checkpoints/leases.py:116-179 | writes only over a missing or replaceable lease, never over an active one, expired or not; unless a call fails it succeeds exactly for a matching request over such a lease; each refusal code means what it says |
| `CheckpointLease.LeaseManager.Transition` | scripts/checkpoints/leases.py:288-320 | only the epoch holding the active lease for this prefix replaces it, by exactly the refreshed document; unless a call fails it succeeds exactly then |
| `CheckpointLease.LeaseManager.Heartbeat` | scripts/checkpoints/leases.py:181-182 | refreshes the caller's own active lease and nothing else; unless a call fails it succeeds exactly when the caller holds it |
| `CheckpointLease.LeaseManager.Terminal` | scripts/checkpoints/leases.py:184-275 | success leaves the ended, decodable lease and exactly the terminal record of the instant it ended, each of its five flags set exactly when the evidence says so; unless a call fails an admissible request over the lease it holds or has ended succeeds exactly when every flag is a boolean and the clock has not gone back |
| `CheckpointLease.LeaseManager.RetryTerminal` | scripts/checkpoints/leases.py:204-275 | a retry after a crash leaves the record the first call would have written if that call ended the lease; without a fault the retry succeeds exactly when the first call could have |
| `CheckpointLease.LeaseManager.StrandedByEvidence` | scripts/checkpoints/leases.py:243-253 | repeating a request that ended the lease succeeds exactly when every flag is a boolean, unless a call fails; otherwise neither it nor a corrected request writes a terminal record |
| `CheckpointLease.EligibleAfterTerminal` | scripts/checkpoints/planner.py:231-281 | after a recorded terminal step a checkpoint is eligible exactly when all approvals were given, nothing changed afterwards and the retention period has passed |
| `CheckpointLease.OwnRecordNeverFreesDurableStream` | scripts/checkpoints/leases.py:227-242 | with a terminal record written here a durable stream is always refused |
| `CheckpointLocks.StepKeepsConsistent` | scripts/checkpoints/leases.py:81-95 | every step of every thread keeps lock ownership and the decided lease in place |
| `CheckpointLocks.NoDeleteWhileActive` | scripts/checkpoints/operations.py:236-239 | in every interleaving, whenever a delete was sent the lease was terminal for exactly that prefix |
| `CheckpointLocks.NothingChangesWhileCleared` | scripts/checkpoints/service.py:522-541 | from decision to last delete the stored lease is the one decided on and no other call on that checkpoint runs |
| `RetentionPolicy.EligibilityIsAThreshold` | scripts/checkpoints/policy.py:414-454 | no refusal code exactly for settled facts from the newest counting instant plus the retention period on; the future-clock tolerance never decides |
| `RetentionPolicy.CodesHaveReasons` | scripts/checkpoints/policy.py:414-488 | each of the 34 refusal codes is collected exactly for its own reason, stated in the facts |
| `RetentionPolicy.AnchorIsNewest` | scripts/checkpoints/policy.py:802-818 | the retention period starts at the newest of the instants that count, if all of them are known |
| `RetentionPolicy.EligibilityNeverReverts` | scripts/checkpoints/policy.py:414-454 | once eligible, eligible at every later time and with every tolerance |
| `RetentionPolicy.EligibleMeansTerminal` | scripts/checkpoints/policy.py:647-710 | an eligible checkpoint has a terminal lease for exactly this prefix and checkpoint |
| `Sharding.ArrayLength` | scripts/checkpoints/records.py:285-300 | the running size is the length of the JSON array |
| `Sharding.ShardInventory` | scripts/checkpoints/records.py:279-309 | refused exactly for a bound below two bytes, repeated keys or a record too large; else the shards concatenate to the sorted inventory, fit, and each is full |
| `Sharding.GreedyStaysAhead` | scripts/checkpoints/records.py:285-300 | after any number of shards the greedy split covers at least as much as any other |
| `Sharding.GreedyIsOptimal` | scripts/checkpoints/records.py:285-300 | no in-order split within the bound has fewer shards |
| `PlanDocument.CheckBounds` | scripts/checkpoints/records.py:333-355 | the recursive check with its running counter passes exactly the trees within both bounds |
| `PlanDocument.DecodeShard` | scripts/checkpoints/records.py:214-241 | accepts exactly the trees of canonical, valid, fitting shards and returns their records |
| `PlanDocument.UnsafeKeysRefused` | scripts/checkpoints/records.py:358-371 | no accepted key is absolute, climbs, or has an empty or dotted part |
| `PlanDocument.DecodePlan` | scripts/checkpoints/records.py:179-254 | accepts exactly the documents of acceptable plans, within all four bounds, and gives back that plan |
| `PlanDocument.RecordTextBound` | scripts/checkpoints/records.py:47-55 | the JSON of a valid record has at most 3,199 characters, escapes included |
| `PlanDocument.PlanNodes` | scripts/checkpoints/planner.py:120-146 | a plan has exactly 21 + codes + 2·shards + 5·records nodes, at most four levels deep |
| `PlanDocument.PlanWithinNodeBound` | scripts/checkpoints/planner.py:79-79 | with 100,000 objects and 1 MiB shards no plan exceeds 600,128 nodes |
| `PlanDocument.PlannedIsAccepted` | scripts/checkpoints/planner.py:89-155 | every plan the planner writes is one the decoder accepts |
| `PlanDocument.PlanRoundTrip` | scripts/checkpoints/planner.py:89-155 | a plan comes back as written, unless its text is too long to be written, and its shards are the key-sorted inventory |
| `PlanDocument.PlanReachesApply` | scripts/checkpoints/planner.py:89-155 | for records as they are printed: the plan decodes exactly when its text fits, is usable for prepare, and the manifest apply reads back is the planned inventory in order with the same inventory digest |
| `DatasetLease.OwnerContiguous` | datasets/s3.py:683-728 | the bodies of one owner are consecutive |
| `DatasetLease.ExpiryGrows` | datasets/s3.py:739-786 | within one owner the expiry strictly grows until the release, its last body |
| `DatasetLease.PeriodsDisjoint` | datasets/s3.py:683-728 | whoever writes after an owner was created at or after that owner's last expiry |
| `DatasetLease.BodiesNeverRecur` | datasets/s3.py:683-825 | no lease body is ever stored twice |
| `DatasetLease.NoHiddenWrite` | datasets/s3.py:412-439 | an ETag that still matches proves that nothing was written since it was read |
| `DatasetLease.NobodyElse` | datasets/s3.py:683-825 | while a lease is in force only its owner has written after it |
| `DatasetLease.MutualExclusion` | datasets/s3.py:683-825 | two leases in force have one owner |
| `DatasetLease.NextKeepsInvariant` | datasets/s3.py:683-825 | every step of every client keeps the invariant; requests may arrive late, twice or never |
| `DatasetLease.EveryRunIsLegal` | datasets/s3.py:683-825 | every run of any number of clients has a legal history that only grows |
| `DatasetLease.OneHolder` | datasets/s3.py:683-825 | no reachable state has leases of two owners in force |
| `DatasetLease.LeaseStore.Put` | datasets/s3.py:412-439 | a conditional write takes effect only if nothing was written since the read; undisturbed it is accepted exactly then; the history stays legal |
| `DatasetLease.LeaseStore.WriteLease` | datasets/s3.py:614-653 | success means the body is stored at a date inside its period; undisturbed it succeeds exactly when the period is not over |
| `DatasetLease.LeaseStore.AcquireLease` | datasets/s3.py:683-728 | success means this owner holds, in force, the lease proposed at a date not before the call; undisturbed it succeeds exactly over a missing, released or expired lease |
| `DatasetLease.LeaseStore.RenewLease` | datasets/s3.py:739-786 | success replaces exactly the held body by one that expires later and is in force; undisturbed it succeeds exactly for the stored, unexpired lease and a later expiry |
| `DatasetLease.LeaseStore.ReleaseLease` | datasets/s3.py:789-825 | success replaces exactly the held body by its release; undisturbed it succeeds exactly for the stored, unexpired lease |
| `PublicationHistory.JustificationKept` | datasets/s3.py:352-379 | what justified a request when sent justifies it however late it arrives |
| `PublicationHistory.StepKeepsSound` | datasets/publication.py:1728-1759 | every effective write keeps all stored manifests complete, links to older ones, and the commit log linked |
| `PublicationHistory.EveryRunIsSound` | datasets/publication.py:1798-2081 | every reachable world is sound |
| `PublicationHistory.PointerIsSafe` | datasets/publication.py:1740-1759 | in every reachable world the active manifest is stored under its digest and its every object exists with the locked size, hash and metadata |
| `PublicationHistory.KeysInjective` | datasets/publication.py:229-234 | an object key names its plan, publication and object: publications never share a key |
| `PublicationHistory.ChainExists` | datasets/publication.py:1094-1130 | creation order strictly falls along links, so every chain of links ends |
| `PublicationHistory.ChainDistinct` | datasets/publication.py:1094-1130 | no digest occurs twice along a chain |
| `PublicationHistory.ChainUnique` | datasets/publication.py:1094-1130 | a manifest has one chain of ancestors |
| `PublicationHistory.PublishLinksToPredecessor` | datasets/publication.py:1762-1795 | a committed publish links to exactly the manifest the pointer held immediately before |
| `PublicationHistory.AncestryIsEveryPublish` | datasets/publication.py:1762-1795 | without rollbacks the ancestry of the active manifest is every publish ever committed, newest first |
| `PublicationRollback.AncestorsAreChecked` | datasets/publication.py:1094-1130 | every member of the active manifest's ancestor chain was active, and rolling back to it is checked |
| `PublicationRollback.CheckedRollbacksKeepLinks` | datasets/publication.py:709-774 | in every run whose rollbacks are checked (the target is active, some stored manifest links to it, or it links to the active one) every first activation links to the manifest active before |
| `PublicationRollback.ActiveWasLinked` | datasets/publication.py:1740-1759 | in such a run a manifest that was ever active was linked to its predecessor when it first became active |
| `PublicationRollback.WithoutIsLegal` | datasets/publication.py:709-774 | a run in which nothing ever linked to a manifest could have gone without activating it and left the same store |
| `PublicationRollback.UncheckedRollbackCanBreakLinks` | datasets/publication.py:709-774 | where the check fails, the same store is the end of a run in which the rollback is a first activation that is not linked |
| `PublicationRollback.CheckedIsExact` | datasets/publication.py:709-774 | a rollback keeps the links in every run that leads to this store exactly when it is checked |
| `PublicationRollback.RollbackCompletesStalePublish` | datasets/publication.py:709-774 | an unchecked rollback can activate a never committed manifest: the publisher's own write never takes effect, it reads its own pointer back, and its link is not the manifest active before |
| `PublicationRollback.StalePublishHappens` | datasets/publication.py:709-774 | for every dataset some run leads to that situation |
| `Publication.Bucket.Send` | datasets/s3.py:412-439 | a justified request keeps the run legal whether it arrives, fails or loses its answer; undisturbed it is accepted exactly when its condition matches, and then is all that changes |
| `Publication.Bucket.PutImmutableObject` | datasets/s3.py:352-379 | success means the object is stored exactly, whatever the local file held; undisturbed it succeeds exactly when the key was free or already exact |
| `Publication.Bucket.StageObjects` | datasets/publication.py:1931-1995 | success means every object of the manifest is stored exactly; each is uploaded at most once, in order |
| `Publication.Bucket.PutManifestExact` | datasets/publication.py:1728-1737 | success means exactly this manifest is stored under its digest; undisturbed it succeeds when the name was free |
| `Publication.Bucket.PutPointerExact` | datasets/publication.py:1740-1759 | success means this manifest is the active one; undisturbed it succeeds exactly when the pointer was the one read or already this one |
| `Publication.Bucket.CommitManifest` | datasets/publication.py:1996-2081 | manifest before pointer; success means it is the active one and for the plan |
| `Publication.Bucket.StageAndCommit` | datasets/publication.py:1900-2081 | success means the active manifest is for the plan, links to the pointer read, is complete and is the last commit; only requests of this publication over that pointer are sent; undisturbed and over unused names it succeeds exactly for the locked, valid outputs |
| `Publication.ForPlanIsBuilt` | datasets/publication.py:489-520 | the manifests valid for a plan are exactly those that a publish of the plan builds |
| `Publication.Bucket.FreshIdIsUnused` | datasets/publication.py:1808-1810 | after any run of publishes a publication id that none of them used has unused names |
| `Publication.Bucket.OwnRequestsAreFiled` | datasets/publication.py:1701-1710 | everything a publish sends is filed under its own plan and publication id, so publishes of other ids leave an id fresh |
| `Publication.Bucket.PublishCandidate` | datasets/publication.py:1798-1897 | success returns a complete manifest for the plan, with refresh this publication and active; without refresh nothing is sent once there is a pointer; undisturbed and with a fresh publication id it succeeds exactly for the locked, valid outputs |
| `Publication.Bucket.ResolveManifest` | datasets/publication.py:636-656 | unless a read goes unanswered, a stored manifest resolves exactly when it is for the plan; sends nothing |
| `Publication.Bucket.ResolveActive` | datasets/publication.py:659-682 | returns a complete manifest for the plan; once there is a pointer nothing is ever missing; undisturbed it succeeds exactly when the active manifest is for the plan |
| `Publication.Bucket.Rollback` | datasets/publication.py:709-774 | success means the target is active, complete and for the plan; at most one request is sent, a swap of the pointer read; undisturbed it succeeds exactly when there is a pointer and the target is stored for the plan |
| `Publication.Bucket.ManifestHistory` | datasets/publication.py:1094-1130 | unless a read goes unanswered, returns the whole ancestor chain exactly when it has fewer than 1,000 members, else says too deep; never a cycle or a mismatch |
| `Publication.Bucket.ClassifyManifests` | datasets/publication.py:1206-1219 | every listed name is referenced, read back as a manifest, or ambiguous; unless a read goes unanswered ambiguous names do not decode |
| `Publication.Bucket.AttachVerifiedHistory` | datasets/publication.py:1175-1242 | unless a read goes unanswered, unreferenced are exactly the listed, decodable manifests that are neither the active one, nor an additional one, nor on the ancestor chain of any of them, and ambiguous exactly the undecodable ones; the candidates are exactly the listed generations no listed manifest uses, none if one is ambiguous; it fails only when some start has 1,000 ancestors or more |
| `Publication.Bucket.AttachInventoryWithoutActive` | datasets/publication.py:1245-1285 | the same without an active manifest: unreferenced is every listed name that decodes |
| `ZipPreflight.NoOverlap` | datasets/acquisition.py:959-970 | two end signatures never overlap |
| `ZipPreflight.WindowCoversAll` | datasets/acquisition.py:944-947 | the tail window holds every self-consistent position |
| `ZipPreflight.SelectedEocd` | datasets/acquisition.py:943-971 | accepts a position exactly when it is the only self-consistent one in the whole file and has an empty comment or no signature behind it |
| `ZipPreflight.Zip64Metadata` | datasets/acquisition.py:974-1013 | absent exactly without a locator; present exactly for one-disk records in place and within the limits |
| `ZipPreflight.TilingUnique` | datasets/acquisition.py:1016-1051 | a region has at most one tiling into signed entries |
| `ZipPreflight.ValidateCentralDirectory` | datasets/acquisition.py:1016-1051 | accepts exactly a region tiled by the declared number of entries, within the limit; it terminates |
| `ZipPreflight.Preflight` | datasets/acquisition.py:1054-1088 | accepts exactly the files with one end record whose metadata describe a tiled directory directly before the records |
| `ZipArchive.Read16` | datasets/acquisition.py:1036-1036 | two bytes are read as they are written, lowest first, anywhere in a file |
| `ZipArchive.Read32` | datasets/acquisition.py:1056-1065 | the same for four bytes |
| `ZipArchive.Read64` | datasets/acquisition.py:994-1005 | the same for eight bytes |
| `ZipArchive.DirectoryIsTiled` | datasets/acquisition.py:1016-1051 | a central directory written header by header is tiled by its entries |
| `ZipArchive.PlainIsAccepted` | datasets/acquisition.py:1054-1088 | an archive written field by field is accepted exactly when it is within the limits and no other position passes for its end record |
| `ZipArchive.Zip64IsAccepted` | datasets/acquisition.py:974-1013 | the same with ZIP64 records, whatever the plain end record holds |
| `ZipArchive.OnceIsUnrivalled` | datasets/acquisition.py:959-970 | no other position passes for the end record when its signature occurs nowhere else |
| `JsonDepth.CheckLexicalDepth` | datasets/schema_inspection.py:599-620 | accepts exactly the texts whose scan never goes deeper than 64 |
| `JsonDepth.ValueScan` | datasets/schema_inspection.py:599-620 | over the text of a value the scan goes exactly as deep as the value is nested and returns; strings are ignored |
| `JsonDepth.ScanFindsNesting` | datasets/schema_inspection.py:599-620 | the scan of a whole text finds exactly the nesting of its tree |
| `JsonDepth.CheckJsonBounds` | datasets/schema_inspection.py:623-639 | the stack walk accepts exactly trees with fitting strings nested at most 64 deep |
| `JsonDepth.ScanRefinesWalk` | datasets/schema_inspection.py:599-639 | on every text both checks agree about depth |

## Left out

- Network, TLS, DNS, process, descriptor and file-system plumbing; HTTP adapters, command line, metrics and scheduling.
- Format checks of identifiers, hexadecimal digests and UTC strings, and byte bounds on reads, except where a row names them; in the plan document a formatted instant is a leaf.
- Policy and registry parsing, `match_prefix` and the overlap check: the matching result is a parameter.
- Pagination of `inventory` and of the listings: a listing is canonical or fails, and names stored while it runs may or may not be in it. Answers about retention data objects are otherwise arbitrary.
- A control write of the retention service that lands after its call has ended.
- Threads and timing of the publication keepalive: any checkpoint may report the lease lost, and renewals are lease steps like any other. The publication methods do not rely on the lease.
- The list of retained manifest keys in a result; corrupt active pointers (they are not reachable from an empty bucket), legacy candidates, dry runs, and the diagnostic fields of failed publishes.
- The physical schema checks of staged files and of resolved objects: an object resolves by its size and hash.
- Manifest fields that are copied and never decide (registry digest, schema ids); the previous key, which is a function of the previous digest.
- Terminal evidence holding the numbers 0 or 1, which compare equal to booleans, or lists.
