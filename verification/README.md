# BasitClaw audit service: verified model of its shared-file protocols

BasitClaw keeps the records of an audit service on shared files. Several processes work on the same
directories with nothing but create, rename and remove, and any of them may stall or crash between two
of these. This project models the protocols that make this safe and proves what they promise.

| file | models |
|---|---|
| `Lease.dfy`, `FencedStore.dfy`, `CoordinatedRegistry.dfy` | the tenant lease, the snapshot store fenced by its tokens, and one process's coordinated write |
| `WriteProtocol.dfy` | the same steps, interleaved between any number of processes that stall, crash and expire |
| `PassedOver.dfy` | which states of that protocol can still lead to a save that is not built upon |
| `ScanJobs.dfy`, `ScanJobFiles.dfy`, `ScanJobEffects.dfy`, `ScanJobOutbox.dfy` | scanner delivery jobs: the record, the files, and the outbox operations |
| `ScanJobLifecycle.dfy`, `ScanJobWitnesses.dfy` | what running the janitor before every operation guarantees, and two runs that show what happens otherwise |
| `BundleStore.dfy`, `ExportApproval.dfy`, `ReplayLedger.dfy`, `ClaimBudget.dfy` | assurance bundles, dual-control export approval, replay protection, byte budgets |
| `CanonicalJson.dfy`, `HashChain.dfy`, `EntitlementRegistry.dfy` | the canonical JSON printer, hash chains trimmed behind an anchor, and the versioned user table over such a chain |
| `Custody.dfy`, `Preservation.dfy` | crash consistency of index and content files; write-once objects with repairable receipts |
| `RetentionRules.dfy`, `Disposal.dfy` | when evidence may be disposed of, told from the log alone, and what disposition leaves on disk |
| `TimeAttestations.dfy`, `AuthorityPolicy.dfy`, `GovernanceJournal.dfy`, `GovernanceRegistry.dfy` | the time-attestation quorum tower and the disposition gate on it |
| `Prelude.dfy`, `Retention.dfy`, `Runs.dfy` | sorted listings, retention limits by age or by name, and runs of guarded steps |

## How crashes and interleavings are modelled

- `WriteProtocol` is a transition system. A run is any sequence of states in which each follows from the
  one before by a step of some process, by the passing of time, or by a crash. Listing and checking, the
  rename, and each pruning deletion are separate steps.
- The other stores hold a mutex per operation, so processes do not interleave inside one; crashes do cut
  operations off. For each store a step says which single disk operations the code performs, under exactly
  the checks it makes before them, together with where inside an operation it stands; a run is a log of such
  steps from the empty store, with crashes anywhere. No invariant is part of what a step or a run is:
  invariants are proved of all runs by induction. Each class records the steps its methods take in a ghost
  log and opens over the log of an earlier run, crashed or not. The theorems hold at every index of a log,
  which is wherever a crash can strike.

## Assumptions

- There is one clock, it does not go back, and each operation reads it once.
- SHA-256 is injective (digests are datatype constructors); identifiers that are truncated digests are
  taken to be injective too. Encryption is transparent and faithful, signatures are genuine.
- `createFileMutex(...).withLock` is mutual exclusion; each atomic write, exclusive create, rename or
  remove happens entirely or not at all.
- For the lease, taking it (directory, counter, owner file), taking over a stale one, releasing, and
  renewing are single steps. Taking it may still fail before or after the counter write, with or without
  leaving the directory behind.
- Limits and key policies are constant over a run, except where a lemma compares two of them.
- A delivery key wraps a content key in at most 64 KiB, an RSA modulus far beyond any in use.
- Random tokens and identifiers are fresh. A snapshot is represented by the list of edits that led to it,
  so "descends from" is "has as a prefix".
- Timestamps are integers; comparing ISO texts, as several stores do, is comparing times.

## What the proofs brought to light

- A save that is renamed while its token is the newest one drawn is never lost, acknowledged or not
  (`FirmSaveNeverLost`), and every acknowledged write is such a save. A save can be overwritten without being
  built upon only when a later token was drawn before its rename (`LostSaveWasLate`), and that does happen
  (`UnacknowledgedSaveMayBeLost`). It is the closing lease check, not the fence check, that separates the two.
  A late save is not lost for being late: it can still be passed over exactly while a process with the same or
  a later token has passed its fence check, or can still pass one, with something that does not build on it, or
  once the newest version does not (`PassedOverIff`); it is safe while nobody runs under a later token
  (`NobodyAheadIsSafe`).
- `pruneTerminalLocked` looks only at age. A job whose requeueing crashed between write and rename is a
  pending record among the dead letters, and the next dead letter can push it out
  (`RequeuedJobMayBePruned`). Burying jobs loses such a record exactly when it then has at least as many
  newer dead letters as the limit allows (`LosesLiveIff`); each of burying, claiming, acknowledging and
  failing loses exactly these records, recoveries included, and queueing and completing lose none, because
  they reconcile the dead letters first. Behind a janitor pass no operation removes a record that is not
  finished, wherever it crashes. Janitor and operation take the lock separately, so between two processes
  the window is closed only if none crashes in the middle of a requeue in between.
- The janitor's own pruning of dead letters goes by file name, so a newer one can go while an older one stays
  (`NewerDeadLetterDropped`). It is pruning by age exactly when no dropped job died after a kept one
  (`NamePruningIff`).
- A scan-outbox request signed ahead of the accepting clock by the full skew, less the wait for the lock,
  can be accepted twice (`OutboxReplayIff`, `OutboxReplayExample`). The bundle store keeps its replay files
  long enough for every request, unless it waits hours for the lock (`BundleReplayIff`).
- `executeApproved` runs its operation before it writes the consumption. A crash in between leaves the
  request approved, and the operation runs again for the same approvals (`OperationRunsTwice`). Once it has
  run, it can run again exactly as long as every attempt failed or was cut off (`RunsAgainIff`); the request
  itself is consumed at most once.
- Disposition need not remove everything, and what it leaves stays: from the moment an item is disposed and no
  operation is on it, neither its content nor its record ever changes, a pending purge included
  (`DisposedIsFrozen`). A disposition that returns has left nothing exactly when no removal failed and no
  content lay at the version number after the last one listed (`EvidenceStore.Dispose`, `PurgeLeaves`); a purge
  that a crash may have cut off has left nothing exactly when it got through every listed version besides
  (`NothingLeftIff`). `purgePending` tells the first cause but not the second: once it is cleared no listed
  version has content, but one behind them can (`FinishedPurgeLeaves`). There are three ways to get there: a
  removal that fails (`FailedRemovalStays`), an `addVersion` that cannot save its index nor take its content
  back (`FailedUndoStays`), and one that crashes before it saves its index (`CrashedVersionStays`).

## Model

| member | source | states |
|---|---|---|
| Lease.FileLeaseCoordinator.Acquire | src/coordination/fileLeaseCoordinator.js:66-129 | wins exactly when the directory is free or turns stale by the deadline, at the first poll that sees it, always under a token one above the counter; otherwise changes nothing |
| Lease.LeaseHandle.AssertValid | src/coordination/fileLeaseCoordinator.js:202-216 | succeeds exactly while the handle is unreleased and the directory carries this owner and token, unexpired |
| Lease.LeaseHandle.Heartbeat | src/coordination/fileLeaseCoordinator.js:218-229 | renews only a lease that is still held, which then ends exactly one lease time after the clock; a lost lease is left alone |
| Lease.LeaseHandle.Release | src/coordination/fileLeaseCoordinator.js:231-244 | removes the directory only while it is this lease's; a successor's directory and a second release are untouched |
| Lease.RivalAfterHeartbeat | src/coordination/fileLeaseCoordinator.js:218-229 | after a heartbeat a rival gets the lease if and only if it polls for at least one lease time |
| FencedStore.FencedSnapshotStore.ListVersions | src/coordination/fencedSnapshotStore.js:144-162 | lists every version exactly once, newest token first |
| FencedStore.FencedSnapshotStore.ReadEncrypted | src/coordination/fencedSnapshotStore.js:44-68 | returns the version with the highest token, or the unfenced state when there is none |
| FencedStore.FencedSnapshotStore.Save | src/coordination/fencedSnapshotStore.js:70-95 | refused exactly when a later token has a version; otherwise the newest version afterwards, and only versions with `keep` newer ones are gone |
| FencedStore.FencedSnapshotStore.PruneVersions | src/coordination/fencedSnapshotStore.js:164-169 | removes exactly the versions with at least `keep` newer ones |
| FencedStore.NewestNotDoomed | src/coordination/fencedSnapshotStore.js:164-169 | pruning never removes the newest version |
| CoordinatedRegistry.Registry.Load | src/coordination/fencedSnapshotStore.js:40-49 | a load sees the newest fenced version or the base state |
| CoordinatedRegistry.Registry.WriteEdit | src/coordination/coordinatedRegistry.js:28-37 | when a write is busy, refused, lost or acknowledged, and what is on disk after each; every way out releases the lease |
| WriteProtocol.NoAcknowledgedWriteLost | src/coordination/coordinatedRegistry.js:28-37 | in every run, once a write has returned normally every snapshot saved later under a higher token, and whatever a load finds, descends from what it saved |
| WriteProtocol.FirmSaveNeverLost | src/coordination/fencedSnapshotStore.js:70-95 | the same for every save renamed while its token was the newest one drawn, acknowledged or not |
| WriteProtocol.LostSaveWasLate | src/coordination/fencedSnapshotStore.js:70-95 | a save some later token did not build upon was renamed after a later token had been drawn |
| PassedOver.PassedOverIff | src/coordination/fencedSnapshotStore.js:70-95 | from any state of a run a snapshot can still be passed over, by a save under its token or a later one that does not build on it, if and only if the newest version does not build on it, or such a process has passed its fence check with something that does not, or still can with the view or listing it has |
| PassedOver.NobodyAheadIsSafe | src/coordination/fencedSnapshotStore.js:70-95 | a save just renamed, late or not, cannot be passed over while nobody runs or has saved under a later token |
| WriteProtocol.AcknowledgedAsSaved | src/coordination/fileLeaseCoordinator.js:131-142 | a write is acknowledged with the last snapshot it saved, still on disk, and only while it owns the unexpired lease |
| WriteProtocol.AcknowledgedIsNewest | src/coordination/fileLeaseCoordinator.js:202-216 | at the moment of acknowledgement no later token has been drawn or has saved |
| WriteProtocol.FencingSurvivesRaces | src/coordination/fencedSnapshotStore.js:70-95 | for any interleaving of checks, renames and deletions the newest stored token never decreases and reading it yields the last save of the highest token that has saved |
| WriteProtocol.TokensIncreaseAndHolderUnique | src/coordination/fileLeaseCoordinator.js:328-341 | tokens are granted in strictly increasing order across crashes around the counter write, and at most one process passes the lease check at a time |
| WriteProtocol.HeldUntilOver | src/coordination/fileLeaseCoordinator.js:66-129 | a held lease stays its holder's through whatever others do, until the holder releases it or dies or its time runs out |
| WriteProtocol.LeaseStepMeans | src/coordination/fileLeaseCoordinator.js:66-129 | what taking, failing to take, taking over, releasing and dying need, and what each does to directory, counter and running writes |
| WriteProtocol.StoreStepMeans | src/coordination/fencedSnapshotStore.js:88-95 | a rename puts the checked snapshot under its token, a deletion takes the named version away, and no other step touches the versions |
| WriteProtocol.ChecksAround | src/coordination/coordinatedRegistry.js:28-37 | two lease checks stand before the operation and two more before it returns |
| WriteProtocol.RunInv | src/coordination/fileLeaseCoordinator.js:257-271 | the token, store, firm-save and acknowledgement invariants hold in every state of every run, takeovers included |
| WriteProtocol.TokensStep | src/coordination/fileLeaseCoordinator.js:66-94 | every step keeps the owner's token the newest, distinct from all others |
| WriteProtocol.StoreStep | src/coordination/fencedSnapshotStore.js:164-169 | every step keeps each saved version on disk with its last content until a later token has saved |
| WriteProtocol.FirmStep | src/coordination/coordinatedRegistry.js:28-37 | every step keeps whatever the same or later tokens have loaded, checked or saved built on each firm save |
| WriteProtocol.AckStep | src/coordination/coordinatedRegistry.js:28-37 | every step keeps an acknowledged write the last and firm save of its token, and its process saves no more |
| WriteProtocol.UnacknowledgedSaveMayBeLost | src/coordination/fencedSnapshotStore.js:70-95 | a concrete run in which a stalled save lands after its successor's load and is not built upon, so the closing check is needed |
| ScanJobs.ChangeKeepsJobInv | src/evidence/externalScanJobOutbox.js:521-546 | every change keeps: token stored exactly while inflight, package exactly while pending or inflight, attempts within bounds, claims less than a lease past the deadline |
| ScanJobs.ChangeMeans | src/evidence/externalScanJobOutbox.js:196-274 | what each event makes of a stored record, field by field: handed out, received, due again with its package and attempts, given up with its reason, or attested |
| ScanJobs.ChangeDecreasesMeasure | src/evidence/externalScanJobOutbox.js:199-208 | every claim, retry, recovery, acknowledgement, burial and completion uses up a nonnegative measure over attempts and state |
| ScanJobs.DeliveryTerminates | src/evidence/externalScanJobOutbox.js:196-208 | in every run, wherever a crash cuts it off, a job is claimed at most `maxAttempts` times since it was last queued, each claim is on its counter, and it changes a bounded number of times |
| ScanJobs.OpKeepsInv | src/evidence/externalScanJobOutbox.js:565-571 | every single disk step keeps each job in at most one directory, its record valid, and claim tokens unique and unspent |
| ScanJobs.DiskRefinesMap | src/evidence/externalScanJobOutbox.js:421-426 | the files refine a map from job to record: a rewrite changes one record, a rename none |
| ScanJobs.CrashStatesInv | src/evidence/externalScanJobOutbox.js:565-571 | the invariants hold wherever a crash cuts a run off |
| ScanJobs.InflightClaimsLogged | src/evidence/externalScanJobOutbox.js:196-210 | every stored claim was handed out by a claim of that job, whose time plus the lease is its expiry |
| ScanJobs.ClaimOwnership | src/evidence/externalScanJobOutbox.js:215-274 | each claim token leads to at most one successful acknowledge or fail, by the provider the package was sealed to, before the claim expires |
| ScanJobs.NothingLostIffSafe | src/evidence/externalScanJobOutbox.js:577-585 | from a given point on a run lost nothing exactly when each of its removals found a record saying the state of its directory |
| ScanJobFiles.MovedFind | src/evidence/externalScanJobOutbox.js:565-571 | moving a misplaced record puts it where its state says and disturbs no other job |
| ScanJobFiles.StraysAccounted | src/evidence/externalScanJobOutbox.js:565-585 | in every run each record written among the dead letters for another state has moved on, is still there, or was lost to pruning |
| Retention.ExcessRows | src/evidence/externalScanJobOutbox.js:577-585 | removing the first rows over the limit removes exactly the records with at least `limit` newer ones, ties by name |
| Retention.ExcessSize | src/evidence/externalScanJobOutbox.js:577-585 | as many records stay as the limit allows |
| Retention.CutTwice | src/evidence/externalScanJobOutbox.js:577-585 | cutting back, adding records and cutting back again drops what cutting back once in the end would drop |
| Retention.NamesAreOldestIff | src/evidence/externalScanJobLifecycle.js:210-215 | dropping the first names drops the oldest records exactly when none of them is younger than any of the others |
| ScanJobEffects.MaintainedSettled | src/evidence/externalScanJobOutbox.js:496-519 | taking back lapsed claims leaves the reconciled directories in order |
| ScanJobEffects.ChangedTwice | src/evidence/externalScanJobOutbox.js:521-537 | two passes that bury and prune as they go add up to one: the same jobs changed, the same dead letters dropped |
| ScanJobEffects.LosesLiveIff | src/evidence/externalScanJobOutbox.js:521-537 | an operation loses a record that is not a dead letter if and only if it buries a job and some misplaced record then has at least `deadLetters` newer dead letters |
| ScanJobEffects.NamePruningIff | src/evidence/externalScanJobLifecycle.js:210-215 | the janitor's pruning is pruning by age if and only if no dropped job died after a kept one |
| ScanJobEffects.ClaimPassStep | src/evidence/externalScanJobOutbox.js:180-211 | one turn of the claim loop extends "every due job so far was handed out in order or buried, and nothing else touched" |
| ScanJobOutbox.Outbox.WriteAndMove | src/evidence/externalScanJobOutbox.js:565-571 | a change is one rewrite and one rename; the record ends where its state says, and no other job moves |
| ScanJobOutbox.Outbox.Reconcile | src/evidence/externalScanJobOutbox.js:479-494 | puts every record of these directories where its state says, loses none, and moves something if and only if something is out of place |
| ScanJobOutbox.Outbox.PruneTerminal | src/evidence/externalScanJobOutbox.js:577-585 | drops exactly the records over the limit, whatever their state, and keeps as many as the limit allows |
| ScanJobOutbox.Outbox.Bury | src/evidence/externalScanJobOutbox.js:521-537 | the job becomes a dead letter and exactly the dead letters with `deadLetters` newer ones go, this one counted; every other job stays, and lost are exactly the misplaced records among those that go |
| ScanJobOutbox.Outbox.RecoverInflight | src/evidence/externalScanJobOutbox.js:496-519 | takes back exactly the claims that are over: the job is due again with its package when it is unexpired and has attempts left, and a dead letter otherwise; what is dropped meanwhile is what burying them all at once would drop |
| ScanJobOutbox.Outbox.Maintain | src/evidence/externalScanJobOutbox.js:107-108 | reconciles, then recovers; with the dead letters among the reconciled directories it loses no record |
| ScanJobOutbox.Outbox.Queue | src/evidence/externalScanJobOutbox.js:98-124 | a live or completed job is a duplicate and left alone; otherwise a fresh pending record, over the dead letter if there is one, by a write and then a rename; no record is lost |
| ScanJobOutbox.Outbox.ClaimJobs | src/evidence/externalScanJobOutbox.js:173-213 | of the provider's due jobs it reaches, in name order and up to the limit, exactly the unexpired ones are handed out, one token, attempt and lease each, and the expired ones given up; touches nothing past the last one claimed; loses exactly the misplaced records that fall to the limit |
| ScanJobOutbox.Outbox.Acknowledge | src/evidence/externalScanJobOutbox.js:215-241 | succeeds exactly for the owner of a running claim as it stood before maintenance, and the job is then delivered, its package gone; otherwise tells a foreign claim from none at all; loses exactly the misplaced records that recoveries push out |
| ScanJobOutbox.Outbox.Fail | src/evidence/externalScanJobOutbox.js:243-274 | succeeds exactly for the owner of a running claim; the job is then due again at once, with package and attempts unchanged, if the failure was retryable and attempts are left, and otherwise a dead letter with that reason; loses exactly the misplaced records that fall to the limit |
| ScanJobOutbox.Outbox.Complete | src/evidence/externalScanJobOutbox.js:276-320 | completes the matching job from any state but completed, rejects a mismatch, prunes the completed to their limit, and loses no record |
| ScanJobOutbox.Outbox.ExpireDirectory | src/evidence/externalScanJobLifecycle.js:141-157 | gives up exactly the overdue jobs of a directory, with the reason that tells a job nobody claimed from one nobody attested |
| ScanJobOutbox.Outbox.PruneDeadLetters | src/evidence/externalScanJobLifecycle.js:210-215 | drops the first file names over the limit, which is pruning by age exactly when those names are the oldest |
| ScanJobOutbox.Outbox.RunJanitor | src/evidence/externalScanJobLifecycle.js:136-160 | afterwards every record lies where its state says and no pending or delivered job is overdue; only dead letters went, no misplaced record was lost, and the counts reported are those of the moves made |
| ScanJobLifecycle.ReconcileTwice | src/evidence/externalScanJobLifecycle.js:162-178 | one pass over all directories puts every record in its place without changing any, moves something exactly when something was out of place, and a second pass moves nothing |
| ScanJobLifecycle.StartUp | src/evidence/externalScanJobOutbox.js:93-96 | creating the store puts every record in order and takes back lapsed claims, and loses no record |
| ScanJobLifecycle.QueueManaged | src/evidence/externalScanJobLifecycle.js:50 | behind a janitor pass every removal, wherever a crash cuts the operation off, finds a record saying the state of its directory; a new or dead job is pending afterwards |
| ScanJobLifecycle.AcknowledgeManaged | src/evidence/externalScanJobLifecycle.js:56 | the same for acknowledging, with its outcome |
| ScanJobLifecycle.FailManaged | src/evidence/externalScanJobLifecycle.js:57 | the same for failing: due again exactly when retryable with attempts left, otherwise given up |
| ScanJobLifecycle.CompleteManaged | src/evidence/externalScanJobLifecycle.js:58 | the same for completing, with its outcome |
| ScanJobLifecycle.DeadlineBound | src/evidence/externalScanJobOutbox.js:496-519 | after a janitor pass and a recovery an overdue job is active only under a running claim, and never once a claim lease has passed since its deadline |
| ScanJobLifecycle.ClaimManaged | src/evidence/externalScanJobLifecycle.js:51-55 | the same for claiming; hands out only this provider's unexpired jobs, one per token, loses no job that is finished or still to be handed out, and leaves overdue jobs active only under running claims |
| ScanJobLifecycle.RetriedIsDue | src/evidence/externalScanJobOutbox.js:256-268 | in every run, from a retryable failure with attempts left until the job is queued anew or changed, it is due with its package and attempts as they were |
| ScanJobLifecycle.RetriedIsHandedOut | src/evidence/externalScanJobOutbox.js:180-209 | and the next claim pass of its provider that reaches it before its deadline hands it out, whatever happened to other jobs in between; a pass that does not fill its limit reaches every job |
| ScanJobWitnesses.RequeuedJobMayBePruned | src/evidence/externalScanJobOutbox.js:577-585 | operations of two processes, one cut off inside `queue`, after which the other's claim prunes the live, requeued job |
| ScanJobWitnesses.NewerDeadLetterDropped | src/evidence/externalScanJobLifecycle.js:210-215 | two janitor runs that drop a newer dead letter and keep an older one |
| BundleStore.MaintenanceClears | src/evidence/evidenceAssuranceBundleStore.js:300-314 | after maintenance every pending or claimed bundle is unexpired and every claim is running |
| BundleStore.Store.Maintain | src/evidence/evidenceAssuranceBundleStore.js:300-314 | a live bundle expires exactly when its own deadline has passed; any other whose claim is over is pending again with its package; everything else stays as it is |
| BundleStore.ExpiredWasOverdue | src/evidence/evidenceAssuranceBundleStore.js:300-314 | in every run a bundle has expired only because maintenance came by at or past the deadline it was queued with |
| BundleStore.LapsedIsClaimable | src/evidence/evidenceAssuranceBundleStore.js:182-213 | after any run a claim that is over does not keep an unexpired bundle from being claimed again: the same package goes out under the new token |
| BundleStore.EstimateIs | src/evidence/evidenceAssuranceBundleStore.js:195 | the bytes a claim is charged with are those of its packages and 1024 for each |
| BundleStore.StaysAbout | src/evidence/evidenceAssuranceBundleStore.js:100-113 | in every run what a stored bundle is about, evidence, version and digest, never changes, resealed or not |
| BundleStore.Store.Queue | src/evidence/evidenceAssuranceBundleStore.js:100-120 | new bundles are queued, only expired ones resealed, others left alone; a conflict is exactly a different source |
| BundleStore.Store.Claim | src/evidence/evidenceAssuranceBundleStore.js:182-213 | claims the longest run of pending bundles that the limit and byte budget allow, in name order; the budget error occurs exactly when the first alone is too large, and claims nothing |
| BundleStore.Store.Acknowledge | src/evidence/evidenceAssuranceBundleStore.js:215-242 | the record is delivered and its package dropped exactly when the acknowledgement proves the running claim |
| BundleStore.DeliveryProvesClaim | src/evidence/evidenceAssuranceBundleStore.js:224-240 | behind every delivery in a run stands an earlier claim of that bundle under the token shown, still running, with the record untouched since and its package of the digest shown |
| BundleStore.TokenDeliversOnce | src/evidence/evidenceAssuranceBundleStore.js:204-231 | with fresh tokens each token delivers at most once over a whole run |
| BundleStore.Store.Prune | src/evidence/evidenceAssuranceBundleStore.js:324-330 | removes exactly the delivered and expired bundles over the limit, none that finished after one it keeps |
| BundleStore.DeliveredIsFinal | src/evidence/evidenceAssuranceBundleStore.js:215-242 | in every run a delivered bundle stays exactly as it is until it is removed |
| BundleStore.LiveEndsDeliveredOrExpired | src/evidence/evidenceAssuranceBundleStore.js:324-330 | in every run a live bundle that is gone later was delivered or expired in between |
| ExportApproval.Store.RequestExport | src/evidence/evidenceAssuranceExportApprovalStore.js:64-92 | a new request starts pending and unapproved; a repeated one is answered with what is stored |
| ExportApproval.Store.Approve | src/evidence/evidenceAssuranceExportApprovalStore.js:94-106 | adds one approval per person while pending, never the requester's, and the last one needed completes the quorum |
| ExportApproval.Store.Reject | src/evidence/evidenceAssuranceExportApprovalStore.js:108-119 | possible exactly while pending |
| ExportApproval.Store.Cancel | src/evidence/evidenceAssuranceExportApprovalStore.js:121-131 | possible exactly while pending and for the requester |
| ExportApproval.Store.ExecuteApproved | src/evidence/evidenceAssuranceExportApprovalStore.js:133-151 | runs the operation exactly for an approved request whose evidence, version, digest, recipient and purpose are those expected, each as far as given, and consumes it exactly when the operation succeeded and no crash intervened |
| ExportApproval.RanAsAsked | src/evidence/evidenceAssuranceExportApprovalStore.js:139-145 | in every run whatever ran had its full quorum of other people behind it, for exactly the evidence, version, digest, recipient and purpose it was asked for |
| ExportApproval.ExpectationIff | src/evidence/evidenceAssuranceExportApprovalStore.js:250 | a full expectation is met by just the disclosure it names, an empty one by any |
| ExportApproval.Store.Expire | src/evidence/evidenceAssuranceExportApprovalStore.js:197-203 | expires exactly the overdue pending requests |
| ExportApproval.Store.Prune | src/evidence/evidenceAssuranceExportApprovalStore.js:205-210 | removes exactly the finished requests over the limit, none that ended after one it keeps |
| ExportApproval.ApprovedMeansDualControl | src/evidence/evidenceAssuranceExportApprovalStore.js:94-106 | in every state of every run a request is approved or consumed exactly when as many different people approved it as the quorum asks, none the requester, and none rejected or cancelled it |
| ExportApproval.TerminalIsFinal | src/evidence/evidenceAssuranceExportApprovalStore.js:251 | in every run a finished request never changes again until it is removed, so it is consumed at most once |
| ExportApproval.ConsumedWasApproved | src/evidence/evidenceAssuranceExportApprovalStore.js:133-151 | in every run, reopened after crashes or not, what is consumed stood approved, by the same people, for the same disclosure, when its operation ran right before |
| ExportApproval.RunsAgainIff | src/evidence/evidenceAssuranceExportApprovalStore.js:138-149 | once its operation ran, a request's operation can be run again if and only if every attempt failed or was cut off by a crash |
| ExportApproval.ExecutedMoreThanOnceIff | src/evidence/evidenceAssuranceExportApprovalStore.js:138-149 | over a whole run an operation ran more than once exactly when an attempt before the last one that ran failed or was cut off |
| ExportApproval.OperationRunsTwice | src/evidence/evidenceAssuranceExportApprovalStore.js:145-148 | a crash after the operation, a second process over what is left, and the operation has run twice for one set of approvals |
| ExportApproval.LiveNeverPruned | src/evidence/evidenceAssuranceExportApprovalStore.js:205-210 | in every run a pending or approved request that is gone later was finished in between |
| ReplayLedger.Replays.Consume | src/evidence/externalScanJobOutbox.js:453-477 | accepts exactly the requests the ledger does not remember and remembers what it accepts |
| ReplayLedger.Remembered | src/evidence/evidenceAssuranceBundleStore.js:287-298 | an accepted request is remembered through any later attempts and maintenance until its record is old enough |
| ReplayLedger.AcceptedAgain | src/evidence/externalScanJobOutbox.js:453-463 | a second acceptance means the first one's record had reached its age |
| ReplayLedger.BundleRequestsOnce | src/evidence/evidenceAssuranceBundleStore.js:267-321 | every signed recipient request takes effect at most once, as twice the skew and the lock wait fit in a day |
| ReplayLedger.BundleRequestsOnceForAnySkew | src/evidence/evidenceAssuranceBundleStore.js:47-87 | under any configurable skew, up to an hour, and any wait for the lock up to 22 hours, every signed recipient request takes effect at most once |
| ReplayLedger.BundleReplayIff | src/evidence/evidenceAssuranceBundleStore.js:287-321 | a recipient request accepted in a run can be accepted again in some continuation exactly when it still authenticates, lock wait included, more than a day after it was accepted |
| ReplayLedger.OutboxRequestsOnce | src/evidence/externalScanJobOutbox.js:428-477 | the same for scan-outbox requests signed less than the skew, minus the lock wait, ahead of the accepting clock |
| ReplayLedger.OutboxReplayIff | src/evidence/externalScanJobOutbox.js:428-477 | a request accepted in a run can be accepted again in some continuation exactly when it was signed at least the skew, minus the lock wait, ahead of the accepting clock |
| ReplayLedger.OutboxReplayExample | src/evidence/externalScanJobOutbox.js:457-462 | a run in which a request signed five minutes ahead is accepted twice |
| ClaimBudget.Base64 | src/evidence/externalScanJobOutbox.js:653 | n bytes encode to four characters per started group of three |
| ClaimBudget.Base64RoundTrip | src/evidence/externalScanJobOutbox.js:653 | decoding the encoded text gives back the bytes |
| ClaimBudget.PayloadMetadataBound | src/evidence/externalScanJobOutbox.js:640-654 | the payload around the content takes at most 3 000 bytes, whatever the admitted identifiers, file name and media type |
| ClaimBudget.PackageMetadataBound | src/evidence/externalScanJobOutbox.js:662-681 | the package around the ciphertext takes at most 90 000 bytes, its authenticated data and wrapped key included |
| ClaimBudget.PackageFits | src/evidence/externalScanJobLifecycle.js:43 | a job in a claim response, its content in base64 twice and every field in full, stays under the estimate |
| ClaimBudget.ClaimFitsBudget | src/evidence/externalScanJobLifecycle.js:44-47 | a claim response with `maximumClaimJobs` packages of any admitted content and fields fits the byte budget |
| ClaimBudget.GuardedClaimFits | src/evidence/externalScanJobLifecycle.js:83-98 | whatever passes the guard and is handed out fits the budget |
| ClaimBudget.GuardIff | src/evidence/externalScanJobLifecycle.js:83-98 | a claim for a number of jobs is turned away if and only if that many estimates exceed the budget |
| ClaimBudget.EstimateIsLeast | src/evidence/externalScanJobLifecycle.js:43 | the estimate is the least whole number with 131072 bytes to spare over sixteen ninths of the largest evidence |
| CanonicalJson.ParsePrint | src/evidence/evidencePreservationStore.js:680 | a parser recovers the value from its text followed by anything that cannot extend a number |
| CanonicalJson.SameTextIffEqual | src/evidence/evidencePreservationStore.js:596-613 | two values print the same exactly when they are equal JSON values, so insertion order never shows in a signature or digest |
| CanonicalJson.TextsArePrefixFree | src/evidence/evidencePreservationStore.js:680 | no value's text continues into another value's text |
| CanonicalJson.SortKeeps | src/evidence/evidencePreservationStore.js:680 | sorting keys keeps every property |
| CanonicalJson.KeyLessIs | src/evidence/evidencePreservationStore.js:680 | keys compare by the first character in which they differ, and a key comes before those it begins |
| CanonicalJson.PlainStays | src/evidence/evidencePreservationStore.js:680 | only quotes, backslashes and control characters are escaped |
| CanonicalJson.NumberCharIs | src/evidence/evidencePreservationStore.js:680 | the characters numbers are made of |
| CanonicalJson.ReadQuoted | src/evidence/evidencePreservationStore.js:680 | escaped strings read back exactly, control characters included |
| HashChain.EventLog.AppendEvent | src/evidence/evidenceRegistry.js:582-604 | the log keeps exactly the last `retained` of all events ever appended, and its anchor is the event just before them |
| HashChain.EventLog.VerifyChain | src/evidence/evidenceRegistry.js:606-626 | accepts exactly the chains whose events link back to the anchor and forward to the head |
| HashChain.LogAccepted | src/evidence/evidenceRegistry.js:582-626 | after any number of appends with any limit the check passes |
| HashChain.SuffixAccepted | src/evidence/evidenceRegistry.js:598-603 | wherever a log is cut, the rest behind the event before the cut is accepted |
| HashChain.AcceptedChainsIdentical | src/evidence/evidenceRegistry.js:606-626 | two accepted chains with the same anchor, sequence and head are identical event by event |
| HashChain.SameHeadSameEvents | src/evidence/evidenceRegistry.js:606-626 | with the same head and sequence they agree on every event both hold, however they were trimmed |
| HashChain.HeadCommitsToHistory | src/evidence/evidenceRegistry.js:606-626 | a chain accepted under the true head holds the true last events behind the true anchor |
| EntitlementRegistry.Registry.AppendEvent | src/security/identityEntitlementRegistry.js:390-407 | the same trimming with the head derived from the last event or the anchor |
| EntitlementRegistry.Registry.ValidateSnapshot | src/security/identityEntitlementRegistry.js:445-462 | accepts exactly the snapshots whose events link back to the anchor |
| EntitlementRegistry.Registry.Upsert | src/security/identityEntitlementRegistry.js:102-135 | fails exactly on an unexpected version; otherwise one row and one event, the version counting the changes to that user |
| EntitlementRegistry.Registry.Patch | src/security/identityEntitlementRegistry.js:137-166 | not found, version conflict, or one row and one event for the user with that id, in which the fields given are new and the others as they were |
| EntitlementRegistry.SnapshotValidates | src/security/identityEntitlementRegistry.js:250-264 | after any number of changes the snapshot validates and its sequence is that of its last event |
| EntitlementRegistry.ReplayStep | src/security/identityEntitlementRegistry.js:118-133 | the user table stays the replay of the full log |
| EntitlementRegistry.TableTellsLog | src/security/identityEntitlementRegistry.js:118-133 | whoever is in the table has the tenant, role, standing and version of the last change to them, and nobody else is in it |
| EntitlementRegistry.SameVersionNoChange | src/security/identityEntitlementRegistry.js:374-381 | a user that still has the version a caller read was not changed in between |
| Custody.EvidenceStore.Ingest | src/evidence/evidenceRegistry.js:86-141 | lists the item only after its content is on disk: active, without a hold, under the retention date given, with the content's digest and size; leaves nothing behind when a write fails |
| Custody.EvidenceStore.AddVersion | src/evidence/evidenceRegistry.js:143-195 | adds the next version to an active item; hold and, without a new date, retention stay, and retention is never shortened under a hold |
| Custody.EvidenceStore.SetLegalHold | src/evidence/evidenceRegistry.js:235-287 | places or releases a hold exactly on an active item without or with one |
| Custody.EvidenceStore.Dispose | src/evidence/evidenceRegistry.js:289-341 | possible exactly for an active item without hold after its retention date; saves the tombstone, removes every version's content it can, and leaves the purge pending exactly when a removal or the last save fails; none of the item's content is left exactly when no removal failed and none lay behind the listed versions before |
| Custody.EvidenceStore.Verify | src/evidence/evidenceRegistry.js:366-390 | succeeds exactly when the event chain is accepted and every version of every active item in question has matching content |
| Custody.CrashConsistent | src/evidence/evidenceRegistry.js:116-139 | wherever a crash strikes each version an active item lists has content of the listed digest and size, and the event chain is accepted |
| Custody.ContentOutlivesItem | src/evidence/evidenceRegistry.js:318-339 | in every run content of an active item disappears or changes only after its tombstone was saved, past its retention date and without a legal hold |
| RetentionRules.DisposableIff | src/evidence/evidenceRegistry.js:304-316 | after any run, told from its log alone: an item can be disposed of if and only if the retention date last saved for it has come, its last hold was released, and it was not disposed of before |
| RetentionRules.TombstonesHonourDates | src/evidence/evidenceRegistry.js:304-316 | in every run each tombstone was saved at or past the retention date last saved, under no hold, and once |
| RetentionRules.DatesAreAhead | src/evidence/evidenceRegistry.js:143-172 | in every run retention dates are given ahead of the clock, and under a hold never before the last one saved |
| Custody.RunBounded | src/evidence/evidenceRegistry.js:143-194 | in every run content lies only at versions its item lists or at the number right behind them |
| Custody.PurgeLeaves | src/evidence/evidenceRegistry.js:329-338 | in any state of a run a purge leaves nothing of an active item if and only if no removal fails and nothing lies behind its listed versions |
| Disposal.DisposedIsFrozen | src/evidence/evidenceRegistry.js:304-340 | in every run neither the content nor the record of a disposed item changes once its disposition is over |
| Disposal.ContentAfterTombstone | src/evidence/evidenceRegistry.js:318-339 | in every state after a tombstone, crashes included, exactly the versions its purge has removed so far are gone |
| Disposal.NothingLeftIff | src/evidence/evidenceRegistry.js:329-338 | nothing of the item is left if and only if its purge removed every listed version and nothing lay behind them |
| Disposal.FinishedPurgeLeaves | src/evidence/evidenceRegistry.js:335-338 | in every run a purge on record means that no listed version has content, and that the one behind them is all that can be left |
| Disposal.FailedRemovalStays | src/evidence/evidenceRegistry.js:330-333 | store calls after which a disposed item still has its content, the purge pending |
| Disposal.FailedUndoStays | src/evidence/evidenceRegistry.js:188-193 | store calls after which a disposed item still has content though its purge is on record: `addVersion` failed to save and to undo |
| Disposal.CrashedVersionStays | src/evidence/evidenceRegistry.js:173-188 | the same after an `addVersion` that crashed between its content and its index |
| Custody.ItemsPersist | src/evidence/evidenceRegistry.js:318-339 | in every run items are never forgotten, versions only added, and tombstones never undone |
| Custody.VerifyAfterCrash | src/evidence/evidenceRegistry.js:366-378 | verification, event chain included, succeeds on every state a run can leave behind |
| Preservation.PreservationStore.Preserve | src/evidence/evidencePreservationStore.js:95-148 | archives, repairs, recognises a duplicate or reports an integrity error, each exactly when object and receipt are found so, and writes nothing else |
| Preservation.PreservationStore.VerifyTenant | src/evidence/evidencePreservationStore.js:203-229 | succeeds exactly without orphans or duplicate receipts and with every archive verifying |
| Preservation.PreservationStore.VerifiedForVersion | src/evidence/evidencePreservationStore.js:231-254 | returns the receipt exactly when this version's object under this retention date verifies |
| Preservation.RunsStayPaired | src/evidence/evidencePreservationStore.js:134-147 | wherever a crash strikes, every receipt has its matching object, as long as nobody else removes one |
| Preservation.CommittedForever | src/evidence/evidencePreservationStore.js:635-658 | in every run no committed object or receipt ever changes, and none goes of the store's own doing |
| Preservation.TenantVerifiesIff | src/evidence/evidencePreservationStore.js:203-229 | in any state of a run verification succeeds exactly when objects and receipts are about the same archives |
| Preservation.RunOneReceipt | src/evidence/evidencePreservationStore.js:117-147 | in every run an archive has at most one receipt |
| Preservation.FiledIsFound | src/evidence/evidencePreservationStore.js:117-147 | a receipt once filed is the one every later verification of its archive finds |
| Preservation.PreserveAgain | src/evidence/evidencePreservationStore.js:101-115 | repeating a request on whatever a crash left restores the missing receipt and verifies |
| TimeAttestations.AttestationStore.Record | src/evidence/evidenceTimeAttestationStore.js:110-154 | accepts exactly a matching, timely attestation with a new nonce while there is room; duplicates and rejects change nothing |
| TimeAttestations.OnRecord | src/evidence/evidenceTimeAttestationStore.js:110-154 | whatever is on record carries the digest of a receipt filed for its archive and a timestamp within skew and maximum delay, and shares key and nonce with no other record |
| TimeAttestations.AttestationStore.VerifyArchive | src/evidence/evidenceTimeAttestationStore.js:273-308 | valid exactly when every record of the archive still matches; the quorum counts distinct providers |
| TimeAttestations.AttestationStore.VerifyChain | src/evidence/evidenceTimeAttestationStore.js:581-596 | accepts exactly an unbroken, untrimmed chain that ends in the head |
| TimeAttestations.CertifiedVerifies | src/evidence/evidenceTimeAttestationRegistry.js:205-234 | in any state of the archive's run, an attestation under the digest of a receipt filed for its archive, and in time for it, verifies exactly when the archive does; whatever verifies is of this kind |
| TimeAttestations.StaysOk | src/evidence/evidenceTimeAttestationStore.js:310-330 | what matched the challenge in time once does so in every later state in which the archive verifies, at every later time |
| TimeAttestations.VerifyRecorded | src/evidence/evidenceTimeAttestationStore.js:310-330 | whatever was recorded verifies at every later time, and the quorum counts its distinct providers |
| AuthorityPolicy.EvaluatePolicy | src/evidence/evidenceTimeAuthorityPolicyStore.js:289-304 | trusts exactly attestations by a key in force at their time and allowed for their policy |
| AuthorityPolicy.VerifyPolicy | src/evidence/evidenceTimeAuthorityPolicyStore.js:84-129 | refuses to judge exactly beyond the listing limit; otherwise counts the trusted attestations, providers and keys |
| TimeAttestations.ListingNewestFirst | src/evidence/evidenceTimeAttestationStore.js:156-167 | a listing shows the newest attestations first, and when there are too many, the newest of them |
| AuthorityPolicy.RecordTrusted | src/evidence/evidenceTimeAuthorityPolicyStore.js:51-71 | nothing untrusted reaches the store |
| GovernanceJournal.Journal.Record | src/evidence/evidenceTimeAttestationGovernanceStore.js:98-134 | each ruling once, at the end, while there is room |
| GovernanceJournal.Journal.Evaluate | src/evidence/evidenceTimeAttestationGovernanceStore.js:156-193 | acceptable exactly when no ruling in effect speaks against the attestation; superseded exactly when one that does supersedes it, revoked otherwise |
| GovernanceJournal.NothingRuled | src/evidence/evidenceTimeAttestationGovernanceStore.js:165-182 | an empty journal speaks against nothing |
| GovernanceJournal.KeyRevocation | src/evidence/evidenceTimeAttestationGovernanceStore.js:418-421 | a revoked key makes unacceptable exactly what it signed from the effective date on, or all it signed when retroactive; every other attestation keeps its standing |
| GovernanceJournal.ProviderRevocation | src/evidence/evidenceTimeAttestationGovernanceStore.js:415-417 | the same for every key of a revoked provider |
| GovernanceJournal.AttestationRevocation | src/evidence/evidenceTimeAttestationGovernanceStore.js:413 | a revoked attestation becomes unacceptable, whenever it was signed, and no other does |
| GovernanceJournal.Supersession | src/evidence/evidenceTimeAttestationGovernanceStore.js:414 | a superseded attestation becomes unacceptable with status superseded; its replacement and all others keep their standing |
| GovernanceJournal.RevokeKeyThenEvaluate | src/evidence/evidenceTimeAttestationGovernanceStore.js:98-193 | recording a key's revocation and evaluating afterwards: acceptable exactly when it was so before and the key, date and retroactivity do not condemn it |
| GovernanceJournal.Journal.VerifyIndex | src/evidence/evidenceTimeAttestationGovernanceStore.js:425-451 | accepts exactly an unbroken journal that ends in its head |
| GovernanceJournal.NeverRehabilitated | src/evidence/evidenceTimeAttestationGovernanceStore.js:412-423 | more rulings or a later time never make an unacceptable attestation acceptable |
| GovernanceRegistry.GovernedRegistry.EffectiveArchiveVerification | src/evidence/evidenceTimeAttestationGovernanceRegistry.js:88-119 | refuses exactly an archive that is not preserved intact or has more attestations than policy looks at; otherwise reports policy quorum, and operational quorum over exactly the providers of attestations of the archive whose key was in force and that no ruling in effect speaks against |
| GovernanceRegistry.QuorumTower | src/evidence/evidenceTimeAttestationGovernanceRegistry.js:88-119 | operational quorum implies cryptographic quorum always, and policy quorum whenever the listing limit covers the archive; policy quorum implies cryptographic quorum |
| GovernanceRegistry.PolicyNeutralWhenRecordedUnderIt | src/evidence/evidenceTimeAuthorityPolicyStore.js:84-129 | policy and cryptographic quorum coincide while everything was recorded under the present policy |
| GovernanceRegistry.LostQuorumStaysLost | src/evidence/evidenceTimeAttestationGovernanceStore.js:156-193 | for given records an operational quorum once lost is never regained |
| GovernanceRegistry.KeyRevocationCounts | src/evidence/evidenceTimeAttestationGovernanceRegistry.js:88-119 | after a key's revocation the operational quorum counts exactly what it counted before, less what that key signed from the effective date on |
| GovernanceRegistry.RevokedKeyAlone | src/evidence/evidenceTimeAttestationGovernanceRegistry.js:88-119 | an archive attested only by a revoked key from its effective date on has no operational quorum |
| GovernanceRegistry.GovernedRegistry.CurrentOperationalPosture | src/evidence/evidenceTimeAttestationGovernanceRegistry.js:125-169 | looks up the receipt of every version not disposed and the quorum behind it; fails exactly when an archive is there but cannot be judged, and otherwise counts each version once as missing, quorate or lacking quorum |
| GovernanceRegistry.TallyMeans | src/evidence/evidenceTimeAttestationGovernanceRegistry.js:125-169 | the counts add up, and nothing is missing exactly when every archive is there with operational quorum |
| GovernanceRegistry.GovernedRegistry.DispositionGate | src/evidence/evidenceTimeAttestationGovernanceRegistry.js:210-222 | with governance required an item may go exactly when the archive of each of its versions verifies and has operational quorum; the check fails exactly when one is there but cannot be judged |
| GovernanceRegistry.OpenGateMeans | src/evidence/evidenceTimeAttestationGovernanceRegistry.js:88-119 | behind an open gate stand policy and cryptographic quorum too, and the operational quorum held under every earlier state of the journal |

## Left out

- HTTP handlers and servers, runtime wiring, environment parsing, validators of single fields, status and health reports, command-line scripts.
- The cryptographic primitives, file descriptors, temporary files and fsync; errors raised after a rename that did happen.
- The file mutex, and the finer steps inside taking over or releasing a lease.
- The workforce registry itself: a coordinated operation loads, saves one or more descendants of what it loaded, and returns.
- The fencing counter and sequence numbers are unbounded; the source stops at the largest safe integer.
- Reports on jobs, bundles, requests and events, which first run the maintenance that is modelled here.
- Provider configuration in the outbox: which delivery key seals a package, and requests for unknown providers.
- The order of items in the evidence index, the item's descriptive fields, and the findings that may refer to it.
- Values with undefined in them, and the order of keys outside the Basic Multilingual Plane, which the source sorts by UTF-16 unit and the model by code point; any total order gives the same theorems. Surrogates standing alone are not characters of the model.
- Files that cannot be read or decrypted, which most operations report and the scan outbox's replay ledger removes.
- Signing of governance events and receipts, and tampering with files behind the stores, except that a preservation object may be missing.
- ReplayLedger.Replays.Consume: one class serves both ledgers; the outbox stores the expiry time where the model stores the time of acceptance.
- BundleStore.Store.Claim: reads the pending bundles in name order, where the source skips the others while it walks over all names.
- Lease.FileLeaseCoordinator.Acquire: nobody else acts while it polls; the contention of many processes for the directory is in WriteProtocol, whose steps any process may take between two of its own.
- CoordinatedRegistry.Registry.WriteEdit: one process alone, with one load, one edit and one save; any number of processes, loads and saves, interleaved at every step, is WriteProtocol.
- GovernanceRegistry.GovernedRegistry.EffectiveArchiveVerification: the report repeats no single decisions.
- TimeAttestations.AttestationStore.VerifyArchive: checks one archive; the source groups several in one pass over the records.
- Backup, replica and screening registries, identity providers and the security archive: they repeat ordering and chain arguments in simpler form.
