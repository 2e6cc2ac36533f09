# Artifact lifecycle, document review and display: a verified model

This project models the parts of the rewrite application whose correctness is hardest to see
from the code, and proves them with Dafny. `dafny verify dfyconfig.toml` checks everything.

## What is modelled

**Managed model artifacts.** Content-addressed files live in one artifact directory. A durable
store holds, per artifact, an optional current generation and an optional removal journal.
Leases share a lifecycle lock; import, reconciliation and removal hold it alone.
`Lifecycle` states the protocol as atomic steps of any number of processes, any of which may
stop after any step. Losing power stops all of them and loses an arbitrary part of the
changes to the artifact directory and to the staging directory since each was last
synchronized, so a removed name may come back. A file that an import has linked under its
digest keeps its staged name as a second link until the import drops it. `LifecycleSafety`
proves the guarantees over every run, and `LinkSafety` those about second links. `ManagedStorage`, `ArtifactRemoval`, `ArtifactImport`,
`RuntimeArtifactLease` and `ArtifactRepository` are the services themselves, as methods that
assign the fields of one mutable storage object step by step. Every assignment is logged as
one protocol step, so each service method is proved to produce a run of the protocol, and
everything proved of runs holds at each point where it may be interrupted. Faults and
cancellation are parameters: a set of fault points, the number of the first cancellation
check that sees the request and, for an import, what happens at each read of its source. SHA-256 is an arbitrary function from bytes to digests.

**Document review.** `ReviewOperation` is the single-slot bridge between a user interface and
a worker thread; `ReviewState` is the reducer on top of it. The proofs hold for every
interleaving, and for any worker that takes one job at a time.

**Document catalog.** `DocumentCatalog` walks a directory with a worklist under entry, depth
and byte budgets while the file system may change between two reads. `CatalogTree` says
recursively what a tree holds; on an unchanging tree the walk agrees with it. `CatalogReach`
says the same by reachability alone.

**Terminal display.** `TerminalText` and `JsonDisplay` escape text and JSON text. `Json` is an
independent reading of JSON text by section 7 of RFC 8259 and section 2.1 of RFC 2781.

**Supporting algorithms.** `ArtifactInventory`, `ExpectedTree`, `Streaming`, `ModelReference`
and `InstallationGeneration`.

Each service operation is specified by a function of its inputs that follows its branches, and
beside it by tables that do not mention that function: every answer, each error included, with
its exact condition on the inputs. The tables are clauses of the operations.

Reading order within each part: data and operations first, then the module with the
guarantees. Preconditions beyond an object's own validity are what the source's types
guarantee: digests are well formed, tree entries have distinct paths, member paths have no
empty component. A call is named by a process that is not running and, for an import, that no
staged file is called by: the source draws staged names at random.

## Findings

- A repository removal whose final recheck of the data directory fails reports an ordinary
  error even when the removal has completed. So an ordinary error does not always mean that
  journal and bytes are unchanged. `ArtifactRepository.Remove` and `RecoverRemoval` state the
  exact condition on their inputs, for every set of faults, and
  `RepositoryCases.CompletedRemovalReportedAsError` is a concrete call.
- Recovering a removal whose bytes are already gone needs room for one more directory entry
  than removing present bytes does. `Removable` in `Removal.dfy` is the exact condition, and
  `RepositoryCases.RecoveryRefusedAtCapacity` is a concrete run in which a recovery without
  any fault is refused.
- An import that stops between linking its file and dropping the staged name leaves an orphan
  with two links. Reconciling that orphan is refused until an import clears the staging area:
  `ArtifactImport.ReconcilesIffRegistrable` is the exact condition and
  `RepositoryCases.OrphanRefusedUntilImported` a concrete run.
- A current generation can come to have two links. An import drops its staged name and stops
  before synchronizing the staging directory; the next import finds nothing to clear, so it
  synchronizes nothing, and registers the file; losing power then brings the staged name back.
  Until another import, every lease and every removal of that generation is refused:
  `RepositoryCases.CurrentRefusedUntilImported`. Without losing power this never happens, and
  every power loss is harmless exactly when no staged file that may be on disk is a link to
  bytes that a current generation or a pending removal refers to
  (`LinkSafety.OwnedHasOneLink`, `LinkSafety.PowerLossKeepsLinksIff`).
- If only processes stop, rerunning an interrupted import converges from any idle storage. If
  power may be lost, it does so exactly when the storage it started from was durable and no
  more than 1024 staged names come back: `ImportRecovery.ConvergesIffDurable`,
  `ImportRecovery.InterruptedImportConverges`. At most one name can come back per attempt, but
  over enough attempts they can pile up: `ImportRecovery.FewAttemptsConverge`,
  `ImportRecovery.ConvergenceCanFail`.
- Four checks in the catalog walk can never fail: the recheck of the running entry count, the
  checked addition of bytes, the final validation of a document's path, and the refusal of
  excessive input by the inspection of bytes already read. The first three appear as assertions
  in `DocumentCatalog.WalkOne` and `DocumentCatalog.VisitDocument`, the last as a clause of
  `DocumentCatalog.InspectDocument`.
- Valid JSON is displayed free of terminal-affecting characters exactly when no tab and no
  carriage return stands outside its strings; `JsonGrammar.TabOutsideIsShown` is a text that
  is not. A pretty printer that indents with spaces writes neither.

## Model

| member | source | states |
|---|---|---|
| `StateStore.ReadSucceeds` | crates/model-store/src/store/removal.rs:117-141 | Reading an artifact's state from an intact store never fails and returns exactly its current generation and journal |
| `StateStore.TransactionKeepsIntegrity` | crates/model-store/src/store.rs:135-234 | Registering, preparing, completing, activating and deactivating each keep every artifact's rows valid and every active binding on a current installation |
| `StateStore.TransactionKeepsRetired` | crates/model-store/src/store/removal.rs:160-270 | A generation once removed stays removed under every transaction, reinstallation included |
| `StateStore.RetiredIsDead` | crates/model-store/src/store/removal.rs:273-301 | A removed generation is neither current nor pending, and any current generation of the artifact is newer |
| `StateStore.RegistrationTable` | crates/model-store/src/store.rs:135-234 | Each answer of a registration by its exact condition on manifest, record and rows; the generation issued is the current one if there is one, 1 if the artifact was never removed and otherwise one more than the removed one, and is new exactly when none was current; nothing else in the store changes |
| `StateStore.PreparationTable` | crates/model-store/src/store/removal.rs:160-228 | Each answer of preparing a removal by its exact condition, and the rows it leaves |
| `StateStore.CompletionTable` | crates/model-store/src/store/removal.rs:230-270 | Each answer of completing a removal by its exact condition, and the rows it leaves |
| `StateStore.ActivationTable` | crates/model-store/src/store.rs:319-395 | Each answer of activating an installation by its exact condition, and the bindings it leaves |
| `StateStore.DeactivationTable` | crates/model-store/src/store.rs:397-429 | Deactivating takes away the binding of that role and nothing else, and is refused exactly when there is none |
| `GenerationLaw.GenerationsCountRemovals` | crates/model-store/src/removal.rs:28-34 | From an empty store, at every point of every run, a current generation has the number of removals of its artifact prepared so far plus one, and a journaled one that number |
| `Artifacts.InstalledFromIsValid` | crates/app/src/artifact_reconciliation.rs:183-190 | The record that import and reconciliation write always passes the store's validation, with the canonical storage key |
| `LifecycleSafety.StepKeeps` | crates/app/src/artifact_removal.rs:244-299 | Every step of every operation, every stop and every power loss keeps the invariant tying authority, visible bytes, bytes on disk, staged files and what each process has learnt |
| `LifecycleSafety.CurrentHasExactBytes` | crates/app/src/artifact_import.rs:198-234 | In every reachable state a current installation has its file present, visibly and on disk, with exact digest and size |
| `LifecycleSafety.LeaseSafety` | crates/app/src/runtime_artifact_lease.rs:42-96 | While a lease on a generation is held, in any run, that generation is current and its exact bytes are present, whatever other processes attempt |
| `LifecycleSafety.CompletedOnlyWhenDurablyAbsent` | crates/app/src/artifact_removal.rs:250-298 | The journal becomes completed only by the removal's last step, at a moment when the file is absent both visibly and on disk |
| `LifecycleSafety.BytesDisappearOnlyByRemoval` | crates/app/src/artifact_removal.rs:244-273 | A visible file disappears only when its artifact has no current installation, and then only under a prepared removal of exactly the requested generation, or by a power loss before it reached the disk |
| `LifecycleSafety.RetiredStaysRetired` | crates/model-store/src/removal.rs:28-34 | Over any stretch of any run a removed generation number stays removed |
| `LifecycleSafety.RemovedGenerationStaysRemoved` | crates/app/src/artifact_removal.rs:95-116 | After a generation's removal completed, it is never current or prepared again, at any later point of the run |
| `LifecycleSafety.NoAbaDeletion` | crates/app/src/artifact_removal.rs:95-116 | Across any history of removals and reinstalls, a process asked to remove a generation that was already removed can take no step at all, so it never touches a newer installation |
| `LifecycleSafety.PendingRemovalRefusesInstall` | crates/app/src/artifact_import.rs:139-150 | While a removal is prepared, an import or reconciliation of that artifact can do nothing but clear the staging directory |
| `LinkSafety.SelectedHasOneLink` | crates/app/src/artifact_storage/verification.rs:121-124 | When all owned bytes have one link, the aliased refusal strikes neither a lease of a current generation nor a removal of a current or prepared one |
| `LinkSafety.LinkReturns` | crates/app/src/artifact_import/staged.rs:78-91 | A staged link to owned bytes that may be on disk has a power loss that brings it back |
| `LinkSafety.PowerLossKeepsLinksIff` | crates/app/src/artifact_import/staged.rs:78-91 | Every power loss leaves all owned bytes with one link exactly when no staged file that may be on disk is a link to owned bytes that are visible or on disk |
| `LinkSafety.OwnedHasOneLink` | crates/app/src/artifact_storage/verification.rs:121-124 | In every run in which no power is lost while a staged link to owned bytes may be on disk, in particular without losing power, the bytes that current generations and pending removals refer to have one link at every point |
| `LinkSafety.OnlyRegistrationExposes` | crates/app/src/artifact_import.rs:209-235 | The only step after which losing power could bring back a second link to owned bytes, where it could not before, is registering a name that a staged file on disk may be a link to |
| `ManagedStorage.ManagedStorage.constructor` | crates/app/src/artifact_storage/existing.rs:37-68 | Fresh storage over any existing files starts a run of the protocol |
| `ManagedStorage.ManagedStorage.TryLock` | crates/app/src/artifact_storage/existing.rs:37-68 | The shared lock is granted unless held exclusively, the exclusive one unless held at all; a refusal changes nothing |
| `ManagedStorage.ManagedStorage.Unlock` | crates/app/src/artifact_storage/existing.rs:37-68 | Releasing the lock ends exactly one process and extends the run |
| `ManagedStorage.ManagedStorage.LosePower` | crates/app/src/artifact_import/staged.rs:78-91 | Losing power at any point extends the run: everybody stops, and both directories come back in any way that unsynchronized changes allow |
| `ManagedStorage.ManagedStorage.HoldsInvariant` | crates/app/src/artifact_storage/existing.rs:86-113 | The protocol invariant holds of the storage object at every point between two assignments |
| `ManagedStorage.Verify` | crates/app/src/artifact_storage/verification.rs:98-165 | Verification succeeds exactly when the named file is exact, has one link and the directory is within its entry limit, and reports absence exactly when it is absent with an entry to spare |
| `ArtifactRemoval.Remove` | crates/app/src/artifact_removal.rs:53-182 | For every set of faults and every moment of cancellation, every answer and every error by its exact condition on the inputs, and the directory left; a removal already done is answered as such exactly when the limits and the selection are valid, the storage idle, the journal completed for that generation and nothing failed before it was read; a call that is alone, undisturbed and has valid limits succeeds exactly on a removable selection; each outcome describes durable state: success is completed and absent, recovery-required is still prepared, any other error changed neither journal nor bytes; nothing but the selected artifact is touched |
| `ArtifactRemoval.SucceedsExactly` | crates/app/src/artifact_removal.rs:79-182 | In reachable storage and for every set of faults, a call removes exactly when the selection is current, inactive, within limits, its file has one link and no fault or cancellation hinders it, and recovers exactly when it is prepared, within limits, its file if present has one link and no fault on its path occurs, which depends on whether the bytes are still there |
| `ArtifactRemoval.RemovalIsAnswered` | crates/app/src/artifact_removal.rs:53-182 | In reachable storage each of the three successes and each error of a removal, with the cause a pending recovery carries, happens exactly under its own condition |
| `ArtifactRemoval.UndisturbedSucceeds` | crates/app/src/artifact_removal.rs:79-182 | Alone and undisturbed, a removal succeeds exactly on a removable selection: one already removed, one pending or one current that fits the limits |
| `ArtifactRemoval.RemoveLocked` | crates/app/src/artifact_removal.rs:79-182 | The same under the lock already taken |
| `ArtifactRemoval.SelectGeneration` | crates/app/src/artifact_removal.rs:88-126 | Distinguishes a completed, a prepared and a current generation and refuses every other, each answer and each error by its exact condition, without changing store or bytes |
| `ArtifactRemoval.VerifyForRemoval` | crates/app/src/artifact_removal.rs:197-242 | Proceeds with bytes known to be exact under one link, or, in recovery only, known to be absent; otherwise the error is the one that faults, entry count, second links and cancellation determine |
| `ArtifactRemoval.PrepareState` | crates/app/src/artifact_removal.rs:184-195 | The journal becomes prepared while the bytes are still there, or nothing changes |
| `ArtifactRemoval.FinishPrepared` | crates/app/src/artifact_removal.rs:244-299 | From a prepared journal every failure is recovery-required, with the cause its faults determine and the journal still prepared, and success is completed and durably absent |
| `ArtifactRemoval.UnlinkOrConfirm` | crates/app/src/artifact_removal.rs:250-273 | The selected file, and no other, is gone afterwards, or the journal stays prepared |
| `ArtifactRemoval.CompletionSucceeds` | crates/model-store/src/store/removal.rs:230-270 | Completing a prepared removal of a valid selection cannot be refused by the store |
| `ArtifactImport.Import` | crates/app/src/artifact_import.rs:68-236 | For every set of faults, every moment of cancellation and whatever the reads of the source deliver, each error by its exact condition on the inputs, and the directory left; success registers exactly one generation, the current one if there is one, 1 if the artifact was never removed, else the removed one plus one, new exactly when none was current, with its bytes on disk, and leaves the staging area empty, durably so unless the import neither cleared nor used it; failure leaves the store alone and may only add the exact imported file |
| `ArtifactImport.ImportsIffImportable` | crates/app/src/artifact_import.rs:127-236 | An import succeeds exactly when the manifest is valid and within limits, the source matches it, stored bytes if any are exact, one more entry fits if needed, the staging directory can be cleared, the store accepts the registration and nothing on the path taken fails or is cancelled; the path depends on whether there are stale files and whether the file is there |
| `ArtifactImport.ImportIsAnswered` | crates/app/src/artifact_import.rs:68-236 | In reachable storage each error of an import happens exactly under its own condition on request, staging area, directory, source, store and faults, and success exactly when none does |
| `ArtifactImport.ReconcileIsAnswered` | crates/app/src/artifact_reconciliation.rs:66-145 | The same for a reconciliation |
| `ArtifactImport.ImportLocked` | crates/app/src/artifact_import.rs:127-236 | The same under the lock already taken |
| `ArtifactImport.CheckRequest` | crates/app/src/artifact_import.rs:136-150 | A request is refused exactly for cancellation, a changed layout, an invalid manifest, excessive size, an unreadable state or a prepared removal of its artifact, in that order |
| `ArtifactImport.Place` | crates/app/src/artifact_import.rs:157-207 | The file is in place and synchronized afterwards, or the refusal is the one that source, directory and faults determine; whether a file was linked is determined too |
| `ArtifactImport.Adopt` | crates/app/src/artifact_import.rs:163-197 | When a file with the digest is already there the source is only compared, and nothing is written |
| `ArtifactImport.Stage` | crates/app/src/artifact_import.rs:173-196 | The staged copy is the whole source with the manifest's size and digest, or staging is refused for the determined reason |
| `ArtifactImport.CopyToStaging` | crates/app/src/artifact_import.rs:417-452 | However reads are chunked, each chunk written is a step of the protocol leaving a prefix of the source no longer than expected; the result is the one the reads determine |
| `ArtifactImport.CommitStaged` | crates/app/src/artifact_import.rs:238-290 | The staged bytes are synchronized, then linked, then the directory is synchronized, then the staged name removed, then the staging directory synchronized; which of them happens is determined by the faults |
| `ArtifactImport.CleanUp` | crates/app/src/artifact_import/staged.rs:78-91 | The staged name is removed and only then is the staging directory synchronized; success means that the name is gone for good |
| `ArtifactImport.RecoverStaging` | crates/app/src/artifact_storage/mutation.rs:436-466 | Stale staged files are cleared when there are not too many and none resists; they are gone for good if there were any, and nothing is synchronized if there were none |
| `ArtifactImport.UnstageAll` | crates/app/src/artifact_storage/mutation.rs:436-466 | Stale files are removed one by one, each as a step of the protocol, until one cannot be removed |
| `ArtifactImport.VerifyAndRegister` | crates/app/src/artifact_import.rs:209-235 | Registration happens only for bytes verified exact and synchronized; otherwise the store is unchanged |
| `ArtifactImport.RegisterState` | crates/model-store/src/store.rs:135-234 | Registering makes the manifest and its generation current, numbered as for Import, and touches no other row, or leaves the store as it was |
| `ArtifactImport.Reconcile` | crates/app/src/artifact_reconciliation.rs:66-145 | Registers bytes already in storage under the generation numbered as for Import, never adds or removes a file; for every set of faults and every moment of cancellation each error by its exact condition on manifest, store, directory and second links |
| `ArtifactImport.ReconcilesIffRegistrable` | crates/app/src/artifact_reconciliation.rs:66-145 | A reconciliation succeeds exactly when exact bytes are present under one link and are registrable and nothing fails or is cancelled |
| `ArtifactImport.PendingRefuses` | crates/app/src/artifact_reconciliation.rs:78-89 | The store refuses to register an artifact whose removal is prepared |
| `ImportRecovery.AttemptsProgress` | crates/app/src/artifact_import.rs:100-236 | After any sequence of interrupted attempts at one import from any idle storage, the store is as it was or has exactly that artifact registered, and the directory is as it was, has the file added or has it synchronized; with power losses the same holds up to files that an uninterrupted import would restore, from durable storage |
| `ImportRecovery.InterruptedImportConverges` | crates/app/src/artifact_import.rs:127-236 | Wherever the attempts stopped, an import that would have succeeded at first still succeeds and ends in the same store and directory: always, from any idle storage, if only processes stop; from durable storage, exactly if no more staged files came back than one recovery may clear, if power may be lost |
| `ImportRecovery.PowerLossBreaks` | crates/app/src/artifact_import.rs:238-290 | From storage that is not durable there is a power loss after which the rerun fails or ends elsewhere |
| `ImportRecovery.ConvergesIffDurable` | crates/app/src/artifact_import.rs:127-290 | If power may be lost, every rerun whose staging directory can be cleared converges exactly when all files an uninterrupted import leaves were already on disk with their final bytes, the imported one excepted if it is missing |
| `ImportRecovery.FewAttemptsConverge` | crates/app/src/artifact_storage/mutation.rs:436-466 | From durable storage the rerun converges as long as the attempts, added to the staged names that could come back at the start, are at most 1024 |
| `ImportRecovery.ConvergenceCanFail` | crates/app/src/artifact_storage/mutation.rs:436-466 | From any idle storage without staged files, an import of new bytes has a run of interrupted attempts and one power loss after which the rerun is refused, because more staged names came back than may be cleared |
| `ImportRecovery.PutIsIdempotent` | crates/model-store/src/store.rs:135-234 | Registering twice is registering once, and a second registration is accepted if the first was |
| `RuntimeArtifactLease.Acquire` | crates/app/src/runtime_artifact_lease.rs:42-96 | A granted lease holds the shared lock on a current generation with exact bytes; a refused one leaves no process behind; storage never changes; for every set of faults each refusal by its exact condition on limits, storage key, currency, entry count, second links, lock and faults, and a lease is granted exactly when none of them stands in the way |
| `RuntimeArtifactLease.Confirm` | crates/app/src/runtime_artifact_lease.rs:64-96 | The generation is checked before and after its bytes are verified; the check is refused exactly for a fault, a generation that is not current, cancellation, a directory over its entry limit or a second link, in the order of the source |
| `RuntimeArtifactLease.Release` | crates/app/src/runtime_artifact_lease.rs:24-32 | Dropping a lease ends exactly that process |
| `ArtifactRepository.Remove` | crates/app/src/artifact_repository.rs:250-292 | Never reports a recovery; for every set of faults each answer by its exact condition: from the rows alone when the key is journaled, not installed or stale, and otherwise the removal's own answer; a failed final recheck replaces every answer but a pending recovery; it removes exactly when the key names a current generation that is removable, its one link included, and unhindered; an ordinary error leaves journal and bytes alone exactly unless the final recheck failed and that condition holds |
| `ArtifactRepository.RecoverRemoval` | crates/app/src/artifact_repository.rs:303-346 | Never reports a fresh removal; for every set of faults each answer by its exact condition, from the rows alone when nothing is pending, the key is stale or the removal is completed; it recovers exactly when the key names a prepared removal that is removable and unhindered; ordinary errors as for Remove |
| `RepositoryCases.CompletedRemovalReportedAsError` | crates/app/src/artifact_repository/guard.rs:128-143 | A concrete import and removal after which the caller holds an ordinary error while journal and bytes say removed |
| `RepositoryCases.RecoveryRefusedAtCapacity` | crates/app/src/artifact_storage/mutation.rs:199-214 | A concrete run with room for one entry in which a removal that only failed to synchronize cannot be recovered, without any fault, once another artifact took the entry |
| `RepositoryCases.OrphanRefusedUntilImported` | crates/app/src/artifact_storage/verification.rs:121-124 | A concrete interrupted import whose exact orphan is refused by reconciliation as changed storage, and registered by importing again |
| `RepositoryCases.StagedNameReturns` | crates/app/src/artifact_import/staged.rs:78-91 | A concrete run of two imports and a power loss after which a current generation has two links |
| `RepositoryCases.CurrentRefusedUntilImported` | crates/app/src/runtime_artifact_lease.rs:105-113 | In the storage of StagedNameReturns a lease and a removal without any fault are both refused; importing again clears the staging directory, and the generation can be leased |
| `ArtifactRepository.JournalAndCurrentDiffer` | crates/model-store/src/store/removal.rs:273-301 | When an artifact has both a journal and a current generation, the journal is completed and the current generation is newer |
| `ReviewOperation.DocumentReviewOperation.constructor` | crates/app/src/document_review_operation.rs:55-82 | A new bridge is idle, with no history |
| `ReviewOperation.DocumentReviewOperation.Submit` | crates/app/src/document_review_operation.rs:84-123 | Each answer by its exact condition on identities, contention, poisoning and shutdown; an accepted request supersedes and cancels the previous one under the next identity and empties the mailbox; a refused one leaves the bridge unchanged and is handed back |
| `ReviewOperation.DocumentReviewOperation.Cancel` | crates/app/src/document_review_operation.rs:127-132 | Only the cancellation of the latest operation changes |
| `ReviewOperation.DocumentReviewOperation.Poll` | crates/app/src/document_review_operation.rs:138-176 | Each answer by its exact condition: busy or stopped when the mailbox cannot be had, cancellation when the latest operation was cancelled, else what was published for it, else stopped on a stopped bridge, else nothing; what was handed out is forgotten with its operation and a stale completion is dropped |
| `ReviewOperation.DocumentReviewOperation.Shutdown` | crates/app/src/document_review_operation.rs:180-184 | Cancels the latest operation and stops accepting, leaving history alone |
| `ReviewSafety.StepKeeps` | crates/app/src/document_review_operation/worker.rs:45-86 | Every step of owner and worker, in any order, keeps the bridge's invariant |
| `ReviewSafety.AtMostOneCompletion` | crates/app/src/document_review_operation.rs:138-176 | A completion carries an accepted request's identity exactly when it is the very next event, so each request has at most one and a superseded one has none |
| `ReviewSafety.IdentitiesIncrease` | crates/app/src/document_review_operation.rs:84-123 | Accepted identities are positive and strictly increase over every run |
| `ReviewSafety.CancelledNeverSucceeds` | crates/app/src/document_review_operation.rs:127-176 | A cancelled operation reports cancellation at every later poll, whatever its worker finished |
| `ReviewSafety.EvidenceAnswersItsRequest` | crates/app/src/document_review_operation/worker.rs:45-86 | Evidence handed out was produced by reviewing exactly the request accepted just before |
| `ReviewSafety.MailboxHoldsOnlyLatest` | crates/app/src/document_review_operation/worker.rs:45-86 | With the worker as written, the mailbox never holds a stale completion, nor one beside a pending request |
| `ReviewSafety.PublishedIsDelivered` | crates/app/src/document_review_operation.rs:138-176 | A published, uncancelled completion is delivered unchanged by the next poll that gets the mailbox |
| `ReviewSafety.RunAttends` | crates/app/src/document_review_operation/worker.rs:45-86 | With the worker as written no accepted operation is forgotten: unless it was cancelled or the mailbox poisoned, the latest one is pending, being worked on or published, or the worker is gone |
| `ReviewSafety.NothingMeansUnderWay` | crates/app/src/document_review_operation.rs:138-176 | In every reachable state with a latest operation, a poll that gets the mailbox has nothing to hand out exactly when the operation was not cancelled, the bridge neither stopped nor poisoned and nothing was published; its work is then waiting or under way or its worker gone |
| `ReviewSafety.StoppedIsAnswered` | crates/app/src/document_review_operation.rs:159-166 | In every reachable state that is stopped with a latest operation, the next poll that gets the mailbox answers it, with cancellation, with what was finished or with stopped, and then nothing is latest |
| `ReviewSafety.StoppedStandsStill` | crates/app/src/document_review_operation/worker.rs:21-43 | After the bridge stopped nothing is accepted or finished any more, the one completion stays until polled, and at most one more event happens |
| `ReviewState.DocumentReviewState.Submit` | crates/app/src/document_review_state.rs:81-95 | The reducer moves to loading under the accepted identity with the sizes of the accepted inputs, or stays exactly as it was; each answer as for the bridge |
| `ReviewState.DocumentReviewState.Cancel` | crates/app/src/document_review_state.rs:99-104 | Cancellation is recorded only while loading and passed to the bridge |
| `ReviewState.DocumentReviewState.Poll` | crates/app/src/document_review_state.rs:112-127 | A loading review takes over exactly the completion of its own operation, ready, cancelled or failed by exact conditions, and fails with a poisoned bridge; every other poll leaves it alone |
| `ReviewState.DocumentReviewState.Settle` | crates/app/src/document_review_state.rs:129-144 | A completion is accepted exactly when the reducer awaits its identity, and settles it as ready, cancelled or failed |
| `ReviewState.RunAgrees` | crates/app/src/document_review_state.rs:81-144 | Reducer and bridge agree in every reachable state |
| `ReviewState.LoadingTracksLatest` | crates/app/src/document_review_state.rs:112-144 | While loading, the bridge's latest identity is the reducer's, and every completion a poll delivers is accepted |
| `ReviewState.ReadyShowsLatest` | crates/app/src/document_review_state.rs:129-144 | Evidence shown as ready belongs to the latest accepted request |
| `ReviewState.DisplayFollowsHistory` | crates/app/src/document_review_state.rs:81-144 | In every reachable state what is shown follows from the history: nothing before the first request, the outcome of the last completion once polled, and loading or a broken bridge in between, always with the sizes of the latest accepted inputs |
| `ReviewState.StoppedSettles` | crates/app/src/document_review_state.rs:106-127 | In every reachable state with a stopped or poisoned bridge, one poll that gets the mailbox leaves nothing loading, with the outcome that cancellation and the mailbox determine |
| `ReviewState.SettledForGood` | crates/app/src/document_review_state.rs:106-144 | Once the bridge has stopped and nothing is loading, the display never changes again |
| `ReviewState.CancelledReviewIsNeverReady` | crates/app/src/document_review_state.rs:99-144 | A review cancelled while loading is at no later point shown ready under the same identity |
| `Sorting.SortedIsUnique` | crates/app/src/document_catalog.rs:218-227 | Two ordered arrangements of the same elements are equal when the order tells them apart |
| `Sorting.LexIsPrecedes` | crates/app/src/document_catalog.rs:218-227 | The order of two sequences is that the first is a prefix of the second or smaller where they first differ |
| `CatalogTree.AcceptedIsPortable` | crates/app/src/document_selection.rs:15-26 | A relative path is accepted exactly when each of its components is a portable name |
| `CatalogTree.ClassificationTable` | crates/app/src/document_catalog.rs:355-423 | Which entries become documents, directories to enter, or skipped entries of each reason: links are never followed and hidden or ignored directories never entered |
| `CatalogTree.RelativeExtends` | crates/app/src/document_catalog.rs:425-431 | Joining a portable name to a visible path gives an accepted path with exactly one more component |
| `CatalogTree.VisitIgnoresOrder` | crates/app/src/document_catalog.rs:335-353 | What a directory contributes does not depend on the order in which its entries are listed |
| `CatalogTree.PathsAreGood` | crates/app/src/document_catalog.rs:355-431 | Every reported path is an accepted path below its directory with visible parents and at most depth + 1 components, and documents have no hidden or ignored component |
| `CatalogPaths.ReportsAreExclusive` | crates/app/src/document_catalog.rs:262-331 | In a tree with distinct names no path is reported twice: each names one document or one skipped entry |
| `CatalogReach.ReportsExactly` | crates/app/src/document_catalog.rs:262-331 | A document is reported exactly when it is a visible regular child of a directory reached from the root by at most as many visible names as the depth limit, or of the root itself without recursion; a directory is skipped as a directory exactly without recursion, for its depth exactly in a directory at the limit; likewise every other reason; and a document that cannot be read whole is met exactly when one is reachable |
| `DocumentCatalog.ReadSortedEntries` | crates/app/src/document_catalog.rs:335-353 | A complete listing is returned exactly when it fits the remaining entry budget, with each name a prefix of every later one or smaller at the first differing byte; otherwise the limit is reported |
| `DocumentCatalog.InspectDocument` | crates/app/src/document_catalog.rs:272-303 | A document is read whole within budget and inspected; the limit error means its reported length exceeds what remains, the input error that it cannot be read whole, cancellation that a poll of the inspection saw it, and an intake refusal never happens |
| `DocumentCatalog.InspectBytes` | crates/app/src/document_intake.rs:82-108 | The inspection of bytes is cancelled exactly when one of its polls saw it, and refuses exactly bytes above the plain-text ceiling |
| `DocumentCatalog.VisitDocument` | crates/app/src/document_catalog.rs:267-303 | One document is added with exactly its bytes, or the budget or the file is at fault |
| `DocumentCatalog.VisitEntry` | crates/app/src/document_catalog.rs:263-331 | Each entry becomes exactly one document, skipped entry or pending directory, and adds to the account exactly what the recursive reading says |
| `DocumentCatalog.VisitEntries` | crates/app/src/document_catalog.rs:262-331 | The entries of one directory add exactly what the recursive reading of that directory says |
| `DocumentCatalog.WalkOne` | crates/app/src/document_catalog.rs:252-331 | One directory read keeps found plus reachable equal to the whole tree, or fails for a reason in the tree |
| `DocumentCatalog.Walk` | crates/app/src/document_catalog.rs:235-333 | Terminates on any file system with at most entries + 1 directory reads and every entry accounted for; on an unchanging tree the result is the recursive reading and each error has its cause in the tree |
| `DocumentCatalog.Discover` | crates/app/src/document_catalog.rs:185-232 | Cancelled exactly when a poll saw cancellation; on any file system a result has good paths, its entries together with the directories entered and its bytes are within their limits, each document path is a prefix of every later one or has the smaller character where they first differ, and skipped entries are ordered likewise, missing paths first and equal ones by reason; on an unchanging tree it succeeds exactly when the tree fits, and then lists exactly what is reachable under recursion and depth, and it fails for the input only over a reachable document that cannot be read whole |
| `DocumentCatalog.CatalogIsDetermined` | crates/app/src/document_catalog.rs:218-231 | The catalog of a tree is unique, whatever the listing order and the order of the worklist |
| `DocumentCatalog.CatalogPathsAreUnique` | crates/app/src/document_catalog.rs:262-331 | No two documents, no two skipped entries and no document and skipped entry of a catalog share a path |
| `TerminalText.EscapeText` | crates/cli/src/render.rs:51-68 | The loop computes the character-wise escape that the lemmas below are about |
| `TerminalText.EscapedIsPlain` | crates/cli/src/render.rs:51-68 | Escaped text holds no terminal-affecting character, and a line feed only in document mode |
| `TerminalText.EscapeNamesCharacter` | crates/cli/src/render.rs:51-68 | Each shown form by its exact condition: five characters have a form of their own, every other one that does not pass through is shown as its code in braces, in unpadded hexadecimal |
| `TerminalText.UnchangedIffPlain` | crates/cli/src/render.rs:51-68 | Text is left as it is exactly when every character of it is plain in that mode |
| `TerminalText.InlineChangesIffEffect` | crates/cli/src/render.rs:24-28 | Inline mode changes a text exactly when it contains a terminal effect |
| `TerminalText.EscapeIsIdempotent` | crates/cli/src/render.rs:51-68 | Escaping twice is escaping once |
| `TerminalText.EscapeDistributes` | crates/cli/src/render.rs:51-68 | Escaping a concatenation is concatenating the escapes |
| `TerminalText.DocumentModeIsInlinePerLine` | crates/cli/src/render.rs:11-20 | Document mode is inline mode applied to each line, so lines and line feeds are kept |
| `JsonDisplay.AppendUnicodeEscape` | crates/cli/src/render.rs:105-110 | Appends one escape per UTF-16 unit of the character and nothing else |
| `JsonDisplay.EscapesAreRead` | crates/cli/src/render.rs:105-110 | A JSON reader decodes the escapes of a character as its UTF-16 form, surrogate pairs included, whatever follows |
| `JsonDisplay.EscapeForDisplay` | crates/cli/src/render.rs:70-103 | The loop with its two flags computes the mode machine that the lemmas below are about |
| `JsonDisplay.StringIsPreserved` | crates/cli/src/render.rs:70-103 | Escaper and JSON lexer stay in step: same decoded units, and both leave the literal at the same closing quote |
| `JsonDisplay.TokensArePreserved` | crates/cli/src/render.rs:70-103 | Every text a JSON lexer accepts is displayed as a text with the same tokens |
| `JsonDisplay.ValueIsPreserved` | crates/cli/src/render.rs:30-39 | Valid JSON is displayed as valid JSON with the same value |
| `JsonDisplay.SafeIffOutsideIsSafe` | crates/cli/src/render.rs:70-141 | The displayed text is free of terminal-affecting characters exactly when the original has none outside its strings |
| `JsonDisplay.DisplayIsIdempotent` | crates/cli/src/render.rs:70-103 | Displaying any text twice is displaying it once |
| `JsonGrammar.ValidJsonIsShownSafely` | crates/cli/src/render.rs:30-39 | Valid JSON is shown safely exactly when no tab and no carriage return stands outside its strings |
| `JsonGrammar.TabOutsideIsShown` | crates/cli/src/render.rs:70-103 | A valid JSON text with a tab before its value is displayed unsafely |
| `ArtifactInventory.StatesAreConserved` | crates/app/src/artifact_inventory.rs:195-242 | Registered, pending and manifest-only states add up to all states, and their manifests are together exactly the manifests of the states |
| `ArtifactInventory.EntriesAreConserved` | crates/app/src/artifact_inventory.rs:296-361 | The sizes of the nine classes of storage entries add up to the number of entries |
| `ArtifactInventory.EntryTable` | crates/app/src/artifact_inventory.rs:308-359 | Each class of storage entries by its exact condition on name, claim, kind, links, size and observed digest |
| `ArtifactInventory.FindingTable` | crates/app/src/artifact_inventory.rs:257-294 | Each finding about installed bytes by its exact condition: a key that is not canonical, no entry of that name, and otherwise what the first such entry shows; verified exactly when it is direct, regular, singly linked, of the installed size, within the limit and observed with the digest; sizes and digests carried are the observed ones |
| `ArtifactInventory.ClassTable` | crates/app/src/artifact_inventory.rs:296-361 | Each class of storage entries by its exact condition, ownership included: a canonical current generation, or without one a pending removal, has the name |
| `ArtifactInventory.AssociationTable` | crates/app/src/artifact_inventory.rs:392-402 | An orphan is associated with the last manifest that names its digest, matching exactly when the size agrees, and with none exactly when there is none |
| `ArtifactInventory.ReportsTabulate` | crates/app/src/artifact_inventory.rs:71-122 | Every list of a report holds, in order, exactly the states or entries of its class with the findings and associations they deserve, every counter counts its class, and the verified bytes are exactly those of the installations compared, the orphans and the conflicts |
| `ArtifactInventory.ReportsConserve` | crates/app/src/artifact_inventory.rs:71-122 | An exact report of sound states conserves them: its state lists hold each manifest once, and its entry lists, its five counters and the claimed entries add up to the entries seen |
| `ArtifactInventory.NothingIsHashedTwice` | crates/app/src/artifact_inventory.rs:147-193 | With distinct digests and names, no entry is hashed twice in one inventory |
| `ArtifactInventory.TallyIsExact` | crates/app/src/artifact_inventory.rs:296-361 | Every vector and counter about unclaimed entries holds exactly its class, in order |
| `ArtifactInventory.ClaimedSetIsClaimed` | crates/app/src/artifact_inventory.rs:161-176 | The set of installed names is exactly the digests of canonical installed or prepared generations |
| `ArtifactInventory.InventoryBuilder.HashEntry` | crates/app/src/artifact_inventory.rs:376-390 | An entry is hashed and added to the byte total, or refused exactly when the total would exceed the limit, changing nothing |
| `ArtifactInventory.InventoryBuilder.ClassifyRegistered` | crates/app/src/artifact_inventory.rs:257-294 | The finding is the one whose exact condition holds of the installation and the listing, and its entry is hashed exactly when nothing else decides |
| `ArtifactInventory.InventoryBuilder.InspectRegistered` | crates/app/src/artifact_inventory.rs:195-242 | All states are inspected in order with exact findings, or the error has its cause in the states or the plan |
| `ArtifactInventory.InventoryBuilder.InspectEntry` | crates/app/src/artifact_inventory.rs:308-359 | One entry is counted in its class, and hashed exactly when its class needs it |
| `ArtifactInventory.InventoryBuilder.InspectUninstalled` | crates/app/src/artifact_inventory.rs:296-361 | All entries are counted in order, or the error has its cause in the plan |
| `ArtifactInventory.Inspect` | crates/app/src/artifact_inventory.rs:93-96 | Inspecting states, then entries, gives the exact report, or an error with its cause in the states or the plan, or the cancellation a poll saw |
| `ArtifactInventory.Inventory` | crates/app/src/artifact_inventory.rs:71-122 | A report is exact by its tables, every inspection included, conserves states and entries and adds up its bytes, and is within all limits on unchanged input without a state both installed and pending; it is cancelled exactly when a poll saw it; otherwise invalid limits, too many states and too many entries are refused as such, every other error has its cause in the input, and on sound, readable, unchanged input a report is produced exactly when the planned byte total is within the limit |
| `ExpectedTree.InsertExpectedFile` | crates/app/src/runtime_source_build_report.rs:380-401 | A file is inserted with its parent directories exactly when its path is free and no parent is a file |
| `ExpectedTree.BuildExpected` | crates/app/src/runtime_source_build_report.rs:354-365 | Construction succeeds exactly when paths are distinct and none is an ancestor of another, and gives the ancestor closure |
| `ExpectedTree.CompatibleIgnoresOrder` | crates/app/src/runtime_source_build_report.rs:354-365 | Whether construction succeeds does not depend on the order of the files |
| `ExpectedTree.AgreementIsExact` | crates/app/src/runtime_source_build_report.rs:366-377 | Equal size and agreement entry by entry leave no expected path missing |
| `ExpectedTree.ValidateOutputShape` | crates/app/src/runtime_source_build_report.rs:350-378 | Accepts exactly the trees that hold each expected file singly linked, each ancestor as a directory, and nothing else |
| `Streaming.CopyAndHash` | crates/app/src/artifact_import.rs:417-452 | However reads are chunked and whichever of them fail, the copy ends at the first read that decides it, with the result that read determines; an undisturbed copy succeeds exactly when the source has the expected length, with destination and digest of the whole; the destination never exceeds the expected size |
| `Streaming.UndisturbedCopy` | crates/app/src/artifact_import.rs:417-452 | The outcome of a copy whose reads all deliver depends on the length of the source alone |
| `Streaming.HashExactBytes` | crates/app/src/artifact_storage.rs:434-471 | However reads are chunked, an undisturbed hash succeeds exactly when the file has the expected length, with the digest of the whole |
| `ModelReference.ParseUndoesPrint` | crates/app/src/installed_ollama_import.rs:89-105 | Every valid reference is read back, part for part, from its shortest form |
| `ModelReference.PrintIsInjective` | crates/app/src/installed_ollama_import.rs:89-105 | Different valid references print differently |
| `ModelReference.PrintIsShortest` | crates/app/src/installed_ollama_import.rs:84-105 | No text that reads as the same reference is shorter than the printed one |
| `ModelReference.NoSeparators` | crates/app/src/installed_ollama_import.rs:291-302 | A valid component holds neither separator |
| `InstallationGeneration.ParseIffPrinted` | crates/cli/src/contract.rs:460-484 | A text parses to a generation exactly when it is the canonical decimal of that number and the number is from 1 to 2^63 - 1 |

## Left out

- Symbolic links, metadata fingerprints, permissions and Windows share modes in managed storage: layout checks are fault points; nothing but the modelled processes changes the directory.
- ManagedStorage.Verify: unsafe entries, and second links made by anything but an import, are not modelled, because only the modelled processes touch the directory.
- The repository's own data-directory lock and guard: only the outcome of its final recheck is a parameter.
- Store internals (SQLite, schema, encoding), the log of activation decisions, and qualification evidence: transactions are atomic functions, and the outcome of the evidence checks is a parameter of activation.
- Bindings changing in the middle of a service method: activation interleaves with every protocol step in `Lifecycle`, but a single service method runs against a store no other caller changes meanwhile.
- Branches of removal that the lock makes unreachable (an already completed answer from preparation, a capacity recheck that differs from the first): they are not separate cases of the methods.
- Contents of staged files after losing power: they may be anything, because they are never read again.
- Whether a staged file and an artifact that both survive losing power still share their link: the model allows both answers.
- Progress callbacks, and the mapping of errors to report categories; import and reconciliation share one error type here.
- Artifact sets: their removal deletes a tree in several steps, which is not one atomic unlink.
- The worker's waiting and waking: a worker step may happen at any moment it is enabled; that it eventually happens is not claimed.
- Metadata sidecars and encoding classification of catalogued documents, and lookup of counterparts by path: a catalog entry holds its path and bytes.
- DocumentCatalog.InspectBytes: what the inspection observes is not modelled, only its refusals and its polls, of which the sidecar scan takes a fixed number.
- ArtifactInventory.Inventory: the shared lock and the layout rechecks are not modelled; both listings are given, before and after.
- DocumentCatalog.ReadSortedEntries: compares platform file names by their bytes, which is the order used outside Windows.
- Streaming.CopyAndHash: the hasher is concatenation of the pieces followed by one hash; the 64-bit overflow check is subsumed by the comparison with the expected size.
- ArtifactInventory.InventoryBuilder.HashEntry: counters are unbounded, because saturation cannot be reached by a directory listing that fits in memory.
- The pretty printer of the JSON library: only what is done to its output.
- SHA-256, the text adapter, the rewrite engine, lint rules, command-line parsing and drawing.
