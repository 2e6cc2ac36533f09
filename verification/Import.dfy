/**
 Offline import of one artifact file, and reconciliation of an orphan already in storage.

 An import copies and hashes the source into a staging file, links it under its digest,
 synchronizes the directory, re-verifies what was linked, and only then registers it. A
 reconciliation verifies and registers bytes that are already there.
 */
module ArtifactImport {
  import opened Text
  import opened Artifacts
  import opened StateStore
  import opened Lifecycle
  import opened LifecycleSafety
  import opened ManagedStorage
  import Streaming

  const MAX_RECOVERY_ENTRIES: nat := 1024

  datatype ImportError =
    | InvalidLimits | StorageInUse | StorageFailed | StorageChanged | StorageConflict | StorageEntryLimitExceeded
    | Cancelled | InvalidManifest | ArtifactTooLarge(actual: nat, maximum: nat) | OrphanNotFound
    | RemovalPending(selection: Option<Installation>) | SizeMismatch | DigestMismatch | SourceFailed
    | StateFailed(error: StoreError)

  /** `UnstageFails(n)` keeps a stale staged file from being removed after `n` others were.
      `CleanupFails` leaves this import's staged name in place, also when it is tried again on
      giving up; `SyncStagingFails` removes the name without synchronizing. */
  datatype Fault =
    | OpenFails | RecoveryFails | UnstageFails(removed: nat) | UnstageSyncFails
    | LayoutChanges | ReadFails | SourceFails | LookupFails | CreateFails
    | SyncStagedFails | LinkFails | SyncLinkFails | CleanupFails | SyncStagingFails
    | VerifyFails | SyncFileFails | SyncDirectoryFails | LayoutChangesLater | RegisterFails

  /** `pieces` says what happens at each read of the source, cancellation there included;
      `cancelledFrom` is the number of the first other cancellation check that sees the request. */
  datatype Conditions = Conditions(faults: set<Fault>, cancelledFrom: nat, pieces: nat -> Streaming.Event)

  const CANCELLATION_CHECKS: nat := 6

  predicate Cancelling(conditions: Conditions, check: nat) {
    conditions.cancelledFrom <= check
  }

  ghost predicate FaultFree(conditions: Conditions) {
    && conditions.faults == {} && conditions.cancelledFrom >= CANCELLATION_CHECKS
    && forall n :: Streaming.Undisturbed(conditions.pieces, n)
  }

  function MapStreamError(error: Streaming.StreamError): ImportError {
    match error
    case Cancelled => ImportError.Cancelled
    case IoFailed => SourceFailed
    case SizeMismatch => ImportError.SizeMismatch
    case ConcurrentModification => StorageChanged
  }

  function MapStoreError(error: StoreError): ImportError {
    if error == StoreError.RemovalPending then ImportError.RemovalPending(None) else StateFailed(error)
  }

  function MapVerification(v: Verification, importing: bool): ImportError
    requires v != Verified
  {
    match v
    case Missing => if importing then StorageChanged else OrphanNotFound
    case EntryLimit => StorageEntryLimitExceeded
    case SecondLink => StorageChanged
    case _ => StorageConflict
  }

  // ----------------------------------------------------------------------------------
  // The one outcome of a call, for every set of faults, every moment of cancellation and
  // whatever the reads of the source deliver

  /** Clearing `count` stale files out of the staging directory. Nothing is synchronized if
      there was nothing to remove. */
  function RecoveredUnder(count: nat, conditions: Conditions): Result<(), ImportError> {
    if RecoveryFails in conditions.faults then Err(StorageFailed)
    else if count > MAX_RECOVERY_ENTRIES then Err(StorageEntryLimitExceeded)
    else if exists k :: 0 <= k < count && UnstageFails(k) in conditions.faults then Err(StorageFailed)
    else if count > 0 && UnstageSyncFails in conditions.faults then Err(StorageFailed)
    else Ok(())
  }

  function RequestUnder(s: Store, m: Manifest, limits: Limits, conditions: Conditions): Result<(), ImportError> {
    if Cancelling(conditions, 0) then Err(Cancelled)
    else if LayoutChanges in conditions.faults then Err(StorageChanged)
    else if !ValidManifest(m) then Err(ImportError.InvalidManifest)
    else if m.byteSize > limits.maximumArtifactBytes then
      Err(ArtifactTooLarge(m.byteSize, limits.maximumArtifactBytes))
    else if ReadFails in conditions.faults then Err(StateFailed(Database))
    else if Pending(s, m.artifactId) then
      Err(ImportError.RemovalPending(Some(Lookup(s, m.artifactId).removal.value.selection)))
    else Ok(())
  }

  /** Reading the whole source against the manifest. */
  function CopiedUnder(hash: Hash, m: Manifest, source: Bytes, conditions: Conditions): Result<(), ImportError> {
    match Streaming.CopyOutcome(source, m.byteSize, conditions.pieces, 0, 0)
    case Err(error) => Err(MapStreamError(error))
    case Ok(_) => if hash(source) != m.artifactDigest then Err(ImportError.DigestMismatch) else Ok(())
  }

  function CommittedUnder(conditions: Conditions): Result<(), ImportError> {
    if Cancelling(conditions, 2) then Err(Cancelled)
    else if {SyncStagedFails, LinkFails, SyncLinkFails, CleanupFails, SyncStagingFails} !! conditions.faults then Ok(())
    else Err(StorageFailed)
  }

  predicate TooFull(dir: Directory, m: Manifest, limits: Limits) {
    |dir| > limits.maximumStorageEntries || (m.artifactDigest !in dir && |dir| == limits.maximumStorageEntries)
  }

  /** Looking at source and destination, before any byte is read. */
  function FoundUnder(dir: Directory, m: Manifest, source: Bytes, limits: Limits, conditions: Conditions)
    : Result<(), ImportError>
  {
    if SourceFails in conditions.faults then Err(SourceFailed)
    else if |source| != m.byteSize then Err(ImportError.SizeMismatch)
    else if LookupFails in conditions.faults then Err(StorageFailed)
    else if TooFull(dir, m, limits) then Err(StorageEntryLimitExceeded)
    else Ok(())
  }

  /** Staging, linking and cleaning up a file that was not there. */
  function PlacedNewUnder(hash: Hash, m: Manifest, source: Bytes, conditions: Conditions): Result<(), ImportError> {
    var copied := CopiedUnder(hash, m, source, conditions);
    if CreateFails in conditions.faults then Err(StorageFailed)
    else if copied.Err? then copied
    else CommittedUnder(conditions)
  }

  /** Comparing the source with a file that is already there. */
  function AdoptedUnder(hash: Hash, m: Manifest, source: Bytes, conditions: Conditions): Result<(), ImportError> {
    var copied := CopiedUnder(hash, m, source, conditions);
    if copied.Ok? && Cancelling(conditions, 1) then Err(Cancelled) else copied
  }

  function PlacedUnder(hash: Hash, dir: Directory, m: Manifest, source: Bytes, limits: Limits, conditions: Conditions)
    : Result<(), ImportError>
  {
    var found := FoundUnder(dir, m, source, limits, conditions);
    if found.Err? then found
    else if m.artifactDigest in dir then AdoptedUnder(hash, m, source, conditions)
    else PlacedNewUnder(hash, m, source, conditions)
  }

  function StoredUnder(hash: Hash, dir: Directory, staging: StagingArea, m: Manifest, importing: bool, limits: Limits,
                       conditions: Conditions): Result<(), ImportError>
  {
    var v := Verify(hash, dir, staging, m.artifactDigest, m.byteSize, limits.maximumStorageEntries);
    if Cancelling(conditions, 4) then Err(Cancelled)
    else if VerifyFails in conditions.faults then Err(StorageFailed)
    else if v != Verified then Err(MapVerification(v, importing))
    else if SyncFileFails in conditions.faults || SyncDirectoryFails in conditions.faults then Err(StorageFailed)
    else Ok(())
  }

  function RegisterOutcome(s: Store, m: Manifest): Result<Put, ImportError> {
    match PutInstallation(s, m, InstalledFrom(m)).result
    case Ok(put) => Ok(put)
    case Err(error) => Err(MapStoreError(error))
  }

  function RegisteredUnder(s: Store, m: Manifest, conditions: Conditions): Result<Put, ImportError> {
    if LayoutChangesLater in conditions.faults then Err(StorageChanged)
    else if Cancelling(conditions, 5) then Err(Cancelled)
    else if RegisterFails in conditions.faults then Err(StateFailed(Database))
    else RegisterOutcome(s, m)
  }

  /** Verifying bytes in place and registering them. */
  function FinishedUnder(hash: Hash, s: Store, dir: Directory, staging: StagingArea, m: Manifest, importing: bool,
                         limits: Limits, conditions: Conditions): Result<Put, ImportError>
  {
    var stored := StoredUnder(hash, dir, staging, m, importing, limits, conditions);
    if stored.Err? then Err(stored.error) else RegisteredUnder(s, m, conditions)
  }

  function Placed(dir: Directory, m: Manifest, source: Bytes): Directory {
    if m.artifactDigest in dir then dir else dir[m.artifactDigest := File(source, true)]
  }

  function CheckedOutcome(hash: Hash, s: Store, dir: Directory, m: Manifest, source: Bytes, limits: Limits,
                          conditions: Conditions): Result<Put, ImportError>
  {
    var placed := PlacedUnder(hash, dir, m, source, limits, conditions);
    if placed.Err? then Err(placed.error)
    else FinishedUnder(hash, s, Placed(dir, m, source), map[], m, true, limits, conditions)
  }

  /** An import under the lock, given how many stale files it finds. */
  function LockedOutcome(hash: Hash, s: Store, dir: Directory, stale: nat, m: Manifest, source: Bytes, limits: Limits,
                         conditions: Conditions): Result<Put, ImportError>
  {
    var recovered, requested := RecoveredUnder(stale, conditions), RequestUnder(s, m, limits, conditions);
    if recovered.Err? then Err(recovered.error)
    else if requested.Err? then Err(requested.error)
    else CheckedOutcome(hash, s, dir, m, source, limits, conditions)
  }

  /** The same for a whole call, which first needs valid limits and a free lock. */
  function ImportOutcome(hash: Hash, s: Store, dir: Directory, stale: nat, idle: bool, m: Manifest, source: Bytes,
                         limits: Limits, conditions: Conditions): Result<Put, ImportError>
  {
    if !ValidLimits(limits) then Err(InvalidLimits)
    else if OpenFails in conditions.faults then Err(StorageFailed)
    else if !idle then Err(StorageInUse)
    else LockedOutcome(hash, s, dir, stale, m, source, limits, conditions)
  }

  function LockedReconcileOutcome(hash: Hash, s: Store, dir: Directory, staging: StagingArea, m: Manifest,
                                  limits: Limits, conditions: Conditions): Result<Put, ImportError>
  {
    var requested := RequestUnder(s, m, limits, conditions);
    if requested.Err? then Err(requested.error)
    else FinishedUnder(hash, s, dir, staging, m, false, limits, conditions)
  }

  function ReconcileOutcome(hash: Hash, s: Store, dir: Directory, staging: StagingArea, idle: bool, m: Manifest,
                            limits: Limits, conditions: Conditions): Result<Put, ImportError>
  {
    if !ValidLimits(limits) then Err(InvalidLimits)
    else if OpenFails in conditions.faults then Err(StorageFailed)
    else if !idle then Err(StorageInUse)
    else LockedReconcileOutcome(hash, s, dir, staging, m, limits, conditions)
  }

  // ----------------------------------------------------------------------------------
  // How far an import gets, each milestone by what it needs beyond the one before

  predicate Opens(idle: bool, limits: Limits, conditions: Conditions) {
    ValidLimits(limits) && OpenFails !in conditions.faults && idle
  }

  /** The staging directory is listed and every stale file in it removed for good. */
  predicate Clears(stale: nat, conditions: Conditions) {
    && RecoveryFails !in conditions.faults && stale <= 1024
    && (forall k :: 0 <= k < stale ==> UnstageFails(k) !in conditions.faults)
    && (stale > 0 ==> UnstageSyncFails !in conditions.faults)
  }

  predicate Asks(limits: Limits, m: Manifest, conditions: Conditions) {
    && conditions.cancelledFrom > 0 && LayoutChanges !in conditions.faults
    && ValidManifest(m) && m.byteSize <= limits.maximumArtifactBytes
  }

  /** The request stands: it is valid and no removal of its artifact is pending. */
  predicate Stands(s: Store, limits: Limits, m: Manifest, conditions: Conditions) {
    Asks(limits, m, conditions) && ReadFails !in conditions.faults && !PendingIn(Lookup(s, m.artifactId))
  }

  /** Source and destination are looked at, and there is room. */
  predicate Looks(dir: Directory, m: Manifest, source: Bytes, limits: Limits, conditions: Conditions) {
    && SourceFails !in conditions.faults && |source| == m.byteSize && LookupFails !in conditions.faults
    && |dir| <= limits.maximumStorageEntries
    && (m.artifactDigest in dir || |dir| < limits.maximumStorageEntries)
  }

  /** The whole source was read, into a staged file if there is no destination yet. */
  predicate Reads(dir: Directory, m: Manifest, source: Bytes, conditions: Conditions) {
    && (m.artifactDigest !in dir ==> CreateFails !in conditions.faults)
    && Streaming.CopyOutcome(source, m.byteSize, conditions.pieces, 0, 0) == Ok(())
  }

  /** The destination exists, linked and durable if it is new. */
  predicate Places(hash: Hash, dir: Directory, m: Manifest, source: Bytes, conditions: Conditions) {
    && Reads(dir, m, source, conditions) && hash(source) == m.artifactDigest && conditions.cancelledFrom > 1
    && (m.artifactDigest !in dir ==>
          && conditions.cancelledFrom > 2
          && {SyncStagedFails, LinkFails, SyncLinkFails, CleanupFails, SyncStagingFails} !! conditions.faults)
  }

  /** The stored bytes get compared with the manifest. */
  predicate Compares(conditions: Conditions) {
    conditions.cancelledFrom > 4 && VerifyFails !in conditions.faults
  }

  predicate Syncs(conditions: Conditions) {
    SyncFileFails !in conditions.faults && SyncDirectoryFails !in conditions.faults
  }

  predicate Submits(conditions: Conditions) {
    LayoutChangesLater !in conditions.faults && conditions.cancelledFrom > 5 && RegisterFails !in conditions.faults
  }

  /** The artifact's rows allow one more registration. */
  predicate Accepts(s: Store, m: Manifest) {
    var r := Lookup(s, m.artifactId);
    && (r.manifest.Some? ==> r.manifest.value == m)
    && (r.current.Some? ==>
          r.current.value.installed
          == Installed(m.artifactId, m.artifactDigest, m.byteSize, "artifacts/" + m.artifactDigest))
  }

  predicate Exhausted(s: Store, m: Manifest) {
    var r := Lookup(s, m.artifactId);
    r.current.None? && r.removal.Some? && r.removal.value.selection.epoch >= MAX_EPOCH
  }

  // ----------------------------------------------------------------------------------
  // Each answer of a call by its exact condition

  /** Checking the request ends in this refusal. */
  ghost predicate RequestAnswers(s: Store, m: Manifest, limits: Limits, conditions: Conditions, error: ImportError) {
    var r, f := Lookup(s, m.artifactId), conditions.faults;
    var asked := conditions.cancelledFrom > 0 && LayoutChanges !in f;
    match error
    case Cancelled => conditions.cancelledFrom == 0
    case StorageChanged => conditions.cancelledFrom > 0 && LayoutChanges in f
    case InvalidManifest => asked && !ValidManifest(m)
    case ArtifactTooLarge(actual, maximum) =>
      asked && ValidManifest(m) && actual == m.byteSize && maximum == limits.maximumArtifactBytes && actual > maximum
    case StateFailed(state) => Asks(limits, m, conditions) && ReadFails in f && state == Database
    case RemovalPending(selection) =>
      && Asks(limits, m, conditions) && ReadFails !in f
      && PendingIn(r) && selection == Some(r.removal.value.selection)
    case _ => false
  }

  /** Placing the file ends in this refusal. */
  ghost predicate PlacingAnswers(hash: Hash, dir: Directory, m: Manifest, source: Bytes, limits: Limits,
                                 conditions: Conditions, error: ImportError)
  {
    var f, name := conditions.faults, m.artifactDigest;
    var sized := SourceFails !in f && |source| == m.byteSize;
    var full := |dir| > limits.maximumStorageEntries || (name !in dir && |dir| == limits.maximumStorageEntries);
    var looks := Looks(dir, m, source, limits, conditions);
    var copying := looks && (name !in dir ==> CreateFails !in f);
    var copied := Streaming.CopyOutcome(source, m.byteSize, conditions.pieces, 0, 0);
    var matches := looks && Reads(dir, m, source, conditions) && hash(source) == name;
    match error
    case SourceFailed => SourceFails in f || (copying && copied == Err(Streaming.IoFailed))
    case SizeMismatch => SourceFails !in f && |source| != m.byteSize
    case StorageEntryLimitExceeded => sized && LookupFails !in f && full
    case DigestMismatch => looks && Reads(dir, m, source, conditions) && hash(source) != name
    case Cancelled =>
      || (copying && copied == Err(Streaming.Cancelled))
      || (matches && (conditions.cancelledFrom <= 1 || (name !in dir && conditions.cancelledFrom <= 2)))
    case StorageFailed =>
      || (sized && LookupFails in f)
      || (looks && name !in dir && CreateFails in f)
      || (&& matches && name !in dir && conditions.cancelledFrom > 2
          && !({SyncStagedFails, LinkFails, SyncLinkFails, CleanupFails, SyncStagingFails} !! f))
    case _ => false
  }

  /** Verifying and registering what is in place ends in this refusal. */
  ghost predicate FinishingAnswers(hash: Hash, s: Store, dir: Directory, staging: StagingArea, m: Manifest,
                                   importing: bool, limits: Limits, conditions: Conditions, error: ImportError)
  {
    var f, name := conditions.faults, m.artifactDigest;
    var compares := Compares(conditions);
    var there := compares && |dir| <= limits.maximumStorageEntries && name in dir;
    var sized := there && |dir[name].bytes| == m.byteSize;
    var exact := sized && !Aliased(staging, name) && hash(dir[name].bytes) == name;
    var stored := exact && Syncs(conditions);
    match error
    case Cancelled =>
      conditions.cancelledFrom <= 4 || (stored && LayoutChangesLater !in f && conditions.cancelledFrom <= 5)
    case StorageFailed => (conditions.cancelledFrom > 4 && VerifyFails in f) || (exact && !Syncs(conditions))
    case StorageEntryLimitExceeded =>
      compares && (|dir| > limits.maximumStorageEntries || (name !in dir && |dir| == limits.maximumStorageEntries))
    case OrphanNotFound => compares && !importing && name !in dir && |dir| < limits.maximumStorageEntries
    case StorageConflict =>
      there && (|dir[name].bytes| != m.byteSize || (!Aliased(staging, name) && hash(dir[name].bytes) != name))
    case StorageChanged =>
      || (compares && importing && name !in dir && |dir| < limits.maximumStorageEntries)
      || (sized && Aliased(staging, name))
      || (stored && LayoutChangesLater in f)
    case StateFailed(state) =>
      || (stored && LayoutChangesLater !in f && conditions.cancelledFrom > 5 && RegisterFails in f && state == Database)
      || (stored && Submits(conditions) && !Accepts(s, m) && state == ImmutableConflict)
      || (stored && Submits(conditions) && Accepts(s, m) && Exhausted(s, m) && state == EpochExhausted)
    case _ => false
  }

  /** Opening ends in this refusal. */
  ghost predicate OpeningAnswers(idle: bool, limits: Limits, conditions: Conditions, error: ImportError) {
    match error
    case InvalidLimits => !ValidLimits(limits)
    case StorageFailed => ValidLimits(limits) && OpenFails in conditions.faults
    case StorageInUse => ValidLimits(limits) && OpenFails !in conditions.faults && !idle
    case _ => false
  }

  ghost predicate ClearingAnswers(stale: nat, conditions: Conditions, error: ImportError) {
    match error
    case StorageEntryLimitExceeded => RecoveryFails !in conditions.faults && stale > 1024
    case StorageFailed => RecoveryFails in conditions.faults || (stale <= 1024 && !Clears(stale, conditions))
    case _ => false
  }

  /** The directory as verification finds it: with the file there, if it was not. */
  function Filled(dir: Directory, m: Manifest, source: Bytes): Directory {
    if m.artifactDigest in dir then dir else dir[m.artifactDigest := File(source, true)]
  }

  /** Every answer of an import by its exact condition. */
  ghost predicate ImportAnswers(hash: Hash, w: World, m: Manifest, source: Bytes, limits: Limits,
                                conditions: Conditions, r: Result<Put, ImportError>)
  {
    var opens := Opens(w.procs == map[], limits, conditions);
    var cleared := opens && Clears(|w.staging|, conditions);
    var stands := cleared && Stands(w.store, limits, m, conditions);
    var placed := stands && Looks(w.dir, m, source, limits, conditions) && Places(hash, w.dir, m, source, conditions);
    var finished := placed && Finishes(hash, Filled(w.dir, m, source), map[], m, conditions);
    && (r.Ok? <==> finished && Accepts(w.store, m) && !Exhausted(w.store, m))
    && (forall error :: r == Err(error) <==> ImportRefuses(hash, w, m, source, limits, conditions, error))
  }

  ghost predicate ImportRefuses(hash: Hash, w: World, m: Manifest, source: Bytes, limits: Limits,
                                conditions: Conditions, error: ImportError)
  {
    var opens := Opens(w.procs == map[], limits, conditions);
    var cleared := opens && Clears(|w.staging|, conditions);
    var stands := cleared && Stands(w.store, limits, m, conditions);
    var placed := stands && Looks(w.dir, m, source, limits, conditions) && Places(hash, w.dir, m, source, conditions);
    || OpeningAnswers(w.procs == map[], limits, conditions, error)
    || (opens && ClearingAnswers(|w.staging|, conditions, error))
    || (cleared && RequestAnswers(w.store, m, limits, conditions, error))
    || (stands && PlacingAnswers(hash, w.dir, m, source, limits, conditions, error))
    || (placed && FinishingAnswers(hash, w.store, Filled(w.dir, m, source), map[], m, true, limits, conditions, error))
  }

  /** The directory changes: a new file is linked, or the contents of the old one synchronized. */
  ghost predicate ImportChanges(hash: Hash, w: World, m: Manifest, source: Bytes, limits: Limits,
                                conditions: Conditions)
  {
    && Opens(w.procs == map[], limits, conditions) && Clears(|w.staging|, conditions)
    && Stands(w.store, limits, m, conditions) && Looks(w.dir, m, source, limits, conditions)
    && Reads(w.dir, m, source, conditions) && hash(source) == m.artifactDigest
    && (if m.artifactDigest in w.dir then
          && Compares(conditions) && SyncFileFails !in conditions.faults
          && Exact(hash, w.dir, m.artifactDigest, m.byteSize)
        else conditions.cancelledFrom > 2 && {SyncStagedFails, LinkFails} !! conditions.faults)
  }

  /** Every answer of a reconciliation by its exact condition. */
  ghost predicate ReconcileAnswers(hash: Hash, w: World, m: Manifest, limits: Limits, conditions: Conditions,
                                   r: Result<Put, ImportError>)
  {
    && (r.Ok? <==>
          && Opens(w.procs == map[], limits, conditions) && Stands(w.store, limits, m, conditions)
          && |w.dir| <= limits.maximumStorageEntries && Finishes(hash, w.dir, w.staging, m, conditions)
          && Accepts(w.store, m) && !Exhausted(w.store, m))
    && (forall error :: r == Err(error) <==> ReconcileRefuses(hash, w, m, limits, conditions, error))
  }

  ghost predicate ReconcileRefuses(hash: Hash, w: World, m: Manifest, limits: Limits, conditions: Conditions,
                                   error: ImportError)
  {
    var opens := Opens(w.procs == map[], limits, conditions);
    || OpeningAnswers(w.procs == map[], limits, conditions, error)
    || (opens && RequestAnswers(w.store, m, limits, conditions, error))
    || (&& opens && Stands(w.store, limits, m, conditions)
        && FinishingAnswers(hash, w.store, w.dir, w.staging, m, false, limits, conditions, error))
  }

  /** The bytes in place are exact under one link, synchronized, and get as far as the store. */
  predicate Finishes(hash: Hash, dir: Directory, staging: StagingArea, m: Manifest, conditions: Conditions) {
    && Compares(conditions) && Syncs(conditions) && Submits(conditions)
    && Exact(hash, dir, m.artifactDigest, m.byteSize) && !Aliased(staging, m.artifactDigest)
  }

  // ----------------------------------------------------------------------------------
  // Whether the directory changes, whether or not the call succeeds in the end

  /** A new file gets linked. */
  predicate LinksUnder(hash: Hash, m: Manifest, source: Bytes, conditions: Conditions) {
    && CopiedUnder(hash, m, source, conditions).Ok? && !Cancelling(conditions, 2)
    && {CreateFails, SyncStagedFails, LinkFails} !! conditions.faults
  }

  /** The contents of a file in place get synchronized. */
  predicate SyncsUnder(hash: Hash, dir: Directory, staging: StagingArea, m: Manifest, limits: Limits,
                       conditions: Conditions)
  {
    && !Cancelling(conditions, 4) && VerifyFails !in conditions.faults && SyncFileFails !in conditions.faults
    && Verify(hash, dir, staging, m.artifactDigest, m.byteSize, limits.maximumStorageEntries) == Verified
  }

  predicate FileArrives(hash: Hash, dir: Directory, m: Manifest, source: Bytes, limits: Limits,
                        conditions: Conditions)
  {
    if m.artifactDigest in dir then
      PlacedUnder(hash, dir, m, source, limits, conditions).Ok? && SyncsUnder(hash, dir, map[], m, limits, conditions)
    else
      FoundUnder(dir, m, source, limits, conditions).Ok? && LinksUnder(hash, m, source, conditions)
  }

  predicate LockedPlaces(hash: Hash, s: Store, dir: Directory, stale: nat, m: Manifest, source: Bytes, limits: Limits,
                         conditions: Conditions)
  {
    && RecoveredUnder(stale, conditions).Ok? && RequestUnder(s, m, limits, conditions).Ok?
    && FileArrives(hash, dir, m, source, limits, conditions)
  }

  predicate ImportPlaces(hash: Hash, s: Store, dir: Directory, stale: nat, idle: bool, m: Manifest, source: Bytes,
                         limits: Limits, conditions: Conditions)
  {
    && ValidLimits(limits) && OpenFails !in conditions.faults && idle
    && LockedPlaces(hash, s, dir, stale, m, source, limits, conditions)
  }

  ghost predicate Running(procs: map<Pid, Proc>, pid: Pid, m: Manifest, source: Option<Bytes>, pc: InstallPc) {
    procs == map[pid := Lifecycle.Install(m, source, pc)]
  }

  ghost predicate Installing(procs: map<Pid, Proc>, pid: Pid) {
    procs.Keys == {pid} && procs[pid].Install?
  }

  /** The directory after the contents of `name` have reached the disk. */
  function WithSynced(dir: Directory, name: Digest): Directory {
    if name in dir then dir[name := File(dir[name].bytes, true)] else dir
  }

  /** The directory with the artifact's bytes present and synchronized. */
  function FinalDirectory(dir: Directory, m: Manifest, source: Bytes): Directory {
    var bytes := if m.artifactDigest in dir then dir[m.artifactDigest].bytes else source;
    dir[m.artifactDigest := File(bytes, true)]
  }

  function FinalStore(store: Store, m: Manifest): Store {
    PutInstallation(store, m, InstalledFrom(m)).store
  }

  /** What a registration leaves: this artifact current under the number it was issued, recorded
      at its canonical place, and every other artifact as it was. */
  ghost predicate Installs(s: Store, s': Store, m: Manifest, put: Put) {
    && s' == FinalStore(s, m) && Registered(s, s', m, put.installation) && Issues(Lookup(s, m.artifactId), put)
    && put.installation.installed
       == Installed(m.artifactId, m.artifactDigest, m.byteSize, "artifacts/" + m.artifactDigest)
    && IsCurrent(s', put.installation)
  }

  /** Bytes that were visible stay visible; the only name that may appear is the imported
      digest, with exact bytes. */
  ghost predicate OnlyAdds(hash: Hash, dir: Directory, dir': Directory, m: Manifest) {
    && (forall name :: name in dir ==> name in dir' && dir'[name].bytes == dir[name].bytes)
    && (forall name :: name in dir' && name !in dir ==>
          name == m.artifactDigest && Exact(hash, dir', name, m.byteSize))
  }

  /** The exact condition on manifest and storage for a fault-free registration under the
      lock, given that bytes for the manifest are or can be put in place. */
  ghost predicate Registrable(hash: Hash, w: World, m: Manifest, limits: Limits) {
    && ValidManifest(m) && m.byteSize <= limits.maximumArtifactBytes
    && |w.dir| <= limits.maximumStorageEntries
    && (m.artifactDigest in w.dir ==> Exact(hash, w.dir, m.artifactDigest, m.byteSize))
    && PutInstallation(w.store, m, InstalledFrom(m)).result.Ok?
  }

  ghost predicate Importable(hash: Hash, w: World, m: Manifest, source: Bytes, limits: Limits) {
    && Registrable(hash, w, m, limits)
    && |source| == m.byteSize && hash(source) == m.artifactDigest
    && (m.artifactDigest in w.dir || |w.dir| < limits.maximumStorageEntries)
    && |w.staging| <= MAX_RECOVERY_ENTRIES
  }

  /** Faults and cancellation that no registration survives. */
  predicate Registers(conditions: Conditions) {
    && conditions.cancelledFrom >= CANCELLATION_CHECKS
    && {OpenFails, LayoutChanges, ReadFails, VerifyFails, SyncFileFails, SyncDirectoryFails, LayoutChangesLater,
        RegisterFails} !! conditions.faults
  }

  /** Nothing that happens stands in the way of an import: what matters depends on whether
      there are stale files to clear and whether the file is already there. */
  predicate Unhindered(conditions: Conditions, stale: nat, present: bool, source: Bytes) {
    && Registers(conditions) && {RecoveryFails, SourceFails, LookupFails} !! conditions.faults
    && (forall k :: 0 <= k < stale ==> UnstageFails(k) !in conditions.faults)
    && (stale > 0 ==> UnstageSyncFails !in conditions.faults)
    && Streaming.CopyOutcome(source, |source|, conditions.pieces, 0, 0).Ok?
    && (!present ==> Commits(conditions))
  }

  predicate Commits(conditions: Conditions) {
    {CreateFails, SyncStagedFails, LinkFails, SyncLinkFails, CleanupFails, SyncStagingFails} !! conditions.faults
  }

  lemma FaultFreeIsUnhindered(conditions: Conditions, stale: nat, present: bool, source: Bytes)
    requires FaultFree(conditions)
    ensures Unhindered(conditions, stale, present, source)
  {
    Streaming.UndisturbedCopy(source, |source|, conditions.pieces, 0, 0);
  }

  lemma PlacesIff(hash: Hash, dir: Directory, m: Manifest, source: Bytes, limits: Limits, conditions: Conditions)
    ensures PlacedUnder(hash, dir, m, source, limits, conditions).Ok? <==>
            && {SourceFails, LookupFails} !! conditions.faults && |source| == m.byteSize && !TooFull(dir, m, limits)
            && hash(source) == m.artifactDigest && !Cancelling(conditions, 1)
            && Streaming.CopyOutcome(source, |source|, conditions.pieces, 0, 0).Ok?
            && (m.artifactDigest !in dir ==> !Cancelling(conditions, 2) && Commits(conditions))
  {
    hide TooFull;
  }

  lemma FinishesIff(hash: Hash, s: Store, dir: Directory, staging: StagingArea, m: Manifest, importing: bool,
                    limits: Limits, conditions: Conditions)
    ensures FinishedUnder(hash, s, dir, staging, m, importing, limits, conditions).Ok? <==>
            && conditions.cancelledFrom >= CANCELLATION_CHECKS
            && {VerifyFails, SyncFileFails, SyncDirectoryFails, LayoutChangesLater, RegisterFails} !! conditions.faults
            && Exact(hash, dir, m.artifactDigest, m.byteSize) && !Aliased(staging, m.artifactDigest)
            && |dir| <= limits.maximumStorageEntries && PutInstallation(s, m, InstalledFrom(m)).result.Ok?
  {
    hide PutInstallation, Exact, Aliased;
  }

  lemma RequestIff(s: Store, m: Manifest, limits: Limits, conditions: Conditions)
    ensures RequestUnder(s, m, limits, conditions).Ok? <==>
            && !Cancelling(conditions, 0) && {LayoutChanges, ReadFails} !! conditions.faults
            && ValidManifest(m) && m.byteSize <= limits.maximumArtifactBytes && !Pending(s, m.artifactId)
  {
    hide ValidManifest, Pending;
  }

  lemma PlacedSize(dir: Directory, m: Manifest, source: Bytes)
    ensures |Placed(dir, m, source)| == |dir| + if m.artifactDigest in dir then 0 else 1
  {
    var placed := Placed(dir, m, source);
    assert placed.Keys == dir.Keys + {m.artifactDigest};
    assert |placed| == |placed.Keys| && |dir| == |dir.Keys|;
  }

  lemma ImportsIffImportable(hash: Hash, w: World, m: Manifest, source: Bytes, limits: Limits, conditions: Conditions)
    ensures ImportOutcome(hash, w.store, w.dir, |w.staging|, w.procs == map[], m, source, limits, conditions).Ok? <==>
            && ValidLimits(limits) && w.procs == map[] && Importable(hash, w, m, source, limits)
            && Unhindered(conditions, |w.staging|, m.artifactDigest in w.dir, source)
  {
    hide PutInstallation, ValidManifest, Pending, PlacedUnder, FinishedUnder, RequestUnder;
    PendingRefuses(w.store, m);
    PlacesIff(hash, w.dir, m, source, limits, conditions);
    FinishesIff(hash, w.store, Placed(w.dir, m, source), map[], m, true, limits, conditions);
    RequestIff(w.store, m, limits, conditions);
    PlacedSize(w.dir, m, source);
  }

  lemma ReconcilesIffRegistrable(hash: Hash, w: World, m: Manifest, limits: Limits, conditions: Conditions)
    ensures ReconcileOutcome(hash, w.store, w.dir, w.staging, w.procs == map[], m, limits, conditions).Ok? <==>
            && ValidLimits(limits) && w.procs == map[] && Registers(conditions)
            && m.artifactDigest in w.dir && !Aliased(w.staging, m.artifactDigest) && Registrable(hash, w, m, limits)
  {
    hide PutInstallation, ValidManifest, Pending, FinishedUnder, RequestUnder;
    PendingRefuses(w.store, m);
    FinishesIff(hash, w.store, w.dir, w.staging, m, false, limits, conditions);
    RequestIff(w.store, m, limits, conditions);
  }

  lemma RequestIsAnswered(s: Store, m: Manifest, limits: Limits, conditions: Conditions, error: ImportError)
    requires StoreInv(s)
    ensures RequestUnder(s, m, limits, conditions) == Err(error) <==> RequestAnswers(s, m, limits, conditions, error)
    ensures RequestUnder(s, m, limits, conditions).Ok? <==> Stands(s, limits, m, conditions)
  {
    hide ValidManifest, StoreInv;
    PendingStandsAlone(s, m.artifactId);
  }

  lemma PendingStandsAlone(s: Store, id: Digest)
    requires StoreInv(s)
    ensures Pending(s, id) <==> PendingIn(Lookup(s, id))
  {
    if id in s.records { assert ValidateRecord(id, s.records[id]).None?; }
  }

  lemma PlacingIsAnswered(hash: Hash, dir: Directory, m: Manifest, source: Bytes, limits: Limits,
                          conditions: Conditions, error: ImportError)
    ensures PlacedUnder(hash, dir, m, source, limits, conditions) == Err(error) <==>
            PlacingAnswers(hash, dir, m, source, limits, conditions, error)
    ensures PlacedUnder(hash, dir, m, source, limits, conditions).Ok? <==>
            Looks(dir, m, source, limits, conditions) && Places(hash, dir, m, source, conditions)
  {
    Streaming.CopyEnds(source, m.byteSize, conditions.pieces, 0, 0);
  }

  lemma StoringIsAnswered(hash: Hash, dir: Directory, staging: StagingArea, m: Manifest, importing: bool,
                          limits: Limits, conditions: Conditions)
    ensures var r, f := StoredUnder(hash, dir, staging, m, importing, limits, conditions), conditions.faults;
            var name, compares := m.artifactDigest, Compares(conditions);
            var absent := compares && name !in dir && |dir| < limits.maximumStorageEntries;
            var there := compares && |dir| <= limits.maximumStorageEntries && name in dir;
            var sized := there && |dir[name].bytes| == m.byteSize;
            var exact := sized && !Aliased(staging, name) && hash(dir[name].bytes) == name;
            && (r == Err(Cancelled) <==> conditions.cancelledFrom <= 4)
            && (r == Err(StorageFailed) <==>
                  (conditions.cancelledFrom > 4 && VerifyFails in f) || (exact && !Syncs(conditions)))
            && (r == Err(StorageEntryLimitExceeded) <==> compares && !absent && !there)
            && (r == Err(OrphanNotFound) <==> absent && !importing)
            && (r == Err(StorageConflict) <==>
                  there && (!sized || (!Aliased(staging, name) && hash(dir[name].bytes) != name)))
            && (r == Err(StorageChanged) <==> (absent && importing) || (sized && Aliased(staging, name)))
            && (r == Ok(()) <==> exact && Syncs(conditions))
  {
    hide Aliased;
  }

  lemma RegisteringIsAnswered(s: Store, m: Manifest, conditions: Conditions)
    requires StoreInv(s) && ValidManifest(m) && !PendingIn(Lookup(s, m.artifactId))
    ensures var r, f := RegisteredUnder(s, m, conditions), conditions.faults;
            var later := LayoutChangesLater !in f;
            && (r == Err(StorageChanged) <==> LayoutChangesLater in f)
            && (r == Err(Cancelled) <==> later && conditions.cancelledFrom <= 5)
            && (r == Err(StateFailed(Database)) <==> later && conditions.cancelledFrom > 5 && RegisterFails in f)
            && (r == Err(StateFailed(ImmutableConflict)) <==> Submits(conditions) && !Accepts(s, m))
            && (r == Err(StateFailed(EpochExhausted)) <==> Submits(conditions) && Accepts(s, m) && Exhausted(s, m))
            && (r.Ok? <==> Submits(conditions) && Accepts(s, m) && !Exhausted(s, m))
  {
    hide PutInstallation, StoreInv, ValidInstalled, ValidManifest;
    RegistrationTable(s, m, InstalledFrom(m));
    InstalledFromIsValid(m);
  }

  lemma FinishingIsAnswered(hash: Hash, s: Store, dir: Directory, staging: StagingArea, m: Manifest, importing: bool,
                            limits: Limits, conditions: Conditions, error: ImportError)
    requires StoreInv(s) && ValidManifest(m) && !PendingIn(Lookup(s, m.artifactId))
    ensures FinishedUnder(hash, s, dir, staging, m, importing, limits, conditions) == Err(error) <==>
            FinishingAnswers(hash, s, dir, staging, m, importing, limits, conditions, error)
    ensures FinishedUnder(hash, s, dir, staging, m, importing, limits, conditions).Ok? <==>
            && |dir| <= limits.maximumStorageEntries && Finishes(hash, dir, staging, m, conditions)
            && Accepts(s, m) && !Exhausted(s, m)
  {
    hide StoredUnder, RegisteredUnder, Accepts, Exhausted, Aliased, StoreInv, ValidManifest;
    StoringIsAnswered(hash, dir, staging, m, importing, limits, conditions);
    RegisteringIsAnswered(s, m, conditions);
  }

  lemma ImportIsAnswered(hash: Hash, w: World, m: Manifest, source: Bytes, limits: Limits, conditions: Conditions)
    requires StoreInv(w.store)
    ensures ImportAnswers(hash, w, m, source, limits, conditions,
      ImportOutcome(hash, w.store, w.dir, |w.staging|, w.procs == map[], m, source, limits, conditions))
  {
    hide StoreInv, PlacedUnder, FinishedUnder, RequestUnder, RequestAnswers, PlacingAnswers, FinishingAnswers;
    hide Stands, Looks, Places, Finishes, Accepts, Exhausted, ValidManifest;
    var r := ImportOutcome(hash, w.store, w.dir, |w.staging|, w.procs == map[], m, source, limits, conditions);
    assert Placed(w.dir, m, source) == Filled(w.dir, m, source);
    StandsIsValid(w.store, limits, m, conditions);
    LooksHasRoom(w.dir, m, source, limits, conditions);
    RequestIsAnswered(w.store, m, limits, conditions, Cancelled);
    PlacingIsAnswered(hash, w.dir, m, source, limits, conditions, Cancelled);
    if Stands(w.store, limits, m, conditions) {
      FinishingIsAnswered(hash, w.store, Filled(w.dir, m, source), map[], m, true, limits, conditions, Cancelled);
    }
    forall error ensures r == Err(error) <==> ImportRefuses(hash, w, m, source, limits, conditions, error) {
      RequestIsAnswered(w.store, m, limits, conditions, error);
      PlacingIsAnswered(hash, w.dir, m, source, limits, conditions, error);
      if Stands(w.store, limits, m, conditions) {
        FinishingIsAnswered(hash, w.store, Filled(w.dir, m, source), map[], m, true, limits, conditions, error);
      }
    }
  }

  lemma ChangesIffPlaces(hash: Hash, w: World, m: Manifest, source: Bytes, limits: Limits, conditions: Conditions)
    requires StoreInv(w.store)
    ensures ImportPlaces(hash, w.store, w.dir, |w.staging|, w.procs == map[], m, source, limits, conditions) <==>
            ImportChanges(hash, w, m, source, limits, conditions)
  {
    hide StoreInv, PlacedUnder, RequestUnder, Stands, Looks, Places, FoundUnder, TooFull;
    RequestIsAnswered(w.store, m, limits, conditions, Cancelled);
    PlacingIsAnswered(hash, w.dir, m, source, limits, conditions, Cancelled);
    FoundIffLooks(w.dir, m, source, limits, conditions);
    PlacesAdopted(hash, w.dir, m, source, conditions);
    Unaliased(m.artifactDigest);
    ClearsIffRecovered(|w.staging|, conditions);
    LinksIffReads(hash, w.dir, m, source, conditions);
  }

  lemma ClearsIffRecovered(stale: nat, conditions: Conditions)
    ensures Clears(stale, conditions) <==> RecoveredUnder(stale, conditions).Ok?
  {
  }

  lemma LinksIffReads(hash: Hash, dir: Directory, m: Manifest, source: Bytes, conditions: Conditions)
    ensures m.artifactDigest !in dir ==>
              (LinksUnder(hash, m, source, conditions) <==>
               && Reads(dir, m, source, conditions) && hash(source) == m.artifactDigest
               && conditions.cancelledFrom > 2 && {SyncStagedFails, LinkFails} !! conditions.faults)
  {
    Streaming.CopyEnds(source, m.byteSize, conditions.pieces, 0, 0);
  }

  lemma FoundIffLooks(dir: Directory, m: Manifest, source: Bytes, limits: Limits, conditions: Conditions)
    ensures FoundUnder(dir, m, source, limits, conditions).Ok? <==> Looks(dir, m, source, limits, conditions)
    ensures Looks(dir, m, source, limits, conditions) ==> |dir| <= limits.maximumStorageEntries
  {
  }

  lemma PlacesAdopted(hash: Hash, dir: Directory, m: Manifest, source: Bytes, conditions: Conditions)
    ensures m.artifactDigest in dir ==>
              (Places(hash, dir, m, source, conditions) <==>
               Reads(dir, m, source, conditions) && hash(source) == m.artifactDigest && conditions.cancelledFrom > 1)
  {
  }

  lemma Unaliased(name: Digest)
    ensures !Aliased(map[], name)
  {
  }

  lemma ReconcileIsAnswered(hash: Hash, w: World, m: Manifest, limits: Limits, conditions: Conditions)
    requires StoreInv(w.store)
    ensures ReconcileAnswers(hash, w, m, limits, conditions,
      ReconcileOutcome(hash, w.store, w.dir, w.staging, w.procs == map[], m, limits, conditions))
  {
    hide StoreInv, FinishedUnder, RequestUnder, RequestAnswers, FinishingAnswers;
    hide Stands, Finishes, Accepts, Exhausted, ValidManifest;
    var r := ReconcileOutcome(hash, w.store, w.dir, w.staging, w.procs == map[], m, limits, conditions);
    StandsIsValid(w.store, limits, m, conditions);
    RequestIsAnswered(w.store, m, limits, conditions, Cancelled);
    if Stands(w.store, limits, m, conditions) {
      FinishingIsAnswered(hash, w.store, w.dir, w.staging, m, false, limits, conditions, Cancelled);
    }
    forall error ensures r == Err(error) <==> ReconcileRefuses(hash, w, m, limits, conditions, error) {
      RequestIsAnswered(w.store, m, limits, conditions, error);
      if Stands(w.store, limits, m, conditions) {
        FinishingIsAnswered(hash, w.store, w.dir, w.staging, m, false, limits, conditions, error);
      }
    }
  }

  lemma StandsIsValid(s: Store, limits: Limits, m: Manifest, conditions: Conditions)
    ensures Stands(s, limits, m, conditions) ==> ValidManifest(m) && !PendingIn(Lookup(s, m.artifactId))
  {
  }

  lemma LooksHasRoom(dir: Directory, m: Manifest, source: Bytes, limits: Limits, conditions: Conditions)
    ensures Looks(dir, m, source, limits, conditions) ==> |Filled(dir, m, source)| <= limits.maximumStorageEntries
  {
    PlacedSize(dir, m, source);
    assert Placed(dir, m, source) == Filled(dir, m, source);
  }

  /** The store refuses to register an artifact whose removal is prepared. */
  lemma PendingRefuses(s: Store, m: Manifest)
    ensures Pending(s, m.artifactId) ==> PutInstallation(s, m, InstalledFrom(m)).result.Err?
  {
  }

  /** Imports `source` as the artifact described by `m`, under the exclusive lock. */
  method Import(storage: ManagedStorage, pid: Pid, m: Manifest, source: Bytes, limits: Limits, conditions: Conditions)
    returns (r: Result<Put, ImportError>)
    requires storage.Valid() && pid !in storage.procs && pid !in storage.stagingDisk
    modifies storage
    ensures storage.Valid() && Extends(old(storage.trace), storage.trace) && storage.procs == old(storage.procs)
    ensures r.Ok? ==> Imported(old(storage.View()), storage.View(), m, source, r.value)
    ensures r.Err? ==> storage.store == old(storage.store) && OnlyAdds(storage.hash, old(storage.dir), storage.dir, m)
    ensures r == ImportOutcome(storage.hash, old(storage.store), old(storage.dir), |old(storage.staging)|,
                               old(storage.procs) == map[], m, source, limits, conditions)
    ensures storage.dir ==
              if ImportPlaces(storage.hash, old(storage.store), old(storage.dir), |old(storage.staging)|,
                              old(storage.procs) == map[], m, source, limits, conditions)
              then FinalDirectory(old(storage.dir), m, source) else old(storage.dir)
    ensures r.Ok? <==> && ValidLimits(limits) && old(storage.procs) == map[]
                       && Importable(storage.hash, old(storage.View()), m, source, limits)
                       && Unhindered(conditions, |old(storage.staging)|, m.artifactDigest in old(storage.dir), source)
    ensures ImportAnswers(storage.hash, old(storage.View()), m, source, limits, conditions, r)
    ensures storage.dir == if ImportChanges(storage.hash, old(storage.View()), m, source, limits, conditions)
                           then FinalDirectory(old(storage.dir), m, source) else old(storage.dir)
  {
    hide ManagedStorage.Valid, LockedOutcome, LockedPlaces, Importable, Unhindered, Imported, OnlyAdds;
    hide ImportAnswers, ImportChanges, Inv;
    StoreIsIntact(storage);
    ImportIsAnswered(storage.hash, storage.View(), m, source, limits, conditions);
    ChangesIffPlaces(storage.hash, storage.View(), m, source, limits, conditions);
    storage.IdleIffUnlocked();
    ImportsIffImportable(storage.hash, storage.View(), m, source, limits, conditions);
    NothingAdded(storage.hash, storage.dir, m);
    if !ValidLimits(limits) { return Err(InvalidLimits); }
    if OpenFails in conditions.faults { return Err(StorageFailed); }
    var locked := storage.TryLock(false, pid, Lifecycle.Install(m, Some(source), InstallOpened));
    if !locked { return Err(StorageInUse); }
    ghost var before := storage.View();
    r := ImportLocked(storage, pid, m, source, limits, conditions);
    ghost var after := storage.View();
    storage.Unlock(false, pid);
    assert storage.procs == map[];
    if r.Ok? { ImportedAnyway(before, after, old(storage.View()), storage.View(), m, source, r.value); }
  }

  lemma StoreIsIntact(storage: ManagedStorage)
    requires storage.Valid()
    ensures StoreInv(storage.store)
  {
    storage.HoldsInvariant();
  }

  /** After a successful import exactly one generation is registered and its bytes are on disk.
      The staging area is empty, and unless the import neither cleared it nor used it, nothing
      in it can come back. */
  ghost predicate Imported(w: World, w': World, m: Manifest, source: Bytes, put: Put) {
    && Installs(w.store, w'.store, m, put)
    && w'.dir == w.dir[m.artifactDigest := File(if m.artifactDigest in w.dir then w.dir[m.artifactDigest].bytes
                                                else source, true)]
    && w'.disk == w'.dir
    && w'.staging == map[]
    && w'.stagingDisk == (if w.staging == map[] && m.artifactDigest in w.dir then w.stagingDisk else map[])
  }

  lemma ImportedAnyway(w: World, w': World, v: World, v': World, m: Manifest, source: Bytes, put: Put)
    requires Imported(w, w', m, source, put) && v.(procs := w.procs) == w && v'.(procs := w'.procs) == w'
    ensures Imported(v, v', m, source, put)
  {
  }

  lemma NothingAdded(hash: Hash, dir: Directory, m: Manifest)
    ensures OnlyAdds(hash, dir, dir, m)
  {
  }

  method ImportLocked(storage: ManagedStorage, pid: Pid, m: Manifest, source: Bytes, limits: Limits,
                      conditions: Conditions)
    returns (r: Result<Put, ImportError>)
    requires storage.Valid() && Running(storage.procs, pid, m, Some(source), InstallOpened)
    modifies storage`store, storage`dir, storage`disk, storage`staging, storage`stagingDisk
    modifies storage`procs, storage`trace
    ensures storage.Valid() && Extends(old(storage.trace), storage.trace) && Installing(storage.procs, pid)
    ensures r.Ok? ==> Imported(old(storage.View()), storage.View(), m, source, r.value)
    ensures r.Err? ==> storage.store == old(storage.store) && OnlyAdds(storage.hash, old(storage.dir), storage.dir, m)
    ensures r == LockedOutcome(storage.hash, old(storage.store), old(storage.dir), |old(storage.staging)|,
                               m, source, limits, conditions)
    ensures storage.dir ==
              if LockedPlaces(storage.hash, old(storage.store), old(storage.dir), |old(storage.staging)|,
                              m, source, limits, conditions)
              then FinalDirectory(old(storage.dir), m, source) else old(storage.dir)
  {
    hide ManagedStorage.Valid, RecoveredUnder, RequestUnder, CheckedOutcome, FileArrives;
    hide ValidManifest, Pending, OnlyAdds;
    NothingAdded(storage.hash, storage.dir, m);
    var recovered := RecoverStaging(storage, pid, m, source, conditions);
    if recovered.Err? { return Err(recovered.error); }
    var checked := CheckRequest(storage, pid, m, Some(source), limits, conditions);
    if checked.Err? { return Err(checked.error); }
    r := PlaceAndRegister(storage, pid, m, source, limits, conditions);
  }

  method PlaceAndRegister(storage: ManagedStorage, pid: Pid, m: Manifest, source: Bytes, limits: Limits,
                          conditions: Conditions)
    returns (r: Result<Put, ImportError>)
    requires storage.Valid() && ValidManifest(m) && storage.staging == map[]
    requires Running(storage.procs, pid, m, Some(source), InstallChecked)
    modifies storage`store, storage`dir, storage`disk, storage`staging, storage`stagingDisk
    modifies storage`procs, storage`trace
    ensures storage.Valid() && Extends(old(storage.trace), storage.trace) && Installing(storage.procs, pid)
    ensures r.Ok? ==> Imported(old(storage.View()), storage.View(), m, source, r.value)
    ensures r.Err? ==> storage.store == old(storage.store) && OnlyAdds(storage.hash, old(storage.dir), storage.dir, m)
    ensures r == CheckedOutcome(storage.hash, old(storage.store), old(storage.dir), m, source, limits, conditions)
    ensures storage.dir == if FileArrives(storage.hash, old(storage.dir), m, source, limits, conditions)
                           then FinalDirectory(old(storage.dir), m, source) else old(storage.dir)
  {
    hide ManagedStorage.Valid, FoundUnder, LinksUnder, AdoptedUnder, PlacedNewUnder, FinishedUnder, SyncsUnder;
    hide ValidManifest, PutInstallation, OnlyAdds, Placed, FinalDirectory, WithSynced;
    ArrivalIsExact(storage.hash, storage.dir, m, source, limits, conditions);
    Arrivals(storage.dir, m, source);
    PlacedNewLinks(storage.hash, m, source, conditions);
    var placed := Place(storage, pid, m, source, limits, conditions);
    if placed.Err? { return Err(placed.error); }
    r := VerifyAndRegister(storage, pid, m, Some(source), limits, conditions);
  }

  lemma PlacedNewLinks(hash: Hash, m: Manifest, source: Bytes, conditions: Conditions)
    ensures PlacedNewUnder(hash, m, source, conditions).Ok? ==> LinksUnder(hash, m, source, conditions)
  {
  }

  lemma Arrivals(dir: Directory, m: Manifest, source: Bytes)
    ensures Placed(dir, m, source) == if m.artifactDigest in dir then dir else FinalDirectory(dir, m, source)
    ensures WithSynced(Placed(dir, m, source), m.artifactDigest) == FinalDirectory(dir, m, source)
    ensures FinalDirectory(dir, m, source)
         == dir[m.artifactDigest := File(if m.artifactDigest in dir then dir[m.artifactDigest].bytes else source, true)]
  {
  }

  /** A file that arrives is exact, and one that was there keeps its bytes. */
  lemma ArrivalIsExact(hash: Hash, dir: Directory, m: Manifest, source: Bytes, limits: Limits, conditions: Conditions)
    ensures OnlyAdds(hash, dir, dir, m)
    ensures FileArrives(hash, dir, m, source, limits, conditions) ==>
              OnlyAdds(hash, dir, FinalDirectory(dir, m, source), m)
  {
  }

  /** Clears the staging directory of files left behind by interrupted imports. It is
      synchronized only if there were any. */
  method RecoverStaging(storage: ManagedStorage, pid: Pid, m: Manifest, source: Bytes, conditions: Conditions)
    returns (r: Result<(), ImportError>)
    requires storage.Valid() && Running(storage.procs, pid, m, Some(source), InstallOpened)
    modifies storage`staging, storage`stagingDisk, storage`procs, storage`trace
    ensures storage.Valid() && Extends(old(storage.trace), storage.trace) && Installing(storage.procs, pid)
    ensures r.Ok? ==>
              && storage.staging == map[]
              && storage.stagingDisk == (if old(storage.staging) == map[] then old(storage.stagingDisk) else map[])
              && Running(storage.procs, pid, m, Some(source), InstallRecovered)
    ensures r == RecoveredUnder(|old(storage.staging)|, conditions)
  {
    hide ManagedStorage.Valid, ApplyInstall, InstallEnabled;
    if RecoveryFails in conditions.faults { return Err(StorageFailed); }
    if |storage.staging| > MAX_RECOVERY_ENTRIES { return Err(StorageEntryLimitExceeded); }
    if storage.staging == map[] {
      NothingToRecover(storage, pid, m, source);
      return Ok(());
    }
    NoneLeft(storage.staging);
    r := RemoveStale(storage, pid, m, source, conditions);
  }

  method NothingToRecover(storage: ManagedStorage, pid: Pid, m: Manifest, source: Bytes)
    requires storage.Valid() && Running(storage.procs, pid, m, Some(source), InstallOpened) && storage.staging == map[]
    modifies storage`procs, storage`trace
    ensures storage.Valid() && Extends(old(storage.trace), storage.trace)
    ensures Running(storage.procs, pid, m, Some(source), InstallRecovered)
  {
    hide IsRun, LockMatches, PutInstallation, ReadState, Pending, ValidManifest, InstalledFrom;
    storage.LogInstall(pid, m, Some(source), InstallOpened, InstallRecovered, InstallRecover);
  }

  method RemoveStale(storage: ManagedStorage, pid: Pid, m: Manifest, source: Bytes, conditions: Conditions)
    returns (r: Result<(), ImportError>)
    requires storage.Valid() && Running(storage.procs, pid, m, Some(source), InstallOpened)
    requires 0 < |storage.staging| <= MAX_RECOVERY_ENTRIES && RecoveryFails !in conditions.faults
    modifies storage`staging, storage`stagingDisk, storage`procs, storage`trace
    ensures storage.Valid() && Extends(old(storage.trace), storage.trace) && Installing(storage.procs, pid)
    ensures r.Ok? ==> && storage.staging == map[] && storage.stagingDisk == map[]
                      && Running(storage.procs, pid, m, Some(source), InstallRecovered)
    ensures r == RecoveredUnder(|old(storage.staging)|, conditions)
  {
    hide ManagedStorage.Valid, ApplyInstall, InstallEnabled;
    var removed := UnstageAll(storage, pid, m, source, conditions);
    if !removed || UnstageSyncFails in conditions.faults { return Err(StorageFailed); }
    SyncStaging(storage, pid, m, source, InstallRecovering, InstallRecovered, InstallSyncUnstaged);
    return Ok(());
  }

  /** Removes the stale files one by one, in any order, until one cannot be removed. */
  method UnstageAll(storage: ManagedStorage, pid: Pid, m: Manifest, source: Bytes, conditions: Conditions)
    returns (all: bool)
    requires storage.Valid() && Running(storage.procs, pid, m, Some(source), InstallOpened) && |storage.staging| > 0
    modifies storage`staging, storage`procs, storage`trace
    ensures storage.Valid() && Extends(old(storage.trace), storage.trace) && Installing(storage.procs, pid)
    ensures all == forall k :: 0 <= k < |old(storage.staging)| ==> UnstageFails(k) !in conditions.faults
    ensures all ==> storage.staging == map[] && Running(storage.procs, pid, m, Some(source), InstallRecovering)
  {
    hide ManagedStorage.Valid, ApplyInstall, InstallEnabled;
    var removed := 0;
    ghost var pc := InstallOpened;
    while storage.staging != map[]
      invariant storage.Valid() && Extends(old(storage.trace), storage.trace)
      invariant Running(storage.procs, pid, m, Some(source), pc)
      invariant pc == if removed == 0 then InstallOpened else InstallRecovering
      invariant |storage.staging| + removed == |old(storage.staging)|
      invariant forall k :: 0 <= k < removed ==> UnstageFails(k) !in conditions.faults
      decreases |storage.staging|
    {
      NoneLeft(storage.staging);
      if UnstageFails(removed) in conditions.faults { return false; }
      Unstage(storage, pid, m, source, pc);
      removed, pc := removed + 1, InstallRecovering;
    }
    NoneLeft(storage.staging);
    return true;
  }

  lemma OneFewer(staging: StagingArea, p: Pid)
    requires p in staging
    ensures |staging - {p}| == |staging| - 1
  {
    assert (staging - {p}).Keys == staging.Keys - {p};
    assert |staging - {p}| == |(staging - {p}).Keys| && |staging| == |staging.Keys|;
  }

  lemma NoneLeft(staging: StagingArea)
    ensures |staging| == 0 <==> staging == map[]
    ensures staging != map[] ==> exists p :: p in staging
  {
    assert |staging| == |staging.Keys|;
    if staging != map[] { assert staging.Keys != {}; }
  }

  method Unstage(storage: ManagedStorage, pid: Pid, m: Manifest, source: Bytes, ghost pc: InstallPc)
    requires storage.Valid() && Running(storage.procs, pid, m, Some(source), pc)
    requires (pc == InstallOpened || pc == InstallRecovering) && storage.staging != map[]
    modifies storage`staging, storage`procs, storage`trace
    ensures storage.Valid() && Extends(old(storage.trace), storage.trace)
    ensures Running(storage.procs, pid, m, Some(source), InstallRecovering)
    ensures |storage.staging| == |old(storage.staging)| - 1
  {
    hide IsRun, LockMatches, PutInstallation, ReadState, Pending, ValidManifest, InstalledFrom;
    NoneLeft(storage.staging);
    var stale :| stale in storage.staging;
    OneFewer(storage.staging, stale);
    storage.staging := storage.staging - {stale};
    storage.LogInstall(pid, m, Some(source), pc, InstallRecovering, InstallUnstage(stale));
  }

  /** After this the staged files removed so far cannot come back. */
  method SyncStaging(storage: ManagedStorage, pid: Pid, m: Manifest, ghost source: Bytes,
                     ghost pc: InstallPc, ghost next: InstallPc, ghost action: Action)
    requires storage.Valid() && Running(storage.procs, pid, m, Some(source), pc)
    requires || (&& pc == InstallRecovering && next == InstallRecovered && action == InstallSyncUnstaged
                 && storage.staging == map[])
             || (pc == InstallUnstaged && next == InstallAdopted && action == InstallSyncCleanup)
             || (pc == InstallDiscarded && next == InstallDone && action == InstallSyncDiscard)
    modifies storage`stagingDisk, storage`procs, storage`trace
    ensures storage.Valid() && Extends(old(storage.trace), storage.trace)
    ensures Running(storage.procs, pid, m, Some(source), next) && storage.stagingDisk == storage.staging
  {
    hide IsRun, LockMatches, PutInstallation, ReadState, Pending, ValidManifest, InstalledFrom;
    storage.stagingDisk := storage.staging;
    storage.LogInstall(pid, m, Some(source), pc, next, action);
  }

  lemma StateIsRead(storage: ManagedStorage, id: Digest)
    requires storage.Valid()
    ensures ReadState(storage.store, id) == Ok((Lookup(storage.store, id).current, Lookup(storage.store, id).removal))
  {
    storage.HoldsInvariant();
    ReadSucceeds(storage.store, id);
  }

  /** Validates the manifest against the limits and refuses while a removal is pending. */
  method CheckRequest(storage: ManagedStorage, pid: Pid, m: Manifest, ghost source: Option<Bytes>, limits: Limits,
                      conditions: Conditions)
    returns (r: Result<(), ImportError>)
    requires storage.Valid()
    requires Running(storage.procs, pid, m, source, if source.Some? then InstallRecovered else InstallOpened)
    modifies storage`procs, storage`trace
    ensures storage.Valid() && Extends(old(storage.trace), storage.trace) && Installing(storage.procs, pid)
    ensures r.Ok? ==>
              && ValidManifest(m)
              && m.byteSize <= limits.maximumArtifactBytes
              && !Pending(storage.store, m.artifactId)
              && Running(storage.procs, pid, m, source, InstallChecked)
    ensures r == RequestUnder(storage.store, m, limits, conditions)
  {
    hide IsRun, LockMatches, ReadState, ValidManifest, PutInstallation;
    if Cancelling(conditions, 0) { return Err(Cancelled); }
    if LayoutChanges in conditions.faults { return Err(StorageChanged); }
    if !ValidManifest(m) { return Err(ImportError.InvalidManifest); }
    if m.byteSize > limits.maximumArtifactBytes {
      return Err(ArtifactTooLarge(m.byteSize, limits.maximumArtifactBytes));
    }
    if ReadFails in conditions.faults { return Err(StateFailed(Database)); }
    StateIsRead(storage, m.artifactId);
    var (current, removal) := ReadState(storage.store, m.artifactId).value;
    if current.None? && removal.Some? && removal.value.phase.Prepared? {
      return Err(ImportError.RemovalPending(Some(removal.value.selection)));
    }
    storage.LogInstall(pid, m, source, if source.Some? then InstallRecovered else InstallOpened,
                       InstallChecked, InstallCheck);
    return Ok(());
  }

  /** Verifies the source and, unless the destination already exists, stages and links it. */
  method Place(storage: ManagedStorage, pid: Pid, m: Manifest, source: Bytes, limits: Limits, conditions: Conditions)
    returns (r: Result<(), ImportError>)
    requires storage.Valid() && ValidManifest(m) && storage.staging == map[]
    requires Running(storage.procs, pid, m, Some(source), InstallChecked)
    modifies storage`dir, storage`disk, storage`staging, storage`stagingDisk, storage`procs, storage`trace
    ensures storage.Valid() && Extends(old(storage.trace), storage.trace) && Installing(storage.procs, pid)
    ensures r.Ok? ==>
              && Running(storage.procs, pid, m, Some(source), InstallAdopted) && storage.staging == map[]
              && storage.stagingDisk ==
                   (if m.artifactDigest in old(storage.dir) then old(storage.stagingDisk) else map[])
    ensures r == PlacedUnder(storage.hash, old(storage.dir), m, source, limits, conditions)
    ensures storage.dir ==
              if FoundUnder(old(storage.dir), m, source, limits, conditions).Ok?
                 && LinksUnder(storage.hash, m, source, conditions)
              then Placed(old(storage.dir), m, source) else old(storage.dir)
  {
    hide ManagedStorage.Valid, PutInstallation, ValidManifest, Pending, ReadState, ApplyInstall, InstallEnabled;
    hide LinksUnder, AdoptedUnder, PlacedNewUnder;
    if SourceFails in conditions.faults { return Err(SourceFailed); }
    if |source| != m.byteSize { return Err(ImportError.SizeMismatch); }
    if LookupFails in conditions.faults { return Err(StorageFailed); }
    var v := Verify(storage.hash, storage.dir, storage.staging, m.artifactDigest, m.byteSize,
                    limits.maximumStorageEntries);
    if v == EntryLimit { return Err(StorageEntryLimitExceeded); }
    if v != Missing {
      r := Adopt(storage, pid, m, source, conditions);
      return;
    }
    r := PlaceNew(storage, pid, m, source, conditions);
  }

  /** No file with this digest is there: the source is staged, checked and linked. */
  method PlaceNew(storage: ManagedStorage, pid: Pid, m: Manifest, source: Bytes, conditions: Conditions)
    returns (r: Result<(), ImportError>)
    requires storage.Valid() && m.artifactDigest !in storage.dir && storage.staging == map[]
    requires Running(storage.procs, pid, m, Some(source), InstallChecked)
    modifies storage`dir, storage`disk, storage`staging, storage`stagingDisk, storage`procs, storage`trace
    ensures storage.Valid() && Extends(old(storage.trace), storage.trace) && Installing(storage.procs, pid)
    ensures r.Ok? ==> && Running(storage.procs, pid, m, Some(source), InstallAdopted)
                      && storage.staging == map[] && storage.stagingDisk == map[]
    ensures r == PlacedNewUnder(storage.hash, m, source, conditions)
    ensures storage.dir == if LinksUnder(storage.hash, m, source, conditions)
                           then old(storage.dir)[m.artifactDigest := File(source, true)] else old(storage.dir)
  {
    hide ManagedStorage.Valid, PutInstallation, ValidManifest, Pending, ReadState, ApplyInstall, InstallEnabled;
    hide CopiedUnder;
    if CreateFails in conditions.faults { return Err(StorageFailed); }
    var staged := Stage(storage, pid, m, source, conditions);
    if staged.Err? { return Err(staged.error); }
    r := CommitStaged(storage, pid, m, source, conditions);
  }

  /** A file with this digest is already there: the source is only read and compared. */
  method Adopt(storage: ManagedStorage, pid: Pid, m: Manifest, source: Bytes, conditions: Conditions)
    returns (r: Result<(), ImportError>)
    requires storage.Valid() && m.artifactDigest in storage.dir
    requires Running(storage.procs, pid, m, Some(source), InstallChecked)
    modifies storage`procs, storage`trace
    ensures storage.Valid() && Extends(old(storage.trace), storage.trace) && Installing(storage.procs, pid)
    ensures r.Ok? ==> Running(storage.procs, pid, m, Some(source), InstallAdopted)
    ensures r == AdoptedUnder(storage.hash, m, source, conditions)
  {
    hide IsRun, LockMatches, PutInstallation, ValidManifest, Pending, ReadState;
    var observed, _, _ := Streaming.CopyAndHash(source, m.byteSize, conditions.pieces, storage.hash);
    if observed.Err? { return Err(MapStreamError(observed.error)); }
    if observed.value != m.artifactDigest { return Err(ImportError.DigestMismatch); }
    if Cancelling(conditions, 1) { return Err(Cancelled); }
    storage.LogInstall(pid, m, Some(source), InstallChecked, InstallAdopted, InstallAdopt);
    return Ok(());
  }

  /** Copies the source into this import's staging file and checks its digest. */
  method Stage(storage: ManagedStorage, pid: Pid, m: Manifest, source: Bytes, conditions: Conditions)
    returns (r: Result<(), ImportError>)
    requires storage.Valid() && m.artifactDigest !in storage.dir && storage.staging == map[]
    requires Running(storage.procs, pid, m, Some(source), InstallChecked)
    modifies storage`staging, storage`stagingDisk, storage`procs, storage`trace
    ensures storage.Valid() && Extends(old(storage.trace), storage.trace) && Installing(storage.procs, pid)
    ensures r.Ok? ==> && Running(storage.procs, pid, m, Some(source), InstallFrozen)
                      && storage.staging == map[pid := Staged(source, false, None)]
                      && storage.stagingDisk.Keys == old(storage.stagingDisk).Keys + {pid}
                      && |source| == m.byteSize && storage.hash(source) == m.artifactDigest
    ensures r == CopiedUnder(storage.hash, m, source, conditions)
  {
    hide ManagedStorage.Valid;
    var observed := CopyToStaging(storage, pid, m, source, conditions.pieces);
    if observed.Err? {
      Discard(storage, pid, m, source, InstallCopying, conditions);
      return Err(MapStreamError(observed.error));
    }
    if observed.value != m.artifactDigest {
      Discard(storage, pid, m, source, InstallCopying, conditions);
      return Err(ImportError.DigestMismatch);
    }
    Freeze(storage, pid, m, source);
    return Ok(());
  }

  ghost method Freeze(storage: ManagedStorage, pid: Pid, m: Manifest, source: Bytes)
    requires storage.Valid() && Running(storage.procs, pid, m, Some(source), InstallCopying)
    requires pid in storage.staging && storage.staging[pid].bytes == source
    requires |source| == m.byteSize && storage.hash(source) == m.artifactDigest
    modifies storage`procs, storage`trace
    ensures storage.Valid() && Extends(old(storage.trace), storage.trace)
    ensures Running(storage.procs, pid, m, Some(source), InstallFrozen)
  {
    hide IsRun, LockMatches, PutInstallation, ReadState, Pending, ValidManifest, InstalledFrom;
    storage.LogInstall(pid, m, Some(source), InstallCopying, InstallFrozen, InstallFreeze);
  }

  /** The staging area holding the first `count` bytes of the source and nothing else. */
  function StagedPrefix(pid: Pid, source: Bytes, count: nat): StagingArea
    requires count <= |source|
  {
    map[pid := Staged(source[..count], false, None)]
  }

  lemma PrefixFacts(pid: Pid, source: Bytes, count: nat)
    requires count <= |source|
    ensures var staging := StagedPrefix(pid, source, count);
            && staging.Keys == {pid} && !staging[pid].synced && staging[pid].link.None?
            && staging[pid].bytes <= source && |staging[pid].bytes| == count
            && (count == |source| ==> staging[pid].bytes == source)
  {
    if count == |source| { assert source[..count] == source; }
  }

  /** Copies the source chunk by chunk, however it is read. Each chunk written is one step of the
      protocol, so an interruption leaves a staged prefix of the source, never longer than expected. */
  method CopyToStaging(storage: ManagedStorage, pid: Pid, m: Manifest, source: Bytes, pieces: nat -> Streaming.Event)
    returns (r: Result<Digest, Streaming.StreamError>)
    requires storage.Valid() && m.artifactDigest !in storage.dir && storage.staging == map[]
    requires Running(storage.procs, pid, m, Some(source), InstallChecked)
    modifies storage`staging, storage`stagingDisk, storage`procs, storage`trace
    ensures storage.Valid() && Extends(old(storage.trace), storage.trace)
    ensures Running(storage.procs, pid, m, Some(source), InstallCopying)
    ensures storage.staging.Keys == {pid} && !storage.staging[pid].synced && storage.staging[pid].link.None?
    ensures storage.staging[pid].bytes <= source && |storage.staging[pid].bytes| <= m.byteSize
    ensures storage.stagingDisk.Keys == old(storage.stagingDisk).Keys + {pid}
    ensures r.Ok? ==> |source| == m.byteSize && storage.staging[pid].bytes == source
    ensures match Streaming.CopyOutcome(source, m.byteSize, pieces, 0, 0)
            case Ok(_) => r == Ok(storage.hash(source))
            case Err(error) => r == Err(error)
  {
    hide ManagedStorage.Valid, StagedPrefix;
    WriteStaged(storage, pid, m, source, 0, InstallChecked);
    var step, observed := 0, 0;
    assert Streaming.GoesOn(source, m.byteSize, pieces, 0, 0);
    while true
      invariant storage.Valid() && Extends(old(storage.trace), storage.trace)
      invariant Running(storage.procs, pid, m, Some(source), InstallCopying)
      invariant observed <= m.byteSize && observed <= |source|
      invariant storage.staging == StagedPrefix(pid, source, observed)
      invariant storage.stagingDisk.Keys == old(storage.stagingDisk).Keys + {pid}
      invariant Streaming.GoesOn(source, m.byteSize, pieces, step, observed)
      decreases |source| - observed
    {
      PrefixFacts(pid, source, observed);
      Streaming.OneRead(source, m.byteSize, pieces, step, observed);
      var event := pieces(step);
      step := step + 1;
      if event.Cancel? { return Err(Streaming.Cancelled); }
      if event.Fault? { return Err(Streaming.IoFailed); }
      var count := Streaming.Yield(event.offered, Streaming.BUFFER_BYTES, |source| - observed);
      if count == 0 { break; }
      if observed + count > m.byteSize { return Err(Streaming.SizeMismatch); }
      observed := observed + count;
      WriteStaged(storage, pid, m, source, observed, InstallCopying);
    }
    PrefixFacts(pid, source, observed);
    if observed != m.byteSize { return Err(Streaming.SizeMismatch); }
    return Ok(storage.hash(storage.staging[pid].bytes));
  }

  /** The staged file now holds the first `count` bytes of the source. */
  method WriteStaged(storage: ManagedStorage, pid: Pid, m: Manifest, source: Bytes, count: nat, ghost pc: InstallPc)
    requires storage.Valid() && storage.staging.Keys <= {pid} && count <= |source|
    requires pc == InstallCopying || (pc == InstallChecked && m.artifactDigest !in storage.dir)
    requires Running(storage.procs, pid, m, Some(source), pc)
    modifies storage`staging, storage`stagingDisk, storage`procs, storage`trace
    ensures storage.Valid() && Extends(old(storage.trace), storage.trace)
    ensures Running(storage.procs, pid, m, Some(source), InstallCopying)
    ensures storage.staging == StagedPrefix(pid, source, count)
    ensures storage.stagingDisk.Keys == old(storage.stagingDisk).Keys + {pid}
  {
    hide IsRun, LockMatches, ApplyInstall, InstallEnabled, StagedPrefix;
    CopyStep(storage.hash, storage.View(), pid, m, source, count, pc);
    storage.staging := StagedPrefix(pid, source, count);
    storage.stagingDisk := storage.stagingDisk[pid := Staged(source[..count], false, None)];
    storage.LogInstall(pid, m, Some(source), pc, InstallCopying, InstallCopy(count));
  }

  lemma CopyStep(hash: Hash, w: World, pid: Pid, m: Manifest, source: Bytes, count: nat, pc: InstallPc)
    requires w.staging.Keys <= {pid} && count <= |source|
    requires pc == InstallCopying || (pc == InstallChecked && m.artifactDigest !in w.dir)
    requires w.procs == map[pid := Lifecycle.Install(m, Some(source), pc)]
    ensures InstallEnabled(hash, w, pid, m, Some(source), pc, InstallCopy(count))
    ensures ApplyInstall(w, pid, m, Some(source), InstallCopy(count))
         == World(w.store, w.dir, w.disk, StagedPrefix(pid, source, count),
                  w.stagingDisk[pid := Staged(source[..count], false, None)],
                  map[pid := Lifecycle.Install(m, Some(source), InstallCopying)])
  {
    assert w.staging[pid := Staged(source[..count], false, None)] == StagedPrefix(pid, source, count);
  }

  method DiscardStaged(storage: ManagedStorage, pid: Pid, m: Manifest, source: Bytes, ghost pc: InstallPc)
    requires storage.Valid() && Running(storage.procs, pid, m, Some(source), pc)
    requires pc != InstallOpened && pc != InstallRecovering && pc != InstallRecovered
    modifies storage`staging, storage`procs, storage`trace
    ensures storage.Valid() && Extends(old(storage.trace), storage.trace)
    ensures Running(storage.procs, pid, m, Some(source), InstallDiscarded)
    ensures storage.staging == old(storage.staging) - {pid}
  {
    hide IsRun, LockMatches, PutInstallation, ReadState, Pending, ValidManifest, InstalledFrom;
    storage.staging := storage.staging - {pid};
    storage.LogInstall(pid, m, Some(source), pc, InstallDiscarded, InstallDiscard);
  }

  /** Best-effort removal of the staged file when an import gives up. */
  method Discard(storage: ManagedStorage, pid: Pid, m: Manifest, source: Bytes, ghost pc: InstallPc,
                 conditions: Conditions)
    requires storage.Valid() && Running(storage.procs, pid, m, Some(source), pc)
    requires pc != InstallOpened && pc != InstallRecovering && pc != InstallRecovered
    modifies storage`staging, storage`stagingDisk, storage`procs, storage`trace
    ensures storage.Valid() && Extends(old(storage.trace), storage.trace) && Installing(storage.procs, pid)
    ensures storage.staging == if CleanupFails in conditions.faults then old(storage.staging)
                               else old(storage.staging) - {pid}
    ensures storage.stagingDisk == if CleanupFails in conditions.faults || SyncStagingFails in conditions.faults
                                   then old(storage.stagingDisk) else storage.staging
  {
    hide ManagedStorage.Valid, ApplyInstall, InstallEnabled;
    if CleanupFails !in conditions.faults {
      DiscardStaged(storage, pid, m, source, pc);
      if SyncStagingFails !in conditions.faults {
        SyncStaging(storage, pid, m, source, InstallDiscarded, InstallDone, InstallSyncDiscard);
      }
    }
  }

  /** Synchronizes the staged bytes, links them under their digest, synchronizes the
      directory and only then drops the staging name. */
  method CommitStaged(storage: ManagedStorage, pid: Pid, m: Manifest, source: Bytes, conditions: Conditions)
    returns (r: Result<(), ImportError>)
    requires storage.Valid() && m.artifactDigest !in storage.dir
    requires Running(storage.procs, pid, m, Some(source), InstallFrozen)
    requires storage.staging == map[pid := Staged(source, false, None)]
    requires |source| == m.byteSize && storage.hash(source) == m.artifactDigest
    modifies storage`dir, storage`disk, storage`staging, storage`stagingDisk, storage`procs, storage`trace
    ensures storage.Valid() && Extends(old(storage.trace), storage.trace) && Installing(storage.procs, pid)
    ensures r.Ok? ==> && Running(storage.procs, pid, m, Some(source), InstallAdopted)
                      && storage.staging == map[] && storage.stagingDisk == map[]
    ensures r == CommittedUnder(conditions)
    ensures storage.dir == if !Cancelling(conditions, 2) && {SyncStagedFails, LinkFails} !! conditions.faults
                           then old(storage.dir)[m.artifactDigest := File(source, true)] else old(storage.dir)
  {
    hide ManagedStorage.Valid, InstallEnabled, ApplyInstall;
    if Cancelling(conditions, 1) || Cancelling(conditions, 2) {
      Discard(storage, pid, m, source, InstallFrozen, conditions);
      return Err(Cancelled);
    }
    if SyncStagedFails in conditions.faults {
      Discard(storage, pid, m, source, InstallFrozen, conditions);
      return Err(StorageFailed);
    }
    SyncStaged(storage, pid, m, source);
    if LinkFails in conditions.faults {
      Discard(storage, pid, m, source, InstallStagedSynced, conditions);
      return Err(StorageFailed);
    }
    r := LinkStaged(storage, pid, m, source, conditions);
  }

  method LinkStaged(storage: ManagedStorage, pid: Pid, m: Manifest, source: Bytes, conditions: Conditions)
    returns (r: Result<(), ImportError>)
    requires storage.Valid() && m.artifactDigest !in storage.dir
    requires Running(storage.procs, pid, m, Some(source), InstallStagedSynced)
    requires storage.staging == map[pid := Staged(source, true, None)]
    modifies storage`dir, storage`disk, storage`staging, storage`stagingDisk, storage`procs, storage`trace
    ensures storage.Valid() && Extends(old(storage.trace), storage.trace) && Installing(storage.procs, pid)
    ensures storage.dir == old(storage.dir)[m.artifactDigest := File(source, true)]
    ensures r.Ok? ==> && Running(storage.procs, pid, m, Some(source), InstallAdopted)
                      && storage.staging == map[] && storage.stagingDisk == map[]
    ensures r == if {SyncLinkFails, CleanupFails, SyncStagingFails} !! conditions.faults then Ok(())
                 else Err(StorageFailed)
  {
    hide ManagedStorage.Valid, InstallEnabled, ApplyInstall;
    Link(storage, pid, m, source);
    if SyncLinkFails in conditions.faults {
      Discard(storage, pid, m, source, InstallLinked, conditions);
      return Err(StorageFailed);
    }
    SyncArtifacts(storage, pid, m, Some(source), InstallLinked, InstallLinkSynced, InstallSyncLink);
    r := CleanUp(storage, pid, m, source, conditions);
  }

  /** Removes the staged name and synchronizes the staging directory. */
  method CleanUp(storage: ManagedStorage, pid: Pid, m: Manifest, source: Bytes, conditions: Conditions)
    returns (r: Result<(), ImportError>)
    requires storage.Valid() && Running(storage.procs, pid, m, Some(source), InstallLinkSynced)
    requires storage.staging.Keys == {pid}
    modifies storage`staging, storage`stagingDisk, storage`procs, storage`trace
    ensures storage.Valid() && Extends(old(storage.trace), storage.trace) && Installing(storage.procs, pid)
    ensures r.Ok? ==> && Running(storage.procs, pid, m, Some(source), InstallAdopted)
                      && storage.staging == map[] && storage.stagingDisk == map[]
    ensures r == if {CleanupFails, SyncStagingFails} !! conditions.faults then Ok(()) else Err(StorageFailed)
  {
    hide ManagedStorage.Valid, InstallEnabled, ApplyInstall;
    if CleanupFails in conditions.faults { return Err(StorageFailed); }
    DropStaged(storage, pid, m, source);
    if SyncStagingFails in conditions.faults { return Err(StorageFailed); }
    SyncStaging(storage, pid, m, source, InstallUnstaged, InstallAdopted, InstallSyncCleanup);
    return Ok(());
  }

  method SyncStaged(storage: ManagedStorage, pid: Pid, m: Manifest, source: Bytes)
    requires storage.Valid() && Running(storage.procs, pid, m, Some(source), InstallFrozen)
    requires storage.staging == map[pid := Staged(source, false, None)]
    modifies storage`staging, storage`stagingDisk, storage`procs, storage`trace
    ensures storage.Valid() && Extends(old(storage.trace), storage.trace)
    ensures Running(storage.procs, pid, m, Some(source), InstallStagedSynced)
    ensures storage.staging == map[pid := Staged(source, true, None)]
    ensures storage.stagingDisk == old(storage.stagingDisk)[pid := Staged(source, true, None)]
  {
    hide IsRun, LockMatches, PutInstallation, ReadState, Pending, ValidManifest, InstalledFrom;
    storage.staging := map[pid := Staged(source, true, None)];
    storage.stagingDisk := storage.stagingDisk[pid := Staged(source, true, None)];
    storage.LogInstall(pid, m, Some(source), InstallFrozen, InstallStagedSynced, InstallSyncStaged);
  }

  method Link(storage: ManagedStorage, pid: Pid, m: Manifest, source: Bytes)
    requires storage.Valid() && Running(storage.procs, pid, m, Some(source), InstallStagedSynced)
    requires storage.staging == map[pid := Staged(source, true, None)] && m.artifactDigest !in storage.dir
    modifies storage`dir, storage`staging, storage`stagingDisk, storage`procs, storage`trace
    ensures storage.Valid() && Extends(old(storage.trace), storage.trace)
    ensures Running(storage.procs, pid, m, Some(source), InstallLinked)
    ensures storage.dir == old(storage.dir)[m.artifactDigest := File(source, true)]
    ensures storage.staging == map[pid := Staged(source, true, Some(m.artifactDigest))]
    ensures storage.stagingDisk == old(storage.stagingDisk)[pid := Staged(source, true, Some(m.artifactDigest))]
  {
    hide IsRun, LockMatches, ApplyInstall, InstallEnabled;
    LinkStep(storage.hash, storage.View(), pid, m, source);
    storage.dir := storage.dir[m.artifactDigest := File(source, true)];
    storage.staging := map[pid := Staged(source, true, Some(m.artifactDigest))];
    storage.stagingDisk := storage.stagingDisk[pid := Staged(source, true, Some(m.artifactDigest))];
    storage.LogInstall(pid, m, Some(source), InstallStagedSynced, InstallLinked, InstallLink);
  }

  lemma LinkStep(hash: Hash, w: World, pid: Pid, m: Manifest, source: Bytes)
    requires w.procs == map[pid := Lifecycle.Install(m, Some(source), InstallStagedSynced)]
    requires w.staging == map[pid := Staged(source, true, None)] && m.artifactDigest !in w.dir
    ensures InstallEnabled(hash, w, pid, m, Some(source), InstallStagedSynced, InstallLink)
    ensures var linked := Staged(source, true, Some(m.artifactDigest));
            ApplyInstall(w, pid, m, Some(source), InstallLink)
            == World(w.store, w.dir[m.artifactDigest := File(source, true)], w.disk, map[pid := linked],
                     w.stagingDisk[pid := linked], map[pid := Lifecycle.Install(m, Some(source), InstallLinked)])
  {
    var linked := Staged(source, true, Some(m.artifactDigest));
    assert w.staging[pid := linked] == map[pid := linked];
  }

  method SyncArtifacts(storage: ManagedStorage, pid: Pid, m: Manifest, ghost source: Option<Bytes>,
                       ghost pc: InstallPc, ghost next: InstallPc, ghost action: Action)
    requires storage.Valid() && Running(storage.procs, pid, m, source, pc)
    requires || (pc == InstallLinked && next == InstallLinkSynced && action == InstallSyncLink)
             || (pc == InstallVerified && next == InstallVerifiedSynced && action == InstallVerifySync)
    modifies storage`disk, storage`procs, storage`trace
    ensures storage.Valid() && Extends(old(storage.trace), storage.trace)
    ensures Running(storage.procs, pid, m, source, next) && storage.disk == storage.dir
  {
    hide IsRun, LockMatches, PutInstallation, ReadState, Pending, ValidManifest, InstalledFrom;
    storage.disk := storage.dir;
    storage.LogInstall(pid, m, source, pc, next, action);
  }

  /** Removes the staged name; until the staging directory is synchronized it may come back. */
  method DropStaged(storage: ManagedStorage, pid: Pid, m: Manifest, source: Bytes)
    requires storage.Valid() && Running(storage.procs, pid, m, Some(source), InstallLinkSynced)
    requires storage.staging.Keys == {pid}
    modifies storage`staging, storage`procs, storage`trace
    ensures storage.Valid() && Extends(old(storage.trace), storage.trace)
    ensures Running(storage.procs, pid, m, Some(source), InstallUnstaged) && storage.staging == map[]
  {
    hide IsRun, LockMatches, PutInstallation, ReadState, Pending, ValidManifest, InstalledFrom;
    storage.staging := storage.staging - {pid};
    assert storage.staging == map[];
    storage.LogInstall(pid, m, Some(source), InstallLinkSynced, InstallUnstaged, InstallCleanup);
  }

  method SyncFile(storage: ManagedStorage, pid: Pid, m: Manifest, ghost source: Option<Bytes>)
    requires storage.Valid() && Running(storage.procs, pid, m, source, InstallAdopted)
    requires Exact(storage.hash, storage.dir, m.artifactDigest, m.byteSize)
    requires !Aliased(storage.staging, m.artifactDigest)
    modifies storage`dir, storage`procs, storage`trace
    ensures storage.Valid() && Extends(old(storage.trace), storage.trace)
    ensures Running(storage.procs, pid, m, source, InstallVerified)
    ensures storage.dir == WithSynced(old(storage.dir), m.artifactDigest)
  {
    hide IsRun, LockMatches, PutInstallation, ReadState, Pending, ValidManifest, InstalledFrom;
    storage.dir := storage.dir[m.artifactDigest := storage.dir[m.artifactDigest].(synced := true)];
    storage.LogInstall(pid, m, source, InstallAdopted, InstallVerified, InstallVerify);
  }

  /** Re-verifies the stored bytes, synchronizes file and directory, and registers. */
  method VerifyAndRegister(storage: ManagedStorage, pid: Pid, m: Manifest, source: Option<Bytes>, limits: Limits,
                           conditions: Conditions)
    returns (r: Result<Put, ImportError>)
    requires storage.Valid() && Running(storage.procs, pid, m, source, InstallAdopted)
    modifies storage`store, storage`dir, storage`disk, storage`procs, storage`trace
    ensures storage.Valid() && Extends(old(storage.trace), storage.trace) && Installing(storage.procs, pid)
    ensures r.Ok? ==>
              && Installs(old(storage.store), storage.store, m, r.value)
              && m.artifactDigest in old(storage.dir)
              && storage.dir == WithSynced(old(storage.dir), m.artifactDigest) && storage.disk == storage.dir
    ensures r.Err? ==> storage.store == old(storage.store)
    ensures r == FinishedUnder(storage.hash, old(storage.store), old(storage.dir), storage.staging, m, source.Some?,
                               limits, conditions)
    ensures storage.dir == if SyncsUnder(storage.hash, old(storage.dir), storage.staging, m, limits, conditions)
                           then WithSynced(old(storage.dir), m.artifactDigest) else old(storage.dir)
  {
    hide ManagedStorage.Valid, StoredUnder, RegisterOutcome, SyncsUnder;
    var verified := VerifyStored(storage, pid, m, source, limits, conditions);
    if verified.Err? { return Err(verified.error); }
    if LayoutChangesLater in conditions.faults { return Err(StorageChanged); }
    if Cancelling(conditions, 5) { return Err(Cancelled); }
    r := RegisterState(storage, pid, m, source, conditions);
  }

  method VerifyStored(storage: ManagedStorage, pid: Pid, m: Manifest, source: Option<Bytes>, limits: Limits,
                      conditions: Conditions)
    returns (r: Result<(), ImportError>)
    requires storage.Valid() && Running(storage.procs, pid, m, source, InstallAdopted)
    modifies storage`dir, storage`disk, storage`procs, storage`trace
    ensures storage.Valid() && Extends(old(storage.trace), storage.trace) && Installing(storage.procs, pid)
    ensures r.Ok? ==> && Running(storage.procs, pid, m, source, InstallVerifiedSynced)
                      && m.artifactDigest in old(storage.dir) && storage.disk == storage.dir
                      && storage.dir == WithSynced(old(storage.dir), m.artifactDigest)
    ensures r == StoredUnder(storage.hash, old(storage.dir), storage.staging, m, source.Some?, limits, conditions)
    ensures storage.dir == if SyncsUnder(storage.hash, old(storage.dir), storage.staging, m, limits, conditions)
                           then WithSynced(old(storage.dir), m.artifactDigest) else old(storage.dir)
  {
    hide ManagedStorage.Valid, InstallEnabled, ApplyInstall, StoredUnder, SyncsUnder, Exact, Aliased;
    var checked := CheckStored(storage, m, source.Some?, limits, conditions);
    if checked.Err? { return Err(checked.error); }
    r := SyncStored(storage, pid, m, source, conditions);
  }

  method SyncStored(storage: ManagedStorage, pid: Pid, m: Manifest, source: Option<Bytes>, conditions: Conditions)
    returns (r: Result<(), ImportError>)
    requires storage.Valid() && Running(storage.procs, pid, m, source, InstallAdopted)
    requires Exact(storage.hash, storage.dir, m.artifactDigest, m.byteSize)
    requires !Aliased(storage.staging, m.artifactDigest)
    modifies storage`dir, storage`disk, storage`procs, storage`trace
    ensures storage.Valid() && Extends(old(storage.trace), storage.trace) && Installing(storage.procs, pid)
    ensures storage.dir == WithSynced(old(storage.dir), m.artifactDigest)
    ensures r.Ok? ==> Running(storage.procs, pid, m, source, InstallVerifiedSynced) && storage.disk == storage.dir
    ensures r == if SyncDirectoryFails in conditions.faults then Err(StorageFailed) else Ok(())
  {
    hide ManagedStorage.Valid, InstallEnabled, ApplyInstall, Exact, Aliased, WithSynced;
    SyncFile(storage, pid, m, source);
    if SyncDirectoryFails in conditions.faults { return Err(StorageFailed); }
    SyncArtifacts(storage, pid, m, source, InstallVerified, InstallVerifiedSynced, InstallVerifySync);
    return Ok(());
  }

  /** Compares the stored bytes with the manifest, without changing anything. */
  method CheckStored(storage: ManagedStorage, m: Manifest, importing: bool, limits: Limits, conditions: Conditions)
    returns (r: Result<(), ImportError>)
    ensures r.Ok? ==> && Exact(storage.hash, storage.dir, m.artifactDigest, m.byteSize)
                      && !Aliased(storage.staging, m.artifactDigest) && m.artifactDigest in storage.dir
    ensures r.Ok? <==> SyncsUnder(storage.hash, storage.dir, storage.staging, m, limits, conditions)
    ensures var stored := StoredUnder(storage.hash, storage.dir, storage.staging, m, importing, limits, conditions);
            if r.Ok? then stored == if SyncDirectoryFails in conditions.faults then Err(StorageFailed) else Ok(())
            else r == stored
  {
    hide ManagedStorage.Valid;
    hide Aliased;
    if Cancelling(conditions, 3) || Cancelling(conditions, 4) { return Err(Cancelled); }
    if VerifyFails in conditions.faults { return Err(StorageFailed); }
    var v := Verify(storage.hash, storage.dir, storage.staging, m.artifactDigest, m.byteSize,
                    limits.maximumStorageEntries);
    if v != Verified { return Err(MapVerification(v, importing)); }
    if SyncFileFails in conditions.faults { return Err(StorageFailed); }
    return Ok(());
  }

  method RegisterState(storage: ManagedStorage, pid: Pid, m: Manifest, ghost source: Option<Bytes>,
                       conditions: Conditions)
    returns (r: Result<Put, ImportError>)
    requires storage.Valid() && Running(storage.procs, pid, m, source, InstallVerifiedSynced)
    modifies storage`store, storage`procs, storage`trace
    ensures storage.Valid() && Extends(old(storage.trace), storage.trace) && Installing(storage.procs, pid)
    ensures r.Ok? ==>
              Installs(old(storage.store), storage.store, m, r.value)
    ensures r.Err? ==> storage.store == old(storage.store)
    ensures r == if RegisterFails in conditions.faults then Err(StateFailed(Database))
                 else RegisterOutcome(old(storage.store), m)
  {
    hide ManagedStorage.Valid, PutInstallation, InstalledFrom;
    if RegisterFails in conditions.faults { return Err(StateFailed(Database)); }
    var tx := PutInstallation(storage.store, m, InstalledFrom(m));
    if tx.result.Err? { return Err(MapStoreError(tx.result.error)); }
    RegistrationIsCurrent(storage, m);
    CommitRegistration(storage, pid, m, source);
    return Ok(tx.result.value);
  }

  method CommitRegistration(storage: ManagedStorage, pid: Pid, m: Manifest, ghost source: Option<Bytes>)
    requires storage.Valid() && Running(storage.procs, pid, m, source, InstallVerifiedSynced)
    requires PutInstallation(storage.store, m, InstalledFrom(m)).result.Ok?
    modifies storage`store, storage`procs, storage`trace
    ensures storage.Valid() && Extends(old(storage.trace), storage.trace)
    ensures Running(storage.procs, pid, m, source, InstallDone)
    ensures storage.store == FinalStore(old(storage.store), m)
  {
    hide IsRun, LockMatches, PutInstallation, ReadState, Pending, ValidManifest, InstalledFrom;
    storage.store := PutInstallation(storage.store, m, InstalledFrom(m)).store;
    storage.LogInstall(pid, m, source, InstallVerifiedSynced, InstallDone, InstallRegister);
  }

  lemma RegistrationIsCurrent(storage: ManagedStorage, m: Manifest)
    requires storage.Valid() && PutInstallation(storage.store, m, InstalledFrom(m)).result.Ok?
    ensures Installs(storage.store, FinalStore(storage.store, m), m,
                     PutInstallation(storage.store, m, InstalledFrom(m)).result.value)
  {
    hide PutInstallation, StoreInv, ValidManifest, ValidInstalled;
    storage.HoldsInvariant();
    RegisteredIsCurrent(storage.store, m);
    RegistrationTable(storage.store, m, InstalledFrom(m));
  }

  /** Registers bytes already in storage, selected by manifest alone. */
  method Reconcile(storage: ManagedStorage, pid: Pid, m: Manifest, limits: Limits, conditions: Conditions)
    returns (r: Result<Put, ImportError>)
    requires storage.Valid() && pid !in storage.procs
    modifies storage
    ensures storage.Valid() && Extends(old(storage.trace), storage.trace) && storage.procs == old(storage.procs)
    ensures storage.staging == old(storage.staging) && storage.stagingDisk == old(storage.stagingDisk)
    ensures r.Ok? ==>
              Installs(old(storage.store), storage.store, m, r.value)
    ensures r.Err? ==> storage.store == old(storage.store)
    ensures storage.dir == old(storage.dir) || storage.dir == WithSynced(old(storage.dir), m.artifactDigest)
    ensures r == ReconcileOutcome(storage.hash, old(storage.store), old(storage.dir), storage.staging,
                                  old(storage.procs) == map[], m, limits, conditions)
    ensures r.Ok? <==> && ValidLimits(limits) && old(storage.procs) == map[] && Registers(conditions)
                       && m.artifactDigest in old(storage.dir) && !Aliased(storage.staging, m.artifactDigest)
                       && Registrable(storage.hash, old(storage.View()), m, limits)
    ensures ReconcileAnswers(storage.hash, old(storage.View()), m, limits, conditions, r)
  {
    hide ManagedStorage.Valid, LockedReconcileOutcome, Registrable, Registers, ReconcileAnswers, Inv;
    StoreIsIntact(storage);
    ReconcileIsAnswered(storage.hash, storage.View(), m, limits, conditions);
    storage.IdleIffUnlocked();
    ReconcilesIffRegistrable(storage.hash, storage.View(), m, limits, conditions);
    if !ValidLimits(limits) { return Err(InvalidLimits); }
    if OpenFails in conditions.faults { return Err(StorageFailed); }
    var locked := storage.TryLock(false, pid, Lifecycle.Install(m, None, InstallOpened));
    if !locked { return Err(StorageInUse); }
    r := ReconcileLocked(storage, pid, m, limits, conditions);
    storage.Unlock(false, pid);
    assert storage.procs == map[];
  }

  method ReconcileLocked(storage: ManagedStorage, pid: Pid, m: Manifest, limits: Limits, conditions: Conditions)
    returns (r: Result<Put, ImportError>)
    requires storage.Valid() && Running(storage.procs, pid, m, None, InstallOpened)
    modifies storage`store, storage`dir, storage`disk, storage`procs, storage`trace
    ensures storage.Valid() && Extends(old(storage.trace), storage.trace) && Installing(storage.procs, pid)
    ensures r.Ok? ==>
              Installs(old(storage.store), storage.store, m, r.value)
    ensures r.Err? ==> storage.store == old(storage.store)
    ensures storage.dir == old(storage.dir) || storage.dir == WithSynced(old(storage.dir), m.artifactDigest)
    ensures r == LockedReconcileOutcome(storage.hash, old(storage.store), old(storage.dir), storage.staging, m, limits,
                                        conditions)
  {
    hide ManagedStorage.Valid, RequestUnder, FinishedUnder, ValidManifest, Pending;
    var checked := CheckRequest(storage, pid, m, None, limits, conditions);
    if checked.Err? { return Err(checked.error); }
    AdoptStored(storage, pid, m);
    r := VerifyAndRegister(storage, pid, m, None, limits, conditions);
  }

  ghost method AdoptStored(storage: ManagedStorage, pid: Pid, m: Manifest)
    requires storage.Valid() && Running(storage.procs, pid, m, None, InstallChecked)
    modifies storage`procs, storage`trace
    ensures storage.Valid() && Extends(old(storage.trace), storage.trace)
    ensures Running(storage.procs, pid, m, None, InstallAdopted)
  {
    storage.LogInstall(pid, m, None, InstallChecked, InstallAdopted, InstallAdopt);
  }
}
