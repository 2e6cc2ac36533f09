/**
 Removal of one exact installed generation, and its recovery.

 Faults of the file system and of the database, and the moment cancellation becomes
 visible, are parameters. A failed transaction commits nothing; a failing unlink may
 fail before or after the name is gone.
 */
module ArtifactRemoval {
  import opened Text
  import opened Artifacts
  import opened StateStore
  import opened Lifecycle
  import opened LifecycleSafety
  import opened ManagedStorage

  datatype Disposition = Removed | Recovered | AlreadyRemoved

  datatype RecoveryCause = Storage | StorageIo | State(error: StoreError)

  datatype RemovalError =
    | InvalidLimits | InvalidSelection | ArtifactTooLarge(actual: nat, maximum: nat)
    | StorageInUse | StorageEntryLimitExceeded | StaleSelection | ActiveArtifact | BytesMissing
    | StorageConflict | StorageChanged | Cancelled | StorageFailed
    | StateCorrupt(corrupt: StoreError) | StateFailed(failed: StoreError)
    | RecoveryRequired(cause: RecoveryCause)

  datatype Fault =
    | OpenFails | LayoutChangedFirst | ReadFails | VerifyFails | VerifySyncFails | LayoutChangedLater
    | RecheckFails | PrepareFails | UnlinkFailsBefore | UnlinkFailsAfter | AbsenceCheckFails
    | SyncFails | LayoutChangedLast | CompleteFails

  /** `cancelledFrom` is the number of the first cancellation check that sees the request. */
  datatype Conditions = Conditions(faults: set<Fault>, cancelledFrom: nat)

  const CANCELLATION_CHECKS: nat := 4

  predicate Cancelling(conditions: Conditions, check: nat) {
    conditions.cancelledFrom <= check
  }

  function MapVerification(v: Verification): RemovalError
    requires v != Verified
  {
    match v
    case Missing => BytesMissing
    case EntryLimit => StorageEntryLimitExceeded
    case SecondLink => StorageChanged
    case _ => StorageConflict
  }

  function MapStoreError(error: StoreError): (mapped: RemovalError)
    ensures !mapped.RecoveryRequired?
  {
    match error
    case ActiveArtifact => RemovalError.ActiveArtifact
    case StaleInstallation => StaleSelection
    case MissingRecord => StaleSelection
    case InvalidManifest => StateCorrupt(error)
    case InvalidInstallation => StateCorrupt(error)
    case CorruptRecord => StateCorrupt(error)
    case InvalidActiveBinding => StateCorrupt(error)
    case _ => StateFailed(error)
  }

  /** After preparation every failure asks for recovery; only its cause is kept. */
  function MapPreparedError(error: RemovalError): (mapped: RemovalError)
    ensures mapped.RecoveryRequired?
  {
    if error == StorageFailed then RecoveryRequired(StorageIo) else RecoveryRequired(Storage)
  }

  predicate Gone(w: World, selection: Installation) {
    IsCompleted(w.store, selection) && Name(selection) !in w.dir && Name(selection) !in w.disk
  }

  predicate SameAuthority(w: World, w': World) {
    w'.store == w.store && w'.dir == w.dir
  }

  /** Nothing but the selected artifact is affected. */
  ghost predicate OthersUntouched(w: World, w': World, selection: Installation) {
    && w'.staging == w.staging && w'.stagingDisk == w.stagingDisk && w'.store.bindings == w.store.bindings
    && (forall id :: id != Name(selection) ==> Lookup(w'.store, id) == Lookup(w.store, id))
    && (forall name :: name != Name(selection) ==>
          (name in w'.dir <==> name in w.dir) && (name in w.dir ==> w'.dir[name] == w.dir[name]))
  }

  /** What each outcome says about the durable state. */
  ghost predicate Outcome(w: World, w': World, selection: Installation, r: Result<Disposition, RemovalError>) {
    match r
    case Ok(Removed) => IsCurrent(w.store, selection) && Gone(w', selection)
    case Ok(Recovered) => IsPrepared(w.store, selection) && Gone(w', selection)
    case Ok(AlreadyRemoved) => IsCompleted(w.store, selection) && w' == w
    case Err(RecoveryRequired(_)) => IsPrepared(w'.store, selection)
    case Err(_) => SameAuthority(w, w')
  }

  /** The exact condition, on a selection and its storage, for a fault-free removal to
      succeed under the lock. Bytes that are there must have one link, and recovery of absent
      bytes needs one entry to spare. */
  ghost predicate Removable(w: World, selection: Installation, limits: Limits) {
    && ValidSelection(selection)
    && (|| IsCompleted(w.store, selection)
        || (&& selection.installed.byteSize <= limits.maximumArtifactBytes
            && |w.dir| <= limits.maximumStorageEntries
            && (Name(selection) in w.dir ==> !Aliased(w.staging, Name(selection)))
            && (|| (IsPrepared(w.store, selection)
                    && (Name(selection) in w.dir || |w.dir| < limits.maximumStorageEntries))
                || (IsCurrent(w.store, selection) && !IsActive(w.store, Name(selection))))))
  }

  /** The directory is too full to say whether the selected name is there. */
  predicate TooFull(dir: Directory, selection: Installation, limits: Limits) {
    |dir| > limits.maximumStorageEntries || (Name(selection) !in dir && |dir| == limits.maximumStorageEntries)
  }

  /** What a request amounts to: nothing left to do, a recovery or a fresh removal. */
  function Selected(s: Store, selection: Installation, limits: Limits): Result<Option<bool>, RemovalError> {
    var size := selection.installed.byteSize;
    if !ValidSelection(selection) then Err(InvalidSelection)
    else if IsCompleted(s, selection) then Ok(None)
    else if size > limits.maximumArtifactBytes then
      Err(if IsPrepared(s, selection) then RecoveryRequired(Storage)
          else ArtifactTooLarge(size, limits.maximumArtifactBytes))
    else if IsPrepared(s, selection) then Ok(Some(true))
    else if IsCurrent(s, selection) then Ok(Some(false))
    else Err(StaleSelection)
  }

  // ----------------------------------------------------------------------------------
  // The one outcome of a call, for every set of faults and every moment of cancellation.
  // Cancellation matters only before preparation, and never to a recovery.

  function SelectedUnder(s: Store, selection: Installation, limits: Limits, conditions: Conditions)
    : Result<Option<bool>, RemovalError>
  {
    var selected := Selected(s, selection, limits);
    if !ValidSelection(selection) then Err(InvalidSelection)
    else if LayoutChangedFirst in conditions.faults then Err(StorageChanged)
    else if ReadFails in conditions.faults then Err(StateFailed(Database))
    else if selected == Ok(Some(false)) && conditions.cancelledFrom <= 1 then Err(Cancelled)
    else selected
  }

  function VerifiedUnder(dir: Directory, aliased: bool, selection: Installation, limits: Limits, recovering: bool,
                         conditions: Conditions): Result<bool, RemovalError>
  {
    if VerifyFails in conditions.faults then Err(StorageFailed)
    else if !recovering && conditions.cancelledFrom <= 2 then Err(Cancelled)
    else if TooFull(dir, selection, limits) then Err(StorageEntryLimitExceeded)
    else if Name(selection) in dir && aliased then Err(StorageChanged)
    else if Name(selection) in dir && VerifySyncFails in conditions.faults then Err(StorageFailed)
    else Ok(Name(selection) in dir)
  }

  function PreparedUnder(s: Store, selection: Installation, recovering: bool, conditions: Conditions)
    : Result<(), RemovalError>
  {
    if PrepareFails in conditions.faults then Err(StateFailed(Database))
    else if recovering || !IsActive(s, Name(selection)) then Ok(())
    else Err(RemovalError.ActiveArtifact)
  }

  function UnlinkedUnder(found: bool, conditions: Conditions): Result<(), RemovalError> {
    if (if found then UnlinkFailsBefore in conditions.faults || UnlinkFailsAfter in conditions.faults
        else AbsenceCheckFails in conditions.faults) then Err(RecoveryRequired(StorageIo))
    else Ok(())
  }

  function FinishedUnder(found: bool, conditions: Conditions): Result<(), RemovalError> {
    if UnlinkedUnder(found, conditions).Err? || SyncFails in conditions.faults then Err(RecoveryRequired(StorageIo))
    else if LayoutChangedLast in conditions.faults then Err(RecoveryRequired(Storage))
    else if CompleteFails in conditions.faults then Err(RecoveryRequired(State(Database)))
    else Ok(())
  }

  /** The journal gets to be prepared, or stays so and the recovery goes on. */
  predicate GoesOn(s: Store, dir: Directory, aliased: bool, selection: Installation, limits: Limits, recovering: bool,
                   conditions: Conditions)
  {
    && VerifiedUnder(dir, aliased, selection, limits, recovering, conditions).Ok?
    && (recovering || (&& conditions.cancelledFrom > 3
                       && LayoutChangedLater !in conditions.faults && RecheckFails !in conditions.faults))
    && PreparedUnder(s, selection, recovering, conditions).Ok?
  }

  function PreparedOutcome(s: Store, selection: Installation, recovering: bool, found: bool, conditions: Conditions)
    : Result<Disposition, RemovalError>
  {
    var prepared, finished := PreparedUnder(s, selection, recovering, conditions), FinishedUnder(found, conditions);
    if prepared.Err? then Err(prepared.error)
    else if finished.Err? then Err(finished.error)
    else Ok(if recovering then Recovered else Removed)
  }

  function SelectedOutcome(s: Store, dir: Directory, aliased: bool, selection: Installation, limits: Limits,
                           recovering: bool, conditions: Conditions): Result<Disposition, RemovalError>
  {
    var verified := VerifiedUnder(dir, aliased, selection, limits, recovering, conditions);
    if verified.Err? then Err(if recovering then MapPreparedError(verified.error) else verified.error)
    else if !recovering && conditions.cancelledFrom <= 3 then Err(Cancelled)
    else if !recovering && (LayoutChangedLater in conditions.faults || RecheckFails in conditions.faults) then
      Err(StorageChanged)
    else PreparedOutcome(s, selection, recovering, verified.value, conditions)
  }

  function LockedOutcome(s: Store, dir: Directory, aliased: bool, selection: Installation, limits: Limits,
                         conditions: Conditions): Result<Disposition, RemovalError>
  {
    match SelectedUnder(s, selection, limits, conditions)
    case Err(error) => Err(error)
    case Ok(None) => Ok(AlreadyRemoved)
    case Ok(Some(recovering)) => SelectedOutcome(s, dir, aliased, selection, limits, recovering, conditions)
  }

  /** The call takes the file away, whether or not it succeeds in the end. */
  predicate LockedUnlinks(s: Store, dir: Directory, aliased: bool, selection: Installation, limits: Limits,
                          conditions: Conditions)
  {
    var selected := SelectedUnder(s, selection, limits, conditions);
    && selected.Ok? && selected.value.Some?
    && GoesOn(s, dir, aliased, selection, limits, selected.value.value, conditions)
    && UnlinkFailsBefore !in conditions.faults
  }

  /** The same for a whole call, which first needs valid limits and a free lock. */
  function CallOutcome(s: Store, dir: Directory, staging: StagingArea, idle: bool, selection: Installation,
                       limits: Limits, conditions: Conditions): Result<Disposition, RemovalError>
  {
    if !ValidLimits(limits) then Err(InvalidLimits)
    else if OpenFails in conditions.faults then Err(StorageFailed)
    else if !idle then Err(StorageInUse)
    else LockedOutcome(s, dir, Aliased(staging, Name(selection)), selection, limits, conditions)
  }

  predicate CallUnlinks(s: Store, dir: Directory, staging: StagingArea, idle: bool, selection: Installation,
                        limits: Limits, conditions: Conditions)
  {
    && ValidLimits(limits) && OpenFails !in conditions.faults && idle
    && LockedUnlinks(s, dir, Aliased(staging, Name(selection)), selection, limits, conditions)
  }

  /** Faults and cancellation that leave a removal alone: only the absence check never happens to a
      fresh one; a recovery ignores cancellation and the rechecks before preparation, and what else
      it ignores depends on whether the bytes are still there. */
  predicate Unhindered(conditions: Conditions, recovering: bool, found: bool) {
    if !recovering then
      conditions.faults <= {AbsenceCheckFails} && conditions.cancelledFrom >= CANCELLATION_CHECKS
    else if found then
      conditions.faults <= {LayoutChangedLater, RecheckFails, AbsenceCheckFails}
    else
      conditions.faults <= {LayoutChangedLater, RecheckFails, VerifySyncFails, UnlinkFailsBefore, UnlinkFailsAfter}
  }

  const EVERY_FAULT := {
    OpenFails, LayoutChangedFirst, ReadFails, VerifyFails, VerifySyncFails, LayoutChangedLater, RecheckFails,
    PrepareFails, UnlinkFailsBefore, UnlinkFailsAfter, AbsenceCheckFails, SyncFails, LayoutChangedLast, CompleteFails}

  lemma EveryFaultIsListed(f: Fault)
    ensures f in EVERY_FAULT
  {
    match f {
      case OpenFails =>
      case LayoutChangedFirst =>
      case ReadFails =>
      case VerifyFails =>
      case VerifySyncFails =>
      case LayoutChangedLater =>
      case RecheckFails =>
      case PrepareFails =>
      case UnlinkFailsBefore =>
      case UnlinkFailsAfter =>
      case AbsenceCheckFails =>
      case SyncFails =>
      case LayoutChangedLast =>
      case CompleteFails =>
    }
  }

  lemma UnhinderedExactly(conditions: Conditions, recovering: bool, found: bool)
    requires !recovering ==> found
    ensures Unhindered(conditions, recovering, found) <==>
              && {OpenFails, LayoutChangedFirst, ReadFails, VerifyFails, PrepareFails} !! conditions.faults
              && FinishedUnder(found, conditions).Ok?
              && (found ==> VerifySyncFails !in conditions.faults)
              && (recovering || (&& {LayoutChangedLater, RecheckFails} !! conditions.faults
                                 && conditions.cancelledFrom >= CANCELLATION_CHECKS))
  {
    forall f | f in conditions.faults ensures f in EVERY_FAULT {
      EveryFaultIsListed(f);
    }
  }

  /** Success in terms of the inputs alone, for every set of faults: a fresh removal succeeds exactly
      when its generation is current and removable and nothing hinders it, a recovery exactly when its
      journal is prepared and removable and nothing hinders it. */
  lemma SucceedsExactly(hash: Hash, w: World, selection: Installation, limits: Limits, conditions: Conditions)
    requires Inv(hash, w)
    ensures var r := CallOutcome(w.store, w.dir, w.staging, w.procs == map[], selection, limits, conditions);
            && (r == Ok(Removed) <==> RemovesCurrent(w, selection, limits, conditions))
            && (r == Ok(Recovered) <==> RecoversPrepared(w, selection, limits, conditions))
  {
    hide ValidSelection, UnlinkedUnder;
    var found := Name(selection) in w.dir;
    if IsPrepared(w.store, selection) {
      PreparedHasNoCurrent(w.store, selection);
      UnhinderedExactly(conditions, true, found);
    } else if IsCurrent(w.store, selection) {
      CurrentIsNotCompleted(hash, w, selection);
      UnhinderedExactly(conditions, false, true);
    }
  }

  lemma CurrentIsNotCompleted(hash: Hash, w: World, selection: Installation)
    requires Inv(hash, w) && IsCurrent(w.store, selection)
    ensures !IsCompleted(w.store, selection) && Name(selection) in w.dir && ValidSelection(selection)
  {
    var id := selection.installed.artifactId;
    assert BytesOk(hash, Lookup(w.store, id), w.dir, w.disk, id);
    assert id in w.store.records;
  }

  ghost predicate RemovesCurrent(w: World, selection: Installation, limits: Limits, conditions: Conditions) {
    && ValidLimits(limits) && w.procs == map[]
    && IsCurrent(w.store, selection) && Removable(w, selection, limits)
    && Unhindered(conditions, false, true)
  }

  ghost predicate RecoversPrepared(w: World, selection: Installation, limits: Limits, conditions: Conditions) {
    && ValidLimits(limits) && w.procs == map[]
    && IsPrepared(w.store, selection) && Removable(w, selection, limits)
    && Unhindered(conditions, true, Name(selection) in w.dir)
  }

  // ----------------------------------------------------------------------------------
  // Each answer of a call by its exact condition

  predicate Opens(idle: bool, limits: Limits, conditions: Conditions) {
    ValidLimits(limits) && OpenFails !in conditions.faults && idle
  }

  /** A valid selection and the artifact's rows have been read. */
  predicate Reads(idle: bool, selection: Installation, limits: Limits, conditions: Conditions) {
    && Opens(idle, limits, conditions) && ValidSelection(selection)
    && LayoutChangedFirst !in conditions.faults && ReadFails !in conditions.faults
  }

  /** The selection is the current generation. */
  predicate Fresh(s: Store, idle: bool, selection: Installation, limits: Limits, conditions: Conditions) {
    && Reads(idle, selection, limits, conditions) && IsCurrent(s, selection)
    && selection.installed.byteSize <= limits.maximumArtifactBytes
  }

  /** The selection is the generation whose removal is pending. */
  predicate Again(s: Store, idle: bool, selection: Installation, limits: Limits, conditions: Conditions) {
    && Reads(idle, selection, limits, conditions) && IsPrepared(s, selection)
    && selection.installed.byteSize <= limits.maximumArtifactBytes
  }

  /** Room for every entry, and for one more when the selected name has to be found missing. */
  predicate HasRoom(dir: Directory, selection: Installation, limits: Limits) {
    |dir| + (if Name(selection) in dir then 0 else 1) <= limits.maximumStorageEntries
  }

  /** The bytes were found to be exact under one link and synchronized, or found to be gone. */
  predicate Checks(dir: Directory, staging: StagingArea, selection: Installation, limits: Limits,
                   conditions: Conditions)
  {
    && VerifyFails !in conditions.faults && HasRoom(dir, selection, limits)
    && (Name(selection) in dir ==> !Aliased(staging, Name(selection)) && VerifySyncFails !in conditions.faults)
  }

  /** A fresh removal is about to be journaled. */
  predicate Ready(w: World, selection: Installation, limits: Limits, conditions: Conditions) {
    && Fresh(w.store, w.procs == map[], selection, limits, conditions)
    && Checks(w.dir, w.staging, selection, limits, conditions) && conditions.cancelledFrom > 3
    && LayoutChangedLater !in conditions.faults && RecheckFails !in conditions.faults
  }

  /** The journal is prepared, and the bytes are about to go. */
  predicate Goes(w: World, selection: Installation, limits: Limits, conditions: Conditions) {
    && PrepareFails !in conditions.faults
    && (|| (Ready(w, selection, limits, conditions) && !IsActive(w.store, Name(selection)))
        || (&& Again(w.store, w.procs == map[], selection, limits, conditions)
            && Checks(w.dir, w.staging, selection, limits, conditions)))
  }

  /** What goes wrong after preparation, if anything does. */
  predicate FinishFails(found: bool, conditions: Conditions, cause: RecoveryCause) {
    var f := conditions.faults;
    var gone := if found then UnlinkFailsBefore !in f && UnlinkFailsAfter !in f else AbsenceCheckFails !in f;
    match cause
    case StorageIo => !gone || SyncFails in f
    case Storage => gone && SyncFails !in f && LayoutChangedLast in f
    case State(error) =>
      gone && SyncFails !in f && LayoutChangedLast !in f && CompleteFails in f && error == Database
  }

  predicate Finishes(found: bool, conditions: Conditions) {
    var f := conditions.faults;
    && (if found then UnlinkFailsBefore !in f && UnlinkFailsAfter !in f else AbsenceCheckFails !in f)
    && SyncFails !in f && LayoutChangedLast !in f && CompleteFails !in f
  }

  /** What a request amounts to, by its exact condition: nothing left to do, a recovery (`true`) or a
      fresh removal (`false`). */
  ghost predicate SelectionAnswers(s: Store, selection: Installation, limits: Limits, conditions: Conditions,
                                   r: Result<Option<bool>, RemovalError>)
  {
    var f, size := conditions.faults, selection.installed.byteSize;
    var rows := ValidSelection(selection) && LayoutChangedFirst !in f && ReadFails !in f;
    var fits := size <= limits.maximumArtifactBytes;
    && (r == Ok(None) <==> rows && IsCompleted(s, selection))
    && (r == Ok(Some(true)) <==> rows && fits && IsPrepared(s, selection))
    && (r == Ok(Some(false)) <==> rows && fits && IsCurrent(s, selection) && conditions.cancelledFrom > 1)
    && (r == Err(Cancelled) <==> rows && fits && IsCurrent(s, selection) && conditions.cancelledFrom <= 1)
    && (r == Err(StaleSelection) <==>
          rows && fits && !IsCompleted(s, selection) && !IsPrepared(s, selection) && !IsCurrent(s, selection))
    && (r == Err(ArtifactTooLarge(size, limits.maximumArtifactBytes)) <==>
          rows && !fits && !IsCompleted(s, selection) && !IsPrepared(s, selection))
    && (r == Err(RecoveryRequired(Storage)) <==> rows && !fits && IsPrepared(s, selection))
    && (r == Err(InvalidSelection) <==> !ValidSelection(selection))
    && (r == Err(StorageChanged) <==> ValidSelection(selection) && LayoutChangedFirst in f)
    && (r == Err(StateFailed(Database)) <==>
          ValidSelection(selection) && LayoutChangedFirst !in f && ReadFails in f)
  }

  ghost predicate RemovalRefuses(w: World, selection: Installation, limits: Limits, conditions: Conditions,
                                 error: RemovalError)
  {
    var f, c, idle := conditions.faults, conditions.cancelledFrom, w.procs == map[];
    var size := selection.installed.byteSize;
    var opens, rows := Opens(idle, limits, conditions), Reads(idle, selection, limits, conditions);
    var current := Fresh(w.store, idle, selection, limits, conditions);
    var again := Again(w.store, idle, selection, limits, conditions);
    var done, prepared := IsCompleted(w.store, selection), IsPrepared(w.store, selection);
    var full, present := !HasRoom(w.dir, selection, limits), Name(selection) in w.dir;
    var aliased := present && Aliased(w.staging, Name(selection));
    var checked := Checks(w.dir, w.staging, selection, limits, conditions);
    var looked := current && c > 2 && VerifyFails !in f;
    match error
    case InvalidLimits => !ValidLimits(limits)
    case StorageInUse => ValidLimits(limits) && OpenFails !in f && !idle
    case InvalidSelection => opens && !ValidSelection(selection)
    case ArtifactTooLarge(actual, maximum) =>
      rows && !done && !prepared && actual == size && maximum == limits.maximumArtifactBytes && actual > maximum
    case StaleSelection =>
      && rows && !done && !prepared && !IsCurrent(w.store, selection)
      && size <= limits.maximumArtifactBytes
    case Cancelled => current && (c <= 1 || (c <= 2 && VerifyFails !in f) || (c == 3 && checked))
    case StorageFailed =>
      || (ValidLimits(limits) && OpenFails in f)
      || (current && c > 1 && VerifyFails in f)
      || (looked && !full && !aliased && VerifySyncFails in f)
    case StorageEntryLimitExceeded => looked && full
    case StorageChanged =>
      || (opens && ValidSelection(selection) && LayoutChangedFirst in f)
      || (looked && !full && aliased)
      || (current && checked && c > 3 && (LayoutChangedLater in f || RecheckFails in f))
    case StateFailed(failed) =>
      && failed == Database
      && (|| (opens && ValidSelection(selection) && LayoutChangedFirst !in f && ReadFails in f)
          || (PrepareFails in f && (Ready(w, selection, limits, conditions) || (again && checked))))
    case ActiveArtifact =>
      Ready(w, selection, limits, conditions) && PrepareFails !in f && IsActive(w.store, Name(selection))
    case RecoveryRequired(cause) =>
      || (rows && prepared && size > limits.maximumArtifactBytes && cause == Storage)
      || (again && !checked && cause == (if VerifyFails !in f && (full || aliased) then Storage else StorageIo))
      || (Goes(w, selection, limits, conditions) && FinishFails(present, conditions, cause))
    case _ => false
  }

  /** Every answer of a removal by its exact condition. */
  ghost predicate RemovalAnswers(w: World, selection: Installation, limits: Limits, conditions: Conditions,
                                 r: Result<Disposition, RemovalError>)
  {
    var idle := w.procs == map[];
    && (r == Ok(AlreadyRemoved) <==>
          Reads(idle, selection, limits, conditions) && IsCompleted(w.store, selection))
    && (r == Ok(Removed) <==>
          && Ready(w, selection, limits, conditions) && PrepareFails !in conditions.faults
          && !IsActive(w.store, Name(selection)) && Finishes(true, conditions))
    && (r == Ok(Recovered) <==>
          && Again(w.store, idle, selection, limits, conditions)
          && Checks(w.dir, w.staging, selection, limits, conditions)
          && PrepareFails !in conditions.faults && Finishes(Name(selection) in w.dir, conditions))
    && (forall error :: r == Err(error) <==> RemovalRefuses(w, selection, limits, conditions, error))
  }

  lemma RemovalIsAnswered(hash: Hash, w: World, selection: Installation, limits: Limits, conditions: Conditions)
    requires Inv(hash, w)
    ensures RemovalAnswers(w, selection, limits, conditions,
      CallOutcome(w.store, w.dir, w.staging, w.procs == map[], selection, limits, conditions))
  {
    hide RemovalRefuses, Reads, Ready, Again, Checks, Finishes, CallOutcome, Inv;
    var r := CallOutcome(w.store, w.dir, w.staging, w.procs == map[], selection, limits, conditions);
    SuccessIsExact(hash, w, selection, limits, conditions);
    forall error ensures r == Err(error) <==> RemovalRefuses(w, selection, limits, conditions, error) {
      RefusalIsExact(hash, w, selection, limits, conditions, error);
    }
  }

  lemma SuccessIsExact(hash: Hash, w: World, selection: Installation, limits: Limits, conditions: Conditions)
    requires Inv(hash, w)
    ensures var idle := w.procs == map[];
            var r := CallOutcome(w.store, w.dir, w.staging, idle, selection, limits, conditions);
            && (r == Ok(AlreadyRemoved) <==>
                  Reads(idle, selection, limits, conditions) && IsCompleted(w.store, selection))
            && (r == Ok(Removed) <==>
                  && Ready(w, selection, limits, conditions) && PrepareFails !in conditions.faults
                  && !IsActive(w.store, Name(selection)) && Finishes(true, conditions))
            && (r == Ok(Recovered) <==>
                  && Again(w.store, idle, selection, limits, conditions)
                  && Checks(w.dir, w.staging, selection, limits, conditions)
                  && PrepareFails !in conditions.faults && Finishes(Name(selection) in w.dir, conditions))
  {
    GenerationFacts(hash, w, selection);
    hide ValidSelection, Aliased, Inv, IsActive, IsCurrent, IsPrepared, IsCompleted;
  }

  lemma RefusalIsExact(hash: Hash, w: World, selection: Installation, limits: Limits, conditions: Conditions,
                             error: RemovalError)
    requires Inv(hash, w)
    ensures CallOutcome(w.store, w.dir, w.staging, w.procs == map[], selection, limits, conditions) == Err(error) <==>
              RemovalRefuses(w, selection, limits, conditions, error)
  {
    hide RemovalRefuses, CallOutcome, Inv;
    if Fresh(w.store, w.procs == map[], selection, limits, conditions) {
      FreshRefusal(hash, w, selection, limits, conditions, error);
    } else if Again(w.store, w.procs == map[], selection, limits, conditions) {
      RecoveryRefusal(hash, w, selection, limits, conditions, error);
    } else {
      EarlyRefusal(hash, w, selection, limits, conditions, error);
    }
  }

  lemma FreshRefusal(hash: Hash, w: World, selection: Installation, limits: Limits, conditions: Conditions,
                           error: RemovalError)
    requires Inv(hash, w) && Fresh(w.store, w.procs == map[], selection, limits, conditions)
    ensures CallOutcome(w.store, w.dir, w.staging, w.procs == map[], selection, limits, conditions) == Err(error) <==>
              RemovalRefuses(w, selection, limits, conditions, error)
  {
    GenerationFacts(hash, w, selection);
    hide ValidSelection, Aliased, Inv, IsActive, IsCurrent, IsPrepared, IsCompleted;
  }

  lemma RecoveryRefusal(hash: Hash, w: World, selection: Installation, limits: Limits, conditions: Conditions,
                              error: RemovalError)
    requires Inv(hash, w) && Again(w.store, w.procs == map[], selection, limits, conditions)
    ensures CallOutcome(w.store, w.dir, w.staging, w.procs == map[], selection, limits, conditions) == Err(error) <==>
              RemovalRefuses(w, selection, limits, conditions, error)
  {
    GenerationFacts(hash, w, selection);
    assert !Fresh(w.store, w.procs == map[], selection, limits, conditions);
    hide Fresh;
    hide ValidSelection, Aliased, Inv, IsActive, IsCurrent, IsPrepared, IsCompleted;
  }

  lemma EarlyRefusal(hash: Hash, w: World, selection: Installation, limits: Limits, conditions: Conditions,
                           error: RemovalError)
    requires Inv(hash, w)
    requires !Fresh(w.store, w.procs == map[], selection, limits, conditions)
    requires !Again(w.store, w.procs == map[], selection, limits, conditions)
    ensures CallOutcome(w.store, w.dir, w.staging, w.procs == map[], selection, limits, conditions) == Err(error) <==>
              RemovalRefuses(w, selection, limits, conditions, error)
  {
    GenerationFacts(hash, w, selection);
    hide ValidSelection, Aliased, Inv, IsActive, IsCurrent, IsPrepared, IsCompleted, FinishFails;
  }

  lemma UnlinksIffGoes(hash: Hash, w: World, selection: Installation, limits: Limits, conditions: Conditions)
    requires Inv(hash, w)
    ensures CallUnlinks(w.store, w.dir, w.staging, w.procs == map[], selection, limits, conditions) <==>
              Goes(w, selection, limits, conditions) && UnlinkFailsBefore !in conditions.faults
  {
    GenerationFacts(hash, w, selection);
    hide ValidSelection, Aliased, Inv, IsActive, IsCurrent, IsPrepared, IsCompleted;
  }

  /** A generation is current, pending or removed, never two of them, and a current one has its file. */
  lemma GenerationFacts(hash: Hash, w: World, selection: Installation)
    requires Inv(hash, w)
    ensures IsCurrent(w.store, selection) ==>
              && !IsCompleted(w.store, selection) && !IsPrepared(w.store, selection) && Name(selection) in w.dir
    ensures IsPrepared(w.store, selection) ==> !IsCompleted(w.store, selection)
  {
    if IsCurrent(w.store, selection) { CurrentIsNotCompleted(hash, w, selection); }
    if IsPrepared(w.store, selection) { PreparedHasNoCurrent(w.store, selection); }
  }

  /** Undisturbed and alone, a call succeeds exactly on a removable selection. */
  lemma UndisturbedSucceeds(hash: Hash, w: World, selection: Installation, limits: Limits, conditions: Conditions,
                            r: Result<Disposition, RemovalError>)
    requires Inv(hash, w) && RemovalAnswers(w, selection, limits, conditions, r)
    requires ValidLimits(limits) && w.procs == map[]
    requires conditions.faults == {} && conditions.cancelledFrom >= CANCELLATION_CHECKS
    ensures r.Ok? <==> Removable(w, selection, limits)
  {
    hide ValidSelection, Aliased, Inv, IsActive, IsCurrent, IsPrepared, IsCompleted;
    GenerationFacts(hash, w, selection);
    hide RemovalRefuses;
    match r
    case Ok(Removed) =>
    case Ok(Recovered) =>
    case Ok(AlreadyRemoved) =>
    case Err(_) =>
  }

  ghost predicate Running(procs: map<Pid, Proc>, pid: Pid, selection: Installation, pc: RemovePc) {
    procs == map[pid := Lifecycle.Remove(selection, pc)]
  }

  /** Opens storage under the exclusive lock, removes or resumes removal of `selection`,
      and releases the lock. */
  method Remove(storage: ManagedStorage, ghost pid: Pid, selection: Installation, limits: Limits,
                conditions: Conditions)
    returns (r: Result<Disposition, RemovalError>)
    requires storage.Valid() && pid !in storage.procs
    modifies storage
    ensures storage.Valid() && Extends(old(storage.trace), storage.trace)
    ensures storage.procs == old(storage.procs)
    ensures OthersUntouched(old(storage.View()), storage.View(), selection)
    ensures Outcome(old(storage.View()), storage.View(), selection, r)
    ensures r == CallOutcome(old(storage.store), old(storage.dir), old(storage.staging),
                             old(storage.procs) == map[], selection, limits, conditions)
    ensures r == Ok(Removed) <==> RemovesCurrent(old(storage.View()), selection, limits, conditions)
    ensures r == Ok(Recovered) <==> RecoversPrepared(old(storage.View()), selection, limits, conditions)
    ensures storage.dir ==
              if CallUnlinks(old(storage.store), old(storage.dir), old(storage.staging),
                             old(storage.procs) == map[], selection, limits, conditions)
              then old(storage.dir) - {Name(selection)} else old(storage.dir)
    ensures RemovalAnswers(old(storage.View()), selection, limits, conditions, r)
    ensures r == Ok(AlreadyRemoved) <==>
              && ValidLimits(limits) && old(storage.procs) == map[] && ValidSelection(selection)
              && IsCompleted(old(storage.store), selection)
              && {OpenFails, LayoutChangedFirst, ReadFails} !! conditions.faults
    ensures ValidLimits(limits) && old(storage.procs) == map[] && conditions.faults == {}
            && conditions.cancelledFrom >= CANCELLATION_CHECKS ==>
              (r.Ok? <==> Removable(old(storage.View()), selection, limits))
    ensures storage.dir ==
              if Goes(old(storage.View()), selection, limits, conditions) && UnlinkFailsBefore !in conditions.faults
              then old(storage.dir) - {Name(selection)} else old(storage.dir)
  {
    hide ManagedStorage.Valid, OthersUntouched, Outcome, CallOutcome, CallUnlinks, Goes, RemovalAnswers;
    hide RemovesCurrent, RecoversPrepared, Removable, ValidSelection, IsCompleted;
    RemovalFacts(storage, selection, limits, conditions);
    r := LockAndRemove(storage, pid, selection, limits, conditions);
  }

  method LockAndRemove(storage: ManagedStorage, ghost pid: Pid, selection: Installation, limits: Limits,
                       conditions: Conditions)
    returns (r: Result<Disposition, RemovalError>)
    requires storage.Valid() && pid !in storage.procs
    modifies storage
    ensures storage.Valid() && Extends(old(storage.trace), storage.trace)
    ensures storage.procs == old(storage.procs)
    ensures OthersUntouched(old(storage.View()), storage.View(), selection)
    ensures Outcome(old(storage.View()), storage.View(), selection, r)
    ensures r == CallOutcome(old(storage.store), old(storage.dir), old(storage.staging),
                             old(storage.procs) == map[], selection, limits, conditions)
    ensures storage.dir ==
              if CallUnlinks(old(storage.store), old(storage.dir), old(storage.staging),
                             old(storage.procs) == map[], selection, limits, conditions)
              then old(storage.dir) - {Name(selection)} else old(storage.dir)
  {
    hide ManagedStorage.Valid, LockedOutcome, LockedUnlinks;
    storage.IdleIffUnlocked();
    if !ValidLimits(limits) { return Err(InvalidLimits); }
    if OpenFails in conditions.faults { return Err(StorageFailed); }
    var locked := storage.TryLock(false, pid, Lifecycle.Remove(selection, RemoveOpened));
    if !locked { return Err(StorageInUse); }
    r := RemoveLocked(storage, pid, selection, limits, conditions);
    storage.Unlock(false, pid);
    assert storage.procs == map[];
  }

  lemma RemovalFacts(storage: ManagedStorage, selection: Installation, limits: Limits, conditions: Conditions)
    requires storage.Valid()
    ensures var w := storage.View();
            var r := CallOutcome(w.store, w.dir, w.staging, w.procs == map[], selection, limits, conditions);
            && RemovalAnswers(w, selection, limits, conditions, r)
            && (&& ValidLimits(limits) && w.procs == map[] && conditions.faults == {}
                && conditions.cancelledFrom >= CANCELLATION_CHECKS ==>
                  (r.Ok? <==> Removable(w, selection, limits)))
    ensures var w := storage.View();
            var r := CallOutcome(w.store, w.dir, w.staging, w.procs == map[], selection, limits, conditions);
            && (r == Ok(Removed) <==> RemovesCurrent(w, selection, limits, conditions))
            && (r == Ok(Recovered) <==> RecoversPrepared(w, selection, limits, conditions))
    ensures var w := storage.View();
            CallOutcome(w.store, w.dir, w.staging, w.procs == map[], selection, limits, conditions)
              == Ok(AlreadyRemoved) <==>
              && ValidLimits(limits) && w.procs == map[] && ValidSelection(selection)
              && IsCompleted(w.store, selection) && {OpenFails, LayoutChangedFirst, ReadFails} !! conditions.faults
    ensures var w := storage.View();
            CallUnlinks(w.store, w.dir, w.staging, w.procs == map[], selection, limits, conditions) <==>
              Goes(w, selection, limits, conditions) && UnlinkFailsBefore !in conditions.faults
  {
    hide Removable, RemovesCurrent, RecoversPrepared, CallOutcome, CallUnlinks, Goes;
    hide RemovalRefuses, Ready, Again, Checks, Finishes;
    var w := storage.View();
    var r := CallOutcome(w.store, w.dir, w.staging, w.procs == map[], selection, limits, conditions);
    storage.HoldsInvariant();
    SucceedsExactly(storage.hash, w, selection, limits, conditions);
    RemovalIsAnswered(storage.hash, w, selection, limits, conditions);
    UnlinksIffGoes(storage.hash, w, selection, limits, conditions);
    if && ValidLimits(limits) && w.procs == map[] && conditions.faults == {}
       && conditions.cancelledFrom >= CANCELLATION_CHECKS {
      UndisturbedSucceeds(storage.hash, w, selection, limits, conditions, r);
    }
  }

  method RemoveLocked(storage: ManagedStorage, ghost pid: Pid, selection: Installation, limits: Limits,
                      conditions: Conditions)
    returns (r: Result<Disposition, RemovalError>)
    requires storage.Valid() && ValidLimits(limits)
    requires Running(storage.procs, pid, selection, RemoveOpened)
    modifies storage`store, storage`dir, storage`disk, storage`procs, storage`trace
    ensures storage.Valid() && Extends(old(storage.trace), storage.trace)
    ensures storage.procs.Keys == {pid} && storage.procs[pid].Remove?
    ensures OthersUntouched(old(storage.View()), storage.View(), selection)
    ensures Outcome(old(storage.View()), storage.View(), selection, r)
    ensures var aliased := Aliased(storage.staging, Name(selection));
            && r == LockedOutcome(old(storage.store), old(storage.dir), aliased, selection, limits, conditions)
            && storage.dir ==
                 if LockedUnlinks(old(storage.store), old(storage.dir), aliased, selection, limits, conditions)
                 then old(storage.dir) - {Name(selection)} else old(storage.dir)
  {
    hide ManagedStorage.Valid, SelectedUnder, SelectedOutcome, GoesOn;
    var selected := SelectGeneration(storage, pid, selection, limits, conditions);
    if selected.Err? { return Err(selected.error); }
    if selected.value.None? { return Ok(AlreadyRemoved); }
    r := RemoveSelected(storage, pid, selection, limits, conditions, selected.value.value);
  }

  /** Decides between a fresh removal and a recovery; `None` means already removed. */
  method SelectGeneration(storage: ManagedStorage, ghost pid: Pid, selection: Installation, limits: Limits,
                          conditions: Conditions)
    returns (r: Result<Option<bool>, RemovalError>)
    requires storage.Valid() && Running(storage.procs, pid, selection, RemoveOpened)
    modifies storage`procs, storage`trace
    ensures storage.Valid() && Extends(old(storage.trace), storage.trace)
    ensures storage.procs.Keys == {pid} && storage.procs[pid].Remove?
    ensures r == Ok(None) ==>
              && IsCompleted(storage.store, selection) && ValidSelection(selection)
              && storage.View() == old(storage.View())
    ensures r.Ok? && r.value.Some? ==>
              && ValidSelection(selection) && Running(storage.procs, pid, selection, RemoveChecked(r.value.value))
              && !IsCompleted(storage.store, selection)
              && selection.installed.byteSize <= limits.maximumArtifactBytes
              && (if r.value.value then IsPrepared(storage.store, selection) && !IsCurrent(storage.store, selection)
                  else
                    && IsCurrent(storage.store, selection) && !IsPrepared(storage.store, selection)
                    && Name(selection) in storage.dir)
    ensures r.Err? && r.error.RecoveryRequired? ==> IsPrepared(storage.store, selection)
    ensures r == SelectedUnder(storage.store, selection, limits, conditions)
    ensures SelectionAnswers(storage.store, selection, limits, conditions, r)
  {
    hide IsRun, LockMatches, PrepareRemoval, CompleteRemoval, ValidSelection, SelectionAnswers;
    SelectionIsAnswered(storage, selection, limits, conditions);
    if !ValidSelection(selection) { return Err(InvalidSelection); }
    if LayoutChangedFirst in conditions.faults { return Err(StorageChanged); }
    if ReadFails in conditions.faults { return Err(StateFailed(Database)); }
    SelectionFacts(storage, selection);
    var (current, removal) := ReadState(storage.store, selection.installed.artifactId).value;
    if removal == Some(Removal(selection, Completed)) { return Ok(None); }
    var recovering := removal == Some(Removal(selection, Prepared));
    if selection.installed.byteSize > limits.maximumArtifactBytes {
      if recovering { return Err(RecoveryRequired(Storage)); }
      return Err(ArtifactTooLarge(selection.installed.byteSize, limits.maximumArtifactBytes));
    }
    if !recovering {
      if current != Some(selection) { return Err(StaleSelection); }
      if Cancelling(conditions, 0) || Cancelling(conditions, 1) { return Err(Cancelled); }
    }
    storage.LogRemove(pid, selection, RemoveOpened, RemoveChecked(recovering), RemoveCheck);
    return Ok(Some(recovering));
  }

  lemma SelectionIsAnswered(storage: ManagedStorage, selection: Installation, limits: Limits, conditions: Conditions)
    requires storage.Valid()
    ensures SelectionAnswers(storage.store, selection, limits, conditions,
                             SelectedUnder(storage.store, selection, limits, conditions))
  {
    SelectionFacts(storage, selection);
    hide ValidSelection, ManagedStorage.Valid, IsCurrent, IsPrepared, IsCompleted;
    PreparedIsNotCompleted(storage.store, selection);
  }

  lemma PreparedIsNotCompleted(s: Store, selection: Installation)
    ensures IsPrepared(s, selection) ==> !IsCompleted(s, selection)
  {
  }

  /** Reading succeeds; a prepared generation is not current, and a current one has its file. */
  lemma SelectionFacts(storage: ManagedStorage, selection: Installation)
    requires storage.Valid()
    ensures var r := Lookup(storage.store, selection.installed.artifactId);
            ReadState(storage.store, selection.installed.artifactId) == Ok((r.current, r.removal))
    ensures IsPrepared(storage.store, selection) ==> !IsCurrent(storage.store, selection)
    ensures IsCurrent(storage.store, selection) ==>
              Name(selection) in storage.dir && !IsCompleted(storage.store, selection)
  {
    storage.HoldsInvariant();
    ReadSucceeds(storage.store, selection.installed.artifactId);
    if IsPrepared(storage.store, selection) { PreparedHasNoCurrent(storage.store, selection); }
    if IsCurrent(storage.store, selection) { CurrentIsNotCompleted(storage.hash, storage.View(), selection); }
  }

  method RemoveSelected(storage: ManagedStorage, ghost pid: Pid, selection: Installation, limits: Limits,
                       conditions: Conditions, recovering: bool)
    returns (r: Result<Disposition, RemovalError>)
    requires storage.Valid() && ValidSelection(selection)
    requires Running(storage.procs, pid, selection, RemoveChecked(recovering))
    requires recovering ==> IsPrepared(storage.store, selection)
    modifies storage`store, storage`dir, storage`disk, storage`procs, storage`trace
    ensures storage.Valid() && Extends(old(storage.trace), storage.trace)
    ensures storage.procs.Keys == {pid} && storage.procs[pid].Remove?
    ensures OthersUntouched(old(storage.View()), storage.View(), selection)
    ensures r.Ok? ==> r.value == (if recovering then Recovered else Removed) && Gone(storage.View(), selection)
    ensures r.Err? && r.error.RecoveryRequired? ==> IsPrepared(storage.store, selection)
    ensures r.Err? && !r.error.RecoveryRequired? ==> SameAuthority(old(storage.View()), storage.View())
    ensures var s, dir, aliased := old(storage.store), old(storage.dir), Aliased(storage.staging, Name(selection));
            && r == SelectedOutcome(s, dir, aliased, selection, limits, recovering, conditions)
            && storage.dir == if && GoesOn(s, dir, aliased, selection, limits, recovering, conditions)
                                 && UnlinkFailsBefore !in conditions.faults
                              then dir - {Name(selection)} else dir
  {
    hide ManagedStorage.Valid, VerifiedUnder, PreparedUnder, PreparedOutcome, OthersUntouched, IsPrepared;
    var verified := VerifyForRemoval(storage, pid, selection, limits, conditions, recovering);
    OthersUnaffected(old(storage.View()), storage.View(), selection);
    ghost var verifiedView := storage.View();
    if verified.Err? { return Err(if recovering then MapPreparedError(verified.error) else verified.error); }
    if !recovering {
      if Cancelling(conditions, 3) { return Err(Cancelled); }
      if LayoutChangedLater in conditions.faults || RecheckFails in conditions.faults { return Err(StorageChanged); }
    }
    r := PrepareAndFinish(storage, pid, selection, limits, conditions, recovering, verified.value);
    OthersCompose(old(storage.View()), verifiedView, storage.View(), selection);
  }

  /** From verified bytes, or bytes known to be absent, to the completed journal. */
  method PrepareAndFinish(storage: ManagedStorage, ghost pid: Pid, selection: Installation, limits: Limits,
                          conditions: Conditions, recovering: bool, found: bool)
    returns (r: Result<Disposition, RemovalError>)
    requires storage.Valid() && ValidSelection(selection)
    requires Running(storage.procs, pid, selection, RemoveVerified(recovering, found))
    requires |storage.dir| <= limits.maximumStorageEntries
    modifies storage`store, storage`dir, storage`disk, storage`procs, storage`trace
    ensures storage.Valid() && Extends(old(storage.trace), storage.trace)
    ensures storage.procs.Keys == {pid} && storage.procs[pid].Remove?
    ensures OthersUntouched(old(storage.View()), storage.View(), selection)
    ensures r.Ok? ==> r.value == (if recovering then Recovered else Removed) && Gone(storage.View(), selection)
    ensures r.Err? && r.error.RecoveryRequired? ==> IsPrepared(storage.store, selection)
    ensures r.Err? && !r.error.RecoveryRequired? ==> SameAuthority(old(storage.View()), storage.View())
    ensures r == PreparedOutcome(old(storage.store), selection, recovering, found, conditions)
    ensures storage.dir == if && PreparedUnder(old(storage.store), selection, recovering, conditions).Ok?
                              && UnlinkFailsBefore !in conditions.faults
                           then old(storage.dir) - {Name(selection)} else old(storage.dir)
  {
    hide ManagedStorage.Valid, PreparedUnder, FinishedUnder;
    var prepared := PrepareState(storage, pid, selection, conditions, recovering, found);
    if prepared.Err? { return Err(prepared.error); }
    ghost var preparedView := storage.View();
    var finished := FinishPrepared(storage, pid, selection, limits, conditions, found);
    OthersCompose(old(storage.View()), preparedView, storage.View(), selection);
    if finished.Err? { return Err(finished.error); }
    return Ok(if recovering then Recovered else Removed);
  }

  lemma OthersUnaffected(w: World, w': World, selection: Installation)
    requires SameAuthority(w, w') && w'.staging == w.staging && w'.stagingDisk == w.stagingDisk
    ensures OthersUntouched(w, w', selection)
  {
  }

  lemma OthersCompose(w: World, w': World, w'': World, selection: Installation)
    requires OthersUntouched(w, w', selection) && OthersUntouched(w', w'', selection)
    ensures OthersUntouched(w, w'', selection)
  {
  }

  /** Verifies the exact bytes and synchronizes the directory; only a recovery may find
      the bytes gone. */
  method VerifyForRemoval(storage: ManagedStorage, ghost pid: Pid, selection: Installation, limits: Limits,
                          conditions: Conditions, recovering: bool)
    returns (r: Result<bool, RemovalError>)
    requires storage.Valid() && ValidSelection(selection)
    requires Running(storage.procs, pid, selection, RemoveChecked(recovering))
    modifies storage`disk, storage`procs, storage`trace
    ensures storage.Valid() && Extends(old(storage.trace), storage.trace)
    ensures storage.procs.Keys == {pid} && storage.procs[pid].Remove?
    ensures r.Err? ==> !r.error.RecoveryRequired?
    ensures r.Ok? ==> Running(storage.procs, pid, selection, RemoveVerified(recovering, r.value))
    ensures r == VerifiedUnder(storage.dir, Aliased(storage.staging, Name(selection)), selection, limits, recovering,
                               conditions)
    ensures r.Ok? ==> r.value == (Name(selection) in storage.dir) && |storage.dir| <= limits.maximumStorageEntries
  {
    hide ManagedStorage.Valid;
    var name := selection.installed.artifactDigest;
    if VerifyFails in conditions.faults { return Err(StorageFailed); }
    if !recovering && Cancelling(conditions, 2) { return Err(Cancelled); }
    var v := Verify(storage.hash, storage.dir, storage.staging, name, selection.installed.byteSize,
                    limits.maximumStorageEntries);
    BytesAreExactOrAbsent(storage, pid, selection, recovering);
    if v == Missing && recovering {
      RecordMissing(storage, pid, selection);
      return Ok(false);
    }
    if v != Verified { return Err(MapVerification(v)); }
    if VerifySyncFails in conditions.faults { return Err(StorageFailed); }
    RecordVerified(storage, pid, selection, recovering);
    return Ok(true);
  }

  ghost method RecordMissing(storage: ManagedStorage, pid: Pid, selection: Installation)
    requires storage.Valid() && Running(storage.procs, pid, selection, RemoveChecked(true))
    requires Name(selection) !in storage.dir
    modifies storage`procs, storage`trace
    ensures storage.Valid() && Extends(old(storage.trace), storage.trace)
    ensures Running(storage.procs, pid, selection, RemoveVerified(true, false))
  {
    hide IsRun, LockMatches;
    storage.LogRemove(pid, selection, RemoveChecked(true), RemoveVerified(true, false), RemoveMissing);
  }

  /** Verification synchronizes the directory. */
  method RecordVerified(storage: ManagedStorage, ghost pid: Pid, selection: Installation, recovering: bool)
    requires storage.Valid() && Running(storage.procs, pid, selection, RemoveChecked(recovering))
    requires Exact(storage.hash, storage.dir, Name(selection), selection.installed.byteSize)
    requires !Aliased(storage.staging, Name(selection))
    modifies storage`disk, storage`procs, storage`trace
    ensures storage.Valid() && Extends(old(storage.trace), storage.trace)
    ensures Running(storage.procs, pid, selection, RemoveVerified(recovering, true))
  {
    hide IsRun, LockMatches;
    storage.disk := storage.dir;
    storage.LogRemove(pid, selection, RemoveChecked(recovering), RemoveVerified(recovering, true), RemoveVerify);
  }

  lemma BytesAreExactOrAbsent(storage: ManagedStorage, pid: Pid, selection: Installation, recovering: bool)
    requires storage.Valid() && ValidSelection(selection)
    requires Running(storage.procs, pid, selection, RemoveChecked(recovering))
    ensures Exact(storage.hash, storage.dir, Name(selection), selection.installed.byteSize)
            || (recovering && Name(selection) !in storage.dir)
  {
    storage.HoldsInvariant();
    var w := storage.View();
    assert ProcOk(storage.hash, w, pid, w.procs[pid]);
    assert BytesOk(storage.hash, Lookup(w.store, Name(selection)), w.dir, w.disk, Name(selection));
  }

  /** The durable point of no return. */
  method PrepareState(storage: ManagedStorage, ghost pid: Pid, selection: Installation, conditions: Conditions,
                      ghost recovering: bool, ghost found: bool)
    returns (r: Result<(), RemovalError>)
    requires storage.Valid() && ValidSelection(selection)
    requires Running(storage.procs, pid, selection, RemoveVerified(recovering, found))
    modifies storage`store, storage`procs, storage`trace
    ensures storage.Valid() && Extends(old(storage.trace), storage.trace)
    ensures storage.procs.Keys == {pid} && storage.procs[pid].Remove?
    ensures r.Err? ==> !r.error.RecoveryRequired? && storage.store == old(storage.store)
    ensures r.Ok? ==> Running(storage.procs, pid, selection, RemovePrepared(found))
    ensures OthersUntouched(old(storage.View()), storage.View(), selection)
    ensures r == PreparedUnder(old(storage.store), selection, recovering, conditions)
  {
    hide IsRun, LockMatches, PrepareRemoval, CompleteRemoval, ValidSelection;
    if PrepareFails in conditions.faults { return Err(StateFailed(Database)); }
    var tx := PrepareRemoval(storage.store, selection);
    PreparationOutcome(storage, pid, selection, recovering, found);
    if tx.result.Err? { return Err(MapStoreError(tx.result.error)); }
    storage.store := tx.store;
    storage.LogRemove(pid, selection, RemoveVerified(recovering, found), RemovePrepared(found), RemovePrepare);
    return Ok(());
  }

  lemma PreparationOutcome(storage: ManagedStorage, pid: Pid, selection: Installation, recovering: bool, found: bool)
    requires storage.Valid() && ValidSelection(selection)
    requires Running(storage.procs, pid, selection, RemoveVerified(recovering, found))
    ensures var tx := PrepareRemoval(storage.store, selection);
            && (if recovering || !IsActive(storage.store, Name(selection)) then tx.result.Ok?
                else tx.result == Err(StoreError.ActiveArtifact))
            && (tx.result.Ok? ==> tx.result.value != AlreadyCompleted)
            && tx.store.bindings == storage.store.bindings
            && (forall id :: id != Name(selection) ==> Lookup(tx.store, id) == Lookup(storage.store, id))
  {
    storage.HoldsInvariant();
    var w := storage.View();
    assert ProcOk(storage.hash, w, pid, w.procs[pid]);
    if recovering { PreparedHasNoCurrent(w.store, selection); }
    assert selection.installed.artifactId in w.store.records;
  }

  /** Unlinks or confirms absence, synchronizes the directory, then completes the journal.
      No callback and no cancellation point runs here. */
  method FinishPrepared(storage: ManagedStorage, ghost pid: Pid, selection: Installation, limits: Limits,
                        conditions: Conditions, found: bool)
    returns (r: Result<(), RemovalError>)
    requires storage.Valid() && ValidSelection(selection)
    requires Running(storage.procs, pid, selection, RemovePrepared(found))
    modifies storage`store, storage`dir, storage`disk, storage`procs, storage`trace
    ensures storage.Valid() && Extends(old(storage.trace), storage.trace)
    ensures storage.procs.Keys == {pid} && storage.procs[pid].Remove?
    ensures r.Ok? ==> Gone(storage.View(), selection)
    ensures r.Err? ==> r.error.RecoveryRequired? && IsPrepared(storage.store, selection)
    ensures OthersUntouched(old(storage.View()), storage.View(), selection)
    ensures |old(storage.dir)| <= limits.maximumStorageEntries ==>
              && r == FinishedUnder(found, conditions)
              && storage.dir == if UnlinkFailsBefore in conditions.faults then old(storage.dir)
                                else old(storage.dir) - {Name(selection)}
  {
    hide ManagedStorage.Valid, OthersUntouched;
    if |storage.dir| > limits.maximumStorageEntries {
      JournalStaysPrepared(storage, pid, selection, RemovePrepared(found));
      OthersUnaffected(storage.View(), storage.View(), selection);
      return Err(RecoveryRequired(Storage));
    }
    var unlinked := UnlinkOrConfirm(storage, pid, selection, conditions, found);
    if unlinked.Err? { return Err(unlinked.error); }
    if SyncFails in conditions.faults { return Err(RecoveryRequired(StorageIo)); }
    ghost var unlinkedView := storage.View();
    r := SyncAndComplete(storage, pid, selection, conditions);
    OthersCompose(old(storage.View()), unlinkedView, storage.View(), selection);
  }

  method SyncAndComplete(storage: ManagedStorage, ghost pid: Pid, selection: Installation, conditions: Conditions)
    returns (r: Result<(), RemovalError>)
    requires storage.Valid() && ValidSelection(selection) && Running(storage.procs, pid, selection, RemoveUnlinked)
    modifies storage`store, storage`disk, storage`procs, storage`trace
    ensures storage.Valid() && Extends(old(storage.trace), storage.trace)
    ensures storage.procs.Keys == {pid} && storage.procs[pid].Remove?
    ensures OthersUntouched(old(storage.View()), storage.View(), selection)
    ensures r == (if LayoutChangedLast in conditions.faults then Err(RecoveryRequired(Storage))
                  else if CompleteFails in conditions.faults then Err(RecoveryRequired(State(Database))) else Ok(()))
    ensures if r.Ok? then Gone(storage.View(), selection) else IsPrepared(storage.store, selection)
  {
    hide ManagedStorage.Valid, OthersUntouched;
    SyncDirectory(storage, pid, selection);
    OthersUnaffected(old(storage.View()), storage.View(), selection);
    if LayoutChangedLast in conditions.faults { return Err(RecoveryRequired(Storage)); }
    if CompleteFails in conditions.faults { return Err(RecoveryRequired(State(Database))); }
    ghost var syncedView := storage.View();
    CompleteState(storage, pid, selection);
    OthersCompose(old(storage.View()), syncedView, storage.View(), selection);
    return Ok(());
  }

  method SyncDirectory(storage: ManagedStorage, ghost pid: Pid, selection: Installation)
    requires storage.Valid() && Running(storage.procs, pid, selection, RemoveUnlinked)
    modifies storage`disk, storage`procs, storage`trace
    ensures storage.Valid() && Extends(old(storage.trace), storage.trace)
    ensures Running(storage.procs, pid, selection, RemoveSynced)
    ensures storage.disk == storage.dir && IsPrepared(storage.store, selection)
  {
    storage.disk := storage.dir;
    storage.LogRemove(pid, selection, RemoveUnlinked, RemoveSynced, RemoveSync);
    JournalStaysPrepared(storage, pid, selection, RemoveSynced);
  }

  method CompleteState(storage: ManagedStorage, ghost pid: Pid, selection: Installation)
    requires storage.Valid() && ValidSelection(selection) && Running(storage.procs, pid, selection, RemoveSynced)
    modifies storage`store, storage`procs, storage`trace
    ensures storage.Valid() && Extends(old(storage.trace), storage.trace)
    ensures storage.procs.Keys == {pid} && storage.procs[pid].Remove?
    ensures Gone(storage.View(), selection)
    ensures OthersUntouched(old(storage.View()), storage.View(), selection)
  {
    JournalStaysPrepared(storage, pid, selection, RemoveSynced);
    CompletionSucceeds(storage, selection);
    storage.store := CompleteRemoval(storage.store, selection).store;
    storage.LogRemove(pid, selection, RemoveSynced, RemoveDone, RemoveComplete);
  }

  lemma JournalStaysPrepared(storage: ManagedStorage, pid: Pid, selection: Installation, pc: RemovePc)
    requires storage.Valid() && Running(storage.procs, pid, selection, pc)
    requires pc.RemovePrepared? || pc == RemoveUnlinked || pc == RemoveSynced
    ensures IsPrepared(storage.store, selection)
    ensures pc.RemovePrepared? ==> (pc.found <==> Name(selection) in storage.dir)
    ensures pc == RemoveSynced ==> Name(selection) !in storage.dir && Name(selection) !in storage.disk
  {
    storage.HoldsInvariant();
    assert ProcOk(storage.hash, storage.View(), pid, storage.procs[pid]);
  }

  method UnlinkOrConfirm(storage: ManagedStorage, ghost pid: Pid, selection: Installation, conditions: Conditions,
                         found: bool)
    returns (r: Result<(), RemovalError>)
    requires storage.Valid() && Running(storage.procs, pid, selection, RemovePrepared(found))
    modifies storage`dir, storage`procs, storage`trace
    ensures storage.Valid() && Extends(old(storage.trace), storage.trace)
    ensures storage.procs.Keys == {pid} && storage.procs[pid].Remove?
    ensures IsPrepared(storage.store, selection)
    ensures r.Err? ==> r.error.RecoveryRequired?
    ensures r.Ok? ==> Running(storage.procs, pid, selection, RemoveUnlinked)
    ensures OthersUntouched(old(storage.View()), storage.View(), selection)
    ensures r == UnlinkedUnder(found, conditions)
    ensures storage.dir == if UnlinkFailsBefore in conditions.faults then old(storage.dir)
                           else old(storage.dir) - {Name(selection)}
  {
    hide ManagedStorage.Valid, OthersUntouched;
    JournalStaysPrepared(storage, pid, selection, RemovePrepared(found));
    OthersUnaffected(storage.View(), storage.View(), selection);
    if !found {
      assert storage.dir - {Name(selection)} == storage.dir;
      if AbsenceCheckFails in conditions.faults { return Err(RecoveryRequired(StorageIo)); }
      ConfirmAbsent(storage, pid, selection);
      return Ok(());
    }
    if UnlinkFailsBefore in conditions.faults { return Err(RecoveryRequired(StorageIo)); }
    Unlink(storage, pid, selection);
    if UnlinkFailsAfter in conditions.faults { return Err(RecoveryRequired(StorageIo)); }
    return Ok(());
  }

  method ConfirmAbsent(storage: ManagedStorage, ghost pid: Pid, selection: Installation)
    requires storage.Valid() && Running(storage.procs, pid, selection, RemovePrepared(false))
    requires Name(selection) !in storage.dir
    modifies storage`procs, storage`trace
    ensures storage.Valid() && Extends(old(storage.trace), storage.trace)
    ensures Running(storage.procs, pid, selection, RemoveUnlinked)
    ensures OthersUntouched(old(storage.View()), storage.View(), selection)
  {
    hide IsRun, LockMatches;
    storage.LogRemove(pid, selection, RemovePrepared(false), RemoveUnlinked, RemoveConfirmAbsent);
  }

  method Unlink(storage: ManagedStorage, ghost pid: Pid, selection: Installation)
    requires storage.Valid() && Running(storage.procs, pid, selection, RemovePrepared(true))
    requires Name(selection) in storage.dir
    modifies storage`dir, storage`procs, storage`trace
    ensures storage.Valid() && Extends(old(storage.trace), storage.trace)
    ensures Running(storage.procs, pid, selection, RemoveUnlinked)
    ensures storage.dir == old(storage.dir) - {Name(selection)}
    ensures OthersUntouched(old(storage.View()), storage.View(), selection)
  {
    hide IsRun, LockMatches;
    storage.dir := storage.dir - {Name(selection)};
    storage.LogRemove(pid, selection, RemovePrepared(true), RemoveUnlinked, RemoveUnlink);
  }

  lemma CompletionSucceeds(storage: ManagedStorage, selection: Installation)
    requires storage.Valid() && ValidSelection(selection) && IsPrepared(storage.store, selection)
    ensures var tx := CompleteRemoval(storage.store, selection);
            && tx.result.Ok? && IsCompleted(tx.store, selection) && tx.store.bindings == storage.store.bindings
            && (forall id :: id != Name(selection) ==> Lookup(tx.store, id) == Lookup(storage.store, id))
  {
    storage.HoldsInvariant();
    PreparedHasNoCurrent(storage.store, selection);
    assert selection.installed.artifactId in storage.store.records;
  }
}
