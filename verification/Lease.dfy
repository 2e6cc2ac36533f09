/** Shared leases on one exact installed generation. */
module RuntimeArtifactLease {
  import opened Text
  import opened Artifacts
  import opened StateStore
  import opened Lifecycle
  import opened ManagedStorage

  datatype LeaseError =
    | InvalidLimits | UnsafeStorageLayout | StorageInUse | StorageFailed | StorageEntryLimitExceeded
    | ConcurrentModification | Cancelled | State(error: StoreError)

  datatype Fault = OpenFails | ReadFails | VerifyFails | LayoutChanges | RereadFails

  datatype Conditions = Conditions(faults: set<Fault>, cancelled: bool)

  predicate FaultFree(conditions: Conditions) {
    conditions.faults == {} && !conditions.cancelled
  }

  /** The one outcome of a request, with its cause when refused, for every set of faults. */
  function LeaseOutcome(s: Store, dir: Directory, staging: StagingArea, exclusive: bool, selection: Installation,
                        limits: Limits, conditions: Conditions): Result<(), LeaseError>
  {
    if limits.maximumArtifactBytes == 0 || limits.maximumStorageEntries == 0
       || selection.installed.byteSize > limits.maximumArtifactBytes then Err(InvalidLimits)
    else if !ValidInstalled(selection.installed)
            || selection.installed.storageKey != ManagedStorageKey(Name(selection)) then
      Err(UnsafeStorageLayout)
    else if OpenFails in conditions.faults then Err(StorageFailed)
    else if exclusive then Err(StorageInUse)
    else Confirmation(s, |dir|, Aliased(staging, Name(selection)), selection, limits, conditions)
  }

  function Confirmation(s: Store, entries: nat, aliased: bool, selection: Installation, limits: Limits,
                        conditions: Conditions): Result<(), LeaseError>
  {
    if ReadFails in conditions.faults then Err(State(Database))
    else if !IsCurrent(s, selection) then Err(ConcurrentModification)
    else if VerifyFails in conditions.faults then Err(StorageFailed)
    else if conditions.cancelled then Err(Cancelled)
    else if entries > limits.maximumStorageEntries then Err(StorageEntryLimitExceeded)
    else if aliased || LayoutChanges in conditions.faults then Err(ConcurrentModification)
    else if RereadFails in conditions.faults then Err(State(Database))
    else Ok(())
  }

  /** Every fault there is stands in the way of a lease. */
  lemma AnyFaultHinders(faults: set<Fault>)
    ensures faults == {} <==> {OpenFails, ReadFails, VerifyFails, LayoutChanges, RereadFails} !! faults
  {
    if f :| f in faults {
      match f {
        case OpenFails =>
        case ReadFails =>
        case VerifyFails =>
        case LayoutChanges =>
        case RereadFails =>
      }
    }
  }

  lemma GrantedIff(s: Store, dir: Directory, staging: StagingArea, exclusive: bool, selection: Installation,
                   limits: Limits, conditions: Conditions)
    requires IsCurrent(s, selection) ==> ValidSelection(selection)
    ensures LeaseOutcome(s, dir, staging, exclusive, selection, limits, conditions).Ok? <==>
            Grantable(s, dir, staging, exclusive, selection, limits) && FaultFree(conditions)
  {
    AnyFaultHinders(conditions.faults);
  }

  predicate Grantable(s: Store, dir: Directory, staging: StagingArea, exclusive: bool, selection: Installation,
                      limits: Limits)
  {
    && 0 < limits.maximumStorageEntries && |dir| <= limits.maximumStorageEntries
    && 0 < limits.maximumArtifactBytes && selection.installed.byteSize <= limits.maximumArtifactBytes
    && IsCurrent(s, selection) && !exclusive && !Aliased(staging, Name(selection))
  }

  /** The request is well formed and the shared lock is held. */
  predicate Opens(exclusive: bool, selection: Installation, limits: Limits, conditions: Conditions) {
    && WithinLimits(selection, limits) && Canonical(selection)
    && OpenFails !in conditions.faults && !exclusive
  }

  predicate WithinLimits(selection: Installation, limits: Limits) {
    && 0 < limits.maximumStorageEntries && 0 < limits.maximumArtifactBytes
    && selection.installed.byteSize <= limits.maximumArtifactBytes
  }

  predicate Canonical(selection: Installation) {
    && ValidInstalled(selection.installed)
    && selection.installed.storageKey == "artifacts/" + selection.installed.artifactDigest
  }

  /** The generation was found current and its bytes are about to be verified. */
  predicate Checks(s: Store, exclusive: bool, selection: Installation, limits: Limits, conditions: Conditions) {
    Opens(exclusive, selection, limits, conditions) && ReadFails !in conditions.faults && IsCurrent(s, selection)
  }

  /** Each refusal of a lease by its exact condition. */
  predicate LeaseRefuses(s: Store, dir: Directory, staging: StagingArea, exclusive: bool, selection: Installation,
                         limits: Limits, conditions: Conditions, error: LeaseError)
  {
    var f, within := conditions.faults, WithinLimits(selection, limits);
    var checks := Checks(s, exclusive, selection, limits, conditions);
    var looks := checks && VerifyFails !in f && !conditions.cancelled;
    var fits := |dir| <= limits.maximumStorageEntries;
    var steady := !Aliased(staging, Name(selection)) && LayoutChanges !in f;
    match error
    case InvalidLimits => !within
    case UnsafeStorageLayout => within && !Canonical(selection)
    case StorageFailed => (within && Canonical(selection) && OpenFails in f) || (checks && VerifyFails in f)
    case StorageInUse => within && Canonical(selection) && OpenFails !in f && exclusive
    case Cancelled => checks && VerifyFails !in f && conditions.cancelled
    case StorageEntryLimitExceeded => looks && !fits
    case ConcurrentModification =>
      || (&& Opens(exclusive, selection, limits, conditions) && ReadFails !in f && !IsCurrent(s, selection))
      || (looks && fits && !steady)
    case State(state) =>
      && state == Database
      && (|| (Opens(exclusive, selection, limits, conditions) && ReadFails in f)
          || (looks && fits && steady && RereadFails in f))
  }

  lemma LeaseIsAnswered(s: Store, dir: Directory, staging: StagingArea, exclusive: bool, selection: Installation,
                        limits: Limits, conditions: Conditions)
    ensures var r := LeaseOutcome(s, dir, staging, exclusive, selection, limits, conditions);
            forall error ::
              r == Err(error) <==> LeaseRefuses(s, dir, staging, exclusive, selection, limits, conditions, error)
  {
    hide ValidInstalled, IsCurrent, Aliased;
    var r := LeaseOutcome(s, dir, staging, exclusive, selection, limits, conditions);
    forall error
      ensures r == Err(error) <==>
              LeaseRefuses(s, dir, staging, exclusive, selection, limits, conditions, error)
    {
    }
  }

  /** Takes the shared lock and keeps it exactly when the lease is granted: then the
      generation is current and its bytes are exact. Storage itself never changes. */
  method Acquire(storage: ManagedStorage, ghost pid: Pid, selection: Installation, limits: Limits,
                 conditions: Conditions)
    returns (r: Result<(), LeaseError>)
    requires storage.Valid() && pid !in storage.procs
    modifies storage`exclusive, storage`sharers, storage`procs, storage`trace
    ensures storage.Valid() && Extends(old(storage.trace), storage.trace)
    ensures r.Ok? ==> && storage.procs == old(storage.procs)[pid := Lifecycle.Lease(selection, LeaseHeld)]
                      && IsCurrent(storage.store, selection)
                      && Exact(storage.hash, storage.dir, Name(selection), selection.installed.byteSize)
    ensures r.Err? ==> storage.procs == old(storage.procs)
    ensures r == LeaseOutcome(storage.store, storage.dir, storage.staging, old(storage.exclusive), selection, limits,
                              conditions)
    ensures r.Ok? <==> && Grantable(storage.store, storage.dir, storage.staging, old(storage.exclusive), selection,
                                    limits)
                       && FaultFree(conditions)
    ensures forall error :: r == Err(error) <==>
              LeaseRefuses(storage.store, storage.dir, storage.staging, old(storage.exclusive), selection, limits,
                           conditions, error)
  {
    hide ManagedStorage.Valid, Inv, Confirmation, Grantable, ValidSelection, LeaseRefuses;
    LeaseIsAnswered(storage.store, storage.dir, storage.staging, storage.exclusive, selection, limits, conditions);
    CurrentIsExact(storage, selection);
    GrantedIff(storage.store, storage.dir, storage.staging, storage.exclusive, selection, limits, conditions);
    if limits.maximumArtifactBytes == 0 || limits.maximumStorageEntries == 0
       || selection.installed.byteSize > limits.maximumArtifactBytes { return Err(InvalidLimits); }
    if !ValidInstalled(selection.installed) { return Err(UnsafeStorageLayout); }
    if selection.installed.storageKey != ManagedStorageKey(selection.installed.artifactDigest) {
      return Err(UnsafeStorageLayout);
    }
    if OpenFails in conditions.faults { return Err(StorageFailed); }
    var locked := storage.TryLock(true, pid, Lifecycle.Lease(selection, LeaseOpened));
    if !locked { return Err(StorageInUse); }
    r := Confirm(storage, pid, selection, limits, conditions);
    if r.Err? {
      storage.Unlock(true, pid);
      assert storage.procs == old(storage.procs);
    }
  }

  /** Reading succeeds, and a current generation has its exact bytes. */
  lemma CurrentIsExact(storage: ManagedStorage, selection: Installation)
    requires storage.Valid()
    ensures var r := Lookup(storage.store, selection.installed.artifactId);
            ReadState(storage.store, selection.installed.artifactId) == Ok((r.current, r.removal))
    ensures IsCurrent(storage.store, selection) ==>
              && ValidSelection(selection)
              && Exact(storage.hash, storage.dir, Name(selection), selection.installed.byteSize)
  {
    storage.HoldsInvariant();
    var id := selection.installed.artifactId;
    ReadSucceeds(storage.store, id);
    if IsCurrent(storage.store, selection) {
      assert id in storage.store.records;
      assert BytesOk(storage.hash, Lookup(storage.store, id), storage.dir, storage.disk, id);
    }
  }

  /** Checks the generation before and after verifying its bytes. */
  method Confirm(storage: ManagedStorage, ghost pid: Pid, selection: Installation, limits: Limits,
                 conditions: Conditions)
    returns (r: Result<(), LeaseError>)
    requires storage.Valid() && pid in storage.procs && storage.procs[pid] == Lifecycle.Lease(selection, LeaseOpened)
    modifies storage`procs, storage`trace
    ensures storage.Valid() && Extends(old(storage.trace), storage.trace)
    ensures r.Ok? ==> && storage.procs == old(storage.procs)[pid := Lifecycle.Lease(selection, LeaseHeld)]
                      && IsCurrent(storage.store, selection)
                      && Exact(storage.hash, storage.dir, Name(selection), selection.installed.byteSize)
    ensures storage.procs - {pid} == old(storage.procs) - {pid} && pid in storage.procs && storage.procs[pid].Lease?
    ensures r == Confirmation(storage.store, |storage.dir|, Aliased(storage.staging, Name(selection)),
                              selection, limits, conditions)
  {
    hide IsRun, LockMatches, Inv, StoreInv, ValidateRecord, ValidSelection;
    if ReadFails in conditions.faults { return Err(State(Database)); }
    CurrentIsExact(storage, selection);
    var (current, _) := ReadState(storage.store, selection.installed.artifactId).value;
    if current != Some(selection) { return Err(ConcurrentModification); }
    storage.LogLease(pid, selection, LeaseOpened, LeaseCheck);
    if VerifyFails in conditions.faults { return Err(StorageFailed); }
    if conditions.cancelled { return Err(Cancelled); }
    var v := Verify(storage.hash, storage.dir, storage.staging, selection.installed.artifactDigest,
                    selection.installed.byteSize, limits.maximumStorageEntries);
    if v == EntryLimit { return Err(StorageEntryLimitExceeded); }
    if v != Verified { return Err(ConcurrentModification); }
    storage.LogLease(pid, selection, LeaseChecked, LeaseVerify);
    if LayoutChanges in conditions.faults { return Err(ConcurrentModification); }
    if RereadFails in conditions.faults { return Err(State(Database)); }
    storage.LogLease(pid, selection, LeaseVerified, LeaseRecheck);
    return Ok(());
  }

  /** Dropping the lease releases the shared lock. */
  method Release(storage: ManagedStorage, ghost pid: Pid)
    requires storage.Valid() && pid in storage.procs && storage.procs[pid].Lease?
    modifies storage`exclusive, storage`sharers, storage`procs, storage`trace
    ensures storage.Valid() && Extends(old(storage.trace), storage.trace)
    ensures storage.procs == old(storage.procs) - {pid}
  {
    hide ManagedStorage.Valid;
    storage.Unlock(true, pid);
  }
}
