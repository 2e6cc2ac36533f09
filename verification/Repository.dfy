/** Administrative removal and recovery by exact installation key. */
module ArtifactRepository {
  import opened Text
  import opened Artifacts
  import opened StateStore
  import opened Lifecycle
  import opened LifecycleSafety
  import opened ManagedStorage
  import opened ArtifactRemoval

  datatype InstallationKey = InstallationKey(artifactId: Digest, generation: nat)

  function KeyOf(selection: Installation): InstallationKey {
    InstallationKey(selection.installed.artifactId, selection.epoch)
  }

  datatype RepositoryError =
    | InvalidInstallationGeneration | StateError(error: StoreError) | ArtifactNotInstalled | StaleInstallation
    | RemovalRecoveryPending(pending: InstallationKey) | RemovalRecoveryNotPending
    | RemovalFailed(removal: RemovalError) | RemovalRecoveryRequired(key: InstallationKey, cause: RemovalError)
    | UnsafeDataDirectory

  type Outcome = Result<Disposition, RepositoryError>

  function MapRemovalError(key: InstallationKey, error: RemovalError): RepositoryError {
    if error.RecoveryRequired? then RemovalRecoveryRequired(key, error) else RemovalFailed(error)
  }

  function MapResult(key: InstallationKey, r: Result<Disposition, RemovalError>): Outcome {
    match r
    case Ok(d) => Ok(d)
    case Err(error) => Err(MapRemovalError(key, error))
  }

  /** Joins the operation's result with the final recheck of the data directory. */
  function FinishOperation(result: Outcome, boundaryFails: bool): Outcome {
    if !boundaryFails then result
    else if result.Err? && result.error.RemovalRecoveryRequired? then result
    else Err(UnsafeDataDirectory)
  }

  predicate ValidKey(key: InstallationKey) {
    0 < key.generation <= MAX_EPOCH
  }

  ghost predicate KeyPrepared(s: Store, key: InstallationKey) {
    exists selection :: KeyOf(selection) == key && IsPrepared(s, selection)
  }

  ghost predicate KeyCompleted(s: Store, key: InstallationKey) {
    exists selection :: KeyOf(selection) == key && IsCompleted(s, selection)
  }

  ghost predicate KeyRemoved(w: World, w': World, key: InstallationKey, wasCurrent: bool) {
    exists selection ::
      && KeyOf(selection) == key && Gone(w', selection)
      && (if wasCurrent then IsCurrent(w.store, selection) else IsPrepared(w.store, selection))
  }

  /** The key names a current generation that this call removes. */
  ghost predicate KeyRemoves(w: World, key: InstallationKey, limits: Limits, conditions: Conditions) {
    var current := Lookup(w.store, key.artifactId).current;
    current.Some? && KeyOf(current.value) == key && RemovesCurrent(w, current.value, limits, conditions)
  }

  /** The key names a prepared removal that this call completes. */
  ghost predicate KeyRecovers(w: World, key: InstallationKey, limits: Limits, conditions: Conditions) {
    var removal := Lookup(w.store, key.artifactId).removal;
    && removal.Some? && KeyOf(removal.value.selection) == key
    && RecoversPrepared(w, removal.value.selection, limits, conditions)
  }

  /** The answer to a removal that needs no look at storage, when there is one. */
  function RemovalAnswer(s: Store, key: InstallationKey): Option<Outcome> {
    var r := Lookup(s, key.artifactId);
    if r.removal.Some? && KeyOf(r.removal.value.selection) == key then
      Some(if r.removal.value.phase.Prepared? then Err(RemovalRecoveryPending(key)) else Ok(AlreadyRemoved))
    else if r.current.None? then Some(Err(ArtifactNotInstalled))
    else if KeyOf(r.current.value) != key then Some(Err(RepositoryError.StaleInstallation))
    else None
  }

  /** The same for a recovery. */
  function RecoveryAnswer(s: Store, key: InstallationKey): Option<Outcome> {
    var removal := Lookup(s, key.artifactId).removal;
    if removal.None? then Some(Err(RemovalRecoveryNotPending))
    else if KeyOf(removal.value.selection) != key then Some(Err(RepositoryError.StaleInstallation))
    else if removal.value.phase.Completed? then Some(Ok(AlreadyRemoved))
    else None
  }

  /** The outcome of the operation proper, for every set of faults. */
  function RemovalOutcome(s: Store, dir: Directory, staging: StagingArea, idle: bool, key: InstallationKey,
                          limits: Limits, conditions: Conditions): Outcome
  {
    var answer := RemovalAnswer(s, key);
    if answer.Some? then answer.value
    else MapResult(key, CallOutcome(s, dir, staging, idle, Lookup(s, key.artifactId).current.value,
                                    limits, conditions))
  }

  function RecoveryOutcome(s: Store, dir: Directory, staging: StagingArea, idle: bool, key: InstallationKey,
                           limits: Limits, conditions: Conditions): Outcome
  {
    var answer := RecoveryAnswer(s, key);
    if answer.Some? then answer.value
    else MapResult(key, CallOutcome(s, dir, staging, idle, Lookup(s, key.artifactId).removal.value.selection,
                                    limits, conditions))
  }

  // ----------------------------------------------------------------------------------
  // Each answer by its exact condition

  predicate Names(selection: Installation, key: InstallationKey) {
    selection.installed.artifactId == key.artifactId && selection.epoch == key.generation
  }

  /** A removal's answer, carried over to the repository: only a pending recovery is told apart. */
  predicate Carries(key: InstallationKey, inner: Result<Disposition, RemovalError>, r: Outcome) {
    match inner
    case Ok(disposition) => r == Ok(disposition)
    case Err(RecoveryRequired(cause)) => r == Err(RemovalRecoveryRequired(key, RecoveryRequired(cause)))
    case Err(error) => r == Err(RemovalFailed(error))
  }

  ghost predicate CallAnswers(w: World, key: InstallationKey, selection: Installation, limits: Limits,
                              conditions: Conditions, r: Outcome)
  {
    exists inner :: RemovalAnswers(w, selection, limits, conditions, inner) && Carries(key, inner, r)
  }

  /** Which removals are answered from the rows alone, and which are carried out. */
  ghost predicate RemoveAnswers(w: World, key: InstallationKey, limits: Limits, conditions: Conditions, r: Outcome) {
    var row := Lookup(w.store, key.artifactId);
    var journaled := row.removal.Some? && Names(row.removal.value.selection, key);
    && (r == Err(RemovalRecoveryPending(key)) <==> journaled && row.removal.value.phase == Prepared)
    && (journaled && row.removal.value.phase == Completed ==> r == Ok(AlreadyRemoved))
    && (r == Err(ArtifactNotInstalled) <==> !journaled && row.current.None?)
    && (r == Err(RepositoryError.StaleInstallation) <==>
          !journaled && row.current.Some? && !Names(row.current.value, key))
    && (!journaled && row.current.Some? && Names(row.current.value, key) ==>
          CallAnswers(w, key, row.current.value, limits, conditions, r))
  }

  /** The same for a recovery. */
  ghost predicate RecoverAnswers(w: World, key: InstallationKey, limits: Limits, conditions: Conditions, r: Outcome) {
    var removal := Lookup(w.store, key.artifactId).removal;
    && (r == Err(RemovalRecoveryNotPending) <==> removal.None?)
    && (r == Err(RepositoryError.StaleInstallation) <==> removal.Some? && !Names(removal.value.selection, key))
    && (removal.Some? && Names(removal.value.selection, key) ==>
          if removal.value.phase == Completed then r == Ok(AlreadyRemoved)
          else CallAnswers(w, key, removal.value.selection, limits, conditions, r))
  }

  /** A failed final recheck of the data directory replaces every answer but a pending recovery. */
  ghost predicate Joins(proper: Outcome, boundaryFails: bool, r: Outcome) {
    var kept := proper.Err? && proper.error.RemovalRecoveryRequired?;
    && (!boundaryFails || kept ==> r == proper)
    && (boundaryFails && !kept ==> r == Err(UnsafeDataDirectory))
  }

  lemma OutcomesAreAnswers(storage: ManagedStorage, key: InstallationKey, limits: Limits, conditions: Conditions)
    requires storage.Valid()
    ensures var w := storage.View();
            && RemoveAnswers(w, key, limits, conditions,
                 RemovalOutcome(w.store, w.dir, w.staging, w.procs == map[], key, limits, conditions))
            && RecoverAnswers(w, key, limits, conditions,
                 RecoveryOutcome(w.store, w.dir, w.staging, w.procs == map[], key, limits, conditions))
  {
    hide ManagedStorage.Valid, CallOutcome, RemovalAnswers, Inv;
    storage.HoldsInvariant();
    var w, row := storage.View(), Lookup(storage.store, key.artifactId);
    if row.current.Some? { CallIsAnswered(storage.hash, w, key, row.current.value, limits, conditions); }
    if row.removal.Some? { CallIsAnswered(storage.hash, w, key, row.removal.value.selection, limits, conditions); }
  }

  lemma CallIsAnswered(hash: Hash, w: World, key: InstallationKey, selection: Installation, limits: Limits,
                       conditions: Conditions)
    requires Inv(hash, w)
    ensures var r := MapResult(key, CallOutcome(w.store, w.dir, w.staging, w.procs == map[], selection, limits,
                                                conditions));
            && CallAnswers(w, key, selection, limits, conditions, r)
            && r != Err(ArtifactNotInstalled) && r != Err(RepositoryError.StaleInstallation)
            && r != Err(RemovalRecoveryPending(key)) && r != Err(RemovalRecoveryNotPending)
  {
    hide CallOutcome, RemovalAnswers, Inv;
    RemovalIsAnswered(hash, w, selection, limits, conditions);
    var inner := CallOutcome(w.store, w.dir, w.staging, w.procs == map[], selection, limits, conditions);
    assert Carries(key, inner, MapResult(key, inner));
  }

  /** What the outcome of the operation proper says about durable state. */
  ghost predicate Describes(w: World, w': World, key: InstallationKey, r: Outcome) {
    match r
    case Ok(Removed) => KeyRemoved(w, w', key, true)
    case Ok(Recovered) => KeyRemoved(w, w', key, false)
    case Ok(AlreadyRemoved) => KeyCompleted(w.store, key) && w' == w
    case Err(error) =>
      && (if error.RemovalRecoveryRequired? then KeyPrepared(w'.store, key) else SameAuthority(w, w'))
      && (error.RemovalRecoveryPending? ==> KeyPrepared(w.store, key))
  }

  /** Removes one exact current generation. A prepared removal is reported, never resumed,
      so this call never reports a recovery. An ordinary error leaves journal and bytes
      alone unless the data directory's final recheck failed after the removal completed. */
  method Remove(storage: ManagedStorage, ghost pid: Pid, key: InstallationKey, limits: Limits,
                conditions: Conditions, boundaryFails: bool)
    returns (r: Outcome)
    requires storage.Valid() && pid !in storage.procs
    modifies storage
    ensures storage.Valid() && Extends(old(storage.trace), storage.trace) && storage.procs == old(storage.procs)
    ensures !ValidKey(key) ==> r == Err(InvalidInstallationGeneration) && storage.View() == old(storage.View())
    ensures r != Ok(Recovered)
    ensures ValidKey(key) ==>
              var outcome := RemovalOutcome(old(storage.store), old(storage.dir), old(storage.staging),
                                            old(storage.procs) == map[], key, limits, conditions);
              && r == FinishOperation(outcome, boundaryFails)
              && Describes(old(storage.View()), storage.View(), key, outcome)
              && (outcome == Ok(Removed) <==> KeyRemoves(old(storage.View()), key, limits, conditions))
              && RemoveAnswers(old(storage.View()), key, limits, conditions, outcome)
              && Joins(outcome, boundaryFails, r)
    ensures ValidKey(key) && r.Err? && !r.error.RemovalRecoveryRequired? ==>
              (SameAuthority(old(storage.View()), storage.View())
               <==> !(boundaryFails && KeyRemoves(old(storage.View()), key, limits, conditions)))
  {
    hide ManagedStorage.Valid;
    hide KeyRemoves, Describes, RemovalOutcome, IsRun, LockMatches, RemoveAnswers, RecoverAnswers;
    OutcomesAreAnswers(storage, key, limits, conditions);
    if !ValidKey(key) {
      return Err(InvalidInstallationGeneration);
    }
    ghost var before := storage.View();
    var result := RemoveCurrent(storage, pid, key, limits, conditions);
    OrdinaryErrorChangesNothing(before, storage.View(), key, result);
    return FinishOperation(result, boundaryFails);
  }

  lemma OrdinaryErrorChangesNothing(w: World, w': World, key: InstallationKey, r: Outcome)
    requires Describes(w, w', key, r)
    ensures r == Ok(Removed) || r == Ok(Recovered) || (r.Err? && r.error.RemovalRecoveryRequired?)
              || SameAuthority(w, w')
  {
  }

  method RemoveCurrent(storage: ManagedStorage, ghost pid: Pid, key: InstallationKey, limits: Limits,
                       conditions: Conditions)
    returns (r: Outcome)
    requires storage.Valid() && pid !in storage.procs
    modifies storage
    ensures storage.Valid() && Extends(old(storage.trace), storage.trace) && storage.procs == old(storage.procs)
    ensures r != Ok(Recovered)
    ensures Describes(old(storage.View()), storage.View(), key, r)
    ensures r == Ok(Removed) ==> !SameAuthority(old(storage.View()), storage.View())
    ensures r == Ok(Removed) <==> KeyRemoves(old(storage.View()), key, limits, conditions)
    ensures r == RemovalOutcome(old(storage.store), old(storage.dir), old(storage.staging),
                                old(storage.procs) == map[], key, limits, conditions)
  {
    hide ManagedStorage.Valid, CallOutcome, Removable, Unhindered, CallUnlinks, RemovalAnswers, Goes, OthersUntouched;
    storage.HoldsInvariant();
    ReadSucceeds(storage.store, key.artifactId);
    var (current, removal) := ReadState(storage.store, key.artifactId).value;
    JournalNamesItsArtifact(storage.store, key.artifactId);
    JournalAndCurrentDiffer(storage.store, key.artifactId);
    if removal.Some? && KeyOf(removal.value.selection) == key {
      if removal.value.phase.Prepared? {
        assert IsPrepared(storage.store, removal.value.selection);
        return Err(RemovalRecoveryPending(key));
      }
      assert IsCompleted(storage.store, removal.value.selection);
      return Ok(AlreadyRemoved);
    }
    if current.None? { return Err(ArtifactNotInstalled); }
    var selection := current.value;
    if KeyOf(selection) != key { return Err(RepositoryError.StaleInstallation); }
    assert && IsCurrent(storage.store, selection) && !IsPrepared(storage.store, selection)
           && !IsCompleted(storage.store, selection);
    var result := ArtifactRemoval.Remove(storage, pid, selection, limits, conditions);
    r := MapResult(key, result);
  }

  lemma JournalNamesItsArtifact(s: Store, id: Digest)
    requires StoreInv(s)
    ensures Lookup(s, id).removal.Some? ==> Lookup(s, id).removal.value.selection.installed.artifactId == id
    ensures Lookup(s, id).current.Some? ==> Lookup(s, id).current.value.installed.artifactId == id
  {
    if id in s.records { assert ValidateRecord(id, s.records[id]).None?; }
  }

  /** The journal never names the current generation. */
  lemma JournalAndCurrentDiffer(s: Store, id: Digest)
    requires StoreInv(s)
    ensures var r := Lookup(s, id);
      r.current.Some? && r.removal.Some? ==>
        r.removal.value.phase.Completed? && r.current.value.epoch > r.removal.value.selection.epoch
  {
    if id in s.records { assert ValidateRecord(id, s.records[id]).None?; }
  }

  /** Completes one exact prepared removal, ignoring cancellation; it never starts a fresh
      removal, so it never reports one. */
  method RecoverRemoval(storage: ManagedStorage, ghost pid: Pid, key: InstallationKey, limits: Limits,
                        faults: set<Fault>, boundaryFails: bool)
    returns (r: Outcome)
    requires storage.Valid() && pid !in storage.procs
    modifies storage
    ensures storage.Valid() && Extends(old(storage.trace), storage.trace) && storage.procs == old(storage.procs)
    ensures !ValidKey(key) ==> r == Err(InvalidInstallationGeneration) && storage.View() == old(storage.View())
    ensures r != Ok(Removed)
    ensures ValidKey(key) ==>
              var conditions := Conditions(faults, CANCELLATION_CHECKS);
              var outcome := RecoveryOutcome(old(storage.store), old(storage.dir), old(storage.staging),
                                             old(storage.procs) == map[], key, limits, conditions);
              && r == FinishOperation(outcome, boundaryFails)
              && Describes(old(storage.View()), storage.View(), key, outcome)
              && (outcome == Ok(Recovered) <==> KeyRecovers(old(storage.View()), key, limits, conditions))
              && RecoverAnswers(old(storage.View()), key, limits, conditions, outcome)
              && Joins(outcome, boundaryFails, r)
    ensures ValidKey(key) && r.Err? && !r.error.RemovalRecoveryRequired? ==>
              (SameAuthority(old(storage.View()), storage.View())
               <==> !(boundaryFails && KeyRecovers(old(storage.View()), key, limits,
                                                   Conditions(faults, CANCELLATION_CHECKS))))
  {
    hide ManagedStorage.Valid;
    hide KeyRecovers, Describes, RecoveryOutcome, IsRun, LockMatches, RemoveAnswers, RecoverAnswers;
    OutcomesAreAnswers(storage, key, limits, Conditions(faults, CANCELLATION_CHECKS));
    if !ValidKey(key) {
      return Err(InvalidInstallationGeneration);
    }
    ghost var before := storage.View();
    var result := RecoverPrepared(storage, pid, key, limits, Conditions(faults, CANCELLATION_CHECKS));
    OrdinaryErrorChangesNothing(before, storage.View(), key, result);
    return FinishOperation(result, boundaryFails);
  }

  method RecoverPrepared(storage: ManagedStorage, ghost pid: Pid, key: InstallationKey, limits: Limits,
                         conditions: Conditions)
    returns (r: Outcome)
    requires storage.Valid() && pid !in storage.procs
    modifies storage
    ensures storage.Valid() && Extends(old(storage.trace), storage.trace) && storage.procs == old(storage.procs)
    ensures r != Ok(Removed)
    ensures Describes(old(storage.View()), storage.View(), key, r)
    ensures r == Ok(Recovered) ==> !SameAuthority(old(storage.View()), storage.View())
    ensures r == Ok(Recovered) <==> KeyRecovers(old(storage.View()), key, limits, conditions)
    ensures r == RecoveryOutcome(old(storage.store), old(storage.dir), old(storage.staging),
                                 old(storage.procs) == map[], key, limits, conditions)
  {
    hide ManagedStorage.Valid, CallOutcome, Removable, Unhindered, CallUnlinks, RemovalAnswers, Goes, OthersUntouched;
    storage.HoldsInvariant();
    ReadSucceeds(storage.store, key.artifactId);
    var (current, removal) := ReadState(storage.store, key.artifactId).value;
    JournalNamesItsArtifact(storage.store, key.artifactId);
    if removal.None? { return Err(RemovalRecoveryNotPending); }
    var selection := removal.value.selection;
    if KeyOf(selection) != key { return Err(RepositoryError.StaleInstallation); }
    if removal.value.phase.Completed? {
      assert IsCompleted(storage.store, selection);
      return Ok(AlreadyRemoved);
    }
    PreparedHasNoCurrent(storage.store, selection);
    var result := ArtifactRemoval.Remove(storage, pid, selection, limits, conditions);
    r := MapResult(key, result);
  }
}
