/** Concrete calls in which the repository's answer may surprise its caller. */
module RepositoryCases {
  import opened Text
  import opened Artifacts
  import opened StateStore
  import opened Lifecycle
  import opened ManagedStorage
  import opened ArtifactRemoval
  import opened ArtifactRepository
  import ArtifactImport
  import RuntimeArtifactLease
  import Streaming

  function SampleDigest(c: char): Digest {
    seq(64, _ => c)
  }

  function Sample(c: char, size: nat): Manifest {
    Manifest(SampleDigest(c), SampleDigest(c), size, "", true)
  }

  const A: Manifest := Sample('a', 1)
  const B: Manifest := Sample('b', 2)

  function SampleHash(bytes: Bytes): Digest {
    if |bytes| == 1 then A.artifactDigest else B.artifactDigest
  }

  function FirstGeneration(m: Manifest): Installation {
    Installation(InstalledFrom(m), 1)
  }

  const UNDISTURBED: ArtifactImport.Conditions :=
    ArtifactImport.Conditions({}, ArtifactImport.CANCELLATION_CHECKS, _ => Streaming.Deliver(1))

  predicate Unknown(s: Store, m: Manifest) {
    Lookup(s, m.artifactId) == Record(None, None, None) && s.bindings == map[]
  }

  lemma DigestsDiffer()
    ensures A.artifactDigest != B.artifactDigest
  {
    assert A.artifactDigest[0] == 'a' && B.artifactDigest[0] == 'b';
  }

  /** A store that has never heard of a sample registers its first generation and nothing else. */
  lemma SampleRegisters(s: Store, c: char, size: nat)
    requires ('a' <= c <= 'f') && size > 0 && Unknown(s, Sample(c, size))
    ensures var m := Sample(c, size);
      var tx := PutInstallation(s, m, InstalledFrom(m));
      && ValidManifest(m) && ValidSelection(FirstGeneration(m))
      && tx.result.Ok? && tx.result.value.installation == FirstGeneration(m)
      && tx.store == s.(records := s.records[m.artifactId := Record(Some(m), Some(FirstGeneration(m)), None)])
  {
    InstalledFromIsValid(Sample(c, size));
  }

  /** Imports a sample into storage that does not hold it and has room for it. */
  method ImportSample(storage: ManagedStorage, pid: Pid, c: char, source: Bytes, limits: Limits)
    returns (imported: bool)
    requires storage.Valid() && storage.procs == map[] && storage.staging == map[] && storage.stagingDisk == map[]
    requires 'a' <= c <= 'f' && source != [] && ValidLimits(limits)
    requires storage.hash(source) == SampleDigest(c) && |source| <= limits.maximumArtifactBytes
    requires SampleDigest(c) !in storage.dir && |storage.dir| < limits.maximumStorageEntries
    requires Unknown(storage.store, Sample(c, |source|))
    modifies storage
    ensures imported && storage.Valid() && storage.procs == map[] && storage.staging == map[]
    ensures storage.stagingDisk == map[]
    ensures var m := Sample(c, |source|);
      && storage.dir == old(storage.dir)[m.artifactDigest := File(source, true)]
      && storage.store == old(storage.store).(
           records := old(storage.store).records[m.artifactId := Record(Some(m), Some(FirstGeneration(m)), None)])
  {
    hide ManagedStorage.Valid;
    hide ValidManifest, PutInstallation, ValidSelection;
    SampleRegisters(storage.store, c, |source|);
    ArtifactImport.FaultFreeIsUnhindered(UNDISTURBED, 0, false, source);
    var put := ArtifactImport.Import(storage, pid, Sample(c, |source|), source, limits, UNDISTURBED);
    imported := put.Ok?;
  }

  /** One artifact is imported and then removed while the final recheck fails: the call ends in an
      ordinary error although the journal is completed and the bytes are gone. */
  method CompletedRemovalReportedAsError() returns (storage: ManagedStorage, imported: bool, r: Outcome)
    ensures imported && r == Err(UnsafeDataDirectory)
    ensures Gone(storage.View(), FirstGeneration(A))
  {
    hide ManagedStorage.Valid;
    hide ValidManifest, PutInstallation, ValidSelection;
    storage := new ManagedStorage(SampleHash, map[], map[]);
    SampleRegisters(storage.store, 'a', 1);
    imported := ImportSample(storage, 0, 'a', [0], Limits(1, 2));
    assert storage.dir.Keys == {A.artifactDigest};
    assert |storage.dir| == |storage.dir.Keys| == 1;
    assert KeyRemoves(storage.View(), KeyOf(FirstGeneration(A)), Limits(1, 2), Conditions({}, 4));
    r := ArtifactRepository.Remove(storage, 1, KeyOf(FirstGeneration(A)), Limits(1, 2), Conditions({}, 4), true);
  }

  /** With room for one entry, A is imported and removed, but synchronizing the directory fails, so
      its removal stays prepared with the bytes gone. */
  method UnsyncedRemoval() returns (storage: ManagedStorage, imported: bool)
    ensures imported && storage.Valid() && fresh(storage) && storage.hash == SampleHash
    ensures storage.procs == map[] && storage.staging == map[] && storage.stagingDisk == map[] && storage.dir == map[]
    ensures IsPrepared(storage.store, FirstGeneration(A)) && Unknown(storage.store, B)
  {
    hide ManagedStorage.Valid;
    hide ValidManifest, PutInstallation, ValidSelection, OthersUntouched, RemovesCurrent, RecoversPrepared;
    hide CallOutcome, CallUnlinks;
    storage := new ManagedStorage(SampleHash, map[], map[]);
    SampleRegisters(storage.store, 'a', 1);
    DigestsDiffer();
    imported := ImportSample(storage, 0, 'a', [0], Limits(2, 1));
    ghost var before := storage.View();
    assert storage.dir == map[A.artifactDigest := File([0], true)];
    UnsyncedOutcome(storage.store, storage.dir);
    var r := ArtifactRemoval.Remove(storage, 1, FirstGeneration(A), Limits(2, 1), Conditions({SyncFails}, 4));
    assert storage.dir == map[];
    BIsUnknown(before, storage.View());
  }

  lemma UnsyncedOutcome(s: Store, dir: Directory)
    requires ValidSelection(FirstGeneration(A))
               && Lookup(s, A.artifactId) == Record(Some(A), Some(FirstGeneration(A)), None)
    requires s.bindings == map[] && dir.Keys == {A.artifactDigest}
    ensures CallOutcome(s, dir, map[], true, FirstGeneration(A), Limits(2, 1), Conditions({SyncFails}, 4))
         == Err(RecoveryRequired(StorageIo))
    ensures CallUnlinks(s, dir, map[], true, FirstGeneration(A), Limits(2, 1), Conditions({SyncFails}, 4))
  {
    assert |dir| == |dir.Keys| == 1;
  }

  /** B is imported into the entry that the unsynchronized removal of A freed. Recovering A without
      any fault is then refused, although nothing of A is left to remove. */
  method RecoveryRefusedAtCapacity() returns (storage: ManagedStorage, imported: bool, r: Outcome)
    ensures imported && r == Err(RemovalRecoveryRequired(KeyOf(FirstGeneration(A)), RecoveryRequired(Storage)))
    ensures KeyPrepared(storage.store, KeyOf(FirstGeneration(A)))
  {
    hide ManagedStorage.Valid;
    hide ValidManifest, PutInstallation, KeyRecovers, KeyRemoved;
    storage, imported := UnsyncedRemoval();
    DigestsDiffer();
    SampleRegisters(Store(map[], map[]), 'a', 1);
    var second := ImportSample(storage, 2, 'b', [0, 0], Limits(2, 1));
    imported := imported && second;
    assert IsPrepared(storage.store, FirstGeneration(A));
    assert storage.dir.Keys == {B.artifactDigest};
    assert |storage.dir| == |storage.dir.Keys| == 1;
    r := RecoverRemoval(storage, 3, KeyOf(FirstGeneration(A)), Limits(2, 1), {}, false);
  }

  /** Removing A leaves B as unknown to the store as it was. */
  lemma BIsUnknown(w: World, w': World)
    requires OthersUntouched(w, w', FirstGeneration(A)) && Unknown(w.store, B)
    ensures Unknown(w'.store, B) && w'.staging == w.staging && w'.stagingDisk == w.stagingDisk
  {
    DigestsDiffer();
  }

  /** An import of A that has checked its request. */
  method CheckedImport() returns (storage: ManagedStorage, checked: bool)
    ensures checked && storage.Valid() && fresh(storage) && storage.hash == SampleHash
    ensures ArtifactImport.Running(storage.procs, 0, A, Some([0]), InstallChecked)
    ensures Unknown(storage.store, A) && storage.dir == map[]
    ensures storage.staging == map[] && storage.stagingDisk == map[]
  {
    hide ManagedStorage.Valid, ValidManifest, PutInstallation, ValidSelection;
    storage := new ManagedStorage(SampleHash, map[], map[]);
    storage.IdleIffUnlocked();
    SampleRegisters(storage.store, 'a', 1);
    var locked := storage.TryLock(false, 0, Lifecycle.Install(A, Some([0]), InstallOpened));
    var recovered := ArtifactImport.RecoverStaging(storage, 0, A, [0], UNDISTURBED);
    var request := ArtifactImport.CheckRequest(storage, 0, A, Some([0]), Limits(1, 1), UNDISTURBED);
    checked := locked && recovered.Ok? && request.Ok?;
  }

  /** It goes on to link its file, which then has two names. */
  method LinkedImport() returns (storage: ManagedStorage, linked: bool)
    ensures linked && storage.Valid() && fresh(storage) && storage.hash == SampleHash
    ensures ArtifactImport.Running(storage.procs, 0, A, Some([0]), InstallLinked) && Unknown(storage.store, A)
    ensures storage.dir == map[A.artifactDigest := File([0], true)]
    ensures storage.staging == map[0 := Staged([0], true, Some(A.artifactDigest))]
    ensures storage.stagingDisk == storage.staging
  {
    hide ManagedStorage.Valid, ValidManifest, PutInstallation;
    storage, linked := CheckedImport();
    Streaming.UndisturbedCopy([0], 1, UNDISTURBED.pieces, 0, 0);
    var staged := ArtifactImport.Stage(storage, 0, A, [0], UNDISTURBED);
    ArtifactImport.SyncStaged(storage, 0, A, [0]);
    ArtifactImport.Link(storage, 0, A, [0]);
    linked := linked && staged.Ok?;
  }

  /** It stops there, before dropping the staged name. The file it leaves is exact, but reconciling
      it is refused because of the second link. Importing it again drops that link and succeeds. */
  method OrphanRefusedUntilImported()
    returns (storage: ManagedStorage, linked: bool, r: Result<Put, ArtifactImport.ImportError>, imported: bool)
    ensures linked && r == Err(ArtifactImport.StorageChanged) && imported
    ensures IsCurrent(storage.store, FirstGeneration(A)) && storage.staging == map[] && storage.stagingDisk == map[]
  {
    hide ManagedStorage.Valid, ValidManifest, PutInstallation, ValidSelection;
    hide ArtifactImport.ReconcileAnswers, ArtifactImport.Installs;
    storage, linked := LinkedImport();
    storage.Unlock(false, 0);
    assert storage.procs == map[];
    SampleRegisters(storage.store, 'a', 1);
    assert |storage.dir| == |storage.dir.Keys| == 1;
    assert storage.staging[0].link == Some(A.artifactDigest);
    r := ArtifactImport.Reconcile(storage, 1, A, Limits(1, 1), UNDISTURBED);
    imported := ImportAgain(storage, 1);
  }

  /** Imports A where its file is in place but not registered, or registered already. */
  method ImportAgain(storage: ManagedStorage, pid: Pid) returns (imported: bool)
    requires storage.Valid() && storage.procs == map[] && pid !in storage.stagingDisk
    requires storage.hash == SampleHash && storage.dir == map[A.artifactDigest := File([0], true)]
    requires Unknown(storage.store, A) || Known(storage.store)
    requires storage.staging.Keys <= {0}
    modifies storage
    ensures imported && storage.Valid() && storage.procs == map[] && Known(storage.store)
    ensures storage.dir == old(storage.dir) && storage.disk == storage.dir && storage.staging == map[]
    ensures storage.stagingDisk == if old(storage.staging) == map[] then old(storage.stagingDisk) else map[]
  {
    hide ManagedStorage.Valid, ValidManifest, PutInstallation, ValidSelection;
    hide ArtifactImport.Importable, ArtifactImport.Unhindered;
    hide ArtifactImport.ImportOutcome, ArtifactImport.ImportPlaces;
    SampleIsAccepted(storage.store);
    SampleIsImportable(storage.View());
    ArtifactImport.FaultFreeIsUnhindered(UNDISTURBED, |storage.staging|, true, [0]);
    var put := ArtifactImport.Import(storage, pid, A, [0], Limits(1, 1), UNDISTURBED);
    imported := put.Ok?;
  }

  lemma SampleIsImportable(w: World)
    requires Unknown(w.store, A) || Known(w.store)
    requires w.dir == map[A.artifactDigest := File([0], true)] && w.staging.Keys <= {0}
    ensures ArtifactImport.Importable(SampleHash, w, A, [0], Limits(1, 1))
  {
    hide ValidManifest, PutInstallation, ValidSelection;
    SampleIsAccepted(w.store);
    assert |w.dir| == |w.dir.Keys| == 1;
    assert |w.staging| == |w.staging.Keys|;
    if 0 in w.staging { assert w.staging.Keys == {0}; } else { assert w.staging.Keys == {}; }
  }

  /** A is registered in its first generation, and nothing else is. */
  predicate Known(s: Store) {
    Lookup(s, A.artifactId) == Record(Some(A), Some(FirstGeneration(A)), None) && s.bindings == map[]
  }

  lemma SampleIsAccepted(s: Store)
    requires Unknown(s, A) || Known(s)
    ensures var tx := PutInstallation(s, A, InstalledFrom(A));
            && ValidManifest(A) && ValidSelection(FirstGeneration(A)) && tx.result.Ok? && Known(tx.store)
  {
    SampleRegisters(Store(map[], map[]), 'a', 1);
    if Unknown(s, A) { SampleRegisters(s, 'a', 1); }
  }

  /** The import drops the staged name and stops before synchronizing the staging directory. The
      next import finds nothing to clear, adopts the file and registers it. Then power is lost, and
      the staged name comes back: a current generation has two links. */
  method StagedNameReturns() returns (storage: ManagedStorage, imported: bool)
    ensures imported && storage.Valid() && fresh(storage) && storage.hash == SampleHash
    ensures storage.procs == map[] && !storage.exclusive && Known(storage.store)
    ensures storage.dir == map[A.artifactDigest := File([0], true)]
    ensures storage.staging == map[0 := Staged([0], true, Some(A.artifactDigest))]
    ensures storage.stagingDisk == storage.staging
  {
    hide ManagedStorage.Valid, ValidManifest, PutInstallation, ValidSelection;
    storage, imported := LinkedImport();
    ArtifactImport.SyncArtifacts(storage, 0, A, Some([0]), InstallLinked, InstallLinkSynced, InstallSyncLink);
    ArtifactImport.DropStaged(storage, 0, A, [0]);
    storage.Unlock(false, 0);
    assert storage.procs == map[];
    var again := ImportAgain(storage, 1);
    imported := imported && again;
    assert CrashView(storage.View(), storage.dir);
    storage.LosePower(storage.dir, storage.stagingDisk);
  }

  /** Until the next import, that generation can be neither leased nor removed, although nothing
      fails; importing it again clears the staging directory, and it can be leased. */
  method CurrentRefusedUntilImported()
    returns (storage: ManagedStorage, imported: bool, lease: Result<(), RuntimeArtifactLease.LeaseError>,
             removal: Result<Disposition, RemovalError>, later: Result<(), RuntimeArtifactLease.LeaseError>)
    ensures imported && lease == Err(RuntimeArtifactLease.ConcurrentModification) && removal == Err(StorageChanged)
    ensures later == Ok(()) && storage.staging == map[] && storage.stagingDisk == map[]
  {
    hide ManagedStorage.Valid, ValidManifest, PutInstallation, ValidSelection;
    var again;
    storage, imported := StagedNameReturns();
    lease, removal := LeaseAndRemove(storage);
    again := ImportAgain(storage, 4);
    imported := imported && again;
    storage.IdleIffUnlocked();
    assert |storage.dir| == |storage.dir.Keys| == 1;
    later := RuntimeArtifactLease.Acquire(storage, 5, FirstGeneration(A), Limits(1, 1),
                                          RuntimeArtifactLease.Conditions({}, false));
  }

  method LeaseAndRemove(storage: ManagedStorage)
    returns (lease: Result<(), RuntimeArtifactLease.LeaseError>, removal: Result<Disposition, RemovalError>)
    requires storage.Valid() && storage.procs == map[] && !storage.exclusive && Known(storage.store)
    requires storage.dir == map[A.artifactDigest := File([0], true)]
    requires storage.staging == map[0 := Staged([0], true, Some(A.artifactDigest))]
    modifies storage
    ensures lease == Err(RuntimeArtifactLease.ConcurrentModification) && removal == Err(StorageChanged)
    ensures storage.Valid() && storage.procs == map[] && !storage.exclusive && Known(storage.store)
    ensures storage.dir == old(storage.dir) && storage.staging == old(storage.staging)
    ensures storage.stagingDisk == old(storage.stagingDisk)
  {
    hide ManagedStorage.Valid, ValidManifest, PutInstallation, ValidSelection, ValidInstalled;
    SampleIsAccepted(storage.store);
    assert |storage.dir| == |storage.dir.Keys| == 1;
    assert storage.staging[0].link == Some(A.artifactDigest);
    lease := RuntimeArtifactLease.Acquire(storage, 2, FirstGeneration(A), Limits(1, 1),
                                          RuntimeArtifactLease.Conditions({}, false));
    removal := ArtifactRemoval.Remove(storage, 3, FirstGeneration(A), Limits(1, 1), Conditions({}, 4));
    storage.IdleIffUnlocked();
  }
}
