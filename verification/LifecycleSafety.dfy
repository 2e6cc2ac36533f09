/** Safety of the artifact lifecycle over every run, whatever stops and whenever. */
module LifecycleSafety {
  import opened Text
  import opened Artifacts
  import opened StateStore
  import opened Lifecycle

  // ----------------------------------------------------------------------------------
  // Every step keeps the invariant

  lemma Alone(hash: Hash, w: World, pid: Pid)
    requires Inv(hash, w) && pid in w.procs && !w.procs[pid].Lease?
    ensures w.procs == map[pid := w.procs[pid]]
  {
    assert forall q :: q in w.procs ==> q == pid;
  }

  lemma BytesUntouched(hash: Hash, w: World, w': World)
    requires Inv(hash, w)
    requires w'.dir == w.dir && (w'.disk == w.disk || w'.disk == w.dir)
    requires forall id :: Lookup(w'.store, id).current == Lookup(w.store, id).current
                          && Lookup(w'.store, id).removal == Lookup(w.store, id).removal
    ensures forall id :: BytesOk(hash, Lookup(w'.store, id), w'.dir, w'.disk, id)
  {
    forall id
      ensures BytesOk(hash, Lookup(w'.store, id), w'.dir, w'.disk, id)
    {
      assert BytesOk(hash, Lookup(w.store, id), w.dir, w.disk, id);
    }
  }

  lemma BeginKeeps(hash: Hash, w: World, pid: Pid, proc: Proc)
    requires Inv(hash, w) && Enabled(hash, w, Begin(pid, proc))
    ensures Inv(hash, Apply(w, Begin(pid, proc)))
  {
    var w' := Apply(w, Begin(pid, proc));
    BytesUntouched(hash, w, w');
    forall q | q in w'.procs ensures ProcOk(hash, w', q, w'.procs[q]) {
      if q != pid { assert ProcOk(hash, w, q, w.procs[q]); }
    }
  }

  lemma StopKeeps(hash: Hash, w: World, pid: Pid)
    requires Inv(hash, w)
    ensures Inv(hash, Apply(w, Stop(pid)))
  {
    var w' := Apply(w, Stop(pid));
    BytesUntouched(hash, w, w');
    forall q | q in w'.procs ensures ProcOk(hash, w', q, w'.procs[q]) {
      assert ProcOk(hash, w, q, w.procs[q]);
    }
  }

  lemma PowerLossKeeps(hash: Hash, w: World, dir': Directory, staging': StagingArea)
    requires Inv(hash, w) && Enabled(hash, w, PowerLoss(dir', staging'))
    ensures Inv(hash, Apply(w, PowerLoss(dir', staging')))
  {
    forall id
      ensures BytesOk(hash, Lookup(w.store, id), dir', dir', id)
    {
      assert BytesOk(hash, Lookup(w.store, id), w.dir, w.disk, id);
    }
  }

  lemma ActivationKeeps(hash: Hash, w: World, request: Request)
    requires Inv(hash, w) && Enabled(hash, w, Activation(request))
    ensures Inv(hash, Apply(w, Activation(request)))
  {
    hide StoreInv;
    var w' := Apply(w, Activation(request));
    TransactionKeepsIntegrity(w.store, request);
    BytesUntouched(hash, w, w');
    forall q | q in w'.procs ensures ProcOk(hash, w', q, w'.procs[q]) {
      assert ProcOk(hash, w, q, w.procs[q]);
    }
  }

  lemma LeaseKeeps(hash: Hash, w: World, pid: Pid, action: Action)
    requires Inv(hash, w) && Enabled(hash, w, Advance(pid, action)) && w.procs[pid].Lease?
    ensures Inv(hash, Apply(w, Advance(pid, action)))
  {
    var w' := Apply(w, Advance(pid, action));
    BytesUntouched(hash, w, w');
    forall q | q in w'.procs ensures ProcOk(hash, w', q, w'.procs[q]) {
      assert ProcOk(hash, w, q, w.procs[q]);
    }
  }

  /** Preparation replaces the current generation by its journal and touches no other artifact. */
  lemma PrepareEffect(s: Store, selection: Installation)
    requires StoreInv(s)
    requires PrepareRemoval(s, selection).result.Ok? && PrepareRemoval(s, selection).result.value != AlreadyCompleted
    ensures var s' := PrepareRemoval(s, selection).store;
            && (forall id :: id != selection.installed.artifactId ==> Lookup(s', id) == Lookup(s, id))
            && IsPrepared(s', selection) && Lookup(s', selection.installed.artifactId).current.None?
            && (IsCurrent(s, selection) || IsPrepared(s, selection))
  {
    if IsPrepared(s, selection) { assert selection.installed.artifactId in s.records; }
  }

  /** Preparing revokes the current generation while its exact bytes are still there. */
  lemma PrepareKeeps(hash: Hash, w: World, pid: Pid)
    requires Inv(hash, w) && Enabled(hash, w, Advance(pid, RemovePrepare)) && w.procs[pid].Remove?
    ensures Inv(hash, Apply(w, Advance(pid, RemovePrepare)))
  {
    hide PrepareRemoval, StoreInv, ValidSelection, ExactSynced;
    var selection := w.procs[pid].selection;
    var w' := Apply(w, Advance(pid, RemovePrepare));
    Alone(hash, w, pid);
    TransactionKeepsIntegrity(w.store, BeginRemoval(selection));
    PrepareEffect(w.store, selection);
    forall id ensures BytesOk(hash, Lookup(w'.store, id), w'.dir, w'.disk, id) {
      assert BytesOk(hash, Lookup(w.store, id), w.dir, w.disk, id);
    }
    assert ProcOk(hash, w, pid, w.procs[pid]);
  }

  lemma CompleteEffect(s: Store, selection: Installation)
    requires StoreInv(s) && CompleteRemoval(s, selection).result.Ok? && IsPrepared(s, selection)
    ensures var s' := CompleteRemoval(s, selection).store;
            && (forall id :: id != selection.installed.artifactId ==> Lookup(s', id) == Lookup(s, id))
            && IsCompleted(s', selection) && Lookup(s', selection.installed.artifactId).current.None?
  {
    assert selection.installed.artifactId in s.records;
  }

  lemma CompleteKeeps(hash: Hash, w: World, pid: Pid)
    requires Inv(hash, w) && Enabled(hash, w, Advance(pid, RemoveComplete)) && w.procs[pid].Remove?
    ensures Inv(hash, Apply(w, Advance(pid, RemoveComplete)))
  {
    hide CompleteRemoval, StoreInv, ValidSelection, ExactSynced;
    var selection := w.procs[pid].selection;
    var w' := Apply(w, Advance(pid, RemoveComplete));
    Alone(hash, w, pid);
    assert ProcOk(hash, w, pid, w.procs[pid]);
    TransactionKeepsIntegrity(w.store, EndRemoval(selection));
    CompleteEffect(w.store, selection);
    forall id ensures BytesOk(hash, Lookup(w'.store, id), w'.dir, w'.disk, id) {
      assert BytesOk(hash, Lookup(w.store, id), w.dir, w.disk, id);
    }
  }

  /** Unlinking touches only bytes whose removal is pending. */
  lemma UnlinkKeeps(hash: Hash, w: World, pid: Pid)
    requires Inv(hash, w) && Enabled(hash, w, Advance(pid, RemoveUnlink)) && w.procs[pid].Remove?
    ensures Inv(hash, Apply(w, Advance(pid, RemoveUnlink)))
  {
    var selection := w.procs[pid].selection;
    var w' := Apply(w, Advance(pid, RemoveUnlink));
    Alone(hash, w, pid);
    assert ProcOk(hash, w, pid, w.procs[pid]);
    PreparedHasNoCurrent(w.store, selection);
    forall id ensures BytesOk(hash, Lookup(w'.store, id), w'.dir, w'.disk, id) {
      assert BytesOk(hash, Lookup(w.store, id), w.dir, w.disk, id);
    }
  }

  lemma PreparedHasNoCurrent(s: Store, selection: Installation)
    requires StoreInv(s) && IsPrepared(s, selection)
    ensures Lookup(s, selection.installed.artifactId).current.None?
    ensures selection.installed.artifactDigest == selection.installed.artifactId
    ensures !IsActive(s, selection.installed.artifactId)
  {
    assert selection.installed.artifactId in s.records;
  }

  lemma RemoveKeeps(hash: Hash, w: World, pid: Pid, action: Action)
    requires Inv(hash, w) && Enabled(hash, w, Advance(pid, action)) && w.procs[pid].Remove?
    ensures Inv(hash, Apply(w, Advance(pid, action)))
  {
    hide PrepareRemoval, CompleteRemoval, ReadState, StoreInv;
    if action == RemovePrepare {
      PrepareKeeps(hash, w, pid);
    } else if action == RemoveComplete {
      CompleteKeeps(hash, w, pid);
    } else if action == RemoveUnlink {
      UnlinkKeeps(hash, w, pid);
    } else {
      var w' := Apply(w, Advance(pid, action));
      Alone(hash, w, pid);
      assert ProcOk(hash, w, pid, w.procs[pid]);
      BytesUntouched(hash, w, w');
    }
  }

  lemma ManifestNames(m: Manifest)
    requires ValidManifest(m)
    ensures m.artifactDigest == m.artifactId
  {
  }

  /** A file added at a name nobody has authority over. */
  lemma AddedFileKeepsBytes(hash: Hash, s: Store, dir: Directory, disk: Directory, name: Digest, file: File)
    requires forall id :: BytesOk(hash, Lookup(s, id), dir, disk, id)
    requires StoreInv(s) && !Pending(s, name) && name !in dir
    ensures forall id :: BytesOk(hash, Lookup(s, id), dir[name := file], disk, id)
  {
    forall id ensures BytesOk(hash, Lookup(s, id), dir[name := file], disk, id) {
      assert BytesOk(hash, Lookup(s, id), dir, disk, id);
      if id == name { NotPending(s, id); }
    }
  }

  /** A link is made only at a name nobody has authority over. */
  lemma LinkKeeps(hash: Hash, w: World, pid: Pid)
    requires Inv(hash, w) && Enabled(hash, w, Advance(pid, InstallLink)) && w.procs[pid].Install?
    ensures Inv(hash, Apply(w, Advance(pid, InstallLink)))
  {
    hide StoreInv, BytesOk, ValidManifest, Pending, ExactSynced;
    var m, staged := w.procs[pid].manifest, w.staging[pid];
    Alone(hash, w, pid);
    assert ProcOk(hash, w, pid, w.procs[pid]);
    ManifestNames(m);
    AddedFileKeepsBytes(hash, w.store, w.dir, w.disk, m.artifactDigest, File(staged.bytes, staged.synced));
  }

  lemma NotPending(s: Store, id: Digest)
    requires StoreInv(s) && !Pending(s, id)
    ensures Lookup(s, id).removal.Some? ==> Lookup(s, id).removal.value.phase.Completed?
  {
    if id in s.records { assert ValidateRecord(id, s.records[id]).None?; }
  }

  lemma VerifyKeeps(hash: Hash, w: World, pid: Pid)
    requires Inv(hash, w) && Enabled(hash, w, Advance(pid, InstallVerify)) && w.procs[pid].Install?
    ensures Inv(hash, Apply(w, Advance(pid, InstallVerify)))
  {
    hide StoreInv, ValidManifest, Pending;
    var w' := Apply(w, Advance(pid, InstallVerify));
    Alone(hash, w, pid);
    assert ProcOk(hash, w, pid, w.procs[pid]);
    forall id ensures BytesOk(hash, Lookup(w'.store, id), w'.dir, w'.disk, id) {
      assert BytesOk(hash, Lookup(w.store, id), w.dir, w.disk, id);
    }
  }

  lemma RegistrationKeepsBytes(hash: Hash, s: Store, dir: Directory, disk: Directory, m: Manifest)
    requires forall id :: BytesOk(hash, Lookup(s, id), dir, disk, id)
    requires StoreInv(s) && PutInstallation(s, m, InstalledFrom(m)).result.Ok? && m.artifactDigest == m.artifactId
    requires ExactSynced(hash, dir, m.artifactDigest, m.byteSize)
    requires ExactSynced(hash, disk, m.artifactDigest, m.byteSize)
    ensures forall id :: BytesOk(hash, Lookup(PutInstallation(s, m, InstalledFrom(m)).store, id), dir, disk, id)
  {
    hide PutInstallation, StoreInv, ValidSelection, ExactSynced;
    RegisteredIsCurrent(s, m);
    var s' := PutInstallation(s, m, InstalledFrom(m)).store;
    forall id ensures BytesOk(hash, Lookup(s', id), dir, disk, id) {
      assert BytesOk(hash, Lookup(s, id), dir, disk, id);
    }
  }

  /** Registration happens only once the exact bytes are visible and on disk. */
  lemma RegisterKeeps(hash: Hash, w: World, pid: Pid)
    requires Inv(hash, w) && Enabled(hash, w, Advance(pid, InstallRegister)) && w.procs[pid].Install?
    ensures Inv(hash, Apply(w, Advance(pid, InstallRegister)))
  {
    hide PutInstallation, StoreInv, BytesOk, ValidManifest, ExactSynced;
    var m := w.procs[pid].manifest;
    Alone(hash, w, pid);
    assert ProcOk(hash, w, pid, w.procs[pid]);
    ManifestNames(m);
    TransactionKeepsIntegrity(w.store, Register(m, InstalledFrom(m)));
    RegisteredIsCurrent(w.store, m);
    RegistrationKeepsBytes(hash, w.store, w.dir, w.disk, m);
  }

  lemma RegisteredIsCurrent(s: Store, m: Manifest)
    requires StoreInv(s) && PutInstallation(s, m, InstalledFrom(m)).result.Ok?
    ensures var s' := PutInstallation(s, m, InstalledFrom(m)).store;
            && s'.bindings == s.bindings
            && Lookup(s', m.artifactId).removal == Lookup(s, m.artifactId).removal
            && Lookup(s', m.artifactId).current.Some?
            && Lookup(s', m.artifactId).current.value.installed == InstalledFrom(m)
            && ValidSelection(Lookup(s', m.artifactId).current.value)
            && PutInstallation(s, m, InstalledFrom(m)).result.value.installation
               == Lookup(s', m.artifactId).current.value
            && (forall id :: id != m.artifactId ==> Lookup(s', id) == Lookup(s, id))
  {
    InstalledFromIsValid(m);
    if m.artifactId in s.records { assert ValidateRecord(m.artifactId, s.records[m.artifactId]).None?; }
  }

  lemma InstallKeeps(hash: Hash, w: World, pid: Pid, action: Action)
    requires Inv(hash, w) && Enabled(hash, w, Advance(pid, action)) && w.procs[pid].Install?
    ensures Inv(hash, Apply(w, Advance(pid, action)))
  {
    if action == InstallLink {
      LinkKeeps(hash, w, pid);
    } else if action == InstallVerify {
      VerifyKeeps(hash, w, pid);
    } else if action == InstallRegister {
      RegisterKeeps(hash, w, pid);
    } else {
      var Install(m, source, pc) := w.procs[pid];
      var w' := Apply(w, Advance(pid, action));
      Alone(hash, w, pid);
      assert InstallOk(hash, w, pid, m, source, pc);
      QuietInstall(hash, w, pid, m, source, pc, action);
      SoloKeeps(hash, w, w', pid, w'.procs[pid]);
    }
  }

  /** Every install step but linking, verifying and registering leaves store and visible
      directory alone and hands its knowledge to the next step. */
  lemma QuietInstall(hash: Hash, w: World, pid: Pid, m: Manifest, source: Option<Bytes>, pc: InstallPc, action: Action)
    requires InstallEnabled(hash, w, pid, m, source, pc, action) && InstallOk(hash, w, pid, m, source, pc)
    requires action != InstallLink && action != InstallVerify && action != InstallRegister
    requires w.procs == map[pid := Install(m, source, pc)] && StagingOk(w.staging, w.stagingDisk)
    ensures var w' := ApplyInstall(w, pid, m, source, action);
            && w'.store == w.store && w'.dir == w.dir && (w'.disk == w.disk || w'.disk == w.dir)
            && StagingOk(w'.staging, w'.stagingDisk)
            && pid in w'.procs && w'.procs == map[pid := w'.procs[pid]] && w'.procs[pid].Install?
            && ProcOk(hash, w', pid, w'.procs[pid])
  {
    hide ApplyInstall, InstallEnabled, InstallOk;
    EnabledIsQuiet(hash, w, pid, m, source, pc, action);
    QuietEffect(w, pid, m, source, action);
    QuietOk(hash, w, pid, m, source, pc, action);
    InstallKeepsStaging(w, pid, m, source, action);
  }

  /** The staged file of `pid` is created or changed; only linking gives it a link. */
  predicate Restaged(w: World, w': World, pid: Pid, staged: Staged, link: Option<Digest>) {
    && w'.staging == w.staging[pid := staged] && w'.stagingDisk == w.stagingDisk[pid := staged]
    && (staged.link.None? || (pid in w.staging && staged.link == w.staging[pid].link) || staged.link == link)
  }

  /** What an install step does to the staging directory: nothing, change one file, remove
      one, or synchronize. */
  ghost predicate StagingStep(w: World, w': World, pid: Pid, link: Option<Digest>) {
    || (w'.staging == w.staging && (w'.stagingDisk == w.stagingDisk || w'.stagingDisk == w.staging))
    || (w'.stagingDisk == w.stagingDisk && exists p :: w'.staging == w.staging - {p})
    || (exists staged :: Restaged(w, w', pid, staged, link))
  }

  lemma QuietStaging(w: World, w': World, pid: Pid, link: Option<Digest>)
    requires w'.staging == w.staging && (w'.stagingDisk == w.stagingDisk || w'.stagingDisk == w.staging)
    ensures StagingStep(w, w', pid, link)
  {
  }

  lemma UnstagingStep(w: World, w': World, pid: Pid, link: Option<Digest>, p: Pid)
    requires w'.stagingDisk == w.stagingDisk && w'.staging == w.staging - {p}
    ensures StagingStep(w, w', pid, link)
  {
  }

  lemma RestagingStep(w: World, w': World, pid: Pid, link: Option<Digest>, staged: Staged)
    requires Restaged(w, w', pid, staged, link)
    ensures StagingStep(w, w', pid, link)
  {
  }

  lemma InstallStages(w: World, pid: Pid, m: Manifest, source: Option<Bytes>, action: Action)
    ensures StagingStep(w, ApplyInstall(w, pid, m, source, action), pid,
                        if action == InstallLink then Some(m.artifactDigest) else None)
  {
    hide ApplyInstall, StagingStep;
    var w' := ApplyInstall(w, pid, m, source, action);
    match action {
      case InstallUnstage(stale) => UnstageSteps(w, pid, m, source, stale);
      case InstallCopy(count) => RestageSteps(w, pid, m, source, count);
      case InstallSyncStaged => RestageSteps(w, pid, m, source, 0);
      case InstallLink => RestageSteps(w, pid, m, source, 0);
      case InstallCleanup => UnstageSteps(w, pid, m, source, pid);
      case InstallDiscard => UnstageSteps(w, pid, m, source, pid);
      case _ =>
        StagingUntouched(w, pid, m, source, action);
        QuietStaging(w, w', pid, None);
    }
  }

  predicate ChangesStaging(action: Action) {
    || action.InstallUnstage? || action.InstallCopy? || action == InstallSyncStaged || action == InstallLink
    || action == InstallCleanup || action == InstallDiscard
  }

  lemma StagingUntouched(w: World, pid: Pid, m: Manifest, source: Option<Bytes>, action: Action)
    requires !ChangesStaging(action)
    ensures var w' := ApplyInstall(w, pid, m, source, action);
            w'.staging == w.staging && (w'.stagingDisk == w.stagingDisk || w'.stagingDisk == w.staging)
  {
    hide PutInstallation, InstalledFrom, WithStaged;
    if action != InstallSyncUnstaged && action != InstallSyncCleanup && action != InstallSyncDiscard {
      hide ApplyInstall;
      StagingIgnored(w, pid, m, source, action);
    }
  }

  lemma StagingIgnored(w: World, pid: Pid, m: Manifest, source: Option<Bytes>, action: Action)
    requires !ChangesStaging(action)
    requires action != InstallSyncUnstaged && action != InstallSyncCleanup && action != InstallSyncDiscard
    ensures var w' := ApplyInstall(w, pid, m, source, action);
            w'.staging == w.staging && w'.stagingDisk == w.stagingDisk
  {
    hide PutInstallation, InstalledFrom, WithStaged;
  }

  lemma UnstageSteps(w: World, pid: Pid, m: Manifest, source: Option<Bytes>, stale: Pid)
    ensures StagingStep(w, ApplyInstall(w, pid, m, source, InstallUnstage(stale)), pid, None)
    ensures StagingStep(w, ApplyInstall(w, pid, m, source, InstallCleanup), pid, None)
    ensures StagingStep(w, ApplyInstall(w, pid, m, source, InstallDiscard), pid, None)
  {
    hide StagingStep;
    UnstagingStep(w, ApplyInstall(w, pid, m, source, InstallUnstage(stale)), pid, None, stale);
    UnstagingStep(w, ApplyInstall(w, pid, m, source, InstallCleanup), pid, None, pid);
    UnstagingStep(w, ApplyInstall(w, pid, m, source, InstallDiscard), pid, None, pid);
  }

  lemma RestageSteps(w: World, pid: Pid, m: Manifest, source: Option<Bytes>, count: nat)
    ensures StagingStep(w, ApplyInstall(w, pid, m, source, InstallCopy(count)), pid, None)
    ensures StagingStep(w, ApplyInstall(w, pid, m, source, InstallSyncStaged), pid, None)
    ensures StagingStep(w, ApplyInstall(w, pid, m, source, InstallLink), pid, Some(m.artifactDigest))
  {
    hide StagingStep;
    var copied := ApplyInstall(w, pid, m, source, InstallCopy(count));
    var synced := ApplyInstall(w, pid, m, source, InstallSyncStaged);
    var linked := ApplyInstall(w, pid, m, source, InstallLink);
    RestagingStep(w, copied, pid, None, copied.staging[pid]);
    if pid in w.staging {
      RestagingStep(w, synced, pid, None, synced.staging[pid]);
      RestagingStep(w, linked, pid, Some(m.artifactDigest), linked.staging[pid]);
    } else {
      QuietStaging(w, synced, pid, None);
      QuietStaging(w, linked, pid, Some(m.artifactDigest));
    }
  }

  lemma InstallKeepsStaging(w: World, pid: Pid, m: Manifest, source: Option<Bytes>, action: Action)
    requires StagingOk(w.staging, w.stagingDisk)
    ensures var w' := ApplyInstall(w, pid, m, source, action);
            StagingOk(w'.staging, w'.stagingDisk)
  {
    hide ApplyInstall;
    InstallStages(w, pid, m, source, action);
  }

  function InstallNext(action: Action): InstallPc {
    match action
    case InstallUnstage(_) => InstallRecovering
    case InstallSyncUnstaged => InstallRecovered
    case InstallRecover => InstallRecovered
    case InstallCheck => InstallChecked
    case InstallCopy(_) => InstallCopying
    case InstallFreeze => InstallFrozen
    case InstallSyncStaged => InstallStagedSynced
    case InstallSyncLink => InstallLinkSynced
    case InstallCleanup => InstallUnstaged
    case InstallDiscard => InstallDiscarded
    case InstallSyncDiscard => InstallDone
    case InstallVerifySync => InstallVerifiedSynced
    case _ => InstallAdopted
  }

  predicate IsQuiet(action: Action) {
    match action
    case InstallUnstage(_) => true
    case InstallSyncUnstaged => true
    case InstallRecover => true
    case InstallCheck => true
    case InstallCopy(_) => true
    case InstallFreeze => true
    case InstallSyncStaged => true
    case InstallSyncLink => true
    case InstallCleanup => true
    case InstallSyncCleanup => true
    case InstallDiscard => true
    case InstallSyncDiscard => true
    case InstallAdopt => true
    case InstallVerifySync => true
    case _ => false
  }

  lemma EnabledIsQuiet(hash: Hash, w: World, pid: Pid, m: Manifest, source: Option<Bytes>, pc: InstallPc,
                       action: Action)
    requires InstallEnabled(hash, w, pid, m, source, pc, action)
    ensures IsQuiet(action) || action == InstallLink || action == InstallVerify || action == InstallRegister
    ensures action == InstallSyncStaged || action == InstallLink ==> pid in w.staging
    ensures action == InstallVerify ==> m.artifactDigest in w.dir
  {
    hide PutInstallation, ReadState, Pending, ValidManifest;
  }

  lemma QuietEffect(w: World, pid: Pid, m: Manifest, source: Option<Bytes>, action: Action)
    requires IsQuiet(action) && (action == InstallSyncStaged ==> pid in w.staging)
    ensures var w' := ApplyInstall(w, pid, m, source, action);
            && w'.store == w.store && w'.dir == w.dir && (w'.disk == w.disk || w'.disk == w.dir)
            && w'.procs == w.procs[pid := Install(m, source, InstallNext(action))]
  {
    hide PutInstallation;
  }

  /** What an install step does to the store and to the names in the directory. */
  lemma InstallEffect(hash: Hash, w: World, pid: Pid, m: Manifest, source: Option<Bytes>, pc: InstallPc, action: Action)
    requires InstallEnabled(hash, w, pid, m, source, pc, action)
    ensures var w' := ApplyInstall(w, pid, m, source, action);
            && (w'.store == w.store
                || (action == InstallRegister && w'.store == PutInstallation(w.store, m, InstalledFrom(m)).store))
            && w.dir.Keys <= w'.dir.Keys
  {
    hide PutInstallation, InstallEnabled, InstalledFrom;
    EnabledIsQuiet(hash, w, pid, m, source, pc, action);
    if IsQuiet(action) { QuietEffect(w, pid, m, source, action); }
  }

  lemma RemoveEffect(hash: Hash, w: World, pid: Pid, selection: Installation, pc: RemovePc, action: Action)
    requires RemoveEnabled(hash, w, selection, pc, action)
    ensures var w' := ApplyRemove(w, pid, selection, pc, action);
            && (|| w'.store == w.store
                || (action == RemovePrepare && w'.store == PrepareRemoval(w.store, selection).store)
                || (action == RemoveComplete && pc == RemoveSynced
                    && w'.store == CompleteRemoval(w.store, selection).store))
            && (w'.dir == w.dir || (action == RemoveUnlink && pc == RemovePrepared(true)
                                    && w'.dir == w.dir - {Name(selection)}))
  {
    hide PrepareRemoval, CompleteRemoval, ReadState, ValidSelection, Exact;
  }

  lemma QuietOk(hash: Hash, w: World, pid: Pid, m: Manifest, source: Option<Bytes>, pc: InstallPc, action: Action)
    requires InstallEnabled(hash, w, pid, m, source, pc, action) && InstallOk(hash, w, pid, m, source, pc)
    requires action != InstallLink && action != InstallVerify && action != InstallRegister
    ensures InstallOk(hash, ApplyInstall(w, pid, m, source, action), pid, m, source, InstallNext(action))
  {
    hide PutInstallation, ReadState, Pending, ValidManifest;
  }

  lemma SoloKeeps(hash: Hash, w: World, w': World, pid: Pid, proc: Proc)
    requires Inv(hash, w)
    requires w'.store == w.store && w'.dir == w.dir && (w'.disk == w.disk || w'.disk == w.dir)
    requires w'.procs == map[pid := proc] && ProcOk(hash, w', pid, proc)
    requires StagingOk(w'.staging, w'.stagingDisk)
    ensures Inv(hash, w')
  {
    BytesUntouched(hash, w, w');
  }

  lemma StepKeeps(hash: Hash, w: World, step: Step)
    requires Inv(hash, w) && Enabled(hash, w, step)
    ensures Inv(hash, Apply(w, step))
  {
    match step {
      case Begin(pid, proc) => BeginKeeps(hash, w, pid, proc);
      case Stop(pid) => StopKeeps(hash, w, pid);
      case PowerLoss(dir', staging') => PowerLossKeeps(hash, w, dir', staging');
      case Activation(request) => ActivationKeeps(hash, w, request);
      case Advance(pid, action) =>
        match w.procs[pid] {
          case Lease(_, _) => LeaseKeeps(hash, w, pid, action);
          case Remove(_, _) => RemoveKeeps(hash, w, pid, action);
          case Install(_, _, _) => InstallKeeps(hash, w, pid, action);
        }
    }
  }

  // ----------------------------------------------------------------------------------
  // Safety over whole runs

  lemma {:induction false} RunInv(hash: Hash, run: seq<World>, i: nat)
    requires IsRun(hash, run) && i < |run|
    ensures Inv(hash, run[i])
  {
    if i > 0 {
      RunInv(hash, run, i - 1);
      assert StepAt(hash, run, i - 1);
      var step :| Enabled(hash, run[i - 1], step) && run[i] == Apply(run[i - 1], step);
      StepKeeps(hash, run[i - 1], step);
    }
  }

  /** In every reachable state, including after a stop or a power loss at any step, a
      current installation has its exact bytes, both visible and on disk. */
  lemma CurrentHasExactBytes(hash: Hash, run: seq<World>, i: nat, selection: Installation)
    requires IsRun(hash, run) && i < |run| && IsCurrent(run[i].store, selection)
    ensures Exact(hash, run[i].dir, Name(selection), selection.installed.byteSize)
    ensures Exact(hash, run[i].disk, Name(selection), selection.installed.byteSize)
    ensures !exists phase :: Lookup(run[i].store, Name(selection)).removal == Some(Removal(selection, phase))
  {
    RunInv(hash, run, i);
    var id := selection.installed.artifactId;
    assert id in run[i].store.records;
    assert BytesOk(hash, Lookup(run[i].store, id), run[i].dir, run[i].disk, id);
  }

  /** While a lease is held its generation stays current with its exact bytes present,
      and nobody but other leases is running. */
  lemma LeaseSafety(hash: Hash, run: seq<World>, i: nat, pid: Pid)
    requires IsRun(hash, run) && i < |run|
    requires pid in run[i].procs && run[i].procs[pid].Lease? && run[i].procs[pid].leasePc == LeaseHeld
    ensures var selection := run[i].procs[pid].selection;
            && IsCurrent(run[i].store, selection)
            && Exact(hash, run[i].dir, Name(selection), selection.installed.byteSize)
            && Exact(hash, run[i].disk, Name(selection), selection.installed.byteSize)
    ensures forall q :: q in run[i].procs ==> run[i].procs[q].Lease?
  {
    RunInv(hash, run, i);
    assert ProcOk(hash, run[i], pid, run[i].procs[pid]);
    CurrentHasExactBytes(hash, run, i, run[i].procs[pid].selection);
  }

  lemma RunStep(hash: Hash, run: seq<World>, i: nat) returns (step: Step)
    requires IsRun(hash, run) && i + 1 < |run|
    ensures Inv(hash, run[i]) && Enabled(hash, run[i], step) && run[i + 1] == Apply(run[i], step)
  {
    RunInv(hash, run, i);
    assert StepAt(hash, run, i);
    step :| Enabled(hash, run[i], step) && run[i + 1] == Apply(run[i], step);
  }

  /** Each step commits at most one store transaction; only a removal that synchronized
      the directory completes a journal. */
  lemma StepIsTransaction(hash: Hash, w: World, step: Step) returns (request: Request)
    requires Enabled(hash, w, step)
    ensures Apply(w, step).store == w.store || Apply(w, step).store == Commit(w.store, request)
    ensures request.EndRemoval? && Apply(w, step).store != w.store ==>
              && step.Advance? && step.pid in w.procs && step.action == RemoveComplete
              && w.procs[step.pid] == Remove(request.selection, RemoveSynced)
  {
    hide PutInstallation, PrepareRemoval, CompleteRemoval, InstalledFrom;
    hide ApplyInstall, ApplyRemove, InstallEnabled, RemoveEnabled, LeaseEnabled;
    request := Unbind("");
    match step {
      case Activation(r) => request := r;
      case Advance(pid, action) =>
        match w.procs[pid] {
          case Lease(_, _) =>
          case Remove(selection, pc) =>
            RemoveEffect(hash, w, pid, selection, pc, action);
            request := if action == RemovePrepare then BeginRemoval(selection) else EndRemoval(selection);
          case Install(m, source, pc) =>
            InstallEffect(hash, w, pid, m, source, pc, action);
            request := Register(m, InstalledFrom(m));
        }
      case _ =>
    }
  }

  lemma OnlyEndRemovalCompletes(s: Store, request: Request, selection: Installation)
    requires StoreInv(s) && !IsCompleted(s, selection) && IsCompleted(Commit(s, request), selection)
    ensures request == EndRemoval(selection)
    ensures Lookup(Commit(s, request), selection.installed.artifactId).current.None?
  {
    match request {
      case Register(m, installed) =>
      case BeginRemoval(other) =>
      case EndRemoval(other) =>
      case _ =>
    }
  }

  /** A removal is journaled as completed only at a moment when the file is absent both
      from the visible directory and from the disk. */
  lemma CompletedOnlyWhenDurablyAbsent(hash: Hash, run: seq<World>, i: nat, selection: Installation)
    requires IsRun(hash, run) && i + 1 < |run|
    requires !IsCompleted(run[i].store, selection) && IsCompleted(run[i + 1].store, selection)
    ensures IsPrepared(run[i].store, selection)
    ensures Name(selection) !in run[i].dir && Name(selection) !in run[i].disk
    ensures run[i + 1].dir == run[i].dir && run[i + 1].disk == run[i].disk
    ensures Lookup(run[i + 1].store, selection.installed.artifactId).current.None?
  {
    var step := RunStep(hash, run, i);
    var request := StepIsTransaction(hash, run[i], step);
    OnlyEndRemovalCompletes(run[i].store, request, selection);
    assert RemoveOk(hash, run[i], selection, RemoveSynced) by {
      assert ProcOk(hash, run[i], step.pid, run[i].procs[step.pid]);
    }
  }

  /** The only steps that take a name out of the visible directory. */
  lemma OnlyUnlinkOrPowerLossRemoves(hash: Hash, w: World, step: Step, name: Digest)
    requires Enabled(hash, w, step) && name in w.dir && name !in Apply(w, step).dir
    ensures || step.PowerLoss?
            || (&& step.Advance? && w.procs[step.pid].Remove? && w.procs[step.pid].removePc == RemovePrepared(true)
                && Name(w.procs[step.pid].selection) == name)
  {
    hide ApplyInstall, ApplyRemove, InstallEnabled, RemoveEnabled, LeaseEnabled;
    if step.Advance? {
      match w.procs[step.pid] {
        case Lease(_, _) =>
        case Remove(selection, pc) => RemoveEffect(hash, w, step.pid, selection, pc, step.action);
        case Install(m, source, pc) => InstallEffect(hash, w, step.pid, m, source, pc, step.action);
      }
    }
  }

  lemma PreparedBytesHaveNoOwner(hash: Hash, w: World, pid: Pid)
    requires Inv(hash, w) && pid in w.procs && w.procs[pid].Remove? && w.procs[pid].removePc == RemovePrepared(true)
    ensures IsPrepared(w.store, w.procs[pid].selection)
    ensures Lookup(w.store, Name(w.procs[pid].selection)).current.None?
  {
    assert ProcOk(hash, w, pid, w.procs[pid]);
    PreparedHasNoCurrent(w.store, w.procs[pid].selection);
  }

  /** Bytes disappear only under a pending removal of exactly the requested generation,
      or by losing power before they reached the disk and before anyone registered them. */
  lemma BytesDisappearOnlyByRemoval(hash: Hash, run: seq<World>, i: nat, name: Digest)
    requires IsRun(hash, run) && i + 1 < |run|
    requires name in run[i].dir && name !in run[i + 1].dir
    ensures Lookup(run[i].store, name).current.None?
    ensures || (exists pid :: && pid in run[i].procs && run[i].procs[pid].Remove?
                              && Name(run[i].procs[pid].selection) == name
                              && IsPrepared(run[i].store, run[i].procs[pid].selection))
            || (run[i + 1].procs == map[] && name !in run[i].disk)
  {
    var step := RunStep(hash, run, i);
    OnlyUnlinkOrPowerLossRemoves(hash, run[i], step, name);
    if step.Advance? {
      PreparedBytesHaveNoOwner(hash, run[i], step.pid);
    } else {
      assert CrashView(run[i], step.dir');
      assert BytesOk(hash, Lookup(run[i].store, name), run[i].dir, run[i].disk, name);
    }
  }

  lemma {:induction false} RetiredStaysRetired(hash: Hash, run: seq<World>, i: nat, j: nat, id: Digest, epoch: nat)
    requires IsRun(hash, run) && i <= j < |run| && Retired(Lookup(run[i].store, id), epoch)
    ensures Retired(Lookup(run[j].store, id), epoch)
  {
    if i < j {
      RetiredStaysRetired(hash, run, i, j - 1, id, epoch);
      RunKeepsRetired(hash, run, j - 1, id, epoch);
    }
  }

  lemma RunKeepsRetired(hash: Hash, run: seq<World>, i: nat, id: Digest, epoch: nat)
    requires IsRun(hash, run) && i + 1 < |run| && Retired(Lookup(run[i].store, id), epoch)
    ensures Retired(Lookup(run[i + 1].store, id), epoch)
  {
    var step := RunStep(hash, run, i);
    StepKeepsRetired(hash, run[i], step, id, epoch);
  }

  lemma StepKeepsRetired(hash: Hash, w: World, step: Step, id: Digest, epoch: nat)
    requires Inv(hash, w) && Enabled(hash, w, step) && Retired(Lookup(w.store, id), epoch)
    ensures Retired(Lookup(Apply(w, step).store, id), epoch)
  {
    var request := StepIsTransaction(hash, w, step);
    TransactionKeepsRetired(w.store, request, id, epoch);
  }

  /** Once a generation is removed it is never current and never pending again. */
  lemma RemovedGenerationStaysRemoved(hash: Hash, run: seq<World>, i: nat, j: nat, selection: Installation)
    requires IsRun(hash, run) && i <= j < |run| && IsCompleted(run[i].store, selection)
    ensures Retired(Lookup(run[j].store, selection.installed.artifactId), selection.epoch)
    ensures !IsCurrent(run[j].store, selection) && !IsPrepared(run[j].store, selection)
  {
    var id := selection.installed.artifactId;
    RetiredStaysRetired(hash, run, i, j, id, selection.epoch);
    RunInv(hash, run, j);
    RetiredIsDead(run[j].store, id, selection.epoch);
  }

  /** No ABA deletion: across any history of removals and reinstalls, a process asked to
      remove a generation that was already removed can take no step at all. */
  lemma NoAbaDeletion(hash: Hash, run: seq<World>, i: nat, j: nat, pid: Pid, action: Action)
    requires IsRun(hash, run) && i <= j < |run|
    requires pid in run[j].procs && run[j].procs[pid].Remove?
    requires IsCompleted(run[i].store, run[j].procs[pid].selection)
    ensures !Enabled(hash, run[j], Advance(pid, action))
  {
    hide IsRun, StoreInv, BytesOk;
    var selection := run[j].procs[pid].selection;
    RemovedGenerationStaysRemoved(hash, run, i, j, selection);
    RunInv(hash, run, j);
    assert ProcOk(hash, run[j], pid, run[j].procs[pid]);
  }

  /** While a removal is pending, no import or reconciliation of that artifact gets past
      its state check, so none can create or register bytes for it. */
  lemma PendingRemovalRefusesInstall(hash: Hash, run: seq<World>, i: nat, selection: Installation, pid: Pid,
                                     action: Action)
    requires IsRun(hash, run) && i < |run| && IsPrepared(run[i].store, selection)
    requires pid in run[i].procs && run[i].procs[pid].Install?
    requires run[i].procs[pid].manifest.artifactId == selection.installed.artifactId
    ensures Enabled(hash, run[i], Advance(pid, action)) ==>
              action.InstallUnstage? || action == InstallSyncUnstaged || action == InstallRecover
  {
    RunInv(hash, run, i);
    assert ProcOk(hash, run[i], pid, run[i].procs[pid]);
    PreparedHasNoCurrent(run[i].store, selection);
  }
}
