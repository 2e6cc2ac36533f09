/** Which files have a second link, in the staging directory, and whether it can hurt. */
module LinkSafety {
  import opened Text
  import opened Artifacts
  import opened StateStore
  import opened Lifecycle
  import opened LifecycleSafety

  /** A current generation or a pending removal refers to the artifact's bytes. */
  predicate Owned(r: Record) {
    r.current.Some? || (r.removal.Some? && r.removal.value.phase.Prepared?)
  }

  /** No bytes that authority refers to have a second link. */
  ghost predicate LinksOk(s: Store, staging: StagingArea) {
    forall p :: p in staging && staging[p].link.Some? ==> !Owned(Lookup(s, staging[p].link.value))
  }

  /** Losing power may bring back a second link to bytes that authority refers to. */
  ghost predicate Exposed(w: World) {
    exists p :: p in w.stagingDisk && Exposes(w, w.stagingDisk[p])
  }

  predicate Exposes(w: World, staged: Staged) {
    && staged.link.Some? && Owned(Lookup(w.store, staged.link.value))
    && (staged.link.value in w.dir || staged.link.value in w.disk)
  }

  /** What holds of all owned bytes holds of those a generation refers to. */
  lemma SelectedHasOneLink(hash: Hash, w: World, selection: Installation)
    requires Inv(hash, w) && LinksOk(w.store, w.staging)
    requires IsCurrent(w.store, selection) || IsPrepared(w.store, selection)
    ensures !Aliased(w.staging, Name(selection))
  {
    assert selection.installed.artifactId in w.store.records;
  }

  // ----------------------------------------------------------------------------------
  // Losing power

  /** Every power loss leaves all owned bytes with one link exactly when none of the staged
      files that may be on disk is a link to them. */
  lemma PowerLossKeepsLinksIff(hash: Hash, w: World)
    ensures (forall dir': Directory, staging': StagingArea ::
               Enabled(hash, w, PowerLoss(dir', staging')) ==> LinksOk(w.store, staging'))
            <==> !Exposed(w)
  {
    if !Exposed(w) {
      forall dir': Directory, staging': StagingArea | Enabled(hash, w, PowerLoss(dir', staging'))
        ensures LinksOk(w.store, staging')
      {
        CrashLinks(w, dir', staging');
      }
    } else {
      var p :| p in w.stagingDisk && Exposes(w, w.stagingDisk[p]);
      var dir', staging' := LinkReturns(hash, w, p);
    }
  }

  lemma CrashLinks(w: World, dir': Directory, staging': StagingArea)
    requires !Exposed(w) && CrashView(w, dir') && StagedSurvive(w.stagingDisk, dir', staging')
    ensures LinksOk(w.store, staging')
  {
    hide Owned;
    forall p | p in staging' && staging'[p].link.Some? ensures !Owned(Lookup(w.store, staging'[p].link.value)) {
      assert !Exposes(w, w.stagingDisk[p]);
    }
  }

  /** The power loss that brings one second link back. */
  lemma LinkReturns(hash: Hash, w: World, p: Pid) returns (dir': Directory, staging': StagingArea)
    requires p in w.stagingDisk && Exposes(w, w.stagingDisk[p])
    ensures Enabled(hash, w, PowerLoss(dir', staging'))
    ensures p in staging' && staging'[p] == w.stagingDisk[p] && !LinksOk(w.store, staging')
  {
    var name := w.stagingDisk[p].link.value;
    dir' := if name in w.dir then w.dir else w.dir[name := w.disk[name]];
    staging' := map[p := w.stagingDisk[p]];
  }

  // ----------------------------------------------------------------------------------
  // Every other step

  lemma SameOwners(s: Store, s': Store, staging: StagingArea)
    requires LinksOk(s, staging) && forall id :: Owned(Lookup(s', id)) ==> Owned(Lookup(s, id))
    ensures LinksOk(s', staging)
  {
  }

  lemma RemoveKeepsLinks(hash: Hash, w: World, pid: Pid, action: Action)
    requires Inv(hash, w) && Enabled(hash, w, Advance(pid, action)) && w.procs[pid].Remove?
    ensures var w' := Apply(w, Advance(pid, action));
            && w'.staging == w.staging && w'.stagingDisk == w.stagingDisk
            && forall id :: Owned(Lookup(w'.store, id)) ==> Owned(Lookup(w.store, id))
  {
    hide PrepareRemoval, CompleteRemoval, ReadState, StoreInv, ValidSelection, Exact, BytesOk;
    var selection := w.procs[pid].selection;
    assert ProcOk(hash, w, pid, w.procs[pid]);
    if action == RemovePrepare { PrepareEffect(w.store, selection); }
    if action == RemoveComplete { CompleteEffect(w.store, selection); }
  }

  lemma InstallKeepsLinks(hash: Hash, w: World, pid: Pid, action: Action)
    requires Inv(hash, w) && LinksOk(w.store, w.staging)
    requires Enabled(hash, w, Advance(pid, action)) && w.procs[pid].Install?
    ensures var w' := Apply(w, Advance(pid, action));
            LinksOk(w'.store, w'.staging)
  {
    hide LinksOk, Owned, StagingStep, PutInstallation, StoreInv, BytesOk;
    var Install(m, source, pc) := w.procs[pid];
    assert ProcOk(hash, w, pid, w.procs[pid]);
    if action == InstallRegister {
      RegisterKeepsLinks(w, m);
    } else {
      if action == InstallLink { LinkedIsUnowned(hash, w, pid, m, source, pc); }
      InstallEffect(hash, w, pid, m, source, pc, action);
      InstallStages(w, pid, m, source, action);
      StagingKeepsLinks(w, Apply(w, Advance(pid, action)), pid,
                        if action == InstallLink then Some(m.artifactDigest) else None);
    }
  }

  lemma RegisterKeepsLinks(w: World, m: Manifest)
    requires StoreInv(w.store) && LinksOk(w.store, w.staging) && !Aliased(w.staging, m.artifactDigest)
    requires m.artifactDigest == m.artifactId && PutInstallation(w.store, m, InstalledFrom(m)).result.Ok?
    ensures LinksOk(PutInstallation(w.store, m, InstalledFrom(m)).store, w.staging)
  {
    hide PutInstallation, StoreInv;
    RegisteredIsCurrent(w.store, m);
  }

  /** A name that is free and not pending has no owner. */
  lemma NameIsUnowned(hash: Hash, w: World, m: Manifest)
    requires Inv(hash, w) && ValidManifest(m) && !Pending(w.store, m.artifactId) && m.artifactDigest !in w.dir
    ensures !Owned(Lookup(w.store, m.artifactDigest))
  {
    NotPending(w.store, m.artifactDigest);
    assert BytesOk(hash, Lookup(w.store, m.artifactDigest), w.dir, w.disk, m.artifactDigest);
  }

  lemma StagingKeepsLinks(w: World, w': World, pid: Pid, link: Option<Digest>)
    requires LinksOk(w.store, w.staging) && StagingStep(w, w', pid, link)
    requires link.Some? ==> !Owned(Lookup(w.store, link.value))
    ensures LinksOk(w.store, w'.staging)
  {
    hide Owned;
  }

  /** Without losing power, owned bytes never come to have a second link. */
  lemma StepKeepsLinks(hash: Hash, w: World, step: Step)
    requires Inv(hash, w) && LinksOk(w.store, w.staging) && Enabled(hash, w, step) && !step.PowerLoss?
    ensures LinksOk(Apply(w, step).store, Apply(w, step).staging)
  {
    hide Inv, LinksOk, Owned, InstallEnabled, ApplyInstall, RemoveEnabled, ApplyRemove, LeaseEnabled;
    match step {
      case Begin(_, _) =>
      case Stop(_) =>
      case Activation(request) =>
        ActivationOwners(w.store, request);
        SameOwners(w.store, Commit(w.store, request), w.staging);
      case Advance(pid, action) =>
        match w.procs[pid] {
          case Lease(_, _) =>
          case Remove(_, _) =>
            RemoveKeepsLinks(hash, w, pid, action);
            SameOwners(w.store, Apply(w, step).store, w.staging);
          case Install(_, _, _) => InstallKeepsLinks(hash, w, pid, action);
        }
    }
  }

  lemma ActivationOwners(s: Store, request: Request)
    requires request.Bind? || request.Unbind?
    ensures forall id :: Owned(Lookup(Commit(s, request), id)) ==> Owned(Lookup(s, id))
  {
  }

  // ----------------------------------------------------------------------------------
  // Whole runs

  /** The step is no power loss that could bring back a second link to owned bytes. */
  ghost predicate SafeStepAt(hash: Hash, run: seq<World>, i: nat)
    requires i + 1 < |run|
  {
    exists step ::
      Enabled(hash, run[i], step) && run[i + 1] == Apply(run[i], step) && (step.PowerLoss? ==> !Exposed(run[i]))
  }

  /** As long as no power is lost while a staged link to owned bytes may be on disk, owned
      bytes have one link; in particular if no power is lost at all. */
  lemma {:induction false} OwnedHasOneLink(hash: Hash, run: seq<World>, i: nat)
    requires IsRun(hash, run) && i < |run|
    requires forall j :: 0 <= j < i ==> SafeStepAt(hash, run, j)
    ensures LinksOk(run[i].store, run[i].staging)
  {
    hide IsRun, LinksOk, Exposed, Enabled, Apply;
    if i == 0 {
      NothingIsOwned(hash, run);
    } else {
      OwnedHasOneLink(hash, run, i - 1);
      RunInv(hash, run, i - 1);
      assert SafeStepAt(hash, run, i - 1);
      var step :| && Enabled(hash, run[i - 1], step) && run[i] == Apply(run[i - 1], step)
                  && (step.PowerLoss? ==> !Exposed(run[i - 1]));
      SafeStepKeepsLinks(hash, run[i - 1], step);
    }
  }

  lemma NothingIsOwned(hash: Hash, run: seq<World>)
    requires IsRun(hash, run)
    ensures LinksOk(run[0].store, run[0].staging)
  {
  }

  lemma SafeStepKeepsLinks(hash: Hash, w: World, step: Step)
    requires Inv(hash, w) && LinksOk(w.store, w.staging) && Enabled(hash, w, step)
    requires step.PowerLoss? ==> !Exposed(w)
    ensures LinksOk(Apply(w, step).store, Apply(w, step).staging)
  {
    hide Inv, LinksOk, Exposed, InstallEnabled, ApplyInstall, RemoveEnabled, ApplyRemove, LeaseEnabled;
    if step.PowerLoss? {
      CrashLinks(w, step.dir', step.staging');
    } else {
      StepKeepsLinks(hash, w, step);
    }
  }

  // ----------------------------------------------------------------------------------
  // How bytes come to be exposed

  /** Only registering a name that a staged file on disk may be linked to exposes bytes. */
  lemma OnlyRegistrationExposes(hash: Hash, w: World, step: Step)
    requires Inv(hash, w) && Enabled(hash, w, step) && !Exposed(w) && Exposed(Apply(w, step))
    ensures && step.Advance? && step.action == InstallRegister && w.procs[step.pid].Install?
            && Aliased(w.stagingDisk, w.procs[step.pid].manifest.artifactDigest)
  {
    hide Inv, Owned, InstallEnabled, ApplyInstall, RemoveEnabled, ApplyRemove, LeaseEnabled, CrashView;
    match step {
      case Begin(_, _) =>
      case Stop(_) =>
      case Activation(request) => ActivationOwners(w.store, request);
      case PowerLoss(dir', staging') => CrashExposes(w, dir', staging');
      case Advance(pid, action) =>
        match w.procs[pid] {
          case Lease(_, _) =>
          case Remove(_, _) => RemoveExposes(hash, w, pid, action);
          case Install(m, source, pc) => InstallExposes(hash, w, pid, action);
        }
    }
  }

  lemma CrashExposes(w: World, dir': Directory, staging': StagingArea)
    requires CrashView(w, dir') && StagedSurvive(w.stagingDisk, dir', staging')
    requires Exposed(World(w.store, dir', dir', staging', staging', map[]))
    ensures Exposed(w)
  {
    hide Owned;
    var w' := World(w.store, dir', dir', staging', staging', map[]);
    var p :| p in staging' && Exposes(w', staging'[p]);
    assert Exposes(w, w.stagingDisk[p]);
  }

  lemma RemoveExposes(hash: Hash, w: World, pid: Pid, action: Action)
    requires Inv(hash, w) && Enabled(hash, w, Advance(pid, action)) && w.procs[pid].Remove?
    requires Exposed(Apply(w, Advance(pid, action)))
    ensures Exposed(w)
  {
    hide Inv, Owned;
    RemoveKeepsLinks(hash, w, pid, action);
    var w' := Apply(w, Advance(pid, action));
    var p :| p in w'.stagingDisk && Exposes(w', w'.stagingDisk[p]);
    assert Exposes(w, w.stagingDisk[p]);
  }

  /** Only linking adds a name to the directory. */
  lemma InstallNames(hash: Hash, w: World, pid: Pid, m: Manifest, source: Option<Bytes>, pc: InstallPc, action: Action)
    requires InstallEnabled(hash, w, pid, m, source, pc, action)
    ensures var w' := ApplyInstall(w, pid, m, source, action);
            forall name :: name in w'.dir || name in w'.disk ==>
              name in w.dir || name in w.disk || (action == InstallLink && name == m.artifactDigest)
  {
    hide InstallEnabled, PutInstallation, InstalledFrom;
    EnabledIsQuiet(hash, w, pid, m, source, pc, action);
    if IsQuiet(action) {
      hide ApplyInstall;
      QuietEffect(w, pid, m, source, action);
    }
  }

  lemma StagingExposes(w: World, w': World, pid: Pid, link: Option<Digest>)
    requires StagingOk(w.staging, w.stagingDisk) && StagingStep(w, w', pid, link) && w'.store == w.store
    requires link.Some? ==> !Owned(Lookup(w.store, link.value))
    requires forall name :: name in w'.dir || name in w'.disk ==> name in w.dir || name in w.disk || link == Some(name)
    requires Exposed(w')
    ensures Exposed(w)
  {
    hide Owned;
    var p :| p in w'.stagingDisk && Exposes(w', w'.stagingDisk[p]);
    assert Exposes(w, w'.stagingDisk[p]);
    assert p in w.stagingDisk && w.stagingDisk[p].link == w'.stagingDisk[p].link;
  }

  lemma InstallExposes(hash: Hash, w: World, pid: Pid, action: Action)
    requires Inv(hash, w) && Enabled(hash, w, Advance(pid, action)) && w.procs[pid].Install?
    requires !Exposed(w) && Exposed(Apply(w, Advance(pid, action)))
    ensures action == InstallRegister && Aliased(w.stagingDisk, w.procs[pid].manifest.artifactDigest)
  {
    hide Exposed, Owned, InstallEnabled, ApplyInstall, StagingStep, BytesOk, StoreInv, ValidManifest;
    var Install(m, source, pc) := w.procs[pid];
    var w' := Apply(w, Advance(pid, action));
    assert ProcOk(hash, w, pid, w.procs[pid]);
    InstallEffect(hash, w, pid, m, source, pc, action);
    if action == InstallRegister {
      RegistrationExposes(hash, w, pid, m, source, pc);
    } else {
      if action == InstallLink { LinkedIsUnowned(hash, w, pid, m, source, pc); }
      InstallStages(w, pid, m, source, action);
      InstallNames(hash, w, pid, m, source, pc, action);
      StagingExposes(w, w', pid, if action == InstallLink then Some(m.artifactDigest) else None);
    }
  }

  lemma LinkedIsUnowned(hash: Hash, w: World, pid: Pid, m: Manifest, source: Option<Bytes>, pc: InstallPc)
    requires Inv(hash, w) && InstallEnabled(hash, w, pid, m, source, pc, InstallLink)
    requires InstallOk(hash, w, pid, m, source, pc)
    ensures !Owned(Lookup(w.store, m.artifactDigest))
  {
    hide Inv, Owned, ValidManifest, Pending;
    NameIsUnowned(hash, w, m);
  }

  lemma RegistrationExposes(hash: Hash, w: World, pid: Pid, m: Manifest, source: Option<Bytes>, pc: InstallPc)
    requires StoreInv(w.store) && InstallEnabled(hash, w, pid, m, source, pc, InstallRegister)
    requires InstallOk(hash, w, pid, m, source, pc)
    requires !Exposed(w) && Exposed(ApplyInstall(w, pid, m, source, InstallRegister))
    ensures Aliased(w.stagingDisk, m.artifactDigest)
  {
    hide PutInstallation, StoreInv, ValidManifest, InstalledFrom;
    ManifestNames(m);
    RegisteredIsCurrent(w.store, m);
    var w' := ApplyInstall(w, pid, m, source, InstallRegister);
    var p :| p in w'.stagingDisk && Exposes(w', w'.stagingDisk[p]);
    assert !Exposes(w, w.stagingDisk[p]);
  }
}
