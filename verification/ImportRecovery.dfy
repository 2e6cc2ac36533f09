/** An interrupted import can be rerun: any number of interrupted attempts leaves storage from
    which the same import ends exactly where an uninterrupted one would have. If only processes
    stop this holds from every idle storage; if power may be lost it holds exactly from those
    whose other files have reached the disk, as long as no more staged files come back than one
    recovery may clear. */
module ImportRecovery {
  import opened Text
  import opened Artifacts
  import opened StateStore
  import opened Lifecycle
  import opened LifecycleSafety
  import opened ManagedStorage
  import opened ArtifactImport

  /** A step of an attempt to import `source` as `m`, or an interruption of one. */
  ghost predicate AttemptStep(step: Step, m: Manifest, source: Bytes, powerFails: bool) {
    match step
    case Begin(_, proc) => proc == Lifecycle.Install(m, Some(source), InstallOpened)
    case Advance(_, _) => true
    case Stop(_) => true
    case PowerLoss(_, _) => powerFails
    case Activation(_) => false
  }

  ghost predicate AttemptAt(hash: Hash, run: seq<World>, i: nat, m: Manifest, source: Bytes, powerFails: bool)
    requires i + 1 < |run|
  {
    exists step ::
      Enabled(hash, run[i], step) && AttemptStep(step, m, source, powerFails) && run[i + 1] == Apply(run[i], step)
  }

  ghost predicate Attempts(hash: Hash, run: seq<World>, m: Manifest, source: Bytes, powerFails: bool) {
    |run| > 0 && forall i :: 0 <= i < |run| - 1 ==> AttemptAt(hash, run, i, m, source, powerFails)
  }

  ghost predicate Idle(hash: Hash, w: World) {
    Inv(hash, w) && w.procs == map[]
  }

  // ----------------------------------------------------------------------------------
  // Directories on the way

  ghost predicate AllSynced(dir: Directory) {
    forall name :: name in dir ==> dir[name].synced
  }

  /** The goal itself, or the goal short of a file that the source can supply. */
  predicate Near(goal: Directory, m: Manifest, source: Bytes, dir: Directory) {
    var name := m.artifactDigest;
    dir == goal || (name in goal && goal[name].bytes == source && dir == goal - {name})
  }

  /** What must hold before the first attempt if power may be lost: every file that an
      uninterrupted import would leave in the directory has its final bytes on disk already,
      except the imported one, which may be missing if the source has the same bytes. */
  ghost predicate Durable(w: World, m: Manifest, source: Bytes) {
    var goal := FinalDirectory(w.dir, m, source);
    AllSynced(goal) && Near(goal, m, source, w.dir) && Near(goal, m, source, w.disk)
  }

  /** Without power loss: unchanged, the file added, or the file's bytes now synchronized. */
  predicate Reached(before: Directory, after: Directory, m: Manifest, source: Bytes) {
    var name := m.artifactDigest;
    || after == before
    || (name !in before && after == before[name := File(source, true)])
    || after == WithSynced(before, name)
  }

  ghost predicate FilesOk(w0: World, w: World, m: Manifest, source: Bytes, powerFails: bool) {
    if !powerFails then Reached(w0.dir, w.dir, m, source)
    else
      var goal := FinalDirectory(w0.dir, m, source);
      AllSynced(goal) && Near(goal, m, source, w.dir) && Near(goal, m, source, w.disk)
  }

  ghost predicate Attempting(hash: Hash, w0: World, w: World, m: Manifest, source: Bytes) {
    && Inv(hash, w)
    && (forall pid :: pid in w.procs ==>
          && w.procs[pid].Install? && w.procs[pid].manifest == m && w.procs[pid].source == Some(source)
          && (Clearing(w.procs[pid].installPc) || w.staging.Keys <= {pid}))
    && (w.store == w0.store || w.store == FinalStore(w0.store, m))
  }

  /** The attempt has not yet cleared the staging directory. */
  predicate Clearing(pc: InstallPc) {
    pc == InstallOpened || pc == InstallRecovering
  }

  /** Without power loss, staged files are those of the start or the attempt's own. */
  ghost predicate FewStaged(w0: World, w: World) {
    w.staging.Keys <= w0.staging.Keys || |w.staging.Keys| <= 1
  }

  /** The same import still succeeds, and ends in the same store and the same directory. */
  ghost predicate Converges(hash: Hash, w0: World, w: World, m: Manifest, source: Bytes, limits: Limits) {
    && Importable(hash, w, m, source, limits)
    && FinalStore(w.store, m) == FinalStore(w0.store, m)
    && FinalDirectory(w.dir, m, source) == FinalDirectory(w0.dir, m, source)
  }

  lemma PutIsIdempotent(s: Store, m: Manifest)
    requires StoreInv(s)
    ensures FinalStore(FinalStore(s, m), m) == FinalStore(s, m)
    ensures PutInstallation(s, m, InstalledFrom(m)).result.Ok? ==>
              PutInstallation(FinalStore(s, m), m, InstalledFrom(m)).result.Ok?
  {
    TransactionKeepsIntegrity(s, Register(m, InstalledFrom(m)));
    if PutInstallation(s, m, InstalledFrom(m)).result.Ok? {
      RegisteredIsCurrent(s, m);
      ReadSucceeds(FinalStore(s, m), m.artifactId);
    }
  }

  lemma AttemptMoves(hash: Hash, w: World, pid: Pid, pc: InstallPc, action: Action, m: Manifest, source: Bytes)
    requires w.procs == map[pid := Lifecycle.Install(m, Some(source), pc)]
    requires InstallEnabled(hash, w, pid, m, Some(source), pc, action)
    ensures var w' := ApplyInstall(w, pid, m, Some(source), action);
            && w'.procs.Keys == {pid} && w'.procs[pid].Install?
            && w'.procs[pid].manifest == m && w'.procs[pid].source == Some(source)
  {
    hide PutInstallation, InstallEnabled, InstalledFrom;
    EnabledIsQuiet(hash, w, pid, m, Some(source), pc, action);
    if IsQuiet(action) {
      hide ApplyInstall;
      QuietEffect(w, pid, m, Some(source), action);
    }
  }

  lemma AttemptStaging(hash: Hash, w: World, pid: Pid, pc: InstallPc, action: Action, m: Manifest, source: Bytes)
    requires w.procs == map[pid := Lifecycle.Install(m, Some(source), pc)]
    requires InstallEnabled(hash, w, pid, m, Some(source), pc, action)
    requires Clearing(pc) || w.staging.Keys <= {pid}
    requires pid in ApplyInstall(w, pid, m, Some(source), action).procs
    requires ApplyInstall(w, pid, m, Some(source), action).procs[pid].Install?
    ensures var w' := ApplyInstall(w, pid, m, Some(source), action);
            && (Clearing(w'.procs[pid].installPc) || w'.staging.Keys <= {pid})
            && (w'.staging.Keys <= w.staging.Keys || w'.staging.Keys <= {pid})
  {
    hide PutInstallation, ReadState, Pending, ValidManifest, Exact, InstalledFrom;
  }

  lemma AttemptStore(hash: Hash, w: World, pid: Pid, pc: InstallPc, action: Action, m: Manifest, source: Bytes)
    requires InstallEnabled(hash, w, pid, m, Some(source), pc, action)
    ensures var s := ApplyInstall(w, pid, m, Some(source), action).store;
            s == w.store || (PutInstallation(w.store, m, InstalledFrom(m)).result.Ok? && s == FinalStore(w.store, m))
  {
    hide PutInstallation, ReadState, Pending, ValidManifest, Exact;
  }

  lemma AttemptFiles(hash: Hash, w: World, pid: Pid, pc: InstallPc, action: Action, m: Manifest, source: Bytes)
    requires InstallEnabled(hash, w, pid, m, Some(source), pc, action) && InstallOk(hash, w, pid, m, Some(source), pc)
    ensures var w' := ApplyInstall(w, pid, m, Some(source), action);
            && (w'.disk == w.disk || w'.disk == w.dir)
            && (|| w'.dir == w.dir
                || (m.artifactDigest !in w.dir && w'.dir == w.dir[m.artifactDigest := File(source, true)])
                || (m.artifactDigest in w.dir
                    && w'.dir == w.dir[m.artifactDigest := w.dir[m.artifactDigest].(synced := true)]))
  {
    hide PutInstallation, ReadState, Pending, ValidManifest, Exact, InstalledFrom;
    EnabledIsQuiet(hash, w, pid, m, Some(source), pc, action);
    if IsQuiet(action) {
      hide ApplyInstall, InstallEnabled;
      QuietEffect(w, pid, m, Some(source), action);
    }
  }

  // ----------------------------------------------------------------------------------
  // One step

  lemma SubsetCardinality(a: set<Pid>, b: set<Pid>)
    requires a <= b
    ensures |a| <= |b|
  {
    assert b == a + (b - a);
  }

  lemma AdvanceAttempting(hash: Hash, w0: World, w: World, pid: Pid, action: Action, m: Manifest, source: Bytes)
    requires StoreInv(w0.store) && Attempting(hash, w0, w, m, source) && Enabled(hash, w, Advance(pid, action))
    ensures Attempting(hash, w0, Apply(w, Advance(pid, action)), m, source)
    ensures FewStaged(w0, w) ==> FewStaged(w0, Apply(w, Advance(pid, action)))
  {
    hide Inv, StoreInv, InstallEnabled, ApplyInstall, FinalStore;
    StepKeeps(hash, w, Advance(pid, action));
    SoleAttempt(hash, w0, w, pid, m, source);
    var Install(_, _, pc) := w.procs[pid];
    AttemptMoves(hash, w, pid, pc, action, m, source);
    AttemptStaging(hash, w, pid, pc, action, m, source);
    AttemptStore(hash, w, pid, pc, action, m, source);
    PutIsIdempotent(w0.store, m);
    FewerStaged(w0, w, ApplyInstall(w, pid, m, Some(source), action), pid);
  }

  lemma FewerStaged(w0: World, w: World, w': World, pid: Pid)
    requires w'.staging.Keys <= w.staging.Keys || w'.staging.Keys <= {pid}
    ensures FewStaged(w0, w) ==> FewStaged(w0, w')
  {
    if w'.staging.Keys <= {pid} { SubsetCardinality(w'.staging.Keys, {pid}); }
    if w'.staging.Keys <= w.staging.Keys { SubsetCardinality(w'.staging.Keys, w.staging.Keys); }
  }

  lemma SoleAttempt(hash: Hash, w0: World, w: World, pid: Pid, m: Manifest, source: Bytes)
    requires Attempting(hash, w0, w, m, source) && pid in w.procs
    ensures w.procs == map[pid := Lifecycle.Install(m, Some(source), w.procs[pid].installPc)]
    ensures InstallOk(hash, w, pid, m, Some(source), w.procs[pid].installPc)
    ensures Clearing(w.procs[pid].installPc) || w.staging.Keys <= {pid}
  {
    hide InstallOk, StoreInv;
    Alone(hash, w, pid);
    assert ProcOk(hash, w, pid, w.procs[pid]);
  }

  lemma PowerLossAttempting(hash: Hash, w0: World, w: World, dir': Directory, staging': StagingArea, m: Manifest,
                            source: Bytes)
    requires Attempting(hash, w0, w, m, source) && Enabled(hash, w, PowerLoss(dir', staging'))
    ensures Attempting(hash, w0, Apply(w, PowerLoss(dir', staging')), m, source)
  {
    hide Inv, FinalStore, CrashView;
    PowerLossKeeps(hash, w, dir', staging');
  }

  lemma StepAttempting(hash: Hash, w0: World, w: World, step: Step, m: Manifest, source: Bytes, powerFails: bool)
    requires StoreInv(w0.store) && Attempting(hash, w0, w, m, source)
    requires Enabled(hash, w, step) && AttemptStep(step, m, source, powerFails)
    ensures Attempting(hash, w0, Apply(w, step), m, source)
    ensures !powerFails && FewStaged(w0, w) ==> FewStaged(w0, Apply(w, step))
  {
    hide Inv, StoreInv, FinalStore, InstallEnabled, ApplyInstall, RemoveEnabled, ApplyRemove, LeaseEnabled, CrashView;
    match step {
      case Begin(pid, proc) => BeginKeeps(hash, w, pid, proc);
      case Stop(pid) => StopKeeps(hash, w, pid);
      case PowerLoss(dir', staging') => PowerLossAttempting(hash, w0, w, dir', staging', m, source);
      case Advance(pid, action) => AdvanceAttempting(hash, w0, w, pid, action, m, source);
    }
  }

  lemma AdvanceFiles(hash: Hash, w0: World, w: World, pid: Pid, pc: InstallPc, action: Action, m: Manifest,
                     source: Bytes, powerFails: bool)
    requires FilesOk(w0, w, m, source, powerFails)
    requires InstallEnabled(hash, w, pid, m, Some(source), pc, action) && InstallOk(hash, w, pid, m, Some(source), pc)
    ensures FilesOk(w0, ApplyInstall(w, pid, m, Some(source), action), m, source, powerFails)
  {
    hide ApplyInstall, InstallEnabled, InstallOk;
    AttemptFiles(hash, w, pid, pc, action, m, source);
    var name := m.artifactDigest;
    if powerFails {
      var goal := FinalDirectory(w0.dir, m, source);
      if name in w.dir {
        assert w.dir[name := w.dir[name].(synced := true)] == w.dir;
      } else {
        assert w.dir[name := File(source, true)] == goal;
      }
    }
  }

  lemma PowerLossFiles(w0: World, w: World, dir': Directory, m: Manifest, source: Bytes)
    requires FilesOk(w0, w, m, source, true) && CrashView(w, dir')
    ensures Near(FinalDirectory(w0.dir, m, source), m, source, dir')
  {
    var goal, name := FinalDirectory(w0.dir, m, source), m.artifactDigest;
    assert forall n :: n in w.dir ==> n in goal && w.dir[n] == goal[n];
    assert forall n :: n in w.disk ==> n in goal && w.disk[n] == goal[n];
    assert forall n :: n in dir' ==> n in goal && dir'[n] == goal[n];
    assert forall n :: n in goal && n != name ==> n in w.dir && n in w.disk;
    assert forall n :: n in goal && n != name ==> n in dir';
    if name in dir' {
      assert dir' == goal;
    } else {
      assert dir' == goal - {name};
    }
  }

  lemma StepFiles(hash: Hash, w0: World, w: World, step: Step, m: Manifest, source: Bytes, powerFails: bool)
    requires Attempting(hash, w0, w, m, source) && FilesOk(w0, w, m, source, powerFails)
    requires Enabled(hash, w, step) && AttemptStep(step, m, source, powerFails)
    ensures FilesOk(w0, Apply(w, step), m, source, powerFails)
  {
    hide Near, Reached, AllSynced, InstallEnabled, ApplyInstall, CrashView;
    match step {
      case Begin(_, _) =>
      case Stop(_) =>
      case PowerLoss(dir', _) => PowerLossFiles(w0, w, dir', m, source);
      case Advance(pid, action) =>
        SoleAttempt(hash, w0, w, pid, m, source);
        AdvanceFiles(hash, w0, w, pid, w.procs[pid].installPc, action, m, source, powerFails);
    }
  }

  // ----------------------------------------------------------------------------------
  // Whole runs

  /** Where attempts can have led: the store as it was or with the artifact registered, and the
      directory on its way to the one an uninterrupted import leaves. */
  lemma {:induction false} AttemptsProgress(hash: Hash, run: seq<World>, i: nat, m: Manifest,
                                            source: Bytes, powerFails: bool)
    requires Attempts(hash, run, m, source, powerFails) && i < |run| && Idle(hash, run[0])
    requires powerFails ==> Durable(run[0], m, source)
    ensures Attempting(hash, run[0], run[i], m, source) && FilesOk(run[0], run[i], m, source, powerFails)
    ensures !powerFails ==> FewStaged(run[0], run[i])
  {
    hide Inv, StoreInv, Near, Reached, AllSynced, Enabled, Apply;
    if i > 0 {
      AttemptsProgress(hash, run, i - 1, m, source, powerFails);
      assert AttemptAt(hash, run, i - 1, m, source, powerFails);
      var step :| && Enabled(hash, run[i - 1], step) && AttemptStep(step, m, source, powerFails)
                  && run[i] == Apply(run[i - 1], step);
      IdleStore(hash, run[0]);
      StepAttempting(hash, run[0], run[i - 1], step, m, source, powerFails);
      StepFiles(hash, run[0], run[i - 1], step, m, source, powerFails);
    } else {
      Starts(run[0], m, source);
    }
  }

  lemma IdleStore(hash: Hash, w: World)
    requires Idle(hash, w)
    ensures StoreInv(w.store)
  {
  }

  lemma Starts(w: World, m: Manifest, source: Bytes)
    ensures Reached(w.dir, w.dir, m, source)
  {
  }

  /** Every directory on the way completes to the same one. */
  lemma FilesComplete(w0: World, w: World, m: Manifest, source: Bytes, powerFails: bool)
    requires FilesOk(w0, w, m, source, powerFails)
    ensures FinalDirectory(w.dir, m, source) == FinalDirectory(w0.dir, m, source)
  {
    var goal, name := FinalDirectory(w0.dir, m, source), m.artifactDigest;
    if powerFails && name in w.dir {
      assert goal[name] == File(goal[name].bytes, true);
    }
  }

  /** Importing stays possible in any directory with the same completion. */
  lemma StaysImportable(hash: Hash, w0: World, w: World, m: Manifest, source: Bytes, limits: Limits)
    requires StoreInv(w0.store) && Importable(hash, w0, m, source, limits)
    requires w.store == w0.store || w.store == FinalStore(w0.store, m)
    requires FinalDirectory(w.dir, m, source) == FinalDirectory(w0.dir, m, source)
    ensures Converges(hash, w0, w, m, source, limits) <==> |w.staging| <= MAX_RECOVERY_ENTRIES
  {
    hide StoreInv, PutInstallation, ValidManifest;
    PutIsIdempotent(w0.store, m);
    var goal, name := FinalDirectory(w0.dir, m, source), m.artifactDigest;
    SameEntries(w0.dir, m, source);
    SameEntries(w.dir, m, source);
    if name in w.dir {
      assert goal[name].bytes == w.dir[name].bytes;
    }
  }

  lemma FewAreRecoverable(hash: Hash, w0: World, w: World, m: Manifest, source: Bytes, limits: Limits)
    requires FewStaged(w0, w) && Importable(hash, w0, m, source, limits)
    ensures |w.staging| <= MAX_RECOVERY_ENTRIES
  {
    if w.staging.Keys <= w0.staging.Keys { SubsetCardinality(w.staging.Keys, w0.staging.Keys); }
    assert |w.staging| == |w.staging.Keys| && |w0.staging| == |w0.staging.Keys|;
  }

  lemma SameEntries(dir: Directory, m: Manifest, source: Bytes)
    ensures var goal := FinalDirectory(dir, m, source);
      |goal| == |dir| + if m.artifactDigest in dir then 0 else 1
  {
    var goal := FinalDirectory(dir, m, source);
    assert goal.Keys == dir.Keys + {m.artifactDigest};
    assert |goal| == |goal.Keys| && |dir| == |dir.Keys|;
  }

  /** Wherever the attempts stopped, the import that would have succeeded at first still
      succeeds, and it ends in the same store and the same directory: from any idle storage
      if only processes stop, and from durable storage if power may be lost as well, exactly
      unless more staged files came back than one recovery may clear. */
  lemma InterruptedImportConverges(hash: Hash, run: seq<World>, i: nat, m: Manifest, source: Bytes, limits: Limits,
                                   powerFails: bool)
    requires Attempts(hash, run, m, source, powerFails) && i < |run| && Idle(hash, run[0]) && run[i].procs == map[]
    requires powerFails ==> Durable(run[0], m, source)
    requires Importable(hash, run[0], m, source, limits)
    ensures Converges(hash, run[0], run[i], m, source, limits) <==> |run[i].staging| <= MAX_RECOVERY_ENTRIES
    ensures !powerFails ==> Converges(hash, run[0], run[i], m, source, limits)
  {
    hide Inv, Importable, FinalStore, FinalDirectory, FilesOk, Durable, Converges;
    AttemptsProgress(hash, run, i, m, source, powerFails);
    FilesComplete(run[0], run[i], m, source, powerFails);
    IdleStore(hash, run[0]);
    StaysImportable(hash, run[0], run[i], m, source, limits);
    if !powerFails { FewAreRecoverable(hash, run[0], run[i], m, source, limits); }
  }

  // ----------------------------------------------------------------------------------
  // Power loss needs durability

  /** What a power loss may make of one name while every other name stays visible as it is. */
  lemma OneNameLost(w: World, n: Digest, f: File)
    ensures n !in w.disk ==> CrashView(w, w.dir - {n})
    ensures n in w.disk ==> CrashView(w, w.dir[n := w.disk[n]])
    ensures n in w.disk && !w.disk[n].synced ==> CrashView(w, w.dir[n := f])
    ensures n in w.dir && !w.dir[n].synced ==> CrashView(w, w.dir[n := f])
  {
  }

  lemma OtherNameDiffers(dir: Directory, dir': Directory, m: Manifest, source: Bytes, n: Digest)
    requires n != m.artifactDigest
    requires (n in dir <==> n !in dir') || (n in dir && n in dir' && dir[n] != dir'[n])
    ensures FinalDirectory(dir', m, source) != FinalDirectory(dir, m, source)
  {
    var goal, goal' := FinalDirectory(dir, m, source), FinalDirectory(dir', m, source);
    assert n in goal <==> n in dir;
    assert n in goal' <==> n in dir';
  }

  /** Storage that is not durable has a power loss after which the rerun fails or ends elsewhere. */
  lemma PowerLossBreaks(hash: Hash, w: World, m: Manifest, source: Bytes, limits: Limits) returns (dir': Directory)
    requires Importable(hash, w, m, source, limits) && !Durable(w, m, source)
    ensures CrashView(w, dir')
    ensures !Converges(hash, w, Apply(w, PowerLoss(dir', map[])), m, source, limits)
  {
    hide Importable, CrashView, FinalStore;
    var goal, name := FinalDirectory(w.dir, m, source), m.artifactDigest;
    if n :| n != name && n in w.dir && !w.dir[n].synced {
      dir' := w.dir[n := File(w.dir[n].bytes + [0], false)];
      OneNameLost(w, n, dir'[n]);
      assert |dir'[n].bytes| == |w.dir[n].bytes| + 1;
      OtherNameDiffers(w.dir, dir', m, source, n);
    } else if n :| n != name && n in w.dir && n !in w.disk {
      dir' := w.dir - {n};
      OneNameLost(w, n, w.dir[n]);
      OtherNameDiffers(w.dir, dir', m, source, n);
    } else if n :| n != name && n in w.disk && (n !in w.dir || w.dir[n] != w.disk[n]) {
      dir' := w.dir[n := w.disk[n]];
      OneNameLost(w, n, w.disk[n]);
      OtherNameDiffers(w.dir, dir', m, source, n);
    } else {
      dir' := ImportedNameBreaks(hash, w, m, source, limits);
    }
  }

  /** The same when only the imported name stands in the way. */
  lemma ImportedNameBreaks(hash: Hash, w: World, m: Manifest, source: Bytes, limits: Limits) returns (dir': Directory)
    requires Importable(hash, w, m, source, limits) && !Durable(w, m, source)
    requires forall n :: n in w.dir && n != m.artifactDigest ==> w.dir[n].synced && n in w.disk
    requires forall n :: n in w.disk && n != m.artifactDigest ==> n in w.dir && w.dir[n] == w.disk[n]
    ensures CrashView(w, dir')
    ensures !Converges(hash, w, Apply(w, PowerLoss(dir', map[])), m, source, limits)
  {
    hide PutInstallation, ValidManifest, CrashView, FinalStore;
    var goal, name := FinalDirectory(w.dir, m, source), m.artifactDigest;
    var torn := File(source + [0], false);
    OneNameLost(w, name, torn);
    if name in w.dir && !w.dir[name].synced {
      dir' := w.dir[name := torn];
    } else if name in w.disk && !w.disk[name].synced {
      dir' := w.dir[name := torn];
    } else if name in w.disk {
      dir' := w.dir[name := w.disk[name]];
      NameIsNear(w, m, source);
    } else {
      dir' := w.dir - {name};
      NameIsNear(w, m, source);
    }
  }

  /** When all else agrees, storage is durable exactly if each copy of the imported file that
      exists is synchronized with the final bytes, and any that is missing can be supplied. */
  lemma NameIsNear(w: World, m: Manifest, source: Bytes)
    requires forall n :: n in w.dir && n != m.artifactDigest ==> w.dir[n].synced && n in w.disk
    requires forall n :: n in w.disk && n != m.artifactDigest ==> n in w.dir && w.dir[n] == w.disk[n]
    ensures var goal, name := FinalDirectory(w.dir, m, source), m.artifactDigest;
      Durable(w, m, source) <==>
        && (name in w.dir ==> w.dir[name].synced)
        && (if name in w.disk then w.disk[name] == goal[name] else goal[name].bytes == source)
  {
    var goal, name := FinalDirectory(w.dir, m, source), m.artifactDigest;
    if name !in w.dir {
      assert w.dir == goal - {name};
    } else if w.dir[name].synced {
      assert w.dir == goal;
    }
    if name in w.disk {
      if w.disk[name] == goal[name] {
        assert w.disk == goal;
      }
    } else {
      assert w.disk == goal - {name};
    }
  }

  /** If power may be lost, rerunning an interrupted import converges whenever its staging
      directory can be cleared, exactly when the storage it started from was durable. */
  lemma ConvergesIffDurable(hash: Hash, w: World, m: Manifest, source: Bytes, limits: Limits)
    requires Idle(hash, w) && Importable(hash, w, m, source, limits)
    ensures (forall run: seq<World>, i: nat ::
               Attempts(hash, run, m, source, true) && run[0] == w && i < |run| && run[i].procs == map[]
               && |run[i].staging| <= MAX_RECOVERY_ENTRIES ==>
                 Converges(hash, w, run[i], m, source, limits))
            <==> Durable(w, m, source)
  {
    hide Importable, Converges, Durable, Inv;
    if Durable(w, m, source) {
      forall run: seq<World>, i: nat |
        Attempts(hash, run, m, source, true) && run[0] == w && i < |run| && run[i].procs == map[]
        && |run[i].staging| <= MAX_RECOVERY_ENTRIES
        ensures Converges(hash, w, run[i], m, source, limits)
      {
        InterruptedImportConverges(hash, run, i, m, source, limits, true);
      }
    } else {
      var dir' := PowerLossBreaks(hash, w, m, source, limits);
      var run := [w, Apply(w, PowerLoss(dir', map[]))];
      assert Enabled(hash, run[0], PowerLoss(dir', map[])) && AttemptStep(PowerLoss(dir', map[]), m, source, true);
      assert AttemptAt(hash, run, 0, m, source, true);
      assert Attempts(hash, run, m, source, true);
      assert run[1].procs == map[];
    }
  }

  // ----------------------------------------------------------------------------------
  // How many staged files can come back

  /** How many processes have started in the first `i` steps. */
  ghost function Begun(run: seq<World>, i: nat): nat
    requires i < |run|
  {
    if i == 0 then 0
    else Begun(run, i - 1) + if run[i].procs.Keys <= run[i - 1].procs.Keys then 0 else 1
  }

  ghost function Stagers(w: World): set<Pid> {
    w.stagingDisk.Keys + w.procs.Keys
  }

  lemma InstallAddsOwnName(w: World, w': World, pid: Pid, link: Option<Digest>)
    requires StagingOk(w.staging, w.stagingDisk) && StagingStep(w, w', pid, link)
    ensures w'.stagingDisk.Keys <= w.stagingDisk.Keys + {pid}
  {
  }

  lemma AdvanceAddsOwnName(hash: Hash, w0: World, w: World, pid: Pid, action: Action, m: Manifest, source: Bytes)
    requires Attempting(hash, w0, w, m, source) && Enabled(hash, w, Advance(pid, action))
    ensures Stagers(Apply(w, Advance(pid, action))) <= Stagers(w)
    ensures Apply(w, Advance(pid, action)).procs.Keys <= w.procs.Keys
  {
    hide StoreInv, BytesOk, InstallEnabled, ApplyInstall, StagingStep;
    SoleAttempt(hash, w0, w, pid, m, source);
    var pc := w.procs[pid].installPc;
    InstallStages(w, pid, m, Some(source), action);
    InstallAddsOwnName(w, Apply(w, Advance(pid, action)), pid,
                       if action == InstallLink then Some(m.artifactDigest) else None);
    AttemptMoves(hash, w, pid, pc, action, m, source);
  }

  lemma StepStagers(hash: Hash, w0: World, w: World, step: Step, m: Manifest, source: Bytes) returns (pid: Pid)
    requires Attempting(hash, w0, w, m, source) && Enabled(hash, w, step) && AttemptStep(step, m, source, true)
    ensures var w' := Apply(w, step);
            Stagers(w') <= Stagers(w) || (Stagers(w') <= Stagers(w) + {pid} && pid in w'.procs && pid !in w.procs)
  {
    hide Inv, Attempting, InstallEnabled, ApplyInstall, RemoveEnabled, ApplyRemove, LeaseEnabled, CrashView, CanLock;
    pid := 0;
    match step {
      case Begin(p, _) => pid := p;
      case Stop(_) =>
      case PowerLoss(_, _) =>
      case Advance(p, action) => AdvanceAddsOwnName(hash, w0, w, p, action, m, source);
    }
  }

  lemma StepAddsOneName(hash: Hash, w0: World, w: World, step: Step, m: Manifest, source: Bytes)
    requires Attempting(hash, w0, w, m, source) && Enabled(hash, w, step) && AttemptStep(step, m, source, true)
    ensures |Stagers(Apply(w, step))| <= |Stagers(w)| + if Apply(w, step).procs.Keys <= w.procs.Keys then 0 else 1
  {
    hide Attempting, Enabled, Apply, AttemptStep, Stagers;
    var w' := Apply(w, step);
    var pid := StepStagers(hash, w0, w, step, m, source);
    if Stagers(w') <= Stagers(w) {
      SubsetCardinality(Stagers(w'), Stagers(w));
    } else {
      SubsetCardinality(Stagers(w'), Stagers(w) + {pid});
      assert pid in w'.procs.Keys && pid !in w.procs.Keys;
    }
  }

  lemma {:induction false} AttemptsAddNames(hash: Hash, run: seq<World>, i: nat, m: Manifest, source: Bytes)
    requires Attempts(hash, run, m, source, true) && i < |run| && Idle(hash, run[0]) && Durable(run[0], m, source)
    ensures |Stagers(run[i])| <= |run[0].stagingDisk| + Begun(run, i)
  {
    hide Inv, Durable, Enabled, Apply, AttemptStep, Attempting, Stagers;
    if i == 0 {
      IdleStagers(hash, run[0]);
    } else {
      AttemptsAddNames(hash, run, i - 1, m, source);
      AttemptsProgress(hash, run, i - 1, m, source, true);
      assert AttemptAt(hash, run, i - 1, m, source, true);
      var step :| && Enabled(hash, run[i - 1], step) && AttemptStep(step, m, source, true)
                  && run[i] == Apply(run[i - 1], step);
      StepAddsOneName(hash, run[0], run[i - 1], step, m, source);
    }
  }

  lemma IdleStagers(hash: Hash, w: World)
    requires Idle(hash, w)
    ensures |Stagers(w)| == |w.stagingDisk|
  {
    assert Stagers(w) == w.stagingDisk.Keys;
  }

  /** As long as the attempts are no more than one recovery may clear, power losses do not keep
      the import from converging. */
  lemma FewAttemptsConverge(hash: Hash, run: seq<World>, i: nat, m: Manifest, source: Bytes, limits: Limits)
    requires Attempts(hash, run, m, source, true) && i < |run| && Idle(hash, run[0]) && run[i].procs == map[]
    requires Durable(run[0], m, source) && Importable(hash, run[0], m, source, limits)
    requires |run[0].stagingDisk| + Begun(run, i) <= MAX_RECOVERY_ENTRIES
    ensures Converges(hash, run[0], run[i], m, source, limits)
  {
    hide Durable, Importable, Converges;
    AttemptsAddNames(hash, run, i, m, source);
    AttemptsProgress(hash, run, i, m, source, true);
    SubsetCardinality(run[i].staging.Keys, Stagers(run[i]));
    assert |run[i].staging| == |run[i].staging.Keys|;
    InterruptedImportConverges(hash, run, i, m, source, limits, true);
  }

  // ----------------------------------------------------------------------------------
  // They can pile up

  ghost predicate Leads(hash: Hash, run: seq<World>, w: World, v: World, m: Manifest, source: Bytes) {
    Attempts(hash, run, m, source, true) && run[0] == w && run[|run| - 1] == v
  }

  /** Attempts that may be interrupted by power losses can lead from `w` to `v`. */
  ghost predicate Reaches(hash: Hash, w: World, v: World, m: Manifest, source: Bytes) {
    exists run :: Leads(hash, run, w, v, m, source)
  }

  lemma ReachesItself(hash: Hash, w: World, m: Manifest, source: Bytes)
    ensures Reaches(hash, w, w, m, source)
  {
    assert Leads(hash, [w], w, w, m, source);
  }

  lemma ReachesNext(hash: Hash, w: World, v: World, step: Step, m: Manifest, source: Bytes)
    requires Reaches(hash, w, v, m, source) && Enabled(hash, v, step) && AttemptStep(step, m, source, true)
    ensures Reaches(hash, w, Apply(v, step), m, source)
  {
    hide Enabled, Apply, AttemptStep;
    var run :| Leads(hash, run, w, v, m, source);
    var run' := run + [Apply(v, step)];
    forall i | 0 <= i < |run'| - 1 ensures AttemptAt(hash, run', i, m, source, true) {
      if i < |run| - 1 {
        assert AttemptAt(hash, run, i, m, source, true);
        var earlier :| && Enabled(hash, run[i], earlier) && AttemptStep(earlier, m, source, true)
                       && run[i + 1] == Apply(run[i], earlier);
        assert Enabled(hash, run'[i], earlier);
      } else {
        assert Enabled(hash, run'[i], step);
      }
    }
    assert Leads(hash, run', w, Apply(v, step), m, source);
  }

  lemma {:induction false} FreshName(names: set<Pid>) returns (pid: Pid)
    ensures forall p :: p in names ==> p < pid
    decreases |names|
  {
    if names == {} {
      pid := 0;
    } else {
      var p :| p in names;
      var above := FreshName(names - {p});
      assert names == (names - {p}) + {p};
      pid := if p < above then above else p + 1;
    }
  }

  /** Nothing runs, nothing is staged, and the import can be attempted. */
  ghost predicate Attemptable(w: World, m: Manifest) {
    && w.procs == map[] && w.staging == map[] && m.artifactDigest !in w.dir
    && ValidManifest(m) && ReadState(w.store, m.artifactId).Ok? && !Pending(w.store, m.artifactId)
  }

  function Attempted(w: World, pid: Pid, m: Manifest, source: Bytes, pc: InstallPc): World {
    w.(procs := map[pid := Lifecycle.Install(m, Some(source), pc)])
  }

  lemma AttemptRecovers(hash: Hash, v: World, pid: Pid, m: Manifest, source: Bytes)
    requires Attemptable(v, m) && pid !in v.stagingDisk
    ensures Reaches(hash, v, Attempted(v, pid, m, source, InstallRecovered), m, source)
  {
    hide PutInstallation, ReadState, Pending, ValidManifest, Reaches;
    var proc := Lifecycle.Install(m, Some(source), InstallOpened);
    var begun := Attempted(v, pid, m, source, InstallOpened);
    ReachesItself(hash, v, m, source);
    ReachesNext(hash, v, v, Begin(pid, proc), m, source);
    assert Apply(v, Begin(pid, proc)) == begun;
    ReachesNext(hash, v, begun, Advance(pid, InstallRecover), m, source);
    assert Apply(begun, Advance(pid, InstallRecover)) == Attempted(v, pid, m, source, InstallRecovered);
  }

  /** An attempt that has checked its request. */
  lemma AttemptBegins(hash: Hash, v: World, pid: Pid, m: Manifest, source: Bytes)
    requires Attemptable(v, m) && pid !in v.stagingDisk
    ensures Reaches(hash, v, Attempted(v, pid, m, source, InstallChecked), m, source)
  {
    hide PutInstallation, ReadState, Pending, ValidManifest, Reaches;
    var recovered := Attempted(v, pid, m, source, InstallRecovered);
    AttemptRecovers(hash, v, pid, m, source);
    ReachesNext(hash, v, recovered, Advance(pid, InstallCheck), m, source);
    assert Apply(recovered, Advance(pid, InstallCheck)) == Attempted(v, pid, m, source, InstallChecked);
  }

  lemma AttemptCopies(hash: Hash, w: World, v: World, pid: Pid, m: Manifest, source: Bytes)
    requires Reaches(hash, w, Attempted(v, pid, m, source, InstallChecked), m, source) && Attemptable(v, m)
    ensures Reaches(hash, w, WithStaged(Attempted(v, pid, m, source, InstallCopying), pid, Staged([], false, None)),
                    m, source)
  {
    hide PutInstallation, ReadState, Pending, ValidManifest, Reaches;
    var checked := Attempted(v, pid, m, source, InstallChecked);
    ReachesNext(hash, w, checked, Advance(pid, InstallCopy(0)), m, source);
    assert source[..0] == [];
    assert Apply(checked, Advance(pid, InstallCopy(0)))
        == WithStaged(Attempted(v, pid, m, source, InstallCopying), pid, Staged([], false, None));
  }

  /** The staged file is removed, and the attempt stops before synchronizing. */
  lemma AttemptGivesUp(hash: Hash, w: World, v: World, pid: Pid, m: Manifest, source: Bytes)
    requires Attemptable(v, m)
    requires Reaches(hash, w, WithStaged(Attempted(v, pid, m, source, InstallCopying), pid, Staged([], false, None)),
                     m, source)
    ensures Reaches(hash, w, v.(stagingDisk := v.stagingDisk[pid := Staged([], false, None)]), m, source)
  {
    hide PutInstallation, ReadState, Pending, ValidManifest, Reaches, InstallEnabled, ApplyInstall;
    var staged := Staged([], false, None);
    var copying := WithStaged(Attempted(v, pid, m, source, InstallCopying), pid, staged);
    var discarded := Attempted(v, pid, m, source, InstallDiscarded).(stagingDisk := v.stagingDisk[pid := staged]);
    DiscardStep(hash, v, pid, m, source);
    ReachesNext(hash, w, copying, Advance(pid, InstallDiscard), m, source);
    ReachesNext(hash, w, discarded, Stop(pid), m, source);
    assert discarded.procs - {pid} == map[];
  }

  lemma DiscardStep(hash: Hash, v: World, pid: Pid, m: Manifest, source: Bytes)
    requires v.staging == map[]
    ensures var staged := Staged([], false, None);
            var copying := WithStaged(Attempted(v, pid, m, source, InstallCopying), pid, staged);
            && InstallEnabled(hash, copying, pid, m, Some(source), InstallCopying, InstallDiscard)
            && ApplyInstall(copying, pid, m, Some(source), InstallDiscard)
            == Attempted(v, pid, m, source, InstallDiscarded).(stagingDisk := v.stagingDisk[pid := staged])
  {
    assert v.staging[pid := Staged([], false, None)] - {pid} == v.staging;
  }

  lemma ReachesOn(hash: Hash, w: World, v: World, u: World, m: Manifest, source: Bytes)
    requires Reaches(hash, w, v, m, source) && Reaches(hash, v, u, m, source)
    ensures Reaches(hash, w, u, m, source)
  {
    hide Enabled, Apply, AttemptStep;
    var first :| Leads(hash, first, w, v, m, source);
    var second :| Leads(hash, second, v, u, m, source);
    var run := first + second[1..];
    forall i | 0 <= i < |run| - 1 ensures AttemptAt(hash, run, i, m, source, true) {
      var here, there := if i < |first| - 1 then first else second, if i < |first| - 1 then i else i - (|first| - 1);
      assert AttemptAt(hash, here, there, m, source, true);
      assert run[i] == here[there] && run[i + 1] == here[there + 1];
    }
    assert Leads(hash, run, w, u, m, source);
  }

  /** Any number of staged files can be waiting to come back after enough such attempts. */
  lemma {:induction false} AttemptsPileUp(hash: Hash, w: World, m: Manifest, source: Bytes, n: nat)
    returns (stagingDisk: StagingArea)
    requires Attemptable(w, m)
    ensures Reaches(hash, w, w.(stagingDisk := stagingDisk), m, source) && |stagingDisk| >= n
  {
    hide Reaches;
    if n == 0 {
      stagingDisk := w.stagingDisk;
      ReachesItself(hash, w, m, source);
    } else {
      var before := AttemptsPileUp(hash, w, m, source, n - 1);
      var v := w.(stagingDisk := before);
      var pid := FreshName(before.Keys);
      assert pid !in before;
      AttemptBegins(hash, v, pid, m, source);
      ReachesOn(hash, w, v, Attempted(v, pid, m, source, InstallChecked), m, source);
      AttemptCopies(hash, w, v, pid, m, source);
      AttemptGivesUp(hash, w, v, pid, m, source);
      stagingDisk := before[pid := Staged([], false, None)];
      assert stagingDisk.Keys == before.Keys + {pid};
      assert |stagingDisk| == |stagingDisk.Keys| && |before| == |before.Keys|;
    }
  }

  /** So power losses can keep an import of new bytes from converging, however durable the
      storage was, by bringing back more staged files than one recovery may clear. */
  lemma ConvergenceCanFail(hash: Hash, w: World, m: Manifest, source: Bytes, limits: Limits)
    returns (run: seq<World>, v: World)
    requires Idle(hash, w) && Importable(hash, w, m, source, limits)
    requires w.staging == map[] && m.artifactDigest !in w.dir
    ensures Leads(hash, run, w, v, m, source) && v.procs == map[]
    ensures !Converges(hash, w, v, m, source, limits)
  {
    hide Leads, FinalStore, FinalDirectory, PutInstallation, ValidManifest;
    IsAttemptable(hash, w, m, source, limits);
    var stagingDisk := AttemptsPileUp(hash, w, m, source, MAX_RECOVERY_ENTRIES + 1);
    var back := map p | p in stagingDisk :: stagingDisk[p].(link := None);
    assert back.Keys == stagingDisk.Keys;
    assert |back| == |back.Keys| && |stagingDisk| == |stagingDisk.Keys|;
    var u := w.(stagingDisk := stagingDisk);
    assert CrashView(u, u.dir);
    ReachesNext(hash, w, u, PowerLoss(u.dir, back), m, source);
    v := Apply(u, PowerLoss(u.dir, back));
    run :| Leads(hash, run, w, v, m, source);
  }

  lemma IsAttemptable(hash: Hash, w: World, m: Manifest, source: Bytes, limits: Limits)
    requires Idle(hash, w) && Importable(hash, w, m, source, limits)
    requires w.staging == map[] && m.artifactDigest !in w.dir
    ensures Attemptable(w, m)
  {
    hide PutInstallation, ValidManifest, BytesOk;
    ReadSucceeds(w.store, m.artifactId);
    PendingRefuses(w.store, m);
  }
}
