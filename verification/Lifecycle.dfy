/**
 The artifact lifecycle as atomic steps of any number of processes.

 A process is a running operation holding the lifecycle lock: shared for a lease,
 exclusive for an import, a reconciliation or a removal. It may stop after any step,
 which releases its lock. Losing power stops every process and loses an arbitrary part
 of the changes made to the artifact directory and to the staging directory since each
 was last synchronized, and the contents of files that were never synchronized. The hash
 is a parameter throughout.
 */
module Lifecycle {
  import opened Text
  import opened Artifacts
  import opened StateStore

  type Hash = Bytes -> Digest
  type Pid = nat

  /** `synced` says that the contents have reached the disk. */
  datatype File = File(bytes: Bytes, synced: bool)
  type Directory = map<Digest, File>

  /** A file being imported; `link` is the name it also has in the artifact directory, if any. */
  datatype Staged = Staged(bytes: Bytes, synced: bool, link: Option<Digest>)
  type StagingArea = map<Pid, Staged>

  datatype LeasePc = LeaseOpened | LeaseChecked | LeaseVerified | LeaseHeld

  datatype RemovePc =
    | RemoveOpened
    | RemoveChecked(recovering: bool)
    | RemoveVerified(recovering: bool, found: bool)
    | RemovePrepared(found: bool)
    | RemoveUnlinked
    | RemoveSynced
    | RemoveDone

  datatype InstallPc =
    | InstallOpened | InstallRecovering | InstallRecovered | InstallChecked | InstallCopying | InstallFrozen
    | InstallStagedSynced | InstallLinked | InstallLinkSynced | InstallUnstaged | InstallAdopted
    | InstallVerified | InstallVerifiedSynced | InstallDiscarded | InstallDone

  /** An import carries its source bytes; a reconciliation has none. */
  datatype Proc =
    | Lease(selection: Installation, leasePc: LeasePc)
    | Remove(selection: Installation, removePc: RemovePc)
    | Install(manifest: Manifest, source: Option<Bytes>, installPc: InstallPc)

  /** `dir` is the directory as processes see it and `disk` what is sure to survive
      losing power. `staging` holds the staged file of each import, stale ones included;
      `stagingDisk` every staged file that may be found there after losing power, which
      are those of the last synchronization and all made since. */
  datatype World = World(
    store: Store, dir: Directory, disk: Directory, staging: StagingArea, stagingDisk: StagingArea,
    procs: map<Pid, Proc>)

  datatype Action =
    | LeaseCheck | LeaseVerify | LeaseRecheck
    | RemoveCheck | RemoveVerify | RemoveMissing | RemovePrepare | RemoveUnlink | RemoveConfirmAbsent
    | RemoveSync | RemoveComplete
    | InstallUnstage(stale: Pid) | InstallSyncUnstaged | InstallRecover | InstallCheck
    | InstallCopy(count: nat) | InstallFreeze | InstallSyncStaged | InstallLink | InstallSyncLink
    | InstallCleanup | InstallSyncCleanup | InstallDiscard | InstallSyncDiscard | InstallAdopt
    | InstallVerify | InstallVerifySync | InstallRegister

  datatype Step =
    | Begin(pid: Pid, proc: Proc)
    | Advance(pid: Pid, action: Action)
    | Stop(pid: Pid)
    | PowerLoss(dir': Directory, staging': StagingArea)
    | Activation(request: Request)

  predicate Exact(hash: Hash, dir: Directory, digest: Digest, size: nat) {
    digest in dir && |dir[digest].bytes| == size && hash(dir[digest].bytes) == digest
  }

  predicate ExactSynced(hash: Hash, dir: Directory, digest: Digest, size: nat) {
    Exact(hash, dir, digest, size) && dir[digest].synced
  }

  /** The file has a second link, in the staging area. */
  predicate Aliased(staging: StagingArea, name: Digest) {
    exists p :: p in staging && staging[p].link == Some(name)
  }

  predicate IsPrepared(s: Store, selection: Installation) {
    Lookup(s, selection.installed.artifactId).removal == Some(Removal(selection, Prepared))
  }

  predicate IsCompleted(s: Store, selection: Installation) {
    Lookup(s, selection.installed.artifactId).removal == Some(Removal(selection, Completed))
  }

  predicate IsCurrent(s: Store, selection: Installation) {
    Lookup(s, selection.installed.artifactId).current == Some(selection)
  }

  predicate Pending(s: Store, id: Digest) {
    var r := Lookup(s, id);
    r.current.None? && r.removal.Some? && r.removal.value.phase.Prepared?
  }

  function Name(selection: Installation): Digest {
    selection.installed.artifactDigest
  }

  /** The operating system grants the lock when the live holders allow it. */
  ghost predicate CanLock(w: World, proc: Proc) {
    if proc.Lease? then forall q :: q in w.procs ==> w.procs[q].Lease?
    else w.procs == map[]
  }

  /** An import stages its file under a new name, which is called by the importing process. */
  predicate NameIsFree(w: World, pid: Pid, proc: Proc) {
    proc.Install? && proc.source.Some? ==> pid !in w.stagingDisk
  }

  predicate InitialPc(proc: Proc) {
    match proc
    case Lease(_, pc) => pc == LeaseOpened
    case Remove(_, pc) => pc == RemoveOpened
    case Install(_, _, pc) => pc == InstallOpened
  }

  // ----------------------------------------------------------------------------------
  // Enabled steps and their effect

  ghost predicate LeaseEnabled(hash: Hash, w: World, selection: Installation, pc: LeasePc, action: Action) {
    var installed := selection.installed;
    match action
    case LeaseCheck => pc == LeaseOpened && ValidSelection(selection) && IsCurrent(w.store, selection)
    case LeaseVerify =>
      && pc == LeaseChecked && Exact(hash, w.dir, Name(selection), installed.byteSize)
      && !Aliased(w.staging, Name(selection))
    case LeaseRecheck => pc == LeaseVerified && IsCurrent(w.store, selection)
    case _ => false
  }

  ghost predicate RemoveEnabled(hash: Hash, w: World, selection: Installation, pc: RemovePc, action: Action) {
    var name := Name(selection);
    match action
    case RemoveCheck =>
      && pc == RemoveOpened && ValidSelection(selection)
      && ReadState(w.store, selection.installed.artifactId).Ok?
      && (IsPrepared(w.store, selection) || (!IsCompleted(w.store, selection) && IsCurrent(w.store, selection)))
    case RemoveVerify =>
      && pc.RemoveChecked? && Exact(hash, w.dir, name, selection.installed.byteSize)
      && !Aliased(w.staging, name)
    case RemoveMissing => pc == RemoveChecked(true) && name !in w.dir
    case RemovePrepare =>
      && pc.RemoveVerified?
      && var tx := PrepareRemoval(w.store, selection);
         tx.result.Ok? && tx.result.value != AlreadyCompleted
    case RemoveUnlink => pc == RemovePrepared(true) && name in w.dir
    case RemoveConfirmAbsent => pc == RemovePrepared(false) && name !in w.dir
    case RemoveSync => pc == RemoveUnlinked
    case RemoveComplete => pc == RemoveSynced && CompleteRemoval(w.store, selection).result.Ok?
    case _ => false
  }

  ghost predicate InstallEnabled(hash: Hash, w: World, pid: Pid, m: Manifest, source: Option<Bytes>, pc: InstallPc,
                                 action: Action)
  {
    var name := m.artifactDigest;
    match action
    case InstallUnstage(stale) =>
      source.Some? && (pc == InstallOpened || pc == InstallRecovering) && stale in w.staging
    case InstallSyncUnstaged => pc == InstallRecovering && w.staging == map[]
    case InstallRecover => pc == InstallOpened && source.Some? && w.staging == map[]
    case InstallCheck =>
      && pc == (if source.Some? then InstallRecovered else InstallOpened)
      && ValidManifest(m) && ReadState(w.store, m.artifactId).Ok? && !Pending(w.store, m.artifactId)
    case InstallCopy(count) =>
      && source.Some? && count <= |source.value|
      && (pc == InstallCopying || (pc == InstallChecked && name !in w.dir))
    case InstallFreeze =>
      && pc == InstallCopying && source.Some? && pid in w.staging
      && w.staging[pid].bytes == source.value
      && |source.value| == m.byteSize && hash(source.value) == name
    case InstallSyncStaged => pc == InstallFrozen && pid in w.staging
    case InstallLink => pc == InstallStagedSynced && pid in w.staging && name !in w.dir
    case InstallSyncLink => pc == InstallLinked
    case InstallCleanup => pc == InstallLinkSynced
    case InstallSyncCleanup => pc == InstallUnstaged
    case InstallDiscard =>
      source.Some? && pc != InstallOpened && pc != InstallRecovering && pc != InstallRecovered
    case InstallSyncDiscard => pc == InstallDiscarded
    case InstallAdopt =>
      && pc == InstallChecked
      && (source.Some? ==> name in w.dir && |source.value| == m.byteSize && hash(source.value) == name)
    case InstallVerify =>
      pc == InstallAdopted && Exact(hash, w.dir, name, m.byteSize) && !Aliased(w.staging, name)
    case InstallVerifySync => pc == InstallVerified
    case InstallRegister => pc == InstallVerifiedSynced && PutInstallation(w.store, m, InstalledFrom(m)).result.Ok?
    case _ => false
  }

  ghost predicate Enabled(hash: Hash, w: World, step: Step) {
    match step
    case Begin(pid, proc) => pid !in w.procs && InitialPc(proc) && CanLock(w, proc) && NameIsFree(w, pid, proc)
    case Stop(pid) => pid in w.procs
    case PowerLoss(dir', staging') => CrashView(w, dir') && StagedSurvive(w.stagingDisk, dir', staging')
    case Activation(request) => request.Bind? || request.Unbind?
    case Advance(pid, action) =>
      && pid in w.procs
      && match w.procs[pid]
         case Lease(selection, pc) => LeaseEnabled(hash, w, selection, pc, action)
         case Remove(selection, pc) => RemoveEnabled(hash, w, selection, pc, action)
         case Install(m, source, pc) => InstallEnabled(hash, w, pid, m, source, pc, action)
  }

  /** A staged file seen after losing power is one that may have been on disk; it shares a
      link with an artifact only if it did before and the artifact is still there. */
  ghost predicate StagedSurvive(before: StagingArea, dir': Directory, after: StagingArea) {
    forall p :: p in after ==>
      && p in before
      && (after[p].link.Some? ==> after[p].link == before[p].link && after[p].link.value in dir')
  }

  /** A file seen after losing power is one that was visible or on disk before; contents
      that were never synchronized may have turned into anything. */
  predicate Survives(before: Directory, name: Digest, after: File) {
    name in before && (before[name].synced ==> after == before[name])
  }

  ghost predicate CrashView(w: World, dir': Directory) {
    forall name ::
      && (name in dir' ==> Survives(w.dir, name, dir'[name]) || Survives(w.disk, name, dir'[name]))
      && (name in w.dir && name in w.disk ==> name in dir')
  }

  function LeaseNext(action: Action): LeasePc {
    match action
    case LeaseCheck => LeaseChecked
    case LeaseVerify => LeaseVerified
    case _ => LeaseHeld
  }

  function At(w: World, pid: Pid, proc: Proc): World {
    w.(procs := w.procs[pid := proc])
  }

  function ApplyRemove(w: World, pid: Pid, selection: Installation, pc: RemovePc, action: Action): World {
    var name := Name(selection);
    match action
    case RemoveCheck => At(w, pid, Remove(selection, RemoveChecked(IsPrepared(w.store, selection))))
    case RemoveVerify =>
      At(w.(disk := w.dir), pid, Remove(selection, RemoveVerified(pc.RemoveChecked? && pc.recovering, true)))
    case RemoveMissing => At(w, pid, Remove(selection, RemoveVerified(true, false)))
    case RemovePrepare =>
      At(w.(store := PrepareRemoval(w.store, selection).store), pid,
         Remove(selection, RemovePrepared(pc.RemoveVerified? && pc.found)))
    case RemoveUnlink => At(w.(dir := w.dir - {name}), pid, Remove(selection, RemoveUnlinked))
    case RemoveConfirmAbsent => At(w, pid, Remove(selection, RemoveUnlinked))
    case RemoveSync => At(w.(disk := w.dir), pid, Remove(selection, RemoveSynced))
    case _ => At(w.(store := CompleteRemoval(w.store, selection).store), pid, Remove(selection, RemoveDone))
  }

  /** Changes the staged file of `pid`; the change may reach the disk at any time. */
  function WithStaged(w: World, pid: Pid, staged: Staged): World {
    w.(staging := w.staging[pid := staged], stagingDisk := w.stagingDisk[pid := staged])
  }

  function ApplyInstall(w: World, pid: Pid, m: Manifest, source: Option<Bytes>, action: Action): World {
    var name := m.artifactDigest;
    match action
    case InstallUnstage(stale) => At(w.(staging := w.staging - {stale}), pid, Install(m, source, InstallRecovering))
    case InstallSyncUnstaged => At(w.(stagingDisk := w.staging), pid, Install(m, source, InstallRecovered))
    case InstallRecover => At(w, pid, Install(m, source, InstallRecovered))
    case InstallCheck => At(w, pid, Install(m, source, InstallChecked))
    case InstallCopy(count) =>
      var bytes := if source.Some? && count <= |source.value| then source.value[..count] else [];
      At(WithStaged(w, pid, Staged(bytes, false, None)), pid, Install(m, source, InstallCopying))
    case InstallFreeze => At(w, pid, Install(m, source, InstallFrozen))
    case InstallSyncStaged =>
      if pid !in w.staging then w
      else At(WithStaged(w, pid, w.staging[pid].(synced := true)), pid, Install(m, source, InstallStagedSynced))
    case InstallLink =>
      if pid !in w.staging then w
      else
        var staged := w.staging[pid];
        At(WithStaged(w, pid, staged.(link := Some(name))).(
             dir := w.dir[name := File(staged.bytes, staged.synced)]), pid, Install(m, source, InstallLinked))
    case InstallSyncLink => At(w.(disk := w.dir), pid, Install(m, source, InstallLinkSynced))
    case InstallCleanup => At(w.(staging := w.staging - {pid}), pid, Install(m, source, InstallUnstaged))
    case InstallSyncCleanup => At(w.(stagingDisk := w.staging), pid, Install(m, source, InstallAdopted))
    case InstallDiscard => At(w.(staging := w.staging - {pid}), pid, Install(m, source, InstallDiscarded))
    case InstallSyncDiscard => At(w.(stagingDisk := w.staging), pid, Install(m, source, InstallDone))
    case InstallAdopt => At(w, pid, Install(m, source, InstallAdopted))
    case InstallVerify =>
      if name !in w.dir then w
      else At(w.(dir := w.dir[name := w.dir[name].(synced := true)]), pid, Install(m, source, InstallVerified))
    case InstallVerifySync => At(w.(disk := w.dir), pid, Install(m, source, InstallVerifiedSynced))
    case _ => At(w.(store := PutInstallation(w.store, m, InstalledFrom(m)).store), pid, Install(m, source, InstallDone))
  }

  function Apply(w: World, step: Step): World {
    match step
    case Begin(pid, proc) => At(w, pid, proc)
    case Stop(pid) => w.(procs := w.procs - {pid})
    case PowerLoss(dir', staging') =>
      World(w.store, dir', dir', staging', staging', map[])
    case Activation(request) => w.(store := Commit(w.store, request))
    case Advance(pid, action) =>
      if pid !in w.procs then w
      else match w.procs[pid]
        case Lease(selection, _) => At(w, pid, Lease(selection, LeaseNext(action)))
        case Remove(selection, pc) => ApplyRemove(w, pid, selection, pc, action)
        case Install(m, source, _) => ApplyInstall(w, pid, m, source, action)
  }

  // ----------------------------------------------------------------------------------
  // Runs

  /** An empty store over any directory contents, orphans and foreign files included. */
  ghost predicate Init(w: World) {
    w.store == Store(map[], map[]) && w.procs == map[] && StagingOk(w.staging, w.stagingDisk)
  }

  ghost predicate Next(hash: Hash, w: World, w': World) {
    exists step :: Enabled(hash, w, step) && w' == Apply(w, step)
  }

  ghost predicate StepAt(hash: Hash, run: seq<World>, i: nat)
    requires i + 1 < |run|
  {
    Next(hash, run[i], run[i + 1])
  }

  ghost predicate IsRun(hash: Hash, run: seq<World>) {
    && |run| > 0 && Init(run[0])
    && forall i :: 0 <= i < |run| - 1 ==> StepAt(hash, run, i)
  }

  // ----------------------------------------------------------------------------------
  // The invariant

  /** Bytes follow authority: a current installation has its exact bytes visible and on
      disk; while a removal is pending its bytes are exact wherever they still exist. */
  ghost predicate BytesOk(hash: Hash, r: Record, dir: Directory, disk: Directory, id: Digest) {
    && (r.current.Some? ==>
          && ValidSelection(r.current.value)
          && ExactSynced(hash, dir, id, r.current.value.installed.byteSize)
          && ExactSynced(hash, disk, id, r.current.value.installed.byteSize))
    && (r.removal.Some? ==>
          && ValidSelection(r.removal.value.selection)
          && (r.removal.value.phase.Prepared? ==>
                && (id in dir ==> ExactSynced(hash, dir, id, r.removal.value.selection.installed.byteSize))
                && (id in disk ==> ExactSynced(hash, disk, id, r.removal.value.selection.installed.byteSize))))
  }

  /** Whatever is staged may be on disk. */
  ghost predicate StagingOk(staging: StagingArea, stagingDisk: StagingArea) {
    forall p :: p in staging ==> p in stagingDisk && stagingDisk[p].link == staging[p].link
  }

  /** Only leases share the lock. */
  ghost predicate LockOk(procs: map<Pid, Proc>) {
    forall p, q :: p in procs && q in procs && !procs[p].Lease? ==> p == q
  }

  /** What a process has learnt still holds. */
  ghost predicate ProcOk(hash: Hash, w: World, pid: Pid, proc: Proc) {
    match proc
    case Lease(selection, pc) => pc != LeaseOpened ==> IsCurrent(w.store, selection)
    case Remove(selection, pc) => RemoveOk(hash, w, selection, pc)
    case Install(m, source, pc) => InstallOk(hash, w, pid, m, source, pc)
  }

  ghost predicate RemoveOk(hash: Hash, w: World, selection: Installation, pc: RemovePc) {
    var name := Name(selection);
    && (pc != RemoveOpened ==> ValidSelection(selection))
    && match pc
       case RemoveOpened => true
       case RemoveChecked(recovering) =>
         if recovering then IsPrepared(w.store, selection) else IsCurrent(w.store, selection)
       case RemoveVerified(recovering, found) =>
         && (if recovering then IsPrepared(w.store, selection) else IsCurrent(w.store, selection))
         && (if found then name in w.dir else recovering && name !in w.dir)
       case RemovePrepared(found) => IsPrepared(w.store, selection) && (found <==> name in w.dir)
       case RemoveUnlinked => IsPrepared(w.store, selection) && name !in w.dir
       case RemoveSynced => IsPrepared(w.store, selection) && name !in w.dir && name !in w.disk
       case RemoveDone => true
  }

  ghost predicate InstallOk(hash: Hash, w: World, pid: Pid, m: Manifest, source: Option<Bytes>, pc: InstallPc) {
    var name := m.artifactDigest;
    var staged := source.Some? && pid in w.staging && w.staging[pid].bytes == source.value
                  && |source.value| == m.byteSize && hash(source.value) == name;
    && (pc != InstallOpened && pc != InstallRecovering && pc != InstallRecovered ==>
          ValidManifest(m) && !Pending(w.store, m.artifactId))
    && (pc == InstallFrozen ==> staged)
    && (pc == InstallStagedSynced ==> staged && w.staging[pid].synced)
    && (pc == InstallLinked || pc == InstallLinkSynced ==> Exact(hash, w.dir, name, m.byteSize))
    && (pc == InstallVerified || pc == InstallVerifiedSynced ==>
          ExactSynced(hash, w.dir, name, m.byteSize) && !Aliased(w.staging, name))
    && (pc == InstallVerifiedSynced ==> ExactSynced(hash, w.disk, name, m.byteSize))
  }

  ghost predicate Inv(hash: Hash, w: World) {
    && StoreInv(w.store)
    && (forall id :: BytesOk(hash, Lookup(w.store, id), w.dir, w.disk, id))
    && StagingOk(w.staging, w.stagingDisk)
    && LockOk(w.procs)
    && (forall pid :: pid in w.procs ==> ProcOk(hash, w, pid, w.procs[pid]))
  }
}
