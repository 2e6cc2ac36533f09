/**
 Managed artifact storage as one mutable object: the durable store, the artifact
 directory with its synchronized contents, the staging area and the lifecycle lock.

 Operations assign the fields step by step. Each assignment is logged as one step of the
 lifecycle protocol, so that the ghost trace is a run and everything proved of runs
 holds at every intermediate state, which is where an operation may be interrupted.
 */
module ManagedStorage {
  import opened Text
  import opened Artifacts
  import opened StateStore
  import opened Lifecycle
  import opened LifecycleSafety

  const USIZE_MAX: nat := 0xFFFF_FFFF_FFFF_FFFF

  datatype Limits = Limits(maximumArtifactBytes: nat, maximumStorageEntries: nat)

  predicate ValidLimits(limits: Limits) {
    limits.maximumArtifactBytes != 0 && 0 < limits.maximumStorageEntries < USIZE_MAX
  }

  datatype Verification = Verified | Missing | EntryLimit | SizeMismatch | SecondLink | DigestMismatch

  /** Bounded lookup of one canonical name, which must be the file's only link, followed by an
      exact comparison of its bytes. */
  function Verify(hash: Hash, dir: Directory, staging: StagingArea, name: Digest, size: nat,
                  maximumEntries: nat): (v: Verification)
    ensures v == Verified <==> Exact(hash, dir, name, size) && !Aliased(staging, name) && |dir| <= maximumEntries
    ensures v == Missing <==> name !in dir && |dir| < maximumEntries
  {
    if |dir| > maximumEntries then EntryLimit
    else if name !in dir then (if |dir| == maximumEntries then EntryLimit else Missing)
    else if |dir[name].bytes| != size then SizeMismatch
    else if Aliased(staging, name) then SecondLink
    else if hash(dir[name].bytes) != name then DigestMismatch
    else Verified
  }

  /** The views before and after an operation share a past. */
  ghost predicate Extends(before: seq<World>, after: seq<World>) {
    before <= after
  }

  lemma ExtendRun(hash: Hash, run: seq<World>, step: Step, w: World)
    requires IsRun(hash, run) && Enabled(hash, run[|run| - 1], step) && w == Apply(run[|run| - 1], step)
    ensures IsRun(hash, run + [w])
  {
    var run' := run + [w];
    forall i | 0 <= i < |run'| - 1 ensures StepAt(hash, run', i) {
      if i < |run| - 1 { assert StepAt(hash, run, i); }
    }
  }

  /** The lock table agrees with the live processes. */
  ghost predicate LockMatches(exclusive: bool, sharers: nat, procs: map<Pid, Proc>) {
    if exclusive then sharers == 0 && exists pid :: procs.Keys == {pid} && !procs[pid].Lease?
    else |procs| == sharers && forall pid :: pid in procs ==> procs[pid].Lease?
  }

  /** A protocol step moves one process and keeps its kind. */
  lemma AdvanceMovesOne(hash: Hash, w: World, pid: Pid, action: Action)
    requires Enabled(hash, w, Advance(pid, action))
    ensures var procs := Apply(w, Advance(pid, action)).procs;
            && pid in procs && procs == w.procs[pid := procs[pid]]
            && procs[pid].Lease? == w.procs[pid].Lease?
  {
    hide InstallEnabled, ApplyInstall, PrepareRemoval, CompleteRemoval, Exact, ReadState;
    match w.procs[pid] {
      case Lease(_, _) =>
      case Remove(_, _) =>
      case Install(m, source, pc) => InstallMovesOne(hash, w, pid, m, source, pc, action);
    }
  }

  lemma InstallMovesOne(hash: Hash, w: World, pid: Pid, m: Manifest, source: Option<Bytes>, pc: InstallPc,
                        action: Action)
    requires InstallEnabled(hash, w, pid, m, source, pc, action)
    ensures var procs := ApplyInstall(w, pid, m, source, action).procs;
            pid in procs && procs == w.procs[pid := procs[pid]] && procs[pid].Install?
  {
    hide InstallEnabled, PutInstallation;
    EnabledIsQuiet(hash, w, pid, m, source, pc, action);
  }

  lemma AdvanceKeepsLock(exclusive: bool, sharers: nat, procs: map<Pid, Proc>, pid: Pid, proc: Proc)
    requires LockMatches(exclusive, sharers, procs) && pid in procs && proc.Lease? == procs[pid].Lease?
    ensures LockMatches(exclusive, sharers, procs[pid := proc])
  {
    var procs' := procs[pid := proc];
    assert procs'.Keys == procs.Keys;
    assert |procs'| == |procs'.Keys| && |procs| == |procs.Keys|;
  }

  lemma GrantKeepsLock(exclusive: bool, sharers: nat, procs: map<Pid, Proc>, pid: Pid, proc: Proc)
    requires LockMatches(exclusive, sharers, procs) && pid !in procs
    requires !exclusive && (!proc.Lease? ==> sharers == 0)
    ensures if proc.Lease? then LockMatches(false, sharers + 1, procs[pid := proc])
            else LockMatches(true, 0, procs[pid := proc]) && procs == map[]
  {
    var procs' := procs[pid := proc];
    assert procs'.Keys == procs.Keys + {pid};
    if !proc.Lease? {
      assert |procs| == 0;
      assert procs == map[];
      assert procs'.Keys == {pid} && !procs'[pid].Lease?;
    }
  }

  lemma ReleaseKeepsLock(exclusive: bool, sharers: nat, procs: map<Pid, Proc>, pid: Pid)
    requires LockMatches(exclusive, sharers, procs) && pid in procs
    ensures if procs[pid].Lease? then !exclusive && sharers > 0 && LockMatches(false, sharers - 1, procs - {pid})
            else exclusive && LockMatches(false, 0, procs - {pid})
  {
    assert procs.Keys == (procs - {pid}).Keys + {pid};
    if exclusive {
      assert forall q :: q in procs ==> q == pid;
      assert procs - {pid} == map[];
    }
  }

  class ManagedStorage {
    const hash: Hash
    var store: Store
    var dir: Directory
    var disk: Directory
    var staging: StagingArea
    var stagingDisk: StagingArea
    var exclusive: bool
    var sharers: nat
    ghost var procs: map<Pid, Proc>
    ghost var trace: seq<World>

    ghost function View(): World
      reads this
    {
      World(store, dir, disk, staging, stagingDisk, procs)
    }

    ghost predicate Valid()
      reads this
    {
      IsRun(hash, trace) && trace[|trace| - 1] == View() && LockMatches(exclusive, sharers, procs)
    }

    lemma HoldsInvariant()
      requires Valid()
      ensures Inv(hash, View())
    {
      RunInv(hash, trace, |trace| - 1);
    }

    /** Nobody runs exactly when nobody holds the lock. */
    lemma IdleIffUnlocked()
      requires Valid()
      ensures procs == map[] <==> !exclusive && sharers == 0
    {
      if procs == map[] {
        assert procs.Keys == {};
      } else {
        assert procs.Keys != {};
      }
    }

    /** A fresh store over whatever files the directory already holds. */
    constructor (hash: Hash, files: Directory, onDisk: Directory)
      ensures Valid() && this.hash == hash && dir == files && disk == onDisk && procs == map[]
      ensures staging == map[] && stagingDisk == map[] && store == Store(map[], map[])
    {
      this.hash := hash;
      store := Store(map[], map[]);
      dir, disk, staging, stagingDisk := files, onDisk, map[], map[];
      exclusive, sharers := false, 0;
      procs := map[];
      trace := [World(Store(map[], map[]), files, onDisk, map[], map[], map[])];
    }

    /** Records that the fields now hold the effect of `action` by `pid`. */
    ghost method Log(pid: Pid, action: Action)
      requires IsRun(hash, trace) && LockMatches(exclusive, sharers, procs)
                 && procs == trace[|trace| - 1].procs && pid in procs
      requires Enabled(hash, trace[|trace| - 1], Advance(pid, action))
      requires var w := Apply(trace[|trace| - 1], Advance(pid, action));
               && store == w.store && dir == w.dir && disk == w.disk
               && staging == w.staging && stagingDisk == w.stagingDisk
      modifies this`procs, this`trace
      ensures Valid() && procs == Apply(old(trace[|trace| - 1]), Advance(pid, action)).procs
      ensures Extends(old(trace), trace) && |trace| == |old(trace)| + 1
    {
      var w := Apply(trace[|trace| - 1], Advance(pid, action));
      ExtendRun(hash, trace, Advance(pid, action), w);
      AdvanceMovesOne(hash, trace[|trace| - 1], pid, action);
      AdvanceKeepsLock(exclusive, sharers, procs, pid, w.procs[pid]);
      procs := w.procs;
      trace := trace + [w];
    }

    ghost method LogLease(pid: Pid, selection: Installation, pc: LeasePc, action: Action)
      requires Valid() && pid in procs && procs[pid] == Lifecycle.Lease(selection, pc)
      requires LeaseEnabled(hash, View(), selection, pc, action)
      modifies this`procs, this`trace
      ensures Valid() && procs == old(procs)[pid := Lifecycle.Lease(selection, LeaseNext(action))]
      ensures Extends(old(trace), trace)
    {
      Log(pid, action);
    }

    ghost method LogRemove(pid: Pid, selection: Installation, pc: RemovePc, next: RemovePc, action: Action)
      requires IsRun(hash, trace) && LockMatches(exclusive, sharers, procs)
      requires procs == map[pid := Lifecycle.Remove(selection, pc)] && procs == trace[|trace| - 1].procs
      requires RemoveEnabled(hash, trace[|trace| - 1], selection, pc, action)
      requires ApplyRemove(trace[|trace| - 1], pid, selection, pc, action)
            == World(store, dir, disk, staging, stagingDisk, map[pid := Lifecycle.Remove(selection, next)])
      modifies this`procs, this`trace
      ensures Valid() && procs == map[pid := Lifecycle.Remove(selection, next)]
      ensures Extends(old(trace), trace)
    {
      Log(pid, action);
    }

    ghost method LogInstall(pid: Pid, m: Manifest, source: Option<Bytes>, pc: InstallPc, next: InstallPc,
                            action: Action)
      requires IsRun(hash, trace) && LockMatches(exclusive, sharers, procs)
      requires procs == map[pid := Lifecycle.Install(m, source, pc)] && procs == trace[|trace| - 1].procs
      requires InstallEnabled(hash, trace[|trace| - 1], pid, m, source, pc, action)
      requires ApplyInstall(trace[|trace| - 1], pid, m, source, action)
            == World(store, dir, disk, staging, stagingDisk, map[pid := Lifecycle.Install(m, source, next)])
      modifies this`procs, this`trace
      ensures Valid() && procs == map[pid := Lifecycle.Install(m, source, next)]
      ensures Extends(old(trace), trace)
    {
      Log(pid, action);
    }

    /** Takes the lifecycle lock in the mode the operation needs, without waiting. */
    method TryLock(shared: bool, ghost pid: Pid, ghost proc: Proc) returns (granted: bool)
      requires Valid() && pid !in procs && InitialPc(proc) && proc.Lease? == shared && NameIsFree(View(), pid, proc)
      modifies this`exclusive, this`sharers, this`procs, this`trace
      ensures Valid() && Extends(old(trace), trace)
      ensures granted == if shared then !old(exclusive) else !old(exclusive) && old(sharers) == 0
      ensures procs == if granted then old(procs)[pid := proc] else old(procs)
    {
      if exclusive || (!shared && sharers != 0) {
        return false;
      }
      GrantKeepsLock(exclusive, sharers, procs, pid, proc);
      ghost var w := At(View(), pid, proc);
      ExtendRun(hash, trace, Begin(pid, proc), w);
      procs := w.procs;
      trace := trace + [w];
      if shared {
        sharers := sharers + 1;
      } else {
        exclusive := true;
      }
      return true;
    }

    /** Releases the lock, at the end of an operation or when its process dies. */
    method Unlock(shared: bool, ghost pid: Pid)
      requires Valid() && pid in procs && procs[pid].Lease? == shared
      modifies this`exclusive, this`sharers, this`procs, this`trace
      ensures Valid() && Extends(old(trace), trace)
      ensures procs == old(procs) - {pid}
    {
      ReleaseKeepsLock(exclusive, sharers, procs, pid);
      ghost var w := View().(procs := procs - {pid});
      ExtendRun(hash, trace, Stop(pid), w);
      procs := w.procs;
      trace := trace + [w];
      if shared {
        sharers := sharers - 1;
      } else {
        exclusive := false;
      }
    }

    /** Power is lost: every process stops, and both directories come back as `files` and `staged`. */
    method LosePower(files: Directory, staged: StagingArea)
      requires Valid() && Enabled(hash, View(), PowerLoss(files, staged))
      modifies this
      ensures Valid() && Extends(old(trace), trace) && View() == Apply(old(View()), PowerLoss(files, staged))
      ensures !exclusive && sharers == 0
    {
      ghost var w := Apply(View(), PowerLoss(files, staged));
      ExtendRun(hash, trace, PowerLoss(files, staged), w);
      dir, disk, staging, stagingDisk := files, files, staged, staged;
      exclusive, sharers := false, 0;
      procs := map[];
      trace := trace + [w];
    }
  }
}
