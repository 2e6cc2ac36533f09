/**
 * Read-only inspection of artifact storage: every durable state and every file in the
 * artifact directory is classified, hashing what may be hashed under a byte budget.
 */
module ArtifactInventory {
  import opened Text
  import opened Artifacts

  datatype StoredState = StoredState(manifest: Manifest, installed: Option<Installation>, removal: Option<Removal>)

  /** A directory entry as snapshot; `observed` is the digest of its bytes when they can be read. */
  datatype StorageEntry = StorageEntry(
    name: Option<string>, indirect: bool, regular: bool, singleLink: bool, size: nat, observed: Option<Digest>)

  datatype Limits = Limits(stateEntries: nat, storageEntries: nat, artifactBytes: nat, totalBytes: nat)

  const I64_MAX: nat := 0x7FFF_FFFF_FFFF_FFFF
  const USIZE_MAX: nat := 0xFFFF_FFFF_FFFF_FFFF

  predicate ValidLimits(limits: Limits) {
    && 0 < limits.stateEntries < I64_MAX && 0 < limits.storageEntries < USIZE_MAX
    && limits.artifactBytes > 0 && limits.totalBytes > 0
  }

  datatype InventoryError =
    | InvalidLimits | Cancelled | StateEntryLimitExceeded | StorageEntryLimitExceeded
    | CorruptRecord | TotalVerificationLimitExceeded | ReadFailed | ConcurrentModification

  datatype ByteFinding =
    | StateLayoutConflict
    | Missing
    | UnsafeEntry
    | AliasedEntry
    | SizeConflict(observedBytes: nat)
    | TooLargeToVerify(observedBytes: nat)
    | Verified
    | DigestConflict(observedDigest: Digest)

  datatype Inspection = Inspection(state: StoredState, finding: ByteFinding)

  datatype Association = NoManifest | MatchingManifest(manifest: Manifest) | ManifestSizeConflict(manifest: Manifest)

  datatype Orphan = Orphan(digest: Digest, size: nat, association: Association)

  // ---------------------------------------------------------------- states

  datatype StateClass = IsCorrupt | IsPending | IsManifestOnly | IsRegistered

  function ClassOf(state: StoredState): StateClass {
    if state.removal.Some? && state.removal.value.phase == Prepared then
      if state.installed.Some? then IsCorrupt else IsPending
    else if state.installed.Some? then IsRegistered else IsManifestOnly
  }

  /** The generation whose bytes the state speaks of: the current one, or the one being removed. */
  function Selection(state: StoredState): Option<Installation> {
    if state.installed.Some? then state.installed
    else if state.removal.Some? && state.removal.value.phase == Prepared then Some(state.removal.value.selection)
    else None
  }

  predicate Canonical(installed: Installed) {
    installed.storageKey == ManagedStorageKey(installed.artifactDigest)
  }

  function FindEntry(entries: seq<StorageEntry>, name: string): Option<StorageEntry> {
    if entries == [] then None
    else if entries[0].name == Some(name) then Some(entries[0])
    else FindEntry(entries[1..], name)
  }

  /** The entry to hash for an installation, or the finding that makes hashing unnecessary. */
  function Examine(entries: seq<StorageEntry>, installed: Installed, limits: Limits): Result<StorageEntry, ByteFinding>
  {
    if !Canonical(installed) then Err(StateLayoutConflict)
    else
      var found := FindEntry(entries, installed.artifactDigest);
      if found.None? then Err(Missing)
      else
        var entry := found.value;
        if entry.indirect || !entry.regular then Err(UnsafeEntry)
        else if !entry.singleLink then Err(AliasedEntry)
        else if entry.size != installed.byteSize then Err(SizeConflict(entry.size))
        else if entry.size > limits.artifactBytes then Err(TooLargeToVerify(entry.size))
        else Ok(entry)
  }

  function Compare(entry: StorageEntry, digest: Digest): ByteFinding {
    if entry.observed == Some(digest) then Verified
    else DigestConflict(if entry.observed.Some? then entry.observed.value else "")
  }

  function FindingOf(state: StoredState, entries: seq<StorageEntry>, limits: Limits): ByteFinding
    requires Selection(state).Some?
  {
    var installed := Selection(state).value.installed;
    match Examine(entries, installed, limits)
    case Err(finding) => finding
    case Ok(entry) => Compare(entry, installed.artifactDigest)
  }

  /** The inspections of the states of one class, in order. */
  function Inspections(states: seq<StoredState>, kind: StateClass, entries: seq<StorageEntry>,
                       limits: Limits): seq<Inspection>
  {
    if states == [] then []
    else
      var front, last := Inspections(states[..|states| - 1], kind, entries, limits), states[|states| - 1];
      if ClassOf(last) != kind || Selection(last).None? then front
      else front + [Inspection(last, FindingOf(last, entries, limits))]
  }

  function ManifestsOnly(states: seq<StoredState>): seq<Manifest> {
    if states == [] then []
    else
      var front, last := ManifestsOnly(states[..|states| - 1]), states[|states| - 1];
      if ClassOf(last) == IsManifestOnly then front + [last.manifest] else front
  }

  /** The entry, if any, hashed on behalf of one state. */
  function PlanOf(state: StoredState, entries: seq<StorageEntry>, limits: Limits): seq<StorageEntry> {
    if Selection(state).None? then []
    else
      var entry := Examine(entries, Selection(state).value.installed, limits);
      if entry.Ok? then [entry.value] else []
  }

  /** The entries hashed on behalf of the states, in order. */
  function StatePlan(states: seq<StoredState>, entries: seq<StorageEntry>, limits: Limits): seq<StorageEntry> {
    if states == [] then []
    else StatePlan(states[..|states| - 1], entries, limits) + PlanOf(states[|states| - 1], entries, limits)
  }

  predicate Claims(state: StoredState, name: string) {
    && Selection(state).Some?
    && Canonical(Selection(state).value.installed)
    && Selection(state).value.installed.artifactDigest == name
  }

  /** Digests that a canonical installed or prepared generation owns. */
  predicate Claimed(states: seq<StoredState>, name: string) {
    exists i :: 0 <= i < |states| && Claims(states[i], name)
  }

  function Manifests(states: seq<StoredState>): map<string, Manifest> {
    if states == [] then map[]
    else
      var last := states[|states| - 1];
      Manifests(states[..|states| - 1])[last.manifest.artifactDigest := last.manifest]
  }

  function Associate(manifests: map<string, Manifest>, name: string, size: nat): Association {
    if name !in manifests then NoManifest
    else if manifests[name].byteSize == size then MatchingManifest(manifests[name])
    else ManifestSizeConflict(manifests[name])
  }

  // ---------------------------------------------------------------- storage entries

  datatype EntryClass =
    IsMalformed | IsClaimed | IsIndirect | IsNonRegular | IsEmpty | IsAliased | IsOversized | IsOrphan | IsConflict

  function EntryClassOf(entry: StorageEntry, states: seq<StoredState>, limits: Limits): EntryClass {
    if entry.name.None? || !IsDigest(entry.name.value) then IsMalformed
    else if Claimed(states, entry.name.value) then IsClaimed
    else if entry.indirect then IsIndirect
    else if !entry.regular then IsNonRegular
    else if entry.size == 0 then IsEmpty
    else if !entry.singleLink then IsAliased
    else if entry.size > limits.artifactBytes then IsOversized
    else if entry.observed == entry.name then IsOrphan
    else IsConflict
  }

  function EntriesIn(entries: seq<StorageEntry>, kind: EntryClass, states: seq<StoredState>,
                     limits: Limits): seq<StorageEntry>
  {
    if entries == [] then []
    else
      var front, last := EntriesIn(entries[..|entries| - 1], kind, states, limits), entries[|entries| - 1];
      if EntryClassOf(last, states, limits) == kind then front + [last] else front
  }

  function OrphanOf(entry: StorageEntry, states: seq<StoredState>): Orphan
    requires entry.name.Some?
  {
    Orphan(entry.name.value, entry.size, Associate(Manifests(states), entry.name.value, entry.size))
  }

  function Orphans(entries: seq<StorageEntry>, states: seq<StoredState>, limits: Limits): seq<Orphan> {
    if entries == [] then []
    else
      var front, last := Orphans(entries[..|entries| - 1], states, limits), entries[|entries| - 1];
      if EntryClassOf(last, states, limits) == IsOrphan then front + [OrphanOf(last, states)] else front
  }

  /** The entry itself when it is unclaimed and hashed. */
  function EntryPlanOf(entry: StorageEntry, states: seq<StoredState>, limits: Limits): seq<StorageEntry> {
    if EntryClassOf(entry, states, limits) in {IsOrphan, IsConflict} then [entry] else []
  }

  /** The unclaimed entries that are hashed, in order. */
  function EntryPlan(entries: seq<StorageEntry>, states: seq<StoredState>, limits: Limits): seq<StorageEntry> {
    if entries == [] then []
    else EntryPlan(entries[..|entries| - 1], states, limits) + EntryPlanOf(entries[|entries| - 1], states, limits)
  }

  function Plan(states: seq<StoredState>, entries: seq<StorageEntry>, limits: Limits): seq<StorageEntry> {
    StatePlan(states, entries, limits) + EntryPlan(entries, states, limits)
  }

  function Total(entries: seq<StorageEntry>): nat {
    if entries == [] then 0 else Total(entries[..|entries| - 1]) + entries[|entries| - 1].size
  }

  // ---------------------------------------------------------------- conservation

  function ManifestsOf(states: seq<StoredState>): seq<Manifest> {
    if states == [] then [] else ManifestsOf(states[..|states| - 1]) + [states[|states| - 1].manifest]
  }

  function InspectedManifests(inspections: seq<Inspection>): seq<Manifest> {
    if inspections == [] then []
    else InspectedManifests(inspections[..|inspections| - 1]) + [inspections[|inspections| - 1].state.manifest]
  }

  lemma InspectedSnoc(inspections: seq<Inspection>, last: Inspection)
    ensures InspectedManifests(inspections + [last]) == InspectedManifests(inspections) + [last.state.manifest]
  {
    assert (inspections + [last])[..|inspections|] == inspections;
  }

  /** One more state adds its manifest to exactly one of the three lists. */
  lemma StateIsConserved(front: seq<StoredState>, last: StoredState, entries: seq<StorageEntry>, limits: Limits)
    requires ClassOf(last) != IsCorrupt
    ensures var states, m := front + [last], multiset{last.manifest};
      var r0 := Inspections(front, IsRegistered, entries, limits);
      var r := Inspections(states, IsRegistered, entries, limits);
      var p0, p := Inspections(front, IsPending, entries, limits), Inspections(states, IsPending, entries, limits);
      var o0, o := ManifestsOnly(front), ManifestsOnly(states);
      && |r| + |p| + |o| == |r0| + |p0| + |o0| + 1
      && multiset(InspectedManifests(r)) + multiset(InspectedManifests(p)) + multiset(o)
         == multiset(InspectedManifests(r0)) + multiset(InspectedManifests(p0)) + multiset(o0) + m
  {
    hide FindingOf, InspectedManifests;
    assert (front + [last])[..|front|] == front;
    if Selection(last).Some? {
      var inspection := Inspection(last, FindingOf(last, entries, limits));
      InspectedSnoc(Inspections(front, ClassOf(last), entries, limits), inspection);
    }
  }

  /** Each state is reported once, under its own manifest: as registered, as pending removal, or as
      manifest only. */
  lemma {:induction false} StatesAreConserved(states: seq<StoredState>, entries: seq<StorageEntry>, limits: Limits)
    requires forall i :: 0 <= i < |states| ==> ClassOf(states[i]) != IsCorrupt
    ensures |Inspections(states, IsRegistered, entries, limits)|
          + |Inspections(states, IsPending, entries, limits)|
          + |ManifestsOnly(states)| == |states|
    ensures multiset(InspectedManifests(Inspections(states, IsRegistered, entries, limits)))
          + multiset(InspectedManifests(Inspections(states, IsPending, entries, limits)))
          + multiset(ManifestsOnly(states)) == multiset(ManifestsOf(states))
  {
    hide FindingOf, ClassOf;
    if states != [] {
      var front, last := states[..|states| - 1], states[|states| - 1];
      assert states == front + [last];
      StatesAreConserved(front, entries, limits);
      StateIsConserved(front, last, entries, limits);
      assert ManifestsOf(states) == ManifestsOf(front) + [last.manifest];
    }
  }

  /** The size of a class, as the report counts it. */
  function CountIn(entries: seq<StorageEntry>, kind: EntryClass, states: seq<StoredState>, limits: Limits): nat {
    |EntriesIn(entries, kind, states, limits)|
  }

  lemma {:induction false} EntriesAreConserved(entries: seq<StorageEntry>, states: seq<StoredState>, limits: Limits)
    ensures CountIn(entries, IsMalformed, states, limits) + CountIn(entries, IsClaimed, states, limits)
          + CountIn(entries, IsIndirect, states, limits) + CountIn(entries, IsNonRegular, states, limits)
          + CountIn(entries, IsEmpty, states, limits) + CountIn(entries, IsAliased, states, limits)
          + CountIn(entries, IsOversized, states, limits) + CountIn(entries, IsOrphan, states, limits)
          + CountIn(entries, IsConflict, states, limits) == |entries|
  {
    hide EntryClassOf;
    if entries != [] {
      EntriesAreConserved(entries[..|entries| - 1], states, limits);
    }
  }

  lemma {:induction false} OrphansAreCounted(entries: seq<StorageEntry>, states: seq<StoredState>, limits: Limits)
    ensures |Orphans(entries, states, limits)| == CountIn(entries, IsOrphan, states, limits)
  {
    hide EntryClassOf, OrphanOf;
    if entries != [] {
      OrphansAreCounted(entries[..|entries| - 1], states, limits);
    }
  }

  predicate Hashable(entry: StorageEntry, limits: Limits) {
    !entry.indirect && entry.regular && entry.singleLink && 0 < entry.size <= limits.artifactBytes
  }

  /** What each class holds, each line an independent reading: in particular an entry is claimed
      exactly when a canonical installed or prepared generation owns its name, and an orphan is
      exactly an unowned, hashable file whose name is the digest of its bytes. */
  lemma EntryTable(entry: StorageEntry, states: seq<StoredState>, limits: Limits)
    ensures var kind := EntryClassOf(entry, states, limits);
      var named := entry.name.Some? && IsDigest(entry.name.value);
      var owned := named && Claimed(states, entry.name.value);
      && (kind == IsMalformed <==> !named)
      && (kind == IsClaimed <==> owned)
      && (kind == IsOrphan <==> named && !owned && Hashable(entry, limits) && entry.observed == entry.name)
      && (kind == IsConflict <==> named && !owned && Hashable(entry, limits) && entry.observed != entry.name)
      && (kind == IsIndirect <==> named && !owned && entry.indirect)
      && (kind == IsNonRegular <==> named && !owned && !entry.indirect && !entry.regular)
      && (kind == IsEmpty <==> named && !owned && !entry.indirect && entry.regular && entry.size == 0)
      && (kind == IsAliased <==>
            named && !owned && !entry.indirect && entry.regular && entry.size > 0 && !entry.singleLink)
      && (kind == IsOversized <==>
            && named && !owned && !entry.indirect && entry.regular && entry.singleLink
            && entry.size > 0 && entry.size > limits.artifactBytes)
  {
    hide IsDigest, Claimed;
  }

  // ---------------------------------------------------------------- nothing is hashed twice

  ghost predicate DistinctNames(entries: seq<StorageEntry>) {
    forall i, j :: 0 <= i < j < |entries| ==> entries[i].name != entries[j].name
  }

  /** No two states speak of the same digest. */
  ghost predicate DistinctDigests(states: seq<StoredState>) {
    forall i, j :: 0 <= i < j < |states| && Selection(states[i]).Some? && Selection(states[j]).Some? ==>
      Selection(states[i]).value.installed.artifactDigest != Selection(states[j]).value.installed.artifactDigest
  }

  lemma {:induction false} FoundByName(entries: seq<StorageEntry>, name: string)
    ensures FindEntry(entries, name).Some? ==>
      FindEntry(entries, name).value.name == Some(name) && FindEntry(entries, name).value in entries
  {
    if entries != [] {
      FoundByName(entries[1..], name);
    }
  }

  /** A planned entry belongs to a state that claims its name. */
  lemma {:induction false} StatePlanIsClaimed(states: seq<StoredState>, entries: seq<StorageEntry>,
                                              limits: Limits, k: nat)
    requires k < |StatePlan(states, entries, limits)|
    ensures StatePlan(states, entries, limits)[k].name.Some?
    ensures Claimed(states, StatePlan(states, entries, limits)[k].name.value)
    decreases |states|
  {
    var front, last := states[..|states| - 1], states[|states| - 1];
    var plan := StatePlan(front, entries, limits);
    if k < |plan| {
      StatePlanIsClaimed(front, entries, limits, k);
      var i :| 0 <= i < |front| && Claims(front[i], plan[k].name.value);
      assert Claims(states[i], plan[k].name.value);
    } else {
      var installed := Selection(last).value.installed;
      FoundByName(entries, installed.artifactDigest);
      assert Claims(states[|states| - 1], installed.artifactDigest);
    }
  }

  lemma ClaimedOnce(states: seq<StoredState>, name: string)
    requires DistinctDigests(states) && states != [] && Claims(states[|states| - 1], name)
    ensures !Claimed(states[..|states| - 1], name)
  {
  }

  lemma {:induction false} StatePlanIsDistinct(states: seq<StoredState>, entries: seq<StorageEntry>, limits: Limits)
    requires DistinctDigests(states)
    ensures DistinctNames(StatePlan(states, entries, limits))
    decreases |states|
  {
    if states != [] {
      var front, last := states[..|states| - 1], states[|states| - 1];
      StatePlanIsDistinct(front, entries, limits);
      var plan := StatePlan(front, entries, limits);
      if |StatePlan(states, entries, limits)| > |plan| {
        var name := Selection(last).value.installed.artifactDigest;
        FoundByName(entries, name);
        ClaimedOnce(states, name);
        forall k | 0 <= k < |plan| ensures plan[k].name != Some(name) {
          StatePlanIsClaimed(front, entries, limits, k);
        }
      }
    }
  }

  lemma {:induction false} EntryPlanIsUnclaimed(entries: seq<StorageEntry>, states: seq<StoredState>,
                                                limits: Limits, k: nat)
    requires k < |EntryPlan(entries, states, limits)|
    ensures var entry := EntryPlan(entries, states, limits)[k];
      entry in entries && entry.name.Some? && !Claimed(states, entry.name.value)
    decreases |entries|
  {
    var front := entries[..|entries| - 1];
    if k < |EntryPlan(front, states, limits)| {
      EntryPlanIsUnclaimed(front, states, limits, k);
    }
  }

  lemma {:induction false} EntryPlanIsDistinct(entries: seq<StorageEntry>, states: seq<StoredState>, limits: Limits)
    requires DistinctNames(entries)
    ensures DistinctNames(EntryPlan(entries, states, limits))
    decreases |entries|
  {
    if entries != [] {
      var front := entries[..|entries| - 1];
      EntryPlanIsDistinct(front, states, limits);
      var plan := EntryPlan(front, states, limits);
      forall k | 0 <= k < |plan| ensures plan[k].name != entries[|entries| - 1].name {
        EntryPlanIsUnclaimed(front, states, limits, k);
        var i :| 0 <= i < |front| && front[i] == plan[k];
      }
    }
  }

  /** When digests and names are distinct, no entry is hashed twice in one inventory. */
  lemma NothingIsHashedTwice(states: seq<StoredState>, entries: seq<StorageEntry>, limits: Limits)
    requires DistinctDigests(states) && DistinctNames(entries)
    ensures DistinctNames(Plan(states, entries, limits))
  {
    StatePlanIsDistinct(states, entries, limits);
    EntryPlanIsDistinct(entries, states, limits);
    var a, b := StatePlan(states, entries, limits), EntryPlan(entries, states, limits);
    forall i, j | 0 <= i < |a| && 0 <= j < |b| ensures a[i].name != b[j].name {
      StatePlanIsClaimed(states, entries, limits, i);
      EntryPlanIsUnclaimed(entries, states, limits, j);
    }
  }

  lemma {:induction false} TotalOfSum(a: seq<StorageEntry>, b: seq<StorageEntry>)
    ensures Total(a + b) == Total(a) + Total(b)
    decreases |b|
  {
    if b == [] {
      assert a + b == a;
    } else {
      TotalOfSum(a, b[..|b| - 1]);
      assert (a + b)[..|a + b| - 1] == a + b[..|b| - 1];
    }
  }

  lemma TotalSnoc(a: seq<StorageEntry>, entry: StorageEntry)
    ensures Total(a + [entry]) == Total(a) + entry.size
  {
    assert (a + [entry])[..|a + [entry]| - 1] == a;
  }

  /** A longer plan hashes at least as many bytes. */
  lemma {:induction false} StatePlanGrows(states: seq<StoredState>, i: nat, entries: seq<StorageEntry>, limits: Limits)
    requires i <= |states|
    ensures StatePlan(states[..i], entries, limits) <= StatePlan(states, entries, limits)
    ensures Total(StatePlan(states[..i], entries, limits)) <= Total(StatePlan(states, entries, limits))
    decreases |states|
  {
    hide PlanOf;
    if i == |states| {
      assert states[..i] == states;
    } else {
      var front := states[..|states| - 1];
      assert front[..i] == states[..i];
      StatePlanGrows(front, i, entries, limits);
      TotalOfSum(StatePlan(front, entries, limits), PlanOf(states[|states| - 1], entries, limits));
    }
  }

  lemma {:induction false} EntryPlanGrows(entries: seq<StorageEntry>, i: nat, states: seq<StoredState>, limits: Limits)
    requires i <= |entries|
    ensures EntryPlan(entries[..i], states, limits) <= EntryPlan(entries, states, limits)
    ensures Total(EntryPlan(entries[..i], states, limits)) <= Total(EntryPlan(entries, states, limits))
    decreases |entries|
  {
    hide EntryPlanOf;
    if i == |entries| {
      assert entries[..i] == entries;
    } else {
      var front := entries[..|entries| - 1];
      assert front[..i] == entries[..i];
      EntryPlanGrows(front, i, states, limits);
      TotalOfSum(EntryPlan(front, states, limits), EntryPlanOf(entries[|entries| - 1], states, limits));
    }
  }

  // ---------------------------------------------------------------- what is counted about entries

  /** The vectors and counters that unclaimed entries end in. */
  datatype Tally = Tally(
    orphans: seq<Orphan>, conflicts: seq<StorageEntry>, oversized: seq<StorageEntry>,
    malformed: nat, indirect: nat, nonRegular: nat, empty: nat, aliased: nat, completed: nat)

  const NO_ENTRIES := Tally([], [], [], 0, 0, 0, 0, 0, 0)

  function Count(tally: Tally, entry: StorageEntry, states: seq<StoredState>, limits: Limits): Tally {
    var done := tally.(completed := tally.completed + 1);
    match EntryClassOf(entry, states, limits)
    case IsMalformed => done.(malformed := tally.malformed + 1)
    case IsClaimed => tally
    case IsIndirect => done.(indirect := tally.indirect + 1)
    case IsNonRegular => done.(nonRegular := tally.nonRegular + 1)
    case IsEmpty => done.(empty := tally.empty + 1)
    case IsAliased => done.(aliased := tally.aliased + 1)
    case IsOversized => done.(oversized := tally.oversized + [entry])
    case IsOrphan => done.(orphans := tally.orphans + [OrphanOf(entry, states)])
    case IsConflict => done.(conflicts := tally.conflicts + [entry])
  }

  function TallyOf(entries: seq<StorageEntry>, states: seq<StoredState>, limits: Limits): Tally {
    if entries == [] then NO_ENTRIES
    else Count(TallyOf(entries[..|entries| - 1], states, limits), entries[|entries| - 1], states, limits)
  }

  ghost predicate VectorsAre(tally: Tally, entries: seq<StorageEntry>, states: seq<StoredState>, limits: Limits) {
    && tally.orphans == Orphans(entries, states, limits)
    && tally.conflicts == EntriesIn(entries, IsConflict, states, limits)
    && tally.oversized == EntriesIn(entries, IsOversized, states, limits)
  }

  ghost predicate CountersAre(tally: Tally, entries: seq<StorageEntry>, states: seq<StoredState>, limits: Limits) {
    && tally.malformed == |EntriesIn(entries, IsMalformed, states, limits)|
    && tally.indirect == |EntriesIn(entries, IsIndirect, states, limits)|
    && tally.nonRegular == |EntriesIn(entries, IsNonRegular, states, limits)|
    && tally.empty == |EntriesIn(entries, IsEmpty, states, limits)|
    && tally.aliased == |EntriesIn(entries, IsAliased, states, limits)|
    && tally.completed + |EntriesIn(entries, IsClaimed, states, limits)| == |entries|
  }

  /** Each vector and counter holds exactly its class, and all but the claimed entries complete. */
  ghost predicate TallyIs(tally: Tally, entries: seq<StorageEntry>, states: seq<StoredState>, limits: Limits) {
    VectorsAre(tally, entries, states, limits) && CountersAre(tally, entries, states, limits)
  }

  lemma {:induction false} VectorsAreExact(entries: seq<StorageEntry>, states: seq<StoredState>, limits: Limits)
    ensures VectorsAre(TallyOf(entries, states, limits), entries, states, limits)
  {
    hide EntryClassOf, OrphanOf;
    if entries != [] {
      VectorsAreExact(entries[..|entries| - 1], states, limits);
    }
  }

  lemma {:induction false} CountersAreExact(entries: seq<StorageEntry>, states: seq<StoredState>, limits: Limits)
    ensures CountersAre(TallyOf(entries, states, limits), entries, states, limits)
  {
    hide EntryClassOf, OrphanOf;
    if entries != [] {
      CountersAreExact(entries[..|entries| - 1], states, limits);
    }
  }

  lemma TallyIsExact(entries: seq<StorageEntry>, states: seq<StoredState>, limits: Limits)
    ensures TallyIs(TallyOf(entries, states, limits), entries, states, limits)
  {
    VectorsAreExact(entries, states, limits);
    CountersAreExact(entries, states, limits);
  }

  function ClaimedSet(states: seq<StoredState>): set<string> {
    if states == [] then {}
    else
      var front, selection := ClaimedSet(states[..|states| - 1]), Selection(states[|states| - 1]);
      if selection.Some? && Canonical(selection.value.installed) then
        front + {selection.value.installed.artifactDigest}
      else
        front
  }

  lemma {:induction false} ClaimedSetIsClaimed(states: seq<StoredState>, name: string)
    ensures name in ClaimedSet(states) <==> Claimed(states, name)
  {
    if states != [] {
      var front, last := states[..|states| - 1], states[|states| - 1];
      ClaimedSetIsClaimed(front, name);
      if Claimed(front, name) {
        var i :| 0 <= i < |front| && Claims(front[i], name);
        assert Claims(states[i], name);
      }
      if Claimed(states, name) {
        var i :| 0 <= i < |states| && Claims(states[i], name);
        assert i < |front| ==> Claims(front[i], name);
      }
      if Claims(last, name) {
        assert Claims(states[|states| - 1], name);
      }
    }
  }

  // ---------------------------------------------------------------- the report by tables

  predicate Preparing(state: StoredState) {
    state.removal.Some? && state.removal.value.phase == Prepared
  }

  /** Which states belong where. */
  predicate InState(state: StoredState, kind: StateClass) {
    match kind
    case IsCorrupt => state.installed.Some? && Preparing(state)
    case IsPending => state.installed.None? && Preparing(state)
    case IsManifestOnly => state.installed.None? && !Preparing(state)
    case IsRegistered => state.installed.Some? && !Preparing(state)
  }

  lemma StateTable(state: StoredState, kind: StateClass)
    ensures ClassOf(state) == kind <==> InState(state, kind)
  {
  }

  /** The entry is the first one of that name. */
  ghost predicate FirstNamed(entries: seq<StorageEntry>, name: string, i: nat) {
    i < |entries| && entries[i].name == Some(name) && forall j :: 0 <= j < i ==> entries[j].name != Some(name)
  }

  /** Each finding about the entry of an installation by its exact condition. */
  ghost predicate EntryFinding(entry: StorageEntry, installed: Installed, limits: Limits, finding: ByteFinding) {
    var direct := !entry.indirect && entry.regular;
    var exact := direct && entry.singleLink && entry.size == installed.byteSize;
    && (finding == UnsafeEntry <==> entry.indirect || !entry.regular)
    && (finding == AliasedEntry <==> direct && !entry.singleLink)
    && (forall n: nat :: finding == SizeConflict(n) <==>
          direct && entry.singleLink && n == entry.size && n != installed.byteSize)
    && (forall n: nat :: finding == TooLargeToVerify(n) <==> exact && n == entry.size && n > limits.artifactBytes)
    && (finding == Verified <==>
          exact && entry.size <= limits.artifactBytes && entry.observed == Some(installed.artifactDigest))
    && (forall digest :: finding == DigestConflict(digest) <==>
          && exact && entry.size <= limits.artifactBytes && entry.observed == Some(digest)
          && digest != installed.artifactDigest)
  }

  /** The finding about an installation: its key is not canonical, nothing has its name, or what the
      first entry of its name shows. */
  ghost predicate FindingIs(entries: seq<StorageEntry>, installed: Installed, limits: Limits, finding: ByteFinding) {
    var canonical := installed.storageKey == "artifacts/" + installed.artifactDigest;
    && (finding == StateLayoutConflict <==> !canonical)
    && (finding == Missing <==>
          canonical && forall i :: 0 <= i < |entries| ==> entries[i].name != Some(installed.artifactDigest))
    && (finding != StateLayoutConflict && finding != Missing ==>
          exists i: nat :: FirstNamed(entries, installed.artifactDigest, i)
                      && EntryFinding(entries[i], installed, limits, finding))
  }

  /** The same for a state: its current generation, or else the one being removed. */
  ghost predicate FindingFits(state: StoredState, entries: seq<StorageEntry>, limits: Limits, finding: ByteFinding) {
    && (state.installed.Some? ==> FindingIs(entries, state.installed.value.installed, limits, finding))
    && (state.installed.None? && Preparing(state) ==>
          FindingIs(entries, state.removal.value.selection.installed, limits, finding))
  }

  lemma {:induction false} FindsFirst(entries: seq<StorageEntry>, name: string) returns (i: nat)
    ensures FindEntry(entries, name).None? <==> forall j :: 0 <= j < |entries| ==> entries[j].name != Some(name)
    ensures FindEntry(entries, name).Some? ==>
              FirstNamed(entries, name, i) && entries[i] == FindEntry(entries, name).value
  {
    i := 0;
    if entries != [] && entries[0].name != Some(name) {
      var k := FindsFirst(entries[1..], name);
      assert forall j :: 0 < j < |entries| ==> entries[j] == entries[1..][j - 1];
      i := k + 1;
    }
  }

  lemma ExaminedEntry(entry: StorageEntry, installed: Installed, limits: Limits)
    ensures var exact := !entry.indirect && entry.regular && entry.singleLink && entry.size == installed.byteSize;
            && (exact && entry.size <= limits.artifactBytes && entry.observed.Some? ==>
                  EntryFinding(entry, installed, limits, Compare(entry, installed.artifactDigest)))
            && (entry.indirect || !entry.regular ==> EntryFinding(entry, installed, limits, UnsafeEntry))
            && (!entry.indirect && entry.regular && !entry.singleLink ==>
                  EntryFinding(entry, installed, limits, AliasedEntry))
            && (!entry.indirect && entry.regular && entry.singleLink && entry.size != installed.byteSize ==>
                  EntryFinding(entry, installed, limits, SizeConflict(entry.size)))
            && (exact && entry.size > limits.artifactBytes ==>
                  EntryFinding(entry, installed, limits, TooLargeToVerify(entry.size)))
  {
  }

  /** Verified means verified: every finding is reported exactly when its condition holds. */
  lemma FindingTable(state: StoredState, entries: seq<StorageEntry>, limits: Limits)
    requires Selection(state).Some? && Readable(PlanOf(state, entries, limits))
    ensures FindingFits(state, entries, limits, FindingOf(state, entries, limits))
  {
    var installed := Selection(state).value.installed;
    var i := FindsFirst(entries, installed.artifactDigest);
    hide EntryFinding, FindEntry;
    if Canonical(installed) && FindEntry(entries, installed.artifactDigest).Some? {
      ExaminedEntry(entries[i], installed, limits);
      assert FirstNamed(entries, installed.artifactDigest, i);
    }
  }

  /** Increasing places of exactly the states of one class. */
  ghost predicate StatePlaces(places: seq<nat>, states: seq<StoredState>, kind: StateClass) {
    && (forall j, k :: 0 <= j < k < |places| ==> places[j] < places[k])
    && (forall i: nat :: i in places <==> i < |states| && InState(states[i], kind))
  }

  function StatePlacesOf(states: seq<StoredState>, kind: StateClass): seq<nat> {
    if states == [] then []
    else
      var n := |states| - 1;
      StatePlacesOf(states[..n], kind) + if InState(states[n], kind) then [n] else []
  }

  /** Appending a larger place keeps places increasing. */
  lemma PlacesBelow(places: seq<nat>, n: nat)
    requires forall j, k :: 0 <= j < k < |places| ==> places[j] < places[k]
    requires forall i: nat :: i in places ==> i < n
    ensures forall j, k :: 0 <= j < k < |places + [n]| ==> (places + [n])[j] < (places + [n])[k]
    ensures forall i: nat :: i in places + [n] <==> i in places || i == n
  {
    forall k | 0 <= k < |places| ensures places[k] < n {
      assert places[k] in places;
    }
  }

  lemma {:induction false} StatesArePlaced(states: seq<StoredState>, kind: StateClass)
    ensures StatePlaces(StatePlacesOf(states, kind), states, kind)
  {
    hide InState;
    if states != [] {
      var n := |states| - 1;
      StatesArePlaced(states[..n], kind);
      var front := StatePlacesOf(states[..n], kind);
      PlacesBelow(front, n);
      forall i: nat ensures i in front <==> i < n && InState(states[i], kind) {
        if i < n { assert states[..n][i] == states[i]; }
      }
    }
  }

  /** These inspections are of the states at these places, with the findings they deserve. */
  ghost predicate InspectsAt(inspections: seq<Inspection>, places: seq<nat>, states: seq<StoredState>,
                             entries: seq<StorageEntry>, limits: Limits)
  {
    && |inspections| == |places|
    && forall k :: 0 <= k < |places| ==>
         && places[k] < |states| && inspections[k].state == states[places[k]]
         && FindingFits(inspections[k].state, entries, limits, inspections[k].finding)
  }

  lemma {:induction false} InspectionsAreExact(states: seq<StoredState>, kind: StateClass,
                                               entries: seq<StorageEntry>, limits: Limits)
    requires kind == IsRegistered || kind == IsPending
    requires Readable(StatePlan(states, entries, limits))
    ensures InspectsAt(Inspections(states, kind, entries, limits), StatePlacesOf(states, kind), states, entries, limits)
  {
    hide FindingFits, FindingOf;
    if states != [] {
      var n := |states| - 1;
      var front, last := states[..n], states[n];
      forall e | e in StatePlan(front, entries, limits) + PlanOf(last, entries, limits) ensures e.observed.Some? {
      }
      InspectionsAreExact(front, kind, entries, limits);
      StateTable(last, kind);
      if ClassOf(last) == kind {
        FindingTable(last, entries, limits);
      }
    }
  }

  ghost predicate ManifestsAt(manifests: seq<Manifest>, places: seq<nat>, states: seq<StoredState>) {
    && |manifests| == |places|
    && forall k :: 0 <= k < |places| ==> places[k] < |states| && manifests[k] == states[places[k]].manifest
  }

  lemma {:induction false} ManifestsAreExact(states: seq<StoredState>)
    ensures ManifestsAt(ManifestsOnly(states), StatePlacesOf(states, IsManifestOnly), states)
  {
    if states != [] {
      ManifestsAreExact(states[..|states| - 1]);
    }
  }

  /** A canonical current generation has this digest, or a pending removal of one does. */
  predicate Owns(state: StoredState, name: string) {
    || (&& state.installed.Some? && state.installed.value.installed.artifactDigest == name
        && state.installed.value.installed.storageKey == "artifacts/" + name)
    || (&& state.installed.None? && Preparing(state)
        && state.removal.value.selection.installed.artifactDigest == name
        && state.removal.value.selection.installed.storageKey == "artifacts/" + name)
  }

  /** Which entries belong where. */
  ghost predicate InClass(entry: StorageEntry, states: seq<StoredState>, limits: Limits, kind: EntryClass) {
    var named := entry.name.Some? && IsDigest(entry.name.value);
    var free := named && forall i :: 0 <= i < |states| ==> !Owns(states[i], entry.name.value);
    var plain := free && !entry.indirect && entry.regular && entry.size > 0;
    match kind
    case IsMalformed => !named
    case IsClaimed => named && !free
    case IsIndirect => free && entry.indirect
    case IsNonRegular => free && !entry.indirect && !entry.regular
    case IsEmpty => free && !entry.indirect && entry.regular && entry.size == 0
    case IsAliased => plain && !entry.singleLink
    case IsOversized => plain && entry.singleLink && entry.size > limits.artifactBytes
    case IsOrphan => plain && entry.singleLink && entry.size <= limits.artifactBytes && entry.observed == entry.name
    case IsConflict => plain && entry.singleLink && entry.size <= limits.artifactBytes && entry.observed != entry.name
  }

  lemma ClaimedExactly(states: seq<StoredState>, name: string)
    ensures Claimed(states, name) <==> exists i :: 0 <= i < |states| && Owns(states[i], name)
  {
    assert forall i :: 0 <= i < |states| ==> (Claims(states[i], name) <==> Owns(states[i], name));
  }

  lemma ClassTable(entry: StorageEntry, states: seq<StoredState>, limits: Limits, kind: EntryClass)
    ensures EntryClassOf(entry, states, limits) == kind <==> InClass(entry, states, limits, kind)
  {
    if entry.name.Some? { ClaimedExactly(states, entry.name.value); }
    hide IsDigest, Claimed, Owns;
    EntryTable(entry, states, limits);
  }

  ghost predicate Places(places: seq<nat>, entries: seq<StorageEntry>, states: seq<StoredState>, limits: Limits,
                         kind: EntryClass)
  {
    && (forall j, k :: 0 <= j < k < |places| ==> places[j] < places[k])
    && (forall i: nat :: i in places <==> i < |entries| && InClass(entries[i], states, limits, kind))
  }

  function PlacesOf(entries: seq<StorageEntry>, states: seq<StoredState>, limits: Limits, kind: EntryClass): seq<nat> {
    if entries == [] then []
    else
      var n := |entries| - 1;
      PlacesOf(entries[..n], states, limits, kind)
      + if EntryClassOf(entries[n], states, limits) == kind then [n] else []
  }

  lemma {:induction false} EntriesArePlaced(entries: seq<StorageEntry>, states: seq<StoredState>, limits: Limits,
                                            kind: EntryClass)
    ensures Places(PlacesOf(entries, states, limits, kind), entries, states, limits, kind)
  {
    hide InClass, EntryClassOf;
    if entries != [] {
      var n := |entries| - 1;
      EntriesArePlaced(entries[..n], states, limits, kind);
      ClassTable(entries[n], states, limits, kind);
      var front := PlacesOf(entries[..n], states, limits, kind);
      PlacesBelow(front, n);
      forall i: nat ensures i in front <==> i < n && InClass(entries[i], states, limits, kind) {
        if i < n { assert entries[..n][i] == entries[i]; }
      }
    }
  }

  ghost predicate EntriesAt(picked: seq<StorageEntry>, places: seq<nat>, entries: seq<StorageEntry>) {
    && |picked| == |places|
    && forall k :: 0 <= k < |places| ==> places[k] < |entries| && picked[k] == entries[places[k]]
  }

  lemma {:induction false} EntriesAreExact(entries: seq<StorageEntry>, states: seq<StoredState>, limits: Limits,
                                           kind: EntryClass)
    ensures EntriesAt(EntriesIn(entries, kind, states, limits), PlacesOf(entries, states, limits, kind), entries)
  {
    hide EntryClassOf;
    if entries != [] {
      EntriesAreExact(entries[..|entries| - 1], states, limits, kind);
    }
  }

  /** The manifest of a digest is the last one that names it. */
  ghost predicate LastNaming(states: seq<StoredState>, name: string, i: nat) {
    && i < |states| && states[i].manifest.artifactDigest == name
    && forall j :: i < j < |states| ==> states[j].manifest.artifactDigest != name
  }

  ghost predicate AssociationIs(association: Association, states: seq<StoredState>, name: string, size: nat) {
    && (association == NoManifest <==>
          forall i :: 0 <= i < |states| ==> states[i].manifest.artifactDigest != name)
    && (forall m :: association == MatchingManifest(m) ==> NamedBy(states, name, m) && m.byteSize == size)
    && (forall m :: association == ManifestSizeConflict(m) ==> NamedBy(states, name, m) && m.byteSize != size)
  }

  ghost predicate NamedBy(states: seq<StoredState>, name: string, manifest: Manifest) {
    exists i: nat :: LastNaming(states, name, i) && states[i].manifest == manifest
  }

  ghost predicate Naming(states: seq<StoredState>, name: string) {
    exists i :: 0 <= i < |states| && states[i].manifest.artifactDigest == name
  }

  lemma NamingGrows(states: seq<StoredState>, name: string)
    requires states != []
    ensures var n := |states| - 1;
            if states[n].manifest.artifactDigest == name then
              Naming(states, name) && NamedBy(states, name, states[n].manifest)
            else
              && (Naming(states, name) <==> Naming(states[..n], name))
              && forall m :: NamedBy(states[..n], name, m) ==> NamedBy(states, name, m)
  {
    var n := |states| - 1;
    var front := states[..n];
    if states[n].manifest.artifactDigest == name {
      assert LastNaming(states, name, n);
    } else {
      if i :| 0 <= i < |front| && front[i].manifest.artifactDigest == name {
        assert states[i].manifest.artifactDigest == name;
      }
      forall m | NamedBy(front, name, m) ensures NamedBy(states, name, m) {
        var i: nat :| LastNaming(front, name, i) && front[i].manifest == m;
        assert LastNaming(states, name, i);
      }
    }
  }

  lemma {:induction false} ManifestsByName(states: seq<StoredState>, name: string)
    ensures name in Manifests(states) <==> Naming(states, name)
    ensures name in Manifests(states) ==> NamedBy(states, name, Manifests(states)[name])
  {
    if states != [] {
      var n := |states| - 1;
      var front := states[..n];
      ManifestsByName(front, name);
      NamingGrows(states, name);
    }
  }

  ghost predicate OrphansAt(orphans: seq<Orphan>, places: seq<nat>, entries: seq<StorageEntry>,
                            states: seq<StoredState>)
  {
    && |orphans| == |places|
    && forall k :: 0 <= k < |places| ==>
         && places[k] < |entries| && entries[places[k]].name == Some(orphans[k].digest)
         && orphans[k].size == entries[places[k]].size
         && AssociationIs(orphans[k].association, states, orphans[k].digest, orphans[k].size)
  }

  lemma AssociationTable(states: seq<StoredState>, name: string, size: nat)
    ensures AssociationIs(Associate(Manifests(states), name, size), states, name, size)
  {
    ManifestsByName(states, name);
  }

  lemma {:induction false} OrphansAreExact(entries: seq<StorageEntry>, states: seq<StoredState>, limits: Limits)
    ensures OrphansAt(Orphans(entries, states, limits), PlacesOf(entries, states, limits, IsOrphan), entries, states)
  {
    hide AssociationIs, Associate;
    if entries != [] {
      var n := |entries| - 1;
      OrphansAreExact(entries[..n], states, limits);
      if entries[n].name.Some? {
        AssociationTable(states, entries[n].name.value, entries[n].size);
      }
    }
  }

  // ---------------------------------------------------------------- bytes add up

  /** The bytes hashed for these inspections: those of the installations whose bytes were compared. */
  function ComparedBytes(inspections: seq<Inspection>): nat {
    if inspections == [] then 0
    else
      var last := inspections[|inspections| - 1];
      ComparedBytes(inspections[..|inspections| - 1])
      + if last.finding.Verified? || last.finding.DigestConflict? then InstalledBytes(last.state) else 0
  }

  function InstalledBytes(state: StoredState): nat {
    if state.installed.Some? then state.installed.value.installed.byteSize
    else if state.removal.Some? then state.removal.value.selection.installed.byteSize
    else 0
  }

  function OrphanBytes(orphans: seq<Orphan>): nat {
    if orphans == [] then 0 else OrphanBytes(orphans[..|orphans| - 1]) + orphans[|orphans| - 1].size
  }

  lemma TotalOfOne(entry: StorageEntry)
    ensures Total([entry]) == entry.size
  {
    TotalSnoc([], entry);
    assert [] + [entry] == [entry];
  }

  /** Only an entry of the installed size is hashed, and no other finding compares digests. */
  lemma ExaminedSize(entries: seq<StorageEntry>, installed: Installed, limits: Limits)
    ensures var examined := Examine(entries, installed, limits);
            if examined.Ok? then examined.value.size == installed.byteSize
            else !examined.error.Verified? && !examined.error.DigestConflict?
  {
    hide FindEntry, Canonical;
  }

  lemma PlannedBytes(state: StoredState, entries: seq<StorageEntry>, limits: Limits)
    requires Selection(state).Some?
    ensures var finding := FindingOf(state, entries, limits);
            Total(PlanOf(state, entries, limits))
              == if finding.Verified? || finding.DigestConflict? then InstalledBytes(state) else 0
  {
    var installed := Selection(state).value.installed;
    var examined := Examine(entries, installed, limits);
    ExaminedSize(entries, installed, limits);
    hide Examine;
    if examined.Ok? { TotalOfOne(examined.value); }
  }

  lemma ComparedSnoc(inspections: seq<Inspection>, last: Inspection)
    ensures ComparedBytes(inspections + [last])
         == ComparedBytes(inspections)
            + if last.finding.Verified? || last.finding.DigestConflict? then InstalledBytes(last.state) else 0
  {
    assert (inspections + [last])[..|inspections|] == inspections;
  }

  lemma {:induction false} StateBytesAddUp(states: seq<StoredState>, entries: seq<StorageEntry>, limits: Limits)
    requires Sound(states)
    ensures Total(StatePlan(states, entries, limits))
         == ComparedBytes(Inspections(states, IsRegistered, entries, limits))
            + ComparedBytes(Inspections(states, IsPending, entries, limits))
  {
    hide FindingOf, PlanOf, InstalledBytes;
    if states != [] {
      var n := |states| - 1;
      var front, last := states[..n], states[n];
      StateBytesAddUp(front, entries, limits);
      TotalOfSum(StatePlan(front, entries, limits), PlanOf(last, entries, limits));
      NoPlanWithoutSelection(last, entries, limits);
      if Selection(last).Some? {
        PlannedBytes(last, entries, limits);
        ComparedSnoc(Inspections(front, ClassOf(last), entries, limits),
                     Inspection(last, FindingOf(last, entries, limits)));
      }
    }
  }

  lemma OrphanSnoc(orphans: seq<Orphan>, last: Orphan)
    ensures OrphanBytes(orphans + [last]) == OrphanBytes(orphans) + last.size
  {
    assert (orphans + [last])[..|orphans|] == orphans;
  }

  lemma OrphansAreNamed(entry: StorageEntry, states: seq<StoredState>, limits: Limits)
    ensures EntryClassOf(entry, states, limits) == IsOrphan ==> entry.name.Some?
  {
  }

  lemma {:induction false} EntryBytesAddUp(entries: seq<StorageEntry>, states: seq<StoredState>, limits: Limits)
    ensures Total(EntryPlan(entries, states, limits))
         == OrphanBytes(Orphans(entries, states, limits)) + Total(EntriesIn(entries, IsConflict, states, limits))
  {
    hide EntryClassOf, Associate;
    if entries != [] {
      var n := |entries| - 1;
      var front, last := entries[..n], entries[n];
      EntryBytesAddUp(front, states, limits);
      var plan, orphans := EntryPlan(front, states, limits), Orphans(front, states, limits);
      TotalOfSum(plan, EntryPlanOf(last, states, limits));
      TotalOfOne(last);
      TotalSnoc(EntriesIn(front, IsConflict, states, limits), last);
      OrphansAreNamed(last, states, limits);
      if EntryClassOf(last, states, limits) == IsOrphan { OrphanSnoc(orphans, OrphanOf(last, states)); }
    }
  }

  // ---------------------------------------------------------------- the builder

  ghost predicate Readable(plan: seq<StorageEntry>) {
    forall e :: e in plan ==> e.observed.Some?
  }

  /** The error is one that hashing the plan runs into. */
  ghost predicate Refuses(error: InventoryError, plan: seq<StorageEntry>, limits: Limits) {
    || (error == TotalVerificationLimitExceeded && Total(plan) > limits.totalBytes)
    || (error == ReadFailed && !Readable(plan))
  }

  ghost predicate Sound(states: seq<StoredState>) {
    forall i :: 0 <= i < |states| ==> ClassOf(states[i]) != IsCorrupt
  }

  /** Running into an error part of the way is running into it on the whole. */
  lemma RefusalSpreads(error: InventoryError, part: seq<StorageEntry>, plan: seq<StorageEntry>, limits: Limits)
    requires Refuses(error, part, limits) && part <= plan
    ensures Refuses(error, plan, limits)
  {
    assert plan == part + plan[|part|..];
    TotalOfSum(part, plan[|part|..]);
  }

  class InventoryBuilder {
    const states: seq<StoredState>
    const entries: seq<StorageEntry>
    const limits: Limits
    const manifests: map<string, Manifest>
    const claimed: set<string>
    const cancelledFrom: nat
    var polls: nat
    var registered: seq<Inspection>
    var pendingRemovals: seq<Inspection>
    var manifestOnly: seq<Manifest>
    var tally: Tally
    var verifiedBytes: nat
    ghost var hashed: seq<StorageEntry>

    ghost predicate Valid()
      reads this
    {
      && manifests == Manifests(states)
      && claimed == ClaimedSet(states)
      && verifiedBytes == Total(hashed) <= limits.totalBytes
    }

    constructor (states: seq<StoredState>, entries: seq<StorageEntry>, limits: Limits, cancelledFrom: nat, polls: nat)
      ensures Valid() && this.states == states && this.entries == entries && this.limits == limits
      ensures this.cancelledFrom == cancelledFrom && this.polls == polls
      ensures registered == [] && pendingRemovals == [] && manifestOnly == [] && tally == NO_ENTRIES && hashed == []
    {
      this.states, this.entries, this.limits := states, entries, limits;
      this.cancelledFrom, this.polls := cancelledFrom, polls;
      manifests, claimed := Manifests(states), ClaimedSet(states);
      registered, pendingRemovals, manifestOnly, tally := [], [], [], NO_ENTRIES;
      verifiedBytes, hashed := 0, [];
    }

    /** Asks the cancellation token, which reports cancellation from a certain poll on. */
    method Poll() returns (cancelled: bool)
      modifies this`polls
      ensures polls == old(polls) + 1 && cancelled == (old(polls) >= cancelledFrom)
    {
      cancelled := polls >= cancelledFrom;
      polls := polls + 1;
    }

    /** The token was asked now and then, and the call was cancelled exactly when it said so. */
    ghost predicate Polled(before: nat, cancelled: bool)
      reads this
    {
      before <= polls && (cancelled <==> cancelledFrom < polls)
    }

    /** Hashes one entry within the budget, or leaves everything as it was. */
    method HashEntry(entry: StorageEntry) returns (r: Result<Digest, InventoryError>)
      requires Valid() && polls <= cancelledFrom
      modifies this`polls, this`verifiedBytes, this`hashed
      ensures Valid() && Polled(old(polls), r.Err? && r.error == Cancelled)
      ensures r.Ok? ==> hashed == old(hashed) + [entry] && entry.observed == Some(r.value)
      ensures r.Err? ==> hashed == old(hashed)
      ensures r == Err(TotalVerificationLimitExceeded) <==> Total(old(hashed) + [entry]) > limits.totalBytes
      ensures r.Err? && r.error != TotalVerificationLimitExceeded && r.error != Cancelled ==>
        r.error == ReadFailed && entry.observed.None?
    {
      TotalSnoc(hashed, entry);
      var next := verifiedBytes + entry.size;
      if next > limits.totalBytes {
        return Err(TotalVerificationLimitExceeded);
      }
      var cancelled := Poll();
      if cancelled {
        return Err(Cancelled);
      }
      if entry.observed.None? {
        return Err(ReadFailed);
      }
      verifiedBytes := next;
      hashed := hashed + [entry];
      return Ok(entry.observed.value);
    }

    method ClassifyRegistered(state: StoredState) returns (r: Result<ByteFinding, InventoryError>)
      requires Valid() && polls <= cancelledFrom && Selection(state).Some?
      modifies this`polls, this`verifiedBytes, this`hashed
      ensures Valid() && Polled(old(polls), r.Err? && r.error == Cancelled)
      ensures r.Ok? ==>
        && hashed == old(hashed) + PlanOf(state, entries, limits)
        && r.value == FindingOf(state, entries, limits)
        && Readable(PlanOf(state, entries, limits))
        && FindingFits(state, entries, limits, r.value)
      ensures r.Err? && r.error != Cancelled ==> Refuses(r.error, old(hashed) + PlanOf(state, entries, limits), limits)
    {
      hide FindingFits;
      var installed := Selection(state).value.installed;
      var examined := Examine(entries, installed, limits);
      if examined.Err? {
        assert hashed + [] == hashed;
        FindingTable(state, entries, limits);
        return Ok(examined.error);
      }
      assert examined.value in hashed + PlanOf(state, entries, limits);
      var observed := HashEntry(examined.value);
      if observed.Err? {
        return Err(observed.error);
      }
      FindingTable(state, entries, limits);
      return Ok(if observed.value == installed.artifactDigest then Verified else DigestConflict(observed.value));
    }

    /** What the states' half of the report holds after the first `i` states. */
    ghost predicate InspectedStates(i: nat)
      requires i <= |states|
      reads this
    {
      && registered == Inspections(states[..i], IsRegistered, entries, limits)
      && pendingRemovals == Inspections(states[..i], IsPending, entries, limits)
      && manifestOnly == ManifestsOnly(states[..i])
      && hashed == StatePlan(states[..i], entries, limits)
      && Sound(states[..i])
      && Readable(hashed)
    }

    method InspectState(i: nat) returns (r: Result<(), InventoryError>)
      requires Valid() && polls <= cancelledFrom && i < |states| && InspectedStates(i)
      modifies this`polls, this`registered, this`pendingRemovals, this`manifestOnly, this`verifiedBytes, this`hashed
      ensures Valid() && Polled(old(polls), r.Err? && r.error == Cancelled)
      ensures r.Ok? ==> InspectedStates(i + 1)
      ensures r.Err? && r.error != Cancelled ==>
        || (r.error == CorruptRecord && ClassOf(states[i]) == IsCorrupt)
        || Refuses(r.error, StatePlan(states[..i + 1], entries, limits), limits)
    {
      hide FindingOf, Refuses, PlanOf, FindingFits;
      var state := states[i];
      assert states[..i + 1][..i] == states[..i];
      NoPlanWithoutSelection(state, entries, limits);
      var cancelled := Poll();
      if cancelled {
        return Err(Cancelled);
      }
      if state.removal.Some? && state.removal.value.phase == Prepared {
        if state.installed.Some? {
          return Err(CorruptRecord);
        }
        var finding := ClassifyRegistered(state);
        if finding.Err? {
          return Err(finding.error);
        }
        pendingRemovals := pendingRemovals + [Inspection(state, finding.value)];
      } else if state.installed.None? {
        manifestOnly := manifestOnly + [state.manifest];
      } else {
        var finding := ClassifyRegistered(state);
        if finding.Err? {
          return Err(finding.error);
        }
        registered := registered + [Inspection(state, finding.value)];
      }
      return Ok(());
    }

    method InspectRegistered() returns (r: Result<(), InventoryError>)
      requires Valid() && polls <= cancelledFrom && InspectedStates(0)
      modifies this`polls, this`registered, this`pendingRemovals, this`manifestOnly, this`verifiedBytes, this`hashed
      ensures Valid() && Polled(old(polls), r.Err? && r.error == Cancelled)
      ensures r.Ok? ==> InspectedStates(|states|)
      ensures r.Err? && r.error != Cancelled ==>
        || (r.error == CorruptRecord && !Sound(states))
        || Refuses(r.error, StatePlan(states, entries, limits), limits)
    {
      hide Refuses;
      for i := 0 to |states|
        invariant Valid() && InspectedStates(i) && old(polls) <= polls <= cancelledFrom
      {
        var step := InspectState(i);
        if step.Err? {
          StatePlanGrows(states, i + 1, entries, limits);
          if Refuses(step.error, StatePlan(states[..i + 1], entries, limits), limits) {
            RefusalSpreads(step.error, StatePlan(states[..i + 1], entries, limits),
                           StatePlan(states, entries, limits), limits);
          }
          return Err(step.error);
        }
      }
      return Ok(());
    }

    /** What the entries' half holds after the first `i` entries. */
    ghost predicate InspectedEntries(i: nat)
      requires i <= |entries|
      reads this
    {
      && tally == TallyOf(entries[..i], states, limits)
      && hashed == StatePlan(states, entries, limits) + EntryPlan(entries[..i], states, limits)
      && Readable(hashed)
    }

    method InspectEntry(entry: StorageEntry) returns (r: Result<(), InventoryError>)
      requires Valid() && polls <= cancelledFrom
      modifies this`polls, this`tally, this`verifiedBytes, this`hashed
      ensures Valid() && Polled(old(polls), r.Err? && r.error == Cancelled)
      ensures r.Ok? ==>
        && tally == Count(old(tally), entry, states, limits)
        && hashed == old(hashed) + EntryPlanOf(entry, states, limits)
        && Readable(EntryPlanOf(entry, states, limits))
      ensures r.Err? && r.error != Cancelled ==>
                Refuses(r.error, old(hashed) + EntryPlanOf(entry, states, limits), limits)
    {
      hide IsDigest, Claimed, Refuses, OrphanOf;
      assert hashed + [] == hashed;
      var cancelled := Poll();
      if cancelled {
        return Err(Cancelled);
      }
      if entry.name.None? || !IsDigest(entry.name.value) {
        tally := tally.(malformed := tally.malformed + 1, completed := tally.completed + 1);
        return Ok(());
      }
      r := InspectNamed(entry);
    }

    method InspectNamed(entry: StorageEntry) returns (r: Result<(), InventoryError>)
      requires Valid() && polls <= cancelledFrom && entry.name.Some? && IsDigest(entry.name.value)
      modifies this`polls, this`tally, this`verifiedBytes, this`hashed
      ensures Valid() && Polled(old(polls), r.Err? && r.error == Cancelled)
      ensures r.Ok? ==>
        && tally == Count(old(tally), entry, states, limits)
        && hashed == old(hashed) + EntryPlanOf(entry, states, limits)
        && Readable(EntryPlanOf(entry, states, limits))
      ensures r.Err? && r.error != Cancelled ==>
        Refuses(r.error, old(hashed) + EntryPlanOf(entry, states, limits), limits)
    {
      hide IsDigest, Claimed, Refuses, Count, EntryClassOf, EntryPlanOf, Readable;
      assert hashed + [] == hashed;
      ClaimedSetIsClaimed(states, entry.name.value);
      NamedClass(tally, entry, states, limits);
      if entry.name.value in claimed {
        return Ok(());
      }
      if entry.indirect || !entry.regular || entry.size == 0 || !entry.singleLink || entry.size > limits.artifactBytes {
        CountUnhashed(entry);
        return Ok(());
      }
      r := InspectUnclaimed(entry);
    }

    /** Counts an unclaimed entry that is not hashed. */
    method CountUnhashed(entry: StorageEntry)
      requires EntryClassOf(entry, states, limits) in {IsIndirect, IsNonRegular, IsEmpty, IsAliased, IsOversized}
      modifies this`tally
      ensures tally == Count(old(tally), entry, states, limits)
    {
      hide IsDigest, Claimed, OrphanOf;
      if entry.indirect {
        tally := tally.(indirect := tally.indirect + 1, completed := tally.completed + 1);
      } else if !entry.regular {
        tally := tally.(nonRegular := tally.nonRegular + 1, completed := tally.completed + 1);
      } else if entry.size == 0 {
        tally := tally.(empty := tally.empty + 1, completed := tally.completed + 1);
      } else if !entry.singleLink {
        tally := tally.(aliased := tally.aliased + 1, completed := tally.completed + 1);
      } else {
        tally := tally.(oversized := tally.oversized + [entry], completed := tally.completed + 1);
      }
    }

    method InspectUnclaimed(entry: StorageEntry) returns (r: Result<(), InventoryError>)
      requires Valid() && polls <= cancelledFrom && entry.name.Some?
      requires EntryClassOf(entry, states, limits) in {IsOrphan, IsConflict}
      modifies this`polls, this`tally, this`verifiedBytes, this`hashed
      ensures Valid() && Polled(old(polls), r.Err? && r.error == Cancelled)
      ensures r.Ok? ==>
        && tally == Count(old(tally), entry, states, limits)
        && hashed == old(hashed) + [entry]
        && entry.observed.Some?
      ensures r.Err? && r.error != Cancelled ==> Refuses(r.error, old(hashed) + [entry], limits)
    {
      hide Count, EntryClassOf, Manifests, ClaimedSet;
      assert entry in hashed + [entry];
      if entry.observed.Some? {
        CountHashed(tally, entry, states, limits);
      }
      var observed := HashEntry(entry);
      if observed.Err? {
        return Err(observed.error);
      }
      if observed.value == entry.name.value {
        var orphan := Orphan(entry.name.value, entry.size, Associate(manifests, entry.name.value, entry.size));
        tally := tally.(orphans := tally.orphans + [orphan], completed := tally.completed + 1);
      } else {
        tally := tally.(conflicts := tally.conflicts + [entry], completed := tally.completed + 1);
      }
      return Ok(());
    }

    method InspectUninstalled() returns (r: Result<(), InventoryError>)
      requires Valid() && polls <= cancelledFrom && InspectedEntries(0)
      modifies this`polls, this`tally, this`verifiedBytes, this`hashed
      ensures Valid() && Polled(old(polls), r.Err? && r.error == Cancelled)
      ensures r.Ok? ==> InspectedEntries(|entries|)
      ensures r.Err? && r.error != Cancelled ==> Refuses(r.error, Plan(states, entries, limits), limits)
    {
      hide Refuses, Count, EntryPlanOf;
      for i := 0 to |entries|
        invariant Valid() && InspectedEntries(i) && old(polls) <= polls <= cancelledFrom
      {
        assert entries[..i + 1][..i] == entries[..i];
        ghost var before := StatePlan(states, entries, limits) + EntryPlan(entries[..i + 1], states, limits);
        assert before == hashed + EntryPlanOf(entries[i], states, limits);
        var step := InspectEntry(entries[i]);
        if step.Err? {
          EntryPlanGrows(entries, i + 1, states, limits);
          if step.error != Cancelled {
            RefusalSpreads(step.error, before, Plan(states, entries, limits), limits);
          }
          return Err(step.error);
        }
      }
      return Ok(());
    }
  }

  lemma CountHashed(tally: Tally, entry: StorageEntry, states: seq<StoredState>, limits: Limits)
    requires entry.name.Some? && entry.observed.Some? && EntryClassOf(entry, states, limits) in {IsOrphan, IsConflict}
    ensures Count(tally, entry, states, limits)
         == if entry.observed.value == entry.name.value
            then tally.(orphans := tally.orphans + [OrphanOf(entry, states)], completed := tally.completed + 1)
            else tally.(conflicts := tally.conflicts + [entry], completed := tally.completed + 1)
  {
    hide IsDigest, Claimed, OrphanOf;
  }

  lemma NamedClass(tally: Tally, entry: StorageEntry, states: seq<StoredState>, limits: Limits)
    requires entry.name.Some? && IsDigest(entry.name.value)
    ensures var kind, plan := EntryClassOf(entry, states, limits), EntryPlanOf(entry, states, limits);
      if Claimed(states, entry.name.value) then
        plan == [] && Readable(plan) && Count(tally, entry, states, limits) == tally
      else if Hashable(entry, limits) then
        kind in {IsOrphan, IsConflict} && plan == [entry] && (entry.observed.Some? ==> Readable(plan))
      else kind in {IsIndirect, IsNonRegular, IsEmpty, IsAliased, IsOversized} && plan == [] && Readable(plan)
  {
    hide IsDigest, Claimed;
  }

  lemma NoPlanWithoutSelection(state: StoredState, entries: seq<StorageEntry>, limits: Limits)
    ensures Selection(state).None? ==> PlanOf(state, entries, limits) == []
  {
  }

  // ---------------------------------------------------------------- the whole inventory

  datatype Report = Report(
    registered: seq<Inspection>, pendingRemovals: seq<Inspection>, manifestOnly: seq<Manifest>,
    tally: Tally, storageEntries: nat, verifiedBytes: nat)

  /** The report says exactly what the states and entries say. */
  ghost predicate Reports(report: Report, states: seq<StoredState>, entries: seq<StorageEntry>, limits: Limits) {
    && report.registered == Inspections(states, IsRegistered, entries, limits)
    && report.pendingRemovals == Inspections(states, IsPending, entries, limits)
    && report.manifestOnly == ManifestsOnly(states)
    && TallyIs(report.tally, entries, states, limits)
    && report.storageEntries == |entries|
    && report.verifiedBytes == Total(Plan(states, entries, limits))
  }

  /** Nothing is lost in the report and nothing is counted twice: every state under its manifest,
      every storage entry claimed or in one vector or counter. */
  ghost predicate Conserves(report: Report, states: seq<StoredState>, entries: seq<StorageEntry>, limits: Limits) {
    && |report.registered| + |report.pendingRemovals| + |report.manifestOnly| == |states|
    && multiset(InspectedManifests(report.registered)) + multiset(InspectedManifests(report.pendingRemovals))
       + multiset(report.manifestOnly) == multiset(ManifestsOf(states))
    && var t := report.tally;
       |t.orphans| + |t.conflicts| + |t.oversized| + t.malformed + t.indirect + t.nonRegular + t.empty + t.aliased
       + CountIn(entries, IsClaimed, states, limits) == report.storageEntries
  }

  lemma ReportsConserve(report: Report, states: seq<StoredState>, entries: seq<StorageEntry>, limits: Limits)
    requires Reports(report, states, entries, limits) && Sound(states)
    ensures Conserves(report, states, entries, limits)
  {
    StatesAreConserved(states, entries, limits);
    EntriesAreConserved(entries, states, limits);
    OrphansAreCounted(entries, states, limits);
  }

  /** Some increasing places hold exactly the entries of a class, and there are that many. */
  ghost predicate Counts(n: nat, entries: seq<StorageEntry>, states: seq<StoredState>, limits: Limits,
                         kind: EntryClass)
  {
    exists places :: Places(places, entries, states, limits, kind) && |places| == n
  }

  ghost predicate InspectsClass(inspections: seq<Inspection>, kind: StateClass, states: seq<StoredState>,
                                entries: seq<StorageEntry>, limits: Limits)
  {
    exists places :: StatePlaces(places, states, kind) && InspectsAt(inspections, places, states, entries, limits)
  }

  ghost predicate ListsClass(picked: seq<StorageEntry>, kind: EntryClass, entries: seq<StorageEntry>,
                             states: seq<StoredState>, limits: Limits)
  {
    exists places :: Places(places, entries, states, limits, kind) && EntriesAt(picked, places, entries)
  }

  ghost predicate ListsManifests(manifests: seq<Manifest>, states: seq<StoredState>) {
    exists places :: StatePlaces(places, states, IsManifestOnly) && ManifestsAt(manifests, places, states)
  }

  ghost predicate ListsOrphans(orphans: seq<Orphan>, entries: seq<StorageEntry>, states: seq<StoredState>,
                               limits: Limits)
  {
    exists places :: Places(places, entries, states, limits, IsOrphan) && OrphansAt(orphans, places, entries, states)
  }

  /** The report by its tables: each list holds, in order, exactly the states or entries of its class
      with the findings and associations they deserve, each counter counts its class, and the verified
      bytes are those of everything that was compared. */
  ghost predicate Tabulates(report: Report, states: seq<StoredState>, entries: seq<StorageEntry>, limits: Limits) {
    var t := report.tally;
    && InspectsClass(report.registered, IsRegistered, states, entries, limits)
    && InspectsClass(report.pendingRemovals, IsPending, states, entries, limits)
    && ListsManifests(report.manifestOnly, states)
    && ListsOrphans(t.orphans, entries, states, limits)
    && ListsClass(t.conflicts, IsConflict, entries, states, limits)
    && ListsClass(t.oversized, IsOversized, entries, states, limits)
    && Counts(t.malformed, entries, states, limits, IsMalformed)
    && Counts(t.indirect, entries, states, limits, IsIndirect)
    && Counts(t.nonRegular, entries, states, limits, IsNonRegular)
    && Counts(t.empty, entries, states, limits, IsEmpty)
    && Counts(t.aliased, entries, states, limits, IsAliased)
    && report.storageEntries == |entries|
    && report.verifiedBytes == ComparedBytes(report.registered) + ComparedBytes(report.pendingRemovals)
                               + OrphanBytes(t.orphans) + Total(t.conflicts)
  }

  lemma ClassIsInspected(states: seq<StoredState>, kind: StateClass, entries: seq<StorageEntry>, limits: Limits)
    requires kind == IsRegistered || kind == IsPending
    requires Readable(StatePlan(states, entries, limits))
    ensures InspectsClass(Inspections(states, kind, entries, limits), kind, states, entries, limits)
  {
    StatesArePlaced(states, kind);
    InspectionsAreExact(states, kind, entries, limits);
  }

  lemma ClassIsListed(entries: seq<StorageEntry>, states: seq<StoredState>, limits: Limits, kind: EntryClass)
    ensures ListsClass(EntriesIn(entries, kind, states, limits), kind, entries, states, limits)
    ensures Counts(|EntriesIn(entries, kind, states, limits)|, entries, states, limits, kind)
  {
    EntriesArePlaced(entries, states, limits, kind);
    EntriesAreExact(entries, states, limits, kind);
  }

  lemma OrphansAreListed(entries: seq<StorageEntry>, states: seq<StoredState>, limits: Limits)
    ensures ListsOrphans(Orphans(entries, states, limits), entries, states, limits)
  {
    EntriesArePlaced(entries, states, limits, IsOrphan);
    OrphansAreExact(entries, states, limits);
  }

  lemma ManifestsAreListed(states: seq<StoredState>)
    ensures ListsManifests(ManifestsOnly(states), states)
  {
    StatesArePlaced(states, IsManifestOnly);
    ManifestsAreExact(states);
  }

  lemma ReportsTabulate(report: Report, states: seq<StoredState>, entries: seq<StorageEntry>, limits: Limits)
    requires Reports(report, states, entries, limits) && Sound(states)
    requires Readable(Plan(states, entries, limits))
    ensures Tabulates(report, states, entries, limits)
  {
    hide InspectsClass, ListsClass, Counts, ListsOrphans, ListsManifests, Places, StatePlaces;
    assert Readable(StatePlan(states, entries, limits)) by {
      assert forall e :: e in StatePlan(states, entries, limits) ==> e in Plan(states, entries, limits);
    }
    ClassIsInspected(states, IsRegistered, entries, limits);
    ClassIsInspected(states, IsPending, entries, limits);
    ManifestsAreListed(states);
    OrphansAreListed(entries, states, limits);
    ClassIsListed(entries, states, limits, IsConflict);
    ClassIsListed(entries, states, limits, IsOversized);
    ClassIsListed(entries, states, limits, IsMalformed);
    ClassIsListed(entries, states, limits, IsIndirect);
    ClassIsListed(entries, states, limits, IsNonRegular);
    ClassIsListed(entries, states, limits, IsEmpty);
    ClassIsListed(entries, states, limits, IsAliased);
    StateBytesAddUp(states, entries, limits);
    EntryBytesAddUp(entries, states, limits);
    TotalOfSum(StatePlan(states, entries, limits), EntryPlan(entries, states, limits));
  }

  /** Both listings fit their limits. */
  predicate Fits(states: seq<StoredState>, entries: seq<StorageEntry>, limits: Limits) {
    |states| <= limits.stateEntries && |entries| <= limits.storageEntries
  }

  /** Inspects states, then entries, then checks that neither changed meanwhile. */
  method Inventory(states: seq<StoredState>, entries: seq<StorageEntry>, limits: Limits,
                   finalEntries: seq<StorageEntry>, finalStates: seq<StoredState>, cancelledFrom: nat)
    returns (r: Result<Report, InventoryError>, polls: nat)
    ensures r == Err(Cancelled) <==> cancelledFrom < polls
    ensures r.Ok? ==>
      && Reports(r.value, states, entries, limits) && r.value.verifiedBytes <= limits.totalBytes
      && Conserves(r.value, states, entries, limits) && Tabulates(r.value, states, entries, limits)
      && (forall i :: 0 <= i < |states| ==> states[i].installed.None? || !Preparing(states[i]))
      && finalEntries == entries && finalStates == states && Sound(states) && ValidLimits(limits)
      && Fits(states, entries, limits)
    ensures polls <= cancelledFrom ==>
      && (r == Err(InvalidLimits) <==> !ValidLimits(limits))
      && (r == Err(StateEntryLimitExceeded) <==> ValidLimits(limits) && |states| > limits.stateEntries)
      && (ValidLimits(limits) && Fits(states, entries, limits) && Sound(states)
          && Readable(Plan(states, entries, limits)) && finalEntries == entries && finalStates == states ==>
            if Total(Plan(states, entries, limits)) <= limits.totalBytes then r.Ok?
            else r == Err(TotalVerificationLimitExceeded))
      && (ValidLimits(limits) && |states| <= limits.stateEntries && |entries| > limits.storageEntries ==>
            r == Err(StorageEntryLimitExceeded))
      && (r == Err(CorruptRecord) ==> exists i :: 0 <= i < |states| && InState(states[i], IsCorrupt))
      && (r == Err(ReadFailed) ==> !Readable(Plan(states, entries, limits)))
      && (r == Err(TotalVerificationLimitExceeded) ==> Total(Plan(states, entries, limits)) > limits.totalBytes)
      && (r == Err(ConcurrentModification) ==> finalEntries != entries || finalStates != states)
  {
    hide Reports, Conserves, Plan, StatePlan, EntryPlan, Tabulates;
    polls := 0;
    if !ValidLimits(limits) {
      return Err(InvalidLimits), polls;
    }
    if polls >= cancelledFrom {
      return Err(Cancelled), polls + 1;
    }
    polls := polls + 1;
    if |states| > limits.stateEntries {
      return Err(StateEntryLimitExceeded), polls;
    }
    if polls >= cancelledFrom {
      return Err(Cancelled), polls + 1;
    }
    polls := polls + 1;
    if |entries| > limits.storageEntries {
      return Err(StorageEntryLimitExceeded), polls;
    }
    var report;
    report, polls := Inspect(states, entries, limits, cancelledFrom, polls);
    if report.Err? {
      return Err(report.error), polls;
    }
    if polls >= cancelledFrom {
      return Err(Cancelled), polls + 1;
    }
    polls := polls + 1;
    if |finalEntries| > limits.storageEntries {
      return Err(StorageEntryLimitExceeded), polls;
    }
    if finalEntries != entries || finalStates != states {
      return Err(ConcurrentModification), polls;
    }
    if polls >= cancelledFrom {
      return Err(Cancelled), polls + 1;
    }
    polls := polls + 1;
    ReportsConserve(report.value, states, entries, limits);
    ReportsTabulate(report.value, states, entries, limits);
    return Ok(report.value), polls;
  }

  /** The inspection between the two snapshots. */
  method Inspect(states: seq<StoredState>, entries: seq<StorageEntry>, limits: Limits, cancelledFrom: nat, clock: nat)
    returns (r: Result<Report, InventoryError>, polls: nat)
    requires clock <= cancelledFrom
    ensures clock <= polls && (r == Err(Cancelled) <==> cancelledFrom < polls)
    ensures r.Ok? ==>
      && Reports(r.value, states, entries, limits) && r.value.verifiedBytes <= limits.totalBytes
      && Sound(states) && Readable(Plan(states, entries, limits))
      && Total(Plan(states, entries, limits)) <= limits.totalBytes
    ensures r.Err? && r.error != Cancelled ==>
      (r.error == CorruptRecord && !Sound(states)) || Refuses(r.error, Plan(states, entries, limits), limits)
  {
    hide TallyIs;
    var builder := new InventoryBuilder(states, entries, limits, cancelledFrom, clock);
    assert states[..0] == [] && states[..|states|] == states;
    assert entries[..0] == [] && entries[..|entries|] == entries;
    var first := builder.InspectRegistered();
    if first.Err? {
      if Refuses(first.error, StatePlan(states, entries, limits), limits) {
        RefusalSpreads(first.error, StatePlan(states, entries, limits), Plan(states, entries, limits), limits);
      }
      return Err(first.error), builder.polls;
    }
    var second := builder.InspectUninstalled();
    if second.Err? {
      return Err(second.error), builder.polls;
    }
    TallyIsExact(entries, states, limits);
    return Ok(Report(builder.registered, builder.pendingRemovals, builder.manifestOnly, builder.tally,
                     |entries|, builder.verifiedBytes)), builder.polls;
  }
}
