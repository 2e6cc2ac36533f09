/** The durable artifact store: each operation is one atomic transaction, so it is a
    function from the stored state to a result and a new stored state. */
module StateStore {
  import opened Text
  import opened Artifacts

  datatype Record = Record(manifest: Option<Manifest>, current: Option<Installation>, removal: Option<Removal>)

  /** `bindings` maps each active role to the artifact it points at. */
  datatype Store = Store(records: map<Digest, Record>, bindings: map<string, Digest>)

  datatype StoreError =
    | InvalidManifest | InvalidInstallation | ImmutableConflict | CorruptRecord | MissingRecord
    | StaleInstallation | ActiveArtifact | RemovalPending | EpochExhausted | VerificationFailed
    | InvalidActiveBinding | Database

  datatype Prepare = NewlyPrepared | AlreadyPrepared | AlreadyCompleted
  datatype Complete = NewlyCompleted | AlreadyComplete
  datatype Write = Inserted | AlreadyPresent
  datatype Put = Put(installed: Write, installation: Installation)

  datatype Tx<+T> = Tx(result: Result<T, StoreError>, store: Store)

  function Lookup(s: Store, id: Digest): Record {
    if id in s.records then s.records[id] else Record(None, None, None)
  }

  predicate IsActive(s: Store, id: Digest) {
    exists role :: role in s.bindings && s.bindings[role] == id
  }

  function NextEpoch(epoch: nat): Option<nat> {
    if epoch + 1 <= MAX_EPOCH then Some(epoch + 1) else None
  }

  predicate Matches(id: Digest, manifest: Option<Manifest>, installed: Installed) {
    && manifest.Some? && ValidInstalled(installed)
    && installed.artifactId == id
    && installed.artifactId == manifest.value.artifactId
    && installed.artifactDigest == manifest.value.artifactDigest
    && installed.byteSize == manifest.value.byteSize
  }

  /** Integrity of one artifact's rows, checked by every read and every transaction. */
  function ValidateRecord(id: Digest, r: Record): (error: Option<StoreError>) {
    if r.manifest.Some? && (!ValidManifest(r.manifest.value) || r.manifest.value.artifactId != id) then
      Some(CorruptRecord)
    else if r.current.Some? && !Matches(id, r.manifest, r.current.value.installed) then Some(CorruptRecord)
    else if r.removal.Some? then
      var removal := r.removal.value;
      if !Matches(id, r.manifest, removal.selection.installed) then Some(CorruptRecord)
      else if removal.phase.Prepared? && r.current.Some? then Some(CorruptRecord)
      else if r.current.None? then None
      else match NextEpoch(removal.selection.epoch)
        case None => Some(EpochExhausted)
        case Some(next) => if next != r.current.value.epoch then Some(CorruptRecord) else None
    else if r.current.Some? && r.current.value.epoch != 1 then Some(CorruptRecord)
    else None
  }

  function ReadState(s: Store, id: Digest): Result<(Option<Installation>, Option<Removal>), StoreError> {
    var r := Lookup(s, id);
    match ValidateRecord(id, r)
    case Some(error) => Err(error)
    case None => Ok((r.current, r.removal))
  }

  /** Registers verified bytes, issuing the generation after the last removed one. */
  function PutInstallation(s: Store, m: Manifest, installed: Installed): Tx<Put> {
    var r := Lookup(s, m.artifactId);
    if !ValidManifest(m) then Tx(Err(InvalidManifest), s)
    else if !ValidInstalled(installed) then Tx(Err(InvalidInstallation), s)
    else if m.artifactId != installed.artifactId || m.artifactDigest != installed.artifactDigest
            || m.byteSize != installed.byteSize then Tx(Err(ImmutableConflict), s)
    else if ValidateRecord(m.artifactId, r).Some? then Tx(Err(ValidateRecord(m.artifactId, r).value), s)
    else if r.removal.Some? && r.removal.value.phase.Prepared? then Tx(Err(RemovalPending), s)
    else if r.current.None? && IsActive(s, m.artifactId) then Tx(Err(CorruptRecord), s)
    else if (r.manifest.Some? && r.manifest.value != m)
            || (r.current.Some? && r.current.value.installed != installed) then Tx(Err(ImmutableConflict), s)
    else if r.current.Some? then Tx(Ok(Put(AlreadyPresent, r.current.value)), s)
    else
      var epoch := if r.removal.None? then Some(1) else NextEpoch(r.removal.value.selection.epoch);
      match epoch
      case None => Tx(Err(EpochExhausted), s)
      case Some(epoch) =>
        var installation := Installation(installed, epoch);
        var r' := Record(Some(m), Some(installation), r.removal);
        Tx(Ok(Put(Inserted, installation)), s.(records := s.records[m.artifactId := r']))
  }

  /** Revokes the current generation and journals its removal in one transaction. */
  function PrepareRemoval(s: Store, selection: Installation): Tx<Prepare> {
    var id := selection.installed.artifactId;
    var r := Lookup(s, id);
    if !ValidInstalled(selection.installed) then Tx(Err(InvalidInstallation), s)
    else if ValidateRecord(id, r).Some? then Tx(Err(ValidateRecord(id, r).value), s)
    else if r.removal.Some? && r.removal.value.selection == selection then
      if r.removal.value.phase.Completed? then Tx(Ok(AlreadyCompleted), s)
      else if IsActive(s, id) then Tx(Err(ActiveArtifact), s)
      else Tx(Ok(AlreadyPrepared), s)
    else if r.current != Some(selection) then Tx(Err(StaleInstallation), s)
    else if IsActive(s, id) then Tx(Err(ActiveArtifact), s)
    else
      var r' := Record(r.manifest, None, Some(Removal(selection, Prepared)));
      Tx(Ok(NewlyPrepared), s.(records := s.records[id := r']))
  }

  function CompleteRemoval(s: Store, selection: Installation): Tx<Complete> {
    var id := selection.installed.artifactId;
    var r := Lookup(s, id);
    if r.removal.None? then Tx(Err(MissingRecord), s)
    else if ValidateRecord(id, r).Some? then Tx(Err(ValidateRecord(id, r).value), s)
    else if r.removal.value.selection != selection then Tx(Err(StaleInstallation), s)
    else if r.removal.value.phase.Completed? then Tx(Ok(AlreadyComplete), s)
    else if r.current.Some? then Tx(Err(CorruptRecord), s)
    else if IsActive(s, id) then Tx(Err(ActiveArtifact), s)
    else
      var r' := r.(removal := Some(Removal(selection, Completed)));
      Tx(Ok(NewlyCompleted), s.(records := s.records[id := r']))
  }

  /** Points a role at a current installation; `qualified` is the outcome of the
      qualification evidence checks. */
  function Activate(s: Store, role: string, installed: Installed, qualified: bool): Tx<()> {
    var id := installed.artifactId;
    var r := Lookup(s, id);
    if !ValidInstalled(installed) then Tx(Err(InvalidInstallation), s)
    else if ValidateRecord(id, r).Some? then Tx(Err(ValidateRecord(id, r).value), s)
    else if r.removal.Some? && r.removal.value.phase.Prepared? then Tx(Err(RemovalPending), s)
    else if r.current.None? then Tx(Err(MissingRecord), s)
    else if r.current.value.installed != installed then Tx(Err(VerificationFailed), s)
    else if !qualified then Tx(Err(InvalidActiveBinding), s)
    else Tx(Ok(()), s.(bindings := s.bindings[role := id]))
  }

  function Deactivate(s: Store, role: string): Tx<()> {
    if role !in s.bindings then Tx(Err(MissingRecord), s)
    else Tx(Ok(()), s.(bindings := s.bindings - {role}))
  }

  // ----------------------------------------------------------------------------------
  // What every transaction keeps

  /** Every artifact's rows pass their integrity check and only current installations
      are active. */
  ghost predicate StoreInv(s: Store) {
    && (forall id :: id in s.records ==> ValidateRecord(id, s.records[id]).None?)
    && (forall role :: role in s.bindings ==> Lookup(s, s.bindings[role]).current.Some?)
  }

  /** Over an intact store reading never fails. */
  lemma ReadSucceeds(s: Store, id: Digest)
    requires StoreInv(s)
    ensures ReadState(s, id) == Ok((Lookup(s, id).current, Lookup(s, id).removal))
  {
    if id in s.records { assert ValidateRecord(id, s.records[id]).None?; }
  }

  /** Generation `epoch` of this artifact, and every earlier one, has been removed. */
  predicate Retired(r: Record, epoch: nat) {
    && r.removal.Some?
    && (r.removal.value.selection.epoch > epoch
        || (r.removal.value.selection.epoch == epoch && r.removal.value.phase.Completed?))
  }

  datatype Request =
    | Register(manifest: Manifest, installed: Installed)
    | BeginRemoval(selection: Installation)
    | EndRemoval(selection: Installation)
    | Bind(role: string, target: Installed, qualified: bool)
    | Unbind(role: string)

  /** The store after one transaction, whatever its outcome. */
  function Commit(s: Store, request: Request): Store {
    match request
    case Register(m, installed) => PutInstallation(s, m, installed).store
    case BeginRemoval(selection) => PrepareRemoval(s, selection).store
    case EndRemoval(selection) => CompleteRemoval(s, selection).store
    case Bind(role, target, qualified) => Activate(s, role, target, qualified).store
    case Unbind(role) => Deactivate(s, role).store
  }

  lemma TransactionKeepsRecords(s: Store, request: Request, id: Digest)
    requires StoreInv(s) && id in Commit(s, request).records
    ensures ValidateRecord(id, Commit(s, request).records[id]).None?
  {
    hide ValidateRecord, PutInstallation, PrepareRemoval, CompleteRemoval;
    match request {
      case Register(m, installed) => RegistrationKeepsRecords(s, m, installed, id);
      case BeginRemoval(selection) => RemovalKeepsRecords(s, selection, id);
      case EndRemoval(selection) => RemovalKeepsRecords(s, selection, id);
      case _ =>
    }
  }

  lemma RemovalKeepsRecords(s: Store, selection: Installation, id: Digest)
    requires StoreInv(s)
    ensures var begun := PrepareRemoval(s, selection).store.records;
            id in begun ==> ValidateRecord(id, begun[id]).None?
    ensures var ended := CompleteRemoval(s, selection).store.records;
            id in ended ==> ValidateRecord(id, ended[id]).None?
  {
    if id in s.records { assert ValidateRecord(id, s.records[id]).None?; }
  }

  lemma RegistrationKeepsRecords(s: Store, m: Manifest, installed: Installed, id: Digest)
    requires StoreInv(s) && id in PutInstallation(s, m, installed).store.records
    ensures ValidateRecord(id, PutInstallation(s, m, installed).store.records[id]).None?
  {
    if id == m.artifactId && id in s.records { assert ValidateRecord(id, s.records[id]).None?; }
  }

  lemma TransactionKeepsBindings(s: Store, request: Request, role: string)
    requires StoreInv(s) && role in Commit(s, request).bindings
    ensures Lookup(Commit(s, request), Commit(s, request).bindings[role]).current.Some?
  {
    if !request.Bind? {
      assert Lookup(s, s.bindings[role]).current.Some?;
    } else {
      BindingStaysCurrent(s, request.role, request.target, request.qualified, role);
    }
  }

  /** Every transaction keeps the store's integrity. */
  lemma TransactionKeepsIntegrity(s: Store, request: Request)
    requires StoreInv(s)
    ensures StoreInv(Commit(s, request))
  {
    hide Commit, ValidateRecord;
    forall id | id in Commit(s, request).records ensures ValidateRecord(id, Commit(s, request).records[id]).None? {
      TransactionKeepsRecords(s, request, id);
    }
    forall role | role in Commit(s, request).bindings
      ensures Lookup(Commit(s, request), Commit(s, request).bindings[role]).current.Some?
    {
      TransactionKeepsBindings(s, request, role);
    }
  }

  lemma BindingStaysCurrent(s: Store, role: string, target: Installed, qualified: bool, role': string)
    requires StoreInv(s)
    requires role' in Activate(s, role, target, qualified).store.bindings
    ensures Lookup(s, Activate(s, role, target, qualified).store.bindings[role']).current.Some?
  {
    if role' in s.bindings {
      assert Lookup(s, s.bindings[role']).current.Some?;
    }
  }

  /** A generation once removed stays removed under every transaction. */
  lemma TransactionKeepsRetired(s: Store, request: Request, id: Digest, epoch: nat)
    requires StoreInv(s) && Retired(Lookup(s, id), epoch)
    ensures Retired(Lookup(Commit(s, request), id), epoch)
  {
    match request {
      case Register(m, installed) =>
      case BeginRemoval(selection) =>
        if selection.installed.artifactId == id { RetiredIsDead(s, id, epoch); }
      case EndRemoval(selection) =>
      case _ =>
    }
  }

  /** A removed generation is neither current nor pending, and anything current is newer. */
  lemma RetiredIsDead(s: Store, id: Digest, epoch: nat)
    requires StoreInv(s) && Retired(Lookup(s, id), epoch)
    ensures Lookup(s, id).current.Some? ==> Lookup(s, id).current.value.epoch > epoch
    ensures Lookup(s, id).removal.value.phase.Prepared? ==> Lookup(s, id).removal.value.selection.epoch > epoch
  {
    assert id in s.records;
  }

  // ----------------------------------------------------------------------------------
  // What each transaction answers and leaves, case by case

  /** The generation a registration issues: the current one stays, the first is 1, and after a
      removal it is the next. */
  predicate Issues(r: Record, put: Put) {
    && put.installation.epoch == (if r.current.Some? then r.current.value.epoch
                                  else if r.removal.None? then 1 else r.removal.value.selection.epoch + 1)
    && (put.installed == Inserted <==> r.current.None?)
  }

  /** The store with this artifact's manifest and current generation recorded, and nothing else. */
  ghost predicate Registered(s: Store, s': Store, m: Manifest, installation: Installation) {
    && s'.bindings == s.bindings
    && Lookup(s', m.artifactId) == Record(Some(m), Some(installation), Lookup(s, m.artifactId).removal)
    && (forall id :: id != m.artifactId ==> Lookup(s', id) == Lookup(s, id))
  }

  predicate PendingIn(r: Record) {
    r.removal.Some? && r.removal.value.phase == Prepared
  }

  /** The artifact's rows say the same as the registration. */
  predicate Agrees(r: Record, m: Manifest, installed: Installed) {
    (r.manifest.Some? ==> r.manifest.value == m) && (r.current.Some? ==> r.current.value.installed == installed)
  }

  predicate Describes(m: Manifest, installed: Installed) {
    && m.artifactId == installed.artifactId && m.artifactDigest == installed.artifactDigest
    && m.byteSize == installed.byteSize
  }

  lemma RegistrationTable(s: Store, m: Manifest, installed: Installed)
    requires StoreInv(s)
    ensures var tx, r := PutInstallation(s, m, installed), Lookup(s, m.artifactId);
            var valid := ValidManifest(m) && ValidInstalled(installed);
            var exhausted := r.current.None? && r.removal.Some? && r.removal.value.selection.epoch >= MAX_EPOCH;
            && (tx.result == Err(InvalidManifest) <==> !ValidManifest(m))
            && (tx.result == Err(InvalidInstallation) <==> ValidManifest(m) && !ValidInstalled(installed))
            && (tx.result == Err(RemovalPending) <==> valid && Describes(m, installed) && PendingIn(r))
            && (tx.result == Err(ImmutableConflict) <==>
                  valid && (!Describes(m, installed) || (!PendingIn(r) && !Agrees(r, m, installed))))
            && (tx.result == Err(EpochExhausted) <==>
                  valid && Describes(m, installed) && !PendingIn(r) && Agrees(r, m, installed) && exhausted)
            && (tx.result.Ok? <==>
                  valid && Describes(m, installed) && !PendingIn(r) && Agrees(r, m, installed) && !exhausted)
            && (tx.result.Ok? ==>
                  && Issues(r, tx.result.value) && tx.result.value.installation.installed == installed
                  && Registered(s, tx.store, m, tx.result.value.installation))
            && (tx.result.Err? ==> tx.store == s)
  {
    if m.artifactId in s.records { assert ValidateRecord(m.artifactId, s.records[m.artifactId]).None?; }
  }

  /** The store with one journal entry in place of the current generation, and nothing else. */
  ghost predicate Journaled(s: Store, s': Store, removal: Removal) {
    var id := removal.selection.installed.artifactId;
    && s'.bindings == s.bindings
    && Lookup(s', id) == Record(Lookup(s, id).manifest, None, Some(removal))
    && (forall other :: other != id ==> Lookup(s', other) == Lookup(s, other))
  }

  lemma PreparationTable(s: Store, selection: Installation)
    requires StoreInv(s)
    ensures var tx, id := PrepareRemoval(s, selection), selection.installed.artifactId;
            var r, valid := Lookup(s, id), ValidInstalled(selection.installed);
            var journaled := r.removal.Some? && r.removal.value.selection == selection;
            var completed := journaled && r.removal.value.phase == Completed;
            && (tx.result == Err(InvalidInstallation) <==> !valid)
            && (tx.result == Ok(AlreadyCompleted) <==> valid && completed)
            && (tx.result == Ok(AlreadyPrepared) <==> valid && journaled && !completed)
            && (tx.result == Ok(NewlyPrepared) <==>
                  valid && !journaled && r.current == Some(selection) && !IsActive(s, id))
            && (tx.result == Err(StaleInstallation) <==> valid && !journaled && r.current != Some(selection))
            && (tx.result == Err(ActiveArtifact) <==>
                  valid && !journaled && r.current == Some(selection) && IsActive(s, id))
            && (if tx.result == Ok(NewlyPrepared) then Journaled(s, tx.store, Removal(selection, Prepared))
                else tx.store == s)
  {
    var id := selection.installed.artifactId;
    if id in s.records { assert ValidateRecord(id, s.records[id]).None?; }
  }

  lemma CompletionTable(s: Store, selection: Installation)
    requires StoreInv(s)
    ensures var tx, id := CompleteRemoval(s, selection), selection.installed.artifactId;
            var r := Lookup(s, id);
            && (tx.result == Err(MissingRecord) <==> r.removal.None?)
            && (tx.result == Err(StaleInstallation) <==> r.removal.Some? && r.removal.value.selection != selection)
            && (tx.result == Ok(AlreadyComplete) <==> r.removal == Some(Removal(selection, Completed)))
            && (tx.result == Ok(NewlyCompleted) <==> r.removal == Some(Removal(selection, Prepared)))
            && (if tx.result == Ok(NewlyCompleted) then Journaled(s, tx.store, Removal(selection, Completed))
                else tx.store == s)
  {
    var id := selection.installed.artifactId;
    if id in s.records { assert ValidateRecord(id, s.records[id]).None?; }
  }

  lemma ActivationTable(s: Store, role: string, installed: Installed, qualified: bool)
    requires StoreInv(s)
    ensures var tx, r := Activate(s, role, installed, qualified), Lookup(s, installed.artifactId);
            var valid := ValidInstalled(installed);
            && (tx.result == Err(InvalidInstallation) <==> !valid)
            && (tx.result == Err(RemovalPending) <==> valid && PendingIn(r))
            && (tx.result == Err(MissingRecord) <==> valid && !PendingIn(r) && r.current.None?)
            && (tx.result == Err(VerificationFailed) <==>
                  valid && r.current.Some? && r.current.value.installed != installed)
            && (tx.result == Err(InvalidActiveBinding) <==>
                  valid && r.current.Some? && r.current.value.installed == installed && !qualified)
            && (tx.result.Ok? <==> valid && r.current.Some? && r.current.value.installed == installed && qualified)
            && tx.store.records == s.records
            && tx.store.bindings == (if tx.result.Ok? then s.bindings[role := installed.artifactId] else s.bindings)
  {
    var id := installed.artifactId;
    if id in s.records { assert ValidateRecord(id, s.records[id]).None?; }
  }

  lemma DeactivationTable(s: Store, role: string)
    ensures var tx := Deactivate(s, role);
            && tx.result == (if role in s.bindings then Ok(()) else Err(MissingRecord))
            && tx.store == s.(bindings := s.bindings - {role})
  {
    if role !in s.bindings { assert s.bindings - {role} == s.bindings; }
  }
}
