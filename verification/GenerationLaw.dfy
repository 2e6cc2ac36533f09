/** Which number a generation gets: one more than the removals of its artifact so far. */
module GenerationLaw {
  import opened Artifacts
  import opened StateStore
  import opened Lifecycle
  import opened LifecycleSafety

  /** A removal of this artifact is journaled that was not journaled before. */
  predicate Prepares(r: Record, r': Record) {
    && r'.removal.Some? && r'.removal.value.phase == Prepared
    && (r.removal.None? || r.removal.value.selection != r'.removal.value.selection)
  }

  /** How many removals of the artifact were prepared in the first `i` steps. */
  ghost function Preparations(run: seq<World>, i: nat, id: Digest): nat
    requires i < |run|
  {
    if i == 0 then 0
    else Preparations(run, i - 1, id)
         + if Prepares(Lookup(run[i - 1].store, id), Lookup(run[i].store, id)) then 1 else 0
  }

  /** The numbers in an artifact's rows after `n` removals were prepared. */
  predicate Numbered(r: Record, n: nat) {
    && (r.current.Some? ==> r.current.value.epoch == n + 1)
    && (r.removal.Some? ==> r.removal.value.selection.epoch == n)
    && (r.removal.None? ==> n == 0)
  }

  lemma TransactionNumbers(s: Store, request: Request, id: Digest, n: nat)
    requires StoreInv(s) && Numbered(Lookup(s, id), n)
    ensures var r' := Lookup(Commit(s, request), id);
            Numbered(r', n + if Prepares(Lookup(s, id), r') then 1 else 0)
  {
    hide PutInstallation, PrepareRemoval, CompleteRemoval, Activate, StoreInv;
    RecordIsValid(s, id);
    match request {
      case Register(m, installed) => RegistrationTable(s, m, installed);
      case BeginRemoval(selection) => PreparationTable(s, selection);
      case EndRemoval(selection) => CompletionTable(s, selection);
      case Bind(role, target, qualified) => ActivationTable(s, role, target, qualified);
      case Unbind(role) =>
    }
  }

  /** A pending removal stands alone, and a current generation is not the one journaled. */
  lemma RecordIsValid(s: Store, id: Digest)
    requires StoreInv(s)
    ensures PendingIn(Lookup(s, id)) ==> Lookup(s, id).current.None?
    ensures Lookup(s, id).current.Some? ==> Lookup(s, id).current.value.installed.artifactId == id
    ensures Lookup(s, id).removal.Some? ==> Lookup(s, id).removal.value.selection.installed.artifactId == id
  {
    if id in s.records { assert ValidateRecord(id, s.records[id]).None?; }
  }

  lemma {:induction false} RunNumbers(hash: Hash, run: seq<World>, i: nat, id: Digest)
    requires IsRun(hash, run) && i < |run|
    ensures Numbered(Lookup(run[i].store, id), Preparations(run, i, id))
  {
    hide IsRun, Enabled, Apply, Commit, Numbered, Prepares;
    if i == 0 {
      NothingIsNumbered(hash, run, id);
    } else {
      RunNumbers(hash, run, i - 1, id);
      var step := RunStep(hash, run, i - 1);
      StepNumbers(hash, run[i - 1], step, id, Preparations(run, i - 1, id));
    }
  }

  lemma NothingIsNumbered(hash: Hash, run: seq<World>, id: Digest)
    requires IsRun(hash, run)
    ensures Numbered(Lookup(run[0].store, id), 0)
  {
  }

  lemma StepNumbers(hash: Hash, w: World, step: Step, id: Digest, n: nat)
    requires Inv(hash, w) && Enabled(hash, w, step) && Numbered(Lookup(w.store, id), n)
    ensures var r' := Lookup(Apply(w, step).store, id);
            Numbered(r', n + if Prepares(Lookup(w.store, id), r') then 1 else 0)
  {
    hide Enabled, Apply, Commit;
    var request := StepIsTransaction(hash, w, step);
    TransactionNumbers(w.store, request, id, n);
    if Apply(w, step).store == w.store { SameRows(w.store, id, n); }
  }

  lemma SameRows(s: Store, id: Digest, n: nat)
    requires StoreInv(s) && Numbered(Lookup(s, id), n)
    ensures !Prepares(Lookup(s, id), Lookup(s, id))
  {
  }

  /** From an empty store, over every run: a current generation's number is one more than the
      number of removals of its artifact prepared so far, and a journaled one's is that number. */
  lemma GenerationsCountRemovals(hash: Hash, run: seq<World>, i: nat, id: Digest)
    requires IsRun(hash, run) && i < |run|
    ensures var r := Lookup(run[i].store, id);
            && (r.current.Some? ==> r.current.value.epoch == 1 + Preparations(run, i, id))
            && (r.removal.Some? ==> r.removal.value.selection.epoch == Preparations(run, i, id))
            && (r.removal.None? ==> Preparations(run, i, id) == 0)
  {
    RunNumbers(hash, run, i, id);
  }
}
