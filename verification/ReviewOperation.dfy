/**
 Latest-wins background review: one owner, one worker, one mailbox.

 The owner never waits: a contended mailbox makes a call fail with Busy and change
 nothing. The worker takes the pending job and later finishes it with any result its
 review may produce, publishing or dropping it at will; the code's own worker publishes
 under the condition `CodePublishes`. `log` is the history of accepted requests and of
 completions handed to the owner. A cancellation token is named by its operation.
 */
module ReviewOperation {
  import opened Text

  const MAX_SEQUENCE: nat := 0xFFFF_FFFF_FFFF_FFFF

  datatype Request = Request(source: string, candidate: Option<string>, protectedTerms: seq<string>)

  type Evidence = string

  datatype ReviewError = ReviewCancelled | ReviewRefused

  datatype OperationError = Busy | Stopped | IdentifierExhausted | Cancelled | ReviewFailed(review: ReviewError)

  datatype Job = Job(id: nat, request: Request)
  datatype Completion = Completion(id: nat, result: Result<Evidence, OperationError>)
  datatype Mailbox = Mailbox(latest: Option<nat>, pending: Option<Job>, completed: Option<Completion>)

  datatype Worker = Idle | Running(job: Job) | Exited
  datatype Supervisor = Watching | Cleaned

  datatype Event = Accepted(id: nat, request: Request) | Polled(completion: Completion)

  datatype Bridge = Bridge(
    mailbox: Mailbox, shutdown: bool, stopped: bool, poisoned: bool,
    sequence: nat, latest: Option<nat>, cancelled: set<nat>,
    worker: Worker, supervisor: Supervisor, log: seq<Event>)

  /** What a review of a request may produce. */
  type Reviews = (Request, Evidence) -> bool

  datatype Failure = Failure(request: Request, error: OperationError)

  // ----------------------------------------------------------------------------------
  // Owner calls

  function LockError(b: Bridge, contended: bool): Option<OperationError> {
    if contended then Some(Busy) else if b.poisoned then Some(Stopped) else None
  }

  /** Why a submission is refused, if it is. */
  function SubmitError(b: Bridge, contended: bool): Option<OperationError> {
    if b.sequence >= MAX_SEQUENCE then Some(IdentifierExhausted)
    else if LockError(b, contended).Some? then LockError(b, contended)
    else if b.shutdown || b.stopped then Some(Stopped)
    else None
  }

  function AfterSubmit(b: Bridge, request: Request, contended: bool): Bridge {
    if SubmitError(b, contended).Some? then b
    else
      var id := b.sequence + 1;
      b.(mailbox := Mailbox(Some(id), Some(Job(id, request)), None),
         sequence := id, latest := Some(id),
         cancelled := if b.latest.Some? then b.cancelled + {b.latest.value} else b.cancelled,
         log := b.log + [Accepted(id, request)])
  }

  function AfterCancel(b: Bridge): Bridge {
    if b.latest.Some? then b.(cancelled := b.cancelled + {b.latest.value}) else b
  }

  function AfterShutdown(b: Bridge): Bridge {
    AfterCancel(b).(shutdown := true)
  }

  /** The completion a successful poll hands out, if any. */
  function Delivery(b: Bridge): Option<Completion> {
    if b.latest.None? then None
    else
      var id := b.latest.value;
      if id in b.cancelled then Some(Completion(id, Err(Cancelled)))
      else if b.mailbox.completed.Some? && b.mailbox.completed.value.id == id then b.mailbox.completed
      else if b.stopped then Some(Completion(id, Err(Stopped)))
      else None
  }

  function PollResult(b: Bridge, contended: bool): Result<Option<Completion>, OperationError> {
    if b.latest.None? then Ok(None)
    else match LockError(b, contended)
      case Some(error) => Err(error)
      case None => Ok(Delivery(b))
  }

  function AfterPoll(b: Bridge, contended: bool): Bridge {
    if b.latest.None? || LockError(b, contended).Some? then b
    else
      var delivery := Delivery(b);
      var pending := if b.latest.value in b.cancelled then None else b.mailbox.pending;
      if delivery.None? then b.(mailbox := Mailbox(b.mailbox.latest, pending, None))
      else b.(mailbox := Mailbox(None, pending, None), latest := None, log := b.log + [Polled(delivery.value)])
  }

  /** The mailbox holds a finished completion of operation `id`. */
  predicate Published(b: Bridge, id: nat) {
    b.mailbox.completed.Some? && b.mailbox.completed.value.id == id
  }

  /** Every answer of a poll by its exact condition. */
  ghost predicate PollAnswers(b: Bridge, contended: bool, r: Result<Option<Completion>, OperationError>) {
    && (r.Err? <==> b.latest.Some? && (contended || b.poisoned))
    && (r.Err? ==> r.error == if contended then Busy else Stopped)
    && (b.latest.None? ==> r == Ok(None))
    && (b.latest.Some? && !contended && !b.poisoned ==>
          var id := b.latest.value;
          && (r == Ok(None) <==> id !in b.cancelled && !b.stopped && !Published(b, id))
          && (r == Ok(Some(Completion(id, Err(Cancelled)))) <==>
                id in b.cancelled || (Published(b, id) && b.mailbox.completed.value.result == Err(Cancelled)))
          && (id !in b.cancelled && Published(b, id) ==> r == Ok(b.mailbox.completed))
          && (id !in b.cancelled && !Published(b, id) && b.stopped ==> r == Ok(Some(Completion(id, Err(Stopped))))))
  }

  /** What a poll leaves behind: a completion handed out is forgotten with its operation, a stale one is
      dropped, and the pending job survives unless it was cancelled. */
  ghost predicate PollLeaves(b: Bridge, r: Result<Option<Completion>, OperationError>, b': Bridge) {
    if r.Err? || b.latest.None? then b' == b
    else
      && b'.mailbox.completed.None?
      && b'.mailbox.pending == (if b.latest.value in b.cancelled then None else b.mailbox.pending)
      && (if r.value.None? then b'.latest == b.latest && b'.mailbox.latest == b.mailbox.latest && b'.log == b.log
          else b'.latest.None? && b'.mailbox.latest.None? && b'.log == b.log + [Polled(r.value.value)])
      && b'.sequence == b.sequence && b'.cancelled == b.cancelled && b'.shutdown == b.shutdown
      && b'.stopped == b.stopped && b'.poisoned == b.poisoned
  }

  /** Every answer of a submission by its exact condition, and the state an accepted one leaves. */
  ghost predicate SubmitAnswers(b: Bridge, request: Request, contended: bool, r: Result<nat, Failure>, b': Bridge) {
    var open := b.sequence < MAX_SEQUENCE;
    && (r == Err(Failure(request, IdentifierExhausted)) <==> !open)
    && (r == Err(Failure(request, Busy)) <==> open && contended)
    && (r == Err(Failure(request, Stopped)) <==> open && !contended && (b.poisoned || b.shutdown || b.stopped))
    && (r.Ok? <==> open && !contended && !b.poisoned && !b.shutdown && !b.stopped)
    && (r.Err? ==> b' == b)
    && (r.Ok? ==>
          && r.value == b.sequence + 1 == b'.sequence
          && b'.latest == b'.mailbox.latest == Some(r.value)
          && b'.mailbox.pending == Some(Job(r.value, request)) && b'.mailbox.completed.None?
          && (forall id :: id in b'.cancelled <==> id in b.cancelled || b.latest == Some(id))
          && b'.log == b.log + [Accepted(r.value, request)])
  }

  /** The owner's handle. Its calls run on one thread; the worker and its supervisor act
      through the mailbox and the flags. */
  class DocumentReviewOperation {
    var mailbox: Mailbox
    var shutdown: bool
    var stopped: bool
    var poisoned: bool
    var sequence: nat
    var latest: Option<nat>
    var cancelled: set<nat>
    ghost var worker: Worker
    ghost var supervisor: Supervisor
    ghost var log: seq<Event>

    ghost function View(): Bridge
      reads this
    {
      Bridge(mailbox, shutdown, stopped, poisoned, sequence, latest, cancelled, worker, supervisor, log)
    }

    constructor ()
      ensures Init(View())
    {
      mailbox := Mailbox(None, None, None);
      shutdown, stopped, poisoned := false, false, false;
      sequence, latest, cancelled := 0, None, {};
      worker, supervisor, log := Idle, Watching, [];
    }

    method TryLock(contended: bool) returns (error: Option<OperationError>)
      ensures error == LockError(View(), contended)
    {
      if contended { return Some(Busy); }
      if poisoned { return Some(Stopped); }
      return None;
    }

    /** Accepts the latest request and cancels its predecessor, or hands the request back
        having changed nothing. */
    method Submit(request: Request, contended: bool) returns (r: Result<nat, Failure>)
      modifies this
      ensures View() == AfterSubmit(old(View()), request, contended)
      ensures match SubmitError(old(View()), contended)
              case Some(error) => r == Err(Failure(request, error)) && View() == old(View())
              case None => r == Ok(old(sequence) + 1) && latest == Some(r.value) && old(sequence) < sequence
      ensures SubmitAnswers(old(View()), request, contended, r, View())
    {
      if sequence >= MAX_SEQUENCE { return Err(Failure(request, IdentifierExhausted)); }
      var id := sequence + 1;
      var refused := TryLock(contended);
      if refused.Some? { return Err(Failure(request, refused.value)); }
      if shutdown || stopped { return Err(Failure(request, Stopped)); }
      if latest.Some? {
        cancelled := cancelled + {latest.value};
      }
      mailbox := Mailbox(Some(id), Some(Job(id, request)), None);
      sequence := id;
      latest := Some(id);
      log := log + [Accepted(id, request)];
      return Ok(id);
    }

    method Cancel()
      modifies this`cancelled
      ensures View() == AfterCancel(old(View()))
      ensures forall id :: id in cancelled <==> id in old(cancelled) || latest == Some(id)
    {
      if latest.Some? {
        cancelled := cancelled + {latest.value};
      }
    }

    /** Hands out the latest operation's completion without waiting. */
    method Poll(contended: bool) returns (r: Result<Option<Completion>, OperationError>)
      modifies this
      ensures r == PollResult(old(View()), contended)
      ensures View() == AfterPoll(old(View()), contended)
      ensures r.Ok? && r.value.Some? ==> old(latest) == Some(r.value.value.id) && latest.None?
      ensures r.Err? ==> View() == old(View())
      ensures PollAnswers(old(View()), contended, r) && PollLeaves(old(View()), r, View())
    {
      if latest.None? { return Ok(None); }
      var id := latest.value;
      var refused := TryLock(contended);
      if refused.Some? { return Err(refused.value); }
      var completion: Option<Completion> := None;
      if id in cancelled {
        mailbox := mailbox.(pending := None, completed := None);
        completion := Some(Completion(id, Err(Cancelled)));
      } else {
        if mailbox.completed.Some? && mailbox.completed.value.id == id {
          completion := mailbox.completed;
        } else if stopped {
          completion := Some(Completion(id, Err(Stopped)));
        }
        mailbox := mailbox.(completed := None);
      }
      if completion.Some? {
        mailbox := mailbox.(latest := None);
        latest := None;
        log := log + [Polled(completion.value)];
      }
      return Ok(completion);
    }

    /** Asks the worker to stop; the current work keeps its own token. */
    method Shutdown()
      modifies this
      ensures View() == AfterShutdown(old(View()))
      ensures shutdown && latest == old(latest) && mailbox == old(mailbox)
      ensures forall id :: id in cancelled <==> id in old(cancelled) || latest == Some(id)
    {
      Cancel();
      shutdown := true;
    }
  }

  // ----------------------------------------------------------------------------------
  // Steps of all threads

  datatype Step =
    | Submit(request: Request, contended: bool)
    | Cancel
    | Poll(contended: bool)
    | Shutdown
    | WorkerTake
    | WorkerSkip
    | WorkerFinish(result: Result<Evidence, OperationError>, publish: bool)
    | WorkerExit
    | SupervisorClean
    | SupervisorStop
    | Poison

  /** The condition under which the code's worker publishes what it finished. */
  predicate CodePublishes(b: Bridge) {
    b.worker.Running? && !b.shutdown && b.worker.job.id !in b.cancelled && b.mailbox.latest == Some(b.worker.job.id)
  }

  ghost predicate Enabled(reviews: Reviews, b: Bridge, step: Step) {
    match step
    case WorkerTake => b.worker.Idle? && b.mailbox.pending.Some? && !b.shutdown && !b.poisoned
    case WorkerSkip => b.worker.Running? && b.worker.job.id in b.cancelled
    case WorkerFinish(result, publish) =>
      && b.worker.Running?
      && (result.Ok? ==> reviews(b.worker.job.request, result.value))
      && (result.Err? ==> result.error.ReviewFailed?)
      && (publish ==> !b.poisoned)
    case SupervisorClean => b.worker.Exited? && b.supervisor.Watching?
    case SupervisorStop => b.supervisor.Cleaned?
    case _ => true
  }

  function Apply(b: Bridge, step: Step): Bridge {
    match step
    case Submit(request, contended) => AfterSubmit(b, request, contended)
    case Cancel => AfterCancel(b)
    case Poll(contended) => AfterPoll(b, contended)
    case Shutdown => AfterShutdown(b)
    case WorkerTake =>
      if b.mailbox.pending.None? then b
      else b.(worker := Running(b.mailbox.pending.value), mailbox := b.mailbox.(pending := None))
    case WorkerSkip => b.(worker := Idle)
    case WorkerFinish(result, publish) =>
      if !b.worker.Running? then b
      else if publish then
        b.(worker := Idle, mailbox := b.mailbox.(completed := Some(Completion(b.worker.job.id, result))))
      else b.(worker := Idle)
    case WorkerExit => b.(worker := Exited)
    case SupervisorClean =>
      if b.poisoned then b.(supervisor := Cleaned)
      else
        var completed := if b.shutdown then None else b.mailbox.completed;
        b.(supervisor := Cleaned, mailbox := b.mailbox.(pending := None, completed := completed))
    case SupervisorStop => b.(stopped := true)
    case Poison => b.(poisoned := true)
  }

  /** A started bridge; creating the worker thread may already have failed. */
  ghost predicate Init(b: Bridge) {
    b == Bridge(Mailbox(None, None, None), false, false, false, 0, None, {}, b.worker, Watching, [])
        && !b.worker.Running?
  }

  ghost predicate StepAt(reviews: Reviews, run: seq<Bridge>, i: nat)
    requires i + 1 < |run|
  {
    exists step :: Enabled(reviews, run[i], step) && run[i + 1] == Apply(run[i], step)
  }

  ghost predicate IsRun(reviews: Reviews, run: seq<Bridge>) {
    |run| > 0 && Init(run[0]) && forall i :: 0 <= i < |run| - 1 ==> StepAt(reviews, run, i)
  }

  // ----------------------------------------------------------------------------------
  // The invariant

  /** Request `id` was accepted with this payload. */
  predicate WasAccepted(log: seq<Event>, id: nat, request: Request) {
    Accepted(id, request) in log
  }

  /** A successful result comes from reviewing the request accepted under its identity. */
  ghost predicate Genuine(reviews: Reviews, log: seq<Event>, c: Completion) {
    c.result.Ok? ==> exists request :: WasAccepted(log, c.id, request) && reviews(request, c.result.value)
  }

  /** Every completion directly follows the acceptance it answers, and identities increase. */
  ghost predicate LogOk(reviews: Reviews, log: seq<Event>, cancelled: set<nat>) {
    && (forall j :: 0 <= j < |log| && log[j].Polled? ==>
          && j > 0 && log[j - 1].Accepted? && log[j - 1].id == log[j].completion.id
          && (log[j].completion.result.Ok? ==> reviews(log[j - 1].request, log[j].completion.result.value))
          && (log[j].completion.id in cancelled <==> log[j].completion.result == Err(Cancelled)))
    && (forall i, j :: 0 <= i < j < |log| && log[i].Accepted? && log[j].Accepted? ==> log[i].id < log[j].id)
  }

  ghost predicate Bounded(b: Bridge) {
    && (forall j :: 0 <= j < |b.log| && b.log[j].Accepted? ==> 0 < b.log[j].id <= b.sequence)
    && (forall id :: id in b.cancelled ==> id <= b.sequence)
    && b.sequence <= MAX_SEQUENCE
  }

  ghost predicate Inv(reviews: Reviews, b: Bridge) {
    && LogOk(reviews, b.log, b.cancelled)
    && Bounded(b)
    && b.mailbox.latest == b.latest
    && (b.latest.Some? <==> |b.log| > 0 && b.log[|b.log| - 1].Accepted?)
    && (b.latest.Some? ==> b.log[|b.log| - 1].id == b.latest.value == b.sequence)
    && (b.mailbox.pending.Some? ==> WasAccepted(b.log, b.mailbox.pending.value.id, b.mailbox.pending.value.request))
    && (b.worker.Running? ==> WasAccepted(b.log, b.worker.job.id, b.worker.job.request))
    && (b.mailbox.completed.Some? ==>
          && Genuine(reviews, b.log, b.mailbox.completed.value)
          && b.mailbox.completed.value.result != Err(Cancelled))
  }
}
