/** The presentation-side reducer over the review bridge, and the agreement of the two. */
module ReviewState {
  import opened Text
  import opened ReviewOperation
  import opened ReviewSafety

  datatype Outcome = NotStarted | Loading | Ready(evidence: Evidence) | WasCancelled | Failed(error: OperationError)

  datatype Disclosure = Disclosure(sourceBytes: nat, candidateBytes: Option<nat>)

  datatype Review = Review(
    current: Option<nat>, disclosure: Option<Disclosure>, cancellationRequested: bool, outcome: Outcome)

  datatype System = System(bridge: Bridge, review: Review)

  /** Lengths stand for byte counts of the retained inputs. */
  function DisclosureOf(request: Request): Disclosure {
    Disclosure(|request.source|, if request.candidate.Some? then Some(|request.candidate.value|) else None)
  }

  function OutcomeOf(c: Completion): Outcome {
    match c.result
    case Ok(evidence) => Ready(evidence)
    case Err(error) =>
      if error == Cancelled || error == ReviewFailed(ReviewCancelled) then WasCancelled else Failed(error)
  }

  predicate Accepts(r: Review, c: Completion) {
    r.outcome.Loading? && r.current == Some(c.id)
  }

  function AfterSubmission(s: System, request: Request, contended: bool): System {
    var bridge := AfterSubmit(s.bridge, request, contended);
    if SubmitError(s.bridge, contended).Some? then s.(bridge := bridge)
    else System(bridge, Review(Some(bridge.sequence), Some(DisclosureOf(request)), false, Loading))
  }

  function AfterCancellation(s: System): System {
    if s.review.outcome.Loading? then System(AfterCancel(s.bridge), s.review.(cancellationRequested := true)) else s
  }

  function AfterPolling(s: System, contended: bool): System {
    var bridge := AfterPoll(s.bridge, contended);
    match PollResult(s.bridge, contended)
    case Ok(None) => s.(bridge := bridge)
    case Ok(Some(c)) => System(bridge, if Accepts(s.review, c) then s.review.(outcome := OutcomeOf(c)) else s.review)
    case Err(error) =>
      if error != Busy && s.review.outcome.Loading? then
        System(AfterCancel(bridge), s.review.(outcome := Failed(error)))
      else s.(bridge := bridge)
  }

  /** Each outcome shown for a completion by its exact condition. */
  ghost predicate Shows(outcome: Outcome, c: Completion) {
    && (forall evidence :: outcome == Ready(evidence) <==> c.result == Ok(evidence))
    && (outcome == WasCancelled <==> c.result == Err(Cancelled) || c.result == Err(ReviewFailed(ReviewCancelled)))
    && (forall error :: outcome == Failed(error) <==>
          c.result == Err(error) && error != Cancelled && error != ReviewFailed(ReviewCancelled))
  }

  /** A loading review takes over the completion of its own operation, and fails with the bridge; any
      other poll leaves it alone. */
  ghost predicate PollSettles(s: System, contended: bool, r: Result<bool, OperationError>, review: Review) {
    exists polled :: PollAnswers(s.bridge, contended, polled) && SettlesWith(s.review, polled, r, review)
  }

  ghost predicate SettlesWith(before: Review, polled: Result<Option<Completion>, OperationError>,
                              r: Result<bool, OperationError>, after: Review)
  {
    var waiting := before.outcome.Loading?;
    var awaited := waiting && polled.Ok? && polled.value.Some? && before.current == Some(polled.value.value.id);
    var broken := waiting && polled == Err(Stopped);
    && after == before.(outcome := after.outcome)
    && (r == Ok(true) <==> awaited || broken)
    && (r.Err? <==> polled.Err? && !broken) && (r.Err? ==> r.error == polled.error)
    && (awaited ==> Shows(after.outcome, polled.value.value))
    && (broken ==> after.outcome == Failed(Stopped))
    && (!awaited && !broken ==> after == before)
  }

  /** The retained inputs of a request, as lengths. */
  ghost predicate Discloses(disclosure: Option<Disclosure>, request: Request) {
    && disclosure.Some? && disclosure.value.sourceBytes == |request.source|
    && (disclosure.value.candidateBytes.None? <==> request.candidate.None?)
    && (request.candidate.Some? ==> disclosure.value.candidateBytes == Some(|request.candidate.value|))
  }

  /** The mutable reducer; it owns the operation it drives. */
  class DocumentReviewState {
    const operation: DocumentReviewOperation
    var review: Review

    ghost function View(): System
      reads this, operation
    {
      System(operation.View(), review)
    }

    constructor ()
      ensures Started(View()) && fresh(operation)
    {
      operation := new DocumentReviewOperation();
      review := Review(None, None, false, NotStarted);
    }

    /** Replaces evidence and disclosure only once the request is accepted. */
    method Submit(request: Request, contended: bool) returns (r: Result<nat, Failure>)
      modifies this, operation
      ensures View() == AfterSubmission(old(View()), request, contended)
      ensures r.Err? ==> r.error.request == request && View() == old(View())
      ensures r.Ok? ==> review.current == Some(r.value) && review.outcome.Loading?
      ensures r.Ok? ==> Discloses(review.disclosure, request) && !review.cancellationRequested
      ensures SubmitAnswers(old(operation.View()), request, contended, r, operation.View())
    {
      r := operation.Submit(request, contended);
      if r.Ok? {
        review := Review(Some(r.value), Some(DisclosureOf(request)), false, Loading);
      }
    }

    method Cancel()
      modifies this, operation
      ensures View() == AfterCancellation(old(View()))
      ensures !old(review).outcome.Loading? ==> View() == old(View())
      ensures old(review).outcome.Loading? ==>
                && review == old(review).(cancellationRequested := true)
                && (operation.latest.Some? ==> operation.latest.value in operation.cancelled)
    {
      if review.outcome.Loading? {
        operation.Cancel();
        review := review.(cancellationRequested := true);
      }
    }

    /** True exactly when a terminal outcome was taken over. */
    method Poll(contended: bool) returns (r: Result<bool, OperationError>)
      modifies this, operation
      ensures View() == AfterPolling(old(View()), contended)
      ensures r == Ok(true) <==> old(review).outcome.Loading? && review != old(review)
      ensures r == Err(Busy) ==> View() == old(View())
      ensures PollSettles(old(View()), contended, r, review)
    {
      var polled := operation.Poll(contended);
      assert PollAnswers(old(operation.View()), contended, polled);
      if polled.Ok? && polled.value.Some? { ShownExactly(polled.value.value); }
      match polled {
        case Ok(None) => return Ok(false);
        case Ok(Some(completion)) =>
          var accepted := Settle(completion);
          return Ok(accepted);
        case Err(error) =>
          if error != Busy && review.outcome.Loading? {
            operation.Cancel();
            review := review.(outcome := Failed(error));
            return Ok(true);
          }
          return Err(error);
      }
    }

    method Settle(completion: Completion) returns (accepted: bool)
      modifies this`review
      ensures accepted == Accepts(old(review), completion)
      ensures review == if accepted then old(review).(outcome := OutcomeOf(completion)) else old(review)
    {
      if !review.outcome.Loading? || review.current != Some(completion.id) { return false; }
      review := review.(outcome := OutcomeOf(completion));
      return true;
    }
  }

  lemma ShownExactly(c: Completion)
    ensures Shows(OutcomeOf(c), c)
  {
  }

  datatype Step =
    | SubmitReview(request: Request, contended: bool)
    | CancelReview
    | PollReview(contended: bool)
    | Background(step: ReviewOperation.Step)

  ghost predicate Enabled(reviews: Reviews, s: System, step: Step) {
    match step
    case Background(inner) =>
      !inner.Submit? && !inner.Poll? && !inner.Cancel? && ReviewOperation.Enabled(reviews, s.bridge, inner)
    case _ => true
  }

  function Apply(s: System, step: Step): System {
    match step
    case SubmitReview(request, contended) => AfterSubmission(s, request, contended)
    case CancelReview => AfterCancellation(s)
    case PollReview(contended) => AfterPolling(s, contended)
    case Background(inner) => s.(bridge := ReviewOperation.Apply(s.bridge, inner))
  }

  ghost predicate Started(s: System) {
    ReviewOperation.Init(s.bridge) && s.review == Review(None, None, false, NotStarted)
  }

  ghost predicate StepAt(reviews: Reviews, run: seq<System>, i: nat)
    requires i + 1 < |run|
  {
    exists step :: Enabled(reviews, run[i], step) && run[i + 1] == Apply(run[i], step)
  }

  ghost predicate IsRun(reviews: Reviews, run: seq<System>) {
    |run| > 0 && Started(run[0]) && forall i :: 0 <= i < |run| - 1 ==> StepAt(reviews, run, i)
  }

  /** The latest accepted request; its completion, if polled, is the last event. */
  function LatestAccepted(log: seq<Event>): Option<Event> {
    if |log| > 0 && log[|log| - 1].Accepted? then Some(log[|log| - 1])
    else if |log| > 1 && log[|log| - 2].Accepted? then Some(log[|log| - 2])
    else None
  }

  /** Reducer and bridge agree: the reducer shows the latest accepted request, and it is
      loading until that request's one completion arrives. */
  ghost predicate Agree(reviews: Reviews, s: System) {
    var b, r := s.bridge, s.review;
    var accepted := LatestAccepted(b.log);
    && ReviewOperation.Inv(reviews, b)
    && (b.log == [] ==> r == Review(None, None, false, NotStarted))
    && (b.log != [] ==>
          && accepted.Some? && accepted.value.Accepted?
          && r.current == Some(accepted.value.id) && accepted.value.id == b.sequence
          && r.disclosure == Some(DisclosureOf(accepted.value.request))
          && (b.log[|b.log| - 1].Polled? ==> r.outcome == OutcomeOf(b.log[|b.log| - 1].completion))
          && (b.log[|b.log| - 1].Accepted? ==> r.outcome.Loading? || (b.poisoned && r.outcome == Failed(Stopped)))
          && (r.cancellationRequested ==> b.sequence in b.cancelled))
  }

  lemma SubmissionKeeps(reviews: Reviews, s: System, request: Request, contended: bool)
    requires Agree(reviews, s)
    ensures Agree(reviews, AfterSubmission(s, request, contended))
  {
    SubmitKeeps(reviews, s.bridge, request, contended);
  }

  lemma CancellationKeeps(reviews: Reviews, s: System)
    requires Agree(reviews, s)
    ensures Agree(reviews, AfterCancellation(s))
  {
    CancelKeeps(reviews, s.bridge);
  }

  /** Whatever the bridge delivers, the reducer is waiting for exactly that. */
  lemma DeliveryIsAwaited(reviews: Reviews, s: System, contended: bool)
    requires Agree(reviews, s)
    requires PollResult(s.bridge, contended).Ok? && PollResult(s.bridge, contended).value.Some?
    ensures Accepts(s.review, PollResult(s.bridge, contended).value.value)
  {
  }

  lemma PollingKeeps(reviews: Reviews, s: System, contended: bool)
    requires Agree(reviews, s)
    ensures Agree(reviews, AfterPolling(s, contended))
  {
    hide ReviewOperation.LogOk, ReviewOperation.Bounded, ReviewOperation.Genuine;
    PollKeeps(reviews, s.bridge, contended);
    CancelKeeps(reviews, s.bridge);
    if PollResult(s.bridge, contended).Ok? && PollResult(s.bridge, contended).value.Some? {
      DeliveryIsAwaited(reviews, s, contended);
    }
  }

  lemma BackgroundKeeps(reviews: Reviews, s: System, inner: ReviewOperation.Step)
    requires Agree(reviews, s) && Enabled(reviews, s, Background(inner))
    ensures Agree(reviews, Apply(s, Background(inner)))
  {
    hide ReviewOperation.LogOk, ReviewOperation.Bounded, ReviewOperation.Genuine;
    ReviewSafety.StepKeeps(reviews, s.bridge, inner);
  }

  lemma {:induction false} RunAgrees(reviews: Reviews, run: seq<System>, i: nat)
    requires IsRun(reviews, run) && i < |run|
    ensures Agree(reviews, run[i])
  {
    if i > 0 {
      RunAgrees(reviews, run, i - 1);
      assert StepAt(reviews, run, i - 1);
      var step :| Enabled(reviews, run[i - 1], step) && run[i] == Apply(run[i - 1], step);
      match step {
        case SubmitReview(request, contended) => SubmissionKeeps(reviews, run[i - 1], request, contended);
        case CancelReview => CancellationKeeps(reviews, run[i - 1]);
        case PollReview(contended) => PollingKeeps(reviews, run[i - 1], contended);
        case Background(inner) => BackgroundKeeps(reviews, run[i - 1], inner);
      }
    }
  }

  // ----------------------------------------------------------------------------------
  // Guarantees over whole runs

  /** Loading means the bridge's latest operation is the reducer's current one; and every
      completion a poll hands out in any reachable state is accepted by the reducer. */
  lemma LoadingTracksLatest(reviews: Reviews, run: seq<System>, i: nat, contended: bool)
    requires IsRun(reviews, run) && i < |run|
    ensures run[i].review.outcome.Loading? ==>
              run[i].review.current.Some? && run[i].bridge.latest == run[i].review.current
    ensures PollResult(run[i].bridge, contended).Ok? && PollResult(run[i].bridge, contended).value.Some? ==>
              Accepts(run[i].review, PollResult(run[i].bridge, contended).value.value)
  {
    RunAgrees(reviews, run, i);
    if PollResult(run[i].bridge, contended).Ok? && PollResult(run[i].bridge, contended).value.Some? {
      DeliveryIsAwaited(reviews, run[i], contended);
    }
  }

  /** Evidence on display was produced from the latest accepted request. */
  lemma ReadyShowsLatest(reviews: Reviews, run: seq<System>, i: nat)
    requires IsRun(reviews, run) && i < |run| && run[i].review.outcome.Ready?
    ensures var accepted := LatestAccepted(run[i].bridge.log);
            && accepted.Some? && accepted.value.Accepted?
            && run[i].review.current == Some(accepted.value.id)
            && run[i].review.disclosure == Some(DisclosureOf(accepted.value.request))
            && reviews(accepted.value.request, run[i].review.outcome.evidence)
  {
    RunAgrees(reviews, run, i);
  }

  /** What is on display follows from the history: nothing before the first request, the last completion
      once it was polled, and loading or a broken bridge in between. */
  lemma DisplayFollowsHistory(reviews: Reviews, run: seq<System>, i: nat)
    requires IsRun(reviews, run) && i < |run|
    ensures var b, r := run[i].bridge, run[i].review;
            && (r.outcome.NotStarted? <==> b.log == [])
            && (r.outcome.Loading? ==> b.log != [] && b.log[|b.log| - 1].Accepted?)
            && (b.log != [] && b.log[|b.log| - 1].Accepted? ==>
                  && Discloses(r.disclosure, b.log[|b.log| - 1].request)
                  && r.current == Some(b.log[|b.log| - 1].id)
                  && (r.outcome.Loading? || (b.poisoned && r.outcome == Failed(Stopped))))
            && (b.log != [] && b.log[|b.log| - 1].Polled? ==>
                  && Shows(r.outcome, b.log[|b.log| - 1].completion)
                  && r.current == Some(b.log[|b.log| - 1].completion.id)
                  && |b.log| > 1 && b.log[|b.log| - 2].Accepted?
                  && Discloses(r.disclosure, b.log[|b.log| - 2].request))
  {
    RunAgrees(reviews, run, i);
    var log := run[i].bridge.log;
    if log != [] && log[|log| - 1].Polled? { ShownExactly(log[|log| - 1].completion); }
  }

  /** A stopped or poisoned bridge leaves no review loading: one poll that gets the mailbox settles it, with
      cancellation, with what its worker had finished, or as failed. */
  lemma StoppedSettles(reviews: Reviews, run: seq<System>, i: nat)
    requires IsRun(reviews, run) && i < |run|
    requires run[i].bridge.stopped || run[i].bridge.poisoned
    ensures var b, before, after := run[i].bridge, run[i].review, AfterPolling(run[i], false).review;
            && !after.outcome.Loading?
            && (!before.outcome.Loading? ==> after == before)
            && (before.outcome.Loading? ==>
                  && before.current.Some?
                  && var id := before.current.value;
                  && (b.poisoned ==> after.outcome == Failed(Stopped))
                  && (!b.poisoned && id in b.cancelled ==> after.outcome == WasCancelled)
                  && (!b.poisoned && id !in b.cancelled && Published(b, id) ==>
                        Shows(after.outcome, b.mailbox.completed.value))
                  && (!b.poisoned && id !in b.cancelled && !Published(b, id) ==> after.outcome == Failed(Stopped)))
  {
    RunAgrees(reviews, run, i);
    LoadingTracksLatest(reviews, run, i, false);
    if Published(run[i].bridge, run[i].bridge.sequence) { ShownExactly(run[i].bridge.mailbox.completed.value); }
  }

  /** And it stays settled: nothing changes the display of a stopped bridge once it is not loading. */
  lemma {:induction false} SettledForGood(reviews: Reviews, run: seq<System>, i: nat, j: nat)
    requires IsRun(reviews, run) && i <= j < |run|
    requires run[i].bridge.stopped && !run[i].review.outcome.Loading?
    ensures run[j].bridge.stopped && run[j].review == run[i].review
  {
    hide ReviewOperation.LogOk, ReviewOperation.Bounded, ReviewOperation.Genuine;
    if i < j {
      SettledForGood(reviews, run, i, j - 1);
      RunAgrees(reviews, run, j - 1);
      assert StepAt(reviews, run, j - 1);
    }
  }

  /** A review cancelled while loading never becomes ready: as long as nothing newer was
      accepted, no later state shows evidence. */
  lemma CancelledReviewIsNeverReady(reviews: Reviews, run: seq<System>, i: nat, j: nat)
    requires IsRun(reviews, run) && i <= j < |run|
    requires run[i].review.cancellationRequested && run[j].review.current == run[i].review.current
    ensures !run[j].review.outcome.Ready?
  {
    RunAgrees(reviews, run, i);
    RunAgrees(reviews, run, j);
    CancellationIsPermanent(reviews, run, i, j);
  }

  lemma {:induction false} CancellationIsPermanent(reviews: Reviews, run: seq<System>, i: nat, j: nat)
    requires IsRun(reviews, run) && i <= j < |run|
    ensures run[i].bridge.cancelled <= run[j].bridge.cancelled
  {
    if i < j {
      CancellationIsPermanent(reviews, run, i, j - 1);
      assert StepAt(reviews, run, j - 1);
    }
  }
}
