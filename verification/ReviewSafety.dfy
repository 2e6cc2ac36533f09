/** What the latest-wins bridge guarantees over every interleaving. */
module ReviewSafety {
  import opened Text
  import opened ReviewOperation

  lemma AcceptedOnce(reviews: Reviews, b: Bridge, request: Request)
    requires Inv(reviews, b) && b.latest.Some? && WasAccepted(b.log, b.latest.value, request)
    ensures b.log[|b.log| - 1] == Accepted(b.latest.value, request)
  {
    var i :| 0 <= i < |b.log| && b.log[i] == Accepted(b.latest.value, request);
    assert i == |b.log| - 1;
  }

  lemma SubmitKeeps(reviews: Reviews, b: Bridge, request: Request, contended: bool)
    requires Inv(reviews, b)
    ensures Inv(reviews, AfterSubmit(b, request, contended))
  {
    var b' := AfterSubmit(b, request, contended);
    if b' != b {
      assert b'.log[|b.log|] == Accepted(b.sequence + 1, request);
      forall j | 0 <= j < |b'.log| && b'.log[j].Polled?
        ensures && j > 0 && b'.log[j - 1].Accepted? && b'.log[j - 1].id == b'.log[j].completion.id
                && (b'.log[j].completion.result.Ok? ==>
                    reviews(b'.log[j - 1].request, b'.log[j].completion.result.value))
                && (b'.log[j].completion.id in b'.cancelled <==> b'.log[j].completion.result == Err(Cancelled))
      {
        assert b.log[j] == b'.log[j];
        if b.latest.Some? { assert b.log[j - 1].id < b.log[|b.log| - 1].id; }
      }
      if b.worker.Running? { assert Accepted(b.worker.job.id, b.worker.job.request) in b.log; }
    }
  }

  lemma CancelKeeps(reviews: Reviews, b: Bridge)
    requires Inv(reviews, b)
    ensures Inv(reviews, AfterCancel(b))
  {
    var b' := AfterCancel(b);
    if b.latest.Some? {
      forall j | 0 <= j < |b.log| && b.log[j].Polled?
        ensures b.log[j].completion.id in b'.cancelled <==> b.log[j].completion.result == Err(Cancelled)
      {
        assert b.log[j - 1].id < b.log[|b.log| - 1].id;
      }
    }
  }

  /** A delivered completion belongs right after the acceptance it answers. */
  lemma PollExtendsLog(reviews: Reviews, b: Bridge)
    requires Inv(reviews, b) && Delivery(b).Some?
    ensures LogOk(reviews, b.log + [Polled(Delivery(b).value)], b.cancelled)
  {
    var c := Delivery(b).value;
    var log := b.log + [Polled(c)];
    if c.result.Ok? {
      var request :| WasAccepted(b.log, c.id, request) && reviews(request, c.result.value);
      AcceptedOnce(reviews, b, request);
    }
    forall j | 0 <= j < |log| && log[j].Polled?
      ensures && j > 0 && log[j - 1].Accepted? && log[j - 1].id == log[j].completion.id
              && (log[j].completion.result.Ok? ==> reviews(log[j - 1].request, log[j].completion.result.value))
              && (log[j].completion.id in b.cancelled <==> log[j].completion.result == Err(Cancelled))
    {
      if j < |b.log| { assert b.log[j] == log[j]; }
    }
  }

  lemma PollKeeps(reviews: Reviews, b: Bridge, contended: bool)
    requires Inv(reviews, b)
    ensures Inv(reviews, AfterPoll(b, contended))
  {
    hide LogOk;
    if AfterPoll(b, contended).log != b.log {
      PollExtendsLog(reviews, b);
      if b.worker.Running? { assert Accepted(b.worker.job.id, b.worker.job.request) in b.log; }
      if b.mailbox.pending.Some? {
        assert Accepted(b.mailbox.pending.value.id, b.mailbox.pending.value.request) in b.log;
      }
    }
  }

  lemma StepKeeps(reviews: Reviews, b: Bridge, step: Step)
    requires Inv(reviews, b) && Enabled(reviews, b, step)
    ensures Inv(reviews, Apply(b, step))
  {
    match step {
      case Submit(request, contended) => SubmitKeeps(reviews, b, request, contended);
      case Cancel => CancelKeeps(reviews, b);
      case Poll(contended) => PollKeeps(reviews, b, contended);
      case Shutdown => CancelKeeps(reviews, b);
      case _ =>
    }
  }

  lemma {:induction false} RunInv(reviews: Reviews, run: seq<Bridge>, i: nat)
    requires IsRun(reviews, run) && i < |run|
    ensures Inv(reviews, run[i])
  {
    if i > 0 {
      RunInv(reviews, run, i - 1);
      assert StepAt(reviews, run, i - 1);
      var step :| Enabled(reviews, run[i - 1], step) && run[i] == Apply(run[i - 1], step);
      StepKeeps(reviews, run[i - 1], step);
    }
  }

  // ----------------------------------------------------------------------------------
  // Guarantees over whole runs

  lemma StepGrows(reviews: Reviews, b: Bridge, step: Step)
    requires Enabled(reviews, b, step)
    ensures b.log <= Apply(b, step).log && b.cancelled <= Apply(b, step).cancelled
              && b.sequence <= Apply(b, step).sequence
  {
  }

  /** The history only grows, so what holds of the last log holds of the whole run. */
  lemma {:induction false} HistoryGrows(reviews: Reviews, run: seq<Bridge>, i: nat, j: nat)
    requires IsRun(reviews, run) && i <= j < |run|
    ensures run[i].log <= run[j].log && run[i].cancelled <= run[j].cancelled && run[i].sequence <= run[j].sequence
  {
    hide Enabled, Apply;
    if i < j {
      HistoryGrows(reviews, run, i, j - 1);
      assert StepAt(reviews, run, j - 1);
      var step :| Enabled(reviews, run[j - 1], step) && run[j] == Apply(run[j - 1], step);
      StepGrows(reviews, run[j - 1], step);
    }
  }

  /** Each accepted identity yields at most one completion, and one that was superseded
      before its completion was polled yields none: the only completion of the request
      accepted at position `k` is the very next event. */
  lemma AtMostOneCompletion(reviews: Reviews, run: seq<Bridge>, i: nat, k: nat, j: nat)
    requires IsRun(reviews, run) && i < |run|
    requires k < |run[i].log| && j < |run[i].log| && run[i].log[k].Accepted? && run[i].log[j].Polled?
    ensures run[i].log[j].completion.id == run[i].log[k].id <==> j == k + 1
  {
    RunInv(reviews, run, i);
    var log := run[i].log;
    assert log[j - 1].Accepted? && log[j - 1].id == log[j].completion.id;
    if j - 1 < k {
      assert log[j - 1].id < log[k].id;
    } else if k < j - 1 {
      assert log[k].id < log[j - 1].id;
    }
  }

  /** Identities strictly increase over every run and are never reused. */
  lemma IdentitiesIncrease(reviews: Reviews, run: seq<Bridge>, i: nat, j: nat, k: nat)
    requires IsRun(reviews, run) && i < |run| && j < k < |run[i].log|
    requires run[i].log[j].Accepted? && run[i].log[k].Accepted?
    ensures 0 < run[i].log[j].id < run[i].log[k].id <= MAX_SEQUENCE
  {
    RunInv(reviews, run, i);
  }

  /** A cancelled operation reports cancellation, whatever its worker finished, now or
      at any later point of the run; and nothing else reports it. */
  lemma CancelledNeverSucceeds(reviews: Reviews, run: seq<Bridge>, i: nat, j: nat, k: nat, id: nat)
    requires IsRun(reviews, run) && i <= j < |run| && id in run[i].cancelled
    requires k < |run[j].log| && run[j].log[k].Polled? && run[j].log[k].completion.id == id
    ensures run[j].log[k].completion.result == Err(Cancelled)
  {
    RunInv(reviews, run, j);
    HistoryGrows(reviews, run, i, j);
  }

  /** Evidence handed out was produced by reviewing exactly the request it answers. */
  lemma EvidenceAnswersItsRequest(reviews: Reviews, run: seq<Bridge>, i: nat, j: nat)
    requires IsRun(reviews, run) && i < |run| && j < |run[i].log|
    requires run[i].log[j].Polled? && run[i].log[j].completion.result.Ok?
    ensures j > 0 && run[i].log[j - 1].Accepted?
    ensures reviews(run[i].log[j - 1].request, run[i].log[j].completion.result.value)
  {
    RunInv(reviews, run, i);
  }

  // ----------------------------------------------------------------------------------
  // The code's own worker

  /** The worker publishes exactly when the code's condition holds. */
  ghost predicate CodeStep(b: Bridge, step: Step) {
    step.WorkerFinish? ==> (step.publish <==> CodePublishes(b) && !b.poisoned)
  }

  ghost predicate CodeStepAt(reviews: Reviews, run: seq<Bridge>, i: nat)
    requires i + 1 < |run|
  {
    exists step :: Enabled(reviews, run[i], step) && CodeStep(run[i], step) && run[i + 1] == Apply(run[i], step)
  }

  ghost predicate IsCodeRun(reviews: Reviews, run: seq<Bridge>) {
    |run| > 0 && Init(run[0]) && forall i :: 0 <= i < |run| - 1 ==> CodeStepAt(reviews, run, i)
  }

  lemma CodeRunIsRun(reviews: Reviews, run: seq<Bridge>)
    requires IsCodeRun(reviews, run)
    ensures IsRun(reviews, run)
  {
    forall i | 0 <= i < |run| - 1 ensures StepAt(reviews, run, i) {
      assert CodeStepAt(reviews, run, i);
    }
  }

  /** No stale completion, and none of a job still pending or running. */
  ghost predicate OnlyLatest(b: Bridge) {
    var m := b.mailbox;
    && (m.completed.Some? ==> b.latest == Some(m.completed.value.id) && m.pending.None?)
    && (m.pending.Some? ==> m.pending.value.id == b.sequence)
    && (b.worker.Running? ==> b.worker.job.id <= b.sequence)
    && (b.worker.Running? && (m.pending.Some? || m.completed.Some?) ==> b.worker.job.id < b.sequence)
  }

  lemma StepKeepsOnlyLatest(reviews: Reviews, b: Bridge, step: Step)
    requires Inv(reviews, b) && OnlyLatest(b) && Enabled(reviews, b, step) && CodeStep(b, step)
    ensures OnlyLatest(Apply(b, step))
  {
  }

  /** With the code's worker the mailbox never holds a stale completion. */
  lemma {:induction false} MailboxHoldsOnlyLatest(reviews: Reviews, run: seq<Bridge>, i: nat)
    requires IsCodeRun(reviews, run) && i < |run|
    ensures OnlyLatest(run[i])
  {
    if i > 0 {
      MailboxHoldsOnlyLatest(reviews, run, i - 1);
      CodeRunIsRun(reviews, run);
      RunInv(reviews, run, i - 1);
      assert CodeStepAt(reviews, run, i - 1);
      var step :| Enabled(reviews, run[i - 1], step) && CodeStep(run[i - 1], step) && run[i] == Apply(run[i - 1], step);
      StepKeepsOnlyLatest(reviews, run[i - 1], step);
    }
  }

  /** Nothing finished for the latest, uncancelled operation is ever lost: once the code's
      worker published it, the next poll that gets the mailbox hands it out unchanged. */
  lemma PublishedIsDelivered(reviews: Reviews, run: seq<Bridge>, i: nat)
    requires IsCodeRun(reviews, run) && i < |run|
    requires run[i].mailbox.completed.Some? && !run[i].poisoned
    requires run[i].mailbox.completed.value.id !in run[i].cancelled
    ensures PollResult(run[i], false) == Ok(run[i].mailbox.completed)
  {
    MailboxHoldsOnlyLatest(reviews, run, i);
  }

  // ----------------------------------------------------------------------------------
  // No accepted operation is forgotten

  /** Work for operation `id` is waiting, under way or finished, or the worker is gone. */
  ghost predicate InFlight(b: Bridge, id: nat) {
    || (b.mailbox.pending.Some? && b.mailbox.pending.value.id == id)
    || (b.worker.Running? && b.worker.job.id == id)
    || Published(b, id)
    || b.worker.Exited?
  }

  /** Shutdown cancels, the bridge stops only after its worker, and the latest operation is in flight. */
  ghost predicate Attended(b: Bridge) {
    && (b.shutdown && b.latest.Some? ==> b.latest.value in b.cancelled)
    && (b.stopped ==> b.supervisor.Cleaned?)
    && (b.supervisor.Cleaned? ==> b.worker.Exited?)
    && (b.latest.Some? && b.latest.value !in b.cancelled && !b.poisoned ==> InFlight(b, b.latest.value))
  }

  lemma StepKeepsAttended(reviews: Reviews, b: Bridge, step: Step)
    requires Inv(reviews, b) && OnlyLatest(b) && Attended(b) && Enabled(reviews, b, step) && CodeStep(b, step)
    ensures Attended(Apply(b, step))
  {
    hide LogOk;
  }

  lemma {:induction false} RunAttends(reviews: Reviews, run: seq<Bridge>, i: nat)
    requires IsCodeRun(reviews, run) && i < |run|
    ensures Attended(run[i])
  {
    hide Enabled, Apply, CodeStep, Inv, OnlyLatest;
    if i > 0 {
      RunAttends(reviews, run, i - 1);
      CodeRunIsRun(reviews, run);
      RunInv(reviews, run, i - 1);
      MailboxHoldsOnlyLatest(reviews, run, i - 1);
      assert CodeStepAt(reviews, run, i - 1);
      var step :| Enabled(reviews, run[i - 1], step) && CodeStep(run[i - 1], step) && run[i] == Apply(run[i - 1], step);
      StepKeepsAttended(reviews, run[i - 1], step);
    }
  }

  /** A poll that gets the mailbox and still has nothing to say means that the latest operation was not
      cancelled, the bridge has not stopped, and its work is waiting or under way or its worker is gone. */
  lemma NothingMeansUnderWay(reviews: Reviews, run: seq<Bridge>, i: nat, id: nat)
    requires IsCodeRun(reviews, run) && i < |run| && run[i].latest == Some(id)
    ensures PollResult(run[i], false) == Ok(None) <==>
              && !run[i].poisoned && id !in run[i].cancelled && !run[i].stopped
              && run[i].mailbox.completed.None?
    ensures PollResult(run[i], false) == Ok(None) ==>
              && !run[i].shutdown
              && (|| (run[i].mailbox.pending.Some? && run[i].mailbox.pending.value.id == id)
                  || (run[i].worker.Running? && run[i].worker.job.id == id)
                  || run[i].worker.Exited?)
  {
    RunAttends(reviews, run, i);
    MailboxHoldsOnlyLatest(reviews, run, i);
  }

  /** A stopped bridge answers its latest operation at the next poll that gets the mailbox: with
      cancellation, with what its worker had finished, or with `Stopped`; then nothing is latest. */
  lemma StoppedIsAnswered(reviews: Reviews, run: seq<Bridge>, i: nat, id: nat)
    requires IsCodeRun(reviews, run) && i < |run|
    requires run[i].stopped && !run[i].poisoned && run[i].latest == Some(id)
    ensures run[i].worker.Exited?
    ensures var b, r := run[i], PollResult(run[i], false);
            && r.Ok? && r.value.Some? && r.value.value.id == id
            && (r.value.value.result == Err(Cancelled) <==> id in b.cancelled)
            && (id !in b.cancelled && b.mailbox.completed.Some? ==> r.value == b.mailbox.completed)
            && (id !in b.cancelled && b.mailbox.completed.None? ==> r.value.value.result == Err(Stopped))
    ensures var b' := AfterPoll(run[i], false);
            && b'.latest.None? && b'.mailbox.latest.None? && b'.mailbox.completed.None?
            && b'.log == run[i].log + [Polled(PollResult(run[i], false).value.value)]
  {
    RunAttends(reviews, run, i);
    MailboxHoldsOnlyLatest(reviews, run, i);
    CodeRunIsRun(reviews, run);
    RunInv(reviews, run, i);
  }

  /** Nothing is accepted and nothing is finished any more once the bridge has stopped: the mailbox keeps
      its one completion until it is polled, and afterwards the history stands still. */
  lemma {:induction false} StoppedStandsStill(reviews: Reviews, run: seq<Bridge>, i: nat, j: nat)
    requires IsCodeRun(reviews, run) && i <= j < |run| && run[i].stopped
    ensures run[j].stopped && run[j].sequence == run[i].sequence
    ensures run[j].latest == run[i].latest || run[j].latest.None?
    ensures run[j].latest.Some? ==> run[j].mailbox.completed == run[i].mailbox.completed && run[j].log == run[i].log
    ensures run[i].latest.None? ==> run[j].log == run[i].log
    ensures |run[j].log| <= |run[i].log| + 1
    ensures run[j].log != run[i].log ==> run[j].latest.None?
  {
    hide LogOk;
    if i < j {
      StoppedStandsStill(reviews, run, i, j - 1);
      RunAttends(reviews, run, j - 1);
      assert CodeStepAt(reviews, run, j - 1);
      var step :| Enabled(reviews, run[j - 1], step) && CodeStep(run[j - 1], step) && run[j] == Apply(run[j - 1], step);
      StoppedStep(reviews, run[j - 1], step);
    }
  }

  lemma StoppedStep(reviews: Reviews, b: Bridge, step: Step)
    requires Attended(b) && b.stopped && Enabled(reviews, b, step)
    ensures var b' := Apply(b, step);
            && b'.stopped && b'.sequence == b.sequence
            && (if b'.latest == b.latest then b'.log == b.log
                else b'.latest.None? && |b'.log| == |b.log| + 1)
            && (b'.latest.Some? ==> b'.mailbox.completed == b.mailbox.completed)
  {
  }
}
