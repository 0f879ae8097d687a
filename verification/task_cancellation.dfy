/** Which cancellations count: one the worker can still see is final, one it cannot see any more
    is a race, and without a request nothing is cancelled. */
module TaskCancellation {
  import opened Ordering
  import opened TaskProtocol

  // ---- Seen by the worker ---------------------------------------------------------

  /** Cancelled before the worker's check, or because of it. */
  predicate Stopped(t: Task) {
    t.status == Cancelled && t.result.None? && (t.worker == Sleeping || t.worker == Checking || t.worker == Exited)
  }

  /** The replies from position `from` on hold no result. */
  ghost predicate NoResultSince(t: Task, from: nat) {
    from <= |t.replies| && forall i :: from <= i < |t.replies| ==> !t.replies[i].StoredResult?
  }

  lemma {:induction false} StoppedStays(t: Task, steps: seq<Step>, from: nat)
    requires Stopped(t) && NoResultSince(t, from) && Possible(t, steps)
    ensures Stopped(Run(t, steps)) && NoResultSince(Run(t, steps), from)
    decreases |steps|
  {
    if steps != [] { StoppedStays(Next(t, steps[0]), steps[1..], from); }
  }

  /** A task that is cancelled after its worker's first mark and before its check stays
      cancelled, stores no result and sends none, whatever happens next. */
  lemma CancellationSticks(output: int, steps: seq<Step>, more: seq<Step>)
    requires Possible(NewTask(output), steps) && Possible(Run(NewTask(output), steps), more)
    requires var t := Run(NewTask(output), steps); t.status == Cancelled && (t.worker == Sleeping || t.worker == Checking)
    ensures var t := Run(NewTask(output), steps);
            var after := Run(t, more);
            after.status == Cancelled && after.result.None? && NoResultSince(after, |t.replies|)
  {
    RunKeepsInvariant(NewTask(output), steps);
    var t := Run(NewTask(output), steps);
    StoppedStays(t, more, |t.replies|);
  }

  // ---- Not seen by the worker ---------------------------------------------------------

  predicate Past(t: Task) {
    t.worker == Storing || ((t.worker == Finishing || t.worker == Notifying || t.worker == Exited) && t.result == Some(t.output))
  }

  lemma {:induction false} PastStays(t: Task, steps: seq<Step>)
    requires Past(t) && Possible(t, steps)
    ensures Past(Run(t, steps)) && Run(t, steps).output == t.output
    decreases |steps|
  {
    if steps != [] { PastStays(Next(t, steps[0]), steps[1..]); }
  }

  /** What the check decides: once the worker is through, there is a result exactly if the task
      was not cancelled when the worker looked. */
  lemma ResultIffUncancelledAtCheck(output: int, steps: seq<Step>, more: seq<Step>)
    requires Possible(NewTask(output), steps) && Run(NewTask(output), steps).worker == Checking
    requires var u := Next(Run(NewTask(output), steps), WorkerStep); Possible(u, more) && WorkerSteps(more) >= WorkLeft(u.worker)
    ensures var t := Run(NewTask(output), steps);
            var after := Run(Next(t, WorkerStep), more);
            && after.worker == Exited
            && after.result == if t.status == Cancelled then None else Some(output)
  {
    RunKeepsInvariant(NewTask(output), steps);
    var t := Run(NewTask(output), steps);
    var u := Next(t, WorkerStep);
    WorkRunsOut(u, more);
    if t.status == Cancelled { StoppedStays(u, more, |u.replies|); } else { PastStays(u, more); }
  }

  // ---- Without a request ------------------------------------------------------------------

  predicate NoCancelRequest(steps: seq<Step>) {
    forall i :: 0 <= i < |steps| ==> steps[i] != Arrive(CancelRequest)
  }

  predicate Undisturbed(t: Task) {
    && (t.status == Working || t.status == Completed) && t.loop != CancelRead && t.loop != CancelMark && t.loop != CancelReply
    && (t.worker != Notifying && t.worker != Exited ==> t.status == Working)
    && (t.worker == Notifying || t.worker == Exited ==> t.status == Completed)
  }

  lemma {:induction false} UndisturbedStays(t: Task, steps: seq<Step>)
    requires Undisturbed(t) && Possible(t, steps) && NoCancelRequest(steps)
    ensures Undisturbed(Run(t, steps))
    decreases |steps|
  {
    if steps != [] {
      assert NoCancelRequest(steps[1..]);
      UndisturbedStays(Next(t, steps[0]), steps[1..]);
    }
  }

  /** A task that nobody asks to cancel is working until it completes, and completes. */
  lemma NobodyCancels(output: int, steps: seq<Step>)
    requires Possible(NewTask(output), steps) && NoCancelRequest(steps)
    ensures var t := Run(NewTask(output), steps);
            && (t.status == Working || t.status == Completed)
            && (WorkerSteps(steps) >= 6 ==> t.status == Completed && t.result == Some(output))
  {
    WorkRunsOut(NewTask(output), steps);
    UndisturbedStays(NewTask(output), steps);
    RunKeepsInvariant(NewTask(output), steps);
  }

  // ---- Requests --------------------------------------------------------------------------------

  predicate WorkerOnly(steps: seq<Step>) {
    forall i :: 0 <= i < |steps| ==> steps[i] == WorkerStep
  }

  lemma {:induction false} LoopWaits(t: Task, steps: seq<Step>)
    requires Possible(t, steps) && WorkerOnly(steps)
    ensures Run(t, steps).loop == t.loop && Run(t, steps).replies == t.replies
    decreases |steps|
  {
    if steps != [] {
      assert WorkerOnly(steps[1..]);
      LoopWaits(Next(t, steps[0]), steps[1..]);
    }
  }

  /** A cancel request changes the status exactly if it finds the task working: then to
      cancelled, whatever the worker does before the mark; else it is dropped. */
  lemma CancelRequestTakesEffect(t: Task, before: seq<Step>, between: seq<Step>)
    requires t.loop == Idle && WorkerOnly(before) && WorkerOnly(between)
    requires Possible(Next(t, Arrive(CancelRequest)), before)
    requires Possible(Next(Run(Next(t, Arrive(CancelRequest)), before), LoopStep), between)
    ensures var seen := Run(Next(t, Arrive(CancelRequest)), before);
            var u := Run(Next(seen, LoopStep), between);
            if seen.status == Working then Enabled(u, LoopStep) && Next(u, LoopStep).status == Cancelled
            else Next(seen, LoopStep) == seen.(loop := Idle)
  {
    LoopWaits(Next(t, Arrive(CancelRequest)), before);
    LoopWaits(Next(Run(Next(t, Arrive(CancelRequest)), before), LoopStep), between);
  }

  lemma {:induction false} DoneStays(t: Task, steps: seq<Step>)
    requires IsTerminal(t.status) && (t.worker == Notifying || t.worker == Exited) && t.loop != CancelMark && Possible(t, steps)
    ensures Run(t, steps).status == t.status
    decreases |steps|
  {
    if steps != [] { DoneStays(Next(t, steps[0]), steps[1..]); }
  }

  /** Behind the worker's final mark no later request changes the status. */
  lemma FinishedTasksStay(output: int, steps: seq<Step>, more: seq<Step>)
    requires Possible(NewTask(output), steps) && Possible(Run(NewTask(output), steps), more)
    requires var t := Run(NewTask(output), steps); (t.worker == Notifying || t.worker == Exited) && t.loop != CancelMark
    ensures Run(Run(NewTask(output), steps), more).status == Run(NewTask(output), steps).status
  {
    RunKeepsInvariant(NewTask(output), steps);
    DoneStays(Run(NewTask(output), steps), more);
  }

  // ---- Waits that ended early -------------------------------------------------------------------

  /** The loop is answering after a wait that ended before the worker's first mark. */
  predicate AnswersEarly(t: Task) {
    (t.loop.ReadCancelled? || t.loop.ReadFailed? || t.loop.ReadResult?) && t.loop.early
  }

  /** Step `k` is the end of such a wait: it finds the task cancelled, and its worker not begun. */
  ghost predicate WaitEndsEarly(t: Task, steps: seq<Step>, k: nat) {
    k < |steps| && steps[k] == LoopStep && var u := Run(t, steps[..k]);
                                            u.loop == Waiting && u.worker == Created && u.status == Cancelled
  }

  lemma {:induction false} EarlyFrom(t: Task, steps: seq<Step>) returns (k: nat)
    requires Invariant(t) && Possible(t, steps) && !AnswersEarly(t) && t.loop != CancelMark && AnswersEarly(Run(t, steps))
    ensures WaitEndsEarly(t, steps, k)
    decreases |steps|
  {
    var u := Next(t, steps[0]);
    if t.loop == Waiting && AnswersEarly(u) {
      k := 0;
      assert steps[..0] == [];
    } else {
      StepKeepsInvariant(t, steps[0]);
      if u.loop == CancelMark {
        k := EarlyAfterMark(u, steps[1..]);
      } else {
        k := EarlyFrom(u, steps[1..]);
      }
      k := k + 1;
      assert steps[..k][0] == steps[0] && steps[..k][1..] == steps[1..][..k - 1];
    }
  }

  /** Behind a decided cancellation the loop is never answering. */
  lemma {:induction false} EarlyAfterMark(t: Task, steps: seq<Step>) returns (k: nat)
    requires Invariant(t) && Possible(t, steps) && t.loop == CancelMark && AnswersEarly(Run(t, steps))
    ensures WaitEndsEarly(t, steps, k)
    decreases |steps|
  {
    var u := Next(t, steps[0]);
    StepKeepsInvariant(t, steps[0]);
    if u.loop == CancelMark { k := EarlyAfterMark(u, steps[1..]); } else { k := EarlyFrom(u, steps[1..]); }
    k := k + 1;
    assert steps[..k][0] == steps[0] && steps[..k][1..] == steps[1..][..k - 1];
  }

  /** So over every run, the empty stand-in goes back to a wait that found the task cancelled
      before its worker's first mark. */
  lemma EmptyAnswersComeFromEarlyWaits(output: int, steps: seq<Step>, step: Step) returns (k: nat)
    requires Possible(NewTask(output), steps) && Enabled(Run(NewTask(output), steps), step)
    requires Next(Run(NewTask(output), steps), step).replies == Run(NewTask(output), steps).replies + [EmptyResult]
    ensures WaitEndsEarly(NewTask(output), steps, k)
  {
    EmptyReplyIff(output, steps, step);
    k := EarlyFrom(NewTask(output), steps);
  }
}
