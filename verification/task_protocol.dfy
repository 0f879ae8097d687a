/** One task of the probe server: its worker thread interleaved with the
    single-threaded message loop, one status read or one `mark` at a time. */
module TaskProtocol {
  import opened Ordering

  datatype Status = Working | Completed | Failed | Cancelled

  predicate IsTerminal(s: Status) { !s.Working? }

  /** Where `_execute_task` stands: before its first mark, before the sleep ends,
      before the status check, before storing the result, before the final mark,
      before the final notification, or returned. */
  datatype WorkerAt = Created | Sleeping | Checking | Storing | Finishing | Notifying | Exited

  /** Where the message loop stands with this task. `early` remembers whether the
      worker had not made its first mark when a wait ended. */
  datatype LoopAt =
    | Idle
    | CancelRead | CancelMark | CancelReply
    | Waiting | ReadCancelled(early: bool) | ReadFailed(early: bool) | ReadResult(early: bool)

  datatype Reply = CancelledError | FailedError | StoredResult(value: int) | EmptyResult

  /** `output` is the result this task's worker will store. */
  datatype Task = Task(status: Status, result: Option<int>, worker: WorkerAt, loop: LoopAt, replies: seq<Reply>, output: int)

  function NewTask(output: int): Task { Task(Working, None, Created, Idle, [], output) }

  datatype Message = CancelRequest | ResultRequest | OtherRequest

  datatype Step = WorkerStep | LoopStep | Arrive(message: Message)

  predicate Enabled(t: Task, step: Step) {
    match step
    case WorkerStep => t.worker != Exited
    case LoopStep => t.loop != Idle
    case Arrive(_) => t.loop == Idle
  }

  function WorkerNext(t: Task): Task {
    match t.worker
    case Created => t.(status := Working, worker := Sleeping)
    case Sleeping => t.(worker := Checking)
    case Checking => if t.status == Cancelled then t.(worker := Exited) else t.(worker := Storing)
    case Storing => t.(result := Some(t.output), worker := Finishing)
    case Finishing => t.(status := Completed, worker := Notifying)
    case Notifying => t.(worker := Exited)
    case Exited => t
  }

  function LoopNext(t: Task): Task {
    match t.loop
    case Idle => t
    case CancelRead => if IsTerminal(t.status) then t.(loop := Idle) else t.(loop := CancelMark)
    case CancelMark => t.(status := Cancelled, loop := CancelReply)
    case CancelReply => t.(loop := Idle)
    case Waiting => if IsTerminal(t.status) then t.(loop := ReadCancelled(t.worker == Created)) else t
    case ReadCancelled(early) =>
      if t.status == Cancelled then t.(replies := t.replies + [CancelledError], loop := Idle)
      else t.(loop := ReadFailed(early))
    case ReadFailed(early) =>
      if t.status == Failed then t.(replies := t.replies + [FailedError], loop := Idle)
      else t.(loop := ReadResult(early))
    case ReadResult(_) =>
      var reply := match t.result case Some(v) => StoredResult(v) case None => EmptyResult;
      t.(replies := t.replies + [reply], loop := Idle)
  }

  function Next(t: Task, step: Step): Task {
    match step
    case WorkerStep => WorkerNext(t)
    case LoopStep => LoopNext(t)
    case Arrive(CancelRequest) => t.(loop := CancelRead)
    case Arrive(ResultRequest) => t.(loop := Waiting)
    case Arrive(OtherRequest) => t
  }

  predicate Possible(t: Task, steps: seq<Step>)
    decreases |steps|
  {
    steps == [] || (Enabled(t, steps[0]) && Possible(Next(t, steps[0]), steps[1..]))
  }

  function Run(t: Task, steps: seq<Step>): Task
    decreases |steps|
  {
    if steps == [] then t else Run(Next(t, steps[0]), steps[1..])
  }

  // ---- What every interleaving keeps ----------------------------------------------------

  predicate Returned(w: WorkerAt) { w == Notifying || w == Exited }

  /** The result is there before the status says so, the worker leaves only behind a
      terminal status, nothing ever fails, and a wait that ended after the worker's
      first mark can rely on the result. */
  predicate Invariant(t: Task) {
    && t.status != Failed
    && (t.result.Some? ==> t.result.value == t.output && t.worker in {Finishing, Notifying, Exited})
    && (t.worker in {Finishing, Notifying} ==> t.result.Some?)
    && (t.status == Completed ==> t.result.Some? && Returned(t.worker))
    && (Returned(t.worker) ==> IsTerminal(t.status))
    && (t.loop == CancelMark || t.worker != Created || t.status in {Working, Cancelled})
    && (t.loop.ReadCancelled? && !t.loop.early ==> IsTerminal(t.status) && t.worker != Created)
    && ((t.loop.ReadFailed? || t.loop.ReadResult?) && !t.loop.early ==> t.result.Some?)
  }

  lemma StepKeepsInvariant(t: Task, step: Step)
    requires Invariant(t) && Enabled(t, step)
    ensures Invariant(Next(t, step))
  {
  }

  lemma {:induction false} RunKeepsInvariant(t: Task, steps: seq<Step>)
    requires Invariant(t) && Possible(t, steps)
    ensures Invariant(Run(t, steps)) && Run(t, steps).output == t.output
    decreases |steps|
  {
    if steps != [] {
      StepKeepsInvariant(t, steps[0]);
      RunKeepsInvariant(Next(t, steps[0]), steps[1..]);
    }
  }

  /** A client that sees `completed` can fetch the result. */
  lemma CompletedHasResult(output: int, steps: seq<Step>)
    requires Possible(NewTask(output), steps) && Run(NewTask(output), steps).status == Completed
    ensures Run(NewTask(output), steps).result == Some(output)
  {
    RunKeepsInvariant(NewTask(output), steps);
  }

  lemma {:induction false} ExitIsFinal(t: Task, steps: seq<Step>)
    requires Invariant(t) && t.worker == Exited && Possible(t, steps)
    ensures Run(t, steps).worker == Exited && Run(t, steps).status in {Completed, Cancelled}
    ensures t.status == Cancelled ==> Run(t, steps).status == Cancelled
    decreases |steps|
  {
    if steps != [] {
      StepKeepsInvariant(t, steps[0]);
      ExitIsFinal(Next(t, steps[0]), steps[1..]);
    }
  }

  /** Once the worker has returned the status is completed or cancelled for ever, and
      a cancelled one stays cancelled. */
  lemma SettledAfterExit(output: int, steps: seq<Step>, more: seq<Step>)
    requires Possible(NewTask(output), steps) && Run(NewTask(output), steps).worker == Exited
    requires Possible(Run(NewTask(output), steps), more)
    ensures Run(Run(NewTask(output), steps), more).status in {Completed, Cancelled}
    ensures Run(NewTask(output), steps).status == Cancelled ==> Run(Run(NewTask(output), steps), more).status == Cancelled
  {
    RunKeepsInvariant(NewTask(output), steps);
    ExitIsFinal(Run(NewTask(output), steps), more);
  }

  /** Exactly when a terminal status is taken back: a task cancelled before its
      worker's first mark. */
  lemma TerminalIsTakenBackIff(t: Task, step: Step)
    requires Invariant(t) && Enabled(t, step) && IsTerminal(t.status)
    ensures !IsTerminal(Next(t, step).status) <==> step.WorkerStep? && t.worker == Created
  {
  }

  /** Exactly when one terminal status replaces another: the worker passed its check
      before the cancellation, or the cancellation was decided before completion. */
  lemma TerminalIsReplacedIff(t: Task, step: Step)
    requires Invariant(t) && Enabled(t, step) && IsTerminal(t.status)
    ensures IsTerminal(Next(t, step).status) && Next(t, step).status != t.status <==>
            || (step.WorkerStep? && t.worker == Finishing)
            || (step.LoopStep? && t.loop == CancelMark && t.status == Completed)
  {
  }

  // ---- Waiting for the result --------------------------------------------------------------

  /** Steps the worker still has to make. */
  function WorkLeft(w: WorkerAt): nat {
    match w
    case Created => 6
    case Sleeping => 5
    case Checking => 4
    case Storing => 3
    case Finishing => 2
    case Notifying => 1
    case Exited => 0
  }

  function WorkerSteps(steps: seq<Step>): nat {
    if steps == [] then 0 else (if steps[0].WorkerStep? then 1 else 0) + WorkerSteps(steps[1..])
  }

  /** The worker only moves forward, by its own steps. */
  lemma {:induction false} WorkRunsOut(t: Task, steps: seq<Step>)
    requires Possible(t, steps)
    ensures WorkLeft(Run(t, steps).worker) + WorkerSteps(steps) <= WorkLeft(t.worker)
    decreases |steps|
  {
    if steps != [] {
      WorkRunsOut(Next(t, steps[0]), steps[1..]);
    }
  }

  /** A blocked `tasks/result` finishes: once the worker has made its remaining
      steps, at most four more steps of the loop answer the request, with the stored
      result of a completed task and the cancellation of a cancelled one. */
  lemma BlockedWaitFinishes(output: int, steps: seq<Step>, more: seq<Step>)
    requires Possible(NewTask(output), steps)
    requires var t := Run(NewTask(output), steps);
             && Possible(t, more) && WorkerSteps(more) >= WorkLeft(t.worker) && Run(t, more).loop == Waiting
    ensures var t := Run(Run(NewTask(output), steps), more);
            var reply := if t.status == Cancelled then CancelledError else StoredResult(output);
            var ending := [LoopStep, LoopStep] + if t.status == Cancelled then [] else [LoopStep, LoopStep];
            && t.worker == Exited && Possible(t, ending)
            && Run(t, ending).loop == Idle && Run(t, ending).replies == t.replies + [reply]
  {
    var start := Run(NewTask(output), steps);
    RunKeepsInvariant(NewTask(output), steps);
    WorkRunsOut(start, more);
    RunKeepsInvariant(start, more);
    var t := Run(start, more);
    var t1 := LoopNext(t);
    var t2 := LoopNext(t1);
    assert [LoopStep, LoopStep][1..] == [LoopStep] && [LoopStep][1..] == [];
    RunTwo(t, LoopStep, LoopStep);
    if t.status == Cancelled {
      assert [LoopStep, LoopStep] + [] == [LoopStep, LoopStep];
    } else {
      RunTwo(t2, LoopStep, LoopStep);
      RunAppend(t, [LoopStep, LoopStep], [LoopStep, LoopStep]);
    }
  }

  lemma RunTwo(t: Task, a: Step, b: Step)
    requires Enabled(t, a) && Enabled(Next(t, a), b)
    ensures Possible(t, [a, b]) && Run(t, [a, b]) == Next(Next(t, a), b)
  {
    assert [a, b][1..] == [b] && [b][1..] == [];
    assert Run(Next(t, a), [b]) == Next(Next(t, a), b);
  }

  lemma {:induction false} RunAppend(t: Task, a: seq<Step>, b: seq<Step>)
    requires Possible(t, a) && Possible(Run(t, a), b)
    ensures Possible(t, a + b) && Run(t, a + b) == Run(Run(t, a), b)
    decreases |a|
  {
    if a == [] {
      assert a + b == b;
    } else {
      RunAppend(Next(t, a[0]), a[1..], b);
      assert (a + b)[1..] == a[1..] + b;
    }
  }

  /** What a reply to `tasks/result` can be: a failure never, a result only the
      worker's own, and the empty stand-in only after a wait that ended before the
      worker's first mark. */
  lemma RepliesAreHonest(output: int, steps: seq<Step>, step: Step)
    requires Possible(NewTask(output), steps) && Enabled(Run(NewTask(output), steps), step)
    ensures var t := Run(NewTask(output), steps);
            var after := Next(t, step);
            after.replies == t.replies ||
            (exists reply :: after.replies == t.replies + [reply] && match reply
               case CancelledError => t.status == Cancelled
               case FailedError => false
               case StoredResult(v) => v == output
               case EmptyResult => t.loop == ReadResult(true))
  {
    RunKeepsInvariant(NewTask(output), steps);
    var t := Run(NewTask(output), steps);
    if step.LoopStep? {
      match t.loop
      case ReadCancelled(_) => assert LoopNext(t).replies == t.replies + [CancelledError] || LoopNext(t).replies == t.replies;
      case ReadResult(_) =>
        assert LoopNext(t).replies == t.replies + [match t.result case Some(v) => StoredResult(v) case None => EmptyResult];
      case _ =>
    }
  }

  /** Exactly when the empty stand-in is the answer: the wait ended before the worker's
      first mark, and the worker has not stored its result since. */
  lemma EmptyReplyIff(output: int, steps: seq<Step>, step: Step)
    requires Possible(NewTask(output), steps) && Enabled(Run(NewTask(output), steps), step)
    ensures var t := Run(NewTask(output), steps);
            Next(t, step).replies == t.replies + [EmptyResult] <==>
            step.LoopStep? && t.loop == ReadResult(true) && t.result.None?
  {
    RunKeepsInvariant(NewTask(output), steps);
    var t := Run(NewTask(output), steps);
    if step.LoopStep? && t.loop.ReadResult? {
      var reply := match t.result case Some(v) => StoredResult(v) case None => EmptyResult;
      assert (t.replies + [reply])[|t.replies|] == reply && (t.replies + [EmptyResult])[|t.replies|] == EmptyResult;
    } else if step.LoopStep? && t.loop.ReadCancelled? {
      assert (t.replies + [CancelledError])[|t.replies|] != (t.replies + [EmptyResult])[|t.replies|];
    }
  }

  // ---- Runs in which the races happen ------------------------------------------------------

  lemma RunOneMore(t: Task, steps: seq<Step>, step: Step)
    requires Possible(t, steps) && Enabled(Run(t, steps), step)
    ensures Possible(t, steps + [step]) && Run(t, steps + [step]) == Next(Run(t, steps), step)
  {
    assert [step][1..] == [];
    assert Run(Run(t, steps), [step]) == Next(Run(t, steps), step);
    RunAppend(t, steps, [step]);
  }

  lemma {:induction false} WorkerReaches(t: Task, steps: seq<Step>, work: nat) returns (more: seq<Step>)
    requires Possible(t, steps) && t.worker == Created && Run(t, steps).status == Working
    requires work <= WorkLeft(Run(t, steps).worker) && 2 <= work
    ensures Possible(t, more) && Run(t, more).status == Working && WorkLeft(Run(t, more).worker) == work
    ensures Run(t, more).loop == Run(t, steps).loop && Run(t, more).replies == Run(t, steps).replies
    decreases WorkLeft(Run(t, steps).worker)
  {
    more := steps;
    if work < WorkLeft(Run(t, steps).worker) {
      RunOneMore(t, steps, WorkerStep);
      more := WorkerReaches(t, steps + [WorkerStep], work);
    }
  }

  /** A cancellation can be lost: it comes after the worker's check and before its final mark. */
  lemma CompletionCanReplaceCancellation(output: int) returns (steps: seq<Step>)
    ensures Possible(NewTask(output), steps) && Run(NewTask(output), steps).status == Cancelled
    ensures Enabled(Run(NewTask(output), steps), WorkerStep)
    ensures Next(Run(NewTask(output), steps), WorkerStep).status == Completed
  {
    var t := NewTask(output);
    steps := WorkerReaches(t, [], WorkLeft(Finishing));
    RunOneMore(t, steps, Arrive(CancelRequest));
    RunOneMore(t, steps + [Arrive(CancelRequest)], LoopStep);
    RunOneMore(t, steps + [Arrive(CancelRequest)] + [LoopStep], LoopStep);
    steps := steps + [Arrive(CancelRequest)] + [LoopStep] + [LoopStep];
  }

  /** A completed task can turn into a cancelled one: it completes between the loop's look at
      the status and its mark. */
  lemma CancellationCanReplaceCompletion(output: int) returns (steps: seq<Step>)
    ensures Possible(NewTask(output), steps) && Run(NewTask(output), steps).status == Completed
    ensures Enabled(Run(NewTask(output), steps), LoopStep)
    ensures Next(Run(NewTask(output), steps), LoopStep).status == Cancelled
  {
    var t := NewTask(output);
    RunOneMore(t, [], Arrive(CancelRequest));
    RunOneMore(t, [] + [Arrive(CancelRequest)], LoopStep);
    steps := WorkerReaches(t, [] + [Arrive(CancelRequest)] + [LoopStep], WorkLeft(Finishing));
    RunOneMore(t, steps, WorkerStep);
    steps := steps + [WorkerStep];
  }

  /** The empty answer happens: cancel a task before its worker starts, let a wait see
      the cancellation, and let the worker mark it working again. */
  lemma CancelledTaskCanAnswerEmpty(output: int) returns (steps: seq<Step>)
    ensures Possible(NewTask(output), steps) && Run(NewTask(output), steps).replies == [EmptyResult]
  {
    var t0 := NewTask(output);
    var t1 := Next(t0, Arrive(CancelRequest));
    var t2 := Next(t1, LoopStep);
    RunTwo(t0, Arrive(CancelRequest), LoopStep);
    RunTwo(t2, LoopStep, LoopStep);
    var t4 := Next(Next(t2, LoopStep), LoopStep);
    RunTwo(t4, Arrive(ResultRequest), LoopStep);
    var t6 := Next(Next(t4, Arrive(ResultRequest)), LoopStep);
    RunTwo(t6, WorkerStep, LoopStep);
    var t8 := Next(Next(t6, WorkerStep), LoopStep);
    RunTwo(t8, LoopStep, LoopStep);
    var cancel := [Arrive(CancelRequest), LoopStep] + [LoopStep, LoopStep];
    RunAppend(t0, [Arrive(CancelRequest), LoopStep], [LoopStep, LoopStep]);
    RunAppend(t0, cancel, [Arrive(ResultRequest), LoopStep]);
    RunAppend(t0, cancel + [Arrive(ResultRequest), LoopStep], [WorkerStep, LoopStep]);
    steps := cancel + [Arrive(ResultRequest), LoopStep] + [WorkerStep, LoopStep] + [LoopStep, LoopStep];
    RunAppend(t0, cancel + [Arrive(ResultRequest), LoopStep] + [WorkerStep, LoopStep], [LoopStep, LoopStep]);
  }
}
