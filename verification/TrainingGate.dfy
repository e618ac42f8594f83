/** The training-op lock and failure latch of the Ray server
    (arctic_platform/common/ray_server.py, _raise_if_training_failed, _mark_training_failed,
    _await_training_refs, _gather_training_refs). Worker refs are abstract tasks. The event loop
    switches only where the source awaits, so the code between two awaits is one step. */
module TrainingGate {
  import opened Basics

  datatype Task = Running | Succeeded | Failed(error: nat) | Cancelled

  datatype Cause = WorkerError(error: nat) | CancelledError

  datatype Outcome = Returned | Raised(cause: Cause)

  ghost predicate AnyRunning(tasks: seq<Task>) {
    exists i :: 0 <= i < |tasks| && tasks[i].Running?
  }

  ghost predicate AnyFailed(tasks: seq<Task>) {
    exists i :: 0 <= i < |tasks| && tasks[i].Failed?
  }

  /** `asyncio.wait` with FIRST_EXCEPTION returns once some task has failed or none is running. */
  ghost predicate WaitReturns(tasks: seq<Task>) {
    AnyFailed(tasks) || !AnyRunning(tasks)
  }

  ghost predicate IsErrorOf(tasks: seq<Task>, cause: Cause) {
    cause.WorkerError? && exists i :: 0 <= i < |tasks| && tasks[i] == Failed(cause.error)
  }

  /** The latch: whether the workers have failed, and the first recorded cause. */
  datatype Latch = Latch(failed: bool, failure: Option<Cause>)

  function Marked(latch: Latch, cause: Option<Cause>): Latch {
    Latch(true, if latch.failure.Some? then latch.failure
        else Some(if cause.Some? then cause.value else CancelledError))
  }

  /** What leaving `_await_training_refs` does to the latch, and how it leaves. */
  ghost predicate ExitEffect(
      tasks: seq<Task>, interrupted: bool, latching: bool, before: Latch, after: Latch, outcome: Outcome)
  {
    && (if !latching || (!interrupted && !AnyRunning(tasks)) then after == before
        else if interrupted then after == Marked(before, None)
        else exists cause :: IsErrorOf(tasks, cause) && after == Marked(before, Some(cause)))
    && (if interrupted then outcome == Raised(CancelledError)
        else if AnyFailed(tasks) then outcome.Raised? && IsErrorOf(tasks, outcome.cause)
        else if exists i :: 0 <= i < |tasks| && tasks[i].Cancelled? then outcome == Raised(CancelledError)
        else outcome == Returned)
  }

  /** Asks every task still running to stop; `touched` records that some collective was cut short. */
  method CancelUnfinished(tasks: seq<Task>, asked: seq<bool>, collective: bool)
    returns (asking: seq<bool>, touched: bool)
    requires |asked| == |tasks| && forall i :: 0 <= i < |tasks| ==> asked[i] ==> tasks[i].Running?
    ensures |asking| == |tasks| && forall i :: 0 <= i < |tasks| ==> (asking[i] <==> tasks[i].Running?)
    ensures touched <==> collective || AnyRunning(tasks)
  {
    asking, touched := asked, collective;
    for i := 0 to |tasks|
      invariant |asking| == |tasks|
      invariant forall j :: 0 <= j < |tasks| ==> asking[j] ==> tasks[j].Running?
      invariant forall j :: 0 <= j < i ==> (asking[j] <==> tasks[j].Running?)
      invariant touched <==> collective || exists j :: 0 <= j < i && tasks[j].Running?
    {
      if tasks[i].Running? {
        asking := asking[i := true];
        touched := true;
      }
    }
  }

  class Gate {
    var failed: bool
    var failure: Option<Cause>

    ghost function View(): Latch
      reads this
    {
      Latch(failed, failure)
    }

    constructor ()
      ensures View() == Latch(false, None)
    {
      failed, failure := false, None;
    }

    method MarkFailed(cause: Option<Cause>)
      modifies this
      ensures View() == Marked(old(View()), cause)
    {
      failed := true;
      if failure.None? {
        failure := Some(if cause.Some? then cause.value else CancelledError);
      }
    }

    /** The body of `_await_training_refs` from the moment its wait ends. `interrupted` is a cancelled wait.
        Every task still running has its worker ref cancelled. */
    method FinishAwait(tasks: seq<Task>, interrupted: bool, latching: bool)
      returns (outcome: Outcome, cancelled: seq<bool>)
      requires interrupted || WaitReturns(tasks)
      modifies this
      ensures ExitEffect(tasks, interrupted, latching, old(View()), View(), outcome)
      ensures |cancelled| == |tasks| && forall i :: 0 <= i < |tasks| ==> (cancelled[i] <==> tasks[i].Running?)
    {
      cancelled := seq(|tasks|, _ => false);
      var cancelledCollective := false;
      outcome := Returned;
      if interrupted {
        cancelledCollective := true;
        outcome := Raised(CancelledError);
      } else {
        var errors := exists i :: 0 <= i < |tasks| && tasks[i].Failed?;
        var pending := exists i :: 0 <= i < |tasks| && tasks[i].Running?;
        if errors {
          // The set of finished tasks has no order: any failed task may come first.
          var first :| 0 <= first < |tasks| && tasks[first].Failed?;
          var cause := WorkerError(tasks[first].error);
          assert IsErrorOf(tasks, cause);
          if pending {
            cancelled, cancelledCollective := CancelUnfinished(tasks, cancelled, cancelledCollective);
          }
          if latching && (cancelledCollective || pending) {
            MarkFailed(Some(cause));
          }
          outcome := Raised(cause);
        }
      }
      cancelled, cancelledCollective := CancelUnfinished(tasks, cancelled, cancelledCollective);
      if latching && cancelledCollective {
        MarkFailed(None);
      }
      if outcome.Returned? && exists i :: 0 <= i < |tasks| && tasks[i].Cancelled? {
        outcome := Raised(CancelledError);
      }
    }
  }

  // ---------------------------------------------------------------- all operations together

  /** One `_gather_training_refs` call. Refs outlive the call: a cancelled worker may still be running. */
  datatype Op = NotStarted | Queued | Refused | Awaiting(refs: seq<Task>) | Finished(refs: seq<Task>, outcome: Outcome)

  datatype System = System(latch: Latch, lock: Option<nat>, ops: seq<Op>)

  function Refs(op: Op): seq<Task> {
    match op
    case Awaiting(refs) => refs
    case Finished(refs, _) => refs
    case _ => []
  }

  datatype Step =
    | Begin(op: nat)
    | Abandon(op: nat)
    | Acquire(op: nat, count: nat)
    | Work(op: nat, ref: nat, result: Task)
    | Exit(op: nat, interrupted: bool)

  function NewRefs(count: nat): (refs: seq<Task>)
    ensures |refs| == count && forall i :: 0 <= i < count ==> refs[i].Running?
  {
    seq(count, _ => Running)
  }

  /** One step of some operation, of a worker, or of a cancelled caller. */
  ghost predicate Next(s: System, step: Step, t: System) {
    && step.op < |s.ops|
    && var op := s.ops[step.op];
       match step
       case Begin(o) =>
         op.NotStarted? && t == s.(ops := s.ops[o := if s.latch.failed then Refused else Queued])
       case Abandon(o) =>
         op.Queued? && t == s.(ops := s.ops[o := Refused])
       case Acquire(o, count) =>
         // The lock is taken, the latch checked again, and the refs submitted without an await between.
         op.Queued? && s.lock.None?
         && t == if s.latch.failed then s.(ops := s.ops[o := Refused])
                 else if count == 0 then s.(ops := s.ops[o := Finished([], Returned)])
                 else s.(lock := Some(o), ops := s.ops[o := Awaiting(NewRefs(count))])
       case Work(o, ref, result) =>
         ref < |Refs(op)| && Refs(op)[ref].Running? && !result.Running?
         && t == s.(ops := s.ops[o := WithRef(op, ref, result)])
       case Exit(o, interrupted) =>
         // The latch is set before the lock is released.
         op.Awaiting? && s.lock == Some(o) && (interrupted || WaitReturns(op.refs))
         && exists after, outcome ::
              ExitEffect(op.refs, interrupted, true, s.latch, after, outcome)
              && t == System(after, None, s.ops[o := Finished(op.refs, outcome)])
  }

  function WithRef(op: Op, ref: nat, result: Task): Op
    requires ref < |Refs(op)|
  {
    match op
    case Awaiting(refs) => Awaiting(refs[ref := result])
    case Finished(refs, outcome) => Finished(refs[ref := result], outcome)
  }

  // ---------------------------------------------------------------- the invariant

  ghost predicate Outstanding(op: Op) {
    AnyRunning(Refs(op))
  }

  ghost predicate OpOk(s: System, o: nat)
    requires o < |s.ops|
  {
    && (s.ops[o].Awaiting? <==> s.lock == Some(o))
    && (Outstanding(s.ops[o]) && !s.ops[o].Awaiting? ==> s.latch.failed)
  }

  ghost predicate Inv(s: System) {
    && (forall o :: 0 <= o < |s.ops| ==> OpOk(s, o))
    && (s.latch.failed <==> s.latch.failure.Some?)
    && (s.lock.Some? ==> s.lock.value < |s.ops|)
  }

  function Start(count: nat): System {
    System(Latch(false, None), None, seq(count, _ => NotStarted))
  }

  lemma StartInv(count: nat)
    ensures Inv(Start(count))
  {
  }

  /** A finished ref never makes an operation outstanding. */
  lemma FinishingRefs(op: Op, ref: nat, result: Task)
    requires ref < |Refs(op)| && !result.Running? && Outstanding(WithRef(op, ref, result))
    ensures Outstanding(op)
  {
    var refs := Refs(WithRef(op, ref, result));
    var i :| 0 <= i < |refs| && refs[i].Running?;
    assert refs[i] == Refs(op)[i];
  }

  lemma StepKeepsInv(s: System, step: Step, t: System)
    requires Inv(s) && Next(s, step, t)
    ensures Inv(t) && |t.ops| == |s.ops|
  {
    var o := step.op;
    assert OpOk(s, o);
    forall q | 0 <= q < |t.ops| ensures OpOk(t, q) {
      assert OpOk(s, q);
      if q == o && step.Work? {
        if Outstanding(t.ops[q]) {
          FinishingRefs(s.ops[q], step.ref, step.result);
        }
      } else if q == o {
        assert Refs(Queued) == Refs(Refused) == [];
      }
    }
  }

  // ---------------------------------------------------------------- the latch over every run

  /** Once set, the latch stays set and keeps its first cause. */
  lemma LatchIsSticky(s: System, step: Step, t: System)
    requires Inv(s) && Next(s, step, t) && s.latch.failed
    ensures t.latch == s.latch
  {
  }

  /** Leaving the await either finds every submitted ref finished or sets the latch as it releases the lock. */
  lemma ReleaseIsCovered(s: System, o: nat, interrupted: bool, t: System)
    requires Inv(s) && Next(s, Exit(o, interrupted), t)
    ensures t.lock.None? && (t.latch.failed || !Outstanding(t.ops[o]))
    ensures interrupted ==> t.latch.failed
    ensures interrupted && !s.latch.failed ==> t.latch.failure == Some(CancelledError)
    ensures !s.latch.failed && t.latch.failed && !interrupted ==>
              IsErrorOf(s.ops[o].refs, t.latch.failure.value) && AnyRunning(s.ops[o].refs)
  {
  }

  /** Refs are submitted only while the latch is clear and the lock is held by the submitter alone. */
  lemma SubmitsOnlyWhenClear(s: System, step: Step, t: System, o: nat)
    requires Inv(s) && Next(s, step, t) && o < |s.ops| && |Refs(t.ops[o])| != |Refs(s.ops[o])|
    ensures step == Acquire(o, |Refs(t.ops[o])|) && !s.latch.failed && s.lock.None? && t.lock == Some(o)
    ensures forall q :: 0 <= q < |s.ops| ==> !Outstanding(s.ops[q])
  {
    forall q | 0 <= q < |s.ops| ensures !Outstanding(s.ops[q]) {
      assert OpOk(s, q);
    }
  }

  ghost predicate IsRun(states: seq<System>, steps: seq<Step>) {
    && |states| == |steps| + 1
    && forall i :: 0 <= i < |steps| ==> Next(states[i], steps[i], states[i + 1])
  }

  lemma {:induction false} RunKeepsInv(states: seq<System>, steps: seq<Step>, k: nat)
    requires IsRun(states, steps) && Inv(states[0]) && k < |states|
    ensures Inv(states[k]) && |states[k].ops| == |states[0].ops|
    decreases k
  {
    if k > 0 {
      RunKeepsInv(states, steps, k - 1);
      StepKeepsInv(states[k - 1], steps[k - 1], states[k]);
    }
  }

  ghost predicate OneOutstanding(s: System) {
    forall a, b :: 0 <= a < |s.ops| && 0 <= b < |s.ops| && a != b ==> !(Outstanding(s.ops[a]) && Outstanding(s.ops[b]))
  }

  /** No step leaves a second operation with refs outstanding: finishing a ref adds none, and submitting
      needs every ref of every operation finished. */
  lemma StepKeepsOneOutstanding(s: System, step: Step, t: System)
    requires Inv(s) && OneOutstanding(s) && Next(s, step, t)
    ensures OneOutstanding(t)
  {
    StepKeepsInv(s, step, t);
    if step.Work? && Outstanding(t.ops[step.op]) {
      FinishingRefs(s.ops[step.op], step.ref, step.result);
    }
    forall q | 0 <= q < |s.ops| && Outstanding(t.ops[q]) && !Outstanding(s.ops[q])
      ensures q == step.op && forall p :: 0 <= p < |s.ops| ==> !Outstanding(s.ops[p])
    {
      SubmitsOnlyWhenClear(s, step, t, q);
    }
  }

  lemma {:induction false} RunKeepsOneOutstanding(states: seq<System>, steps: seq<Step>, k: nat)
    requires IsRun(states, steps) && Inv(states[0]) && OneOutstanding(states[0]) && k < |states|
    ensures OneOutstanding(states[k])
    decreases k
  {
    if k > 0 {
      RunKeepsOneOutstanding(states, steps, k - 1);
      RunKeepsInv(states, steps, k - 1);
      StepKeepsOneOutstanding(states[k - 1], steps[k - 1], states[k]);
    }
  }

  /** In no run do two operations ever have refs outstanding at once, whether or not the latch is set. */
  lemma NeverTwoOutstanding(count: nat, states: seq<System>, steps: seq<Step>, k: nat, a: nat, b: nat)
    requires IsRun(states, steps) && states[0] == Start(count) && k < |states|
    requires a < count && b < count && a != b
    ensures |states[k].ops| == count
    ensures !(Outstanding(states[k].ops[a]) && Outstanding(states[k].ops[b]))
  {
    StartInv(count);
    RunKeepsInv(states, steps, k);
    RunKeepsOneOutstanding(states, steps, k);
  }

  /** After the latch is set, nothing submits, the latch never clears and its cause never changes. */
  lemma {:induction false} NothingSubmitsAfterFailure(states: seq<System>, steps: seq<Step>, k: nat, m: nat, o: nat)
    requires IsRun(states, steps) && Inv(states[0]) && k <= m < |states|
    requires states[k].latch.failed && o < |states[0].ops|
    ensures states[m].latch == states[k].latch
    ensures |states[m].ops| == |states[k].ops| == |states[0].ops|
            && |Refs(states[m].ops[o])| == |Refs(states[k].ops[o])|
    decreases m
  {
    RunKeepsInv(states, steps, k);
    RunKeepsInv(states, steps, m);
    if k < m {
      NothingSubmitsAfterFailure(states, steps, k, m - 1, o);
      RunKeepsInv(states, steps, m - 1);
      LatchIsSticky(states[m - 1], steps[m - 1], states[m]);
      if |Refs(states[m].ops[o])| != |Refs(states[m - 1].ops[o])| {
        SubmitsOnlyWhenClear(states[m - 1], steps[m - 1], states[m], o);
      }
    }
  }
}
