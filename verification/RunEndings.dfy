/** How runs end, and that they can: what every ending writes, and whole lives of runs. */
module RunEndings {
  import opened Wrappers
  import opened Texts
  import opened Steps
  import opened Contracts
  import opened Results
  import opened Runs
  import opened RunTheorems

  // ---------------------------------------------------------------- endings

  /** The run is over with this outcome, and its saved result tells it, why, and the stages so far. */
  ghost predicate Over(y: Run, trail: seq<Done>, outcome: Outcome, reason: Option<Ending>) {
    && y.state == Ended(outcome) && y.trail == trail && y.co.None? && y.stop.None? && y.process.None?
    && y.result.Some? && y.result.value.outcome == outcome && y.result.value.reason == reason
    && |y.result.value.stages| == |trail|
    && (forall i :: 0 <= i < |trail| ==>
          y.result.value.stages[i] == (trail[i].result.status, trail[i].result.validity))
    && y.result.value.rows == MergedRows(ResultsOf(trail))
  }

  /** It ended for a reason outside its stages and does not enter the frontier. */
  ghost predicate Overridden(y: Run, trail: seq<Done>, outcome: Outcome, reason: Ending) {
    Over(y, trail, outcome, Some(reason)) && !y.result.value.eligible
  }

  function Recorded(x: Run): Outcome { if x.stop.Some? then x.stop.value else Interrupted }

  /** The handler ends the run once the process it waits for has exited, under the recorded stop or else as
      interrupted, and not before. */
  lemma StopEndsExactly(x: Run, free: nat)
    requires SoundRun(x) && x.co.Some? && x.co.value.pc.Interrupting? && !x.co.value.cancelled
    ensures x.process == Some(false) ==> Overridden(Step(x, Stop, free).0, x.co.value.trail, Recorded(x), Stopped)
    ensures x.process == Some(true) ==> Step(x, Stop, free).0 == x
    ensures x.process.Some?
  {
  }

  /** A delivered cancellation ends a run that awaits its slot, starts a process, or has none left; it makes an
      executing stage drain first, and leaves a run for good before its first step or in the handler. */
  lemma DeliverExactly(x: Run, free: nat)
    requires SoundRun(x) && x.co.Some? && x.co.value.cancelled
    ensures
      var co, y := x.co.value, Step(x, Deliver, free).0;
      match co.pc {
        case NotStarted => y == x.(co := Some(Coroutine(Aborted, co.trail, false)))
        case AwaitingSlot => Overridden(y, co.trail, Recorded(x), Stopped)
        case Spawning(_) => Overridden(y, co.trail, Recorded(x), Stopped)
        case Executing(slot) => y == x.(co := Some(Coroutine(Draining(slot), co.trail, false)))
        case Draining(_) =>
          if x.process == Some(true) then y == x.(co := Some(Coroutine(Interrupting, co.trail, false)))
          else Overridden(y, co.trail, Recorded(x), Stopped)
        case Interrupting => y == x.(co := None, stop := None, process := None)
        case Aborted => true
      }
  {
  }

  /** What raises outside the cancellation handler ends the run as an infrastructure error. */
  lemma FailuresEnd(x: Run, a: Action, free: nat)
    requires SoundRun(x) && x.co.Some? && !x.co.value.cancelled
    requires
      var pc, broker := x.co.value.pc, OnBroker(x.task, |x.co.value.trail|);
      || (a == Start(true) && pc == NotStarted && broker)
      || (a == AcquireSlot(true) && pc == AwaitingSlot && free > 0)
      || (a == SpawnFailed && pc.Spawning?)
      || (a == StageRaised && pc.Executing? && x.process == Some(false))
    ensures Overridden(Step(x, a, free).0, x.co.value.trail, InfraError, Raised)
  {
  }

  /** The loop goes on to the next stage, if it passed, its process exited with 0 and it was not the last. */
  ghost predicate GoesOn(task: Task, trail: seq<Done>, result: Option<StageResult>, exitCode: int) {
    result.Some? && result.value.status == Passed && exitCode == 0 && |trail| + 1 < |task.stages|
  }

  /** Why it stops, if it does. */
  ghost predicate StopsFor(result: Option<StageResult>, exitCode: int, reason: Option<Ending>) {
    && (result.None? ==> reason == Some(NoResult))
    && (result.Some? && result.value.status != Passed ==> reason == Some(StageFailed))
    && (result.Some? && result.value.status == Passed && exitCode != 0 ==> reason == Some(ExitedNonzero(exitCode)))
    && (result.Some? && result.value.status == Passed && exitCode == 0 ==> reason == None)
  }

  /** The run is over by what its stages reported. */
  ghost predicate OverByStages(y: Run, trail: seq<Done>, reason: Option<Ending>) {
    var told := Aggregation(y.task, ResultsOf(trail), reason);
    Over(y, trail, told.outcome, reason) && y.result.value.eligible == told.eligible
  }

  /** It waits for the slot of the next stage, or starts its process on the broker. */
  ghost predicate AtNextStage(y: Run, trail: seq<Done>)
    requires |trail| < |y.task.stages|
  {
    && y.co == Some(Coroutine(if OnBroker(y.task, |trail|) then Spawning(false) else AwaitingSlot, trail, false))
    && y.state == (if OnBroker(y.task, |trail|) then Submitting else WaitingLocal)
    && y.brokerJob.None? && y.process.None? && y.result.None?
  }

  function Longer(x: Run, result: Option<StageResult>, exitCode: int): seq<Done>
    requires x.co.Some?
  {
    if result.Some? then x.co.value.trail + [Done(result.value, exitCode)] else x.co.value.trail
  }

  lemma ConclusionEnds(x: Run, trail: seq<Done>, reason: Option<Ending>, frontierFails: bool)
    ensures
      var y := Finish(x, trail, Conclusion(x.task, trail, reason, frontierFails));
      if frontierFails then Overridden(y, trail, InfraError, Raised) else OverByStages(y, trail, reason)
  {
  }

  lemma NextStageBegins(x: Run, co: Coroutine, pipeFails: bool)
    requires x.process.None? && x.result.None? && |co.trail| < |x.task.stages| && !co.cancelled
    ensures
      var y := BeginStage(x, co, pipeFails);
      && y.task == x.task
      && (if OnBroker(x.task, |co.trail|) && pipeFails then Overridden(y, co.trail, InfraError, Raised)
          else AtNextStage(y, co.trail) && y.stop == x.stop)
  {
  }

  lemma LoopExitExactly(task: Task, before: seq<Done>, result: Option<StageResult>, exitCode: int)
    requires |before| < |task.stages|
    ensures
      var exit := LoopExit(task, Extended(before, result, exitCode), result, exitCode);
      && (exit.None? <==> GoesOn(task, before, result, exitCode))
      && (exit.Some? ==> StopsFor(result, exitCode, exit.value))
  {
  }

  /** After a stage a run goes on to the next, or it is over: by what its stages reported, or as an
      infrastructure error if the frontier or the pipe fails. */
  lemma StageDoneExactly(
    x: Run, result: Option<StageResult>, exitCode: int, frontierFails: bool, pipeFails: bool, free: nat)
    requires SoundRun(x) && StageOver(x) && (result.Some? ==> ValidStage(result.value, x.task))
    ensures
      var y := Step(x, StageDone(result, exitCode, frontierFails, pipeFails), free).0;
      var trail := Longer(x, result, exitCode);
      y.task == x.task
      && if !GoesOn(x.task, x.co.value.trail, result, exitCode) then
           if frontierFails then Overridden(y, trail, InfraError, Raised)
           else exists reason :: StopsFor(result, exitCode, reason) && OverByStages(y, trail, reason)
         else if OnBroker(x.task, |trail|) && pipeFails then Overridden(y, trail, InfraError, Raised)
         else AtNextStage(y, trail) && y.stop == x.stop
  {
    var trail := Longer(x, result, exitCode);
    var z := x.(state := StageFinished, process := None);
    LoopExitExactly(x.task, x.co.value.trail, result, exitCode);
    if GoesOn(x.task, x.co.value.trail, result, exitCode) {
      NextStageBegins(z, x.co.value.(trail := trail), pipeFails);
    } else {
      var exit := LoopExit(x.task, trail, result, exitCode);
      ConclusionEnds(z, trail, exit.value, frontierFails);
    }
  }

  // ---------------------------------------------------------------- a stop decides

  /** A stop was accepted, and reaches or reached the coroutine. */
  ghost predicate Halting(x: Run, trail: seq<Done>) {
    && x.co.Some? && x.co.value.trail == trail && x.stop.Some? && !x.state.Ended? && x.result.None?
    && (x.co.value.cancelled || x.co.value.pc.Draining? || x.co.value.pc.Interrupting? || x.co.value.pc.Aborted?)
  }

  /** It will end, if at all, for one of these stops, with these stages or, by recovery, without a result. */
  ghost predicate Decided(x: Run, trail: seq<Done>, may: set<Outcome>) {
    || (Halting(x, trail) && x.stop.value in may)
    || (x.co.None? && x.result.None? && !x.state.Ended?)
    || (x.co.None? && x.result.None? && x.state == Ended(Interrupted) && Interrupted in may)
    || (x.state.Ended? && x.state.outcome in may && Overridden(x, trail, x.state.outcome, Stopped))
  }

  /** The events that bring no other stop than these. */
  predicate Brings(e: Event, id: Text, may: set<Outcome>) {
    (e.Close? || e.Crash? || e.Recover? ==> Interrupted in may) && (e == On(id, Cancel) ==> Cancelled in may)
  }

  lemma ActionKeepsDecided(x: Run, a: Action, free: nat, trail: seq<Done>, may: set<Outcome>)
    requires Decided(x, trail, may) && (a.Cancel? ==> Cancelled in may)
    ensures Decided(Step(x, a, free).0, trail, may)
  {
  }

  lemma EventKeepsDecided(s: System, e: Event, id: Text, trail: seq<Done>, may: set<Outcome>)
    requires id in s.runs && Decided(s.runs[id], trail, may) && Brings(e, id, may)
    ensures id in Apply(s, e).runs && Decided(Apply(s, e).runs[id], trail, may)
  {
    if e.On? && e.id in s.runs {
      ActionKeepsDecided(s.runs[id], e.action, s.free, trail, if e.id == id then may else may + {Cancelled});
    }
  }

  lemma {:induction false} StaysDecided(s: System, events: seq<Event>, id: Text, trail: seq<Done>, may: set<Outcome>)
    requires id in s.runs && Decided(s.runs[id], trail, may) && forall e :: e in events ==> Brings(e, id, may)
    ensures id in After(Apply, s, events).runs && Decided(After(Apply, s, events).runs[id], trail, may)
  {
    if events != [] {
      var n := |events| - 1;
      StaysDecided(s, events[..n], id, trail, may);
      EventKeepsDecided(After(Apply, s, events[..n]), events[n], id, trail, may);
    }
  }

  /** Whatever happens after a cancel was accepted, short of a close or a crash, a run that ends has ended as
      cancelled, with the stages it had finished by then: it never completes. */
  lemma CancelDecides(s: System, id: Text, events: seq<Event>)
    requires Inv(s) && id in s.runs && s.runs[id].co.Some?
    requires forall e :: e in events ==> !e.Close? && !e.Crash? && !e.Recover?
    ensures
      var runs := After(Apply, Apply(s, On(id, Cancel)), events).runs;
      id in runs && (runs[id].state.Ended? ==> Overridden(runs[id], s.runs[id].co.value.trail, Cancelled, Stopped))
  {
    var t := Apply(s, On(id, Cancel));
    var trail := s.runs[id].co.value.trail;
    assert Halting(t.runs[id], trail);
    StaysDecided(t, events, id, trail, {Cancelled});
  }

  /** And whatever happens after a close, crash and recovery included but no cancel of the run, it has ended
      as interrupted. */
  lemma CloseDecides(s: System, id: Text, events: seq<Event>)
    requires Inv(s) && id in s.runs && Live(s.runs[id])
    requires On(id, Cancel) !in events
    ensures
      var runs := After(Apply, Apply(s, Close), events).runs;
      && id in runs
      && (runs[id].state.Ended? ==>
            && runs[id].state == Ended(Interrupted)
            && (runs[id].result.Some? ==> Overridden(runs[id], s.runs[id].co.value.trail, Interrupted, Stopped)))
  {
    var t := Apply(s, Close);
    var trail := s.runs[id].co.value.trail;
    assert Halting(t.runs[id], trail);
    StaysDecided(t, events, id, trail, {Interrupted});
  }

  // ---------------------------------------------------------------- stops end runs

  /** The actions left to a run that was told to stop; those that are not enabled do nothing. */
  function Unwinding(): seq<Action> { [Deliver, Drained, ProcessExits, Stop] }

  /** The run and the free slots after these actions. */
  ghost function Acts(x: Run, actions: seq<Action>, free: nat): (Run, nat)
    decreases |actions|
  {
    if actions == [] then (x, free)
    else
      var (y, f) := Step(x, actions[0], free);
      Acts(y, actions[1..], f)
  }

  lemma ActsOfFour(x: Run, a: Action, b: Action, c: Action, d: Action, free: nat)
    ensures
      var (x1, f1) := Step(x, a, free);
      var (x2, f2) := Step(x1, b, f1);
      var (x3, f3) := Step(x2, c, f2);
      Acts(x, [a, b, c, d], free) == Step(x3, d, f3)
  {
    var (x1, f1) := Step(x, a, free);
    var (x2, f2) := Step(x1, b, f1);
    var (x3, f3) := Step(x2, c, f2);
    assert [a, b, c, d][1..] == [b, c, d] && [b, c, d][1..] == [c, d] && [c, d][1..] == [d] && [d][1..] == [];
    var (x4, f4) := Step(x3, d, f3);
    assert Acts(x4, [], f4) == (x4, f4);
    assert Acts(x3, [d], f3) == (x4, f4);
    assert Acts(x2, [c, d], f2) == (x4, f4);
    assert Acts(x1, [b, c, d], f1) == (x4, f4);
  }

  /** The end of the handler: the process exits, and the run is over. */
  lemma HandlerEnds(x: Run, free: nat)
    requires SoundRun(x) && x.co.Some? && x.co.value.pc.Interrupting? && !x.co.value.cancelled
    ensures
      var (x1, f1) := Step(x, ProcessExits, free);
      Overridden(Step(x1, Stop, f1).0, x.co.value.trail, Recorded(x), Stopped)
  {
    StepIsSound(x, ProcessExits, free);
    StopEndsExactly(Step(x, ProcessExits, free).0, free);
  }

  /** Once the output is drained, the run is over or in the handler. */
  lemma DrainEnds(x: Run, free: nat)
    requires SoundRun(x) && x.co.Some? && x.co.value.pc.Draining? && !x.co.value.cancelled
    ensures
      var (x1, f1) := Step(x, Drained, free);
      if x.process == Some(true) then x1 == x.(co := Some(Coroutine(Interrupting, x.co.value.trail, false)))
      else Overridden(x1, x.co.value.trail, Recorded(x), Stopped)
  {
  }

  lemma OverStays(x: Run, a: Action, free: nat)
    requires x.co.None?
    ensures Step(x, a, free).0 == x
  {
  }

  lemma AbortedStays(x: Run, a: Action, free: nat)
    requires x.co.Some? && x.co.value.pc.Aborted? && !x.co.value.cancelled && !x.state.Ended? && x.process.None?
    requires a in Unwinding()
    ensures Step(x, a, free).0 == x
  {
  }

  /** From the handler on. */
  lemma LastTwo(x: Run, free: nat)
    requires SoundRun(x)
    requires x.co.Some? ==> !x.co.value.cancelled && (x.co.value.pc.Interrupting? || x.co.value.pc.Aborted?)
    ensures
      var (x1, f1) := Step(x, ProcessExits, free);
      var y := Step(x1, Stop, f1).0;
      if Live(x) then Overridden(y, x.co.value.trail, Recorded(x), Stopped) else y == x
  {
    if Live(x) {
      HandlerEnds(x, free);
    } else if x.co.None? {
      OverStays(x, ProcessExits, free);
      OverStays(x, Stop, Step(x, ProcessExits, free).1);
    } else {
      AbortedStays(x, ProcessExits, free);
      AbortedStays(x, Stop, Step(x, ProcessExits, free).1);
    }
  }

  /** From the drain on. */
  lemma LastThree(x: Run, free: nat)
    requires SoundRun(x)
    requires
      x.co.Some? ==>
        !x.co.value.cancelled && (x.co.value.pc.Draining? || x.co.value.pc.Interrupting? || x.co.value.pc.Aborted?)
    ensures
      var (x1, f1) := Step(x, Drained, free);
      var (x2, f2) := Step(x1, ProcessExits, f1);
      var y := Step(x2, Stop, f2).0;
      if Live(x) then Overridden(y, x.co.value.trail, Recorded(x), Stopped) else y == x
  {
    var (x1, f1) := Step(x, Drained, free);
    StepIsSound(x, Drained, free);
    if x.co.None? {
      OverStays(x, Drained, free);
    } else if x.co.value.pc.Draining? {
      DrainEnds(x, free);
    } else {
      assert x1 == x;
    }
    LastTwo(x1, f1);
  }

  /** Cancelled before the first step, or a second time in the handler. */
  ghost predicate Unstoppable(co: Coroutine) {
    co.pc.Aborted? || (co.cancelled && (co.pc.NotStarted? || co.pc.Interrupting?))
  }

  /** A run told to stop is over under that stop once the cancellation is delivered, its output drained and
      its process gone, exactly unless the cancellation finds it before its first step or a second time in
      the handler. */
  lemma UnwindingEndsExactly(x: Run, free: nat)
    requires SoundRun(x) && x.co.Some? && Halting(x, x.co.value.trail)
    ensures
      var y := Acts(x, Unwinding(), free).0;
      && (!Unstoppable(x.co.value) ==> Overridden(y, x.co.value.trail, x.stop.value, Stopped))
      && (Unstoppable(x.co.value) ==> Abandoned(y))
  {
    ActsOfFour(x, Deliver, Drained, ProcessExits, Stop, free);
    var (x1, f1) := Step(x, Deliver, free);
    StepIsSound(x, Deliver, free);
    if x.co.value.cancelled {
      DeliverExactly(x, free);
    } else {
      assert x1 == x;
    }
    LastThree(x1, f1);
  }

  /** And no slot is lost on the way. */
  lemma {:induction false} UnwindingKeepsSlots(x: Run, actions: seq<Action>, free: nat)
    requires forall a :: a in actions ==> !a.AcquireSlot?
    ensures Acts(x, actions, free).1 + Held(Acts(x, actions, free).0) == free + Held(x)
    decreases |actions|
  {
    if actions != [] {
      var (y, f) := Step(x, actions[0], free);
      StepBalancesSlots(x, actions[0], free);
      UnwindingKeepsSlots(y, actions[1..], f);
    }
  }

  /** One accepted cancel of an executing run whose process lives ends it as cancelled, and a close ends it as
      interrupted. */
  lemma CancelEnds(x: Run, free: nat)
    requires SoundRun(x) && x.co.Some? && x.co.value.pc.Executing? && !x.co.value.cancelled
    ensures Overridden(Acts(Step(x, Cancel, free).0, Unwinding(), free).0, x.co.value.trail, Cancelled, Stopped)
    ensures Overridden(Acts(Closing(x), Unwinding(), free).0, x.co.value.trail, Interrupted, Stopped)
  {
    StepIsSound(x, Cancel, free);
    UnwindingEndsExactly(Step(x, Cancel, free).0, free);
    UnwindingEndsExactly(Closing(x), free);
  }
}
