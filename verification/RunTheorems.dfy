/** Invariants of the run lifecycle, over every interleaving of its steps. */
module RunTheorems {
  import opened Wrappers
  import opened Texts
  import opened Steps
  import opened Contracts
  import opened Results
  import opened Runs

  // ---------------------------------------------------------------- what holds of every run

  /** The stages a run executed: each gated by its predecessor, and only the last may have failed
      or exited with an error. */
  ghost predicate GatedTrail(task: Task, trail: seq<Done>) {
    && Gated(task, ResultsOf(trail))
    && forall i :: 0 <= i < |trail| - 1 ==> trail[i].exitCode == 0
  }

  ghost predicate AllClean(task: Task, trail: seq<Done>) {
    forall i :: 0 <= i < |trail| ==>
      trail[i].exitCode == 0 && trail[i].result.status.Passed? && ValidStage(trail[i].result, task)
  }

  predicate OnBroker(task: Task, i: nat)
    requires i < |task.stages|
  {
    task.stages[i].execution.Broker?
  }

  ghost predicate SoundCoroutine(task: Task, co: Coroutine) {
    && |co.trail| < |task.stages| && AllClean(task, co.trail)
    && (co.pc.NotStarted? || co.pc.Aborted? ==> co.trail == [])
    && (co.pc.Aborted? ==> !co.cancelled)
    && (co.pc.AwaitingSlot? ==> !OnBroker(task, |co.trail|))
    && (co.pc.Spawning? || co.pc.Executing? || co.pc.Draining? ==>
      HoldsSlot(co.pc) == !OnBroker(task, |co.trail|))
  }

  /** There is a process exactly while one is run, drained or interrupted. */
  predicate SoundProcess(x: Run) {
    var running := x.co.Some? && (x.co.value.pc.Executing? || x.co.value.pc.Draining? || x.co.value.pc.Interrupting?);
    x.process.Some? <==> running
  }

  /** What result.json says about the executed stages. */
  ghost predicate SoundEnding(task: Task, trail: seq<Done>, r: RunResult) {
    && GatedTrail(task, trail)
    && r.stages == Summaries(ResultsOf(trail))
    && SoundResult(task, r)
    && (r.outcome.Completed? ==>
      trail != [] && |trail| == |task.stages| && trail[|trail| - 1].result.status.Passed?)
    && (r.outcome.Rejected? ==> trail != [] && trail[|trail| - 1].result.validity.Invalid?)
  }

  ghost predicate SoundRun(x: Run) {
    && ValidTask(x.task) && SoundProcess(x)
    && (x.co.Some? ==> !x.state.Ended? && SoundCoroutine(x.task, x.co.value))
    && (x.stop.Some? ==> x.co.Some? && (x.stop.value.Cancelled? || x.stop.value.Interrupted?))
    && (!x.state.Ended? ==> x.result.None?)
    && (x.state.Ended? && x.result.None? ==> x.state.outcome.Interrupted?)
    && (x.state.Ended? && x.result.Some? ==>
      x.result.value.outcome == x.state.outcome && SoundEnding(x.task, x.trail, x.result.value))
  }

  lemma OverruledIsSound(task: Task, trail: seq<Done>, reason: Ending, outcome: Outcome)
    requires GatedTrail(task, trail) && !outcome.Completed? && !outcome.Rejected?
    ensures SoundEnding(task, trail, Overruled(task, trail, reason, outcome))
  {
  }

  lemma ConclusionIsSound(task: Task, trail: seq<Done>, reason: Option<Ending>, frontierFails: bool)
    requires GatedTrail(task, trail)
    ensures SoundEnding(task, trail, Conclusion(task, trail, reason, frontierFails))
  {
    if frontierFails {
      OverruledIsSound(task, trail, Raised, InfraError);
    } else {
      AggregateIsSound(task, ResultsOf(trail), reason);
      GatedOutcome(task, ResultsOf(trail), reason);
    }
  }

  lemma TrailGrows(task: Task, trail: seq<Done>, result: Option<StageResult>, exitCode: int)
    requires AllClean(task, trail) && |trail| < |task.stages|
    requires result.Some? ==> ValidStage(result.value, task)
    ensures
      var extended := Extended(trail, result, exitCode);
      && GatedTrail(task, extended)
      && (LoopExit(task, extended, result, exitCode).None? ==>
        AllClean(task, extended) && |extended| < |task.stages|)
  {
  }

  lemma FailIsSound(x: Run, trail: seq<Done>)
    requires ValidTask(x.task) && GatedTrail(x.task, trail)
    ensures SoundRun(Fail(x, trail))
  {
    OverruledIsSound(x.task, trail, Raised, InfraError);
  }

  lemma BeginStageIsSound(x: Run, co: Coroutine, pipeFails: bool)
    requires ValidTask(x.task) && x.result.None? && x.process.None? && |co.trail| < |x.task.stages|
    requires AllClean(x.task, co.trail) && (x.stop.Some? ==> x.stop.value.Cancelled? || x.stop.value.Interrupted?)
    ensures SoundRun(BeginStage(x, co, pipeFails))
  {
    assert GatedTrail(x.task, co.trail);
    FailIsSound(x.(brokerJob := None), co.trail);
  }

  lemma HandleIsSound(x: Run, co: Coroutine)
    requires ValidTask(x.task) && x.result.None? && !x.state.Ended? && SoundCoroutine(x.task, co)
    requires x.stop.Some? ==> x.stop.value.Cancelled? || x.stop.value.Interrupted?
    ensures SoundRun(Conclude(x, co))
    ensures SoundRun(Handle(x, co))
  {
    assert GatedTrail(x.task, co.trail);
    OverruledIsSound(x.task, co.trail, Stopped, if x.stop.Some? then x.stop.value else Interrupted);
  }

  lemma AfterStageIsSound(
    x: Run, co: Coroutine, result: Option<StageResult>, exitCode: int, frontierFails: bool, pipeFails: bool)
    requires ValidTask(x.task) && x.result.None? && x.process.None? && SoundCoroutine(x.task, co)
    requires x.stop.Some? ==> x.stop.value.Cancelled? || x.stop.value.Interrupted?
    requires result.Some? ==> ValidStage(result.value, x.task)
    ensures SoundRun(AfterStage(x, co, result, exitCode, frontierFails, pipeFails))
  {
    TrailGrows(x.task, co.trail, result, exitCode);
    var trail := Extended(co.trail, result, exitCode);
    var exit := LoopExit(x.task, trail, result, exitCode);
    if exit.Some? {
      ConclusionIsSound(x.task, trail, exit.value, frontierFails);
    } else {
      BeginStageIsSound(x, co.(trail := trail), pipeFails);
    }
  }

  /** The actions that can end a run. */
  predicate Ends(a: Action) {
    || a.StageDone? || a.Stop? || a.SpawnFailed? || a.StageRaised?
    || a.Start? || a.AcquireSlot? || a.Deliver? || a.Drained?
  }

  lemma MovingStepIsSound(x: Run, a: Action, free: nat)
    requires SoundRun(x) && !Ends(a)
    ensures SoundRun(Step(x, a, free).0)
  {
  }

  lemma EndingStepIsSound(x: Run, a: Action, free: nat)
    requires SoundRun(x) && x.co.Some? && Ends(a)
    ensures SoundRun(Step(x, a, free).0)
  {
    var co := x.co.value;
    assert GatedTrail(x.task, co.trail);
    FailIsSound(x, co.trail);
    match a {
      case StageDone(result, exitCode, frontierFails, pipeFails) =>
        if StageOver(x) && (result.Some? ==> ValidStage(result.value, x.task)) {
          AfterStageIsSound(
            x.(state := StageFinished, process := None), co, result, exitCode, frontierFails, pipeFails);
        }
      case Start(pipeFails) => if !co.cancelled && co.pc.NotStarted? { BeginStageIsSound(x, co, pipeFails); }
      case Deliver => HandleIsSound(x, co.(cancelled := false));
      case _ => HandleIsSound(x, co);
    }
  }

  lemma StepIsSound(x: Run, a: Action, free: nat)
    requires SoundRun(x)
    ensures SoundRun(Step(x, a, free).0)
  {
    if x.co.Some? && Ends(a) {
      EndingStepIsSound(x, a, free);
    } else if !Ends(a) {
      MovingStepIsSound(x, a, free);
    }
  }

  // ---------------------------------------------------------------- slots

  ghost function Held(x: Run): nat { if x.co.Some? && HoldsSlot(x.co.value.pc) then 1 else 0 }

  /** The pipe of a local stage fails: the run has acquired a slot that it will never give back. */
  predicate Loses(x: Run, a: Action, free: nat) { a == AcquireSlot(true) && CanTakeSlot(x, free) }

  /** An action gives back exactly the slots the run stops holding, but for the one a failing pipe loses. */
  lemma StepBalancesSlots(x: Run, a: Action, free: nat)
    ensures Step(x, a, free).1 + Held(Step(x, a, free).0) + (if Loses(x, a, free) then 1 else 0) == free + Held(x)
  {
  }

  /** The runs whose stage holds a local slot. */
  ghost function Holders(runs: map<Text, Run>): set<Text> {
    set id | id in runs && Held(runs[id]) == 1
  }

  lemma HoldersOfUpdate(runs: map<Text, Run>, id: Text, x: Run)
    ensures |Holders(runs[id := x])| + (if id in runs then Held(runs[id]) else 0) == |Holders(runs)| + Held(x)
  {
    var before, after := Holders(runs), Holders(runs[id := x]);
    assert after - {id} == before - {id};
    assert |after| == |after - {id}| + Held(x);
    assert |before| == |before - {id}| + if id in runs then Held(runs[id]) else 0;
  }

  ghost predicate Inv(s: System) { forall id :: id in s.runs ==> SoundRun(s.runs[id]) }

  lemma StepKeepsInv(s: System, e: Event)
    requires Inv(s)
    ensures Inv(Apply(s, e))
  {
    if e.On? && e.id in s.runs {
      StepIsSound(s.runs[e.id], e.action, s.free);
    }
  }

  /** In every reachable state every run is sound. */
  lemma ReachedIsSound(capacity: nat, events: seq<Event>)
    ensures Inv(After(Apply, Initial(capacity), events))
  {
    forall s, e | Inv(s) ensures Inv(Apply(s, e)) { StepKeepsInv(s, e); }
    KeptForever(Apply, Inv, Initial(capacity), events);
  }

  /** Free permits and slot-holding stages. */
  ghost function Slots(s: System): nat { s.free + |Holders(s.runs)| }

  ghost predicate LosesSlot(s: System, e: Event) { e.On? && e.id in s.runs && Loses(s.runs[e.id], e.action, s.free) }

  /** Every step but a crash keeps the slots, except that a failing pipe loses one. */
  lemma StepKeepsSlots(s: System, e: Event)
    requires !e.Crash?
    ensures Slots(Apply(s, e)) + (if LosesSlot(s, e) then 1 else 0) == Slots(s)
  {
    match e {
      case Submit(newId, newTask) => HoldersOfUpdate(s.runs, newId, Fresh(newTask));
      case On(id, a) =>
        if id in s.runs {
          StepBalancesSlots(s.runs[id], a, s.free);
          HoldersOfUpdate(s.runs, id, Step(s.runs[id], a, s.free).0);
        }
      case Close => assert Holders(Apply(s, e).runs) == Holders(s.runs);
      case Recover(_) => assert Holders(Apply(s, e).runs) == Holders(s.runs);
      case Crash =>
    }
  }

  /** How many slots failing pipes have lost since the last crash. */
  ghost function Lost(capacity: nat, events: seq<Event>): nat {
    if events == [] then 0
    else
      var n := |events| - 1;
      if events[n].Crash? then 0
      else
        var s := After(Apply, Initial(capacity), events[..n]);
        Lost(capacity, events[..n]) + if LosesSlot(s, events[n]) then 1 else 0
  }

  /** The law of the local slots, over every interleaving: free permits and holders make up the capacity
      less what failing pipes lost since the last crash; so they are conserved exactly if none did. */
  lemma {:induction false} SlotsAreConserved(capacity: nat, events: seq<Event>)
    ensures
      var s := After(Apply, Initial(capacity), events);
      && s.capacity == capacity && Slots(s) + Lost(capacity, events) == capacity
      && (Slots(s) == capacity <==> Lost(capacity, events) == 0)
  {
    if events == [] {
      assert Holders(map[]) == {};
    } else {
      var n := |events| - 1;
      var s := After(Apply, Initial(capacity), events[..n]);
      SlotsAreConserved(capacity, events[..n]);
      if events[n].Crash? {
        assert Holders(Apply(s, Crash).runs) == {};
      } else {
        StepKeepsSlots(s, events[n]);
      }
    }
  }

  /** A run whose first stage is local and whose pipe fails, alone in the manager: a slot is lost. */
  lemma SlotCanBeLost(capacity: nat, id: Text, task: Task)
    requires capacity >= 1 && ValidTask(task) && !task.stages[0].execution.Broker?
    ensures
      var events := [Submit(id, task), On(id, Start(false)), On(id, AcquireSlot(true))];
      Lost(capacity, events) == 1 && Slots(After(Apply, Initial(capacity), events)) == capacity - 1
  {
    var submit, start, acquire := Submit(id, task), On(id, Start(false)), On(id, AcquireSlot(true));
    var s0 := Initial(capacity);
    var s1 := Apply(s0, submit);
    var s2 := Apply(s1, start);
    AfterOneMore(Apply, s0, [], submit);
    AfterOneMore(Apply, s0, [submit], start);
    assert [] + [submit] == [submit] && [submit] + [start] == [submit, start];
    assert [submit, start, acquire][..2] == [submit, start] && [submit, start][..1] == [submit] && [submit][..0] == [];
    assert s2.runs[id].co.value.pc == AwaitingSlot;
    assert LosesSlot(s2, acquire) && !LosesSlot(s1, start) && !LosesSlot(s0, submit);
    SlotsAreConserved(capacity, [submit, start, acquire]);
  }

  // ---------------------------------------------------------------- outcomes

  lemma SoundOutcome(x: Run)
    requires SoundRun(x) && x.state.Ended? && x.result.Some?
    ensures x.state.outcome == x.result.value.outcome
    ensures |x.trail| <= |x.task.stages| && x.result.value.stages == Summaries(ResultsOf(x.trail))
    ensures forall i :: 0 <= i < |x.trail| - 1 ==> x.trail[i].exitCode == 0 && x.trail[i].result.status.Passed?
    ensures x.state.outcome.Completed? ==>
      |x.trail| == |x.task.stages| && forall i :: 0 <= i < |x.trail| ==> x.trail[i].result.status.Passed?
    ensures x.state.outcome.Rejected? ==> x.trail != [] && x.trail[|x.trail| - 1].result.validity.Invalid?
    ensures SoundResult(x.task, x.result.value)
  {
    assert forall i :: 0 <= i < |x.trail| ==> ResultsOf(x.trail)[i] == x.trail[i].result;
  }

  /** Ordered gates and outcome agreement, in every reachable state, of a run that ended with a saved
      result. The terminal state is the saved outcome; the executed stages are a prefix in which every stage
      but the last passed and exited with 0; a completed run passed all its stages; a rejected run's last
      stage reported it invalid; and what enters the frontier completed, is valid, fully timed and stable. */
  lemma SavedOutcomeAgrees(capacity: nat, events: seq<Event>, id: Text)
    requires
      var runs := After(Apply, Initial(capacity), events).runs;
      id in runs && runs[id].state.Ended? && runs[id].result.Some?
    ensures
      var x := After(Apply, Initial(capacity), events).runs[id];
      var result, trail := x.result.value, x.trail;
      && x.state.outcome == result.outcome
      && |trail| <= |x.task.stages| && result.stages == Summaries(ResultsOf(trail))
      && (forall i :: 0 <= i < |trail| - 1 ==> trail[i].exitCode == 0 && trail[i].result.status.Passed?)
      && (x.state.outcome.Completed? ==>
            |trail| == |x.task.stages| && forall i :: 0 <= i < |trail| ==> trail[i].result.status.Passed?)
      && (x.state.outcome.Rejected? ==> trail != [] && trail[|trail| - 1].result.validity.Invalid?)
      && SoundResult(x.task, result)
  {
    ReachedIsSound(capacity, events);
    SoundOutcome(After(Apply, Initial(capacity), events).runs[id]);
  }

  /** On the ordinary way out of the stage loop, a run is rejected exactly when its last stage
      reported it invalid, and completed exactly when every stage reported passed. */
  lemma OrdinaryOutcome(x: Run, result: Option<StageResult>, exitCode: int, free: nat)
    requires SoundRun(x) && StageOver(x)
    requires result.Some? ==> ValidStage(result.value, x.task)
    requires LoopExit(x.task, Extended(x.co.value.trail, result, exitCode), result, exitCode).Some?
    ensures
      var after := Step(x, StageDone(result, exitCode, false, false), free).0;
      && after.state.Ended?
      && (after.state.outcome.Rejected? <==> result.Some? && result.value.validity.Invalid?)
      && (after.state.outcome.Completed? <==>
        result.Some? && result.value.status.Passed? && |x.co.value.trail| + 1 == |x.task.stages|)
  {
    var co := x.co.value;
    TrailGrows(x.task, co.trail, result, exitCode);
    var trail := Extended(co.trail, result, exitCode);
    GatedOutcome(x.task, ResultsOf(trail), LoopExit(x.task, trail, result, exitCode).value);
  }

  /** The exit code of the last stage does not count: a stage that reports passed and then exits
      with an error leaves a terminal reason on a run that still completes. */
  lemma LastExitCodeIsIgnored(x: Run, result: StageResult, exitCode: int, free: nat)
    requires SoundRun(x) && StageOver(x)
    requires |x.co.value.trail| + 1 == |x.task.stages|
    requires ValidStage(result, x.task) && result.status.Passed? && exitCode != 0
    ensures
      var after := Step(x, StageDone(Some(result), exitCode, false, false), free).0;
      && after.state == Ended(Completed)
      && after.result.Some? && after.result.value.reason == Some(ExitedNonzero(exitCode))
  {
    OrdinaryOutcome(x, Some(result), exitCode, free);
  }

  lemma EndedRunStays(x: Run, a: Action, free: nat)
    requires SoundRun(x) && x.state.Ended?
    ensures Step(x, a, free).0 == x
  {
  }

  /** A terminal run is never touched again. */
  lemma TerminalIsAbsorbing(s: System, e: Event, id: Text)
    requires Inv(s) && id in s.runs && s.runs[id].state.Ended?
    ensures id in Apply(s, e).runs && Apply(s, e).runs[id] == s.runs[id]
  {
    if e.On? {
      EndedRunStays(s.runs[id], e.action, s.free);
    }
  }

  // ---------------------------------------------------------------- runs that never end

  ghost predicate Live(x: Run) { x.co.Some? && !x.co.value.pc.Aborted? }

  /** A run that is neither terminal nor owned by a coroutine that could end it. */
  ghost predicate Abandoned(x: Run) { !x.state.Ended? && !Live(x) }

  /** An action abandons a live run exactly when cancellation reaches the coroutine before its first
      step, or again while its cancellation handler waits for a process. */
  lemma AbandonedExactly(x: Run, a: Action, free: nat)
    requires SoundRun(x) && Live(x)
    ensures Abandoned(Step(x, a, free).0)
       <==> a.Deliver? && x.co.value.cancelled && (x.co.value.pc.NotStarted? || x.co.value.pc.Interrupting?)
  {
  }

  /** The handler waits only for a process that was running when the cancellation left the stage: without
      one a delivered cancellation ends the run in the same stretch, under its stop reason. */
  lemma HandlerWaitsExactly(x: Run, a: Action, free: nat)
    requires SoundRun(x) && x.co.Some? && !x.co.value.pc.Interrupting?
    ensures
      var y := Step(x, a, free).0;
      var co := x.co.value;
      var leaves := co.pc.Draining? && (if co.cancelled then a.Deliver? else a.Drained?);
      && (y.co.Some? && y.co.value.pc.Interrupting? <==> leaves && x.process == Some(true))
      && (leaves && x.process != Some(true) ==> y.state == Ended(if x.stop.Some? then x.stop.value else Interrupted))
      && (a.Deliver? && co.cancelled && (co.pc.AwaitingSlot? || co.pc.Spawning?) ==>
            y.state == Ended(if x.stop.Some? then x.stop.value else Interrupted))
  {
  }

  /** Nothing the manager does ends an abandoned run; recovery after a restart does. */
  lemma AbandonedStays(x: Run, a: Action, free: nat)
    requires SoundRun(x) && Abandoned(x)
    ensures Abandoned(Step(x, a, free).0)
    ensures Interrupt(Reboot(x)).state == Ended(Interrupted)
  {
  }

  /** The schedule of two cancel requests on an executing stage, both delivered. */
  ghost function CancelledTwice(x: Run, free: nat): Run {
    var (x1, f1) := Step(x, Cancel, free);
    var (x2, f2) := Step(x1, Deliver, f1);
    var (x3, f3) := Step(x2, Drained, f2);
    var (x4, f4) := Step(x3, Cancel, f3);
    Step(x4, Deliver, f4).0
  }

  /** It leaves the run nonterminal for good exactly when the process of the stage still runs: the second
      cancellation then arrives while the first is stopping it. Otherwise the run ends as cancelled. */
  lemma CancelTwiceAbandons(x: Run, free: nat)
    requires SoundRun(x) && x.co.Some? && x.co.value.pc.Executing? && !x.co.value.cancelled
    ensures Abandoned(CancelledTwice(x, free)) <==> x.process == Some(true)
    ensures x.process != Some(true) ==> CancelledTwice(x, free).state == Ended(Cancelled)
  {
  }
}
