/** The run lifecycle of runner.py as a step system: one action is the code between two awaits of
    the coroutine of a run. An action that is not enabled changes nothing. */
module Runs {
  import opened Wrappers
  import opened Texts
  import opened Contracts
  import opened Results

  datatype Lifecycle = Accepted | Submitting | WaitingLocal | Queued | Running | StageFinished | Ended(outcome: Outcome)

  /** A stage result together with the exit code of its process. */
  datatype Done = Done(result: StageResult, exitCode: int)

  /** Where the coroutine of a run is suspended; `slot` tells whether it holds a local slot. */
  datatype Pc =
    | NotStarted
    | AwaitingSlot
    | Spawning(slot: bool)
    | Executing(slot: bool)
    | Draining(slot: bool)
    | Interrupting
    | Aborted

  datatype Coroutine = Coroutine(pc: Pc, trail: seq<Done>, cancelled: bool)

  /** A run: state.json with its persisted broker job, result.json, the stages an ended run executed,
      and the manager's entries for it in `_tasks`, `_stop_reasons` and `_processes` (where the flag
      tells whether the process still runs). */
  datatype Run = Run(
    task: Task, state: Lifecycle, brokerJob: Option<Text>, result: Option<RunResult>, trail: seq<Done>,
    co: Option<Coroutine>, stop: Option<Outcome>, process: Option<bool>)

  datatype System = System(capacity: nat, free: nat, runs: map<Text, Run>)

  datatype Action =
    | Start(pipeFails: bool)
    | AcquireSlot(pipeFails: bool)
    | Spawned
    | SpawnFailed
    | BrokerReport(started: bool, job: Option<Text>)
    | ProcessExits
    | StageDone(stageResult: Option<StageResult>, exitCode: int, frontierFails: bool, pipeFails: bool)
    | StageRaised
    | Cancel
    | Deliver
    | Drained
    | Stop

  /** `Recover` is startup: `answered` are the broker jobs that the broker could be asked to cancel. */
  datatype Event =
    | Submit(newId: Text, newTask: Task)
    | On(id: Text, action: Action)
    | Close
    | Crash
    | Recover(answered: set<Text>)

  predicate HoldsSlot(pc: Pc) {
    match pc
    case Spawning(slot) => slot
    case Executing(slot) => slot
    case Draining(slot) => slot
    case _ => false
  }

  function ResultsOf(trail: seq<Done>): seq<StageResult> {
    seq(|trail|, i requires 0 <= i < |trail| => trail[i].result)
  }

  // ---------------------------------------------------------------- effects on one run

  function Move(x: Run, co: Coroutine, pc: Pc): Run { x.(co := Some(co.(pc := pc))) }

  function Release(free: nat, pc: Pc): nat { if HoldsSlot(pc) then free + 1 else free }

  /** The coroutine is suspended here with no cancellation pending. */
  predicate At(x: Run, pc: Pc) { x.co.Some? && x.co.value.pc == pc && !x.co.value.cancelled }

  /** Write result.json and the terminal state, then the finally block. */
  function Finish(x: Run, trail: seq<Done>, result: RunResult): Run {
    x.(
      state := Ended(result.outcome), result := Some(result), trail := trail,
      co := None, stop := None, process := None)
  }

  ghost function Overruled(task: Task, trail: seq<Done>, reason: Ending, outcome: Outcome): RunResult {
    Aggregation(task, ResultsOf(trail), Some(reason)).(outcome := outcome, eligible := false)
  }

  /** The handler of exceptions other than cancellation. */
  ghost function Fail(x: Run, trail: seq<Done>): Run {
    Finish(x, trail, Overruled(x.task, trail, Raised, InfraError))
  }

  /** From the top of the stage loop to its first await. A broker stage opens its pipe at once, a local
      stage only when it has its slot. */
  ghost function BeginStage(x: Run, co: Coroutine, pipeFails: bool): Run
    requires |co.trail| < |x.task.stages|
  {
    var y := x.(brokerJob := None);
    if !x.task.stages[|co.trail|].execution.Broker? then Move(y, co, AwaitingSlot).(state := WaitingLocal)
    else if pipeFails then Fail(y, co.trail)
    else Move(y, co, Spawning(false)).(state := Submitting)
  }

  /** The cancellation handler: interrupt a running process and wait for it, or end the run at once. */
  ghost function Handle(x: Run, co: Coroutine): Run {
    if x.process == Some(true) then Move(x, co, Interrupting) else Conclude(x, co)
  }

  /** The end of the cancellation handler. */
  ghost function Conclude(x: Run, co: Coroutine): Run {
    Finish(x, co.trail, Overruled(x.task, co.trail, Stopped, if x.stop.Some? then x.stop.value else Interrupted))
  }

  /** A failure while rebuilding the frontier overrules the outcome just saved. */
  ghost function Conclusion(task: Task, trail: seq<Done>, reason: Option<Ending>, frontierFails: bool): RunResult {
    if frontierFails then Overruled(task, trail, Raised, InfraError)
    else Aggregation(task, ResultsOf(trail), reason)
  }

  function Extended(trail: seq<Done>, result: Option<StageResult>, exitCode: int): seq<Done> {
    if result.Some? then trail + [Done(result.value, exitCode)] else trail
  }

  /** Why the stage loop stops after a stage, if it does. */
  function LoopExit(task: Task, trail: seq<Done>, result: Option<StageResult>, exitCode: int): Option<Option<Ending>> {
    if result.None? then Some(Some(NoResult))
    else if exitCode != 0 && result.value.status.Passed? then Some(Some(ExitedNonzero(exitCode)))
    else if !result.value.status.Passed? then Some(Some(StageFailed))
    else if |trail| >= |task.stages| then Some(None)
    else None
  }

  /** The rest of the loop body of `_run` after a stage: finish, or go on to the next stage. */
  ghost function AfterStage(
    x: Run, co: Coroutine, result: Option<StageResult>, exitCode: int, frontierFails: bool, pipeFails: bool): Run
  {
    var trail := Extended(co.trail, result, exitCode);
    var exit := LoopExit(x.task, trail, result, exitCode);
    if exit.Some? then Finish(x, trail, Conclusion(x.task, trail, exit.value, frontierFails))
    else if |trail| < |x.task.stages| then BeginStage(x, co.(trail := trail), pipeFails)
    else x
  }

  /** A pending cancellation reaches the coroutine at its await. */
  ghost function Unwind(x: Run, co: Coroutine, free: nat): (Run, nat) {
    match co.pc
    case NotStarted => (Move(x, co, Aborted), free)
    case AwaitingSlot => (Handle(x, co), free)
    case Spawning(_) => (Handle(x, co), Release(free, co.pc))
    case Executing(slot) => (Move(x, co, Draining(slot)), free)
    case Draining(_) => (Handle(x, co), Release(free, co.pc))
    case Interrupting => (x.(co := None, stop := None, process := None), free)
    case Aborted => (x, free)
  }

  /** The wait for a slot ends: a pipe that fails here loses it, since it is not yet guarded. */
  ghost function TakeSlot(x: Run, co: Coroutine, pipeFails: bool): Run {
    if pipeFails then Fail(x, co.trail) else Move(x, co, Spawning(true)).(state := Running)
  }

  predicate CanTakeSlot(x: Run, free: nat) { At(x, AwaitingSlot) && free > 0 }

  /** One action on a run, and the free local slots after it. */
  ghost function Step(x: Run, a: Action, free: nat): (Run, nat) {
    if x.co.None? then (x, free)
    else
      var co := x.co.value;
      var ready := !co.cancelled;
      match a
      case Cancel =>
        (if x.state.Ended? then x
         else x.(stop := Some(Cancelled), co := Some(co.(cancelled := !co.pc.Aborted?))), free)
      case Deliver => if co.cancelled then Unwind(x, co.(cancelled := false), free) else (x, free)
      case BrokerReport(started, job) =>
        (if co.pc == Executing(false) then
           x.(state := if started then Running else Queued, brokerJob := if job.Some? then job else x.brokerJob)
         else x, free)
      case ProcessExits => (if x.process == Some(true) then x.(process := Some(false)) else x, free)
      case Start(pipeFails) =>
        (if ready && co.pc.NotStarted? && |co.trail| < |x.task.stages| then BeginStage(x, co, pipeFails) else x, free)
      case AcquireSlot(pipeFails) =>
        if CanTakeSlot(x, free) then (TakeSlot(x, co, pipeFails), free - 1) else (x, free)
      case Spawned =>
        (if ready && co.pc.Spawning? then Move(x, co, Executing(co.pc.slot)).(process := Some(true)) else x, free)
      case SpawnFailed =>
        if ready && co.pc.Spawning? then (Fail(x, co.trail), Release(free, co.pc)) else (x, free)
      case StageDone(result, exitCode, frontierFails, pipeFails) =>
        if StageOver(x) && (result.Some? ==> ValidStage(result.value, x.task)) then
          (AfterStage(
             x.(state := StageFinished, process := None), co, result, exitCode, frontierFails, pipeFails),
           Release(free, co.pc))
        else (x, free)
      case StageRaised =>
        if StageOver(x) then (Fail(x, co.trail), Release(free, co.pc)) else (x, free)
      case Drained =>
        if ready && co.pc.Draining? then (Handle(x, co), Release(free, co.pc)) else (x, free)
      case Stop =>
        (if ready && co.pc.Interrupting? && x.process != Some(true) then Conclude(x, co) else x, free)
  }

  /** The process of the stage has exited and no cancellation is pending. */
  predicate StageOver(x: Run) {
    x.co.Some? && !x.co.value.cancelled && x.co.value.pc.Executing? && x.process != Some(true)
  }

  /** `close` cancels every coroutine that is not done. */
  function Closing(x: Run): Run {
    if x.co.None? || x.co.value.pc.Aborted? then x
    else x.(stop := Some(Interrupted), co := Some(x.co.value.(cancelled := true)))
  }

  /** What survives a crash: the files. */
  function Reboot(x: Run): Run { x.(co := None, stop := None, process := None) }

  /** A job of a nonterminal run that could not be reconciled stops recovery before it changes a run. */
  ghost predicate Reconciled(runs: map<Text, Run>, answered: set<Text>) {
    forall id :: id in runs && !runs[id].state.Ended? && runs[id].brokerJob.Some? ==>
      runs[id].brokerJob.value in answered
  }

  function Interrupt(x: Run): Run {
    if x.co.None? && !x.state.Ended? then x.(state := Ended(Interrupted)) else x
  }

  function Fresh(task: Task): Run {
    Run(task, Accepted, None, None, [], Some(Coroutine(NotStarted, [], false)), None, None)
  }

  /** One step of the run manager. */
  ghost function Apply(s: System, e: Event): System {
    match e
    case Submit(newId, newTask) =>
      if newId in s.runs || !ValidTask(newTask) then s else s.(runs := s.runs[newId := Fresh(newTask)])
    case On(id, a) =>
      if id in s.runs then
        var (x, free) := Step(s.runs[id], a, s.free);
        s.(runs := s.runs[id := x], free := free)
      else s
    case Close => s.(runs := map id | id in s.runs :: Closing(s.runs[id]))
    case Crash => System(s.capacity, s.capacity, map id | id in s.runs :: Reboot(s.runs[id]))
    case Recover(answered) =>
      if Reconciled(s.runs, answered) then s.(runs := map id | id in s.runs :: Interrupt(s.runs[id])) else s
  }

  ghost function Initial(capacity: nat): System { System(capacity, capacity, map[]) }
}
