/** The deployment lifecycle of services.py as a step system: one action is the code between two
    awaits of the coroutines around one deployment. An action that is not enabled changes nothing. */
module Services {
  import opened Wrappers
  import opened Texts

  datatype Phase = Accepted | Starting | Ready | Stopping | Stopped | Failed | Interrupted

  /** state.json of a deployment; `wasReady` tells whether `ready_at` is set. */
  datatype Deployment = Deployment(serviceId: Text, graceS: Option<nat>, phase: Phase, wasReady: bool)

  /** Where the coroutine of a deployment is suspended: `AwaitingChild` is the second wait for the spawn,
      after a cancellation of the first; `Interrupting` the wait, on the way to the finally block, for an
      interrupted process or for a cancelled attestation; `Closing` the waits of the finally block. An
      `Aborted` coroutine is done but left its deployment as it was. */
  datatype Pc = NotStarted | Spawning | AwaitingChild | Waiting | Serving | Interrupting | Closing | Aborted

  /** What the spawn has come to when a cancellation is delivered. */
  datatype Spawn = Pending | Created | Refused

  datatype Coroutine = Coroutine(pc: Pc, cancelled: bool)

  datatype StopCause = Requested | IdleGrace

  /** An idle watcher with its `idle_started_mono`. */
  datatype Watcher = Watcher(since: Option<nat>)

  /** Everything the manager holds about one deployment: its entries in `_tasks`, `_processes` (and
      whether the process is alive), `_stop_reasons` and `_idle_tasks`, and how many `stop` calls are
      waiting for the coroutine to end. */
  datatype Service = Service(
    deployment: Deployment, task: Option<Coroutine>, process: Option<bool>,
    stopReason: Option<StopCause>, idle: Option<Watcher>, stoppers: nat)

  type System = map<Text, Service>

  datatype Action =
    | Begin(pipeFails: bool)
    | Spawned
    | SpawnFailed
    | BecomeReady
    | ReadyFails
    | ExitsUnready
    | ProcessExits
    | ServeEnds
    | Deliver(spawn: Spawn)
    | Unwound
    | Finalize
    | StopBegin
    | StopEnd
    | IdleTick(now: nat)
    | Recover

  datatype Event =
    | Start(newId: Text, serviceId: Text, graceS: Option<nat>)
    | On(id: Text, action: Action)
    | Crash

  predicate Terminal(phase: Phase) { phase.Stopped? || phase.Failed? || phase.Interrupted? }

  predicate Ended(x: Service) { Terminal(x.deployment.phase) }

  function SetPhase(x: Service, phase: Phase): Service { x.(deployment := x.deployment.(phase := phase)) }

  function Move(x: Service, pc: Pc): Service { x.(task := Some(Coroutine(pc, false))) }

  /** Entering the finally block: the idle watcher is popped and cancelled first. */
  function EnterClosing(x: Service): Service { Move(x, Closing).(idle := None) }

  predicate At(x: Service, pc: Pc) { x.task == Some(Coroutine(pc, false)) }

  /** A handler: interrupt a running process and wait for it, or go on to the finally block. */
  function Interrupt(x: Service): Service { if x.process == Some(true) then Move(x, Interrupting) else EnterClosing(x) }

  /** The child of a cancelled spawn is kept, and interrupted; a second cancellation loses its handle. */
  function Unwind(x: Service, spawn: Spawn): Service
    requires x.task.Some?
  {
    match x.task.value.pc
    case NotStarted => Move(x, Aborted)
    case Spawning =>
      if spawn.Created? then Move(x, Interrupting).(process := Some(true))
      else if spawn.Pending? then Move(x, AwaitingChild)
      else EnterClosing(x)
    case AwaitingChild => EnterClosing(x)
    case Waiting => Interrupt(x)
    case Serving => Interrupt(x)
    case Interrupting => EnterClosing(x)
    case Closing => Move(x, Aborted)
    case Aborted => x
  }

  /** `stop` up to its first await: refused for a terminal deployment or one with consumers. */
  function RequestStop(x: Service, busy: bool): Service {
    if Ended(x) || busy then x
    else
      var marked := SetPhase(x, Stopping).(stopReason := Some(Requested), stoppers := x.stoppers + 1);
      if x.process == Some(true) || x.task.None? || x.task.value.pc.Aborted? then marked
      else marked.(task := Some(x.task.value.(cancelled := true)))
  }

  /** The rest of `stop` once the coroutine is done. */
  function CompleteStop(x: Service): Service {
    if x.stoppers == 0 || (x.task.Some? && !x.task.value.pc.Aborted?) then x
    else if Ended(x) then x.(stoppers := x.stoppers - 1)
    else SetPhase(x, Stopped).(stoppers := x.stoppers - 1, task := None, stopReason := None)
  }

  /** One sample of an idle watcher: its new `idle_started_mono`, and whether it stops the service. */
  function Sample(since: Option<nat>, graceS: nat, now: nat, busy: bool): (Option<nat>, bool) {
    if busy then (None, false)
    else if since.None? then (Some(now), false)
    else (since, now - since.value >= graceS)
  }

  function Watch(x: Service, now: nat, busy: bool): Service {
    if x.idle.None? then x
    else if !x.deployment.phase.Ready? || x.deployment.graceS.None? then x.(idle := None)
    else
      var (since, fires) := Sample(x.idle.value.since, x.deployment.graceS.value, now, busy);
      if fires then SetPhase(x, Stopping).(stopReason := Some(IdleGrace), idle := None)
      else x.(idle := Some(Watcher(since)))
  }

  /** One action on a deployment; `busy` tells whether a nonterminal run references it. */
  function Step(x: Service, a: Action, busy: bool): Service {
    match a
    case Begin(pipeFails) =>
      if !At(x, NotStarted) then x
      else if pipeFails then Move(x, Aborted)
      else Move(SetPhase(x, Starting), Spawning)
    case Spawned =>
      if At(x, Spawning) then Move(x, Waiting).(process := Some(true))
      else if At(x, AwaitingChild) then Move(x, Interrupting).(process := Some(true))
      else x
    case SpawnFailed => if At(x, Spawning) || At(x, AwaitingChild) then EnterClosing(x) else x
    case BecomeReady =>
      if At(x, Waiting) then
        Move(x, Serving).(
          deployment := x.deployment.(phase := Ready, wasReady := true),
          idle := if x.deployment.graceS.Some? then Some(Watcher(None)) else x.idle)
      else x
    case ReadyFails => if At(x, Waiting) then Interrupt(x) else x
    case ExitsUnready => if At(x, Waiting) && x.process != Some(true) then Move(x, Interrupting) else x
    case ProcessExits => if x.process == Some(true) then x.(process := Some(false)) else x
    case ServeEnds => if At(x, Serving) && x.process != Some(true) then EnterClosing(x) else x
    case Deliver(spawn) => if x.task.Some? && x.task.value.cancelled then Unwind(x, spawn) else x
    case Unwound => if At(x, Interrupting) && x.process != Some(true) then EnterClosing(x) else x
    case Finalize =>
      if At(x, Closing) then
        SetPhase(x, if x.stopReason.Some? then Stopped else Failed).(task := None, process := None, stopReason := None)
      else x
    case StopBegin => RequestStop(x, busy)
    case StopEnd => CompleteStop(x)
    case IdleTick(now) => Watch(x, now, busy)
    case Recover => if x.task.None? && !Ended(x) then SetPhase(x, Interrupted) else x
  }

  /** Deployments of a service id that still count as active. */
  function Active(s: System, serviceId: Text): set<Text> {
    set id | id in s && s[id].deployment.serviceId == serviceId && !Ended(s[id])
  }

  function Fresh(serviceId: Text, graceS: Option<nat>): Service {
    Service(Deployment(serviceId, graceS, Accepted, false), Some(Coroutine(NotStarted, false)), None, None, None, 0)
  }

  function Reboot(x: Service): Service { Service(x.deployment, None, None, None, None, 0) }

  /** One step of the service manager; `busy` is the set of deployments with an active consumer. */
  function Apply(s: System, e: Event, busy: set<Text>): System {
    match e
    case Start(newId, serviceId, graceS) =>
      if newId in s || Active(s, serviceId) != {} then s else s[newId := Fresh(serviceId, graceS)]
    case On(id, a) => if id in s then s[id := Step(s[id], a, id in busy)] else s
    case Crash => map id | id in s :: Reboot(s[id])
  }
}
