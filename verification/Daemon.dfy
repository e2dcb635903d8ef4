/** The daemon: runs and managed services interleaved in one event loop (server.py). */
module Daemon {
  import opened Texts
  import opened Contracts
  import R = Runs
  import S = Services

  /** How far startup is: recovery of the runs, then of the deployments, then clients. */
  datatype Stage = Starting | RunsRecovered | Serving

  datatype World = World(runs: R.System, services: S.System, stage: Stage)

  /** `answered` are the broker jobs that recovery can reconcile; a deployment is recovered with
      `reconciled` unless the broker call for its job raises. */
  datatype Event =
    | Submit(runId: Text, task: Task)
    | RunStep(run: R.Event)
    | ServiceStep(service: S.Event)
    | Crash
    | RecoverRuns(answered: set<Text>)
    | RecoverDeployment(deploymentId: Text, reconciled: bool)
    | Serve

  ghost predicate ActiveConsumer(runs: R.System, runId: Text, deploymentId: Text) {
    runId in runs.runs && !runs.runs[runId].state.Ended? && deploymentId in Deployments(runs.runs[runId].task)
  }

  /** Deployments referenced by a nonterminal run. */
  ghost function Busy(runs: R.System): set<Text> {
    set r, d | r in runs.runs && !runs.runs[r].state.Ended? && d in Deployments(runs.runs[r].task) :: d
  }

  /** The readiness check of submit. */
  ghost predicate DeploymentsReady(services: S.System, task: Task) {
    forall d :: d in Deployments(task) ==> d in services && services[d].deployment.phase.Ready?
  }

  ghost predicate DeploymentsEnded(services: S.System) { forall d :: d in services ==> S.Ended(services[d]) }

  /** A recovery step that raises ends the start; the next one begins again. */
  ghost function Apply(w: World, e: Event): World {
    match e
    case Submit(runId, task) =>
      if w.stage.Serving? && DeploymentsReady(w.services, task) then
        w.(runs := R.Apply(w.runs, R.Submit(runId, task)))
      else w
    case RunStep(run) =>
      if w.stage.Serving? && (run.Close? || run.On?) then w.(runs := R.Apply(w.runs, run)) else w
    case ServiceStep(service) =>
      if w.stage.Serving? && (service.Start? || (service.On? && !service.action.Recover?)) then
        w.(services := S.Apply(w.services, service, Busy(w.runs)))
      else w
    case Crash => World(R.Apply(w.runs, R.Crash), S.Apply(w.services, S.Crash, {}), Starting)
    case RecoverRuns(answered) =>
      if w.stage.Starting? && R.Reconciled(w.runs.runs, answered) then
        w.(runs := R.Apply(w.runs, R.Recover(answered)), stage := RunsRecovered)
      else w
    case RecoverDeployment(id, reconciled) =>
      if !w.stage.RunsRecovered? then w
      else if reconciled then w.(services := S.Apply(w.services, S.On(id, S.Recover), {}))
      else w.(stage := Starting)
    case Serve => if w.stage.RunsRecovered? && DeploymentsEnded(w.services) then w.(stage := Serving) else w
  }

  ghost function Initial(capacity: nat): World { World(R.Initial(capacity), map[], Starting) }
}
