/** Safety of the daemon over every interleaving of runs, services, clients and crashes. */
module DaemonTheorems {
  import opened Wrappers
  import opened Texts
  import opened Steps
  import opened Contracts
  import R = Runs
  import S = Services
  import RunTheorems
  import opened Daemon

  // ---------------------------------------------------------------- one deployment

  predicate PastReadiness(pc: S.Pc) {
    pc.AwaitingChild? || pc.Serving? || pc.Interrupting? || pc.Closing? || pc.Aborted?
  }

  /** No process has been registered yet. */
  predicate Childless(pc: S.Pc) { pc.NotStarted? || pc.Spawning? || pc.AwaitingChild? }

  /** A coroutine owns only an active deployment, and readiness lies behind it once it was ready. */
  ghost predicate SoundService(x: S.Service) {
    && (x.task.Some? ==>
      && !S.Ended(x)
      && (x.deployment.wasReady ==> PastReadiness(x.task.value.pc))
      && (Childless(x.task.value.pc) ==> x.process.None?)
      && (x.task.value.pc.Aborted? ==> !x.task.value.cancelled))
    && (x.deployment.phase.Ready? ==> x.deployment.wasReady)
  }

  lemma StepKeepsServiceSound(x: S.Service, a: S.Action, busy: bool)
    requires SoundService(x)
    ensures SoundService(S.Step(x, a, busy))
    ensures S.Step(x, a, busy).deployment.serviceId == x.deployment.serviceId
    ensures S.Ended(x) ==> S.Step(x, a, busy).deployment == x.deployment
  {
  }

  /** Cut off from readiness: not ready, and its coroutine cannot make it so. */
  ghost predicate Sealed(x: S.Service) {
    && !x.deployment.phase.Ready?
    && (x.task.Some? ==> PastReadiness(x.task.value.pc) || x.task.value.cancelled)
  }

  lemma SealIsKept(x: S.Service, a: S.Action, busy: bool)
    requires Sealed(x)
    ensures Sealed(S.Step(x, a, busy))
  {
  }

  // ---------------------------------------------------------------- every reachable world

  /** Each service id has at most one nonterminal deployment. */
  ghost predicate Unique(s: S.System) {
    forall a, b :: (a in s && b in s && !S.Ended(s[a]) && !S.Ended(s[b])
                    && s[a].deployment.serviceId == s[b].deployment.serviceId) ==> a == b
  }

  ghost predicate SoundServices(s: S.System) {
    (forall id :: id in s ==> SoundService(s[id])) && Unique(s)
  }

  lemma ServiceStepKeepsSound(s: S.System, e: S.Event, busy: set<Text>)
    requires SoundServices(s)
    ensures SoundServices(S.Apply(s, e, busy))
  {
    var s' := S.Apply(s, e, busy);
    match e {
      case Start(newId, serviceId, graceS) =>
        assert forall a ::
          a in s && !S.Ended(s[a]) && s[a].deployment.serviceId == serviceId ==> a in S.Active(s, serviceId);
      case On(id, a) =>
        if id in s { StepKeepsServiceSound(s[id], a, id in busy); }
      case Crash =>
    }
  }

  /** Before clients are served no coroutine exists; once the runs are recovered all of them ended. */
  ghost predicate Staged(w: World) {
    && (!w.stage.Serving? ==> forall r :: r in w.runs.runs ==> w.runs.runs[r].co.None?)
    && (w.stage.RunsRecovered? ==> forall r :: r in w.runs.runs ==> w.runs.runs[r].state.Ended?)
  }

  ghost predicate Inv(w: World) { RunTheorems.Inv(w.runs) && SoundServices(w.services) && Staged(w) }

  lemma StepKeepsInv(w: World, e: Event)
    requires Inv(w)
    ensures Inv(Apply(w, e))
  {
    match e {
      case Submit(runId, task) => RunTheorems.StepKeepsInv(w.runs, R.Submit(runId, task));
      case RunStep(run) => RunTheorems.StepKeepsInv(w.runs, run);
      case ServiceStep(service) => ServiceStepKeepsSound(w.services, service, Busy(w.runs));
      case Crash =>
        RunTheorems.StepKeepsInv(w.runs, R.Crash);
        ServiceStepKeepsSound(w.services, S.Crash, {});
      case RecoverRuns(answered) => RunTheorems.StepKeepsInv(w.runs, R.Recover(answered));
      case RecoverDeployment(id, _) => ServiceStepKeepsSound(w.services, S.On(id, S.Recover), {});
      case Serve =>
    }
  }

  /** Service uniqueness, and the run invariants, in every reachable world. */
  lemma ReachableWorlds(capacity: nat, events: seq<Event>)
    ensures Inv(After(Apply, Initial(capacity), events))
    ensures Unique(After(Apply, Initial(capacity), events).services)
  {
    RunTheorems.ReachedIsSound(capacity, []);
    forall w, e | Inv(w) ensures Inv(Apply(w, e)) { StepKeepsInv(w, e); }
    KeptForever(Apply, Inv, Initial(capacity), events);
  }

  // ---------------------------------------------------------------- recovery before service

  /** Recovery of the runs is fail-closed: while one job is unanswered it changes nothing at all. */
  lemma RecoveryIsFailClosed(w: World, answered: set<Text>)
    requires w.stage.Starting?
    ensures
      var v := Apply(w, RecoverRuns(answered));
      && (v.stage.RunsRecovered? <==> R.Reconciled(w.runs.runs, answered))
      && (!R.Reconciled(w.runs.runs, answered) ==> v == w)
  {
  }

  /** Event `i` is a recovery of the runs that reached every persisted job of the nonterminal runs. */
  ghost predicate Reconciles(events: seq<Event>, i: nat, runs: map<Text, R.Run>) {
    i < |events| && events[i].RecoverRuns? && R.Reconciled(runs, events[i].answered)
  }

  lemma {:induction false} StartingOrReconciled(v: World, events: seq<Event>)
    ensures
      var w := Apply(v, Crash);
      var u := After(Apply, w, events);
      (u.stage.Starting? && u.runs == w.runs) || exists i: nat :: Reconciles(events, i, w.runs.runs)
  {
    if events != [] {
      var n := |events| - 1;
      var w := Apply(v, Crash);
      var u := After(Apply, w, events[..n]);
      StartingOrReconciled(v, events[..n]);
      if events[n].RecoverRuns? && u.stage.Starting? { RecoveryIsFailClosed(u, events[n].answered); }
      if i: nat :| Reconciles(events[..n], i, w.runs.runs) {
        assert Reconciles(events, i, w.runs.runs);
      } else if events[n].RecoverRuns? && R.Reconciled(w.runs.runs, events[n].answered) {
        assert Reconciles(events, n, w.runs.runs);
      } else if events[n].Crash? {
        assert Apply(u, Crash).runs.runs == w.runs.runs;
      }
    }
  }

  /** Every run and every deployment is terminal. */
  ghost predicate AtRest(w: World) {
    (forall r :: r in w.runs.runs ==> w.runs.runs[r].state.Ended?) && DeploymentsEnded(w.services)
  }

  /** Event `j` opens the daemon to clients, with everything at rest. */
  ghost predicate OpensAtRest(w: World, events: seq<Event>, j: nat) {
    && j < |events| && events[j].Serve?
    && After(Apply, w, events[..j]).stage.RunsRecovered? && AtRest(After(Apply, w, events[..j]))
  }

  lemma {:induction false} ServingWasOpened(w: World, events: seq<Event>)
    requires Inv(w) && !w.stage.Serving? && After(Apply, w, events).stage.Serving?
    ensures exists j: nat :: OpensAtRest(w, events, j)
  {
    var n := |events| - 1;
    var u := After(Apply, w, events[..n]);
    if u.stage.Serving? {
      ServingWasOpened(w, events[..n]);
      var j: nat :| OpensAtRest(w, events[..n], j);
      assert events[..n][..j] == events[..j];
      assert OpensAtRest(w, events, j);
    } else {
      forall v, e | Inv(v) ensures Inv(Apply(v, e)) { StepKeepsInv(v, e); }
      KeptForever(Apply, Inv, w, events[..n]);
      assert OpensAtRest(w, events, n);
    }
  }

  /** From a crash, whatever happens, the daemon serves only after a recovery that reached the broker for
      every job persisted by a nonterminal run at the crash, and it opened to clients after that, with every
      run and every deployment terminal. */
  lemma ServingWasReconciled(v: World, events: seq<Event>)
    requires Inv(v) && After(Apply, Apply(v, Crash), events).stage.Serving?
    ensures exists i: nat, j: nat ::
      i < j && Reconciles(events, i, Apply(v, Crash).runs.runs) && OpensAtRest(Apply(v, Crash), events, j)
  {
    var w := Apply(v, Crash);
    StepKeepsInv(v, Crash);
    ServingWasOpened(w, events);
    var j: nat :| OpensAtRest(w, events, j);
    StartingOrReconciled(v, events[..j]);
    var i: nat :| Reconciles(events[..j], i, w.runs.runs);
    assert Reconciles(events, i, w.runs.runs);
  }

  /** stopped, failed and interrupted are absorbing. */
  lemma TerminalDeploymentsStay(w: World, e: Event, d: Text)
    requires Inv(w) && d in w.services && S.Ended(w.services[d])
    ensures d in Apply(w, e).services && Apply(w, e).services[d].deployment == w.services[d].deployment
  {
    if e.ServiceStep? && e.service.On? {
      StepKeepsServiceSound(w.services[d], e.service.action, d in Busy(w.runs));
    }
    StepKeepsServiceSound(w.services[d], S.Recover, false);
  }

  // ---------------------------------------------------------------- consumer protection

  /** No nonterminal run references the deployment, and no run can any more. */
  ghost predicate Protected(w: World, d: Text) {
    && Inv(w) && d in w.services && Sealed(w.services[d])
    && forall r :: !ActiveConsumer(w.runs, r, d)
  }

  lemma RunStepAddsNoConsumer(s: R.System, e: R.Event, r: Text, d: Text)
    requires RunTheorems.Inv(s) && !e.Submit? && ActiveConsumer(R.Apply(s, e), r, d)
    ensures ActiveConsumer(s, r, d)
  {
    if s.runs[r].state.Ended? {
      RunTheorems.TerminalIsAbsorbing(s, e, r);
    }
    if e.On? {
      RunKeepsTask(s.runs[r], e.action, s.free);
    }
  }

  lemma RunKeepsTask(x: R.Run, a: R.Action, free: nat)
    ensures R.Step(x, a, free).0.task == x.task
  {
  }

  /** No step of the daemon makes a run an active consumer of a deployment that is not ready. */
  lemma StepAddsNoConsumer(w: World, e: Event, r: Text, d: Text)
    requires Inv(w) && d in w.services && !w.services[d].deployment.phase.Ready?
    requires ActiveConsumer(Apply(w, e).runs, r, d)
    ensures ActiveConsumer(w.runs, r, d)
  {
    match e {
      case RunStep(run) => if Apply(w, e) != w { RunStepAddsNoConsumer(w.runs, run, r, d); }
      case Crash => RunStepAddsNoConsumer(w.runs, R.Crash, r, d);
      case RecoverRuns(answered) => if Apply(w, e) != w { RunStepAddsNoConsumer(w.runs, R.Recover(answered), r, d); }
      case _ =>
    }
  }

  /** Nor does it undo the seal on a deployment. */
  lemma StepKeepsSeal(w: World, e: Event, d: Text)
    requires d in w.services && Sealed(w.services[d])
    ensures d in Apply(w, e).services && Sealed(Apply(w, e).services[d])
  {
    if e.ServiceStep? && e.service.On? {
      SealIsKept(w.services[d], e.service.action, d in Busy(w.runs));
    }
    SealIsKept(w.services[d], S.Recover, false);
  }

  lemma ProtectionIsKept(w: World, e: Event, d: Text)
    requires Protected(w, d)
    ensures Protected(Apply(w, e), d)
  {
    StepKeepsInv(w, e);
    StepKeepsSeal(w, e, d);
    forall r ensures !ActiveConsumer(Apply(w, e).runs, r, d) {
      if ActiveConsumer(Apply(w, e).runs, r, d) {
        StepAddsNoConsumer(w, e, r, d);
      }
    }
  }

  lemma ProtectedForever(w: World, d: Text, later: seq<Event>)
    requires Protected(w, d)
    ensures Protected(After(Apply, w, later), d)
  {
    forall v, e | Protected(v, d) ensures Protected(Apply(v, e), d) { ProtectionIsKept(v, e, d); }
    KeptForever(Apply, (v: World) => Protected(v, d), w, later);
  }

  /** A stop call is accepted: a client may call, the deployment is active and has no consumer. */
  ghost predicate StopAccepted(w: World, d: Text) {
    w.stage.Serving? && d in w.services && !S.Ended(w.services[d]) && d !in Busy(w.runs)
  }

  ghost function StopCalled(w: World, d: Text): World { Apply(w, ServiceStep(S.On(d, S.StopBegin))) }

  /** The coroutine is about to attest a live process; `stop` interrupts the process but does not
      cancel the coroutine. */
  predicate Overtakable(x: S.Service) { S.At(x, S.Waiting) && x.process == Some(true) }

  /** Busy are the deployments that some nonterminal run refers to in a stage. */
  lemma BusyExactly(w: World, d: Text)
    ensures d in Busy(w.runs) <==>
      exists r, i: nat :: Refers(w, r, i, d)
  {
    if d in Busy(w.runs) {
      var r :| r in w.runs.runs && !w.runs.runs[r].state.Ended? && d in Deployments(w.runs.runs[r].task);
      var stage :| stage in w.runs.runs[r].task.stages && stage.deployment == Some(d);
      var i: nat :| i < |w.runs.runs[r].task.stages| && w.runs.runs[r].task.stages[i] == stage;
      assert Refers(w, r, i, d);
    }
    if r, i: nat :| Refers(w, r, i, d) {
      var stage := w.runs.runs[r].task.stages[i];
      assert stage in w.runs.runs[r].task.stages && stage.deployment.Some?;
      assert d in Deployments(w.runs.runs[r].task);
    }
  }

  predicate Refers(w: World, r: Text, i: nat, d: Text) {
    && r in w.runs.runs && !w.runs.runs[r].state.Ended? && i < |w.runs.runs[r].task.stages|
    && w.runs.runs[r].task.stages[i].deployment == Some(d)
  }

  lemma NotBusy(w: World, r: Text, d: Text)
    ensures ActiveConsumer(w.runs, r, d) ==> d in Busy(w.runs)
  {
  }

  /** Consumer protection: after an accepted stop that nothing can overtake, no nonterminal run
      references the deployment, and none ever will. */
  lemma StopProtects(w: World, d: Text, later: seq<Event>)
    requires Inv(w) && StopAccepted(w, d) && !Overtakable(w.services[d])
    ensures Protected(After(Apply, StopCalled(w, d), later), d)
  {
    StepKeepsInv(w, ServiceStep(S.On(d, S.StopBegin)));
    forall r ensures !ActiveConsumer(w.runs, r, d) { NotBusy(w, r, d); }
    assert Sealed(S.RequestStop(w.services[d], false));
    ProtectedForever(StopCalled(w, d), d, later);
  }

  lemma LeavingReadySeals(x: S.Service, a: S.Action, busy: bool)
    requires SoundService(x) && x.deployment.phase.Ready? && (a.StopBegin? || a.IdleTick?)
    requires S.Step(x, a, busy).deployment.phase.Stopping?
    ensures !busy && Sealed(S.Step(x, a, busy))
  {
  }

  /** A stop or idle expiry that takes a deployment out of `ready` is always of that kind: it finds no
      nonterminal run on the deployment, and none ever will be. */
  lemma LeavingReadyProtects(w: World, d: Text, a: S.Action, later: seq<Event>)
    requires Inv(w) && w.stage.Serving? && d in w.services && w.services[d].deployment.phase.Ready?
    requires a.StopBegin? || a.IdleTick?
    requires S.Step(w.services[d], a, d in Busy(w.runs)).deployment.phase.Stopping?
    ensures Protected(After(Apply, Apply(w, ServiceStep(S.On(d, a))), later), d)
  {
    LeavingReadySeals(w.services[d], a, d in Busy(w.runs));
    ServiceMove(w, d, a);
    StepKeepsInv(w, ServiceStep(S.On(d, a)));
    forall r ensures !ActiveConsumer(w.runs, r, d) { NotBusy(w, r, d); }
    ProtectedForever(Apply(w, ServiceStep(S.On(d, a))), d, later);
  }

  lemma ServiceMove(w: World, d: Text, a: S.Action)
    requires w.stage.Serving? && d in w.services && !a.Recover?
    ensures Apply(w, ServiceStep(S.On(d, a)))
         == w.(services := w.services[d := S.Step(w.services[d], a, d in Busy(w.runs))])
  {
  }

  lemma OvertakenSteps(x: S.Service, busy: bool)
    requires SoundService(x) && !S.Ended(x) && Overtakable(x)
    ensures
      var ready := S.Step(S.Step(x, S.StopBegin, false), S.BecomeReady, false);
      var served := S.Step(S.Step(ready, S.ProcessExits, busy), S.ServeEnds, busy);
      && ready.deployment.phase.Ready?
      && S.Step(served, S.Finalize, busy).deployment.phase.Stopped?
  {
  }

  /** Otherwise the stop can be overtaken: readiness overwrites `stopping`, a run is accepted, and
      the deployment then stops under its active consumer. */
  lemma StopIsOvertaken(w: World, d: Text, runId: Text, task: Task) returns (later: World)
    requires Inv(w) && StopAccepted(w, d) && Overtakable(w.services[d])
    requires runId !in w.runs.runs && ValidTask(task) && Deployments(task) == {d}
    ensures later == After(Apply, StopCalled(w, d), [
      ServiceStep(S.On(d, S.BecomeReady)), Submit(runId, task),
      ServiceStep(S.On(d, S.ProcessExits)), ServiceStep(S.On(d, S.ServeEnds)), ServiceStep(S.On(d, S.Finalize))])
    ensures ActiveConsumer(later.runs, runId, d)
    ensures d in later.services && later.services[d].deployment.phase.Stopped?
  {
    ServiceMove(w, d, S.StopBegin);
    var stopping := StopCalled(w, d);
    ServiceMove(stopping, d, S.BecomeReady);
    var ready := Apply(stopping, ServiceStep(S.On(d, S.BecomeReady)));
    OvertakenSteps(w.services[d], true);
    var accepted := AcceptedRun(ready, runId, task, d);
    var exited := Apply(accepted, ServiceStep(S.On(d, S.ProcessExits)));
    ServiceMove(accepted, d, S.ProcessExits);
    var served := Apply(exited, ServiceStep(S.On(d, S.ServeEnds)));
    ServiceMove(exited, d, S.ServeEnds);
    later := Apply(served, ServiceStep(S.On(d, S.Finalize)));
    ServiceMove(served, d, S.Finalize);
    FiveSteps(stopping, ServiceStep(S.On(d, S.BecomeReady)), Submit(runId, task),
      ServiceStep(S.On(d, S.ProcessExits)), ServiceStep(S.On(d, S.ServeEnds)), ServiceStep(S.On(d, S.Finalize)));
  }

  /** So a stop protects against every later run exactly when it cannot be overtaken. */
  lemma StopProtectsExactly(w: World, d: Text, runId: Text, task: Task)
    requires Inv(w) && StopAccepted(w, d)
    requires runId !in w.runs.runs && ValidTask(task) && Deployments(task) == {d}
    ensures (forall later: seq<Event>, r ::
      !ActiveConsumer(After(Apply, StopCalled(w, d), later).runs, r, d)) <==> !Overtakable(w.services[d])
  {
    if Overtakable(w.services[d]) {
      var later := StopIsOvertaken(w, d, runId, task);
    } else {
      forall later: seq<Event>, r ensures !ActiveConsumer(After(Apply, StopCalled(w, d), later).runs, r, d) {
        StopProtects(w, d, later);
      }
    }
  }

  lemma AcceptedRun(w: World, runId: Text, task: Task, d: Text) returns (after: World)
    requires w.stage.Serving? && runId !in w.runs.runs && ValidTask(task) && Deployments(task) == {d}
    requires d in w.services && w.services[d].deployment.phase.Ready?
    ensures after == Apply(w, Submit(runId, task))
    ensures after.services == w.services && after.stage.Serving?
    ensures ActiveConsumer(after.runs, runId, d) && d in Busy(after.runs)
  {
    after := Apply(w, Submit(runId, task));
    NotBusy(after, runId, d);
  }

  lemma FiveSteps(w: World, a: Event, b: Event, c: Event, d: Event, e: Event)
    ensures After(Apply, w, [a, b, c, d, e]) == Apply(Apply(Apply(Apply(Apply(w, a), b), c), d), e)
  {
    AfterOneMore(Apply, w, [], a);
    AfterOneMore(Apply, w, [a], b);
    AfterOneMore(Apply, w, [a, b], c);
    AfterOneMore(Apply, w, [a, b, c], d);
    AfterOneMore(Apply, w, [a, b, c, d], e);
    assert [] + [a] == [a] && [a] + [b] == [a, b] && [a, b] + [c] == [a, b, c];
    assert [a, b, c] + [d] == [a, b, c, d] && [a, b, c, d] + [e] == [a, b, c, d, e];
  }

  // ---------------------------------------------------------------- abandoned deployments

  /** Nonterminal, with a coroutine that is done. */
  predicate Forsaken(x: S.Service) { !S.Ended(x) && x.task.Some? && x.task.value.pc.Aborted? }

  /** A live coroutine forsakes its deployment exactly when its pipe cannot be opened, or a cancellation
      reaches it before its first step or in its finally block. Until an accepted stop is completed its
      service id stays taken. */
  lemma ForsakenExactly(x: S.Service, a: S.Action, busy: bool)
    requires SoundService(x) && x.task.Some? && !x.task.value.pc.Aborted?
    ensures
      var y := S.Step(x, a, busy);
      && (Forsaken(y) <==>
        ((a == S.Begin(true) && S.At(x, S.NotStarted))
         || (a.Deliver? && x.task.value.cancelled && (x.task.value.pc.NotStarted? || x.task.value.pc.Closing?))))
      && (Forsaken(y) ==> S.Step(S.Step(y, S.StopBegin, false), S.StopEnd, false).deployment.phase.Stopped?)
  {
    if Forsaken(S.Step(x, a, busy)) { ForsakenCanBeStopped(S.Step(x, a, busy)); }
  }

  lemma ForsakenCanBeStopped(x: S.Service)
    requires Forsaken(x)
    ensures S.Step(S.Step(x, S.StopBegin, false), S.StopEnd, false).deployment.phase.Stopped?
  {
  }

  /** A deployment whose pipe fails as it begins: no other deployment of its service can be started. */
  lemma FailingPipeForsakes(id: Text, other: Text, serviceId: Text, graceS: Option<nat>)
    ensures
      var started := S.Apply(map[], S.Start(id, serviceId, graceS), {});
      var begun := S.Apply(started, S.On(id, S.Begin(true)), {});
      && id in begun && Forsaken(begun[id])
      && S.Apply(begun, S.Start(other, serviceId, graceS), {}) == begun
  {
    var started := S.Apply(map[], S.Start(id, serviceId, graceS), {});
    assert S.Active(map[], serviceId) == {};
    assert started == map[id := S.Fresh(serviceId, graceS)];
    var begun := S.Apply(started, S.On(id, S.Begin(true)), {});
    assert id in S.Active(begun, serviceId);
  }

  // ---------------------------------------------------------------- abandoned runs pin their service

  /** The run is nonterminal with no coroutine left to end it, and references the deployment. */
  ghost predicate Pins(w: World, r: Text, d: Text) {
    && r in w.runs.runs && RunTheorems.SoundRun(w.runs.runs[r]) && RunTheorems.Abandoned(w.runs.runs[r])
    && d in Deployments(w.runs.runs[r].task) && w.stage.Serving?
  }

  lemma BusyServiceIsKept(x: S.Service, a: S.Action)
    requires a.StopBegin? || a.IdleTick?
    ensures S.Step(x, a, true).deployment == x.deployment
  {
  }

  /** Until the daemon crashes, an abandoned run keeps every deployment it references busy, and a busy
      deployment is changed neither by a stop nor by its idle watcher. */
  lemma AbandonedRunPinsService(w: World, r: Text, d: Text, e: Event, a: S.Action)
    requires Pins(w, r, d) && !e.Crash? && (a.StopBegin? || a.IdleTick?)
    ensures Pins(Apply(w, e), r, d) && d in Busy(w.runs)
    ensures d in w.services ==>
      Apply(w, ServiceStep(S.On(d, a))).services[d].deployment == w.services[d].deployment
  {
    NotBusy(w, r, d);
    if d in w.services { BusyServiceIsKept(w.services[d], a); }
    if e.RunStep? && e.run.On? && e.run.id == r {
      RunTheorems.AbandonedStays(w.runs.runs[r], e.run.action, w.runs.free);
      RunTheorems.StepIsSound(w.runs.runs[r], e.run.action, w.runs.free);
      RunKeepsTask(w.runs.runs[r], e.run.action, w.runs.free);
    }
  }
}
