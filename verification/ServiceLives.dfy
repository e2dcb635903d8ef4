/** Whole lives of deployments: how they end, and that an accepted stop can end every one. */
module ServiceLives {
  import opened Wrappers
  import opened Texts
  import opened Services
  import opened IdleWatch
  import DaemonTheorems

  // ---------------------------------------------------------------- how a life ends

  /** A stop call that is not refused, or a poll of the idle watcher that finds the grace period over. */
  predicate Stops(x: Service, m: Moment) {
    match m.action
    case StopBegin => !Ended(x) && !m.busy
    case IdleTick(now) =>
      && !m.busy && x.deployment.phase == Ready && x.deployment.graceS.Some?
      && x.idle.Some? && x.idle.value.since.Some? && now - x.idle.value.since.value >= x.deployment.graceS.value
    case _ => false
  }

  /** At some moment of its life. */
  ghost predicate WasStopped(x: Service, life: seq<Moment>) {
    exists i :: StoppedAt(x, life, i)
  }

  predicate StoppedAt(x: Service, life: seq<Moment>, i: int) {
    0 <= i < |life| && Stops(Lived(x, life[..i]), life[i])
  }

  /** What is remembered of it. */
  predicate Remembers(x: Service, stopped: bool) {
    && (Ended(x) <==> x.task.None?)
    && (!Ended(x) ==> (x.stopReason.Some? <==> stopped) && (x.deployment.phase == Stopping ==> stopped))
    && (Ended(x) ==> x.deployment.phase == if stopped then Stopped else Failed)
    && (x.stoppers > 0 ==> stopped)
  }

  lemma MomentRemembered(x: Service, m: Moment, stopped: bool)
    requires Remembers(x, stopped)
    ensures Remembers(Step(x, m.action, m.busy), stopped || Stops(x, m))
  {
  }

  /** Whatever happens to a deployment from its start on, short of a crash: if it has ended, it is stopped if
      a stop was accepted or the idle watcher fired, and failed if neither did. */
  lemma {:induction false} EndedExactly(serviceId: Text, graceS: Option<nat>, life: seq<Moment>)
    ensures Remembers(Lived(Fresh(serviceId, graceS), life), WasStopped(Fresh(serviceId, graceS), life))
  {
    var x := Fresh(serviceId, graceS);
    if life != [] {
      var n := |life| - 1;
      EndedExactly(serviceId, graceS, life[..n]);
      MomentRemembered(Lived(x, life[..n]), life[n], WasStopped(x, life[..n]));
      StoppedOneMore(x, life);
    }
  }

  lemma StoppedOneMore(x: Service, life: seq<Moment>)
    requires life != []
    ensures
      var n := |life| - 1;
      WasStopped(x, life) <==> WasStopped(x, life[..n]) || Stops(Lived(x, life[..n]), life[n])
  {
    var n := |life| - 1;
    forall i
      ensures StoppedAt(x, life, i) <==>
        StoppedAt(x, life[..n], i) || (i == n && Stops(Lived(x, life[..n]), life[n]))
    {
      if 0 <= i < n { assert life[..n][..i] == life[..i]; }
    }
    if i :| StoppedAt(x, life[..n], i) { assert StoppedAt(x, life, i); }
    if Stops(Lived(x, life[..n]), life[n]) { assert StoppedAt(x, life, n); }
  }

  // ---------------------------------------------------------------- what the phase tells

  predicate Registered(x: Service) { x.process.Some? }

  /** The phase of a deployment with a coroutine tells where that is, unless it was told to stop. */
  predicate Tells(x: Service) {
    x.task.Some? ==>
      var phase := x.deployment.phase;
      && (phase != Stopping ==>
            match x.task.value.pc {
              case NotStarted => phase == Accepted
              case Spawning => phase == Starting
              case AwaitingChild => phase == Starting
              case Waiting => phase == Starting
              case Serving => phase == Ready
              case Interrupting => phase == Starting || phase == Ready
              case Closing => phase == Starting || phase == Ready
              case Aborted => phase == Accepted || phase == Starting || phase == Ready
            })
      && (x.task.value.pc.Waiting? || x.task.value.pc.Serving? || x.task.value.pc.Interrupting? ==> Registered(x))
      && (x.idle.Some? ==>
            && (x.task.value.pc.Serving? || x.task.value.pc.Interrupting?)
            && x.deployment.graceS.Some? && x.deployment.wasReady)
  }

  lemma MomentKeepsTelling(x: Service, m: Moment)
    requires DaemonTheorems.SoundService(x) && Tells(x) && (x.task.None? ==> Ended(x)) && (Ended(x) ==> x.task.None?)
    ensures Tells(Step(x, m.action, m.busy))
  {
  }

  /** At every moment of the life of a deployment. */
  lemma {:induction false} PhaseTells(serviceId: Text, graceS: Option<nat>, life: seq<Moment>)
    ensures Tells(Lived(Fresh(serviceId, graceS), life))
    ensures DaemonTheorems.SoundService(Lived(Fresh(serviceId, graceS), life))
  {
    if life != [] {
      var n := |life| - 1;
      var x := Lived(Fresh(serviceId, graceS), life[..n]);
      PhaseTells(serviceId, graceS, life[..n]);
      EndedExactly(serviceId, graceS, life[..n]);
      MomentKeepsTelling(x, life[n]);
      DaemonTheorems.StepKeepsServiceSound(x, life[n].action, life[n].busy);
    }
  }

  // ---------------------------------------------------------------- lives that are not disturbed

  function Actions(x: Service, actions: seq<Action>): Service
    decreases |actions|
  {
    if actions == [] then x else Actions(Step(x, actions[0], false), actions[1..])
  }

  lemma ActionsOneByOne(x: Service, a: Action, rest: seq<Action>)
    ensures Actions(x, [a] + rest) == Actions(Step(x, a, false), rest)
  {
    assert ([a] + rest)[1..] == rest;
  }

  /** From the start of a deployment to its attestation. */
  function Attested(): seq<Action> { [Begin(false)] + ([Spawned] + ([BecomeReady] + [])) }

  /** A deployment that is attested is ready, watched if it has a grace period, and its process runs. */
  lemma BecomesReady(serviceId: Text, graceS: Option<nat>)
    ensures
      Actions(Fresh(serviceId, graceS), Attested()) ==
        Service(
          Deployment(serviceId, graceS, Ready, true), Some(Coroutine(Serving, false)), Some(true), None,
          if graceS.Some? then Some(Watcher(None)) else None, 0)
  {
    var x := Fresh(serviceId, graceS);
    ActionsOneByOne(x, Begin(false), [Spawned] + ([BecomeReady] + []));
    var x1 := Step(x, Begin(false), false);
    ActionsOneByOne(x1, Spawned, [BecomeReady] + []);
    var x2 := Step(x1, Spawned, false);
    ActionsOneByOne(x2, BecomeReady, []);
  }

  /** Whose process is then gone leads, told to stop or not, to the end of the coroutine. */
  function Exiting(): seq<Action> {
    [ProcessExits] + ([ExitsUnready] + ([ServeEnds] + ([Unwound] + ([Finalize] + ([StopEnd] + [])))))
  }

  /** The steps up to the finally block. */
  function Exited(x: Service): Service {
    Step(Step(Step(Step(x, ProcessExits, false), ExitsUnready, false), ServeEnds, false), Unwound, false)
  }

  lemma ExitingIs(x: Service)
    ensures Actions(x, Exiting()) == Step(Step(Exited(x), Finalize, false), StopEnd, false)
  {
    var x1 := Step(x, ProcessExits, false);
    var x2 := Step(x1, ExitsUnready, false);
    var x3 := Step(x2, ServeEnds, false);
    var x4 := Step(x3, Unwound, false);
    ActionsOneByOne(Step(x4, Finalize, false), StopEnd, []);
    ActionsOneByOne(x4, Finalize, [StopEnd] + []);
    ActionsOneByOne(x3, Unwound, [Finalize] + ([StopEnd] + []));
    ActionsOneByOne(x2, ServeEnds, [Unwound] + ([Finalize] + ([StopEnd] + [])));
    ActionsOneByOne(x1, ExitsUnready, [ServeEnds] + ([Unwound] + ([Finalize] + ([StopEnd] + []))));
    ActionsOneByOne(x, ProcessExits, [ExitsUnready] + ([ServeEnds] + ([Unwound] + ([Finalize] + ([StopEnd] + [])))));
  }

  predicate Exitable(x: Service) {
    && x.task.Some? && !x.task.value.cancelled && !Ended(x)
    && (x.task.value.pc.Closing? || (x.process.Some? && (x.task.value.pc.Waiting? || x.task.value.pc.Serving?))
        || x.task.value.pc.Interrupting?)
  }

  /** Nothing changes but the program counter, the process and the watcher. */
  lemma ExitCloses(x: Service)
    requires Exitable(x)
    ensures Exited(x).task == Some(Coroutine(Closing, false))
    ensures Exited(x).deployment == x.deployment && Exited(x).stopReason == x.stopReason
  {
  }

  /** With no cancellation pending, the exit of the process ends a deployment that waits for it, serves, or
      is being interrupted: as stopped if it was told to stop, and failed otherwise. */
  lemma ExitEnds(x: Service)
    requires Exitable(x)
    ensures
      var y := Actions(x, Exiting());
      && y.deployment == x.deployment.(phase := if x.stopReason.Some? then Stopped else Failed)
      && y.task.None? && y.process.None? && y.stopReason.None?
  {
    ExitingIs(x);
    ExitCloses(x);
  }

  lemma DoneIgnores(x: Service, a: Action)
    requires x.task.None? || x.task.value.pc.Aborted?
    requires a == ExitsUnready || a == ServeEnds || a == Unwound || a == Finalize
    ensures Step(x, a, false) == x
  {
  }

  lemma AbortedEnds(x: Service)
    requires x.task.None? || x.task.value.pc.Aborted?
    requires x.stoppers > 0 && !Ended(x)
    ensures Actions(x, Exiting()).deployment.phase == Stopped
  {
    ExitingIs(x);
    var y := Step(x, ProcessExits, false);
    DoneIgnores(y, ExitsUnready);
    DoneIgnores(y, ServeEnds);
    DoneIgnores(y, Unwound);
    DoneIgnores(y, Finalize);
  }

  /** Every accepted stop can end its deployment as stopped: once a pending cancellation is delivered, with
      whatever child it finds, the process exits and the coroutine runs to its end. */
  lemma StopEnds(x: Service)
    requires DaemonTheorems.SoundService(x) && !Ended(x)
    ensures
      var stopping := Step(x, StopBegin, false);
      Actions(Step(stopping, Deliver(Created), false), Exiting()).deployment.phase == Stopped
  {
    var stopping := Step(x, StopBegin, false);
    var y := Step(stopping, Deliver(Created), false);
    DaemonTheorems.StepKeepsServiceSound(x, StopBegin, false);
    DaemonTheorems.StepKeepsServiceSound(stopping, Deliver(Created), false);
    if y.task.None? || y.task.value.pc.Aborted? {
      AbortedEnds(y);
    } else {
      assert Exitable(y);
      ExitEnds(y);
    }
  }

  /** A crash leaves the files, and recovery interrupts what was not terminal. */
  lemma RecoveryInterrupts(x: Service)
    ensures
      var y := Step(Reboot(x), Recover, false);
      && y.deployment == (if Ended(x) then x.deployment else x.deployment.(phase := Interrupted))
      && y.task.None? && y.process.None? && y.stopReason.None? && y.idle.None? && y.stoppers == 0
  {
  }
}
