/** `ServiceManager` of services.py with its own fields: each method is a stretch of code between two
    awaits and performs the matching step of `Services.Apply`. */
module ServiceManagement {
  import opened Wrappers
  import opened Texts
  import Contracts
  import opened Services
  import opened DeploymentRecovery
  import RunManagement

  /** What the preflight finds besides active deployments: the directories exist, the endpoint is not in
      use, the broker and the client have what managed services need. */
  datatype Preflight = Preflight(directories: bool, endpointFree: bool, brokerManaged: bool, clientManaged: bool)

  /** The deployment made of its file and the entries of the manager for it. */
  function Assembled(
    deployments: map<Text, Deployment>, tasks: map<Text, Coroutine>, processes: map<Text, bool>,
    stopReasons: map<Text, StopCause>, idleTasks: map<Text, Watcher>, stoppers: multiset<Text>, id: Text): Service
    requires id in deployments
  {
    Service(deployments[id], Lookup(tasks, id), Lookup(processes, id), Lookup(stopReasons, id),
            Lookup(idleTasks, id), stoppers[id])
  }

  function View(
    deployments: map<Text, Deployment>, tasks: map<Text, Coroutine>, processes: map<Text, bool>,
    stopReasons: map<Text, StopCause>, idleTasks: map<Text, Watcher>, stoppers: multiset<Text>): System
  {
    map id | id in deployments :: Assembled(deployments, tasks, processes, stopReasons, idleTasks, stoppers, id)
  }

  /** Changes at one id are seen at that id alone. */
  lemma ViewOfUpdate(
    deployments: map<Text, Deployment>, tasks: map<Text, Coroutine>, processes: map<Text, bool>,
    stopReasons: map<Text, StopCause>, idleTasks: map<Text, Watcher>, stoppers: multiset<Text>,
    d: Deployment, tasks': map<Text, Coroutine>, stopReasons': map<Text, StopCause>,
    idleTasks': map<Text, Watcher>, stoppers': multiset<Text>, id: Text)
    requires SameElsewhere(tasks, tasks', id) && SameElsewhere(stopReasons, stopReasons', id)
    requires SameElsewhere(idleTasks, idleTasks', id)
    requires forall other :: other != id ==> stoppers[other] == stoppers'[other]
    ensures View(deployments[id := d], tasks', processes, stopReasons', idleTasks', stoppers')
         == View(deployments, tasks, processes, stopReasons, idleTasks, stoppers)[
              id := Assembled(deployments[id := d], tasks', processes, stopReasons', idleTasks', stoppers', id)]
  {
  }

  lemma StopMarks(
    deployments: map<Text, Deployment>, tasks: map<Text, Coroutine>, processes: map<Text, bool>,
    stopReasons: map<Text, StopCause>, idleTasks: map<Text, Watcher>, stoppers: multiset<Text>, id: Text,
    marked: map<Text, Coroutine>)
    requires id in deployments && !Terminal(deployments[id].phase)
    requires marked ==
      if Lookup(processes, id) != Some(true) && id in tasks && !tasks[id].pc.Aborted? then
        tasks[id := tasks[id].(cancelled := true)]
      else tasks
    ensures
      var stopping := deployments[id].(phase := Stopping);
      Assembled(deployments[id := stopping], marked, processes, stopReasons[id := Requested], idleTasks,
                stoppers + multiset{id}, id)
      == RequestStop(Assembled(deployments, tasks, processes, stopReasons, idleTasks, stoppers, id), false)
  {
  }

  class ServiceManager {
    const runStore: RunManagement.RunManager
    var deployments: map<Text, Deployment>
    var tasks: map<Text, Coroutine>
    var processes: map<Text, bool>
    var stopReasons: map<Text, StopCause>
    var idleTasks: map<Text, Watcher>
    ghost var stoppers: multiset<Text>

    ghost function ServiceAt(id: Text): Service
      requires id in deployments
      reads this
    {
      Assembled(deployments, tasks, processes, stopReasons, idleTasks, stoppers, id)
    }

    ghost function Snap(): System
      reads this
    {
      View(deployments, tasks, processes, stopReasons, idleTasks, stoppers)
    }

    /** Since the old state only the deployment `id` changed, to `x`. */
    twostate predicate Becomes(id: Text, x: Service)
      reads this
    {
      Snap() == old(Snap())[id := x]
    }

    predicate Alive(id: Text)
      reads this
    {
      id in processes && processes[id]
    }

    ghost function Consumers(id: Text): set<Text>
      reads runStore
    {
      set r | r in runStore.runs && !runStore.runs[r].state.Ended? && id in Contracts.Deployments(runStore.runs[r].task)
    }

    ghost function BusyDeployments(): set<Text>
      reads this, runStore
    {
      set id | id in deployments && Consumers(id) != {}
    }

    /** The coroutine of `id` resumes from `pc` with no cancellation pending. */
    ghost predicate Resumes(id: Text, pc: Pc)
      reads this
    {
      id in deployments && id in tasks && tasks[id] == Coroutine(pc, false)
    }

    constructor (runStore: RunManagement.RunManager)
      ensures this.runStore == runStore && Snap() == map[]
    {
      this.runStore := runStore;
      deployments, tasks, processes, stopReasons, idleTasks := map[], map[], map[], map[], map[];
      stoppers := multiset{};
    }

    /** `active_consumers`: the nonterminal runs that reference the deployment. */
    method ActiveConsumers(id: Text) returns (consumers: set<Text>)
      ensures consumers == Consumers(id)
    {
      consumers := {};
      var todo := runStore.runs.Keys;
      while todo != {}
        invariant todo <= runStore.runs.Keys
        invariant consumers == Consumers(id) - todo
        decreases todo
      {
        var r :| r in todo;
        todo := todo - {r};
        if !runStore.runs[r].state.Ended? && id in Contracts.Deployments(runStore.runs[r].task) {
          consumers := consumers + {r};
        }
      }
    }

    method UpdateState(id: Text, phase: Phase)
      requires id in deployments
      modifies this`deployments
      ensures deployments == old(deployments)[id := old(deployments[id]).(phase := phase)]
    {
      deployments := deployments[id := deployments[id].(phase := phase)];
    }

    method Suspend(id: Text, pc: Pc)
      requires id in deployments
      modifies this`tasks
      ensures tasks == old(tasks)[id := Coroutine(pc, false)]
      ensures Becomes(id, Move(old(ServiceAt(id)), pc))
    {
      tasks := tasks[id := Coroutine(pc, false)];
    }

    method WriteState(id: Text, d: Deployment)
      requires id in deployments
      modifies this`deployments
      ensures deployments == old(deployments)[id := d] && Becomes(id, old(ServiceAt(id)).(deployment := d))
    {
      deployments := deployments[id := d];
    }

    method WatchIdle(id: Text, watcher: Watcher)
      requires id in deployments
      modifies this`idleTasks
      ensures Becomes(id, old(ServiceAt(id)).(idle := Some(watcher)))
    {
      idleTasks := idleTasks[id := watcher];
    }

    method SetProcess(id: Text, alive: bool)
      requires id in deployments
      modifies this`processes
      ensures processes == old(processes)[id := alive]
      ensures Becomes(id, old(ServiceAt(id)).(process := Some(alive)))
    {
      processes := processes[id := alive];
    }

    /** `start`: every check of the preflight and the creation, with no await in between. */
    method StartService(id: Text, serviceId: Text, graceS: Option<nat>, p: Preflight) returns (accepted: bool)
      requires id !in deployments && id !in tasks && id !in processes && id !in stopReasons && id !in idleTasks
      requires id !in stoppers
      modifies this
      ensures accepted <==> p == Preflight(true, true, true, true) && Active(old(Snap()), serviceId) == {}
      ensures accepted ==> Snap() == Apply(old(Snap()), Start(id, serviceId, graceS), BusyDeployments())
      ensures !accepted ==> Snap() == old(Snap())
    {
      if !p.directories {
        return false;
      }
      var active := ActiveDeployments(serviceId);
      if active != {} || !p.endpointFree || !p.brokerManaged || !p.clientManaged {
        return false;
      }
      deployments := deployments[id := Deployment(serviceId, graceS, Accepted, false)];
      Suspend(id, NotStarted);
      return true;
    }

    method ActiveDeployments(serviceId: Text) returns (active: set<Text>)
      ensures active == Active(Snap(), serviceId)
    {
      active := set d | d in deployments && deployments[d].serviceId == serviceId && !Terminal(deployments[d].phase);
    }

    /** The pipe is opened before the `try`: when that fails the coroutine is gone without a trace. */
    method BeginRun(id: Text, pipeFails: bool)
      requires Resumes(id, NotStarted)
      modifies this
      ensures Snap() == Apply(old(Snap()), On(id, Begin(pipeFails)), BusyDeployments())
    {
      if pipeFails {
        Suspend(id, Aborted);
        return;
      }
      UpdateState(id, Starting);
      Suspend(id, Spawning);
    }

    method ProcessSpawned(id: Text)
      requires Resumes(id, Spawning)
      modifies this
      ensures Snap() == Apply(old(Snap()), On(id, Spawned), BusyDeployments())
    {
      SetProcess(id, true);
      Suspend(id, Waiting);
    }

    /** The `ready` transition: it does not look at the state it overwrites. */
    method AttestationSucceeds(id: Text)
      requires Resumes(id, Waiting)
      modifies this
      ensures Snap() == Apply(old(Snap()), On(id, BecomeReady), BusyDeployments())
    {
      WriteState(id, deployments[id].(phase := Ready, wasReady := true));
      if deployments[id].graceS.Some? {
        WatchIdle(id, Watcher(None));
      }
      Suspend(id, Serving);
    }

    /** The spawn that a cancelled coroutine still waited for. */
    method ChildArrives(id: Text)
      requires Resumes(id, AwaitingChild)
      modifies this
      ensures Snap() == Apply(old(Snap()), On(id, Spawned), BusyDeployments())
    {
      SetProcess(id, true);
      Suspend(id, Interrupting);
    }

    method SpawnRaised(id: Text)
      requires Resumes(id, Spawning) || Resumes(id, AwaitingChild)
      modifies this
      ensures Snap() == Apply(old(Snap()), On(id, SpawnFailed), BusyDeployments())
    {
      EnterFinally(id);
    }

    method AttestationFails(id: Text)
      requires Resumes(id, Waiting)
      modifies this
      ensures Snap() == Apply(old(Snap()), On(id, ReadyFails), BusyDeployments())
    {
      InterruptProcess(id);
    }

    /** The client exited before it was attested: wait for the cancelled attestation. */
    method ClientExitsUnready(id: Text)
      requires Resumes(id, Waiting) && !Alive(id)
      modifies this
      ensures Snap() == Apply(old(Snap()), On(id, ExitsUnready), BusyDeployments())
    {
      Suspend(id, Interrupting);
    }

    /** Wait for a running process to end, or go on to the finally block. */
    method InterruptProcess(id: Text)
      requires id in deployments
      modifies this`tasks, this`idleTasks
      ensures Becomes(id, Interrupt(old(ServiceAt(id))))
    {
      if Alive(id) {
        Suspend(id, Interrupting);
      } else {
        EnterFinally(id);
      }
    }

    method ProcessExited(id: Text)
      requires id in deployments && id in processes && processes[id]
      modifies this
      ensures Snap() == Apply(old(Snap()), On(id, ProcessExits), BusyDeployments())
    {
      SetProcess(id, false);
    }

    /** A pending cancellation reaches the coroutine at its await. */
    method Cancelling(id: Text, spawn: Spawn)
      requires id in deployments && id in tasks && tasks[id].cancelled && !tasks[id].pc.Aborted?
      modifies this
      ensures Snap() == Apply(old(Snap()), On(id, Deliver(spawn)), BusyDeployments())
    {
      match tasks[id].pc {
        case NotStarted => Suspend(id, Aborted);
        case Spawning => CancelSpawn(id, spawn);
        case AwaitingChild => EnterFinally(id);
        case Waiting => InterruptProcess(id);
        case Serving => InterruptProcess(id);
        case Interrupting => EnterFinally(id);
        case Closing => Suspend(id, Aborted);
        case Aborted =>
      }
    }

    /** The shielded spawn is waited for again, unless it is over. */
    method CancelSpawn(id: Text, spawn: Spawn)
      requires id in deployments && id in tasks && tasks[id].pc.Spawning?
      modifies this`tasks, this`idleTasks, this`processes
      ensures Becomes(id, Unwind(old(ServiceAt(id)), spawn))
    {
      match spawn {
        case Created =>
          SetProcess(id, true);
          Suspend(id, Interrupting);
        case Pending => Suspend(id, AwaitingChild);
        case Refused => EnterFinally(id);
      }
    }

    /** The process is gone; the handler falls through to the finally block. */
    method HandlerDone(id: Text)
      requires Resumes(id, Interrupting) && !Alive(id)
      modifies this
      ensures Snap() == Apply(old(Snap()), On(id, Unwound), BusyDeployments())
    {
      EnterFinally(id);
    }

    method EnterFinally(id: Text)
      requires id in deployments
      modifies this`tasks, this`idleTasks
      ensures Becomes(id, EnterClosing(old(ServiceAt(id))))
    {
      idleTasks := idleTasks - {id};
      Suspend(id, Closing);
    }

    method ProcessEnded(id: Text)
      requires Resumes(id, Serving) && !Alive(id)
      modifies this
      ensures Snap() == Apply(old(Snap()), On(id, ServeEnds), BusyDeployments())
    {
      EnterFinally(id);
    }

    /** The terminal transition, and the pops that come with it. */
    method Retire(id: Text, phase: Phase)
      requires id in deployments
      modifies this`deployments, this`tasks, this`stopReasons
      ensures Becomes(id, SetPhase(old(ServiceAt(id)), phase).(task := None, stopReason := None))
    {
      UpdateState(id, phase);
      tasks := tasks - {id};
      stopReasons := stopReasons - {id};
    }

    method PopProcess(id: Text)
      requires id in deployments
      modifies this`processes
      ensures Becomes(id, old(ServiceAt(id)).(process := None))
    {
      processes := processes - {id};
    }

    /** The end of the finally block. */
    method FinishRun(id: Text)
      requires Resumes(id, Closing)
      modifies this
      ensures Snap() == Apply(old(Snap()), On(id, Finalize), BusyDeployments())
    {
      PopProcess(id);
      Retire(id, if id in stopReasons then Stopped else Failed);
    }

    /** `stop` up to its first await; refused for terminal deployments and for those with consumers. */
    method Stop(id: Text) returns (accepted: bool)
      requires id in deployments
      modifies this
      ensures Snap() == Apply(old(Snap()), On(id, StopBegin), old(BusyDeployments()))
      ensures accepted <==> !Terminal(old(deployments[id].phase)) && Consumers(id) == {}
    {
      assert Snap()[id := Snap()[id]] == Snap();
      if Terminal(deployments[id].phase) {
        return false;
      }
      var consumers := ActiveConsumers(id);
      if consumers != {} {
        return false;
      }
      MarkStopping(id);
      return true;
    }

    method MarkStopping(id: Text)
      requires id in deployments && !Terminal(deployments[id].phase)
      modifies this
      ensures Becomes(id, RequestStop(old(ServiceAt(id)), false))
    {
      var stopping := deployments[id].(phase := Stopping);
      var cancel := !Alive(id) && id in tasks && !tasks[id].pc.Aborted?;
      var marked := if cancel then tasks[id := tasks[id].(cancelled := true)] else tasks;
      ViewOfUpdate(deployments, tasks, processes, stopReasons, idleTasks, stoppers,
        stopping, marked, stopReasons[id := Requested], idleTasks, stoppers + multiset{id}, id);
      StopMarks(deployments, tasks, processes, stopReasons, idleTasks, stoppers, id, marked);
      deployments, stopReasons := deployments[id := stopping], stopReasons[id := Requested];
      stoppers := stoppers + multiset{id};
      tasks := marked;
    }

    method LeaveReady(id: Text, cause: StopCause)
      requires id in deployments
      modifies this`deployments, this`stopReasons
      ensures deployments == old(deployments)[id := old(deployments[id]).(phase := Stopping)]
      ensures Becomes(id, SetPhase(old(ServiceAt(id)), Stopping).(stopReason := Some(cause)))
    {
      stopReasons := stopReasons[id := cause];
      UpdateState(id, Stopping);
    }

    /** The rest of `stop`, once the coroutine is done. */
    method FinishStop(id: Text)
      requires id in deployments && id in stoppers && (id !in tasks || tasks[id].pc.Aborted?)
      modifies this
      ensures Snap() == Apply(old(Snap()), On(id, StopEnd), BusyDeployments())
    {
      LeaveStop(id);
      if !Terminal(deployments[id].phase) {
        Retire(id, Stopped);
      }
    }

    ghost method LeaveStop(id: Text)
      requires id in deployments && id in stoppers
      modifies this`stoppers
      ensures Becomes(id, old(ServiceAt(id)).(stoppers := old(ServiceAt(id)).stoppers - 1))
    {
      stoppers := stoppers - multiset{id};
    }

    /** One round of `_idle_watch`. */
    method IdleRound(id: Text, now: nat)
      requires id in deployments && id in idleTasks && deployments[id].graceS.Some?
      modifies this
      ensures Snap() == Apply(old(Snap()), On(id, IdleTick(now)), old(BusyDeployments()))
    {
      if !deployments[id].phase.Ready? {
        idleTasks := idleTasks - {id};
        return;
      }
      var consumers := ActiveConsumers(id);
      if consumers != {} {
        WatchIdle(id, Watcher(None));
      } else if idleTasks[id].since.None? {
        WatchIdle(id, Watcher(Some(now)));
      } else if now - idleTasks[id].since.value >= deployments[id].graceS.value {
        LeaveReady(id, IdleGrace);
        idleTasks := idleTasks - {id};
      }
    }

    /** `recover_interrupted`, before any coroutine exists, over the deployments as the store lists them.
        `answer` is None where the broker call for the deployment's persisted job raises. */
    method RecoverInterrupted(listing: seq<Text>, answer: Text -> Option<bool>) returns (r: Result<nat, Text>)
      requires tasks == map[] && IsListing(listing, deployments)
      modifies this`deployments
      ensures (deployments, r) == Recovered(old(deployments), listing, answer)
      ensures r.Ok? <==> forall id :: id in Unended(old(deployments)) ==> answer(id).Some?
      ensures r.Ok? ==> r.value == |Unended(old(deployments))| && Unended(deployments) == {}
      ensures r.Err? ==>
        (deployments == old(deployments) <==> answer(ActiveIn(listing, old(deployments))[0]).None?)
    {
      RecoveredExactly(deployments, listing, answer);
      if Recovered(deployments, listing, answer).1.Err? { FailClosedExactly(deployments, listing, answer); }
      deployments, r := MarkInterrupted(deployments, listing, answer);
    }
  }
}
