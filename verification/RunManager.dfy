/** `RunManager` of runner.py with its own fields: each method is a stretch of code between two
    awaits and performs the matching step of `Runs.Apply`. */
module RunManagement {
  import opened Wrappers
  import opened Texts
  import opened Contracts
  import opened Results
  import opened Runs
  import opened Labels

  /** state.json and result.json of a run, with the stages it executed and its persisted broker job. */
  datatype Record = Record(
    task: Task, state: Lifecycle, result: Option<RunResult>, trail: seq<Done>, brokerJob: Option<Text>)

  /** The run made of its files and its entries in `_tasks`, `_stop_reasons` and `_processes`. */
  function Assembled(r: Record, co: Option<Coroutine>, stop: Option<Outcome>, process: Option<bool>): Run {
    Run(r.task, r.state, r.brokerJob, r.result, r.trail, co, stop, process)
  }

  function View(
    runs: map<Text, Record>, tasks: map<Text, Coroutine>, stops: map<Text, Outcome>, processes: map<Text, bool>)
    : map<Text, Run>
  {
    map id | id in runs :: Assembled(runs[id], Lookup(tasks, id), Lookup(stops, id), Lookup(processes, id))
  }

  /** Changes at one id are seen at that id alone. */
  lemma ViewOfUpdate(
    runs: map<Text, Record>, tasks: map<Text, Coroutine>, stops: map<Text, Outcome>, processes: map<Text, bool>,
    r: Record, tasks': map<Text, Coroutine>, stops': map<Text, Outcome>, processes': map<Text, bool>, id: Text)
    requires SameElsewhere(tasks, tasks', id) && SameElsewhere(stops, stops', id)
    requires SameElsewhere(processes, processes', id)
    ensures View(runs[id := r], tasks', stops', processes') == View(runs, tasks, stops, processes)[
      id := Assembled(r, Lookup(tasks', id), Lookup(stops', id), Lookup(processes', id))]
  {
  }

  lemma StageDoneApplies(
    s: System, id: Text, result: Option<StageResult>, exitCode: int, frontierFails: bool, pipeFails: bool)
    requires id in s.runs && StageOver(s.runs[id])
    requires result.Some? ==> ValidStage(result.value, s.runs[id].task)
    ensures
      var x := s.runs[id];
      var y := x.(state := StageFinished, process := None);
      Apply(s, On(id, StageDone(result, exitCode, frontierFails, pipeFails))) ==
        s.(runs := s.runs[id := AfterStage(y, x.co.value, result, exitCode, frontierFails, pipeFails)],
           free := Release(s.free, x.co.value.pc))
  {
  }

  class RunManager {
    const capacity: nat
    var free: nat
    var runs: map<Text, Record>
    var tasks: map<Text, Coroutine>
    var stops: map<Text, Outcome>
    var processes: map<Text, bool>

    ghost function Snap(): System
      reads this
    {
      System(capacity, free, View(runs, tasks, stops, processes))
    }

    ghost function RunOf(id: Text): Run
      requires id in runs
      reads this
    {
      Assembled(runs[id], Lookup(tasks, id), Lookup(stops, id), Lookup(processes, id))
    }

    /** Since the old state only the run `id` changed, to `x`, and `permits` are free. */
    twostate predicate Becomes(id: Text, x: Run, permits: nat)
      reads this
    {
      Snap() == old(Snap()).(runs := old(Snap()).runs[id := x], free := permits)
    }

    /** The coroutine of `id` runs from its await with no cancellation pending. */
    ghost predicate Resumes(id: Text)
      reads this
    {
      id in runs && id in tasks && !tasks[id].cancelled
    }

    predicate Alive(id: Text)
      reads this
    {
      id in processes && processes[id]
    }

    constructor (localCapacity: nat)
      requires localCapacity >= 1
      ensures Snap() == Initial(localCapacity)
    {
      capacity, free := localCapacity, localCapacity;
      runs, tasks, stops, processes := map[], map[], map[], map[];
    }

    ghost predicate Unused(id: Text)
      reads this
    {
      id !in runs && id !in tasks && id !in stops && id !in processes
    }

    /** `submit`: refused for a blank label, a client that cannot scope GPUs, or a candidate that cannot be
        snapshotted; else the run directory and its task are created without an await in between. */
    method SubmitRun(id: Text, c: Candidate, given: Text, task: Task) returns (accepted: bool)
      requires Unused(id) && ValidTask(task)
      modifies this
      ensures accepted <==> !SubmissionRefused(given, c, task)
      ensures Snap() == if accepted then Apply(old(Snap()), Submit(id, task)) else old(Snap())
      ensures runs == if accepted then old(runs)[id := Record(task, Accepted, None, [], None)] else old(runs)
      ensures tasks == if accepted then old(tasks)[id := Coroutine(NotStarted, [], false)] else old(tasks)
      ensures stops == old(stops) && processes == old(processes)
    {
      if Strip(Chosen(given, c.name, task.taskId)) == [] {
        return false;
      }
      if Scoped(task) && !c.clientScopes {
        return false;
      }
      if !c.snapshots {
        return false;
      }
      ViewOfUpdate(runs, tasks, stops, processes, Record(task, Accepted, None, [], None),
        tasks[id := Coroutine(NotStarted, [], false)], stops, processes, id);
      runs := runs[id := Record(task, Accepted, None, [], None)];
      tasks := tasks[id := Coroutine(NotStarted, [], false)];
      return true;
    }

    /** Write state.json and suspend the coroutine. */
    method Suspend(id: Text, r: Record, co: Coroutine)
      requires id in runs
      modifies this`runs, this`tasks
      ensures runs == old(runs)[id := r] && tasks == old(tasks)[id := co]
      ensures Becomes(id, Assembled(r, Some(co), old(RunOf(id)).stop, old(RunOf(id)).process), old(free))
    {
      ViewOfUpdate(runs, tasks, stops, processes, r, tasks[id := co], stops, processes, id);
      runs := runs[id := r];
      tasks := tasks[id := co];
    }

    method SetProcess(id: Text, alive: bool)
      requires id in runs
      modifies this`processes
      ensures processes == old(processes)[id := alive]
      ensures Becomes(id, old(RunOf(id)).(process := Some(alive)), old(free))
    {
      ViewOfUpdate(runs, tasks, stops, processes, runs[id], tasks, stops, processes[id := alive], id);
      assert runs[id := runs[id]] == runs;
      processes := processes[id := alive];
    }

    method PopProcess(id: Text)
      requires id in runs
      modifies this`processes
      ensures processes == old(processes) - {id}
      ensures Becomes(id, old(RunOf(id)).(process := None), old(free))
    {
      ViewOfUpdate(runs, tasks, stops, processes, runs[id], tasks, stops, processes - {id}, id);
      assert runs[id := runs[id]] == runs;
      processes := processes - {id};
    }

    /** The finally block of `_run`. */
    method Leave(id: Text, r: Record)
      requires id in runs
      modifies this`runs, this`tasks, this`stops, this`processes
      ensures Becomes(id, Assembled(r, None, None, None), old(free))
    {
      ViewOfUpdate(runs, tasks, stops, processes, r, tasks - {id}, stops - {id}, processes - {id}, id);
      runs := runs[id := r];
      processes := processes - {id};
      tasks := tasks - {id};
      stops := stops - {id};
    }

    method ReleaseSlot(pc: Pc)
      modifies this`free
      ensures free == Release(old(free), pc)
    {
      if HoldsSlot(pc) {
        free := free + 1;
      }
    }

    /** Save the result, then the terminal state, then run the finally block. */
    method WriteEnding(id: Text, trail: seq<Done>, result: RunResult)
      requires id in runs
      modifies this`runs, this`tasks, this`stops, this`processes
      ensures Becomes(id, Finish(old(RunOf(id)), trail, result), old(free))
    {
      Leave(id, runs[id].(result := Some(result), trail := trail, state := Ended(result.outcome)));
    }

    /** The exception handlers: aggregate what there is, but overrule the outcome. */
    method EndOverruled(id: Text, trail: seq<Done>, reason: Ending, outcome: Outcome)
      requires id in runs
      modifies this`runs, this`tasks, this`stops, this`processes
      ensures Becomes(
        id, Finish(old(RunOf(id)), trail, Overruled(old(runs)[id].task, trail, reason, outcome)), old(free))
    {
      var result := AggregateRunResult(runs[id].task, ResultsOf(trail), Some(reason));
      WriteEnding(id, trail, result.(outcome := outcome, eligible := false));
    }

    /** From the top of the stage loop to its first await. */
    method EnterStage(id: Text, co: Coroutine, pipeFails: bool)
      requires id in runs && |co.trail| < |runs[id].task.stages|
      modifies this`runs, this`tasks, this`stops, this`processes
      ensures Becomes(id, BeginStage(old(RunOf(id)), co, pipeFails), old(free))
    {
      var r := runs[id].(brokerJob := None);
      if !r.task.stages[|co.trail|].execution.Broker? {
        Suspend(id, r.(state := WaitingLocal), co.(pc := AwaitingSlot));
      } else if pipeFails {
        runs := runs[id := r];
        EndOverruled(id, co.trail, Raised, InfraError);
      } else {
        Suspend(id, r.(state := Submitting), co.(pc := Spawning(false)));
      }
    }

    method StartRun(id: Text, pipeFails: bool)
      requires Resumes(id) && tasks[id].pc.NotStarted? && |tasks[id].trail| < |runs[id].task.stages|
      modifies this
      ensures Snap() == Apply(old(Snap()), On(id, Start(pipeFails)))
    {
      EnterStage(id, tasks[id], pipeFails);
    }

    /** The permit is taken before the pipe is opened, and a failing pipe does not give it back. */
    method SlotAcquired(id: Text, pipeFails: bool)
      requires Resumes(id) && tasks[id].pc.AwaitingSlot? && free > 0
      modifies this
      ensures Snap() == Apply(old(Snap()), On(id, AcquireSlot(pipeFails)))
    {
      free := free - 1;
      if pipeFails {
        EndOverruled(id, tasks[id].trail, Raised, InfraError);
      } else {
        Suspend(id, runs[id].(state := Running), tasks[id].(pc := Spawning(true)));
      }
    }

    method ProcessSpawned(id: Text)
      requires Resumes(id) && tasks[id].pc.Spawning?
      modifies this
      ensures Snap() == Apply(old(Snap()), On(id, Spawned))
    {
      SetProcess(id, true);
      Suspend(id, runs[id], tasks[id].(pc := Executing(tasks[id].pc.slot)));
    }

    method SpawnRaised(id: Text)
      requires Resumes(id) && tasks[id].pc.Spawning?
      modifies this
      ensures Snap() == Apply(old(Snap()), On(id, SpawnFailed))
    {
      ReleaseSlot(tasks[id].pc);
      EndOverruled(id, tasks[id].trail, Raised, InfraError);
    }

    method ProcessExited(id: Text)
      requires id in runs && id in tasks && Alive(id)
      modifies this
      ensures Snap() == Apply(old(Snap()), On(id, ProcessExits))
    {
      SetProcess(id, false);
    }

    /** The process of the stage exited: the slot is given back, and the loop of `_run` goes on. */
    method StageFinishes(id: Text, result: Option<StageResult>, exitCode: int, frontierFails: bool, pipeFails: bool)
      requires Resumes(id) && tasks[id].pc.Executing? && |tasks[id].trail| < |runs[id].task.stages| && !Alive(id)
      requires result.Some? ==> ValidStage(result.value, runs[id].task)
      modifies this
      ensures Snap() == Apply(old(Snap()), On(id, StageDone(result, exitCode, frontierFails, pipeFails)))
    {
      var co := tasks[id];
      StageDoneApplies(Snap(), id, result, exitCode, frontierFails, pipeFails);
      CloseStage(id, co);
      LeaveStage(id, co, result, exitCode, frontierFails, pipeFails);
    }

    /** The end of `_run_stage`. */
    method CloseStage(id: Text, co: Coroutine)
      requires id in runs && id in tasks && tasks[id] == co
      modifies this`runs, this`tasks, this`processes, this`free
      ensures Becomes(id, old(RunOf(id)).(state := StageFinished, process := None), Release(old(free), co.pc))
      ensures id in runs && runs[id].task == old(runs)[id].task
      ensures RunOf(id) == old(RunOf(id)).(state := StageFinished, process := None)
    {
      ReleaseSlot(co.pc);
      PopProcess(id);
      assert tasks[id := co] == tasks;
      Suspend(id, runs[id].(state := StageFinished), co);
    }

    /** The rest of the loop body of `_run` after a stage. */
    method LeaveStage(
      id: Text, co: Coroutine, result: Option<StageResult>, exitCode: int, frontierFails: bool, pipeFails: bool)
      requires id in runs && |co.trail| < |runs[id].task.stages|
      modifies this`runs, this`tasks, this`stops, this`processes
      ensures Becomes(id, AfterStage(old(RunOf(id)), co, result, exitCode, frontierFails, pipeFails), old(free))
    {
      var task := runs[id].task;
      var trail := Extended(co.trail, result, exitCode);
      var exit := LoopExit(task, trail, result, exitCode);
      if exit.None? {
        EnterStage(id, co.(trail := trail), pipeFails);
      } else if frontierFails {
        EndOverruled(id, trail, Raised, InfraError);
      } else {
        var final := AggregateRunResult(task, ResultsOf(trail), exit.value);
        WriteEnding(id, trail, final);
      }
    }

    /** A line of broker output seen by the stderr pump of a broker stage. */
    method BrokerSpoke(id: Text, started: bool, job: Option<Text>)
      requires id in runs && id in tasks && tasks[id].pc == Executing(false)
      modifies this
      ensures Snap() == Apply(old(Snap()), On(id, BrokerReport(started, job)))
    {
      var state := if started then Running else Queued;
      Suspend(id, runs[id].(state := state, brokerJob := if job.Some? then job else runs[id].brokerJob), tasks[id]);
    }

    method StageFails(id: Text)
      requires Resumes(id) && tasks[id].pc.Executing? && !Alive(id)
      modifies this
      ensures Snap() == Apply(old(Snap()), On(id, StageRaised))
    {
      ReleaseSlot(tasks[id].pc);
      EndOverruled(id, tasks[id].trail, Raised, InfraError);
    }

    method CancelRun(id: Text) returns (accepted: bool)
      requires id in runs
      modifies this
      ensures Snap() == Apply(old(Snap()), On(id, Cancel))
      ensures accepted == (!old(runs[id].state.Ended?) && id in old(tasks))
    {
      if runs[id].state.Ended? || id !in tasks {
        assert Snap().runs[id := Snap().runs[id]] == Snap().runs;
        return false;
      }
      MarkCancelled(id);
      return true;
    }

    method MarkCancelled(id: Text)
      requires id in runs && id in tasks
      modifies this`tasks, this`stops
      ensures Becomes(id, old(RunOf(id)).(
        stop := Some(Cancelled), co := Some(old(tasks[id]).(cancelled := !old(tasks[id]).pc.Aborted?))), old(free))
    {
      var co := tasks[id].(cancelled := !tasks[id].pc.Aborted?);
      ViewOfUpdate(runs, tasks, stops, processes, runs[id], tasks[id := co], stops[id := Cancelled], processes, id);
      assert runs[id := runs[id]] == runs;
      stops := stops[id := Cancelled];
      tasks := tasks[id := co];
    }

    /** `close`: cancel every coroutine that is not done, in whatever order. */
    method CloseAll()
      modifies this
      ensures Snap() == Apply(old(Snap()), Close)
    {
      tasks, stops := CancelEach(tasks, stops);
    }

    /** A pending cancellation reaches the coroutine at its await. */
    method Cancelling(id: Text)
      requires id in runs && id in tasks && tasks[id].cancelled && !tasks[id].pc.Aborted?
      modifies this
      ensures Snap() == Apply(old(Snap()), On(id, Deliver))
    {
      var co := tasks[id].(cancelled := false);
      match co.pc {
        case NotStarted => Suspend(id, runs[id], co.(pc := Aborted));
        case Executing(slot) => Suspend(id, runs[id], co.(pc := Draining(slot)));
        case Interrupting => Leave(id, runs[id]);
        case AwaitingSlot => HandleCancellation(id, co);
        case Spawning(_) =>
          ReleaseSlot(co.pc);
          HandleCancellation(id, co);
        case Draining(_) =>
          ReleaseSlot(co.pc);
          HandleCancellation(id, co);
        case Aborted =>
      }
    }

    /** The cancellation handler up to its first await, if it has one: it waits only for a live process. */
    method HandleCancellation(id: Text, co: Coroutine)
      requires id in runs
      modifies this`runs, this`tasks, this`stops, this`processes
      ensures Becomes(id, Handle(old(RunOf(id)), co), old(free))
    {
      if Alive(id) {
        Suspend(id, runs[id], co.(pc := Interrupting));
      } else {
        FinishCancelled(id, co.trail);
      }
    }

    method FinishCancelled(id: Text, trail: seq<Done>)
      requires id in runs
      modifies this`runs, this`tasks, this`stops, this`processes
      ensures Becomes(id, Finish(old(RunOf(id)), trail, Overruled(
        old(runs)[id].task, trail, Stopped, if id in old(stops) then old(stops)[id] else Interrupted)), old(free))
    {
      EndOverruled(id, trail, Stopped, if id in stops then stops[id] else Interrupted);
    }

    method PumpsDrained(id: Text)
      requires Resumes(id) && tasks[id].pc.Draining?
      modifies this
      ensures Snap() == Apply(old(Snap()), On(id, Drained))
    {
      ReleaseSlot(tasks[id].pc);
      HandleCancellation(id, tasks[id]);
    }

    /** The rest of the cancellation handler once the process is gone. */
    method ProcessInterrupted(id: Text)
      requires Resumes(id) && tasks[id].pc.Interrupting? && !Alive(id)
      modifies this
      ensures Snap() == Apply(old(Snap()), On(id, Stop))
    {
      FinishCancelled(id, tasks[id].trail);
    }

    /** `recover_interrupted`, before any coroutine exists. `answer` is what the broker says when asked
        to cancel a job: whether it did, or None for an exception. Either some job cannot be reconciled
        and no run changes, or all are reconciled and every nonterminal run becomes interrupted. */
    method RecoverInterrupted(answer: Text -> Option<bool>) returns (r: Result<nat, Text>)
      requires tasks == map[]
      modifies this`runs
      ensures r.Ok? <==> Reconciled(old(Snap()).runs, Answered(old(runs), answer))
      ensures Snap() == Apply(old(Snap()), Recover(Answered(old(runs), answer)))
      ensures r.Err? ==> runs == old(runs) && answer(r.error).None?
      ensures r.Ok? ==> r.value == |ActiveRuns(old(runs))| && ActiveRuns(runs) == {}
    {
      var todo := ActiveRuns(runs);
      while todo != {}
        invariant todo <= ActiveRuns(runs)
        invariant forall id :: id in ActiveRuns(runs) - todo && runs[id].brokerJob.Some? ==>
          answer(runs[id].brokerJob.value).Some?
        decreases todo
      {
        var id :| id in todo;
        todo := todo - {id};
        if runs[id].brokerJob.Some? && answer(runs[id].brokerJob.value).None? {
          NotReconciled(runs, tasks, stops, processes, answer, id);
          return Err(runs[id].brokerJob.value);
        }
      }
      AllReconciled(runs, tasks, stops, processes, answer);
      var changed := InterruptActive();
      return Ok(changed);
    }

    /** The store's half of recovery. */
    method InterruptActive() returns (changed: nat)
      requires tasks == map[]
      modifies this`runs
      ensures changed == |ActiveRuns(old(runs))| && ActiveRuns(runs) == {}
      ensures Snap() == old(Snap()).(runs := map id | id in old(Snap()).runs :: Interrupt(old(Snap()).runs[id]))
    {
      ghost var before := runs;
      runs, changed := InterruptEach(runs);
      SweptIsInterrupted(before, runs, tasks, stops, processes);
    }
  }

  /** The persisted jobs of nonterminal runs that the broker could be asked to cancel. */
  function Answered(runs: map<Text, Record>, answer: Text -> Option<bool>): set<Text> {
    set id | id in runs && runs[id].brokerJob.Some? && answer(runs[id].brokerJob.value).Some? ::
      runs[id].brokerJob.value
  }

  lemma NotReconciled(
    runs: map<Text, Record>, tasks: map<Text, Coroutine>, stops: map<Text, Outcome>, processes: map<Text, bool>,
    answer: Text -> Option<bool>, id: Text)
    requires id in ActiveRuns(runs) && runs[id].brokerJob.Some? && answer(runs[id].brokerJob.value).None?
    ensures !Reconciled(View(runs, tasks, stops, processes), Answered(runs, answer))
  {
    var view := View(runs, tasks, stops, processes);
    assert !view[id].state.Ended? && view[id].brokerJob.value !in Answered(runs, answer);
  }

  lemma AllReconciled(
    runs: map<Text, Record>, tasks: map<Text, Coroutine>, stops: map<Text, Outcome>, processes: map<Text, bool>,
    answer: Text -> Option<bool>)
    requires forall id :: id in ActiveRuns(runs) && runs[id].brokerJob.Some? ==>
      answer(runs[id].brokerJob.value).Some?
    ensures Reconciled(View(runs, tasks, stops, processes), Answered(runs, answer))
  {
  }

  lemma SweptIsInterrupted(
    before: map<Text, Record>, after: map<Text, Record>,
    tasks: map<Text, Coroutine>, stops: map<Text, Outcome>, processes: map<Text, bool>)
    requires tasks == map[]
    requires after.Keys == before.Keys && forall id :: id in after ==> after[id] == Swept(before[id])
    ensures
      var view := View(before, tasks, stops, processes);
      View(after, tasks, stops, processes) == map id | id in view :: Interrupt(view[id])
  {
  }

  function Swept(r: Record): Record { if r.state.Ended? then r else r.(state := Ended(Interrupted)) }

  function ActiveRuns(runs: map<Text, Record>): set<Text> {
    set id | id in runs && IsActive(runs[id])
  }

  method CancelEach(tasks: map<Text, Coroutine>, stops: map<Text, Outcome>)
    returns (marked: map<Text, Coroutine>, reasons: map<Text, Outcome>)
    ensures marked.Keys == tasks.Keys
    ensures forall id :: id in tasks ==>
      marked[id] == if tasks[id].pc.Aborted? then tasks[id] else tasks[id].(cancelled := true)
    ensures forall id ::
      Lookup(reasons, id) == (if id in tasks && !tasks[id].pc.Aborted? then Some(Interrupted) else Lookup(stops, id))
  {
    marked, reasons := tasks, stops;
    var todo := tasks.Keys;
    while todo != {}
      invariant todo <= tasks.Keys == marked.Keys
      invariant forall id :: id in tasks ==>
        marked[id] == if id in todo || tasks[id].pc.Aborted? then tasks[id] else tasks[id].(cancelled := true)
      invariant forall id ::
        Lookup(reasons, id)
        == (if id in tasks && id !in todo && !tasks[id].pc.Aborted? then Some(Interrupted) else Lookup(stops, id))
      decreases todo
    {
      var id :| id in todo;
      todo := todo - {id};
      if !tasks[id].pc.Aborted? {
        reasons := reasons[id := Interrupted];
        marked := marked[id := tasks[id].(cancelled := true)];
      }
    }
  }

  predicate IsActive(r: Record) { !r.state.Ended? }

  /** Every run not `todo` is swept. */
  ghost predicate SweptBut(runs: map<Text, Record>, before: map<Text, Record>, todo: set<Text>) {
    && todo <= runs.Keys == before.Keys
    && forall id :: id in runs ==> runs[id] == if id in todo then before[id] else Swept(before[id])
  }

  lemma SweepOne(runs: map<Text, Record>, before: map<Text, Record>, todo: set<Text>, id: Text)
    requires SweptBut(runs, before, todo) && id in todo
    ensures SweptBut(runs[id := Swept(runs[id])], before, todo - {id}) && runs[id] == before[id]
  {
  }

  lemma SweptAll(runs: map<Text, Record>, before: map<Text, Record>)
    requires SweptBut(runs, before, {})
    ensures ActiveRuns(runs) == {}
    ensures runs.Keys == before.Keys && forall id :: id in runs ==> runs[id] == Swept(before[id])
  {
  }

  function ActiveAmong(runs: map<Text, Record>, ids: set<Text>): set<Text>
    requires ids <= runs.Keys
  {
    set id | id in ids && IsActive(runs[id])
  }

  lemma CountOne(runs: map<Text, Record>, ids: set<Text>, id: Text)
    requires ids <= runs.Keys && id in ids
    ensures |ActiveAmong(runs, ids)| == |ActiveAmong(runs, ids - {id})| + if IsActive(runs[id]) then 1 else 0
  {
    if IsActive(runs[id]) {
      assert ActiveAmong(runs, ids) == ActiveAmong(runs, ids - {id}) + {id};
    } else {
      assert ActiveAmong(runs, ids) == ActiveAmong(runs, ids - {id});
    }
  }

  method InterruptEach(before: map<Text, Record>) returns (runs: map<Text, Record>, changed: nat)
    ensures changed == |ActiveRuns(before)| && ActiveRuns(runs) == {}
    ensures runs.Keys == before.Keys && forall id :: id in runs ==> runs[id] == Swept(before[id])
  {
    runs, changed := before, 0;
    var todo := before.Keys;
    assert ActiveAmong(before, todo) == ActiveRuns(before);
    while todo != {}
      invariant SweptBut(runs, before, todo)
      invariant changed + |ActiveAmong(before, todo)| == |ActiveRuns(before)|
      decreases todo
    {
      var id :| id in todo;
      SweepOne(runs, before, todo, id);
      CountOne(before, todo, id);
      todo := todo - {id};
      if IsActive(runs[id]) {
        changed := changed + 1;
      }
      runs := runs[id := Swept(runs[id])];
    }
    SweptAll(runs, before);
  }
}
