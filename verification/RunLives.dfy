/** Whole lives of runs: what the state of a run tells, how one completes, and how one is recovered. */
module RunLives {
  import opened Wrappers
  import opened Texts
  import opened Steps
  import opened Contracts
  import opened Results
  import opened ResultTheorems
  import opened Runs
  import opened RunTheorems
  import opened RunEndings

  // ---------------------------------------------------------------- what the state tells

  predicate OnHold(pc: Pc) { pc.Executing? || pc.Draining? || pc.Interrupting? }

  /** The state of a run with a coroutine tells where it is, and only a broker stage at work has a job. */
  predicate Tells(x: Run) {
    x.co.Some? ==>
      && (match x.co.value.pc {
            case NotStarted => x.state == Accepted
            case Aborted => x.state == Accepted
            case AwaitingSlot => x.state == WaitingLocal
            case Spawning(slot) => x.state == if slot then Running else Submitting
            case Executing(slot) => x.state == Running || (!slot && (x.state == Submitting || x.state == Queued))
            case Draining(slot) => x.state == Running || (!slot && (x.state == Submitting || x.state == Queued))
            case Interrupting => x.state == Running || x.state == Submitting || x.state == Queued
          })
      && (x.brokerJob.Some? ==> OnHold(x.co.value.pc) && !HoldsSlot(x.co.value.pc))
  }

  ghost predicate AllTell(s: System) { Inv(s) && forall id :: id in s.runs ==> Tells(s.runs[id]) }

  lemma MovingKeepsTelling(x: Run, a: Action, free: nat)
    requires SoundRun(x) && Tells(x) && !Ends(a)
    ensures Tells(Step(x, a, free).0)
  {
  }

  lemma StageDoneKeepsTelling(x: Run, a: Action, free: nat)
    requires SoundRun(x) && Tells(x) && a.StageDone?
    ensures Tells(Step(x, a, free).0)
  {
  }

  lemma EndingKeepsTelling(x: Run, a: Action, free: nat)
    requires SoundRun(x) && Tells(x) && Ends(a) && !a.StageDone?
    ensures Tells(Step(x, a, free).0)
  {
  }

  lemma ActionKeepsTelling(x: Run, a: Action, free: nat)
    requires SoundRun(x) && Tells(x)
    ensures Tells(Step(x, a, free).0)
  {
    if !Ends(a) {
      MovingKeepsTelling(x, a, free);
    } else if a.StageDone? {
      StageDoneKeepsTelling(x, a, free);
    } else {
      EndingKeepsTelling(x, a, free);
    }
  }

  lemma EventKeepsTelling(s: System, e: Event, id: Text)
    requires Inv(s) && id in Apply(s, e).runs && (id in s.runs ==> Tells(s.runs[id]))
    ensures Tells(Apply(s, e).runs[id])
  {
    if e.On? && e.id == id && id in s.runs {
      ActionKeepsTelling(s.runs[id], e.action, s.free);
    }
  }

  /** In every reachable state of the manager. */
  lemma StateTells(capacity: nat, events: seq<Event>)
    ensures AllTell(After(Apply, Initial(capacity), events))
  {
    forall s, e | AllTell(s) ensures AllTell(Apply(s, e)) {
      StepKeepsInv(s, e);
      forall id | id in Apply(s, e).runs ensures Tells(Apply(s, e).runs[id]) { EventKeepsTelling(s, e, id); }
    }
    KeptForever(Apply, AllTell, Initial(capacity), events);
  }

  /** What the broker reports of the job of an executing broker stage is recorded, and of nothing else; a
      report without an id keeps the job. */
  lemma ReportExactly(x: Run, started: bool, job: Option<Text>, free: nat)
    ensures
      var y := Step(x, BrokerReport(started, job), free).0;
      if x.co.Some? && x.co.value.pc.Executing? && !HoldsSlot(x.co.value.pc) then
        && (y.state == Running <==> started) && (y.state == Queued <==> !started)
        && y.brokerJob == (if job.None? then x.brokerJob else job)
        && y == x.(state := y.state, brokerJob := y.brokerJob)
      else y == x
  {
  }

  // ---------------------------------------------------------------- runs can complete

  /** A stage that passes. Where no slot is needed, none is acquired. */
  function StageLife(result: StageResult): seq<Action> {
    [AcquireSlot(false), Spawned, ProcessExits, StageDone(Some(result), 0, false, false)]
  }

  function Life(results: seq<StageResult>): seq<Action> {
    if results == [] then [] else StageLife(results[0]) + Life(results[1..])
  }

  function Passing(results: seq<StageResult>): seq<Done> {
    seq(|results|, i requires 0 <= i < |results| => Done(results[i], 0))
  }

  /** The run is at the start of the next stage. */
  ghost predicate Begun(x: Run, trail: seq<Done>) {
    && |trail| < |x.task.stages|
    && x.co == Some(Coroutine(if OnBroker(x.task, |trail|) then Spawning(false) else AwaitingSlot, trail, false))
  }

  lemma {:induction false} ActsAppended(x: Run, first: seq<Action>, next: seq<Action>, free: nat)
    ensures
      var (y, f) := Acts(x, first, free);
      Acts(x, first + next, free) == Acts(y, next, f)
    decreases |first|
  {
    if first == [] {
      assert first + next == next;
    } else {
      var (y, f) := Step(x, first[0], free);
      ActsAppended(y, first[1..], next, f);
      assert (first + next)[1..] == first[1..] + next;
    }
  }

  /** The stage runs to the point where its process has exited. */
  lemma StageRuns(x: Run, trail: seq<Done>, free: nat)
    requires SoundRun(x) && Begun(x, trail) && free > 0
    ensures
      var (x1, f1) := Step(x, AcquireSlot(false), free);
      var (x2, f2) := Step(x1, Spawned, f1);
      var (x3, f3) := Step(x2, ProcessExits, f2);
      && StageOver(x3) && x3.co.value.trail == trail && x3.task == x.task && SoundRun(x3)
      && f3 + Held(x3) == free
  {
    var (x1, f1) := Step(x, AcquireSlot(false), free);
    var (x2, f2) := Step(x1, Spawned, f1);
    StepIsSound(x, AcquireSlot(false), free);
    StepIsSound(x1, Spawned, f1);
    StepIsSound(x2, ProcessExits, f2);
  }

  lemma StagePasses(x: Run, trail: seq<Done>, result: StageResult, free: nat)
    requires SoundRun(x) && Begun(x, trail) && free > 0
    requires ValidStage(result, x.task) && result.status == Passed
    ensures
      var (y, f) := Acts(x, StageLife(result), free);
      var longer := trail + [Done(result, 0)];
      && SoundRun(y) && f == free && y.task == x.task
      && (if |longer| < |x.task.stages| then Begun(y, longer)
          else
            && Over(y, longer, Aggregation(x.task, ResultsOf(longer), None).outcome, None)
            && y.result.value.eligible == Aggregation(x.task, ResultsOf(longer), None).eligible)
  {
    var done := StageDone(Some(result), 0, false, false);
    ActsOfFour(x, AcquireSlot(false), Spawned, ProcessExits, done, free);
    StageRuns(x, trail, free);
    var (x1, f1) := Step(x, AcquireSlot(false), free);
    var (x2, f2) := Step(x1, Spawned, f1);
    var (x3, f3) := Step(x2, ProcessExits, f2);
    StageDoneExactly(x3, Some(result), 0, false, false, f3);
    StepIsSound(x3, done, f3);
    StepBalancesSlots(x3, done, f3);
  }

  lemma {:induction false} StagesPass(x: Run, trail: seq<Done>, results: seq<StageResult>, free: nat)
    requires SoundRun(x) && Begun(x, trail) && free > 0 && |trail| + |results| == |x.task.stages|
    requires forall i :: 0 <= i < |results| ==> ValidStage(results[i], x.task) && results[i].status == Passed
    ensures
      var (y, f) := Acts(x, Life(results), free);
      var all := trail + Passing(results);
      && f == free
      && Over(y, all, Aggregation(x.task, ResultsOf(all), None).outcome, None)
      && y.result.value.eligible == Aggregation(x.task, ResultsOf(all), None).eligible
    decreases |results|
  {
    var longer := trail + [Done(results[0], 0)];
    var (y, f) := Acts(x, StageLife(results[0]), free);
    StagePasses(x, trail, results[0], free);
    ActsAppended(x, StageLife(results[0]), Life(results[1..]), free);
    assert longer + Passing(results[1..]) == trail + Passing(results);
    if |results| == 1 {
      assert Passing(results[1..]) == [] && longer == trail + Passing(results);
      assert Life(results[1..]) == [];
    } else {
      StagesPass(y, longer, results[1..], free);
    }
  }

  lemma Started(task: Task, free: nat) returns (x: Run)
    requires ValidTask(task)
    ensures Step(Fresh(task), Start(false), free) == (x, free)
    ensures SoundRun(x) && Begun(x, []) && x.task == task
  {
    x := Step(Fresh(task), Start(false), free).0;
    StepIsSound(Fresh(task), Start(false), free);
  }

  /** Every run whose stages all pass completes while a slot is free, and gives it back; what its stages
      reported decides whether it enters the frontier. */
  lemma RunCompletes(task: Task, results: seq<StageResult>, free: nat)
    requires ValidTask(task) && free > 0 && |results| == |task.stages|
    requires forall i :: 0 <= i < |results| ==> ValidStage(results[i], task) && results[i].status == Passed
    ensures
      var (y, f) := Acts(Fresh(task), [Start(false)] + Life(results), free);
      && f == free && Over(y, Passing(results), Completed, None)
      && (y.result.value.eligible <==>
            results[|results| - 1].validity == Valid && FullyMeasured(task, Reported(results)))
  {
    var x1 := Started(task, free);
    assert ([Start(false)] + Life(results))[1..] == Life(results);
    StagesPass(x1, [], results, free);
    assert [] + Passing(results) == Passing(results);
    assert ResultsOf(Passing(results)) == results;
    OutcomeExactly(task, results, None);
    EligibleExactly(task, results, None);
  }

  // ---------------------------------------------------------------- recovery

  /** Every job of a nonterminal run could be asked for. */
  ghost predicate Asked(s: System, answered: set<Text>) {
    forall id, job :: id in s.runs && !s.runs[id].state.Ended? && s.runs[id].brokerJob == Some(job) ==> job in answered
  }

  lemma AskedExactly(s: System, answered: set<Text>)
    ensures Reconciled(Apply(s, Crash).runs, answered) <==> Asked(s, answered)
  {
    var runs := Apply(s, Crash).runs;
    forall id ensures id in runs <==> id in s.runs {
    }
    if Asked(s, answered) {
      forall id | id in runs && !runs[id].state.Ended? && runs[id].brokerJob.Some?
        ensures runs[id].brokerJob.value in answered
      {
        assert s.runs[id].brokerJob == Some(runs[id].brokerJob.value);
      }
    }
  }

  /** After a crash, a recovery that could ask for every job of a nonterminal run interrupts those runs and
      no other, without a result; one that could not changes nothing. */
  lemma RecoveryExactly(s: System, answered: set<Text>, id: Text)
    requires Inv(s) && id in s.runs
    ensures
      var x, runs := s.runs[id], Apply(Apply(s, Crash), Recover(answered)).runs;
      && id in runs
      && (Asked(s, answered) && !x.state.Ended? ==> runs[id].state == Ended(Interrupted) && runs[id].result.None?)
      && (!Asked(s, answered) || x.state.Ended? ==> runs[id].state == x.state && runs[id].result == x.result)
      && runs[id].co.None? && runs[id].trail == x.trail && runs[id].brokerJob == x.brokerJob
  {
    AskedExactly(s, answered);
    assert Apply(s, Crash).runs[id] == Reboot(s.runs[id]);
  }
}
