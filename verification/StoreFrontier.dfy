/** The frontier rebuilt from the run store: the results that runs save can always be read. */
module StoreFrontier {
  import opened Wrappers
  import opened Texts
  import opened Steps
  import opened Contracts
  import opened Results
  import opened Frontier
  import R = Runs
  import RunTheorems

  /** The ledger rows of some runs, in the order in which the store lists them. */
  function Ledger(ids: seq<Text>, runs: map<Text, R.Run>): seq<LedgerRow>
    requires forall id :: id in ids ==> id in runs
  {
    seq(|ids|, i requires 0 <= i < |ids| =>
      assert ids[i] in ids; LedgerRow(ids[i], runs[ids[i]].task.digest, runs[ids[i]].result))
  }

  /** A digest names one task. */
  ghost predicate Identifies(runs: map<Text, R.Run>, task: Task) {
    forall id :: id in runs && runs[id].task.digest == task.digest ==> runs[id].task == task
  }

  lemma {:induction false} CandidatesAreReadable(task: Task, ledger: seq<LedgerRow>)
    requires forall i :: 0 <= i < |ledger| && ledger[i].taskDigest == task.digest && ledger[i].result.Some? ==>
      SoundResult(task, ledger[i].result.value)
    ensures ReadableHistory(task, Candidates(task, ledger))
  {
    if ledger != [] {
      var n := |ledger| - 1;
      CandidatesAreReadable(task, ledger[..n]);
      var last := ledger[n];
      if last.taskDigest == task.digest && last.result.Some? && last.result.value.eligible {
        assert Readable(task, last.result.value.rows);
      }
    }
  }

  lemma SavedResultIsSound(x: R.Run)
    requires RunTheorems.SoundRun(x) && x.result.Some?
    ensures SoundResult(x.task, x.result.value)
  {
  }

  lemma StoreIsReadable(runs: map<Text, R.Run>, task: Task, ids: seq<Text>)
    requires Identifies(runs, task) && forall id :: id in ids ==> id in runs
    requires forall id :: id in runs && runs[id].result.Some? ==> SoundResult(runs[id].task, runs[id].result.value)
    ensures ReadableHistory(task, Candidates(task, Ledger(ids, runs)))
  {
    var ledger := Ledger(ids, runs);
    forall i | 0 <= i < |ledger| && ledger[i].taskDigest == task.digest && ledger[i].result.Some?
      ensures SoundResult(task, ledger[i].result.value)
    {
      assert ids[i] in ids;
    }
    CandidatesAreReadable(task, ledger);
  }

  /** In every reachable state of the run manager the saved results of a task, listed in any order, form a
      history that the reducer can read: whoever asks for the frontier gets it. */
  lemma FrontierCanBeAsked(capacity: nat, events: seq<R.Event>, task: Task, ids: seq<Text>)
    requires
      var runs := After(R.Apply, R.Initial(capacity), events).runs;
      Identifies(runs, task) && forall id :: id in ids ==> id in runs
    ensures
      ReadableHistory(task, Candidates(task, Ledger(ids, After(R.Apply, R.Initial(capacity), events).runs)))
  {
    RunTheorems.ReachedIsSound(capacity, events);
    var runs := After(R.Apply, R.Initial(capacity), events).runs;
    forall id | id in runs && runs[id].result.Some? ensures SoundResult(runs[id].task, runs[id].result.value) {
      SavedResultIsSound(runs[id]);
    }
    StoreIsReadable(runs, task, ids);
  }

  /** The store when run `id` rebuilds the frontier: its result is saved, its state not yet terminal. */
  ghost function WithResult(s: R.System, id: Text, r: RunResult): map<Text, R.Run>
    requires id in s.runs
  {
    s.runs[id := s.runs[id].(result := Some(r))]
  }

  lemma AggregatedIsSound(x: R.Run, result: Option<StageResult>, exitCode: int)
    requires RunTheorems.SoundRun(x) && R.StageOver(x) && (result.Some? ==> ValidStage(result.value, x.task))
    requires R.LoopExit(x.task, R.Extended(x.co.value.trail, result, exitCode), result, exitCode).Some?
    ensures
      var trail := R.Extended(x.co.value.trail, result, exitCode);
      var exit := R.LoopExit(x.task, trail, result, exitCode).value;
      SoundResult(x.task, Aggregation(x.task, R.ResultsOf(trail), exit))
  {
    var trail := R.Extended(x.co.value.trail, result, exitCode);
    RunTheorems.TrailGrows(x.task, x.co.value.trail, result, exitCode);
    AggregateIsSound(x.task, R.ResultsOf(trail), R.LoopExit(x.task, trail, result, exitCode).value);
  }

  /** And so it is when a run that leaves its stage loop has saved its result: rebuilding the frontier then
      cannot fail on what it reads, only on writing. */
  lemma RebuildCanRead(
    capacity: nat, events: seq<R.Event>, id: Text, result: Option<StageResult>, exitCode: int, ids: seq<Text>)
    requires
      var s := After(R.Apply, R.Initial(capacity), events);
      && id in s.runs && R.StageOver(s.runs[id]) && (result.Some? ==> ValidStage(result.value, s.runs[id].task))
      && Identifies(s.runs, s.runs[id].task) && (forall other :: other in ids ==> other in s.runs)
      && R.LoopExit(
           s.runs[id].task, R.Extended(s.runs[id].co.value.trail, result, exitCode), result, exitCode).Some?
    ensures
      var s := After(R.Apply, R.Initial(capacity), events);
      var x := s.runs[id];
      var trail := R.Extended(x.co.value.trail, result, exitCode);
      var final := Aggregation(x.task, R.ResultsOf(trail), R.LoopExit(x.task, trail, result, exitCode).value);
      ReadableHistory(x.task, Candidates(x.task, Ledger(ids, WithResult(s, id, final))))
  {
    var s := After(R.Apply, R.Initial(capacity), events);
    var x := s.runs[id];
    var trail := R.Extended(x.co.value.trail, result, exitCode);
    var final := Aggregation(x.task, R.ResultsOf(trail), R.LoopExit(x.task, trail, result, exitCode).value);
    RunTheorems.ReachedIsSound(capacity, events);
    AggregatedIsSound(x, result, exitCode);
    var runs := WithResult(s, id, final);
    forall r | r in runs && runs[r].result.Some? ensures SoundResult(runs[r].task, runs[r].result.value) {
      if r != id { SavedResultIsSound(s.runs[r]); }
    }
    StoreIsReadable(runs, x.task, ids);
  }
}
