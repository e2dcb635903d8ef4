/** What aggregation says of what the stages reported, without its own bookkeeping. */
module ResultTheorems {
  import opened Wrappers
  import opened Texts
  import opened Contracts
  import opened Results

  // ---------------------------------------------------------------- stage results

  /** A stage result is accepted exactly if its validity fits its status and its rows name declared
      workloads, each once, with positive times. */
  lemma ValidStageExactly(result: StageResult, task: Task)
    ensures ValidStage(result, task) <==>
      (&& (result.validity.Unknown? || (result.validity.Valid? <==> result.status.Passed?))
       && (forall i :: 0 <= i < |result.rows| ==> DeclaredAndPositive(result.rows[i], task))
       && (forall i, j :: 0 <= i < |result.rows| && 0 <= j < |result.rows| && result.rows[i].id == result.rows[j].id ==>
            i == j))
  {
    forall row ensures ValidRow(row, task) <==> DeclaredAndPositive(row, task) {
    }
    if ValidStage(result, task) {
      forall i | 0 <= i < |result.rows| ensures DeclaredAndPositive(result.rows[i], task) {
        assert result.rows[i] in result.rows;
      }
      forall i, j | 0 <= i < |result.rows| && 0 <= j < |result.rows| && i != j
        ensures result.rows[i].id != result.rows[j].id
      {
        if j < i { assert result.rows[j].id != result.rows[i].id; }
      }
    }
  }

  predicate DeclaredAndPositive(row: Row, task: Task) {
    && (exists k :: 0 <= k < |task.workloads| && task.workloads[k] == row.id)
    && (row.candidateMs.None? || row.candidateMs.value > 0.0)
    && (row.baselineMs.None? || row.baselineMs.value > 0.0)
  }

  // ---------------------------------------------------------------- the run result

  /** Every stage of the task ran, and all passed. */
  predicate PassedThroughout(task: Task, results: seq<StageResult>) {
    |results| > 0 && |results| == |task.stages| && forall i :: 0 <= i < |results| ==> results[i].status == Passed
  }

  function CandidateMs(row: Row): Option<real> { row.candidateMs }
  function BaselineMs(row: Row): Option<real> { row.baselineMs }
  function Stable(row: Row): Option<bool> { row.stable }

  lemma MergedFields(results: seq<StageResult>, w: Text)
    ensures w in MergedRows(results) <==> exists row :: row in Reported(results) && row.id == w
    ensures
      var merged, rows := Lookup(MergedRows(results), w), Reported(results);
      && (if merged.Some? then merged.value.candidateMs else None) == Latest(rows, w, CandidateMs)
      && (if merged.Some? then merged.value.baselineMs else None) == Latest(rows, w, BaselineMs)
      && (if merged.Some? then merged.value.stable else None) == Latest(rows, w, Stable)
  {
    MergedIsPutAll(results);
    PutAllKeepsLatest(Reported(results), w, CandidateMs);
    PutAllKeepsLatest(Reported(results), w, BaselineMs);
    PutAllKeepsLatest(Reported(results), w, Stable);
  }

  /** Every workload of the task has both its times, and none reported is unstable by its last word. */
  predicate FullyMeasured(task: Task, rows: seq<Row>) {
    && (forall w :: w in task.workloads ==> Latest(rows, w, CandidateMs).Some? && Latest(rows, w, BaselineMs).Some?)
    && (forall row :: row in rows ==> Latest(rows, row.id, Stable) != Some(false))
  }

  lemma MeasuredExactly(task: Task, results: seq<StageResult>)
    ensures FullyMeasured(task, Reported(results)) <==>
      (&& (forall w :: w in task.workloads ==> w in MergedRows(results) && Timed(MergedRows(results)[w]))
       && forall w :: w in MergedRows(results) ==> MergedRows(results)[w].stable != Some(false))
  {
    var rows, merged := Reported(results), MergedRows(results);
    forall w ensures w in merged <==> exists row :: row in rows && row.id == w { MergedFields(results, w); }
    forall w | w in task.workloads
      ensures (Latest(rows, w, CandidateMs).Some? && Latest(rows, w, BaselineMs).Some?) <==>
        (w in merged && Timed(merged[w]))
    {
      MergedFields(results, w);
    }
    forall w | w in merged ensures Latest(rows, w, Stable) == merged[w].stable { MergedFields(results, w); }
    forall row | row in rows ensures row.id in merged {
    }
    if forall row :: row in rows ==> Latest(rows, row.id, Stable) != Some(false) {
      forall w | w in merged ensures merged[w].stable != Some(false) {
        var row :| row in rows && row.id == w;
      }
    }
  }

  /** A run enters the frontier if and only if every stage of the task ran and passed, none was invalid and
      the last is valid, every workload of the task has a candidate and a baseline time, and no workload's
      last word on stability is that it was unstable; a missing word counts as stable. */
  lemma EligibleExactly(task: Task, results: seq<StageResult>, reason: Option<Ending>)
    ensures Aggregation(task, results, reason).eligible <==>
      (&& PassedThroughout(task, results)
       && (forall i :: 0 <= i < |results| ==> results[i].validity != Invalid)
       && results[|results| - 1].validity == Valid
       && FullyMeasured(task, Reported(results)))
  {
    PassedExactly(task, results);
    ValidExactly(results);
    MeasuredExactly(task, results);
    GateParts(task, results);
  }

  lemma PassedExactly(task: Task, results: seq<StageResult>)
    ensures PassedThroughout(task, results) <==> AllPassed(task, results)
  {
  }

  lemma ValidExactly(results: seq<StageResult>)
    ensures MergedValidity(results).Valid? <==>
      (|results| > 0 && results[|results| - 1].validity == Valid
       && forall i :: 0 <= i < |results| ==> results[i].validity != Invalid)
  {
    MergedValidityMeaning(results);
  }

  lemma GateParts(task: Task, results: seq<StageResult>)
    ensures FrontierGate(task, results) <==>
      (&& AllPassed(task, results) && MergedValidity(results).Valid?
       && (forall w :: w in task.workloads ==> w in MergedRows(results) && Timed(MergedRows(results)[w]))
       && forall w :: w in MergedRows(results) ==> MergedRows(results)[w].stable != Some(false))
  {
  }

  /** Completed means that every stage of the task ran and passed, rejected that some stage was invalid and
      not that, infra_error everything else; the terminal reason and the stages are kept as they were. */
  lemma OutcomeExactly(task: Task, results: seq<StageResult>, reason: Option<Ending>)
    ensures
      var r := Aggregation(task, results, reason);
      && (r.outcome == Completed <==> PassedThroughout(task, results))
      && (r.outcome == Rejected <==>
            !PassedThroughout(task, results) && exists i :: 0 <= i < |results| && results[i].validity == Invalid)
      && (r.outcome == Completed || r.outcome == Rejected || r.outcome == InfraError)
      && (r.validity == Invalid <==> exists i :: 0 <= i < |results| && results[i].validity == Invalid)
      && (r.validity == Valid <==>
            && |results| > 0 && results[|results| - 1].validity == Valid
            && forall i :: 0 <= i < |results| ==> results[i].validity != Invalid)
      && r.reason == reason && |r.stages| == |results|
      && (forall i :: 0 <= i < |results| ==> r.stages[i] == (results[i].status, results[i].validity))
  {
    MergedValidityMeaning(results);
  }

  // ---------------------------------------------------------------- fingerprints

  /** The mark of the last stage that reports one, searched from the end. */
  function LatestMark(results: seq<StageResult>, field: Fingerprints -> Option<Mark>): Option<Mark> {
    if results == [] then None
    else
      var last := results[|results| - 1];
      if field(last.fingerprints).Some? then field(last.fingerprints)
      else LatestMark(results[..|results| - 1], field)
  }

  lemma {:induction false} MarksAreLatest(task: Task, results: seq<StageResult>, reason: Option<Ending>)
    ensures
      var marks := Aggregation(task, results, reason).fingerprints;
      && marks.cubin == LatestMark(results, (f: Fingerprints) => f.cubin)
      && marks.sass == LatestMark(results, (f: Fingerprints) => f.sass)
      && marks.binary == LatestMark(results, (f: Fingerprints) => f.binary)
  {
    if results != [] {
      MarksAreLatest(task, results[..|results| - 1], reason);
    }
  }
}
