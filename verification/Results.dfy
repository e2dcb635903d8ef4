/** Judge-owned stage results and their aggregation into a run result (results.py). */
module Results {
  import opened Wrappers
  import opened Texts
  import opened Contracts

  datatype Status = Passed | Failed

  datatype Validity = Valid | Invalid | Unknown

  /** One workload measurement; a missing JSON field is None. */
  datatype Row = Row(id: Text, candidateMs: Option<real>, baselineMs: Option<real>, stable: Option<bool>)

  /** A fingerprint value: only non-empty strings identify a binary. */
  datatype Mark = Hex(digest: Text) | NotText

  datatype Fingerprints = Fingerprints(cubin: Option<Mark>, sass: Option<Mark>, binary: Option<Mark>)

  datatype StageResult = StageResult(
    status: Status, validity: Validity, summary: Text, rows: seq<Row>, fingerprints: Fingerprints)

  datatype Outcome = Completed | Rejected | InfraError | Cancelled | Interrupted

  /** Why a run ended; None for a run whose every stage passed cleanly. */
  datatype Ending = NoResult | ExitedNonzero(exitCode: int) | StageFailed | Stopped | Raised

  datatype RunResult = RunResult(
    outcome: Outcome, validity: Validity, eligible: bool, reason: Option<Ending>,
    stages: seq<(Status, Validity)>, rows: map<Text, Row>, fingerprints: Fingerprints)

  datatype ContractError = Inconsistent | BadRow(index: nat) | DuplicateRow(workload: Text)

  // ---------------------------------------------------------------- validation

  predicate Positive(ms: Option<real>) { ms.Some? ==> ms.value > 0.0 }

  predicate ValidRow(row: Row, task: Task) {
    row.id in task.workloads && Positive(row.candidateMs) && Positive(row.baselineMs)
  }

  ghost predicate ValidStage(result: StageResult, task: Task) {
    && !(result.status.Passed? && result.validity.Invalid?)
    && !(result.status.Failed? && result.validity.Valid?)
    && (forall row :: row in result.rows ==> ValidRow(row, task))
    && forall i, j :: 0 <= i < j < |result.rows| ==> result.rows[i].id != result.rows[j].id
  }

  method ValidateStageResult(value: StageResult, task: Task) returns (r: Result<StageResult, ContractError>)
    ensures r.Ok? <==> ValidStage(value, task)
    ensures r.Ok? ==> r.value == value
    ensures r.Err? && r.error.DuplicateRow? ==>
      exists i, j :: 0 <= i < j < |value.rows| && value.rows[i].id == value.rows[j].id == r.error.workload
  {
    if (value.status.Passed? && value.validity.Invalid?) || (value.status.Failed? && value.validity.Valid?) {
      return Err(Inconsistent);
    }
    var seen: set<Text> := {};
    for i := 0 to |value.rows|
      invariant forall k :: 0 <= k < i ==> ValidRow(value.rows[k], task)
      invariant forall j, k :: 0 <= j < k < i ==> value.rows[j].id != value.rows[k].id
      invariant forall id :: id in seen <==> exists k :: 0 <= k < i && value.rows[k].id == id
    {
      var row := value.rows[i];
      if !ValidRow(row, task) {
        assert row in value.rows;
        return Err(BadRow(i));
      }
      if row.id in seen {
        return Err(DuplicateRow(row.id));
      }
      seen := seen + {row.id};
    }
    return Ok(value);
  }

  // ---------------------------------------------------------------- merging

  function Newer<T>(earlier: Option<T>, later: Option<T>): Option<T> {
    if later.Some? then later else earlier
  }

  /** Python's `dict.update` of one workload row by a later one. */
  function Overlay(earlier: Row, later: Row): Row {
    Row(later.id, Newer(earlier.candidateMs, later.candidateMs), Newer(earlier.baselineMs, later.baselineMs),
        Newer(earlier.stable, later.stable))
  }

  function Put(merged: map<Text, Row>, row: Row): map<Text, Row> {
    merged[row.id := if row.id in merged then Overlay(merged[row.id], row) else row]
  }

  function PutAll(merged: map<Text, Row>, rows: seq<Row>): map<Text, Row> {
    if rows == [] then merged else Put(PutAll(merged, rows[..|rows| - 1]), rows[|rows| - 1])
  }

  function MergedRows(results: seq<StageResult>): map<Text, Row> {
    if results == [] then map[] else PutAll(MergedRows(results[..|results| - 1]), results[|results| - 1].rows)
  }

  function UpdateMarks(earlier: Fingerprints, later: Fingerprints): Fingerprints {
    Fingerprints(
      Newer(earlier.cubin, later.cubin), Newer(earlier.sass, later.sass), Newer(earlier.binary, later.binary))
  }

  function MergedMarks(results: seq<StageResult>): Fingerprints {
    if results == [] then Fingerprints(None, None, None)
    else UpdateMarks(MergedMarks(results[..|results| - 1]), results[|results| - 1].fingerprints)
  }

  function MergedValidity(results: seq<StageResult>): Validity {
    if results == [] then Unknown
    else if MergedValidity(results[..|results| - 1]).Invalid? then Invalid
    else results[|results| - 1].validity
  }

  predicate Timed(row: Row) { row.candidateMs.Some? && row.baselineMs.Some? }

  ghost predicate AllPassed(task: Task, results: seq<StageResult>) {
    && results != [] && |results| == |task.stages|
    && forall i :: 0 <= i < |results| ==> results[i].status.Passed?
  }

  /** The frontier gate: passed throughout, valid, every workload timed, none unstable. */
  ghost predicate FrontierGate(task: Task, results: seq<StageResult>) {
    && AllPassed(task, results)
    && MergedValidity(results).Valid?
    && (forall w :: w in task.workloads ==> w in MergedRows(results) && Timed(MergedRows(results)[w]))
    && forall w :: w in MergedRows(results) ==> MergedRows(results)[w].stable != Some(false)
  }

  function Summaries(results: seq<StageResult>): seq<(Status, Validity)> {
    seq(|results|, i requires 0 <= i < |results| => (results[i].status, results[i].validity))
  }

  ghost function Aggregation(task: Task, results: seq<StageResult>, reason: Option<Ending>): RunResult {
    var validity := MergedValidity(results);
    RunResult(
      if AllPassed(task, results) then Completed else if validity.Invalid? then Rejected else InfraError,
      validity, FrontierGate(task, results), reason, Summaries(results), MergedRows(results), MergedMarks(results))
  }

  method AggregateRunResult(task: Task, results: seq<StageResult>, reason: Option<Ending>) returns (r: RunResult)
    ensures r == Aggregation(task, results, reason)
  {
    var merged: map<Text, Row> := map[];
    var fingerprints := Fingerprints(None, None, None);
    var validity := Unknown;
    var allPassed := results != [] && |results| == |task.stages|;
    var summaries: seq<(Status, Validity)> := [];
    for i := 0 to |results|
      invariant merged == MergedRows(results[..i]) && fingerprints == MergedMarks(results[..i])
      invariant validity == MergedValidity(results[..i])
      invariant allPassed ==
        (results != [] && |results| == |task.stages| && forall k :: 0 <= k < i ==> results[k].status.Passed?)
      invariant summaries == Summaries(results[..i])
    {
      var result := results[i];
      assert results[..i + 1][..i] == results[..i];
      summaries := summaries + [(result.status, result.validity)];
      if !result.status.Passed? {
        allPassed := false;
      }
      if result.validity.Invalid? {
        validity := Invalid;
      } else if !validity.Invalid? {
        validity := result.validity;
      }
      merged := MergeStageRows(merged, result.rows);
      fingerprints := UpdateMarks(fingerprints, result.fingerprints);
    }
    assert results[..|results|] == results;
    var timed := set w | w in merged && Timed(merged[w]);
    var stable := forall w :: w in merged ==> merged[w].stable != Some(false);
    var complete := forall w :: w in task.workloads ==> w in timed;
    var outcome := if allPassed then Completed else if validity.Invalid? then Rejected else InfraError;
    return RunResult(
      outcome, validity, allPassed && validity.Valid? && complete && stable, reason, summaries, merged, fingerprints);
  }

  method MergeStageRows(merged: map<Text, Row>, rows: seq<Row>) returns (r: map<Text, Row>)
    ensures r == PutAll(merged, rows)
  {
    r := merged;
    for i := 0 to |rows|
      invariant r == PutAll(merged, rows[..i])
    {
      assert rows[..i + 1][..i] == rows[..i];
      r := Put(r, rows[i]);
    }
    assert rows[..|rows|] == rows;
  }

  // ---------------------------------------------------------------- consequences

  /** What the frontier may rely on: an eligible result has a positively timed, stable row for
      every workload of the task and for nothing else. */
  ghost predicate SoundResult(task: Task, r: RunResult) {
    r.eligible ==>
      && r.outcome.Completed? && r.validity.Valid?
      && (forall w :: w in r.rows <==> w in task.workloads)
      && forall w :: w in r.rows ==>
        && r.rows[w].stable != Some(false) && Timed(r.rows[w])
        && r.rows[w].candidateMs.value > 0.0 && r.rows[w].baselineMs.value > 0.0
  }

  ghost predicate RowsDeclared(task: Task, merged: map<Text, Row>) {
    forall w :: w in merged ==>
      w in task.workloads && Positive(merged[w].candidateMs) && Positive(merged[w].baselineMs)
  }

  lemma {:induction false} PutAllDeclared(task: Task, merged: map<Text, Row>, rows: seq<Row>)
    requires RowsDeclared(task, merged)
    requires forall row :: row in rows ==> ValidRow(row, task)
    ensures RowsDeclared(task, PutAll(merged, rows))
  {
    if rows != [] {
      PutAllDeclared(task, merged, rows[..|rows| - 1]);
      assert rows[|rows| - 1] in rows;
    }
  }

  lemma {:induction false} MergedRowsDeclared(task: Task, results: seq<StageResult>)
    requires forall i :: 0 <= i < |results| ==> ValidStage(results[i], task)
    ensures RowsDeclared(task, MergedRows(results))
  {
    if results != [] {
      var n := |results| - 1;
      MergedRowsDeclared(task, results[..n]);
      PutAllDeclared(task, MergedRows(results[..n]), results[n].rows);
    }
  }

  /** Aggregating validated stage results always gives the frontier a result it can look up. */
  lemma AggregateIsSound(task: Task, results: seq<StageResult>, reason: Option<Ending>)
    requires forall i :: 0 <= i < |results| ==> ValidStage(results[i], task)
    ensures SoundResult(task, Aggregation(task, results, reason))
  {
    MergedRowsDeclared(task, results);
  }

  /** All rows reported, stage by stage. */
  function Reported(results: seq<StageResult>): seq<Row> {
    if results == [] then [] else Reported(results[..|results| - 1]) + results[|results| - 1].rows
  }

  /** The value reported last for a workload, searched from the end. */
  function Latest<T>(rows: seq<Row>, w: Text, field: Row -> Option<T>): Option<T> {
    if rows == [] then None
    else
      var last := rows[|rows| - 1];
      if last.id == w && field(last).Some? then field(last) else Latest(rows[..|rows| - 1], w, field)
  }

  lemma {:induction false} PutAllAppends(merged: map<Text, Row>, a: seq<Row>, b: seq<Row>)
    ensures PutAll(merged, a + b) == PutAll(PutAll(merged, a), b)
  {
    if b == [] {
      assert a + b == a;
    } else {
      PutAllAppends(merged, a, b[..|b| - 1]);
      assert (a + b)[..|a + b| - 1] == a + b[..|b| - 1];
    }
  }

  lemma {:induction false} MergedIsPutAll(results: seq<StageResult>)
    ensures MergedRows(results) == PutAll(map[], Reported(results))
  {
    if results != [] {
      MergedIsPutAll(results[..|results| - 1]);
      PutAllAppends(map[], Reported(results[..|results| - 1]), results[|results| - 1].rows);
    }
  }

  lemma {:induction false} PutAllKeepsLatest<T>(rows: seq<Row>, w: Text, field: Row -> Option<T>)
    requires forall a, b :: field(Overlay(a, b)) == Newer(field(a), field(b))
    ensures w in PutAll(map[], rows) <==> exists row :: row in rows && row.id == w
    ensures (if w in PutAll(map[], rows) then field(PutAll(map[], rows)[w]) else None) == Latest(rows, w, field)
  {
    if rows != [] {
      var init, last := rows[..|rows| - 1], rows[|rows| - 1];
      PutAllKeepsLatest(init, w, field);
      assert rows == init + [last];
    }
  }

  /** A workload has a merged row exactly when some stage reported one, and each of its fields is the
      value reported last: a later stage overrides only what it reports. */
  lemma MergedRowsAreLatest(results: seq<StageResult>, w: Text)
    ensures w in MergedRows(results) <==> exists row :: row in Reported(results) && row.id == w
    ensures w in MergedRows(results) ==>
      var merged, rows := MergedRows(results)[w], Reported(results);
      && merged.candidateMs == Latest(rows, w, (row: Row) => row.candidateMs)
      && merged.baselineMs == Latest(rows, w, (row: Row) => row.baselineMs)
      && merged.stable == Latest(rows, w, (row: Row) => row.stable)
  {
    MergedIsPutAll(results);
    PutAllKeepsLatest(Reported(results), w, (row: Row) => row.candidateMs);
    PutAllKeepsLatest(Reported(results), w, (row: Row) => row.baselineMs);
    PutAllKeepsLatest(Reported(results), w, (row: Row) => row.stable);
  }

  lemma {:induction false} MergedValidityMeaning(results: seq<StageResult>)
    ensures MergedValidity(results).Invalid? <==> exists i :: 0 <= i < |results| && results[i].validity.Invalid?
    ensures !MergedValidity(results).Invalid? && results != [] ==>
      MergedValidity(results) == results[|results| - 1].validity
  {
    if results != [] {
      var n := |results| - 1;
      MergedValidityMeaning(results[..n]);
      if MergedValidity(results[..n]).Invalid? {
        var i :| 0 <= i < n && results[..n][i].validity.Invalid?;
        assert results[i].validity.Invalid?;
      }
    }
  }

  /** Stages that ran one after another, each gated by its predecessor. */
  ghost predicate Gated(task: Task, results: seq<StageResult>) {
    && |results| <= |task.stages|
    && (forall i :: 0 <= i < |results| ==> ValidStage(results[i], task))
    && forall i :: 0 <= i < |results| - 1 ==> results[i].status.Passed?
  }

  /** Of a gated run, the outcome is decided by how far it got and by its last result alone. */
  lemma GatedOutcome(task: Task, results: seq<StageResult>, reason: Option<Ending>)
    requires Gated(task, results)
    ensures
      var outcome := Aggregation(task, results, reason).outcome;
      && (outcome.Completed? <==>
        results != [] && |results| == |task.stages| && results[|results| - 1].status.Passed?)
      && (outcome.Rejected? <==> results != [] && results[|results| - 1].validity.Invalid?)
  {
    MergedValidityMeaning(results);
    var last := |results| - 1;
    forall i | 0 <= i < last ensures !results[i].validity.Invalid? {
      assert results[i].status.Passed? && ValidStage(results[i], task);
    }
    if results != [] {
      assert ValidStage(results[last], task);
    }
  }
}
