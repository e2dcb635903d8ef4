/** The rebuildable per-workload frontier (frontier.py). */
module Frontier {
  import opened Wrappers
  import opened Texts
  import opened Contracts
  import opened Results

  datatype Cell = Cell(runId: Text, candidateMs: real, baselineMs: real, speedup: real)

  datatype Kind = Cubin | Sass | Binary

  datatype Compiler = Compiler(kind: Kind, digest: Text)

  datatype Verdict =
    | FirstValid
    | ImprovesPrimary(improved: seq<Text>)
    | PerCellPareto(improved: seq<Text>, regressed: seq<Text>)
    | Dominated
    | CompilerEquivalent(of: Text)
    | RegressesGuardrail(workload: Text)
    | MeasurementUnstable
    | Ineligible

  /** A run whose result file could be read. */
  datatype Entry = Entry(runId: Text, result: RunResult)

  /** A row of the run ledger: the digest in its state file and its result, if readable. */
  datatype LedgerRow = LedgerRow(runId: Text, taskDigest: Text, result: Option<RunResult>)

  datatype State = State(cells: map<Text, Cell>, seen: map<Compiler, Text>)

  predicate Accepted(v: Verdict) { v.FirstValid? || v.ImprovesPrimary? || v.PerCellPareto? }

  /** The run got as far as the comparison with the cells. */
  predicate Compared(v: Verdict) { Accepted(v) || v.Dominated? }

  // ---------------------------------------------------------------- one run

  function HexMark(mark: Option<Mark>): Option<Text> {
    if mark.Some? && mark.value.Hex? && mark.value.digest != [] then Some(mark.value.digest) else None
  }

  function CompilerOf(marks: Fingerprints): Option<Compiler> {
    if HexMark(marks.cubin).Some? then Some(Compiler(Cubin, HexMark(marks.cubin).value))
    else if HexMark(marks.sass).Some? then Some(Compiler(Sass, HexMark(marks.sass).value))
    else if HexMark(marks.binary).Some? then Some(Compiler(Binary, HexMark(marks.binary).value))
    else None
  }

  /** Rows the reducer can look up without a KeyError or a division by zero. */
  predicate Readable(task: Task, rows: map<Text, Row>) {
    && (forall w :: w in task.workloads ==> w in rows)
    && forall w :: w in rows ==>
      && w in task.workloads
      && Timed(rows[w]) && rows[w].candidateMs.value > 0.0 && rows[w].baselineMs.value > 0.0
  }

  function CellOf(runId: Text, row: Row): Cell
    requires Timed(row) && row.candidateMs.value > 0.0
  {
    Cell(runId, row.candidateMs.value, row.baselineMs.value, row.baselineMs.value / row.candidateMs.value)
  }

  predicate Holds(g: Guardrail, task: Task, rows: map<Text, Row>)
    requires Readable(task, rows) && g.workload in task.workloads
  {
    CellOf([], rows[g.workload]).speedup >= g.minSpeedup
  }

  predicate Improves(task: Task, cells: map<Text, Cell>, rows: map<Text, Row>, w: Text)
    requires Readable(task, rows) && w in task.workloads
  {
    w !in cells || rows[w].candidateMs.value < cells[w].candidateMs * (1.0 - task.noise)
  }

  predicate Regresses(task: Task, cells: map<Text, Cell>, rows: map<Text, Row>, w: Text)
    requires Readable(task, rows) && w in task.workloads
  {
    !Improves(task, cells, rows, w) && rows[w].candidateMs.value > cells[w].candidateMs * (1.0 + task.noise)
  }

  /** The first guardrail, in declaration order, that the rows miss. */
  function FirstMissed(task: Task, rows: map<Text, Row>, guardrails: seq<Guardrail>): Option<Text>
    requires Readable(task, rows) && forall g :: g in guardrails ==> g.workload in task.workloads
  {
    if guardrails == [] then None
    else if Holds(guardrails[0], task, rows) then FirstMissed(task, rows, guardrails[1..])
    else Some(guardrails[0].workload)
  }

  function Improved(task: Task, cells: map<Text, Cell>, rows: map<Text, Row>, ws: seq<Text>): (r: seq<Text>)
    requires Readable(task, rows) && forall w :: w in ws ==> w in task.workloads
    ensures forall w :: w in r <==> w in ws && Improves(task, cells, rows, w)
  {
    if ws == [] then [] else
      var last := ws[|ws| - 1];
      assert ws == ws[..|ws| - 1] + [last];
      Improved(task, cells, rows, ws[..|ws| - 1]) + if Improves(task, cells, rows, last) then [last] else []
  }

  function Regressed(task: Task, cells: map<Text, Cell>, rows: map<Text, Row>, ws: seq<Text>): (r: seq<Text>)
    requires Readable(task, rows) && forall w :: w in ws ==> w in task.workloads
    ensures forall w :: w in r <==> w in ws && Regresses(task, cells, rows, w)
  {
    if ws == [] then [] else
      var last := ws[|ws| - 1];
      assert ws == ws[..|ws| - 1] + [last];
      Regressed(task, cells, rows, ws[..|ws| - 1]) + if Regresses(task, cells, rows, last) then [last] else []
  }

  /** Comparison with the cells, for a run that met its guardrails. */
  function Compare(task: Task, cells: map<Text, Cell>, rows: map<Text, Row>): Verdict
    requires ValidTask(task) && Readable(task, rows)
  {
    if cells == map[] then FirstValid
    else
      var improved := Improved(task, cells, rows, task.primary);
      var regressed := Regressed(task, cells, rows, task.primary);
      if improved != [] && regressed != [] then PerCellPareto(improved, regressed)
      else if improved != [] then ImprovesPrimary(improved)
      else Dominated
  }

  function Judge(task: Task, state: State, result: RunResult): Verdict
    requires ValidTask(task) && (result.eligible ==> Readable(task, result.rows))
  {
    if result.validity.Valid? && exists w :: w in result.rows && result.rows[w].stable == Some(false) then
      MeasurementUnstable
    else if !result.eligible then Ineligible
    else
      var compiler := CompilerOf(result.fingerprints);
      if compiler.Some? && compiler.value in state.seen then CompilerEquivalent(state.seen[compiler.value])
      else
        var missed := FirstMissed(task, result.rows, task.guardrails);
        if missed.Some? then RegressesGuardrail(missed.value) else Compare(task, state.cells, result.rows)
  }

  /** The cells after an accepted run: strictly faster rows replace what is there. */
  function Absorb(task: Task, cells: map<Text, Cell>, runId: Text, rows: map<Text, Row>): map<Text, Cell>
    requires Readable(task, rows)
  {
    map w | w in cells.Keys + rows.Keys ::
      if w in rows && (w !in cells || rows[w].candidateMs.value < cells[w].candidateMs) then CellOf(runId, rows[w])
      else cells[w]
  }

  function Remember(seen: map<Compiler, Text>, v: Verdict, compiler: Option<Compiler>, runId: Text)
    : map<Compiler, Text>
  {
    if v.MeasurementUnstable? || v.Ineligible? || compiler.None? || compiler.value in seen then seen
    else seen[compiler.value := runId]
  }

  function Next(task: Task, state: State, e: Entry): State
    requires ValidTask(task) && (e.result.eligible ==> Readable(task, e.result.rows))
  {
    var v := Judge(task, state, e.result);
    State(if Accepted(v) then Absorb(task, state.cells, e.runId, e.result.rows) else state.cells,
          Remember(state.seen, v, CompilerOf(e.result.fingerprints), e.runId))
  }

  // ---------------------------------------------------------------- whole histories

  predicate ReadableHistory(task: Task, history: seq<Entry>) {
    forall i :: 0 <= i < |history| ==> history[i].result.eligible ==> Readable(task, history[i].result.rows)
  }

  function Reduce(task: Task, history: seq<Entry>): State
    requires ValidTask(task) && ReadableHistory(task, history)
  {
    if history == [] then State(map[], map[])
    else Next(task, Reduce(task, history[..|history| - 1]), history[|history| - 1])
  }

  function VerdictAt(task: Task, history: seq<Entry>, i: nat): Verdict
    requires ValidTask(task) && ReadableHistory(task, history) && i < |history|
  {
    Judge(task, Reduce(task, history[..i]), history[i].result)
  }

  /** Runs of the same task digest whose result file is readable. */
  function Candidates(task: Task, ledger: seq<LedgerRow>): seq<Entry> {
    if ledger == [] then [] else
      var last := ledger[|ledger| - 1];
      Candidates(task, ledger[..|ledger| - 1])
      + if last.taskDigest == task.digest && last.result.Some? then [Entry(last.runId, last.result.value)] else []
  }

  // ---------------------------------------------------------------- the reducer

  method RebuildFrontier(task: Task, ledger: seq<LedgerRow>)
    returns (cells: map<Text, Cell>, decisions: seq<(Text, Verdict)>)
    requires ValidTask(task) && ReadableHistory(task, Candidates(task, ledger))
    ensures var history := Candidates(task, ledger);
      && cells == Reduce(task, history).cells
      && |decisions| == |history|
      && forall i :: 0 <= i < |history| ==> decisions[i] == (history[i].runId, VerdictAt(task, history, i))
  {
    var candidates: seq<Entry> := [];
    for i := 0 to |ledger|
      invariant candidates == Candidates(task, ledger[..i])
    {
      assert ledger[..i + 1][..i] == ledger[..i];
      if ledger[i].taskDigest == task.digest && ledger[i].result.Some? {
        candidates := candidates + [Entry(ledger[i].runId, ledger[i].result.value)];
      }
    }
    assert ledger[..|ledger|] == ledger;
    cells, decisions := ReduceCandidates(task, candidates);
  }

  method ReduceCandidates(task: Task, history: seq<Entry>)
    returns (cells: map<Text, Cell>, decisions: seq<(Text, Verdict)>)
    requires ValidTask(task) && ReadableHistory(task, history)
    ensures cells == Reduce(task, history).cells
    ensures |decisions| == |history|
    ensures forall i :: 0 <= i < |history| ==> decisions[i] == (history[i].runId, VerdictAt(task, history, i))
  {
    cells, decisions := map[], [];
    var seen: map<Compiler, Text> := map[];
    for i := 0 to |history|
      invariant State(cells, seen) == Reduce(task, history[..i])
      invariant |decisions| == i
      invariant forall k :: 0 <= k < i ==> decisions[k] == (history[k].runId, VerdictAt(task, history, k))
    {
      assert history[..i + 1][..i] == history[..i];
      var v;
      v, cells, seen := Consider(task, cells, seen, history[i]);
      decisions := decisions + [(history[i].runId, v)];
    }
    assert history[..|history|] == history;
  }

  /** One run of the ledger. */
  method Consider(task: Task, cells: map<Text, Cell>, seen: map<Compiler, Text>, e: Entry)
    returns (v: Verdict, cells': map<Text, Cell>, seen': map<Compiler, Text>)
    requires ValidTask(task) && (e.result.eligible ==> Readable(task, e.result.rows))
    ensures v == Judge(task, State(cells, seen), e.result)
    ensures State(cells', seen') == Next(task, State(cells, seen), e)
  {
    cells', seen' := cells, seen;
    v := Decide(task, cells, seen, e.result);
    if Accepted(v) {
      cells' := AbsorbRows(task, cells, e.runId, e.result.rows);
    }
    if !v.MeasurementUnstable? && !v.Ineligible? {
      var compiler := CompilerOf(e.result.fingerprints);
      if compiler.Some? && compiler.value !in seen {
        seen' := seen[compiler.value := e.runId];
      }
    }
  }

  method Decide(task: Task, cells: map<Text, Cell>, seen: map<Compiler, Text>, result: RunResult)
    returns (v: Verdict)
    requires ValidTask(task) && (result.eligible ==> Readable(task, result.rows))
    ensures v == Judge(task, State(cells, seen), result)
  {
    if result.validity.Valid? && exists w :: w in result.rows && result.rows[w].stable == Some(false) {
      return MeasurementUnstable;
    }
    if !result.eligible {
      return Ineligible;
    }
    var compiler := CompilerOf(result.fingerprints);
    if compiler.Some? && compiler.value in seen {
      return CompilerEquivalent(seen[compiler.value]);
    }
    var missed := GuardrailFailure(task, result.rows);
    if missed.Some? {
      return RegressesGuardrail(missed.value);
    }
    v := CompareWithCells(task, cells, result.rows);
  }

  lemma ComparedOneMore(task: Task, cells: map<Text, Cell>, rows: map<Text, Row>, ws: seq<Text>, i: nat)
    requires Readable(task, rows) && i < |ws| && forall w :: w in ws ==> w in task.workloads
    ensures Improved(task, cells, rows, ws[..i + 1])
         == Improved(task, cells, rows, ws[..i]) + if Improves(task, cells, rows, ws[i]) then [ws[i]] else []
    ensures Regressed(task, cells, rows, ws[..i + 1])
         == Regressed(task, cells, rows, ws[..i]) + if Regresses(task, cells, rows, ws[i]) then [ws[i]] else []
  {
    assert ws[..i + 1][..i] == ws[..i];
  }

  method CompareWithCells(task: Task, cells: map<Text, Cell>, rows: map<Text, Row>) returns (v: Verdict)
    requires ValidTask(task) && Readable(task, rows)
    ensures v == Compare(task, cells, rows)
  {
    if cells == map[] {
      return FirstValid;
    }
    var improved, regressed := Deviations(task, cells, rows);
    v := if improved != [] && regressed != [] then PerCellPareto(improved, regressed)
         else if improved != [] then ImprovesPrimary(improved)
         else Dominated;
  }

  /** The loop over the primary workloads. */
  method Deviations(task: Task, cells: map<Text, Cell>, rows: map<Text, Row>)
    returns (improved: seq<Text>, regressed: seq<Text>)
    requires ValidTask(task) && Readable(task, rows)
    ensures improved == Improved(task, cells, rows, task.primary)
    ensures regressed == Regressed(task, cells, rows, task.primary)
  {
    improved, regressed := [], [];
    var primary := task.primary;
    for i := 0 to |primary|
      invariant improved == Improved(task, cells, rows, primary[..i])
      invariant regressed == Regressed(task, cells, rows, primary[..i])
    {
      ComparedOneMore(task, cells, rows, primary, i);
      var better, worse := Deviation(task, cells, rows, primary[i]);
      if better {
        improved := improved + [primary[i]];
      } else if worse {
        regressed := regressed + [primary[i]];
      }
    }
    assert primary[..|primary|] == primary;
  }

  method Deviation(task: Task, cells: map<Text, Cell>, rows: map<Text, Row>, w: Text)
    returns (better: bool, worse: bool)
    requires Readable(task, rows) && w in task.workloads
    ensures better == Improves(task, cells, rows, w) && worse == Regresses(task, cells, rows, w)
    ensures !(better && worse)
  {
    if w !in cells {
      return true, false;
    }
    var candidateMs, bestMs := rows[w].candidateMs.value, cells[w].candidateMs;
    better := candidateMs < bestMs * (1.0 - task.noise);
    worse := !better && candidateMs > bestMs * (1.0 + task.noise);
  }

  method GuardrailFailure(task: Task, rows: map<Text, Row>) returns (missed: Option<Text>)
    requires ValidTask(task) && Readable(task, rows)
    ensures missed == FirstMissed(task, rows, task.guardrails)
    ensures missed.None? <==> forall g :: g in task.guardrails ==> Holds(g, task, rows)
  {
    for i := 0 to |task.guardrails|
      invariant forall k :: 0 <= k < i ==> Holds(task.guardrails[k], task, rows)
      invariant FirstMissed(task, rows, task.guardrails) == FirstMissed(task, rows, task.guardrails[i..])
    {
      var g := task.guardrails[i];
      if rows[g.workload].baselineMs.value / rows[g.workload].candidateMs.value < g.minSpeedup {
        assert g in task.guardrails && !Holds(g, task, rows);
        return Some(g.workload);
      }
      assert task.guardrails[i..][1..] == task.guardrails[i + 1..];
    }
    return None;
  }

  /** Rows are visited in whatever order the dictionary yields them. */
  method AbsorbRows(task: Task, cells: map<Text, Cell>, runId: Text, rows: map<Text, Row>) returns (r: map<Text, Cell>)
    requires Readable(task, rows)
    ensures r == Absorb(task, cells, runId, rows)
  {
    r := cells;
    var todo := rows.Keys;
    while todo != {}
      invariant todo <= rows.Keys
      invariant r.Keys == cells.Keys + (rows.Keys - todo)
      invariant forall w :: w in r ==>
        r[w] == if w in todo || w !in rows then cells[w] else Absorb(task, cells, runId, rows)[w]
      decreases todo
    {
      var w :| w in todo;
      todo := todo - {w};
      if w !in r || rows[w].candidateMs.value < r[w].candidateMs {
        r := r[w := CellOf(runId, rows[w])];
      }
    }
  }
}
