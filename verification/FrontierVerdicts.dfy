/** What every verdict of the reducer means, over whole histories and in the numbers of the runs. */
module FrontierVerdicts {
  import opened Wrappers
  import opened Texts
  import opened Contracts
  import opened Results
  import opened Frontier
  import opened FrontierTheorems
  import FrontierDeletion

  // ---------------------------------------------------------------- skipped runs

  /** The judge marked a measurement of a valid run unstable. */
  predicate MarkedUnstable(r: RunResult) {
    r.validity == Valid && exists w :: w in r.rows && r.rows[w].stable == Some(false)
  }

  /** Neither unstable nor ineligible. */
  predicate Considered(r: RunResult) { r.eligible && !MarkedUnstable(r) }

  function TextOf(mark: Option<Mark>): Text { if mark.Some? && mark.value.Hex? then mark.value.digest else [] }

  /** A run is identified by its cubin hash; if that is missing or empty by its SASS hash, and failing that by
      the hash of its binary. */
  lemma CompilerExactly(marks: Fingerprints, d: Text)
    ensures CompilerOf(marks) == Some(Compiler(Cubin, d)) <==> d != [] && TextOf(marks.cubin) == d
    ensures CompilerOf(marks) == Some(Compiler(Sass, d)) <==>
      d != [] && TextOf(marks.cubin) == [] && TextOf(marks.sass) == d
    ensures CompilerOf(marks) == Some(Compiler(Binary, d)) <==>
      d != [] && TextOf(marks.cubin) == [] && TextOf(marks.sass) == [] && TextOf(marks.binary) == d
    ensures CompilerOf(marks).None? <==>
      TextOf(marks.cubin) == [] && TextOf(marks.sass) == [] && TextOf(marks.binary) == []
  {
  }

  /** Run `j` is the first considered run with this fingerprint. */
  predicate FirstWith(history: seq<Entry>, k: Compiler, j: nat) {
    && j < |history| && Considered(history[j].result) && CompilerOf(history[j].result.fingerprints) == Some(k)
    && forall m :: 0 <= m < j ==>
      !(Considered(history[m].result) && CompilerOf(history[m].result.fingerprints) == Some(k))
  }

  lemma RemembersOne(task: Task, state: State, e: Entry, k: Compiler)
    requires ValidTask(task) && (e.result.eligible ==> Readable(task, e.result.rows))
    ensures
      var seen := Next(task, state, e).seen;
      && (k in seen <==>
            k in state.seen || (Considered(e.result) && CompilerOf(e.result.fingerprints) == Some(k)))
      && (k in state.seen ==> seen[k] == state.seen[k])
      && (k in seen && k !in state.seen ==> seen[k] == e.runId)
  {
  }

  /** A fingerprint was seen exactly if some considered run carries it, and the first of them is remembered. */
  lemma {:induction false} SeenExactly(task: Task, history: seq<Entry>, k: Compiler)
    requires History(task, history)
    ensures k in Reduce(task, history).seen <==> exists j: nat :: FirstWith(history, k, j)
    ensures forall j: nat :: FirstWith(history, k, j) ==>
      k in Reduce(task, history).seen && Reduce(task, history).seen[k] == history[j].runId
  {
    if history != [] {
      var n := |history| - 1;
      var init := history[..n];
      SeenExactly(task, init, k);
      RemembersOne(task, Reduce(task, init), history[n], k);
      forall j: nat | FirstWith(init, k, j) ensures FirstWith(history, k, j) {
      }
      forall j: nat | FirstWith(history, k, j) ensures j == n || FirstWith(init, k, j) {
      }
      if k !in Reduce(task, init).seen && k in Reduce(task, history).seen {
        NoneBefore(init, k);
        assert FirstWith(history, k, n);
      }
      if k in Reduce(task, init).seen {
        var j: nat :| FirstWith(init, k, j);
      }
    }
  }

  /** Without a first considered run with a fingerprint there is none. */
  lemma {:induction false} NoneBefore(history: seq<Entry>, k: Compiler)
    requires forall j: nat :: !FirstWith(history, k, j)
    ensures forall m :: 0 <= m < |history| ==>
      !(Considered(history[m].result) && CompilerOf(history[m].result.fingerprints) == Some(k))
  {
    if history != [] {
      var n := |history| - 1;
      forall j: nat | FirstWith(history[..n], k, j) ensures false {
        assert FirstWith(history, k, j);
      }
      NoneBefore(history[..n], k);
      assert !FirstWith(history, k, n);
    }
  }

  /** A run is unstable, ineligible or equivalent to an earlier one exactly when its result says so, or the
      first considered run with its fingerprint lies before it, which the verdict then names. */
  lemma SkippedExactly(task: Task, history: seq<Entry>, i: nat)
    requires History(task, history) && i < |history|
    ensures
      var v, r := VerdictAt(task, history, i), history[i].result;
      && (v.MeasurementUnstable? <==> MarkedUnstable(r))
      && (v.Ineligible? <==> !MarkedUnstable(r) && !r.eligible)
      && (v.CompilerEquivalent? <==>
            Considered(r) && exists k, j: nat :: CompilerOf(r.fingerprints) == Some(k) && FirstWith(history[..i], k, j))
      && (forall k, j: nat ::
            v.CompilerEquivalent? && CompilerOf(r.fingerprints) == Some(k) && FirstWith(history[..i], k, j) ==>
              v.of == history[j].runId)
  {
    var r := history[i].result;
    var compiler := CompilerOf(r.fingerprints);
    if compiler.Some? { SeenExactly(task, history[..i], compiler.value); }
  }

  // ---------------------------------------------------------------- guardrails

  /** The run is slower than the guardrail allows: its baseline is below the factor times its own time. */
  predicate TooSlow(g: Guardrail, rows: map<Text, Row>)
    requires g.workload in rows && Timed(rows[g.workload])
  {
    rows[g.workload].baselineMs.value < g.minSpeedup * rows[g.workload].candidateMs.value
  }

  lemma QuotientBelow(a: real, b: real, c: real)
    requires b > 0.0
    ensures a / b < c <==> a < c * b
  {
    var q := a / b;
    assert q * b == a;
    if q < c { assert (c - q) * b > 0.0; }
    if a < c * b { assert (c - q) * b > 0.0; }
  }

  lemma HoldsExactly(g: Guardrail, task: Task, rows: map<Text, Row>)
    requires Readable(task, rows) && g.workload in task.workloads
    ensures Holds(g, task, rows) <==> !TooSlow(g, rows)
  {
    QuotientBelow(rows[g.workload].baselineMs.value, rows[g.workload].candidateMs.value, g.minSpeedup);
  }

  /** Guardrail `n` is the first, in the order of the task, that the run misses. */
  predicate FirstTooSlow(task: Task, guardrails: seq<Guardrail>, rows: map<Text, Row>, n: nat)
    requires Readable(task, rows) && forall g :: g in guardrails ==> g.workload in task.workloads
  {
    && n < |guardrails| && TooSlow(guardrails[n], rows)
    && forall m :: 0 <= m < n ==> !TooSlow(guardrails[m], rows)
  }

  lemma {:induction false} FirstMissedExactly(task: Task, rows: map<Text, Row>, guardrails: seq<Guardrail>)
    requires Readable(task, rows) && forall g :: g in guardrails ==> g.workload in task.workloads
    ensures FirstMissed(task, rows, guardrails).None? <==>
      forall n :: 0 <= n < |guardrails| ==> !TooSlow(guardrails[n], rows)
    ensures forall n: nat :: FirstTooSlow(task, guardrails, rows, n) ==>
      FirstMissed(task, rows, guardrails) == Some(guardrails[n].workload)
    ensures FirstMissed(task, rows, guardrails).Some? ==>
      exists n: nat :: FirstTooSlow(task, guardrails, rows, n)
  {
    if guardrails != [] {
      var rest := guardrails[1..];
      HoldsExactly(guardrails[0], task, rows);
      FirstMissedExactly(task, rows, rest);
      forall n: nat | FirstTooSlow(task, guardrails, rows, n) && n > 0 ensures FirstTooSlow(task, rest, rows, n - 1) {
        assert forall m :: 0 <= m < n - 1 ==> rest[m] == guardrails[m + 1];
      }
      if TooSlow(guardrails[0], rows) {
        assert FirstTooSlow(task, guardrails, rows, 0);
      } else if n: nat :| FirstTooSlow(task, rest, rows, n) {
        assert forall m :: 0 < m < n + 1 ==> guardrails[m] == rest[m - 1];
        assert FirstTooSlow(task, guardrails, rows, n + 1);
      }
    }
  }

  /** The run is considered, and no earlier considered run has its fingerprint. */
  ghost predicate Measured(history: seq<Entry>, i: nat)
    requires i < |history|
  {
    && Considered(history[i].result)
    && forall k, j: nat :: CompilerOf(history[i].result.fingerprints) == Some(k) ==> !FirstWith(history[..i], k, j)
  }

  lemma MeasuredVerdict(task: Task, history: seq<Entry>, i: nat)
    requires History(task, history) && i < |history|
    ensures Measured(history, i) <==>
      (var v := VerdictAt(task, history, i); Compared(v) || v.RegressesGuardrail?)
    ensures Measured(history, i) ==>
      && Readable(task, history[i].result.rows)
      && VerdictAt(task, history, i) ==
           var missed := FirstMissed(task, history[i].result.rows, task.guardrails);
           if missed.Some? then RegressesGuardrail(missed.value)
           else Compare(task, Cells(task, history[..i]), history[i].result.rows)
  {
    var compiler := CompilerOf(history[i].result.fingerprints);
    if compiler.Some? { SeenExactly(task, history[..i], compiler.value); }
  }

  /** A measured run regresses a guardrail exactly if it is too slow for one, and the first of them in the
      order of the task is named; otherwise it is compared with the cells. */
  lemma GuardrailExactly(task: Task, history: seq<Entry>, i: nat)
    requires History(task, history) && i < |history|
    ensures
      var v, rows := VerdictAt(task, history, i), history[i].result.rows;
      && (v.RegressesGuardrail? <==>
            (&& Measured(history, i) && Readable(task, rows)
             && exists n: nat :: FirstTooSlow(task, task.guardrails, rows, n)))
      && (Compared(v) <==>
            (&& Measured(history, i) && Readable(task, rows)
             && forall n :: 0 <= n < |task.guardrails| ==> !TooSlow(task.guardrails[n], rows)))
      && (v.RegressesGuardrail? ==>
            exists n: nat :: FirstTooSlow(task, task.guardrails, rows, n) && v.workload == task.guardrails[n].workload)
  {
    MeasuredVerdict(task, history, i);
    if Measured(history, i) {
      FirstMissedExactly(task, history[i].result.rows, task.guardrails);
    }
  }

  // ---------------------------------------------------------------- comparison with the cells

  /** The elements of `s` with `p`, in order. */
  function Those<T>(s: seq<T>, p: T -> bool): seq<T> {
    if s == [] then [] else (if p(s[0]) then [s[0]] else []) + Those(s[1..], p)
  }

  lemma {:induction false} ThoseOneMore<T>(s: seq<T>, x: T, p: T -> bool)
    ensures Those(s + [x], p) == Those(s, p) + if p(x) then [x] else []
  {
    if s == [] {
      assert [] + [x] == [x] && [x][1..] == [];
    } else {
      ThoseOneMore(s[1..], x, p);
      assert (s + [x])[1..] == s[1..] + [x];
    }
  }

  /** More than the noise floor faster than the cell. */
  ghost function Faster(task: Task, cells: Table, e: Entry): Text -> bool {
    w => w in cells && TimeOf(e, w) < (1.0 - task.noise) * cells[w].candidateMs
  }

  /** More than the noise floor slower than the cell. */
  ghost function Slower(task: Task, cells: Table, e: Entry): Text -> bool {
    w => w in cells && TimeOf(e, w) > (1.0 + task.noise) * cells[w].candidateMs
  }

  lemma NotBoth(noise: real, cell: real, time: real)
    requires 0.0 <= noise < 1.0 && cell > 0.0
    ensures !(time < (1.0 - noise) * cell && time > (1.0 + noise) * cell)
  {
    assert (1.0 + noise) * cell - (1.0 - noise) * cell == 2.0 * noise * cell;
    assert noise * cell >= 0.0;
  }

  lemma DeviationExactly(task: Task, cells: Table, e: Entry, w: Text)
    requires ValidTask(task) && Readable(task, e.result.rows) && w in task.workloads
    requires w in cells && cells[w].candidateMs > 0.0
    ensures Improves(task, cells, e.result.rows, w) <==> Faster(task, cells, e)(w)
    ensures Regresses(task, cells, e.result.rows, w) <==> Slower(task, cells, e)(w)
  {
    NotBoth(task.noise, cells[w].candidateMs, TimeOf(e, w));
  }

  lemma {:induction false} DeviationsExactly(task: Task, cells: Table, e: Entry, ws: seq<Text>)
    requires ValidTask(task) && Readable(task, e.result.rows)
    requires forall w :: w in ws ==> w in task.workloads && w in cells && cells[w].candidateMs > 0.0
    ensures Improved(task, cells, e.result.rows, ws) == Those(ws, Faster(task, cells, e))
    ensures Regressed(task, cells, e.result.rows, ws) == Those(ws, Slower(task, cells, e))
  {
    if ws != [] {
      var init, last := ws[..|ws| - 1], ws[|ws| - 1];
      assert ws == init + [last] && last in ws;
      DeviationsExactly(task, cells, e, init);
      DeviationExactly(task, cells, e, last);
      ThoseOneMore(init, last, Faster(task, cells, e));
      ThoseOneMore(init, last, Slower(task, cells, e));
    }
  }

  lemma CellsArePositive(task: Task, history: seq<Entry>, n: nat)
    requires History(task, history) && n <= |history| && Cells(task, history[..n]) != map[]
    ensures Covers(task, Cells(task, history[..n]))
    ensures forall w :: w in Cells(task, history[..n]) ==> Cells(task, history[..n])[w].candidateMs > 0.0
  {
    var t := TraceOf(task, history);
    TraceCovers(task, t, n);
  }

  lemma {:induction false} ThoseExist<T>(s: seq<T>, p: T -> bool)
    ensures forall x :: x in Those(s, p) <==> x in s && p(x)
  {
    if s != [] {
      ThoseExist(s[1..], p);
      assert s == [s[0]] + s[1..];
    }
  }

  /** A compared run is the first valid one exactly if there are no cells yet. Otherwise it is accepted exactly
      if it beats the cell of some primary workload by more than the noise floor, and dominated if it beats
      none; the verdict names exactly the primaries it beats, and exactly those it is slower on by more than
      the noise floor, in the order of the task. */
  lemma ComparisonExactly(task: Task, history: seq<Entry>, i: nat)
    requires History(task, history) && i < |history| && Compared(VerdictAt(task, history, i))
    ensures
      var v, cells := VerdictAt(task, history, i), Cells(task, history[..i]);
      var faster := Those(task.primary, Faster(task, cells, history[i]));
      var slower := Those(task.primary, Slower(task, cells, history[i]));
      && (v.FirstValid? <==> cells == map[])
      && (cells != map[] ==>
            && Covers(task, cells)
            && (v.Dominated? <==> forall w :: w in task.primary ==> !Faster(task, cells, history[i])(w))
            && (Accepted(v) <==> exists w :: w in task.primary && Faster(task, cells, history[i])(w))
            && (v.ImprovesPrimary? ==> v.improved == faster && slower == [])
            && (v.PerCellPareto? ==> v.improved == faster && v.regressed == slower && slower != []))
  {
    MeasuredVerdict(task, history, i);
    var cells := Cells(task, history[..i]);
    if cells != map[] {
      CellsArePositive(task, history, i);
      DeviationsExactly(task, cells, history[i], task.primary);
      ThoseExist(task.primary, Faster(task, cells, history[i]));
      SomeOrNone(Those(task.primary, Faster(task, cells, history[i])));
    }
  }

  lemma SomeOrNone<T>(s: seq<T>)
    ensures s != [] <==> exists x :: x in s
  {
    if s != [] { assert s[0] in s; }
  }

  lemma FasterMeans(task: Task, cells: Table, e: Entry, w: Text)
    requires Faster(task, cells, e)(w)
    ensures w in cells && TimeOf(e, w) < (1.0 - task.noise) * cells[w].candidateMs
  {
  }

  lemma SomeFaster(task: Task, history: seq<Entry>, i: nat, v: Verdict, cells: Table) returns (w: Text)
    requires History(task, history) && i < |history| && Accepted(v) && cells != map[]
    requires v == VerdictAt(task, history, i) && cells == Cells(task, history[..i])
    ensures w in task.primary && Faster(task, cells, history[i])(w)
  {
    ComparisonExactly(task, history, i);
    w :| w in task.primary && Faster(task, cells, history[i])(w);
  }

  /** So every accepted run but the first beats some cell by more than the noise floor. */
  lemma AcceptedBeatsNoise(task: Task, history: seq<Entry>, i: nat) returns (w: Text)
    requires History(task, history) && i < |history| && Accepted(VerdictAt(task, history, i))
    requires Cells(task, history[..i]) != map[]
    ensures w in task.primary && w in Cells(task, history[..i])
    ensures TimeOf(history[i], w) < (1.0 - task.noise) * Cells(task, history[..i])[w].candidateMs
  {
    w := SomeFaster(task, history, i, VerdictAt(task, history, i), Cells(task, history[..i]));
    FasterMeans(task, Cells(task, history[..i]), history[i], w);
  }

  // ---------------------------------------------------------------- cells and ledger

  /** The cell holds the id and the times of the run, and their quotient. */
  predicate Records(cell: Cell, e: Entry, w: Text) {
    && cell.runId == e.runId && w in e.result.rows
    && e.result.rows[w].candidateMs == Some(cell.candidateMs) && e.result.rows[w].baselineMs == Some(cell.baselineMs)
    && cell.candidateMs > 0.0 && cell.speedup * cell.candidateMs == cell.baselineMs
  }

  lemma CellOfRecords(task: Task, e: Entry, w: Text)
    requires Readable(task, e.result.rows) && w in e.result.rows
    ensures Records(CellOf(e.runId, e.result.rows[w]), e, w)
  {
  }

  /** Every cell records an accepted run. */
  lemma CellRecordsRun(task: Task, history: seq<Entry>, w: Text) returns (i: nat)
    requires History(task, history) && w in Cells(task, history)
    ensures i < |history| && Accepted(VerdictAt(task, history, i)) && Records(Cells(task, history)[w], history[i], w)
  {
    var t;
    t, i := CellIsEarliestMinimum(task, history, w);
    assert t.verdicts[i] == VerdictAt(task, history, i);
    assert Readable(task, history[i].result.rows) && w in history[i].result.rows;
    CellOfRecords(task, history[i], w);
  }

  /** The history holds, in the order of the ledger, the runs of this task digest whose result can be read. */
  lemma {:induction false} CandidatesExactly(task: Task, ledger: seq<LedgerRow>, more: seq<LedgerRow>)
    ensures Candidates(task, ledger + more) == Candidates(task, ledger) + Candidates(task, more)
    ensures forall e :: e in Candidates(task, ledger) <==>
      exists i :: 0 <= i < |ledger| && ledger[i] == LedgerRow(e.runId, task.digest, Some(e.result))
    decreases |ledger| + |more|
  {
    if more != [] {
      var n := |more| - 1;
      CandidatesExactly(task, ledger, more[..n]);
      assert (ledger + more)[..|ledger + more| - 1] == ledger + more[..n];
    } else {
      assert ledger + more == ledger;
      if ledger != [] {
        var n := |ledger| - 1;
        CandidatesExactly(task, ledger[..n], []);
        assert ledger == ledger[..n] + [ledger[n]];
      }
    }
  }
}
