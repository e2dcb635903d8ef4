/** What the frontier guarantees, for every history of runs.

    The proofs go over traces: the verdicts and the cells after each run, related step by step by
    `Legal`. `TraceOf` shows that the reducer produces such a trace. */
module FrontierTheorems {
  import opened Texts
  import opened Contracts
  import opened Results
  import opened Frontier

  type Table = map<Text, Cell>

  datatype Trace = Trace(history: seq<Entry>, verdicts: seq<Verdict>, cells: seq<Table>)

  ghost predicate History(task: Task, history: seq<Entry>) {
    ValidTask(task) && ReadableHistory(task, history)
  }

  ghost predicate MeetsGuardrails(task: Task, rows: map<Text, Row>)
    requires ValidTask(task) && Readable(task, rows)
  {
    forall g :: g in task.guardrails ==> Holds(g, task, rows)
  }

  /** How one verdict may change the cells. */
  ghost predicate Legal(task: Task, cells: Table, e: Entry, v: Verdict, after: Table)
    requires ValidTask(task)
  {
    var rows := e.result.rows;
    && (Compared(v) ==> Readable(task, rows) && MeetsGuardrails(task, rows))
    && (Accepted(v) ==> after == Absorb(task, cells, e.runId, rows))
    && (!Accepted(v) ==> after == cells)
    && (v.Dominated? ==> cells != map[] && forall w :: w in task.primary ==> !Improves(task, cells, rows, w))
  }

  ghost predicate IsTrace(task: Task, t: Trace)
    requires ValidTask(task)
  {
    && |t.verdicts| == |t.history| && |t.cells| == |t.history| + 1
    && t.cells[0] == map[]
    && forall i :: 0 <= i < |t.history| ==> Legal(task, t.cells[i], t.history[i], t.verdicts[i], t.cells[i + 1])
  }

  lemma {:induction false} NoneMissed(task: Task, rows: map<Text, Row>, guardrails: seq<Guardrail>)
    requires Readable(task, rows) && forall g :: g in guardrails ==> g.workload in task.workloads
    ensures FirstMissed(task, rows, guardrails).None? <==> forall g :: g in guardrails ==> Holds(g, task, rows)
  {
    if guardrails != [] {
      NoneMissed(task, rows, guardrails[1..]);
      assert guardrails == [guardrails[0]] + guardrails[1..];
    }
  }

  lemma StepIsLegal(task: Task, state: State, e: Entry)
    requires ValidTask(task) && (e.result.eligible ==> Readable(task, e.result.rows))
    ensures Legal(task, state.cells, e, Judge(task, state, e.result), Next(task, state, e).cells)
  {
    var v := Judge(task, state, e.result);
    if Compared(v) {
      NoneMissed(task, e.result.rows, task.guardrails);
    }
    if v.Dominated? {
      forall w | w in task.primary ensures !Improves(task, state.cells, e.result.rows, w) {
        assert w !in Improved(task, state.cells, e.result.rows, task.primary);
      }
    }
  }

  /** The trace of the reducer on a history. */
  lemma TraceOf(task: Task, history: seq<Entry>) returns (t: Trace)
    requires History(task, history)
    ensures t.history == history && IsTrace(task, t)
    ensures forall i :: 0 <= i < |history| ==> t.verdicts[i] == VerdictAt(task, history, i)
    ensures forall i :: 0 <= i <= |history| ==> t.cells[i] == Reduce(task, history[..i]).cells
  {
    t := Trace(history,
      seq(|history|, i requires 0 <= i < |history| => VerdictAt(task, history, i)),
      seq(|history| + 1, i requires 0 <= i <= |history| => Reduce(task, history[..i]).cells));
    forall i | 0 <= i < |history| ensures Legal(task, t.cells[i], history[i], t.verdicts[i], t.cells[i + 1]) {
      assert history[..i + 1][..i] == history[..i];
      StepIsLegal(task, Reduce(task, history[..i]), history[i]);
    }
  }

  // ---------------------------------------------------------------- along a trace

  /** The candidate time of a readable run (0 where there is none). */
  ghost function TimeOf(e: Entry, w: Text): real {
    if w in e.result.rows && e.result.rows[w].candidateMs.Some? then e.result.rows[w].candidateMs.value else 0.0
  }

  ghost predicate Covers(task: Task, cells: Table) { forall w :: w in cells <==> w in task.workloads }

  lemma {:induction false} TraceCovers(task: Task, t: Trace, n: nat)
    requires ValidTask(task) && IsTrace(task, t) && n <= |t.history|
    ensures t.cells[n] != map[] ==> Covers(task, t.cells[n])
    ensures t.cells[n] != map[] <==> exists i :: 0 <= i < n && Accepted(t.verdicts[i])
    ensures forall w :: w in t.cells[n] ==> t.cells[n][w].candidateMs > 0.0
  {
    if n > 0 {
      TraceCovers(task, t, n - 1);
      assert Legal(task, t.cells[n - 1], t.history[n - 1], t.verdicts[n - 1], t.cells[n]);
      if Accepted(t.verdicts[n - 1]) {
        assert task.workloads[0] in t.cells[n];
      }
    }
  }

  lemma {:induction false} TraceNeverRises(task: Task, t: Trace, i: nat, n: nat, w: Text)
    requires ValidTask(task) && IsTrace(task, t) && i <= n <= |t.history| && w in t.cells[i]
    ensures w in t.cells[n] && t.cells[n][w].candidateMs <= t.cells[i][w].candidateMs
    decreases n
  {
    if i < n {
      TraceNeverRises(task, t, i, n - 1, w);
      assert Legal(task, t.cells[n - 1], t.history[n - 1], t.verdicts[n - 1], t.cells[n]);
    }
  }

  lemma WithinNoise(noise: real, final: real, after: real, time: real)
    requires 0.0 <= noise < 1.0 && 0.0 <= final <= after
    requires time >= after || time >= after * (1.0 - noise)
    ensures time >= (1.0 - noise) * final
  {
    var keep := 1.0 - noise;
    assert keep * final <= keep * after;
    assert keep * after <= 1.0 * after;
  }

  lemma AfterItsTurn(task: Task, t: Trace, i: nat, w: Text)
    requires ValidTask(task) && IsTrace(task, t) && i < |t.history| && Compared(t.verdicts[i]) && w in task.primary
    ensures Readable(task, t.history[i].result.rows) && w in t.cells[i + 1]
    ensures
      var time, after := TimeOf(t.history[i], w), t.cells[i + 1][w].candidateMs;
      time >= after || time >= after * (1.0 - task.noise)
  {
    TraceCovers(task, t, i);
    assert Legal(task, t.cells[i], t.history[i], t.verdicts[i], t.cells[i + 1]);
    if t.verdicts[i].Dominated? {
      assert !Improves(task, t.cells[i], t.history[i].result.rows, w);
    }
  }

  lemma TraceNearOptimal(task: Task, t: Trace, i: nat, w: Text)
    requires ValidTask(task) && IsTrace(task, t) && i < |t.history| && Compared(t.verdicts[i]) && w in task.primary
    ensures Readable(task, t.history[i].result.rows) && w in t.cells[|t.history|]
    ensures TimeOf(t.history[i], w) >= (1.0 - task.noise) * t.cells[|t.history|][w].candidateMs
  {
    var n := |t.history|;
    AfterItsTurn(task, t, i, w);
    TraceNeverRises(task, t, i + 1, n, w);
    TraceCovers(task, t, n);
    WithinNoise(
      task.noise, t.cells[n][w].candidateMs, t.cells[i + 1][w].candidateMs, TimeOf(t.history[i], w));
  }

  /** Run `i` is the first accepted run with the smallest time for `w`, and the cell is its own. */
  ghost predicate FirstMinimum(task: Task, t: Trace, n: nat, w: Text, i: nat)
    requires ValidTask(task) && IsTrace(task, t) && i < n <= |t.history| && w in task.workloads
  {
    && Accepted(t.verdicts[i]) && Readable(task, t.history[i].result.rows)
    && w in t.cells[n] && t.cells[n][w] == CellOf(t.history[i].runId, t.history[i].result.rows[w])
    && forall j :: 0 <= j < n && Accepted(t.verdicts[j]) ==>
      && TimeOf(t.history[j], w) >= TimeOf(t.history[i], w)
      && (j < i ==> TimeOf(t.history[j], w) > TimeOf(t.history[i], w))
  }

  lemma {:induction false} TraceFirstMinimum(task: Task, t: Trace, n: nat, w: Text) returns (i: nat)
    requires ValidTask(task) && IsTrace(task, t) && n <= |t.history| && w in t.cells[n] && w in task.workloads
    ensures i < n && FirstMinimum(task, t, n, w, i)
    decreases n
  {
    var m := n - 1;
    assert Legal(task, t.cells[m], t.history[m], t.verdicts[m], t.cells[n]);
    TraceCovers(task, t, m);
    if w in t.cells[m] {
      i := TraceFirstMinimum(task, t, m, w);
      if Accepted(t.verdicts[m]) && TimeOf(t.history[m], w) < TimeOf(t.history[i], w) {
        i := m;
      }
    } else {
      i := m;
    }
  }

  // ---------------------------------------------------------------- theorems about the reducer

  ghost function Cells(task: Task, history: seq<Entry>): Table
    requires History(task, history)
  {
    Reduce(task, history).cells
  }

  /** Results that passed the aggregation gate are readable, so no lookup of the reducer can fail. */
  lemma SoundResultsAreReadable(task: Task, history: seq<Entry>)
    requires forall i :: 0 <= i < |history| ==> SoundResult(task, history[i].result)
    ensures ReadableHistory(task, history)
  {
    forall i | 0 <= i < |history| && history[i].result.eligible ensures Readable(task, history[i].result.rows) {
      assert SoundResult(task, history[i].result);
    }
  }

  lemma TraceEnds(task: Task, history: seq<Entry>) returns (t: Trace)
    requires History(task, history)
    ensures t.history == history && IsTrace(task, t) && t.cells[|history|] == Cells(task, history)
    ensures forall j :: 0 <= j < |history| ==> t.verdicts[j] == VerdictAt(task, history, j)
  {
    t := TraceOf(task, history);
    assert history[..|history|] == history;
  }

  lemma NearOptimalAtEnd(task: Task, t: Trace, i: nat, w: Text, final: Table)
    requires ValidTask(task) && IsTrace(task, t) && i < |t.history| && Compared(t.verdicts[i]) && w in task.primary
    requires final == t.cells[|t.history|]
    ensures Readable(task, t.history[i].result.rows) && w in final
    ensures TimeOf(t.history[i], w) >= (1.0 - task.noise) * final[w].candidateMs
  {
    TraceNearOptimal(task, t, i, w);
  }

  /** Near-optimality: no compared run of the whole history beats a final primary cell by more than
      the noise floor. */
  lemma FrontierIsNearOptimal(task: Task, history: seq<Entry>, i: nat, w: Text)
    requires History(task, history) && i < |history| && Compared(VerdictAt(task, history, i))
    requires w in task.primary
    ensures Readable(task, history[i].result.rows) && w in Cells(task, history)
    ensures TimeOf(history[i], w) >= (1.0 - task.noise) * Cells(task, history)[w].candidateMs
  {
    var t := TraceCompared(task, history, i);
    NearOptimalAtEnd(task, t, i, w, Cells(task, history));
  }

  lemma TraceCompared(task: Task, history: seq<Entry>, i: nat) returns (t: Trace)
    requires History(task, history) && i < |history| && Compared(VerdictAt(task, history, i))
    ensures t.history == history && IsTrace(task, t) && Compared(t.verdicts[i])
    ensures t.cells[|t.history|] == Cells(task, history)
  {
    t := TraceEnds(task, history);
  }

  /** After any prefix the cells are empty or cover exactly the workloads; they never rise from one
      prefix to a longer one. */
  lemma CellsOnlyImprove(task: Task, history: seq<Entry>, n: nat)
    requires History(task, history) && n <= |history|
    ensures Cells(task, history[..n]) != map[] ==> Covers(task, Cells(task, history[..n]))
    ensures forall w :: w in Cells(task, history[..n]) ==>
      w in Cells(task, history) && Cells(task, history)[w].candidateMs <= Cells(task, history[..n])[w].candidateMs
  {
    var t := TraceOf(task, history);
    TraceCovers(task, t, n);
    assert history[..|history|] == history;
    forall w | w in t.cells[n]
      ensures w in t.cells[|history|] && t.cells[|history|][w].candidateMs <= t.cells[n][w].candidateMs
    {
      TraceNeverRises(task, t, n, |history|, w);
    }
  }

  /** Every cell is the earliest minimum over the accepted runs, and records that run's numbers. */
  lemma CellIsEarliestMinimum(task: Task, history: seq<Entry>, w: Text) returns (t: Trace, i: nat)
    requires History(task, history) && w in Cells(task, history)
    ensures t.history == history && IsTrace(task, t) && w in task.workloads
    ensures t.cells[|history|] == Cells(task, history)
    ensures forall j :: 0 <= j < |history| ==> t.verdicts[j] == VerdictAt(task, history, j)
    ensures i < |history| && FirstMinimum(task, t, |history|, w, i)
  {
    t := TraceEnds(task, history);
    TraceCovers(task, t, |history|);
    i := TraceFirstMinimum(task, t, |history|, w);
  }

  /** Every guardrailed cell meets its threshold. */
  lemma GuardrailsHold(task: Task, history: seq<Entry>, g: Guardrail)
    requires History(task, history) && g in task.guardrails && Cells(task, history) != map[]
    ensures g.workload in Cells(task, history) && Cells(task, history)[g.workload].speedup >= g.minSpeedup
  {
    CellsOnlyImprove(task, history, |history|);
    assert history[..|history|] == history;
    var t, i := CellIsEarliestMinimum(task, history, g.workload);
    assert Legal(task, t.cells[i], history[i], t.verdicts[i], t.cells[i + 1]);
    assert Holds(g, task, history[i].result.rows);
  }

  /** Run `i` was compared and is a fastest compared run on `w`. */
  ghost predicate FastestCompared(t: Trace, w: Text, i: nat) {
    && i < |t.verdicts| == |t.history| && Compared(t.verdicts[i])
    && forall j :: 0 <= j < |t.history| && Compared(t.verdicts[j]) ==>
      TimeOf(t.history[j], w) >= TimeOf(t.history[i], w)
  }

  lemma TraceZeroNoise(task: Task, t: Trace, w: Text, i: nat)
    requires ValidTask(task) && IsTrace(task, t) && task.noise == 0.0 && w in task.primary
    requires i < |t.history| && FirstMinimum(task, t, |t.history|, w, i)
    ensures FastestCompared(t, w, i)
  {
    forall j | 0 <= j < |t.history| && Compared(t.verdicts[j])
      ensures TimeOf(t.history[j], w) >= TimeOf(t.history[i], w)
    {
      TraceNearOptimal(task, t, j, w);
    }
  }

  /** With a zero noise floor, a primary cell is the exact minimum over all compared runs. */
  lemma ZeroNoiseIsExact(task: Task, history: seq<Entry>, w: Text) returns (t: Trace, i: nat)
    requires History(task, history) && task.noise == 0.0 && w in task.primary && w in Cells(task, history)
    ensures t.history == history && |t.verdicts| == |history|
    ensures forall j :: 0 <= j < |history| ==> t.verdicts[j] == VerdictAt(task, history, j)
    ensures FastestCompared(t, w, i) && Cells(task, history)[w].candidateMs == TimeOf(history[i], w)
  {
    t, i := CellIsEarliestMinimum(task, history, w);
    TraceZeroNoise(task, t, w, i);
  }

  // ---------------------------------------------------------------- compaction

  /** The accepted runs alone, in order. */
  ghost function Kept(task: Task, history: seq<Entry>): (kept: seq<Entry>)
    requires History(task, history)
    ensures ReadableHistory(task, kept)
  {
    if history == [] then [] else
      var n := |history| - 1;
      Kept(task, history[..n])
      + if Accepted(Judge(task, Reduce(task, history[..n]), history[n].result)) then [history[n]] else []
  }

  /** The accept decisions, in order. */
  ghost function Decisions(task: Task, history: seq<Entry>): seq<Verdict>
    requires ValidTask(task) && ReadableHistory(task, history)
  {
    if history == [] then [] else
      var n := |history| - 1;
      var v := Judge(task, Reduce(task, history[..n]), history[n].result);
      Decisions(task, history[..n]) + if Accepted(v) then [v] else []
  }

  ghost predicate Compacts(compact: State, full: State) {
    && compact.cells == full.cells
    && forall k :: k in compact.seen ==> k in full.seen && full.seen[k] == compact.seen[k]
  }

  lemma RejectedStep(task: Task, compact: State, full: State, e: Entry)
    requires ValidTask(task) && (e.result.eligible ==> Readable(task, e.result.rows))
    requires Compacts(compact, full) && !Accepted(Judge(task, full, e.result))
    ensures Compacts(compact, Next(task, full, e))
  {
  }

  lemma AcceptedStep(task: Task, compact: State, full: State, e: Entry)
    requires ValidTask(task) && (e.result.eligible ==> Readable(task, e.result.rows))
    requires Compacts(compact, full) && Accepted(Judge(task, full, e.result))
    ensures Judge(task, compact, e.result) == Judge(task, full, e.result)
    ensures Compacts(Next(task, compact, e), Next(task, full, e))
  {
  }

  lemma KeptStep(task: Task, history: seq<Entry>)
    requires History(task, history) && history != []
    ensures
      var n := |history| - 1;
      var before, kept := Kept(task, history[..n]), Kept(task, history);
      if Accepted(Judge(task, Reduce(task, history[..n]), history[n].result)) then
        kept == before + [history[n]] && kept[..|kept| - 1] == before
      else kept == before
  {
  }

  /** Replaying only the accepted runs gives the same cells, and every kept run is accepted again, for the
      same reason, so compacting twice changes nothing. This is a statement about dropping all other runs
      together: a single dominated or guardrail-failing run can matter to later ones by its fingerprint. */
  lemma {:induction false} CompactionPreservesFrontier(task: Task, history: seq<Entry>)
    requires History(task, history)
    ensures Compacts(Reduce(task, Kept(task, history)), Reduce(task, history))
    ensures Kept(task, Kept(task, history)) == Kept(task, history)
    ensures Decisions(task, Kept(task, history)) == Decisions(task, history)
  {
    if history != [] {
      var n := |history| - 1;
      CompactionPreservesFrontier(task, history[..n]);
      KeptStep(task, history);
      CompactionStep(task, Kept(task, history[..n]), Kept(task, history), Reduce(task, history[..n]), history[n]);
    }
  }

  lemma CompactionStep(task: Task, before: seq<Entry>, after: seq<Entry>, full: State, e: Entry)
    requires ValidTask(task) && ReadableHistory(task, before) && (e.result.eligible ==> Readable(task, e.result.rows))
    requires Compacts(Reduce(task, before), full) && Kept(task, before) == before
    requires after == if Accepted(Judge(task, full, e.result)) then before + [e] else before
    ensures ReadableHistory(task, after)
    ensures Compacts(Reduce(task, after), Next(task, full, e)) && Kept(task, after) == after
    ensures
      var v := Judge(task, full, e.result);
      Decisions(task, after) == Decisions(task, before) + if Accepted(v) then [v] else []
  {
    if Accepted(Judge(task, full, e.result)) {
      AcceptedStep(task, Reduce(task, before), full, e);
      KeptOneMore(task, before, e);
    } else {
      RejectedStep(task, Reduce(task, before), full, e);
    }
  }

  lemma KeptOneMore(task: Task, before: seq<Entry>, e: Entry)
    requires ValidTask(task) && ReadableHistory(task, before) && (e.result.eligible ==> Readable(task, e.result.rows))
    requires Accepted(Judge(task, Reduce(task, before), e.result)) && Kept(task, before) == before
    ensures ReadableHistory(task, before + [e]) && Kept(task, before + [e]) == before + [e]
    ensures Reduce(task, before + [e]) == Next(task, Reduce(task, before), e)
    ensures Decisions(task, before + [e]) == Decisions(task, before) + [Judge(task, Reduce(task, before), e.result)]
  {
    assert (before + [e])[..|before|] == before;
  }
}
