/** What a run does that enters the middle of the history: the ledger is ordered by acceptance, and runs
    finish in another order. */
module FrontierInsertion {
  import opened Wrappers
  import opened Texts
  import opened Contracts
  import opened Results
  import opened Frontier
  import opened FrontierTheorems
  import FrontierDeletion

  /** A cell is at most `ms` exactly if some accepted run is. */
  lemma CellAtMostExactly(task: Task, history: seq<Entry>, w: Text, ms: real)
    requires History(task, history) && w in task.workloads
    ensures (w in Cells(task, history) && Cells(task, history)[w].candidateMs <= ms) <==>
      exists j :: 0 <= j < |history| && Accepted(VerdictAt(task, history, j)) && TimeOf(history[j], w) <= ms
  {
    if w in Cells(task, history) && Cells(task, history)[w].candidateMs <= ms {
      var t, i := CellIsEarliestMinimum(task, history, w);
      assert Accepted(VerdictAt(task, history, i)) && TimeOf(history[i], w) <= ms;
    }
    if j :| 0 <= j < |history| && Accepted(VerdictAt(task, history, j)) && TimeOf(history[j], w) <= ms {
      AcceptedBoundsCell(task, history, j, w);
    }
  }

  lemma AcceptedBoundsCell(task: Task, history: seq<Entry>, j: nat, w: Text)
    requires History(task, history) && w in task.workloads
    requires j < |history| && Accepted(VerdictAt(task, history, j))
    ensures w in Cells(task, history) && Cells(task, history)[w].candidateMs <= TimeOf(history[j], w)
  {
    var t := TraceEnds(task, history);
    assert Legal(task, t.cells[j], history[j], t.verdicts[j], t.cells[j + 1]);
    TraceNeverRises(task, t, j + 1, |history|, w);
  }

  /** The accepted run that a cell shows. */
  ghost predicate Shows(task: Task, history: seq<Entry>, w: Text, i: nat)
    requires History(task, history) && w in Cells(task, history)
  {
    && i < |history| && Accepted(VerdictAt(task, history, i))
    && TimeOf(history[i], w) == Cells(task, history)[w].candidateMs
    && forall j :: 0 <= j < i && Accepted(VerdictAt(task, history, j)) ==> TimeOf(history[j], w) > TimeOf(history[i], w)
  }

  lemma CellShows(task: Task, history: seq<Entry>, w: Text) returns (i: nat)
    requires History(task, history) && w in Cells(task, history)
    ensures w in task.workloads && Shows(task, history, w, i)
  {
    var t;
    t, i := CellIsEarliestMinimum(task, history, w);
    forall j | 0 <= j < i && Accepted(VerdictAt(task, history, j))
      ensures TimeOf(history[j], w) > TimeOf(history[i], w)
    {
      assert Accepted(t.verdicts[j]);
    }
  }

  lemma EarlierVerdictsStay(task: Task, before: seq<Entry>, a: seq<Entry>, b: seq<Entry>, j: nat)
    requires History(task, before + a) && History(task, before + b) && j < |before|
    ensures VerdictAt(task, before + a, j) == VerdictAt(task, before + b, j)
  {
    assert (before + a)[..j] == before[..j] && (before + b)[..j] == before[..j];
  }

  ghost predicate KeepsCell(task: Task, old': seq<Entry>, new': seq<Entry>, w: Text)
    requires History(task, old') && History(task, new') && w in Cells(task, old')
  {
    w in Cells(task, new') && Cells(task, new')[w].candidateMs <= Cells(task, old')[w].candidateMs
  }

  /** The new run, or one after it, is accepted now and at least as fast. */
  ghost predicate Matched(task: Task, new': seq<Entry>, from: nat, w: Text, ms: real)
    requires History(task, new')
  {
    exists j :: from <= j < |new'| && Accepted(VerdictAt(task, new', j)) && TimeOf(new'[j], w) <= ms
  }

  /** A cell neither rises nor vanishes when a run is inserted if and only if the run it shows was accepted
      before the new one, or the new run or one after it is accepted now and at least as fast. */
  lemma InsertionKeepsCellExactly(task: Task, before: seq<Entry>, e: Entry, later: seq<Entry>, w: Text)
    returns (i: nat)
    requires History(task, before + later) && History(task, before + ([e] + later))
    requires w in Cells(task, before + later)
    ensures Shows(task, before + later, w, i)
    ensures KeepsCell(task, before + later, before + ([e] + later), w) <==>
      (i < |before| || Matched(task, before + ([e] + later), |before|, w, Cells(task, before + later)[w].candidateMs))
  {
    var old', new' := before + later, before + ([e] + later);
    i := CellShows(task, old', w);
    var ms := Cells(task, old')[w].candidateMs;
    CellAtMostExactly(task, new', w, ms);
    if i < |before| {
      EarlierVerdictsStay(task, before, later, [e] + later, i);
      assert new'[i] == old'[i];
    } else {
      forall j | 0 <= j < |before| && Accepted(VerdictAt(task, new', j)) ensures TimeOf(new'[j], w) > ms {
        EarlierVerdictsStay(task, before, later, [e] + later, j);
        assert new'[j] == old'[j];
      }
    }
  }

  // ---------------------------------------------------------------- an example

  function TwoWorkloads(): Task { Task([2], [3], [[1], [2]], [[1]], [], 0.0, [Stage([4], Local, None, false)]) }

  function Timed2(first: real, second: real): RunResult {
    RunResult(Completed, Valid, true, None, [],
      map[[1] := Row([1], Some(first), Some(1.0), None), [2] := Row([2], Some(second), Some(1.0), None)],
      Fingerprints(None, None, None))
  }

  lemma Timed2IsReadable(first: real, second: real)
    requires first > 0.0 && second > 0.0
    ensures ValidTask(TwoWorkloads()) && Readable(TwoWorkloads(), Timed2(first, second).rows)
    ensures Judge(TwoWorkloads(), State(map[], map[]), Timed2(first, second)) == FirstValid
  {
  }

  lemma SlowerIsDominated(state: State, first: real, second: real)
    requires first > 0.0 && second > 0.0 && [1] in state.cells && state.cells[[1]].candidateMs <= first
    ensures ValidTask(TwoWorkloads()) && Readable(TwoWorkloads(), Timed2(first, second).rows)
    ensures Judge(TwoWorkloads(), state, Timed2(first, second)) == Dominated
  {
    var task, rows := TwoWorkloads(), Timed2(first, second).rows;
    Timed2IsReadable(first, second);
    assert task.primary == [[1]] && task.primary[..0] == [];
    assert !Improves(task, state.cells, rows, [1]);
    assert Improved(task, state.cells, rows, []) == [];
  }

  lemma AbsorbedFirst(runId: Text, first: real, second: real)
    requires first > 0.0 && second > 0.0
    ensures
      ValidTask(TwoWorkloads()) && Readable(TwoWorkloads(), Timed2(first, second).rows)
    ensures
      var cells := Next(TwoWorkloads(), State(map[], map[]), Entry(runId, Timed2(first, second))).cells;
      && [1] in cells && cells[[1]].candidateMs == first
      && [2] in cells && cells[[2]].candidateMs == second
  {
    Timed2IsReadable(first, second);
  }

  lemma FirstAlone(task: Task, e: Entry)
    requires ValidTask(task) && Readable(task, e.result.rows)
    ensures History(task, [e]) && Reduce(task, [e]) == Next(task, State(map[], map[]), e)
  {
    assert [e][..0] == [];
  }

  lemma DominatedSecond(task: Task, e: Entry, f: Entry)
    requires ValidTask(task) && Readable(task, e.result.rows) && Readable(task, f.result.rows)
    requires Judge(task, Next(task, State(map[], map[]), e), f.result) == Dominated
    ensures History(task, [e, f]) && Cells(task, [e, f]) == Next(task, State(map[], map[]), e).cells
  {
    FirstAlone(task, e);
    assert [e, f][..1] == [e];
    assert Reduce(task, [e, f]) == Next(task, Reduce(task, [e]), f);
  }

  /** A faster run on the primary workload, accepted earlier but finished later, makes the run that held the
      other cell a dominated one: that cell rises. */
  lemma InsertionCanRaise(a: Text, b: Text)
    ensures
      var task, e, f := TwoWorkloads(), Entry(a, Timed2(1.0, 5.0)), Entry(b, Timed2(2.0, 1.0));
      && History(task, [f]) && History(task, [e, f])
      && [2] in Cells(task, [f]) && Cells(task, [f])[[2]].candidateMs == 1.0
      && [2] in Cells(task, [e, f]) && Cells(task, [e, f])[[2]].candidateMs == 5.0
  {
    var task, start := TwoWorkloads(), State(map[], map[]);
    var e, f := Entry(a, Timed2(1.0, 5.0)), Entry(b, Timed2(2.0, 1.0));
    AbsorbedFirst(a, 1.0, 5.0);
    AbsorbedFirst(b, 2.0, 1.0);
    SlowerIsDominated(Next(task, start, e), 2.0, 1.0);
    FirstAlone(task, f);
    DominatedSecond(task, e, f);
  }
}
