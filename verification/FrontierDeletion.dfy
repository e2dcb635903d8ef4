/** What dropping one rejected run from the history does to the decisions on the later ones. */
module FrontierDeletion {
  import opened Wrappers
  import opened Texts
  import opened Contracts
  import opened Results
  import opened Frontier

  /** The verdicts on `later` runs, from a state of the reducer. */
  ghost function Replay(task: Task, state: State, later: seq<Entry>): (verdicts: seq<Verdict>)
    requires ValidTask(task) && ReadableHistory(task, later)
    ensures |verdicts| == |later|
    decreases |later|
  {
    if later == [] then []
    else [Judge(task, state, later[0].result)] + Replay(task, Next(task, state, later[0]), later[1..])
  }

  lemma PartsAreReadable(task: Task, history: seq<Entry>, n: nat)
    requires ReadableHistory(task, history) && n <= |history|
    ensures ReadableHistory(task, history[..n]) && ReadableHistory(task, history[n..])
  {
  }

  lemma ReplaySplits(task: Task, history: seq<Entry>, n: nat)
    requires ValidTask(task) && ReadableHistory(task, history) && n < |history|
    requires ReadableHistory(task, history[..n]) && ReadableHistory(task, history[n..])
    requires ReadableHistory(task, history[..n + 1]) && ReadableHistory(task, history[n + 1..])
    ensures Replay(task, Reduce(task, history[..n]), history[n..])
         == [VerdictAt(task, history, n)] + Replay(task, Reduce(task, history[..n + 1]), history[n + 1..])
  {
    assert history[n..] == [history[n]] + history[n + 1..];
    ReplayFront(task, Reduce(task, history[..n]), history[n], history[n + 1..]);
    assert history[..n + 1] == history[..n] + [history[n]];
    ReduceOneMore(task, history[..n], history[n]);
  }

  ghost function ReplayFrom(task: Task, history: seq<Entry>, n: nat): seq<Verdict>
    requires ValidTask(task) && ReadableHistory(task, history) && n <= |history|
  {
    PartsAreReadable(task, history, n);
    Replay(task, Reduce(task, history[..n]), history[n..])
  }

  /** These are the verdicts of the whole history, from the `n`-th on. */
  lemma ReplayFromSplits(task: Task, history: seq<Entry>, n: nat)
    requires ValidTask(task) && ReadableHistory(task, history) && n < |history|
    ensures ReplayFrom(task, history, n) == [VerdictAt(task, history, n)] + ReplayFrom(task, history, n + 1)
  {
    PartsAreReadable(task, history, n);
    PartsAreReadable(task, history, n + 1);
    ReplaySplits(task, history, n);
  }

  lemma ReduceOneMore(task: Task, before: seq<Entry>, e: Entry)
    requires ValidTask(task) && ReadableHistory(task, before) && (e.result.eligible ==> Readable(task, e.result.rows))
    ensures ReadableHistory(task, before + [e])
    ensures Reduce(task, before + [e]) == Next(task, Reduce(task, before), e)
  {
    assert (before + [e])[..|before|] == before;
  }

  /** The same runs are accepted, each for the same reason. */
  predicate SameDecisions(vs: seq<Verdict>, ws: seq<Verdict>) {
    |vs| == |ws| && forall j :: 0 <= j < |vs| && (Accepted(vs[j]) || Accepted(ws[j])) ==> vs[j] == ws[j]
  }

  // ---------------------------------------------------------------- runs that leave no trace

  /** An unstable, ineligible or compiler-equivalent run leaves the state as it was, and so every later
      verdict. */
  lemma SkippedRunIsInert(task: Task, before: seq<Entry>, e: Entry, later: seq<Entry>)
    requires ValidTask(task) && ReadableHistory(task, before) && ReadableHistory(task, later)
    requires ReadableHistory(task, before + [e]) && (e.result.eligible ==> Readable(task, e.result.rows))
    requires
      var v := Judge(task, Reduce(task, before), e.result);
      v.MeasurementUnstable? || v.Ineligible? || v.CompilerEquivalent?
    ensures Reduce(task, before + [e]) == Reduce(task, before)
    ensures Replay(task, Reduce(task, before + [e]), later) == Replay(task, Reduce(task, before), later)
  {
    assert (before + [e])[..|before|] == before;
  }

  // ---------------------------------------------------------------- runs that leave a fingerprint

  /** A stable, eligible run with this fingerprint. */
  predicate Carries(e: Entry, k: Compiler) {
    && e.result.eligible
    && !(e.result.validity.Valid? && exists w :: w in e.result.rows && e.result.rows[w].stable == Some(false))
    && CompilerOf(e.result.fingerprints) == Some(k)
  }

  /** The first later run with this fingerprint, or the end. */
  function FirstCarrier(later: seq<Entry>, k: Compiler): (i: nat)
    ensures i <= |later| && (i < |later| ==> Carries(later[i], k))
    ensures forall j :: 0 <= j < i ==> !Carries(later[j], k)
  {
    if later == [] || Carries(later[0], k) then 0 else 1 + FirstCarrier(later[1..], k)
  }

  /** The same cells and fingerprints seen, perhaps from other runs. */
  ghost predicate Alike(s: State, t: State) { s.cells == t.cells && s.seen.Keys == t.seen.Keys }

  /** The second state has seen one fingerprint more. */
  ghost predicate HasSeen(s: State, t: State, k: Compiler) {
    s.cells == t.cells && k !in s.seen && t.seen.Keys == s.seen.Keys + {k}
  }

  predicate Agree(v: Verdict, w: Verdict) { Accepted(v) || Accepted(w) ==> v == w }

  lemma AlikeStep(task: Task, s: State, t: State, e: Entry)
    requires ValidTask(task) && (e.result.eligible ==> Readable(task, e.result.rows)) && Alike(s, t)
    ensures Agree(Judge(task, s, e.result), Judge(task, t, e.result)) && Alike(Next(task, s, e), Next(task, t, e))
  {
  }

  lemma OtherStep(task: Task, s: State, t: State, k: Compiler, e: Entry)
    requires ValidTask(task) && (e.result.eligible ==> Readable(task, e.result.rows))
    requires HasSeen(s, t, k) && !Carries(e, k)
    ensures Agree(Judge(task, s, e.result), Judge(task, t, e.result))
    ensures HasSeen(Next(task, s, e), Next(task, t, e), k)
  {
  }

  lemma CarrierStep(task: Task, s: State, t: State, k: Compiler, e: Entry)
    requires ValidTask(task) && (e.result.eligible ==> Readable(task, e.result.rows))
    requires HasSeen(s, t, k) && Carries(e, k)
    ensures Judge(task, t, e.result).CompilerEquivalent?
    ensures !Accepted(Judge(task, s, e.result)) ==> Alike(Next(task, s, e), Next(task, t, e))
  {
  }

  lemma SameDecisionsFront(v: Verdict, vs: seq<Verdict>, w: Verdict, ws: seq<Verdict>)
    requires |vs| == |ws|
    ensures SameDecisions([v] + vs, [w] + ws) <==> Agree(v, w) && SameDecisions(vs, ws)
  {
    var a, b := [v] + vs, [w] + ws;
    if SameDecisions(a, b) {
      assert a[0] == v && b[0] == w;
      forall j | 0 <= j < |vs| ensures Agree(vs[j], ws[j]) { assert a[j + 1] == vs[j] && b[j + 1] == ws[j]; }
    }
  }

  lemma {:induction false} AlikeReplay(task: Task, s: State, t: State, later: seq<Entry>)
    requires ValidTask(task) && ReadableHistory(task, later) && Alike(s, t)
    ensures SameDecisions(Replay(task, s, later), Replay(task, t, later))
    decreases |later|
  {
    if later != [] {
      var e, rest := later[0], later[1..];
      AlikeStep(task, s, t, e);
      AlikeReplay(task, Next(task, s, e), Next(task, t, e), rest);
      SameDecisionsFront(Judge(task, s, e.result), Replay(task, Next(task, s, e), rest),
        Judge(task, t, e.result), Replay(task, Next(task, t, e), rest));
    }
  }

  /** The condition of `HasSeenReplay`, on the verdicts where the fingerprint was not seen. */
  predicate CarrierRejected(verdicts: seq<Verdict>, later: seq<Entry>, k: Compiler)
    requires |verdicts| == |later|
  {
    var i := FirstCarrier(later, k);
    i == |later| || !Accepted(verdicts[i])
  }

  lemma CarrierRejectedFront(v: Verdict, vs: seq<Verdict>, e: Entry, rest: seq<Entry>, k: Compiler)
    requires |vs| == |rest|
    ensures CarrierRejected([v] + vs, [e] + rest, k) <==>
      if Carries(e, k) then !Accepted(v) else CarrierRejected(vs, rest, k)
  {
    assert ([e] + rest)[1..] == rest;
    if !Carries(e, k) {
      var i := FirstCarrier(rest, k);
      assert FirstCarrier([e] + rest, k) == i + 1;
      assert i < |vs| ==> ([v] + vs)[i + 1] == vs[i];
    }
  }

  lemma ReplayFront(task: Task, state: State, e: Entry, rest: seq<Entry>)
    requires ValidTask(task) && ReadableHistory(task, [e] + rest)
    ensures ReadableHistory(task, rest) && (e.result.eligible ==> Readable(task, e.result.rows))
    ensures Replay(task, state, [e] + rest)
         == [Judge(task, state, e.result)] + Replay(task, Next(task, state, e), rest)
  {
    var later := [e] + rest;
    assert later[0] == e && later[1..] == rest;
    forall i | 0 <= i < |rest| && rest[i].result.eligible ensures Readable(task, rest[i].result.rows) {
      assert later[i + 1] == rest[i];
    }
  }

  /** The later decisions are the same exactly if the first later carrier of the fingerprint is rejected
      where it was not seen, or there is none. */
  lemma {:induction false} HasSeenReplay(task: Task, s: State, t: State, k: Compiler, later: seq<Entry>)
    requires ValidTask(task) && ReadableHistory(task, later) && HasSeen(s, t, k)
    ensures SameDecisions(Replay(task, s, later), Replay(task, t, later)) <==>
      CarrierRejected(Replay(task, s, later), later, k)
    decreases |later|
  {
    if later != [] {
      var e, rest := later[0], later[1..];
      assert later == [e] + rest;
      ReplayFront(task, s, e, rest);
      ReplayFront(task, t, e, rest);
      var s', t' := Next(task, s, e), Next(task, t, e);
      if Carries(e, k) {
        CarrierStep(task, s, t, k, e);
        if !Accepted(Judge(task, s, e.result)) { AlikeReplay(task, s', t', rest); }
      } else {
        OtherStep(task, s, t, k, e);
        HasSeenReplay(task, s', t', k, rest);
      }
      SameDecisionsFront(Judge(task, s, e.result), Replay(task, s', rest),
        Judge(task, t, e.result), Replay(task, t', rest));
      CarrierRejectedFront(Judge(task, s, e.result), Replay(task, s', rest), e, rest, k);
    }
  }

  lemma RejectedLeavesFingerprint(task: Task, state: State, e: Entry)
    requires ValidTask(task) && (e.result.eligible ==> Readable(task, e.result.rows))
    requires var v := Judge(task, state, e.result); v.Dominated? || v.RegressesGuardrail?
    ensures
      var k := CompilerOf(e.result.fingerprints);
      if k.None? then Next(task, state, e) == state else HasSeen(state, Next(task, state, e), k.value)
  {
  }

  /** Dropping a dominated or guardrail-failing run leaves every later accept decision as it was if and
      only if it has no fingerprint, or the first later stable, eligible run with its fingerprint is itself
      rejected once it is dropped, or there is no such run. */
  lemma DroppingRejectedExactly(task: Task, before: seq<Entry>, e: Entry, later: seq<Entry>)
    requires ValidTask(task) && ReadableHistory(task, before) && ReadableHistory(task, later)
    requires ReadableHistory(task, before + [e]) && (e.result.eligible ==> Readable(task, e.result.rows))
    requires var v := Judge(task, Reduce(task, before), e.result); v.Dominated? || v.RegressesGuardrail?
    ensures
      var k := CompilerOf(e.result.fingerprints);
      var without, with := Replay(task, Reduce(task, before), later), Replay(task, Reduce(task, before + [e]), later);
      SameDecisions(without, with) <==>
        (k.None? || CarrierRejected(without, later, k.value))
  {
    assert (before + [e])[..|before|] == before;
    var k := CompilerOf(e.result.fingerprints);
    RejectedLeavesFingerprint(task, Reduce(task, before), e);
    if k.Some? {
      HasSeenReplay(task, Reduce(task, before), Reduce(task, before + [e]), k.value, later);
    }
  }

  // ---------------------------------------------------------------- decisions and cells

  ghost function ReduceFrom(task: Task, state: State, later: seq<Entry>): State
    requires ValidTask(task) && ReadableHistory(task, later)
    decreases |later|
  {
    if later == [] then state else ReduceFrom(task, Next(task, state, later[0]), later[1..])
  }

  lemma ReduceFromFront(task: Task, state: State, e: Entry, rest: seq<Entry>)
    requires ValidTask(task) && ReadableHistory(task, [e] + rest)
    ensures ReadableHistory(task, rest) && (e.result.eligible ==> Readable(task, e.result.rows))
    ensures ReduceFrom(task, state, [e] + rest) == ReduceFrom(task, Next(task, state, e), rest)
  {
    ReplayFront(task, state, e, rest);
    assert ([e] + rest)[0] == e && ([e] + rest)[1..] == rest;
  }

  lemma JoinedIsReadable(task: Task, before: seq<Entry>, later: seq<Entry>)
    requires ReadableHistory(task, before) && ReadableHistory(task, later)
    ensures ReadableHistory(task, before + later)
  {
  }

  lemma {:induction false} ReduceAppended(task: Task, before: seq<Entry>, later: seq<Entry>)
    requires ValidTask(task) && ReadableHistory(task, before) && ReadableHistory(task, later)
    ensures ReadableHistory(task, before + later)
    ensures Reduce(task, before + later) == ReduceFrom(task, Reduce(task, before), later)
    decreases |later|
  {
    JoinedIsReadable(task, before, later);
    if later == [] {
      assert before + later == before;
    } else {
      var e, rest := later[0], later[1..];
      assert later == [e] + rest && before + [e] + rest == before + later;
      ReduceFromFront(task, Reduce(task, before), e, rest);
      ReduceOneMore(task, before, e);
      ReduceAppended(task, before + [e], rest);
    }
  }

  /** States with the same cells that make the same decisions end with the same cells. */
  lemma {:induction false} CellsFollowDecisions(task: Task, s: State, t: State, later: seq<Entry>)
    requires ValidTask(task) && ReadableHistory(task, later) && s.cells == t.cells
    requires SameDecisions(Replay(task, s, later), Replay(task, t, later))
    ensures ReduceFrom(task, s, later).cells == ReduceFrom(task, t, later).cells
    decreases |later|
  {
    if later != [] {
      var e, rest := later[0], later[1..];
      assert later == [e] + rest;
      ReplayFront(task, s, e, rest);
      ReplayFront(task, t, e, rest);
      SameDecisionsFront(Judge(task, s, e.result), Replay(task, Next(task, s, e), rest),
        Judge(task, t, e.result), Replay(task, Next(task, t, e), rest));
      ReduceFromFront(task, s, e, rest);
      ReduceFromFront(task, t, e, rest);
      AgreeingCells(task, s, t, e);
      CellsFollowDecisions(task, Next(task, s, e), Next(task, t, e), rest);
    }
  }

  lemma AgreeingCells(task: Task, s: State, t: State, e: Entry)
    requires ValidTask(task) && (e.result.eligible ==> Readable(task, e.result.rows)) && s.cells == t.cells
    requires Agree(Judge(task, s, e.result), Judge(task, t, e.result))
    ensures Next(task, s, e).cells == Next(task, t, e).cells
  {
  }

  /** So a rejected run that `DroppingRejectedExactly` allows to drop leaves the final cells as they were. */
  lemma DroppingKeepsCells(task: Task, before: seq<Entry>, e: Entry, later: seq<Entry>)
    requires ValidTask(task) && ReadableHistory(task, before) && ReadableHistory(task, later)
    requires ReadableHistory(task, before + [e]) && (e.result.eligible ==> Readable(task, e.result.rows))
    requires var v := Judge(task, Reduce(task, before), e.result); v.Dominated? || v.RegressesGuardrail?
    requires
      var k := CompilerOf(e.result.fingerprints);
      k.None? || CarrierRejected(Replay(task, Reduce(task, before), later), later, k.value)
    ensures ReadableHistory(task, before + later) && ReadableHistory(task, before + [e] + later)
    ensures Reduce(task, before + later).cells == Reduce(task, before + [e] + later).cells
  {
    DroppingRejectedExactly(task, before, e, later);
    ReduceOneMore(task, before, e);
    ReduceAppended(task, before, later);
    ReduceAppended(task, before + [e], later);
    CellsFollowDecisions(task, Reduce(task, before), Reduce(task, before + [e]), later);
  }

  // ---------------------------------------------------------------- an example

  function MeasuredRun(candidateMs: real, baselineMs: real): RunResult {
    RunResult(Completed, Valid, true, None, [], map[[1] := Row([1], Some(candidateMs), Some(baselineMs), None)],
      Fingerprints(Some(Hex([7])), None, None))
  }

  /** One workload, which must not get slower. */
  function GuardedTask(): Task {
    Task([2], [3], [[1]], [[1]], [Guardrail([1], 1.0)], 0.0, [Stage([4], Local, None, false)])
  }

  lemma MeasuredRunIsReadable(candidateMs: real, baselineMs: real)
    requires candidateMs > 0.0 && baselineMs > 0.0
    ensures ValidTask(GuardedTask()) && Readable(GuardedTask(), MeasuredRun(candidateMs, baselineMs).rows)
    ensures Judge(GuardedTask(), State(map[], map[]), MeasuredRun(candidateMs, baselineMs))
         == if baselineMs / candidateMs >= 1.0 then FirstValid else RegressesGuardrail([1])
  {
    var task, run := GuardedTask(), MeasuredRun(candidateMs, baselineMs);
    assert Readable(task, run.rows);
    assert task.guardrails[1..] == [];
    assert Holds(task.guardrails[0], task, run.rows) <==> baselineMs / candidateMs >= 1.0;
    assert FirstMissed(task, run.rows, task.guardrails)
        == if baselineMs / candidateMs >= 1.0 then FirstMissed(task, run.rows, []) else Some([1]);
  }

  /** Of two runs of one binary the second is skipped when the first was refused by a guardrail. */
  lemma SecondIsSkipped(task: Task, first: Entry, second: Entry, k: Compiler)
    requires ValidTask(task) && Readable(task, first.result.rows) && Readable(task, second.result.rows)
    requires Judge(task, State(map[], map[]), first.result).RegressesGuardrail?
    requires CompilerOf(first.result.fingerprints) == CompilerOf(second.result.fingerprints) == Some(k)
    ensures ReadableHistory(task, [first, second]) && Reduce(task, [first, second]).cells == map[]
  {
    var start := State(map[], map[]);
    assert [first, second][..1] == [first] && [first][..0] == [];
    assert Reduce(task, [first]) == Next(task, start, first);
    assert Reduce(task, [first, second]) == Next(task, Next(task, start, first), second);
  }

  lemma FirstValidFills(task: Task, e: Entry, w: Text)
    requires ValidTask(task) && Readable(task, e.result.rows) && w in e.result.rows
    requires Judge(task, State(map[], map[]), e.result) == FirstValid
    ensures ReadableHistory(task, [e]) && w in Reduce(task, [e]).cells && VerdictAt(task, [e], 0) == FirstValid
  {
    assert [e][..0] == [];
  }

  /** A run that misses a guardrail hides a better run built from the same binary: with it the frontier
      stays empty, without it the better run is the first valid one. */
  lemma RejectedRunCanHide() returns (bad: Entry, good: Entry)
    ensures
      var task := GuardedTask();
      && ValidTask(task) && ReadableHistory(task, [bad, good]) && ReadableHistory(task, [good])
      && Reduce(task, [bad, good]).cells == map[]
      && [1] in Reduce(task, [good]).cells && VerdictAt(task, [good], 0) == FirstValid
  {
    bad, good := Entry([5], MeasuredRun(2.0, 1.0)), Entry([6], MeasuredRun(1.0, 2.0));
    MeasuredRunIsReadable(2.0, 1.0);
    MeasuredRunIsReadable(1.0, 2.0);
    SecondIsSkipped(GuardedTask(), bad, good, Compiler(Cubin, [7]));
    FirstValidFills(GuardedTask(), good, [1]);
  }
}
