/** Diagnosis of runs against a snapshot of the live broker (diagnostics.py). */
module Diagnosis {
  import opened Wrappers
  import opened Texts
  import Contracts
  import R = Runs

  /** A broker job as far as it could be read: `None` for a field that is missing or malformed. */
  datatype Job = Job(id: Option<Text>, wait: Option<real>, run: Option<real>, gpus: Option<seq<int>>)

  datatype Gpu = Gpu(knownState: bool, id: Option<int>)

  /** A broker status; a list is `None` when the payload holds something else, and so are its items. */
  datatype Snapshot = Snapshot(
    probeError: bool, hasVersion: bool, hasInstance: bool, isCurrent: bool,
    gpus: Option<seq<Option<Gpu>>>, running: Option<seq<Option<Job>>>, queue: Option<seq<Option<Job>>>,
    recent: Option<seq<Option<Job>>>)

  datatype Stage = Stage(execution: Option<Contracts.Execution>, queueTimeout: Option<real>, runTimeout: Option<real>)

  datatype RunView = RunView(
    state: R.Lifecycle, updatedAt: Option<real>, stageIndex: Option<int>, brokerJob: Option<Text>, gpus: seq<int>,
    request: Option<seq<Option<Stage>>>, requestError: bool)

  datatype Finding = Terminal | Unknown | Progressing | Waiting | LongWait | Running | SuspectedStall

  datatype Verdict = Fine | Attention | Unsure

  predicate Alarming(f: Finding) { f.LongWait? || f.SuspectedStall? }

  function Dicts<T>(items: Option<seq<Option<T>>>): seq<T> {
    if items.None? then [] else Present(items.value)
  }

  function Present<T>(items: seq<Option<T>>): seq<T> {
    if items == [] then []
    else Present(items[..|items| - 1])
         + if items[|items| - 1].Some? then [items[|items| - 1].value] else []
  }

  predicate Intact<T>(items: Option<seq<Option<T>>>) { items.Some? && |Dicts(items)| == |items.value| }

  predicate Named(job: Job) { job.id.Some? && job.id.value != [] }

  /** The job listed last under an id: dictionaries keep the last entry. */
  function Find(jobs: seq<Job>, id: Text): Option<Job> {
    if jobs == [] then None
    else
      var last := jobs[|jobs| - 1];
      if Named(last) && last.id.value == id then Some(last) else Find(jobs[..|jobs| - 1], id)
  }

  datatype Broker = Broker(unknown: bool, running: seq<Job>, queue: seq<Job>, recent: seq<Job>)

  predicate Unreadable(s: Snapshot) {
    || s.probeError || !s.hasVersion || !s.hasInstance || Dicts(s.gpus) == []
    || !(Intact(s.gpus) && Intact(s.running) && Intact(s.queue) && Intact(s.recent))
  }

  function CurrentStage(x: RunView): Option<Stage>
    requires x.request.Some?
  {
    if x.stageIndex.None? || x.stageIndex.value < 0 || x.stageIndex.value >= |x.request.value| then None
    else x.request.value[x.stageIndex.value]
  }

  function Age(x: RunView, now: real): Option<real> {
    if x.updatedAt.None? then None
    else Some(if now >= x.updatedAt.value then now - x.updatedAt.value else 0.0)
  }

  predicate HasJob(x: RunView) { x.brokerJob.Some? && x.brokerJob.value != [] }

  function Queued(job: Job, timeout: Option<real>, after: real): Finding {
    if job.wait.None? then Unknown
    else if timeout.Some? && job.wait.value > timeout.value + 5.0 then SuspectedStall
    else if job.wait.value >= after then LongWait
    else Waiting
  }

  function OnGpu(x: RunView, job: Job, timeout: Option<real>, age: real, after: real): Finding {
    if job.run.None? || job.gpus.None? then Unknown
    else if timeout.Some? && job.run.value > timeout.value + 5.0 then SuspectedStall
    else if x.gpus != [] && x.gpus != job.gpus.value then SuspectedStall
    else if !x.state.Running? && age >= after then SuspectedStall
    else if !x.state.Running? then Progressing
    else Running
  }

  /** The part that consults the broker. */
  function WithBroker(x: RunView, stage: Option<Stage>, age: real, b: Broker, after: real): Finding {
    var overdue := if age >= after then SuspectedStall else Progressing;
    if b.unknown && ((stage.Some? && stage.value.execution == Some(Contracts.Broker)) || HasJob(x)) then Unknown
    else if !HasJob(x) then overdue
    else
      var id := x.brokerJob.value;
      var running, queued := Find(b.running, id), Find(b.queue, id);
      if running.Some? then OnGpu(x, running.value, if stage.Some? then stage.value.runTimeout else None, age, after)
      else if queued.Some? then Queued(queued.value, if stage.Some? then stage.value.queueTimeout else None, after)
      else overdue
  }

  predicate LocalStage(x: RunView) {
    && x.request.Some? && CurrentStage(x).Some?
    && (CurrentStage(x).value.execution == Some(Contracts.Local)
        || CurrentStage(x).value.execution == Some(Contracts.Service))
  }

  /** `_classify_run`. */
  function Classify(x: RunView, now: real, b: Broker, after: real): Finding {
    if x.state.Ended? then Terminal
    else if x.updatedAt.None? || x.requestError || x.request.None? then Unknown
    else if LocalStage(x) then
      if !x.state.WaitingLocal? then Running
      else if Age(x, now).value >= after then LongWait
      else Waiting
    else WithBroker(x, CurrentStage(x), Age(x, now).value, b, after)
  }

  function WaitOf(job: Job): real { if job.wait.Some? then job.wait.value else 0.0 }

  // ---------------------------------------------------------------- the verdict

  datatype Case = Case(runs: seq<RunView>, now: real, broker: Option<Snapshot>, brokerError: bool)

  /** Nothing, or something unreadable, is known of the broker. */
  predicate BrokerUnknown(c: Case) {
    || c.broker.None? || c.brokerError || Unreadable(c.broker.value) || !c.broker.value.isCurrent
    || (exists g :: g in Dicts(c.broker.value.gpus) && !(g.knownState && g.id.Some?))
    || (exists j :: j in Dicts(c.broker.value.running) && !(Named(j) && j.run.Some?))
    || (exists j :: j in Dicts(c.broker.value.queue) && !(Named(j) && j.wait.Some?))
  }

  function BrokerOf(c: Case): Broker {
    if c.broker.None? then Broker(true, [], [], [])
    else
      var s := c.broker.value;
      Broker(BrokerUnknown(c), Dicts(s.running), Dicts(s.queue), Dicts(s.recent))
  }

  predicate AnyUnknown(c: Case, after: real) {
    exists x :: x in c.runs && Classify(x, c.now, BrokerOf(c), after).Unknown?
  }

  predicate RunAlarm(runs: seq<RunView>, now: real, b: Broker, after: real) {
    exists x :: x in runs && Alarming(Classify(x, now, b, after))
  }

  predicate QueueAlarm(queue: seq<Job>, after: real) { exists j :: j in queue && WaitOf(j) >= after }

  predicate AnyAlarm(c: Case, after: real) {
    RunAlarm(c.runs, c.now, BrokerOf(c), after) || QueueAlarm(BrokerOf(c).queue, after)
  }

  function VerdictOf(c: Case, after: real): Verdict {
    if BrokerUnknown(c) || AnyUnknown(c, after) then Unsure
    else if AnyAlarm(c, after) then Attention
    else Fine
  }

  /** `build_diagnosis`: None for a threshold that is negative or not finite. */
  method BuildDiagnosis(c: Case, attentionAfter: Option<real>) returns (r: Option<(Verdict, seq<Finding>)>)
    ensures r.None? <==> attentionAfter.None? || attentionAfter.value < 0.0
    ensures r.Some? ==> r.value.0 == VerdictOf(c, attentionAfter.value)
    ensures r.Some? ==> |r.value.1| == |c.runs| && forall i :: 0 <= i < |c.runs| ==>
      r.value.1[i] == Classify(c.runs[i], c.now, BrokerOf(c), attentionAfter.value)
  {
    if attentionAfter.None? || attentionAfter.value < 0.0 { return None; }
    var after := attentionAfter.value;
    var unknown := ProbeUnknown(c);
    var b := BrokerOf(c).(unknown := unknown);
    var findings: seq<Finding> := [];
    var unsure, alarms := 0, 0;
    for i := 0 to |c.runs|
      invariant |findings| == i
      invariant forall k :: 0 <= k < i ==> findings[k] == Classify(c.runs[k], c.now, BrokerOf(c), after)
      invariant unsure > 0 <==> exists k :: 0 <= k < i && findings[k].Unknown?
      invariant alarms > 0 <==> exists k :: 0 <= k < i && Alarming(findings[k])
    {
      var f := Classify(c.runs[i], c.now, b, after);
      findings := findings + [f];
      if f.Unknown? { unsure := unsure + 1; }
      if Alarming(f) { alarms := alarms + 1; }
    }
    assert AnyUnknown(c, after) <==> exists k :: 0 <= k < |c.runs| && findings[k].Unknown?;
    if unknown || unsure > 0 {
      return Some((Unsure, findings));
    }
    if alarms > 0 || (exists j :: j in b.queue && WaitOf(j) >= after) {
      return Some((Attention, findings));
    }
    return Some((Fine, findings));
  }

  /** The successive updates of `broker_unknown`. */
  method ProbeUnknown(c: Case) returns (unknown: bool)
    ensures unknown == BrokerUnknown(c)
  {
    unknown := c.broker.None? || c.brokerError || Unreadable(c.broker.value);
    if c.broker.None? { return; }
    if exists g :: g in Dicts(c.broker.value.gpus) && !(g.knownState && g.id.Some?) {
      unknown := true;
    }
    if (exists j :: j in Dicts(c.broker.value.running) && !(Named(j) && j.run.Some?))
       || (exists j :: j in Dicts(c.broker.value.queue) && !(Named(j) && j.wait.Some?)) {
      unknown := true;
    }
    if !c.broker.value.isCurrent {
      unknown := true;
    }
  }

  // ---------------------------------------------------------------- theorems

  /** When an alarm is raised, as a function of the attention threshold. */
  datatype Alarm = Never | UpTo(threshold: real) | Always

  predicate Rings(a: Alarm, after: real) { a.Always? || (a.UpTo? && after <= a.threshold) }

  /** Whether a run is unknown does not depend on the threshold; and its alarm is raised up to one
      threshold, at every threshold, or never. */
  lemma OneThresholdPerRun(x: RunView, now: real, b: Broker) returns (a: Alarm)
    ensures forall after :: Alarming(Classify(x, now, b, after)) <==> Rings(a, after)
    ensures forall s, t :: Classify(x, now, b, s).Unknown? <==> Classify(x, now, b, t).Unknown?
    ensures forall s, t :: s <= t && Alarming(Classify(x, now, b, t)) ==> Alarming(Classify(x, now, b, s))
  {
    a := Never;
    if !x.state.Ended? && x.updatedAt.Some? && !x.requestError && x.request.Some? {
      var age := Age(x, now).value;
      if LocalStage(x) {
        a := if x.state.WaitingLocal? then UpTo(age) else Never;
      } else {
        a := BrokerAlarm(x, CurrentStage(x), age, b);
      }
    }
  }

  lemma BrokerAlarm(x: RunView, stage: Option<Stage>, age: real, b: Broker) returns (a: Alarm)
    ensures forall after :: Alarming(WithBroker(x, stage, age, b, after)) <==> Rings(a, after)
    ensures forall s, t :: WithBroker(x, stage, age, b, s).Unknown? <==> WithBroker(x, stage, age, b, t).Unknown?
  {
    if b.unknown && ((stage.Some? && stage.value.execution == Some(Contracts.Broker)) || HasJob(x)) {
      a := Never;
    } else if !HasJob(x) {
      a := UpTo(age);
    } else {
      var running, queued := Find(b.running, x.brokerJob.value), Find(b.queue, x.brokerJob.value);
      if running.Some? {
        var f := OnGpu(x, running.value, if stage.Some? then stage.value.runTimeout else None, age, age + 1.0);
        a := if f.SuspectedStall? then Always else if f.Progressing? then UpTo(age) else Never;
      } else if queued.Some? {
        var wait := queued.value.wait;
        var timeout := if stage.Some? then stage.value.queueTimeout else None;
        var f := Queued(queued.value, timeout, WaitOf(queued.value) + 1.0);
        a := if f.SuspectedStall? then Always else if f.Waiting? then UpTo(wait.value) else Never;
      } else {
        a := UpTo(age);
      }
    }
  }

  function Louder(a: Alarm, b: Alarm): Alarm {
    if a.Always? || b.Never? then a
    else if b.Always? || a.Never? then b
    else if a.threshold >= b.threshold then a else b
  }

  lemma LouderRings(a: Alarm, b: Alarm)
    ensures forall after :: Rings(Louder(a, b), after) <==> Rings(a, after) || Rings(b, after)
  {
  }

  lemma {:induction false} OneThresholdForRuns(runs: seq<RunView>, now: real, b: Broker) returns (a: Alarm)
    ensures forall after :: Rings(a, after) <==> RunAlarm(runs, now, b, after)
  {
    if runs == [] {
      return Never;
    }
    var init, last := runs[..|runs| - 1], runs[|runs| - 1];
    var a1 := OneThresholdForRuns(init, now, b);
    var a2 := OneThresholdPerRun(last, now, b);
    assert runs == init + [last];
    a := Louder(a1, a2);
    LouderRings(a1, a2);
    forall after
      ensures RunAlarm(runs, now, b, after) <==>
        RunAlarm(init, now, b, after) || Alarming(Classify(last, now, b, after))
    {
      assert forall x :: x in runs <==> x in init || x == last;
    }
  }

  lemma {:induction false} OneThresholdForQueue(queue: seq<Job>) returns (a: Alarm)
    ensures forall after :: Rings(a, after) <==> QueueAlarm(queue, after)
  {
    if queue == [] {
      return Never;
    }
    var init, last := queue[..|queue| - 1], queue[|queue| - 1];
    var a1 := OneThresholdForQueue(init);
    assert queue == init + [last];
    a := Louder(a1, UpTo(WaitOf(last)));
    LouderRings(a1, UpTo(WaitOf(last)));
    forall after ensures QueueAlarm(queue, after) <==> QueueAlarm(init, after) || WaitOf(last) >= after {
      assert forall j :: j in queue <==> j in init || j == last;
    }
  }

  /** For a fixed observation the unsure verdict does not depend on the threshold, and attention is
      called up to one threshold, at every threshold, or never: raising it never turns ok into attention. */
  lemma VerdictHasOneThreshold(c: Case) returns (a: Alarm)
    ensures forall s, t :: VerdictOf(c, s).Unsure? <==> VerdictOf(c, t).Unsure?
    ensures forall after :: VerdictOf(c, after).Attention? <==> !VerdictOf(c, after).Unsure? && Rings(a, after)
    ensures forall s, t :: s <= t && VerdictOf(c, s).Fine? ==> VerdictOf(c, t).Fine?
  {
    UnknownIgnoresThreshold(c);
    var a1 := OneThresholdForRuns(c.runs, c.now, BrokerOf(c));
    var a2 := OneThresholdForQueue(BrokerOf(c).queue);
    a := Louder(a1, a2);
    LouderRings(a1, a2);
  }

  lemma UnknownIgnoresThreshold(c: Case)
    ensures forall s, t :: AnyUnknown(c, s) ==> AnyUnknown(c, t)
  {
    forall s, t | AnyUnknown(c, s) ensures AnyUnknown(c, t) {
      var x :| x in c.runs && Classify(x, c.now, BrokerOf(c), s).Unknown?;
      var a := OneThresholdPerRun(x, c.now, BrokerOf(c));
    }
  }

  predicate BrokerStage(x: RunView) {
    x.request.Some? && CurrentStage(x).Some? && CurrentStage(x).value.execution == Some(Contracts.Broker)
  }

  /** Terminal and unreadable runs never consult the broker, nor do local and service stages. */
  predicate Consults(x: RunView) {
    && !x.state.Ended? && x.updatedAt.Some? && !x.requestError && x.request.Some? && !LocalStage(x)
    && (HasJob(x) || BrokerStage(x))
  }

  /** What the broker holds can make a difference exactly to the runs that consult it. */
  lemma BrokerMattersExactly(x: RunView, now: real, after: real)
    ensures Consults(x) <==> exists a, b :: Classify(x, now, a, after) != Classify(x, now, b, after)
  {
    if Consults(x) {
      var a, b := Broker(true, [], [], []), Broker(false, [], [], []);
      assert Classify(x, now, a, after).Unknown? && !Classify(x, now, b, after).Unknown?;
    }
  }

  // ---------------------------------------------------------------- evidence

  /** A job listed under the id the run holds. */
  predicate Listed(jobs: seq<Job>, j: Job, x: RunView) { j in jobs && HasJob(x) && j.id == x.brokerJob }

  lemma {:induction false} FoundIsListed(jobs: seq<Job>, x: RunView)
    requires HasJob(x)
    ensures Find(jobs, x.brokerJob.value).Some? <==> exists j :: Listed(jobs, j, x)
    ensures Find(jobs, x.brokerJob.value).Some? ==> Listed(jobs, Find(jobs, x.brokerJob.value).value, x)
  {
    if jobs != [] {
      var init, last := jobs[..|jobs| - 1], jobs[|jobs| - 1];
      FoundIsListed(init, x);
      assert jobs == init + [last];
      if Listed(jobs, last, x) { assert Named(last); }
      if j :| Listed(jobs, j, x) && j != last { assert Listed(init, j, x); }
      if j :| Listed(init, j, x) { assert Listed(jobs, j, x); }
    }
  }

  /** The job used more than its stage declared, by over five seconds. */
  predicate Overran(used: Option<real>, declared: Option<real>) {
    used.Some? && declared.Some? && used.value > declared.value + 5.0
  }

  /** A listed job of the run beyond its declared timeout, or on other GPUs than the run records. */
  predicate Contradicted(x: RunView, b: Broker)
    requires x.request.Some?
  {
    var stage := CurrentStage(x);
    || (exists j :: j in b.queue && Listed(b.queue, j, x) && stage.Some? && Overran(j.wait, stage.value.queueTimeout))
    || (exists j :: j in b.running && Listed(b.running, j, x)
          && ((stage.Some? && Overran(j.run, stage.value.runTimeout))
              || (x.gpus != [] && j.gpus.Some? && j.gpus.value != x.gpus)))
  }

  /** What each finding rests on. A stall is suspected only of a run that is not at a local or service
      stage, and is overdue or contradicted by the broker; waiting means waiting for local capacity or in
      the broker's queue; running means at a local stage or among the broker's running jobs. */
  lemma FindingsHaveEvidence(x: RunView, now: real, b: Broker, after: real)
    ensures
      var f := Classify(x, now, b, after);
      && (f.Terminal? <==> x.state.Ended?)
      && (f.SuspectedStall? ==>
        (&& x.request.Some? && x.updatedAt.Some? && !LocalStage(x)
         && (Age(x, now).value >= after || Contradicted(x, b))))
      && (f.Waiting? || f.LongWait? ==>
        (LocalStage(x) && x.state.WaitingLocal?) || exists j :: Listed(b.queue, j, x))
      && (f.Running? ==>
        (LocalStage(x) && !x.state.WaitingLocal?) || (x.state.Running? && exists j :: Listed(b.running, j, x)))
  {
    if HasJob(x) {
      FoundIsListed(b.running, x);
      FoundIsListed(b.queue, x);
      var running, queued := Find(b.running, x.brokerJob.value), Find(b.queue, x.brokerJob.value);
      if running.Some? { assert Listed(b.running, running.value, x); }
      if queued.Some? { assert Listed(b.queue, queued.value, x); }
    }
  }
}
