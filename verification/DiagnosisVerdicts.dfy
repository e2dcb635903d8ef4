/** When each finding is answered, in the terms of what was observed. */
module DiagnosisVerdicts {
  import opened Wrappers
  import opened Texts
  import Contracts
  import R = Runs
  import opened Diagnosis

  // ---------------------------------------------------------------- what was observed

  /** The request names this stage at the index the run records. */
  predicate Declares(x: RunView, st: Stage) {
    && x.request.Some? && x.stageIndex.Some?
    && 0 <= x.stageIndex.value < |x.request.value| && x.request.value[x.stageIndex.value] == Some(st)
  }

  ghost predicate OfKind(x: RunView, e: Contracts.Execution) { exists st :: Declares(x, st) && st.execution == Some(e) }

  /** The run was not updated for the threshold; the future counts as no time at all. */
  predicate Overdue(x: RunView, now: real, after: real) {
    x.updatedAt.Some? && (now - x.updatedAt.value >= after || 0.0 >= after)
  }

  predicate Legible(x: RunView) { x.updatedAt.Some? && !x.requestError && x.request.Some? }

  /** A nonterminal run that can be read, at no local or service stage. */
  ghost predicate OffHost(x: RunView) {
    !x.state.Ended? && Legible(x) && !OfKind(x, Contracts.Local) && !OfKind(x, Contracts.Service)
  }

  /** Item `i` is the last one listed under the job id that the run records. */
  predicate LastListed(jobs: seq<Job>, x: RunView, i: nat) {
    && HasJob(x) && i < |jobs| && jobs[i].id == x.brokerJob
    && forall m :: i < m < |jobs| ==> jobs[m].id != x.brokerJob
  }

  predicate Unlisted(jobs: seq<Job>, x: RunView) { forall m :: 0 <= m < |jobs| ==> jobs[m].id != x.brokerJob }

  ghost predicate BeyondRunTimeout(x: RunView, seconds: real) {
    exists st :: Declares(x, st) && st.runTimeout.Some? && seconds > st.runTimeout.value + 5.0
  }

  ghost predicate BeyondQueueTimeout(x: RunView, seconds: real) {
    exists st :: Declares(x, st) && st.queueTimeout.Some? && seconds > st.queueTimeout.value + 5.0
  }

  // ---------------------------------------------------------------- the model's own terms

  lemma CurrentExactly(x: RunView, st: Stage)
    ensures Declares(x, st) <==> x.request.Some? && CurrentStage(x) == Some(st)
  {
  }

  lemma LocalExactly(x: RunView)
    ensures LocalStage(x) <==> OfKind(x, Contracts.Local) || OfKind(x, Contracts.Service)
    ensures BrokerStage(x) <==> OfKind(x, Contracts.Broker)
  {
    if x.request.Some? && CurrentStage(x).Some? {
      CurrentExactly(x, CurrentStage(x).value);
    }
  }

  lemma OverdueExactly(x: RunView, now: real, after: real)
    requires x.updatedAt.Some?
    ensures Age(x, now).value >= after <==> Overdue(x, now, after)
  {
  }

  /** The lists are searched by id, and of several items with one id the last counts. */
  lemma {:induction false} FindExactly(jobs: seq<Job>, x: RunView)
    requires HasJob(x)
    ensures forall i: nat :: LastListed(jobs, x, i) ==> Find(jobs, x.brokerJob.value) == Some(jobs[i])
    ensures Find(jobs, x.brokerJob.value).None? <==> Unlisted(jobs, x)
    ensures Unlisted(jobs, x) || exists i: nat :: LastListed(jobs, x, i)
  {
    if jobs != [] {
      var n := |jobs| - 1;
      var init, last := jobs[..n], jobs[n];
      FindExactly(init, x);
      if last.id == x.brokerJob {
        assert LastListed(jobs, x, n);
      } else {
        forall i: nat ensures LastListed(jobs, x, i) <==> LastListed(init, x, i) {
        }
        assert Unlisted(jobs, x) <==> Unlisted(init, x);
      }
    }
  }

  // ---------------------------------------------------------------- runs that consult the broker

  /** A job among the running ones, the broker being known: a stall is suspected if and only if the job ran
      more than five seconds beyond the declared run timeout, or the run records other GPUs, or the run is
      not in state running for the whole threshold. Otherwise the run is running or about to be. */
  lemma RunningJobExactly(x: RunView, now: real, b: Broker, after: real, i: nat)
    requires OffHost(x) && !b.unknown && LastListed(b.running, x, i)
    ensures
      var f, job := Classify(x, now, b, after), b.running[i];
      && (f.Unknown? <==> job.run.None? || job.gpus.None?)
      && (f.SuspectedStall? <==>
            (&& job.run.Some? && job.gpus.Some?
             && (|| BeyondRunTimeout(x, job.run.value)
                 || (x.gpus != [] && x.gpus != job.gpus.value)
                 || (x.state != R.Running && Overdue(x, now, after)))))
      && (f.Running? <==>
            (&& job.run.Some? && job.gpus.Some? && x.state == R.Running
             && !BeyondRunTimeout(x, job.run.value) && (x.gpus == [] || x.gpus == job.gpus.value)))
      && (f.Unknown? || f.SuspectedStall? || f.Running? || f.Progressing?)
  {
    var job := b.running[i];
    LocalExactly(x);
    FindExactly(b.running, x);
    OverdueExactly(x, now, after);
    if job.run.Some? { BeyondExactly(x, job.run.value); }
  }

  lemma BeyondExactly(x: RunView, seconds: real)
    requires x.request.Some?
    ensures
      var stage := CurrentStage(x);
      && (BeyondRunTimeout(x, seconds) <==>
            stage.Some? && stage.value.runTimeout.Some? && seconds > stage.value.runTimeout.value + 5.0)
      && (BeyondQueueTimeout(x, seconds) <==>
            stage.Some? && stage.value.queueTimeout.Some? && seconds > stage.value.queueTimeout.value + 5.0)
  {
    if CurrentStage(x).Some? { CurrentExactly(x, CurrentStage(x).value); }
  }

  /** A job only in the queue: a stall is suspected if and only if it waited more than five seconds beyond the
      declared queue timeout; otherwise the wait is long exactly from the threshold on. */
  lemma QueuedJobExactly(x: RunView, now: real, b: Broker, after: real, i: nat)
    requires OffHost(x) && !b.unknown && Unlisted(b.running, x) && LastListed(b.queue, x, i)
    ensures
      var f, job := Classify(x, now, b, after), b.queue[i];
      && (f.Unknown? <==> job.wait.None?)
      && (f.SuspectedStall? <==> job.wait.Some? && BeyondQueueTimeout(x, job.wait.value))
      && (f.LongWait? <==> job.wait.Some? && !BeyondQueueTimeout(x, job.wait.value) && job.wait.value >= after)
      && (f.Waiting? <==> job.wait.Some? && !BeyondQueueTimeout(x, job.wait.value) && job.wait.value < after)
  {
    var job := b.queue[i];
    LocalExactly(x);
    FindExactly(b.running, x);
    FindExactly(b.queue, x);
    if job.wait.Some? { BeyondExactly(x, job.wait.value); }
  }

  /** A run without a job, or with one that the known broker neither runs nor queues: a stall is suspected
      if and only if the run is overdue, and otherwise it is progressing. */
  lemma NoJobExactly(x: RunView, now: real, b: Broker, after: real)
    requires OffHost(x)
    requires HasJob(x) ==> !b.unknown && Unlisted(b.running, x) && Unlisted(b.queue, x)
    requires b.unknown ==> !OfKind(x, Contracts.Broker)
    ensures
      var f := Classify(x, now, b, after);
      && (f.SuspectedStall? <==> Overdue(x, now, after))
      && (f.Progressing? <==> !Overdue(x, now, after))
  {
    LocalExactly(x);
    OverdueExactly(x, now, after);
    if HasJob(x) {
      FindExactly(b.running, x);
      FindExactly(b.queue, x);
    }
  }

  // ---------------------------------------------------------------- over all runs

  /** At a local or service stage a run is running, or waits for capacity, long from the threshold on. */
  lemma OnHostExactly(x: RunView, now: real, b: Broker, after: real)
    requires !x.state.Ended? && Legible(x) && (OfKind(x, Contracts.Local) || OfKind(x, Contracts.Service))
    ensures
      var f := Classify(x, now, b, after);
      && (f.Running? <==> x.state != R.WaitingLocal)
      && (f.LongWait? <==> x.state == R.WaitingLocal && Overdue(x, now, after))
      && (f.Waiting? <==> x.state == R.WaitingLocal && !Overdue(x, now, after))
  {
    LocalExactly(x);
    OverdueExactly(x, now, after);
  }

  /** Unknown is answered exactly of the nonterminal runs that cannot be read, that need a broker of which
      nothing is known, or whose job the broker lists without what is asked of it. */
  lemma UnknownExactly(x: RunView, now: real, b: Broker, after: real)
    ensures Classify(x, now, b, after).Unknown? <==>
      (&& !x.state.Ended?
       && (!Legible(x)
           || (OffHost(x)
               && (|| (b.unknown && (HasJob(x) || OfKind(x, Contracts.Broker)))
                   || (exists i: nat :: LastListed(b.running, x, i)
                         && (b.running[i].run.None? || b.running[i].gpus.None?))
                   || (exists i: nat :: LastListed(b.queue, x, i)
                         && Unlisted(b.running, x) && b.queue[i].wait.None?)))))
  {
    LocalExactly(x);
    if OffHost(x) && HasJob(x) {
      FindExactly(b.running, x);
      FindExactly(b.queue, x);
    }
  }

  /** Progressing is answered exactly of the readable runs off the host that are not overdue, and that the
      known broker neither runs nor queues, or runs in time on the recorded GPUs before the run says so. */
  lemma ProgressingExactly(x: RunView, now: real, b: Broker, after: real)
    ensures Classify(x, now, b, after).Progressing? <==>
      (&& OffHost(x) && !Overdue(x, now, after)
       && !(b.unknown && (HasJob(x) || OfKind(x, Contracts.Broker)))
       && (|| !HasJob(x)
           || (Unlisted(b.running, x) && Unlisted(b.queue, x))
           || (exists i: nat :: LastListed(b.running, x, i) && CatchingUp(x, b.running[i]))))
  {
    LocalExactly(x);
    if OffHost(x) && !(b.unknown && (HasJob(x) || OfKind(x, Contracts.Broker))) {
      if !HasJob(x) || (Unlisted(b.running, x) && Unlisted(b.queue, x)) {
        NoJobExactly(x, now, b, after);
      } else {
        FindExactly(b.running, x);
        FindExactly(b.queue, x);
        if i: nat :| LastListed(b.running, x, i) {
          RunningJobExactly(x, now, b, after, i);
          assert forall m: nat :: LastListed(b.running, x, m) ==> m == i;
        } else {
          var i: nat :| LastListed(b.queue, x, i);
          QueuedJobExactly(x, now, b, after, i);
        }
      }
    }
  }

  ghost predicate CatchingUp(x: RunView, job: Job) {
    && x.state != R.Running && job.run.Some? && job.gpus.Some? && !BeyondRunTimeout(x, job.run.value)
    && (x.gpus == [] || x.gpus == job.gpus.value)
  }

  // ---------------------------------------------------------------- the broker and the verdict

  predicate Whole<T>(items: Option<seq<Option<T>>>) {
    items.Some? && forall i :: 0 <= i < |items.value| ==> items.value[i].Some?
  }

  lemma {:induction false} WholeExactly<T>(items: seq<Option<T>>)
    ensures |Present(items)| <= |items|
    ensures |Present(items)| == |items| <==> Whole(Some(items))
    ensures forall x :: x in Present(items) <==> Some(x) in items
  {
    if items != [] {
      var n := |items| - 1;
      WholeExactly(items[..n]);
      assert items == items[..n] + [items[n]];
      if Whole(Some(items)) { assert Whole(Some(items[..n])); }
      if Whole(Some(items[..n])) && items[n].Some? {
        forall i | 0 <= i < |items| ensures items[i].Some? {
          if i < n { assert items[i] == items[..n][i]; }
        }
      }
    }
  }

  lemma AllReadable<T(!new)>(items: Option<seq<Option<T>>>, p: T -> bool)
    ensures (Intact(items) && forall x :: x in Dicts(items) ==> p(x)) <==>
      (items.Some? && forall o :: o in items.value ==> o.Some? && p(o.value))
    ensures Intact(items) <==> Whole(items)
    ensures Intact(items) ==> (Dicts(items) == [] <==> items.value == [])
  {
    if items.Some? {
      WholeExactly(items.value);
      if Intact(items) && forall x :: x in Dicts(items) ==> p(x) {
        forall o | o in items.value ensures o.Some? && p(o.value) {
          var i :| 0 <= i < |items.value| && items.value[i] == o;
          assert o.value in Dicts(items);
        }
      }
    }
  }

  predicate KnownGpu(g: Option<Gpu>) { g.Some? && g.value.knownState && g.value.id.Some? }

  predicate RunningFor(j: Option<Job>) { j.Some? && Named(j.value) && j.value.run.Some? }

  predicate WaitingFor(j: Option<Job>) { j.Some? && Named(j.value) && j.value.wait.Some? }

  /** The broker is known exactly if its status was read without error, is current and complete, and every
      GPU, running job, waiting job and recent job in it can be read. */
  lemma KnownExactly(c: Case)
    ensures !BrokerUnknown(c) <==>
      (&& c.broker.Some? && !c.brokerError
       && var s := c.broker.value;
          && !s.probeError && s.hasVersion && s.hasInstance && s.isCurrent
          && s.gpus.Some? && s.gpus.value != [] && (forall g :: g in s.gpus.value ==> KnownGpu(g))
          && s.running.Some? && (forall j :: j in s.running.value ==> RunningFor(j))
          && s.queue.Some? && (forall j :: j in s.queue.value ==> WaitingFor(j))
          && Whole(s.recent))
  {
    if c.broker.Some? {
      var s := c.broker.value;
      AllReadable(s.gpus, (g: Gpu) => g.knownState && g.id.Some?);
      AllReadable(s.running, (j: Job) => Named(j) && j.run.Some?);
      AllReadable(s.queue, (j: Job) => Named(j) && j.wait.Some?);
      AllReadable(s.recent, (j: Job) => true);
    }
  }

  lemma {:induction false} PresentExactly<T>(items: seq<Option<T>>)
    requires Whole(Some(items))
    ensures |Present(items)| == |items|
    ensures forall i :: 0 <= i < |items| ==> items[i] == Some(Present(items)[i])
  {
    if items != [] {
      var n := |items| - 1;
      assert Whole(Some(items[..n])) by {
        forall i | 0 <= i < n ensures items[..n][i].Some? { assert items[..n][i] == items[i]; }
      }
      PresentExactly(items[..n]);
      assert items[n].Some?;
    }
  }

  /** Of a known broker, the jobs are looked up among the running and the waiting ones as listed. */
  lemma BrokerExactly(c: Case)
    ensures BrokerOf(c).unknown <==> BrokerUnknown(c)
    ensures !BrokerUnknown(c) ==>
      var b, s := BrokerOf(c), c.broker.value;
      && |b.running| == |s.running.value| && |b.queue| == |s.queue.value|
      && (forall i :: 0 <= i < |b.running| ==> s.running.value[i] == Some(b.running[i]))
      && (forall i :: 0 <= i < |b.queue| ==> s.queue.value[i] == Some(b.queue[i]))
  {
    if !BrokerUnknown(c) {
      AllReadable(c.broker.value.running, (j: Job) => true);
      AllReadable(c.broker.value.queue, (j: Job) => true);
      PresentExactly(c.broker.value.running.value);
      PresentExactly(c.broker.value.queue.value);
    }
  }

  ghost predicate SomeRun(c: Case, after: real, f: Finding) {
    exists i :: 0 <= i < |c.runs| && Classify(c.runs[i], c.now, BrokerOf(c), after) == f
  }

  ghost predicate SomeJobWaits(queue: seq<Option<Job>>, after: real) {
    exists i :: 0 <= i < |queue| && queue[i].Some? && queue[i].value.wait.Some? && queue[i].value.wait.value >= after
  }

  lemma QueueAlarmExactly(queue: seq<Option<Job>>, after: real)
    requires forall j :: j in queue ==> WaitingFor(j)
    ensures QueueAlarm(Present(queue), after) <==> SomeJobWaits(queue, after)
  {
    WholeExactly(queue);
    if j :| j in Present(queue) && WaitOf(j) >= after {
      var i :| 0 <= i < |queue| && queue[i] == Some(j);
      assert WaitingFor(queue[i]);
    }
    if i :| 0 <= i < |queue| && queue[i].Some? && queue[i].value.wait.Some? && queue[i].value.wait.value >= after {
      assert queue[i].value in Present(queue);
    }
  }

  /** Unsure exactly if the broker or some run is unknown; otherwise attention exactly if some run is
      suspected to be stalled or waits long, or some job in the queue waits at least the threshold. */
  lemma VerdictExactly(c: Case, after: real)
    ensures VerdictOf(c, after).Unsure? <==> BrokerUnknown(c) || SomeRun(c, after, Unknown)
    ensures VerdictOf(c, after).Attention? <==>
      (&& !BrokerUnknown(c) && !SomeRun(c, after, Unknown)
       && (|| SomeRun(c, after, LongWait) || SomeRun(c, after, SuspectedStall)
           || SomeJobWaits(c.broker.value.queue.value, after)))
  {
    SomeRunExactly(c, after);
    if !BrokerUnknown(c) {
      KnownExactly(c);
      QueueAlarmExactly(c.broker.value.queue.value, after);
    }
  }

  lemma SomeRunExactly(c: Case, after: real)
    ensures AnyUnknown(c, after) <==> SomeRun(c, after, Unknown)
    ensures RunAlarm(c.runs, c.now, BrokerOf(c), after) <==>
      SomeRun(c, after, LongWait) || SomeRun(c, after, SuspectedStall)
  {
    if x :| x in c.runs && Alarming(Classify(x, c.now, BrokerOf(c), after)) {
      var i :| 0 <= i < |c.runs| && c.runs[i] == x;
    }
    if x :| x in c.runs && Classify(x, c.now, BrokerOf(c), after).Unknown? {
      var i :| 0 <= i < |c.runs| && c.runs[i] == x;
    }
    if i :| 0 <= i < |c.runs| && Alarming(Classify(c.runs[i], c.now, BrokerOf(c), after)) {
      assert c.runs[i] in c.runs;
    }
  }
}
