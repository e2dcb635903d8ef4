/** The start of the daemon as a run of its transition system. */
module StartRun {
  import opened Wrappers
  import opened Texts
  import opened Steps
  import opened Daemon
  import R = Runs
  import S = Services
  import D = DeploymentRecovery
  import ServiceManagement

  ghost function MarkedServices(s: S.System, ids: seq<Text>): S.System {
    map id | id in s :: if id in ids then S.SetPhase(s[id], S.Interrupted) else s[id]
  }

  function Recoveries(ids: seq<Text>): seq<Event> {
    seq(|ids|, i requires 0 <= i < |ids| => RecoverDeployment(ids[i], true))
  }

  /** Deployments without coroutines, as a crash leaves them. */
  ghost predicate Quiet(s: S.System) { forall id :: id in s ==> s[id].task.None? }

  lemma MarkOneMore(s: S.System, ids: seq<Text>, id: Text)
    requires Quiet(s) && id !in ids && id in s && !S.Ended(s[id])
    ensures S.Apply(MarkedServices(s, ids), S.On(id, S.Recover), {}) == MarkedServices(s, ids + [id])
  {
  }

  lemma {:induction false} RecoveriesMark(w: World, ids: seq<Text>)
    requires w.stage.RunsRecovered? && Quiet(w.services) && Distinct(ids)
    requires forall id :: id in ids ==> id in w.services && !S.Ended(w.services[id])
    ensures After(Apply, w, Recoveries(ids)) == w.(services := MarkedServices(w.services, ids))
  {
    if ids == [] {
      assert MarkedServices(w.services, []) == w.services;
    } else {
      var init, last := ids[..|ids| - 1], ids[|ids| - 1];
      assert ids == init + [last] && last !in init;
      RecoveriesMark(w, init);
      assert Recoveries(ids) == Recoveries(init) + [RecoverDeployment(last, true)];
      AfterOneMore(Apply, w, Recoveries(init), RecoverDeployment(last, true));
      RecoverOne(w, init, last);
    }
  }

  lemma RecoverOne(w: World, ids: seq<Text>, id: Text)
    requires w.stage.RunsRecovered? && Quiet(w.services) && id !in ids && id in w.services && !S.Ended(w.services[id])
    ensures Apply(w.(services := MarkedServices(w.services, ids)), RecoverDeployment(id, true))
         == w.(services := MarkedServices(w.services, ids + [id]))
  {
    MarkOneMore(w.services, ids, id);
  }

  /** Recovery of the runs, then of the first `n` of these deployments; then the daemon serves, or the next
      recovery raises. */
  function StartEvents(answered: set<Text>, order: seq<Text>, n: nat): seq<Event>
    requires n <= |order|
  {
    [RecoverRuns(answered)]
    + (Recoveries(order[..n]) + [if n == |order| then Serve else RecoverDeployment(order[n], false)])
  }

  lemma OneEvent(w: World, e: Event)
    ensures After(Apply, w, [e]) == Apply(w, e)
  {
    AfterOneMore(Apply, w, [], e);
    assert [] + [e] == [e];
  }

  /** Where these events lead from a crashed world. */
  lemma StartLeads(w: World, answered: set<Text>, order: seq<Text>, n: nat)
    requires w.stage.Starting? && R.Reconciled(w.runs.runs, answered) && Quiet(w.services)
    requires Distinct(order) && n <= |order|
    requires forall id :: id in order <==> id in w.services && !S.Ended(w.services[id])
    ensures After(Apply, w, StartEvents(answered, order, n)) == World(
      R.Apply(w.runs, R.Recover(answered)), MarkedServices(w.services, order[..n]),
      if n == |order| then Serving else Starting)
  {
    var first := RecoverRuns(answered);
    var last := if n == |order| then Serve else RecoverDeployment(order[n], false);
    var w1 := Apply(w, first);
    OneEvent(w, first);
    AfterAppended(Apply, w, [first], Recoveries(order[..n]) + [last]);
    RecoveriesMark(w1, order[..n]);
    AfterOneMore(Apply, w1, Recoveries(order[..n]), last);
    if n == |order| {
      assert order[..n] == order;
      assert DeploymentsEnded(MarkedServices(w.services, order));
    }
  }

  lemma MarkedView(
    deployments: map<Text, S.Deployment>, tasks: map<Text, S.Coroutine>, processes: map<Text, bool>,
    stopReasons: map<Text, S.StopCause>, idleTasks: map<Text, S.Watcher>, stoppers: multiset<Text>, ids: seq<Text>)
    ensures ServiceManagement.View(D.Marked(deployments, ids), tasks, processes, stopReasons, idleTasks, stoppers)
         == MarkedServices(
              ServiceManagement.View(deployments, tasks, processes, stopReasons, idleTasks, stoppers), ids)
  {
  }
}
