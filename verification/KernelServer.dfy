/** The server of server.py over the two managers: its submit paths, each one stretch without an await,
    and its start, which recovers before it serves. */
module KernelServer {
  import opened Wrappers
  import opened Texts
  import opened Steps
  import opened Contracts
  import opened Labels
  import R = Runs
  import S = Services
  import D = DeploymentRecovery
  import StartRun
  import RunManagement
  import ServiceManagement
  import Daemon
  import O = Ownership
  import OwnershipTheorems
  import Startup

  class Server {
    const manager: RunManagement.RunManager
    const services: ServiceManagement.ServiceManager

    constructor (manager: RunManagement.RunManager, services: ServiceManagement.ServiceManager)
      requires services.runStore == manager
      ensures this.manager == manager && this.services == services
    {
      this.manager, this.services := manager, services;
    }

    ghost function WorldAt(stage: Daemon.Stage): Daemon.World
      reads this, manager, services
    {
      Daemon.World(manager.Snap(), services.Snap(), stage)
    }

    ghost function World(): Daemon.World
      reads this, manager, services
    {
      WorldAt(Daemon.Serving)
    }

    ghost predicate Ready(task: Task)
      reads this, services
    {
      Daemon.DeploymentsReady(services.Snap(), task)
    }

    /** `assert_task_deployments_ready`. */
    method AssertTaskDeploymentsReady(task: Task) returns (ready: bool)
      ensures ready <==> Ready(task)
    {
      var todo := Deployments(task);
      while todo != {}
        invariant todo <= Deployments(task)
        invariant forall d :: d in Deployments(task) - todo ==>
          d in services.deployments && services.deployments[d].phase.Ready?
        decreases todo
      {
        var d :| d in todo;
        todo := todo - {d};
        if d !in services.deployments || !services.deployments[d].phase.Ready? {
          return false;
        }
      }
      return true;
    }

    method Submit(id: Text, c: Candidate, given: Text, task: Task) returns (accepted: bool)
      requires manager.Unused(id) && ValidTask(task)
      modifies manager
      ensures accepted <==> old(Ready(task)) && !SubmissionRefused(given, c, task)
      ensures World() == if accepted then Daemon.Apply(old(World()), Daemon.Submit(id, task)) else old(World())
    {
      accepted := AssertTaskDeploymentsReady(task);
      if accepted {
        accepted := manager.SubmitRun(id, c, given, task);
      }
    }

    /** `submit_many`: the readiness check and the validation of all candidates come before the first run,
        but each submission has checks of its own, and the first refusal ends the request with the runs
        accepted before it. */
    method SubmitMany(ids: seq<Text>, cs: seq<Candidate>, prefix: Text, task: Task)
      returns (accepted: nat, succeeded: bool)
      requires |cs| == |ids| && Distinct(ids) && (forall id :: id in ids ==> manager.Unused(id)) && ValidTask(task)
      modifies manager
      ensures
        var admissible := cs != [] && old(Ready(task)) && forall c :: c in cs ==> c.valid;
        && accepted == (if admissible then Admitted(prefix, cs, task) else 0)
        && (succeeded <==> admissible && Admitted(prefix, cs, task) == |cs|)
      ensures accepted <= |ids|
      ensures World() == After(Daemon.Apply, old(World()), Submissions(ids[..accepted], task))
    {
      if cs == [] {
        return 0, false;
      }
      var ready := AssertTaskDeploymentsReady(task);
      if !ready || exists c :: c in cs && !c.valid {
        return 0, false;
      }
      accepted := SubmitEach(ids, cs, prefix, task);
      succeeded := accepted == |cs|;
    }

    /** The loop over the candidates, up to the first refusal. */
    method SubmitEach(ids: seq<Text>, cs: seq<Candidate>, prefix: Text, task: Task) returns (accepted: nat)
      requires |cs| == |ids| && Distinct(ids) && (forall id :: id in ids ==> manager.Unused(id)) && ValidTask(task)
      requires Ready(task)
      modifies manager
      ensures accepted == Admitted(prefix, cs, task) && accepted <= |ids|
      ensures World() == After(Daemon.Apply, old(World()), Submissions(ids[..accepted], task))
    {
      accepted := 0;
      while accepted < |cs|
        invariant accepted <= |cs| && FirstRefused(prefix, cs, task, 0) == FirstRefused(prefix, cs, task, accepted)
        invariant World() == After(Daemon.Apply, old(World()), Submissions(ids[..accepted], task))
        invariant Ready(task)
        invariant forall k :: accepted <= k < |ids| ==> manager.Unused(ids[k])
        decreases |cs| - accepted
      {
        var given := BatchLabel(prefix, accepted, cs[accepted]);
        var admitted := SubmitNext(ids[accepted], cs[accepted], given, task);
        if !admitted {
          return;
        }
        OneMoreSubmission(old(World()), ids, accepted, task);
        accepted := accepted + 1;
      }
    }

    method SubmitNext(id: Text, c: Candidate, given: Text, task: Task) returns (admitted: bool)
      requires manager.Unused(id) && ValidTask(task) && Ready(task)
      modifies manager
      ensures admitted <==> !SubmissionRefused(given, c, task)
      ensures World() == if admitted then Daemon.Apply(old(World()), Daemon.Submit(id, task)) else old(World())
      ensures Ready(task)
      ensures forall other :: other != id && old(manager.Unused(other)) ==> manager.Unused(other)
    {
      admitted := manager.SubmitRun(id, c, given, task);
    }

    /** Every persisted job of a nonterminal run gets an answer. */
    ghost predicate RunsReconcilable(answer: Text -> Option<bool>)
      reads this, manager
    {
      R.Reconciled(manager.Snap().runs, RunManagement.Answered(manager.runs, answer))
    }

    /** No broker call for a nonterminal deployment raises. */
    ghost predicate ServicesReconcilable(answer: Text -> Option<bool>)
      reads this, services
    {
      forall id :: id in D.Unended(services.deployments) ==> answer(id).Some?
    }

    /** The recovery steps that these answers lead to. */
    ghost function RecoveryEvents(
      runAnswer: Text -> Option<bool>, listing: seq<Text>, serviceAnswer: Text -> Option<bool>): seq<Daemon.Event>
      reads this, manager, services
    {
      var answered := RunManagement.Answered(manager.runs, runAnswer);
      var order := D.ActiveIn(listing, services.deployments);
      if R.Reconciled(manager.Snap().runs, answered) then
        StartRun.StartEvents(answered, order, D.FirstUnanswered(order, serviceAnswer, 0))
      else [Daemon.RecoverRuns(answered)]
    }

    /** As a crash leaves both managers, with the deployments as the store lists them. */
    ghost predicate Rebooted(listing: seq<Text>)
      reads this, manager, services
    {
      && manager.tasks == map[] && manager.stops == map[] && manager.processes == map[]
      && manager.free == manager.capacity
      && services.tasks == map[] && services.processes == map[] && services.stopReasons == map[]
      && services.idleTasks == map[] && services.stoppers == multiset{}
      && D.IsListing(listing, services.deployments)
    }

    /** So the theorems on what follows a crash speak of the start. */
    lemma RebootedIsCrashed(listing: seq<Text>)
      requires Rebooted(listing)
      ensures Daemon.Apply(WorldAt(Daemon.Starting), Daemon.Crash) == WorldAt(Daemon.Starting)
    {
    }

    /** Both recoveries, runs first; the first that raises ends them. Of the deployments, those ahead of the
        first unanswered one are interrupted; so a failure leaves the deployments as they were exactly if a
        job of a run or the very first deployment was unanswered. */
    method Recover(runAnswer: Text -> Option<bool>, listing: seq<Text>, serviceAnswer: Text -> Option<bool>)
      returns (recovered: Option<nat>)
      requires Rebooted(listing)
      modifies manager, services
      ensures recovered.Some? <==> old(RunsReconcilable(runAnswer)) && old(ServicesReconcilable(serviceAnswer))
      ensures recovered.Some? ==> AtRest() && recovered.value == old(Nonterminal())
      ensures services.deployments ==
        if old(RunsReconcilable(runAnswer)) then D.Recovered(old(services.deployments), listing, serviceAnswer).0
        else old(services.deployments)
      ensures manager.Snap() ==
        R.Apply(old(manager.Snap()), R.Recover(RunManagement.Answered(old(manager.runs), runAnswer)))
      ensures recovered.None? && old(RunsReconcilable(runAnswer)) ==>
        (services.deployments == old(services.deployments) <==>
          serviceAnswer(D.ActiveIn(listing, old(services.deployments))[0]).None?)
      ensures WorldAt(if recovered.Some? then Daemon.Serving else Daemon.Starting) ==
        After(Daemon.Apply, old(WorldAt(Daemon.Starting)), old(RecoveryEvents(runAnswer, listing, serviceAnswer)))
    {
      RecoveryLeads(runAnswer, listing, serviceAnswer);
      var runs := manager.RecoverInterrupted(runAnswer);
      if runs.Err? {
        return None;
      }
      var deployments := services.RecoverInterrupted(listing, serviceAnswer);
      if deployments.Err? {
        return None;
      }
      return Some(runs.value + deployments.value);
    }

    /** Where the recovery steps lead. */
    lemma RecoveryLeads(runAnswer: Text -> Option<bool>, listing: seq<Text>, serviceAnswer: Text -> Option<bool>)
      requires Rebooted(listing)
      ensures
        var answered := RunManagement.Answered(manager.runs, runAnswer);
        var (after, r) := D.Recovered(services.deployments, listing, serviceAnswer);
        After(Daemon.Apply, WorldAt(Daemon.Starting), RecoveryEvents(runAnswer, listing, serviceAnswer)) ==
          if RunsReconcilable(runAnswer) then
            Daemon.World(R.Apply(manager.Snap(), R.Recover(answered)), ServicesWith(after),
              if r.Ok? then Daemon.Serving else Daemon.Starting)
          else WorldAt(Daemon.Starting)
    {
      var answered := RunManagement.Answered(manager.runs, runAnswer);
      var order := D.ActiveIn(listing, services.deployments);
      var n := D.FirstUnanswered(order, serviceAnswer, 0);
      var w := WorldAt(Daemon.Starting);
      if RunsReconcilable(runAnswer) {
        D.ActiveInIsDistinct(listing, services.deployments);
        StartRun.StartLeads(w, answered, order, n);
        StartRun.MarkedView(services.deployments, services.tasks, services.processes, services.stopReasons,
          services.idleTasks, services.stoppers, order[..n]);
      } else {
        StartRun.OneEvent(w, Daemon.RecoverRuns(answered));
      }
    }

    /** The deployments with these state files. */
    ghost function ServicesWith(deployments: map<Text, S.Deployment>): S.System
      reads this, services
    {
      ServiceManagement.View(deployments, services.tasks, services.processes, services.stopReasons,
        services.idleTasks, services.stoppers)
    }

    ghost function Nonterminal(): nat
      reads this, manager, services
    {
      |RunManagement.ActiveRuns(manager.runs)| + |D.Unended(services.deployments)|
    }

    /** Every run and every deployment is terminal. */
    ghost predicate AtRest()
      reads this, manager, services
    {
      RunManagement.ActiveRuns(manager.runs) == {} && D.Unended(services.deployments) == {}
    }

    /** `start` of daemon `d`, when no other process interferes. It serves exactly when it could take both
        locks and the socket and every broker call of both recoveries was answered, and then everything is
        at rest. Otherwise it holds no lock. It recovers only as the owner, and then goes through the steps
        that the answers lead to, from the crashed world. */
    method Start(
      host: Startup.Host, d: nat, runAnswer: Text -> Option<bool>, listing: seq<Text>,
      serviceAnswer: Text -> Option<bool>)
      returns (recovered: Option<nat>)
      requires O.Inv(host.Snap()) && OwnershipTheorems.At(host.Snap(), d, O.Idle) && Rebooted(listing)
      modifies host, manager, services
      ensures recovered.Some? <==>
        && OwnershipTheorems.Startable(old(host.Snap()), old(host.daemons)[d])
        && old(RunsReconcilable(runAnswer)) && old(ServicesReconcilable(serviceAnswer))
      ensures recovered.Some? ==>
        AtRest() && recovered.value == old(Nonterminal()) && OwnershipTheorems.At(host.Snap(), d, O.Serving)
      ensures recovered.None? ==>
        OwnershipTheorems.At(host.Snap(), d, O.Idle) && forall lock :: !O.Locked(host.Snap(), lock, d)
      ensures services.deployments ==
        if OwnershipTheorems.Startable(old(host.Snap()), old(host.daemons)[d]) && old(RunsReconcilable(runAnswer)) then
          D.Recovered(old(services.deployments), listing, serviceAnswer).0
        else old(services.deployments)
      ensures WorldAt(if recovered.Some? then Daemon.Serving else Daemon.Starting) ==
        if OwnershipTheorems.Startable(old(host.Snap()), old(host.daemons)[d]) then
          After(Daemon.Apply, old(WorldAt(Daemon.Starting)), old(RecoveryEvents(runAnswer, listing, serviceAnswer)))
        else old(WorldAt(Daemon.Starting))
    {
      recovered := None;
      var owner := host.Prepare(d);
      if owner {
        recovered := Recover(runAnswer, listing, serviceAnswer);
        host.Conclude(d, recovered.Some?);
      }
      if recovered.None? { Startup.IdleHoldsNothing(host.Snap(), d); }
    }
  }

  function Submissions(ids: seq<Text>, task: Task): seq<Daemon.Event> {
    seq(|ids|, i requires 0 <= i < |ids| => Daemon.Submit(ids[i], task))
  }

  lemma OneMoreSubmission(w: Daemon.World, ids: seq<Text>, i: nat, task: Task)
    requires i < |ids|
    ensures After(Daemon.Apply, w, Submissions(ids[..i + 1], task))
         == Daemon.Apply(After(Daemon.Apply, w, Submissions(ids[..i], task)), Daemon.Submit(ids[i], task))
  {
    assert Submissions(ids[..i + 1], task) == Submissions(ids[..i], task) + [Daemon.Submit(ids[i], task)];
    AfterOneMore(Daemon.Apply, w, Submissions(ids[..i], task), Daemon.Submit(ids[i], task));
  }
}
