/** What an idle stop tells about the deployment: the watcher polls, so it knows its samples and no more. */
module IdleWatch {
  import opened Wrappers
  import opened Services

  /** One poll: the clock, and whether the deployment had an active consumer. */
  datatype Sampled = Sampled(now: nat, busy: bool)

  /** `idle_started_mono` after the polls, none of which stopped the service. */
  function Since(polls: seq<Sampled>, graceS: nat): Option<nat> {
    if polls == [] then None
    else
      var last := polls[|polls| - 1];
      Sample(Since(polls[..|polls| - 1], graceS), graceS, last.now, last.busy).0
  }

  /** The last poll stops the service. */
  predicate Fires(polls: seq<Sampled>, graceS: nat) {
    polls != []
    && var last := polls[|polls| - 1];
       Sample(Since(polls[..|polls| - 1], graceS), graceS, last.now, last.busy).1
  }

  predicate Ordered(polls: seq<Sampled>) {
    forall i, j :: 0 <= i < j < |polls| ==> polls[i].now <= polls[j].now
  }

  /** No consumer at any poll from the `i`-th on. */
  predicate IdleFrom(polls: seq<Sampled>, i: nat) { forall k :: i <= k < |polls| ==> !polls[k].busy }

  /** The first of the idle polls at the end. */
  predicate BeginsIdling(polls: seq<Sampled>, i: nat) {
    i < |polls| && IdleFrom(polls, i) && (i > 0 ==> polls[i - 1].busy)
  }

  lemma {:induction false} SinceIsFirstIdlePoll(polls: seq<Sampled>, graceS: nat)
    ensures Since(polls, graceS).None? <==> polls == [] || polls[|polls| - 1].busy
    ensures Since(polls, graceS).Some? ==>
      exists i: nat :: BeginsIdling(polls, i) && Since(polls, graceS).value == polls[i].now
  {
    if polls != [] {
      var init, last := polls[..|polls| - 1], polls[|polls| - 1];
      SinceIsFirstIdlePoll(init, graceS);
      if !last.busy {
        if Since(init, graceS).None? {
          assert BeginsIdling(polls, |polls| - 1);
        } else {
          var i: nat :| BeginsIdling(init, i) && Since(init, graceS).value == init[i].now;
          assert BeginsIdling(polls, i);
        }
      }
    }
  }

  /** On a clock that never goes back, a poll stops the service exactly when it and an earlier poll, at
      least the grace period before, and all polls in between found no consumer. */
  lemma IdleStopExactly(polls: seq<Sampled>, graceS: nat)
    requires Ordered(polls) && polls != []
    ensures Fires(polls, graceS) <==> exists i ::
      0 <= i < |polls| - 1 && IdleFrom(polls, i) && polls[|polls| - 1].now - polls[i].now >= graceS
  {
    var n := |polls| - 1;
    var init := polls[..n];
    SinceIsFirstIdlePoll(init, graceS);
    if Fires(polls, graceS) {
      var i: nat :| BeginsIdling(init, i) && Since(init, graceS).value == init[i].now;
      assert IdleFrom(polls, i);
    }
    if j :| 0 <= j < n && IdleFrom(polls, j) && polls[n].now - polls[j].now >= graceS {
      assert !polls[n - 1].busy;
      var i: nat :| BeginsIdling(init, i) && Since(init, graceS).value == init[i].now;
      assert i <= j;
    }
  }

  // ---------------------------------------------------------------- in the life of a deployment

  /** A step of a deployment's life. */
  datatype Moment = Moment(action: Action, busy: bool)

  function Lived(x: Service, life: seq<Moment>): Service {
    if life == [] then x
    else Step(Lived(x, life[..|life| - 1]), life[|life| - 1].action, life[|life| - 1].busy)
  }

  /** From its `i`-th moment, a poll at time `t`, every poll of the life found no consumer. */
  predicate PolledIdleFrom(life: seq<Moment>, i: nat, t: nat) {
    && i < |life| && life[i].action == IdleTick(t)
    && forall k :: i <= k < |life| && life[k].action.IdleTick? ==> !life[k].busy
  }

  lemma {:induction false} WatcherRemembers(x: Service, life: seq<Moment>, t: nat)
    requires x.idle.None? && Lived(x, life).idle == Some(Watcher(Some(t)))
    ensures exists i :: PolledIdleFrom(life, i, t)
  {
    if life != [] {
      var n := |life| - 1;
      var init, last := life[..n], life[n];
      if Lived(x, init).idle == Some(Watcher(Some(t))) {
        WatcherRemembers(x, init, t);
        var i :| PolledIdleFrom(init, i, t);
        assert PolledIdleFrom(life, i, t);
      } else {
        assert PolledIdleFrom(life, n, t);
      }
    }
  }

  /** Whatever else happens to a deployment: when its watcher stops it, it was ready, has no consumer now,
      and had none at any poll since one at least the grace period ago. */
  lemma IdleStopWasIdle(x: Service, life: seq<Moment>, now: nat, busy: bool)
    requires x.idle.None?
    requires var y := Lived(x, life); Step(y, IdleTick(now), busy).deployment.phase != y.deployment.phase
    ensures !busy && Lived(x, life).deployment.phase.Ready? && Lived(x, life).deployment.graceS.Some?
    ensures exists i, t :: PolledIdleFrom(life, i, t) && now - t >= Lived(x, life).deployment.graceS.value
  {
    var y := Lived(x, life);
    var t := y.idle.value.since.value;
    WatcherRemembers(x, life, t);
    var i :| PolledIdleFrom(life, i, t);
    assert now - t >= y.deployment.graceS.value;
  }
}
