/** Node selection and the greedy batch planner of fleet.py. */
module Planner {
  import opened Wrappers
  import opened Texts

  const MAX_FLEET_BATCH_CANDIDATES := 64

  datatype Gpu = Idle | Busy

  /** The fields of a node-status payload that selection reads. */
  datatype NodeStatus = NodeStatus(
    ready: set<Text>, freeBytes: int, brokerProbeError: bool, gpus: seq<Gpu>, queue: nat, activeRuns: nat)

  datatype Observation = Observation(nodeId: Text, ok: bool, status: Option<NodeStatus>)

  datatype Requirements = Requirements(capabilities: set<Text>, deployments: set<Text>, minFreeBytes: int)

  datatype Reason =
    | ProbeUnknown
    | MissingCapabilities(missing: set<Text>)
    | MissingDeployments(absent: set<Text>)
    | InsufficientDisk
    | BrokerProbeError

  datatype Decision = Decision(nodeId: Text, reasons: seq<Reason>)

  /** What the planner needs of an eligible node. */
  datatype Load = Load(queue: nat, idle: nat, active: nat)

  datatype Rank = Rank(queue: int, spare: int, active: int, node: Text)

  datatype Assignment = Assignment(index: nat, observation: Observation, rank: Rank, assignedBefore: nat)

  datatype Selection =
    | Selected(observation: Observation, decisions: seq<Decision>)
    | NoEligibleNode(decisions: seq<Decision>)
    | UnknownNode(nodeId: Text)

  datatype Plan =
    | Planned(assignments: seq<Assignment>, decisions: seq<Decision>)
    | BadCount
    | Refused(selection: Selection)

  // ---------------------------------------------------------------- ranks

  /** Python tuple order on ranks. */
  predicate Before(a: Rank, b: Rank)
  {
    a.queue < b.queue
    || (a.queue == b.queue
        && (a.spare < b.spare
            || (a.spare == b.spare
                && (a.active < b.active
                    || (a.active == b.active && Below(a.node, b.node))))))
  }

  predicate AtMost(a: Rank, b: Rank) { a == b || Before(a, b) }

  lemma BeforeIsTotal(a: Rank, b: Rank)
    ensures a == b || Before(a, b) || Before(b, a)
    ensures !(Before(a, b) && Before(b, a))
  {
    BelowIsTotal(a.node, b.node);
  }

  lemma BeforeIsTransitive(a: Rank, b: Rank, c: Rank)
    requires AtMost(a, b) && AtMost(b, c)
    ensures AtMost(a, c)
    ensures Before(a, b) || Before(b, c) ==> Before(a, c)
  {
    if Below(a.node, b.node) && Below(b.node, c.node) {
      BelowIsTransitive(a.node, b.node, c.node);
    }
  }

  function Max(a: int, b: int): int { if a < b then b else a }

  function SelectRank(load: Load, id: Text): Rank {
    Rank(load.queue, 0 - load.idle, load.active, id)
  }

  /** The rank of `id` once it holds `k` items of the batch. */
  function Projected(load: Load, id: Text, k: nat): Rank {
    Rank(load.queue + Max(0, k - load.idle), -Max(0, load.idle - k), load.active + k, id)
  }

  // ---------------------------------------------------------------- eligibility

  predicate DistinctNodes(observations: seq<Observation>) {
    forall i, j :: 0 <= i < j < |observations| ==> observations[i].nodeId != observations[j].nodeId
  }

  function IdleGpus(gpus: seq<Gpu>): nat {
    if gpus == [] then 0 else (if gpus[0].Idle? then 1 else 0) + IdleGpus(gpus[1..])
  }

  predicate Eligible(catalog: map<Text, set<Text>>, o: Observation, req: Requirements)
    requires o.nodeId in catalog
  {
    && o.ok && o.status.Some?
    && req.capabilities <= catalog[o.nodeId]
    && req.deployments <= o.status.value.ready
    && req.minFreeBytes <= o.status.value.freeBytes
    && !o.status.value.brokerProbeError
  }

  lemma EmptyDifference<T>(a: set<T>, b: set<T>)
    ensures a - b == {} <==> a <= b
  {
    if a - b == {} {
      forall x | x in a ensures x in b {
        assert x !in a - b;
      }
    }
  }

  function Reasons(catalog: map<Text, set<Text>>, o: Observation, req: Requirements): (reasons: seq<Reason>)
    requires o.nodeId in catalog
    ensures reasons == [] <==> Eligible(catalog, o, req)
  {
    if !o.ok || o.status.None? then [ProbeUnknown]
    else
      var status := o.status.value;
      var capabilities := req.capabilities - catalog[o.nodeId];
      var deployments := req.deployments - status.ready;
      EmptyDifference(req.capabilities, catalog[o.nodeId]);
      EmptyDifference(req.deployments, status.ready);
      (if capabilities != {} then [MissingCapabilities(capabilities)] else [])
      + (if deployments != {} then [MissingDeployments(deployments)] else [])
      + (if status.freeBytes < req.minFreeBytes then [InsufficientDisk] else [])
      + (if status.brokerProbeError then [BrokerProbeError] else [])
  }

  /** Each reason is given exactly when it applies, with exactly what is missing. */
  lemma ReasonsAreExact(catalog: map<Text, set<Text>>, o: Observation, req: Requirements)
    requires o.nodeId in catalog
    ensures
      var reasons, reached := Reasons(catalog, o, req), o.ok && o.status.Some?;
      && (ProbeUnknown in reasons <==> !reached)
      && (forall c :: MissingCapabilities(c) in reasons <==>
            (reached && c == req.capabilities - catalog[o.nodeId] && c != {}))
      && (forall d :: MissingDeployments(d) in reasons <==>
            (reached && d == req.deployments - o.status.value.ready && d != {}))
      && (InsufficientDisk in reasons <==> reached && o.status.value.freeBytes < req.minFreeBytes)
      && (BrokerProbeError in reasons <==> reached && o.status.value.brokerProbeError)
  {
  }

  function LoadOf(o: Observation): Load
    requires o.status.Some?
  {
    Load(o.status.value.queue, IdleGpus(o.status.value.gpus), o.status.value.activeRuns)
  }

  ghost predicate Known(catalog: map<Text, set<Text>>, observations: seq<Observation>) {
    forall o :: o in observations ==> o.nodeId in catalog
  }

  /** The eligible nodes of a probe, each with its load. */
  ghost function Loads(catalog: map<Text, set<Text>>, observations: seq<Observation>, req: Requirements)
    : map<Text, Load>
    requires DistinctNodes(observations) && Known(catalog, observations)
  {
    map o | o in observations && Eligible(catalog, o, req) :: o.nodeId := LoadOf(o)
  }

  predicate Decides(d: Decision, catalog: map<Text, set<Text>>, o: Observation, req: Requirements)
    requires o.nodeId in catalog
  {
    d == Decision(o.nodeId, Reasons(catalog, o, req))
  }

  ghost predicate DecisionsFor(
    decisions: seq<Decision>, catalog: map<Text, set<Text>>, observations: seq<Observation>, req: Requirements)
    requires Known(catalog, observations)
  {
    && |decisions| == |observations|
    && forall i :: 0 <= i < |decisions| ==>
      Decides(decisions[i], catalog, observations[i], req)
  }

  // ---------------------------------------------------------------- the algorithms

  /** Python's `min` with a rank key. */
  method Least(ranked: seq<Rank>) returns (k: nat)
    requires ranked != []
    ensures k < |ranked|
    ensures forall j :: 0 <= j < |ranked| ==> AtMost(ranked[k], ranked[j])
  {
    k := 0;
    for i := 1 to |ranked|
      invariant k < |ranked|
      invariant forall j :: 0 <= j < i ==> AtMost(ranked[k], ranked[j])
    {
      BeforeIsTotal(ranked[i], ranked[k]);
      if Before(ranked[i], ranked[k]) {
        forall j | 0 <= j < i ensures AtMost(ranked[i], ranked[j]) {
          BeforeIsTransitive(ranked[i], ranked[k], ranked[j]);
        }
        k := i;
      }
    }
  }

  ghost predicate IsSelected(chosen: Text, loads: map<Text, Load>) {
    && chosen in loads
    && forall id :: id in loads && id != chosen ==> Before(SelectRank(loads[chosen], chosen), SelectRank(loads[id], id))
  }

  /** The observations that pass every filter, in probe order. */
  function Passing(catalog: map<Text, set<Text>>, observations: seq<Observation>, req: Requirements)
    : (passing: seq<Observation>)
    requires forall i :: 0 <= i < |observations| ==> observations[i].nodeId in catalog
    ensures forall o :: o in passing <==> o in observations && Eligible(catalog, o, req)
  {
    if observations == [] then [] else
      var last := observations[|observations| - 1];
      assert observations == observations[..|observations| - 1] + [last];
      Passing(catalog, observations[..|observations| - 1], req) + if Eligible(catalog, last, req) then [last] else []
  }

  lemma PassingOneMore(catalog: map<Text, set<Text>>, observations: seq<Observation>, i: nat, req: Requirements)
    requires i < |observations| && forall j :: 0 <= j <= i ==> observations[j].nodeId in catalog
    ensures Passing(catalog, observations[..i + 1], req)
         == Passing(catalog, observations[..i], req)
            + if Eligible(catalog, observations[i], req) then [observations[i]] else []
  {
    assert observations[..i + 1][..i] == observations[..i];
  }

  /** What the loop of `select_node` has after `n` observations. */
  ghost predicate Surveyed(
    catalog: map<Text, set<Text>>, observations: seq<Observation>, n: nat, req: Requirements,
    decisions: seq<Decision>, eligible: seq<Observation>, ranked: seq<Rank>)
    requires n <= |observations|
  {
    && (forall j :: 0 <= j < n ==> observations[j].nodeId in catalog)
    && |decisions| == n
    && (forall j :: 0 <= j < n ==> Decides(decisions[j], catalog, observations[j], req))
    && eligible == Passing(catalog, observations[..n], req)
    && RanksOf(ranked, eligible)
  }

  lemma SurveyOne(
    catalog: map<Text, set<Text>>, observations: seq<Observation>, n: nat, req: Requirements,
    decisions: seq<Decision>, eligible: seq<Observation>, ranked: seq<Rank>)
    requires n < |observations| && observations[n].nodeId in catalog
    requires Surveyed(catalog, observations, n, req, decisions, eligible, ranked)
    ensures
      var o := observations[n];
      var reasons := Reasons(catalog, o, req);
      var extended := decisions + [Decision(o.nodeId, reasons)];
      if reasons == [] then
        Surveyed(
          catalog, observations, n + 1, req, extended, eligible + [o], ranked + [SelectRank(LoadOf(o), o.nodeId)])
      else
        Surveyed(catalog, observations, n + 1, req, extended, eligible, ranked)
  {
    PassingOneMore(catalog, observations, n, req);
    var o := observations[n];
    assert Decides(Decision(o.nodeId, Reasons(catalog, o, req)), catalog, o, req);
    if Eligible(catalog, o, req) { RankOneMore(ranked, eligible, o); }
  }

  lemma RankOneMore(ranked: seq<Rank>, eligible: seq<Observation>, o: Observation)
    requires RanksOf(ranked, eligible) && o.status.Some?
    ensures RanksOf(ranked + [SelectRank(LoadOf(o), o.nodeId)], eligible + [o])
  {
  }

  /** The loop of `select_node`: one decision per observation, and the ranked survivors.
      A probe of a node outside the catalog stops it (a KeyError in Python). */
  method Survey(catalog: map<Text, set<Text>>, observations: seq<Observation>, req: Requirements)
    returns (unknown: Option<Text>, decisions: seq<Decision>, eligible: seq<Observation>, ranked: seq<Rank>)
    ensures unknown.Some? <==> !Known(catalog, observations)
    ensures unknown.None? ==>
      && DecisionsFor(decisions, catalog, observations, req)
      && eligible == Passing(catalog, observations, req)
      && RanksOf(ranked, eligible)
  {
    decisions, eligible, ranked := [], [], [];
    for i := 0 to |observations|
      invariant Surveyed(catalog, observations, i, req, decisions, eligible, ranked)
    {
      var o := observations[i];
      if o.nodeId !in catalog {
        assert o in observations;
        return Some(o.nodeId), decisions, eligible, ranked;
      }
      SurveyOne(catalog, observations, i, req, decisions, eligible, ranked);
      var reasons := Reasons(catalog, o, req);
      decisions := decisions + [Decision(o.nodeId, reasons)];
      if reasons == [] {
        eligible := eligible + [o];
        ranked := ranked + [SelectRank(LoadOf(o), o.nodeId)];
      }
    }
    assert observations[..|observations|] == observations;
    unknown := None;
  }

  ghost predicate RanksOf(ranked: seq<Rank>, eligible: seq<Observation>) {
    && |ranked| == |eligible|
    && forall k :: 0 <= k < |eligible| ==>
      eligible[k].status.Some? && ranked[k] == SelectRank(LoadOf(eligible[k]), eligible[k].nodeId)
  }

  method SelectNode(catalog: map<Text, set<Text>>, observations: seq<Observation>, req: Requirements)
    returns (r: Selection)
    requires DistinctNodes(observations)
    ensures r.UnknownNode? <==> !Known(catalog, observations)
    ensures !r.UnknownNode? ==> DecisionsFor(r.decisions, catalog, observations, req)
    ensures r.NoEligibleNode? <==> Known(catalog, observations) && Loads(catalog, observations, req) == map[]
    ensures r.Selected? ==>
      r.observation in observations && IsSelected(r.observation.nodeId, Loads(catalog, observations, req))
  {
    var unknown, decisions, eligible, ranked := Survey(catalog, observations, req);
    if unknown.Some? {
      return UnknownNode(unknown.value);
    }
    if eligible == [] {
      return NoEligibleNode(decisions);
    }
    var k := Least(ranked);
    LeastIsSelected(catalog, observations, req, eligible, ranked, k);
    return Selected(eligible[k], decisions);
  }

  lemma LeastIsSelected(
    catalog: map<Text, set<Text>>, observations: seq<Observation>, req: Requirements,
    eligible: seq<Observation>, ranked: seq<Rank>, k: nat)
    requires DistinctNodes(observations) && Known(catalog, observations)
    requires forall o :: o in eligible <==> o in observations && Eligible(catalog, o, req)
    requires RanksOf(ranked, eligible)
    requires k < |ranked| && forall j :: 0 <= j < |ranked| ==> AtMost(ranked[k], ranked[j])
    ensures IsSelected(eligible[k].nodeId, Loads(catalog, observations, req))
    ensures Loads(catalog, observations, req) != map[]
  {
    var loads := Loads(catalog, observations, req);
    var chosen := eligible[k].nodeId;
    assert chosen in loads;
    forall id | id in loads && id != chosen
      ensures Before(SelectRank(loads[chosen], chosen), SelectRank(loads[id], id))
    {
      var o :| o in observations && Eligible(catalog, o, req) && o.nodeId == id;
      var j :| 0 <= j < |eligible| && eligible[j] == o;
      assert AtMost(ranked[k], ranked[j]);
    }
  }

  /** `id` is the one node whose next slot ranks first, given how often each node was picked. */
  ghost predicate IsNext(loads: map<Text, Load>, picked: multiset<Text>, id: Text) {
    && id in loads
    && forall other :: other in loads && other != id ==>
      Before(Projected(loads[id], id, picked[id] + 1), Projected(loads[other], other, picked[other] + 1))
  }

  ghost predicate GreedyAt(loads: map<Text, Load>, picks: seq<Text>, i: nat)
    requires i < |picks|
  {
    IsNext(loads, multiset(picks[..i]), picks[i])
  }

  ghost predicate IsGreedy(loads: map<Text, Load>, picks: seq<Text>) {
    forall i {:trigger GreedyAt(loads, picks, i)} :: 0 <= i < |picks| ==> GreedyAt(loads, picks, i)
  }

  ghost function Picks(assignments: seq<Assignment>): (picks: seq<Text>)
    ensures |picks| == |assignments|
  {
    seq(|assignments|, i requires 0 <= i < |assignments| => assignments[i].observation.nodeId)
  }

  /** Every field of the assignment that follows the picks `earlier` is determined by them. */
  ghost predicate Follows(a: Assignment, earlier: seq<Text>, observations: seq<Observation>, loads: map<Text, Load>) {
    var id := a.observation.nodeId;
    && a.index == |earlier|
    && a.observation in observations && id in loads
    && a.assignedBefore == multiset(earlier)[id]
    && a.rank == Projected(loads[id], id, a.assignedBefore + 1)
  }

  ghost predicate Describes(assignments: seq<Assignment>, observations: seq<Observation>, loads: map<Text, Load>) {
    forall i :: 0 <= i < |assignments| ==> Follows(assignments[i], Picks(assignments[..i]), observations, loads)
  }

  function EligibleIds(decisions: seq<Decision>): set<Text> { set d | d in decisions && d.reasons == [] :: d.nodeId }

  function ByNode(observations: seq<Observation>): map<Text, Observation>
    requires DistinctNodes(observations)
  {
    map o | o in observations :: o.nodeId := o
  }

  lemma EligibleHaveLoads(
    catalog: map<Text, set<Text>>, observations: seq<Observation>, req: Requirements, decisions: seq<Decision>)
    requires DistinctNodes(observations) && Known(catalog, observations)
    requires DecisionsFor(decisions, catalog, observations, req)
    ensures EligibleIds(decisions) == Loads(catalog, observations, req).Keys
  {
    assert forall i :: 0 <= i < |observations| ==> decisions[i] in decisions;
  }

  lemma EligibleAreObserved(
    catalog: map<Text, set<Text>>, observations: seq<Observation>, req: Requirements)
    requires DistinctNodes(observations) && Known(catalog, observations)
    ensures Observes(ByNode(observations), observations, Loads(catalog, observations, req))
  {
  }

  method PlanBatchNodes(
    catalog: map<Text, set<Text>>, observations: seq<Observation>, req: Requirements, count: int)
    returns (r: Plan)
    requires DistinctNodes(observations)
    ensures r.BadCount? <==> !(1 <= count <= MAX_FLEET_BATCH_CANDIDATES)
    ensures r.Refused? <==>
      !r.BadCount? && (!Known(catalog, observations) || Loads(catalog, observations, req) == map[])
    ensures r.Planned? ==>
      && DecisionsFor(r.decisions, catalog, observations, req)
      && |r.assignments| == count
      && Describes(r.assignments, observations, Loads(catalog, observations, req))
      && IsGreedy(Loads(catalog, observations, req), Picks(r.assignments))
  {
    if count < 1 || count > MAX_FLEET_BATCH_CANDIDATES {
      return BadCount;
    }
    var selection := SelectNode(catalog, observations, req);
    if !selection.Selected? {
      return Refused(selection);
    }
    var assignments := AssignEligible(catalog, observations, req, selection.decisions, count);
    return Planned(assignments, selection.decisions);
  }

  /** The eligible ids and the observation of each, then the rounds. */
  method AssignEligible(
    ghost catalog: map<Text, set<Text>>, observations: seq<Observation>, ghost req: Requirements,
    decisions: seq<Decision>, count: nat)
    returns (assignments: seq<Assignment>)
    requires DistinctNodes(observations) && Known(catalog, observations)
    requires DecisionsFor(decisions, catalog, observations, req) && Loads(catalog, observations, req) != map[]
    ensures |assignments| == count
    ensures Describes(assignments, observations, Loads(catalog, observations, req))
    ensures IsGreedy(Loads(catalog, observations, req), Picks(assignments))
  {
    var eligibleIds, observed := EligibleIds(decisions), ByNode(observations);
    EligibleHaveLoads(catalog, observations, req, decisions);
    EligibleAreObserved(catalog, observations, req);
    ghost var loads := Loads(catalog, observations, req);
    assert loads.Keys != {};
    assignments := AssignRounds(eligibleIds, observations, observed, loads, count);
  }

  /** Every node of `loads` is observed with its load. */
  ghost predicate Observes(observed: map<Text, Observation>, observations: seq<Observation>, loads: map<Text, Load>) {
    forall id :: id in loads ==>
      && id in observed && observed[id] in observations && observed[id].nodeId == id
      && observed[id].status.Some? && LoadOf(observed[id]) == loads[id]
  }

  ghost predicate Tallies(tally: map<Text, nat>, picks: seq<Text>) {
    forall id :: id in tally ==> tally[id] == multiset(picks)[id]
  }

  lemma TallyOneMore(tally: map<Text, nat>, picks: seq<Text>, id: Text)
    requires Tallies(tally, picks) && id in tally
    ensures Tallies(tally[id := tally[id] + 1], picks + [id])
  {
  }

  method AssignRounds(
    eligibleIds: set<Text>, ghost observations: seq<Observation>, observed: map<Text, Observation>,
    ghost loads: map<Text, Load>, count: nat)
    returns (assignments: seq<Assignment>)
    requires eligibleIds == loads.Keys && eligibleIds != {} && Observes(observed, observations, loads)
    ensures |assignments| == count
    ensures Describes(assignments, observations, loads) && IsGreedy(loads, Picks(assignments))
  {
    var tally: map<Text, nat> := map id | id in eligibleIds :: 0;
    assignments := [];
    for index := 0 to count
      invariant |assignments| == index
      invariant tally.Keys == eligibleIds
      invariant Tallies(tally, Picks(assignments))
      invariant Describes(assignments, observations, loads)
      invariant IsGreedy(loads, Picks(assignments))
    {
      var best := NextAssignment(eligibleIds, observations, observed, tally, loads, Picks(assignments), index);
      ExtendPicks(assignments, best);
      ExtendDescription(assignments, best, observations, loads);
      ExtendGreedy(loads, Picks(assignments), best.observation.nodeId);
      TallyOneMore(tally, Picks(assignments), best.observation.nodeId);
      assignments := assignments + [best];
      var id := best.observation.nodeId;
      tally := tally[id := tally[id] + 1];
    }
  }

  lemma ExtendPicks(assignments: seq<Assignment>, best: Assignment)
    ensures Picks(assignments + [best]) == Picks(assignments) + [best.observation.nodeId]
  {
  }

  lemma ExtendDescription(
    assignments: seq<Assignment>, best: Assignment, observations: seq<Observation>, loads: map<Text, Load>)
    requires Describes(assignments, observations, loads)
    requires Follows(best, Picks(assignments), observations, loads)
    ensures Describes(assignments + [best], observations, loads)
  {
    var extended := assignments + [best];
    forall i | 0 <= i < |extended|
      ensures Follows(extended[i], Picks(extended[..i]), observations, loads)
    {
      assert extended[..i] == if i < |assignments| then assignments[..i] else assignments;
    }
  }

  lemma ExtendGreedy(loads: map<Text, Load>, picks: seq<Text>, id: Text)
    requires IsGreedy(loads, picks) && IsNext(loads, multiset(picks), id)
    ensures IsGreedy(loads, picks + [id])
  {
    var extended := picks + [id];
    forall i | 0 <= i < |extended| ensures GreedyAt(loads, extended, i) {
      assert extended[..i] == if i < |picks| then picks[..i] else picks;
      assert i < |picks| ==> GreedyAt(loads, picks, i);
    }
  }

  /** One round of the planner: rank every eligible node in whatever order the set yields them. */
  method NextAssignment(
    eligibleIds: set<Text>, ghost observations: seq<Observation>, observed: map<Text, Observation>,
    tally: map<Text, nat>, ghost loads: map<Text, Load>, ghost picks: seq<Text>, index: nat)
    returns (a: Assignment)
    requires eligibleIds == loads.Keys == tally.Keys && eligibleIds != {} && Observes(observed, observations, loads)
    requires |picks| == index && Tallies(tally, picks)
    ensures Follows(a, picks, observations, loads)
    ensures IsNext(loads, multiset(picks), a.observation.nodeId)
  {
    var todo := eligibleIds;
    var ids: seq<Text> := [];
    var ranked: seq<Rank> := [];
    while todo != {}
      invariant |ids| == |ranked|
      invariant todo <= eligibleIds
      invariant forall id :: id in eligibleIds ==> id in todo || id in ids
      invariant forall k :: 0 <= k < |ids| ==>
        ids[k] in eligibleIds && ranked[k] == Projected(loads[ids[k]], ids[k], tally[ids[k]] + 1)
      decreases todo
    {
      var id :| id in todo;
      todo := todo - {id};
      ids := ids + [id];
      ranked := ranked + [Projected(LoadOf(observed[id]), id, tally[id] + 1)];
    }
    var some :| some in eligibleIds;
    assert some in ids;
    var k := Least(ranked);
    LeastIsNext(loads, tally, picks, ids, ranked, k);
    a := Assignment(index, observed[ids[k]], ranked[k], tally[ids[k]]);
  }

  lemma LeastIsNext(
    loads: map<Text, Load>, tally: map<Text, nat>, picks: seq<Text>, ids: seq<Text>, ranked: seq<Rank>, k: nat)
    requires loads.Keys == tally.Keys
    requires forall id :: id in loads ==> id in ids && tally[id] == multiset(picks)[id]
    requires |ids| == |ranked|
    requires forall j :: 0 <= j < |ids| ==>
      ids[j] in loads && ranked[j] == Projected(loads[ids[j]], ids[j], tally[ids[j]] + 1)
    requires k < |ranked| && forall j :: 0 <= j < |ranked| ==> AtMost(ranked[k], ranked[j])
    ensures IsNext(loads, multiset(picks), ids[k])
  {
    forall id | id in loads && id != ids[k]
      ensures Before(ranked[k], Projected(loads[id], id, multiset(picks)[id] + 1))
    {
      var j :| 0 <= j < |ids| && ids[j] == id;
      assert AtMost(ranked[k], ranked[j]);
    }
  }
}
