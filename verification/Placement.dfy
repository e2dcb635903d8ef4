/** What the ranks of the planner mean: what placing items does to a node, and whom a pick prefers. */
module Placement {
  import opened Wrappers
  import opened Texts
  import opened Planner
  import opened PlannerTheorems

  // ---------------------------------------------------------------- placing items

  /** One item takes an idle GPU if there is one, and otherwise lengthens the queue by one. */
  function Placed(l: Load): Load {
    if l.idle > 0 then Load(l.queue, l.idle - 1, l.active + 1) else Load(l.queue + 1, 0, l.active + 1)
  }

  function PlacedTimes(l: Load, k: nat): Load { if k == 0 then l else Placed(PlacedTimes(l, k - 1)) }

  lemma {:induction false} PlacedTimesAre(l: Load, k: nat)
    ensures PlacedTimes(l, k) ==
      if k <= l.idle then Load(l.queue, l.idle - k, l.active + k) else Load(l.queue + (k - l.idle), 0, l.active + k)
  {
    if k > 0 {
      PlacedTimesAre(l, k - 1);
    }
  }

  /** The projected rank of a node is the selection rank of the node once `k` items were placed on it. */
  lemma ProjectedIsPlaced(l: Load, id: Text, k: nat)
    ensures Projected(l, id, k) == SelectRank(PlacedTimes(l, k), id)
  {
    PlacedTimesAre(l, k);
  }

  // ---------------------------------------------------------------- whom a choice prefers

  /** Selection takes the shortest queue, then the most idle GPUs, then the fewest active runs, then the
      least id. */
  lemma SelectionExactly(loads: map<Text, Load>, chosen: Text)
    ensures IsSelected(chosen, loads) <==>
      (&& chosen in loads
       && forall id :: id in loads && id != chosen ==>
          (|| loads[chosen].queue < loads[id].queue
           || (loads[chosen].queue == loads[id].queue
               && (|| loads[chosen].idle > loads[id].idle
                   || (loads[chosen].idle == loads[id].idle
                       && (|| loads[chosen].active < loads[id].active
                           || (loads[chosen].active == loads[id].active && Below(chosen, id))))))))
  {
  }

  /** The queue of a node that holds `n` items, after one more. */
  function QueueWithOneMore(l: Load, n: nat): nat { if n < l.idle then l.queue else l.queue + (n + 1 - l.idle) }

  /** The idle GPUs it has left then. */
  function LeftWithOneMore(l: Load, n: nat): nat { if n + 1 < l.idle then l.idle - (n + 1) else 0 }

  /** Given the items each node holds, the next one goes to the node whose queue with one more is shortest,
      then to the one with the most idle GPUs left, then with the fewest runs and items, then the least id. */
  lemma NextExactly(loads: map<Text, Load>, picked: multiset<Text>, id: Text)
    ensures IsNext(loads, picked, id) <==>
      (&& id in loads
       && forall m :: m in loads && m != id ==>
          (|| QueueWithOneMore(loads[id], picked[id]) < QueueWithOneMore(loads[m], picked[m])
           || (QueueWithOneMore(loads[id], picked[id]) == QueueWithOneMore(loads[m], picked[m])
               && (|| LeftWithOneMore(loads[id], picked[id]) > LeftWithOneMore(loads[m], picked[m])
                   || (LeftWithOneMore(loads[id], picked[id]) == LeftWithOneMore(loads[m], picked[m])
                       && (|| loads[id].active + picked[id] < loads[m].active + picked[m]
                           || (loads[id].active + picked[id] == loads[m].active + picked[m] && Below(id, m))))))))
  {
    if IsNext(loads, picked, id) {
      forall m | m in loads && m != id
        ensures Before(Projected(loads[id], id, picked[id] + 1), Projected(loads[m], m, picked[m] + 1))
      {
      }
    }
  }

  /** So every pick of a plan has the shortest queue with one more item, and of those with an equal one the
      most idle GPUs left. */
  lemma PicksMostIdle(loads: map<Text, Load>, picks: seq<Text>, i: nat, m: Text)
    requires IsGreedy(loads, picks) && i < |picks| && m in loads
    ensures
      var held, n := multiset(picks[..i]), picks[i];
      && n in loads
      && QueueWithOneMore(loads[n], held[n]) <= QueueWithOneMore(loads[m], held[m])
      && (QueueWithOneMore(loads[n], held[n]) == QueueWithOneMore(loads[m], held[m]) ==>
            LeftWithOneMore(loads[n], held[n]) >= LeftWithOneMore(loads[m], held[m]))
  {
    assert GreedyAt(loads, picks, i);
    NextExactly(loads, multiset(picks[..i]), picks[i]);
  }

  /** Two items on two empty nodes of 4 and 5 idle GPUs: one each, the larger node first. */
  lemma ItemsAreSpread(a: Text, b: Text, picks: seq<Text>)
    requires a != b && |picks| == 2 && IsGreedy(map[a := Load(0, 4, 0), b := Load(0, 5, 0)], picks)
    ensures picks == [b, a]
  {
    var loads := map[a := Load(0, 4, 0), b := Load(0, 5, 0)];
    assert GreedyAt(loads, picks, 0) && GreedyAt(loads, picks, 1);
    assert picks[..0] == [] && picks[..1] == [picks[0]];
    NextExactly(loads, multiset{}, picks[0]);
    assert b in loads && a in loads;
    assert picks[0] == b;
    assert multiset([b])[a] == 0 && multiset([b])[b] == 1;
    NextExactly(loads, multiset([b]), picks[1]);
    BelowIsTotal(a, b);
  }

  // ---------------------------------------------------------------- loads

  lemma {:induction false} IdleGpusAreCounted(gpus: seq<Gpu>)
    ensures IdleGpus(gpus) == multiset(gpus)[Idle]
  {
    if gpus != [] {
      IdleGpusAreCounted(gpus[1..]);
      assert gpus == [gpus[0]] + gpus[1..];
    }
  }

  /** Probed, with every capability, deployment and byte asked for and a broker without error. */
  predicate Usable(catalog: map<Text, set<Text>>, o: Observation, req: Requirements)
    requires o.nodeId in catalog
  {
    && o.ok && o.status.Some?
    && (forall c :: c in req.capabilities ==> c in catalog[o.nodeId])
    && (forall d :: d in req.deployments ==> d in o.status.value.ready)
    && o.status.value.freeBytes >= req.minFreeBytes && !o.status.value.brokerProbeError
  }

  /** The nodes that count are the usable ones, each with its queue, its GPUs in state idle and its active
      runs. */
  lemma LoadsAreRead(
    catalog: map<Text, set<Text>>, observations: seq<Observation>, req: Requirements, id: Text)
    requires DistinctNodes(observations) && Known(catalog, observations)
    ensures id in Loads(catalog, observations, req) <==>
      exists o :: o in observations && o.nodeId == id && Usable(catalog, o, req)
    ensures id in Loads(catalog, observations, req) ==>
      exists o :: o in observations && o.nodeId == id && o.status.Some?
        && Loads(catalog, observations, req)[id] ==
             Load(o.status.value.queue, multiset(o.status.value.gpus)[Idle], o.status.value.activeRuns)
  {
    var loads := Loads(catalog, observations, req);
    if id in loads {
      var o :| o in observations && Eligible(catalog, o, req) && o.nodeId == id && loads[id] == LoadOf(o);
      IdleGpusAreCounted(o.status.value.gpus);
    }
    forall o | o in observations && o.nodeId == id && Usable(catalog, o, req) ensures id in loads {
      assert Eligible(catalog, o, req);
    }
  }
}
