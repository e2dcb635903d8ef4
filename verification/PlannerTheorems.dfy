/** What the greedy plan is worth: it is the k-way merge of the nodes' rank streams,
    and no other allocation of the same number of items beats it. */
module PlannerTheorems {
  import opened Texts
  import opened Planner

  /** The `k`-th item placed on a node, counting from 1. */
  datatype Slot = Slot(node: Text, k: nat)

  ghost predicate IsSlot(loads: map<Text, Load>, s: Slot) { s.node in loads && s.k >= 1 }

  ghost function RankOf(loads: map<Text, Load>, s: Slot): Rank
    requires s.node in loads
  {
    Projected(loads[s.node], s.node, s.k)
  }

  /** The slot filled by pick number `i`. */
  ghost function SlotAt(picks: seq<Text>, i: nat): Slot
    requires i < |picks|
  {
    Slot(picks[i], multiset(picks[..i])[picks[i]] + 1)
  }

  lemma ProjectedIncreases(load: Load, id: Text, k: nat, k': nat)
    requires k < k'
    ensures Before(Projected(load, id, k), Projected(load, id, k'))
  {
  }

  lemma TallyGrows(picks: seq<Text>, i: nat, id: Text)
    requires i <= |picks|
    ensures multiset(picks[..i])[id] <= multiset(picks)[id]
    ensures i < |picks| && picks[i] == id ==> multiset(picks[..i])[id] < multiset(picks)[id]
  {
    assert picks == picks[..i] + picks[i..];
    if i < |picks| {
      assert picks[i..] == [picks[i]] + picks[i + 1..];
    }
  }

  /** Whatever the plan chose ranks before everything it left out. */
  lemma ChosenBeforeRest(loads: map<Text, Load>, picks: seq<Text>, i: nat, s: Slot)
    requires IsGreedy(loads, picks) && i < |picks|
    requires IsSlot(loads, s) && multiset(picks)[s.node] < s.k
    ensures picks[i] in loads && Before(RankOf(loads, SlotAt(picks, i)), RankOf(loads, s))
  {
    var picked := multiset(picks[..i]);
    assert GreedyAt(loads, picks, i);
    TallyGrows(picks, i, s.node);
    var next := Slot(s.node, picked[s.node] + 1);
    if next.k < s.k {
      ProjectedIncreases(loads[s.node], s.node, next.k, s.k);
    }
    BeforeIsTransitive(RankOf(loads, SlotAt(picks, i)), RankOf(loads, next), RankOf(loads, s));
  }

  lemma GreedyPrefix(loads: map<Text, Load>, picks: seq<Text>, n: nat)
    requires IsGreedy(loads, picks) && n <= |picks|
    ensures IsGreedy(loads, picks[..n])
    ensures forall i :: 0 <= i < n ==> SlotAt(picks[..n], i) == SlotAt(picks, i)
  {
    assert forall i :: 0 <= i < n ==> picks[..n][..i] == picks[..i];
    forall i | 0 <= i < n ensures GreedyAt(loads, picks[..n], i) {
      assert GreedyAt(loads, picks, i);
    }
  }

  /** Emitted ranks are strictly increasing. */
  lemma RanksIncrease(loads: map<Text, Load>, picks: seq<Text>, i: nat, j: nat)
    requires IsGreedy(loads, picks) && i < j < |picks|
    ensures picks[i] in loads && picks[j] in loads
    ensures Before(RankOf(loads, SlotAt(picks, i)), RankOf(loads, SlotAt(picks, j)))
  {
    assert GreedyAt(loads, picks, j);
    GreedyPrefix(loads, picks, j);
    ChosenBeforeRest(loads, picks[..j], i, SlotAt(picks, j));
  }

  /** The slots of a node are filled in order, none skipped. */
  lemma {:induction false} EverySlotIsEmitted(picks: seq<Text>, s: Slot) returns (i: nat)
    requires 1 <= s.k <= multiset(picks)[s.node]
    ensures i < |picks| && SlotAt(picks, i) == s
  {
    var n := |picks| - 1;
    assert picks == picks[..n] + [picks[n]];
    if s.k <= multiset(picks[..n])[s.node] {
      i := EverySlotIsEmitted(picks[..n], s);
      assert picks[..n][..i] == picks[..i];
    } else {
      i := n;
    }
  }

  lemma PickIsEligible(loads: map<Text, Load>, picks: seq<Text>, i: nat)
    requires IsGreedy(loads, picks) && i < |picks|
    ensures picks[i] in loads
  {
    assert GreedyAt(loads, picks, i);
  }

  ghost predicate Emitted(picks: seq<Text>, s: Slot) {
    exists i :: 0 <= i < |picks| && SlotAt(picks, i) == s
  }

  lemma EmittedByTally(picks: seq<Text>, s: Slot)
    requires s.k >= 1
    ensures Emitted(picks, s) <==> s.k <= multiset(picks)[s.node]
  {
    if s.k <= multiset(picks)[s.node] {
      var i := EverySlotIsEmitted(picks, s);
    } else {
      forall i | 0 <= i < |picks| ensures SlotAt(picks, i) != s {
        TallyGrows(picks, i, s.node);
      }
    }
  }

  /** The emitted slots are exactly those ranking up to the last one emitted: the plan merges the
      nodes' rank streams without skipping a slot. */
  lemma KWayMerge(loads: map<Text, Load>, picks: seq<Text>, s: Slot)
    requires IsGreedy(loads, picks) && picks != [] && IsSlot(loads, s)
    ensures picks[|picks| - 1] in loads
    ensures Emitted(picks, s) <==> AtMost(RankOf(loads, s), RankOf(loads, SlotAt(picks, |picks| - 1)))
  {
    var last := |picks| - 1;
    PickIsEligible(loads, picks, last);
    EmittedByTally(picks, s);
    if Emitted(picks, s) {
      var i :| 0 <= i < |picks| && SlotAt(picks, i) == s;
      if i < last {
        RanksIncrease(loads, picks, i, last);
      }
    } else {
      ChosenBeforeRest(loads, picks, last, s);
      BeforeIsTotal(RankOf(loads, s), RankOf(loads, SlotAt(picks, last)));
    }
  }

  // ---------------------------------------------------------------- optimality

  ghost predicate RankOrdered(loads: map<Text, Load>, slots: seq<Slot>) {
    && (forall i :: 0 <= i < |slots| ==> IsSlot(loads, slots[i]))
    && forall i, j :: 0 <= i < j < |slots| ==> Before(RankOf(loads, slots[i]), RankOf(loads, slots[j]))
  }

  lemma {:induction false} PigeonHole(pigeons: seq<Slot>, holes: seq<Slot>)
    requires forall i, j :: 0 <= i < j < |pigeons| ==> pigeons[i] != pigeons[j]
    requires forall p :: p in pigeons ==> p in holes
    ensures |pigeons| <= |holes|
  {
    if pigeons != [] {
      var p := pigeons[0];
      assert p in pigeons && p in holes;
      var k :| 0 <= k < |holes| && holes[k] == p;
      var rest := holes[..k] + holes[k + 1..];
      forall q | q in pigeons[1..] ensures q in rest {
        assert q in pigeons && q in holes;
        var h :| 0 <= h < |holes| && holes[h] == q;
        assert h < k ==> rest[h] == q;
        assert h > k ==> rest[h - 1] == q;
      }
      PigeonHole(pigeons[1..], rest);
    }
  }

  /** Exchange argument: for any other choice of slots, listed by rank, the plan's i-th smallest
      projected rank is no larger than the i-th smallest of that choice. */
  lemma GreedyDominates(loads: map<Text, Load>, picks: seq<Text>, other: seq<Slot>, i: nat)
    requires IsGreedy(loads, picks) && RankOrdered(loads, other)
    requires i < |picks| && i < |other|
    ensures picks[i] in loads && AtMost(RankOf(loads, SlotAt(picks, i)), RankOf(loads, other[i]))
  {
    PickIsEligible(loads, picks, i);
    var bound := RankOf(loads, SlotAt(picks, i));
    BeforeIsTotal(bound, RankOf(loads, other[i]));
    if Before(RankOf(loads, other[i]), bound) {
      var earlier := seq(i, j requires 0 <= j < i => SlotAt(picks, j));
      forall j | 0 <= j <= i ensures other[j] in earlier {
        BeforeIsTransitive(RankOf(loads, other[j]), RankOf(loads, other[i]), bound);
        var k := EarlierSlot(loads, picks, i, other[j]);
        assert earlier[k] == other[j];
      }
      forall j, k | 0 <= j < k <= i ensures other[j] != other[k] {
        BeforeIsTotal(RankOf(loads, other[j]), RankOf(loads, other[k]));
      }
      PigeonHole(other[..i + 1], earlier);
    }
  }

  /** A slot ranking before pick `i` was filled before it. */
  lemma EarlierSlot(loads: map<Text, Load>, picks: seq<Text>, i: nat, s: Slot) returns (k: nat)
    requires IsGreedy(loads, picks) && i < |picks| && IsSlot(loads, s)
    requires picks[i] in loads && Before(RankOf(loads, s), RankOf(loads, SlotAt(picks, i)))
    ensures k < i && SlotAt(picks, k) == s
  {
    GreedyPrefix(loads, picks, i + 1);
    KWayMerge(loads, picks[..i + 1], s);
    k :| 0 <= k <= i && SlotAt(picks[..i + 1], k) == s;
    BeforeIsTotal(RankOf(loads, s), RankOf(loads, s));
  }

  ghost predicate Enumerates(slots: seq<Slot>, allocation: multiset<Text>) {
    && |slots| == |allocation|
    && forall s :: s in slots <==> 1 <= s.k <= allocation[s.node]
  }

  /** Every allocation can be listed by rank, so `GreedyDominates` compares with all of them. */
  lemma {:induction false} AllocationByRank(loads: map<Text, Load>, allocation: multiset<Text>)
    returns (slots: seq<Slot>)
    requires forall id :: id in allocation ==> id in loads
    ensures RankOrdered(loads, slots) && Enumerates(slots, allocation)
    decreases |allocation|
  {
    if allocation == multiset{} {
      slots := [];
    } else {
      var id :| id in allocation;
      var fewer := allocation - multiset{id};
      var rest := AllocationByRank(loads, fewer);
      slots := InsertByRank(loads, rest, Slot(id, allocation[id]));
    }
  }

  lemma {:induction false} InsertByRank(loads: map<Text, Load>, rest: seq<Slot>, s: Slot) returns (slots: seq<Slot>)
    requires RankOrdered(loads, rest) && IsSlot(loads, s) && s !in rest
    ensures RankOrdered(loads, slots) && |slots| == |rest| + 1
    ensures forall t :: t in slots <==> t == s || t in rest
  {
    if rest == [] {
      slots := [s];
    } else {
      var n := |rest| - 1;
      BeforeIsTotal(RankOf(loads, rest[n]), RankOf(loads, s));
      if Before(RankOf(loads, rest[n]), RankOf(loads, s)) {
        slots := rest + [s];
        forall i | 0 <= i < |rest| ensures Before(RankOf(loads, rest[i]), RankOf(loads, s)) {
          if i < n {
            BeforeIsTransitive(RankOf(loads, rest[i]), RankOf(loads, rest[n]), RankOf(loads, s));
          }
        }
      } else {
        assert rest == rest[..n] + [rest[n]];
        var front := InsertByRank(loads, rest[..n], s);
        slots := front + [rest[n]];
        forall i | 0 <= i < |front| ensures Before(RankOf(loads, front[i]), RankOf(loads, rest[n])) {
          assert front[i] in front;
        }
      }
    }
  }

  /** The optimality theorem over allocations: position by position, no allocation of as many items
      over the eligible nodes has smaller projected ranks. */
  lemma GreedyIsOptimal(loads: map<Text, Load>, picks: seq<Text>, allocation: multiset<Text>) returns (slots: seq<Slot>)
    requires IsGreedy(loads, picks)
    requires |allocation| == |picks| && forall id :: id in allocation ==> id in loads
    ensures RankOrdered(loads, slots) && Enumerates(slots, allocation)
    ensures forall i :: 0 <= i < |picks| ==>
      picks[i] in loads && AtMost(RankOf(loads, SlotAt(picks, i)), RankOf(loads, slots[i]))
  {
    slots := AllocationByRank(loads, allocation);
    forall i | 0 <= i < |picks|
      ensures picks[i] in loads && AtMost(RankOf(loads, SlotAt(picks, i)), RankOf(loads, slots[i]))
    {
      GreedyDominates(loads, picks, slots, i);
    }
  }

  ghost function QueueAfter(load: Load, items: nat): int { load.queue + Max(0, items - load.idle) }

  lemma SomeNodeHasMore(a: multiset<Text>, b: multiset<Text>, n: Text) returns (m: Text)
    requires |a| == |b| && a[n] > b[n]
    ensures b[m] > a[m]
  {
    assert a == a * b + (a - b) && b == a * b + (b - a);
    assert n in a - b;
    m :| m in b - a;
  }

  /** Hence the plan minimises the longest projected queue over the eligible nodes. */
  lemma MinimisesLongestQueue(loads: map<Text, Load>, picks: seq<Text>, allocation: multiset<Text>, n: Text)
    returns (m: Text)
    requires IsGreedy(loads, picks) && n in loads
    requires |allocation| == |picks| && forall id :: id in allocation ==> id in loads
    ensures m in loads
    ensures QueueAfter(loads[n], multiset(picks)[n]) <= QueueAfter(loads[m], allocation[m])
  {
    var greedy := multiset(picks);
    if greedy[n] <= allocation[n] {
      return n;
    }
    m := SomeNodeHasMore(greedy, allocation, n);
    var i := EverySlotIsEmitted(picks, Slot(n, greedy[n]));
    ChosenBeforeRest(loads, picks, i, Slot(m, allocation[m]));
  }

  // ---------------------------------------------------------------- stability

  lemma NextIsUnique(loads: map<Text, Load>, picked: multiset<Text>, a: Text, b: Text)
    requires IsNext(loads, picked, a) && IsNext(loads, picked, b)
    ensures a == b
  {
    if a != b {
      BeforeIsTotal(Projected(loads[a], a, picked[a] + 1), Projected(loads[b], b, picked[b] + 1));
    }
  }

  /** There is only one greedy plan: a shorter plan is a prefix of a longer one, and the order in
      which Python iterates the set of eligible ids cannot matter. */
  lemma {:induction false} PlanIsStable(loads: map<Text, Load>, shorter: seq<Text>, longer: seq<Text>)
    requires IsGreedy(loads, shorter) && IsGreedy(loads, longer) && |shorter| <= |longer|
    ensures shorter == longer[..|shorter|]
  {
    if shorter != [] {
      var n := |shorter| - 1;
      GreedyPrefix(loads, shorter, n);
      PlanIsStable(loads, shorter[..n], longer);
      assert shorter[..n] == longer[..n];
      assert GreedyAt(loads, shorter, n) && GreedyAt(loads, longer, n);
      NextIsUnique(loads, multiset(shorter[..n]), shorter[n], longer[n]);
    }
  }

  /** `other` sits one queue place behind `chosen` but still has an idle GPU. */
  ghost predicate Overtakes(loads: map<Text, Load>, other: Text, chosen: Text)
    requires other in loads && chosen in loads
  {
    && loads[other].queue == loads[chosen].queue + 1
    && loads[other].idle >= 1
    && (loads[other].idle >= 2
        || loads[other].active < loads[chosen].active
        || (loads[other].active == loads[chosen].active && Below(other, chosen)))
  }

  /** Single submission and a batch start on the same node exactly when the selected node has an
      idle GPU or no node one place behind it overtakes it. */
  lemma FirstPickIsSelection(loads: map<Text, Load>, chosen: Text, first: Text)
    requires IsSelected(chosen, loads) && IsNext(loads, multiset{}, first)
    ensures first == chosen
       <==> loads[chosen].idle >= 1 || forall other :: other in loads ==> !Overtakes(loads, other, chosen)
  {
    BelowIsTotal(first, chosen);
    if first == chosen && loads[chosen].idle == 0 {
      forall other | other in loads ensures !Overtakes(loads, other, chosen) {
        BelowIsTotal(other, chosen);
        assert other != chosen ==>
          Before(Projected(loads[chosen], chosen, 1), Projected(loads[other], other, 1));
      }
    }
    if first != chosen {
      assert Before(SelectRank(loads[chosen], chosen), SelectRank(loads[first], first));
      assert Before(Projected(loads[first], first, 1), Projected(loads[chosen], chosen, 1));
      assert loads[chosen].idle == 0 && Overtakes(loads, first, chosen);
    }
  }

  /** In particular they agree when every node has an idle GPU, or none has. */
  lemma UniformNodesAgree(loads: map<Text, Load>, chosen: Text, first: Text)
    requires IsSelected(chosen, loads) && IsNext(loads, multiset{}, first)
    requires (forall id :: id in loads ==> loads[id].idle >= 1) || (forall id :: id in loads ==> loads[id].idle == 0)
    ensures first == chosen
  {
    FirstPickIsSelection(loads, chosen, first);
  }

  /** They can differ: a node with an empty queue but no idle GPU is selected for one item, while
      the batch starts on the node with one queued job and an idle GPU. */
  lemma FirstPickCanDiffer(chosen: Text, first: Text) returns (loads: map<Text, Load>)
    requires chosen != first
    ensures IsSelected(chosen, loads) && IsNext(loads, multiset{}, first)
  {
    var full, waiting := Load(0, 0, 1), Load(1, 1, 0);
    loads := map[chosen := full, first := waiting];
    assert Before(SelectRank(full, chosen), SelectRank(waiting, first));
    assert Before(Projected(waiting, first, 1), Projected(full, chosen, 1));
  }
}
