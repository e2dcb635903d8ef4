/** Recovery of deployments (`recover_interrupted` of services.py): one by one, in the order of the store. */
module DeploymentRecovery {
  import opened Wrappers
  import opened Texts
  import opened Services

  function Unended(deployments: map<Text, Deployment>): set<Text> {
    set id | id in deployments && !Terminal(deployments[id].phase)
  }

  /** All deployments, in the order in which `list_states` gives them. */
  ghost predicate IsListing(listing: seq<Text>, deployments: map<Text, Deployment>) {
    Distinct(listing) && forall id :: id in listing <==> id in deployments
  }

  /** The nonterminal deployments among those listed. */
  function ActiveIn(listing: seq<Text>, deployments: map<Text, Deployment>): (active: seq<Text>)
    ensures forall id :: id in active <==> id in listing && id in Unended(deployments)
  {
    if listing == [] then []
    else
      var init, last := listing[..|listing| - 1], listing[|listing| - 1];
      assert listing == init + [last];
      ActiveIn(init, deployments) + if last in Unended(deployments) then [last] else []
  }

  lemma {:induction false} ActiveInIsDistinct(listing: seq<Text>, deployments: map<Text, Deployment>)
    requires Distinct(listing)
    ensures Distinct(ActiveIn(listing, deployments))
  {
    if listing != [] {
      var init, last := listing[..|listing| - 1], listing[|listing| - 1];
      ActiveInIsDistinct(init, deployments);
      assert last !in init;
    }
  }

  /** The first deployment from `i` on whose broker call raises, or the end. */
  function FirstUnanswered(order: seq<Text>, answer: Text -> Option<bool>, i: nat): (n: nat)
    requires i <= |order|
    ensures i <= n <= |order| && (n < |order| ==> answer(order[n]).None?)
    ensures forall k :: i <= k < n ==> answer(order[k]).Some?
    decreases |order| - i
  {
    if i == |order| || answer(order[i]).None? then i else FirstUnanswered(order, answer, i + 1)
  }

  function Mark(d: Deployment): Deployment { d.(phase := Interrupted) }

  /** These deployments are interrupted, the others are as they were. */
  function Marked(before: map<Text, Deployment>, ids: seq<Text>): map<Text, Deployment> {
    map id | id in before :: if id in ids then Mark(before[id]) else before[id]
  }

  lemma MarkOneMore(before: map<Text, Deployment>, order: seq<Text>, n: nat)
    requires Distinct(order) && n < |order| && order[n] in before
    ensures Marked(before, order[..n])[order[n] := Mark(before[order[n]])] == Marked(before, order[..n + 1])
    ensures Marked(before, order[..n])[order[n]] == before[order[n]]
  {
    assert order[..n + 1] == order[..n] + [order[n]];
  }

  /** What recovery comes to: every deployment ahead of the first unanswered one is interrupted. */
  function Recovered(before: map<Text, Deployment>, listing: seq<Text>, answer: Text -> Option<bool>)
    : (map<Text, Deployment>, Result<nat, Text>)
  {
    var order := ActiveIn(listing, before);
    var n := FirstUnanswered(order, answer, 0);
    (Marked(before, order[..n]), if n == |order| then Ok(n) else Err(order[n]))
  }

  method MarkInterrupted(before: map<Text, Deployment>, listing: seq<Text>, answer: Text -> Option<bool>)
    returns (after: map<Text, Deployment>, r: Result<nat, Text>)
    requires IsListing(listing, before)
    ensures (after, r) == Recovered(before, listing, answer)
  {
    var active := ActiveIn(listing, before);
    ActiveInIsDistinct(listing, before);
    after := before;
    assert Marked(before, active[..0]) == before;
    for i := 0 to |active|
      invariant after == Marked(before, active[..i])
      invariant FirstUnanswered(active, answer, 0) == FirstUnanswered(active, answer, i)
    {
      assert active[i] in active;
      if answer(active[i]).None? {
        return after, Err(active[i]);
      }
      MarkOneMore(before, active, i);
      after := after[active[i] := after[active[i]].(phase := Interrupted)];
    }
    r := Ok(|active|);
  }

  // ---------------------------------------------------------------- success and failure

  lemma {:induction false} ActiveInCounts(order: seq<Text>, ids: set<Text>)
    requires Distinct(order) && forall id :: id in order <==> id in ids
    ensures |order| == |ids|
  {
    if order != [] {
      var init, last := order[..|order| - 1], order[|order| - 1];
      assert order == init + [last] && last in order && last !in init;
      ActiveInCounts(init, ids - {last});
    } else {
      assert ids == {};
    }
  }

  /** It succeeds exactly if every broker call is answered, and then nothing nonterminal is left. */
  lemma RecoveredExactly(before: map<Text, Deployment>, listing: seq<Text>, answer: Text -> Option<bool>)
    requires IsListing(listing, before)
    ensures
      var (after, r) := Recovered(before, listing, answer);
      && (r.Ok? <==> forall id :: id in Unended(before) ==> answer(id).Some?)
      && (r.Ok? ==> Unended(after) == {} && r.value == |Unended(before)|)
  {
    var order := ActiveIn(listing, before);
    var n := FirstUnanswered(order, answer, 0);
    ActiveInIsDistinct(listing, before);
    ActiveInCounts(order, Unended(before));
    if n == |order| {
      assert order[..n] == order;
    } else {
      assert order[n] in order;
    }
  }

  /** When it fails it has changed nothing exactly if the very first call raised. */
  lemma FailClosedExactly(before: map<Text, Deployment>, listing: seq<Text>, answer: Text -> Option<bool>)
    requires IsListing(listing, before) && Recovered(before, listing, answer).1.Err?
    ensures
      var order := ActiveIn(listing, before);
      order != [] && (Recovered(before, listing, answer).0 == before <==> answer(order[0]).None?)
  {
    var order := ActiveIn(listing, before);
    var n := FirstUnanswered(order, answer, 0);
    if n == 0 {
      assert Marked(before, order[..0]) == before;
    } else {
      assert order[0] in order[..n] && order[0] in order;
      assert Marked(before, order[..n])[order[0]].phase == Interrupted;
    }
  }

  /** Two deployments of which the first is answered for and the second is not: recovery fails with the
      first interrupted and the second as it was. */
  lemma RecoveryCanStopHalfway()
    returns (before: map<Text, Deployment>, listing: seq<Text>, answer: Text -> Option<bool>)
    ensures IsListing(listing, before) && Unended(before) == {[1], [2]}
    ensures Recovered(before, listing, answer).1 == Err([2])
    ensures Recovered(before, listing, answer).0 == before[[1] := Mark(before[[1]])] != before
  {
    var d1, d2 := Deployment([3], None, Ready, true), Deployment([4], None, Ready, true);
    before, listing := map[[1] := d1, [2] := d2], [[1], [2]];
    answer := id => if id == [1] then Some(true) else None;
    ActiveInAll(listing, before);
    assert FirstUnanswered(listing, answer, 1) == 1;
    assert listing[..1] == [[1]];
    assert Marked(before, [[1]])[[1]] == Mark(d1) && Marked(before, [[1]])[[2]] == d2;
    assert Mark(d1) != d1;
  }

  lemma {:induction false} ActiveInAll(listing: seq<Text>, deployments: map<Text, Deployment>)
    requires forall id :: id in listing ==> id in Unended(deployments)
    ensures ActiveIn(listing, deployments) == listing
  {
    if listing != [] {
      var init, last := listing[..|listing| - 1], listing[|listing| - 1];
      ActiveInAll(init, deployments);
      assert listing == init + [last];
    }
  }
}
