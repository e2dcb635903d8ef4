/** Labels of submissions, and what `submit` refuses (runner.py, server.py). */
module Labels {
  import opened Texts
  import opened Contracts

  /** The length in bytes of the white space character a UTF-8 text starts with, or 0. */
  function SpaceLength(t: Text): nat {
    if |t| >= 1 && (9 <= t[0] <= 13 || 28 <= t[0] <= 32) then 1
    else if |t| >= 2 && t[0] == 0xC2 && (t[1] == 0x85 || t[1] == 0xA0) then 2
    else if |t| >= 3 && IsWideSpace(t[0], t[1], t[2]) then 3
    else 0
  }

  /** U+1680, U+2000 to U+200A, U+2028, U+2029, U+202F, U+205F and U+3000. */
  predicate IsWideSpace(a: Byte, b: Byte, c: Byte) {
    || (a == 0xE1 && b == 0x9A && c == 0x80)
    || (a == 0xE2 && b == 0x80 && (0x80 <= c <= 0x8A || c == 0xA8 || c == 0xA9 || c == 0xAF))
    || (a == 0xE2 && b == 0x81 && c == 0x9F)
    || (a == 0xE3 && b == 0x80 && c == 0x80)
  }

  predicate Blank(t: Text) { t == [] || (0 < SpaceLength(t) <= |t| && Blank(t[SpaceLength(t)..])) }

  function StripLeft(t: Text): Text {
    if 0 < SpaceLength(t) <= |t| then StripLeft(t[SpaceLength(t)..]) else t
  }

  function StripRight(t: Text): Text { if Blank(t) then [] else [t[0]] + StripRight(t[1..]) }

  /** `str.strip()`. */
  function Strip(t: Text): Text { StripRight(StripLeft(t)) }

  lemma {:induction false} StripLeftOfBlank(t: Text)
    ensures Blank(t) <==> StripLeft(t) == []
  {
    if 0 < SpaceLength(t) <= |t| {
      StripLeftOfBlank(t[SpaceLength(t)..]);
    }
  }

  /** Stripping leaves nothing exactly of a blank text. */
  lemma StripOfBlank(t: Text)
    ensures Strip(t) == [] <==> Blank(t)
  {
    StripLeftOfBlank(t);
    StripLeftStops(t);
  }

  lemma {:induction false} StripLeftStops(t: Text)
    ensures Blank(StripLeft(t)) ==> StripLeft(t) == []
  {
    if 0 < SpaceLength(t) <= |t| {
      StripLeftStops(t[SpaceLength(t)..]);
    }
  }

  lemma SpaceIsBlank(t: Text, more: Text)
    requires 0 < SpaceLength(t) <= |t| && Blank(more)
    ensures Blank(t[..SpaceLength(t)] + more)
  {
    var n := SpaceLength(t);
    var blank := t[..n] + more;
    assert blank[n..] == more;
    assert SpaceLength(blank) == n;
  }

  lemma Rejoined(t: Text, n: nat, more: Text, rest: Text)
    requires n <= |t| && t[n..] == more + rest
    ensures t == t[..n] + more + rest
  {
    assert t == t[..n] + t[n..];
  }

  lemma {:induction false} StrippedLeft(t: Text) returns (blank: Text)
    ensures t == blank + StripLeft(t) && Blank(blank)
    decreases |t|
  {
    var n := SpaceLength(t);
    if 0 < n <= |t| {
      var more := StrippedLeft(t[n..]);
      SpaceIsBlank(t, more);
      Rejoined(t, n, more, StripLeft(t[n..]));
      assert StripLeft(t) == StripLeft(t[n..]);
      blank := t[..n] + more;
    } else {
      blank := [];
    }
  }

  lemma {:induction false} StrippedRight(t: Text)
    ensures StripRight(t) <= t && Blank(t[|StripRight(t)|..])
    ensures forall k :: 0 <= k < |StripRight(t)| ==> !Blank(t[k..])
  {
    if !Blank(t) {
      StrippedRight(t[1..]);
      var r := StripRight(t);
      assert r[1..] == StripRight(t[1..]) && t[1..][|r| - 1..] == t[|r|..];
      assert t == [t[0]] + t[1..];
      forall k | 0 <= k < |r| ensures !Blank(t[k..]) {
        if k > 0 { assert t[1..][k - 1..] == t[k..]; }
      }
    }
  }

  /** No part of the text at its end is white space, with what followed. */
  predicate EndsBefore(t: Text, right: Text) { forall k :: 0 <= k < |t| ==> !Blank((t + right)[k..]) }

  lemma StripRightExactly(t: Text) returns (right: Text)
    ensures t == StripRight(t) + right && Blank(right) && EndsBefore(StripRight(t), right)
  {
    StrippedRight(t);
    right := t[|StripRight(t)|..];
    assert t == StripRight(t) + right;
  }

  /** Stripping takes white space off both ends, and all there is. */
  lemma StripExactly(t: Text) returns (left: Text, right: Text)
    ensures t == left + (Strip(t) + right) && Blank(left) && Blank(right)
    ensures SpaceLength(Strip(t) + right) == 0 && EndsBefore(Strip(t), right)
  {
    left := StrippedLeft(t);
    right := StripRightExactly(StripLeft(t));
    LeftIsStripped(t);
  }

  lemma {:induction false} LeftIsStripped(t: Text)
    ensures SpaceLength(StripLeft(t)) == 0
  {
    if 0 < SpaceLength(t) <= |t| {
      LeftIsStripped(t[SpaceLength(t)..]);
    }
  }

  predicate IsDigit(b: Byte) { 48 <= b <= 57 }

  lemma {:induction false} BlankHasNoDigit(t: Text)
    requires Blank(t)
    ensures forall b :: b in t ==> !IsDigit(b)
  {
    if t != [] {
      var n := SpaceLength(t);
      BlankHasNoDigit(t[n..]);
      assert t == t[..n] + t[n..];
    }
  }

  function Decimal(n: nat): (t: Text)
    ensures t != [] && forall b :: b in t ==> IsDigit(b)
  {
    if n < 10 then [48 + n] else Decimal(n / 10) + [48 + n % 10]
  }

  /** `f"{n:03d}"`. */
  function Padded(n: nat): (t: Text)
    ensures t != [] && IsDigit(t[|t| - 1])
  {
    (if n < 10 then [48, 48] else if n < 100 then [48] else []) + Decimal(n)
  }

  function ValueOf(t: Text): int { if t == [] then 0 else 10 * ValueOf(t[..|t| - 1]) + t[|t| - 1] - 48 }

  lemma {:induction false} ValueOfDecimal(n: nat)
    ensures ValueOf(Decimal(n)) == n && (n > 0 ==> Decimal(n)[0] != 48)
    ensures |Decimal(n)| >= if n >= 100 then 3 else if n >= 10 then 2 else 1
    ensures n < 100 ==> |Decimal(n)| == if n >= 10 then 2 else 1
  {
    if n >= 10 {
      ValueOfDecimal(n / 10);
      assert Decimal(n)[..|Decimal(n)| - 1] == Decimal(n / 10);
    }
  }

  /** A padded number is the decimal one with as many zeros in front as it takes to make three digits. */
  lemma PaddedExactly(n: nat)
    ensures ValueOf(Padded(n)) == n && |Padded(n)| >= 3
    ensures |Padded(n)| > 3 ==> Padded(n)[0] != 48
  {
    ValueOfDecimal(n);
    if n < 100 {
      ZerosInFront(if n < 10 then [48, 48] else [48], Decimal(n));
    } else {
      assert [] + Decimal(n) == Decimal(n);
    }
  }

  lemma {:induction false} ZerosAreZero(zeros: Text)
    requires forall b :: b in zeros ==> b == 48
    ensures ValueOf(zeros) == 0
  {
    if zeros != [] {
      var n := |zeros| - 1;
      assert zeros[n] in zeros && forall b :: b in zeros[..n] ==> b in zeros;
      ZerosAreZero(zeros[..n]);
    }
  }

  lemma {:induction false} ZerosInFront(zeros: Text, t: Text)
    requires forall b :: b in zeros ==> b == 48
    ensures ValueOf(zeros + t) == ValueOf(t)
    decreases |t|
  {
    if t == [] {
      ZerosAreZero(zeros);
      assert zeros + t == zeros;
    } else {
      assert (zeros + t)[..|zeros + t| - 1] == zeros + t[..|t| - 1];
      ZerosInFront(zeros, t[..|t| - 1]);
    }
  }

  // ---------------------------------------------------------------- submissions

  /** A candidate path: its `name`, whether `validate_candidate` accepts it, and, when it is submitted,
      whether the gpu-run client supports scoped requests and the snapshot succeeds. */
  datatype Candidate = Candidate(name: Text, valid: bool, clientScopes: bool, snapshots: bool)

  predicate Scoped(task: Task) { exists stage :: stage in task.stages && stage.scoped }

  /** `label or candidate.name or task.task_id`; no label is the empty one. */
  function Chosen(given: Text, name: Text, taskId: Text): Text {
    if given != [] then given else if name != [] then name else taskId
  }

  predicate SubmissionRefused(given: Text, c: Candidate, task: Task) {
    Strip(Chosen(given, c.name, task.taskId)) == [] || (Scoped(task) && !c.clientScopes) || !c.snapshots
  }

  /** A submission is refused exactly if the label given, or without one the name of the candidate, or without
      that the task id, is white space alone; if the task scopes GPUs and the client cannot; or if the
      snapshot fails. */
  lemma RefusedExactly(given: Text, c: Candidate, task: Task)
    ensures SubmissionRefused(given, c, task) <==>
      (|| (given != [] && Blank(given))
       || (given == [] && c.name != [] && Blank(c.name))
       || (given == [] && c.name == [] && Blank(task.taskId))
       || ((exists i :: 0 <= i < |task.stages| && task.stages[i].scoped) && !c.clientScopes)
       || !c.snapshots)
  {
    StripOfBlank(given);
    StripOfBlank(c.name);
    StripOfBlank(task.taskId);
    if i :| 0 <= i < |task.stages| && task.stages[i].scoped { assert task.stages[i] in task.stages; }
  }

  /** The label `submit_many` gives the candidate at `index`. */
  function BatchLabel(prefix: Text, index: nat, c: Candidate): Text {
    if Strip(prefix) != [] then Strip(prefix) + Padded(index) else c.name
  }

  // ---------------------------------------------------------------- batches

  predicate RefusedAt(prefix: Text, cs: seq<Candidate>, task: Task, i: nat)
    requires i < |cs|
  {
    SubmissionRefused(BatchLabel(prefix, i, cs[i]), cs[i], task)
  }

  /** The first candidate from `i` on whose submission is refused, or the end of the batch. */
  function FirstRefused(prefix: Text, cs: seq<Candidate>, task: Task, i: nat): (n: nat)
    requires i <= |cs|
    ensures i <= n <= |cs| && (n < |cs| ==> RefusedAt(prefix, cs, task, n))
    ensures forall k :: i <= k < n ==> !RefusedAt(prefix, cs, task, k)
    decreases |cs| - i
  {
    if i == |cs| || RefusedAt(prefix, cs, task, i) then i else FirstRefused(prefix, cs, task, i + 1)
  }

  /** The runs a batch that passes its checks comes to. */
  function Admitted(prefix: Text, cs: seq<Candidate>, task: Task): nat { FirstRefused(prefix, cs, task, 0) }

  predicate AllOrNothing(prefix: Text, cs: seq<Candidate>, task: Task) {
    Admitted(prefix, cs, task) == 0 || Admitted(prefix, cs, task) == |cs|
  }

  /** A batch is accepted as a whole or not at all exactly if no submission is refused, or the first is. */
  lemma AllOrNothingExactly(prefix: Text, cs: seq<Candidate>, task: Task)
    requires cs != []
    ensures AllOrNothing(prefix, cs, task) <==>
      (RefusedAt(prefix, cs, task, 0) || forall i :: 0 <= i < |cs| ==> !RefusedAt(prefix, cs, task, i))
  {
  }

  /** A name of white space alone, which is legal for a file. */
  predicate BlankName(c: Candidate) { c.name != [] && Blank(c.name) }

  /** Clients and snapshots are no obstacle. */
  predicate Unobstructed(cs: seq<Candidate>) { forall c :: c in cs ==> c.clientScopes && c.snapshots }

  lemma NumberedIsNotBlank(prefix: Text, i: nat)
    ensures !Blank(prefix + Padded(i))
  {
    var t := prefix + Padded(i);
    assert t[|t| - 1] in t && IsDigit(t[|t| - 1]);
    if Blank(t) { BlankHasNoDigit(t); }
  }

  lemma RefusedForItsLabel(prefix: Text, cs: seq<Candidate>, task: Task, i: nat)
    requires i < |cs| && Unobstructed(cs) && !Blank(task.taskId)
    ensures RefusedAt(prefix, cs, task, i) <==> Blank(prefix) && BlankName(cs[i])
  {
    assert cs[i] in cs;
    StripOfBlank(prefix);
    NumberedIsNotBlank(Strip(prefix), i);
    StripOfBlank(Chosen(BatchLabel(prefix, i, cs[i]), cs[i].name, task.taskId));
  }

  /** As far as labels go that is so exactly if the prefix is not blank, no candidate has a blank name, or
      the first one has. */
  lemma LabelsAllowAllOrNothingExactly(prefix: Text, cs: seq<Candidate>, task: Task)
    requires cs != [] && Unobstructed(cs) && !Blank(task.taskId)
    ensures AllOrNothing(prefix, cs, task) <==>
      (!Blank(prefix) || (forall c :: c in cs ==> !BlankName(c)) || BlankName(cs[0]))
  {
    AllOrNothingExactly(prefix, cs, task);
    forall i | 0 <= i < |cs| ensures RefusedAt(prefix, cs, task, i) <==> Blank(prefix) && BlankName(cs[i]) {
      RefusedForItsLabel(prefix, cs, task, i);
    }
    if forall c :: c in cs ==> !BlankName(c) {
      assert forall i :: 0 <= i < |cs| ==> cs[i] in cs;
    }
  }

  /** A batch of two valid candidates, named `a` and by a single blank, of which one is accepted. */
  lemma BatchAcceptedInPart(task: Task) returns (cs: seq<Candidate>)
    requires !Blank(task.taskId)
    ensures |cs| == 2 && (forall c :: c in cs ==> c.valid) && Unobstructed(cs)
    ensures Admitted([], cs, task) == 1 && !AllOrNothing([], cs, task)
  {
    cs := [Candidate([97], true, true, true), Candidate([32], true, true, true)];
    RefusedForItsLabel([], cs, task, 0);
    RefusedForItsLabel([], cs, task, 1);
  }
}
