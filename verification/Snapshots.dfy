/** The stream that `hash_snapshot` of candidate.py feeds to SHA-256: it frames paths, but not contents. */
module Snapshots {
  import opened Wrappers
  import opened Texts
  import opened Paths
  import opened Digests
  import opened Artifacts
  import opened Inbox
  import InboxTheorems

  function SnapshotFrame(f: File): seq<Byte> { Length8(|f.path|) + f.path + f.content }

  function SnapshotStream(files: seq<File>): seq<Byte> {
    if files == [] then [] else SnapshotFrame(files[0]) + SnapshotStream(files[1..])
  }

  /** Paths compare part by part. */
  predicate PathBelow(p: Path, q: Path) {
    q != [] && (p == [] || Below(p[0], q[0]) || (p[0] == q[0] && PathBelow(p[1..], q[1..])))
  }

  /** The files of a candidate in the order in which they are hashed. */
  ghost predicate IsSnapshotOrder(order: seq<Path>, candidate: Tree) {
    && IsOrder(order, candidate)
    && forall i, j :: 0 <= i < j < |order| ==> PathBelow(order[i], order[j])
  }

  /** Their paths are relative to the candidate directory. */
  function RelativeFiles(order: seq<Path>, candidate: Tree): seq<File>
    requires Among(order, candidate) && forall p :: p in candidate ==> p != []
  {
    seq(|order|, i requires 0 <= i < |order| =>
      assert order[i] in order; File(Join(order[i][1..]), candidate[order[i]]))
  }

  ghost predicate IsCandidate(t: Tree) { forall p :: p in t ==> |p| > 1 && p[0] == CANDIDATE_DIR }

  /** `hash_snapshot` is SHA-256 of the stream of the files in order. */
  ghost predicate HashesStreams(t: Tools, sha256: seq<Byte> -> Text) {
    forall candidate, order :: IsCandidate(candidate) && IsSnapshotOrder(order, candidate) ==>
      t.hashSnapshot(candidate) == sha256(SnapshotStream(RelativeFiles(order, candidate)))
  }

  // ---------------------------------------------------------------- when the stream identifies the files

  lemma FramesAgree(f: File, g: File, x: seq<Byte>, y: seq<Byte>)
    requires |f.path| < WIDE && |g.path| < WIDE && |f.content| == |g.content|
    requires SnapshotFrame(f) + x == SnapshotFrame(g) + y
    ensures f == g && x == y
  {
    var s, t := SnapshotFrame(f) + x, SnapshotFrame(g) + y;
    TakePrefixed(f.path, f.content + x);
    TakePrefixed(g.path, g.content + y);
    assert s == Length8(|f.path|) + f.path + (f.content + x);
    assert t == Length8(|g.path|) + g.path + (g.content + y);
    assert f.content + x == g.content + y;
    assert f.content == (f.content + x)[..|f.content|] && x == (f.content + x)[|f.content|..];
  }

  predicate SameSizes(a: seq<File>, b: seq<File>) {
    |a| == |b| && forall i :: 0 <= i < |a| ==> |a[i].content| == |b[i].content|
  }

  /** The stream and the sizes of the files, in order, identify them. */
  lemma {:induction false} StreamAndSizesIdentify(a: seq<File>, b: seq<File>)
    requires forall f :: f in a || f in b ==> |f.path| < WIDE
    ensures a == b <==> SnapshotStream(a) == SnapshotStream(b) && SameSizes(a, b)
  {
    if SnapshotStream(a) == SnapshotStream(b) && SameSizes(a, b) && a != [] {
      assert a[0] in a && b[0] in b;
      FramesAgree(a[0], b[0], SnapshotStream(a[1..]), SnapshotStream(b[1..]));
      forall i | 0 <= i < |a| - 1 ensures |a[1..][i].content| == |b[1..][i].content| {
        assert a[1..][i] == a[i + 1] && b[1..][i] == b[i + 1];
      }
      StreamAndSizesIdentify(a[1..], b[1..]);
      assert a == [a[0]] + a[1..] && b == [b[0]] + b[1..];
    }
  }

  // ---------------------------------------------------------------- when it does not

  /** A file whose content ends like the frame of another file swallows that file. */
  lemma Swallowed(f: File, g: File)
    ensures SnapshotStream([f, g]) == SnapshotStream([File(f.path, f.content + SnapshotFrame(g))])
  {
    assert [f, g][1..] == [g] && [g][1..] == [];
    var h := File(f.path, f.content + SnapshotFrame(g));
    assert [h][1..] == [];
    assert SnapshotStream([g]) == SnapshotFrame(g);
    assert SnapshotFrame(f) + SnapshotFrame(g) == SnapshotFrame(h);
  }

  const A: Path := [CANDIDATE_DIR, [97]]
  const B: Path := [CANDIDATE_DIR, [98]]

  /** Two files, `a` and `b`. */
  function TwoFiles(x: seq<Byte>, y: seq<Byte>): Tree { map[A := x, B := y] }

  /** One file `a` with the content of both and the frame between them. */
  function OneFile(x: seq<Byte>, y: seq<Byte>): Tree { map[A := x + SnapshotFrame(File([98], y))] }

  lemma ABelowB()
    ensures PathBelow(A, B)
  {
    assert A[1..] == [[97]] && B[1..] == [[98]];
    assert Below([97], [98]);
    assert PathBelow([[97]], [[98]]);
  }

  lemma TwoFilesOrder(x: seq<Byte>, y: seq<Byte>)
    ensures IsCandidate(TwoFiles(x, y)) && A != B && IsSnapshotOrder([A, B], TwoFiles(x, y))
    ensures RelativeFiles([A, B], TwoFiles(x, y)) == [File([97], x), File([98], y)]
  {
    assert A[1] == [97] && B[1] == [98];
    assert A[1..] == [[97]] && B[1..] == [[98]];
    ABelowB();
  }

  lemma OneFileOrder(x: seq<Byte>, y: seq<Byte>)
    ensures IsCandidate(OneFile(x, y)) && IsSnapshotOrder([A], OneFile(x, y))
    ensures RelativeFiles([A], OneFile(x, y)) == [File([97], x + SnapshotFrame(File([98], y)))]
  {
    assert A[1..] == [[97]];
  }

  /** So different candidates have the same hash without any collision of SHA-256. */
  lemma CandidatesShareHash(t: Tools, sha256: seq<Byte> -> Text, x: seq<Byte>, y: seq<Byte>)
    requires HashesStreams(t, sha256)
    ensures TwoFiles(x, y) != OneFile(x, y) && t.hashSnapshot(TwoFiles(x, y)) == t.hashSnapshot(OneFile(x, y))
  {
    TwoFilesOrder(x, y);
    OneFileOrder(x, y);
    Swallowed(File([97], x), File([98], y));
    assert B in TwoFiles(x, y) && B !in OneFile(x, y);
  }

  lemma SameHashAgrees(
    taskFile: seq<Byte>, task: TaskInfo, c1: Tree, c2: Tree, dirs: set<Path>, t: Tools, id: Text)
    requires InboxTheorems.Lawful(t, taskFile, task) && [CANDIDATE_DIR] in dirs
    requires IsCandidate(c1) && IsCandidate(c2) && t.hashSnapshot(c1) == t.hashSnapshot(c2)
    requires id == HeaderFor(task, c1, t).bundleId
    ensures
      var b1, b2 := Payload(taskFile, task, c1, dirs, t), Payload(taskFile, task, c2, dirs, t);
      && Verified(b2, id, t) && Agrees(b1, b2, t) && Candidate(b1.files) == c1 && Candidate(b2.files) == c2
  {
    InboxTheorems.PayloadIsVerified(taskFile, task, c1, dirs, t);
    InboxTheorems.PayloadIsVerified(taskFile, task, c2, dirs, t);
  }

  /** And the inbox answers that it already has the second candidate, when it has the first. */
  lemma OtherCandidateIsReused(
    entries: map<Text, Bundle>, taskFile: seq<Byte>, task: TaskInfo, x: seq<Byte>, y: seq<Byte>, dirs: set<Path>,
    t: Tools, sha256: seq<Byte> -> Text, order: seq<Path>)
    requires InboxTheorems.Lawful(t, taskFile, task) && HashesStreams(t, sha256) && [CANDIDATE_DIR] in dirs
    requires
      var id, b1 := HeaderFor(task, TwoFiles(x, y), t).bundleId, Payload(taskFile, task, TwoFiles(x, y), dirs, t);
      id in entries && entries[id] == b1
    requires var b2 := Payload(taskFile, task, OneFile(x, y), dirs, t);
      && InboxTheorems.LegalPayload(b2) && InboxTheorems.IsPayloadOrder(order, b2)
      && TreeBytes(b2.files) <= MAX_BUNDLE_BYTES
    ensures
      var id, b2 := HeaderFor(task, TwoFiles(x, y), t).bundleId, Payload(taskFile, task, OneFile(x, y), dirs, t);
      && Received(entries, ArchiveOfPayload(b2, order), id, t) == Some((Reused, entries))
      && Candidate(entries[id].files) != Candidate(b2.files)
  {
    var id, b2 := HeaderFor(task, TwoFiles(x, y), t).bundleId, Payload(taskFile, task, OneFile(x, y), dirs, t);
    TwoFilesOrder(x, y);
    OneFileOrder(x, y);
    CandidatesShareHash(t, sha256, x, y);
    SameHashAgrees(taskFile, task, TwoFiles(x, y), OneFile(x, y), dirs, t, id);
    InboxTheorems.PayloadIsReceived(entries, b2, order, id, t);
  }
}
