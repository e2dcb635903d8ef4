/** Which candidates share the stream of their snapshot with another one. */
module SnapshotAmbiguity {
  import opened Wrappers
  import opened Texts
  import opened Paths
  import opened Digests
  import opened Artifacts
  import opened Inbox
  import opened Snapshots
  import InboxTheorems

  function Relative(p: Path): Text
    requires p != []
  {
    Join(p[1..])
  }

  predicate IsCandidatePath(p: Path) { |p| > 1 && p[0] == CANDIDATE_DIR && IsPath(p) && |Relative(p)| < WIDE }

  /** A directory of files that a snapshot can hold, in the order in which they are hashed. */
  ghost predicate IsSnapshot(t: Tree, order: seq<Path>) {
    LegalTree(t) && (forall p :: p in t ==> IsCandidatePath(p)) && IsSnapshotOrder(order, t)
  }

  ghost function StreamOf(t: Tree, order: seq<Path>): seq<Byte>
    requires IsSnapshot(t, order)
  {
    SnapshotStream(RelativeFiles(order, t))
  }

  /** Another candidate has the same stream. */
  ghost predicate Ambiguous(t: Tree, order: seq<Path>)
    requires IsSnapshot(t, order)
  {
    exists t', order' :: t' != t && IsSnapshot(t', order') && StreamOf(t', order') == StreamOf(t, order)
  }

  /** The content of the file `p` splits into a content and the frame of a file that can lie after it. */
  ghost predicate SplitsAt(content: seq<Byte>, p: Path, q: Path, x: seq<Byte>, y: seq<Byte>) {
    && IsCandidatePath(q) && PathBelow(p, q) && !Clash(p, q)
    && content == x + SnapshotFrame(File(Relative(q), y))
  }

  ghost predicate Splits(content: seq<Byte>, p: Path) { exists q, x, y :: SplitsAt(content, p, q, x, y) }

  // ---------------------------------------------------------------- two files or more

  lemma StreamCons(f: File, rest: seq<File>)
    ensures SnapshotStream([f] + rest) == SnapshotFrame(f) + SnapshotStream(rest)
  {
    assert ([f] + rest)[1..] == rest;
  }

  lemma StreamOfOne(f: File)
    ensures SnapshotStream([f]) == SnapshotFrame(f)
  {
    StreamCons(f, []);
    assert [f] + [] == [f] && SnapshotFrame(f) + [] == SnapshotFrame(f);
  }

  lemma Regroup(x: seq<Byte>, y: seq<Byte>, z: seq<Byte>)
    ensures x + (y + z) == x + y + z
  {
  }

  lemma {:induction false} StreamAppends(a: seq<File>, b: seq<File>)
    ensures SnapshotStream(a + b) == SnapshotStream(a) + SnapshotStream(b)
  {
    if a == [] {
      assert a + b == b;
    } else {
      var f, rest := a[0], a[1..];
      assert a == [f] + rest && a + b == [f] + (rest + b);
      StreamAppends(rest, b);
      StreamCons(f, rest);
      StreamCons(f, rest + b);
      Regroup(SnapshotFrame(f), SnapshotStream(rest), SnapshotStream(b));
    }
  }

  /** The last file swallowed by the one before it. */
  function Merged(t: Tree, p: Path, q: Path): Tree
    requires p in t && q in t && q != []
  {
    (t - {q})[p := t[p] + SnapshotFrame(File(Relative(q), t[q]))]
  }

  lemma MergedIsSnapshot(t: Tree, order: seq<Path>, p: Path, q: Path)
    requires IsSnapshot(t, order + [p, q])
    ensures p in t && q in t && p != q && q != []
    ensures IsSnapshot(Merged(t, p, q), order + [p]) && Merged(t, p, q) != t
  {
    var whole, short := order + [p, q], order + [p];
    assert whole[|order|] == p && whole[|order| + 1] == q && p in whole && q in whole;
    assert forall i :: 0 <= i < |short| ==> short[i] == whole[i];
    forall r ensures r in short <==> r in whole && r != q {
      if r in whole && r != q { var i :| 0 <= i < |whole| && whole[i] == r; assert i < |short| && short[i] == r; }
      if r in short { var i :| 0 <= i < |short| && short[i] == r; assert whole[i] == r; }
    }
    assert q !in Merged(t, p, q);
  }

  lemma RelativeOf(order: seq<Path>, t: Tree, i: nat)
    requires Among(order, t) && (forall p :: p in t ==> p != []) && i < |order|
    ensures order[i] in t && RelativeFiles(order, t)[i] == File(Relative(order[i]), t[order[i]])
  {
    assert order[i] in order;
  }

  lemma RelativeParts(order: seq<Path>, t: Tree, n: nat)
    requires Among(order, t) && (forall p :: p in t ==> p != []) && n <= |order|
    ensures Among(order[..n], t) && Among(order[n..], t)
    ensures RelativeFiles(order, t) == RelativeFiles(order[..n], t) + RelativeFiles(order[n..], t)
  {
  }

  lemma MergedStream(t: Tree, order: seq<Path>, p: Path, q: Path)
    requires IsSnapshot(t, order + [p, q])
    requires p in t && q in t && p != q && q != [] && IsSnapshot(Merged(t, p, q), order + [p])
    ensures StreamOf(Merged(t, p, q), order + [p]) == StreamOf(t, order + [p, q])
  {
    var whole, short, m := order + [p, q], order + [p], Merged(t, p, q);
    var f, g := File(Relative(p), t[p]), File(Relative(q), t[q]);
    RelativeParts(whole, t, |order|);
    RelativeParts(short, m, |order|);
    assert whole[..|order|] == order && whole[|order|..] == [p, q];
    assert short[..|order|] == order && short[|order|..] == [p];
    assert RelativeFiles([p, q], t) == [f, g];
    assert RelativeFiles([p], m) == [File(f.path, f.content + SnapshotFrame(g))];
    SameBefore(t, order, p, q);
    StreamAppends(RelativeFiles(order, t), [f, g]);
    StreamAppends(RelativeFiles(order, t), [File(f.path, f.content + SnapshotFrame(g))]);
    Swallowed(f, g);
  }

  lemma SameBefore(t: Tree, order: seq<Path>, p: Path, q: Path)
    requires IsSnapshot(t, order + [p, q]) && p in t && q in t && q != []
    requires Among(order, t) && Among(order, Merged(t, p, q)) && forall r :: r in Merged(t, p, q) ==> r != []
    ensures RelativeFiles(order, Merged(t, p, q)) == RelativeFiles(order, t)
  {
    var whole := order + [p, q];
    forall i | 0 <= i < |order| ensures order[i] != p && order[i] != q && order[i] in t {
      assert whole[i] == order[i] && whole[|order|] == p && whole[|order| + 1] == q;
      assert whole[i] in whole;
    }
  }

  /** Every candidate of at least two files shares its stream. */
  lemma SeveralFilesAreAmbiguous(t: Tree, order: seq<Path>)
    requires IsSnapshot(t, order) && |order| >= 2
    ensures Ambiguous(t, order)
  {
    var n := |order| - 2;
    var p, q := order[n], order[n + 1];
    assert order == order[..n] + [p, q];
    MergedIsSnapshot(t, order[..n], p, q);
    MergedStream(t, order[..n], p, q);
  }

  // ---------------------------------------------------------------- one file, or none

  lemma OneFileStream(t: Tree, p: Path)
    requires IsSnapshot(t, [p])
    ensures p in t && StreamOf(t, [p]) == SnapshotFrame(File(Relative(p), t[p]))
  {
    RelativeOf([p], t, 0);
    assert RelativeFiles([p], t) == [File(Relative(p), t[p])];
    StreamOfOne(File(Relative(p), t[p]));
  }

  lemma SplitIsSnapshot(p: Path, q: Path, x: seq<Byte>, y: seq<Byte>)
    requires IsCandidatePath(p) && IsCandidatePath(q) && PathBelow(p, q) && !Clash(p, q)
    ensures p != q && IsSnapshot(map[p := x, q := y], [p, q])
  {
    assert p <= p;
  }

  lemma SplitStream(p: Path, q: Path, x: seq<Byte>, y: seq<Byte>)
    requires p != q && IsSnapshot(map[p := x, q := y], [p, q])
    ensures p != [] && q != []
    ensures StreamOf(map[p := x, q := y], [p, q])
         == SnapshotFrame(File(Relative(p), x + SnapshotFrame(File(Relative(q), y))))
  {
    var t := map[p := x, q := y];
    assert p in t && q in t;
    assert RelativeFiles([p, q], t) == [File(Relative(p), x), File(Relative(q), y)];
    Swallowed(File(Relative(p), x), File(Relative(q), y));
    StreamOfOne(File(Relative(p), x + SnapshotFrame(File(Relative(q), y))));
  }

  /** The first path of a stream and what follows it can be read off. */
  lemma FirstPath(f: File, g: File, x: seq<Byte>, y: seq<Byte>)
    requires |f.path| < WIDE && |g.path| < WIDE && SnapshotFrame(f) + x == SnapshotFrame(g) + y
    ensures f.path == g.path && f.content + x == g.content + y
  {
    assert SnapshotFrame(f) + x == Length8(|f.path|) + f.path + (f.content + x);
    assert SnapshotFrame(g) + y == Length8(|g.path|) + g.path + (g.content + y);
    TakePrefixed(f.path, f.content + x);
    TakePrefixed(g.path, g.content + y);
  }

  lemma RelativeIsInjective(p: Path, q: Path)
    requires IsCandidatePath(p) && IsCandidatePath(q) && Relative(p) == Relative(q)
    ensures p == q
  {
    assert IsPath(p[1..]) && IsPath(q[1..]);
    JoinIsInjective(p[1..], q[1..]);
    assert p == [CANDIDATE_DIR] + p[1..] && q == [CANDIDATE_DIR] + q[1..];
  }

  lemma StreamFront(t: Tree, order: seq<Path>)
    requires IsSnapshot(t, order) && order != []
    ensures order[0] in t && IsCandidatePath(order[0])
    ensures StreamOf(t, order) ==
      SnapshotFrame(File(Relative(order[0]), t[order[0]])) + SnapshotStream(RelativeFiles(order, t)[1..])
  {
    RelativeOf(order, t, 0);
  }

  lemma EmptyStream(t: Tree, order: seq<Path>)
    requires IsSnapshot(t, order)
    ensures StreamOf(t, order) == [] <==> order == []
  {
    if order != [] {
      StreamFront(t, order);
      assert |SnapshotFrame(File(Relative(order[0]), t[order[0]]))| >= 8;
    }
  }

  /** A candidate whose stream is that of the single file `p` is that file, or splits its content. */
  lemma SameStreamAsOneFile(t: Tree, p: Path, t': Tree, order': seq<Path>)
    requires IsSnapshot(t, [p]) && IsSnapshot(t', order') && StreamOf(t', order') == StreamOf(t, [p])
    ensures p in t && (t' == t || Splits(t[p], p))
  {
    OneFileStream(t, p);
    EmptyStream(t, [p]);
    EmptyStream(t', order');
    StreamFront(t', order');
    assert IsCandidatePath(p);
    var first := order'[0];
    var files := RelativeFiles(order', t');
    assert SnapshotFrame(File(Relative(p), t[p])) + [] == SnapshotFrame(File(Relative(p), t[p]));
    FirstPath(File(Relative(first), t'[first]), File(Relative(p), t[p]), SnapshotStream(files[1..]), []);
    RelativeIsInjective(first, p);
    assert t'[p] + SnapshotStream(files[1..]) == t[p];
    if |order'| == 1 {
      assert files[1..] == [] && t'[p] + [] == t'[p];
      assert order' == [p];
      SingleFile(t, p);
      SingleFile(t', p);
      assert t' == t;
    } else {
      SecondSplits(t', order', t[p]);
    }
  }

  lemma SingleFile(t: Tree, p: Path)
    requires IsOrder([p], t)
    ensures p in t && t == map[p := t[p]]
  {
    assert p in [p];
  }

  lemma SwallowRest(g: File, rest: seq<File>)
    ensures SnapshotStream([g] + rest) == SnapshotFrame(File(g.path, g.content + SnapshotStream(rest)))
  {
    StreamCons(g, rest);
    var y := SnapshotStream(rest);
    assert SnapshotFrame(g) + y == Length8(|g.path|) + g.path + (g.content + y);
  }

  lemma SecondFollows(t: Tree, order: seq<Path>)
    requires IsSnapshot(t, order) && |order| > 1
    ensures order[0] in t && order[1] in t
    ensures IsCandidatePath(order[1]) && PathBelow(order[0], order[1]) && !Clash(order[0], order[1])
  {
    assert order[0] in order && order[1] in order && order[0] != order[1];
  }

  lemma SecondSplits(t: Tree, order: seq<Path>, content: seq<Byte>)
    requires IsSnapshot(t, order) && |order| > 1
    requires order[0] in t && content == t[order[0]] + SnapshotStream(RelativeFiles(order, t)[1..])
    ensures Splits(content, order[0])
  {
    SecondFollows(t, order);
    RelativeOf(order, t, 1);
    var files := RelativeFiles(order, t);
    var g, rest := files[1], files[2..];
    assert files[1..] == [g] + rest;
    SwallowRest(g, rest);
    assert SplitsAt(content, order[0], order[1], t[order[0]], g.content + SnapshotStream(rest));
  }

  /** A candidate shares its stream with another one if and only if it has at least two files, or the
      content of its only file splits into a content and the frame of a file that can lie after it. */
  lemma AmbiguousExactly(t: Tree, order: seq<Path>)
    requires IsSnapshot(t, order)
    ensures (forall p :: p in order ==> p in t)
    ensures Ambiguous(t, order) <==> (|order| >= 2 || (|order| == 1 && Splits(t[order[0]], order[0])))
  {
    if |order| >= 2 {
      SeveralFilesAreAmbiguous(t, order);
    } else if order == [] {
      EmptyIsUnambiguous(t);
    } else {
      var p := order[0];
      assert order == [p] && p in order;
      if Splits(t[p], p) { SplitIsAmbiguous(t, p); }
      if Ambiguous(t, [p]) {
        var t', order' :| t' != t && IsSnapshot(t', order') && StreamOf(t', order') == StreamOf(t, [p]);
        SameStreamAsOneFile(t, p, t', order');
      }
    }
  }

  lemma EmptyIsUnambiguous(t: Tree)
    requires IsSnapshot(t, [])
    ensures !Ambiguous(t, [])
  {
    EmptyOrder(t);
    EmptyStream(t, []);
    forall t', order' | IsSnapshot(t', order') && StreamOf(t', order') == StreamOf(t, []) ensures t' == t {
      EmptyStream(t', order');
      EmptyOrder(t');
    }
  }

  lemma SplitIsAmbiguous(t: Tree, p: Path)
    requires IsSnapshot(t, [p]) && p in t && Splits(t[p], p)
    ensures Ambiguous(t, [p])
  {
    var q, x, y :| SplitsAt(t[p], p, q, x, y);
    assert p in [p];
    SplitIsSnapshot(p, q, x, y);
    SplitStream(p, q, x, y);
    OneFileStream(t, p);
    SingleFile(t, p);
    assert q in map[p := x, q := y] && q !in t;
  }

  // ---------------------------------------------------------------- hashes and the inbox

  /** No two streams have the same hash. */
  ghost predicate Injective(sha256: seq<Byte> -> Text) { forall a, b :: sha256(a) == sha256(b) ==> a == b }

  lemma HashOfSnapshot(t: Tree, order: seq<Path>, tools: Tools, sha256: seq<Byte> -> Text)
    requires IsSnapshot(t, order) && HashesStreams(tools, sha256)
    ensures tools.hashSnapshot(t) == sha256(StreamOf(t, order))
  {
    assert IsCandidate(t);
  }

  ghost predicate SharesHash(t: Tree, tools: Tools) {
    exists t', order' :: t' != t && IsSnapshot(t', order') && tools.hashSnapshot(t') == tools.hashSnapshot(t)
  }

  /** If SHA-256 has no collision, the same condition says when another candidate has the same hash. */
  lemma SharesHashExactly(t: Tree, order: seq<Path>, tools: Tools, sha256: seq<Byte> -> Text)
    requires IsSnapshot(t, order) && HashesStreams(tools, sha256) && Injective(sha256)
    ensures (forall p :: p in order ==> p in t)
    ensures SharesHash(t, tools) <==> (|order| >= 2 || (|order| == 1 && Splits(t[order[0]], order[0])))
  {
    AmbiguousExactly(t, order);
    HashOfSnapshot(t, order, tools, sha256);
    if SharesHash(t, tools) {
      var t', order' :|
        t' != t && IsSnapshot(t', order') && tools.hashSnapshot(t') == tools.hashSnapshot(t);
      HashOfSnapshot(t', order', tools, sha256);
      assert Ambiguous(t, order);
    }
    if Ambiguous(t, order) {
      var t', order' :| t' != t && IsSnapshot(t', order') && StreamOf(t', order') == StreamOf(t, order);
      HashOfSnapshot(t', order', tools, sha256);
    }
  }

  /** Asked for the address of one created bundle, an inbox that holds it answers `Reused` to the archive of
      a bundle of the same task exactly if the candidates have the same hash. */
  lemma ReusedExactly(
    entries: map<Text, Bundle>, taskFile: seq<Byte>, task: TaskInfo, c1: Tree, c2: Tree, dirs: set<Path>, t: Tools,
    order: seq<Path>)
    requires InboxTheorems.Lawful(t, taskFile, task) && [CANDIDATE_DIR] in dirs && IsCandidate(c1) && IsCandidate(c2)
    requires
      var id, b1 := HeaderFor(task, c1, t).bundleId, Payload(taskFile, task, c1, dirs, t);
      id in entries && entries[id] == b1
    requires
      var b2 := Payload(taskFile, task, c2, dirs, t);
      && InboxTheorems.LegalPayload(b2) && InboxTheorems.IsPayloadOrder(order, b2)
      && TreeBytes(b2.files) <= MAX_BUNDLE_BYTES
    ensures
      var id, b2 := HeaderFor(task, c1, t).bundleId, Payload(taskFile, task, c2, dirs, t);
      Received(entries, ArchiveOfPayload(b2, order), id, t) == Some((Reused, entries)) <==>
        t.hashSnapshot(c1) == t.hashSnapshot(c2)
  {
    var id, b1 := HeaderFor(task, c1, t).bundleId, Payload(taskFile, task, c1, dirs, t);
    var b2 := Payload(taskFile, task, c2, dirs, t);
    InboxTheorems.PayloadIsReceived(entries, b2, order, id, t);
    InboxTheorems.PayloadIsVerified(taskFile, task, c1, dirs, t);
    InboxTheorems.PayloadIsVerified(taskFile, task, c2, dirs, t);
    if t.hashSnapshot(c1) == t.hashSnapshot(c2) {
      SameHashAgrees(taskFile, task, c1, c2, dirs, t, id);
    }
  }
}
