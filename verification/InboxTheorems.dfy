/** The inbox is a grow-only store under content addresses, and takes every bundle that is created. */
module InboxTheorems {
  import opened Wrappers
  import opened Texts
  import opened Paths
  import opened Steps
  import opened Artifacts
  import opened Inbox

  // ---------------------------------------------------------------- every sequence of receives

  datatype Delivery = Delivery(members: seq<Member>, id: Text)

  /** Every entry is named by the address of its own task and candidate digests. */
  ghost predicate Addressed(entries: map<Text, Bundle>, t: Tools) {
    forall id :: id in entries ==> Verified(entries[id], id, t)
  }

  ghost predicate Grown(a: map<Text, Bundle>, b: map<Text, Bundle>) {
    forall id :: id in a ==> id in b && b[id] == a[id]
  }

  ghost function Deliver(t: Tools): (map<Text, Bundle>, Delivery) -> map<Text, Bundle> {
    (entries, d: Delivery) => EntriesAfter(entries, Received(entries, d.members, d.id, t))
  }

  lemma DeliveryKeeps(entries: map<Text, Bundle>, d: Delivery, t: Tools)
    requires Addressed(entries, t)
    ensures Addressed(Deliver(t)(entries, d), t) && Grown(entries, Deliver(t)(entries, d))
  {
  }

  /** After any sequence of receives every entry is named by its own content, and what was installed
      before is still there, unchanged. */
  lemma {:induction false} InboxGrows(entries: map<Text, Bundle>, ds: seq<Delivery>, t: Tools)
    requires Addressed(entries, t)
    ensures Addressed(After(Deliver(t), entries, ds), t) && Grown(entries, After(Deliver(t), entries, ds))
  {
    if ds != [] {
      InboxGrows(entries, ds[..|ds| - 1], t);
      DeliveryKeeps(After(Deliver(t), entries, ds[..|ds| - 1]), ds[|ds| - 1], t);
    }
  }

  /** In such an inbox a verified bundle is refused as drifting only if two different pairs of digests
      have the same address, or two tasks the same digest. */
  lemma DriftIsACollision(entries: map<Text, Bundle>, b: Bundle, id: Text, t: Tools)
    requires Addressed(entries, t) && Verified(b, id, t)
    ensures Settled(entries, b, id, t).None? <==> id in entries && !Agrees(entries[id], b, t)
    ensures Settled(entries, b, id, t).None? ==>
      var (task, other) := (TaskIn(b, t).value, TaskIn(entries[id], t).value);
      || ((other.digest, CandidateHash(entries[id], t)) != (task.digest, CandidateHash(b, t))
          && t.address(other.digest, CandidateHash(entries[id], t)) == t.address(task.digest, CandidateHash(b, t)))
      || (other.digest == task.digest && other.taskId != task.taskId)
  {
  }

  // ---------------------------------------------------------------- unpacking a payload

  /** What a bundle directory can hold: files and directories at their places, none in another's way. */
  ghost predicate LegalPayload(b: Bundle) {
    && LegalTree(b.files)
    && (forall p :: p in b.files || p in b.dirs ==> IsPath(p) && InBundle(p) && Ancestors(p) <= b.dirs)
    && (forall d, q :: d in b.dirs && q in b.files ==> !(q <= d))
  }

  /** `sorted(payload.rglob("*"))` is one of these. */
  ghost predicate IsPayloadOrder(order: seq<Path>, b: Bundle) {
    Distinct(order) && forall p :: p in order <==> p in b.files || p in b.dirs
  }

  /** What is unpacked of a payload: part of it, and all of the paths passed. */
  ghost predicate PartOf(x: Staging, b: Bundle, paths: seq<Path>) {
    && Within(x.files, b.files) && x.dirs <= b.dirs && x.total == TreeBytes(x.files)
    && (forall p :: p in b.files ==> (p in x.files <==> p in paths))
    && (forall p :: p in b.dirs && p in paths ==> p in x.dirs)
    && Named(x.seen, paths)
  }

  ghost predicate Named(seen: set<Text>, paths: seq<Path>) {
    forall name :: name in seen ==> exists p :: p in paths && IsPath(p) && Join(p) == name
  }

  lemma NamedOneMore(seen: set<Text>, paths: seq<Path>, p: Path)
    requires Named(seen, paths) && IsPath(p)
    ensures Named(seen + {Join(p)}, paths + [p])
  {
    forall name | name in seen + {Join(p)} ensures exists q :: q in paths + [p] && IsPath(q) && Join(q) == name {
      if name in seen {
        var q :| q in paths && IsPath(q) && Join(q) == name;
        assert q in paths + [p];
      } else {
        assert p in paths + [p];
      }
    }
  }

  lemma {:induction false} WithinWeighsLess(s: Tree, t: Tree)
    requires Within(s, t)
    ensures TreeBytes(s) <= TreeBytes(t)
  {
    if s != map[] {
      var p :| p in s;
      WithinWeighsLess(s - {p}, t - {p});
      TreeBytesAt(s, p);
      TreeBytesAt(t, p);
    }
  }

  lemma ReadsBack(p: Path)
    requires IsPath(p) && InBundle(p)
    ensures BundlePath(Join(p)) == Some(p)
  {
    ReadBack(p);
  }

  lemma NewName(x: Staging, b: Bundle, paths: seq<Path>, p: Path)
    requires PartOf(x, b, paths) && p !in paths && IsPath(p)
    ensures Join(p) !in x.seen
  {
    if Join(p) in x.seen {
      var q :| q in paths && IsPath(q) && Join(q) == Join(p);
      JoinIsInjective(p, q);
    }
  }

  lemma IsReachable(x: Staging, b: Bundle, paths: seq<Path>, p: Path)
    requires LegalPayload(b) && PartOf(x, b, paths) && (p in b.files || p in b.dirs) && p !in paths
    ensures Reachable(x, p)
  {
    forall q | q in x.files ensures !(q <= p) {
      if p in b.files { assert q in b.files && q != p && !Clash(p, q); }
    }
  }

  lemma NotADirectory(x: Staging, b: Bundle, paths: seq<Path>, p: Path)
    requires LegalPayload(b) && PartOf(x, b, paths) && p in b.files
    ensures p !in x.dirs && p !in b.dirs
  {
    assert p <= p;
  }

  lemma AddFile(files: Tree, p: Path, content: seq<Byte>)
    requires p !in files
    ensures TreeBytes(files[p := content]) == TreeBytes(files) + |content|
  {
    TreeBytesAt(files[p := content], p);
    assert files[p := content] - {p} == files;
  }

  lemma DirectoriesStay(b: Bundle, paths: seq<Path>, p: Path)
    requires LegalPayload(b) && p in b.files
    ensures Ancestors(p) <= b.dirs && forall d :: d in b.dirs && d in paths + [p] ==> d in paths
  {
    assert p <= p;
  }

  lemma PlaceFile(x: Staging, b: Bundle, paths: seq<Path>, p: Path)
    requires LegalPayload(b) && PartOf(x, b, paths) && p in b.files && p !in paths
    ensures
      var y := Staging(x.files[p := b.files[p]], x.dirs + Ancestors(p), x.seen + {Join(p)}, x.total + |b.files[p]|);
      PartOf(y, b, paths + [p])
  {
    NamedOneMore(x.seen, paths, p);
    AddFile(x.files, p, b.files[p]);
    DirectoriesStay(b, paths, p);
  }

  lemma PlaceFolder(x: Staging, b: Bundle, paths: seq<Path>, p: Path)
    requires LegalPayload(b) && PartOf(x, b, paths) && p in b.dirs && p !in b.files && p !in paths
    ensures PartOf(x.(dirs := x.dirs + Ancestors(p) + {p}, seen := x.seen + {Join(p)}), b, paths + [p])
  {
    NamedOneMore(x.seen, paths, p);
  }

  lemma PlaceRegular(x: Staging, name: Text, p: Path, content: seq<Byte>)
    requires BundlePath(name) == Some(p) && Join(p) !in x.seen && Reachable(x, p) && p !in x.dirs
    ensures Place(x, Member(name, Regular(content))) ==
      if x.total + |content| > MAX_BUNDLE_BYTES then None
      else Some(Staging(x.files[p := content], x.dirs + Ancestors(p), x.seen + {Join(p)}, x.total + |content|))
  {
  }

  lemma PlaceDirectory(x: Staging, name: Text, p: Path)
    requires BundlePath(name) == Some(p) && Join(p) !in x.seen && Reachable(x, p)
    ensures Place(x, Member(name, Folder)) == Some(x.(dirs := x.dirs + Ancestors(p) + {p}, seen := x.seen + {Join(p)}))
  {
  }

  /** One more member of a payload is placed, unless it would exceed the limit. */
  lemma PlaceOne(x: Staging, b: Bundle, paths: seq<Path>, p: Path)
    requires LegalPayload(b) && PartOf(x, b, paths) && (p in b.files || p in b.dirs) && p !in paths
    ensures
      var y := Place(x, MemberFor(b, p));
      && (y.Some? <==> (p in b.files ==> x.total + |b.files[p]| <= MAX_BUNDLE_BYTES))
      && (y.Some? ==> PartOf(y.value, b, paths + [p]))
  {
    assert IsPath(p) && InBundle(p);
    ReadsBack(p);
    NewName(x, b, paths, p);
    IsReachable(x, b, paths, p);
    if p in b.files { NotADirectory(x, b, paths, p); }
    if p in b.files {
      PlaceRegular(x, Join(p), p, b.files[p]);
      PlaceFile(x, b, paths, p);
    } else {
      PlaceDirectory(x, Join(p), p);
      PlaceFolder(x, b, paths, p);
    }
  }

  lemma PlaceWithinLimit(x: Staging, b: Bundle, paths: seq<Path>, p: Path)
    requires Within(x.files, b.files) && x.total == TreeBytes(x.files) && p in b.files && p !in x.files
    ensures x.total + |b.files[p]| <= TreeBytes(b.files)
  {
    AddFile(x.files, p, b.files[p]);
    WithinWeighsLess(x.files[p := b.files[p]], b.files);
  }

  /** After some members of the archive: refused, or part of the payload and within the limit. */
  ghost predicate GoesWell(x: Option<Staging>, b: Bundle, paths: seq<Path>) {
    && (x.Some? ==> PartOf(x.value, b, paths) && x.value.total <= MAX_BUNDLE_BYTES)
    && (TreeBytes(b.files) <= MAX_BUNDLE_BYTES ==> x.Some?)
  }

  lemma PlaceGoesWell(x: Staging, b: Bundle, paths: seq<Path>, p: Path)
    requires LegalPayload(b) && GoesWell(Some(x), b, paths) && (p in b.files || p in b.dirs) && p !in paths
    ensures GoesWell(Place(x, MemberFor(b, p)), b, paths + [p])
  {
    PlaceOne(x, b, paths, p);
    if p in b.files { PlaceWithinLimit(x, b, paths, p); }
  }

  lemma NextPath(order: seq<Path>, b: Bundle, n: nat)
    requires IsPayloadOrder(order, b) && 0 < n <= |order|
    ensures var p := order[n - 1];
      (p in b.files || p in b.dirs) && p !in order[..n - 1] && order[..n] == order[..n - 1] + [p]
  {
    assert order[n - 1] in order;
  }

  lemma {:induction false} UnpackedIsPart(b: Bundle, order: seq<Path>, n: nat)
    requires LegalPayload(b) && IsPayloadOrder(order, b) && n <= |order|
    ensures GoesWell(Unpacked(ArchiveOfPayload(b, order), n), b, order[..n])
  {
    if n == 0 {
      assert Named({}, order[..0]);
    } else {
      UnpackedIsPart(b, order, n - 1);
      NextPath(order, b, n);
      UnpackNext(b, order, n, Unpacked(ArchiveOfPayload(b, order), n - 1));
    }
  }

  lemma UnpackNext(b: Bundle, order: seq<Path>, n: nat, before: Option<Staging>)
    requires LegalPayload(b) && 0 < n <= |order| && GoesWell(before, b, order[..n - 1])
    requires before == Unpacked(ArchiveOfPayload(b, order), n - 1)
    requires var p := order[n - 1];
      (p in b.files || p in b.dirs) && p !in order[..n - 1] && order[..n] == order[..n - 1] + [p]
    ensures GoesWell(Unpacked(ArchiveOfPayload(b, order), n), b, order[..n])
  {
    if before.Some? {
      PlaceGoesWell(before.value, b, order[..n - 1], order[n - 1]);
    }
  }

  lemma WholePayload(x: Staging, b: Bundle, order: seq<Path>)
    requires PartOf(x, b, order) && IsPayloadOrder(order, b)
    ensures x.files == b.files && x.dirs == b.dirs && x.total == TreeBytes(b.files)
  {
    assert x.files.Keys == b.files.Keys;
    assert forall d :: d in b.dirs ==> d in order;
  }

  /** The archive of a payload, its members in any order, unpacks to that payload; it is refused exactly
      when its files exceed the limit. */
  lemma PayloadUnpacks(b: Bundle, order: seq<Path>)
    requires LegalPayload(b) && IsPayloadOrder(order, b)
    ensures
      var x := Unpacked(ArchiveOfPayload(b, order), |order|);
      && (x.Some? <==> TreeBytes(b.files) <= MAX_BUNDLE_BYTES)
      && (x.Some? ==> x.value.files == b.files && x.value.dirs == b.dirs)
  {
    var x := Unpacked(ArchiveOfPayload(b, order), |order|);
    assert GoesWell(x, b, order) by {
      UnpackedIsPart(b, order, |order|);
      assert order[..|order|] == order;
    }
    if x.Some? { WholePayload(x.value, b, order); }
  }

  // ---------------------------------------------------------------- created bundles are received

  /** Manifests are read back, the task file is the task's, addresses have 32 hexadecimal digits. */
  ghost predicate Lawful(t: Tools, taskFile: seq<Byte>, task: TaskInfo) {
    && (forall h :: t.readManifest(t.writeManifest(h)) == Some(h))
    && t.loadTask(taskFile) == Some(task)
    && (forall a, b :: IsBundleId(t.address(a, b)))
  }

  lemma RootNames()
    ensures MANIFEST_JSON != TASK_JSON && MANIFEST_JSON != CANDIDATE_DIR && TASK_JSON != CANDIDATE_DIR
  {
    assert |MANIFEST_JSON| == 13 && |TASK_JSON| == 9 && |CANDIDATE_DIR| == 9;
    assert TASK_JSON[0] == 116 && CANDIDATE_DIR[0] == 99;
  }

  /** A created payload verifies under its own address. */
  lemma PayloadIsVerified(taskFile: seq<Byte>, task: TaskInfo, candidate: Tree, dirs: set<Path>, t: Tools)
    requires Lawful(t, taskFile, task) && [CANDIDATE_DIR] in dirs
    requires forall p :: p in candidate ==> |p| > 1 && p[0] == CANDIDATE_DIR
    ensures
      var b := Payload(taskFile, task, candidate, dirs, t);
      && Verified(b, HeaderFor(task, candidate, t).bundleId, t)
      && Agrees(b, b, t) && Candidate(b.files) == candidate
  {
    RootNames();
    var b := Payload(taskFile, task, candidate, dirs, t);
    var header := HeaderFor(task, candidate, t);
    assert Candidate(b.files) == candidate;
    assert b.files[[TASK_JSON]] == taskFile && b.files[[MANIFEST_JSON]] == t.writeManifest(header);
    assert t.readManifest(t.writeManifest(header)) == Some(header);
  }

  /** The archive of a payload that verifies is received as that payload. */
  lemma PayloadIsReceived(entries: map<Text, Bundle>, b: Bundle, order: seq<Path>, id: Text, t: Tools)
    requires LegalPayload(b) && IsPayloadOrder(order, b) && IsBundleId(id)
    ensures Received(entries, ArchiveOfPayload(b, order), id, t)
         == if TreeBytes(b.files) <= MAX_BUNDLE_BYTES then Settled(entries, b, id, t) else None
  {
    PayloadUnpacks(b, order);
    assert |ArchiveOfPayload(b, order)| == |order|;
  }

  lemma SettledTwice(entries: map<Text, Bundle>, b: Bundle, id: Text, t: Tools)
    requires Verified(b, id, t) && Agrees(b, b, t) && id !in entries
    ensures Settled(entries, b, id, t) == Some((Installed, entries[id := b]))
    ensures Settled(entries[id := b], b, id, t) == Some((Reused, entries[id := b]))
  {
  }

  /** A created bundle within the limit is installed on first receipt, as it was created, and reported as
      reused on the second, which changes nothing; beyond the limit it is refused. */
  lemma CreatedIsReceived(
      entries: map<Text, Bundle>, taskFile: seq<Byte>, task: TaskInfo, candidate: Tree, dirs: set<Path>, t: Tools,
      order: seq<Path>, again: seq<Path>)
    requires Lawful(t, taskFile, task) && [CANDIDATE_DIR] in dirs
    requires forall p :: p in candidate ==> |p| > 1 && p[0] == CANDIDATE_DIR
    requires var b := Payload(taskFile, task, candidate, dirs, t);
      LegalPayload(b) && IsPayloadOrder(order, b) && IsPayloadOrder(again, b)
    requires HeaderFor(task, candidate, t).bundleId !in entries
    ensures
      var b := Payload(taskFile, task, candidate, dirs, t);
      var id := HeaderFor(task, candidate, t).bundleId;
      if TreeBytes(b.files) <= MAX_BUNDLE_BYTES then
        && Received(entries, ArchiveOfPayload(b, order), id, t) == Some((Installed, entries[id := b]))
        && Received(entries[id := b], ArchiveOfPayload(b, again), id, t) == Some((Reused, entries[id := b]))
      else
        Received(entries, ArchiveOfPayload(b, order), id, t) == None
  {
    var b := Payload(taskFile, task, candidate, dirs, t);
    var id := HeaderFor(task, candidate, t).bundleId;
    PayloadIsVerified(taskFile, task, candidate, dirs, t);
    PayloadIsReceived(entries, b, order, id, t);
    PayloadIsReceived(entries[id := b], b, again, id, t);
    SettledTwice(entries, b, id, t);
  }
}
