/** What the two receivers take in, said of the archive as a whole: which names, which members, in any order. */
module Intake {
  import opened Wrappers
  import opened Texts
  import opened Paths
  import opened Digests
  import opened Manifests
  import opened Artifacts
  import Receiving
  import ArtifactTheorems
  import Inbox
  import InboxTheorems

  // ---------------------------------------------------------------- names

  /** A text is its pieces joined. */
  lemma {:induction false} JoinOfSplit(t: Text)
    ensures Join(Split(t)) == t
  {
    if t != [] {
      JoinOfSplit(t[1..]);
      var rest := Split(t[1..]);
      if t[0] == SLASH {
        assert Split(t) == [[]] + rest && ([[]] + rest)[1..] == rest;
      } else {
        var head := [t[0]] + rest[0];
        assert Split(t) == [head] + rest[1..] && Split(t)[1..] == rest[1..];
      }
    }
  }

  /** A name is refused exactly if it is absolute, has a piece `..`, or has only pieces that are empty or `.`. */
  lemma SafeExactly(t: Text)
    ensures SafeRelative(t).None? <==>
      (|| (t != [] && t[0] == SLASH) || [DOT, DOT] in Split(t)
       || forall piece :: piece in Split(t) ==> piece == [] || piece == [DOT])
  {
    MeaningfulPieces(Split(t));
    if Parts(t) != [] { assert Parts(t)[0] in Parts(t); }
  }

  lemma SafeIsJoined(t: Text, p: Path, name: Text)
    requires SafeRelative(t) == Some(p) && SLASH !in name
    ensures Join(p) == name <==> p == [name]
  {
    NoSlashInPieces(t);
    MeaningfulPieces(Split(t));
    SplitOfJoin(p);
    SplitOfName(name);
  }

  lemma TargetOfParts(name: Text, p: Path)
    requires SafeRelative(name) == Some(p)
    ensures Receiving.TargetOf(name) ==
      if p == [MANIFEST_NAME] then Receiving.ManifestFile
      else if p[0] == ARTIFACTS_DIR && |p| > 1 then Receiving.Artifact(p[1..])
      else Receiving.Refused
  {
    ArtifactTheorems.ArchiveNames();
    SafeIsJoined(name, p, MANIFEST_NAME);
  }

  /** The manifest lies at the top of an export, and everything else below `artifacts`. */
  lemma TargetExactly(name: Text, p: Path, q: Path)
    requires SafeRelative(name) == Some(p)
    ensures Receiving.TargetOf(name) == Receiving.ManifestFile <==> p == [Ascii("artifact-manifest.json")]
    ensures Receiving.TargetOf(name) == Receiving.Artifact(q) <==> q != [] && p == [Ascii("artifacts")] + q
  {
    TargetOfParts(name, p);
    ArtifactTheorems.ArchiveNames();
    assert p == [p[0]] + p[1..];
    assert ([Ascii("artifacts")] + q)[1..] == q;
  }

  /** A bundle holds its manifest, its task and things below `candidate`. */
  lemma BundlePathExactly(name: Text, p: Path)
    ensures Inbox.BundlePath(name) == Some(p) <==>
      (&& SafeRelative(name) == Some(p)
       && (p == [Ascii("manifest.json")] || p == [Ascii("task.json")] || p[0] == Ascii("candidate")))
  {
    InboxTheorems.RootNames();
    if |p| == 1 { assert p == [p[0]]; }
  }

  // ---------------------------------------------------------------- items

  /** An archive member with the path its name stands for; the empty path for a refused name. */
  datatype Item = Item(path: Path, node: Node)

  function Size(m: Item): nat { if m.node.Regular? then |m.node.content| else 0 }

  function Sizes(ms: seq<Item>): nat { if ms == [] then 0 else Sizes(ms[..|ms| - 1]) + Size(ms[|ms| - 1]) }

  /** A file or directory under a name it can have. */
  predicate Placeable(m: Item) { IsPath(m.path) && (m.node.Regular? || m.node.Folder?) }

  predicate AllPlaceable(ms: seq<Item>) { forall k :: 0 <= k < |ms| ==> Placeable(ms[k]) }

  /** Different paths, and no file above the other. */
  predicate Apart(a: Item, b: Item) {
    a.path != b.path && (a.node.Regular? ==> !(a.path <= b.path)) && (b.node.Regular? ==> !(b.path <= a.path))
  }

  predicate ApartFrom(ms: seq<Item>, m: Item) { forall k :: 0 <= k < |ms| ==> Apart(ms[k], m) }

  predicate AllApart(ms: seq<Item>) { forall j, k :: 0 <= j < k < |ms| ==> Apart(ms[j], ms[k]) }

  lemma OneMore(ms: seq<Item>, m: Item)
    ensures AllPlaceable(ms + [m]) <==> AllPlaceable(ms) && Placeable(m)
    ensures AllApart(ms + [m]) <==> AllApart(ms) && ApartFrom(ms, m)
    ensures Sizes(ms + [m]) == Sizes(ms) + Size(m)
  {
    var longer := ms + [m];
    assert longer[..|ms|] == ms;
    if AllPlaceable(longer) {
      forall k | 0 <= k < |ms| ensures Placeable(ms[k]) { assert longer[k] == ms[k]; }
      assert longer[|ms|] == m;
    }
    if AllApart(longer) {
      forall j, k | 0 <= j < k < |ms| ensures Apart(ms[j], ms[k]) {
        assert Apart(longer[j], longer[k]);
      }
      forall k | 0 <= k < |ms| ensures Apart(ms[k], m) {
        assert Apart(longer[k], longer[|ms|]);
      }
    }
  }

  // ---------------------------------------------------------------- bundles

  function BundleItem(m: Member): Item {
    var p := Inbox.BundlePath(m.name);
    Item(if p.Some? then p.value else [], m.node)
  }

  function BundleItems(ms: seq<Member>): seq<Item> {
    if ms == [] then [] else BundleItems(ms[..|ms| - 1]) + [BundleItem(ms[|ms| - 1])]
  }

  /** One item on a staging directory. */
  function Put(x: Inbox.Staging, m: Item): Option<Inbox.Staging> {
    if !Placeable(m) || Join(m.path) in x.seen || (exists q :: q in x.files && q <= m.path) then None
    else
      match m.node
      case Regular(content) =>
        if x.total + |content| <= Inbox.MAX_BUNDLE_BYTES && m.path !in x.dirs then
          Some(Inbox.Staging(
                 x.files[m.path := content], x.dirs + Inbox.Ancestors(m.path), x.seen + {Join(m.path)},
                 x.total + |content|))
        else None
      case _ => Some(x.(dirs := x.dirs + Inbox.Ancestors(m.path) + {m.path}, seen := x.seen + {Join(m.path)}))
  }

  lemma PlaceIsPut(x: Inbox.Staging, m: Member)
    ensures Inbox.Place(x, m) == Put(x, BundleItem(m))
  {
    var p := Inbox.BundlePath(m.name);
    if p.Some? {
      SafeParts(m.name, p.value);
    }
  }

  /** The staging directory holds just these files, and the directories above them and given. */
  ghost predicate Stages(x: Inbox.Staging, ms: seq<Item>) {
    && (forall p :: p in x.files <==> exists k :: IsFile(ms, k, p))
    && (forall k, p :: IsFile(ms, k, p) ==> p in x.files && x.files[p] == ms[k].node.content)
    && (forall p :: p in x.dirs <==> exists k :: HasDirectory(ms, k, p))
    && (forall t :: t in x.seen <==> exists k :: IsNamed(ms, k, t))
    && x.total == Sizes(ms)
  }

  predicate IsFile(ms: seq<Item>, k: int, p: Path) { 0 <= k < |ms| && ms[k].node.Regular? && ms[k].path == p }

  /** A directory above the item, or the item itself. */
  predicate HasDirectory(ms: seq<Item>, k: int, p: Path) {
    0 <= k < |ms| && p != [] && p <= ms[k].path && (p == ms[k].path ==> ms[k].node.Folder?)
  }

  predicate IsNamed(ms: seq<Item>, k: int, t: Text) { 0 <= k < |ms| && Join(ms[k].path) == t }

  lemma AncestorsExactly(p: Path, q: Path)
    ensures q in Inbox.Ancestors(p) <==> q != [] && q <= p && q != p
  {
    if q != [] && q <= p && q != p {
      assert q == p[..|q|];
    }
  }

  /** The checks on one item against the staging directory are those against each item before it. */
  lemma PutExactly(x: Inbox.Staging, ms: seq<Item>, m: Item)
    requires AllPlaceable(ms) && Stages(x, ms) && x.total <= Inbox.MAX_BUNDLE_BYTES
    ensures Put(x, m).Some? <==>
      Placeable(m) && ApartFrom(ms, m) && Sizes(ms) + Size(m) <= Inbox.MAX_BUNDLE_BYTES
  {
    if Placeable(m) {
      forall k | IsNamed(ms, k, Join(m.path)) ensures ms[k].path == m.path {
        JoinIsInjective(ms[k].path, m.path);
      }
      if !ApartFrom(ms, m) {
        var k :| 0 <= k < |ms| && !Apart(ms[k], m);
        if ms[k].path == m.path {
          assert IsNamed(ms, k, Join(m.path));
        } else if ms[k].node.Regular? && ms[k].path <= m.path {
          assert IsFile(ms, k, ms[k].path);
        } else {
          assert HasDirectory(ms, k, m.path);
        }
      }
    }
  }

  lemma PutStages(x: Inbox.Staging, ms: seq<Item>, m: Item)
    requires Stages(x, ms) && ApartFrom(ms, m) && Put(x, m).Some?
    ensures Stages(Put(x, m).value, ms + [m])
  {
    var y, longer, n := Put(x, m).value, ms + [m], |ms|;
    OneMore(ms, m);
    forall k, p ensures IsFile(longer, k, p) <==> IsFile(ms, k, p) || (k == n && m.node.Regular? && m.path == p) {
    }
    forall k, p
      ensures HasDirectory(longer, k, p) <==>
        HasDirectory(ms, k, p) || (k == n && p != [] && p <= m.path && (p == m.path ==> m.node.Folder?))
    {
    }
    forall k, t ensures IsNamed(longer, k, t) <==> IsNamed(ms, k, t) || (k == n && Join(m.path) == t) {
    }
    FilesStage(x, y, ms, m);
    forall p ensures p in y.dirs <==> exists k :: HasDirectory(longer, k, p) {
      AncestorsExactly(m.path, p);
      if p in x.dirs {
        var k :| HasDirectory(ms, k, p);
        assert HasDirectory(longer, k, p);
      } else if p in y.dirs {
        assert HasDirectory(longer, n, p);
      }
    }
    forall t ensures t in y.seen <==> exists k :: IsNamed(longer, k, t) {
      if t in x.seen {
        var k :| IsNamed(ms, k, t);
        assert IsNamed(longer, k, t);
      } else if t in y.seen {
        assert IsNamed(longer, n, t);
      }
    }
  }

  lemma FilesStage(x: Inbox.Staging, y: Inbox.Staging, ms: seq<Item>, m: Item)
    requires Stages(x, ms) && ApartFrom(ms, m)
    requires y.files == if m.node.Regular? then x.files[m.path := m.node.content] else x.files
    ensures
      && (forall p :: p in y.files <==> exists k :: IsFile(ms + [m], k, p))
      && (forall k, p :: IsFile(ms + [m], k, p) ==> p in y.files && y.files[p] == (ms + [m])[k].node.content)
  {
    var longer, n := ms + [m], |ms|;
    forall k, p ensures IsFile(longer, k, p) <==> IsFile(ms, k, p) || (k == n && m.node.Regular? && m.path == p) {
    }
    forall p ensures p in y.files <==> exists k :: IsFile(longer, k, p) {
      if p in x.files {
        var k :| IsFile(ms, k, p);
        assert IsFile(longer, k, p);
      } else if p in y.files {
        assert IsFile(longer, n, p);
      }
    }
    forall k, p | IsFile(longer, k, p) ensures y.files[p] == longer[k].node.content {
      if k < n { assert Apart(ms[k], m); }
    }
  }

  lemma {:induction false} UnpackedOfPrefix(ms: seq<Member>, n: nat, k: nat)
    requires k <= n <= |ms|
    ensures Inbox.Unpacked(ms[..n], k) == Inbox.Unpacked(ms, k)
  {
    if k > 0 {
      UnpackedOfPrefix(ms, n, k - 1);
    }
  }

  /** The members may lie in a bundle, none is in the way of another, and they weigh at most 256 MiB. */
  predicate Unpackable(ms: seq<Item>) { AllPlaceable(ms) && AllApart(ms) && Sizes(ms) <= 256 * 1024 * 1024 }

  lemma UnpackedStep(x: Inbox.Staging, ms: seq<Item>, m: Item)
    requires Unpackable(ms) && Stages(x, ms)
    ensures Put(x, m).Some? <==> Unpackable(ms + [m])
    ensures Put(x, m).Some? ==> Stages(Put(x, m).value, ms + [m])
  {
    OneMore(ms, m);
    PutExactly(x, ms, m);
    if Put(x, m).Some? { PutStages(x, ms, m); }
  }

  lemma NothingStaged()
    ensures Stages(Inbox.EMPTY_STAGING, [])
  {
  }

  /** An archive unpacks exactly if all its members are files and directories that may lie in a bundle, no two
      of them are in each other's way, and the files weigh at most 256 MiB; whatever their order. */
  lemma {:induction false} UnpackedExactly(ms: seq<Member>)
    ensures Inbox.Unpacked(ms, |ms|).Some? <==> Unpackable(BundleItems(ms))
    ensures Inbox.Unpacked(ms, |ms|).Some? ==> Stages(Inbox.Unpacked(ms, |ms|).value, BundleItems(ms))
  {
    if ms == [] {
      NothingStaged();
    } else {
      var n := |ms| - 1;
      UnpackedExactly(ms[..n]);
      UnpackedOfPrefix(ms, n, n);
      var items, last := BundleItems(ms[..n]), BundleItem(ms[n]);
      OneMore(items, last);
      if Inbox.Unpacked(ms, n).Some? {
        PlaceIsPut(Inbox.Unpacked(ms, n).value, ms[n]);
        UnpackedStep(Inbox.Unpacked(ms, n).value, items, last);
      }
    }
  }

  // ---------------------------------------------------------------- what the inbox answers

  /** The bundle holds a manifest, a task and a candidate directory; the manifest names the schema, this bundle,
      the task, and the digests of task and candidate; and the bundle is named by the address of these. */
  predicate Genuine(b: Inbox.Bundle, id: Text, t: Inbox.Tools) {
    var manifest, task := [Ascii("manifest.json")], [Ascii("task.json")];
    && manifest in b.files && task in b.files && [Ascii("candidate")] in b.dirs
    && t.readManifest(b.files[manifest]).Some? && t.loadTask(b.files[task]).Some?
    && var h, info := t.readManifest(b.files[manifest]).value, t.loadTask(b.files[task]).value;
       var hash := t.hashSnapshot(map p | p in b.files && p != [] && p[0] == Ascii("candidate") :: b.files[p]);
       && h.schema == Ascii("kernelinfra.fleet-bundle.v1") && h.bundleId == id
       && h.taskId == info.taskId && h.taskSha256 == info.digest && h.candidateSha256 == hash
       && t.address(info.digest, hash) == id
  }

  lemma GenuineExactly(b: Inbox.Bundle, id: Text, t: Inbox.Tools)
    ensures Inbox.Verified(b, id, t) <==> Genuine(b, id, t)
  {
    var candidate := map p | p in b.files && p != [] && p[0] == Ascii("candidate") :: b.files[p];
    assert Inbox.Candidate(b.files) == candidate;
  }

  /** 32 digits of the hexadecimal system, lower case. */
  predicate HexId(id: Text) { |id| == 32 && forall b :: b in id ==> b in Ascii("0123456789abcdef") }

  lemma HexIdExactly(id: Text)
    ensures HexId(id) <==> Inbox.IsBundleId(id)
  {
    var digits := Ascii("0123456789abcdef");
    assert |digits| == 16;
    assert forall i :: 0 <= i < 10 ==> digits[i] == 48 + i;
    assert forall i :: 10 <= i < 16 ==> digits[i] == 87 + i;
    forall b: Byte ensures b in digits <==> 48 <= b <= 57 || 97 <= b <= 102 {
      if 48 <= b <= 57 { assert digits[b - 48] == b; }
      if 97 <= b <= 102 { assert digits[b - 87] == b; }
    }
  }

  /** The same manifest, task digest and candidate hash. */
  predicate Alike(a: Inbox.Bundle, b: Inbox.Bundle, t: Inbox.Tools) {
    var manifest, task := [Ascii("manifest.json")], [Ascii("task.json")];
    && manifest in a.files && manifest in b.files
    && t.readManifest(a.files[manifest]) == t.readManifest(b.files[manifest])
    && task in a.files && task in b.files
    && t.loadTask(a.files[task]).Some? && t.loadTask(b.files[task]).Some?
    && t.loadTask(a.files[task]).value.digest == t.loadTask(b.files[task]).value.digest
    && Inbox.CandidateHash(a, t) == Inbox.CandidateHash(b, t)
  }

  /** A bundle is received exactly if its name is one, it unpacks and is genuine; it is installed if its name
      is free, and reused if what is installed there has the same manifest, task digest and candidate hash. */
  lemma ReceivedExactly(entries: map<Text, Inbox.Bundle>, ms: seq<Member>, id: Text, t: Inbox.Tools)
    returns (b: Inbox.Bundle)
    ensures
      var r := Inbox.Received(entries, ms, id, t);
      if !HexId(id) || !Unpackable(BundleItems(ms)) || !Genuine(b, id, t) then r.None?
      else if id !in entries then r == Some((Inbox.Installed, entries[id := b]))
      else if Alike(entries[id], b, t) then r == Some((Inbox.Reused, entries))
      else r.None?
    ensures Unpackable(BundleItems(ms)) ==>
      exists x :: Stages(x, BundleItems(ms)) && b == Inbox.Bundle(x.files, x.dirs)
  {
    HexIdExactly(id);
    UnpackedExactly(ms);
    b := Inbox.Bundle(map[], {});
    if Inbox.Unpacked(ms, |ms|).Some? {
      var x := Inbox.Unpacked(ms, |ms|).value;
      b := Inbox.Bundle(x.files, x.dirs);
      GenuineExactly(b, id, t);
    }
  }

  // ---------------------------------------------------------------- exports

  function ExportItem(m: Member): Item {
    var target := Receiving.TargetOf(m.name);
    Item(if target.Artifact? then target.path else [], m.node)
  }

  /** The members after the first. */
  function ExportItems(ms: seq<Member>, n: nat): seq<Item>
    requires n <= |ms|
  {
    if n <= 1 then [] else ExportItems(ms, n - 1) + [ExportItem(ms[n - 1])]
  }

  predicate AllFiles(ms: seq<Item>) { forall k :: 0 <= k < |ms| ==> ms[k].node.Regular? }

  predicate StartsWithManifest(ms: seq<Member>) {
    && ms != [] && ms[0].node.Regular? && Receiving.TargetOf(ms[0].name) == Receiving.ManifestFile
    && |ms[0].node.content| <= 16 * 1024 * 1024
  }

  /** Files that can lie below one directory, none in the way of another, of at most so many bytes. */
  predicate Extractable(ms: seq<Item>, maxBytes: nat) {
    AllPlaceable(ms) && AllFiles(ms) && AllApart(ms) && (ms != [] ==> Sizes(ms) <= maxBytes)
  }

  ghost predicate Lays(t: Tree, ms: seq<Item>) {
    && (forall p :: p in t <==> exists k :: IsFile(ms, k, p))
    && (forall k, p :: IsFile(ms, k, p) ==> p in t && t[p] == ms[k].node.content)
  }

  lemma CreatableExactly(t: Tree, ms: seq<Item>, m: Item)
    requires Lays(t, ms) && AllFiles(ms) && m.node.Regular?
    ensures (forall q :: q in t ==> !Clash(q, m.path)) <==> ApartFrom(ms, m)
  {
    if ApartFrom(ms, m) {
      forall q | q in t ensures !Clash(q, m.path) {
        var k :| IsFile(ms, k, q);
        assert Apart(ms[k], m);
      }
    } else {
      var k :| 0 <= k < |ms| && !Apart(ms[k], m);
      assert IsFile(ms, k, ms[k].path);
      assert Clash(ms[k].path, m.path);
    }
  }

  lemma LaysOneMore(t: Tree, ms: seq<Item>, m: Item)
    requires Lays(t, ms) && ApartFrom(ms, m) && m.node.Regular?
    ensures Lays(t[m.path := m.node.content], ms + [m])
  {
    var longer, n, y := ms + [m], |ms|, t[m.path := m.node.content];
    forall k, p ensures IsFile(longer, k, p) <==> IsFile(ms, k, p) || (k == n && m.path == p) {
    }
    forall p ensures p in y <==> exists k :: IsFile(longer, k, p) {
      if p in t {
        var k :| IsFile(ms, k, p);
        assert IsFile(longer, k, p);
      } else if p in y {
        assert IsFile(longer, n, p);
      }
    }
    forall k, p | IsFile(longer, k, p) ensures y[p] == longer[k].node.content {
      if k < n { assert Apart(ms[k], m); }
    }
  }

  /** A member that is an artifact under a legal name. */
  lemma ArtifactExactly(m: Member)
    ensures Placeable(ExportItem(m)) && m.node.Regular? <==>
      (&& Receiving.IsArtifact(m)
       && forall part :: part in Receiving.TargetOf(m.name).path ==> NUL !in part)
  {
    var target := Receiving.TargetOf(m.name);
    if target.Artifact? && forall part :: part in target.path ==> NUL !in part {
      Receiving.SafeIsLegalBelow(m.name, target.path);
    }
  }

  ghost predicate LaidOut(ms: seq<Member>, n: nat)
    requires n <= |ms|
  {
    && Lays(Receiving.Extracted(ms, n), ExportItems(ms, n))
    && Receiving.ArtifactBytes(ms, n) == Sizes(ExportItems(ms, n))
  }

  lemma ExtractableNext(items: seq<Item>, last: Item, t: Tree, maxBytes: nat)
    requires Extractable(items, maxBytes) && Lays(t, items)
    ensures Extractable(items + [last], maxBytes) <==>
      (&& Placeable(last) && last.node.Regular? && (forall q :: q in t ==> !Clash(q, last.path))
       && Sizes(items) + Size(last) <= maxBytes)
    ensures Extractable(items + [last], maxBytes) ==> Lays(t[last.path := last.node.content], items + [last])
  {
    OneMore(items, last);
    FilesOneMore(items, last);
    if last.node.Regular? {
      CreatableExactly(t, items, last);
      if ApartFrom(items, last) { LaysOneMore(t, items, last); }
    }
  }

  lemma AdmissibleNext(ms: seq<Member>, n: nat, maxBytes: nat)
    requires 0 < n < |ms| && Extractable(ExportItems(ms, n), maxBytes) && LaidOut(ms, n)
    ensures Receiving.Admissible(ms, n, maxBytes) <==>
      n <= MAX_ARTIFACT_FILES && Extractable(ExportItems(ms, n + 1), maxBytes)
    ensures Extractable(ExportItems(ms, n + 1), maxBytes) ==> LaidOut(ms, n + 1)
  {
    ArtifactExactly(ms[n]);
    ExtractableNext(ExportItems(ms, n), ExportItem(ms[n]), Receiving.Extracted(ms, n), maxBytes);
    OneMore(ExportItems(ms, n), ExportItem(ms[n]));
  }

  lemma FilesOneMore(ms: seq<Item>, m: Item)
    ensures AllFiles(ms + [m]) <==> AllFiles(ms) && m.node.Regular?
  {
    if AllFiles(ms + [m]) {
      forall k | 0 <= k < |ms| ensures ms[k].node.Regular? { assert (ms + [m])[k] == ms[k]; }
      assert (ms + [m])[|ms|] == m;
    }
  }

  lemma {:induction false} AdmissibleExactly(ms: seq<Member>, n: nat, maxBytes: nat)
    requires StartsWithManifest(ms) && 0 < n <= |ms|
    ensures
      var ok := Extractable(ExportItems(ms, n), maxBytes);
      && (Receiving.AllAdmissible(ms, n, maxBytes) <==> n <= MAX_ARTIFACT_FILES + 1 && ok)
      && (ok ==> LaidOut(ms, n))
  {
    if n == 1 {
      assert Receiving.AllAdmissible(ms, 0, maxBytes) && Receiving.ArtifactBytes(ms, 0) == 0;
      assert Receiving.Extracted(ms, 0) == map[];
    } else {
      AdmissibleExactly(ms, n - 1, maxBytes);
      if Extractable(ExportItems(ms, n - 1), maxBytes) {
        AdmissibleNext(ms, n - 1, maxBytes);
      } else if Extractable(ExportItems(ms, n), maxBytes) {
        ShorterIsExtractable(ExportItems(ms, n - 1), ExportItem(ms[n - 1]), maxBytes);
      }
    }
  }

  lemma ShorterIsExtractable(ms: seq<Item>, m: Item, maxBytes: nat)
    requires Extractable(ms + [m], maxBytes)
    ensures Extractable(ms, maxBytes)
  {
    OneMore(ms, m);
    FilesOneMore(ms, m);
  }

  /** An export passes the checks on its members exactly if it starts with a manifest of at most 16 MiB, and
      goes on with at most 10,000 files below `artifacts`, none in the way of another, that weigh at most the
      given bytes; whatever their order. */
  lemma WellFormedExactly(ms: seq<Member>, maxBytes: nat)
    ensures Receiving.WellFormed(ms, maxBytes) <==>
      StartsWithManifest(ms) && |ms| <= 10_001 && Extractable(ExportItems(ms, |ms|), maxBytes)
    ensures Receiving.WellFormed(ms, maxBytes) ==>
      && Lays(Receiving.Extracted(ms, |ms|), ExportItems(ms, |ms|))
      && Receiving.ArtifactBytes(ms, |ms|) == Sizes(ExportItems(ms, |ms|))
  {
    if StartsWithManifest(ms) {
      AdmissibleExactly(ms, |ms|, maxBytes);
    } else if ms != [] && Receiving.AllAdmissible(ms, |ms|, maxBytes) {
      Receiving.EachAdmissible(ms, 0, |ms|, maxBytes);
    }
  }

  /** The files weigh what was counted, and there is one for each member but the first. */
  lemma {:induction false} ExtractedWeighs(ms: seq<Member>, maxBytes: nat, n: nat)
    requires 0 < n <= |ms| && Receiving.AllAdmissible(ms, n, maxBytes)
    ensures Receiving.ArtifactBytes(ms, n) == TreeBytes(Receiving.Extracted(ms, n))
    ensures |Receiving.Extracted(ms, n)| == n - 1
  {
    if n == 1 {
      assert Receiving.AllAdmissible(ms, 0, maxBytes);
      assert Receiving.ArtifactBytes(ms, 0) == 0 && Receiving.Extracted(ms, 0) == map[];
    } else {
      ExtractedWeighs(ms, maxBytes, n - 1);
      AddedWeighs(
        Receiving.Extracted(ms, n - 1), Receiving.TargetOf(ms[n - 1].name).path, ms[n - 1].node.content);
    }
  }

  lemma AddedWeighs(t: Tree, p: Path, content: seq<Byte>)
    requires p !in t
    ensures TreeBytes(t[p := content]) == TreeBytes(t) + |content| && |t[p := content]| == |t| + 1
  {
    var u := t[p := content];
    TreeBytesAt(u, p);
    assert u - {p} == t;
  }

  /** What a manifest says of a run that can be exported. */
  predicate Identifies(m: Manifest) {
    && ArtifactTheorems.WellFormedIdentity(ArtifactTheorems.StateOf(m)) && Terminal(m.terminalState)
    && Absolute(m.runDir)
  }

  /** The receiver accepts exactly the exports: archives of that form whose manifest is the one that the writer
      would make of the files in them, for a terminal run with a well-formed identity. */
  lemma AcceptedExactly(ms: seq<Member>, maxBytes: nat, c: Codec, mirror: Receiving.Mirror, order: seq<Path>)
    requires Lawful(c) && IsOrder(order, mirror.tree) && maxBytes >= 1
    ensures Receiving.Accepts(ms, maxBytes, c, mirror) <==>
      (&& StartsWithManifest(ms) && |ms| <= 10_001 && Extractable(ExportItems(ms, |ms|), maxBytes)
       && c.decode(ms[0].node.content) == Some(ToJson(mirror.manifest))
       && mirror.tree == Receiving.Extracted(ms, |ms|) && Identifies(mirror.manifest)
       && mirror.manifest ==
            ManifestFor(order, mirror.tree, ArtifactTheorems.StateOf(mirror.manifest), mirror.manifest.runDir, c))
  {
    WellFormedExactly(ms, maxBytes);
    if Receiving.WellFormed(ms, maxBytes) && mirror.tree == Receiving.Extracted(ms, |ms|) {
      AcceptedByManifest(ms, maxBytes, c, mirror, order);
    }
  }

  lemma AcceptedByManifest(ms: seq<Member>, maxBytes: nat, c: Codec, mirror: Receiving.Mirror, order: seq<Path>)
    requires Lawful(c) && IsOrder(order, mirror.tree) && maxBytes >= 1
    requires Receiving.WellFormed(ms, maxBytes) && mirror.tree == Receiving.Extracted(ms, |ms|)
    ensures Receiving.Accepts(ms, maxBytes, c, mirror) <==>
      (&& c.decode(ms[0].node.content) == Some(ToJson(mirror.manifest)) && Identifies(mirror.manifest)
       && mirror.manifest ==
            ManifestFor(order, mirror.tree, ArtifactTheorems.StateOf(mirror.manifest), mirror.manifest.runDir, c))
  {
    var m, t := mirror.manifest, mirror.tree;
    Receiving.ExtractedIsLegal(ms, maxBytes, |ms|);
    ExtractedWeighs(ms, maxBytes, |ms|);
    ArtifactTheorems.AdmissibleEnds(ms, maxBytes);
    OrderWeighs(order, t);
    EachIsCounted(ms, maxBytes);
    if m == ManifestFor(order, t, ArtifactTheorems.StateOf(m), m.runDir, c) && Identifies(m) {
      ArtifactTheorems.ManifestIsSoundExactly(order, t, ArtifactTheorems.StateOf(m), m.runDir, c, maxBytes);
      ArtifactTheorems.TreeMatchesItsRows(order, t);
      Receiving.OneDigest(t, order);
      assert Receiving.HasDigest(t, m.setSha256, c);
    }
    if Receiving.Accepts(ms, maxBytes, c, mirror) {
      ArtifactTheorems.AcceptedIsAnExport(ms, maxBytes, c, mirror, order);
    }
  }

  lemma EachIsCounted(ms: seq<Member>, maxBytes: nat)
    requires Receiving.WellFormed(ms, maxBytes)
    ensures |ms| <= MAX_ARTIFACT_FILES + 1
    ensures |ms| == 1 ==> TreeBytes(Receiving.Extracted(ms, |ms|)) == 0
  {
    WellFormedExactly(ms, maxBytes);
    ExtractedWeighs(ms, maxBytes, |ms|);
  }
}
