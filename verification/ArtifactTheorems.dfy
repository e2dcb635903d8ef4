/** Writer and receiver of artifacts are mutual inverses. */
module ArtifactTheorems {
  import opened Wrappers
  import opened Texts
  import opened Paths
  import opened Digests
  import opened Manifests
  import opened Artifacts
  import opened Receiving

  // ---------------------------------------------------------------- names in the archive

  lemma ArchiveNames()
    ensures IsName(ARTIFACTS_DIR) && IsName(MANIFEST_NAME) && ARTIFACTS_DIR != MANIFEST_NAME
  {
    assert |ARTIFACTS_DIR| == 9 && |MANIFEST_NAME| == 22;
    assert ARTIFACTS_DIR[0] == 97 && MANIFEST_NAME[0] == 97;
  }

  lemma ManifestTarget()
    ensures TargetOf(MANIFEST_NAME) == ManifestFile
  {
    ArchiveNames();
    assert IsPath([MANIFEST_NAME]) && Join([MANIFEST_NAME]) == MANIFEST_NAME;
    ReadBack([MANIFEST_NAME]);
  }

  lemma ArtifactTarget(p: Path)
    requires IsPath(p)
    ensures TargetOf(ARTIFACTS_DIR + [SLASH] + Join(p)) == Artifact(p)
  {
    ArchiveNames();
    UnderDirectory(ARTIFACTS_DIR, p);
    var whole := [ARTIFACTS_DIR] + p;
    ReadBack(whole);
    if Join(whole) == MANIFEST_NAME {
      JoinIsInjective(whole, [MANIFEST_NAME]);
    }
    assert whole[1..] == p;
  }

  // ---------------------------------------------------------------- unpacking what was written

  function Export(order: seq<Path>, t: Tree, m: Manifest, c: Codec): seq<Member>
    requires Among(order, t)
  {
    ArchiveOf(m, FilesIn(order, t), c)
  }

  lemma ExportedMember(order: seq<Path>, t: Tree, m: Manifest, c: Codec, i: nat)
    requires LegalTree(t) && IsOrder(order, t) && i < |order|
    ensures
      var member := Export(order, t, m, c)[i + 1];
      IsArtifact(member) && TargetOf(member.name) == Artifact(order[i]) && member.node.content == t[order[i]]
  {
    assert order[i] in order;
    ArtifactTarget(order[i]);
  }

  ghost predicate Holds(s: Tree, paths: seq<Path>, t: Tree) { Within(s, t) && forall p :: p in s <==> p in paths }

  lemma HoldsOneMore(s: Tree, paths: seq<Path>, t: Tree, p: Path)
    requires Holds(s, paths, t) && p in t
    ensures Holds(s[p := t[p]], paths + [p], t)
  {
  }

  lemma UnpackOne(ms: seq<Member>, n: nat, p: Path, content: seq<Byte>)
    requires n < |ms| && IsArtifact(ms[n]) && TargetOf(ms[n].name) == Artifact(p) && ms[n].node.content == content
    ensures Extracted(ms, n + 1) == Extracted(ms, n)[p := content]
    ensures ArtifactBytes(ms, n + 1) == ArtifactBytes(ms, n) + |content|
  {
  }

  /** The first `n` files of an export, unpacked. */
  lemma {:induction false} UnpackedSoFar(order: seq<Path>, t: Tree, m: Manifest, c: Codec, n: nat)
    requires LegalTree(t) && IsOrder(order, t) && n <= |order|
    ensures
      var ms := Export(order, t, m, c);
      Holds(Extracted(ms, n + 1), order[..n], t) && ArtifactBytes(ms, n + 1) == OrderBytes(order[..n], t)
  {
    var ms := Export(order, t, m, c);
    if n == 0 {
      ManifestTarget();
      assert Extracted(ms, 0) == map[] && ArtifactBytes(ms, 0) == 0;
    } else {
      UnpackedSoFar(order, t, m, c, n - 1);
      ExportedMember(order, t, m, c, n - 1);
      UnpackStep(ms, order, t, n);
    }
  }

  lemma UnpackStep(ms: seq<Member>, order: seq<Path>, t: Tree, n: nat)
    requires Among(order, t) && 0 < n <= |order| && n < |ms|
    requires IsArtifact(ms[n]) && TargetOf(ms[n].name) == Artifact(order[n - 1])
    requires order[n - 1] in t && ms[n].node.content == t[order[n - 1]]
    requires Holds(Extracted(ms, n), order[..n - 1], t) && ArtifactBytes(ms, n) == OrderBytes(order[..n - 1], t)
    ensures Holds(Extracted(ms, n + 1), order[..n], t) && ArtifactBytes(ms, n + 1) == OrderBytes(order[..n], t)
  {
    var p := order[n - 1];
    UnpackOne(ms, n, p, t[p]);
    assert order[..n] == order[..n - 1] + [p];
    HoldsOneMore(Extracted(ms, n), order[..n - 1], t, p);
    OrderBytesStep(order, t, n);
  }

  lemma OrderBytesStep(order: seq<Path>, t: Tree, n: nat)
    requires Among(order, t) && 0 < n <= |order|
    ensures OrderBytes(order[..n], t) == OrderBytes(order[..n - 1], t) + |t[order[n - 1]]|
  {
    assert order[..n][..n - 1] == order[..n - 1];
  }

  lemma NextIsCreatable(order: seq<Path>, t: Tree, s: Tree, n: nat)
    requires LegalTree(t) && IsOrder(order, t) && n < |order|
    requires forall p :: p in s <==> p in order[..n]
    ensures Creatable(s, order[n])
  {
    assert order[n] in order;
    forall q | q in s ensures !Clash(q, order[n]) {
      assert q in order && q != order[n];
    }
  }

  lemma {:induction false} OrderBytesGrow(order: seq<Path>, t: Tree, n: nat)
    requires Among(order, t) && n <= |order|
    ensures OrderBytes(order[..n], t) <= OrderBytes(order, t)
  {
    if n < |order| {
      var init := order[..|order| - 1];
      assert init[..n] == order[..n];
      OrderBytesGrow(init, t, n);
    } else {
      assert order[..n] == order;
    }
  }

  lemma OneMoreAdmissible(ms: seq<Member>, k: nat, maxBytes: nat)
    requires 0 < k < |ms| && k <= MAX_ARTIFACT_FILES && IsArtifact(ms[k]) && ArtifactBytes(ms, k + 1) <= maxBytes
    requires Creatable(Extracted(ms, k), TargetOf(ms[k].name).path) && AllAdmissible(ms, k, maxBytes)
    ensures AllAdmissible(ms, k + 1, maxBytes)
  {
  }

  lemma FirstAdmissible(order: seq<Path>, t: Tree, m: Manifest, c: Codec, maxBytes: nat)
    requires Among(order, t)
    ensures AllAdmissible(Export(order, t, m, c), 1, maxBytes) <==> |c.encode(ToJson(m))| <= MAX_ARTIFACT_MANIFEST_BYTES
  {
    ManifestTarget();
    assert AllAdmissible(Export(order, t, m, c), 0, maxBytes);
  }

  lemma NthCanBePlaced(order: seq<Path>, t: Tree, m: Manifest, c: Codec, n: nat)
    requires LegalTree(t) && IsOrder(order, t) && 0 < n <= |order|
    ensures
      var ms := Export(order, t, m, c);
      && IsArtifact(ms[n]) && Creatable(Extracted(ms, n), TargetOf(ms[n].name).path)
      && ArtifactBytes(ms, n + 1) <= OrderBytes(order, t)
  {
    UnpackedSoFar(order, t, m, c, n - 1);
    UnpackedSoFar(order, t, m, c, n);
    ExportedMember(order, t, m, c, n - 1);
    NextIsCreatable(order, t, Extracted(Export(order, t, m, c), n), n - 1);
    OrderBytesGrow(order, t, n);
  }

  lemma NthIsAdmissible(order: seq<Path>, t: Tree, m: Manifest, c: Codec, maxBytes: nat, n: nat)
    requires LegalTree(t) && IsOrder(order, t) && 0 < n <= |order| && n <= MAX_ARTIFACT_FILES
    requires OrderBytes(order, t) <= maxBytes && AllAdmissible(Export(order, t, m, c), n, maxBytes)
    ensures AllAdmissible(Export(order, t, m, c), n + 1, maxBytes)
  {
    var ms := Export(order, t, m, c);
    NthCanBePlaced(order, t, m, c, n);
    OneMoreAdmissible(ms, n, maxBytes);
  }

  /** Within the limits, every member of an export is admissible. */
  lemma {:induction false} ExportIsAdmissible(order: seq<Path>, t: Tree, m: Manifest, c: Codec, maxBytes: nat, n: nat)
    requires LegalTree(t) && IsOrder(order, t) && n <= |order| <= MAX_ARTIFACT_FILES
    requires |c.encode(ToJson(m))| <= MAX_ARTIFACT_MANIFEST_BYTES && OrderBytes(order, t) <= maxBytes
    ensures AllAdmissible(Export(order, t, m, c), n + 1, maxBytes)
  {
    if n == 0 {
      FirstAdmissible(order, t, m, c, maxBytes);
    } else {
      ExportIsAdmissible(order, t, m, c, maxBytes, n - 1);
      NthIsAdmissible(order, t, m, c, maxBytes, n);
    }
  }

  lemma ExportUnpacksTo(order: seq<Path>, t: Tree, m: Manifest, c: Codec)
    requires LegalTree(t) && IsOrder(order, t)
    ensures var ms := Export(order, t, m, c);
      Extracted(ms, |ms|) == t && ArtifactBytes(ms, |ms|) == OrderBytes(order, t)
  {
    var ms := Export(order, t, m, c);
    assert order[..|order|] == order;
    UnpackedSoFar(order, t, m, c, |order|);
    assert Extracted(ms, |ms|) == t;
  }

  lemma AdmissibleEnds(ms: seq<Member>, maxBytes: nat)
    requires ms != [] && AllAdmissible(ms, |ms|, maxBytes)
    ensures AllAdmissible(ms, 1, maxBytes) && (|ms| > 1 ==> ArtifactBytes(ms, |ms|) <= maxBytes)
  {
    EachAdmissible(ms, 0, |ms|, maxBytes);
    EachAdmissible(ms, |ms| - 1, |ms|, maxBytes);
    assert AllAdmissible(ms, 0, maxBytes);
  }

  /** An export unpacks to the exported tree; it is well formed exactly within the receiver's limits. */
  lemma ExportUnpacks(order: seq<Path>, t: Tree, m: Manifest, c: Codec, maxBytes: nat)
    requires LegalTree(t) && IsOrder(order, t) && |order| <= MAX_ARTIFACT_FILES
    ensures
      var ms := Export(order, t, m, c);
      && Extracted(ms, |ms|) == t && ArtifactBytes(ms, |ms|) == OrderBytes(order, t)
      && (WellFormed(ms, maxBytes) <==>
          |c.encode(ToJson(m))| <= MAX_ARTIFACT_MANIFEST_BYTES && OrderBytes(order, t) <= maxBytes)
  {
    var ms := Export(order, t, m, c);
    ExportUnpacksTo(order, t, m, c);
    FirstAdmissible(order, t, m, c, maxBytes);
    if WellFormed(ms, maxBytes) {
      AdmissibleEnds(ms, maxBytes);
    } else if |c.encode(ToJson(m))| <= MAX_ARTIFACT_MANIFEST_BYTES && OrderBytes(order, t) <= maxBytes {
      ExportIsAdmissible(order, t, m, c, maxBytes, |order|);
    }
  }

  // ---------------------------------------------------------------- manifest and tree

  lemma RowsOfMembers(files: seq<File>)
    ensures forall r :: r in RowsOf(files) <==> exists f :: f in files && r == Row(f.path, |f.content|)
  {
    forall r ensures r in RowsOf(files) <==> exists f :: f in files && r == Row(f.path, |f.content|) {
      if r in RowsOf(files) {
        var i :| 0 <= i < |files| && RowsOf(files)[i] == r;
        assert files[i] in files;
      }
      if f :| f in files && r == Row(f.path, |f.content|) {
        var i :| 0 <= i < |files| && files[i] == f;
        assert RowsOf(files)[i] == r;
      }
    }
  }

  /** The rows of a tree are those of its files. */
  lemma RowsOfTree(order: seq<Path>, t: Tree, r: Row)
    requires LegalTree(t) && IsOrder(order, t)
    ensures r in RowsOf(Sorted(FilesIn(order, t))) <==> exists p :: p in t && r == Row(Join(p), |t[p]|)
  {
    var files := FilesIn(order, t);
    FilesAreDistinct(t, order);
    SortedIsAscending(files);
    RowsOfMembers(Sorted(files));
    if r in RowsOf(Sorted(files)) {
      var f :| f in Sorted(files) && r == Row(f.path, |f.content|);
      FilesOfTree(t, order, f);
    }
    if p :| p in t && r == Row(Join(p), |t[p]|) {
      FilesOfTree(t, order, File(Join(p), t[p]));
    }
  }

  lemma TreeMatchesItsRows(order: seq<Path>, t: Tree)
    requires LegalTree(t) && IsOrder(order, t)
    ensures MatchesRows(t, RowsOf(Sorted(FilesIn(order, t))))
  {
    var rows := RowsOf(Sorted(FilesIn(order, t)));
    forall p | p in t ensures Row(Join(p), |t[p]|) in rows { RowsOfTree(order, t, Row(Join(p), |t[p]|)); }
    forall r | r in rows ensures exists p :: p in t && r == Row(Join(p), |t[p]|) { RowsOfTree(order, t, r); }
    forall p, r | p in t && r in rows && r.path == Join(p) ensures r.size == |t[p]| {
      var q :| q in t && r == Row(Join(q), |t[q]|);
      JoinIsInjective(p, q);
    }
  }

  function FileBytes(files: seq<File>): nat {
    if files == [] then 0 else |files[0].content| + FileBytes(files[1..])
  }

  lemma {:induction false} InsertWeighs(f: File, sorted: seq<File>)
    ensures FileBytes(Insert(f, sorted)) == |f.content| + FileBytes(sorted)
  {
    if sorted != [] && !Below(f.path, sorted[0].path) {
      InsertWeighs(f, sorted[1..]);
    }
  }

  lemma {:induction false} SortedWeighs(order: seq<Path>, t: Tree)
    requires Among(order, t)
    ensures FileBytes(Sorted(FilesIn(order, t))) == OrderBytes(order, t)
  {
    if order != [] {
      var init, files := order[..|order| - 1], FilesIn(order, t);
      SortedWeighs(init, t);
      assert files[..|files| - 1] == FilesIn(init, t);
      InsertWeighs(files[|files| - 1], Sorted(FilesIn(init, t)));
    }
  }

  lemma {:induction false} RowBytesFront(r: Row, rows: seq<Row>)
    ensures RowBytes([r] + rows) == r.size + RowBytes(rows)
  {
    var all := [r] + rows;
    if rows != [] {
      RowBytesFront(r, rows[..|rows| - 1]);
      assert all[..|all| - 1] == [r] + rows[..|rows| - 1];
    }
  }

  lemma {:induction false} RowsWeigh(files: seq<File>)
    ensures RowBytes(RowsOf(files)) == FileBytes(files)
  {
    if files != [] {
      RowsWeigh(files[1..]);
      RowBytesFront(Row(files[0].path, |files[0].content|), RowsOf(files[1..]));
      assert RowsOf(files) == [Row(files[0].path, |files[0].content|)] + RowsOf(files[1..]);
    }
  }

  lemma TreeRowsAreSound(order: seq<Path>, t: Tree)
    requires LegalTree(t) && IsOrder(order, t)
    ensures SoundRows(RowsOf(Sorted(FilesIn(order, t))))
    ensures RowBytes(RowsOf(Sorted(FilesIn(order, t)))) == OrderBytes(order, t)
  {
    var files := FilesIn(order, t);
    var rows := RowsOf(Sorted(files));
    FilesAreDistinct(t, order);
    SortedIsAscending(files);
    RowsWeigh(Sorted(files));
    SortedWeighs(order, t);
    forall r | r in rows ensures SoundRow(r) {
      RowsOfTree(order, t, r);
      var p :| p in t && r == Row(Join(p), |t[p]|);
      ReadBack(p);
    }
    forall i | 0 < i < |rows| ensures Below(rows[i - 1].path, rows[i].path) {
      assert Below(Sorted(files)[i - 1].path, Sorted(files)[i].path);
    }
  }

  /** The identity fields that the writer copies from the run state and the receiver checks. */
  predicate WellFormedIdentity(state: RunState) {
    && IsId(state.runId, 128) && IsId(state.taskId, 96) && IsSha256(state.taskSha256)
    && IsSha256(state.candidateSha256) && state.terminalAt.Some? && state.terminalAt.value != []
  }

  lemma ManifestIsSoundExactly(order: seq<Path>, t: Tree, state: RunState, runDir: Text, c: Codec, maxBytes: nat)
    requires LegalTree(t) && IsOrder(order, t) && |order| <= MAX_ARTIFACT_FILES && Lawful(c)
    requires Terminal(state.state) && Absolute(runDir)
    ensures Sound(ManifestFor(order, t, state, runDir, c), maxBytes) <==>
      (WellFormedIdentity(state) && OrderBytes(order, t) <= maxBytes)
  {
    TreeRowsAreSound(order, t);
    SortedIsAscending(FilesIn(order, t)) by { FilesAreDistinct(t, order); }
    assert |multiset(Sorted(FilesIn(order, t)))| == |multiset(FilesIn(order, t))|;
  }

  /** Artifact round trip: an export is accepted exactly when its identity fields are well formed, its
      encoded manifest fits 16 MiB and its files fit the receiver's limit; and then it is received as
      the tree and the manifest that were exported. */
  lemma ExportIsReceived(
      state: RunState, dir: RunDirectory, maxWritten: nat, maxReceived: nat, c: Codec, order: seq<Path>, mirror: Mirror)
    requires Lawful(c) && LegalDirectory(dir) && Exportable(state, dir, maxWritten) && maxReceived >= 1
    requires IsOrder(order, FilesOf(dir.entries))
    ensures
      var t := FilesOf(dir.entries);
      var m := ManifestFor(order, t, state, dir.path, c);
      Accepts(ArchiveOf(m, FilesIn(order, t), c), maxReceived, c, mirror) <==>
        (&& mirror == Mirror(m, t)
         && WellFormedIdentity(state) && |c.encode(ToJson(m))| <= MAX_ARTIFACT_MANIFEST_BYTES
         && TreeBytes(t) <= maxReceived)
  {
    var t := FilesOf(dir.entries);
    var m := ManifestFor(order, t, state, dir.path, c);
    OrderWeighs(order, t);
    ExportUnpacks(order, t, m, c, maxReceived);
    ManifestIsSoundExactly(order, t, state, dir.path, c, maxReceived);
    TreeMatchesItsRows(order, t);
    OneDigest(t, order);
    assert HasDigest(t, m.setSha256, c);
    if ToJson(mirror.manifest) == ToJson(m) { ToJsonIsInjective(mirror.manifest, m); }
  }

  /** An interrupted run of which the terminal timestamp is missing. */
  function Untimed(): RunState { RunState(Ascii("interrupted"), None, [97], [97], [], []) }

  /** It is exported even without files, but no receiver takes the export. */
  lemma ExportCanBeRefused(c: Codec, maxWritten: nat, maxReceived: nat, mirror: Mirror)
    requires Lawful(c) && maxWritten >= 1 && maxReceived >= 1
    ensures
      var dir := Present([SLASH], map[]);
      && LegalDirectory(dir) && Exportable(Untimed(), dir, maxWritten)
      && !Accepts(ArchiveOf(ManifestFor([], map[], Untimed(), [SLASH], c), [], c), maxReceived, c, mirror)
  {
    var dir := Present([SLASH], map[]);
    assert FilesOf(dir.entries) == map[];
    assert IsOrder([], FilesOf(dir.entries));
    ExportIsReceived(Untimed(), dir, maxWritten, maxReceived, c, [], mirror);
  }

  // ---------------------------------------------------------------- the converse

  function StateOf(m: Manifest): RunState {
    RunState(m.terminalState, m.terminalAt, m.runId, m.taskId, m.taskSha256, m.candidateSha256)
  }

  function FileOf(t: Tree, r: Row): File {
    var p := SafeRelative(r.path);
    File(r.path, if p.Some? && p.value in t then t[p.value] else [])
  }

  lemma RowMeetsFile(t: Tree, rows: seq<Row>, r: Row) returns (p: Path)
    requires LegalTree(t) && MatchesRows(t, rows) && r in rows
    ensures p in t && r == Row(Join(p), |t[p]|) && FileOf(t, r) == File(Join(p), t[p])
  {
    assert r.path in RowPaths(rows);
    assert r.path in PathTexts(t);
    p :| p in t && Join(p) == r.path;
    ReadBack(p);
  }

  lemma {:induction false} RowsAscend(rows: seq<Row>, i: nat, j: nat)
    requires SoundRows(rows) && i < j < |rows|
    ensures Below(rows[i].path, rows[j].path)
  {
    if i < j - 1 {
      RowsAscend(rows, i, j - 1);
      BelowIsTransitive(rows[i].path, rows[j - 1].path, rows[j].path);
    }
  }

  function FilesOfRows(t: Tree, rows: seq<Row>): seq<File> {
    seq(|rows|, i requires 0 <= i < |rows| => FileOf(t, rows[i]))
  }

  lemma FilesOfMatchingRows(t: Tree, rows: seq<Row>, f: File)
    requires LegalTree(t) && MatchesRows(t, rows)
    ensures f in FilesOfRows(t, rows) <==> exists p :: p in t && f == File(Join(p), t[p])
  {
    var listed := FilesOfRows(t, rows);
    if f in listed {
      var i :| 0 <= i < |rows| && listed[i] == f;
      var p := RowMeetsFile(t, rows, rows[i]);
    }
    if p :| p in t && f == File(Join(p), t[p]) {
      assert Join(p) in PathTexts(t);
      assert Join(p) in RowPaths(rows);
      var i :| 0 <= i < |rows| && rows[i].path == Join(p);
      var q := RowMeetsFile(t, rows, rows[i]);
      JoinIsInjective(p, q);
      assert listed[i] == f;
    }
  }

  /** Sound rows that match a tree are the rows of the tree. */
  lemma MatchingRowsAreCanonical(order: seq<Path>, t: Tree, rows: seq<Row>)
    requires LegalTree(t) && IsOrder(order, t) && SoundRows(rows) && MatchesRows(t, rows)
    ensures rows == RowsOf(Sorted(FilesIn(order, t)))
  {
    var files, listed := FilesIn(order, t), FilesOfRows(t, rows);
    FilesAreDistinct(t, order);
    SortedIsAscending(files);
    forall i, j | 0 <= i < j < |listed| ensures Below(listed[i].path, listed[j].path) { RowsAscend(rows, i, j); }
    forall f ensures f in listed <==> f in Sorted(files) {
      FilesOfTree(t, order, f);
      FilesOfMatchingRows(t, rows, f);
    }
    AscendingIsCanonical(listed, Sorted(files));
    forall i | 0 <= i < |rows| ensures rows[i] == RowsOf(listed)[i] {
      var p := RowMeetsFile(t, rows, rows[i]);
    }
  }

  /** Conversely an accepted mirror is a legal tree, and its manifest is the one the writer makes of it. */
  lemma AcceptedIsAnExport(ms: seq<Member>, maxBytes: nat, c: Codec, mirror: Mirror, order: seq<Path>)
    requires Accepts(ms, maxBytes, c, mirror) && IsOrder(order, mirror.tree)
    ensures LegalTree(mirror.tree)
    ensures mirror.manifest == ManifestFor(order, mirror.tree, StateOf(mirror.manifest), mirror.manifest.runDir, c)
    ensures mirror.manifest.total == TreeBytes(mirror.tree)
  {
    var m, t := mirror.manifest, mirror.tree;
    ExtractedIsLegal(ms, maxBytes, |ms|);
    MatchingRowsAreCanonical(order, t, m.files);
    TreeRowsAreSound(order, t);
    OneDigest(t, order);
    OrderWeighs(order, t);
  }

  ghost predicate Short(order: seq<Path>, t: Tree)
    requires Among(order, t)
  {
    Fits(FilesIn(order, t))
  }

  /** Whatever was done to an archive on its way: if it is accepted with the set digest of the exported
      tree, it holds exactly the exported files, unless two different streams have the same SHA-256. */
  lemma TamperingIsACollision(
      t: Tree, order: seq<Path>, ms: seq<Member>, maxBytes: nat, c: Codec, mirror: Mirror, received: seq<Path>)
    requires LegalTree(t) && IsOrder(order, t) && Accepts(ms, maxBytes, c, mirror) && IsOrder(received, mirror.tree)
    requires Short(order, t) && Short(received, mirror.tree)
    requires mirror.manifest.setSha256 == c.sha256(Preimage(FilesIn(order, t)))
    ensures
      || mirror.tree == t
      || (&& Preimage(FilesIn(order, t)) != Preimage(FilesIn(received, mirror.tree))
          && c.sha256(Preimage(FilesIn(order, t))) == c.sha256(Preimage(FilesIn(received, mirror.tree))))
  {
    AcceptedIsAnExport(ms, maxBytes, c, mirror, received);
    if Preimage(FilesIn(order, t)) == Preimage(FilesIn(received, mirror.tree)) {
      FilesAreDistinct(t, order);
      FilesAreDistinct(mirror.tree, received);
      PreimageIdentifiesSet(FilesIn(order, t), FilesIn(received, mirror.tree));
      SameFilesSameTree(t, order, mirror.tree, received);
    }
  }

  lemma SameFilesSameTree(s: Tree, a: seq<Path>, t: Tree, b: seq<Path>)
    requires LegalTree(s) && LegalTree(t) && IsOrder(a, s) && IsOrder(b, t)
    requires forall f :: f in FilesIn(a, s) <==> f in FilesIn(b, t)
    ensures s == t
  {
    FilesCarryOver(s, a, t, b);
    FilesCarryOver(t, b, s, a);
  }

  lemma FilesCarryOver(s: Tree, a: seq<Path>, t: Tree, b: seq<Path>)
    requires LegalTree(s) && LegalTree(t) && IsOrder(a, s) && IsOrder(b, t)
    requires forall f :: f in FilesIn(a, s) ==> f in FilesIn(b, t)
    ensures Within(s, t)
  {
    forall p | p in s ensures p in t && t[p] == s[p] {
      var f := File(Join(p), s[p]);
      FilesOfTree(s, a, f);
      FilesOfTree(t, b, f);
      var q :| q in t && f == File(Join(q), t[q]);
      JoinIsInjective(p, q);
    }
  }
}
