/** `receive_artifact_export`: unpack an archive into an empty workspace and check it against its manifest. */
module Receiving {
  import opened Wrappers
  import opened Texts
  import opened Paths
  import opened Digests
  import opened Manifests
  import opened Artifacts

  datatype Target = ManifestFile | Artifact(path: Path) | Refused

  /** `_safe_artifact_archive_path`. */
  function TargetOf(name: Text): Target {
    match SafeRelative(name)
    case None => Refused
    case Some(p) =>
      if Join(p) == MANIFEST_NAME then ManifestFile
      else if p[0] != ARTIFACTS_DIR || |p| < 2 then Refused
      else Artifact(p[1..])
  }

  datatype Mirror = Mirror(manifest: Manifest, tree: Tree)

  // ---------------------------------------------------------------- what is accepted

  predicate IsArtifact(member: Member) { member.node.Regular? && TargetOf(member.name).Artifact? }

  /** The files written by the first `n` members. */
  function Extracted(ms: seq<Member>, n: nat): Tree
    requires n <= |ms|
  {
    if n == 0 then map[]
    else if IsArtifact(ms[n - 1]) then Extracted(ms, n - 1)[TargetOf(ms[n - 1].name).path := ms[n - 1].node.content]
    else Extracted(ms, n - 1)
  }

  function ArtifactBytes(ms: seq<Member>, n: nat): nat
    requires n <= |ms|
  {
    if n == 0 then 0
    else ArtifactBytes(ms, n - 1) + if IsArtifact(ms[n - 1]) then |ms[n - 1].node.content| else 0
  }

  /** A file can be created here: its name holds no NUL, and no file is, or lies, in its way. */
  predicate Creatable(t: Tree, p: Path) {
    (forall part :: part in p ==> NUL !in part) && forall q :: q in t ==> !Clash(q, p)
  }

  predicate Admissible(ms: seq<Member>, k: nat, maxBytes: nat)
    requires k < |ms|
  {
    && k <= MAX_ARTIFACT_FILES
    && if k == 0 then
         && ms[0].node.Regular? && TargetOf(ms[0].name).ManifestFile?
         && |ms[0].node.content| <= MAX_ARTIFACT_MANIFEST_BYTES
       else
         && IsArtifact(ms[k]) && ArtifactBytes(ms, k + 1) <= maxBytes
         && Creatable(Extracted(ms, k), TargetOf(ms[k].name).path)
  }

  /** Each of the first `n` members is admissible after those before it. */
  predicate AllAdmissible(ms: seq<Member>, n: nat, maxBytes: nat)
    requires n <= |ms|
  {
    n == 0 || (AllAdmissible(ms, n - 1, maxBytes) && Admissible(ms, n - 1, maxBytes))
  }

  lemma {:induction false} EachAdmissible(ms: seq<Member>, k: nat, n: nat, maxBytes: nat)
    requires k < n <= |ms| && AllAdmissible(ms, n, maxBytes)
    ensures Admissible(ms, k, maxBytes)
  {
    if k < n - 1 {
      EachAdmissible(ms, k, n - 1, maxBytes);
    }
  }

  predicate WellFormed(ms: seq<Member>, maxBytes: nat) {
    ms != [] && ms[0].node.Regular? && AllAdmissible(ms, |ms|, maxBytes)
  }

  function PathTexts(t: Tree): set<Text> { set p | p in t :: Join(p) }

  function RowPaths(rows: seq<Row>): set<Text> { set r | r in rows :: r.path }

  /** The same paths, and the same size at each. */
  predicate MatchesRows(t: Tree, rows: seq<Row>) {
    && PathTexts(t) == RowPaths(rows)
    && forall p, r :: p in t && r in rows && r.path == Join(p) ==> r.size == |t[p]|
  }

  ghost predicate HasDigest(t: Tree, digest: Text, c: Codec) {
    exists order :: IsOrder(order, t) && c.sha256(Preimage(FilesIn(order, t))) == digest
  }

  ghost predicate Describes(m: Manifest, t: Tree, c: Codec) {
    MatchesRows(t, m.files) && HasDigest(t, m.setSha256, c)
  }

  /** The archive is accepted, as this manifest and these files. */
  ghost predicate Accepts(ms: seq<Member>, maxBytes: nat, c: Codec, mirror: Mirror) {
    && maxBytes >= 1 && WellFormed(ms, maxBytes)
    && c.decode(ms[0].node.content) == Some(ToJson(mirror.manifest)) && Sound(mirror.manifest, maxBytes)
    && mirror.tree == Extracted(ms, |ms|) && ArtifactBytes(ms, |ms|) == mirror.manifest.total
    && Describes(mirror.manifest, mirror.tree, c)
  }

  // ---------------------------------------------------------------- the receiver

  lemma {:induction false} WrittenIsExtracted(ms: seq<Member>, j: nat, n: nat)
    requires j < n <= |ms| && IsArtifact(ms[j])
    ensures TargetOf(ms[j].name).path in Extracted(ms, n)
  {
    if j < n - 1 {
      WrittenIsExtracted(ms, j, n - 1);
    }
  }

  lemma DuplicateIsRefused(ms: seq<Member>, j: nat, k: nat, maxBytes: nat)
    requires j < k < |ms| && ms[j].name == ms[k].name && ms[j].node.Regular?
    ensures !Admissible(ms, k, maxBytes)
  {
    if IsArtifact(ms[j]) {
      WrittenIsExtracted(ms, j, k);
    }
  }

  /** The checks on one member before anything is written. */
  function Check(member: Member, seen: set<Text>, count: nat, bytes: nat, maxBytes: nat): Option<Refusal> {
    if count > MAX_ARTIFACT_FILES + 1 then Some(TooManyFiles)
    else if TargetOf(member.name).Refused? then Some(UnsafePath)
    else if member.name in seen then Some(Duplicate)
    else if !member.node.Regular? then Some(NotAFile)
    else if TargetOf(member.name).ManifestFile? then
      if count != 1 then Some(MisplacedManifest)
      else if |member.node.content| > MAX_ARTIFACT_MANIFEST_BYTES then Some(TooManyBytes)
      else None
    else if bytes + |member.node.content| > maxBytes then Some(TooManyBytes)
    else None
  }

  /** `Check` refuses no admissible member, and leaves only the creation of the file to be decided. */
  lemma CheckDecides(ms: seq<Member>, k: nat, seen: set<Text>, maxBytes: nat)
    requires k < |ms| && seen == (set j | 0 <= j < k :: ms[j].name)
    requires forall j :: 0 <= j < k ==> ms[j].node.Regular?
    ensures
      var refused, target := Check(ms[k], seen, k + 1, ArtifactBytes(ms, k), maxBytes), TargetOf(ms[k].name);
      && (refused.Some? ==> !Admissible(ms, k, maxBytes))
      && (refused.None? ==>
        && ms[k].node.Regular? && !target.Refused? && (target.ManifestFile? ==> k == 0)
        && (Admissible(ms, k, maxBytes) <==>
              (target.ManifestFile? || (k > 0 && Creatable(Extracted(ms, k), target.path)))))
  {
    if ms[k].name in seen {
      var j :| 0 <= j < k && ms[j].name == ms[k].name;
      DuplicateIsRefused(ms, j, k, maxBytes);
    }
  }

  /** The receiver's variables after `n` members. */
  ghost predicate Unpacked(
    ms: seq<Member>, n: nat, maxBytes: nat, seen: set<Text>, manifest: Option<seq<Byte>>, tree: Tree, bytes: nat)
    requires n <= |ms|
  {
    && seen == (set j | 0 <= j < n :: ms[j].name)
    && (forall j :: 0 <= j < n ==> ms[j].node.Regular?)
    && tree == Extracted(ms, n) && bytes == ArtifactBytes(ms, n)
    && match manifest
       case Some(m) => n > 0 && m == ms[0].node.content && AllAdmissible(ms, n, maxBytes)
       case None => n > 0 ==> !Admissible(ms, 0, maxBytes)
  }

  lemma SeenOneMore(ms: seq<Member>, n: nat)
    requires n < |ms|
    ensures (set j | 0 <= j < n + 1 :: ms[j].name) == (set j | 0 <= j < n :: ms[j].name) + {ms[n].name}
  {
  }

  lemma InadmissibleIsMalformed(ms: seq<Member>, k: nat, maxBytes: nat)
    requires k < |ms| && !Admissible(ms, k, maxBytes)
    ensures !WellFormed(ms, maxBytes)
  {
    if AllAdmissible(ms, |ms|, maxBytes) {
      EachAdmissible(ms, k, |ms|, maxBytes);
    }
  }

  /** What a member that passes `Check` does to the receiver's variables. */
  lemma UnpackedNext(
    ms: seq<Member>, n: nat, maxBytes: nat, seen: set<Text>, manifest: Option<seq<Byte>>, tree: Tree, bytes: nat)
    requires n < |ms| && Unpacked(ms, n, maxBytes, seen, manifest, tree, bytes)
    requires Check(ms[n], seen, n + 1, bytes, maxBytes).None?
    ensures ms[n].node.Regular? && !TargetOf(ms[n].name).Refused?
    ensures
      var target, content, named := TargetOf(ms[n].name), ms[n].node.content, seen + {ms[n].name};
      if target.ManifestFile? then Unpacked(ms, n + 1, maxBytes, named, Some(content), tree, bytes)
      else if !Creatable(tree, target.path) then !WellFormed(ms, maxBytes)
      else Unpacked(ms, n + 1, maxBytes, named, manifest, tree[target.path := content], bytes + |content|)
  {
    CheckDecides(ms, n, seen, maxBytes);
    SeenOneMore(ms, n);
    if !Admissible(ms, n, maxBytes) { InadmissibleIsMalformed(ms, n, maxBytes); }
  }

  lemma CheckedOutIsMalformed(
    ms: seq<Member>, n: nat, maxBytes: nat, seen: set<Text>, manifest: Option<seq<Byte>>, tree: Tree, bytes: nat)
    requires n < |ms| && Unpacked(ms, n, maxBytes, seen, manifest, tree, bytes)
    requires Check(ms[n], seen, n + 1, bytes, maxBytes).Some?
    ensures !WellFormed(ms, maxBytes)
  {
    CheckDecides(ms, n, seen, maxBytes);
    InadmissibleIsMalformed(ms, n, maxBytes);
  }

  /** Unpack the members one by one. */
  method Unpack(ms: seq<Member>, maxBytes: nat)
    returns (manifest: Option<seq<Byte>>, tree: Tree, bytes: nat, refused: Option<Refusal>)
    ensures refused.None? && manifest.Some? <==> WellFormed(ms, maxBytes)
    ensures WellFormed(ms, maxBytes) ==>
      manifest.value == ms[0].node.content && tree == Extracted(ms, |ms|) && bytes == ArtifactBytes(ms, |ms|)
  {
    var seen: set<Text> := {};
    manifest, tree, bytes, refused := None, map[], 0, None;
    var i := 0;
    while i < |ms|
      invariant i <= |ms| && Unpacked(ms, i, maxBytes, seen, manifest, tree, bytes) && refused.None?
    {
      refused := Check(ms[i], seen, i + 1, bytes, maxBytes);
      if refused.Some? {
        CheckedOutIsMalformed(ms, i, maxBytes, seen, manifest, tree, bytes);
        return;
      }
      UnpackedNext(ms, i, maxBytes, seen, manifest, tree, bytes);
      seen := seen + {ms[i].name};
      var target := TargetOf(ms[i].name);
      if target.ManifestFile? {
        manifest := Some(ms[i].node.content);
      } else {
        bytes := bytes + |ms[i].node.content|;
        if !Creatable(tree, target.path) { return manifest, tree, bytes, Some(Unwritable); }
        tree := tree[target.path := ms[i].node.content];
      }
      i := i + 1;
    }
    if manifest.None? && ms != [] { InadmissibleIsMalformed(ms, 0, maxBytes); }
  }

  method Listing(t: Tree) returns (order: seq<Path>)
    ensures IsOrder(order, t)
  {
    order := [];
    var todo := t.Keys;
    while todo != {}
      invariant todo <= t.Keys && Distinct(order) && forall p :: p in order <==> p in t && p !in todo
      decreases todo
    {
      var p :| p in todo;
      todo := todo - {p};
      order := order + [p];
    }
  }

  method ReceiveArtifactExport(ms: seq<Member>, workspace: Tree, maxBytes: nat, c: Codec)
    returns (r: Result<Mirror, Refusal>)
    ensures r.Ok? ==> workspace == map[] && Accepts(ms, maxBytes, c, r.value)
    ensures forall mirror :: workspace == map[] && Accepts(ms, maxBytes, c, mirror) ==> r == Ok(mirror)
  {
    if maxBytes < 1 { return Err(BadLimit); }
    if workspace != map[] { return Err(Unwritable); }
    var manifest, tree, bytes, refused := Unpack(ms, maxBytes);
    if refused.Some? { return Err(refused.value); }
    if manifest.None? { return Err(BadManifest); }
    var json := c.decode(manifest.value);
    if json.None? { return Err(BadManifest); }
    var valid := ValidateArtifactManifest(json.value, maxBytes);
    if valid.None? { return Err(BadManifest); }
    var m := valid.value;
    forall n | ToJson(n) == ToJson(m) ensures n == m { ToJsonIsInjective(n, m); }
    if PathTexts(tree) != RowPaths(m.files) { return Err(FileSetDiffers); }
    if !MatchesRows(tree, m.files) { return Err(SizeDiffers); }
    if bytes != m.total { return Err(TotalDiffers); }
    var order := Listing(tree);
    var stream := ArtifactSetStream(FilesIn(order, tree));
    ExtractedIsLegal(ms, maxBytes, |ms|);
    OneDigest(tree, order);
    if c.sha256(stream) != m.setSha256 { return Err(ContentDiffers); }
    return Ok(Mirror(m, tree));
  }

  /** An accepted archive unpacks to a tree a file system can hold. */
  lemma {:induction false} ExtractedIsLegal(ms: seq<Member>, maxBytes: nat, n: nat)
    requires n <= |ms| && AllAdmissible(ms, n, maxBytes)
    ensures LegalTree(Extracted(ms, n))
  {
    if n > 0 {
      ExtractedIsLegal(ms, maxBytes, n - 1);
      assert Admissible(ms, n - 1, maxBytes);
      if n > 1 {
        var p := TargetOf(ms[n - 1].name).path;
        SafeIsLegalBelow(ms[n - 1].name, p);
      }
    }
  }

  lemma SafeIsLegalBelow(name: Text, p: Path)
    requires TargetOf(name) == Artifact(p) && forall part :: part in p ==> NUL !in part
    ensures IsPath(p)
  {
    var whole := SafeRelative(name).value;
    SafeParts(name, whole);
    assert p == whole[1..];
  }

  /** Every order of a tree's files gives the same stream. */
  lemma OneStream(t: Tree, a: seq<Path>, b: seq<Path>)
    requires LegalTree(t) && IsOrder(a, t) && IsOrder(b, t)
    ensures Sorted(FilesIn(a, t)) == Sorted(FilesIn(b, t))
    ensures Preimage(FilesIn(a, t)) == Preimage(FilesIn(b, t))
  {
    FilesAreDistinct(t, a);
    FilesAreDistinct(t, b);
    forall f ensures f in FilesIn(a, t) <==> f in FilesIn(b, t) {
      FilesOfTree(t, a, f);
      FilesOfTree(t, b, f);
    }
    SortedIsCanonical(FilesIn(a, t), FilesIn(b, t));
  }

  lemma FilesAreDistinct(t: Tree, order: seq<Path>)
    requires LegalTree(t) && IsOrder(order, t)
    ensures DistinctPaths(FilesIn(order, t))
  {
    forall i, j | 0 <= i < j < |order| ensures Join(order[i]) != Join(order[j]) {
      if Join(order[i]) == Join(order[j]) { JoinIsInjective(order[i], order[j]); }
    }
  }

  lemma FilesOfTree(t: Tree, order: seq<Path>, f: File)
    requires IsOrder(order, t)
    ensures f in FilesIn(order, t) <==> exists p :: p in t && f == File(Join(p), t[p])
  {
    if f in FilesIn(order, t) {
      var i :| 0 <= i < |order| && f == FilesIn(order, t)[i];
      assert order[i] in t;
    }
    forall p | p in t && f == File(Join(p), t[p]) ensures f in FilesIn(order, t) {
      var i :| 0 <= i < |order| && order[i] == p;
      assert FilesIn(order, t)[i] == f;
    }
  }

  lemma OneDigest(t: Tree, order: seq<Path>)
    requires LegalTree(t) && IsOrder(order, t)
    ensures forall c: Codec, digest :: HasDigest(t, digest, c) <==> c.sha256(Preimage(FilesIn(order, t))) == digest
  {
    forall c: Codec, digest | HasDigest(t, digest, c) ensures c.sha256(Preimage(FilesIn(order, t))) == digest {
      var other :| IsOrder(other, t) && c.sha256(Preimage(FilesIn(other, t))) == digest;
      OneStream(t, other, order);
    }
  }
}
