/** Artifact export and its validating receiver: archives are sequences of members, the JSON codec and
    SHA-256 are given functions. */
module Artifacts {
  import opened Wrappers
  import opened Texts
  import opened Paths
  import opened Digests
  import opened Manifests

  const MAX_ARTIFACT_MANIFEST_BYTES: nat := 16 * 1024 * 1024

  const MANIFEST_NAME: Text := Ascii("artifact-manifest.json")
  const ARTIFACTS_DIR: Text := Ascii("artifacts")

  datatype Node = Regular(content: seq<Byte>) | Folder | Link | Special

  datatype Member = Member(name: Text, node: Node)

  /** The files below a directory. */
  type Tree = map<Path, seq<Byte>>

  /** What `os.walk` finds below the run directory; its resolved path is absolute. */
  datatype RunDirectory = Missing | Symlink | Present(path: Text, entries: map<Path, Node>)

  datatype RunState = RunState(
    state: Text, terminalAt: Option<Text>, runId: Text, taskId: Text, taskSha256: Text, candidateSha256: Text)

  datatype Codec = Codec(
    encode: Json -> seq<Byte>, decode: seq<Byte> -> Option<Json>, sha256: seq<Byte> -> Text)

  /** Manifests survive encoding, and digests are written as 64 hexadecimal digits. */
  ghost predicate Lawful(c: Codec) {
    && (forall m :: c.decode(c.encode(ToJson(m))) == Some(ToJson(m)))
    && forall s :: IsSha256(c.sha256(s))
  }

  datatype Refusal =
    | BadLimit | NotTerminal | NoRunDirectory | NotAFile | TooManyBytes | TooManyFiles | UnsafePath
    | Duplicate | MisplacedManifest | Unwritable | BadManifest | FileSetDiffers | SizeDiffers | TotalDiffers
    | ContentDiffers

  // ---------------------------------------------------------------- file trees

  /** No file lies where another one needs a directory. */
  predicate Clash(p: Path, q: Path) { p <= q || q <= p }

  ghost predicate LegalTree(t: Tree) {
    (forall p :: p in t ==> IsPath(p)) && forall p, q :: p in t && q in t && p != q ==> !Clash(p, q)
  }

  /** Part of a tree. */
  predicate Within(s: Tree, t: Tree) { forall p :: p in s ==> p in t && t[p] == s[p] }

  /** The files of a tree, each once, in any order. */
  ghost predicate IsOrder(order: seq<Path>, t: Tree) { Distinct(order) && forall p :: p in order <==> p in t }

  predicate Among(order: seq<Path>, t: Tree) { forall p :: p in order ==> p in t }

  function FilesIn(order: seq<Path>, t: Tree): seq<File>
    requires Among(order, t)
  {
    seq(|order|, i requires 0 <= i < |order| => File(Join(order[i]), t[order[i]]))
  }

  ghost function TreeBytes(t: Tree): nat {
    if t == map[] then 0 else var p :| p in t; |t[p]| + TreeBytes(t - {p})
  }

  function OrderBytes(order: seq<Path>, t: Tree): nat
    requires Among(order, t)
  {
    if order == [] then 0
    else
      var init, p := order[..|order| - 1], order[|order| - 1];
      assert p in order;
      OrderBytes(init, t) + |t[p]|
  }

  lemma {:induction false} TreeBytesAt(t: Tree, p: Path)
    requires p in t
    ensures TreeBytes(t) == |t[p]| + TreeBytes(t - {p}) && |t - {p}| == |t| - 1
  {
    assert (t - {p}).Keys == t.Keys - {p};
    var q :| q in t && TreeBytes(t) == |t[q]| + TreeBytes(t - {q});
    if q != p {
      TreeBytesAt(t - {q}, p);
      TreeBytesAt(t - {p}, q);
      assert t - {q} - {p} == t - {p} - {q};
    }
  }

  lemma {:induction false} OrderBytesFrame(order: seq<Path>, t: Tree, p: Path)
    requires Among(order, t) && p !in order
    ensures Among(order, t - {p}) && OrderBytes(order, t - {p}) == OrderBytes(order, t)
  {
    if order != [] {
      OrderBytesFrame(order[..|order| - 1], t, p);
    }
  }

  /** Part of the files weigh no more than all of them. */
  lemma {:induction false} PartWeighsLess(order: seq<Path>, t: Tree)
    requires Distinct(order) && Among(order, t)
    ensures OrderBytes(order, t) <= TreeBytes(t) && |order| <= |t|
  {
    if order != [] {
      var init, p := order[..|order| - 1], order[|order| - 1];
      OrderBytesFrame(init, t, p);
      PartWeighsLess(init, t - {p});
      TreeBytesAt(t, p);
    }
  }

  lemma DropLast(order: seq<Path>, t: Tree)
    requires IsOrder(order, t) && order != []
    ensures var p := order[|order| - 1]; p in t && p !in order[..|order| - 1] && IsOrder(order[..|order| - 1], t - {p})
  {
    var init, p := order[..|order| - 1], order[|order| - 1];
    assert order == init + [p];
  }

  /** All files weigh the same in any order. */
  lemma {:induction false} OrderWeighs(order: seq<Path>, t: Tree)
    requires IsOrder(order, t)
    ensures OrderBytes(order, t) == TreeBytes(t) && |order| == |t|
  {
    if order == [] {
      EmptyOrder(t);
    } else {
      var init, p := order[..|order| - 1], order[|order| - 1];
      DropLast(order, t);
      OrderWeighs(init, t - {p});
      OrderBytesFrame(init, t, p);
      TreeBytesAt(t, p);
    }
  }

  lemma EmptyOrder(t: Tree)
    requires IsOrder([], t)
    ensures t == map[]
  {
  }

  // ---------------------------------------------------------------- the writer

  function RowsOf(files: seq<File>): seq<Row> {
    seq(|files|, i requires 0 <= i < |files| => Row(files[i].path, |files[i].content|))
  }

  function ManifestFor(order: seq<Path>, t: Tree, state: RunState, runDir: Text, c: Codec): Manifest
    requires Among(order, t)
  {
    var files := FilesIn(order, t);
    Manifest(ARTIFACT_MANIFEST_SCHEMA, NODE_RUN, state.terminalAt, state.runId, state.taskId, state.taskSha256,
      state.candidateSha256, state.state, runDir, OrderBytes(order, t), RowsOf(Sorted(files)),
      c.sha256(Preimage(files)))
  }

  function FilesOf(entries: map<Path, Node>): Tree {
    map p | p in entries && entries[p].Regular? :: entries[p].content
  }

  /** A directory tree as a file system can hold it. */
  ghost predicate LegalDirectory(dir: RunDirectory) {
    dir.Present? ==> Absolute(dir.path) && LegalTree(FilesOf(dir.entries))
  }

  ghost predicate AllFiles(entries: map<Path, Node>) {
    forall p :: p in entries ==> entries[p].Regular? || entries[p].Folder?
  }

  ghost predicate Exportable(state: RunState, dir: RunDirectory, maxBytes: nat) {
    && maxBytes >= 1 && Terminal(state.state) && dir.Present? && AllFiles(dir.entries)
    && TreeBytes(FilesOf(dir.entries)) <= maxBytes && |FilesOf(dir.entries)| <= MAX_ARTIFACT_FILES
  }

  /** The order of the walk and the bytes met; refused when something is no file, or over a limit. */
  method Walk(entries: map<Path, Node>, maxBytes: nat) returns (order: seq<Path>, total: nat, refused: Option<Refusal>)
    ensures refused.None? <==>
      AllFiles(entries) && TreeBytes(FilesOf(entries)) <= maxBytes && |FilesOf(entries)| <= MAX_ARTIFACT_FILES
    ensures refused.None? ==> IsOrder(order, FilesOf(entries)) && total == OrderBytes(order, FilesOf(entries))
  {
    ghost var t := FilesOf(entries);
    order, total := [], 0;
    var todo := entries.Keys;
    while todo != {}
      invariant todo <= entries.Keys && Distinct(order)
      invariant forall p :: p in order <==> p in t && p !in todo
      invariant total == OrderBytes(order, t) && total <= maxBytes && |order| <= MAX_ARTIFACT_FILES
      invariant forall p :: p in entries && p !in todo ==> entries[p].Regular? || entries[p].Folder?
      decreases todo
    {
      var p :| p in todo;
      todo := todo - {p};
      match entries[p] {
        case Folder =>
        case Regular(content) =>
          assert (order + [p])[..|order|] == order;
          PartWeighsLess(order + [p], t);
          total := total + |content|;
          if total > maxBytes { return order, total, Some(TooManyBytes); }
          order := order + [p];
          if |order| > MAX_ARTIFACT_FILES { return order, total, Some(TooManyFiles); }
        case Link => return order, total, Some(NotAFile);
        case Special => return order, total, Some(NotAFile);
      }
    }
    OrderWeighs(order, t);
    refused := None;
  }

  /** `build_artifact_manifest`: walk the run directory, then describe what was found. */
  method BuildArtifactManifest(state: RunState, dir: RunDirectory, maxBytes: nat, c: Codec)
    returns (r: Result<(Manifest, seq<Path>), Refusal>)
    ensures r.Ok? <==> Exportable(state, dir, maxBytes)
    ensures r.Ok? ==> IsOrder(r.value.1, FilesOf(dir.entries))
    ensures r.Ok? ==> r.value.0 == ManifestFor(r.value.1, FilesOf(dir.entries), state, dir.path, c)
  {
    if maxBytes < 1 { return Err(BadLimit); }
    if !Terminal(state.state) { return Err(NotTerminal); }
    if !dir.Present? { return Err(NoRunDirectory); }
    var order, total, refused := Walk(dir.entries, maxBytes);
    if refused.Some? { return Err(refused.value); }
    var files := FilesIn(order, FilesOf(dir.entries));
    var stream := ArtifactSetStream(files);
    return Ok((Manifest(ARTIFACT_MANIFEST_SCHEMA, NODE_RUN, state.terminalAt, state.runId, state.taskId,
      state.taskSha256, state.candidateSha256, state.state, dir.path, total, RowsOf(Sorted(files)),
      c.sha256(stream)), order));
  }

  function ArtifactMember(f: File): Member { Member(ARTIFACTS_DIR + [SLASH] + f.path, Regular(f.content)) }

  /** The members of an export: the manifest first, then the files in walk order. */
  function ArchiveOf(m: Manifest, files: seq<File>, c: Codec): seq<Member> {
    [Member(MANIFEST_NAME, Regular(c.encode(ToJson(m))))]
    + seq(|files|, i requires 0 <= i < |files| => ArtifactMember(files[i]))
  }

  /** `write_artifact_export`. */
  method WriteArtifactExport(state: RunState, dir: RunDirectory, maxBytes: nat, c: Codec)
    returns (r: Result<seq<Member>, Refusal>, ghost order: seq<Path>)
    ensures r.Ok? <==> Exportable(state, dir, maxBytes)
    ensures r.Ok? ==> IsOrder(order, FilesOf(dir.entries))
    ensures r.Ok? ==> r.value == ArchiveOf(
      ManifestFor(order, FilesOf(dir.entries), state, dir.path, c), FilesIn(order, FilesOf(dir.entries)), c)
  {
    order := [];
    var built := BuildArtifactManifest(state, dir, maxBytes, c);
    if built.Err? { return Err(built.error), []; }
    var (manifest, listed) := built.value;
    order := listed;
    var files := FilesIn(listed, FilesOf(dir.entries));
    var stream := [Member(MANIFEST_NAME, Regular(c.encode(ToJson(manifest))))];
    for i := 0 to |files|
      invariant stream == ArchiveOf(manifest, files[..i], c)
    {
      stream := stream + [ArtifactMember(files[i])];
      assert files[..i + 1] == files[..i] + [files[i]];
    }
    assert files[..|files|] == files;
    r := Ok(stream);
  }
}
