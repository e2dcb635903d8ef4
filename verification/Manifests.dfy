/** The artifact manifest and its validation, on parsed JSON values. */
module Manifests {
  import opened Wrappers
  import opened Texts
  import opened Paths

  const MAX_ARTIFACT_FILES: nat := 10_000

  /** Object keys: the fields of a manifest, those of a file row, or any other. */
  datatype Key =
    | Schema | Authority | TerminalAt | RunId | TaskId | TaskSha256 | CandidateSha256 | TerminalState
    | RunDir | TotalBytes | Files | ArtifactSetSha256 | FilePath | FileSize | Other(name: Text)

  datatype Json =
    | Null | Bool(b: bool) | Int(n: int) | Float(r: real) | Str(t: Text) | List(items: seq<Json>)
    | Object(fields: map<Key, Json>)

  datatype Row = Row(path: Text, size: int)

  datatype Manifest = Manifest(
    schema: Text, authority: Text, terminalAt: Option<Text>, runId: Text, taskId: Text, taskSha256: Text,
    candidateSha256: Text, terminalState: Text, runDir: Text, total: int, files: seq<Row>, setSha256: Text)

  const ARTIFACT_MANIFEST_SCHEMA: Text := Ascii("kernelinfra.artifact-manifest.v1")
  const NODE_RUN: Text := Ascii("node-run")

  predicate Terminal(state: Text) {
    || state == Ascii("completed") || state == Ascii("rejected") || state == Ascii("infra_error")
    || state == Ascii("cancelled") || state == Ascii("interrupted")
  }

  predicate IdByte(b: Byte) { 97 <= b <= 122 || 48 <= b <= 57 || b == 46 || b == 95 || b == 45 }

  /** `[a-z0-9][a-z0-9._-]*`, at most `longest` bytes. */
  predicate IsId(t: Text, longest: nat) {
    1 <= |t| <= longest && (97 <= t[0] <= 122 || 48 <= t[0] <= 57) && forall b :: b in t ==> IdByte(b)
  }

  predicate IsSha256(t: Text) { |t| == 64 && forall b :: b in t ==> 48 <= b <= 57 || 97 <= b <= 102 }

  // ---------------------------------------------------------------- the manifests meant

  function RowJson(r: Row): Json { Object(map[FilePath := Str(r.path), FileSize := Int(r.size)]) }

  function RowsJson(rows: seq<Row>): seq<Json> {
    seq(|rows|, i requires 0 <= i < |rows| => RowJson(rows[i]))
  }

  const FIELDS: set<Key> := {
    Schema, Authority, TerminalAt, RunId, TaskId, TaskSha256, CandidateSha256, TerminalState, RunDir, TotalBytes,
    Files, ArtifactSetSha256}

  function FieldOf(m: Manifest, k: Key): Json {
    match k
    case Schema => Str(m.schema)
    case Authority => Str(m.authority)
    case TerminalAt => if m.terminalAt.Some? then Str(m.terminalAt.value) else Null
    case RunId => Str(m.runId)
    case TaskId => Str(m.taskId)
    case TaskSha256 => Str(m.taskSha256)
    case CandidateSha256 => Str(m.candidateSha256)
    case TerminalState => Str(m.terminalState)
    case RunDir => Str(m.runDir)
    case TotalBytes => Int(m.total)
    case Files => List(RowsJson(m.files))
    case ArtifactSetSha256 => Str(m.setSha256)
    case _ => Null
  }

  function ToJson(m: Manifest): Json { Object(map k | k in FIELDS :: FieldOf(m, k)) }

  predicate SoundHeader(m: Manifest) {
    && m.schema == ARTIFACT_MANIFEST_SCHEMA && m.authority == NODE_RUN && IsSha256(m.setSha256)
    && IsId(m.runId, 128) && IsId(m.taskId, 96) && IsSha256(m.taskSha256) && IsSha256(m.candidateSha256)
    && Terminal(m.terminalState) && m.terminalAt.Some? && m.terminalAt.value != [] && Absolute(m.runDir)
  }

  predicate SoundRow(r: Row) {
    r.size >= 0 && SafeRelative(r.path).Some? && Join(SafeRelative(r.path).value) == r.path
  }

  function RowBytes(rows: seq<Row>): int {
    if rows == [] then 0 else RowBytes(rows[..|rows| - 1]) + rows[|rows| - 1].size
  }

  predicate SoundRows(rows: seq<Row>) {
    && (forall r :: r in rows ==> SoundRow(r))
    && forall i :: 0 < i < |rows| ==> Below(rows[i - 1].path, rows[i].path)
  }

  predicate Sound(m: Manifest, maxBytes: nat) {
    && SoundHeader(m) && 0 <= m.total <= maxBytes
    && |m.files| <= MAX_ARTIFACT_FILES && SoundRows(m.files) && RowBytes(m.files) == m.total
  }

  // ---------------------------------------------------------------- validation

  predicate IsDigest(v: Json) { v.Str? && IsSha256(v.t) }

  /** The checks before the file rows. */
  predicate HeaderAccepted(f: map<Key, Json>, maxBytes: nat)
    requires f.Keys == FIELDS
  {
    && f[Schema] == Str(ARTIFACT_MANIFEST_SCHEMA) && f[Authority] == Str(NODE_RUN)
    && IsDigest(f[ArtifactSetSha256])
    && f[RunId].Str? && IsId(f[RunId].t, 128) && f[TaskId].Str? && IsId(f[TaskId].t, 96)
    && IsDigest(f[TaskSha256]) && IsDigest(f[CandidateSha256])
    && f[TerminalState].Str? && Terminal(f[TerminalState].t)
    && f[TerminalAt].Str? && f[TerminalAt].t != []
    && f[RunDir].Str? && Absolute(f[RunDir].t)
    && f[TotalBytes].Int? && 0 <= f[TotalBytes].n <= maxBytes
    && f[Files].List? && |f[Files].items| <= MAX_ARTIFACT_FILES
  }

  function ReadHeader(f: map<Key, Json>, maxBytes: nat, rows: seq<Row>): Manifest
    requires f.Keys == FIELDS && HeaderAccepted(f, maxBytes)
  {
    Manifest(f[Schema].t, f[Authority].t, Some(f[TerminalAt].t), f[RunId].t, f[TaskId].t, f[TaskSha256].t,
             f[CandidateSha256].t, f[TerminalState].t, f[RunDir].t, f[TotalBytes].n, rows, f[ArtifactSetSha256].t)
  }

  lemma ReadBackHeader(f: map<Key, Json>, maxBytes: nat, rows: seq<Row>)
    requires f.Keys == FIELDS && HeaderAccepted(f, maxBytes) && f[Files].items == RowsJson(rows)
    ensures ToJson(ReadHeader(f, maxBytes, rows)) == Object(f) && SoundHeader(ReadHeader(f, maxBytes, rows))
  {
    var m := ReadHeader(f, maxBytes, rows);
    forall k | k in f ensures FieldOf(m, k) == f[k] {
    }
    assert ToJson(m).fields == f;
  }

  lemma SoundIsAccepted(m: Manifest, maxBytes: nat)
    requires SoundHeader(m) && 0 <= m.total <= maxBytes && |m.files| <= MAX_ARTIFACT_FILES
    ensures ToJson(m).fields.Keys == FIELDS && HeaderAccepted(ToJson(m).fields, maxBytes)
    ensures ToJson(m).fields[Files] == List(RowsJson(m.files)) && ToJson(m).fields[TotalBytes] == Int(m.total)
  {
  }

  lemma RowsAreInjective(a: seq<Row>, b: seq<Row>)
    requires RowsJson(a) == RowsJson(b)
    ensures a == b
  {
    assert |RowsJson(a)| == |a| && |RowsJson(b)| == |b|;
    forall i | 0 <= i < |a| ensures a[i] == b[i] {
      var u, v := RowsJson(a)[i], RowsJson(b)[i];
      assert u.fields[FilePath] == v.fields[FilePath] && u.fields[FileSize] == v.fields[FileSize];
    }
  }

  lemma ToJsonIsInjective(a: Manifest, b: Manifest)
    requires ToJson(a) == ToJson(b)
    ensures a == b
  {
    forall k | k in FIELDS ensures FieldOf(a, k) == FieldOf(b, k) {
      assert ToJson(a).fields[k] == ToJson(b).fields[k];
    }
    assert FieldOf(a, TerminalAt) == FieldOf(b, TerminalAt);
    RowsAreInjective(a.files, b.files);
  }

  function ReadRow(v: Json): Option<Row> {
    if v.Object? && v.fields.Keys == {FilePath, FileSize} && v.fields[FilePath].Str? && v.fields[FileSize].Int?
    then Some(Row(v.fields[FilePath].t, v.fields[FileSize].n)) else None
  }

  lemma ReadRowIsInverse(v: Json, r: Row)
    ensures ReadRow(v) == Some(r) <==> v == RowJson(r)
  {
    if ReadRow(v) == Some(r) {
      assert v.fields == RowJson(r).fields;
    }
  }

  /** The loop over the file rows: every row read, normalized, and strictly ascending by path. */
  method ValidateRows(items: seq<Json>) returns (rows: Option<seq<Row>>, calculated: int)
    ensures forall rs :: items == RowsJson(rs) && SoundRows(rs) ==> rows == Some(rs)
    ensures rows.Some? ==> items == RowsJson(rows.value) && SoundRows(rows.value) && calculated == RowBytes(rows.value)
  {
    var read: seq<Row> := [];
    calculated := 0;
    for i := 0 to |items|
      invariant |read| == i && SoundRows(read) && calculated == RowBytes(read)
      invariant forall k :: 0 <= k < i ==> items[k] == RowJson(read[k])
    {
      var row := ReadRow(items[i]);
      if row.Some? { ReadRowIsInverse(items[i], row.value); }
      if row.None? || !SoundRow(row.value) || (i > 0 && !Below(read[i - 1].path, row.value.path)) {
        RowsRefused(items, i, read);
        return None, calculated;
      }
      calculated := calculated + row.value.size;
      read := read + [row.value];
      assert read[..i] == read[..|read| - 1];
    }
    assert items == RowsJson(read);
    forall rs | items == RowsJson(rs) ensures rs == read { RowsAreInjective(rs, read); }
    rows := Some(read);
  }

  lemma RowsRefused(items: seq<Json>, i: nat, read: seq<Row>)
    requires i < |items| && |read| == i && forall k :: 0 <= k < i ==> items[k] == RowJson(read[k])
    requires var row := ReadRow(items[i]);
      row.None? || !SoundRow(row.value) || (i > 0 && !Below(read[i - 1].path, row.value.path))
    ensures forall rs :: items == RowsJson(rs) ==> !SoundRows(rs)
  {
    forall rs | items == RowsJson(rs) ensures !SoundRows(rs) {
      assert |RowsJson(rs)| == |rs| && RowsJson(rs)[i] == RowJson(rs[i]);
      ReadRowIsInverse(items[i], rs[i]);
      if i > 0 {
        assert RowsJson(rs)[i - 1] == RowJson(rs[i - 1]);
        ReadRowIsInverse(items[i - 1], rs[i - 1]);
        ReadRowIsInverse(items[i - 1], read[i - 1]);
      }
      assert rs[i] in rs;
    }
  }

  /** `_validate_artifact_manifest` accepts exactly the JSON of the sound manifests. */
  method ValidateArtifactManifest(v: Json, maxBytes: nat) returns (r: Option<Manifest>)
    ensures r.Some? ==> v == ToJson(r.value) && Sound(r.value, maxBytes)
    ensures forall m :: v == ToJson(m) && Sound(m, maxBytes) ==> r == Some(m)
  {
    if !v.Object? || v.fields.Keys != FIELDS || !HeaderAccepted(v.fields, maxBytes) {
      forall m | v == ToJson(m) ensures !Sound(m, maxBytes) {
        if Sound(m, maxBytes) { SoundIsAccepted(m, maxBytes); }
      }
      return None;
    }
    var rows, calculated := ValidateRows(v.fields[Files].items);
    if rows.None? || calculated != v.fields[TotalBytes].n {
      forall m | v == ToJson(m) ensures !Sound(m, maxBytes) {
        if Sound(m, maxBytes) { SoundIsAccepted(m, maxBytes); }
      }
      return None;
    }
    var m := ReadHeader(v.fields, maxBytes, rows.value);
    ReadBackHeader(v.fields, maxBytes, rows.value);
    forall n | v == ToJson(n) ensures n == m { ToJsonIsInjective(n, m); }
    return Some(m);
  }
}
