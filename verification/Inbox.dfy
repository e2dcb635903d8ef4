/** The bundle inbox of fleet.py: bundles are staged, verified and installed under their content address. */
module Inbox {
  import opened Wrappers
  import opened Texts
  import opened Paths
  import opened Artifacts

  const MAX_BUNDLE_BYTES: nat := 256 * 1024 * 1024

  const MANIFEST_JSON: Text := Ascii("manifest.json")
  const TASK_JSON: Text := Ascii("task.json")
  const CANDIDATE_DIR: Text := Ascii("candidate")
  const BUNDLE_SCHEMA: Text := Ascii("kernelinfra.fleet-bundle.v1")

  predicate IsRoot(name: Text) { name == MANIFEST_JSON || name == TASK_JSON || name == CANDIDATE_DIR }

  /** Where a bundle may hold something. */
  predicate InBundle(p: Path) {
    p != [] && IsRoot(p[0]) && (p[0] == MANIFEST_JSON || p[0] == TASK_JSON ==> |p| == 1)
  }

  /** `_safe_archive_path`. */
  function BundlePath(name: Text): Option<Path> {
    var relative := SafeRelative(name);
    if relative.Some? && InBundle(relative.value) then relative else None
  }

  /** A directory tree being unpacked. */
  datatype Staging = Staging(files: Tree, dirs: set<Path>, seen: set<Text>, total: nat)

  function Ancestors(p: Path): set<Path> { set i | 0 < i < |p| :: p[..i] }

  /** No file lies at the path or above it, and its names are legal. */
  predicate Reachable(x: Staging, p: Path) {
    (forall part :: part in p ==> NUL !in part) && forall q :: q in x.files ==> !(q <= p)
  }

  /** One archive member; None when it is refused. */
  function Place(x: Staging, member: Member): Option<Staging> {
    match BundlePath(member.name)
    case None => None
    case Some(p) =>
      if Join(p) in x.seen then None
      else
        match member.node
        case Folder =>
          if Reachable(x, p) then Some(x.(dirs := x.dirs + Ancestors(p) + {p}, seen := x.seen + {Join(p)})) else None
        case Regular(content) =>
          if x.total + |content| <= MAX_BUNDLE_BYTES && Reachable(x, p) && p !in x.dirs then
            Some(Staging(x.files[p := content], x.dirs + Ancestors(p), x.seen + {Join(p)}, x.total + |content|))
          else None
        case Link => None
        case Special => None
  }

  const EMPTY_STAGING: Staging := Staging(map[], {}, {}, 0)

  function Unpacked(ms: seq<Member>, n: nat): Option<Staging>
    requires n <= |ms|
  {
    if n == 0 then Some(EMPTY_STAGING)
    else
      match Unpacked(ms, n - 1)
      case None => None
      case Some(x) => Place(x, ms[n - 1])
  }

  lemma {:induction false} RefusedStaysRefused(ms: seq<Member>, k: nat, n: nat)
    requires k <= n <= |ms| && Unpacked(ms, k).None?
    ensures Unpacked(ms, n).None?
  {
    if k < n {
      RefusedStaysRefused(ms, k, n - 1);
    }
  }

  method Unpack(ms: seq<Member>) returns (r: Option<Staging>)
    ensures r == Unpacked(ms, |ms|)
  {
    var x := EMPTY_STAGING;
    for i := 0 to |ms|
      invariant Unpacked(ms, i) == Some(x)
    {
      var next := Place(x, ms[i]);
      if next.None? {
        RefusedStaysRefused(ms, i + 1, |ms|);
        return None;
      }
      x := next.value;
    }
    r := Some(x);
  }

  // ---------------------------------------------------------------- verification

  datatype Header = Header(schema: Text, bundleId: Text, taskId: Text, taskSha256: Text, candidateSha256: Text)

  datatype TaskInfo = TaskInfo(taskId: Text, digest: Text)

  /** What the bundle code calls: manifest and task parsers, the snapshot hash, the content address. */
  datatype Tools = Tools(
    readManifest: seq<Byte> -> Option<Header>, writeManifest: Header -> seq<Byte>,
    loadTask: seq<Byte> -> Option<TaskInfo>, hashSnapshot: Tree -> Text, address: (Text, Text) -> Text)

  /** The installed form of a bundle. */
  datatype Bundle = Bundle(files: Tree, dirs: set<Path>)

  function Candidate(files: Tree): Tree { map p | p in files && p != [] && p[0] == CANDIDATE_DIR :: files[p] }

  function HeaderIn(b: Bundle, t: Tools): Option<Header> {
    if [MANIFEST_JSON] in b.files then t.readManifest(b.files[[MANIFEST_JSON]]) else None
  }

  function TaskIn(b: Bundle, t: Tools): Option<TaskInfo> {
    if [TASK_JSON] in b.files then t.loadTask(b.files[[TASK_JSON]]) else None
  }

  function CandidateHash(b: Bundle, t: Tools): Text { t.hashSnapshot(Candidate(b.files)) }

  /** The manifest speaks of this task and candidate, and the name is the address of their digests. */
  predicate Verified(b: Bundle, id: Text, t: Tools) {
    var (header, task) := (HeaderIn(b, t), TaskIn(b, t));
    && header.Some? && task.Some? && [CANDIDATE_DIR] in b.dirs
    && header.value == Header(BUNDLE_SCHEMA, id, task.value.taskId, task.value.digest, CandidateHash(b, t))
    && t.address(task.value.digest, CandidateHash(b, t)) == id
  }

  /** The same manifest, task digest and candidate hash. */
  predicate Agrees(old': Bundle, new': Bundle, t: Tools) {
    && HeaderIn(old', t) == HeaderIn(new', t)
    && TaskIn(old', t).Some? && TaskIn(new', t).Some? && TaskIn(old', t).value.digest == TaskIn(new', t).value.digest
    && CandidateHash(old', t) == CandidateHash(new', t)
  }

  predicate IsBundleId(id: Text) { |id| == 32 && forall b :: b in id ==> 48 <= b <= 57 || 97 <= b <= 102 }

  datatype Receipt = Installed | Reused

  /** What the inbox makes of a staged bundle: install it, find it installed, or refuse it. */
  function Settled(entries: map<Text, Bundle>, b: Bundle, id: Text, t: Tools): Option<(Receipt, map<Text, Bundle>)> {
    if !Verified(b, id, t) then None
    else if id !in entries then Some((Installed, entries[id := b]))
    else if Agrees(entries[id], b, t) then Some((Reused, entries))
    else None
  }

  function Received(entries: map<Text, Bundle>, ms: seq<Member>, id: Text, t: Tools)
    : Option<(Receipt, map<Text, Bundle>)>
  {
    if !IsBundleId(id) then None
    else
      match Unpacked(ms, |ms|)
      case None => None
      case Some(x) => Settled(entries, Bundle(x.files, x.dirs), id, t)
  }

  /** The inbox after a receive: a refused one leaves it as it was. */
  function EntriesAfter(before: map<Text, Bundle>, outcome: Option<(Receipt, map<Text, Bundle>)>): map<Text, Bundle> {
    match outcome
    case None => before
    case Some((_, after)) => after
  }

  function ReceiptOf(outcome: Option<(Receipt, map<Text, Bundle>)>): Option<Receipt> {
    match outcome
    case None => None
    case Some((receipt, _)) => Some(receipt)
  }

  class FleetInbox {
    var entries: map<Text, Bundle>
    /** The `.incoming-` directories. */
    var staging: set<nat>

    constructor ()
      ensures entries == map[] && staging == {}
    {
      entries, staging := map[], {};
    }

    /** `receive_fleet_bundle`; `temporary` is the staging directory it is given. */
    method Receive(ms: seq<Member>, id: Text, t: Tools, temporary: nat) returns (r: Option<Receipt>)
      requires temporary !in staging
      modifies this
      ensures staging == old(staging)
      ensures r == ReceiptOf(Received(old(entries), ms, id, t))
      ensures entries == EntriesAfter(old(entries), Received(old(entries), ms, id, t))
    {
      if !IsBundleId(id) { return None; }
      staging := staging + {temporary};
      var x := Unpack(ms);
      if x.Some? {
        r := Install(Bundle(x.value.files, x.value.dirs), id, t);
      } else {
        r := None;
      }
      staging := staging - {temporary};
    }

    /** Verify the staged bundle, then install it or find it installed. */
    method Install(b: Bundle, id: Text, t: Tools) returns (r: Option<Receipt>)
      modifies this`entries
      ensures r == ReceiptOf(Settled(old(entries), b, id, t))
      ensures entries == EntriesAfter(old(entries), Settled(old(entries), b, id, t))
    {
      if !Verified(b, id, t) { return None; }
      if id in entries {
        return if Agrees(entries[id], b, t) then Some(Reused) else None;
      }
      entries := entries[id := b];
      return Some(Installed);
    }
  }

  // ---------------------------------------------------------------- the writer

  /** The manifest and name that `create_fleet_bundle` gives a payload. */
  function HeaderFor(task: TaskInfo, candidate: Tree, t: Tools): Header {
    var hash := t.hashSnapshot(candidate);
    Header(BUNDLE_SCHEMA, t.address(task.digest, hash), task.taskId, task.digest, hash)
  }

  /** The payload directory: manifest, task and candidate snapshot. */
  function Payload(taskFile: seq<Byte>, task: TaskInfo, candidate: Tree, dirs: set<Path>, t: Tools): Bundle {
    Bundle(candidate[[TASK_JSON] := taskFile][[MANIFEST_JSON] := t.writeManifest(HeaderFor(task, candidate, t))], dirs)
  }

  function MemberFor(b: Bundle, p: Path): Member {
    Member(Join(p), if p in b.files then Regular(b.files[p]) else Folder)
  }

  function ArchiveOfPayload(b: Bundle, order: seq<Path>): seq<Member> {
    seq(|order|, i requires 0 <= i < |order| => MemberFor(b, order[i]))
  }
}
