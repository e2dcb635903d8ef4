/** Relative POSIX paths as `PurePosixPath` reads and writes them. */
module Paths {
  import opened Wrappers
  import opened Texts

  const SLASH: Byte := 47
  const DOT: Byte := 46
  const NUL: Byte := 0

  type Path = seq<Text>

  predicate IsName(t: Text) { t != [] && t != [DOT] && t != [DOT, DOT] && SLASH !in t && NUL !in t }

  /** A path a file can have below a directory. */
  predicate IsPath(p: Path) { p != [] && forall t :: t in p ==> IsName(t) }

  /** `str.split("/")`. */
  function Split(t: Text): (pieces: seq<Text>)
    ensures pieces != []
  {
    if t == [] then [[]]
    else if t[0] == SLASH then [[]] + Split(t[1..])
    else var rest := Split(t[1..]); [[t[0]] + rest[0]] + rest[1..]
  }

  function Join(p: Path): Text {
    if p == [] then [] else if |p| == 1 then p[0] else p[0] + [SLASH] + Join(p[1..])
  }

  function Meaningful(pieces: seq<Text>): seq<Text> {
    if pieces == [] then []
    else (if pieces[0] == [] || pieces[0] == [DOT] then [] else [pieces[0]]) + Meaningful(pieces[1..])
  }

  /** `PurePosixPath(t).parts` of a path that is not absolute. */
  function Parts(t: Text): Path { Meaningful(Split(t)) }

  predicate Absolute(t: Text) { t != [] && t[0] == SLASH }

  /** `_safe_artifact_relative`: neither absolute nor empty nor climbing. */
  function SafeRelative(t: Text): Option<Path> {
    if Absolute(t) || Parts(t) == [] || [DOT, DOT] in Parts(t) then None else Some(Parts(t))
  }

  // ---------------------------------------------------------------- reading back what was written

  lemma {:induction false} SplitOfName(t: Text)
    requires SLASH !in t
    ensures Split(t) == [t]
  {
    if t != [] {
      SplitOfName(t[1..]);
      assert t == [t[0]] + t[1..];
    }
  }

  lemma {:induction false} SplitAtSlash(t: Text, rest: Text)
    requires SLASH !in t
    ensures Split(t + [SLASH] + rest) == [t] + Split(rest)
  {
    var whole := t + [SLASH] + rest;
    if t == [] {
      assert whole == [SLASH] + rest;
    } else {
      SplitAtSlash(t[1..], rest);
      assert whole[1..] == t[1..] + [SLASH] + rest && [t[0]] + t[1..] == t;
    }
  }

  lemma {:induction false} SplitOfJoin(p: Path)
    requires p != [] && forall t :: t in p ==> SLASH !in t
    ensures Split(Join(p)) == p
  {
    if |p| == 1 {
      SplitOfName(p[0]);
    } else {
      SplitOfJoin(p[1..]);
      SplitAtSlash(p[0], Join(p[1..]));
    }
  }

  lemma {:induction false} AllMeaningful(p: seq<Text>)
    requires [] !in p && [DOT] !in p
    ensures Meaningful(p) == p
  {
    if p != [] {
      AllMeaningful(p[1..]);
    }
  }

  /** A legal path is read back from its text. */
  lemma ReadBack(p: Path)
    requires IsPath(p)
    ensures SafeRelative(Join(p)) == Some(p)
  {
    SplitOfJoin(p);
    AllMeaningful(p);
    assert p[0] in p;
  }

  lemma JoinIsInjective(p: Path, q: Path)
    requires IsPath(p) && IsPath(q) && Join(p) == Join(q)
    ensures p == q
  {
    ReadBack(p);
    ReadBack(q);
  }

  // ---------------------------------------------------------------- what is read is a legal path

  lemma {:induction false} NoSlashInPieces(t: Text)
    ensures forall piece :: piece in Split(t) ==> SLASH !in piece
  {
    if t != [] {
      NoSlashInPieces(t[1..]);
      var rest := Split(t[1..]);
      assert rest[0] in rest && forall piece :: piece in rest[1..] ==> piece in rest;
    }
  }

  lemma {:induction false} MeaningfulPieces(pieces: seq<Text>)
    ensures forall t :: t in Meaningful(pieces) <==> (t in pieces && t != [] && t != [DOT])
  {
    if pieces != [] {
      MeaningfulPieces(pieces[1..]);
      assert pieces == [pieces[0]] + pieces[1..];
    }
  }

  /** Apart from NUL, which no file name may hold, the parts of a safe text are legal names. */
  lemma SafeParts(t: Text, p: Path)
    requires SafeRelative(t) == Some(p)
    ensures p != [] && forall part :: part in p ==> IsName(part) || NUL in part
  {
    NoSlashInPieces(t);
    MeaningfulPieces(Split(t));
  }

  /** A directory name in front of a path. */
  lemma UnderDirectory(directory: Text, p: Path)
    requires IsName(directory) && IsPath(p)
    ensures IsPath([directory] + p) && Join([directory] + p) == directory + [SLASH] + Join(p)
  {
    assert ([directory] + p)[1..] == p;
  }
}
