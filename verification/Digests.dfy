/** The byte stream that `_artifact_set_sha256` hashes. */
module Digests {
  import opened Wrappers
  import opened Texts

  datatype File = File(path: Text, content: seq<Byte>)

  const WIDE: nat := 0x1_0000_0000_0000_0000

  /** The low `k` bytes of `n`, big-endian. */
  function BigEndian(n: nat, k: nat): (bytes: seq<Byte>)
    ensures |bytes| == k
  {
    if k == 0 then [] else BigEndian(n / 256, k - 1) + [n % 256]
  }

  function Value(bytes: seq<Byte>): nat {
    if bytes == [] then 0 else 256 * Value(bytes[..|bytes| - 1]) + bytes[|bytes| - 1]
  }

  /** `n.to_bytes(8, "big")` for the lengths it takes. */
  function Length8(n: nat): (bytes: seq<Byte>)
    ensures |bytes| == 8
  {
    BigEndian(n, 8)
  }

  function Frame(f: File): seq<Byte> { Length8(|f.path|) + f.path + (Length8(|f.content|) + f.content) }

  function Frames(files: seq<File>): seq<Byte> {
    if files == [] then [] else Frame(files[0]) + Frames(files[1..])
  }

  function Insert(f: File, sorted: seq<File>): seq<File> {
    if sorted == [] || Below(f.path, sorted[0].path) then [f] + sorted else [sorted[0]] + Insert(f, sorted[1..])
  }

  /** `sorted(files, key=path)`. */
  function Sorted(files: seq<File>): seq<File> {
    if files == [] then [] else Insert(files[|files| - 1], Sorted(files[..|files| - 1]))
  }

  function Preimage(files: seq<File>): seq<Byte> { Frames(Sorted(files)) }

  lemma Regroup(a: seq<Byte>, b: seq<Byte>, c: seq<Byte>, d: seq<Byte>, e: seq<Byte>, f: seq<Byte>)
    ensures a + b + c + d + e + f == a + (b + c + (d + e) + f)
  {
  }

  method ArtifactSetStream(files: seq<File>) returns (stream: seq<Byte>)
    ensures stream == Preimage(files)
  {
    var ordered := Sorted(files);
    stream := [];
    var i := 0;
    while i < |ordered|
      invariant 0 <= i <= |ordered| && stream + Frames(ordered[i..]) == Frames(ordered)
    {
      ghost var before, f := stream, ordered[i];
      stream := stream + Length8(|ordered[i].path|);
      stream := stream + ordered[i].path;
      stream := stream + Length8(|ordered[i].content|);
      stream := stream + ordered[i].content;
      Regroup(before, Length8(|f.path|), f.path, Length8(|f.content|), f.content, Frames(ordered[i + 1..]));
      assert ordered[i..][1..] == ordered[i + 1..];
      i := i + 1;
    }
    assert ordered[i..] == [];
  }

  // ---------------------------------------------------------------- reading the stream back

  /** One length-prefixed string and what follows it. */
  function Take(s: seq<Byte>): Option<(seq<Byte>, seq<Byte>)> {
    if |s| < 8 then None
    else
      var n := Value(s[..8]);
      if |s| < 8 + n then None else Some((s[8..8 + n], s[8 + n..]))
  }

  function Unframe(s: seq<Byte>): Option<seq<File>>
    decreases |s|
  {
    if s == [] then Some([])
    else
      match Take(s)
      case None => None
      case Some((path, s1)) =>
        match Take(s1)
        case None => None
        case Some((content, s2)) =>
          if Unframe(s2).None? then None else Some([File(path, content)] + Unframe(s2).value)
  }

  function Power(k: nat): nat { if k == 0 then 1 else 256 * Power(k - 1) }

  lemma {:induction false} ValueOfBigEndian(n: nat, k: nat)
    requires n < Power(k)
    ensures Value(BigEndian(n, k)) == n
  {
    if k > 0 {
      ValueOfBigEndian(n / 256, k - 1);
      var bytes := BigEndian(n, k);
      assert bytes[..|bytes| - 1] == BigEndian(n / 256, k - 1);
    }
  }

  lemma EightBytesAreWide()
    ensures Power(8) == WIDE
  {
    assert Power(2) == 0x1_0000 && Power(4) == 0x1_0000_0000;
  }

  lemma TakePrefixed(t: seq<Byte>, rest: seq<Byte>)
    requires |t| < WIDE
    ensures Take(Length8(|t|) + t + rest) == Some((t, rest))
  {
    EightBytesAreWide();
    ValueOfBigEndian(|t|, 8);
    var s := Length8(|t|) + t + rest;
    assert s[..8] == Length8(|t|) && s[8..8 + |t|] == t && s[8 + |t|..] == rest;
  }

  /** Lengths that eight bytes can hold; for others `to_bytes` raises. */
  predicate Fits(files: seq<File>) {
    forall f :: f in files ==> |f.path| < WIDE && |f.content| < WIDE
  }

  lemma FrameSplits(f: File, rest: seq<Byte>)
    ensures Frame(f) + rest == Length8(|f.path|) + f.path + (Length8(|f.content|) + f.content + rest)
  {
  }

  lemma TakeTwice(s: seq<Byte>, path: seq<Byte>, s1: seq<Byte>, content: seq<Byte>, s2: seq<Byte>)
    requires s != [] && Take(s) == Some((path, s1)) && Take(s1) == Some((content, s2)) && Unframe(s2).Some?
    ensures Unframe(s) == Some([File(path, content)] + Unframe(s2).value)
  {
  }

  lemma UnframeOne(f: File, rest: seq<Byte>)
    requires |f.path| < WIDE && |f.content| < WIDE && Unframe(rest).Some?
    ensures Unframe(Frame(f) + rest) == Some([f] + Unframe(rest).value)
  {
    FrameSplits(f, rest);
    var tail := Length8(|f.content|) + f.content + rest;
    TakePrefixed(f.path, tail);
    TakePrefixed(f.content, rest);
    TakeTwice(Frame(f) + rest, f.path, tail, f.content, rest);
  }

  lemma UnframeFirst(f: File, rest: seq<File>)
    requires |f.path| < WIDE && |f.content| < WIDE && Unframe(Frames(rest)) == Some(rest)
    ensures Unframe(Frames([f] + rest)) == Some([f] + rest)
  {
    UnframeOne(f, Frames(rest));
    assert ([f] + rest)[1..] == rest;
  }

  /** The stream is uniquely decodable. */
  lemma {:induction false} FramesDecode(files: seq<File>)
    requires Fits(files)
    ensures Unframe(Frames(files)) == Some(files)
  {
    if files != [] {
      var f, rest := files[0], files[1..];
      FramesDecode(rest);
      assert files == [f] + rest;
      UnframeFirst(f, rest);
    }
  }

  // ---------------------------------------------------------------- order does not matter

  predicate Ascending(files: seq<File>) {
    forall i, j :: 0 <= i < j < |files| ==> Below(files[i].path, files[j].path)
  }

  predicate DistinctPaths(files: seq<File>) {
    forall i, j :: 0 <= i < j < |files| ==> files[i].path != files[j].path
  }

  lemma {:induction false} InsertAdds(f: File, sorted: seq<File>)
    ensures multiset(Insert(f, sorted)) == multiset(sorted) + multiset{f}
    ensures forall g :: g in Insert(f, sorted) <==> g in sorted || g == f
  {
    if sorted != [] {
      assert sorted == [sorted[0]] + sorted[1..];
      if !Below(f.path, sorted[0].path) {
        InsertAdds(f, sorted[1..]);
      }
    }
  }

  predicate Beneath(path: Text, files: seq<File>) { forall g :: g in files ==> Below(path, g.path) }

  lemma Prepend(f: File, sorted: seq<File>)
    requires Ascending(sorted) && Beneath(f.path, sorted)
    ensures Ascending([f] + sorted)
  {
  }

  lemma {:induction false} InsertKeepsOrder(f: File, sorted: seq<File>)
    requires Ascending(sorted) && forall g :: g in sorted ==> g.path != f.path
    ensures Ascending(Insert(f, sorted))
  {
    if sorted == [] {
    } else if Below(f.path, sorted[0].path) {
      forall g | g in sorted ensures Below(f.path, g.path) {
        if g != sorted[0] { BelowIsTransitive(f.path, sorted[0].path, g.path); }
      }
      Prepend(f, sorted);
    } else {
      BelowIsTotal(f.path, sorted[0].path);
      InsertKeepsOrder(f, sorted[1..]);
      InsertAdds(f, sorted[1..]);
      Prepend(sorted[0], Insert(f, sorted[1..]));
    }
  }

  /** `Sorted` is an ascending permutation. */
  lemma {:induction false} SortedIsAscending(files: seq<File>)
    requires DistinctPaths(files)
    ensures Ascending(Sorted(files)) && multiset(Sorted(files)) == multiset(files)
    ensures forall f :: f in Sorted(files) <==> f in files
  {
    if files != [] {
      var init, f := files[..|files| - 1], files[|files| - 1];
      SortedIsAscending(init);
      assert files == init + [f];
      InsertAdds(f, Sorted(init));
      InsertKeepsOrder(f, Sorted(init));
    }
  }

  lemma LeastComesFirst(a: seq<File>, b: seq<File>)
    requires Ascending(a) && Ascending(b) && a != [] && b != []
    requires forall f :: f in a <==> f in b
    ensures a[0] == b[0]
  {
    assert a[0] in b && b[0] in a;
    var i :| 0 <= i < |b| && b[i] == a[0];
    var j :| 0 <= j < |a| && a[j] == b[0];
    BelowIsTotal(a[0].path, b[0].path);
  }

  lemma AscendingIsDistinct(a: seq<File>)
    requires Ascending(a)
    ensures DistinctPaths(a)
  {
    forall i, j | 0 <= i < j < |a| ensures a[i].path != a[j].path { BelowIsTotal(a[i].path, a[j].path); }
  }

  lemma MembersOfTail(a: seq<File>)
    requires DistinctPaths(a) && a != []
    ensures forall f :: f in a[1..] <==> f in a && f != a[0]
  {
    assert a == [a[0]] + a[1..];
  }

  lemma EmptyTogether(a: seq<File>, b: seq<File>)
    requires forall f :: f in a <==> f in b
    ensures a == [] <==> b == []
  {
    if a != [] { assert a[0] in b; }
    if b != [] { assert b[0] in a; }
  }

  /** An ascending list is determined by its members. */
  lemma {:induction false} AscendingIsCanonical(a: seq<File>, b: seq<File>)
    requires Ascending(a) && Ascending(b) && forall f :: f in a <==> f in b
    ensures a == b
  {
    EmptyTogether(a, b);
    if a != [] {
      LeastComesFirst(a, b);
      AscendingIsDistinct(a);
      AscendingIsDistinct(b);
      MembersOfTail(a);
      MembersOfTail(b);
      AscendingIsCanonical(a[1..], b[1..]);
      assert a == [a[0]] + a[1..] && b == [b[0]] + b[1..];
    }
  }

  lemma SortedIsCanonical(a: seq<File>, b: seq<File>)
    requires DistinctPaths(a) && DistinctPaths(b) && forall f :: f in a <==> f in b
    ensures Sorted(a) == Sorted(b)
  {
    SortedIsAscending(a);
    SortedIsAscending(b);
    AscendingIsCanonical(Sorted(a), Sorted(b));
  }

  /** The hashed stream identifies the file set, and nothing else. */
  lemma PreimageIdentifiesSet(a: seq<File>, b: seq<File>)
    requires DistinctPaths(a) && DistinctPaths(b) && Fits(a) && Fits(b)
    ensures Preimage(a) == Preimage(b) <==> (forall f :: f in a <==> f in b)
  {
    SortedIsAscending(a);
    SortedIsAscending(b);
    if Preimage(a) == Preimage(b) {
      FramesDecode(Sorted(a));
      FramesDecode(Sorted(b));
    } else if forall f :: f in a <==> f in b {
      SortedIsCanonical(a, b);
    }
  }
}
