// What the schema of archives (packages/protocol/src/archive.ts) and the check of their blobs
// (apps/daemon/src/archive/tkr-integrity.ts) ask for, in terms of characters and fields.

module ArchiveTerms {
  import opened Wrappers
  import opened Ordering
  import opened Base64
  import opened ArchiveIntegrity

  // ------------------------------------------------------------ paths

  /** A stretch between two slashes, or an end of the path and a slash, without one inside. */
  ghost predicate IsSegment(path: string, i: int, j: int) {
    && 0 <= i <= j <= |path|
    && (i == 0 || path[i - 1] == '/') && (j == |path| || path[j] == '/')
    && forall k | i <= k < j :: path[k] != '/'
  }

  /** A relative path without detours: letters, digits, dots, underscores, hyphens and slashes, at
      most 512 of them, and no segment that is empty, "." or "..". */
  ghost predicate Normalized(path: string) {
    && 1 <= |path| <= 512
    && (forall k | 0 <= k < |path| ::
          'A' <= path[k] <= 'Z' || 'a' <= path[k] <= 'z' || '0' <= path[k] <= '9' || path[k] in {'.', '_', '/', '-'})
    && forall i, j | IsSegment(path, i, j) :: path[i..j] !in {"", ".", ".."}
  }

  /** `s` is the last segment of a path. */
  ghost predicate EndsWithSegment(path: string, s: string) {
    |s| <= |path| && IsSegment(path, |path| - |s|, |path|) && path[|path| - |s|..] == s
  }

  lemma {:induction false} LastSegment(path: string)
    ensures EndsWithSegment(path, Segments(path)[|Segments(path)| - 1])
    decreases |path|
  {
    if path != "" {
      var front, c := path[..|path| - 1], path[|path| - 1];
      LastSegment(front);
      var s := Segments(front)[|Segments(front)| - 1];
      if c != '/' {
        assert Segments(path)[|Segments(path)| - 1] == s + [c];
        assert path[|path| - |s| - 1..] == s + [c];
        assert forall k | 0 <= k < |front| :: path[k] == front[k];
      }
    }
  }

  /** What a further character does to the segments before the last one. */
  lemma {:induction false} SegmentsNext(front: string, c: char)
    ensures var before, all := Segments(front), Segments(front + [c]);
            all[..|all| - 1] == if c == '/' then before else before[..|before| - 1]
  {
    assert (front + [c])[..|front|] == front;
  }

  lemma SegmentStays(front: string, c: char, i: int, j: int)
    requires 0 <= i <= j <= |front| && (j < |front| || c == '/')
    ensures IsSegment(front, i, j) <==> IsSegment(front + [c], i, j)
    ensures (front + [c])[i..j] == front[i..j]
  {
    assert forall k | 0 <= k < |front| :: (front + [c])[k] == front[k];
  }

  lemma {:induction false} SegmentBefore(path: string, s: string) returns (i: int, j: int)
    requires s in Segments(path)[..|Segments(path)| - 1]
    ensures IsSegment(path, i, j) && path[i..j] == s && j < |path|
    decreases |path|
  {
    hide Segments, IsSegment;
    EmptyHasOneSegment();
    var front, c := path[..|path| - 1], path[|path| - 1];
    assert path == front + [c];
    SegmentsNext(front, c);
    var before := Segments(front);
    if c == '/' && s == before[|before| - 1] {
      LastSegment(front);
      i, j := |front| - |s|, |front|;
      assert front[i..j] == s;
    } else {
      i, j := SegmentBefore(front, s);
      SegmentIsInside(front, i, j);
    }
    SegmentStays(front, c, i, j);
  }

  lemma EmptyHasOneSegment()
    ensures Segments("") == [""]
  {
  }

  lemma {:induction false} SegmentsAreThere(path: string, s: string)
    requires s in Segments(path)
    ensures exists i, j :: IsSegment(path, i, j) && path[i..j] == s
  {
    hide Segments;
    LastSegment(path);
    var all := Segments(path);
    if s == all[|all| - 1] {
      assert IsSegment(path, |path| - |s|, |path|) && path[|path| - |s|..|path|] == s;
    } else {
      var i, j := SegmentBefore(path, s);
      assert IsSegment(path, i, j) && path[i..j] == s;
    }
  }

  lemma {:induction false} SegmentIsListed(path: string, i: int, j: int)
    requires IsSegment(path, i, j)
    ensures path[i..j] in Segments(path)
  {
    hide Segments;
    var all := Segments(path);
    if j == |path| {
      LastSegment(path);
      var last := all[|all| - 1];
      SameLast(path, i, |path| - |last|);
      assert path[i..j] == path[|path| - |last|..] && last in all;
    } else {
      SegmentNotLast(path, i, j);
    }
  }

  lemma SameLast(path: string, i: int, k: int)
    requires IsSegment(path, i, |path|) && IsSegment(path, k, |path|)
    ensures i == k
  {
  }

  /** A segment that ends before the path's end stands before the last one. */
  lemma {:induction false} SegmentNotLast(path: string, i: int, j: int)
    requires IsSegment(path, i, j) && j < |path|
    ensures path[i..j] in Segments(path)[..|Segments(path)| - 1]
    decreases |path|
  {
    hide Segments;
    var front, c := path[..|path| - 1], path[|path| - 1];
    assert path == front + [c];
    SegmentsNext(front, c);
    SegmentStays(front, c, i, j);
    if j == |front| {
      LastSegment(front);
      SameLast(front, i, |front| - |Segments(front)[|Segments(front)| - 1]|);
    } else {
      SegmentNotLast(front, i, j);
    }
  }

  lemma PathsInTerms(path: string)
    ensures ValidPath(path) <==> Normalized(path)
  {
    hide Segments, IsSegment;
    forall i, j | IsSegment(path, i, j) ensures 0 <= i <= j <= |path| && path[i..j] in Segments(path) {
      SegmentIsInside(path, i, j);
      SegmentIsListed(path, i, j);
    }
    forall s | s in Segments(path) ensures exists i, j :: IsSegment(path, i, j) && 0 <= i <= j <= |path| && path[i..j] == s {
      SegmentsAreThere(path, s);
      var i, j :| IsSegment(path, i, j) && path[i..j] == s;
    }
    assert forall k | 0 <= k < |path| :: path[k] in path;
  }

  lemma SegmentIsInside(path: string, i: int, j: int)
    requires IsSegment(path, i, j)
    ensures 0 <= i <= j <= |path|
  {
  }

  // ------------------------------------------------------------ schema and blobs

  /** The bytes declared for some entries. */
  function Declared(entries: seq<Descriptor>): nat {
    if entries == [] then 0 else Declared(entries[..|entries| - 1]) + entries[|entries| - 1].byteLength
  }

  lemma {:induction false} TotalIsDeclared(entries: seq<Descriptor>)
    ensures Sum(entries, LengthOf) == Declared(entries)
  {
    if entries != [] {
      TotalIsDeclared(entries[..|entries| - 1]);
    }
  }

  /** Entries under different normalized paths, the payloads of the same paths in the same order,
      blobs under different paths that are among them, and the totals as declared. */
  lemma SchemaInTerms(a: Archive)
    ensures MeetsSchema(a)
       <==> var m := a.manifest;
            && (forall d | d in m.entries :: Normalized(d.path))
            && (forall i, j | 0 <= i < j < |m.entries| :: m.entries[i].path != m.entries[j].path)
            && |a.entries| == |m.entries| && (forall i | 0 <= i < |a.entries| :: a.entries[i].path == m.entries[i].path)
            && (forall i, j | 0 <= i < j < |m.blobs| :: m.blobs[i].entryPath != m.blobs[j].entryPath)
            && (forall b | b in m.blobs :: exists d | d in m.entries :: d.path == b.entryPath)
            && |m.blobs| == m.blobCount && Declared(m.entries) == m.totalBytes
  {
    hide Find, ValidPath, Normalized, Declared, Sum;
    var m := a.manifest;
    TotalIsDeclared(m.entries);
    forall d | d in m.entries ensures ValidPath(d.path) <==> Normalized(d.path) {
      PathsInTerms(d.path);
    }
    forall b | b in m.blobs ensures Find(m.entries, b.entryPath) < |m.entries| <==> exists d | d in m.entries :: d.path == b.entryPath {
      FoundInTerms(m.entries, b.entryPath);
    }
  }

  lemma {:induction false} FoundInTerms(entries: seq<Descriptor>, path: string)
    ensures Find(entries, path) < |entries| <==> exists d | d in entries :: d.path == path
    ensures Find(entries, path) < |entries| ==> entries[Find(entries, path)] in entries
  {
    hide Find;
    if Find(entries, path) < |entries| {
      assert entries[Find(entries, path)] in entries;
    }
  }

  /** A blob fits the entry under its path: same hash, length and media type, and named after the
      hash. */
  lemma BlobsInTerms(a: Archive, b: BlobEntry)
    requires MeetsSchema(a) && b in a.manifest.blobs
    ensures BlobMatches(a.manifest, b)
       <==> && b.reference.id == "blob-" + b.reference.sha256
            && exists d | d in a.manifest.entries ::
                 && d.path == b.entryPath && d.sha256 == b.reference.sha256
                 && d.byteLength == b.reference.byteLength && d.mediaType == b.reference.mediaType
  {
    hide Find, ValidPath;
    var entries := a.manifest.entries;
    FoundInTerms(entries, b.entryPath);
    forall d | d in entries && d.path == b.entryPath ensures d == entries[Find(entries, b.entryPath)] {
      var k :| 0 <= k < |entries| && entries[k] == d;
    }
  }
}
