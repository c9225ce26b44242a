// Building an archive from entries and checking one
// (apps/daemon/src/archive/tkr-integrity.ts, packages/protocol/src/archive.ts).

module ArchiveIntegrity {
  import opened Wrappers
  import opened Ordering
  import opened Base64

  datatype Descriptor = Descriptor(path: string, mediaType: string, byteLength: nat, sha256: string)

  datatype Payload = Payload(path: string, data: string)

  datatype BlobReference = BlobReference(id: string, sha256: string, byteLength: nat, mediaType: string)

  datatype BlobEntry = BlobEntry(entryPath: string, reference: BlobReference)

  /** `other` stands for the manifest's remaining fields. */
  datatype Manifest = Manifest(entries: seq<Descriptor>, blobs: seq<BlobEntry>, blobCount: nat, totalBytes: nat, other: string)

  datatype Archive = Archive(manifest: Manifest, manifestSha256: string, entries: seq<Payload>)

  datatype ContentEntry = ContentEntry(path: string, mediaType: string, bytes: seq<Byte>)

  /** SHA-256 of bytes and of the manifest's canonical JSON, and the platform's base64 decoder. */
  datatype Platform = Platform(hash: seq<Byte> -> string, digest: Manifest -> string, decode: string -> seq<Byte>)

  datatype ArchiveError = IntegrityError | SizeError

  // ------------------------------------------------------------ the schema's refinements

  function Segments(path: string): (r: seq<string>)
    ensures r != []
    decreases |path|
  {
    if path == "" then [""]
    else
      var front := Segments(path[..|path| - 1]);
      var c := path[|path| - 1];
      if c == '/' then front + [""] else front[..|front| - 1] + [front[|front| - 1] + [c]]
  }

  predicate PathCharacter(c: char) {
    'A' <= c <= 'Z' || 'a' <= c <= 'z' || '0' <= c <= '9' || c == '.' || c == '_' || c == '/' || c == '-'
  }

  /** A normalized relative path. */
  predicate ValidPath(path: string) {
    && 1 <= |path| <= 512 && (forall c | c in path :: PathCharacter(c))
    && forall s | s in Segments(path) :: s != "" && s != "." && s != ".."
  }

  predicate DistinctPaths(entries: seq<Descriptor>) {
    forall i, j | 0 <= i < j < |entries| :: entries[i].path != entries[j].path
  }

  function LengthOf(d: Descriptor): nat {
    d.byteLength
  }

  predicate MeetsSchema(a: Archive) {
    var m := a.manifest;
    && (forall d | d in m.entries :: ValidPath(d.path))
    && DistinctPaths(m.entries)
    && (forall i, j | 0 <= i < j < |m.blobs| :: m.blobs[i].entryPath != m.blobs[j].entryPath)
    && (forall b | b in m.blobs :: Find(m.entries, b.entryPath) < |m.entries|)
    && Sum(m.entries, LengthOf) == m.totalBytes
    && m.blobCount == |m.blobs|
    && |a.entries| == |m.entries| && forall i | 0 <= i < |a.entries| :: a.entries[i].path == m.entries[i].path
  }

  function Find(entries: seq<Descriptor>, path: string): (i: nat)
    ensures i <= |entries|
    ensures i < |entries| ==> entries[i].path == path
    ensures forall k | 0 <= k < i :: entries[k].path != path
  {
    if entries == [] || entries[0].path == path then 0 else 1 + Find(entries[1..], path)
  }

  // ------------------------------------------------------------ the check

  datatype Progress = Progress(entries: map<string, seq<Byte>>, decodedBytes: nat)

  /** One entry: declared, canonical, not too much in total, of the declared size and hash. */
  function VerifyEntry(pl: Platform, m: Manifest, p: Progress, e: Payload, maximumBytes: nat): Result<Progress, ArchiveError> {
    var i := Find(m.entries, e.path);
    if i == |m.entries| then Err(IntegrityError)
    else
      match CanonicalBase64(pl.decode, e.data)
      case Refused => Err(IntegrityError)
      case Accepted(bytes) =>
        if p.decodedBytes + |bytes| > maximumBytes then Err(SizeError)
        else if |bytes| != m.entries[i].byteLength || pl.hash(bytes) != m.entries[i].sha256 then Err(IntegrityError)
        else Ok(Progress(p.entries[e.path := bytes], p.decodedBytes + |bytes|))
  }

  function VerifyEntries(pl: Platform, a: Archive, k: nat, maximumBytes: nat): Result<Progress, ArchiveError>
    requires k <= |a.entries|
  {
    if k == 0 then Ok(Progress(map[], 0))
    else
      match VerifyEntries(pl, a, k - 1, maximumBytes)
      case Err(e) => Err(e)
      case Ok(p) => VerifyEntry(pl, a.manifest, p, a.entries[k - 1], maximumBytes)
  }

  predicate BlobMatches(m: Manifest, b: BlobEntry) {
    var i := Find(m.entries, b.entryPath);
    && i < |m.entries|
    && m.entries[i].sha256 == b.reference.sha256 && m.entries[i].byteLength == b.reference.byteLength
    && m.entries[i].mediaType == b.reference.mediaType && b.reference.id == "blob-" + b.reference.sha256
  }

  function Verify(pl: Platform, a: Archive, inputBytes: nat, maximumBytes: nat): Result<map<string, seq<Byte>>, ArchiveError> {
    if inputBytes > maximumBytes then Err(SizeError)
    else if !MeetsSchema(a) || pl.digest(a.manifest) != a.manifestSha256 then Err(IntegrityError)
    else
      match VerifyEntries(pl, a, |a.entries|, maximumBytes)
      case Err(e) => Err(e)
      case Ok(p) =>
        if p.decodedBytes != a.manifest.totalBytes then Err(IntegrityError)
        else if exists b | b in a.manifest.blobs :: !BlobMatches(a.manifest, b) then Err(IntegrityError)
        else Ok(p.entries)
  }

  method VerifyTekrionArchive(pl: Platform, a: Archive, inputBytes: nat, maximumBytes: nat) returns (r: Result<map<string, seq<Byte>>, ArchiveError>)
    ensures r == Verify(pl, a, inputBytes, maximumBytes)
  {
    hide MeetsSchema, BlobMatches, VerifyEntry;
    if inputBytes > maximumBytes {
      return Err(SizeError);
    }
    if !MeetsSchema(a) || pl.digest(a.manifest) != a.manifestSha256 {
      return Err(IntegrityError);
    }
    var p := Progress(map[], 0);
    for k := 0 to |a.entries|
      invariant VerifyEntries(pl, a, k, maximumBytes) == Ok(p)
    {
      var next := VerifyEntry(pl, a.manifest, p, a.entries[k], maximumBytes);
      if next.Err? {
        EntriesStop(pl, a, k + 1, maximumBytes);
        return Err(next.error);
      }
      p := next.value;
    }
    if p.decodedBytes != a.manifest.totalBytes {
      return Err(IntegrityError);
    }
    for k := 0 to |a.manifest.blobs|
      invariant forall j | 0 <= j < k :: BlobMatches(a.manifest, a.manifest.blobs[j])
    {
      if !BlobMatches(a.manifest, a.manifest.blobs[k]) {
        assert a.manifest.blobs[k] in a.manifest.blobs;
        return Err(IntegrityError);
      }
    }
    return Ok(p.entries);
  }

  lemma {:induction false} EntriesStop(pl: Platform, a: Archive, k: nat, maximumBytes: nat)
    requires k <= |a.entries| && VerifyEntries(pl, a, k, maximumBytes).Err?
    ensures VerifyEntries(pl, a, |a.entries|, maximumBytes) == VerifyEntries(pl, a, k, maximumBytes)
    decreases |a.entries| - k
  {
    hide VerifyEntry;
    if k < |a.entries| {
      EntriesStop(pl, a, k + 1, maximumBytes);
    }
  }

  // ------------------------------------------------------------ what an accepted archive is

  /** The entry is canonical base64 of bytes with the declared size and hash. */
  ghost predicate Genuine(pl: Platform, a: Archive, i: nat)
    requires i < |a.entries| && i < |a.manifest.entries|
  {
    var data, d := a.entries[i].data, a.manifest.entries[i];
    Canonical(data) && |Decode(data)| == d.byteLength && pl.hash(Decode(data)) == d.sha256
  }

  ghost predicate Genuines(pl: Platform, a: Archive, k: nat)
    requires k <= |a.entries| <= |a.manifest.entries|
  {
    forall i | 0 <= i < k :: Genuine(pl, a, i)
  }

  /** The decoded bytes of the first `k` entries under their paths. */
  ghost predicate Contents(a: Archive, k: nat, entries: map<string, seq<Byte>>)
    requires k <= |a.entries|
  {
    && (forall path :: path in entries <==> exists i | 0 <= i < k :: a.entries[i].path == path)
    && forall i | 0 <= i < k :: Canonical(a.entries[i].data) && a.entries[i].path in entries && entries[a.entries[i].path] == Decode(a.entries[i].data)
  }

  lemma {:induction false} FindsItself(entries: seq<Descriptor>, i: nat)
    requires DistinctPaths(entries) && i < |entries|
    ensures Find(entries, entries[i].path) == i
  {
  }

  lemma SumOfPrefix(entries: seq<Descriptor>, k: nat)
    requires k < |entries|
    ensures Sum(entries[..k + 1], LengthOf) == Sum(entries[..k], LengthOf) + entries[k].byteLength
  {
    assert entries[..k + 1][..k] == entries[..k];
  }

  lemma EntryMeaning(pl: Platform, a: Archive, k: nat, p: Progress, maximumBytes: nat)
    requires Undoes(pl.decode) && MeetsSchema(a) && k < |a.entries|
    ensures k < |a.manifest.entries|
    ensures var r := VerifyEntry(pl, a.manifest, p, a.entries[k], maximumBytes);
            && (r.Ok? <==> Genuine(pl, a, k) && p.decodedBytes + a.manifest.entries[k].byteLength <= maximumBytes)
            && (r.Ok? ==> r.value == Progress(p.entries[a.entries[k].path := Decode(a.entries[k].data)],
                                              p.decodedBytes + a.manifest.entries[k].byteLength))
  {
    hide Canonical, Decode, Encode, ValidPath, CanonicalBase64;
    FindsItself(a.manifest.entries, k);
    AcceptsExactlyCanonical(pl.decode, a.entries[k].data);
  }

  lemma SchemaLengths(a: Archive)
    requires MeetsSchema(a)
    ensures |a.entries| == |a.manifest.entries|
  {
  }

  lemma SchemaTotal(a: Archive)
    requires MeetsSchema(a)
    ensures Sum(a.manifest.entries, LengthOf) == a.manifest.totalBytes
  {
  }

  lemma GenuinesNext(pl: Platform, a: Archive, k: nat)
    requires k < |a.entries| <= |a.manifest.entries|
    ensures Genuines(pl, a, k + 1) <==> Genuines(pl, a, k) && Genuine(pl, a, k)
  {
  }

  lemma NoEntries(pl: Platform, a: Archive)
    requires |a.entries| <= |a.manifest.entries|
    ensures Genuines(pl, a, 0) && Contents(a, 0, map[]) && Sum(a.manifest.entries[..0], LengthOf) == 0
  {
  }

  lemma {:induction false} EntriesMeaning(pl: Platform, a: Archive, k: nat, maximumBytes: nat)
    requires Undoes(pl.decode) && MeetsSchema(a) && k <= |a.entries| <= |a.manifest.entries|
    ensures var r, total := VerifyEntries(pl, a, k, maximumBytes), Sum(a.manifest.entries[..k], LengthOf);
            && (r.Ok? <==> Genuines(pl, a, k) && total <= maximumBytes)
            && (r.Ok? ==> r.value.decodedBytes == total && Contents(a, k, r.value.entries))
  {
    hide VerifyEntry, Genuine, Genuines, Contents, Undoes, MeetsSchema, Sum;
    NoEntries(pl, a);
    if k > 0 {
      EntriesMeaning(pl, a, k - 1, maximumBytes);
      SumOfPrefix(a.manifest.entries, k - 1);
      GenuinesNext(pl, a, k - 1);
      var before := VerifyEntries(pl, a, k - 1, maximumBytes);
      if before.Ok? {
        EntryMeaning(pl, a, k - 1, before.value, maximumBytes);
        if Genuine(pl, a, k - 1) {
          ContentsNext(pl, a, k - 1, before.value.entries);
        }
      }
    }
  }

  lemma ContentsNext(pl: Platform, a: Archive, k: nat, entries: map<string, seq<Byte>>)
    requires k < |a.entries| && MeetsSchema(a) && k < |a.manifest.entries| && Genuine(pl, a, k) && Contents(a, k, entries)
    ensures Canonical(a.entries[k].data) && Contents(a, k + 1, entries[a.entries[k].path := Decode(a.entries[k].data)])
  {
    hide Canonical, Decode, ValidPath;
  }

  /** An archive is accepted exactly when it is within the size limit, meets the schema, has the
      digest of its manifest, and every entry and blob is what the manifest declares; and then
      the result is exactly the decoded entries under their paths. */
  lemma VerifyMeaning(pl: Platform, a: Archive, inputBytes: nat, maximumBytes: nat)
    requires Undoes(pl.decode)
    ensures var r := Verify(pl, a, inputBytes, maximumBytes);
            && (r.Ok? <==>
                  && inputBytes <= maximumBytes && MeetsSchema(a) && pl.digest(a.manifest) == a.manifestSha256
                  && a.manifest.totalBytes <= maximumBytes
                  && |a.entries| == |a.manifest.entries| && Genuines(pl, a, |a.entries|)
                  && forall b | b in a.manifest.blobs :: BlobMatches(a.manifest, b))
            && (r.Ok? ==> Contents(a, |a.entries|, r.value))
  {
    hide VerifyEntries, Genuine, BlobMatches, Undoes;
    if MeetsSchema(a) {
      SchemaLengths(a);
      SchemaTotal(a);
      hide MeetsSchema;
      EntriesMeaning(pl, a, |a.entries|, maximumBytes);
      assert a.manifest.entries[..|a.entries|] == a.manifest.entries;
    }
  }

  // ------------------------------------------------------------ building

  predicate ByPath(a: ContentEntry, b: ContentEntry) {
    StringLe(a.path, b.path)
  }

  function DescriptorOf(pl: Platform, e: ContentEntry): Descriptor {
    Descriptor(e.path, e.mediaType, |e.bytes|, pl.hash(e.bytes))
  }

  function SizeOf(e: ContentEntry): nat {
    |e.bytes|
  }

  /** The entries in order of path, described and encoded. */
  function Build(pl: Platform, entries: seq<ContentEntry>, blobs: seq<BlobEntry>, other: string): Archive {
    var ordered := Sort(entries, ByPath);
    var descriptors := seq(|ordered|, i requires 0 <= i < |ordered| => DescriptorOf(pl, ordered[i]));
    var payloads := seq(|ordered|, i requires 0 <= i < |ordered| => Payload(ordered[i].path, Encode(ordered[i].bytes)));
    var manifest := Manifest(descriptors, blobs, |blobs|, Sum(ordered, SizeOf), other);
    Archive(manifest, pl.digest(manifest), payloads)
  }

  /** Each blob is one of the entries, under its own hash. */
  ghost predicate BlobsListed(pl: Platform, entries: seq<ContentEntry>, blobs: seq<BlobEntry>) {
    && (forall i, j | 0 <= i < j < |blobs| :: blobs[i].entryPath != blobs[j].entryPath)
    && forall b | b in blobs :: exists e | e in entries ::
         && e.path == b.entryPath && b.reference.sha256 == pl.hash(e.bytes) && b.reference.byteLength == |e.bytes|
         && b.reference.mediaType == e.mediaType && b.reference.id == "blob-" + b.reference.sha256
  }

  ghost predicate DistinctEntryPaths(entries: seq<ContentEntry>) {
    NoDuplicates(entries) && forall a, b | a in entries && b in entries && a.path == b.path :: a == b
  }

  lemma {:induction false} OrderedEntries(entries: seq<ContentEntry>)
    requires DistinctEntryPaths(entries)
    ensures var ordered := Sort(entries, ByPath);
            && DistinctEntryPaths(ordered) && (forall e :: e in ordered <==> e in entries) && Sum(ordered, SizeOf) == Sum(entries, SizeOf)
  {
    hide StringLe, Sum;
    forall a: ContentEntry, b: ContentEntry ensures ByPath(a, b) || ByPath(b, a) {
      StringLeTotal(a.path, b.path);
    }
    forall a: ContentEntry, b: ContentEntry, c: ContentEntry | ByPath(a, b) && ByPath(b, c) ensures ByPath(a, c) {
      StringLeTransitive(a.path, b.path, c.path);
    }
    SortSorts(entries, ByPath);
    var ordered := Sort(entries, ByPath);
    DistinctCounts(entries);
    CountedOnceIsDistinct(ordered);
    SumPermutation(ordered, entries, SizeOf);
    forall e ensures e in ordered <==> e in entries {
      assert e in multiset(ordered) <==> e in multiset(entries);
    }
  }

  lemma {:induction false} DescribedLengths(pl: Platform, ordered: seq<ContentEntry>)
    ensures Sum(seq(|ordered|, i requires 0 <= i < |ordered| => DescriptorOf(pl, ordered[i])), LengthOf) == Sum(ordered, SizeOf)
    decreases |ordered|
  {
    var d := seq(|ordered|, i requires 0 <= i < |ordered| => DescriptorOf(pl, ordered[i]));
    if ordered != [] {
      var front := ordered[..|ordered| - 1];
      assert d[..|d| - 1] == seq(|front|, i requires 0 <= i < |front| => DescriptorOf(pl, front[i]));
      DescribedLengths(pl, front);
    }
  }

  lemma BuiltIsGenuine(pl: Platform, entries: seq<ContentEntry>, blobs: seq<BlobEntry>, other: string)
    ensures var a := Build(pl, entries, blobs, other); |a.entries| == |a.manifest.entries| && Genuines(pl, a, |a.entries|)
  {
    hide Sort, Sum, Canonical, Encode, Decode;
    var a, ordered := Build(pl, entries, blobs, other), Sort(entries, ByPath);
    forall i | 0 <= i < |a.entries| ensures Genuine(pl, a, i) {
      EncodingIsCanonical(ordered[i].bytes);
    }
  }

  lemma BuiltBlobsMatch(pl: Platform, entries: seq<ContentEntry>, blobs: seq<BlobEntry>, other: string, b: BlobEntry)
    requires DistinctEntryPaths(entries) && BlobsListed(pl, entries, blobs) && b in blobs
    ensures BlobMatches(Build(pl, entries, blobs, other).manifest, b)
  {
    hide Sort, Sum, Encode;
    OrderedEntries(entries);
    var ordered, m := Sort(entries, ByPath), Build(pl, entries, blobs, other).manifest;
    var e :| && e in entries && e.path == b.entryPath && b.reference.sha256 == pl.hash(e.bytes) && b.reference.byteLength == |e.bytes|
             && b.reference.mediaType == e.mediaType && b.reference.id == "blob-" + b.reference.sha256;
    assert e in ordered;
    var i :| 0 <= i < |ordered| && ordered[i] == e;
    DescribedPaths(pl, ordered);
    assert m.entries[i] == DescriptorOf(pl, e);
    FindsItself(m.entries, i);
  }

  lemma DescribedPaths(pl: Platform, ordered: seq<ContentEntry>)
    requires DistinctEntryPaths(ordered)
    ensures DistinctPaths(seq(|ordered|, i requires 0 <= i < |ordered| => DescriptorOf(pl, ordered[i])))
  {
    forall i, j | 0 <= i < j < |ordered| ensures ordered[i].path != ordered[j].path {
      assert ordered[i] in ordered && ordered[j] in ordered && ordered[i] != ordered[j];
    }
  }

  lemma BuiltMeetsSchema(pl: Platform, entries: seq<ContentEntry>, blobs: seq<BlobEntry>, other: string)
    requires DistinctEntryPaths(entries) && BlobsListed(pl, entries, blobs) && forall e | e in entries :: ValidPath(e.path)
    ensures MeetsSchema(Build(pl, entries, blobs, other))
  {
    hide Sort, Sum, Encode, ValidPath, BlobMatches, DistinctPaths;
    OrderedEntries(entries);
    var ordered, a := Sort(entries, ByPath), Build(pl, entries, blobs, other);
    DescribedPaths(pl, ordered);
    DescribedLengths(pl, ordered);
    forall d | d in a.manifest.entries ensures ValidPath(d.path) {
      var i :| 0 <= i < |a.manifest.entries| && a.manifest.entries[i] == d;
      assert ordered[i] in ordered && d.path == ordered[i].path;
    }
    forall b | b in blobs ensures Find(a.manifest.entries, b.entryPath) < |a.manifest.entries| {
      BuiltBlobsMatch(pl, entries, blobs, other, b);
      MatchIsFound(a.manifest, b);
    }
  }

  lemma MatchIsFound(m: Manifest, b: BlobEntry)
    requires BlobMatches(m, b)
    ensures Find(m.entries, b.entryPath) < |m.entries|
  {
  }

  /** Round trip: for distinct valid paths within the size limits, checking a built archive
      succeeds and gives back exactly the entries. */
  lemma {:induction false} BuiltVerifies(pl: Platform, entries: seq<ContentEntry>, blobs: seq<BlobEntry>, other: string, inputBytes: nat, maximumBytes: nat)
    requires Undoes(pl.decode) && DistinctEntryPaths(entries) && (forall e | e in entries :: ValidPath(e.path))
    requires BlobsListed(pl, entries, blobs) && Sum(entries, SizeOf) <= maximumBytes && inputBytes <= maximumBytes
    ensures var r := Verify(pl, Build(pl, entries, blobs, other), inputBytes, maximumBytes);
            && r.Ok?
            && (forall path :: path in r.value <==> exists e :: e in entries && e.path == path)
            && (forall e | e in entries :: e.path in r.value && r.value[e.path] == e.bytes)
  {
    hide Sort, Sum, Encode, Decode, Canonical, ValidPath, BlobMatches, MeetsSchema, Genuines, Verify, Undoes;
    var a, ordered := Build(pl, entries, blobs, other), Sort(entries, ByPath);
    OrderedEntries(entries);
    BuiltMeetsSchema(pl, entries, blobs, other);
    BuiltIsGenuine(pl, entries, blobs, other);
    forall b | b in blobs ensures BlobMatches(a.manifest, b) {
      BuiltBlobsMatch(pl, entries, blobs, other, b);
    }
    VerifyMeaning(pl, a, inputBytes, maximumBytes);
    var r := Verify(pl, a, inputBytes, maximumBytes).value;
    forall i | 0 <= i < |ordered| ensures ordered[i].path in r && r[ordered[i].path] == ordered[i].bytes {
      EncodingIsCanonical(ordered[i].bytes);
      assert a.entries[i] == Payload(ordered[i].path, Encode(ordered[i].bytes));
    }
    forall path | path in r ensures exists e :: e in entries && e.path == path {
      var i :| 0 <= i < |a.entries| && a.entries[i].path == path;
      assert ordered[i] in ordered;
    }
    forall e | e in entries ensures e.path in r && r[e.path] == e.bytes {
      assert e in ordered;
    }
  }
}
