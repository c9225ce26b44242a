// The chunk manifest of a streamed exchange (packages/storage/src/chunk-manifest.ts): the
// builder that takes chunks as they come, and the schema's check of a manifest.

module ChunkManifest {
  import opened Wrappers

  datatype Direction = Request | Response

  /** A chunk as it was appended. `sha256` stands for the hash of its bytes. */
  datatype Chunk = Chunk(direction: Direction, byteLength: nat, sha256: string, observedAtNs: nat)

  datatype Entry = Entry(
    sequence: nat, direction: Direction, monotonicOffsetNs: int, byteOffset: nat, byteLength: nat, sha256: string)

  datatype Manifest = Manifest(
    startedMonotonicNs: nat, completed: bool, truncated: bool, droppedEntryCount: nat, droppedByteCount: nat, entries: seq<Entry>)

  // ------------------------------------------------------------ what the schema demands

  function Bytes(entries: seq<Entry>, direction: Direction): nat
    decreases |entries|
  {
    if entries == [] then 0
    else
      var e := entries[|entries| - 1];
      Bytes(entries[..|entries| - 1], direction) + if e.direction == direction then e.byteLength else 0
  }

  /** Contiguous sequence, contiguous offsets in each direction, times that do not decrease. */
  ghost predicate EntryFits(entries: seq<Entry>, i: nat)
    requires i < |entries|
  {
    && entries[i].sequence == i + 1
    && entries[i].byteOffset == Bytes(entries[..i], entries[i].direction)
    && entries[i].monotonicOffsetNs >= if i == 0 then 0 else entries[i - 1].monotonicOffsetNs
  }

  ghost predicate MeetsSchema(m: Manifest) {
    && (m.truncated <==> m.droppedEntryCount > 0)
    && (!m.truncated ==> m.droppedByteCount == 0)
    && forall i | 0 <= i < |m.entries| :: EntryFits(m.entries, i)
  }

  /** The check: one pass with running offsets. */
  method CheckManifest(m: Manifest) returns (ok: bool)
    ensures ok <==> MeetsSchema(m)
  {
    hide EntryFits, Bytes;
    if m.truncated != (m.droppedEntryCount > 0) || (!m.truncated && m.droppedByteCount != 0) {
      return false;
    }
    var offsets := map[Request := 0, Response := 0];
    var previousMonotonic := 0;
    NoBytes(m.entries);
    for i := 0 to |m.entries|
      invariant Request in offsets && Response in offsets
      invariant offsets[Request] == Bytes(m.entries[..i], Request) && offsets[Response] == Bytes(m.entries[..i], Response)
      invariant previousMonotonic == if i == 0 then 0 else m.entries[i - 1].monotonicOffsetNs
      invariant forall j | 0 <= j < i :: EntryFits(m.entries, j)
    {
      var e := m.entries[i];
      NextFits(m.entries, i);
      match e.direction {
        case Request =>
        case Response =>
      }
      if e.sequence != i + 1 || e.monotonicOffsetNs < previousMonotonic || e.byteOffset != offsets[e.direction] {
        return false;
      }
      previousMonotonic := e.monotonicOffsetNs;
      offsets := offsets[e.direction := offsets[e.direction] + e.byteLength];
    }
    return true;
  }

  lemma NoBytes(entries: seq<Entry>)
    ensures Bytes(entries[..0], Request) == 0 == Bytes(entries[..0], Response)
  {
  }

  lemma NextFits(entries: seq<Entry>, i: nat)
    requires i < |entries|
    ensures EntryFits(entries, i) <==>
              && entries[i].sequence == i + 1 && entries[i].byteOffset == Bytes(entries[..i], entries[i].direction)
              && entries[i].monotonicOffsetNs >= if i == 0 then 0 else entries[i - 1].monotonicOffsetNs
    ensures forall d :: Bytes(entries[..i + 1], d) == Bytes(entries[..i], d) + if entries[i].direction == d then entries[i].byteLength else 0
  {
    assert entries[..i + 1][..i] == entries[..i];
  }

  // ------------------------------------------------------------ the builder

  function Total(chunks: seq<Chunk>): nat
    decreases |chunks|
  {
    if chunks == [] then 0 else Total(chunks[..|chunks| - 1]) + chunks[|chunks| - 1].byteLength
  }

  /** Entry by entry, what was appended. */
  ghost predicate Records(chunks: seq<Chunk>, started: nat, entries: seq<Entry>) {
    |entries| == |chunks| && forall i | 0 <= i < |chunks| ::
      && entries[i].direction == chunks[i].direction && entries[i].byteLength == chunks[i].byteLength
      && entries[i].sha256 == chunks[i].sha256 && entries[i].monotonicOffsetNs == chunks[i].observedAtNs - started
  }

  class ChunkManifestBuilder {
    const startedMonotonicNs: nat
    const maximumEntries: nat
    var entries: seq<Entry>
    var offsets: map<Direction, nat>
    var lastObservedNs: nat
    var droppedEntries: nat
    var droppedBytes: nat
    /** Every chunk accepted so far, kept or dropped. */
    ghost var appended: seq<Chunk>

    ghost predicate Valid()
      reads this
    {
      var kept := if |appended| <= maximumEntries then |appended| else maximumEntries;
      && maximumEntries >= 1 && lastObservedNs >= startedMonotonicNs
      && Request in offsets && Response in offsets
      && (forall d :: d in offsets ==> offsets[d] == Bytes(entries, d))
      && Records(appended[..kept], startedMonotonicNs, entries)
      && (forall i | 0 <= i < |entries| :: EntryFits(entries, i))
      && (entries != [] ==> entries[|entries| - 1].monotonicOffsetNs <= lastObservedNs - startedMonotonicNs)
      && droppedEntries == |appended| - kept && droppedBytes == Total(appended) - Total(appended[..kept])
    }

    constructor (startedMonotonicNs: nat, maximumEntries: nat)
      requires maximumEntries >= 1
      ensures Valid() && appended == [] && this.startedMonotonicNs == startedMonotonicNs && this.maximumEntries == maximumEntries
    {
      this.startedMonotonicNs, this.maximumEntries := startedMonotonicNs, maximumEntries;
      entries, offsets := [], map[Request := 0, Response := 0];
      lastObservedNs, droppedEntries, droppedBytes := startedMonotonicNs, 0, 0;
      appended := [];
    }

    /** A chunk that goes back in time is refused; beyond the limit it is only counted. */
    method Append(chunk: Chunk) returns (r: Result<Option<Entry>, string>)
      requires Valid()
      modifies this
      ensures Valid()
      ensures r.Err? <==> chunk.observedAtNs < old(lastObservedNs)
      ensures r.Err? ==> appended == old(appended) && entries == old(entries) && lastObservedNs == old(lastObservedNs)
      ensures r.Ok? ==> appended == old(appended) + [chunk] && lastObservedNs == chunk.observedAtNs
      ensures r.Ok? ==> match r.value
                        case Some(e) => entries == old(entries) + [e]
                        case None => entries == old(entries) && |entries| == maximumEntries
    {
      if chunk.observedAtNs < lastObservedNs {
        return Err("Chunk monotonic time cannot move backward.");
      }
      if |entries| >= maximumEntries {
        Drop(chunk);
        return Ok(None);
      }
      var entry := Keep(chunk);
      return Ok(Some(entry));
    }

    method Drop(chunk: Chunk)
      requires Valid() && |entries| >= maximumEntries && chunk.observedAtNs >= lastObservedNs
      modifies this`droppedEntries, this`droppedBytes, this`lastObservedNs, this`appended
      ensures Valid() && appended == old(appended) + [chunk] && lastObservedNs == chunk.observedAtNs && |entries| == maximumEntries
    {
      hide Bytes, Total, EntryFits;
      TotalNext(appended, chunk);
      assert (appended + [chunk])[..maximumEntries] == appended[..maximumEntries];
      droppedEntries, droppedBytes := droppedEntries + 1, droppedBytes + chunk.byteLength;
      lastObservedNs := chunk.observedAtNs;
      appended := appended + [chunk];
    }

    method Keep(chunk: Chunk) returns (entry: Entry)
      requires Valid() && |entries| < maximumEntries && chunk.observedAtNs >= lastObservedNs
      modifies this`entries, this`offsets, this`lastObservedNs, this`appended
      ensures Valid() && appended == old(appended) + [chunk] && lastObservedNs == chunk.observedAtNs
      ensures entries == old(entries) + [entry]
    {
      hide Bytes, Total, EntryFits;
      assert appended[..|appended|] == appended && (appended + [chunk])[..|appended| + 1] == appended + [chunk];
      match chunk.direction {
        case Request =>
        case Response =>
      }
      entry := Entry(|entries| + 1, chunk.direction, chunk.observedAtNs - startedMonotonicNs, offsets[chunk.direction], chunk.byteLength, chunk.sha256);
      EntriesNext(entries, entry);
      entries := entries + [entry];
      offsets := offsets[chunk.direction := offsets[chunk.direction] + chunk.byteLength];
      lastObservedNs := chunk.observedAtNs;
      appended := appended + [chunk];
    }

    /** The manifest always meets its schema; its entries are the chunks appended first, and
        recorded and dropped bytes together are all bytes appended. */
    method Build(completed: bool) returns (m: Manifest)
      requires Valid()
      ensures MeetsSchema(m) && m.completed == completed
      ensures |m.entries| <= |appended| && Records(appended[..|m.entries|], startedMonotonicNs, m.entries)
      ensures |m.entries| + m.droppedEntryCount == |appended|
      ensures Bytes(m.entries, Request) + Bytes(m.entries, Response) + m.droppedByteCount == Total(appended)
    {
      RecordedBytes(appended[..|entries|], startedMonotonicNs, entries);
      assert appended[..|appended|] == appended;
      return Manifest(startedMonotonicNs, completed, droppedEntries > 0, droppedEntries, droppedBytes, entries);
    }
  }

  lemma {:induction false} TotalNext(chunks: seq<Chunk>, c: Chunk)
    ensures Total(chunks + [c]) == Total(chunks) + c.byteLength
  {
    assert (chunks + [c])[..|chunks|] == chunks;
  }

  lemma {:induction false} EntriesNext(entries: seq<Entry>, e: Entry)
    requires forall i | 0 <= i < |entries| :: EntryFits(entries, i)
    requires e.sequence == |entries| + 1 && e.byteOffset == Bytes(entries, e.direction)
    requires e.monotonicOffsetNs >= if entries == [] then 0 else entries[|entries| - 1].monotonicOffsetNs
    ensures forall i | 0 <= i <= |entries| :: EntryFits(entries + [e], i)
    ensures forall d :: Bytes(entries + [e], d) == Bytes(entries, d) + if e.direction == d then e.byteLength else 0
  {
    hide Bytes;
    var next := entries + [e];
    NextFits(next, |entries|);
    assert next[..|entries|] == entries && next[..|entries| + 1] == next;
    forall i | 0 <= i < |entries| ensures EntryFits(next, i) {
      assert EntryFits(entries, i);
      assert next[..i] == entries[..i];
    }
  }

  lemma {:induction false} RecordedBytes(chunks: seq<Chunk>, started: nat, entries: seq<Entry>)
    requires Records(chunks, started, entries)
    ensures Bytes(entries, Request) + Bytes(entries, Response) == Total(chunks)
    decreases |chunks|
  {
    if chunks != [] {
      RecordedBytes(chunks[..|chunks| - 1], started, entries[..|entries| - 1]);
    }
  }
}
