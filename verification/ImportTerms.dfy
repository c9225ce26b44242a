// What an archive import (apps/daemon/src/archive/tkr-archive.ts) checks and writes, in terms of
// the fields of the archived records.

module ImportTerms {
  import opened Wrappers
  import opened Ordering
  import opened Database
  import opened Deletion
  import opened Import

  // ------------------------------------------------------------ the checks

  /** No two events and no two exchanges share an identifier or a sequence, and no two analyses
      or redactions an identifier. */
  ghost predicate NothingTwice(a: Archive)
    requires Typed(a)
  {
    && (forall i, j | 0 <= i < j < |a.events| :: a.events[i].id != a.events[j].id && a.events[i].sequence != a.events[j].sequence)
    && (forall i, j | 0 <= i < j < |a.exchanges| ::
          a.exchanges[i].id != a.exchanges[j].id && a.exchanges[i].sequence != a.exchanges[j].sequence)
    && (forall i, j | 0 <= i < j < |a.analyses| :: a.analyses[i].id != a.analyses[j].id)
    && (forall i, j | 0 <= i < j < |a.redactions| :: a.redactions[i].id != a.redactions[j].id)
  }

  ghost predicate ListsEvent(a: Archive, id: Id)
    requires Typed(a)
  {
    exists x | x in a.events :: x.id == id
  }

  ghost predicate ListsExchange(a: Archive, id: Id)
    requires Typed(a)
  {
    exists x | x in a.exchanges :: x.id == id
  }

  /** Every record names the archived session, and only events and exchanges that are listed. */
  ghost predicate StaysInside(a: Archive)
    requires Typed(a)
  {
    && (forall r | r in a.events :: r.session == a.session.id && (r.exchange.Some? ==> ListsExchange(a, r.exchange.value)))
    && (forall r | r in a.exchanges :: r.session == a.session.id)
    && (forall r | r in a.changes :: ListsEvent(a, r.event))
    && (forall r | r in a.edges :: r.session == a.session.id && ListsEvent(a, r.from) && ListsEvent(a, r.to))
    && (forall r | r in a.analyses :: r.session == a.session.id && (r.target.Some? ==> ListsEvent(a, r.target.value)))
    && (forall r | r in a.redactions :: r.session == a.session.id)
    && (forall r | r in a.normalizations ::
          ListsExchange(a, r.exchangeId) && forall id | id in r.eventIds :: ListsEvent(a, id))
  }

  /** The store knows neither the session nor any of the identifiers. */
  ghost predicate AllNew(db: Db, a: Archive)
    requires Typed(a)
  {
    && SessionKey(a.session.id) !in db
    && (forall r | r in a.events :: EventKey(r.id) !in db)
    && (forall r | r in a.exchanges :: ExchangeKey(r.id) !in db)
    && (forall r | r in a.analyses :: AnalysisKey(r.id) !in db)
    && (forall r | r in a.redactions :: RedactionKey(r.id) !in db)
  }

  /** A body, a stream manifest, a payload, a patch or a result. */
  ghost predicate Needs(a: Archive, id: Id)
    requires Typed(a)
  {
    || (exists r | r in a.exchanges ::
          r.requestBlob == Some(id) || r.responseBlob == Some(id) || r.manifestBlob == Some(id))
    || (exists r | r in a.events :: r.payloadBlob == Some(id))
    || (exists r | r in a.changes :: r.patchBlob == Some(id))
    || (exists r | r in a.analyses :: r.resultBlob == Some(id))
  }

  /** Each blob is declared once, and the declared ones are those needed. */
  ghost predicate BlobsCover(a: Archive)
    requires Typed(a)
  {
    && (forall i, j | 0 <= i < j < |a.blobs| :: a.blobs[i].id != a.blobs[j].id)
    && forall id :: Needs(a, id) <==> exists b | b in a.blobs :: b.id == id
  }

  lemma KeysDistinct(rows: seq<Row>)
    ensures NoDuplicates(Keys(rows)) <==> forall i, j | 0 <= i < j < |rows| :: KeyOf(rows[i]) != KeyOf(rows[j])
  {
    forall i, j | 0 <= i < j < |rows| ensures Keys(rows)[i] != Keys(rows)[j] <==> KeyOf(rows[i]) != KeyOf(rows[j]) {
    }
  }

  lemma SequencesInTerms(a: Archive)
    requires Typed(a) && Related(a)
    ensures DistinctSequences(a.events) <==> forall i, j | 0 <= i < j < |a.events| :: a.events[i].sequence != a.events[j].sequence
    ensures DistinctSequences(a.exchanges)
       <==> forall i, j | 0 <= i < j < |a.exchanges| :: a.exchanges[i].sequence != a.exchanges[j].sequence
  {
    forall i, j | 0 <= i < j < |a.events|
      ensures SameSequence(a.events[i], a.events[j]) <==> a.events[i].sequence == a.events[j].sequence
    {
      assert a.events[i] in a.events && a.events[j] in a.events;
    }
    forall i, j | 0 <= i < j < |a.exchanges|
      ensures SameSequence(a.exchanges[i], a.exchanges[j]) <==> a.exchanges[i].sequence == a.exchanges[j].sequence
    {
      assert a.exchanges[i] in a.exchanges && a.exchanges[j] in a.exchanges;
    }
  }

  lemma KeysAreIds(a: Archive)
    requires Typed(a)
    ensures forall i | 0 <= i < |a.events| :: KeyOf(a.events[i]) == EventKey(a.events[i].id)
    ensures forall i | 0 <= i < |a.exchanges| :: KeyOf(a.exchanges[i]) == ExchangeKey(a.exchanges[i].id)
    ensures forall i | 0 <= i < |a.analyses| :: KeyOf(a.analyses[i]) == AnalysisKey(a.analyses[i].id)
    ensures forall i | 0 <= i < |a.redactions| :: KeyOf(a.redactions[i]) == RedactionKey(a.redactions[i].id)
  {
    assert forall i | 0 <= i < |a.events| :: a.events[i] in a.events;
    assert forall i | 0 <= i < |a.exchanges| :: a.exchanges[i] in a.exchanges;
    assert forall i | 0 <= i < |a.analyses| :: a.analyses[i] in a.analyses;
    assert forall i | 0 <= i < |a.redactions| :: a.redactions[i] in a.redactions;
  }

  lemma RepetitionInTerms(a: Archive)
    requires Typed(a) && Related(a)
    ensures Unrepeated(a) <==> NothingTwice(a)
  {
    hide NoDuplicates, Keys, KeyOf, Related, DistinctSequences;
    KeysAreIds(a);
    KeysDistinct(a.events);
    KeysDistinct(a.exchanges);
    KeysDistinct(a.analyses);
    KeysDistinct(a.redactions);
    SequencesInTerms(a);
  }

  lemma ListedIds(a: Archive, id: Id)
    requires Typed(a)
    ensures id in EventIds(a) <==> ListsEvent(a, id)
    ensures id in ExchangeIds(a) <==> ListsExchange(a, id)
  {
  }

  lemma RelationsInTerms(a: Archive)
    requires Typed(a)
    ensures Related(a) <==> StaysInside(a)
  {
    hide EventIds, ExchangeIds, ListsEvent, ListsExchange;
    forall id: Id
      ensures id in EventIds(a) <==> ListsEvent(a, id)
      ensures id in ExchangeIds(a) <==> ListsExchange(a, id)
    {
      ListedIds(a, id);
    }
  }

  lemma ConflictsInTerms(db: Db, a: Archive)
    requires Typed(a)
    ensures NoConflict(db, a) <==> AllNew(db, a)
  {
    var all := a.events + a.exchanges + a.analyses + a.redactions;
    forall r ensures r in all <==> r in a.events || r in a.exchanges || r in a.analyses || r in a.redactions {
    }
  }

  lemma NeedsInTerms(a: Archive, id: Id)
    requires Typed(a)
    ensures Needs(a, id) <==> BlobKey(id) in RequiredBlobs(a)
  {
    forall r ensures r in Records(a) && BlobKey(id) in BlobRefs(r) <==>
                     || (r in a.exchanges && (r.requestBlob == Some(id) || r.responseBlob == Some(id) || r.manifestBlob == Some(id)))
                     || (r in a.events && r.payloadBlob == Some(id))
                     || (r in a.changes && r.patchBlob == Some(id))
                     || (r in a.analyses && r.resultBlob == Some(id))
    {
    }
    hide Records, BlobRefs;
  }

  lemma BlobsInTerms(a: Archive)
    requires Typed(a)
    ensures NoDuplicates(seq(|a.blobs|, i requires 0 <= i < |a.blobs| => a.blobs[i].id)) && RequiredBlobs(a) == DeclaredBlobs(a)
       <==> BlobsCover(a)
  {
    hide Needs, Records;
    var ids := seq(|a.blobs|, i requires 0 <= i < |a.blobs| => a.blobs[i].id);
    forall i, j | 0 <= i < j < |a.blobs| ensures ids[i] != ids[j] <==> a.blobs[i].id != a.blobs[j].id {
    }
    forall id ensures Needs(a, id) <==> BlobKey(id) in RequiredBlobs(a) {
      NeedsInTerms(a, id);
    }
    forall id ensures BlobKey(id) in DeclaredBlobs(a) <==> exists b | b in a.blobs :: b.id == id {
    }
    forall k | k in RequiredBlobs(a) ensures k.BlobKey? {
      var r :| r in Records(a) && k in BlobRefs(r);
    }
    hide RequiredBlobs, DeclaredBlobs, NoDuplicates;
    if BlobsCover(a) {
      forall k ensures k in RequiredBlobs(a) <==> k in DeclaredBlobs(a) {
        if k.BlobKey? {
          assert Needs(a, k.id) <==> k in RequiredBlobs(a);
        } else {
          NotABlob(a, k);
        }
      }
    }
  }

  lemma NotABlob(a: Archive, k: Key)
    requires !k.BlobKey?
    ensures k !in DeclaredBlobs(a)
  {
  }

  /** What the checks ask of an archive, and which of them is told first. */
  lemma ChecksInTerms(db: Db, a: Archive)
    requires Typed(a)
    ensures Check(db, a)
         == if !(a.agrees && a.session.status != Active && NothingTwice(a) && StaysInside(a)) then Some(Integrity)
            else if !AllNew(db, a) then Some(Conflict)
            else if !(BlobsCover(a) && a.referencesAgree) then Some(Integrity)
            else None
  {
    RelationsInTerms(a);
    if Related(a) {
      RepetitionInTerms(a);
    }
    ConflictsInTerms(db, a);
    BlobsInTerms(a);
    hide Unrepeated, NothingTwice, Related, StaysInside, NoConflict, AllNew, BlobsCover, RequiredBlobs, DeclaredBlobs, NoDuplicates;
  }

  // ------------------------------------------------------------ the failures

  /** The first blob that cannot be stored decides the error. */
  ghost predicate FirstTrouble(db: Db, a: Archive, f: Faults, i: nat) {
    && i < |a.blobs| && (i in f.puts || !IdentityKept(db, a.blobs[i]))
    && forall j | 0 <= j < i :: j !in f.puts && IdentityKept(db, a.blobs[j])
  }

  lemma {:induction false} PutErrorInTerms(db: Db, a: Archive, f: Faults, k: nat)
    requires k <= |a.blobs| && forall i, j | 0 <= i < j < |a.blobs| :: a.blobs[i].id != a.blobs[j].id
    ensures var e := PutBlobs(db, a, f, k).error;
            match e
            case None => BlobsFine(db, a, f, k)
            case Some(error) =>
              exists i | 0 <= i < k ::
                FirstTrouble(db, a, f, i) && error == if i in f.puts then PutFailed else ChangedIdentity
    decreases k
  {
    hide PutBlob, IdentityKept;
    if k > 0 {
      PutErrorInTerms(db, a, f, k - 1);
      var p := PutBlobs(db, a, f, k - 1);
      if p.error.None? {
        SamePlace(db, a, f, k - 1);
        PutErrorKind(db, p.db, p.created, a.blobs[k - 1], k - 1 in f.puts);
        if PutBlobs(db, a, f, k).error.Some? {
          assert FirstTrouble(db, a, f, k - 1);
        }
      }
    }
  }

  lemma {:induction false} SamePlace(db: Db, a: Archive, f: Faults, k: nat)
    requires k < |a.blobs| && forall i, j | 0 <= i < j < |a.blobs| :: a.blobs[i].id != a.blobs[j].id
    ensures var now := PutBlobs(db, a, f, k).db;
            && (BlobKey(a.blobs[k].id) in now <==> BlobKey(a.blobs[k].id) in db)
            && forall key | key in db :: key in now && now[key] == db[key]
  {
    hide PutBlobs, IdentityKept;
    var ids := seq(|a.blobs|, i requires 0 <= i < |a.blobs| => a.blobs[i].id);
    assert NoDuplicates(ids);
    PutsSucceedExactly(db, a, f, k);
  }

  lemma PutErrorKind(db: Db, now: Db, created: set<Id>, b: ArchiveBlob, fails: bool)
    requires BlobKey(b.id) in now <==> BlobKey(b.id) in db
    requires forall key | key in db :: key in now && now[key] == db[key]
    ensures PutBlob(now, created, b, fails).error
         == if fails then Some(PutFailed) else if !IdentityKept(db, b) then Some(ChangedIdentity) else None
  {
  }

  /** Once the checks pass, an import fails for its first blob that cannot be stored, or, when
      all can, in the transaction. */
  lemma FailuresInTerms(db: Db, a: Archive, stamp: Stamp, f: Faults)
    requires WellFormed(db) && Typed(a) && Check(db, a).None?
    ensures match ImportArchive(db, a, stamp, f).error
            case None => true
            case Some(TransactionFailed) => BlobsFine(db, a, f, |a.blobs|)
            case Some(error) =>
              exists i: nat :: FirstTrouble(db, a, f, i) && error == if i in f.puts then PutFailed else ChangedIdentity
  {
    hide Check, PutBlobs, Statements, Transaction, WellFormed, BlobsFine, FirstTrouble, BlobsCover;
    ChecksInTerms(db, a);
    BlobsAreDistinct(a);
    PutErrorInTerms(db, a, f, |a.blobs|);
  }

  lemma BlobsAreDistinct(a: Archive)
    requires Typed(a)
    ensures BlobsCover(a) ==> forall i, j | 0 <= i < j < |a.blobs| :: a.blobs[i].id != a.blobs[j].id
  {
  }

  // ------------------------------------------------------------ the session and its counter

  /** Every place of `tags` that holds `later` comes after one that holds `earlier`. */
  ghost predicate ComesFirst(tags: seq<string>, earlier: string, later: string) {
    forall p | 0 <= p < |tags| && tags[p] == later :: earlier in tags[..p]
  }

  ghost predicate InFirstOrder(tags: seq<string>, found: seq<string>) {
    forall i, j | 0 <= i < j < |found| :: ComesFirst(tags, found[i], found[j])
  }

  lemma StillFirst(front: seq<string>, last: string, earlier: string, later: string)
    requires earlier in front && (ComesFirst(front, earlier, later) || later !in front)
    ensures ComesFirst(front + [last], earlier, later)
  {
    var tags := front + [last];
    forall p | 0 <= p < |tags| && tags[p] == later ensures earlier in tags[..p] {
      if p < |front| {
        assert front[p] == later && front[..p] == tags[..p];
      } else {
        assert tags[..p] == front;
      }
    }
  }

  lemma TagJoins(front: seq<string>, last: string, found: seq<string>)
    requires InFirstOrder(front, found) && forall tag :: tag in found <==> tag in front
    ensures InFirstOrder(front + [last], found)
    ensures last !in front ==> InFirstOrder(front + [last], found + [last])
  {
    hide ComesFirst;
    forall i, j | 0 <= i < j < |found| ensures ComesFirst(front + [last], found[i], found[j]) {
      StillFirst(front, last, found[i], found[j]);
    }
    if last !in front {
      forall i | 0 <= i < |found| ensures ComesFirst(front + [last], found[i], last) {
        StillFirst(front, last, found[i], last);
      }
    }
  }

  lemma {:induction false} TagsInOrder(tags: seq<string>)
    ensures InFirstOrder(tags, Unique(tags))
    decreases |tags|
  {
    hide ComesFirst, NoDuplicates;
    if tags != [] {
      var front, last := tags[..|tags| - 1], tags[|tags| - 1];
      assert tags == front + [last];
      TagsInOrder(front);
      TagsStay(front);
      TagJoins(front, last, Unique(front));
    }
  }

  lemma {:induction false} NextSequenceIsNext(events: seq<Row>)
    requires forall r | r in events :: r.EventRow?
    ensures var n := NextSequence(events, 1);
            && n >= 1 && (forall r | r in events :: r.sequence < n)
            && (n == 1 || exists r | r in events :: r.sequence + 1 == n)
    decreases |events|
  {
    if events != [] {
      var front, last := events[..|events| - 1], events[|events| - 1];
      assert events == front + [last];
      NextSequenceIsNext(front);
    }
  }

  /** The status the session had in the source. */
  ghost predicate Names(status: Status, name: string) {
    match status
    case Active => name == "active"
    case Completed => name == "completed"
    case Crashed => name == "crashed"
    case Incomplete => name == "incomplete"
    case ImportedReadonly => name == "imported-readonly"
  }

  /** What an import writes into the session's own row. */
  ghost predicate MarkedReadonly(a: Archive, stamp: Stamp, r: Row)
    requires Typed(a)
  {
    var s := a.session;
    && r.SessionRow? && r.id == s.id && r.status == ImportedReadonly && r.startedAt == s.startedAt
    && r.analysisTarget == s.analysisTarget && r.record == s.record && r.size == stamp.recordSize
    && r.endedAt.Some? && (s.endedAt.Some? ==> r.endedAt == s.endedAt) && (s.endedAt.None? ==> r.endedAt == Some(stamp.at))
    && NoDuplicates(r.tags) && (forall tag :: tag in r.tags <==> tag in s.tags || tag == "archive:imported-readonly")
    && InFirstOrder(s.tags + ["archive:imported-readonly"], r.tags)
    && MetadataTold(a, stamp, r.metadata)
  }

  ghost predicate MetadataTold(a: Archive, stamp: Stamp, m: map<string, Setting>)
    requires Typed(a)
  {
    var names := {"importedReadOnly", "importedAt", "sourceArchiveId", "sourceArchiveProfile", "sourceSessionStatus"};
    && m.Keys == a.session.metadata.Keys + names
    && (forall name | name in a.session.metadata && name !in names :: m[name] == a.session.metadata[name])
    && m["importedReadOnly"] == FlagSetting(true) && m["importedAt"] == TextSetting(stamp.text)
    && m["sourceArchiveId"] == TextSetting(a.archiveId) && m["sourceArchiveProfile"] == TextSetting(a.profile)
    && m["sourceSessionStatus"].TextSetting? && Names(a.session.status, m["sourceSessionStatus"].text)
  }

  lemma ReadonlySessionInTerms(a: Archive, stamp: Stamp)
    requires Typed(a)
    ensures MarkedReadonly(a, stamp, ReadonlySession(a, stamp))
  {
    hide Unique, InFirstOrder, MetadataTold, ImportMetadata;
    var tags := a.session.tags + [READONLY_TAG];
    TagsStay(tags);
    TagsInOrder(tags);
    assert tags == a.session.tags + ["archive:imported-readonly"];
    assert forall tag :: tag in tags <==> tag in a.session.tags || tag == "archive:imported-readonly";
    var r := ReadonlySession(a, stamp);
    assert r.tags == Unique(tags);
    MetadataInTerms(a, stamp);
  }

  lemma MetadataInTerms(a: Archive, stamp: Stamp)
    requires Typed(a)
    ensures MetadataTold(a, stamp, a.session.metadata + ImportMetadata(a, stamp))
  {
  }

  /** After a successful import the session ends, is read-only and says where it comes from, and
      its counter stands right after the last event. */
  lemma SessionAfterImport(db: Db, a: Archive, stamp: Stamp, f: Faults)
    requires WellFormed(db) && Typed(a) && ImportArchive(db, a, stamp, f).error.None?
    ensures var now := ImportArchive(db, a, stamp, f).db;
            var counter := SequenceKey(a.session.id);
            && SessionKey(a.session.id) in now && MarkedReadonly(a, stamp, now[SessionKey(a.session.id)])
            && counter in now && now[counter].SequenceRow? && now[counter].session == a.session.id && now[counter].next >= 1
            && (forall r | r in a.events :: r.sequence < now[counter].next)
            && (now[counter].next == 1 || exists r | r in a.events :: r.sequence + 1 == now[counter].next)
  {
    hide Check, PutBlobs, Statements, Transaction, WellFormed, NextSequence, ReadonlySession, MarkedReadonly, Records, Rows, AllEnded, EndFits;
    var p := PutBlobs(db, a, f, |a.blobs|);
    CommittedHolds(p.db, a, stamp);
    ReadonlySessionInTerms(a, stamp);
    NextSequenceIsNext(a.events);
  }
}
