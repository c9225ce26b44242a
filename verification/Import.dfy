// Archive import (apps/daemon/src/archive/tkr-archive.ts): the checks,
// the blobs put one by one, the transaction over the records, and the compensation.

module Import {
  import opened Wrappers
  import opened Ordering
  import opened Database
  import opened Deletion

  /** A blob of the archive: the declared identity, and the row that storing its bytes makes.
      `record` is the identity: digest, codec, media type, length and truncation. */
  datatype ArchiveBlob = ArchiveBlob(id: Id, identity: string, stored: nat, storedIdentity: string)

  /** `agrees`: entry paths, counts, source session and report are what the manifest says.
      `referencesAgree`: the records reference their blobs as the manifest declares them. */
  datatype Archive = Archive(
    archiveId: string,
    profile: string,
    agrees: bool,
    referencesAgree: bool,
    session: Row,
    exchanges: seq<Row>,
    events: seq<Row>,
    normalizations: seq<Row>,
    changes: seq<Row>,
    edges: seq<Row>,
    analyses: seq<Row>,
    redactions: seq<Row>,
    blobs: seq<ArchiveBlob>)

  /** The schema of sessions: an end does not precede the start. */
  predicate LifeFits(r: Row)
    requires r.SessionRow?
  {
    r.endedAt.Some? ==> r.startedAt <= r.endedAt.value
  }

  /** What parsing the records guarantees. */
  predicate Typed(a: Archive) {
    && a.session.SessionRow? && LifeFits(a.session)
    && (forall r | r in a.exchanges :: r.ExchangeRow?)
    && (forall r | r in a.events :: r.EventRow?)
    && (forall r | r in a.normalizations :: r.NormalizationRow?)
    && (forall r | r in a.changes :: r.ChangeRow?)
    && (forall r | r in a.edges :: r.EdgeRow?)
    && (forall r | r in a.analyses :: r.AnalysisRow?)
    && (forall r | r in a.redactions :: r.RedactionRow?)
  }

  /** Faults that come from outside: blob writes that fail, a statement of the transaction
      that fails, and a compensation that fails. */
  datatype Faults = Faults(puts: set<nat>, statement: Option<nat>, compensation: bool)

  datatype ImportError = Integrity | Conflict | PutFailed | ChangedIdentity | TransactionFailed

  // ------------------------------------------------------------ the checks

  function Records(a: Archive): seq<Row> {
    a.exchanges + a.events + a.normalizations + a.changes + a.edges + a.analyses + a.redactions
  }

  function RequiredBlobs(a: Archive): set<Key> {
    set r, k | r in Records(a) && k in BlobRefs(r) :: k
  }

  function DeclaredBlobs(a: Archive): set<Key> {
    set b | b in a.blobs :: BlobKey(b.id)
  }

  function Keys(rows: seq<Row>): seq<Key> {
    seq(|rows|, i requires 0 <= i < |rows| => KeyOf(rows[i]))
  }

  predicate DistinctSequences(rows: seq<Row>) {
    forall i, j | 0 <= i < j < |rows| :: !SameSequence(rows[i], rows[j])
  }

  function EventIds(a: Archive): set<Id>
    requires Typed(a)
  {
    set r | r in a.events :: r.id
  }

  function ExchangeIds(a: Archive): set<Id>
    requires Typed(a)
  {
    set r | r in a.exchanges :: r.id
  }

  /** Relations inside the archive: one session, and every reference to a listed record. */
  predicate Related(a: Archive)
    requires Typed(a)
  {
    var events, exchanges := EventIds(a), ExchangeIds(a);
    && (forall r | r in a.events :: r.session == a.session.id && (r.exchange.Some? ==> r.exchange.value in exchanges))
    && (forall r | r in a.exchanges :: r.session == a.session.id)
    && (forall r | r in a.changes :: r.event in events)
    && (forall r | r in a.edges :: r.session == a.session.id && r.from in events && r.to in events)
    && (forall r | r in a.analyses :: r.session == a.session.id && (r.target.Some? ==> r.target.value in events))
    && (forall r | r in a.redactions :: r.session == a.session.id)
    && (forall r | r in a.normalizations :: r.exchangeId in exchanges && forall id | id in r.eventIds :: id in events)
  }

  /** Edges, changes and normalization runs are not checked for repetition. */
  predicate Unrepeated(a: Archive)
    requires Typed(a)
  {
    && NoDuplicates(Keys(a.events)) && NoDuplicates(Keys(a.exchanges))
    && NoDuplicates(Keys(a.analyses)) && NoDuplicates(Keys(a.redactions))
    && DistinctSequences(a.events) && DistinctSequences(a.exchanges)
  }

  predicate NoConflict(db: Db, a: Archive)
    requires Typed(a)
  {
    SessionKey(a.session.id) !in db
    && forall r | r in a.events + a.exchanges + a.analyses + a.redactions :: KeyOf(r) !in db
  }

  function Check(db: Db, a: Archive): Option<ImportError>
    requires Typed(a)
  {
    if !a.agrees || a.session.status == Active || !Unrepeated(a) || !Related(a) then Some(Integrity)
    else if !NoConflict(db, a) then Some(Conflict)
    else if !NoDuplicates(seq(|a.blobs|, i requires 0 <= i < |a.blobs| => a.blobs[i].id)) || RequiredBlobs(a) != DeclaredBlobs(a) then
      Some(Integrity)
    else if !a.referencesAgree then Some(Integrity)
    else None
  }

  // ------------------------------------------------------------ blobs

  datatype Puts = Puts(db: Db, created: set<Id>, error: Option<ImportError>)

  function PutBlob(db: Db, created: set<Id>, b: ArchiveBlob, fails: bool): Puts {
    var k := BlobKey(b.id);
    if fails then Puts(db, created, Some(PutFailed))
    else
      var row := if k in db then db[k] else BlobRow(b.id, b.stored, b.storedIdentity);
      var next := db[k := row];
      if !row.BlobRow? || row.record != b.identity then Puts(next, created, Some(ChangedIdentity))
      else Puts(next, if k in db then created else created + {b.id}, None)
  }

  /** The blobs of `a` up to `k`, stopping at the first error. */
  function PutBlobs(db: Db, a: Archive, f: Faults, k: nat): Puts
    requires k <= |a.blobs|
    decreases k
  {
    if k == 0 then Puts(db, {}, None)
    else
      var p := PutBlobs(db, a, f, k - 1);
      if p.error.Some? then p else PutBlob(p.db, p.created, a.blobs[k - 1], k - 1 in f.puts)
  }

  // ------------------------------------------------------------ records

  function InitialSession(a: Archive): Row
    requires Typed(a)
  {
    a.session.(status := if a.session.status == ImportedReadonly then Completed else a.session.status)
  }

  /** When the import runs, and the size of the session record it writes. */
  datatype Stamp = Stamp(at: int, text: string, recordSize: nat)

  const READONLY_TAG := "archive:imported-readonly"

  /** First occurrences only. */
  function Unique(tags: seq<string>): seq<string> {
    if tags == [] then []
    else
      var front, last := Unique(tags[..|tags| - 1]), tags[|tags| - 1];
      if last in front then front else front + [last]
  }

  function StatusName(s: Status): string {
    match s
    case Active => "active"
    case Completed => "completed"
    case Crashed => "crashed"
    case Incomplete => "incomplete"
    case ImportedReadonly => "imported-readonly"
  }

  function ImportMetadata(a: Archive, stamp: Stamp): map<string, Setting>
    requires Typed(a)
  {
    map["importedReadOnly" := FlagSetting(true),
        "importedAt" := TextSetting(stamp.text),
        "sourceArchiveId" := TextSetting(a.archiveId),
        "sourceArchiveProfile" := TextSetting(a.profile),
        "sourceSessionStatus" := TextSetting(StatusName(a.session.status))]
  }

  /** The session row an import leaves: it has ended, and says where it comes from. */
  function ReadonlySession(a: Archive, stamp: Stamp): Row
    requires Typed(a)
  {
    a.session.(
      status := ImportedReadonly,
      endedAt := Some(if a.session.endedAt.Some? then a.session.endedAt.value else stamp.at),
      tags := Unique(a.session.tags + [READONLY_TAG]),
      metadata := a.session.metadata + ImportMetadata(a, stamp),
      size := stamp.recordSize)
  }

  /** Every tag stays, the import's own is among them, and none stands there twice. */
  lemma {:induction false} TagsStay(tags: seq<string>)
    ensures NoDuplicates(Unique(tags)) && forall tag :: tag in Unique(tags) <==> tag in tags
    decreases |tags|
  {
    if tags != [] {
      var front, last := tags[..|tags| - 1], tags[|tags| - 1];
      assert tags == front + [last];
      TagsStay(front);
    }
  }

  function Max(a: nat, b: nat): nat {
    if a < b then b else a
  }

  function NextSequence(events: seq<Row>, next: nat): nat
    requires forall r | r in events :: r.EventRow?
    decreases |events|
  {
    if events == [] then next
    else Max(NextSequence(events[..|events| - 1], next), events[|events| - 1].sequence + 1)
  }

  function Inserts(rows: seq<Row>): seq<Statement> {
    seq(|rows|, i requires 0 <= i < |rows| => Insert(rows[i]))
  }

  /** Rows in the order they are inserted; each event insert also moves the counter. */
  function Rows(a: Archive): seq<Row>
    requires Typed(a)
  {
    [InitialSession(a), SequenceRow(a.session.id, 1)] + Records(a)
  }

  function Statements(a: Archive, stamp: Stamp): seq<Statement>
    requires Typed(a)
  {
    Inserts(Rows(a))
    + [Update(SequenceKey(a.session.id), SequenceRow(a.session.id, NextSequence(a.events, 1))),
       Update(SessionKey(a.session.id), ReadonlySession(a, stamp))]
  }

  /** What the repositories refuse before the tables see it: an archived exchange without an
      end, and a session that ends before it starts. */
  predicate Refuses(s: Statement) {
    match s
    case Insert(r) => (r.ExchangeRow? && r.endedAt.None?) || (r.SessionRow? && !LifeFits(r))
    case Update(_, r) => r.SessionRow? && !LifeFits(r)
    case Delete(_) => false
  }

  function Perform(db: Db, s: Statement): Option<Db> {
    if Refuses(s) then None else Execute(db, s)
  }

  /** All statements take effect, or none. */
  function Transaction(db: Db, statements: seq<Statement>): Option<Db>
    decreases |statements|
  {
    if statements == [] then Some(db)
    else
      match Transaction(db, statements[..|statements| - 1])
      case None => None
      case Some(next) => Perform(next, statements[|statements| - 1])
  }

  // ------------------------------------------------------------ the import

  datatype Outcome = Outcome(db: Db, error: Option<ImportError>)

  function Compensate(db: Db, created: set<Id>, f: Faults): Db {
    if f.compensation then db else Collect(db, Some(created))
  }

  function ImportArchive(db: Db, a: Archive, stamp: Stamp, f: Faults): Outcome
    requires Typed(a)
  {
    var invalid := Check(db, a);
    if invalid.Some? then Outcome(db, invalid)
    else
      var p := PutBlobs(db, a, f, |a.blobs|);
      if p.error.Some? then Outcome(Compensate(p.db, p.created, f), p.error)
      else
        var t := if f.statement.Some? && f.statement.value < |Statements(a, stamp)| then None else Transaction(p.db, Statements(a, stamp));
        if t.None? then Outcome(Compensate(p.db, p.created, f), Some(TransactionFailed)) else Outcome(t.value, None)
  }

  // ------------------------------------------------------------ failure changes no record

  /** `db'` has the records of `db`, and beyond its blobs only unreferenced ones. */
  ghost predicate OnlyOrphansAdded(db: Db, db': Db) {
    && (forall k | k in db :: k in db' && db'[k] == db[k])
    && (forall k | k in db' && k !in db :: k.BlobKey? && db'[k].BlobRow? && KeyOf(db'[k]) == k && !Referenced(db', k))
  }

  lemma RecordsReferToKnownBlobs(db: Db, r: Key, p: Key)
    requires WellFormed(db) && r in db && p.BlobKey? && p !in db
    ensures p !in BlobRefs(db[r])
  {
    hide SequencesUnique;
    RowReferences(db, r);
  }

  lemma NewBlobIsOrphan(db: Db, now: Db, k: Key, row: Row)
    requires WellFormed(db) && OnlyOrphansAdded(db, now) && k !in now && k.BlobKey? && row.BlobRow? && KeyOf(row) == k
    ensures OnlyOrphansAdded(db, now[k := row])
  {
    hide WellFormed;
    var next := now[k := row];
    forall p | p in next && p !in db ensures !Referenced(next, p) {
      forall r | r in next ensures p !in BlobRefs(next[r]) {
        if r in db {
          RecordsReferToKnownBlobs(db, r, p);
        } else {
          BlobsReferToNothing(next[r]);
        }
      }
    }
  }

  lemma BlobsReferToNothing(r: Row)
    requires r.BlobRow?
    ensures BlobRefs(r) == {}
  {
  }

  lemma PutAddsOrphan(db: Db, now: Db, created: set<Id>, b: ArchiveBlob, fails: bool)
    requires WellFormed(db) && OnlyOrphansAdded(db, now)
    ensures OnlyOrphansAdded(db, PutBlob(now, created, b, fails).db)
  {
    hide WellFormed, OnlyOrphansAdded;
    var k := BlobKey(b.id);
    if k in now {
      assert now[k := now[k]] == now;
    } else {
      NewBlobIsOrphan(db, now, k, BlobRow(b.id, b.stored, b.storedIdentity));
    }
  }

  lemma {:induction false} PutsAddOrphans(db: Db, a: Archive, f: Faults, k: nat)
    requires WellFormed(db) && k <= |a.blobs|
    ensures OnlyOrphansAdded(db, PutBlobs(db, a, f, k).db)
    decreases k
  {
    hide OnlyOrphansAdded, PutBlob;
    if k == 0 {
      NothingAdded(db);
    } else {
      PutsAddOrphans(db, a, f, k - 1);
      var p := PutBlobs(db, a, f, k - 1);
      PutAddsOrphan(db, p.db, p.created, a.blobs[k - 1], k - 1 in f.puts);
    }
  }

  lemma NothingAdded(db: Db)
    ensures OnlyOrphansAdded(db, db)
  {
  }

  /** Blobs that were there before are never among those compensated for. */
  lemma {:induction false} CreatedAreNew(db: Db, a: Archive, f: Faults, k: nat)
    requires k <= |a.blobs|
    ensures var p := PutBlobs(db, a, f, k);
            (forall id | id in p.created :: BlobKey(id) !in db) && db.Keys <= p.db.Keys
    decreases k
  {
    if k > 0 {
      CreatedAreNew(db, a, f, k - 1);
    }
  }

  lemma CompensationKeepsRecords(db: Db, now: Db, created: set<Id>, f: Faults)
    requires OnlyOrphansAdded(db, now) && forall id | id in created :: BlobKey(id) !in db
    ensures OnlyOrphansAdded(db, Compensate(now, created, f))
  {
    var next := Compensate(now, created, f);
    forall k | k in next && k !in db ensures !Referenced(next, k) {
      assert !Referenced(now, k);
      forall r | r in next ensures k !in BlobRefs(next[r]) {
        assert r in now;
      }
    }
  }

  /** On any failure every record is unchanged and every added blob is unreferenced. */
  lemma FailureChangesNoRecord(db: Db, a: Archive, stamp: Stamp, f: Faults)
    requires WellFormed(db) && Typed(a)
    ensures var o := ImportArchive(db, a, stamp, f); o.error.Some? ==> OnlyOrphansAdded(db, o.db)
  {
    hide WellFormed, OnlyOrphansAdded, Compensate, PutBlobs, Check, Statements, Transaction;
    NothingAdded(db);
    PutsAddOrphans(db, a, f, |a.blobs|);
    CreatedAreNew(db, a, f, |a.blobs|);
    var p := PutBlobs(db, a, f, |a.blobs|);
    CompensationKeepsRecords(db, p.db, p.created, f);
  }

  /** So one garbage collection brings back a store that had no orphans. */
  lemma CollectionRestores(db: Db, db': Db)
    requires WellFormed(db) && OnlyOrphansAdded(db, db') && Unreferenced(db, None) == {}
    ensures Collect(db', None) == db
  {
    forall k | k in db' ensures k in Unreferenced(db', None) <==> k !in db {
      if k in db && k.BlobKey? {
        assert Referenced(db, k) by {
          assert k !in Unreferenced(db, None);
        }
        var r :| r in db && k in BlobRefs(db[r]);
        assert Referenced(db', k);
      }
    }
  }

  // ------------------------------------------------------------ compensation in detail

  function BlobKeys(ids: set<Id>): set<Key> {
    set id | id in ids :: BlobKey(id)
  }

  /** Blobs put so far are all remembered, but for the one whose identity came out changed. */
  lemma {:induction false} PutsAreRemembered(db: Db, a: Archive, f: Faults, k: nat)
    requires k <= |a.blobs|
    ensures var p := PutBlobs(db, a, f, k);
            && (p.error != Some(ChangedIdentity) ==> p.db.Keys == db.Keys + BlobKeys(p.created))
            && (p.error == Some(ChangedIdentity) ==>
                  exists id :: p.db.Keys <= db.Keys + BlobKeys(p.created) + {BlobKey(id)})
            && (p.error.Some? ==> p.error == Some(ChangedIdentity) || p.error == Some(PutFailed))
    decreases k
  {
    if k > 0 {
      PutsAreRemembered(db, a, f, k - 1);
      var p := PutBlobs(db, a, f, k - 1);
      var b := a.blobs[k - 1];
      var q := PutBlob(p.db, p.created, b, k - 1 in f.puts);
      if p.error.None? {
        assert BlobKeys(p.created + {b.id}) == BlobKeys(p.created) + {BlobKey(b.id)};
        assert q.db.Keys <= db.Keys + BlobKeys(p.created) + {BlobKey(b.id)};
      }
    }
  }

  /** When the compensation itself works, a failed import leaves the store as it was; only a
      blob that came out with a changed identity may stay behind, and it is one blob. */
  lemma CompensatedFailureRestores(db: Db, a: Archive, stamp: Stamp, f: Faults)
    requires WellFormed(db) && Typed(a) && !f.compensation
    ensures var o := ImportArchive(db, a, stamp, f);
            && (o.error.Some? && o.error != Some(ChangedIdentity) ==> o.db == db)
            && (o.error == Some(ChangedIdentity) ==> exists id :: o.db.Keys <= db.Keys + {BlobKey(id)})
  {
    hide WellFormed, Check, Statements, Transaction, PutBlobs, Referenced;
    PutsAddOrphans(db, a, f, |a.blobs|);
    CreatedAreNew(db, a, f, |a.blobs|);
    PutsAreRemembered(db, a, f, |a.blobs|);
    var p := PutBlobs(db, a, f, |a.blobs|);
    var o := ImportArchive(db, a, stamp, f);
    if o.error.Some? && Check(db, a).None? {
      FailureCompensates(db, a, stamp, f);
      CompensationTakesAll(db, p.db, p.created);
      if p.error == Some(ChangedIdentity) {
        var id :| p.db.Keys <= db.Keys + BlobKeys(p.created) + {BlobKey(id)};
        assert o.db.Keys <= db.Keys + {BlobKey(id)};
      } else {
        assert o.db.Keys == db.Keys;
      }
    } else if o.error.Some? {
      assert o.db.Keys <= db.Keys + {BlobKey("")};
    }
  }

  lemma {:induction false} FailureCompensates(db: Db, a: Archive, stamp: Stamp, f: Faults)
    requires Typed(a) && Check(db, a).None? && ImportArchive(db, a, stamp, f).error.Some?
    ensures var p := PutBlobs(db, a, f, |a.blobs|); ImportArchive(db, a, stamp, f).db == Compensate(p.db, p.created, f)
    ensures var p := PutBlobs(db, a, f, |a.blobs|); p.error.Some? ==> ImportArchive(db, a, stamp, f).error == p.error
    ensures var p := PutBlobs(db, a, f, |a.blobs|); p.error.None? ==> ImportArchive(db, a, stamp, f).error == Some(TransactionFailed)
  {
    hide Check, Statements, Transaction, PutBlobs, Compensate;
  }

  lemma CompensationTakesAll(db: Db, now: Db, created: set<Id>)
    requires OnlyOrphansAdded(db, now) && forall id | id in created :: BlobKey(id) !in db
    ensures Collect(now, Some(created)).Keys == now.Keys - BlobKeys(created)
    ensures forall k | k in Collect(now, Some(created)) && k in db :: Collect(now, Some(created))[k] == db[k]
  {
    hide Referenced;
    forall k | k in now ensures k in Unreferenced(now, Some(created)) <==> k in BlobKeys(created) {
      if k.BlobKey? && k.id in created {
        assert k == BlobKey(k.id) && k !in db;
      }
    }
  }

  // ------------------------------------------------------------ success holds the archive

  /** `db` with `rows` added, each under its own key. */
  ghost predicate Extended(db: Db, rows: seq<Row>, db': Db) {
    && (forall k | k in db :: k in db' && db'[k] == db[k])
    && (forall k | k in db' && k !in db :: exists r | r in rows :: KeyOf(r) == k)
    && (forall r | r in rows :: KeyOf(r) !in db && KeyOf(r) in db' && db'[KeyOf(r)] == r)
  }

  lemma {:induction false} InsertsExtend(db: Db, rows: seq<Row>)
    ensures var t := Transaction(db, Inserts(rows));
            t.Some? ==> Extended(db, rows, t.value) && NoDuplicates(Keys(rows)) && forall r | r in rows :: !Refuses(Insert(r))
    decreases |rows|
  {
    hide Execute, Refuses;
    if rows != [] {
      var front, last := rows[..|rows| - 1], rows[|rows| - 1];
      assert Inserts(rows)[..|rows| - 1] == Inserts(front);
      InsertsExtend(db, front);
      var t := Transaction(db, Inserts(front));
      if t.Some? {
        InsertAdds(t.value, last);
        assert rows == front + [last];
        if Transaction(db, Inserts(rows)).Some? {
          DistinctNext(front, last);
        }
      }
    }
  }

  lemma InsertAdds(db: Db, r: Row)
    ensures var t := Execute(db, Insert(r)); t.Some? ==> KeyOf(r) !in db && t.value == db[KeyOf(r) := r]
  {
  }

  lemma DistinctNext(rows: seq<Row>, r: Row)
    requires NoDuplicates(Keys(rows)) && forall x | x in rows :: KeyOf(x) != KeyOf(r)
    ensures NoDuplicates(Keys(rows + [r]))
  {
    var all := Keys(rows + [r]);
    forall i, j | 0 <= i < j < |all| ensures all[i] != all[j] {
      assert all[i] == Keys(rows)[i] == KeyOf(rows[i]);
      assert rows[i] in rows;
      if j < |rows| {
        assert all[j] == Keys(rows)[j];
      }
    }
  }

  /** The store after a successful transaction on `db`. */
  ghost predicate Holds(db: Db, a: Archive, stamp: Stamp, db': Db)
    requires Typed(a)
  {
    var s := a.session.id;
    && (forall k | k in db :: k in db' && db'[k] == db[k])
    && (forall k | k in db' && k !in db ::
          k == SessionKey(s) || k == SequenceKey(s) || exists r | r in Records(a) :: KeyOf(r) == k)
    && SessionKey(s) !in db && SequenceKey(s) !in db
    && SessionKey(s) in db' && db'[SessionKey(s)] == ReadonlySession(a, stamp)
    && SequenceKey(s) in db' && db'[SequenceKey(s)] == SequenceRow(s, NextSequence(a.events, 1))
    && (forall r | r in Records(a) :: KeyOf(r) !in db && KeyOf(r) in db' && db'[KeyOf(r)] == r)
  }

  lemma RecordKeys(a: Archive, r: Row)
    requires Typed(a) && r in Records(a)
    ensures IsEvidence(KeyOf(r)) && !KeyOf(r).SessionKey?
  {
  }

  lemma {:induction false} TransactionNext(db: Db, statements: seq<Statement>, last: Statement)
    ensures var t := Transaction(db, statements);
            Transaction(db, statements + [last]) == if t.None? then None else Perform(t.value, last)
  {
    assert (statements + [last])[..|statements|] == statements;
  }

  lemma {:induction false} CommittedHolds(db: Db, a: Archive, stamp: Stamp)
    requires Typed(a)
    ensures var t := Transaction(db, Statements(a, stamp)); t.Some? ==> Holds(db, a, stamp, t.value) && NoDuplicates(Keys(Rows(a))) && AllEnded(a) && EndFits(a, stamp)
  {
    hide Execute, Refuses, AllEnded, EndFits, Records, NextSequence, Transaction, Unique, ImportMetadata;
    var s := a.session.id;
    var inserts := Inserts(Rows(a));
    var counter := Update(SequenceKey(s), SequenceRow(s, NextSequence(a.events, 1)));
    var readonly := Update(SessionKey(s), ReadonlySession(a, stamp));
    var all := Statements(a, stamp);
    assert all == (inserts + [counter]) + [readonly];
    TransactionNext(db, inserts + [counter], readonly);
    TransactionNext(db, inserts, counter);
    if Transaction(db, all).Some? {
      InsertsExtend(db, Rows(a));
      UpdateReplaces(Transaction(db, inserts).value, SequenceKey(s), SequenceRow(s, NextSequence(a.events, 1)));
      UpdateReplaces(Transaction(db, inserts + [counter]).value, SessionKey(s), ReadonlySession(a, stamp));
      FirstRows(a);
      RefusedExactly(a, stamp);
      forall r | r in Records(a) ensures IsEvidence(KeyOf(r)) && !KeyOf(r).SessionKey? && r in Rows(a) {
        RecordKeys(a, r);
      }
    }
  }

  lemma UpdateReplaces(db: Db, k: Key, r: Row)
    requires KeyOf(r) == k
    ensures var t := Execute(db, Update(k, r)); t.Some? ==> k in db && t.value == db[k := r]
  {
    if Execute(db, Update(k, r)).Some? {
      assert (db - {k})[k := r] == db[k := r];
    }
  }

  lemma FirstRows(a: Archive)
    requires Typed(a)
    ensures InitialSession(a) in Rows(a) && KeyOf(InitialSession(a)) == SessionKey(a.session.id)
    ensures SequenceRow(a.session.id, 1) in Rows(a)
    ensures forall r | r in Rows(a) :: r in Records(a) || KeyOf(r) == SessionKey(a.session.id) || KeyOf(r) == SequenceKey(a.session.id)
  {
    hide Records;
    assert Rows(a)[0] == InitialSession(a) && Rows(a)[1] == SequenceRow(a.session.id, 1);
  }

  /** A row of the archive stands in the list for its table. */
  lemma RowsByTable(a: Archive, r: Row)
    requires Typed(a) && (r in Rows(a) || r in Records(a))
    ensures match r
            case ExchangeRow(_, _, _, _, _, _, _, _, _) => r in a.exchanges
            case EventRow(_, _, _, _, _, _, _) => r in a.events
            case NormalizationRow(_, _, _, _, _) => r in a.normalizations
            case ChangeRow(_, _, _, _) => r in a.changes
            case EdgeRow(_, _, _, _, _, _) => r in a.edges
            case AnalysisRow(_, _, _, _, _, _) => r in a.analyses
            case RedactionRow(_, _, _, _) => r in a.redactions
            case SessionRow(_, _, _, _, _, _, _, _, _) => r == InitialSession(a)
            case SequenceRow(session, _) => session == a.session.id
            case BlobRow(_, _, _) => false
  {
  }

  lemma ListedAreRecords(a: Archive)
    requires Typed(a)
    ensures forall r | r in a.exchanges + a.events :: r in Records(a) && r in Rows(a)
  {
  }

  /** The archive's evidence: its session, now read-only, and its records. */
  ghost predicate IsArchived(rows: map<Key, Row>, a: Archive, stamp: Stamp)
    requires Typed(a)
  {
    && (forall k | k in rows :: rows[k] == ReadonlySession(a, stamp) || rows[k] in Records(a))
    && (forall r | r == ReadonlySession(a, stamp) || r in Records(a) :: KeyOf(r) in rows && rows[KeyOf(r)] == r)
  }

  lemma RecordsAreOwned(db: Db, a: Archive, stamp: Stamp, db': Db, r: Row)
    requires Typed(a) && Related(a) && Holds(db, a, stamp, db') && r in Records(a)
    ensures Owner(db', r) == Some(a.session.id)
  {
    hide Records;
    RowsByTable(a, r);
    ListedAreRecords(a);
    RecordKeys(a, r);
    match r {
      case NormalizationRow(exchange, _, _, _, _) =>
        var x :| x in a.exchanges && x.id == exchange;
        assert KeyOf(x) == ExchangeKey(exchange);
      case ChangeRow(event, _, _, _) =>
        var x :| x in a.events && x.id == event;
        assert KeyOf(x) == EventKey(event);
      case _ =>
    }
  }

  lemma OwnerHasSession(db: Db, k: Key)
    requires WellFormed(db) && k in db && Owner(db, db[k]).Some?
    ensures SessionKey(Owner(db, db[k]).value) in db
  {
    hide SequencesUnique, ReferencesHold;
    RowReferences(db, k);
    assert KeyOf(db[k]) == k;
    match db[k] {
      case NormalizationRow(exchange, _, _, _, _) =>
        var p := ExchangeKey(exchange);
        RowReferences(db, p);
        assert SessionKey(db[p].session) in Parents(db[p]);
      case ChangeRow(event, _, _, _) =>
        var p := EventKey(event);
        RowReferences(db, p);
        assert SessionKey(db[p].session) in Parents(db[p]);
      case SessionRow(id, _, _, _, _, _, _, _, _) =>
      case BlobRow(_, _, _) =>
      case _ => assert SessionKey(db[k].session) in Parents(db[k]);
    }
  }

  lemma OldRowsKeepOwner(db: Db, a: Archive, stamp: Stamp, db': Db, k: Key)
    requires WellFormed(db) && Typed(a) && Holds(db, a, stamp, db') && k in db
    ensures Owner(db', db'[k]) == Owner(db, db[k]) != Some(a.session.id)
  {
    hide SequencesUnique, Records, Owner;
    RowReferences(db, k);
    OwnerOfSupersets(db, db', k);
    if Owner(db, db[k]).Some? {
      OwnerHasSession(db, k);
    }
  }

  lemma HeldEvidence(db: Db, a: Archive, stamp: Stamp, db': Db)
    requires WellFormed(db) && Typed(a) && Related(a) && Holds(db, a, stamp, db')
    ensures IsArchived(Evidence(db', a.session.id), a, stamp)
    ensures Readonly(db', a.session.id)
    ensures forall id | id != a.session.id :: Evidence(db', id) == Evidence(db, id)
  {
    hide Owner, Records, WellFormed, NextSequence, Unique, ImportMetadata, Related;
    var s := a.session.id;
    forall k | k in db ensures Owner(db', db'[k]) == Owner(db, db[k]) != Some(s) {
      OldRowsKeepOwner(db, a, stamp, db', k);
    }
    forall r | r in Records(a) ensures Owner(db', r) == Some(s) && IsEvidence(KeyOf(r)) && !KeyOf(r).SessionKey? {
      RecordsAreOwned(db, a, stamp, db', r);
      RecordKeys(a, r);
    }
    SessionOwnsItself(db', ReadonlySession(a, stamp));
  }

  /** On success the session's evidence is exactly the archive's, every other session's is
      untouched, and every referenced blob is stored with the declared identity. */
  lemma SuccessHoldsArchive(db: Db, a: Archive, stamp: Stamp, f: Faults)
    requires WellFormed(db) && Typed(a)
    ensures var o := ImportArchive(db, a, stamp, f);
            o.error.None? ==>
              && WellFormed(o.db) && Readonly(o.db, a.session.id)
              && IsArchived(Evidence(o.db, a.session.id), a, stamp)
              && (forall id | id != a.session.id :: Evidence(o.db, id) == Evidence(db, id))
              && (forall b | b in a.blobs ::
                    BlobKey(b.id) in o.db && o.db[BlobKey(b.id)].BlobRow? && o.db[BlobKey(b.id)].record == b.identity)
  {
    hide WellFormed, Holds, Evidence, IsArchived, PutBlobs, Statements, Transaction, Related, Unrepeated, NoConflict;
    var o := ImportArchive(db, a, stamp, f);
    if o.error.None? {
      var p := PutBlobs(db, a, f, |a.blobs|);
      PutsAddOrphans(db, a, f, |a.blobs|);
      PutsKeepWellFormed(db, p.db);
      CommittedHolds(p.db, a, stamp);
      HeldEvidence(p.db, a, stamp, o.db);
      TransactionKeepsWellFormed(p.db, Statements(a, stamp));
      forall id | id != a.session.id ensures Evidence(o.db, id) == Evidence(db, id) {
        OrphansOwnNothing(db, p.db, id);
      }
      PutsStoreBlobs(db, a, f, |a.blobs|);
      forall b | b in a.blobs
        ensures BlobKey(b.id) in o.db && o.db[BlobKey(b.id)].BlobRow? && o.db[BlobKey(b.id)].record == b.identity
      {
        HoldsKeeps(p.db, a, stamp, o.db, BlobKey(b.id));
      }
    }
  }

  lemma HoldsKeeps(db: Db, a: Archive, stamp: Stamp, db': Db, k: Key)
    requires Typed(a) && Holds(db, a, stamp, db') && k in db
    ensures k in db' && db'[k] == db[k]
  {
  }

  lemma PutsKeepWellFormed(db: Db, now: Db)
    requires WellFormed(db) && OnlyOrphansAdded(db, now)
    ensures WellFormed(now)
  {
    hide SameSequence, Parents, Referenced, ReferencesHold;
    assert ReferencesHold(now) by {
      PutsKeepReferences(db, now);
    }
    forall k, k' | k in now && k' in now && SameSequence(now[k], now[k']) ensures k == k' {
      if now[k].BlobRow? || now[k'].BlobRow? {
        BlobsHaveNoSequence(now[k], now[k']);
      }
      assert k in db && k' in db;
    }
  }

  lemma BlobsHaveNoSequence(a: Row, b: Row)
    requires a.BlobRow? || b.BlobRow?
    ensures !SameSequence(a, b)
  {
  }

  lemma PutsKeepReferences(db: Db, now: Db)
    requires ReferencesHold(db) && OnlyOrphansAdded(db, now)
    ensures ReferencesHold(now)
  {
    hide Referenced;
    forall k | k in now ensures Parents(now[k]) <= now.Keys {
      if k in db {
        RowReferences(db, k);
      }
    }
  }

  lemma {:induction false} TransactionKeepsWellFormed(db: Db, statements: seq<Statement>)
    requires WellFormed(db)
    ensures Transaction(db, statements).Some? ==> WellFormed(Transaction(db, statements).value)
    decreases |statements|
  {
    hide WellFormed, Execute;
    if statements != [] {
      var front := statements[..|statements| - 1];
      TransactionKeepsWellFormed(db, front);
      if Transaction(db, front).Some? {
        StepKeepsWellFormed(Transaction(db, front).value, statements[|statements| - 1]);
      }
    }
  }

  lemma OrphansOwnNothing(db: Db, now: Db, id: Id)
    requires WellFormed(db) && OnlyOrphansAdded(db, now)
    ensures Evidence(now, id) == Evidence(db, id)
  {
    hide SequencesUnique, Referenced;
    forall k | k in db ensures Owner(now, db[k]) == Owner(db, db[k]) {
      RowReferences(db, k);
      OwnerOfSupersets(db, now, k);
    }
  }

  lemma OwnerOfSupersets(db: Db, now: Db, k: Key)
    requires k in db && Parents(db[k]) <= db.Keys && forall p | p in db :: p in now && now[p] == db[p]
    ensures Owner(now, db[k]) == Owner(db, db[k])
  {
  }

  lemma {:induction false} PutsStoreBlobs(db: Db, a: Archive, f: Faults, k: nat)
    requires k <= |a.blobs|
    ensures var p := PutBlobs(db, a, f, k);
            p.error.None? ==>
              && (forall i | 0 <= i < k ::
                    BlobKey(a.blobs[i].id) in p.db && p.db[BlobKey(a.blobs[i].id)].BlobRow?
                    && p.db[BlobKey(a.blobs[i].id)].record == a.blobs[i].identity)
    decreases k
  {
    if k > 0 {
      PutsStoreBlobs(db, a, f, k - 1);
    }
  }

  // ------------------------------------------------------------ when an import succeeds

  /** Storing the blob gives the declared identity. */
  predicate IdentityKept(db: Db, b: ArchiveBlob) {
    var k := BlobKey(b.id);
    if k in db then db[k].BlobRow? && db[k].record == b.identity else b.storedIdentity == b.identity
  }

  ghost predicate BlobsFine(db: Db, a: Archive, f: Faults, k: nat)
    requires k <= |a.blobs|
  {
    forall i | 0 <= i < k :: i !in f.puts && IdentityKept(db, a.blobs[i])
  }

  lemma PutSucceedsExactly(db: Db, now: Db, created: set<Id>, b: ArchiveBlob, fails: bool)
    requires BlobKey(b.id) in now <==> BlobKey(b.id) in db
    requires forall key | key in db :: key in now && now[key] == db[key]
    ensures var p := PutBlob(now, created, b, fails);
            && (p.error.None? <==> !fails && IdentityKept(db, b))
            && (forall key | key in p.db && key !in now :: key == BlobKey(b.id))
            && (forall key | key in now :: key in p.db && p.db[key] == now[key])
  {
  }

  lemma {:induction false} PutsSucceedExactly(db: Db, a: Archive, f: Faults, k: nat)
    requires k <= |a.blobs|
    requires NoDuplicates(seq(|a.blobs|, i requires 0 <= i < |a.blobs| => a.blobs[i].id))
    ensures PutBlobs(db, a, f, k).error.None? <==> BlobsFine(db, a, f, k)
    ensures forall key | key in PutBlobs(db, a, f, k).db && key !in db :: exists i | 0 <= i < k :: key == BlobKey(a.blobs[i].id)
    ensures forall key | key in db :: key in PutBlobs(db, a, f, k).db && PutBlobs(db, a, f, k).db[key] == db[key]
    decreases k
  {
    hide PutBlob, IdentityKept;
    if k > 0 {
      PutsSucceedExactly(db, a, f, k - 1);
      var p := PutBlobs(db, a, f, k - 1);
      var b := a.blobs[k - 1];
      EarlierBlobsDiffer(a, k - 1);
      PutSucceedsExactly(db, p.db, p.created, b, k - 1 in f.puts);
      assert BlobsFine(db, a, f, k) <==> BlobsFine(db, a, f, k - 1) && k - 1 !in f.puts && IdentityKept(db, b);
    }
  }

  lemma EarlierBlobsDiffer(a: Archive, k: nat)
    requires k < |a.blobs|
    requires NoDuplicates(seq(|a.blobs|, i requires 0 <= i < |a.blobs| => a.blobs[i].id))
    ensures forall i | 0 <= i < k :: a.blobs[i].id != a.blobs[k].id
  {
    var ids := seq(|a.blobs|, i requires 0 <= i < |a.blobs| => a.blobs[i].id);
    forall i | 0 <= i < k ensures a.blobs[i].id != a.blobs[k].id {
      assert ids[i] != ids[k];
    }
  }

  predicate AllEnded(a: Archive)
    requires Typed(a)
  {
    forall r | r in a.exchanges :: r.endedAt.Some?
  }

  /** A session without an end is given the time of the import, which must not come too early. */
  predicate EndFits(a: Archive, stamp: Stamp)
    requires Typed(a)
  {
    a.session.endedAt.Some? || a.session.startedAt <= stamp.at
  }

  lemma RefusedExactly(a: Archive, stamp: Stamp)
    requires Typed(a)
    ensures (forall r | r in Rows(a) :: !Refuses(Insert(r))) <==> AllEnded(a)
    ensures Refuses(Update(SessionKey(a.session.id), ReadonlySession(a, stamp))) <==> !EndFits(a, stamp)
  {
    hide Records;
    FirstRows(a);
    ListedAreRecords(a);
    forall r | r in Rows(a) ensures Refuses(Insert(r)) <==> r.ExchangeRow? && r.endedAt.None? {
      RowsByTable(a, r);
    }
    forall r | r in Rows(a) && r.ExchangeRow? ensures r in a.exchanges {
      RowsByTable(a, r);
    }
    forall r | r in a.exchanges ensures r in Rows(a) {
      assert r in a.exchanges + a.events;
    }
  }

  /** What the tables demand of the row inserted next. */
  predicate Fits(db: Db, r: Row) {
    && KeyOf(r) !in db
    && !InsertGuard(db, r)
    && Parents(r) <= db.Keys
    && forall k | k in db :: !SameSequence(db[k], r) && !SameSequence(r, db[k])
  }

  lemma Positions(a: Archive)
    requires Typed(a)
    ensures |Rows(a)| >= 2 + |a.exchanges| + |a.events|
    ensures Rows(a)[0] == InitialSession(a)
    ensures forall k | 0 <= k < |a.exchanges| :: Rows(a)[2 + k] == a.exchanges[k]
    ensures forall k | 0 <= k < |a.events| :: Rows(a)[2 + |a.exchanges| + k] == a.events[k]
  {
  }

  /** Rows are listed after the rows they refer to. */
  lemma ParentsComeEarlier(a: Archive, i: nat, p: Key) returns (j: nat)
    requires Typed(a) && Related(a) && i < |Rows(a)| && p in Parents(Rows(a)[i]) && !p.BlobKey?
    ensures j < i && KeyOf(Rows(a)[j]) == p
  {
    hide Rows, Related, Parents;
    Positions(a);
    RelatedParents(a, Rows(a)[i], p);
    SegmentOf(a, i);
    if p == SessionKey(a.session.id) {
      FirstHasNoParents(a, i, p);
      j := 0;
    } else if p.ExchangeKey? {
      var k :| 0 <= k < |a.exchanges| && a.exchanges[k].id == p.id;
      assert a.exchanges[k] in a.exchanges;
      j := 2 + k;
    } else {
      var k :| 0 <= k < |a.events| && a.events[k].id == p.id;
      assert a.events[k] in a.events;
      j := 2 + |a.exchanges| + k;
    }
  }

  lemma FirstHasNoParents(a: Archive, i: nat, p: Key)
    requires Typed(a) && i < |Rows(a)| && p in Parents(Rows(a)[i])
    ensures i > 0
  {
    hide Records;
  }

  lemma RelatedParents(a: Archive, r: Row, p: Key)
    requires Typed(a) && Related(a) && r in Rows(a) && p in Parents(r) && !p.BlobKey?
    ensures || p == SessionKey(a.session.id)
            || (p.ExchangeKey? && (r.EventRow? || r.NormalizationRow?) && exists k | 0 <= k < |a.exchanges| :: a.exchanges[k].id == p.id)
            || (p.EventKey? && (r.ChangeRow? || r.EdgeRow? || r.AnalysisRow?) && exists k | 0 <= k < |a.events| :: a.events[k].id == p.id)
  {
    hide Rows, Records;
    RowsByTable(a, r);
  }

  /** Where a row stands in the order of insertion. */
  lemma SegmentOf(a: Archive, i: nat)
    requires Typed(a) && i < |Rows(a)|
    ensures var r, x, e := Rows(a)[i], |a.exchanges|, |a.events|;
            && (r.EventRow? || r.NormalizationRow? ==> i >= 2 + x)
            && (r.ChangeRow? || r.EdgeRow? || r.AnalysisRow? ==> i >= 2 + x + e)
  {
    var rows := Rows(a);
    var x, e := |a.exchanges|, |a.events|;
    if 2 <= i < 2 + x {
      assert rows[i] == a.exchanges[i - 2];
      assert rows[i] in a.exchanges;
    } else if 2 + x <= i < 2 + x + e {
      assert rows[i] == a.events[i - 2 - x];
      assert rows[i] in a.events;
    }
  }

  /** The store while the rows of `a` are being inserted: `i` of them so far. */
  ghost predicate Inserting(db: Db, a: Archive, i: nat, now: Db)
    requires Typed(a) && i <= |Rows(a)|
  {
    WellFormed(now) && Extended(db, Rows(a)[..i], now)
  }

  ghost predicate ReadyFor(db: Db, a: Archive)
    requires Typed(a)
  {
    && AllEnded(a) && WellFormed(db) && Related(a) && Unrepeated(a) && NoConflict(db, a)
    && NoDuplicates(Keys(Records(a))) && RequiredBlobs(a) <= db.Keys
  }

  /** A key that is new to the store and that every row under the key of `r` would refer to. */
  lemma NewAnchor(db: Db, a: Archive, r: Row) returns (p: Key)
    requires Typed(a) && Related(a) && NoConflict(db, a) && r in Rows(a)
    ensures p !in db && (p == KeyOf(r) || forall row | KeyOf(row) == KeyOf(r) :: p in Parents(row))
  {
    hide Rows, Records;
    RowsByTable(a, r);
    match r {
      case NormalizationRow(exchange, _, _, _, _) =>
        var x :| x in a.exchanges && x.id == exchange;
        p := KeyOf(x);
      case ChangeRow(event, _, _, _) =>
        var x :| x in a.events && x.id == event;
        p := KeyOf(x);
      case SequenceRow(_, _) => p := SessionKey(a.session.id);
      case EdgeRow(_, _, _, _, _, _) => p := SessionKey(a.session.id);
      case _ => p := KeyOf(r);
    }
  }

  lemma NewKeys(db: Db, a: Archive, r: Row)
    requires Typed(a) && WellFormed(db) && Related(a) && NoConflict(db, a) && r in Rows(a)
    ensures KeyOf(r) !in db
  {
    hide SequencesUnique, Records, Related, NoConflict, Parents, Rows;
    var p := NewAnchor(db, a, r);
    if KeyOf(r) in db {
      assert KeyOf(db[KeyOf(r)]) == KeyOf(r);
      RowReferences(db, KeyOf(r));
    }
  }

  /** The next row fits: its key is new, its session is not yet read-only, its parents are
      there, and its sequence number is free. */
  lemma NextRowFits(db: Db, a: Archive, i: nat, now: Db)
    requires Typed(a) && ReadyFor(db, a) && i < |Rows(a)| && Inserting(db, a, i, now)
    ensures Fits(now, Rows(a)[i])
  {
    hide Rows, Related, Unrepeated, NoConflict, SequencesUnique, Parents, InsertGuard, SameSequence;
    var r := Rows(a)[i];
    assert r in Rows(a);
    NewKeys(db, a, r);
    RowsAreDistinct(a);
    EarlierKeysDiffer(Rows(a), i);
    forall p | p in Parents(r) ensures p in now {
      if p.BlobKey? {
        RowBlobsAreRequired(a, r, p);
      } else {
        var j := ParentsComeEarlier(a, i, p);
        assert Rows(a)[..i][j] == Rows(a)[j];
        assert Rows(a)[j] in Rows(a)[..i];
      }
    }
    NoGuardYet(db, a, i, now);
    forall k | k in now ensures !SameSequence(now[k], r) && !SameSequence(r, now[k]) {
      SequenceIsFree(db, a, i, now, k);
    }
  }

  lemma EarlierKeysDiffer(rows: seq<Row>, i: nat)
    requires i < |rows| && NoDuplicates(Keys(rows))
    ensures forall x | x in rows[..i] :: KeyOf(x) != KeyOf(rows[i])
  {
    forall j | 0 <= j < i ensures KeyOf(rows[j]) != KeyOf(rows[i]) {
      assert Keys(rows)[j] != Keys(rows)[i];
    }
  }

  lemma SameKeySameRow(rows: seq<Row>, x: Row, y: Row)
    requires NoDuplicates(Keys(rows)) && x in rows && y in rows && KeyOf(x) == KeyOf(y)
    ensures x == y
  {
    hide KeyOf;
    var i :| 0 <= i < |rows| && rows[i] == x;
    var j :| 0 <= j < |rows| && rows[j] == y;
    assert Keys(rows)[i] == Keys(rows)[j];
  }

  lemma InsertedAreListed(db: Db, a: Archive, i: nat, now: Db, x: Row)
    requires Typed(a) && ReadyFor(db, a) && i <= |Rows(a)| && Inserting(db, a, i, now)
    requires x in Rows(a) && KeyOf(x) in now
    ensures now[KeyOf(x)] == x
  {
    hide Rows, SequencesUnique, ReferencesHold, NoDuplicates, Keys, RequiredBlobs, Related, Unrepeated, NoConflict, KeyOf;
    NewKeys(db, a, x);
    RowsAreDistinct(a);
    var y :| y in Rows(a)[..i] && KeyOf(y) == KeyOf(x);
    SameKeySameRow(Rows(a), x, y);
  }

  lemma RowBlobsAreRequired(a: Archive, r: Row, p: Key)
    requires Typed(a) && r in Rows(a) && p in Parents(r) && p.BlobKey?
    ensures p in RequiredBlobs(a)
  {
    FirstRows(a);
    BlobParentIsReference(r, p);
  }

  lemma RowsAreDistinct(a: Archive)
    requires Typed(a) && NoDuplicates(Keys(Records(a)))
    ensures NoDuplicates(Keys(Rows(a)))
  {
    hide Records;
    var rows, records := Rows(a), Records(a);
    forall i, j | 0 <= i < j < |rows| ensures Keys(rows)[i] != Keys(rows)[j] {
      if j >= 2 {
        assert rows[j] == records[j - 2] && records[j - 2] in records;
        RecordKeys(a, records[j - 2]);
        if i >= 2 {
          assert Keys(records)[i - 2] != Keys(records)[j - 2];
        }
      }
    }
  }

  /** Rows of the archive all belong to its session, which is read-only last. */
  lemma NoGuardYet(db: Db, a: Archive, i: nat, now: Db)
    requires Typed(a) && ReadyFor(db, a) && i < |Rows(a)| && Inserting(db, a, i, now)
    ensures !InsertGuard(now, Rows(a)[i])
  {
    hide Rows, Records, SequencesUnique, ReferencesHold, NoDuplicates, Keys, RequiredBlobs, InsertGuard, Related, Unrepeated, NoConflict;
    FirstRows(a);
    ListedAreRecords(a);
    forall x | x in Rows(a) && KeyOf(x) in now ensures now[KeyOf(x)] == x {
      InsertedAreListed(db, a, i, now, x);
    }
    RowGuard(a, Rows(a)[i], now);
  }

  lemma RowGuard(a: Archive, r: Row, now: Db)
    requires Typed(a) && Related(a) && r in Rows(a) && !Readonly(now, a.session.id)
    requires forall x | x in a.exchanges + a.events :: KeyOf(x) in now ==> now[KeyOf(x)] == x
    ensures !InsertGuard(now, r)
  {
    hide Rows, Records;
    RowsByTable(a, r);
    match r {
      case NormalizationRow(exchange, _, _, _, _) =>
        var x :| x in a.exchanges && x.id == exchange;
        assert x in a.exchanges + a.events;
      case ChangeRow(event, _, _, _) =>
        var x :| x in a.events && x.id == event;
        assert x in a.exchanges + a.events;
      case _ =>
    }
  }

  lemma SequencedPosition(a: Archive, i: nat)
    requires Typed(a) && i < |Rows(a)|
    ensures var r, x := Rows(a)[i], |a.exchanges|;
            && (r.ExchangeRow? ==> 2 <= i < 2 + x && r == a.exchanges[i - 2] && r in a.exchanges)
            && (r.EventRow? ==> 2 + x <= i < 2 + x + |a.events| && r == a.events[i - 2 - x] && r in a.events)
  {
    var rest := a.normalizations + a.changes + a.edges + a.analyses + a.redactions;
    var x, e := |a.exchanges|, |a.events|;
    assert Rows(a) == [InitialSession(a), SequenceRow(a.session.id, 1)] + a.exchanges + a.events + rest;
    if 2 + x + e <= i {
      assert Rows(a)[i] in rest;
    } else if 2 + x <= i {
      assert Rows(a)[i] in a.events;
    } else if 2 <= i {
      assert Rows(a)[i] in a.exchanges;
    }
  }

  /** Sequence numbers are unique inside the archive, and its session is new to the store. */
  lemma SequenceIsFree(db: Db, a: Archive, i: nat, now: Db, k: Key)
    requires Typed(a) && ReadyFor(db, a) && i < |Rows(a)| && Inserting(db, a, i, now) && k in now
    ensures !SameSequence(now[k], Rows(a)[i]) && !SameSequence(Rows(a)[i], now[k])
  {
    hide Rows, SequencesUnique, NoDuplicates, Keys, RequiredBlobs;
    SequencedPosition(a, i);
    if k in db {
      RowReferences(db, k);
    } else {
      var x :| x in Rows(a)[..i] && KeyOf(x) == k;
      var j :| 0 <= j < i && Rows(a)[..i][j] == x;
      SequencedPosition(a, j);
    }
  }

  lemma ReadyIsWellFormed(db: Db, a: Archive)
    requires Typed(a) && ReadyFor(db, a)
    ensures WellFormed(db) && AllEnded(a)
  {
  }

  lemma ExtendedNext(db: Db, rows: seq<Row>, now: Db, r: Row)
    requires Extended(db, rows, now) && KeyOf(r) !in now
    ensures Extended(db, rows + [r], now[KeyOf(r) := r])
  {
    hide KeyOf;
  }

  lemma NextInsertSucceeds(db: Db, a: Archive, i: nat, now: Db)
    requires Typed(a) && ReadyFor(db, a) && i < |Rows(a)| && Inserting(db, a, i, now)
    ensures var t := Perform(now, Insert(Rows(a)[i])); t.Some? && Inserting(db, a, i + 1, t.value)
  {
    hide Rows, ReadyFor, WellFormed, Execute, Extended, Refuses, EndFits;
    var r := Rows(a)[i];
    NextRowFits(db, a, i, now);
    InsertedNext(now, r);
    assert AllEnded(a) by {
      ReadyIsWellFormed(db, a);
    }
    RefusedExactly(a, Stamp(0, "", 0));
    assert r in Rows(a);
    ExtendedNext(db, Rows(a)[..i], now, r);
    assert Rows(a)[..i + 1] == Rows(a)[..i] + [r];
  }

  lemma {:induction false} InsertsSucceed(db: Db, a: Archive, i: nat)
    requires Typed(a) && ReadyFor(db, a) && i <= |Rows(a)|
    ensures var t := Transaction(db, Inserts(Rows(a)[..i])); t.Some? && Inserting(db, a, i, t.value)
    decreases i
  {
    hide Execute, ReadyFor, Rows, WellFormed;
    if i == 0 {
      ReadyIsWellFormed(db, a);
    } else {
      InsertsSucceed(db, a, i - 1);
      var front, last := Rows(a)[..i - 1], Rows(a)[i - 1];
      assert Inserts(Rows(a)[..i]) == Inserts(front) + [Insert(last)];
      TransactionNext(db, Inserts(front), Insert(last));
      NextInsertSucceeds(db, a, i - 1, Transaction(db, Inserts(front)).value);
    }
  }

  /** An update that keeps the key and every reference of the row. */
  lemma SameKeyUpdateSucceeds(db: Db, k: Key, r: Row)
    requires WellFormed(db) && k in db && KeyOf(r) == k && SameTable(db[k], r) && !UpdateGuard(db, db[k], r)
    requires r.SessionRow? || r.SequenceRow?
    requires Parents(r) <= db.Keys
    ensures Execute(db, Update(k, r)) == Some(db[k := r])
  {
    hide UpdateGuard, SameTable, KeyOf, Parents;
    assert (db - {k})[k := r] == db[k := r];
    var next := db[k := r];
    forall p | p in next ensures Parents(next[p]) <= next.Keys {
      if p in db {
        RowReferences(db, p);
      }
    }
    forall p, q | p in next && q in next && SameSequence(next[p], next[q]) ensures p == q {
      assert p in db && q in db;
    }
  }

  lemma CounterUpdateSucceeds(db: Db, a: Archive, now: Db, next: nat)
    requires Typed(a) && ReadyFor(db, a) && Inserting(db, a, |Rows(a)|, now)
    ensures var s := a.session.id;
            && Execute(now, Update(SequenceKey(s), SequenceRow(s, next))) == Some(now[SequenceKey(s) := SequenceRow(s, next)])
            && SessionKey(s) in now && now[SessionKey(s)] == InitialSession(a)
  {
    hide Rows, ReadyFor, SequencesUnique, ReferencesHold, Execute;
    var s := a.session.id;
    assert Rows(a)[..|Rows(a)|] == Rows(a);
    FirstRows(a);
    var k, r := SequenceKey(s), SequenceRow(s, next);
    assert KeyOf(SequenceRow(s, 1)) == k && now[k] == SequenceRow(s, 1);
    SameKeyUpdateSucceeds(now, k, r);
  }

  lemma ReadonlyUpdateSucceeds(db: Db, a: Archive, stamp: Stamp)
    requires Typed(a) && WellFormed(db) && SessionKey(a.session.id) in db && db[SessionKey(a.session.id)] == InitialSession(a)
    ensures Execute(db, Update(SessionKey(a.session.id), ReadonlySession(a, stamp))).Some?
  {
    hide WellFormed, Execute;
    SameKeyUpdateSucceeds(db, SessionKey(a.session.id), ReadonlySession(a, stamp));
  }

  lemma CounterIsNotRefused(s: Id, n: nat)
    ensures !Refuses(Update(SequenceKey(s), SequenceRow(s, n)))
  {
  }

  /** The transaction goes through on every store the checks have admitted, provided that the
      records the checks do not compare have distinct keys as well. */
  lemma {:induction false} TransactionSucceeds(db: Db, a: Archive, stamp: Stamp)
    requires Typed(a) && ReadyFor(db, a) && EndFits(a, stamp)
    ensures Transaction(db, Statements(a, stamp)).Some?
  {
    hide Refuses, EndFits, ReadyFor, Rows, WellFormed, Execute, NextSequence, Transaction;
    var s, inserts := a.session.id, Inserts(Rows(a));
    var counter := Update(SequenceKey(s), SequenceRow(s, NextSequence(a.events, 1)));
    var readonly := Update(SessionKey(s), ReadonlySession(a, stamp));
    InsertsSucceed(db, a, |Rows(a)|);
    assert Rows(a)[..|Rows(a)|] == Rows(a);
    var now := Transaction(db, inserts).value;
    CounterUpdateSucceeds(db, a, now, NextSequence(a.events, 1));
    StepKeepsWellFormed(now, counter);
    TransactionNext(db, inserts, counter);
    CounterIsNotRefused(a.session.id, NextSequence(a.events, 1));
    RefusedExactly(a, stamp);
    ReadonlyUpdateSucceeds(Execute(now, counter).value, a, stamp);
    TransactionNext(db, inserts + [counter], readonly);
    assert Statements(a, stamp) == (inserts + [counter]) + [readonly];
  }

  /** After the puts, the records still fit: nothing but blobs was added. */
  lemma {:induction false} ReadyAfterPuts(db: Db, a: Archive, f: Faults)
    requires WellFormed(db) && Typed(a) && Check(db, a).None? && NoDuplicates(Keys(Records(a))) && AllEnded(a)
    requires PutBlobs(db, a, f, |a.blobs|).error.None?
    ensures ReadyFor(PutBlobs(db, a, f, |a.blobs|).db, a)
  {
    hide WellFormed, Related, Unrepeated, PutBlobs, Records, NoDuplicates, AllEnded;
    var now := PutBlobs(db, a, f, |a.blobs|).db;
    PutsAddOrphans(db, a, f, |a.blobs|);
    PutsKeepWellFormed(db, now);
    PutsStoreBlobs(db, a, f, |a.blobs|);
    assert RequiredBlobs(a) <= now.Keys;
    forall r | r in a.events + a.exchanges + a.analyses + a.redactions ensures KeyOf(r) !in now {
    }
  }

  /** The import succeeds exactly when the checks pass, every blob can be stored under its
      declared identity, no statement fails from outside, no two records share a key, every
      exchange has ended, and the session's end, or else the time of the import, does not
      precede its start. The checks imply none of the last three: they leave out the keys of
      edges, file changes and normalization runs, and look at no time. */
  lemma ImportSucceedsExactly(db: Db, a: Archive, stamp: Stamp, f: Faults)
    requires WellFormed(db) && Typed(a)
    ensures ImportArchive(db, a, stamp, f).error.None?
       <==> && Check(db, a).None?
            && BlobsFine(db, a, f, |a.blobs|)
            && !(f.statement.Some? && f.statement.value < |Statements(a, stamp)|)
            && NoDuplicates(Keys(Records(a))) && AllEnded(a) && EndFits(a, stamp)
  {
    hide WellFormed, PutBlobs, Statements, Transaction, BlobsFine, Related, Unrepeated, NoConflict, Records, ReadyFor, AllEnded, EndFits;
    if Check(db, a).None? {
      PutsSucceedExactly(db, a, f, |a.blobs|);
      var p := PutBlobs(db, a, f, |a.blobs|);
      if p.error.None? {
        CommittedHolds(p.db, a, stamp);
        if Transaction(p.db, Statements(a, stamp)).Some? {
          RecordsAreDistinct(a);
        }
        if NoDuplicates(Keys(Records(a))) && AllEnded(a) && EndFits(a, stamp) {
          ReadyAfterPuts(db, a, f);
          TransactionSucceeds(p.db, a, stamp);
        }
      }
    }
  }

  lemma RecordsAreDistinct(a: Archive)
    requires Typed(a) && NoDuplicates(Keys(Rows(a)))
    ensures NoDuplicates(Keys(Records(a)))
  {
    hide Records;
    var rows, records := Rows(a), Records(a);
    forall i, j | 0 <= i < j < |records| ensures Keys(records)[i] != Keys(records)[j] {
      assert rows[i + 2] == records[i] && rows[j + 2] == records[j];
      assert Keys(rows)[i + 2] != Keys(rows)[j + 2];
    }
  }

  // ------------------------------------------------------------ the import on the store

  /** One blob after the other; stops at the first error. */
  method PutAll(store: EvidenceStore, a: Archive, f: Faults) returns (created: set<Id>, error: Option<ImportError>)
    modifies store`db
    ensures Puts(store.db, created, error) == PutBlobs(old(store.db), a, f, |a.blobs|)
  {
    hide PutBlobs;
    created, error := {}, None;
    NoPuts(store.db, a, f);
    for k := 0 to |a.blobs|
      invariant error.None? && Puts(store.db, created, None) == PutBlobs(old(store.db), a, f, k)
    {
      var b := a.blobs[k];
      var existed := BlobKey(b.id) in store.db;
      NextPut(old(store.db), a, f, k);
      if k in f.puts {
        error := Some(PutFailed);
      } else {
        var row := if existed then store.db[BlobKey(b.id)] else BlobRow(b.id, b.stored, b.storedIdentity);
        store.db := store.db[BlobKey(b.id) := row];
        if !row.BlobRow? || row.record != b.identity {
          error := Some(ChangedIdentity);
        } else if !existed {
          created := created + {b.id};
        }
      }
      if error.Some? {
        PutsStop(old(store.db), a, f, k + 1, |a.blobs|);
        return;
      }
    }
  }

  lemma {:induction false} NoPuts(db: Db, a: Archive, f: Faults)
    ensures PutBlobs(db, a, f, 0) == Puts(db, {}, None)
  {
  }

  lemma NextPut(db: Db, a: Archive, f: Faults, k: nat)
    requires k < |a.blobs|
    ensures var p := PutBlobs(db, a, f, k);
            p.error.None? ==> PutBlobs(db, a, f, k + 1) == PutBlob(p.db, p.created, a.blobs[k], k in f.puts)
  {
  }

  lemma {:induction false} PutsStop(db: Db, a: Archive, f: Faults, j: nat, k: nat)
    requires j <= k <= |a.blobs| && PutBlobs(db, a, f, j).error.Some?
    ensures PutBlobs(db, a, f, k) == PutBlobs(db, a, f, j)
    decreases k
  {
    if j < k {
      PutsStop(db, a, f, j, k - 1);
    }
  }

  /** Statement after statement, rolled back as a whole. */
  method Commit(store: EvidenceStore, statements: seq<Statement>, fails: Option<nat>) returns (ok: bool)
    modifies store`db
    ensures var t := if fails.Some? && fails.value < |statements| then None else Transaction(old(store.db), statements);
            ok == t.Some? && store.db == if t.Some? then t.value else old(store.db)
  {
    hide Execute, Refuses;
    var saved := store.db;
    for k := 0 to |statements|
      invariant Transaction(saved, statements[..k]) == Some(store.db)
      invariant fails.Some? ==> k <= fails.value
    {
      assert statements[..k + 1] == statements[..k] + [statements[k]];
      TransactionNext(saved, statements[..k], statements[k]);
      var next := if fails == Some(k) then None else Perform(store.db, statements[k]);
      if next.None? {
        if fails != Some(k) {
          TransactionStops(saved, statements, k + 1);
        }
        store.db := saved;
        return false;
      }
      store.db := next.value;
    }
    assert statements[..|statements|] == statements;
    return true;
  }

  lemma {:induction false} TransactionStops(db: Db, statements: seq<Statement>, k: nat)
    requires k <= |statements| && Transaction(db, statements[..k]).None?
    ensures Transaction(db, statements).None?
    decreases |statements| - k
  {
    if k == |statements| {
      assert statements[..k] == statements;
    } else {
      assert statements[..k + 1] == statements[..k] + [statements[k]];
      TransactionNext(db, statements[..k], statements[k]);
      TransactionStops(db, statements, k + 1);
    }
  }

  method ImportTekrionArchive(store: EvidenceStore, a: Archive, stamp: Stamp, f: Faults) returns (error: Option<ImportError>)
    requires WellFormed(store.db) && Typed(a)
    modifies store`db
    ensures Outcome(store.db, error)
            == if store.readOnly then Outcome(old(store.db), Some(Conflict)) else ImportArchive(old(store.db), a, stamp, f)
  {
    hide Check, PutBlobs, Statements, Transaction, WellFormed, Collect, OnlyOrphansAdded;
    if store.readOnly {
      return Some(Conflict);
    }
    error := Check(store.db, a);
    if error.Some? {
      return;
    }
    var created;
    created, error := PutAll(store, a, f);
    PutsAddOrphans(old(store.db), a, f, |a.blobs|);
    PutsKeepWellFormed(old(store.db), store.db);
    if error.None? {
      var ok := Commit(store, Statements(a, stamp), f.statement);
      error := if ok then None else Some(TransactionFailed);
    }
    if error.Some? && !f.compensation {
      var removed := store.RemoveUnreferenced(Some(created));
    }
  }
}
