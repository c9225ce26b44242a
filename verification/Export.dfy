// Forensic export (apps/daemon/src/archive/tkr-archive.ts): what an export of one session
// lists, and that importing it elsewhere gives the same evidence back.

module Export {
  import opened Wrappers
  import opened Ordering
  import opened Database
  import opened Deletion
  import opened Import

  /** `a` lists each row of the session's evidence once, no exchange of it still recording, and
      every blob those rows reference with the identity it is stored under. */
  ghost predicate Exported(db: Db, s: Id, a: Archive) {
    && Typed(a) && a.agrees && a.referencesAgree && AllEnded(a)
    && SessionKey(s) in db && db[SessionKey(s)] == a.session && a.session.status != Active
    && NoDuplicates(Records(a))
    && (forall r :: r in Records(a) <==> Lists(db, s, r))
    && NoDuplicates(seq(|a.blobs|, i requires 0 <= i < |a.blobs| => a.blobs[i].id))
    && DeclaredBlobs(a) == RequiredBlobs(a)
    && forall b | b in a.blobs :: BlobKey(b.id) in db && db[BlobKey(b.id)] == BlobRow(b.id, b.stored, b.identity)
  }

  predicate Lists(db: Db, s: Id, r: Row) {
    !r.SessionRow? && KeyOf(r) in Evidence(db, s) && db[KeyOf(r)] == r
  }

  lemma ExportedKeysDiffer(db: Db, s: Id, a: Archive)
    requires Exported(db, s, a)
    ensures NoDuplicates(Keys(Records(a)))
  {
    hide Records, Evidence, KeyOf;
    var rows := Records(a);
    forall i, j | 0 <= i < j < |rows| ensures Keys(rows)[i] != Keys(rows)[j] {
      assert Lists(db, s, rows[i]) && Lists(db, s, rows[j]);
      assert rows[i] != rows[j];
    }
  }

  lemma SliceDistinct(rows: seq<Row>, i: nat, j: nat)
    requires NoDuplicates(Keys(rows)) && i <= j <= |rows|
    ensures NoDuplicates(Keys(rows[i..j]))
  {
    hide KeyOf;
    var part := rows[i..j];
    forall p, q | 0 <= p < q < |part| ensures Keys(part)[p] != Keys(part)[q] {
      assert Keys(rows)[i + p] != Keys(rows)[i + q];
    }
  }

  lemma SequencesDiffer(db: Db, rows: seq<Row>)
    requires SequencesUnique(db) && NoDuplicates(Keys(rows)) && forall r | r in rows :: KeyOf(r) in db && db[KeyOf(r)] == r
    ensures DistinctSequences(rows)
  {
    hide KeyOf, SameSequence;
    forall i, j | 0 <= i < j < |rows| ensures !SameSequence(rows[i], rows[j]) {
      assert rows[i] in rows && rows[j] in rows;
      assert Keys(rows)[i] != Keys(rows)[j];
    }
  }

  lemma Segments(a: Archive)
    ensures var all, x := Records(a), |a.exchanges|;
            var e := x + |a.events|;
            var n := e + |a.normalizations| + |a.changes| + |a.edges|;
            && n + |a.analyses| + |a.redactions| == |all|
            && all[0..x] == a.exchanges && all[x..e] == a.events
            && all[n..n + |a.analyses|] == a.analyses && all[n + |a.analyses|..|all|] == a.redactions
  {
  }

  lemma ExportedIsUnrepeated(db: Db, s: Id, a: Archive)
    requires WellFormed(db) && Exported(db, s, a)
    ensures Unrepeated(a)
  {
    hide Records, Keys, ReferencesHold, SequencesUnique, DistinctSequences;
    Segments(a);
    ExportedKeysDiffer(db, s, a);
    var all, x := Records(a), |a.exchanges|;
    var e := x + |a.events|;
    var n := e + |a.normalizations| + |a.changes| + |a.edges|;
    SliceDistinct(all, 0, x);
    SliceDistinct(all, x, e);
    SliceDistinct(all, n, n + |a.analyses|);
    SliceDistinct(all, n + |a.analyses|, |all|);
    forall r | r in a.exchanges + a.events ensures KeyOf(r) in db && db[KeyOf(r)] == r {
      ListedAreRecords(a);
      assert Lists(db, s, r);
    }
    SequencesDiffer(db, a.exchanges);
    SequencesDiffer(db, a.events);
  }

  /** What the session's evidence refers to is evidence of the same session: the exchanges and
      events its rows reference, and the events its normalization runs name. */
  ghost predicate SelfContained(db: Db, s: Id) {
    forall k, p | k in Evidence(db, s) && p in Links(db[k]) :: p in Evidence(db, s)
  }

  function Links(r: Row): set<Key> {
    (set p | p in Parents(r) && (p.ExchangeKey? || p.EventKey?))
    + (match r
       case NormalizationRow(_, _, eventIds, _, _) => set id | id in eventIds :: EventKey(id)
       case _ => {})
  }

  lemma SessionsHaveNoLinks(r: Row)
    requires r.SessionRow?
    ensures Links(r) == {}
  {
  }

  lemma LinksAreExchangesOrEvents(r: Row, p: Key)
    requires p in Links(r)
    ensures p.ExchangeKey? || p.EventKey?
  {
  }

  predicate Listed(a: Archive, p: Key)
    requires Typed(a)
  {
    (p.ExchangeKey? && p.id in ExchangeIds(a)) || (p.EventKey? && p.id in EventIds(a))
  }

  /** An exchange or event is listed exactly when it is evidence of the session. */
  lemma ListedExactly(db: Db, s: Id, a: Archive, p: Key)
    requires WellFormed(db) && Exported(db, s, a) && (p.ExchangeKey? || p.EventKey?)
    ensures Listed(a, p) <==> p in Evidence(db, s)
  {
    hide Records, Evidence, ReferencesHold, SequencesUnique, AllEnded;
    if p in Evidence(db, s) {
      EvidenceIsListed(db, s, p);
      HeldKeys(db, s, p);
      RowsByTable(a, db[p]);
    }
    if Listed(a, p) {
      ListedAreRecords(a);
      var r := ListedRow(a, p);
      assert Lists(db, s, r);
    }
  }

  lemma ListedRow(a: Archive, p: Key) returns (r: Row)
    requires Typed(a) && Listed(a, p)
    ensures r in a.exchanges + a.events && KeyOf(r) == p
  {
    if p.ExchangeKey? {
      r :| r in a.exchanges && r.id == p.id;
    } else {
      r :| r in a.events && r.id == p.id;
    }
  }

  lemma OwnedBySession(db: Db, s: Id, r: Row)
    requires Lists(db, s, r)
    ensures Owner(db, r) == Some(s)
  {
  }

  /** Where a row of the archive points to. */
  predicate RowRelated(a: Archive, r: Row)
    requires Typed(a)
  {
    && (r.EventRow? || r.EdgeRow? || r.AnalysisRow? || r.ExchangeRow? || r.RedactionRow? ==> r.session == a.session.id)
    && forall p | p in Links(r) :: Listed(a, p)
  }

  lemma RelatedExactly(a: Archive)
    requires Typed(a)
    ensures Related(a) <==> forall r | r in Records(a) :: RowRelated(a, r)
  {
    hide Records, RowRelated;
    EveryListIsRecords(a);
    forall r | r in Records(a) ensures RowRelated(a, r) <==> RowFits(a, r) {
      RowRelatedMeans(a, r);
    }
    forall r | r in Records(a) ensures InItsList(a, r) {
      RowsByTable(a, r);
    }
  }

  predicate InItsList(a: Archive, r: Row) {
    match r
    case ExchangeRow(_, _, _, _, _, _, _, _, _) => r in a.exchanges
    case EventRow(_, _, _, _, _, _, _) => r in a.events
    case NormalizationRow(_, _, _, _, _) => r in a.normalizations
    case ChangeRow(_, _, _, _) => r in a.changes
    case EdgeRow(_, _, _, _, _, _) => r in a.edges
    case AnalysisRow(_, _, _, _, _, _) => r in a.analyses
    case RedactionRow(_, _, _, _) => r in a.redactions
    case _ => true
  }

  /** The check of one row, table by table. */
  predicate RowFits(a: Archive, r: Row)
    requires Typed(a)
  {
    var events, exchanges := EventIds(a), ExchangeIds(a);
    match r
    case EventRow(_, s, _, exchange, _, _, _) => s == a.session.id && (exchange.Some? ==> exchange.value in exchanges)
    case ChangeRow(event, _, _, _) => event in events
    case EdgeRow(s, from, to, _, _, _) => s == a.session.id && from in events && to in events
    case AnalysisRow(_, s, target, _, _, _) => s == a.session.id && (target.Some? ==> target.value in events)
    case NormalizationRow(exchange, _, ids, _, _) => exchange in exchanges && forall id | id in ids :: id in events
    case ExchangeRow(_, s, _, _, _, _, _, _, _) => s == a.session.id
    case RedactionRow(_, s, _, _) => s == a.session.id
    case _ => true
  }

  lemma RowRelatedMeans(a: Archive, r: Row)
    requires Typed(a) && r in Records(a)
    ensures RowRelated(a, r) <==> RowFits(a, r)
  {
    hide Records, EventIds, ExchangeIds;
    RowsByTable(a, r);
    match r {
      case EventRow(_, _, _, exchange, _, _, _) => assert exchange.Some? ==> ExchangeKey(exchange.value) in Links(r);
      case ChangeRow(event, _, _, _) => assert EventKey(event) in Links(r);
      case EdgeRow(_, from, to, _, _, _) => assert EventKey(from) in Links(r) && EventKey(to) in Links(r);
      case AnalysisRow(_, _, target, _, _, _) => assert target.Some? ==> EventKey(target.value) in Links(r);
      case NormalizationRow(exchange, _, ids, _, _) =>
        assert ExchangeKey(exchange) in Links(r);
        assert forall id | id in ids :: EventKey(id) in Links(r);
      case _ =>
    }
  }

  lemma EveryListIsRecords(a: Archive)
    ensures forall r | r in a.exchanges :: r in Records(a)
    ensures forall r | r in a.events :: r in Records(a)
    ensures forall r | r in a.normalizations :: r in Records(a)
    ensures forall r | r in a.changes :: r in Records(a)
    ensures forall r | r in a.edges :: r in Records(a)
    ensures forall r | r in a.analyses :: r in Records(a)
    ensures forall r | r in a.redactions :: r in Records(a)
  {
  }

  /** The import's check of relations accepts an export exactly when the evidence refers to
      nothing of another session. */
  lemma ExportedIsRelatedExactly(db: Db, s: Id, a: Archive)
    requires WellFormed(db) && Exported(db, s, a)
    ensures Related(a) <==> SelfContained(db, s)
  {
    hide Records, Lists, Owner, Related, Evidence, Links, Listed, AllEnded, ReferencesHold, SequencesUnique;
    RelatedExactly(a);
    assert KeyOf(db[SessionKey(s)]) == SessionKey(s);
    if Related(a) {
      EvidenceIsStored(db, s);
      forall k, p | k in Evidence(db, s) && p in Links(db[k]) ensures p in Evidence(db, s) {
        HeldKeys(db, s, k);
        LinksAreExchangesOrEvents(db[k], p);
        if k == SessionKey(s) {
          SessionsHaveNoLinks(db[k]);
        } else {
          EvidenceIsListed(db, s, k);
          ListedExactly(db, s, a, p);
        }
      }
    }
    if SelfContained(db, s) {
      forall r | r in Records(a) ensures RowRelated(a, r) {
        OwnedBySession(db, s, r);
        OwnerIsSession(db, s, r);
        ListsKeys(db, s, r);
        forall p | p in Links(r) ensures Listed(a, p) {
          LinksAreExchangesOrEvents(r, p);
          ListedExactly(db, s, a, p);
        }
      }
    }
  }

  lemma EvidenceIsStored(db: Db, s: Id)
    ensures Evidence(db, s).Keys <= db.Keys
  {
  }

  lemma OwnerIsSession(db: Db, s: Id, r: Row)
    requires Owner(db, r) == Some(s)
    ensures r.EventRow? || r.EdgeRow? || r.AnalysisRow? || r.ExchangeRow? || r.RedactionRow? ==> r.session == s
  {
  }

  lemma ListsKeys(db: Db, s: Id, r: Row)
    requires Lists(db, s, r)
    ensures KeyOf(r) in Evidence(db, s) && KeyOf(r) in db && db[KeyOf(r)] == r
  {
  }

  /** Exporting a finished session and importing the archive into a store that has none of its
      records succeeds, the store's own failures apart, if and only if the session's evidence
      refers to nothing of another session and the session has an end or starts no later than
      the import. Then the same evidence is there again, under the session row that imports
      write, and no other session's evidence has changed. */
  lemma RoundTrip(db: Db, s: Id, a: Archive, db': Db, stamp: Stamp, f: Faults)
    requires WellFormed(db) && Exported(db, s, a)
    requires WellFormed(db') && NoConflict(db', a)
    requires BlobsFine(db', a, f, |a.blobs|) && f.statement.None?
    ensures var o := ImportArchive(db', a, stamp, f);
            && (o.error.None? <==> SelfContained(db, s) && EndFits(a, stamp))
            && (o.error.None? ==>
                  && Evidence(o.db, s) == Evidence(db, s)[SessionKey(s) := ReadonlySession(a, stamp)]
                  && forall id | id != s :: Evidence(o.db, id) == Evidence(db', id))
  {
    hide WellFormed, NoConflict, BlobsFine, Unrepeated, Related, Records, Evidence, ImportArchive, AllEnded, EndFits, SelfContained;
    KeysAgree(db, SessionKey(s));
    ExportedIsUnrepeated(db, s, a);
    ExportedIsRelatedExactly(db, s, a);
    ExportedKeysDiffer(db, s, a);
    ImportSucceedsExactly(db', a, stamp, f);
    SuccessHoldsArchive(db', a, stamp, f);
    if ImportArchive(db', a, stamp, f).error.None? {
      SameEvidenceHeld(db, s, a, stamp, ImportArchive(db', a, stamp, f).db);
    }
  }

  /** The store of four inserts again: the session whose analysis targets another session's
      event cannot be imported anywhere from its export. */
  lemma CrossedExportIsRefused(a: Archive, db': Db, stamp: Stamp, f: Faults)
    requires Exported(Run(map[], CROSSED), "a", a)
    requires WellFormed(db') && NoConflict(db', a) && BlobsFine(db', a, f, |a.blobs|) && f.statement.None?
    ensures ImportArchive(db', a, stamp, f).error.Some?
  {
    hide WellFormed, Run, Exported, NoConflict, BlobsFine, ImportArchive, EndFits;
    var db := Run(map[], CROSSED);
    CrossedStoreBlocks();
    assert EventKey("e") in Links(db[AnalysisKey("n")]);
    assert "a"[0] != "b"[0];
    assert AnalysisKey("n") in Evidence(db, "a") && EventKey("e") !in Evidence(db, "a");
    RoundTrip(db, "a", a, db', stamp, f);
  }

  lemma KeysAgree(db: Db, k: Key)
    requires WellFormed(db) && k in db
    ensures KeyOf(db[k]) == k
  {
    hide ReferencesHold, SequencesUnique;
  }

  lemma SameEvidenceHeld(db: Db, s: Id, a: Archive, stamp: Stamp, db': Db)
    requires WellFormed(db) && Exported(db, s, a) && WellFormed(db') && IsArchived(Evidence(db', s), a, stamp)
    ensures Evidence(db', s) == Evidence(db, s)[SessionKey(s) := ReadonlySession(a, stamp)]
  {
    hide Records, Evidence, ReferencesHold, SequencesUnique;
    var held, source := Evidence(db', s), Evidence(db, s);
    KeysAgree(db, SessionKey(s));
    forall k | k in source && k != SessionKey(s) ensures k in held && held[k] == source[k] {
      EvidenceIsListed(db, s, k);
    }
    forall k | k in held && k != SessionKey(s) ensures k in source {
      HeldKeys(db', s, k);
      KeysAgree(db', k);
      assert Lists(db, s, held[k]);
    }
    assert KeyOf(ReadonlySession(a, stamp)) == SessionKey(s) && held[SessionKey(s)] == ReadonlySession(a, stamp);
    assert held.Keys == source.Keys + {SessionKey(s)};
  }

  lemma EvidenceIsListed(db: Db, s: Id, k: Key)
    requires WellFormed(db) && k in Evidence(db, s) && k != SessionKey(s)
    ensures Lists(db, s, Evidence(db, s)[k]) && KeyOf(Evidence(db, s)[k]) == k
  {
    hide ReferencesHold, SequencesUnique;
  }

  lemma HeldKeys(db: Db, s: Id, k: Key)
    requires k in Evidence(db, s)
    ensures k in db && Evidence(db, s)[k] == db[k]
  {
  }
}
