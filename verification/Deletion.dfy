// Carrying out a deletion plan: session rows with their cascades, then garbage
// collection of blobs (apps/daemon/src/archive/evidence-maintenance.ts,
// packages/storage/src/blob-store.ts, packages/storage/src/session-repository.ts).

module Deletion {
  import opened Wrappers
  import opened Ordering
  import opened Database
  import opened Retention

  // ------------------------------------------------------------ usage of the tables

  function SizeOf(r: Row): nat {
    match r
    case SequenceRow(_, _) => 0
    case BlobRow(_, _, _) => 0
    case _ => r.size
  }

  ghost function EvidenceBytes(rows: map<Key, Row>): nat {
    if rows == map[] then 0
    else
      var k :| k in rows;
      SizeOf(rows[k]) + EvidenceBytes(rows - {k})
  }

  ghost predicate References(rows: map<Key, Row>, blob: Id) {
    exists k | k in rows :: BlobKey(blob) in BlobRefs(rows[k])
  }

  function SessionIds(db: Db): set<Id> {
    set k | k in db && k.SessionKey? :: k.id
  }

  /** The sessions whose evidence references a blob. */
  ghost function UsersOf(db: Db, blob: Id): set<Id> {
    set id | id in SessionIds(db) && References(Evidence(db, id), blob)
  }

  function SessionOf(r: Row): Session
    requires r.SessionRow?
  {
    Session(r.id, r.status, r.startedAt, r.endedAt, r.analysisTarget)
  }

  /** `sn` lists what the usage queries read from the tables, in whatever order. */
  ghost predicate SnapshotOf(db: Db, sn: Snapshot) {
    && NoDuplicates(sn.sessions)
    && (forall s | s in sn.sessions ::
          SessionKey(s.id) in db && db[SessionKey(s.id)].SessionRow? && s == SessionOf(db[SessionKey(s.id)])
          && RecordBytesOf(sn, s.id) == EvidenceBytes(Evidence(db, s.id)))
    && (forall id | id in SessionIds(db) :: exists s | s in sn.sessions :: s.id == id)
    && NoDuplicates(sn.blobs)
    && (forall b | b in sn.blobs ::
          BlobKey(b.id) in db && db[BlobKey(b.id)].BlobRow? && b.bytes == db[BlobKey(b.id)].stored
          && b.sessions == UsersOf(db, b.id) && b.sessions != {})
    && (forall id | BlobKey(id) in db && UsersOf(db, id) != {} :: exists b | b in sn.blobs :: b.id == id)
  }

  // ------------------------------------------------------------ deleting sessions

  function Owned(db: Db, id: Id): set<Key> {
    set k | k in db && Owner(db, db[k]) == Some(id)
  }

  predicate Removable(db: Db, id: Id) {
    SessionKey(id) in db && db[SessionKey(id)].SessionRow? && db[SessionKey(id)].status != Active
  }

  function RemoveSession(db: Db, id: Id): Option<Db> {
    if !Removable(db, id) then None else Execute(db, Delete(SessionKey(id)))
  }

  function RemoveSessions(db: Db, ids: seq<Id>): Option<Db>
    decreases |ids|
  {
    if ids == [] then Some(db)
    else
      match RemoveSession(db, ids[0])
      case None => None
      case Some(next) => RemoveSessions(next, ids[1..])
  }

  /** Edges of other sessions that touch an event of this one. */
  function ForeignEdges(db: Db, id: Id): set<Key> {
    set k | k in db && k !in Owned(db, id) && db[k].EdgeRow?
            && (EventKey(db[k].from) in Owned(db, id) || EventKey(db[k].to) in Owned(db, id))
  }

  /** All that goes when the session row goes. */
  function Taken(db: Db, id: Id): set<Key> {
    Owned(db, id) + ForeignEdges(db, id)
  }

  lemma DoomedIsTaken(db: Db, id: Id)
    requires WellFormed(db) && SessionKey(id) in db
    ensures Doomed(db, SessionKey(id)) <= Taken(db, id)
  {
    hide SequencesUnique, ReferencesHold;
    var root := SessionKey(id);
    assert KeyOf(db[root]) == root;
    forall c | c in Children(db, {root}) ensures c in Owned(db, id) {
      assert root in CascadeParents(db[c]);
    }
    forall c | c in Grandchildren(db, root) ensures c in Taken(db, id) {
      var p :| p in Children(db, {root}) && p in CascadeParents(db[c]);
      NoChildrenOf(db, p, c);
      assert root in CascadeParents(db[p]) && KeyOf(db[p]) == p;
    }
  }

  lemma ChildOf(db: Db, k: Key, p: Key)
    requires k in db && p in CascadeParents(db[k])
    ensures k in Children(db, {p})
  {
    assert p in CascadeParents(db[k]) * {p};
  }

  lemma GrandchildOf(db: Db, k: Key, p: Key, root: Key)
    requires k in db && p in db && p in CascadeParents(db[k]) && root in CascadeParents(db[p])
    ensures k in Grandchildren(db, root)
  {
    hide CascadeParents;
    ChildOf(db, p, root);
    assert p in CascadeParents(db[k]) * Children(db, {root});
  }

  lemma OwnedIsDoomed(db: Db, id: Id, k: Key)
    requires WellFormed(db) && SessionKey(id) in db && k in Owned(db, id)
    ensures k in Doomed(db, SessionKey(id))
  {
    hide SequencesUnique, Children, Grandchildren, ReferencesHold;
    var root := SessionKey(id);
    assert KeyOf(db[k]) == k;
    RowReferences(db, k);
    match db[k] {
      case NormalizationRow(exchange, _, _, _, _) => GrandchildOf(db, k, ExchangeKey(exchange), root);
      case ChangeRow(event, _, _, _) => GrandchildOf(db, k, EventKey(event), root);
      case SessionRow(_, _, _, _, _, _, _, _, _) =>
      case BlobRow(_, _, _) =>
      case _ => ChildOf(db, k, root);
    }
  }

  lemma ForeignEdgeIsDoomed(db: Db, id: Id, k: Key)
    requires WellFormed(db) && SessionKey(id) in db && k in ForeignEdges(db, id)
    ensures k in Grandchildren(db, SessionKey(id)) && k !in Children(db, {SessionKey(id)})
  {
    hide SequencesUnique, ReferencesHold;
    var root := SessionKey(id);
    var p := if EventKey(db[k].from) in Owned(db, id) then EventKey(db[k].from) else EventKey(db[k].to);
    assert KeyOf(db[p]) == p;
    assert root in CascadeParents(db[p]) * {root};
    assert p in CascadeParents(db[k]) * Children(db, {root});
  }

  lemma DoomedRows(db: Db, id: Id)
    requires WellFormed(db) && SessionKey(id) in db
    ensures Doomed(db, SessionKey(id)) == Taken(db, id)
  {
    hide WellFormed, Owned, ForeignEdges, Children, Grandchildren;
    DoomedIsTaken(db, id);
    forall k | k in Owned(db, id) ensures k in Doomed(db, SessionKey(id)) {
      OwnedIsDoomed(db, id, k);
    }
    forall k | k in ForeignEdges(db, id) ensures k in Doomed(db, SessionKey(id)) {
      ForeignEdgeIsDoomed(db, id, k);
    }
  }

  ghost predicate EdgesUnguarded(db: Db, id: Id) {
    forall k | k in ForeignEdges(db, id) :: !Readonly(db, db[k].session)
  }

  lemma GuardsAfterCascade(db: Db, id: Id, c: Key)
    requires WellFormed(db) && SessionKey(id) in db && c in Grandchildren(db, SessionKey(id)) && c !in Children(db, {SessionKey(id)})
    ensures DeleteGuard(db - {SessionKey(id)} - Children(db, {SessionKey(id)}), db[c])
       <==> db[c].EdgeRow? && Readonly(db, db[c].session)
  {
    hide SequencesUnique, ReferencesHold;
    var root := SessionKey(id);
    var p :| p in Children(db, {root}) && p in CascadeParents(db[c]);
    NoChildrenOf(db, p, c);
    assert root in CascadeParents(db[p]) && KeyOf(db[p]) == p && KeyOf(db[c]) == c;
    if db[c].EdgeRow? {
      EdgeIsElsewhere(db, id, c);
      SessionsAreNoChildren(db, root, db[c].session);
    }
  }

  lemma EdgeIsElsewhere(db: Db, id: Id, c: Key)
    requires c in db && db[c].EdgeRow? && c !in Children(db, {SessionKey(id)})
    ensures db[c].session != id
  {
    assert SessionKey(db[c].session) in CascadeParents(db[c]) * {SessionKey(db[c].session)};
  }

  /** The triggers abort the cascade exactly when it reaches an edge of an imported session. */
  lemma CascadeIsAllowedExactly(db: Db, id: Id)
    requires WellFormed(db) && SessionKey(id) in db
    ensures DeleteAllowed(db, SessionKey(id)) <==> EdgesUnguarded(db, id)
  {
    hide SequencesUnique, ReferencesHold, Grandchildren, Owned;
    var root := SessionKey(id);
    var children := Children(db, {root});
    assert KeyOf(db[root]) == root;
    forall c | c in children ensures !DeleteGuard(db - {root}, db[c]) {
      assert root in CascadeParents(db[c]);
    }
    DoomedRows(db, id);
    GrandchildrenAreRows(db, root);
    forall c | c in Grandchildren(db, root) && c !in children
      ensures DeleteGuard(db - {root} - children, db[c]) <==> db[c].EdgeRow? && Readonly(db, db[c].session)
    {
      GuardsAfterCascade(db, id, c);
    }
    forall k | k in ForeignEdges(db, id) ensures k in Grandchildren(db, root) && k !in children {
      ForeignEdgeIsDoomed(db, id, k);
    }
    forall c | c in Grandchildren(db, root) && c !in children && db[c].EdgeRow? && Readonly(db, db[c].session)
      ensures c in ForeignEdges(db, id)
    {
      EdgeIsForeign(db, id, c);
    }
  }

  lemma GrandchildrenAreRows(db: Db, k: Key)
    ensures Grandchildren(db, k) <= db.Keys
  {
  }

  lemma EdgeIsForeign(db: Db, id: Id, c: Key)
    requires WellFormed(db) && SessionKey(id) in db && c in Doomed(db, SessionKey(id)) && c !in Children(db, {SessionKey(id)}) && c in db && db[c].EdgeRow?
    ensures c in ForeignEdges(db, id)
  {
    hide SequencesUnique, ReferencesHold, Grandchildren;
    DoomedRows(db, id);
    EdgeIsElsewhere(db, id, c);
  }

  /** No row that is left refers to one that goes. */
  ghost predicate NothingDangles(db: Db, id: Id) {
    forall k | k in db && k !in Taken(db, id) :: Parents(db[k]) !! Taken(db, id)
  }

  /** What removing a session does, for every well-formed store. */
  lemma RemoveSessionMeaning(db: Db, id: Id)
    requires WellFormed(db) && Removable(db, id)
    ensures RemoveSession(db, id) == if EdgesUnguarded(db, id) && NothingDangles(db, id) then Some(db - Taken(db, id)) else None
  {
    hide Owner, Children, Grandchildren, Doomed, DeleteAllowed, SequencesUnique, Parents, EdgesUnguarded, Taken;
    DoomedRows(db, id);
    CascadeIsAllowedExactly(db, id);
    var next := db - Taken(db, id);
    if NothingDangles(db, id) {
      forall k | k in next ensures Parents(next[k]) <= next.Keys {
        RowReferences(db, k);
      }
    } else {
      var k :| k in db && k !in Taken(db, id) && !(Parents(db[k]) !! Taken(db, id));
      assert k in next && !(Parents(next[k]) <= next.Keys);
    }
  }

  /** Other sessions' rows keep clear of the session's. */
  ghost predicate Isolated(db: Db, id: Id) {
    forall k, p | k in db && p in Parents(db[k]) && p in Owned(db, id) :: k in Owned(db, id)
  }

  /** Removing a terminal session succeeds and takes exactly what the session owns, if and only
      if no row of another session refers to one of its rows. */
  lemma RemoveSessionRemovesOwned(db: Db, id: Id)
    requires WellFormed(db) && Removable(db, id)
    ensures RemoveSession(db, id) == Some(db - Owned(db, id)) <==> Isolated(db, id)
  {
    hide Owned, WellFormed, Parents;
    RemoveSessionMeaning(db, id);
    TakenAreKeys(db, id);
    if Isolated(db, id) {
      forall k | k in ForeignEdges(db, id) ensures k in Owned(db, id) {
        EdgeParents(db, id, k);
      }
      assert Taken(db, id) == Owned(db, id);
    }
    if RemoveSession(db, id) == Some(db - Owned(db, id)) {
      assert (db - Taken(db, id)).Keys == db.Keys - Taken(db, id);
      assert (db - Owned(db, id)).Keys == db.Keys - Owned(db, id);
      assert Taken(db, id) == Owned(db, id);
    }
  }

  lemma TakenAreKeys(db: Db, id: Id)
    ensures Owned(db, id) <= Taken(db, id) <= db.Keys
  {
  }

  lemma EdgeParents(db: Db, id: Id, k: Key)
    requires k in ForeignEdges(db, id)
    ensures k in db && exists p :: p in Parents(db[k]) && p in Owned(db, id)
  {
    hide Owned;
    var p := if EventKey(db[k].from) in Owned(db, id) then EventKey(db[k].from) else EventKey(db[k].to);
    assert p in Parents(db[k]);
  }

  lemma BlobsAreNotOwned(db: Db, p: Key)
    requires WellFormed(db) && p in db && p.BlobKey?
    ensures Owner(db, db[p]) == None
  {
    hide SequencesUnique, ReferencesHold;
    assert KeyOf(db[p]) == p;
  }

  lemma OwnerAfterRemoval(db: Db, gone: set<Key>, k: Key)
    requires k in db && Parents(db[k]) <= (db - gone).Keys
    ensures Owner(db - gone, db[k]) == Owner(db, db[k])
  {
  }

  /** Everything the sessions in `ids` own. */
  function OwnedByAny(db: Db, ids: seq<Id>): set<Key> {
    set k | k in db && Owner(db, db[k]).Some? && Owner(db, db[k]).value in ids
  }

  function Index(ids: seq<Id>, id: Id): (i: nat)
    ensures i <= |ids| && (i < |ids| <==> id in ids)
    ensures i < |ids| ==> ids[i] == id
  {
    if ids == [] || ids[0] == id then 0 else 1 + Index(ids[1..], id)
  }

  /** A row may refer to a row of the `i`-th session when its own session goes no later, or when
      it is an edge of a planned session that is not imported: that edge goes along. */
  predicate MayRefer(db: Db, ids: seq<Id>, k: Key, i: nat)
    requires k in db
  {
    var owner := Owner(db, db[k]);
    owner.Some? && owner.value in ids && (Index(ids, owner.value) <= i || (db[k].EdgeRow? && !Readonly(db, owner.value)))
  }

  ghost predicate Cuttable(db: Db, ids: seq<Id>) {
    forall k, p | k in db && p in Parents(db[k]) && p in OwnedByAny(db, ids) ::
      MayRefer(db, ids, k, Index(ids, Owner(db, db[p]).value))
  }

  lemma OwnersKept(db: Db, id: Id)
    requires WellFormed(db) && NothingDangles(db, id)
    ensures forall k | k in db && k !in Taken(db, id) :: Owner(db - Taken(db, id), db[k]) == Owner(db, db[k])
  {
    hide Owner, SequencesUnique, Taken;
    forall k | k in db && k !in Taken(db, id) ensures Owner(db - Taken(db, id), db[k]) == Owner(db, db[k]) {
      RowReferences(db, k);
      OwnerAfterRemoval(db, Taken(db, id), k);
    }
  }

  lemma OtherSessionsStay(db: Db, id: Id, other: Id)
    requires WellFormed(db) && other != id
    ensures Readonly(db - Taken(db, id), other) <==> Readonly(db, other)
    ensures Removable(db - Taken(db, id), other) <==> Removable(db, other)
  {
    hide SequencesUnique, ReferencesHold;
    if SessionKey(other) in db {
      assert KeyOf(db[SessionKey(other)]) == SessionKey(other);
    }
  }

  /** Only sessions, exchanges and events are referred to, blobs apart. */
  lemma ParentsAreNoEdges(db: Db, r: Row, p: Key)
    requires WellFormed(db) && p in Parents(r) && p in db
    ensures !db[p].EdgeRow?
  {
    hide SequencesUnique, ReferencesHold;
    assert KeyOf(db[p]) == p;
  }

  /** The first session of a plan that can be cut comes off, and the rest can be cut after it. */
  lemma CutFirst(db: Db, id: Id, rest: seq<Id>)
    requires WellFormed(db) && id !in rest && Cuttable(db, [id] + rest)
    ensures EdgesUnguarded(db, id) && NothingDangles(db, id)
    ensures ForeignEdges(db, id) <= OwnedByAny(db, rest)
    ensures Cuttable(db - Taken(db, id), rest)
  {
    hide WellFormed, Parents, Owner;
    var ids := [id] + rest;
    forall k | k in ForeignEdges(db, id) ensures k in OwnedByAny(db, rest) && !Readonly(db, db[k].session) {
      var p := FirstEnd(db, id, k);
      FirstIsOwned(db, ids, p);
      EdgeOwner(db, k);
    }
    forall k | k in db && k !in Taken(db, id) ensures Parents(db[k]) !! Taken(db, id) {
      forall p | p in Parents(db[k]) ensures p !in Taken(db, id) {
        if p in Taken(db, id) {
          ParentsAreNoEdges(db, db[k], p);
          FirstIsOwned(db, ids, p);
          assert MayRefer(db, ids, k, 0);
          EdgeIsTaken(db, id, k, p);
        }
      }
    }
    CutRest(db, id, rest);
  }

  lemma FirstEnd(db: Db, id: Id, k: Key) returns (p: Key)
    requires k in ForeignEdges(db, id)
    ensures k in db && p in Parents(db[k]) && p in Owned(db, id)
  {
    hide Owned;
    EdgeParents(db, id, k);
    p :| p in Parents(db[k]) && p in Owned(db, id);
  }

  lemma EdgeOwner(db: Db, k: Key)
    requires k in db && db[k].EdgeRow?
    ensures Owner(db, db[k]) == Some(db[k].session)
  {
  }

  lemma {:induction false} FirstIsOwned(db: Db, ids: seq<Id>, p: Key)
    requires ids != [] && p in Owned(db, ids[0])
    ensures p in OwnedByAny(db, ids) && Owner(db, db[p]) == Some(ids[0]) && Index(ids, ids[0]) == 0
  {
    hide Owner;
  }

  lemma EdgeIsTaken(db: Db, id: Id, k: Key, p: Key)
    requires WellFormed(db) && k in db && p in Parents(db[k]) && p in Owned(db, id) && (db[k].EdgeRow? || Owner(db, db[k]) == Some(id))
    ensures k in Taken(db, id)
  {
    hide SequencesUnique, ReferencesHold;
    assert KeyOf(db[p]) == p;
    if db[k].EdgeRow? {
      assert p == SessionKey(db[k].session) || p == EventKey(db[k].from) || p == EventKey(db[k].to);
    }
  }

  lemma CutRest(db: Db, id: Id, rest: seq<Id>)
    requires WellFormed(db) && id !in rest && Cuttable(db, [id] + rest) && NothingDangles(db, id)
    ensures Cuttable(db - Taken(db, id), rest)
  {
    hide WellFormed, Parents, Owner, Taken, NothingDangles, Readonly;
    var ids, next := [id] + rest, db - Taken(db, id);
    OwnersKept(db, id);
    forall k, p | k in next && p in Parents(next[k]) && p in OwnedByAny(next, rest)
      ensures MayRefer(next, rest, k, Index(rest, Owner(next, next[p]).value))
    {
      var x := Owner(db, db[p]).value;
      assert p in OwnedByAny(db, ids);
      LaterIndex(id, rest, x);
      assert MayRefer(db, ids, k, Index(ids, x));
      var y := Owner(db, db[k]).value;
      KeptIsNotOwned(db, id, k);
      LaterIndex(id, rest, y);
      OtherSessionsStay(db, id, y);
    }
  }

  lemma KeptIsNotOwned(db: Db, id: Id, k: Key)
    requires k in db && k !in Taken(db, id)
    ensures Owner(db, db[k]) != Some(id)
  {
    hide Owner;
  }

  lemma {:induction false} LaterIndex(id: Id, rest: seq<Id>, x: Id)
    requires x != id
    ensures Index([id] + rest, x) == 1 + Index(rest, x)
  {
    assert ([id] + rest)[1..] == rest;
  }

  /** And the other way round. */
  lemma CutBack(db: Db, id: Id, rest: seq<Id>)
    requires WellFormed(db) && id !in rest && EdgesUnguarded(db, id) && NothingDangles(db, id)
    requires ForeignEdges(db, id) <= OwnedByAny(db, rest) && Cuttable(db - Taken(db, id), rest)
    ensures Cuttable(db, [id] + rest)
  {
    hide WellFormed, Parents, Owner, Readonly, Cuttable;
    var ids := [id] + rest;
    forall k, p | k in db && p in Parents(db[k]) && p in OwnedByAny(db, ids)
      ensures MayRefer(db, ids, k, Index(ids, Owner(db, db[p]).value))
    {
      if k in Owned(db, id) {
        FirstIsOwned(db, ids, k);
      } else if k in ForeignEdges(db, id) {
        EdgeOwner(db, k);
      } else {
        ReferenceStays(db, id, rest, k, p);
      }
    }
    AllMayRefer(db, ids);
  }

  lemma {:induction false} AllMayRefer(db: Db, ids: seq<Id>)
    requires forall k, p | k in db && p in Parents(db[k]) && p in OwnedByAny(db, ids) ::
               MayRefer(db, ids, k, Index(ids, Owner(db, db[p]).value))
    ensures Cuttable(db, ids)
  {
    hide Owner, Parents;
  }

  lemma {:induction false} ReferenceStays(db: Db, id: Id, rest: seq<Id>, k: Key, p: Key)
    requires WellFormed(db) && id !in rest && NothingDangles(db, id) && Cuttable(db - Taken(db, id), rest)
    requires k in db && k !in Taken(db, id) && p in Parents(db[k]) && p in OwnedByAny(db, [id] + rest)
    ensures MayRefer(db, [id] + rest, k, Index([id] + rest, Owner(db, db[p]).value))
  {
    hide WellFormed, Parents, Owner, Taken, Readonly;
    var next := db - Taken(db, id);
    OwnersKept(db, id);
    assert p !in Taken(db, id);
    KeptIsNotOwned(db, id, p);
    KeptIsNotOwned(db, id, k);
    var x := Owner(db, db[p]).value;
    assert p in OwnedByAny(next, rest);
    assert MayRefer(next, rest, k, Index(rest, x));
    LaterIndex(id, rest, x);
    LaterIndex(id, rest, Owner(db, db[k]).value);
    OtherSessionsStay(db, id, Owner(db, db[k]).value);
  }

  /** Removing sessions one after the other succeeds and takes exactly what they own, if and
      only if every reference into them comes from a session that goes no later, or from an
      edge of a planned session that is not imported. */
  lemma {:induction false} RemoveSessionsRemovesOwned(db: Db, ids: seq<Id>)
    requires WellFormed(db) && NoDuplicates(ids) && forall id | id in ids :: Removable(db, id)
    ensures RemoveSessions(db, ids) == Some(db - OwnedByAny(db, ids)) <==> Cuttable(db, ids)
    decreases |ids|
  {
    hide WellFormed, Cuttable, EdgesUnguarded, NothingDangles, ForeignEdges, Owner, RemoveSession, Removable;
    if ids == [] {
      assert db - OwnedByAny(db, ids) == db;
      NothingToCut(db);
    } else {
      var id, rest := ids[0], ids[1..];
      assert ids == [id] + rest && id in ids;
      RemoveSessionMeaning(db, id);
      if Cuttable(db, ids) {
        CutFirst(db, id, rest);
      }
      if EdgesUnguarded(db, id) && NothingDangles(db, id) {
        var next := db - Taken(db, id);
        RemovedFirst(db, id, rest);
        RemoveSessionsRemovesOwned(next, rest);
        if RemoveSessions(db, ids) == Some(db - OwnedByAny(db, ids)) {
          RemovalOnlyShrinks(next, rest);
          OnlyPlannedRowsGo(db, id, rest);
          CutBack(db, id, rest);
        }
      }
    }
  }

  lemma NothingToCut(db: Db)
    ensures Cuttable(db, [])
  {
    hide Owner;
  }

  /** After the first session has gone. */
  lemma RemovedFirst(db: Db, id: Id, rest: seq<Id>)
    requires WellFormed(db) && Removable(db, id) && EdgesUnguarded(db, id) && NothingDangles(db, id)
    requires id !in rest && NoDuplicates(rest) && forall other | other in rest :: Removable(db, other)
    ensures var next := db - Taken(db, id);
            && WellFormed(next) && (forall other | other in rest :: Removable(next, other))
            && (ForeignEdges(db, id) <= OwnedByAny(db, rest) ==> next - OwnedByAny(next, rest) == db - OwnedByAny(db, [id] + rest))
  {
    hide WellFormed, Owner, EdgesUnguarded, Removable;
    var next := db - Taken(db, id);
    RemoveSessionMeaning(db, id);
    StepKeepsWellFormed(db, Delete(SessionKey(id)));
    OwnersKept(db, id);
    forall other | other in rest ensures Removable(next, other) {
      OtherSessionsStay(db, id, other);
    }
    RemovedIsStep(db, id);
  }

  lemma RemovedIsStep(db: Db, id: Id)
    requires Removable(db, id) && RemoveSession(db, id).Some?
    ensures RemoveSession(db, id).value == Step(db, Delete(SessionKey(id)))
  {
  }

  lemma {:induction false} RemovalOnlyShrinks(db: Db, ids: seq<Id>)
    ensures RemoveSessions(db, ids).Some? ==> RemoveSessions(db, ids).value.Keys <= db.Keys
    decreases |ids|
  {
    hide Doomed, DeleteAllowed, ReferencesHold;
    if ids != [] {
      var next := RemoveSession(db, ids[0]);
      if next.Some? {
        RemovalOnlyShrinks(next.value, ids[1..]);
      }
    }
  }

  lemma OnlyPlannedRowsGo(db: Db, id: Id, rest: seq<Id>)
    requires (db - OwnedByAny(db, [id] + rest)).Keys <= (db - Taken(db, id)).Keys
    ensures ForeignEdges(db, id) <= OwnedByAny(db, rest)
  {
    hide Owner;
    forall k | k in ForeignEdges(db, id) ensures k in OwnedByAny(db, rest) {
      assert k !in (db - Taken(db, id)).Keys;
      assert k in OwnedByAny(db, [id] + rest);
    }
  }

  lemma SessionOwner(db: Db, id: Id)
    requires SessionKey(id) in db && WellFormed(db)
    ensures Owner(db, db[SessionKey(id)]) == Some(id)
  {
    hide ReferencesHold, SequencesUnique;
    assert KeyOf(db[SessionKey(id)]) == SessionKey(id);
  }

  // ------------------------------------------------------------ garbage collection

  predicate Referenced(db: Db, blob: Key) {
    exists k | k in db :: blob in BlobRefs(db[k])
  }

  /** Blobs no row references, of those asked for. */
  function Unreferenced(db: Db, requested: Option<set<Id>>): set<Key> {
    set k | k in db && k.BlobKey? && !Referenced(db, k) && (requested.None? || k.id in requested.value)
  }

  function Collect(db: Db, requested: Option<set<Id>>): Db {
    db - Unreferenced(db, requested)
  }

  lemma CollectKeepsRows(db: Db, requested: Option<set<Id>>)
    requires WellFormed(db)
    ensures var next := Collect(db, requested);
            && WellFormed(next)
            && (forall k | k in next :: k in db && next[k] == db[k])
            && (forall k | k in db && !k.BlobKey? :: k in next && next[k] == db[k])
            && (forall k | k in next :: Owner(next, next[k]) == Owner(db, db[k]))
  {
    hide SequencesUnique, Owner;
    var next := Collect(db, requested);
    forall k | k in next ensures Parents(next[k]) <= next.Keys && Owner(next, next[k]) == Owner(db, db[k]) {
      RowReferences(db, k);
      forall p | p in Parents(db[k]) ensures p in next {
        if p.BlobKey? {
          BlobParentIsReference(db[k], p);
        }
      }
      OwnerAfterRemoval(db, Unreferenced(db, requested), k);
    }
    SequencesStayUnique(db, Unreferenced(db, requested));
  }

  lemma SequencesStayUnique(db: Db, gone: set<Key>)
    requires SequencesUnique(db)
    ensures SequencesUnique(db - gone)
  {
  }

  lemma BlobParentIsReference(r: Row, p: Key)
    requires p in Parents(r) && p.BlobKey?
    ensures p in BlobRefs(r)
  {
  }

  lemma UnreferencedAreRows(db: Db, requested: Option<set<Id>>)
    ensures Unreferenced(db, requested) <= db.Keys
  {
  }

  // ------------------------------------------------------------ the store object

  datatype DeletionError = ReadOnlyStore | SessionChanged(id: Id) | ConstraintFailed

  class EvidenceStore {
    var db: Db
    const readOnly: bool

    constructor (db: Db, readOnly: bool)
      ensures this.db == db && this.readOnly == readOnly
    {
      this.db, this.readOnly := db, readOnly;
    }

    /** The transaction: every session is looked at first, then every session goes, or none does. */
    method RemoveAll(ids: seq<Id>) returns (error: Option<DeletionError>)
      modifies this`db
      ensures match RemoveSessions(old(db), ids)
              case None => error.Some? && db == old(db)
              case Some(next) =>
                if forall id | id in ids :: Removable(old(db), id) then error.None? && db == next
                else error.Some? && db == old(db)
    {
      hide RemoveSession;
      for k := 0 to |ids|
        invariant db == old(db)
        invariant forall j | 0 <= j < k :: Removable(db, ids[j])
      {
        if !Removable(db, ids[k]) {
          assert ids[k] in ids;
          return Some(SessionChanged(ids[k]));
        }
      }
      var saved := db;
      assert ids[0..] == ids;
      for k := 0 to |ids|
        invariant RemoveSessions(saved, ids) == RemoveSessions(db, ids[k..])
      {
        assert ids[k..][0] == ids[k] && ids[k..][1..] == ids[k + 1..];
        var next := RemoveSession(db, ids[k]);
        if next.None? {
          db := saved;
          return Some(ConstraintFailed);
        }
        db := next.value;
      }
      return None;
    }

    method RemoveUnreferenced(requested: Option<set<Id>>) returns (removedBlobs: nat)
      requires WellFormed(db)
      modifies this`db
      ensures db == Collect(old(db), requested)
      ensures removedBlobs == |Unreferenced(old(db), requested)|
    {
      hide Unreferenced, WellFormed;
      UnreferencedAreRows(db, requested);
      var candidates := Unreferenced(db, requested);
      var remaining := candidates;
      removedBlobs := 0;
      while remaining != {}
        invariant remaining <= candidates && remaining <= old(db).Keys
        invariant db == old(db) - (candidates - remaining)
        invariant removedBlobs == |candidates| - |remaining|
        decreases remaining
      {
        var k :| k in remaining;
        ghost var before := remaining;
        remaining := remaining - {k};
        assert candidates - remaining == (candidates - before) + {k};
        db := db - {k};
        removedBlobs := removedBlobs + 1;
      }
      assert candidates - {} == candidates;
    }

    method ExecuteEvidenceDeletion(plan: Plan) returns (r: Result<nat, DeletionError>)
      requires WellFormed(db)
      modifies this`db
      ensures r.Err? ==> db == old(db)
      ensures r.Ok? ==>
                var next := RemoveSessions(old(db), PlannedIds(plan));
                && !readOnly && next.Some? && db == Collect(next.value, None)
                && r.value == |Unreferenced(next.value, None)|
      ensures readOnly ==> r == Err(ReadOnlyStore)
      ensures !readOnly && (forall id | id in PlannedIds(plan) :: Removable(old(db), id)) && RemoveSessions(old(db), PlannedIds(plan)).Some? ==> r.Ok?
    {
      hide RemoveSessions, Collect, Unreferenced;
      if readOnly {
        return Err(ReadOnlyStore);
      }
      var error := RemoveAll(PlannedIds(plan));
      if error.Some? {
        return Err(error.value);
      }
      RemovalKeepsWellFormed(old(db), PlannedIds(plan));
      var removedBlobs := RemoveUnreferenced(None);
      return Ok(removedBlobs);
    }
  }

  function PlannedIds(plan: Plan): seq<Id> {
    seq(|plan.sessions|, i requires 0 <= i < |plan.sessions| => plan.sessions[i].session)
  }

  lemma {:induction false} RemovalKeepsWellFormed(db: Db, ids: seq<Id>)
    requires WellFormed(db)
    ensures RemoveSessions(db, ids).Some? ==> WellFormed(RemoveSessions(db, ids).value)
    decreases |ids|
  {
    hide WellFormed, Execute;
    if ids != [] {
      StepKeepsWellFormed(db, Delete(SessionKey(ids[0])));
      var next := RemoveSession(db, ids[0]);
      if next.Some? {
        RemovalKeepsWellFormed(next.value, ids[1..]);
      }
    }
  }

  /** Only sessions that are there and have left the active state are ever removed. */
  lemma {:induction false} OnlyEndedAreRemoved(db: Db, ids: seq<Id>, id: Id)
    requires WellFormed(db) && RemoveSessions(db, ids).Some? && id in ids
    ensures SessionKey(id) in db && db[SessionKey(id)].SessionRow?
            && db[SessionKey(id)].status in {Completed, Crashed, Incomplete, ImportedReadonly}
    decreases |ids|
  {
    hide WellFormed, Execute;
    StepKeepsWellFormed(db, Delete(SessionKey(ids[0])));
    if id != ids[0] {
      var next := RemoveSession(db, ids[0]).value;
      assert id in ids[1..];
      OnlyEndedAreRemoved(next, ids[1..], id);
      DeleteOnlyRemoves(db, SessionKey(ids[0]));
    }
  }

  lemma DeleteOnlyRemoves(db: Db, k: Key)
    ensures var t := Execute(db, Delete(k)); t.Some? ==> forall x | x in t.value :: x in db && t.value[x] == db[x]
  {
    hide DeleteAllowed, Doomed, ReferencesHold;
  }

  /** A snapshot tells of each session what its row holds. */
  lemma SnapshotTellsRows(db: Db, sn: Snapshot, s: Session)
    requires SnapshotOf(db, sn) && s in sn.sessions
    ensures SessionKey(s.id) in db && db[SessionKey(s.id)].SessionRow?
            && var r := db[SessionKey(s.id)];
               s.status == r.status && s.startedAt == r.startedAt && s.endedAt == r.endedAt && s.target == r.analysisTarget
  {
    hide UsersOf, Evidence;
  }

  // ------------------------------------------------------------ projection and outcome

  function Members(ids: seq<Id>): set<Id> {
    set id | id in ids
  }

  lemma EvidenceAfterRemoval(db: Db, db': Db, id: Id)
    requires forall k | k in db' :: k in db && db'[k] == db[k] && Owner(db', db'[k]) == Owner(db, db[k])
    requires forall k | k in db && k !in db' && IsEvidence(k) :: Owner(db, db[k]) != Some(id)
    ensures Evidence(db', id) == Evidence(db, id)
  {
    hide Owner, IsEvidence;
  }

  /** `db'` is `db` without the evidence of `removed` and without unreferenced blobs. */
  ghost predicate Reduced(db: Db, removed: set<Id>, db': Db) {
    && (forall k | k in db' :: k in db && db'[k] == db[k])
    && SessionIds(db') == SessionIds(db) - removed
    && (forall id | id in SessionIds(db') :: Evidence(db', id) == Evidence(db, id))
    && (forall k | k in db && k.BlobKey? :: k in db' <==> UsersOf(db, k.id) - removed != {})
  }

  lemma UsersAfterReduction(db: Db, removed: set<Id>, db': Db, blob: Id)
    requires Reduced(db, removed, db')
    ensures UsersOf(db', blob) == UsersOf(db, blob) - removed
  {
    hide Evidence, References;
  }

  lemma ReducedAfterRemoval(db: Db, ids: seq<Id>)
    requires WellFormed(db) && WellFormed(db - OwnedByAny(db, ids))
    ensures Reduced(db, Members(ids), Collect(db - OwnedByAny(db, ids), None))
  {
    hide Owner, SequencesUnique, ReferencesHold, Collect, UsersOf, Referenced, Evidence;
    var next := db - OwnedByAny(db, ids);
    var db' := Collect(next, None);
    var removed := Members(ids);
    forall k | k in next ensures Owner(next, next[k]) == Owner(db, db[k]) {
      RowReferences(next, k);
      OwnerAfterRemoval(db, OwnedByAny(db, ids), k);
    }
    CollectKeepsRows(next, None);
    forall id | id !in removed ensures Evidence(db', id) == Evidence(db, id) {
      EvidenceAfterRemoval(db, db', id);
    }
    SessionsAfterDeletion(db, ids, db');
    forall k | k in db && k.BlobKey? ensures k in db' <==> UsersOf(db, k.id) - removed != {} {
      BlobsAreNotOwned(db, k);
      BlobStaysIfUsed(db, ids, next, k);
      CollectedBlobs(next, k);
    }
  }

  /** Whatever the outcome, nothing but rows of the planned sessions and edges goes. */
  lemma {:induction false} RemovedRows(db: Db, ids: seq<Id>)
    requires WellFormed(db) && NoDuplicates(ids) && RemoveSessions(db, ids).Some?
    ensures var r := RemoveSessions(db, ids).value;
            && (forall k | k in r :: k in db && r[k] == db[k] && k !in OwnedByAny(db, ids))
            && (forall k | k in db && k !in r :: k in OwnedByAny(db, ids) || db[k].EdgeRow?)
    decreases |ids|
  {
    hide WellFormed, Owner, EdgesUnguarded, NothingDangles, Taken, RemoveSession;
    if ids != [] {
      var id, rest := ids[0], ids[1..];
      assert ids == [id] + rest;
      RemovableIfRemoved(db, id);
      RemoveSessionMeaning(db, id);
      RemovedIsStep(db, id);
      StepKeepsWellFormed(db, Delete(SessionKey(id)));
      OwnersKept(db, id);
      TakenRows(db, id);
      RemovedRows(db - Taken(db, id), rest);
    }
  }

  lemma RemovableIfRemoved(db: Db, id: Id)
    requires RemoveSession(db, id).Some?
    ensures Removable(db, id)
  {
  }

  lemma TakenRows(db: Db, id: Id)
    ensures forall k | k in Taken(db, id) :: k in db && (Owner(db, db[k]) == Some(id) || db[k].EdgeRow?)
    ensures forall k | k in db && Owner(db, db[k]) == Some(id) :: k in Taken(db, id)
  {
    hide Owner;
  }

  /** Evidence of a retained session that is still whole has all its edges. */
  lemma ReducedKeepsEdges(db: Db, ids: seq<Id>, r: Db, k: Key)
    requires WellFormed(db) && Reduced(db, Members(ids), Collect(r, None))
    requires k in db && k !in r && db[k].EdgeRow?
    requires forall key | key in r :: key in db && r[key] == db[key]
    ensures k in OwnedByAny(db, ids)
  {
    hide SequencesUnique, UsersOf;
    var id := db[k].session;
    assert KeyOf(db[k]) == k;
    RowReferences(db, k);
    assert SessionKey(id) in Parents(db[k]);
    SessionIdsAreKeys(db, id);
    if id !in ids {
      assert k in Evidence(db, id);
      assert Evidence(Collect(r, None), id) == Evidence(db, id);
      EvidenceIsThere(Collect(r, None), id, k);
    }
  }

  lemma EvidenceIsThere(db: Db, id: Id, k: Key)
    requires k in Evidence(db, id)
    ensures k in db
  {
  }

  /** Deleting sessions and collecting blobs succeeds and leaves every retained session's
      evidence as it was, and of the blobs exactly those a retained session references, if and
      only if the plan can be cut from the store. */
  lemma {:induction false} DeletionReduces(db: Db, ids: seq<Id>)
    requires WellFormed(db) && NoDuplicates(ids) && forall id | id in ids :: Removable(db, id)
    ensures RemoveSessions(db, ids).Some? && Reduced(db, Members(ids), Collect(RemoveSessions(db, ids).value, None))
       <==> Cuttable(db, ids)
  {
    hide WellFormed, Owner, Cuttable, RemoveSessions, Reduced, Collect;
    RemoveSessionsRemovesOwned(db, ids);
    RemovalKeepsWellFormed(db, ids);
    var r := RemoveSessions(db, ids);
    if Cuttable(db, ids) {
      ReducedAfterRemoval(db, ids);
    }
    if r.Some? && Reduced(db, Members(ids), Collect(r.value, None)) {
      RemovedRows(db, ids);
      forall k | k in db && k !in r.value ensures k in OwnedByAny(db, ids) {
        if db[k].EdgeRow? {
          ReducedKeepsEdges(db, ids, r.value, k);
        }
      }
      assert r.value == db - OwnedByAny(db, ids);
    }
  }

  lemma CollectedBlobs(db: Db, k: Key)
    requires k in db && k.BlobKey?
    ensures k in Collect(db, None) <==> Referenced(db, k)
  {
  }

  lemma SessionsAfterDeletion(db: Db, ids: seq<Id>, db': Db)
    requires WellFormed(db) && forall k | k in db && !k.BlobKey? :: k in db' <==> k !in OwnedByAny(db, ids)
    requires forall k | k in db' :: k in db
    ensures SessionIds(db') == SessionIds(db) - Members(ids)
  {
    hide Owner, SequencesUnique, ReferencesHold;
    forall id ensures id in SessionIds(db') <==> id in SessionIds(db) && id !in ids {
      if SessionKey(id) in db {
        SessionOwner(db, id);
      }
      SessionIdsAreKeys(db, id);
      SessionIdsAreKeys(db', id);
    }
  }

  lemma SessionIdsAreKeys(db: Db, id: Id)
    ensures id in SessionIds(db) <==> SessionKey(id) in db
  {
    if SessionKey(id) in db {
      assert SessionKey(id).id == id;
    }
  }

  /** A blob is referenced by the rows left exactly when a retained session uses it. */
  lemma BlobStaysIfUsed(db: Db, ids: seq<Id>, next: Db, k: Key)
    requires WellFormed(db) && next == db - OwnedByAny(db, ids) && k in next && k.BlobKey?
    ensures Referenced(next, k) <==> UsersOf(db, k.id) - Members(ids) != {}
  {
    hide Owner, SequencesUnique, ReferencesHold;
    if Referenced(next, k) {
      var row :| row in next && k in BlobRefs(next[row]);
      ReferringRowIsOwned(db, row, k);
      var id := Owner(db, db[row]).value;
      SessionIdsAreKeys(db, id);
      assert row in Evidence(db, id);
      assert References(Evidence(db, id), k.id);
      assert id in UsersOf(db, k.id) - Members(ids);
    }
    if id :| id in UsersOf(db, k.id) - Members(ids) {
      var row :| row in Evidence(db, id) && BlobKey(k.id) in BlobRefs(Evidence(db, id)[row]);
      assert row in next && k in BlobRefs(next[row]);
    }
  }

  lemma ReferringRowIsOwned(db: Db, k: Key, blob: Key)
    requires WellFormed(db) && k in db && blob in BlobRefs(db[k])
    ensures IsEvidence(k) && Owner(db, db[k]).Some? && SessionKey(Owner(db, db[k]).value) in db
  {
    hide SequencesUnique, ReferencesHold;
    RowReferences(db, k);
    assert KeyOf(db[k]) == k;
    match db[k] {
      case ChangeRow(event, _, _, _) =>
        var p := EventKey(event);
        assert p in Parents(db[k]);
        assert KeyOf(db[p]) == p;
        RowReferences(db, p);
        assert SessionKey(db[p].session) in Parents(db[p]);
      case ExchangeRow(_, session, _, _, _, _, _, _, _) => assert SessionKey(session) in Parents(db[k]);
      case EventRow(_, session, _, _, _, _, _) => assert SessionKey(session) in Parents(db[k]);
      case AnalysisRow(_, session, _, _, _, _) => assert SessionKey(session) in Parents(db[k]);
      case _ =>
    }
  }

  lemma {:induction false} RetainedDistinct(sessions: seq<Session>, removed: set<Id>)
    requires NoDuplicates(sessions)
    ensures NoDuplicates(Retained(sessions, removed))
    decreases |sessions|
  {
    if sessions != [] {
      var front := sessions[..|sessions| - 1];
      RetainedDistinct(front, removed);
      RetainedMembers(front, removed);
    }
  }

  lemma {:induction false} RetainedBlobMembers(blobs: seq<BlobUsage>, removed: set<Id>)
    requires NoDuplicates(blobs)
    ensures NoDuplicates(RetainedBlobs(blobs, removed))
    ensures forall b :: b in RetainedBlobs(blobs, removed) <==> b in blobs && !(b.sessions <= removed)
    decreases |blobs|
  {
    if blobs != [] {
      RetainedBlobMembers(blobs[..|blobs| - 1], removed);
      assert blobs == blobs[..|blobs| - 1] + [blobs[|blobs| - 1]];
    }
  }

  lemma {:induction false} SumsAgree<T>(s: seq<T>, f: T -> nat, g: T -> nat)
    requires forall x | x in s :: f(x) == g(x)
    ensures Sum(s, f) == Sum(s, g)
  {
    SumMonotonic(s, f, g);
    SumMonotonic(s, g, f);
  }

  lemma {:induction false} SameSessions(db: Db, sn: Snapshot, removed: set<Id>, db': Db, sn': Snapshot)
    requires SnapshotOf(db, sn) && SnapshotOf(db', sn') && Reduced(db, removed, db')
    ensures multiset(Retained(sn.sessions, removed)) == multiset(sn'.sessions)
    ensures forall s | s in sn'.sessions :: RecordBytesOf(sn', s.id) == RecordBytesOf(sn, s.id)
  {
    hide Evidence, UsersOf, RecordBytesOf, EvidenceBytes;
    RetainedMembers(sn.sessions, removed);
    RetainedDistinct(sn.sessions, removed);
    forall s ensures s in sn'.sessions <==> s in sn.sessions && s.id !in removed
             ensures s in sn'.sessions ==> RecordBytesOf(sn', s.id) == RecordBytesOf(sn, s.id) {
      SessionIdsAreKeys(db, s.id);
      SessionIdsAreKeys(db', s.id);
      if s in sn'.sessions {
        var t :| t in sn.sessions && t.id == s.id;
        assert t == s;
      }
      if s in sn.sessions && s.id !in removed {
        var t :| t in sn'.sessions && t.id == s.id;
        assert t == s;
      }
    }
    SameElementsSameMultiset(Retained(sn.sessions, removed), sn'.sessions);
  }

  /** A blob entry as the usage queries list it once `removed` are gone. */
  function Without(b: BlobUsage, removed: set<Id>): BlobUsage {
    b.(sessions := b.sessions - removed)
  }

  function AllWithout(blobs: seq<BlobUsage>, removed: set<Id>): seq<BlobUsage> {
    seq(|blobs|, i requires 0 <= i < |blobs| => Without(blobs[i], removed))
  }

  lemma KeptIsListed(db: Db, sn: Snapshot, removed: set<Id>, db': Db, sn': Snapshot, b: BlobUsage)
    requires SnapshotOf(db, sn) && SnapshotOf(db', sn') && Reduced(db, removed, db')
    requires b in sn.blobs && !(b.sessions <= removed)
    ensures Without(b, removed) in sn'.blobs
  {
    hide Evidence, UsersOf, RecordBytesOf, EvidenceBytes, NoDuplicates;
    UsersAfterReduction(db, removed, db', b.id);
    var user :| user in b.sessions && user !in removed;
    assert user in UsersOf(db, b.id) - removed;
    assert BlobKey(b.id) in db';
    var t :| t in sn'.blobs && t.id == b.id;
    assert t.sessions == UsersOf(db', b.id) && b.sessions == UsersOf(db, b.id);
    assert t.bytes == b.bytes;
    assert t == Without(b, removed);
  }

  lemma ListedIsKept(db: Db, sn: Snapshot, removed: set<Id>, db': Db, sn': Snapshot, b: BlobUsage) returns (t: BlobUsage)
    requires SnapshotOf(db, sn) && SnapshotOf(db', sn') && Reduced(db, removed, db')
    requires b in sn'.blobs
    ensures t in sn.blobs && !(t.sessions <= removed) && b == Without(t, removed)
  {
    hide Evidence, UsersOf, RecordBytesOf, EvidenceBytes, NoDuplicates;
    UsersAfterReduction(db, removed, db', b.id);
    assert BlobKey(b.id) in db && UsersOf(db, b.id) != {};
    t :| t in sn.blobs && t.id == b.id;
    assert t.sessions == UsersOf(db, b.id) && b.sessions == UsersOf(db', b.id);
  }

  lemma {:induction false} SameBlobs(db: Db, sn: Snapshot, removed: set<Id>, db': Db, sn': Snapshot)
    requires SnapshotOf(db, sn) && SnapshotOf(db', sn') && Reduced(db, removed, db')
    ensures multiset(AllWithout(RetainedBlobs(sn.blobs, removed), removed)) == multiset(sn'.blobs)
  {
    hide Evidence, UsersOf, RecordBytesOf, EvidenceBytes;
    RetainedBlobMembers(sn.blobs, removed);
    var kept := RetainedBlobs(sn.blobs, removed);
    var stripped := AllWithout(kept, removed);
    forall i, j | 0 <= i < j < |stripped| ensures stripped[i] != stripped[j] {
      assert kept[i] in kept && kept[j] in kept;
      assert kept[i] != kept[j];
    }
    forall b ensures b in stripped <==> b in sn'.blobs {
      if b in stripped {
        var i :| 0 <= i < |kept| && b == Without(kept[i], removed);
        assert kept[i] in kept;
        KeptIsListed(db, sn, removed, db', sn', kept[i]);
      }
      if b in sn'.blobs {
        var t := ListedIsKept(db, sn, removed, db', sn', b);
        assert t in kept;
        var i :| 0 <= i < |kept| && kept[i] == t;
        assert stripped[i] == b;
      }
    }
    SameElementsSameMultiset(stripped, sn'.blobs);
  }

  lemma {:induction false} BytesWithout(blobs: seq<BlobUsage>, removed: set<Id>)
    ensures BytesOf(AllWithout(blobs, removed)) == BytesOf(blobs)
    decreases |blobs|
  {
    if blobs != [] {
      var front := blobs[..|blobs| - 1];
      var all := AllWithout(blobs, removed);
      assert all[..|all| - 1] == AllWithout(front, removed);
      BytesWithout(front, removed);
      BytesOfLast(blobs);
      BytesOfLast(all);
    }
  }

  /** Usage after the reduction is the projected usage, to the byte, the session and the blob. */
  lemma ProjectionIsExact(db: Db, sn: Snapshot, removed: set<Id>, db': Db, sn': Snapshot)
    requires SnapshotOf(db, sn) && SnapshotOf(db', sn') && Reduced(db, removed, db')
    ensures Summary(sn', {}) == Summary(sn, removed)
  {
    hide SnapshotOf, Reduced, Retained, RetainedBlobs, RecordBytesOf, Sum, AllWithout;
    SameSessions(db, sn, removed, db', sn');
    SameBlobs(db, sn, removed, db', sn');
    BlobsHaveUsers(db', sn');
    RetainedNone(sn'.sessions, sn'.blobs);
    var f, f' := (s: Session) => RecordBytesOf(sn, s.id), (s: Session) => RecordBytesOf(sn', s.id);
    SumPermutation(Retained(sn.sessions, removed), sn'.sessions, f);
    SumsAgree(sn'.sessions, f, f');
    SameLength(Retained(sn.sessions, removed), sn'.sessions);
    var kept := RetainedBlobs(sn.blobs, removed);
    SumPermutation(AllWithout(kept, removed), sn'.blobs, (b: BlobUsage) => b.bytes);
    BytesWithout(kept, removed);
    SameLength(AllWithout(kept, removed), sn'.blobs);
    SameCount(kept, removed);
  }

  lemma SameLength<T>(a: seq<T>, b: seq<T>)
    requires multiset(a) == multiset(b)
    ensures |a| == |b|
  {
    assert |multiset(a)| == |a| && |multiset(b)| == |b|;
  }

  lemma SameCount(blobs: seq<BlobUsage>, removed: set<Id>)
    ensures |AllWithout(blobs, removed)| == |blobs|
  {
  }

  lemma BlobsHaveUsers(db: Db, sn: Snapshot)
    requires SnapshotOf(db, sn)
    ensures forall b | b in sn.blobs :: b.sessions != {}
  {
  }

  /** Executing a plan's deletions on the store it was made for gives exactly the projected
      usage, keeps the evidence of every retained session, and keeps of the blobs exactly
      those a retained session references. */
  lemma {:induction false} ExecutionMeetsProjection(db: Db, sn: Snapshot, ids: seq<Id>, sn': Snapshot)
    requires WellFormed(db) && SnapshotOf(db, sn) && NoDuplicates(ids)
    requires (forall id | id in ids :: Removable(db, id)) && Cuttable(db, ids)
    ensures RemoveSessions(db, ids).Some?
    ensures var db' := Collect(RemoveSessions(db, ids).value, None);
            && Reduced(db, Members(ids), db')
            && (SnapshotOf(db', sn') ==> Summary(sn', {}) == Summary(sn, Members(ids)))
  {
    hide WellFormed, SnapshotOf, Removable, RemoveSessions, Collect, Summary, Reduced, Cuttable;
    DeletionReduces(db, ids);
    var db' := Collect(RemoveSessions(db, ids).value, None);
    if SnapshotOf(db', sn') {
      ProjectionIsExact(db, sn, Members(ids), db', sn');
    }
  }

  /** So the bound on what a plan frees holds for every snapshot of a store. */
  lemma SnapshotBlobsAreUsed(db: Db, sn: Snapshot)
    requires SnapshotOf(db, sn)
    ensures BlobsAreUsed(sn)
  {
    hide Evidence, References, RecordBytesOf, EvidenceBytes;
    forall b | b in sn.blobs ensures b.sessions <= AllIds(sn.sessions) {
      forall id | id in b.sessions ensures id in AllIds(sn.sessions) {
        var s :| s in sn.sessions && s.id == id;
      }
    }
  }

  lemma SnapshotHasUniqueIds(db: Db, sn: Snapshot)
    requires SnapshotOf(db, sn)
    ensures UniqueIds(sn)
  {
  }

  /** Every plan names distinct sessions of its store, none of them active; it can be carried
      out and leaves exactly its projection, with the evidence of all other sessions whole, if
      and only if it can be cut from the store. */
  lemma {:induction false} PlansAreExecutable(db: Db, sn: Snapshot, input: PruneInput, steps: nat, c: Choice, plan: Plan, sn': Snapshot)
    requires WellFormed(db) && SnapshotOf(db, sn)
    requires PlanChosen(sn, input, steps, c) && PlanFor(sn, input, c, plan)
    ensures var ids := PlannedIds(plan);
            && (forall id | id in ids :: Removable(db, id)) && NoDuplicates(ids) && Members(ids) == c.selected
            && (RemoveSessions(db, ids).Some? && Reduced(db, c.selected, Collect(RemoveSessions(db, ids).value, None))
                <==> Cuttable(db, ids))
            && (Cuttable(db, ids) ==>
                  var db' := Collect(RemoveSessions(db, ids).value, None);
                  SnapshotOf(db', sn') ==> Summary(sn', {}) == plan.projected)
  {
    hide WellFormed, PlanChosen, Summary, Reduced, RemoveSessions, Collect, UsersOf, Evidence, EvidenceBytes, RecordBytesOf, Cuttable;
    var ids := PlannedIds(plan);
    SnapshotHasUniqueIds(db, sn);
    PlanIsSafe(sn, input, steps, c);
    PlannedAreSelected(sn, c.selected, c.reasons, ids);
    forall id | id in ids ensures Removable(db, id) {
      var s :| s in sn.sessions && s.id == id;
    }
    DeletionReduces(db, ids);
    if Cuttable(db, ids) {
      ExecutionMeetsProjection(db, sn, ids, sn');
    }
  }

  lemma {:induction false} SortedChosen(sn: Snapshot, selected: set<Id>)
    requires NoDuplicates(sn.sessions)
    ensures var sorted := Sort(Chosen(sn.sessions, selected), StartedBefore);
            NoDuplicates(sorted) && forall s :: s in sorted <==> s in sn.sessions && s.id in selected
  {
    hide Chosen, Sort, StartedBefore;
    var chosen := Chosen(sn.sessions, selected);
    var sorted := Sort(chosen, StartedBefore);
    SessionOrders();
    SortSorts(chosen, StartedBefore);
    ChosenMembers(sn.sessions, selected);
    ChosenDistinct(sn.sessions, selected);
    DistinctCounts(chosen);
    CountedOnceIsDistinct(sorted);
    forall s ensures s in sorted <==> s in chosen {
      assert s in sorted <==> s in multiset(sorted);
      assert s in chosen <==> s in multiset(chosen);
    }
  }

  lemma PlannedAreSelected(sn: Snapshot, selected: set<Id>, reasons: map<Id, set<Reason>>, ids: seq<Id>)
    requires UniqueIds(sn) && NoDuplicates(sn.sessions) && selected <= AllIds(sn.sessions)
    requires var list := CandidateList(sn, selected, reasons);
             |ids| == |list| && forall i | 0 <= i < |ids| :: ids[i] == list[i].session
    ensures NoDuplicates(ids) && Members(ids) == selected
  {
    hide Chosen, Sort, SessionLogicalBytes;
    var sorted := Sort(Chosen(sn.sessions, selected), StartedBefore);
    SortedChosen(sn, selected);
    forall i, j | 0 <= i < j < |ids| ensures ids[i] != ids[j] {
      assert sorted[i] in sorted && sorted[j] in sorted && sorted[i] != sorted[j];
    }
    forall id ensures id in ids <==> id in selected {
      if id in ids {
        var i :| 0 <= i < |ids| && ids[i] == id;
        assert sorted[i] in sorted;
      }
      if id in selected {
        var s :| s in sn.sessions && s.id == id;
        assert s in sorted;
        var i :| 0 <= i < |sorted| && sorted[i] == s;
        assert ids[i] == id;
      }
    }
  }

  lemma {:induction false} ChosenDistinct(sessions: seq<Session>, selected: set<Id>)
    requires NoDuplicates(sessions)
    ensures NoDuplicates(Chosen(sessions, selected))
    decreases |sessions|
  {
    if sessions != [] {
      var front := sessions[..|sessions| - 1];
      ChosenDistinct(front, selected);
      ChosenMembers(front, selected);
    }
  }

  // ------------------------------------------------------------ every store has a snapshot

  lemma SessionsOfStore(db: Db) returns (sessions: seq<Session>)
    requires WellFormed(db)
    ensures NoDuplicates(sessions)
    ensures forall s | s in sessions :: SessionKey(s.id) in db && db[SessionKey(s.id)].SessionRow? && s == SessionOf(db[SessionKey(s.id)])
    ensures forall id | id in SessionIds(db) :: exists s | s in sessions :: s.id == id
  {
    hide SequencesUnique, ReferencesHold;
    var ids := ListedSet(SessionIds(db));
    forall id | id in ids ensures SessionKey(id) in db && db[SessionKey(id)].SessionRow? && db[SessionKey(id)].id == id {
      SessionIdsAreKeys(db, id);
      assert KeyOf(db[SessionKey(id)]) == SessionKey(id);
    }
    sessions := seq(|ids|, i requires 0 <= i < |ids| => SessionAt(db, ids[i]));
    forall id | id in SessionIds(db) ensures exists s | s in sessions :: s.id == id {
      var i :| 0 <= i < |ids| && ids[i] == id;
      assert sessions[i] in sessions && sessions[i].id == id;
    }
  }

  function SessionAt(db: Db, id: Id): Session {
    var k := SessionKey(id);
    if k in db && db[k].SessionRow? then SessionOf(db[k]) else Session(id, Completed, 0, None, None)
  }

  lemma BlobsOfStore(db: Db) returns (blobs: seq<BlobUsage>)
    requires WellFormed(db)
    ensures NoDuplicates(blobs)
    ensures forall b | b in blobs ::
              BlobKey(b.id) in db && db[BlobKey(b.id)].BlobRow? && b.bytes == db[BlobKey(b.id)].stored
              && b.sessions == UsersOf(db, b.id) && b.sessions != {}
    ensures forall id | BlobKey(id) in db && UsersOf(db, id) != {} :: exists b | b in blobs :: b.id == id
  {
    hide SequencesUnique, ReferencesHold, UsersOf;
    var used := set k | k in db && k.BlobKey? && UsersOf(db, k.id) != {};
    var keys := ListedSet(used);
    forall k | k in keys ensures db[k].BlobRow? && db[k].id == k.id {
      assert KeyOf(db[k]) == k;
    }
    blobs := seq(|keys|, i requires 0 <= i < |keys| => BlobAt(db, keys[i]));
    forall b | b in blobs ensures BlobKey(b.id) in used && b == BlobAt(db, BlobKey(b.id)) {
      var i :| 0 <= i < |blobs| && blobs[i] == b;
      assert keys[i] in keys && keys[i] == BlobKey(b.id);
    }
    forall id | BlobKey(id) in db && UsersOf(db, id) != {} ensures exists b | b in blobs :: b.id == id {
      assert BlobKey(id) in used;
      var i :| 0 <= i < |keys| && keys[i] == BlobKey(id);
      assert blobs[i] in blobs && blobs[i].id == id;
    }
  }

  ghost function BlobAt(db: Db, k: Key): BlobUsage {
    if k in db && db[k].BlobRow? && k.BlobKey? then BlobUsage(k.id, db[k].stored, UsersOf(db, k.id)) else BlobUsage("", 0, {})
  }

  /** What is said of a store's snapshots is said of something. */
  lemma SnapshotExists(db: Db) returns (sn: Snapshot)
    requires WellFormed(db)
    ensures SnapshotOf(db, sn)
  {
    hide WellFormed, UsersOf, Evidence;
    var sessions := SessionsOfStore(db);
    var blobs := BlobsOfStore(db);
    sn := Snapshot(sessions, map id | id in SessionIds(db) :: EvidenceBytes(Evidence(db, id)), blobs);
    forall s | s in sessions ensures RecordBytesOf(sn, s.id) == EvidenceBytes(Evidence(db, s.id)) {
      SessionIdsAreKeys(db, s.id);
    }
  }

  // ------------------------------------------------------------ references across sessions

  /** An analysis run of another session that targets an event of this one keeps it from going. */
  lemma AnalysisElsewhereBlocks(db: Db, id: Id, k: Key)
    requires WellFormed(db) && Removable(db, id) && k in db && db[k].AnalysisRow? && db[k].session != id
    requires db[k].target.Some? && EventKey(db[k].target.value) in Owned(db, id)
    ensures RemoveSession(db, id) == None
  {
    hide SequencesUnique, ReferencesHold;
    RemoveSessionMeaning(db, id);
    var p := EventKey(db[k].target.value);
    assert p in Parents(db[k]) && p in Taken(db, id);
    assert k !in Taken(db, id);
  }

  /** A context edge of another session that touches an event of this one goes along. */
  lemma EdgeElsewhereGoesAlong(db: Db, id: Id, k: Key)
    requires WellFormed(db) && Removable(db, id) && k in ForeignEdges(db, id) && RemoveSession(db, id).Some?
    ensures k !in RemoveSession(db, id).value && Owner(db, db[k]) != Some(id) && !Readonly(db, db[k].session)
  {
    hide WellFormed, Owner;
    RemoveSessionMeaning(db, id);
  }

  const CROSSED: seq<Statement> := [
    Insert(SessionRow("a", Completed, 0, None, None, [], map[], 0, "")),
    Insert(SessionRow("b", Completed, 0, None, None, [], map[], 0, "")),
    Insert(EventRow("e", "b", 1, None, None, 0, "")),
    Insert(AnalysisRow("n", "a", Some("e"), None, 0, ""))]

  /** Four plain inserts make a well-formed store in which a finished session cannot be deleted. */
  lemma CrossedStoreBlocks()
    ensures var db := Run(map[], CROSSED);
            && WellFormed(db) && Removable(db, "b") && RemoveSession(db, "b") == None
            && EventKey("e") in db && db[EventKey("e")] == CROSSED[2].row
            && AnalysisKey("n") in db && db[AnalysisKey("n")] == CROSSED[3].row
  {
    hide WellFormed, Run, Execute, RemoveSession;
    var s0: Db := map[];
    var s1 := s0[SessionKey("a") := CROSSED[0].row];
    var s2 := s1[SessionKey("b") := CROSSED[1].row];
    var s3 := s2[EventKey("e") := CROSSED[2].row];
    var s4 := s3[AnalysisKey("n") := CROSSED[3].row];
    EmptyIsWellFormed();
    InsertedNext(s0, CROSSED[0].row);
    InsertedNext(s1, CROSSED[1].row);
    InsertedNext(s2, CROSSED[2].row);
    InsertedNext(s3, CROSSED[3].row);
    RunOfFour(s0, CROSSED);
    assert Run(s0, CROSSED) == s4;
    assert "a"[0] != "b"[0] && s4[SessionKey("b")] == CROSSED[1].row && s4[EventKey("e")] == CROSSED[2].row;
    AnalysisElsewhereBlocks(s4, "b", AnalysisKey("n"));
  }

  lemma EmptyIsWellFormed()
    ensures WellFormed(map[])
  {
  }

  lemma InsertedNext(db: Db, r: Row)
    requires WellFormed(db) && KeyOf(r) !in db && !InsertGuard(db, r) && Parents(r) <= db.Keys
    requires forall k | k in db :: !SameSequence(db[k], r) && !SameSequence(r, db[k])
    ensures Execute(db, Insert(r)) == Some(db[KeyOf(r) := r]) && WellFormed(db[KeyOf(r) := r])
  {
    hide InsertGuard, SameSequence, Parents;
    var next := db[KeyOf(r) := r];
    forall k | k in next ensures Parents(next[k]) <= next.Keys {
      if k in db {
        RowReferences(db, k);
      }
    }
    forall k, k' | k in next && k' in next && SameSequence(next[k], next[k']) ensures k == k' {
    }
  }

  lemma {:induction false} RunOfFour(db: Db, s: seq<Statement>)
    requires |s| == 4
    ensures Run(db, s) == Step(Step(Step(Step(db, s[0]), s[1]), s[2]), s[3])
  {
    hide Step, Run;
    RunFirst(db, s);
    RunFirst(Step(db, s[0]), s[1..]);
    RunFirst(Step(Step(db, s[0]), s[1]), s[2..]);
    RunFirst(Step(Step(Step(db, s[0]), s[1]), s[2]), s[3..]);
    assert s[1..][1..] == s[2..] && s[2..][1..] == s[3..] && s[3..][1..] == [];
    NothingRun(Step(Step(Step(Step(db, s[0]), s[1]), s[2]), s[3]));
  }

  lemma {:induction false} RunFirst(db: Db, s: seq<Statement>)
    requires s != []
    ensures Run(db, s) == Run(Step(db, s[0]), s[1..])
  {
    hide Step;
  }

  lemma {:induction false} NothingRun(db: Db)
    ensures Run(db, []) == db
  {
  }
}
