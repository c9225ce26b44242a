// The evidence tables of the store (packages/storage/src/migrations.ts): primary and
// foreign keys, cascades, and the triggers that guard imported sessions.

module Database {
  import opened Wrappers

  type Id = string

  datatype Status = Active | Completed | Crashed | Incomplete | ImportedReadonly

  /** A value in the metadata of a session. */
  datatype Setting = TextSetting(text: string) | FlagSetting(flag: bool) | JsonSetting(json: string)

  /** `record` stands for the columns no constraint or trigger looks at; `size` is the
      length of the stored JSON record. */
  datatype Row =
    | SessionRow(id: Id, status: Status, startedAt: int, endedAt: Option<int>, analysisTarget: Option<Id>, tags: seq<string>, metadata: map<string, Setting>, size: nat, record: string)
    | SequenceRow(session: Id, next: nat)
    | ExchangeRow(id: Id, session: Id, sequence: nat, requestBlob: Option<Id>, responseBlob: Option<Id>, manifestBlob: Option<Id>, endedAt: Option<int>, size: nat, record: string)
    | EventRow(id: Id, session: Id, sequence: nat, exchange: Option<Id>, payloadBlob: Option<Id>, size: nat, record: string)
    | NormalizationRow(exchangeId: Id, parser: string, eventIds: seq<Id>, size: nat, record: string)
    | ChangeRow(event: Id, patchBlob: Option<Id>, size: nat, record: string)
    | EdgeRow(session: Id, from: Id, to: Id, kind: string, size: nat, record: string)
    | AnalysisRow(id: Id, session: Id, target: Option<Id>, resultBlob: Option<Id>, size: nat, record: string)
    | RedactionRow(id: Id, session: Id, size: nat, record: string)
    | BlobRow(id: Id, stored: nat, record: string)

  datatype Key =
    | SessionKey(id: Id)
    | SequenceKey(session: Id)
    | ExchangeKey(id: Id)
    | EventKey(id: Id)
    | NormalizationKey(exchange: Id, parser: string)
    | ChangeKey(event: Id)
    | EdgeKey(session: Id, from: Id, to: Id, kind: string)
    | AnalysisKey(id: Id)
    | RedactionKey(id: Id)
    | BlobKey(id: Id)

  type Db = map<Key, Row>

  function KeyOf(r: Row): Key {
    match r
    case SessionRow(id, _, _, _, _, _, _, _, _) => SessionKey(id)
    case SequenceRow(session, _) => SequenceKey(session)
    case ExchangeRow(id, _, _, _, _, _, _, _, _) => ExchangeKey(id)
    case EventRow(id, _, _, _, _, _, _) => EventKey(id)
    case NormalizationRow(exchange, parser, _, _, _) => NormalizationKey(exchange, parser)
    case ChangeRow(event, _, _, _) => ChangeKey(event)
    case EdgeRow(session, from, to, kind, _, _) => EdgeKey(session, from, to, kind)
    case AnalysisRow(id, _, _, _, _, _) => AnalysisKey(id)
    case RedactionRow(id, _, _, _) => RedactionKey(id)
    case BlobRow(id, _, _) => BlobKey(id)
  }

  /** Rows share a key exactly when they stand in one table under the same primary key. */
  lemma KeysTellApart(a: Row, b: Row)
    ensures KeyOf(a) == KeyOf(b) <==>
              match (a, b)
              case (EdgeRow(session, from, to, kind, _, _), EdgeRow(session', from', to', kind', _, _)) =>
                session == session' && from == from' && to == to' && kind == kind'
              case (NormalizationRow(exchange, parser, _, _, _), NormalizationRow(exchange', parser', _, _, _)) =>
                exchange == exchange' && parser == parser'
              case (SequenceRow(session, _), SequenceRow(session', _)) => session == session'
              case (ChangeRow(event, _, _, _), ChangeRow(event', _, _, _)) => event == event'
              case (SessionRow(id, _, _, _, _, _, _, _, _), SessionRow(id', _, _, _, _, _, _, _, _)) => id == id'
              case (ExchangeRow(id, _, _, _, _, _, _, _, _), ExchangeRow(id', _, _, _, _, _, _, _, _)) => id == id'
              case (EventRow(id, _, _, _, _, _, _), EventRow(id', _, _, _, _, _, _)) => id == id'
              case (AnalysisRow(id, _, _, _, _, _), AnalysisRow(id', _, _, _, _, _)) => id == id'
              case (RedactionRow(id, _, _, _), RedactionRow(id', _, _, _)) => id == id'
              case (BlobRow(id, _, _), BlobRow(id', _, _)) => id == id'
              case _ => false
  {
  }

  // ------------------------------------------------------------ foreign keys

  /** References declared ON DELETE CASCADE. */
  function CascadeParents(r: Row): set<Key> {
    match r
    case SessionRow(_, _, _, _, _, _, _, _, _) => {}
    case BlobRow(_, _, _) => {}
    case NormalizationRow(exchange, _, _, _, _) => {ExchangeKey(exchange)}
    case ChangeRow(event, _, _, _) => {EventKey(event)}
    case EdgeRow(session, from, to, _, _, _) => {SessionKey(session), EventKey(from), EventKey(to)}
    case _ => {SessionKey(r.session)}
  }

  function BlobRef(o: Option<Id>): set<Key> {
    match o
    case None => {}
    case Some(id) => {BlobKey(id)}
  }

  function BlobRefs(r: Row): set<Key> {
    match r
    case ExchangeRow(_, _, _, request, response, manifest, _, _, _) => BlobRef(request) + BlobRef(response) + BlobRef(manifest)
    case EventRow(_, _, _, _, payload, _, _) => BlobRef(payload)
    case ChangeRow(_, patch, _, _) => BlobRef(patch)
    case AnalysisRow(_, _, _, result, _, _) => BlobRef(result)
    case _ => {}
  }

  /** References without a delete action: the parent must stay. */
  function PlainParents(r: Row): set<Key> {
    BlobRefs(r) + (
      match r
      case EventRow(_, _, _, Some(exchange), _, _, _) => {ExchangeKey(exchange)}
      case AnalysisRow(_, _, Some(event), _, _, _) => {EventKey(event)}
      case _ => {})
  }

  function Parents(r: Row): set<Key> {
    CascadeParents(r) + PlainParents(r)
  }

  predicate ReferencesHold(db: Db) {
    forall k | k in db :: Parents(db[k]) <= db.Keys
  }

  predicate SameSequence(a: Row, b: Row) {
    match (a, b)
    case (ExchangeRow(_, s, n, _, _, _, _, _, _), ExchangeRow(_, s', n', _, _, _, _, _, _)) => s == s' && n == n'
    case (EventRow(_, s, n, _, _, _, _), EventRow(_, s', n', _, _, _, _)) => s == s' && n == n'
    case _ => false
  }

  /** UNIQUE(session_id, sequence) of exchanges and of events. */
  predicate SequencesUnique(db: Db) {
    forall k, k' | k in db && k' in db && SameSequence(db[k], db[k']) :: k == k'
  }

  ghost predicate WellFormed(db: Db) {
    (forall k | k in db :: KeyOf(db[k]) == k) && ReferencesHold(db) && SequencesUnique(db)
  }

  // ------------------------------------------------------------ triggers

  predicate Readonly(db: Db, session: Id) {
    SessionKey(session) in db && db[SessionKey(session)].SessionRow? && db[SessionKey(session)].status == ImportedReadonly
  }

  predicate ExchangeReadonly(db: Db, exchange: Id) {
    var k := ExchangeKey(exchange);
    k in db && db[k].ExchangeRow? && Readonly(db, db[k].session)
  }

  predicate EventReadonly(db: Db, event: Id) {
    var k := EventKey(event);
    k in db && db[k].EventRow? && Readonly(db, db[k].session)
  }

  predicate InsertGuard(db: Db, r: Row) {
    match r
    case SessionRow(_, _, _, _, _, _, _, _, _) => false
    case SequenceRow(_, _) => false
    case BlobRow(_, _, _) => false
    case NormalizationRow(exchange, _, _, _, _) => ExchangeReadonly(db, exchange)
    case ChangeRow(event, _, _, _) => EventReadonly(db, event)
    case _ => Readonly(db, r.session)
  }

  /** The trigger on the sequence table looks at the new session only. */
  predicate UpdateGuard(db: Db, before: Row, after: Row) {
    match (before, after)
    case (SessionRow(_, status, _, _, _, _, _, _, _), _) => status == ImportedReadonly
    case (SequenceRow(_, _), SequenceRow(session, _)) => Readonly(db, session)
    case (BlobRow(_, _, _), _) => false
    case _ => InsertGuard(db, before) || InsertGuard(db, after)
  }

  predicate DeleteGuard(db: Db, r: Row) {
    match r
    case SequenceRow(session, _) => Readonly(db, session)
    case _ => InsertGuard(db, r)
  }

  // ------------------------------------------------------------ statements

  predicate SameTable(a: Row, b: Row) {
    match (a, b)
    case (SessionRow(_, _, _, _, _, _, _, _, _), SessionRow(_, _, _, _, _, _, _, _, _)) => true
    case (SequenceRow(_, _), SequenceRow(_, _)) => true
    case (ExchangeRow(_, _, _, _, _, _, _, _, _), ExchangeRow(_, _, _, _, _, _, _, _, _)) => true
    case (EventRow(_, _, _, _, _, _, _), EventRow(_, _, _, _, _, _, _)) => true
    case (NormalizationRow(_, _, _, _, _), NormalizationRow(_, _, _, _, _)) => true
    case (ChangeRow(_, _, _, _), ChangeRow(_, _, _, _)) => true
    case (EdgeRow(_, _, _, _, _, _), EdgeRow(_, _, _, _, _, _)) => true
    case (AnalysisRow(_, _, _, _, _, _), AnalysisRow(_, _, _, _, _, _)) => true
    case (RedactionRow(_, _, _, _), RedactionRow(_, _, _, _)) => true
    case (BlobRow(_, _, _), BlobRow(_, _, _)) => true
    case _ => false
  }

  datatype Statement = Insert(row: Row) | Update(key: Key, row: Row) | Delete(key: Key)

  /** Rows that a cascade takes along with `gone`. */
  function Children(db: Db, gone: set<Key>): set<Key> {
    set k | k in db && CascadeParents(db[k]) * gone != {}
  }

  function Grandchildren(db: Db, k: Key): set<Key> {
    Children(db, Children(db, {k}))
  }

  /** A session takes two levels along; nothing cascades further. */
  function Doomed(db: Db, k: Key): set<Key> {
    {k} + Children(db, {k}) + Grandchildren(db, k)
  }

  /** A cascaded row's trigger runs after its parent row is gone. */
  predicate DeleteAllowed(db: Db, k: Key)
    requires k in db
  {
    var children := Children(db, {k});
    && !DeleteGuard(db, db[k])
    && (forall c | c in children && c in db :: !DeleteGuard(db - {k}, db[c]))
    && (forall c | c in Grandchildren(db, k) && c !in children && c in db :: !DeleteGuard(db - {k} - children, db[c]))
  }

  /** A statement either takes effect or aborts and changes nothing. */
  function Execute(db: Db, s: Statement): Option<Db> {
    match s
    case Insert(r) =>
      var next := db[KeyOf(r) := r];
      if KeyOf(r) in db || InsertGuard(db, r) || !ReferencesHold(next) || !SequencesUnique(next) then None else Some(next)
    case Update(k, r) =>
      if k !in db || !SameTable(db[k], r) || UpdateGuard(db, db[k], r) then None
      else
        var next := (db - {k})[KeyOf(r) := r];
        if (KeyOf(r) in db && KeyOf(r) != k) || !ReferencesHold(next) || !SequencesUnique(next) then None else Some(next)
    case Delete(k) =>
      if k !in db then Some(db)
      else
        var next := db - Doomed(db, k);
        if !DeleteAllowed(db, k) || !ReferencesHold(next) then None else Some(next)
  }

  function Step(db: Db, s: Statement): Db {
    var r := Execute(db, s);
    if r.Some? then r.value else db
  }

  function Run(db: Db, statements: seq<Statement>): Db
    decreases |statements|
  {
    if statements == [] then db else Run(Step(db, statements[0]), statements[1..])
  }

  lemma StepKeepsWellFormed(db: Db, s: Statement)
    requires WellFormed(db)
    ensures WellFormed(Step(db, s))
  {
    hide Parents, Doomed, InsertGuard, UpdateGuard, DeleteAllowed;
  }

  // ------------------------------------------------------------ imported sessions

  predicate IsEvidence(k: Key) {
    !k.SequenceKey? && !k.BlobKey?
  }

  /** The session a row is evidence of. */
  function Owner(db: Db, r: Row): Option<Id> {
    match r
    case SessionRow(id, _, _, _, _, _, _, _, _) => Some(id)
    case BlobRow(_, _, _) => None
    case NormalizationRow(exchange, _, _, _, _) =>
      var k := ExchangeKey(exchange);
      if k in db && db[k].ExchangeRow? then Some(db[k].session) else None
    case ChangeRow(event, _, _, _) =>
      var k := EventKey(event);
      if k in db && db[k].EventRow? then Some(db[k].session) else None
    case _ => Some(r.session)
  }

  /** Session row, events, exchanges, normalization runs, file changes, edges, analyses
      and redactions of one session. */
  function Evidence(db: Db, session: Id): map<Key, Row> {
    map k | k in db && IsEvidence(k) && Owner(db, db[k]) == Some(session) :: db[k]
  }

  ghost predicate SameEvidence(db: Db, db': Db, session: Id) {
    Evidence(db', session) == Evidence(db, session) && Readonly(db', session)
  }

  /** The triggers cover every row a session owns. */
  lemma GuardCoversOwner(db: Db, r: Row, session: Id)
    requires Readonly(db, session) && Owner(db, r) == Some(session) && !r.SessionRow? && IsEvidence(KeyOf(r))
    ensures InsertGuard(db, r) && DeleteGuard(db, r)
  {
  }

  lemma OwnerAfterInsert(db: Db, r: Row, next: Db, k: Key)
    requires KeyOf(r) !in db && next == db[KeyOf(r) := r] && k in db && Parents(db[k]) <= db.Keys
    ensures Owner(next, db[k]) == Owner(db, db[k])
    ensures Owner(next, r) == Owner(db, r)
  {
  }

  lemma InsertKeepsEvidence(db: Db, r: Row, session: Id)
    requires WellFormed(db) && Readonly(db, session)
    ensures SameEvidence(db, Step(db, Insert(r)), session)
  {
    hide SequencesUnique, ReferencesHold, InsertGuard, Owner, Parents;
    var next := db[KeyOf(r) := r];
    if Execute(db, Insert(r)) == Some(next) {
      OwnerAfterInsert(db, r, next, SessionKey(session)) by {
        RowReferences(db, SessionKey(session));
      }
      forall k | k in db ensures Owner(next, db[k]) == Owner(db, db[k]) {
        RowReferences(db, k);
        OwnerAfterInsert(db, r, next, k);
      }
      if IsEvidence(KeyOf(r)) && Owner(db, r) == Some(session) {
        if r.SessionRow? {
          SessionOwnsItself(db, r);
        } else {
          GuardCoversOwner(db, r, session);
        }
      }
    }
  }

  lemma SessionOwnsItself(db: Db, r: Row)
    requires r.SessionRow?
    ensures Owner(db, r) == Some(r.id) && KeyOf(r) == SessionKey(r.id)
  {
  }

  lemma RowReferences(db: Db, k: Key)
    requires ReferencesHold(db) && k in db
    ensures Parents(db[k]) <= db.Keys
  {
  }

  lemma UpdateKeepsEvidence(db: Db, k: Key, r: Row, session: Id)
    requires WellFormed(db) && Readonly(db, session)
    ensures SameEvidence(db, Step(db, Update(k, r)), session)
  {
    hide SequencesUnique, ReferencesHold;
    var next := Step(db, Update(k, r));
    if next != db {
      assert next == (db - {k})[KeyOf(r) := r];
      UpdatedRowIsElsewhere(db, k, r, next, session);
      forall k' | k' in db && k' != k ensures Owner(next, db[k']) == Some(session) <==> Owner(db, db[k']) == Some(session) {
        OwnerAfterUpdate(db, k, r, next, k', session);
      }
      assert Evidence(next, session) == Evidence(db, session);
    }
  }

  ghost predicate Updated(db: Db, k: Key, r: Row, next: Db) {
    && k in db && SameTable(db[k], r) && !UpdateGuard(db, db[k], r)
    && next == (db - {k})[KeyOf(r) := r]
    && (KeyOf(r) in db ==> KeyOf(r) == k)
    && ReferencesHold(next)
  }

  lemma OwnerIgnoresOwnTable(db: Db, k: Key, r: Row, next: Db)
    requires k in db && KeyOf(db[k]) == k && SameTable(db[k], r) && next == (db - {k})[KeyOf(r) := r]
    ensures Owner(next, r) == Owner(db, r)
    ensures IsEvidence(k) <==> IsEvidence(KeyOf(r))
    ensures k.SessionKey? <==> r.SessionRow?
    ensures UpdateGuard(db, db[k], r)
       <==> match r
            case SessionRow(_, _, _, _, _, _, _, _, _) => db[k].status == ImportedReadonly
            case SequenceRow(new_session, _) => Readonly(db, new_session)
            case BlobRow(_, _, _) => false
            case _ => InsertGuard(db, db[k]) || InsertGuard(db, r)
  {
    hide InsertGuard;
  }

  lemma UpdatedRowIsElsewhere(db: Db, k: Key, r: Row, next: Db, session: Id)
    requires WellFormed(db) && Readonly(db, session) && Updated(db, k, r, next)
    ensures Readonly(next, session)
    ensures IsEvidence(k) ==> Owner(db, db[k]) != Some(session)
    ensures IsEvidence(KeyOf(r)) ==> Owner(next, r) != Some(session)
    ensures IsEvidence(k) <==> IsEvidence(KeyOf(r))
  {
    hide SequencesUnique, ReferencesHold, InsertGuard, UpdateGuard, SameTable;
    OwnerIgnoresOwnTable(db, k, r, next);
    assert KeyOf(db[k]) == k;
    if r.SessionRow? {
      assert k != SessionKey(session);
    } else {
      hide Owner;
      if IsEvidence(k) && Owner(db, db[k]) == Some(session) {
        GuardCoversOwner(db, db[k], session);
      }
      if IsEvidence(KeyOf(r)) && Owner(db, r) == Some(session) {
        GuardCoversOwner(db, r, session);
      }
    }
  }

  lemma OwnerAfterUpdate(db: Db, k: Key, r: Row, next: Db, k': Key, session: Id)
    requires WellFormed(db) && Readonly(db, session) && Updated(db, k, r, next)
    requires k' in db && k' != k
    ensures Owner(next, db[k']) == Some(session) <==> Owner(db, db[k']) == Some(session)
  {
    hide SequencesUnique, ReferencesHold;
    RowReferences(db, k');
    RowReferences(next, k');
    var row := db[k'];
    match row {
      case NormalizationRow(exchange, _, _, _, _) => OwnerThrough(db, k, r, next, ExchangeKey(exchange), session);
      case ChangeRow(event, _, _, _) => OwnerThrough(db, k, r, next, EventKey(event), session);
      case _ =>
    }
  }

  /** An exchange or event that a row belongs to keeps its side of the fence. */
  lemma OwnerThrough(db: Db, k: Key, r: Row, next: Db, p: Key, session: Id)
    requires WellFormed(db) && Readonly(db, session) && Updated(db, k, r, next)
    requires p in db && p in next && (p.ExchangeKey? || p.EventKey?)
    ensures db[p].ExchangeRow? || db[p].EventRow?
    ensures SameTable(db[p], next[p])
    ensures db[p].session == session <==> next[p].session == session
  {
    hide SequencesUnique, ReferencesHold;
    assert KeyOf(db[p]) == p;
    assert KeyOf(db[k]) == k;
  }

  lemma ChildIsElsewhere(db: Db, k: Key, session: Id, c: Key)
    requires WellFormed(db) && Readonly(db, session)
    requires k in db && k != SessionKey(session) && Owner(db, db[k]) != Some(session)
    requires c in Children(db, {k}) && !DeleteGuard(db - {k}, db[c])
    ensures IsEvidence(c) ==> Owner(db, db[c]) != Some(session)
  {
    hide SequencesUnique, ReferencesHold;
    assert k in CascadeParents(db[c]);
    assert KeyOf(db[c]) == c && KeyOf(db[k]) == k;
    assert Readonly(db - {k}, session);
  }

  lemma GrandchildIsElsewhere(db: Db, k: Key, session: Id, p: Key, c: Key)
    requires WellFormed(db) && Readonly(db, session)
    requires p in db && !p.SessionKey? && Owner(db, db[p]) != Some(session)
    requires c in Children(db, {p}) && !DeleteGuard(db - {k} - Children(db, {k}), db[c]) && k != SessionKey(session)
    ensures IsEvidence(c) ==> Owner(db, db[c]) != Some(session)
  {
    hide SequencesUnique, ReferencesHold;
    assert p in CascadeParents(db[c]);
    assert KeyOf(db[c]) == c && KeyOf(db[p]) == p;
    SessionsAreNoChildren(db, k, session);
    assert Readonly(db - {k} - Children(db, {k}), session);
  }

  lemma SessionsAreNoChildren(db: Db, k: Key, session: Id)
    requires WellFormed(db)
    ensures SessionKey(session) !in Children(db, {k})
    ensures forall c | c in Children(db, {k}) :: !c.SessionKey?
  {
    hide SequencesUnique, ReferencesHold;
    forall c | c in Children(db, {k}) ensures !c.SessionKey? {
      assert KeyOf(db[c]) == c;
    }
  }

  /** No cascade reaches evidence of an imported session from outside. */
  lemma DoomedIsElsewhere(db: Db, k: Key, session: Id, c: Key)
    requires WellFormed(db) && Readonly(db, session)
    requires k in db && k != SessionKey(session) && DeleteAllowed(db, k)
    requires c in Doomed(db, k) && IsEvidence(c)
    ensures c in db && Owner(db, db[c]) != Some(session)
  {
    hide DeleteGuard, Owner, CascadeParents, WellFormed;
    RootIsElsewhere(db, k, session);
    if c != k {
      if c in Children(db, {k}) {
        ChildIsElsewhere(db, k, session, c);
      } else {
        var p :| p in Children(db, {k}) && p in CascadeParents(db[c]);
        SessionsAreNoChildren(db, k, session);
        if IsEvidence(p) {
          ChildIsElsewhere(db, k, session, p);
        } else {
          NoChildrenOf(db, p, c);
        }
        assert p in CascadeParents(db[c]) * {p};
        GrandchildIsElsewhere(db, k, session, p, c);
      }
    }
  }

  lemma RootIsElsewhere(db: Db, k: Key, session: Id)
    requires WellFormed(db) && Readonly(db, session)
    requires k in db && k != SessionKey(session) && !DeleteGuard(db, db[k])
    ensures IsEvidence(k) ==> Owner(db, db[k]) != Some(session)
    ensures !IsEvidence(k) ==> Children(db, {k}) == {}
  {
    hide SequencesUnique, ReferencesHold, DeleteGuard;
    assert KeyOf(db[k]) == k;
    if IsEvidence(k) && !k.SessionKey? && Owner(db, db[k]) == Some(session) {
      GuardCoversOwner(db, db[k], session);
    }
    forall c | c in Children(db, {k}) ensures IsEvidence(k) {
      assert k in CascadeParents(db[c]);
    }
  }

  lemma NoChildrenOf(db: Db, p: Key, c: Key)
    requires c in db && p in CascadeParents(db[c])
    ensures IsEvidence(p)
  {
  }

  lemma DeleteKeepsEvidence(db: Db, k: Key, session: Id)
    requires WellFormed(db) && Readonly(db, session) && k != SessionKey(session)
    ensures SameEvidence(db, Step(db, Delete(k)), session)
  {
    hide SequencesUnique, DeleteAllowed, Doomed, ReferencesHold;
    var next := Step(db, Delete(k));
    if next != db {
      assert next == db - Doomed(db, k);
      forall c | c in Doomed(db, k) && IsEvidence(c) ensures c in db && Owner(db, db[c]) != Some(session) {
        DoomedIsElsewhere(db, k, session, c);
      }
      forall k' | k' in next ensures Owner(next, db[k']) == Owner(db, db[k']) {
        RowReferences(next, k');
      }
      assert SessionKey(session) in next;
      assert Evidence(next, session) == Evidence(db, session);
    }
  }

  /** From the moment a session is imported, no sequence of statements changes its
      evidence or adds to it, until its own session row is deleted. */
  lemma {:induction false} ImportedEvidenceIsImmutable(db: Db, statements: seq<Statement>, session: Id)
    requires WellFormed(db) && Readonly(db, session)
    requires Delete(SessionKey(session)) !in statements
    ensures SameEvidence(db, Run(db, statements), session)
    decreases |statements|
  {
    hide WellFormed, Evidence, Execute;
    if statements != [] {
      var s := statements[0];
      match s {
        case Insert(r) => InsertKeepsEvidence(db, r, session);
        case Update(k, r) => UpdateKeepsEvidence(db, k, r, session);
        case Delete(k) => DeleteKeepsEvidence(db, k, session);
      }
      StepKeepsWellFormed(db, s);
      ImportedEvidenceIsImmutable(Step(db, s), statements[1..], session);
    }
  }

  /** The one statement that the guard on the sequence table misses: it hands the counter of
      an imported session over to a session that is not imported and has none. */
  predicate MovesCounter(db: Db, session: Id, s: Statement) {
    && s.Update? && s.key == SequenceKey(session) && s.row.SequenceRow?
    && s.row.session != session && !Readonly(db, s.row.session)
    && SessionKey(s.row.session) in db && SequenceKey(s.row.session) !in db
  }

  predicate SameCounter(db: Db, next: Db, session: Id) {
    var k := SequenceKey(session);
    k in db && k in next && next[k] == db[k]
  }

  lemma CounterSurvivesDelete(db: Db, k: Key, session: Id)
    requires WellFormed(db) && Readonly(db, session) && SequenceKey(session) in db && k != SessionKey(session)
    ensures SameCounter(db, Step(db, Delete(k)), session)
  {
    hide SequencesUnique, ReferencesHold, DeleteAllowed;
    var counter := SequenceKey(session);
    assert KeyOf(db[counter]) == counter && CascadeParents(db[counter]) == {SessionKey(session)};
    SessionsAreNoChildren(db, k, session);
    if k == counter {
      CounterDeleteIsGuarded(db, session);
    }
  }

  lemma CounterDeleteIsGuarded(db: Db, session: Id)
    requires Readonly(db, session) && SequenceKey(session) in db && KeyOf(db[SequenceKey(session)]) == SequenceKey(session)
    ensures !DeleteAllowed(db, SequenceKey(session))
  {
  }

  lemma CounterUpdate(db: Db, k: Key, r: Row, session: Id)
    requires WellFormed(db) && Readonly(db, session) && SequenceKey(session) in db
    ensures SameCounter(db, Step(db, Update(k, r)), session) <==> !MovesCounter(db, session, Update(k, r))
  {
    hide SequencesUnique, ReferencesHold, InsertGuard;
    var counter := SequenceKey(session);
    assert KeyOf(db[counter]) == counter;
    if MovesCounter(db, session, Update(k, r)) {
      MovedCounterFits(db, k, r);
    } else if k == counter && r.SequenceRow? && SessionKey(r.session) !in db {
      NewRowReferences(db, k, r, SessionKey(r.session));
    }
  }

  lemma NewRowReferences(db: Db, k: Key, r: Row, p: Key)
    requires p in Parents(r) && p !in db && p != KeyOf(r)
    ensures !ReferencesHold((db - {k})[KeyOf(r) := r])
  {
    var next := (db - {k})[KeyOf(r) := r];
    assert next[KeyOf(r)] == r && p !in next;
  }

  /** Exactly when a statement leaves the counter of an imported session as it is. */
  lemma CounterIsKeptExactly(db: Db, s: Statement, session: Id)
    requires WellFormed(db) && Readonly(db, session) && SequenceKey(session) in db && s != Delete(SessionKey(session))
    ensures SameCounter(db, Step(db, s), session) <==> !MovesCounter(db, session, s)
  {
    hide WellFormed, Execute;
    match s {
      case Insert(r) => CounterSurvivesInsert(db, r, session);
      case Update(k, r) => CounterUpdate(db, k, r, session);
      case Delete(k) => CounterSurvivesDelete(db, k, session);
    }
  }

  lemma CounterSurvivesInsert(db: Db, r: Row, session: Id)
    requires SequenceKey(session) in db
    ensures SameCounter(db, Step(db, Insert(r)), session)
  {
    hide InsertGuard, ReferencesHold, SequencesUnique;
  }

  lemma {:induction false} RunNext(db: Db, statements: seq<Statement>, i: nat)
    requires i < |statements|
    ensures Run(db, statements[..i + 1]) == Step(Run(db, statements[..i]), statements[i])
    decreases i
  {
    hide Execute;
    if i > 0 {
      assert statements[..i + 1][1..] == statements[1..][..i] && statements[..i][1..] == statements[1..][..i - 1];
      RunNext(Step(db, statements[0]), statements[1..], i - 1);
    }
  }

  lemma {:induction false} RunKeepsWellFormed(db: Db, statements: seq<Statement>)
    requires WellFormed(db)
    ensures WellFormed(Run(db, statements))
    decreases |statements|
  {
    hide WellFormed, Execute;
    if statements != [] {
      StepKeepsWellFormed(db, statements[0]);
      RunKeepsWellFormed(Step(db, statements[0]), statements[1..]);
    }
  }

  /** The first `n` statements leave the counter alone at every point. */
  ghost predicate CounterStays(db: Db, statements: seq<Statement>, session: Id, n: nat)
    requires n <= |statements|
  {
    forall i | 0 <= i <= n :: SameCounter(db, Run(db, statements[..i]), session)
  }

  ghost predicate NeverMoved(db: Db, statements: seq<Statement>, session: Id, n: nat)
    requires n <= |statements|
  {
    forall i | 0 <= i < n :: !MovesCounter(Run(db, statements[..i]), session, statements[i])
  }

  /** Over any sequence of statements, until the session row itself is deleted, the counter of
      an imported session stays as it is if and only if no statement hands it over. */
  lemma {:induction false} CounterStaysExactly(db: Db, statements: seq<Statement>, session: Id, n: nat)
    requires WellFormed(db) && Readonly(db, session) && SequenceKey(session) in db
    requires Delete(SessionKey(session)) !in statements && n <= |statements|
    ensures CounterStays(db, statements, session, n) <==> NeverMoved(db, statements, session, n)
    decreases n
  {
    hide WellFormed, Execute, MovesCounter, SameCounter, Evidence;
    if n == 0 {
      assert Run(db, statements[..0]) == db;
      SameCounterItself(db, session);
    } else {
      CounterStaysExactly(db, statements, session, n - 1);
      if CounterStays(db, statements, session, n - 1) {
        var now := Run(db, statements[..n - 1]);
        RunNext(db, statements, n - 1);
        RunKeepsWellFormed(db, statements[..n - 1]);
        ImportedEvidenceIsImmutable(db, statements[..n - 1], session);
        SameCounterChain(db, now, Step(now, statements[n - 1]), session);
        CounterIsKeptExactly(now, statements[n - 1], session);
      }
    }
  }

  lemma SameCounterItself(db: Db, session: Id)
    requires SequenceKey(session) in db
    ensures SameCounter(db, db, session)
  {
  }

  lemma SameCounterChain(db: Db, now: Db, next: Db, session: Id)
    requires SameCounter(db, now, session)
    ensures SequenceKey(session) in now
    ensures SameCounter(db, next, session) <==> SameCounter(now, next, session)
  {
  }

  /** The missed statement takes effect, and as nothing guards inserts into the sequence table
      the imported session can then be given any counter. */
  lemma ImportedCounterCanBeMoved(db: Db, session: Id, s: Statement, n: nat)
    requires WellFormed(db) && Readonly(db, session) && SequenceKey(session) in db && MovesCounter(db, session, s)
    ensures Execute(db, s).Some? && SequenceKey(session) !in Step(db, s)
    ensures Execute(Step(db, s), Insert(SequenceRow(session, n))).Some?
  {
    hide SequencesUnique, ReferencesHold;
    var k, r := s.key, s.row;
    assert KeyOf(db[k]) == k;
    MovedCounterFits(db, k, r);
    CounterInsertFits(Step(db, s), session, n) by {
      StepKeepsWellFormed(db, s);
    }
  }

  lemma CounterInsertFits(db: Db, session: Id, n: nat)
    requires WellFormed(db) && SequenceKey(session) !in db && SessionKey(session) in db
    ensures Execute(db, Insert(SequenceRow(session, n))).Some?
  {
    hide SameSequence, Parents;
    var r := SequenceRow(session, n);
    var next := db[KeyOf(r) := r];
    assert Parents(r) == {SessionKey(session)} by {
      CounterParents(session, n);
    }
    forall k | k in next ensures Parents(next[k]) <= next.Keys {
      if k in db {
        RowReferences(db, k);
      }
    }
    forall k, k' | k in next && k' in next && SameSequence(next[k], next[k']) ensures k == k' {
      CountersHaveNoSequence(r, next[k]);
      CountersHaveNoSequence(r, next[k']);
    }
  }

  lemma CounterParents(session: Id, n: nat)
    ensures Parents(SequenceRow(session, n)) == {SessionKey(session)}
  {
  }

  lemma CountersHaveNoSequence(r: Row, other: Row)
    requires r.SequenceRow?
    ensures !SameSequence(r, other) && !SameSequence(other, r)
  {
  }

  lemma MovedCounterFits(db: Db, k: Key, r: Row)
    requires WellFormed(db) && k in db && db[k].SequenceRow? && r.SequenceRow? && SessionKey(r.session) in db && k.SequenceKey?
    ensures var next := (db - {k})[KeyOf(r) := r]; ReferencesHold(next) && SequencesUnique(next)
  {
    var next := (db - {k})[KeyOf(r) := r];
    forall k' | k' in next ensures Parents(next[k']) <= next.Keys {
      if k' in db {
        RowReferences(db, k');
      }
      NoCounterAmongParents(next[k'], k);
    }
  }

  lemma NoCounterAmongParents(r: Row, k: Key)
    requires k.SequenceKey?
    ensures k !in Parents(r)
  {
  }
}
