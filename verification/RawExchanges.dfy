// The journal of raw exchanges and their normalizations
// (packages/storage/src/raw-exchange-repository.ts, packages/storage/src/event-repository.ts).

module RawExchanges {
  import opened Wrappers
  import opened Ordering

  type Id = string

  datatype JournalState = Recording | Complete | Recovered

  datatype ParseStatus = Pending | Parsed | Unsupported | Malformed | Skipped

  datatype Outcome = Completed | ClientDisconnected | UpstreamDisconnected | Timeout | UpstreamError | CaptureIncomplete

  datatype BlobReference = BlobReference(id: Id, sha256: string)

  /** `request` stands for method, path, protocol, query and request headers; `response` for
      the response's status, headers, stream manifest, first byte and capture counters. */
  datatype Exchange = Exchange(
    id: Id, sessionId: Id, sequence: nat, startedAt: string, request: string, requestBody: Option<BlobReference>,
    response: string, responseBody: Option<BlobReference>, endedAt: Option<string>, outcome: Outcome,
    parseStatus: ParseStatus, responseComplete: bool)

  datatype Row = Row(exchange: Exchange, state: JournalState)

  datatype Event = Event(id: Id, sessionId: Id, sequence: nat, content: string)

  datatype NormalizationRun = NormalizationRun(requestSha256: Option<string>, responseSha256: Option<string>, eventIds: seq<Id>)

  datatype Store = Store(exchanges: map<Id, Row>, events: map<Id, Event>, runs: map<(Id, string), NormalizationRun>)

  datatype StorageError = ImmutableEvidence | StorageIntegrity | Constraint

  datatype Change =
    | Begin(exchange: Exchange)
    | InsertComplete(exchange: Exchange)
    | InsertArchived(exchange: Exchange, recovered: bool)
    | Finalize(exchange: Exchange)
    | RecoverIncomplete(recoveredAt: string)
    | Normalize(exchangeId: Id, parserVersion: string, events: seq<Event>, parseStatus: ParseStatus)

  // ------------------------------------------------------------ exchanges

  function Insert(s: Store, e: Exchange, state: JournalState): Result<Store, StorageError> {
    if e.id in s.exchanges
       || exists k :: k in s.exchanges && s.exchanges[k].exchange.sessionId == e.sessionId && s.exchanges[k].exchange.sequence == e.sequence
    then Err(Constraint)
    else Ok(s.(exchanges := s.exchanges[e.id := Row(e, state)]))
  }

  /** What a finalization may not touch; a request body may be added but not replaced. */
  predicate SameIdentity(existing: Exchange, replacement: Exchange) {
    && existing.sessionId == replacement.sessionId && existing.sequence == replacement.sequence
    && existing.startedAt == replacement.startedAt && existing.request == replacement.request
    && (existing.requestBody.Some? ==> existing.requestBody == replacement.requestBody)
  }

  function FinalizeExchange(s: Store, e: Exchange): Result<Store, StorageError> {
    if e.id !in s.exchanges || s.exchanges[e.id].state != Recording || e.endedAt.None?
       || !SameIdentity(s.exchanges[e.id].exchange, e)
    then Err(ImmutableEvidence)
    else Ok(s.(exchanges := s.exchanges[e.id := Row(e, Complete)]))
  }

  function RecoveredExchange(e: Exchange, recoveredAt: string): Exchange {
    e.(endedAt := if e.endedAt.Some? then e.endedAt else Some(recoveredAt),
       outcome := CaptureIncomplete,
       parseStatus := if e.parseStatus == Pending then Skipped else e.parseStatus,
       responseComplete := false)
  }

  function RecoveredRow(r: Row, recoveredAt: string): Row {
    if r.state == Recording then Row(RecoveredExchange(r.exchange, recoveredAt), Recovered) else r
  }

  function RecoverAll(s: Store, recoveredAt: string): Store {
    s.(exchanges := map id | id in s.exchanges :: RecoveredRow(s.exchanges[id], recoveredAt))
  }

  // ------------------------------------------------------------ normalizations

  function Sha(body: Option<BlobReference>): Option<string> {
    if body.Some? then Some(body.value.sha256) else None
  }

  function Ids(events: seq<Event>): (r: seq<Id>)
    ensures |r| == |events|
  {
    seq(|events|, i requires 0 <= i < |events| => events[i].id)
  }

  /** The run was made from the same raw bodies and gave exactly these events. */
  predicate SameRun(s: Store, run: NormalizationRun, e: Exchange, events: seq<Event>) {
    && run.requestSha256 == Sha(e.requestBody) && run.responseSha256 == Sha(e.responseBody)
    && run.eventIds == Ids(events)
    && forall i | 0 <= i < |events| :: events[i].id in s.events && s.events[events[i].id] == events[i]
  }

  /** Rows of events one by one; a repeated identifier or sequence number fails the whole. */
  function InsertEvents(stored: map<Id, Event>, events: seq<Event>): Option<map<Id, Event>>
    decreases |events|
  {
    if events == [] then Some(stored)
    else
      match InsertEvents(stored, events[..|events| - 1])
      case None => None
      case Some(m) =>
        var e := events[|events| - 1];
        if e.id in m || exists k :: k in m && m[k].sessionId == e.sessionId && m[k].sequence == e.sequence then None
        else Some(m[e.id := e])
  }

  /** The result is the store afterwards and whether anything was inserted. */
  function NormalizeExchange(s: Store, id: Id, version: string, events: seq<Event>, parseStatus: ParseStatus): Result<(Store, bool), StorageError> {
    if id !in s.exchanges then Err(ImmutableEvidence)
    else
      var e := s.exchanges[id].exchange;
      if (id, version) in s.runs then
        if SameRun(s, s.runs[(id, version)], e, events) then Ok((s, false)) else Err(StorageIntegrity)
      else if exists event | event in events :: event.sessionId != e.sessionId then Err(ImmutableEvidence)
      else
        match InsertEvents(s.events, events)
        case None => Err(Constraint)
        case Some(m) =>
          var run := NormalizationRun(Sha(e.requestBody), Sha(e.responseBody), Ids(events));
          var row := s.exchanges[id].(exchange := e.(parseStatus := parseStatus));
          Ok((Store(s.exchanges[id := row], m, s.runs[(id, version) := run]), true))
  }

  // ------------------------------------------------------------ steps and runs

  /** A refused change leaves the store as it is. */
  function Step(s: Store, c: Change): Store {
    match c
    case Begin(e) => if e.endedAt.Some? || e.responseComplete then s else Kept(s, Insert(s, e, Recording))
    case InsertComplete(e) => if e.endedAt.None? then s else Kept(s, Insert(s, e, Complete))
    case InsertArchived(e, recovered) => if e.endedAt.None? then s else Kept(s, Insert(s, e, if recovered then Recovered else Complete))
    case Finalize(e) => Kept(s, FinalizeExchange(s, e))
    case RecoverIncomplete(at) => RecoverAll(s, at)
    case Normalize(id, version, events, parseStatus) =>
      if parseStatus == Pending then s
      else
        match NormalizeExchange(s, id, version, events, parseStatus)
        case Ok((next, _)) => next
        case Err(_) => s
  }

  function Kept(s: Store, r: Result<Store, StorageError>): Store {
    if r.Ok? then r.value else s
  }

  function Run(s: Store, changes: seq<Change>): Store
    decreases |changes|
  {
    if changes == [] then s else Step(Run(s, changes[..|changes| - 1]), changes[|changes| - 1])
  }

  ghost predicate WellFormed(s: Store) {
    && (forall id | id in s.exchanges :: s.exchanges[id].exchange.id == id)
    && (forall id | id in s.events :: s.events[id].id == id)
  }

  /** How an exchange may have changed: its identity never; once it is no longer recording, only
      its parse status, and its state never again. */
  ghost predicate Later(before: Row, after: Row) {
    && after.exchange.sessionId == before.exchange.sessionId && after.exchange.sequence == before.exchange.sequence
    && after.exchange.startedAt == before.exchange.startedAt && after.exchange.request == before.exchange.request
    && (before.exchange.requestBody.Some? ==> after.exchange.requestBody == before.exchange.requestBody)
    && (before.state != Recording ==>
          after.state == before.state && after.exchange == before.exchange.(parseStatus := after.exchange.parseStatus))
  }

  ghost predicate StoreLater(s: Store, s': Store) {
    && (forall id | id in s.exchanges :: id in s'.exchanges && Later(s.exchanges[id], s'.exchanges[id]))
    && (forall id | id in s.events :: id in s'.events && s'.events[id] == s.events[id])
    && (forall k | k in s.runs :: k in s'.runs && s'.runs[k] == s.runs[k])
  }

  lemma {:induction false} EventsOnlyAdded(stored: map<Id, Event>, events: seq<Event>)
    requires InsertEvents(stored, events).Some?
    ensures var m := InsertEvents(stored, events).value;
            && (forall id | id in stored :: id in m && m[id] == stored[id])
            && (forall i | 0 <= i < |events| :: events[i].id in m && m[events[i].id] == events[i])
            && (forall id | id in m && id !in stored :: m[id].id == id)
    decreases |events|
  {
    if events != [] {
      EventsOnlyAdded(stored, events[..|events| - 1]);
    }
  }

  lemma InsertIsLater(s: Store, e: Exchange, state: JournalState)
    requires WellFormed(s)
    ensures WellFormed(Kept(s, Insert(s, e, state))) && StoreLater(s, Kept(s, Insert(s, e, state)))
  {
  }

  lemma FinalizeIsLater(s: Store, e: Exchange)
    requires WellFormed(s)
    ensures WellFormed(Kept(s, FinalizeExchange(s, e))) && StoreLater(s, Kept(s, FinalizeExchange(s, e)))
  {
  }

  lemma RecoveryIsLater(s: Store, at: string)
    requires WellFormed(s)
    ensures WellFormed(RecoverAll(s, at)) && StoreLater(s, RecoverAll(s, at))
  {
  }

  lemma NormalizationIsLater(s: Store, id: Id, version: string, events: seq<Event>, status: ParseStatus)
    requires WellFormed(s)
    ensures var r := NormalizeExchange(s, id, version, events, status);
            r.Ok? ==> WellFormed(r.value.0) && StoreLater(s, r.value.0)
  {
    hide InsertEvents, SameRun, Ids, Sha, Later, WellFormed, StoreLater;
    SameIsLater(s);
    if InsertEvents(s.events, events).Some? {
      EventsOnlyAdded(s.events, events);
      if id in s.exchanges && (id, version) !in s.runs {
        var row := s.exchanges[id].(exchange := s.exchanges[id].exchange.(parseStatus := status));
        var run := NormalizationRun(Sha(s.exchanges[id].exchange.requestBody), Sha(s.exchanges[id].exchange.responseBody), Ids(events));
        NormalizedIsLater(s, id, row, InsertEvents(s.events, events).value, (id, version), run);
      }
    }
  }

  lemma NormalizedIsLater(s: Store, id: Id, row: Row, events: map<Id, Event>, k: (Id, string), run: NormalizationRun)
    requires WellFormed(s) && id in s.exchanges && k !in s.runs
    requires row == s.exchanges[id].(exchange := s.exchanges[id].exchange.(parseStatus := row.exchange.parseStatus))
    requires (forall x | x in s.events :: x in events && events[x] == s.events[x]) && forall x | x in events && x !in s.events :: events[x].id == x
    ensures var t := Store(s.exchanges[id := row], events, s.runs[k := run]); WellFormed(t) && StoreLater(s, t)
  {
  }

  lemma StepIsLater(s: Store, c: Change)
    requires WellFormed(s)
    ensures WellFormed(Step(s, c)) && StoreLater(s, Step(s, c))
  {
    hide WellFormed, StoreLater, Insert, FinalizeExchange, RecoverAll, NormalizeExchange, Kept;
    SameIsLater(s);
    match c {
      case Begin(e) => InsertIsLater(s, e, Recording);
      case InsertComplete(e) => InsertIsLater(s, e, Complete);
      case InsertArchived(e, recovered) => InsertIsLater(s, e, if recovered then Recovered else Complete);
      case Finalize(e) => FinalizeIsLater(s, e);
      case RecoverIncomplete(at) => RecoveryIsLater(s, at);
      case Normalize(id, version, events, status) => NormalizationIsLater(s, id, version, events, status);
    }
  }

  lemma LaterOn(s: Store, t: Store, u: Store)
    requires StoreLater(s, t) && StoreLater(t, u)
    ensures StoreLater(s, u)
  {
  }

  /** In every run: no exchange returns to recording, one that has left that state changes only
      its parse status, and events and normalizations are never changed. */
  lemma {:induction false} RunIsLater(s: Store, changes: seq<Change>)
    requires WellFormed(s)
    ensures WellFormed(Run(s, changes)) && StoreLater(s, Run(s, changes))
    decreases |changes|
  {
    hide Step, StoreLater, WellFormed;
    if changes == [] {
      SameIsLater(s);
    } else {
      var front := changes[..|changes| - 1];
      RunIsLater(s, front);
      StepIsLater(Run(s, front), changes[|changes| - 1]);
      LaterOn(s, Run(s, front), Run(s, changes));
    }
  }

  lemma SameIsLater(s: Store)
    ensures StoreLater(s, s)
  {
  }

  // ------------------------------------------------------------ recovery

  /** Recovery leaves nothing recording, touches nothing else, and is idempotent. */
  lemma RecoveryIsComplete(s: Store, at: string, again: string)
    ensures var r := RecoverAll(s, at);
            && (forall id | id in r.exchanges :: r.exchanges[id].state != Recording)
            && (forall id | id in s.exchanges && s.exchanges[id].state != Recording :: r.exchanges[id] == s.exchanges[id])
            && RecoverAll(r, again) == r
  {
    var r := RecoverAll(s, at);
    assert RecoverAll(r, again).exchanges == r.exchanges;
  }

  /** What an interrupted exchange is after its recovery: it ended at its end or else when it was
      recovered, its capture is incomplete, and a parse still pending is skipped. */
  ghost predicate Interrupted(before: Exchange, after: Exchange, at: string) {
    && after.outcome == CaptureIncomplete && !after.responseComplete
    && after.endedAt == Some(if before.endedAt.Some? then before.endedAt.value else at)
    && (before.parseStatus == Pending ==> after.parseStatus == Skipped)
    && (before.parseStatus != Pending ==> after.parseStatus == before.parseStatus)
    && after.id == before.id && after.sessionId == before.sessionId && after.sequence == before.sequence
    && after.startedAt == before.startedAt && after.request == before.request && after.requestBody == before.requestBody
    && after.response == before.response && after.responseBody == before.responseBody
  }

  lemma RecoveryIsHonest(s: Store, at: string, id: Id)
    requires id in s.exchanges && s.exchanges[id].state == Recording
    ensures var r := RecoverAll(s, at);
            && r.exchanges.Keys == s.exchanges.Keys && r.events == s.events && r.runs == s.runs
            && r.exchanges[id].state == Recovered && Interrupted(s.exchanges[id].exchange, r.exchanges[id].exchange, at)
  {
  }

  lemma {:induction false} RunSplit(s: Store, a: seq<Change>, b: seq<Change>)
    ensures Run(s, a + b) == Run(Run(s, a), b)
    decreases |b|
  {
    hide Step;
    if b == [] {
      assert a + b == a;
    } else {
      assert (a + b)[..|a + b| - 1] == a + b[..|b| - 1];
      RunSplit(s, a, b[..|b| - 1]);
    }
  }

  /** Whatever happens later, an exchange that was recovered says so: its capture was cut short. */
  lemma {:induction false} RecoveredStaysIncomplete(s: Store, before: seq<Change>, at: string, after: seq<Change>, id: Id)
    requires WellFormed(s)
    requires id in Run(s, before).exchanges && Run(s, before).exchanges[id].state == Recording
    ensures var end := Run(s, before + [RecoverIncomplete(at)] + after);
            && id in end.exchanges && end.exchanges[id].state == Recovered
            && end.exchanges[id].exchange.outcome == CaptureIncomplete && !end.exchanges[id].exchange.responseComplete
            && end.exchanges[id].exchange.endedAt.Some?
  {
    hide Run, WellFormed, RecoverAll, Interrupted;
    var now := Run(s, before);
    RunSplit(s, before, [RecoverIncomplete(at)]);
    RunSplit(s, before + [RecoverIncomplete(at)], after);
    OneChange(now, RecoverIncomplete(at));
    RecoveryIsHonest(now, at, id);
    RunIsLater(s, before);
    StepIsLater(now, RecoverIncomplete(at));
    RunIsLater(Step(now, RecoverIncomplete(at)), after);
    assert Interrupted(now.exchanges[id].exchange, RecoverAll(now, at).exchanges[id].exchange, at);
    InterruptedMeans(now.exchanges[id].exchange, RecoverAll(now, at).exchanges[id].exchange, at);
  }

  lemma {:induction false} OneChange(s: Store, c: Change)
    ensures Run(s, [c]) == Step(s, c)
  {
    assert [c][..0] == [];
  }

  lemma InterruptedMeans(before: Exchange, after: Exchange, at: string)
    requires Interrupted(before, after, at)
    ensures after.outcome == CaptureIncomplete && !after.responseComplete && after.endedAt.Some?
  {
  }

  /** A recording exchange has no end and no complete response; any other has an end. */
  ghost predicate EndsTell(s: Store) {
    forall id | id in s.exchanges ::
      && (s.exchanges[id].state == Recording ==> s.exchanges[id].exchange.endedAt.None? && !s.exchanges[id].exchange.responseComplete)
      && (s.exchanges[id].state != Recording ==> s.exchanges[id].exchange.endedAt.Some?)
  }

  lemma StepKeepsEnds(s: Store, c: Change)
    requires EndsTell(s)
    ensures EndsTell(Step(s, c))
  {
    hide InsertEvents, SameRun, SameIdentity;
  }

  lemma {:induction false} RunKeepsEnds(s: Store, changes: seq<Change>)
    requires EndsTell(s)
    ensures EndsTell(Run(s, changes))
    decreases |changes|
  {
    hide Step, EndsTell;
    if changes != [] {
      RunKeepsEnds(s, changes[..|changes| - 1]);
      StepKeepsEnds(Run(s, changes[..|changes| - 1]), changes[|changes| - 1]);
    }
  }

  /** When a finalization takes effect, and what it stores. */
  lemma FinalizeMeaning(s: Store, e: Exchange)
    ensures FinalizeExchange(s, e).Ok?
       <==> && e.id in s.exchanges && s.exchanges[e.id].state == Recording && e.endedAt.Some?
            && var now := s.exchanges[e.id].exchange;
               && e.sessionId == now.sessionId && e.sequence == now.sequence && e.startedAt == now.startedAt && e.request == now.request
               && (now.requestBody.Some? ==> e.requestBody == now.requestBody)
    ensures FinalizeExchange(s, e).Ok? ==>
              FinalizeExchange(s, e).value == Store(s.exchanges[e.id := Row(e, Complete)], s.events, s.runs)
  {
  }

  /** No two exchanges and no two events of a session have the same sequence number. */
  ghost predicate PlacesDiffer(s: Store) {
    && (forall a, b | a in s.exchanges && b in s.exchanges && a != b ::
          s.exchanges[a].exchange.sessionId != s.exchanges[b].exchange.sessionId
          || s.exchanges[a].exchange.sequence != s.exchanges[b].exchange.sequence)
    && EventPlacesDiffer(s.events)
  }

  ghost predicate EventPlacesDiffer(events: map<Id, Event>) {
    forall a, b | a in events && b in events && a != b ::
      events[a].sessionId != events[b].sessionId || events[a].sequence != events[b].sequence
  }

  lemma {:induction false} InsertedPlacesDiffer(stored: map<Id, Event>, events: seq<Event>)
    requires EventPlacesDiffer(stored) && InsertEvents(stored, events).Some?
    ensures EventPlacesDiffer(InsertEvents(stored, events).value)
    decreases |events|
  {
    if events != [] {
      InsertedPlacesDiffer(stored, events[..|events| - 1]);
    }
  }

  lemma StepKeepsPlaces(s: Store, c: Change)
    requires WellFormed(s) && PlacesDiffer(s)
    ensures PlacesDiffer(Step(s, c))
  {
    hide InsertEvents, SameRun, EventPlacesDiffer;
    if c.Normalize? && InsertEvents(s.events, c.events).Some? {
      InsertedPlacesDiffer(s.events, c.events);
    }
  }

  lemma {:induction false} RunKeepsPlaces(s: Store, changes: seq<Change>)
    requires WellFormed(s) && PlacesDiffer(s)
    ensures PlacesDiffer(Run(s, changes))
    decreases |changes|
  {
    hide Step, PlacesDiffer, WellFormed;
    if changes != [] {
      RunIsLater(s, changes[..|changes| - 1]);
      RunKeepsPlaces(s, changes[..|changes| - 1]);
      StepKeepsPlaces(Run(s, changes[..|changes| - 1]), changes[|changes| - 1]);
    }
  }

  /** A new exchange is refused exactly when its identifier or its place is taken. */
  lemma InsertMeaning(s: Store, e: Exchange, state: JournalState)
    ensures Insert(s, e, state).Ok?
       <==> && e.id !in s.exchanges
            && forall id | id in s.exchanges ::
                 s.exchanges[id].exchange.sessionId == e.sessionId ==> s.exchanges[id].exchange.sequence != e.sequence
    ensures Insert(s, e, state).Ok? ==> Insert(s, e, state).value == Store(s.exchanges[e.id := Row(e, state)], s.events, s.runs)
  {
  }

  // ------------------------------------------------------------ repeated normalization

  predicate SameHash(a: Option<BlobReference>, b: Option<BlobReference>) {
    match (a, b)
    case (Some(x), Some(y)) => x.sha256 == y.sha256
    case (None, None) => true
    case _ => false
  }

  /** Both stored bodies still have their hashes. */
  predicate BodiesKept(before: Exchange, after: Exchange) {
    SameHash(after.requestBody, before.requestBody) && SameHash(after.responseBody, before.responseBody)
  }

  lemma HashesCompare(a: Option<BlobReference>, b: Option<BlobReference>)
    ensures Sha(a) == Sha(b) <==> SameHash(a, b)
  {
  }

  /** A normalization that was accepted, repeated after whatever else has happened: it changes
      nothing if and only if it gives the same events and the exchange's bodies still have the
      hashes they had; otherwise the store refuses it. */
  lemma {:induction false} RepetitionIsDecided(s: Store, id: Id, version: string, events: seq<Event>, status: ParseStatus, changes: seq<Change>, other: seq<Event>, status': ParseStatus)
    requires WellFormed(s) && NormalizeExchange(s, id, version, events, status).Ok?
    ensures id in Run(NormalizeExchange(s, id, version, events, status).value.0, changes).exchanges
    ensures var after := Run(NormalizeExchange(s, id, version, events, status).value.0, changes);
            NormalizeExchange(after, id, version, other, status')
              == if other == events && BodiesKept(s.exchanges[id].exchange, after.exchanges[id].exchange) then Ok((after, false))
                 else Err(StorageIntegrity)
  {
    hide Run, InsertEvents, SameRun, BodiesKept;
    var first := NormalizeExchange(s, id, version, events, status).value.0;
    NormalizedHasRun(s, id, version, events, status);
    RunIsLater(first, changes);
    SameRunDecided(first, Run(first, changes), id, version, events, other);
    assert BodiesKept(s.exchanges[id].exchange, first.exchanges[id].exchange) by {
      BindingKeepsBodies(s, id, version, events, status);
    }
    BodiesKeptChain(s.exchanges[id].exchange, first.exchanges[id].exchange, Run(first, changes).exchanges[id].exchange);
  }

  lemma BindingKeepsBodies(s: Store, id: Id, version: string, events: seq<Event>, status: ParseStatus)
    requires NormalizeExchange(s, id, version, events, status).Ok?
    ensures var t := NormalizeExchange(s, id, version, events, status).value.0;
            id in s.exchanges && id in t.exchanges && BodiesKept(s.exchanges[id].exchange, t.exchanges[id].exchange)
  {
    hide InsertEvents, SameRun;
  }

  lemma BodiesKeptChain(a: Exchange, b: Exchange, c: Exchange)
    requires BodiesKept(a, b)
    ensures BodiesKept(a, c) <==> BodiesKept(b, c)
  {
  }

  lemma SameRunDecided(s: Store, t: Store, id: Id, version: string, events: seq<Event>, other: seq<Event>)
    requires StoreLater(s, t) && id in s.exchanges && (id, version) in s.runs
    requires SameRun(s, s.runs[(id, version)], s.exchanges[id].exchange, events)
    ensures id in t.exchanges && (id, version) in t.runs
    ensures SameRun(t, t.runs[(id, version)], t.exchanges[id].exchange, other)
       <==> other == events && BodiesKept(s.exchanges[id].exchange, t.exchanges[id].exchange)
  {
    hide Later;
    HashesCompare(t.exchanges[id].exchange.requestBody, s.exchanges[id].exchange.requestBody);
    HashesCompare(t.exchanges[id].exchange.responseBody, s.exchanges[id].exchange.responseBody);
    assert t.runs[(id, version)] == s.runs[(id, version)];
    forall i | 0 <= i < |events| ensures events[i].id in t.events && t.events[events[i].id] == events[i] {
    }
    if SameRun(t, t.runs[(id, version)], t.exchanges[id].exchange, other) {
      assert Ids(other) == Ids(events) && |other| == |events|;
      forall i | 0 <= i < |events| ensures other[i] == events[i] {
        assert Ids(other)[i] == other[i].id && Ids(events)[i] == events[i].id;
      }
    }
  }

  /** No other change touches the bodies. */
  lemma OthersKeepBodies(s: Store, c: Change, id: Id)
    requires WellFormed(s) && id in s.exchanges && !(c.Finalize? && c.exchange.id == id)
    ensures id in Step(s, c).exchanges
    ensures var now, next := s.exchanges[id].exchange, Step(s, c).exchanges[id].exchange;
            next.requestBody == now.requestBody && next.responseBody == now.responseBody
  {
    hide InsertEvents, SameRun, SameIdentity;
  }

  lemma FinalizedBodies(s: Store, e: Exchange)
    requires e.id in s.exchanges
    ensures Step(s, Finalize(e)).exchanges.Keys == s.exchanges.Keys
    ensures Step(s, Finalize(e)).exchanges[e.id].exchange == if FinalizeExchange(s, e).Ok? then e else s.exchanges[e.id].exchange
  {
  }

  lemma SameBodiesKept(a: Exchange, b: Exchange)
    ensures a.requestBody == b.requestBody && a.responseBody == b.responseBody ==> BodiesKept(a, b)
  {
  }

  /** The one change that breaks it: a finalization, while recording, with other bodies. */
  lemma BodiesChangeExactly(s: Store, c: Change, id: Id)
    requires WellFormed(s) && id in s.exchanges
    ensures id in Step(s, c).exchanges
    ensures !BodiesKept(s.exchanges[id].exchange, Step(s, c).exchanges[id].exchange)
       <==> c.Finalize? && c.exchange.id == id && FinalizeExchange(s, c.exchange).Ok? && !BodiesKept(s.exchanges[id].exchange, c.exchange)
  {
    hide Step, FinalizeExchange, BodiesKept, WellFormed;
    if c.Finalize? && c.exchange.id == id {
      FinalizedBodies(s, c.exchange);
      SameBodiesKept(s.exchanges[id].exchange, s.exchanges[id].exchange);
    } else {
      OthersKeepBodies(s, c, id);
      SameBodiesKept(s.exchanges[id].exchange, Step(s, c).exchanges[id].exchange);
    }
  }

  /** Once an exchange has left recording, and at once in any state, the repetition changes
      nothing and other events are refused. */
  lemma {:induction false} NormalizationIsIdempotent(s: Store, id: Id, version: string, events: seq<Event>, status: ParseStatus, changes: seq<Change>, other: seq<Event>, status': ParseStatus)
    requires WellFormed(s) && NormalizeExchange(s, id, version, events, status).Ok?
    requires s.exchanges[id].state != Recording || changes == []
    ensures var after := Run(NormalizeExchange(s, id, version, events, status).value.0, changes);
            && NormalizeExchange(after, id, version, events, status') == Ok((after, false))
            && (other != events ==> NormalizeExchange(after, id, version, other, status') == Err(StorageIntegrity))
  {
    hide InsertEvents, SameRun;
    var first := NormalizeExchange(s, id, version, events, status).value.0;
    NormalizedHasRun(s, id, version, events, status);
    RunIsLater(first, changes);
    RepetitionIsDecided(s, id, version, events, status, changes, events, status');
    RepetitionIsDecided(s, id, version, events, status, changes, other, status');
    BindingKeepsBodies(s, id, version, events, status);
  }

  lemma NormalizedHasRun(s: Store, id: Id, version: string, events: seq<Event>, status: ParseStatus)
    requires WellFormed(s) && NormalizeExchange(s, id, version, events, status).Ok?
    ensures var t := NormalizeExchange(s, id, version, events, status).value.0;
            && WellFormed(t) && id in t.exchanges && (id, version) in t.runs
            && t.exchanges[id].state == s.exchanges[id].state
            && SameRun(t, t.runs[(id, version)], t.exchanges[id].exchange, events)
  {
    if InsertEvents(s.events, events).Some? {
      EventsOnlyAdded(s.events, events);
    }
  }

  /** For an exchange that is still recording the repetition can fail: finalizing with another
      response body leaves the earlier normalization behind, and every repetition is refused. */
  lemma EarlyNormalizationCanBeStranded(s: Store, id: Id, version: string, events: seq<Event>, status: ParseStatus, final: Exchange)
    requires WellFormed(s) && NormalizeExchange(s, id, version, events, status).Ok?
    requires s.exchanges[id].state == Recording
    requires final.id == id && final.endedAt.Some? && SameIdentity(s.exchanges[id].exchange, final)
    requires Sha(final.responseBody) != Sha(s.exchanges[id].exchange.responseBody)
    requires (id, version) !in s.runs
    ensures var after := Step(NormalizeExchange(s, id, version, events, status).value.0, Finalize(final));
            && after.exchanges[id] == Row(final, Complete)
            && forall other, status' :: NormalizeExchange(after, id, version, other, status').Err?
  {
    hide InsertEvents;
  }

  // ------------------------------------------------------------ the repositories

  predicate ByStart(a: Exchange, b: Exchange) {
    StringLe(a.startedAt, b.startedAt) && (a.startedAt == b.startedAt ==> StringLe(a.id, b.id))
  }

  class RawExchangeStore {
    var store: Store

    constructor ()
      ensures store == Store(map[], map[], map[]) && WellFormed(store)
    {
      store := Store(map[], map[], map[]);
    }

    method BeginExchange(e: Exchange) returns (ok: bool)
      modifies this
      ensures store == Step(old(store), Begin(e))
      ensures ok <==> e.endedAt.None? && !e.responseComplete && Insert(old(store), e, Recording).Ok?
    {
      if e.endedAt.Some? || e.responseComplete {
        return false;
      }
      var r := Insert(store, e, Recording);
      if r.Err? {
        return false;
      }
      store := r.value;
      return true;
    }

    method FinalizeRecording(e: Exchange) returns (ok: bool)
      modifies this
      ensures store == Step(old(store), Finalize(e)) && (ok <==> FinalizeExchange(old(store), e).Ok?)
    {
      if e.id !in store.exchanges || store.exchanges[e.id].state != Recording || e.endedAt.None? {
        return false;
      }
      if !SameIdentity(store.exchanges[e.id].exchange, e) {
        return false;
      }
      store := store.(exchanges := store.exchanges[e.id := Row(e, Complete)]);
      return true;
    }

    /** Turns every recording exchange into a recovered one; the result names them in order. */
    method RecoverRecording(recoveredAt: string) returns (recoveredIds: seq<Id>)
      requires WellFormed(store)
      modifies this
      ensures store == Step(old(store), RecoverIncomplete(recoveredAt))
      ensures NoDuplicates(recoveredIds)
      ensures forall id :: id in recoveredIds <==> id in old(store).exchanges && old(store).exchanges[id].state == Recording
      ensures forall i, j | 0 <= i < j < |recoveredIds| ::
                ByStart(old(store).exchanges[recoveredIds[i]].exchange, old(store).exchanges[recoveredIds[j]].exchange)
    {
      var rows := SortedRecording(store);
      recoveredIds := [];
      for i := 0 to |rows|
        invariant |recoveredIds| == i && forall k | 0 <= k < i :: recoveredIds[k] == rows[k].id
        invariant store == old(store).(exchanges := store.exchanges) && store.exchanges.Keys == old(store).exchanges.Keys
        invariant forall id | id in store.exchanges ::
                    store.exchanges[id] == if id in recoveredIds then RecoveredRow(old(store).exchanges[id], recoveredAt) else old(store).exchanges[id]
      {
        var e := rows[i];
        assert e in rows && e.id !in recoveredIds;
        store := store.(exchanges := store.exchanges[e.id := Row(RecoveredExchange(e, recoveredAt), Recovered)]);
        recoveredIds := recoveredIds + [e.id];
      }
      forall id ensures id in recoveredIds <==> id in old(store).exchanges && old(store).exchanges[id].state == Recording {
        if id in old(store).exchanges && old(store).exchanges[id].state == Recording {
          assert old(store).exchanges[id].exchange in rows;
        }
      }
    }

    /** The run and its events are stored together or not at all. */
    method InsertNormalization(id: Id, version: string, events: seq<Event>, status: ParseStatus) returns (r: Result<bool, StorageError>)
      requires status != Pending
      modifies this
      ensures store == Step(old(store), Normalize(id, version, events, status))
      ensures match NormalizeExchange(old(store), id, version, events, status)
              case Ok((_, inserted)) => r == Ok(inserted)
              case Err(e) => r == Err(e)
    {
      hide InsertEvents, SameRun;
      if id !in store.exchanges {
        return Err(ImmutableEvidence);
      }
      var e := store.exchanges[id].exchange;
      if (id, version) in store.runs {
        if !SameRun(store, store.runs[(id, version)], e, events) {
          return Err(StorageIntegrity);
        }
        return Ok(false);
      }
      if exists event | event in events :: event.sessionId != e.sessionId {
        return Err(ImmutableEvidence);
      }
      var m := store.events;
      NoEvents(m);
      for i := 0 to |events|
        invariant store == old(store) && InsertEvents(store.events, events[..i]) == Some(m)
      {
        NextEvent(store.events, events, i);
        if events[i].id in m || exists k :: k in m && m[k].sessionId == events[i].sessionId && m[k].sequence == events[i].sequence {
          EventsStop(store.events, events, i + 1);
          return Err(Constraint);
        }
        m := m[events[i].id := events[i]];
      }
      assert events[..|events|] == events;
      var run := NormalizationRun(Sha(e.requestBody), Sha(e.responseBody), Ids(events));
      var row := store.exchanges[id].(exchange := e.(parseStatus := status));
      store := Store(store.exchanges[id := row], m, store.runs[(id, version) := run]);
      return Ok(true);
    }
  }

  lemma {:induction false} NoEvents(stored: map<Id, Event>)
    ensures InsertEvents(stored, []) == Some(stored)
  {
  }

  lemma {:induction false} NextEvent(stored: map<Id, Event>, events: seq<Event>, i: nat)
    requires i < |events|
    ensures var m, e := InsertEvents(stored, events[..i]), events[i];
            InsertEvents(stored, events[..i + 1]) ==
              if m.None? || e.id in m.value || exists k :: k in m.value && m.value[k].sessionId == e.sessionId && m.value[k].sequence == e.sequence
              then None else Some(m.value[e.id := e])
  {
    assert events[..i + 1][..i] == events[..i];
  }

  lemma {:induction false} EventsStop(stored: map<Id, Event>, events: seq<Event>, i: nat)
    requires i <= |events| && InsertEvents(stored, events[..i]).None?
    ensures InsertEvents(stored, events).None?
    decreases |events| - i
  {
    if i == |events| {
      assert events[..i] == events;
    } else {
      NextEvent(stored, events, i);
      EventsStop(stored, events, i + 1);
    }
  }

  method SortedRecording(s: Store) returns (rows: seq<Exchange>)
    requires WellFormed(s)
    ensures NoDuplicates(rows) && Sorted(rows, ByStart)
    ensures forall e :: e in rows <==> e.id in s.exchanges && s.exchanges[e.id] == Row(e, Recording)
    ensures forall i, j | 0 <= i < j < |rows| :: rows[i].id != rows[j].id
  {
    var recording := set id | id in s.exchanges && s.exchanges[id].state == Recording :: s.exchanges[id].exchange;
    var found := ToSequence(recording);
    rows := Sort(found, ByStart);
    StartOrder();
    SortSorts(found, ByStart);
    DistinctCounts(found);
    CountedOnceIsDistinct(rows);
    forall e ensures e in rows <==> e.id in s.exchanges && s.exchanges[e.id] == Row(e, Recording) {
      assert e in rows <==> e in multiset(rows);
      assert e in found <==> e in recording;
    }
    forall i, j | 0 <= i < j < |rows| ensures rows[i].id != rows[j].id {
      assert rows[i] in rows && rows[j] in rows;
    }
  }

  lemma StartOrder()
    ensures TotalPreorder(ByStart)
  {
    hide StringLe;
    forall a, b ensures ByStart(a, b) || ByStart(b, a) {
      StringLeTotal(a.startedAt, b.startedAt);
      StringLeTotal(a.id, b.id);
    }
    forall a, b, c | ByStart(a, b) && ByStart(b, c) ensures ByStart(a, c) {
      StringLeTransitive(a.startedAt, b.startedAt, c.startedAt);
      if a.startedAt == c.startedAt {
        StringLeAntisymmetric(a.startedAt, b.startedAt);
        StringLeTransitive(a.id, b.id, c.id);
      }
    }
  }
}
