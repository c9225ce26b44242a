// Prune planning (apps/daemon/src/archive/evidence-maintenance.ts): the closure under
// linked internal sessions, usage with shared blobs, and the oldest-first choice.

module Retention {
  import opened Wrappers
  import opened Ordering
  import opened Database

  /** `target` is the analysis target of an internal session. */
  datatype Session = Session(id: Id, status: Status, startedAt: int, endedAt: Option<int>, target: Option<Id>)

  datatype BlobUsage = BlobUsage(id: Id, bytes: nat, sessions: set<Id>)

  datatype Snapshot = Snapshot(sessions: seq<Session>, recordBytes: map<Id, nat>, blobs: seq<BlobUsage>)

  datatype Usage = Usage(logicalBytes: nat, sessionCount: nat, blobCount: nat)

  datatype Reason = Age | Size | LinkedInternal | Explicit

  datatype Candidate = Candidate(session: Id, status: Status, startedAt: int, logicalBytes: nat, reasons: set<Reason>)

  datatype Plan = Plan(current: Usage, projected: Usage, satisfied: bool, sessions: seq<Candidate>)

  datatype PlanError = NoCriterion | NegativeAge | NegativeBytes | UnknownSession | ActiveSession | ActiveLinkedSession

  // ------------------------------------------------------------ usage

  function Ids(sessions: seq<Session>): seq<Id> {
    seq(|sessions|, i requires 0 <= i < |sessions| => sessions[i].id)
  }

  function RecordBytesOf(sn: Snapshot, id: Id): nat {
    if id in sn.recordBytes then sn.recordBytes[id] else 0
  }

  function Retained(sessions: seq<Session>, removed: set<Id>): seq<Session> {
    if sessions == [] then []
    else
      var last := sessions[|sessions| - 1];
      Retained(sessions[..|sessions| - 1], removed) + (if last.id in removed then [] else [last])
  }

  /** A blob stays as long as one session that references it stays. */
  function RetainedBlobs(blobs: seq<BlobUsage>, removed: set<Id>): seq<BlobUsage> {
    if blobs == [] then []
    else
      var last := blobs[|blobs| - 1];
      RetainedBlobs(blobs[..|blobs| - 1], removed) + (if last.sessions <= removed then [] else [last])
  }

  function BytesOf(blobs: seq<BlobUsage>): nat {
    Sum(blobs, (b: BlobUsage) => b.bytes)
  }

  function Summary(sn: Snapshot, removed: set<Id>): Usage {
    var sessions := Retained(sn.sessions, removed);
    var blobs := RetainedBlobs(sn.blobs, removed);
    Usage(Sum(sessions, (s: Session) => RecordBytesOf(sn, s.id)) + BytesOf(blobs), |sessions|, |blobs|)
  }

  function SessionLogicalBytes(sn: Snapshot, id: Id): nat {
    RecordBytesOf(sn, id) + Sum(sn.blobs, (b: BlobUsage) => if id in b.sessions then b.bytes else 0)
  }

  // ------------------------------------------------------------ linked sessions

  predicate Linked(s: Session, selected: set<Id>) {
    s.target.Some? && s.target.value in selected
  }

  function LinkedIds(sessions: seq<Session>, selected: set<Id>): set<Id> {
    set s | s in sessions && Linked(s, selected) :: s.id
  }

  ghost predicate Closed(sessions: seq<Session>, selected: set<Id>) {
    LinkedIds(sessions, selected) <= selected
  }

  function AllIds(sessions: seq<Session>): set<Id> {
    set s | s in sessions :: s.id
  }

  /** The least set that holds `selected` and every internal session linked to a member. */
  function Closure(sessions: seq<Session>, selected: set<Id>): set<Id>
    decreases AllIds(sessions) - selected
  {
    var linked := LinkedIds(sessions, selected);
    if linked <= selected then selected
    else
      assert linked <= AllIds(sessions);
      Closure(sessions, selected + linked)
  }

  lemma {:induction false} ClosureIsLeast(sessions: seq<Session>, selected: set<Id>)
    ensures selected <= Closure(sessions, selected) <= selected + AllIds(sessions)
    ensures Closed(sessions, Closure(sessions, selected))
    ensures forall t | selected <= t && Closed(sessions, t) :: Closure(sessions, selected) <= t
    decreases AllIds(sessions) - selected
  {
    var linked := LinkedIds(sessions, selected);
    if !(linked <= selected) {
      assert linked <= AllIds(sessions);
      ClosureIsLeast(sessions, selected + linked);
      forall t | selected <= t && Closed(sessions, t) ensures selected + linked <= t {
        assert linked <= LinkedIds(sessions, t);
      }
    }
  }

  lemma {:induction false} ClosureAbsorbs(sessions: seq<Session>, a: set<Id>, b: set<Id>)
    requires a <= b <= Closure(sessions, a)
    ensures Closure(sessions, b) == Closure(sessions, a)
  {
    ClosureIsLeast(sessions, a);
    ClosureIsLeast(sessions, b);
  }

  predicate ActiveLinked(sessions: seq<Session>, selected: set<Id>) {
    exists s | s in sessions :: s.status == Active && Linked(s, selected)
  }

  function Expand(sessions: seq<Session>, selected: set<Id>): Result<set<Id>, PlanError> {
    var all := Closure(sessions, selected);
    if ActiveLinked(sessions, all) then Err(ActiveLinkedSession) else Ok(all)
  }

  function LinkedSessions(sessions: seq<Session>, selected: set<Id>): seq<Session> {
    if sessions == [] then []
    else
      var last := sessions[|sessions| - 1];
      LinkedSessions(sessions[..|sessions| - 1], selected) + (if Linked(last, selected) then [last] else [])
  }

  lemma {:induction false} LinkedSessionsAreLinked(sessions: seq<Session>, selected: set<Id>)
    ensures forall s :: s in LinkedSessions(sessions, selected) <==> s in sessions && Linked(s, selected)
    decreases |sessions|
  {
    if sessions != [] {
      LinkedSessionsAreLinked(sessions[..|sessions| - 1], selected);
      assert sessions == sessions[..|sessions| - 1] + [sessions[|sessions| - 1]];
    }
  }

  function MarkLinked(reasons: map<Id, set<Reason>>, ids: set<Id>): map<Id, set<Reason>> {
    reasons + map id | id in ids :: {LinkedInternal}
  }

  lemma MarkLinkedMore(reasons: map<Id, set<Reason>>, ids: set<Id>, more: set<Id>)
    ensures MarkLinked(MarkLinked(reasons, ids), more) == MarkLinked(reasons, ids + more)
  {
  }

  lemma MarkOne(reasons: map<Id, set<Reason>>, start: set<Id>, selected: set<Id>, id: Id)
    requires start <= selected && id !in selected
    ensures MarkLinked(reasons, selected - start)[id := {LinkedInternal}] == MarkLinked(reasons, (selected + {id}) - start)
  {
  }

  lemma AllIdsNext(sessions: seq<Session>, more: seq<Session>)
    ensures AllIds([]) == {}
    ensures |more| == 1 ==> AllIds(sessions + more) == AllIds(sessions) + {more[0].id}
  {
  }

  /** The set and the map that planning fills in place. */
  class Selection {
    var selected: set<Id>
    var reasons: map<Id, set<Reason>>

    constructor ()
      ensures selected == {} && reasons == map[]
    {
      selected, reasons := {}, map[];
    }

    /** One pass over the sessions linked so far. */
    method AddLinked(linked: seq<Session>) returns (changed: bool, error: Option<PlanError>)
      modifies this
      ensures error.Some? <==> exists s | s in linked :: s.status == Active
      ensures error.Some? ==> error == Some(ActiveLinkedSession)
      ensures error.None? ==>
                && selected == old(selected) + AllIds(linked)
                && reasons == MarkLinked(old(reasons), selected - old(selected))
                && (changed <==> selected != old(selected))
    {
      hide MarkLinked, AllIds;
      changed, error := false, None;
      MarkNothing(reasons);
      AllIdsNext([], linked);
      assert selected - selected == {} && selected + {} == selected;
      for k := 0 to |linked|
        invariant selected == old(selected) + AllIds(linked[..k])
        invariant reasons == MarkLinked(old(reasons), selected - old(selected))
        invariant forall i | 0 <= i < k :: linked[i].status != Active
        invariant changed <==> selected != old(selected)
      {
        var s := linked[k];
        assert linked[..k + 1] == linked[..k] + [s];
        AllIdsNext(linked[..k], [s]);
        if s.status == Active {
          assert s in linked;
          return changed, Some(ActiveLinkedSession);
        }
        if s.id !in selected {
          MarkOne(old(reasons), old(selected), selected, s.id);
          selected := selected + {s.id};
          reasons := reasons[s.id := {LinkedInternal}];
          changed := true;
        }
      }
      assert linked[..|linked|] == linked;
    }

    method ExpandLinkedSessions(sessions: seq<Session>) returns (error: Option<PlanError>)
      modifies this
      ensures match Expand(sessions, old(selected))
              case Err(e) => error == Some(e)
              case Ok(all) => error == None && selected == all && reasons == MarkLinked(old(reasons), all - old(selected))
    {
      hide MarkLinked, Closure;
      ghost var start, given := selected, reasons;
      ClosureIsLeast(sessions, start);
      MarkNothing(reasons);
      assert selected - start == {};
      var changed := true;
      while changed
        invariant start <= selected <= Closure(sessions, start)
        invariant reasons == MarkLinked(given, selected - start)
        invariant !changed ==> Closed(sessions, selected) && !ActiveLinked(sessions, selected)
        decreases AllIds(sessions) - selected, changed
      {
        var linked := LinkedSessions(sessions, selected);
        LinkedSessionsAreLinked(sessions, selected);
        ghost var before := selected;
        assert AllIds(linked) == LinkedIds(sessions, before) <= LinkedIds(sessions, Closure(sessions, start));
        changed, error := AddLinked(linked);
        if error.Some? {
          assert ActiveLinked(sessions, Closure(sessions, start));
          return;
        }
        MarkLinkedMore(given, before - start, selected - before);
        assert (before - start) + (selected - before) == selected - start;
        assert AllIds(linked) <= AllIds(sessions);
      }
      ClosureAbsorbs(sessions, start, selected);
      ClosureIsLeast(sessions, selected);
      return None;
    }
  }

  lemma MarkNothing(reasons: map<Id, set<Reason>>)
    ensures MarkLinked(reasons, {}) == reasons
  {
  }

  // ------------------------------------------------------------ the plan

  datatype PruneInput = PruneInput(olderThanDays: Option<real>, maximumBytes: Option<int>, now: int)

  const DAY: int := 24 * 60 * 60 * 1_000

  function EndOrStart(s: Session): int {
    if s.endedAt.Some? then s.endedAt.value else s.startedAt
  }

  predicate EndedBefore(a: Session, b: Session) {
    EndOrStart(a) < EndOrStart(b) || (EndOrStart(a) == EndOrStart(b) && StringLe(a.id, b.id))
  }

  predicate StartedBefore(a: Session, b: Session) {
    a.startedAt < b.startedAt || (a.startedAt == b.startedAt && StringLe(a.id, b.id))
  }

  lemma SessionOrders()
    ensures TotalPreorder(EndedBefore) && TotalPreorder(StartedBefore)
  {
    forall a: Session, b: Session {
      StringLeTotal(a.id, b.id);
    }
    forall a: Session, b: Session, c: Session
      ensures EndedBefore(a, b) && EndedBefore(b, c) ==> EndedBefore(a, c)
      ensures StartedBefore(a, b) && StartedBefore(b, c) ==> StartedBefore(a, c)
    {
      if StringLe(a.id, b.id) && StringLe(b.id, c.id) {
        StringLeTransitive(a.id, b.id, c.id);
      }
    }
  }

  function NotActive(sessions: seq<Session>): seq<Session> {
    if sessions == [] then []
    else
      var last := sessions[|sessions| - 1];
      NotActive(sessions[..|sessions| - 1]) + (if last.status == Active then [] else [last])
  }

  /** Terminal sessions, oldest first. */
  function Terminal(sn: Snapshot): seq<Session> {
    Sort(NotActive(sn.sessions), EndedBefore)
  }

  function Chosen(sessions: seq<Session>, selected: set<Id>): seq<Session> {
    if sessions == [] then []
    else
      var last := sessions[|sessions| - 1];
      Chosen(sessions[..|sessions| - 1], selected) + (if last.id in selected then [last] else [])
  }

  function CandidateOf(sn: Snapshot, reasons: map<Id, set<Reason>>, s: Session): Candidate {
    Candidate(s.id, s.status, s.startedAt, SessionLogicalBytes(sn, s.id), if s.id in reasons then reasons[s.id] else {})
  }

  function CandidateList(sn: Snapshot, selected: set<Id>, reasons: map<Id, set<Reason>>): seq<Candidate> {
    var sorted := Sort(Chosen(sn.sessions, selected), StartedBefore);
    seq(|sorted|, i requires 0 <= i < |sorted| => CandidateOf(sn, reasons, sorted[i]))
  }

  function Aged(terminal: seq<Session>, cutoff: real): set<Id> {
    set s | s in terminal && EndOrStart(s) as real < cutoff :: s.id
  }

  function Cutoff(input: PruneInput): real
    requires input.olderThanDays.Some?
  {
    input.now as real - input.olderThanDays.value * DAY as real
  }

  datatype Choice = Choice(selected: set<Id>, reasons: map<Id, set<Reason>>)

  function ChooseAged(sn: Snapshot, input: PruneInput): Result<Choice, PlanError> {
    if input.olderThanDays.None? then Ok(Choice({}, map[]))
    else
      var aged := Aged(Terminal(sn), Cutoff(input));
      match Expand(sn.sessions, aged)
      case Err(e) => Err(e)
      case Ok(all) => Ok(Choice(all, MarkLinked(map id | id in aged :: {Age}, all - aged)))
  }

  /** One more session of the oldest-first order is marked for its size. */
  function TakeOldest(sn: Snapshot, c: Choice, id: Id): Result<Choice, PlanError> {
    if id in c.selected then
      Ok(if id in c.reasons then Choice(c.selected, c.reasons[id := c.reasons[id] + {Size}]) else c)
    else
      match Expand(sn.sessions, c.selected + {id})
      case Err(e) => Err(e)
      case Ok(all) => Ok(Choice(all, MarkLinked(c.reasons[id := {Size}], all - (c.selected + {id}))))
  }

  /** The choice after the first `steps` sessions of the order were taken. */
  function TakenOldest(sn: Snapshot, start: Choice, terminal: seq<Session>, steps: nat): Result<Choice, PlanError>
    requires steps <= |terminal|
    decreases steps
  {
    if steps == 0 then Ok(start)
    else
      match TakenOldest(sn, start, terminal, steps - 1)
      case Err(e) => Err(e)
      case Ok(c) => TakeOldest(sn, c, terminal[steps - 1].id)
  }

  predicate Over(sn: Snapshot, selected: set<Id>, maximum: int) {
    Summary(sn, selected).logicalBytes > maximum
  }

  /** `steps` is where the size loop stops: usage was over the limit before every step. */
  ghost predicate StopsAfter(sn: Snapshot, start: Choice, maximum: int, steps: nat) {
    var terminal := Terminal(sn);
    && steps <= |terminal|
    && (forall k | 0 <= k < steps ::
          TakenOldest(sn, start, terminal, k).Ok? && Over(sn, TakenOldest(sn, start, terminal, k).value.selected, maximum))
    && var last := TakenOldest(sn, start, terminal, steps);
       last.Ok? && (steps < |terminal| ==> !Over(sn, last.value.selected, maximum))
  }

  ghost predicate PlanFor(sn: Snapshot, input: PruneInput, c: Choice, plan: Plan) {
    && plan.current == Summary(sn, {})
    && plan.projected == Summary(sn, c.selected)
    && plan.satisfied == (input.maximumBytes.None? || plan.projected.logicalBytes <= input.maximumBytes.value)
    && plan.sessions == CandidateList(sn, c.selected, c.reasons)
  }

  ghost predicate PlanChosen(sn: Snapshot, input: PruneInput, steps: nat, c: Choice) {
    var start := ChooseAged(sn, input);
    && start.Ok?
    && match input.maximumBytes
       case None => steps == 0 && c == start.value
       case Some(maximum) =>
         StopsAfter(sn, start.value, maximum, steps) && TakenOldest(sn, start.value, Terminal(sn), steps) == Ok(c)
  }

  /** Planning gives up: the aged sessions, or the next session to be taken while usage is
      still over the limit, pull in an active session. */
  ghost predicate PlanBlocked(sn: Snapshot, input: PruneInput, steps: nat) {
    var start := ChooseAged(sn, input);
    start.Ok? ==>
      && input.maximumBytes.Some? && steps < |Terminal(sn)|
      && var before := TakenOldest(sn, start.value, Terminal(sn), steps);
         && before.Ok? && Over(sn, before.value.selected, input.maximumBytes.value)
         && TakenOldest(sn, start.value, Terminal(sn), steps + 1).Err?
  }

  function InputError(input: PruneInput): Option<PlanError> {
    if input.olderThanDays.None? && input.maximumBytes.None? then Some(NoCriterion)
    else if input.olderThanDays.Some? && input.olderThanDays.value < 0.0 then Some(NegativeAge)
    else if input.maximumBytes.Some? && input.maximumBytes.value < 0 then Some(NegativeBytes)
    else None
  }

  method PlanEvidencePrune(sn: Snapshot, input: PruneInput) returns (r: Result<Plan, PlanError>, ghost steps: nat, ghost c: Choice)
    ensures r.Ok? ==> InputError(input).None? && PlanChosen(sn, input, steps, c) && PlanFor(sn, input, c, r.value)
    ensures r.Err? && r.error != ActiveLinkedSession ==> InputError(input) == Some(r.error)
    ensures r == Err(ActiveLinkedSession) ==> InputError(input).None? && PlanBlocked(sn, input, steps)
  {
    hide Expand, MarkLinked, Summary, CandidateList, Terminal, Sort, Aged;
    steps, c := 0, Choice({}, map[]);
    var invalid := InputError(input);
    if invalid.Some? {
      return Err(invalid.value), steps, c;
    }
    var selection := new Selection();
    var terminal := Terminal(sn);
    if input.olderThanDays.Some? {
      var error := ChooseOld(selection, sn, terminal, Cutoff(input));
      if error.Some? {
        LinkedAndActive(sn, Aged(terminal, Cutoff(input)));
        return Err(error.value), steps, c;
      }
    }
    ghost var start := Choice(selection.selected, selection.reasons);
    assert ChooseAged(sn, input) == Ok(start);
    if input.maximumBytes.Some? {
      var k := 0;
      while k < |terminal|
        invariant k <= |terminal|
        invariant TakenOldest(sn, start, terminal, k) == Ok(Choice(selection.selected, selection.reasons))
        invariant forall j | 0 <= j < k ::
                    TakenOldest(sn, start, terminal, j).Ok? && Over(sn, TakenOldest(sn, start, terminal, j).value.selected, input.maximumBytes.value)
      {
        if Summary(sn, selection.selected).logicalBytes <= input.maximumBytes.value {
          break;
        }
        ghost var before := Choice(selection.selected, selection.reasons);
        var error := TakeForSize(selection, sn, terminal[k].id);
        if error.Some? {
          LinkedAndActive(sn, before.selected + {terminal[k].id});
          assert TakenOldest(sn, start, terminal, k + 1).Err?;
          return Err(error.value), k, c;
        }
        k := k + 1;
      }
      steps := k;
    }
    c := Choice(selection.selected, selection.reasons);
    var projected := Summary(sn, selection.selected);
    r := Ok(Plan(
              Summary(sn, {}),
              projected,
              input.maximumBytes.None? || projected.logicalBytes <= input.maximumBytes.value,
              CandidateList(sn, selection.selected, selection.reasons)));
  }

  lemma LinkedAndActive(sn: Snapshot, selected: set<Id>)
    requires Expand(sn.sessions, selected).Err?
    ensures Expand(sn.sessions, selected) == Err(ActiveLinkedSession)
  {
  }

  method ChooseOld(selection: Selection, sn: Snapshot, terminal: seq<Session>, cutoff: real) returns (error: Option<PlanError>)
    requires selection.selected == {} && selection.reasons == map[]
    modifies selection
    ensures var aged := Aged(terminal, cutoff);
            match Expand(sn.sessions, aged)
            case Err(e) => error == Some(e)
            case Ok(all) =>
              error == None && selection.selected == all && selection.reasons == MarkLinked(map id | id in aged :: {Age}, all - aged)
  {
    hide Expand, MarkLinked;
    for k := 0 to |terminal|
      invariant selection.selected == Aged(terminal[..k], cutoff)
      invariant selection.reasons == map id | id in selection.selected :: {Age}
    {
      assert terminal[..k + 1] == terminal[..k] + [terminal[k]];
      if EndOrStart(terminal[k]) as real < cutoff {
        selection.selected := selection.selected + {terminal[k].id};
        selection.reasons := selection.reasons[terminal[k].id := {Age}];
      }
    }
    assert terminal[..|terminal|] == terminal;
    error := selection.ExpandLinkedSessions(sn.sessions);
  }

  method TakeForSize(selection: Selection, sn: Snapshot, id: Id) returns (error: Option<PlanError>)
    modifies selection
    ensures match TakeOldest(sn, Choice(old(selection.selected), old(selection.reasons)), id)
            case Err(e) => error == Some(e)
            case Ok(c) => error == None && Choice(selection.selected, selection.reasons) == c
    ensures error.Some? ==> Expand(sn.sessions, old(selection.selected) + {id}).Err?
  {
    hide Expand, MarkLinked;
    error := None;
    if id !in selection.selected {
      selection.selected := selection.selected + {id};
      selection.reasons := selection.reasons[id := {Size}];
      error := selection.ExpandLinkedSessions(sn.sessions);
    } else if id in selection.reasons {
      selection.reasons := selection.reasons[id := selection.reasons[id] + {Size}];
    }
  }

  /** The first session with an identifier. */
  function SessionNamed(sessions: seq<Session>, id: Id): (s: Option<Session>)
    ensures s.Some? ==> s.value in sessions && s.value.id == id
    ensures s.None? <==> forall x | x in sessions :: x.id != id
  {
    if sessions == [] then None
    else if sessions[0].id == id then Some(sessions[0])
    else
      assert sessions == [sessions[0]] + sessions[1..];
      SessionNamed(sessions[1..], id)
  }

  lemma {:induction false} NamedAt(sessions: seq<Session>, id: Id, k: nat)
    requires k < |sessions| && sessions[k].id == id && forall j | 0 <= j < k :: sessions[j].id != id
    ensures SessionNamed(sessions, id) == Some(sessions[k])
  {
    if k > 0 {
      NamedAt(sessions[1..], id, k - 1);
    }
  }

  /** Unknown, active, blocked by an active linked session, or a plan: each exactly when. */
  method PlanSessionDeletion(sn: Snapshot, sessionId: Id) returns (r: Result<Plan, PlanError>)
    ensures match SessionNamed(sn.sessions, sessionId)
            case None => r == Err(UnknownSession)
            case Some(s) =>
              if s.status == Active then r == Err(ActiveSession)
              else
                match Expand(sn.sessions, {sessionId})
                case Err(e) => r == Err(e)
                case Ok(all) =>
                  var c := Choice(all, MarkLinked(map[sessionId := {Explicit}], all - {sessionId}));
                  r.Ok? && PlanFor(sn, PruneInput(None, None, 0), c, r.value) && r.value.satisfied
  {
    hide Expand, MarkLinked, Summary, CandidateList;
    var k := 0;
    while k < |sn.sessions| && sn.sessions[k].id != sessionId
      invariant k <= |sn.sessions|
      invariant forall j | 0 <= j < k :: sn.sessions[j].id != sessionId
    {
      k := k + 1;
    }
    if k == |sn.sessions| {
      return Err(UnknownSession);
    }
    NamedAt(sn.sessions, sessionId, k);
    if sn.sessions[k].status == Active {
      return Err(ActiveSession);
    }
    var selection := new Selection();
    selection.selected := {sessionId};
    selection.reasons := map[sessionId := {Explicit}];
    var error := selection.ExpandLinkedSessions(sn.sessions);
    if error.Some? {
      return Err(error.value);
    }
    r := Ok(Plan(
              Summary(sn, {}), Summary(sn, selection.selected), true,
              CandidateList(sn, selection.selected, selection.reasons)));
  }

  // ------------------------------------------------------------ what a plan guarantees

  ghost predicate UniqueIds(sn: Snapshot) {
    forall a, b | a in sn.sessions && b in sn.sessions && a.id == b.id :: a == b
  }

  /** No active session, nothing unknown, and no linked session left behind. */
  ghost predicate Safe(sn: Snapshot, selected: set<Id>) {
    && (forall s | s in sn.sessions && s.id in selected :: s.status != Active)
    && selected <= AllIds(sn.sessions)
    && Closed(sn.sessions, selected)
  }

  lemma {:induction false} ClosureMembersAreLinked(sessions: seq<Session>, selected: set<Id>)
    ensures Closure(sessions, selected) <= selected + LinkedIds(sessions, Closure(sessions, selected))
  {
    ClosureIsLeast(sessions, selected);
    var t := selected + LinkedIds(sessions, Closure(sessions, selected));
    assert LinkedIds(sessions, t) <= LinkedIds(sessions, Closure(sessions, selected));
  }

  lemma ExpandIsSafe(sn: Snapshot, selected: set<Id>)
    requires UniqueIds(sn) && selected <= AllIds(sn.sessions)
    requires forall s | s in sn.sessions && s.id in selected :: s.status != Active
    ensures var r := Expand(sn.sessions, selected); r.Ok? ==> Safe(sn, r.value) && selected <= r.value
  {
    hide Closure;
    ClosureIsLeast(sn.sessions, selected);
    ClosureMembersAreLinked(sn.sessions, selected);
  }

  lemma {:induction false} NotActiveMembers(sessions: seq<Session>)
    ensures forall s :: s in NotActive(sessions) <==> s in sessions && s.status != Active
    decreases |sessions|
  {
    if sessions != [] {
      NotActiveMembers(sessions[..|sessions| - 1]);
      assert sessions == sessions[..|sessions| - 1] + [sessions[|sessions| - 1]];
    }
  }

  /** The terminal sessions, all of them, oldest first. */
  lemma TerminalIsOldestFirst(sn: Snapshot)
    ensures Sorted(Terminal(sn), EndedBefore)
    ensures multiset(Terminal(sn)) == multiset(NotActive(sn.sessions))
    ensures forall s :: s in Terminal(sn) <==> s in sn.sessions && s.status != Active
  {
    SessionOrders();
    SortSorts(NotActive(sn.sessions), EndedBefore);
    NotActiveMembers(sn.sessions);
    forall s ensures s in Terminal(sn) <==> s in NotActive(sn.sessions) {
      assert s in Terminal(sn) <==> s in multiset(Terminal(sn));
      assert s in NotActive(sn.sessions) <==> s in multiset(NotActive(sn.sessions));
    }
  }

  /** What is known of the choice after `k` steps of the size loop. */
  ghost predicate GoodChoice(sn: Snapshot, aged: set<Id>, k: nat, c: Choice)
    requires k <= |Terminal(sn)|
  {
    var taken := AllIds(Terminal(sn)[..k]);
    && Safe(sn, c.selected)
    && aged + taken <= c.selected == Closure(sn.sessions, aged + taken)
    && GoodReasons(c.reasons, c.selected, aged, taken)
  }

  function AgedOf(sn: Snapshot, input: PruneInput): set<Id> {
    if input.olderThanDays.None? then {} else Aged(Terminal(sn), Cutoff(input))
  }

  /** Reasons as far as good choices speak of them. */
  ghost predicate GoodReasons(reasons: map<Id, set<Reason>>, selected: set<Id>, aged: set<Id>, taken: set<Id>) {
    && reasons.Keys == selected
    && (forall id | id in selected ::
          && (Size in reasons[id] <==> id in taken)
          && (Age in reasons[id] <==> id in aged)
          && Explicit !in reasons[id]
          && (id !in aged && id !in taken ==> reasons[id] == {LinkedInternal}))
  }

  lemma MarkLinkedIsGood(reasons: map<Id, set<Reason>>, selected: set<Id>, aged: set<Id>, taken: set<Id>, all: set<Id>)
    requires GoodReasons(reasons, selected, aged, taken) && aged + taken <= selected <= all
    ensures GoodReasons(MarkLinked(reasons, all - selected), all, aged, taken)
  {
    assert MarkLinked(reasons, all - selected).Keys == all;
  }

  lemma StartIsGood(sn: Snapshot, input: PruneInput)
    requires UniqueIds(sn)
    ensures var start := ChooseAged(sn, input); start.Ok? ==> GoodChoice(sn, AgedOf(sn, input), 0, start.value)
  {
    hide Expand, Terminal, MarkLinked, Safe, Closure;
    assert Terminal(sn)[..0] == [];
    ClosureOfNothing(sn.sessions);
    var none: set<Id> := {};
    assert none + none == none;
    AllIdsNext([], []);
    SafeWithNothing(sn);
    if input.olderThanDays.Some? {
      var aged := AgedOf(sn, input);
      AgedAreTerminal(sn, input);
      ExpandIsSafe(sn, aged);
      ExpandIsClosure(sn, aged);
      assert aged + {} == aged;
      var start := ChooseAged(sn, input);
      if start.Ok? {
        var reasons: map<Id, set<Reason>> := map id | id in aged :: {Age};
        assert GoodReasons(reasons, aged, aged, {});
        MarkLinkedIsGood(reasons, aged, aged, {}, start.value.selected);
      }
    }
  }

  lemma {:induction false} ExpandIsClosure(sn: Snapshot, selected: set<Id>)
    ensures var r := Expand(sn.sessions, selected); r.Ok? ==> r.value == Closure(sn.sessions, selected)
  {
  }

  lemma {:induction false} ClosureOfNothing(sessions: seq<Session>)
    ensures Closure(sessions, {}) == {}
  {
    assert LinkedIds(sessions, {}) == {};
  }

  /** Closing once more after one member was added is closing the seeds with that member. */
  lemma {:induction false} ClosureOfSeeds(sessions: seq<Session>, seeds: set<Id>, id: Id)
    ensures Closure(sessions, Closure(sessions, seeds) + {id}) == Closure(sessions, seeds + {id})
  {
    ClosureIsLeast(sessions, seeds);
    ClosureIsLeast(sessions, seeds + {id});
    ClosureAbsorbs(sessions, seeds + {id}, Closure(sessions, seeds) + {id});
  }

  lemma SafeWithNothing(sn: Snapshot)
    ensures Safe(sn, {})
  {
  }

  lemma AgedAreTerminal(sn: Snapshot, input: PruneInput)
    requires UniqueIds(sn)
    ensures AgedOf(sn, input) <= AllIds(sn.sessions)
    ensures forall s | s in sn.sessions && s.id in AgedOf(sn, input) :: s.status != Active
  {
    hide Terminal;
    TerminalIsOldestFirst(sn);
  }

  lemma StepIsGood(sn: Snapshot, aged: set<Id>, k: nat, c: Choice)
    requires UniqueIds(sn) && k < |Terminal(sn)| && GoodChoice(sn, aged, k, c)
    ensures var next := TakeOldest(sn, c, Terminal(sn)[k].id);
            next.Ok? ==> GoodChoice(sn, aged, k + 1, next.value) && c.selected <= next.value.selected
  {
    hide Expand, Terminal, MarkLinked, AllIds, Closure, Safe;
    var s := Terminal(sn)[k];
    var taken := AllIds(Terminal(sn)[..k]);
    assert Terminal(sn)[..k + 1] == Terminal(sn)[..k] + [s];
    AllIdsNext(Terminal(sn)[..k], [s]);
    assert GoodReasons(c.reasons, c.selected, aged, taken);
    ClosureOfSeeds(sn.sessions, aged + taken, s.id);
    assert (aged + taken) + {s.id} == aged + (taken + {s.id});
    ClosureKeepsMember(sn.sessions, aged + taken, s.id);
    ExpandIsClosure(sn, c.selected + {s.id});
    var next := TakeOldest(sn, c, s.id);
    if s.id !in c.selected && next.Ok? {
      TakenIsSafe(sn, c.selected, s);
      var reasons := c.reasons[s.id := {Size}];
      assert GoodReasons(reasons, c.selected + {s.id}, aged, taken + {s.id});
      MarkLinkedIsGood(reasons, c.selected + {s.id}, aged, taken + {s.id}, next.value.selected);
    }
  }

  lemma {:induction false} ClosureKeepsMember(sessions: seq<Session>, seeds: set<Id>, id: Id)
    ensures id in Closure(sessions, seeds) ==> Closure(sessions, seeds + {id}) == Closure(sessions, seeds)
  {
    ClosureIsLeast(sessions, seeds);
    if id in Closure(sessions, seeds) {
      ClosureAbsorbs(sessions, seeds, seeds + {id});
    }
  }

  lemma TakenIsSafe(sn: Snapshot, selected: set<Id>, s: Session)
    requires UniqueIds(sn) && Safe(sn, selected) && s in Terminal(sn)
    ensures var r := Expand(sn.sessions, selected + {s.id}); r.Ok? ==> Safe(sn, r.value) && selected + {s.id} <= r.value
  {
    hide Expand, Terminal;
    TerminalIsOldestFirst(sn);
    ExpandIsSafe(sn, selected + {s.id});
  }

  lemma {:induction false} StepsAreGood(sn: Snapshot, input: PruneInput, k: nat)
    requires UniqueIds(sn) && k <= |Terminal(sn)| && ChooseAged(sn, input).Ok?
    ensures var c := TakenOldest(sn, ChooseAged(sn, input).value, Terminal(sn), k);
            c.Ok? ==> GoodChoice(sn, AgedOf(sn, input), k, c.value)
    decreases k
  {
    hide TakeOldest, GoodChoice, ChooseAged, Terminal;
    if k == 0 {
      StartIsGood(sn, input);
    } else {
      StepsAreGood(sn, input, k - 1);
      var c := TakenOldest(sn, ChooseAged(sn, input).value, Terminal(sn), k - 1);
      if c.Ok? {
        StepIsGood(sn, AgedOf(sn, input), k - 1, c.value);
      }
    }
  }

  /** A plan never holds an active session, leaves no linked internal session behind, marks
      for age exactly the aged sessions, and marks for size a prefix of the oldest-first order. */
  lemma PlanIsSafe(sn: Snapshot, input: PruneInput, steps: nat, c: Choice)
    requires UniqueIds(sn) && PlanChosen(sn, input, steps, c)
    ensures steps <= |Terminal(sn)| && GoodChoice(sn, AgedOf(sn, input), steps, c)
  {
    hide GoodChoice;
    StepsAreGood(sn, input, steps);
  }

  /** Whatever the size loop chose last was needed: without it, and without the sessions
      it pulled in, usage is over the limit. */
  lemma {:induction false} LastChoiceWasNeeded(sn: Snapshot, start: Choice, maximum: int, steps: nat) returns (k: nat)
    requires StopsAfter(sn, start, maximum, steps)
    requires TakenOldest(sn, start, Terminal(sn), steps).value.selected != start.selected
    ensures k < steps && TakenOldest(sn, start, Terminal(sn), k).Ok?
    ensures var before := TakenOldest(sn, start, Terminal(sn), k).value.selected;
            && Terminal(sn)[k].id !in before
            && Expand(sn.sessions, before + {Terminal(sn)[k].id}) == Ok(TakenOldest(sn, start, Terminal(sn), steps).value.selected)
            && Over(sn, before, maximum)
  {
    hide Expand, Terminal, Over, MarkLinked;
    k := steps;
    ghost var chosen := TakenOldest(sn, start, Terminal(sn), steps).value.selected;
    while true
      invariant 0 < k <= steps || (k == 0 && chosen == start.selected)
      invariant TakenOldest(sn, start, Terminal(sn), k).Ok? && TakenOldest(sn, start, Terminal(sn), k).value.selected == chosen
      decreases k
    {
      k := k - 1;
      var before := TakenOldest(sn, start, Terminal(sn), k).value;
      if Terminal(sn)[k].id !in before.selected {
        return;
      }
    }
  }

  // ------------------------------------------------------------ usage is monotonic

  lemma {:induction false} RetainedMembers(sessions: seq<Session>, removed: set<Id>)
    ensures forall s :: s in Retained(sessions, removed) <==> s in sessions && s.id !in removed
    decreases |sessions|
  {
    if sessions != [] {
      RetainedMembers(sessions[..|sessions| - 1], removed);
      assert sessions == sessions[..|sessions| - 1] + [sessions[|sessions| - 1]];
    }
  }

  lemma {:induction false} RetainedSumMonotonic(sessions: seq<Session>, less: set<Id>, more: set<Id>, f: Session -> nat)
    requires less <= more
    ensures Sum(Retained(sessions, more), f) <= Sum(Retained(sessions, less), f)
    decreases |sessions|
  {
    if sessions != [] {
      var front, last := sessions[..|sessions| - 1], sessions[|sessions| - 1];
      RetainedSumMonotonic(front, less, more, f);
      SumNext(Retained(front, less), last, f);
      SumNext(Retained(front, more), last, f);
      assert Retained(front, less) + [] == Retained(front, less) && Retained(front, more) + [] == Retained(front, more);
    }
  }

  lemma {:induction false} RetainedBlobsMonotonic(blobs: seq<BlobUsage>, less: set<Id>, more: set<Id>, f: BlobUsage -> nat)
    requires less <= more
    ensures Sum(RetainedBlobs(blobs, more), f) <= Sum(RetainedBlobs(blobs, less), f)
    decreases |blobs|
  {
    hide Sum;
    if blobs != [] {
      var front, last := blobs[..|blobs| - 1], blobs[|blobs| - 1];
      RetainedBlobsMonotonic(front, less, more, f);
      assert last.sessions <= less ==> last.sessions <= more;
      SumNext(RetainedBlobs(front, less), last, f);
      SumNext(RetainedBlobs(front, more), last, f);
      assert RetainedBlobs(front, less) + [] == RetainedBlobs(front, less);
      assert RetainedBlobs(front, more) + [] == RetainedBlobs(front, more);
    }
  }

  lemma UsageMonotonic(sn: Snapshot, less: set<Id>, more: set<Id>)
    requires less <= more
    ensures Summary(sn, more).logicalBytes <= Summary(sn, less).logicalBytes
  {
    RetainedSumMonotonic(sn.sessions, less, more, (s: Session) => RecordBytesOf(sn, s.id));
    RetainedBlobsMonotonic(sn.blobs, less, more, (b: BlobUsage) => b.bytes);
  }

  /** An unsatisfied plan already holds every terminal session, so no set of terminal
      sessions could meet the limit. */
  lemma UnsatisfiedMeansImpossible(sn: Snapshot, input: PruneInput, steps: nat, c: Choice, removed: set<Id>)
    requires UniqueIds(sn) && PlanChosen(sn, input, steps, c)
    requires input.maximumBytes.Some? && Over(sn, c.selected, input.maximumBytes.value)
    requires removed <= AllIds(Terminal(sn))
    ensures AllIds(Terminal(sn)) <= c.selected
    ensures Over(sn, removed, input.maximumBytes.value)
  {
    hide Terminal, Summary, Expand, TakenOldest, ChooseAged;
    PlanIsSafe(sn, input, steps, c);
    assert Terminal(sn)[..steps] == Terminal(sn);
    UsageMonotonic(sn, removed, c.selected);
  }

  // ------------------------------------------------------------ what a plan frees

  function Share(blob: BlobUsage, s: Session): nat {
    if s.id in blob.sessions then blob.bytes else 0
  }

  function FreedBytes(blobs: seq<BlobUsage>, removed: set<Id>): nat {
    if blobs == [] then 0
    else
      var last := blobs[|blobs| - 1];
      FreedBytes(blobs[..|blobs| - 1], removed) + (if last.sessions <= removed then last.bytes else 0)
  }

  lemma {:induction false} FreedAndRetained(blobs: seq<BlobUsage>, removed: set<Id>)
    ensures BytesOf(blobs) == BytesOf(RetainedBlobs(blobs, removed)) + FreedBytes(blobs, removed)
    decreases |blobs|
  {
    if blobs != [] {
      var front, last := blobs[..|blobs| - 1], blobs[|blobs| - 1];
      FreedAndRetained(front, removed);
      SumNext(RetainedBlobs(front, removed), last, (b: BlobUsage) => b.bytes);
      assert RetainedBlobs(front, removed) + [] == RetainedBlobs(front, removed);
      BytesOfLast(blobs);
    }
  }

  lemma BytesOfLast(blobs: seq<BlobUsage>)
    requires blobs != []
    ensures BytesOf(blobs) == BytesOf(blobs[..|blobs| - 1]) + blobs[|blobs| - 1].bytes
  {
  }

  /** Bytes of all blobs, counted once for each of the sessions that shares them. */
  function Shares(blobs: seq<BlobUsage>, sessions: seq<Session>): nat {
    Sum(sessions, (s: Session) => Sum(blobs, (b: BlobUsage) => Share(b, s)))
  }

  lemma {:induction false} SharesNext(blobs: seq<BlobUsage>, last: BlobUsage, sessions: seq<Session>)
    ensures Shares(blobs + [last], sessions) == Shares(blobs, sessions) + Sum(sessions, (s: Session) => Share(last, s))
    decreases |sessions|
  {
    if sessions != [] {
      var front, s := sessions[..|sessions| - 1], sessions[|sessions| - 1];
      SharesNext(blobs, last, front);
      SumNext(blobs, last, (b: BlobUsage) => Share(b, s));
      SharesLast(blobs, sessions);
      SharesLast(blobs + [last], sessions);
      ShareSumLast(last, sessions);
    }
  }

  lemma {:induction false} SharesLast(blobs: seq<BlobUsage>, sessions: seq<Session>)
    requires sessions != []
    ensures var s := sessions[|sessions| - 1];
            Shares(blobs, sessions) == Shares(blobs, sessions[..|sessions| - 1]) + Sum(blobs, (b: BlobUsage) => Share(b, s))
  {
  }

  lemma {:induction false} ShareSumLast(blob: BlobUsage, sessions: seq<Session>)
    requires sessions != []
    ensures Sum(sessions, (s: Session) => Share(blob, s))
         == Sum(sessions[..|sessions| - 1], (s: Session) => Share(blob, s)) + Share(blob, sessions[|sessions| - 1])
  {
  }

  lemma {:induction false} FreedIsShared(blobs: seq<BlobUsage>, removed: set<Id>, sessions: seq<Session>)
    requires forall id | id in removed :: exists s | s in sessions :: s.id == id
    requires forall b | b in blobs :: b.sessions != {}
    ensures FreedBytes(blobs, removed) <= Shares(blobs, sessions)
    decreases |blobs|
  {
    hide Shares, Share;
    if blobs != [] {
      var front, last := blobs[..|blobs| - 1], blobs[|blobs| - 1];
      assert blobs == front + [last];
      assert last in blobs && forall b | b in front :: b in blobs;
      FreedIsShared(front, removed, sessions);
      SharesNext(front, last, sessions);
      if last.sessions <= removed {
        var id :| id in last.sessions;
        var s :| s in sessions && s.id == id;
        SumHasTerm(sessions, (s: Session) => Share(last, s), s);
        ShareOfMember(last, s);
      }
    }
  }

  lemma ShareOfMember(blob: BlobUsage, s: Session)
    requires s.id in blob.sessions
    ensures Share(blob, s) == blob.bytes
  {
  }

  lemma {:induction false} ChosenAndRetained(sessions: seq<Session>, selected: set<Id>, f: Session -> nat)
    ensures Sum(sessions, f) == Sum(Retained(sessions, selected), f) + Sum(Chosen(sessions, selected), f)
    decreases |sessions|
  {
    if sessions != [] {
      hide Sum;
      var front, last := sessions[..|sessions| - 1], sessions[|sessions| - 1];
      ChosenAndRetained(front, selected, f);
      assert sessions == front + [last];
      SumNext(front, last, f);
      if last.id in selected {
        assert Retained(sessions, selected) == Retained(front, selected);
        SumNext(Chosen(front, selected), last, f);
      } else {
        assert Chosen(sessions, selected) == Chosen(front, selected);
        SumNext(Retained(front, selected), last, f);
      }
    }
  }

  lemma {:induction false} ChosenMembers(sessions: seq<Session>, selected: set<Id>)
    ensures forall s :: s in Chosen(sessions, selected) <==> s in sessions && s.id in selected
    decreases |sessions|
  {
    if sessions != [] {
      ChosenMembers(sessions[..|sessions| - 1], selected);
      assert sessions == sessions[..|sessions| - 1] + [sessions[|sessions| - 1]];
    }
  }

  lemma {:induction false} RetainedNone(sessions: seq<Session>, blobs: seq<BlobUsage>)
    requires forall b | b in blobs :: b.sessions != {}
    ensures Retained(sessions, {}) == sessions
    ensures RetainedBlobs(blobs, {}) == blobs
    decreases |sessions| + |blobs|
  {
    if sessions != [] {
      RetainedNone(sessions[..|sessions| - 1], blobs);
    }
    if blobs != [] {
      RetainedNone(sessions, blobs[..|blobs| - 1]);
      assert blobs[|blobs| - 1] in blobs;
    }
  }

  ghost predicate BlobsAreUsed(sn: Snapshot) {
    forall b | b in sn.blobs :: b.sessions != {} && b.sessions <= AllIds(sn.sessions)
  }

  function ListedBytes(candidates: seq<Candidate>): nat {
    Sum(candidates, (c: Candidate) => c.logicalBytes)
  }

  /** A plan frees at most the sum of the sizes it lists, although blobs are shared. */
  lemma PlanFreesAtMostListed(sn: Snapshot, selected: set<Id>, reasons: map<Id, set<Reason>>)
    requires BlobsAreUsed(sn) && selected <= AllIds(sn.sessions)
    ensures Summary(sn, {}).logicalBytes <= Summary(sn, selected).logicalBytes + ListedBytes(CandidateList(sn, selected, reasons))
  {
    hide Retained, RetainedBlobs, Chosen, FreedBytes, Sort, BytesOf;
    var chosen := Chosen(sn.sessions, selected);
    var sorted := Sort(chosen, StartedBefore);
    SessionOrders();
    SortSorts(chosen, StartedBefore);
    RetainedNone(sn.sessions, sn.blobs);
    ChosenAndRetained(sn.sessions, selected, (s: Session) => RecordBytesOf(sn, s.id));
    FreedAndRetained(sn.blobs, selected);
    ChosenMembers(sn.sessions, selected);
    forall id | id in selected ensures exists s | s in chosen :: s.id == id {
      var s :| s in sn.sessions && s.id == id;
      assert s in chosen;
    }
    FreedIsShared(sn.blobs, selected, chosen);
    ListedIsRecordsAndShares(sn, sorted, reasons);
    var f := (s: Session) => RecordBytesOf(sn, s.id);
    SumPermutation(sorted, chosen, f);
    SharesPermutation(sn.blobs, sorted, chosen);
  }

  lemma SharesPermutation(blobs: seq<BlobUsage>, a: seq<Session>, b: seq<Session>)
    requires multiset(a) == multiset(b)
    ensures Shares(blobs, a) == Shares(blobs, b)
  {
    SumPermutation(a, b, (s: Session) => Sum(blobs, (b: BlobUsage) => Share(b, s)));
  }

  lemma {:induction false} ListedIsRecordsAndShares(sn: Snapshot, sessions: seq<Session>, reasons: map<Id, set<Reason>>)
    ensures var listed := seq(|sessions|, i requires 0 <= i < |sessions| => CandidateOf(sn, reasons, sessions[i]));
            ListedBytes(listed) == Sum(sessions, (s: Session) => RecordBytesOf(sn, s.id)) + Shares(sn.blobs, sessions)
    decreases |sessions|
  {
    if sessions != [] {
      var front, last := sessions[..|sessions| - 1], sessions[|sessions| - 1];
      var listed := seq(|sessions|, i requires 0 <= i < |sessions| => CandidateOf(sn, reasons, sessions[i]));
      assert listed[..|listed| - 1] == seq(|front|, i requires 0 <= i < |front| => CandidateOf(sn, reasons, front[i]));
      ListedIsRecordsAndShares(sn, front, reasons);
      SharesLast(sn.blobs, sessions);
      ListedLast(listed);
      RecordsLast(sn, sessions);
      SharesOfOne(sn.blobs, last);
    }
  }

  lemma ListedLast(listed: seq<Candidate>)
    requires listed != []
    ensures ListedBytes(listed) == ListedBytes(listed[..|listed| - 1]) + listed[|listed| - 1].logicalBytes
  {
  }

  lemma {:induction false} RecordsLast(sn: Snapshot, sessions: seq<Session>)
    requires sessions != []
    ensures var f := (s: Session) => RecordBytesOf(sn, s.id);
            Sum(sessions, f) == Sum(sessions[..|sessions| - 1], f) + RecordBytesOf(sn, sessions[|sessions| - 1].id)
  {
  }

  lemma {:induction false} SharesOfOne(blobs: seq<BlobUsage>, s: Session)
    ensures Sum(blobs, (b: BlobUsage) => Share(b, s)) == Sum(blobs, (b: BlobUsage) => if s.id in b.sessions then b.bytes else 0)
    decreases |blobs|
  {
    if blobs != [] {
      SharesOfOne(blobs[..|blobs| - 1], s);
    }
  }
}
