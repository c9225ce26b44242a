// What a prune plan (apps/daemon/src/archive/evidence-maintenance.ts) says, in terms of the
// fields of sessions and blobs, milliseconds and bytes.

module PruneTerms {
  import opened Wrappers
  import opened Ordering
  import opened Database
  import opened Retention

  /** The time a session ended, or started when it has no end. */
  function EndOf(s: Session): int {
    match s.endedAt
    case Some(time) => time
    case None => s.startedAt
  }

  /** Not active, and over for longer than the days given, in milliseconds. */
  predicate OldEnough(input: PruneInput, s: Session) {
    && input.olderThanDays.Some? && s.status != Active
    && (input.now - EndOf(s)) as real > input.olderThanDays.value * 86_400_000.0
  }

  /** All sessions that are not active, each once, by end time and then by identifier. */
  ghost predicate OldestFirst(order: seq<Session>, sessions: seq<Session>) {
    && NoDuplicates(order)
    && (forall s :: s in order <==> s in sessions && s.status != Active)
    && forall i, j | 0 <= i < j < |order| ::
         EndOf(order[i]) < EndOf(order[j]) || (EndOf(order[i]) == EndOf(order[j]) && StringLe(order[i].id, order[j].id))
  }

  /** With a session go all that target it. */
  ghost predicate TakesTargeting(sessions: seq<Session>, ids: set<Id>) {
    forall s | s in sessions && s.target.Some? && s.target.value in ids :: s.id in ids
  }

  ghost predicate LeastTaking(sessions: seq<Session>, seeds: set<Id>, ids: set<Id>) {
    && seeds <= ids && TakesTargeting(sessions, ids)
    && forall other | seeds <= other && TakesTargeting(sessions, other) :: ids <= other
  }

  function RecordBytes(sn: Snapshot, s: Session): nat {
    if s.id in sn.recordBytes then sn.recordBytes[s.id] else 0
  }

  /** Usage without some sessions: of the records, those of the other sessions; of the blobs, those
      that some other session references. */
  function UsageWithout(sn: Snapshot, removed: set<Id>): Usage {
    Usage(
      Sum(sn.sessions, (s: Session) => if s.id in removed then 0 else RecordBytes(sn, s))
      + Sum(sn.blobs, (b: BlobUsage) => if b.sessions <= removed then 0 else b.bytes),
      Sum(sn.sessions, (s: Session) => if s.id in removed then 0 else 1),
      Sum(sn.blobs, (b: BlobUsage) => if b.sessions <= removed then 0 else 1))
  }

  lemma {:induction false} RetainedSum(sessions: seq<Session>, removed: set<Id>, f: Session -> nat, g: Session -> nat)
    requires forall s :: g(s) == if s.id in removed then 0 else f(s)
    ensures Sum(Retained(sessions, removed), f) == Sum(sessions, g)
    decreases |sessions|
  {
    if sessions != [] {
      var front, last := sessions[..|sessions| - 1], sessions[|sessions| - 1];
      RetainedSum(front, removed, f, g);
      SumNext(Retained(front, removed), last, f);
      assert Retained(front, removed) + [] == Retained(front, removed);
    }
  }

  lemma {:induction false} RetainedBlobSum(blobs: seq<BlobUsage>, removed: set<Id>, f: BlobUsage -> nat, g: BlobUsage -> nat)
    requires forall b :: g(b) == if b.sessions <= removed then 0 else f(b)
    ensures Sum(RetainedBlobs(blobs, removed), f) == Sum(blobs, g)
    decreases |blobs|
  {
    if blobs != [] {
      var front, last := blobs[..|blobs| - 1], blobs[|blobs| - 1];
      RetainedBlobSum(front, removed, f, g);
      SumNext(RetainedBlobs(front, removed), last, f);
      assert RetainedBlobs(front, removed) + [] == RetainedBlobs(front, removed);
    }
  }

  lemma {:induction false} Counted<T>(s: seq<T>, f: T -> nat)
    requires forall x :: f(x) == 1
    ensures Sum(s, f) == |s|
    decreases |s|
  {
    if s != [] {
      Counted(s[..|s| - 1], f);
    }
  }

  lemma {:induction false} SameSums<T>(s: seq<T>, f: T -> nat, g: T -> nat)
    requires forall x | x in s :: f(x) == g(x)
    ensures Sum(s, f) == Sum(s, g)
    decreases |s|
  {
    if s != [] {
      SameSums(s[..|s| - 1], f, g);
    }
  }

  lemma SummaryInTerms(sn: Snapshot, removed: set<Id>)
    ensures Summary(sn, removed) == UsageWithout(sn, removed)
  {
    hide Sum, Retained, RetainedBlobs;
    RetainedSum(sn.sessions, removed, (s: Session) => RecordBytesOf(sn, s.id), (s: Session) => if s.id in removed then 0 else RecordBytes(sn, s));
    RetainedBlobSum(sn.blobs, removed, (b: BlobUsage) => b.bytes, (b: BlobUsage) => if b.sessions <= removed then 0 else b.bytes);
    RetainedSum(sn.sessions, removed, (s: Session) => 1, (s: Session) => if s.id in removed then 0 else 1);
    RetainedBlobSum(sn.blobs, removed, (b: BlobUsage) => 1, (b: BlobUsage) => if b.sessions <= removed then 0 else 1);
    Counted(Retained(sn.sessions, removed), (s: Session) => 1);
    Counted(RetainedBlobs(sn.blobs, removed), (b: BlobUsage) => 1);
  }

  lemma {:induction false} ClosureInTerms(sessions: seq<Session>, seeds: set<Id>)
    ensures LeastTaking(sessions, seeds, Closure(sessions, seeds))
  {
    hide Closure;
    ClosureIsLeast(sessions, seeds);
    forall ids ensures Closed(sessions, ids) <==> TakesTargeting(sessions, ids) {
      if TakesTargeting(sessions, ids) {
        forall id | id in LinkedIds(sessions, ids) ensures id in ids {
          var s :| s in sessions && Linked(s, ids) && s.id == id;
        }
      }
      if Closed(sessions, ids) {
        forall s | s in sessions && s.target.Some? && s.target.value in ids ensures s.id in ids {
          assert Linked(s, ids) && s.id in LinkedIds(sessions, ids);
        }
      }
    }
  }

  /** The sessions pulled in by `seeds`, unless one of them is active. */
  lemma ExpandInTerms(sessions: seq<Session>, seeds: set<Id>)
    ensures var r := Expand(sessions, seeds);
            && (r.Ok? ==> LeastTaking(sessions, seeds, r.value))
            && (r.Err? ==> r.error == ActiveLinkedSession)
            && (r.Err? <==> exists ids, s :: LeastTaking(sessions, seeds, ids) && s in sessions && s.status == Active && s.target.Some? && s.target.value in ids)
  {
    hide Closure, LeastTaking;
    ClosureInTerms(sessions, seeds);
    var all := Closure(sessions, seeds);
    forall ids | LeastTaking(sessions, seeds, ids) ensures ids == all {
      LeastIsOne(sessions, seeds, ids, all);
    }
    if ActiveLinked(sessions, all) {
      var s :| s in sessions && s.status == Active && Linked(s, all);
      assert LeastTaking(sessions, seeds, all) && s.target.Some? && s.target.value in all;
    }
  }

  lemma LeastIsOne(sessions: seq<Session>, seeds: set<Id>, a: set<Id>, b: set<Id>)
    requires LeastTaking(sessions, seeds, a) && LeastTaking(sessions, seeds, b)
    ensures a == b
  {
  }

  /** What is refused before anything is planned. */
  lemma InputIsChecked(input: PruneInput)
    ensures InputError(input).None?
       <==> && (input.olderThanDays.Some? || input.maximumBytes.Some?)
            && (input.olderThanDays.Some? ==> input.olderThanDays.value >= 0.0)
            && (input.maximumBytes.Some? ==> input.maximumBytes.value >= 0)
  {
  }

  lemma TerminalInTerms(sn: Snapshot)
    requires NoDuplicates(sn.sessions)
    ensures OldestFirst(Terminal(sn), sn.sessions)
  {
    hide Terminal, NotActive;
    TerminalIsOldestFirst(sn);
    NotActiveOnce(sn.sessions);
    DistinctCounts(NotActive(sn.sessions));
    CountedOnceIsDistinct(Terminal(sn));
    forall i, j | 0 <= i < j < |Terminal(sn)|
      ensures var a, b := Terminal(sn)[i], Terminal(sn)[j]; EndOf(a) < EndOf(b) || (EndOf(a) == EndOf(b) && StringLe(a.id, b.id))
    {
      assert EndedBefore(Terminal(sn)[i], Terminal(sn)[j]);
    }
  }

  lemma {:induction false} NotActiveOnce(sessions: seq<Session>)
    requires NoDuplicates(sessions)
    ensures NoDuplicates(NotActive(sessions))
    decreases |sessions|
  {
    if sessions != [] {
      var front := sessions[..|sessions| - 1];
      NotActiveOnce(front);
      NotActiveMembers(front);
    }
  }

  function IdsOf(sessions: seq<Session>): set<Id> {
    set s | s in sessions :: s.id
  }

  function OldIds(sn: Snapshot, input: PruneInput): set<Id> {
    set s | s in sn.sessions && OldEnough(input, s) :: s.id
  }

  lemma AgedInTerms(sn: Snapshot, input: PruneInput)
    ensures AgedOf(sn, input) == OldIds(sn, input)
  {
    hide Terminal;
    TerminalIsOldestFirst(sn);
    if input.olderThanDays.Some? {
      forall s: Session ensures EndOrStart(s) as real < Cutoff(input) <==> (input.now - EndOf(s)) as real > input.olderThanDays.value * 86_400_000.0 {
        assert DAY as real == 86_400_000.0;
        assert (input.now - EndOf(s)) as real == input.now as real - EndOf(s) as real;
      }
    }
  }

  /** A listed candidate: the session's own fields, the bytes of its record and of every blob it
      references, and why it is listed. */
  ghost predicate Tells(sn: Snapshot, input: PruneInput, taken: set<Id>, x: Candidate, s: Session) {
    && x.session == s.id && x.status == s.status && x.startedAt == s.startedAt
    && x.logicalBytes == RecordBytes(sn, s) + Sum(sn.blobs, (b: BlobUsage) => if s.id in b.sessions then b.bytes else 0)
    && (Age in x.reasons <==> OldEnough(input, s))
    && (Size in x.reasons <==> s.id in taken)
    && (!OldEnough(input, s) && s.id !in taken ==> x.reasons == {LinkedInternal})
    && Explicit !in x.reasons
  }

  ghost predicate ListedByStart(list: seq<Candidate>) {
    forall i, j | 0 <= i < j < |list| ::
      list[i].startedAt < list[j].startedAt || (list[i].startedAt == list[j].startedAt && StringLe(list[i].session, list[j].session))
  }

  /** The candidates of a choice, one for each session chosen, by start and then by identifier. */
  lemma CandidatesInTerms(sn: Snapshot, selected: set<Id>, reasons: map<Id, set<Reason>>)
    ensures var list := CandidateList(sn, selected, reasons);
            && ListedByStart(list)
            && (forall x | x in list :: exists s | s in sn.sessions && s.id in selected :: x == CandidateOf(sn, reasons, s))
            && (forall s | s in sn.sessions && s.id in selected :: CandidateOf(sn, reasons, s) in list)
  {
    hide Chosen, CandidateOf, StartedBefore, Sort, Sorted;
    var sorted := Sort(Chosen(sn.sessions, selected), StartedBefore);
    var list := CandidateList(sn, selected, reasons);
    ChosenInOrder(sn, selected);
    forall i, j | 0 <= i < j < |list|
      ensures list[i].startedAt < list[j].startedAt || (list[i].startedAt == list[j].startedAt && StringLe(list[i].session, list[j].session))
    {
      assert StartedBefore(sorted[i], sorted[j]);
      SortedByStart(sn, reasons, sorted[i], sorted[j]);
    }
    forall x | x in list ensures exists s | s in sn.sessions && s.id in selected :: x == CandidateOf(sn, reasons, s) {
      var i :| 0 <= i < |list| && list[i] == x;
      assert sorted[i] in sorted;
    }
    forall s | s in sn.sessions && s.id in selected ensures CandidateOf(sn, reasons, s) in list {
      assert s in sorted;
      var i :| 0 <= i < |sorted| && sorted[i] == s;
      assert list[i] == CandidateOf(sn, reasons, s);
    }
  }

  lemma {:induction false} ChosenInOrder(sn: Snapshot, selected: set<Id>)
    ensures var sorted := Sort(Chosen(sn.sessions, selected), StartedBefore);
            && (forall s :: s in sorted <==> s in sn.sessions && s.id in selected)
            && (forall i, j | 0 <= i < j < |sorted| :: StartedBefore(sorted[i], sorted[j]))
  {
    hide Chosen, StartedBefore, Sort;
    var chosen := Chosen(sn.sessions, selected);
    var sorted := Sort(chosen, StartedBefore);
    SessionOrders();
    SortSorts(chosen, StartedBefore);
    ChosenMembers(sn.sessions, selected);
    forall s ensures s in sorted <==> s in chosen {
      assert s in sorted <==> s in multiset(sorted);
      assert s in chosen <==> s in multiset(chosen);
    }
  }

  lemma SortedByStart(sn: Snapshot, reasons: map<Id, set<Reason>>, a: Session, b: Session)
    requires StartedBefore(a, b)
    ensures var x, y := CandidateOf(sn, reasons, a), CandidateOf(sn, reasons, b);
            x.startedAt < y.startedAt || (x.startedAt == y.startedAt && StringLe(x.session, y.session))
  {
    hide SessionLogicalBytes;
  }

  lemma CandidateTells(sn: Snapshot, input: PruneInput, c: Choice, taken: set<Id>, s: Session)
    requires UniqueIds(sn) && s in sn.sessions && s.id in c.selected
    requires GoodReasons(c.reasons, c.selected, OldIds(sn, input), taken)
    ensures Tells(sn, input, taken, CandidateOf(sn, c.reasons, s), s)
  {
    hide Sum;
    assert s.id in OldIds(sn, input) <==> OldEnough(input, s);
    SameSums(sn.blobs, (b: BlobUsage) => if s.id in b.sessions then b.bytes else 0, (b: BlobUsage) => if s.id in b.sessions then b.bytes else 0);
  }

  /** A plan: old enough sessions and the first of the oldest-first order are listed with all that
      target them and no others; each is told with its own figures and reasons; the usage figures
      are those of the whole store and of what the plan leaves. */
  lemma PlanInTerms(sn: Snapshot, input: PruneInput, steps: nat, c: Choice, plan: Plan) returns (order: seq<Session>)
    requires UniqueIds(sn) && NoDuplicates(sn.sessions) && PlanChosen(sn, input, steps, c) && PlanFor(sn, input, c, plan)
    ensures OldestFirst(order, sn.sessions) && steps <= |order|
    ensures var taken := IdsOf(order[..steps]);
            && LeastTaking(sn.sessions, OldIds(sn, input) + taken, c.selected)
            && (forall s | s in sn.sessions && s.id in c.selected :: s.status != Active)
            && (forall x | x in plan.sessions :: exists s | s in sn.sessions && s.id in c.selected :: Tells(sn, input, taken, x, s))
            && (forall s | s in sn.sessions && s.id in c.selected :: exists x | x in plan.sessions :: x.session == s.id)
            && ListedByStart(plan.sessions)
    ensures input.maximumBytes.None? ==> steps == 0
    ensures plan.current == UsageWithout(sn, {}) && plan.projected == UsageWithout(sn, c.selected)
    ensures plan.satisfied <==> input.maximumBytes.None? || UsageWithout(sn, c.selected).logicalBytes <= input.maximumBytes.value
  {
    hide Terminal, Summary, UsageWithout, CandidateList, Closure, Tells, OldEnough, StopsAfter, TakenOldest, ChooseAged, GoodReasons, CandidateOf;
    order := Terminal(sn);
    TerminalInTerms(sn);
    AgedInTerms(sn, input);
    PlanIsSafe(sn, input, steps, c);
    SummaryInTerms(sn, {});
    SummaryInTerms(sn, c.selected);
    var taken := IdsOf(order[..steps]);
    ClosureInTerms(sn.sessions, OldIds(sn, input) + taken);
    CandidatesInTerms(sn, c.selected, c.reasons);
    forall s | s in sn.sessions && s.id in c.selected
      ensures Tells(sn, input, taken, CandidateOf(sn, c.reasons, s), s) && CandidateOf(sn, c.reasons, s).session == s.id
    {
      CandidateTells(sn, input, c, taken, s);
      CandidateNames(sn, c.reasons, s);
    }
  }

  lemma CandidateNames(sn: Snapshot, reasons: map<Id, set<Reason>>, s: Session)
    ensures CandidateOf(sn, reasons, s).session == s.id
  {
  }
}
