// Keyset pagination: events (packages/storage/src/event-repository.ts), sessions
// (packages/storage/src/session-repository.ts), and the loop over all session pages
// (apps/daemon/src/archive/evidence-maintenance.ts).

module Pagination {
  import opened Wrappers
  import opened Ordering

  /** A query's order, and its cursors: `after` is the condition the query puts on a row, and
      `start` the cursor of a first page. */
  datatype Paging<!R, !C> = Paging(le: (R, R) -> bool, after: (C, R) -> bool, cursorOf: R -> C, start: C)

  datatype Page<R, C> = Page(rows: seq<R>, next: Option<C>)

  function Clamp(limit: Option<int>): (n: nat)
    ensures 1 <= n <= 1000
  {
    var l := if limit.Some? then limit.value else 100;
    var capped := if l < 1000 then l else 1000;
    if capped < 1 then 1 else capped
  }

  function Filter<R>(rows: seq<R>, where: R -> bool): seq<R>
    decreases |rows|
  {
    if rows == [] then []
    else
      var r := rows[|rows| - 1];
      Filter(rows[..|rows| - 1], where) + if where(r) then [r] else []
  }

  /** Selects, sorts, fetches one row more than the page holds, and cuts. */
  function Fetch<R, C>(p: Paging<R, C>, table: seq<R>, where: R -> bool, cursor: C, limit: nat): Page<R, C>
    requires limit > 0
  {
    var selected := Sort(Filter(table, r => where(r) && p.after(cursor, r)), p.le);
    var fetched := if |selected| <= limit + 1 then selected else selected[..limit + 1];
    var hasMore := |fetched| > limit;
    var visible := if hasMore then fetched[..limit] else fetched;
    Page(visible, if hasMore then Some(p.cursorOf(visible[|visible| - 1])) else None)
  }

  /** The whole result in order. */
  function All<R, C>(p: Paging<R, C>, table: seq<R>, where: R -> bool): seq<R> {
    Sort(Filter(table, where), p.le)
  }

  ghost predicate Sound<R(!new), C>(p: Paging<R, C>) {
    TotalPreorder(p.le) && forall a, b :: p.after(p.cursorOf(a), b) <==> !p.le(b, a)
  }

  /** Rows have distinct keys, and a first page is not restricted. */
  ghost predicate Keyed<R(!new), C>(p: Paging<R, C>, table: seq<R>) {
    && NoDuplicates(table)
    && (forall a, b | a in table && b in table && p.le(a, b) && p.le(b, a) :: a == b)
    && forall r | r in table :: p.after(p.start, r)
  }

  // ------------------------------------------------------------ a page is a slice

  lemma {:induction false} FilterKeeps<R>(rows: seq<R>, where: R -> bool)
    ensures forall r :: r in Filter(rows, where) <==> r in rows && where(r)
    ensures forall r :: multiset(Filter(rows, where))[r] == if where(r) then multiset(rows)[r] else 0
    decreases |rows|
  {
    if rows != [] {
      var front, r := rows[..|rows| - 1], rows[|rows| - 1];
      assert rows == front + [r];
      FilterKeeps(front, where);
    }
  }

  lemma {:induction false} FilterSorted<R(!new)>(rows: seq<R>, where: R -> bool, le: (R, R) -> bool)
    requires Sorted(rows, le)
    ensures Sorted(Filter(rows, where), le)
    decreases |rows|
  {
    if rows != [] {
      var front, r := rows[..|rows| - 1], rows[|rows| - 1];
      FilterSorted(front, where, le);
      FilterKeeps(front, where);
      var f := Filter(front, where);
      forall i | 0 <= i < |f| ensures le(f[i], r) {
        assert f[i] in front;
      }
    }
  }

  lemma {:induction false} SortKeeps<R(!new)>(rows: seq<R>, le: (R, R) -> bool)
    requires TotalPreorder(le)
    ensures Sorted(Sort(rows, le), le) && multiset(Sort(rows, le)) == multiset(rows)
    ensures forall r :: r in Sort(rows, le) <==> r in rows
  {
    SortSorts(rows, le);
    forall r ensures r in Sort(rows, le) <==> r in rows {
      assert r in multiset(Sort(rows, le)) <==> r in multiset(rows);
    }
  }

  /** Selecting before sorting is selecting after it. */
  lemma {:induction false} SelectedIsFiltered<R(!new), C>(p: Paging<R, C>, table: seq<R>, where: R -> bool, cursor: C)
    requires Sound(p) && Keyed(p, table)
    ensures Sort(Filter(table, r => where(r) && p.after(cursor, r)), p.le) == Filter(All(p, table, where), r => p.after(cursor, r))
  {
    hide Filter, Sort;
    var both := r => where(r) && p.after(cursor, r);
    var later := r => p.after(cursor, r);
    var a, b := Sort(Filter(table, both), p.le), Filter(All(p, table, where), later);
    FilterKeeps(table, both);
    FilterKeeps(table, where);
    SortKeeps(Filter(table, both), p.le);
    SortKeeps(Filter(table, where), p.le);
    FilterKeeps(All(p, table, where), later);
    FilterSorted(All(p, table, where), later, p.le);
    assert multiset(a) == multiset(b);
    SortedOnce(a, b, p.le);
  }

  lemma AllIsStrict<R(!new), C>(p: Paging<R, C>, table: seq<R>, where: R -> bool)
    requires Sound(p) && Keyed(p, table)
    ensures var s := All(p, table, where);
            Sorted(s, p.le) && forall i, j | 0 <= i < j < |s| :: !p.le(s[j], s[i])
    ensures forall r :: r in All(p, table, where) <==> r in table && where(r)
  {
    hide Filter, Sort;
    var s := All(p, table, where);
    FilterKeeps(table, where);
    SortKeeps(Filter(table, where), p.le);
    DistinctCounts(table);
    CountedOnceIsDistinct(s);
    forall i, j | 0 <= i < j < |s| ensures !p.le(s[j], s[i]) {
      assert s[i] in s && s[j] in s;
    }
  }

  lemma {:induction false} FilterSuffix<R>(rows: seq<R>, where: R -> bool, i: nat)
    requires i <= |rows| && forall k | 0 <= k < |rows| :: where(rows[k]) <==> i <= k
    ensures Filter(rows, where) == rows[i..]
    decreases |rows|
  {
    if i < |rows| {
      FilterSuffix(rows[..|rows| - 1], where, i);
      assert rows[..|rows| - 1][i..] + [rows[|rows| - 1]] == rows[i..];
    } else if rows != [] {
      FilterSuffix(rows[..|rows| - 1], where, i - 1);
    }
  }

  /** The cursor that stands after the first `i` rows. */
  ghost predicate StandsAt<R, C>(p: Paging<R, C>, s: seq<R>, cursor: C, i: nat) {
    i <= |s| && if i == 0 then cursor == p.start else cursor == p.cursorOf(s[i - 1])
  }

  lemma {:induction false} RestAfterCursor<R(!new), C>(p: Paging<R, C>, table: seq<R>, where: R -> bool, cursor: C, i: nat)
    requires Sound(p) && Keyed(p, table) && StandsAt(p, All(p, table, where), cursor, i)
    ensures Sort(Filter(table, r => where(r) && p.after(cursor, r)), p.le) == All(p, table, where)[i..]
  {
    hide Filter, Sort, All;
    var s := All(p, table, where);
    SelectedIsFiltered(p, table, where, cursor);
    AllIsStrict(p, table, where);
    var later := r => p.after(cursor, r);
    forall k | 0 <= k < |s| ensures later(s[k]) <==> i <= k {
      assert s[k] in s;
      if i > 0 {
        assert p.le(s[i - 1], s[i - 1]);
      }
    }
    FilterSuffix(s, later, i);
  }

  /** A page is the next slice of the result, and its cursor stands where the slice ends. */
  lemma PageIsSlice<R(!new), C>(p: Paging<R, C>, table: seq<R>, where: R -> bool, cursor: C, i: nat, limit: nat)
    requires Sound(p) && Keyed(p, table) && limit > 0 && StandsAt(p, All(p, table, where), cursor, i)
    ensures var s, page := All(p, table, where), Fetch(p, table, where, cursor, limit);
            && page.rows == s[i..if i + limit < |s| then i + limit else |s|]
            && (page.next.Some? <==> i + limit < |s|)
            && (page.next.Some? ==> StandsAt(p, s, page.next.value, i + limit))
  {
    hide Filter, Sort, All;
    RestAfterCursor(p, table, where, cursor, i);
  }

  // ------------------------------------------------------------ walking over pages

  /** One call for a page: the table as it is then, and the page size. */
  datatype Call<R> = Call(table: seq<R>, limit: nat)

  datatype Walk<R, C> = Walk(rows: seq<R>, cursor: C, done: bool)

  /** Follows the cursors until a page has none. */
  function WalkOver<R, C>(p: Paging<R, C>, calls: seq<Call<R>>, where: R -> bool): Walk<R, C>
    requires forall c | c in calls :: c.limit > 0
    decreases |calls|
  {
    if calls == [] then Walk([], p.start, false)
    else
      var w, c := WalkOver(p, calls[..|calls| - 1], where), calls[|calls| - 1];
      if w.done then w
      else
        var page := Fetch(p, c.table, where, w.cursor, c.limit);
        Walk(w.rows + page.rows, if page.next.Some? then page.next.value else w.cursor, page.next.None?)
  }

  /** Rows were added behind all others. */
  ghost predicate AddsBehind<R(!new), C>(p: Paging<R, C>, before: seq<R>, now: seq<R>) {
    (forall r | r in before :: r in now) && forall r, n | r in before && n in now && n !in before :: !p.le(n, r)
  }

  /** Rows were added in front of all others. */
  ghost predicate AddsInFront<R(!new), C>(p: Paging<R, C>, before: seq<R>, now: seq<R>) {
    (forall r | r in before :: r in now) && forall r, n | r in before && n in now && n !in before :: !p.le(r, n)
  }

  lemma {:induction false} FilterJoins<R>(now: seq<R>, a: seq<R>, b: seq<R>, where: R -> bool)
    requires NoDuplicates(now) && NoDuplicates(a) && NoDuplicates(b)
    requires (forall r :: r in now <==> r in a || r in b) && forall r | r in a :: r !in b
    ensures multiset(Filter(now, where)) == multiset(Filter(a, where)) + multiset(Filter(b, where))
  {
    hide Filter, NoDuplicates;
    FilterKeeps(now, where);
    FilterKeeps(a, where);
    FilterKeeps(b, where);
    DistinctCounts(now);
    DistinctCounts(a);
    DistinctCounts(b);
    assert multiset(Filter(now, where)) == multiset(Filter(a, where) + Filter(b, where)) by {
      SameCounts(Filter(now, where), Filter(a, where) + Filter(b, where));
    }
  }

  lemma SameCounts<R>(a: seq<R>, b: seq<R>)
    requires forall r | r in a || r in b :: multiset(a)[r] == multiset(b)[r]
    ensures multiset(a) == multiset(b)
  {
    forall r: R ensures multiset(a)[r] == multiset(b)[r] {
      if r !in a && r !in b {
        assert r !in multiset(a) && r !in multiset(b);
      }
    }
  }

  /** The result over two tables, all of one in front of all of the other. */
  lemma AllJoins<R(!new), C>(p: Paging<R, C>, now: seq<R>, a: seq<R>, b: seq<R>, where: R -> bool)
    requires Sound(p) && Keyed(p, now) && NoDuplicates(a) && NoDuplicates(b)
    requires forall r :: r in now <==> r in a || r in b
    requires forall x, y | x in a && y in b :: !p.le(y, x)
    ensures All(p, now, where) == All(p, a, where) + All(p, b, where)
  {
    hide Filter, Sort, Sorted, NoDuplicates;
    FilterJoins(now, a, b, where);
    FilterKeeps(now, where);
    FilterKeeps(a, where);
    FilterKeeps(b, where);
    SortKeeps(Filter(now, where), p.le);
    SortKeeps(Filter(a, where), p.le);
    SortKeeps(Filter(b, where), p.le);
    SortedJoin(All(p, a, where), All(p, b, where), p.le);
    SortedOnce(All(p, now, where), All(p, a, where) + All(p, b, where), p.le);
  }

  lemma SortedJoin<R(!new)>(a: seq<R>, b: seq<R>, le: (R, R) -> bool)
    requires TotalPreorder(le) && Sorted(a, le) && Sorted(b, le) && forall x, y | x in a && y in b :: !le(y, x)
    ensures Sorted(a + b, le)
  {
  }

  lemma AllBehind<R(!new), C>(p: Paging<R, C>, before: seq<R>, now: seq<R>, where: R -> bool)
    requires Sound(p) && Keyed(p, before) && Keyed(p, now) && AddsBehind(p, before, now)
    ensures All(p, before, where) <= All(p, now, where)
  {
    hide Sort, All;
    var added := Filter(now, r => r !in before);
    FilterKeeps(now, r => r !in before);
    DistinctCounts(now);
    CountedOnceIsDistinct(added);
    AllJoins(p, now, before, added, where);
  }

  lemma AllInFront<R(!new), C>(p: Paging<R, C>, before: seq<R>, now: seq<R>, where: R -> bool) returns (added: seq<R>)
    requires Sound(p) && Keyed(p, before) && Keyed(p, now) && AddsInFront(p, before, now)
    ensures All(p, now, where) == added + All(p, before, where)
  {
    hide Sort, All;
    var rows := Filter(now, r => r !in before);
    FilterKeeps(now, r => r !in before);
    DistinctCounts(now);
    CountedOnceIsDistinct(rows);
    AllJoins(p, now, rows, before, where);
    added := All(p, rows, where);
  }

  ghost predicate CallsFit<R(!new), C>(p: Paging<R, C>, calls: seq<Call<R>>) {
    forall c | c in calls :: c.limit > 0 && Keyed(p, c.table)
  }

  /** A walk still under way has read a prefix, and its cursor stands right behind it. */
  ghost predicate Halfway<R, C>(p: Paging<R, C>, w: Walk<R, C>, s: seq<R>) {
    w.rows <= s && (!w.done ==> StandsAt(p, s, w.cursor, |w.rows|)) && (w.done ==> w.rows == s)
  }

  /** One more page: it lies `skipped` rows into the result over the table as it is by then. */
  lemma NextPage<R(!new), C>(p: Paging<R, C>, w: Walk<R, C>, table: seq<R>, where: R -> bool, limit: nat, s: seq<R>, skipped: seq<R>)
    requires Sound(p) && Keyed(p, table) && limit > 0 && All(p, table, where) == skipped + s
    requires w.rows <= s && StandsAt(p, skipped + s, w.cursor, |skipped| + |w.rows|) && |w.rows| <= |s|
    ensures var page := Fetch(p, table, where, w.cursor, limit);
            && w.rows + page.rows <= s
            && (page.next.Some? ==>
                  |page.rows| == limit && StandsAt(p, skipped + s, page.next.value, |skipped| + |w.rows + page.rows|))
            && (page.next.None? ==> w.rows + page.rows == s)
  {
    hide Fetch, All, Sound, Keyed, StandsAt;
    PageIsSlice(p, table, where, w.cursor, |skipped| + |w.rows|, limit);
    var page := Fetch(p, table, where, w.cursor, limit);
    var i, n := |w.rows|, |page.rows|;
    var all, from := skipped + s, |skipped| + i;
    var end := if from + limit < |all| then from + limit else |all|;
    assert page.rows == all[from..end] && n == end - from && i + n <= |s|;
    assert all[|skipped|..] == s && all[from..end] == all[|skipped|..][i..i + n];
    assert w.rows + s[i..i + n] == s[..i + n];
  }

  /** Rows added behind the others between pages are read as well: the walk ends with exactly
      the rows there are at the last page, in order, each once. */
  lemma {:induction false} WalkWithRowsBehind<R(!new), C>(p: Paging<R, C>, calls: seq<Call<R>>, where: R -> bool)
    requires Sound(p) && CallsFit(p, calls) && calls != []
    requires forall k | 0 <= k < |calls| - 1 :: AddsBehind(p, calls[k].table, calls[k + 1].table)
    requires !WalkOver(p, calls[..|calls| - 1], where).done
    ensures Halfway(p, WalkOver(p, calls, where), All(p, calls[|calls| - 1].table, where))
    ensures WalkOver(p, calls, where).done || |WalkOver(p, calls, where).rows| > |WalkOver(p, calls[..|calls| - 1], where).rows|
    decreases |calls|
  {
    hide Fetch, All, Sound, Keyed, AddsBehind;
    var n := |calls| - 1;
    var front, c := calls[..n], calls[n];
    var w := WalkOver(p, front, where);
    if n > 0 {
      EarlierNotDone(p, calls, where);
      WalkWithRowsBehind(p, front, where);
      assert front[n - 1] in calls;
      AllBehind(p, front[n - 1].table, c.table, where);
    }
    assert c in calls;
    PageIsSlice(p, c.table, where, w.cursor, |w.rows|, c.limit);
  }

  lemma {:induction false} EarlierNotDone<R(!new), C>(p: Paging<R, C>, calls: seq<Call<R>>, where: R -> bool)
    requires CallsFit(p, calls) && |calls| > 1 && !WalkOver(p, calls[..|calls| - 1], where).done
    ensures var front := calls[..|calls| - 1]; !WalkOver(p, front[..|front| - 1], where).done
  {
    hide Fetch;
  }

  /** Rows added in front are not read: the walk ends with exactly the rows there were at the
      first page. */
  lemma {:induction false} WalkWithRowsInFront<R(!new), C>(p: Paging<R, C>, calls: seq<Call<R>>, where: R -> bool)
    requires Sound(p) && CallsFit(p, calls) && calls != []
    requires forall k | 0 < k < |calls| :: AddsInFront(p, calls[0].table, calls[k].table)
    requires !WalkOver(p, calls[..|calls| - 1], where).done
    ensures Halfway(p, WalkOver(p, calls, where), All(p, calls[0].table, where))
    ensures WalkOver(p, calls, where).done || |WalkOver(p, calls, where).rows| > |WalkOver(p, calls[..|calls| - 1], where).rows|
    decreases |calls|
  {
    hide Fetch, All, Sound, Keyed, AddsInFront, StandsAt;
    var n := |calls| - 1;
    var front, c := calls[..n], calls[n];
    var w := WalkOver(p, front, where);
    var s := All(p, calls[0].table, where);
    assert c in calls && calls[0] in calls;
    if n == 0 {
      StartStands(p, s);
      assert [] + s == s;
      NextPage(p, w, c.table, where, c.limit, s, []);
    } else {
      EarlierNotDone(p, calls, where);
      WalkWithRowsInFront(p, front, where);
      assert |w.rows| > 0;
      var added := AllInFront(p, calls[0].table, c.table, where);
      StandsBehind(p, added, s, w.cursor, |w.rows|);
      NextPage(p, w, c.table, where, c.limit, s, added);
      var page := Fetch(p, c.table, where, w.cursor, c.limit);
      if page.next.Some? {
        StandsBehind(p, added, s, page.next.value, |w.rows + page.rows|);
      }
    }
  }

  lemma StartStands<R, C>(p: Paging<R, C>, s: seq<R>)
    ensures StandsAt(p, [] + s, p.start, 0)
  {
  }

  lemma StandsBehind<R, C>(p: Paging<R, C>, added: seq<R>, s: seq<R>, cursor: C, k: nat)
    requires k > 0
    ensures StandsAt(p, added + s, cursor, |added| + k) <==> StandsAt(p, s, cursor, k)
    ensures StandsAt(p, s, cursor, k) ==> k <= |s|
  {
  }

  /** The loop over all pages of a store that does not change. */
  method ReadAll<R(!new, ==), C>(p: Paging<R, C>, table: seq<R>, where: R -> bool, limit: nat) returns (rows: seq<R>)
    requires Sound(p) && Keyed(p, table) && limit > 0
    ensures rows == All(p, table, where)
  {
    hide Sort, Filter, All, Fetch, Sound, Keyed;
    ghost var s := All(p, table, where);
    PageIsSlice(p, table, where, p.start, 0, limit);
    var page := Fetch(p, table, where, p.start, limit);
    rows := page.rows;
    while page.next.Some?
      invariant rows <= s
      invariant page.next.Some? ==> |rows| < |s| && StandsAt(p, s, page.next.value, |rows|)
      invariant page.next.None? ==> rows == s
      decreases |s| - |rows|, page.next.Some?
    {
      PageIsSlice(p, table, where, page.next.value, |rows|, limit);
      page := Fetch(p, table, where, page.next.value, limit);
      rows := rows + page.rows;
    }
  }

  // ------------------------------------------------------------ events and sessions

  predicate StringLt(a: string, b: string) {
    StringLe(a, b) && a != b
  }

  datatype EventRow = EventRow(sequence: nat, id: string, record: string)

  datatype EventCursor = EventCursor(sequence: nat, id: string)

  predicate EventLe(a: EventRow, b: EventRow) {
    a.sequence < b.sequence || (a.sequence == b.sequence && StringLe(a.id, b.id))
  }

  predicate EventAfter(c: EventCursor, r: EventRow) {
    r.sequence > c.sequence || (r.sequence == c.sequence && StringLt(c.id, r.id))
  }

  const EVENTS: Paging<EventRow, EventCursor> :=
    Paging(EventLe, EventAfter, (r: EventRow) => EventCursor(r.sequence, r.id), EventCursor(0, ""))

  lemma EventsAreSound()
    ensures Sound(EVENTS)
  {
    hide StringLe;
    forall a, b ensures EventLe(a, b) || EventLe(b, a)
                ensures EventAfter(EventCursor(a.sequence, a.id), b) <==> !EventLe(b, a)
    {
      StringLeTotal(a.id, b.id);
      if StringLe(a.id, b.id) && StringLe(b.id, a.id) {
        StringLeAntisymmetric(a.id, b.id);
      }
    }
    forall a, b, c | EventLe(a, b) && EventLe(b, c) ensures EventLe(a, c) {
      if StringLe(a.id, b.id) && StringLe(b.id, c.id) {
        StringLeTransitive(a.id, b.id, c.id);
      }
    }
  }

  /** Start times are never empty; the query takes an empty one for the start. */
  datatype SessionRecord = SessionRecord(startedAt: string, id: string, record: string)

  type SessionRow = r: SessionRecord | r.startedAt != "" witness SessionRecord("1970-01-01T00:00:00Z", "", "")

  datatype SessionCursor = SessionCursor(startedAt: string, id: string)

  predicate SessionLe(a: SessionRow, b: SessionRow) {
    StringLt(b.startedAt, a.startedAt) || (a.startedAt == b.startedAt && StringLe(b.id, a.id))
  }

  predicate SessionAfter(c: SessionCursor, r: SessionRow) {
    c.startedAt == "" || StringLt(r.startedAt, c.startedAt) || (r.startedAt == c.startedAt && StringLt(r.id, c.id))
  }

  const SESSIONS: Paging<SessionRow, SessionCursor> :=
    Paging(SessionLe, SessionAfter, (r: SessionRow) => SessionCursor(r.startedAt, r.id), SessionCursor("", ""))

  lemma SessionsAreSound()
    ensures Sound(SESSIONS)
  {
    hide StringLe;
    forall a: SessionRow, b: SessionRow
      ensures SessionLe(a, b) || SessionLe(b, a)
      ensures SessionAfter(SessionCursor(a.startedAt, a.id), b) <==> !SessionLe(b, a)
    {
      SessionOrder(a, b);
    }
    forall a: SessionRow, b: SessionRow, c: SessionRow | SessionLe(a, b) && SessionLe(b, c) ensures SessionLe(a, c) {
      SessionLeTransitive(a, b, c);
    }
  }

  lemma SessionOrder(a: SessionRow, b: SessionRow)
    ensures SessionLe(a, b) || SessionLe(b, a)
    ensures SessionAfter(SessionCursor(a.startedAt, a.id), b) <==> !SessionLe(b, a)
  {
    hide StringLe;
    StringLeTotal(a.startedAt, b.startedAt);
    StringLeTotal(a.id, b.id);
    if StringLe(a.startedAt, b.startedAt) && StringLe(b.startedAt, a.startedAt) {
      StringLeAntisymmetric(a.startedAt, b.startedAt);
    }
    if StringLe(a.id, b.id) && StringLe(b.id, a.id) {
      StringLeAntisymmetric(a.id, b.id);
    }
  }

  lemma SessionLeTransitive(a: SessionRow, b: SessionRow, c: SessionRow)
    requires SessionLe(a, b) && SessionLe(b, c)
    ensures SessionLe(a, c)
  {
    hide StringLe;
    if StringLe(c.startedAt, b.startedAt) && StringLe(b.startedAt, a.startedAt) {
      StringLeTransitive(c.startedAt, b.startedAt, a.startedAt);
      if c.startedAt == a.startedAt {
        StringLeAntisymmetric(a.startedAt, b.startedAt);
      }
    }
    if StringLe(c.id, b.id) && StringLe(b.id, a.id) {
      StringLeTransitive(c.id, b.id, a.id);
    }
  }

  lemma EventsAreKeyed(table: seq<EventRow>)
    requires NoDuplicates(table) && (forall r | r in table :: r.sequence > 0)
    requires forall a, b | a in table && b in table && a.id == b.id :: a == b
    ensures Keyed(EVENTS, table)
  {
    hide StringLe;
    forall a, b | a in table && b in table && EventLe(a, b) && EventLe(b, a) ensures a == b {
      StringLeAntisymmetric(a.id, b.id);
    }
  }

  lemma SessionsAreKeyed(table: seq<SessionRow>)
    requires NoDuplicates(table) && forall a, b | a in table && b in table && a.id == b.id :: a == b
    ensures Keyed(SESSIONS, table)
  {
    hide StringLe;
    forall a: SessionRow, b: SessionRow | a in table && b in table && SessionLe(a, b) && SessionLe(b, a) ensures a == b {
      SameKey(a, b);
    }
  }

  lemma SameKey(a: SessionRow, b: SessionRow)
    requires SessionLe(a, b) && SessionLe(b, a)
    ensures a.id == b.id
  {
    hide StringLe;
    if StringLe(a.startedAt, b.startedAt) && StringLe(b.startedAt, a.startedAt) {
      StringLeAntisymmetric(a.startedAt, b.startedAt);
    }
    if StringLe(a.id, b.id) && StringLe(b.id, a.id) {
      StringLeAntisymmetric(a.id, b.id);
    }
  }

  function ListEvents(table: seq<EventRow>, where: EventRow -> bool, cursor: Option<EventCursor>, limit: Option<int>): Page<EventRow, EventCursor> {
    Fetch(EVENTS, table, where, if cursor.Some? then cursor.value else EVENTS.start, Clamp(limit))
  }

  function ListSessions(table: seq<SessionRow>, where: SessionRow -> bool, cursor: Option<SessionCursor>, limit: Option<int>): Page<SessionRow, SessionCursor> {
    Fetch(SESSIONS, table, where, if cursor.Some? then cursor.value else SESSIONS.start, Clamp(limit))
  }

  /** How many rows are asked for: 100 unless said otherwise, at least one and at most 1000. */
  function Asked(limit: Option<int>): nat {
    match limit
    case None => 100
    case Some(n) => if n <= 1 then 1 else if n >= 1000 then 1000 else n
  }

  /** The first page of events: the first rows of the session, as many as are asked for. */
  lemma FirstEvents(table: seq<EventRow>, where: EventRow -> bool, limit: Option<int>)
    requires NoDuplicates(table) && (forall r | r in table :: r.sequence > 0)
    requires forall a, b | a in table && b in table && a.id == b.id :: a == b
    ensures var page, s := ListEvents(table, where, None, limit), All(EVENTS, table, where);
            && page.rows <= s && |page.rows| == (if |s| < Asked(limit) then |s| else Asked(limit))
            && (page.next.None? <==> page.rows == s)
  {
    hide Fetch, All, Sound, Keyed;
    EventsAreSound();
    EventsAreKeyed(table);
    PageIsSlice(EVENTS, table, where, EVENTS.start, 0, Clamp(limit));
  }

  /** The first page of sessions: the newest of those that fit, as many as are asked for. */
  lemma FirstSessions(table: seq<SessionRow>, where: SessionRow -> bool, limit: Option<int>)
    requires NoDuplicates(table) && forall a, b | a in table && b in table && a.id == b.id :: a == b
    ensures var page, s := ListSessions(table, where, None, limit), All(SESSIONS, table, where);
            && page.rows <= s && |page.rows| == (if |s| < Asked(limit) then |s| else Asked(limit))
            && (page.next.None? <==> page.rows == s)
  {
    hide Fetch, All, Sound, Keyed;
    SessionsAreSound();
    SessionsAreKeyed(table);
    PageIsSlice(SESSIONS, table, where, SESSIONS.start, 0, Clamp(limit));
  }

  /** Every session of the store, newest first. */
  method AllSessions(table: seq<SessionRow>) returns (sessions: seq<SessionRow>)
    requires NoDuplicates(table) && forall a, b | a in table && b in table && a.id == b.id :: a == b
    ensures sessions == All(SESSIONS, table, _ => true)
    ensures forall s :: s in sessions <==> s in table
  {
    SessionsAreSound();
    SessionsAreKeyed(table);
    AllIsStrict(SESSIONS, table, _ => true);
    sessions := ReadAll(SESSIONS, table, _ => true, Clamp(Some(1_000)));
  }
}
