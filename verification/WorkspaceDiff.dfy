// The difference between two workspace snapshots (apps/cli/src/run/workspace-observer.ts).
// A snapshot is a map from paths to entries. The changes are sorted by a comparison of strings
// that is total and transitive but, like the comparison of a locale, may tie distinct strings.

module WorkspaceDiff {
  import opened Wrappers
  import opened Ordering

  datatype Kind = File | Symlink

  datatype Manifest = Manifest(
    path: string, kind: Kind, byteLength: nat, mode: nat, modifiedAt: string, sha256: string, tracked: bool)

  datatype Entry = Entry(manifest: Manifest, content: Option<string>, secret: bool)

  type Entries = map<string, Entry>

  datatype Operation = Create | Modify | Delete | Rename

  datatype Change = Change(
    path: string, operation: Operation, previousPath: Option<string>, before: Option<Entry>, after: Option<Entry>)

  function KindName(k: Kind): string {
    match k
    case File => "file"
    case Symlink => "symlink"
  }

  function OperationName(o: Operation): string {
    match o
    case Create => "create"
    case Modify => "modify"
    case Delete => "delete"
    case Rename => "rename"
  }

  predicate SameEntry(left: Entry, right: Entry) {
    var l, r := left.manifest, right.manifest;
    l.kind == r.kind && l.byteLength == r.byteLength && l.mode == r.mode && l.sha256 == r.sha256
  }

  function Identity(e: Entry): string {
    KindName(e.manifest.kind) + ":" + e.manifest.sha256
  }

  lemma IdentityMeaning(a: Entry, b: Entry)
    ensures Identity(a) == Identity(b) <==> a.manifest.kind == b.manifest.kind && a.manifest.sha256 == b.manifest.sha256
  {
    var x, y := Identity(a), Identity(b);
    if x == y {
      assert x[0] == KindName(a.manifest.kind)[0] && y[0] == KindName(b.manifest.kind)[0];
      var n := |KindName(a.manifest.kind)| + 1;
      assert a.manifest.sha256 == x[n..] && b.manifest.sha256 == y[n..];
    }
  }

  // ------------------------------------------------------------ what the changes are

  predicate Gone(b: Entries, f: Entries, p: string) {
    p in b && p !in f
  }

  /** `p` is the one path gone, and `q` the one path new, with their identity. */
  ghost predicate RenamePair(b: Entries, f: Entries, p: string, q: string) {
    && Gone(b, f, p) && Gone(f, b, q) && Identity(b[p]) == Identity(f[q])
    && (forall p' | Gone(b, f, p') && Identity(b[p']) == Identity(b[p]) :: p' == p)
    && (forall q' | Gone(f, b, q') && Identity(f[q']) == Identity(f[q]) :: q' == q)
  }

  ghost predicate RenamedFrom(b: Entries, f: Entries, p: string) {
    exists q :: RenamePair(b, f, p, q)
  }

  ghost predicate RenamedTo(b: Entries, f: Entries, q: string) {
    exists p :: RenamePair(b, f, p, q)
  }

  ghost predicate IsModify(b: Entries, f: Entries, c: Change) {
    && c.path in b && c.path in f && !SameEntry(b[c.path], f[c.path])
    && c == Change(c.path, Modify, None, Some(b[c.path]), Some(f[c.path]))
  }

  ghost predicate IsRename(b: Entries, f: Entries, c: Change) {
    && c.previousPath.Some? && RenamePair(b, f, c.previousPath.value, c.path)
    && c == Change(c.path, Rename, c.previousPath, Some(b[c.previousPath.value]), Some(f[c.path]))
  }

  ghost predicate IsDelete(b: Entries, f: Entries, c: Change) {
    && Gone(b, f, c.path) && !RenamedFrom(b, f, c.path)
    && c == Change(c.path, Delete, None, Some(b[c.path]), None)
  }

  ghost predicate IsCreate(b: Entries, f: Entries, c: Change) {
    && Gone(f, b, c.path) && !RenamedTo(b, f, c.path)
    && c == Change(c.path, Create, None, None, Some(f[c.path]))
  }

  ghost predicate IsChange(b: Entries, f: Entries, c: Change) {
    IsModify(b, f, c) || IsRename(b, f, c) || IsDelete(b, f, c) || IsCreate(b, f, c)
  }

  /** `changes` lists exactly the changes between `b` and `f`, each once. */
  ghost predicate Lists(b: Entries, f: Entries, changes: seq<Change>) {
    NoDuplicates(changes) && forall c :: c in changes <==> IsChange(b, f, c)
  }

  // ------------------------------------------------------------ carrying changes out

  function Lookup(s: Entries, p: string): Option<Entry> {
    if p in s then Some(s[p]) else None
  }

  /** Carries a change out where it applies: on exactly the entry it starts from, and on no
      entry that it does not mention. */
  function Apply(s: Entries, c: Change): Option<Entries> {
    match c
    case Change(p, Create, None, None, Some(e)) => if p in s then None else Some(s[p := e])
    case Change(p, Modify, None, Some(o), Some(e)) => if Lookup(s, p) == Some(o) then Some(s[p := e]) else None
    case Change(p, Delete, None, Some(o), None) => if Lookup(s, p) == Some(o) then Some(s - {p}) else None
    case Change(p, Rename, Some(q), Some(o), Some(e)) =>
      if p !in s && Lookup(s, q) == Some(o) then Some((s - {q})[p := e]) else None
    case _ => None
  }

  function ApplyAll(s: Entries, changes: seq<Change>): Option<Entries>
    decreases |changes|
  {
    if changes == [] then Some(s)
    else
      match ApplyAll(s, changes[..|changes| - 1])
      case None => None
      case Some(t) => Apply(t, changes[|changes| - 1])
  }

  function Touched(c: Change): set<string> {
    {c.path} + match c.previousPath case None => {} case Some(q) => {q}
  }

  /** Same paths, and under each path the same kind, length, mode and hash. */
  ghost predicate Matches(s: Entries, t: Entries) {
    && s.Keys == t.Keys
    && (forall p | p in s :: s[p].manifest.kind == t[p].manifest.kind && s[p].manifest.mode == t[p].manifest.mode)
    && (forall p | p in s ::
          && s[p].manifest.byteLength == t[p].manifest.byteLength
          && s[p].manifest.sha256 == t[p].manifest.sha256)
  }

  lemma MatchesByEntries(s: Entries, t: Entries)
    ensures Matches(s, t) <==> s.Keys == t.Keys && forall p | p in s :: SameEntry(s[p], t[p])
  {
    if Matches(s, t) {
      forall p | p in s ensures SameEntry(s[p], t[p]) {
        assert s[p].manifest.kind == t[p].manifest.kind;
      }
    }
  }

  lemma TouchedDecides(b: Entries, f: Entries, c: Change, p: string)
    requires IsChange(b, f, c) && p in Touched(c)
    ensures p in b || p in f
    ensures p in b && p in f ==> IsModify(b, f, c) && c.path == p
    ensures Gone(b, f, p) ==> (IsDelete(b, f, c) && c.path == p) || (IsRename(b, f, c) && c.previousPath == Some(p))
    ensures Gone(f, b, p) ==> (IsCreate(b, f, c) || IsRename(b, f, c)) && c.path == p
  {
  }

  /** No path is touched twice. */
  lemma NoPathTwice(b: Entries, f: Entries, c: Change, c': Change, p: string)
    requires IsChange(b, f, c) && IsChange(b, f, c') && p in Touched(c) && p in Touched(c')
    ensures c == c'
  {
    hide IsChange, Identity, SameEntry;
    TouchedDecides(b, f, c, p);
    TouchedDecides(b, f, c', p);
  }

  /** Every path that differs is touched. */
  lemma DifferenceIsTouched(b: Entries, f: Entries, p: string) returns (c: Change)
    requires p in b || p in f
    requires !(p in b && p in f && SameEntry(b[p], f[p]))
    ensures IsChange(b, f, c) && p in Touched(c)
  {
    if Gone(b, f, p) {
      if q :| RenamePair(b, f, p, q) {
        c := Change(q, Rename, Some(p), Some(b[p]), Some(f[q]));
      } else {
        c := Change(p, Delete, None, Some(b[p]), None);
      }
    } else if Gone(f, b, p) {
      if q :| RenamePair(b, f, q, p) {
        c := Change(p, Rename, Some(q), Some(b[q]), Some(f[p]));
      } else {
        c := Change(p, Create, None, None, Some(f[p]));
      }
    } else {
      c := Change(p, Modify, None, Some(b[p]), Some(f[p]));
    }
  }

  /** `t` is `b` with the paths touched by `done` already as they are in `f`. */
  ghost predicate Between(b: Entries, f: Entries, done: seq<Change>, t: Entries) {
    forall p :: Lookup(t, p) == if exists c | c in done :: p in Touched(c) then Lookup(f, p) else Lookup(b, p)
  }

  lemma ApplyMoves(b: Entries, f: Entries, done: seq<Change>, t: Entries, c: Change)
    requires Between(b, f, done, t) && IsChange(b, f, c) && c !in done
    requires forall d | d in done :: IsChange(b, f, d)
    ensures Apply(t, c).Some? && Between(b, f, done + [c], Apply(t, c).value)
  {
    hide IsChange, Identity, SameEntry;
    forall p | p in Touched(c) ensures Lookup(t, p) == Lookup(b, p) {
      forall d | d in done ensures p !in Touched(d) {
        if p in Touched(d) {
          NoPathTwice(b, f, c, d, p);
        }
      }
    }
    ChangeApplies(b, f, t, c);
    var next := Apply(t, c).value;
    forall p ensures Lookup(next, p) == if exists d | d in done + [c] :: p in Touched(d) then Lookup(f, p) else Lookup(b, p) {
      assert c in done + [c];
      if d :| d in done && p in Touched(d) {
        assert d in done + [c];
      }
    }
  }

  lemma ChangeApplies(b: Entries, f: Entries, t: Entries, c: Change)
    requires IsChange(b, f, c) && forall p | p in Touched(c) :: Lookup(t, p) == Lookup(b, p)
    ensures var n := Apply(t, c);
            n.Some? && forall p :: Lookup(n.value, p) == if p in Touched(c) then Lookup(f, p) else Lookup(t, p)
  {
    hide Identity, SameEntry;
    assert c.path in Touched(c);
    assert c.previousPath.Some? ==> c.previousPath.value in Touched(c);
  }

  lemma {:induction false} AppliedSoFar(b: Entries, f: Entries, changes: seq<Change>)
    requires NoDuplicates(changes) && forall c | c in changes :: IsChange(b, f, c)
    ensures var t := ApplyAll(b, changes); t.Some? && Between(b, f, changes, t.value)
    decreases |changes|
  {
    hide IsChange, Apply, Touched;
    if changes != [] {
      var front, c := changes[..|changes| - 1], changes[|changes| - 1];
      assert changes == front + [c];
      AppliedSoFar(b, f, front);
      ApplyMoves(b, f, front, ApplyAll(b, front).value, c);
    }
  }

  ghost predicate Unchanged(b: Entries, f: Entries, p: string) {
    p in b && p in f && SameEntry(b[p], f[p])
  }

  lemma {:induction false} PatchedState(b: Entries, f: Entries, changes: seq<Change>)
    requires Lists(b, f, changes)
    ensures var t := ApplyAll(b, changes);
            t.Some? && forall p :: Lookup(t.value, p) == if Unchanged(b, f, p) then Lookup(b, p) else Lookup(f, p)
  {
    hide IsChange, Apply, Touched, SameEntry;
    AppliedSoFar(b, f, changes);
    var t := ApplyAll(b, changes).value;
    forall p ensures Lookup(t, p) == if Unchanged(b, f, p) then Lookup(b, p) else Lookup(f, p) {
      if (p in b || p in f) && !Unchanged(b, f, p) {
        var c := DifferenceIsTouched(b, f, p);
      } else {
        forall c | c in changes ensures p !in Touched(c) {
          if p in Touched(c) {
            SamePathsAreUntouched(b, f, c, p);
          }
        }
      }
    }
  }

  /** The patch law: carried out in any order, the changes apply one after the other and turn
      the baseline into the final snapshot; only entries that are the same in both keep the
      baseline's time stamp, tracking mark and content. */
  lemma {:induction false} PatchLaw(b: Entries, f: Entries, changes: seq<Change>)
    requires Lists(b, f, changes)
    ensures var t := ApplyAll(b, changes);
            && t.Some? && Matches(t.value, f)
            && forall p | p in f :: t.value[p] == if Unchanged(b, f, p) then b[p] else f[p]
  {
    hide ApplyAll, SameEntry, Lists, Matches;
    PatchedState(b, f, changes);
    var t := ApplyAll(b, changes).value;
    forall p
      ensures p in t <==> p in f
      ensures p in f ==> t[p] == (if Unchanged(b, f, p) then b[p] else f[p]) && SameEntry(t[p], f[p])
    {
      assert p in t <==> Lookup(t, p).Some?;
      if p in f {
        SameEntryReflexive(f[p]);
      }
    }
    MatchesByEntries(t, f);
  }

  lemma SameEntryReflexive(e: Entry)
    ensures SameEntry(e, e)
  {
  }

  lemma SamePathsAreUntouched(b: Entries, f: Entries, c: Change, p: string)
    requires IsChange(b, f, c) && p in Touched(c)
    ensures (p in b || p in f) && !(p in b && p in f && SameEntry(b[p], f[p]))
  {
  }

  /** Nothing changed exactly when the snapshots match. */
  lemma NoChangesMeansSame(b: Entries, f: Entries)
    ensures Matches(b, f) <==> Lists(b, f, [])
  {
    MatchesByEntries(b, f);
    if Lists(b, f, []) {
      PatchLaw(b, f, []);
    }
    if Matches(b, f) {
      forall c ensures !IsChange(b, f, c) {
        if IsChange(b, f, c) {
          assert c.path in Touched(c);
          SamePathsAreUntouched(b, f, c, c.path);
        }
      }
    }
  }

  // ------------------------------------------------------------ the inverse

  function Previous(c: Change): string {
    if c.previousPath.Some? then c.previousPath.value else ""
  }

  function Inverse(c: Change): Change {
    match c.operation
    case Create => Change(c.path, Delete, None, c.after, None)
    case Delete => Change(c.path, Create, None, None, c.before)
    case Modify => Change(c.path, Modify, None, c.after, c.before)
    case Rename =>
      Change(if c.previousPath.Some? then c.previousPath.value else c.path, Rename, Some(c.path), c.after, c.before)
  }

  /** The changes from `f` back to `b` are the inverses of the changes from `b` to `f`. */
  lemma InverseChanges(b: Entries, f: Entries, c: Change)
    ensures IsChange(b, f, c) ==> IsChange(f, b, Inverse(c)) && Inverse(Inverse(c)) == c
  {
    hide Identity, SameEntry;
    if IsModify(b, f, c) {
      SameEntrySymmetric(b[c.path], f[c.path]);
    } else if IsRename(b, f, c) {
      RenameSymmetric(b, f, c.previousPath.value, c.path);
    } else if IsDelete(b, f, c) || IsCreate(b, f, c) {
      forall p, q ensures RenamePair(f, b, q, p) <==> RenamePair(b, f, p, q) {
        RenameSymmetric(b, f, p, q);
      }
    }
  }

  lemma SameEntrySymmetric(x: Entry, y: Entry)
    ensures SameEntry(x, y) == SameEntry(y, x)
  {
  }

  lemma RenameSymmetric(b: Entries, f: Entries, p: string, q: string)
    ensures RenamePair(f, b, q, p) <==> RenamePair(b, f, p, q)
  {
  }

  /** `Inverse` maps the change set of one direction onto that of the other. */
  lemma InverseChangeSet(b: Entries, f: Entries, d: Change)
    ensures IsChange(f, b, d) <==> exists c :: IsChange(b, f, c) && Inverse(c) == d
  {
    hide IsChange, Inverse;
    if IsChange(f, b, d) {
      InverseChanges(f, b, d);
      assert IsChange(b, f, Inverse(d));
    }
    if c :| IsChange(b, f, c) && Inverse(c) == d {
      InverseChanges(b, f, c);
    }
  }

  /** Where the entries are the same it does not matter which of the two a snapshot has. */
  lemma ChangesOfPatched(b: Entries, f: Entries, t: Entries, c: Change)
    requires forall p :: Lookup(t, p) == if Unchanged(b, f, p) then Lookup(b, p) else Lookup(f, p)
    ensures IsChange(t, b, c) <==> IsChange(f, b, c)
  {
    hide Identity, SameEntry, IsChange;
    forall p ensures Gone(t, b, p) <==> Gone(f, b, p)
             ensures Gone(b, t, p) <==> Gone(b, f, p)
             ensures p !in b ==> Lookup(t, p) == Lookup(f, p)
    {
      assert Lookup(t, p) == if Unchanged(b, f, p) then Lookup(b, p) else Lookup(f, p);
    }
    forall p | p !in b && p in f ensures p in t && t[p] == f[p] {
      assert Lookup(t, p) == Lookup(f, p);
    }
    forall p, q ensures RenamePair(t, b, p, q) <==> RenamePair(f, b, p, q) {
    }
    SameKinds(b, f, t, c);
  }

  lemma SameKinds(b: Entries, f: Entries, t: Entries, c: Change)
    requires forall p :: Lookup(t, p) == if Unchanged(b, f, p) then Lookup(b, p) else Lookup(f, p)
    requires forall p, q :: RenamePair(t, b, p, q) <==> RenamePair(f, b, p, q)
    ensures IsChange(t, b, c) <==> IsChange(f, b, c)
  {
    hide Identity, RenamePair;
    var p, q := c.path, Previous(c);
    assert Lookup(t, p) == if Unchanged(b, f, p) then Lookup(b, p) else Lookup(f, p);
    assert Lookup(t, q) == if Unchanged(b, f, q) then Lookup(b, q) else Lookup(f, q);
    RenameEnds(t, b, q, p);
    RenameEnds(f, b, q, p);
  }

  lemma RenameEnds(b: Entries, f: Entries, p: string, q: string)
    ensures RenamePair(b, f, p, q) ==> Gone(b, f, p) && Gone(f, b, q)
  {
  }

  /** Carrying the inverse changes out afterwards, again in any order, restores the baseline
      exactly. */
  lemma {:induction false} UndoRestores(b: Entries, f: Entries, changes: seq<Change>, undo: seq<Change>)
    requires Lists(b, f, changes) && Lists(f, b, undo)
    ensures var t := ApplyAll(b, changes); t.Some? && ApplyAll(t.value, undo) == Some(b)
  {
    hide IsChange, ApplyAll, SameEntry;
    PatchedState(b, f, changes);
    var t := ApplyAll(b, changes).value;
    forall c ensures IsChange(t, b, c) <==> IsChange(f, b, c) {
      ChangesOfPatched(b, f, t, c);
    }
    PatchedState(t, b, undo);
    var u := ApplyAll(t, undo).value;
    forall p ensures Lookup(u, p) == Lookup(b, p) {
      assert Lookup(u, p) == if Unchanged(t, b, p) then Lookup(t, p) else Lookup(b, p);
      assert Lookup(t, p) == if Unchanged(b, f, p) then Lookup(b, p) else Lookup(f, p);
      if Unchanged(t, b, p) && !Unchanged(b, f, p) {
        SameEntrySymmetric(t[p], b[p]);
      }
    }
    SameLookups(u, b);
  }

  lemma SameLookups(s: Entries, t: Entries)
    requires forall p :: Lookup(s, p) == Lookup(t, p)
    ensures s == t
  {
    forall p ensures (p in s <==> p in t) && (p in s ==> s[p] == t[p]) {
      assert Lookup(s, p) == Lookup(t, p);
    }
  }

  // ------------------------------------------------------------ order of the result

  predicate Ties(le: (string, string) -> bool, x: string, y: string) {
    le(x, y) && le(y, x)
  }

  /** By path, then by operation, then by previous path. */
  predicate ChangeLe(le: (string, string) -> bool, l: Change, r: Change) {
    if !Ties(le, l.path, r.path) then le(l.path, r.path)
    else if !Ties(le, OperationName(l.operation), OperationName(r.operation)) then
      le(OperationName(l.operation), OperationName(r.operation))
    else le(Previous(l), Previous(r))
  }

  function ChangeOrder(le: (string, string) -> bool): (Change, Change) -> bool {
    (l, r) => ChangeLe(le, l, r)
  }

  lemma ChangesAreOrdered(le: (string, string) -> bool)
    requires TotalPreorder(le)
    ensures TotalPreorder(ChangeOrder(le))
  {
    hide OperationName, Previous;
    var order := ChangeOrder(le);
    forall a, b ensures order(a, b) || order(b, a) {
      assert le(a.path, b.path) || le(b.path, a.path);
    }
    forall a, b, c | order(a, b) && order(b, c) ensures order(a, c) {
      ChangeLeTransitive(le, a, b, c);
    }
  }

  lemma ChangeLeTransitive(le: (string, string) -> bool, a: Change, b: Change, c: Change)
    requires TotalPreorder(le) && ChangeLe(le, a, b) && ChangeLe(le, b, c)
    ensures ChangeLe(le, a, c)
  {
    hide OperationName, Previous;
    assert le(a.path, b.path) && le(b.path, c.path) && le(a.path, c.path);
  }

  ghost predicate Before(le: (string, string) -> bool, x: string, y: string, rest: bool) {
    le(x, y) && (le(y, x) ==> rest)
  }

  /** The list is in order of path, then of the operation's name, then of the previous path, or
      of the empty text where there is none. */
  lemma SortedInTerms(x: seq<Change>, le: (string, string) -> bool, i: nat, j: nat)
    requires TotalPreorder(le) && Sorted(x, ChangeOrder(le)) && i < j < |x|
    ensures var name := map[Create := "create", Modify := "modify", Delete := "delete", Rename := "rename"];
            var p, q := x[i].previousPath, x[j].previousPath;
            && x[i].operation in name && x[j].operation in name
            && Before(le, x[i].path, x[j].path,
                      Before(le, name[x[i].operation], name[x[j].operation],
                             le(if p.Some? then p.value else "", if q.Some? then q.value else "")))
  {
    var c, d := x[i], x[j];
    assert ChangeLe(le, c, d);
    assert le(c.path, d.path) || le(d.path, c.path);
    assert le(OperationName(c.operation), OperationName(d.operation)) || le(OperationName(d.operation), OperationName(c.operation));
  }

  lemma SwapKeepsSorted<T(!new)>(s: seq<T>, i: nat, j: nat, le: (T, T) -> bool)
    requires TotalPreorder(le) && Sorted(s, le) && i < j < |s| && le(s[j], s[i])
    ensures Sorted(s[i := s[j]][j := s[i]], le)
  {
    var t := s[i := s[j]][j := s[i]];
    assert le(s[i], s[j]);
    forall p ensures le(s[i], p) <==> le(s[j], p) {
    }
    forall p ensures le(p, s[i]) <==> le(p, s[j]) {
    }
    forall p, q | 0 <= p < q < |t| ensures le(t[p], t[q]) {
      assert le(t[p], t[q]) <==> le(s[p], s[q]);
    }
  }

  lemma SwapKeepsListing(b: Entries, f: Entries, x: seq<Change>, i: nat, j: nat)
    requires Lists(b, f, x) && i < j < |x|
    ensures Lists(b, f, x[i := x[j]][j := x[i]])
  {
    hide IsChange;
    var y := x[i := x[j]][j := x[i]];
    forall c ensures c in y <==> c in x {
      if c in x {
        var k :| 0 <= k < |x| && x[k] == c;
        assert y[if k == i then j else if k == j then i else k] == c;
      }
    }
  }

  /** Path, operation and previous path tell the changes apart. */
  ghost predicate Untied(x: seq<Change>, le: (string, string) -> bool) {
    forall c, d | c in x && d in x && ChangeLe(le, c, d) && ChangeLe(le, d, c) :: c == d
  }

  lemma UntiedDetermines(b: Entries, f: Entries, x: seq<Change>, y: seq<Change>, le: (string, string) -> bool)
    requires Untied(x, le)
    requires Lists(b, f, x) && Sorted(x, ChangeOrder(le)) && Lists(b, f, y) && Sorted(y, ChangeOrder(le))
    ensures x == y
  {
    hide IsChange, ChangeLe;
    SameElementsSameMultiset(x, y);
    SortedOnce(x, y, ChangeOrder(le));
  }

  lemma TieSwaps(b: Entries, f: Entries, x: seq<Change>, le: (string, string) -> bool) returns (y: seq<Change>)
    requires TotalPreorder(le) && Lists(b, f, x) && Sorted(x, ChangeOrder(le)) && !Untied(x, le)
    ensures Lists(b, f, y) && Sorted(y, ChangeOrder(le)) && y != x
  {
    hide Lists, Sorted, TotalPreorder, ChangeLe;
    ChangesAreOrdered(le);
    var c, d :| c in x && d in x && ChangeLe(le, c, d) && ChangeLe(le, d, c) && c != d;
    var i, j := PlacesOf(x, c, d);
    y := x[i := x[j]][j := x[i]];
    SwapKeepsSorted(x, i, j, ChangeOrder(le));
    SwapKeepsListing(b, f, x, i, j);
    assert y[i] != x[i];
  }

  /** The sorted list does not depend on the order in which the maps are walked if and only if
      the comparison ties no two of the changes. */
  lemma ListIsDetermined(b: Entries, f: Entries, x: seq<Change>, le: (string, string) -> bool)
    requires TotalPreorder(le) && Lists(b, f, x) && Sorted(x, ChangeOrder(le))
    ensures (forall y | Lists(b, f, y) && Sorted(y, ChangeOrder(le)) :: y == x) <==> Untied(x, le)
  {
    hide Lists, Sorted, Untied, TotalPreorder, ChangeOrder;
    if Untied(x, le) {
      forall y | Lists(b, f, y) && Sorted(y, ChangeOrder(le)) ensures y == x {
        UntiedDetermines(b, f, x, y, le);
      }
    } else {
      var y := TieSwaps(b, f, x, le);
    }
  }

  lemma PlacesOf(x: seq<Change>, c: Change, d: Change) returns (i: nat, j: nat)
    requires c in x && d in x && c != d
    ensures i < j < |x| && ((x[i] == c && x[j] == d) || (x[i] == d && x[j] == c))
  {
    var p :| 0 <= p < |x| && x[p] == c;
    var q :| 0 <= q < |x| && x[q] == d;
    i, j := if p < q then p else q, if p < q then q else p;
  }

  /** A comparison that tells all touched paths apart determines the list. */
  lemma DistinctPathsDetermine(b: Entries, f: Entries, x: seq<Change>, le: (string, string) -> bool)
    requires TotalPreorder(le) && Lists(b, f, x)
    requires forall p, q | p in b.Keys + f.Keys && q in b.Keys + f.Keys && Ties(le, p, q) :: p == q
    ensures Untied(x, le)
  {
    hide IsChange;
    forall c, d | c in x && d in x && ChangeLe(le, c, d) && ChangeLe(le, d, c) ensures c == d {
      ChangePath(b, f, c);
      ChangePath(b, f, d);
      assert Ties(le, c.path, d.path);
      NoPathTwice(b, f, c, d, c.path);
    }
  }

  lemma ChangePath(b: Entries, f: Entries, c: Change)
    requires IsChange(b, f, c)
    ensures c.path in b.Keys + f.Keys
  {
    hide SameEntry, RenamedFrom, RenamedTo;
  }

  // ------------------------------------------------------------ computing the changes

  /** Every path stands, once, in the group of its identity. */
  ghost predicate Grouped(entries: Entries, groups: map<string, seq<string>>) {
    && (forall p | p in entries :: Identity(entries[p]) in groups && p in groups[Identity(entries[p])])
    && (forall key | key in groups ::
          && groups[key] != [] && NoDuplicates(groups[key])
          && forall p | p in groups[key] :: p in entries && Identity(entries[p]) == key)
  }

  function WithPath(groups: map<string, seq<string>>, key: string, p: string): map<string, seq<string>> {
    groups[key := (if key in groups then groups[key] else []) + [p]]
  }

  lemma GroupGrows(seen: Entries, groups: map<string, seq<string>>, p: string, e: Entry)
    requires Grouped(seen, groups) && p !in seen
    ensures Grouped(seen[p := e], WithPath(groups, Identity(e), p))
  {
    hide Identity;
  }

  method GroupByIdentity(entries: Entries) returns (groups: map<string, seq<string>>)
    ensures Grouped(entries, groups)
  {
    hide Identity, Grouped;
    groups := map[];
    var rest := entries.Keys;
    ghost var seen: Entries := map[];
    NoGroups();
    while rest != {}
      invariant rest <= entries.Keys && seen == entries - rest
      invariant Grouped(seen, groups)
      decreases rest
    {
      var p :| p in rest;
      rest := rest - {p};
      GroupGrows(seen, groups, p, entries[p]);
      seen := seen[p := entries[p]];
      groups := WithPath(groups, Identity(entries[p]), p);
    }
    assert entries - {} == entries;
  }

  lemma NoGroups()
    ensures Grouped(map[], map[])
  {
  }

  function Missing(b: Entries, f: Entries): Entries {
    map p | p in b && p !in f :: b[p]
  }

  /** First pass: the modified entries, and the entries that are gone. */
  method Compare(b: Entries, f: Entries) returns (changes: seq<Change>, deleted: Entries)
    ensures NoDuplicates(changes) && forall c :: c in changes <==> IsModify(b, f, c)
    ensures deleted == Missing(b, f)
  {
    hide SameEntry;
    changes, deleted := [], map[];
    var rest := b.Keys;
    while rest != {}
      invariant rest <= b.Keys
      invariant NoDuplicates(changes) && forall c :: c in changes <==> IsModify(b, f, c) && c.path !in rest
      invariant forall p :: p in deleted <==> Gone(b, f, p) && p !in rest
      invariant forall p | p in deleted :: deleted[p] == b[p]
      decreases rest
    {
      var p :| p in rest;
      rest := rest - {p};
      if p !in f {
        deleted := deleted[p := b[p]];
      } else if !SameEntry(b[p], f[p]) {
        changes := changes + [Change(p, Modify, None, Some(b[p]), Some(f[p]))];
      }
    }
  }

  /** The renames of the identities in `seen` are listed, and their paths taken out. */
  ghost predicate Paired(b: Entries, f: Entries, seen: set<string>, changes: seq<Change>, deleted: Entries, created: Entries) {
    && NoDuplicates(changes)
    && (forall c :: c in changes <==> IsModify(b, f, c) || (IsRename(b, f, c) && Identity(f[c.path]) in seen))
    && (forall p :: p in deleted <==> Gone(b, f, p) && !(RenamedFrom(b, f, p) && Identity(b[p]) in seen))
    && (forall q :: q in created <==> Gone(f, b, q) && !(RenamedTo(b, f, q) && Identity(f[q]) in seen))
    && (forall p | p in deleted :: deleted[p] == b[p])
    && (forall q | q in created :: created[q] == f[q])
  }

  lemma GroupMembers(b: Entries, f: Entries, groups: map<string, seq<string>>, key: string, p: string)
    requires Grouped(Missing(b, f), groups)
    ensures Gone(b, f, p) && Identity(b[p]) == key <==> key in groups && p in groups[key]
  {
    hide Identity;
    if Gone(b, f, p) {
      assert p in Missing(b, f);
    }
  }

  /** A group of one path gone and one path new is a rename pair, and nothing else is. */
  lemma GroupsOfOne(b: Entries, f: Entries, gone: map<string, seq<string>>, born: map<string, seq<string>>, key: string)
    requires Grouped(Missing(b, f), gone) && Grouped(Missing(f, b), born) && key in gone
    ensures |gone[key]| == 1 && key in born && |born[key]| == 1 ==>
              RenamePair(b, f, gone[key][0], born[key][0]) && Identity(b[gone[key][0]]) == key
    ensures forall p, q | RenamePair(b, f, p, q) && Identity(b[p]) == key :: |gone[key]| == 1 && key in born && |born[key]| == 1
  {
    hide Identity, Missing;
    forall p ensures Gone(b, f, p) && Identity(b[p]) == key <==> p in gone[key] {
      GroupMembers(b, f, gone, key, p);
    }
    forall q ensures Gone(f, b, q) && Identity(f[q]) == key <==> key in born && q in born[key] {
      GroupMembers(f, b, born, key, q);
    }
    if |gone[key]| == 1 && key in born && |born[key]| == 1 {
      assert gone[key][0] in gone[key] && born[key][0] in born[key];
    }
    forall p, q | RenamePair(b, f, p, q) && Identity(b[p]) == key ensures |gone[key]| == 1 && key in born && |born[key]| == 1 {
      OnlyMember(gone[key], p);
      OnlyMember(born[key], q);
    }
  }

  lemma OnlyMember(s: seq<string>, x: string)
    requires NoDuplicates(s) && x in s && forall y | y in s :: y == x
    ensures s == [x]
  {
    assert s[0] in s && s[|s| - 1] in s;
  }

  lemma PairTakenOut(b: Entries, f: Entries, seen: set<string>, changes: seq<Change>, deleted: Entries, created: Entries, p: string, q: string)
    requires Paired(b, f, seen, changes, deleted, created) && RenamePair(b, f, p, q) && Identity(b[p]) !in seen
    ensures p in deleted && q in created && deleted[p] == b[p] && created[q] == f[q]
    ensures Paired(b, f, seen + {Identity(b[p])}, changes + [Change(q, Rename, Some(p), Some(b[p]), Some(f[q]))], deleted - {p}, created - {q})
  {
    hide Identity, SameEntry;
    var c := Change(q, Rename, Some(p), Some(b[p]), Some(f[q]));
    assert IsRename(b, f, c);
  }

  /** Second pass: pairs of one path gone and one path new with the same identity. */
  method PairRenames(b: Entries, f: Entries, modified: seq<Change>) returns (changes: seq<Change>, deleted: Entries, created: Entries)
    requires NoDuplicates(modified) && forall c :: c in modified <==> IsModify(b, f, c)
    ensures NoDuplicates(changes) && forall c :: c in changes <==> IsModify(b, f, c) || IsRename(b, f, c)
    ensures forall p :: p in deleted <==> Gone(b, f, p) && !RenamedFrom(b, f, p)
    ensures forall q :: q in created <==> Gone(f, b, q) && !RenamedTo(b, f, q)
    ensures forall p | p in deleted :: p in b && deleted[p] == b[p]
    ensures forall q | q in created :: q in f && created[q] == f[q]
  {
    hide Identity, RenamePair, IsModify, IsRename, Grouped, Paired, Missing, Gone, RenamedFrom, RenamedTo;
    changes, deleted, created := modified, Missing(b, f), Missing(f, b);
    NothingPaired(b, f, modified);
    var deletedByIdentity := GroupByIdentity(deleted);
    var createdByIdentity := GroupByIdentity(created);
    var rest := deletedByIdentity.Keys;
    assert deletedByIdentity.Keys - rest == {};
    while rest != {}
      invariant rest <= deletedByIdentity.Keys
      invariant Paired(b, f, deletedByIdentity.Keys - rest, changes, deleted, created)
      decreases rest
    {
      var key :| key in rest;
      ghost var seen := deletedByIdentity.Keys - rest;
      rest := rest - {key};
      assert deletedByIdentity.Keys - rest == seen + {key};
      GroupsOfOne(b, f, deletedByIdentity, createdByIdentity, key);
      if |deletedByIdentity[key]| == 1 && key in createdByIdentity && |createdByIdentity[key]| == 1 {
        var previousPath, path := deletedByIdentity[key][0], createdByIdentity[key][0];
        PairTakenOut(b, f, seen, changes, deleted, created, previousPath, path);
        changes := changes + [Change(path, Rename, Some(previousPath), Some(deleted[previousPath]), Some(created[path]))];
        deleted, created := deleted - {previousPath}, created - {path};
      } else {
        NothingTakenOut(b, f, seen, changes, deleted, created, key);
      }
    }
    assert deletedByIdentity.Keys - {} == deletedByIdentity.Keys;
    AllPaired(b, f, deletedByIdentity, changes, deleted, created);
  }

  lemma NothingPaired(b: Entries, f: Entries, modified: seq<Change>)
    requires NoDuplicates(modified) && forall c :: c in modified <==> IsModify(b, f, c)
    ensures Paired(b, f, {}, modified, Missing(b, f), Missing(f, b))
  {
    hide Identity, IsModify, RenamePair;
  }

  lemma NothingTakenOut(b: Entries, f: Entries, seen: set<string>, changes: seq<Change>, deleted: Entries, created: Entries, key: string)
    requires Paired(b, f, seen, changes, deleted, created)
    requires forall p, q | RenamePair(b, f, p, q) :: Identity(b[p]) != key
    ensures Paired(b, f, seen + {key}, changes, deleted, created)
  {
    hide Identity, SameEntry;
  }

  lemma AllPaired(b: Entries, f: Entries, gone: map<string, seq<string>>, changes: seq<Change>, deleted: Entries, created: Entries)
    requires Grouped(Missing(b, f), gone) && Paired(b, f, gone.Keys, changes, deleted, created)
    ensures NoDuplicates(changes) && forall c :: c in changes <==> IsModify(b, f, c) || IsRename(b, f, c)
    ensures forall p :: p in deleted <==> Gone(b, f, p) && !RenamedFrom(b, f, p)
    ensures forall q :: q in created <==> Gone(f, b, q) && !RenamedTo(b, f, q)
    ensures forall p | p in deleted :: p in b && deleted[p] == b[p]
    ensures forall q | q in created :: q in f && created[q] == f[q]
  {
    hide Identity, SameEntry;
    forall p, q | RenamePair(b, f, p, q) ensures Identity(b[p]) in gone && Identity(f[q]) in gone {
      assert p in Missing(b, f);
    }
  }

  /** The changes between two snapshots, sorted. */
  method ChangesBetween(b: Entries, f: Entries, le: (string, string) -> bool) returns (changes: seq<Change>)
    requires TotalPreorder(le)
    ensures Lists(b, f, changes) && Sorted(changes, ChangeOrder(le))
  {
    hide RenamePair, SameEntry, RenamedFrom, RenamedTo, ChangeOrder;
    var deleted, created;
    changes, deleted := Compare(b, f);
    changes, deleted, created := PairRenames(b, f, changes);
    var rest := deleted.Keys;
    while rest != {}
      invariant rest <= deleted.Keys
      invariant NoDuplicates(changes)
      invariant forall c :: c in changes <==> IsModify(b, f, c) || IsRename(b, f, c) || (IsDelete(b, f, c) && c.path !in rest)
      decreases rest
    {
      var p :| p in rest;
      rest := rest - {p};
      changes := changes + [Change(p, Delete, None, Some(deleted[p]), None)];
    }
    rest := created.Keys;
    while rest != {}
      invariant rest <= created.Keys
      invariant NoDuplicates(changes)
      invariant forall c :: c in changes <==>
                  IsModify(b, f, c) || IsRename(b, f, c) || IsDelete(b, f, c) || (IsCreate(b, f, c) && c.path !in rest)
      decreases rest
    {
      var q :| q in rest;
      rest := rest - {q};
      changes := changes + [Change(q, Create, None, None, Some(created[q]))];
    }
    ChangesAreOrdered(le);
    SortSorts(changes, ChangeOrder(le));
    SortKeepsListing(changes, ChangeOrder(le));
    changes := Sort(changes, ChangeOrder(le));
  }

  lemma {:induction false} SortKeepsListing(changes: seq<Change>, order: (Change, Change) -> bool)
    requires NoDuplicates(changes) && multiset(Sort(changes, order)) == multiset(changes)
    ensures NoDuplicates(Sort(changes, order)) && forall c :: c in Sort(changes, order) <==> c in changes
  {
    var sorted := Sort(changes, order);
    DistinctCounts(changes);
    CountedOnceIsDistinct(sorted);
    forall c ensures c in sorted <==> c in changes {
      assert c in sorted <==> c in multiset(sorted);
    }
  }
}
