// Replayed and conflicting frames (packages/normalizers/src/duplicates.ts) and the frame
// loop that the three normalizers share: read the payload, ask the detector, apply.

module Replay {
  import opened Wrappers
  import opened JsonValues
  import opened SseDecoding

  datatype DiagnosticKind =
    | MalformedJson | MalformedSse | InvalidPayload | UnsupportedEvent | IncompleteSse | DuplicateReplay | DuplicateConflict

  datatype Diagnostic = Diagnostic(kind: DiagnosticKind, frameIndex: Option<nat>, eventType: Option<string>, fatal: bool)

  /** What a frame holds: no data, data that is no JSON object, or a payload with its type. */
  datatype Reading = Skipped | Unreadable | Payload(value: Json, eventType: Option<string>)

  function ReadFrame(parse: Parser, frame: Frame): Reading {
    if frame.data.None? then Skipped
    else
      match parse(frame.data.value)
      case Some(Obj(members)) => Payload(Obj(members), Or(StringField(Obj(members), "type"), frame.event))
      case _ => Unreadable
  }

  // ------------------------------------------------------------ the detector

  function ReplayIdentity(frame: Frame, payload: Json): Option<string> {
    if frame.id.Some? && frame.id.value != "" then Some("sse-id:" + frame.id.value)
    else
      var eventId := StringField(payload, "event_id");
      var sequence := IntegerField(payload, "sequence_number");
      if eventId.Some? && eventId.value != "" then Some("event-id:" + eventId.value)
      else if sequence.Some? && sequence.value >= 0 then Some("sequence-number:" + Decimal(sequence.value))
      else None
  }

  function Text(o: Option<string>): string {
    if o.Some? then o.value else ""
  }

  function Fingerprint(frame: Frame): string {
    Text(frame.event) + "\0" + Text(frame.data)
  }

  datatype Disposition = Accept | Ignore(diagnostic: Diagnostic)

  function Disposal(seen: map<string, string>, frame: Frame, payload: Json, eventType: Option<string>): Disposition {
    match ReplayIdentity(frame, payload)
    case None => Accept
    case Some(identity) =>
      if identity !in seen then Accept
      else
        var replay := seen[identity] == Fingerprint(frame);
        Ignore(Diagnostic(if replay then DuplicateReplay else DuplicateConflict, Some(frame.index), eventType, !replay))
  }

  function Remember(seen: map<string, string>, frame: Frame, payload: Json): map<string, string> {
    match ReplayIdentity(frame, payload)
    case None => seen
    case Some(identity) => if identity in seen then seen else seen[identity := Fingerprint(frame)]
  }

  class SseReplayDetector {
    var seen: map<string, string>

    constructor ()
      ensures seen == map[]
    {
      seen := map[];
    }

    /** The first payload under an identity is authoritative and stays so. */
    method Observe(frame: Frame, payload: Json, eventType: Option<string>) returns (d: Disposition)
      modifies this
      ensures d == Disposal(old(seen), frame, payload, eventType)
      ensures seen == Remember(old(seen), frame, payload)
      ensures forall identity | identity in old(seen) :: identity in seen && seen[identity] == old(seen)[identity]
    {
      var identity := ReplayIdentity(frame, payload);
      if identity.None? {
        return Accept;
      }
      var fingerprint := Fingerprint(frame);
      if identity.value !in seen {
        seen := seen[identity.value := fingerprint];
        return Accept;
      }
      var replay := seen[identity.value] == fingerprint;
      return Ignore(Diagnostic(if replay then DuplicateReplay else DuplicateConflict, Some(frame.index), eventType, !replay));
    }
  }

  // ------------------------------------------------------------ the frame loop

  /** What applying a payload gives: the new assembly, diagnostics, and parser errors. */
  datatype Applied<C> = Applied(core: C, diagnostics: seq<Diagnostic>, errors: nat)

  /** One normalizer's part of the loop. `erase` forgets frame indexes in its assembly. */
  datatype Provider<!C> = Provider(
    read: Frame -> Reading,
    apply: (C, nat, Option<string>, Json) -> Applied<C>,
    erase: C -> C)

  datatype Loop<C> = Loop(
    core: C,
    seen: map<string, string>,
    diagnostics: seq<Diagnostic>,
    parserErrors: seq<nat>,
    duplicateErrors: seq<nat>)

  function Turn<C>(p: Provider<C>, s: Loop<C>, frame: Frame): Loop<C> {
    match p.read(frame)
    case Skipped => s
    case Unreadable =>
      s.(diagnostics := s.diagnostics + [Diagnostic(MalformedSse, Some(frame.index), None, false)],
         parserErrors := s.parserErrors + [frame.index])
    case Payload(value, eventType) =>
      var d := Disposal(s.seen, frame, value, eventType);
      if d.Ignore? then
        s.(diagnostics := s.diagnostics + [d.diagnostic],
           duplicateErrors := s.duplicateErrors + if d.diagnostic.kind == DuplicateConflict then [frame.index] else [])
      else
        var a := p.apply(s.core, frame.index, eventType, value);
        Loop(a.core, Remember(s.seen, frame, value), s.diagnostics + a.diagnostics,
             s.parserErrors + seq(a.errors, _ => frame.index), s.duplicateErrors)
  }

  function Turns<C>(p: Provider<C>, s: Loop<C>, frames: seq<Frame>): Loop<C>
    decreases |frames|
  {
    if frames == [] then s else Turn(p, Turns(p, s, frames[..|frames| - 1]), frames[|frames| - 1])
  }

  function Opening<C>(core: C): Loop<C> {
    Loop(core, map[], [], [], [])
  }

  /** The loop, with its detector, payload by payload. */
  method NormalizeFrames<C>(p: Provider<C>, core: C, frames: seq<Frame>) returns (s: Loop<C>)
    ensures s == Turns(p, Opening(core), frames)
  {
    hide Fingerprint, ReplayIdentity;
    var detector := new SseReplayDetector();
    s := Opening(core);
    for i := 0 to |frames|
      invariant s == Turns(p, Opening(core), frames[..i]) && s.seen == detector.seen
      modifies detector
    {
      assert frames[..i + 1][..i] == frames[..i];
      var frame := frames[i];
      match p.read(frame) {
        case Skipped =>
        case Unreadable =>
          s := s.(diagnostics := s.diagnostics + [Diagnostic(MalformedSse, Some(frame.index), None, false)],
                  parserErrors := s.parserErrors + [frame.index]);
        case Payload(value, eventType) =>
          var replay := detector.Observe(frame, value, eventType);
          if replay.Ignore? {
            s := s.(diagnostics := s.diagnostics + [replay.diagnostic],
                    duplicateErrors := s.duplicateErrors + if replay.diagnostic.kind == DuplicateConflict then [frame.index] else []);
          } else {
            var a := p.apply(s.core, frame.index, eventType, value);
            s := Loop(a.core, detector.seen, s.diagnostics + a.diagnostics,
                      s.parserErrors + seq(a.errors, _ => frame.index), s.duplicateErrors);
          }
      }
    }
    assert frames[..|frames|] == frames;
  }

  // ------------------------------------------------------------ what is accepted

  datatype Item = Item(frameIndex: nat, eventType: Option<string>, payload: Json)

  /** The payloads that the loop does not ignore. */
  function Accepted<C>(p: Provider<C>, s: Loop<C>, frames: seq<Frame>): seq<Item>
    decreases |frames|
  {
    if frames == [] then []
    else
      var front, f := frames[..|frames| - 1], frames[|frames| - 1];
      Accepted(p, s, front) + AcceptedOf(p, Turns(p, s, front).seen, f)
  }

  function AcceptedOf<C>(p: Provider<C>, seen: map<string, string>, f: Frame): seq<Item> {
    match p.read(f)
    case Payload(value, eventType) => if Disposal(seen, f, value, eventType).Accept? then [Item(f.index, eventType, value)] else []
    case _ => []
  }

  /** The items applied one after the other. */
  function AppliedAll<C>(p: Provider<C>, core: C, items: seq<Item>): C
    decreases |items|
  {
    if items == [] then core
    else
      var last := items[|items| - 1];
      p.apply(AppliedAll(p, core, items[..|items| - 1]), last.frameIndex, last.eventType, last.payload).core
  }

  /** What the loop assembles comes from the accepted payloads alone. */
  lemma {:induction false} LoopIsFold<C>(p: Provider<C>, s: Loop<C>, frames: seq<Frame>)
    ensures Turns(p, s, frames).core == AppliedAll(p, s.core, Accepted(p, s, frames))
    decreases |frames|
  {
    hide Disposal, Remember;
    if frames != [] {
      var front, f := frames[..|frames| - 1], frames[|frames| - 1];
      LoopIsFold(p, s, front);
      var items, more := Accepted(p, s, front), AcceptedOf(p, Turns(p, s, front).seen, f);
      if more == [] {
        assert items + [] == items;
      } else {
        assert (items + more)[..|items + more| - 1] == items;
      }
    }
  }

  // ------------------------------------------------------------ up to frame indexes

  predicate SameFrame(f: Frame, g: Frame) {
    f.event == g.event && f.data == g.data && f.id == g.id
  }

  lemma ReadIsPlaceFree(parse: Parser, f: Frame, g: Frame)
    requires SameFrame(f, g)
    ensures ReadFrame(parse, f) == ReadFrame(parse, g)
  {
  }

  ghost predicate SameFrames(x: seq<Frame>, y: seq<Frame>) {
    |x| == |y| && forall k | 0 <= k < |x| :: SameFrame(x[k], y[k])
  }

  function Unplaced(ds: seq<Diagnostic>): (r: seq<Diagnostic>)
    ensures |r| == |ds|
  {
    seq(|ds|, i requires 0 <= i < |ds| => ds[i].(frameIndex := None))
  }

  /** Reading and applying do not depend on where a frame stands. */
  ghost predicate PlaceFree<C(!new)>(p: Provider<C>) {
    && (forall f, g | SameFrame(f, g) :: p.read(f) == p.read(g))
    && (forall c, d, i, j, t, x | p.erase(c) == p.erase(d) ::
          var a, b := p.apply(c, i, t, x), p.apply(d, j, t, x);
          p.erase(a.core) == p.erase(b.core) && Unplaced(a.diagnostics) == Unplaced(b.diagnostics) && a.errors == b.errors)
  }

  /** Two loops in the same state, but for frame indexes and what was ignored so far. */
  ghost predicate Alike<C>(p: Provider<C>, a: Loop<C>, b: Loop<C>) {
    && p.erase(a.core) == p.erase(b.core) && a.seen == b.seen
    && |a.parserErrors| == |b.parserErrors|
  }

  lemma UnplacedJoin(a: seq<Diagnostic>, b: seq<Diagnostic>)
    ensures Unplaced(a + b) == Unplaced(a) + Unplaced(b)
  {
  }

  function Added(before: seq<Diagnostic>, after: seq<Diagnostic>): seq<Diagnostic> {
    if |before| <= |after| then after[|before|..] else []
  }

  /** What was added on the way from `a` to `a'` is what was added from `b` to `b'`. */
  ghost predicate GrewAlike<C>(a: Loop<C>, a': Loop<C>, b: Loop<C>, b': Loop<C>) {
    && a.diagnostics <= a'.diagnostics && b.diagnostics <= b'.diagnostics
    && Unplaced(Added(a.diagnostics, a'.diagnostics)) == Unplaced(Added(b.diagnostics, b'.diagnostics))
    && |a'.duplicateErrors| - |a.duplicateErrors| == |b'.duplicateErrors| - |b.duplicateErrors|
  }

  lemma GrewNothing<C>(a: Loop<C>, b: Loop<C>)
    ensures GrewAlike(a, a, b, b)
  {
    assert Added(a.diagnostics, a.diagnostics) == [] == Added(b.diagnostics, b.diagnostics);
  }

  lemma GrewOn<C>(a: Loop<C>, am: Loop<C>, a': Loop<C>, b: Loop<C>, bm: Loop<C>, b': Loop<C>)
    requires GrewAlike(a, am, b, bm) && GrewAlike(am, a', bm, b')
    ensures GrewAlike(a, a', b, b')
  {
    hide Unplaced;
    AddedJoin(a.diagnostics, am.diagnostics, a'.diagnostics);
    AddedJoin(b.diagnostics, bm.diagnostics, b'.diagnostics);
    UnplacedJoin(Added(a.diagnostics, am.diagnostics), Added(am.diagnostics, a'.diagnostics));
    UnplacedJoin(Added(b.diagnostics, bm.diagnostics), Added(bm.diagnostics, b'.diagnostics));
  }

  /** What one turn adds depends on neither the frame indexes nor earlier diagnostics. */
  lemma TurnAlike<C(!new)>(p: Provider<C>, a: Loop<C>, b: Loop<C>, f: Frame, g: Frame)
    requires PlaceFree(p) && Alike(p, a, b) && SameFrame(f, g)
    ensures Alike(p, Turn(p, a, f), Turn(p, b, g)) && GrewAlike(a, Turn(p, a, f), b, Turn(p, b, g))
  {
    match p.read(f) {
      case Skipped =>
      case Unreadable =>
      case Payload(value, eventType) =>
        assert Fingerprint(f) == Fingerprint(g) && ReplayIdentity(f, value) == ReplayIdentity(g, value);
        var x, y := p.apply(a.core, f.index, eventType, value), p.apply(b.core, g.index, eventType, value);
        assert p.erase(x.core) == p.erase(y.core);
    }
  }

  lemma FrontSame(x: seq<Frame>, y: seq<Frame>)
    requires SameFrames(x, y) && x != []
    ensures SameFrames(x[..|x| - 1], y[..|y| - 1]) && SameFrame(x[|x| - 1], y[|y| - 1])
  {
  }

  lemma {:induction false} TurnsAlike<C(!new)>(p: Provider<C>, a: Loop<C>, b: Loop<C>, x: seq<Frame>, y: seq<Frame>)
    requires PlaceFree(p) && Alike(p, a, b) && SameFrames(x, y)
    ensures Alike(p, Turns(p, a, x), Turns(p, b, y)) && GrewAlike(a, Turns(p, a, x), b, Turns(p, b, y))
    decreases |x|
  {
    hide PlaceFree, Alike, Turn, SameFrame, GrewAlike;
    assert |x| == |y|;
    if x == [] {
      GrewNothing(a, b);
    } else {
      var n := |x| - 1;
      FrontSame(x, y);
      TurnsAlike(p, a, b, x[..n], y[..n]);
      var am, bm := Turns(p, a, x[..n]), Turns(p, b, y[..n]);
      TurnAlike(p, am, bm, x[n], y[n]);
      GrewOn(a, am, Turn(p, am, x[n]), b, bm, Turn(p, bm, y[n]));
    }
  }

  lemma AddedJoin(a: seq<Diagnostic>, b: seq<Diagnostic>, c: seq<Diagnostic>)
    requires a <= b <= c
    ensures a <= c && Added(a, c) == Added(a, b) + Added(b, c)
  {
  }

  // ------------------------------------------------------------ transparency

  /** Frame `i` is the first with this identity, so it is the one that was accepted. */
  ghost predicate FirstWith<C>(p: Provider<C>, frames: seq<Frame>, i: nat, identity: string) {
    && i < |frames| && Identified(p, frames[i], identity)
    && forall j | 0 <= j < i :: !Identified(p, frames[j], identity)
  }

  predicate Identified<C>(p: Provider<C>, f: Frame, identity: string) {
    p.read(f).Payload? && ReplayIdentity(f, p.read(f).value) == Some(identity)
  }

  lemma {:induction false} NotSeenBefore<C>(p: Provider<C>, s: Loop<C>, frames: seq<Frame>, identity: string)
    requires identity !in s.seen && forall f | f in frames :: !Identified(p, f, identity)
    ensures identity !in Turns(p, s, frames).seen
    decreases |frames|
  {
    hide ReplayIdentity, Fingerprint;
    if frames != [] {
      NotSeenBefore(p, s, frames[..|frames| - 1], identity);
      assert !Identified(p, frames[|frames| - 1], identity);
    }
  }

  lemma {:induction false} FirstStays<C>(p: Provider<C>, s: Loop<C>, frames: seq<Frame>, i: nat, identity: string)
    requires identity !in s.seen && FirstWith(p, frames, i, identity)
    ensures identity in Turns(p, s, frames).seen && Turns(p, s, frames).seen[identity] == Fingerprint(frames[i])
    decreases |frames|
  {
    hide ReplayIdentity, Fingerprint;
    var front := frames[..|frames| - 1];
    if i == |frames| - 1 {
      NotSeenBefore(p, s, front, identity);
    } else {
      FirstStays(p, s, front, i, identity);
    }
  }

  lemma {:induction false} TurnsJoin<C>(p: Provider<C>, s: Loop<C>, a: seq<Frame>, b: seq<Frame>)
    ensures Turns(p, s, a + b) == Turns(p, Turns(p, s, a), b)
    decreases |b|
  {
    hide Turn;
    if b == [] {
      assert a + b == a;
    } else {
      assert (a + b)[..|a + b| - 1] == a + b[..|b| - 1];
      TurnsJoin(p, s, a, b[..|b| - 1]);
    }
  }

  lemma IgnoredTurn<C>(p: Provider<C>, s: Loop<C>, c: Frame, identity: string)
    requires Identified(p, c, identity) && identity in s.seen
    ensures var replay := s.seen[identity] == Fingerprint(c);
            Turn(p, s, c) == s.(
              diagnostics := s.diagnostics + [IgnoredDiagnostic(p, c, replay)],
              duplicateErrors := s.duplicateErrors + if replay then [] else [c.index])
  {
    hide Fingerprint, ReplayIdentity;
  }

  function IgnoredDiagnostic<C>(p: Provider<C>, c: Frame, replay: bool): Diagnostic
    requires p.read(c).Payload?
  {
    Diagnostic(if replay then DuplicateReplay else DuplicateConflict, Some(c.index), p.read(c).eventType, !replay)
  }

  /** `whole` is `plain` with one diagnostic more. */
  ghost predicate OneMore(whole: seq<Diagnostic>, plain: seq<Diagnostic>, d: Diagnostic) {
    exists n | 0 <= n <= |plain| ::
      Unplaced(whole) == Unplaced(plain[..n]) + [d.(frameIndex := None)] + Unplaced(plain[n..])
  }

  /** A frame inserted under an identity that was accepted before changes nothing but the
      numbers of later frames: it adds one diagnostic, and one error when its content differs. */
  lemma {:induction false} InsertedFrame<C(!new)>(p: Provider<C>, s: Loop<C>, a: seq<Frame>, c: Frame, b: seq<Frame>, b': seq<Frame>, i: nat, identity: string)
    requires PlaceFree(p) && s.seen == map[]
    requires i < |a| && FirstWith(p, a, i, identity) && p.read(c).Payload? && Identified(p, c, identity) && SameFrames(b, b')
    ensures var whole, plain := Turns(p, s, a + [c] + b'), Turns(p, s, a + b);
            var replay := Fingerprint(a[i]) == Fingerprint(c);
            && Alike(p, plain, whole)
            && OneMore(whole.diagnostics, plain.diagnostics, IgnoredDiagnostic(p, c, replay))
            && |whole.duplicateErrors| == |plain.duplicateErrors| + if replay then 0 else 1
  {
    hide PlaceFree, Turn, Fingerprint, Identified, SameFrames, FirstWith, Turns;
    var accepted := Turns(p, s, a);
    FirstStays(p, s, a, i, identity);
    IgnoredTurn(p, accepted, c, identity);
    TurnsJoin(p, s, a, b);
    TurnsJoin(p, s, a + [c], b');
    TurnsJoin(p, s, a, [c]);
    SingleTurn(p, accepted, c);
    var ignoring := Turn(p, accepted, c);
    TurnsAlike(p, accepted, ignoring, b, b');
    var replay := Fingerprint(a[i]) == Fingerprint(c);
    DiagnosticInserted(accepted.diagnostics, IgnoredDiagnostic(p, c, replay), Turns(p, accepted, b).diagnostics, Turns(p, ignoring, b').diagnostics);
  }

  lemma {:induction false} SingleTurn<C>(p: Provider<C>, s: Loop<C>, c: Frame)
    ensures Turns(p, s, [c]) == Turn(p, s, c)
  {
    hide Turn;
    assert [c][..0] == [];
  }

  lemma DiagnosticInserted(before: seq<Diagnostic>, d: Diagnostic, plain: seq<Diagnostic>, whole: seq<Diagnostic>)
    requires before <= plain && before + [d] <= whole
    requires Unplaced(Added(before, plain)) == Unplaced(Added(before + [d], whole))
    ensures OneMore(whole, plain, d)
  {
    var n := |before|;
    assert whole == before + [d] + Added(before + [d], whole);
    UnplacedJoin(before + [d], Added(before + [d], whole));
    UnplacedJoin(before, [d]);
    assert Unplaced([d]) == [d.(frameIndex := None)];
    assert plain[..n] == before && plain[n..] == Added(before, plain);
  }

  /** Replay transparency: a copy of an accepted identified frame, anywhere later, is ignored
      with one replay diagnostic. */
  lemma {:induction false} ReplayIsTransparent<C(!new)>(p: Provider<C>, s: Loop<C>, a: seq<Frame>, c: Frame, b: seq<Frame>, b': seq<Frame>, i: nat, identity: string)
    requires PlaceFree(p) && s.seen == map[]
    requires FirstWith(p, a, i, identity) && SameFrame(c, a[i]) && SameFrames(b, b')
    ensures var whole, plain := Turns(p, s, a + [c] + b'), Turns(p, s, a + b);
            && p.read(c).Payload?
            && Alike(p, plain, whole) && |whole.duplicateErrors| == |plain.duplicateErrors|
            && OneMore(whole.diagnostics, plain.diagnostics, Diagnostic(DuplicateReplay, Some(c.index), p.read(c).eventType, false))
  {
    hide Turns, SameFrames;
    assert Identified(p, c, identity);
    InsertedFrame(p, s, a, c, b, b', i, identity);
  }
}