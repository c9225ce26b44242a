// Which frames the detector (packages/normalizers/src/duplicates.ts) takes for the same, and what
// the frame loop makes of them, in terms of the frames' own fields.

module ReplayTerms {
  import opened Wrappers
  import opened JsonValues
  import opened SseDecoding
  import opened Replay

  /** What tells a payload apart from others: the frame's identifier, or else the payload's own, or
      else its sequence number. */
  datatype Mark = ByFrame(id: string) | ByEvent(id: string) | BySequence(number: nat) | Unmarked

  function MarkOf(frame: Frame, payload: Json): Mark {
    match frame.id
    case Some(id) => if id != "" then ByFrame(id) else OwnMark(payload)
    case None => OwnMark(payload)
  }

  function OwnMark(payload: Json): Mark {
    match Field(payload, "event_id")
    case Some(Str(id)) => if id != "" then ByEvent(id) else Numbered(payload)
    case _ => Numbered(payload)
  }

  function Numbered(payload: Json): Mark {
    match Field(payload, "sequence_number")
    case Some(Number(n)) => if n >= 0.0 && n.Floor as real == n then BySequence(n.Floor) else Unmarked
    case _ => Unmarked
  }

  /** The text that stands for a mark. */
  function Written(m: Mark): Option<string> {
    match m
    case ByFrame(id) => Some("sse-id:" + id)
    case ByEvent(id) => Some("event-id:" + id)
    case BySequence(n) => Some("sequence-number:" + Decimal(n))
    case Unmarked => None
  }

  lemma IdentityIsWritten(frame: Frame, payload: Json)
    ensures ReplayIdentity(frame, payload) == Written(MarkOf(frame, payload))
  {
    hide Lookup, Decimal;
  }

  lemma WrittenDiffer(a: string, b: string)
    ensures "sse-id:" + a != "event-id:" + b
    ensures "sse-id:" + a != "sequence-number:" + b
    ensures "event-id:" + a != "sequence-number:" + b
  {
    assert ("sse-id:" + a)[1] == 's' && ("sequence-number:" + b)[1] == 'e';
    assert ("event-id:" + a)[0] == 'e' && ("sequence-number:" + b)[0] == 's';
    assert ("sse-id:" + a)[0] == 's' && ("event-id:" + b)[0] == 'e';
  }

  lemma SameAfter(front: string, a: string, b: string)
    requires front + a == front + b
    ensures a == b
  {
    assert (front + a)[|front|..] == a && (front + b)[|front|..] == b;
  }

  /** Two payloads have the same identity exactly when they bear the same mark. */
  lemma MarksDecide(f: Frame, payload: Json, g: Frame, other: Json)
    ensures ReplayIdentity(f, payload).None? <==> MarkOf(f, payload).Unmarked?
    ensures ReplayIdentity(f, payload) == ReplayIdentity(g, other) <==> MarkOf(f, payload) == MarkOf(g, other)
  {
    hide MarkOf, ReplayIdentity, Decimal;
    IdentityIsWritten(f, payload);
    IdentityIsWritten(g, other);
    match (MarkOf(f, payload), MarkOf(g, other)) {
      case (ByFrame(a), ByFrame(b)) =>
        if "sse-id:" + a == "sse-id:" + b {
          SameAfter("sse-id:", a, b);
        }
      case (ByEvent(a), ByEvent(b)) =>
        if "event-id:" + a == "event-id:" + b {
          SameAfter("event-id:", a, b);
        }
      case (BySequence(a), BySequence(b)) =>
        if "sequence-number:" + Decimal(a) == "sequence-number:" + Decimal(b) {
          SameAfter("sequence-number:", Decimal(a), Decimal(b));
          DecimalCounts(a);
          DecimalCounts(b);
        }
      case (ByFrame(a), ByEvent(b)) => WrittenDiffer(a, b);
      case (ByFrame(a), BySequence(b)) => WrittenDiffer(a, Decimal(b));
      case (ByEvent(a), ByFrame(b)) => WrittenDiffer(b, a);
      case (ByEvent(a), BySequence(b)) => WrittenDiffer(a, Decimal(b));
      case (BySequence(a), ByFrame(b)) => WrittenDiffer(b, Decimal(a));
      case (BySequence(a), ByEvent(b)) => WrittenDiffer(b, Decimal(a));
      case _ =>
    }
  }

  // ------------------------------------------------------------ equal contents

  /** Same event name and same data, a missing one counting as empty. */
  predicate SameContent(f: Frame, g: Frame) {
    var e, e' := if f.event.Some? then f.event.value else "", if g.event.Some? then g.event.value else "";
    var d, d' := if f.data.Some? then f.data.value else "", if g.data.Some? then g.data.value else "";
    e == e' && d == d'
  }

  predicate NoNul(s: string) {
    forall i | 0 <= i < |s| :: s[i] != '\0'
  }

  lemma LastNulSplits(a: string, b: string, c: string, d: string)
    requires a + "\0" + b == c + "\0" + d && NoNul(b) && NoNul(d)
    ensures a == c && b == d
  {
    var whole := a + "\0" + b;
    assert whole == c + "\0" + d && whole[|a|] == '\0' && whole[|c|] == '\0';
    forall k | |a| < k < |whole| ensures whole[k] != '\0' {
      assert whole[k] == b[k - |a| - 1];
    }
    forall k | |c| < k < |whole| ensures whole[k] != '\0' {
      assert whole[k] == d[k - |c| - 1];
    }
    assert a == whole[..|a|] && c == whole[..|c|];
    assert b == whole[|a| + 1..] && d == whole[|c| + 1..];
  }

  /** Data without NUL, as all JSON is: equal fingerprints are equal contents. */
  lemma FingerprintsDecide(f: Frame, g: Frame)
    requires (f.data.Some? ==> NoNul(f.data.value)) && (g.data.Some? ==> NoNul(g.data.value))
    ensures Fingerprint(f) == Fingerprint(g) <==> SameContent(f, g)
  {
    if Fingerprint(f) == Fingerprint(g) {
      LastNulSplits(Text(f.event), Text(f.data), Text(g.event), Text(g.data));
    }
  }

  /** Otherwise different contents can have the same fingerprint. */
  lemma NulBlursContents() returns (f: Frame, g: Frame)
    ensures Fingerprint(f) == Fingerprint(g) && !SameContent(f, g)
  {
    f := Frame(1, Some("a"), Some("b\0c"), None, None, [], [], "");
    g := Frame(2, Some("a\0b"), Some("c"), None, None, [], [], "");
    assert "a" + "\0" + "b\0c" == "a\0b" + "\0" + "c";
  }

  // ------------------------------------------------------------ the first of each mark

  /** Frame `j` holds a payload with this mark, and no frame before it does. */
  ghost predicate FirstOf<C>(p: Provider<C>, frames: seq<Frame>, j: nat, mark: Mark) {
    && j < |frames| && !mark.Unmarked? && Bears(p, frames[j], mark)
    && forall i | 0 <= i < j :: !Bears(p, frames[i], mark)
  }

  predicate Bears<C>(p: Provider<C>, f: Frame, mark: Mark) {
    p.read(f).Payload? && MarkOf(f, p.read(f).value) == mark
  }

  /** `seen` holds the fingerprint of the first payload of each mark. */
  lemma {:induction false} SeenIsFirst<C>(p: Provider<C>, core: C, frames: seq<Frame>, f: Frame, payload: Json)
    requires ReplayIdentity(f, payload).Some?
    ensures var seen, id := Turns(p, Opening(core), frames).seen, ReplayIdentity(f, payload).value;
            if forall i | 0 <= i < |frames| :: !Bears(p, frames[i], MarkOf(f, payload)) then id !in seen
            else exists j: nat :: FirstOf(p, frames, j, MarkOf(f, payload)) && id in seen && seen[id] == Fingerprint(frames[j])
    decreases |frames|
  {
    hide ReplayIdentity, MarkOf, Fingerprint;
    MarksDecide(f, payload, f, payload);
    if frames != [] {
      var front, last := frames[..|frames| - 1], frames[|frames| - 1];
      var mark, id := MarkOf(f, payload), ReplayIdentity(f, payload).value;
      SeenIsFirst(p, core, front, f, payload);
      assert forall i | 0 <= i < |front| :: frames[i] == front[i];
      if p.read(last).Payload? {
        MarksDecide(last, p.read(last).value, f, payload);
      }
      if forall i | 0 <= i < |front| :: !Bears(p, front[i], mark) {
        if Bears(p, last, mark) {
          assert FirstOf(p, frames, |frames| - 1, mark);
        }
      } else {
        var j: nat :| FirstOf(p, front, j, mark) && id in Turns(p, Opening(core), front).seen
                      && Turns(p, Opening(core), front).seen[id] == Fingerprint(front[j]);
        assert FirstOf(p, frames, j, mark);
      }
    }
  }

  /** No earlier frame holds a payload with the same mark. */
  ghost predicate IsNew<C>(p: Provider<C>, frames: seq<Frame>, f: Frame, payload: Json) {
    MarkOf(f, payload).Unmarked? || forall i | 0 <= i < |frames| :: !Bears(p, frames[i], MarkOf(f, payload))
  }

  /** A payload that is accepted is applied. */
  ghost predicate Applies<C(!new)>(p: Provider<C>, s: Loop<C>, f: Frame, payload: Json, eventType: Option<string>, t: Loop<C>) {
    var a := p.apply(s.core, f.index, eventType, payload);
    && t.core == a.core && t.diagnostics == s.diagnostics + a.diagnostics && t.duplicateErrors == s.duplicateErrors
    && |t.parserErrors| == |s.parserErrors| + a.errors && s.parserErrors <= t.parserErrors
    && forall i | |s.parserErrors| <= i < |t.parserErrors| :: t.parserErrors[i] == f.index
  }

  /** A repeated mark is reported: as a replay when the fingerprints agree, else as a conflict,
      which is fatal. */
  ghost predicate Reports<C(!new)>(s: Loop<C>, first: Frame, f: Frame, eventType: Option<string>, t: Loop<C>) {
    && t.core == s.core && t.parserErrors == s.parserErrors
    && if Fingerprint(first) == Fingerprint(f) then
         && t.diagnostics == s.diagnostics + [Diagnostic(DuplicateReplay, Some(f.index), eventType, false)]
         && t.duplicateErrors == s.duplicateErrors
       else
         && t.diagnostics == s.diagnostics + [Diagnostic(DuplicateConflict, Some(f.index), eventType, true)]
         && t.duplicateErrors == s.duplicateErrors + [f.index]
  }

  ghost predicate TakesPayload<C(!new)>(p: Provider<C>, frames: seq<Frame>, s: Loop<C>, f: Frame, payload: Json, eventType: Option<string>, t: Loop<C>) {
    if IsNew(p, frames, f, payload) then Applies(p, s, f, payload, eventType, t)
    else exists j: nat :: FirstOf(p, frames, j, MarkOf(f, payload)) && Reports(s, frames[j], f, eventType, t)
  }

  /** What the loop does with the next frame. */
  ghost predicate TakesFrame<C(!new)>(p: Provider<C>, frames: seq<Frame>, s: Loop<C>, f: Frame, t: Loop<C>) {
    match p.read(f)
    case Skipped => t == s
    case Unreadable =>
      && t.core == s.core && t.duplicateErrors == s.duplicateErrors && t.parserErrors == s.parserErrors + [f.index]
      && t.diagnostics == s.diagnostics + [Diagnostic(MalformedSse, Some(f.index), None, false)]
    case Payload(value, eventType) => TakesPayload(p, frames, s, f, value, eventType, t)
  }

  lemma {:induction false} LoopInTerms<C(!new)>(p: Provider<C>, core: C, frames: seq<Frame>, f: Frame)
    ensures TakesFrame(p, frames, Turns(p, Opening(core), frames), f, Turns(p, Opening(core), frames + [f]))
  {
    hide ReplayIdentity, MarkOf, Fingerprint, FirstOf;
    assert (frames + [f])[..|frames|] == frames;
    var s := Turns(p, Opening(core), frames);
    if p.read(f).Payload? {
      var value := p.read(f).value;
      MarksDecide(f, value, f, value);
      if ReplayIdentity(f, value).Some? {
        SeenIsFirst(p, core, frames, f, value);
      }
      assert s.duplicateErrors + [] == s.duplicateErrors;
    }
  }

  ghost function NewItem<C(!new)>(p: Provider<C>, frames: seq<Frame>, f: Frame): seq<Item> {
    if p.read(f).Payload? && IsNew(p, frames, f, p.read(f).value) then [Item(f.index, p.read(f).eventType, p.read(f).value)] else []
  }

  /** Of the payloads, those are accepted that are the first to bear their mark, or bear none. */
  lemma {:induction false} AcceptedAreFirst<C(!new)>(p: Provider<C>, core: C, frames: seq<Frame>, f: Frame)
    ensures Accepted(p, Opening(core), frames + [f]) == Accepted(p, Opening(core), frames) + NewItem(p, frames, f)
  {
    hide ReplayIdentity, MarkOf, Fingerprint, FirstOf;
    assert (frames + [f])[..|frames|] == frames;
    var items := Accepted(p, Opening(core), frames);
    assert items + [] == items;
    if p.read(f).Payload? {
      var value := p.read(f).value;
      MarksDecide(f, value, f, value);
      if ReplayIdentity(f, value).Some? {
        SeenIsFirst(p, core, frames, f, value);
      }
    }
  }

  /** A frame is read as JSON; the payload's own type goes before the frame's event name. */
  lemma ReadingInTerms(parse: Parser, f: Frame)
    ensures match f.data
            case None => ReadFrame(parse, f) == Skipped
            case Some(text) =>
              match parse(text)
              case Some(Obj(members)) =>
                && ReadFrame(parse, f).Payload? && ReadFrame(parse, f).value == Obj(members)
                && (forall t :: Has(Obj(members), "type", Str(t)) ==> ReadFrame(parse, f).eventType == Some(t))
                && ((forall t :: !Has(Obj(members), "type", Str(t))) ==> ReadFrame(parse, f).eventType == f.event)
              case _ => ReadFrame(parse, f) == Unreadable
  {
    hide Has, StringField;
    if f.data.Some? {
      match parse(f.data.value) {
        case Some(Obj(members)) => FieldsAreFound(Obj(members), "type");
        case _ =>
      }
    }
  }
}
