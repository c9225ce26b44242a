// The journal of one wrapped process (apps/cli/src/run/run-event-journal.ts): calls queue
// operations on a chain of promises, and the chain writes to a store that may fail.

module RunJournal {
  import opened Wrappers

  datatype Stream = Stdout | Stderr

  type Byte = b: int | 0 <= b < 256

  datatype Status = Active | Completed | Crashed

  datatype Event =
    | SessionStarted
    | ProcessStarted(pid: int)
    | Output(stream: Stream, frameIndex: nat, bytes: seq<Byte>)
    | Snapshot(final: bool)
    | FileChange(change: string)
    | WorkspaceError(message: string)
    | ProcessExited(exitCode: Option<int>, signal: Option<string>)
    | SessionEnded(exitCode: Option<int>, signal: Option<string>)
    | ProcessError(code: Option<string>, message: string)
    | SessionCrashed(code: Option<string>, message: string)

  /** The public methods. `consistent`: the parts of the input belong together. */
  datatype Call =
    | RecordStarted(pid: int)
    | AppendOutput(stream: Stream, bytes: seq<Byte>)
    | RecordSnapshot(final: bool, consistent: bool)
    | RecordFileChange(change: string, consistent: bool)
    | RecordWorkspaceError(message: string)
    | Finish(exitCode: Option<int>, signal: Option<string>)
    | Fail(code: Option<string>, message: string)

  /** A queued operation: frames written one by one, or events written in one transaction
      together with the session's new status. */
  datatype Operation =
    | WriteFrames(stream: Stream, bytes: seq<Byte>)
    | WriteEvents(events: seq<Event>, status: Option<Status>)

  datatype Flags = Flags(pid: Option<int>, terminal: bool, baselineRecorded: bool, finalRecorded: bool)

  // ------------------------------------------------------------ what the calls describe

  /** What the flags let through. */
  predicate Admits(f: Flags, c: Call) {
    match c
    case RecordStarted(_) => f.pid.None? && !f.terminal
    case AppendOutput(_, _) => f.pid.Some? && !f.terminal
    case RecordSnapshot(final, consistent) =>
      !f.terminal && consistent && if final then f.baselineRecorded && !f.finalRecorded else !f.baselineRecorded
    case RecordFileChange(_, consistent) => !f.terminal && f.baselineRecorded && !f.finalRecorded && consistent
    case RecordWorkspaceError(_) => !f.terminal
    case Finish(_, _) => f.pid.Some? && !f.terminal
    case Fail(_, _) => f.pid.None? && !f.terminal
  }

  /** What the schema of the record asks for. */
  predicate RecordFits(c: Call) {
    match c
    case RecordStarted(pid) => pid > 0
    case Finish(_, signal) => signal != Some("")
    case Fail(code, message) => code != Some("") && message != ""
    case _ => true
  }

  /** Whether a call is accepted; a refused call throws and queues nothing. */
  predicate Accepts(f: Flags, c: Call) {
    Admits(f, c) && RecordFits(c)
  }

  /** A terminal call sets its flag before its record is parsed. */
  predicate Closes(f: Flags, c: Call) {
    Admits(f, c) && !RecordFits(c) && !c.RecordStarted?
  }

  function FlagsAfter(f: Flags, c: Call): Flags {
    if Closes(f, c) then f.(terminal := true)
    else if !Accepts(f, c) then f
    else
      match c
      case RecordStarted(pid) => f.(pid := Some(pid))
      case RecordSnapshot(final, _) => if final then f.(finalRecorded := true) else f.(baselineRecorded := true)
      case Finish(_, _) => f.(terminal := true)
      case Fail(_, _) => f.(terminal := true)
      case _ => f
  }

  const MAXIMUM_MESSAGE := 4096

  function Cut(message: string): string {
    if |message| > MAXIMUM_MESSAGE then message[..MAXIMUM_MESSAGE] else message
  }

  function OperationOf(c: Call): Operation {
    match c
    case RecordStarted(pid) => WriteEvents([ProcessStarted(pid)], None)
    case AppendOutput(stream, bytes) => WriteFrames(stream, bytes)
    case RecordSnapshot(final, _) => WriteEvents([Snapshot(final)], None)
    case RecordFileChange(change, _) => WriteEvents([FileChange(change)], None)
    case RecordWorkspaceError(message) => WriteEvents([WorkspaceError(Cut(message))], None)
    case Finish(exitCode, signal) => WriteEvents([ProcessExited(exitCode, signal), SessionEnded(exitCode, signal)], Some(Completed))
    case Fail(code, message) => WriteEvents([ProcessError(code, Cut(message)), SessionCrashed(code, Cut(message))], Some(Crashed))
  }

  function FramesIn(log: seq<Event>, stream: Stream): seq<Event>
    decreases |log|
  {
    if log == [] then []
    else
      var e := log[|log| - 1];
      FramesIn(log[..|log| - 1], stream) + if e.Output? && e.stream == stream then [e] else []
  }

  /** `bytes` cut into frames of at most `maximum` bytes, numbered from `first`. */
  function Frames(stream: Stream, bytes: seq<Byte>, first: nat, maximum: nat): (r: seq<Event>)
    requires maximum > 0
    decreases |bytes|
  {
    if bytes == [] then []
    else if |bytes| <= maximum then [Output(stream, first, bytes)]
    else [Output(stream, first, bytes[..maximum])] + Frames(stream, bytes[maximum..], first + 1, maximum)
  }

  /** The events an operation adds to a log. */
  function EventsOf(log: seq<Event>, o: Operation, maximum: nat): seq<Event>
    requires maximum > 0
  {
    match o
    case WriteFrames(stream, bytes) => Frames(stream, bytes, |FramesIn(log, stream)| + 1, maximum)
    case WriteEvents(events, _) => events
  }

  datatype Story = Story(flags: Flags, log: seq<Event>)

  const OPENING := Story(Flags(None, false, false, false), [SessionStarted])

  /** The log that a series of calls describes. */
  function Tell(calls: seq<Call>, maximum: nat): Story
    requires maximum > 0
    decreases |calls|
  {
    if calls == [] then OPENING else TellNext(Tell(calls[..|calls| - 1], maximum), calls[|calls| - 1], maximum)
  }

  function TellNext(story: Story, c: Call, maximum: nat): Story
    requires maximum > 0
  {
    Story(FlagsAfter(story.flags, c),
          if Accepts(story.flags, c) then story.log + EventsOf(story.log, OperationOf(c), maximum) else story.log)
  }

  // ------------------------------------------------------------ the machine

  datatype Record = Record(sequence: nat, event: Event)

  /** `broken`: the promise chain is rejected. Another writer of the session may hold sequence
      numbers in between. */
  datatype State = State(
    flags: Flags,
    frameIndexes: map<Stream, nat>,
    queue: seq<Operation>,
    broken: bool,
    stored: seq<Record>,
    nextSequence: nat,
    status: Status)

  /** A call; the next piece of work on the chain, which the store may refuse after `burned`
      sequence numbers are gone; or another writer taking sequence numbers. */
  datatype Turn = Calling(call: Call) | Working(fails: bool, burned: nat) | Reserving(count: nat)

  function Events(stored: seq<Record>): (r: seq<Event>)
    ensures |r| == |stored|
  {
    seq(|stored|, i requires 0 <= i < |stored| => stored[i].event)
  }

  function Numbered(events: seq<Event>, first: nat): (r: seq<Record>)
    ensures |r| == |events|
  {
    seq(|events|, i requires 0 <= i < |events| => Record(first + i, events[i]))
  }

  const COUNTERS: map<Stream, nat> := map[Stdout := 0, Stderr := 0]

  function Start(first: nat): State {
    State(OPENING.flags, COUNTERS, [], false, Numbered([SessionStarted], first), first + 1, Active)
  }

  ghost predicate Complete(m: map<Stream, nat>) {
    forall stream: Stream :: stream in m
  }

  lemma CountersComplete()
    ensures Complete(COUNTERS)
  {
    forall stream: Stream ensures stream in COUNTERS {
      match stream {
        case Stdout =>
        case Stderr =>
      }
    }
  }

  function Store(s: State, events: seq<Event>, status: Option<Status>): State {
    s.(stored := s.stored + Numbered(events, s.nextSequence),
       nextSequence := s.nextSequence + |events|,
       status := if status.Some? then status.value else s.status)
  }

  /** One frame, or one transaction. */
  function Work(s: State, maximum: nat): State
    requires maximum > 0 && s.queue != [] && Complete(s.frameIndexes)
  {
    match s.queue[0]
    case WriteFrames(stream, bytes) =>
      var n := if |bytes| < maximum then |bytes| else maximum;
      var index := s.frameIndexes[stream] + 1;
      Store(s, [Output(stream, index, bytes[..n])], None).(
        frameIndexes := s.frameIndexes[stream := index],
        queue := (if n == |bytes| then [] else [WriteFrames(stream, bytes[n..])]) + s.queue[1..])
    case WriteEvents(events, status) => Store(s, events, status).(queue := s.queue[1..])
  }

  function Enqueue(queue: seq<Operation>, c: Call): seq<Operation> {
    if c.AppendOutput? && c.bytes == [] then queue else queue + [OperationOf(c)]
  }

  function Step(s: State, t: Turn, maximum: nat): State
    requires maximum > 0 && Complete(s.frameIndexes)
  {
    match t
    case Calling(c) =>
      s.(flags := FlagsAfter(s.flags, c), queue := if Accepts(s.flags, c) then Enqueue(s.queue, c) else s.queue)
    case Working(fails, burned) =>
      if s.broken || s.queue == [] then s
      else if fails then s.(broken := true, nextSequence := s.nextSequence + burned)
      else Work(s, maximum)
    case Reserving(count) => s.(nextSequence := s.nextSequence + count)
  }

  function Run(first: nat, turns: seq<Turn>, maximum: nat): (s: State)
    requires maximum > 0
    ensures Complete(s.frameIndexes)
    decreases |turns|
  {
    CountersComplete();
    if turns == [] then Start(first) else Step(Run(first, turns[..|turns| - 1], maximum), turns[|turns| - 1], maximum)
  }

  function CallsIn(turns: seq<Turn>): seq<Call>
    decreases |turns|
  {
    if turns == [] then []
    else CallsIn(turns[..|turns| - 1]) + match turns[|turns| - 1] case Calling(c) => [c] case _ => []
  }

  // ------------------------------------------------------------ stored and queued make up the story

  /** The log once the queue is worked off. */
  function WorkedOff(log: seq<Event>, queue: seq<Operation>, maximum: nat): seq<Event>
    requires maximum > 0
    decreases |queue|
  {
    if queue == [] then log else WorkedOff(log + EventsOf(log, queue[0], maximum), queue[1..], maximum)
  }

  predicate Queueable(o: Operation) {
    match o
    case WriteFrames(_, bytes) => bytes != []
    case WriteEvents(events, _) => forall e | e in events :: !e.Output?
  }

  ghost predicate Follows(s: State, story: Story, maximum: nat)
    requires maximum > 0
  {
    && Complete(s.frameIndexes)
    && s.flags == story.flags
    && WorkedOff(Events(s.stored), s.queue, maximum) == story.log
    && (forall o | o in s.queue :: Queueable(o))
    && (!s.broken ==> forall stream :: s.frameIndexes[stream] == |FramesIn(Events(s.stored), stream)|)
  }

  lemma {:induction false} WorkedOffNext(log: seq<Event>, queue: seq<Operation>, o: Operation, maximum: nat)
    requires maximum > 0
    ensures var all := WorkedOff(log, queue, maximum);
            WorkedOff(log, queue + [o], maximum) == all + EventsOf(all, o, maximum)
    decreases |queue|
  {
    hide EventsOf;
    if queue == [] {
      assert (queue + [o])[1..] == [];
    } else {
      assert (queue + [o])[0] == queue[0] && (queue + [o])[1..] == queue[1..] + [o];
      WorkedOffNext(log + EventsOf(log, queue[0], maximum), queue[1..], o, maximum);
    }
  }

  lemma {:induction false} FramesInNext(log: seq<Event>, e: Event, stream: Stream)
    ensures FramesIn(log + [e], stream) == FramesIn(log, stream) + if e.Output? && e.stream == stream then [e] else []
  {
    assert (log + [e])[..|log|] == log;
  }

  lemma {:induction false} FramesInJoin(log: seq<Event>, more: seq<Event>, stream: Stream)
    ensures FramesIn(log + more, stream) == FramesIn(log, stream) + FramesIn(more, stream)
    decreases |more|
  {
    if more == [] {
      assert log + more == log;
    } else {
      var front, e := more[..|more| - 1], more[|more| - 1];
      assert log + more == (log + front) + [e] && more == front + [e];
      FramesInJoin(log, front, stream);
      FramesInNext(log + front, e, stream);
    }
  }

  lemma {:induction false} NoFrames(events: seq<Event>, stream: Stream)
    requires forall e | e in events :: !e.Output?
    ensures FramesIn(events, stream) == []
    decreases |events|
  {
    if events != [] {
      NoFrames(events[..|events| - 1], stream);
    }
  }

  lemma EventsJoin(stored: seq<Record>, events: seq<Event>, first: nat)
    ensures Events(stored + Numbered(events, first)) == Events(stored) + events
  {
  }

  /** Writing the first frame leaves the rest of the operation to be written. */
  lemma {:induction false} FirstFrame(log: seq<Event>, stream: Stream, bytes: seq<Byte>, maximum: nat)
    requires maximum > 0 && bytes != []
    ensures var n := if |bytes| < maximum then |bytes| else maximum;
            var e := Output(stream, |FramesIn(log, stream)| + 1, bytes[..n]);
            EventsOf(log, WriteFrames(stream, bytes), maximum) == [e] + EventsOf(log + [e], WriteFrames(stream, bytes[n..]), maximum)
  {
    hide FramesIn, Frames, EventsOf;
    var n := if |bytes| < maximum then |bytes| else maximum;
    var first := |FramesIn(log, stream)| + 1;
    var e := Output(stream, first, bytes[..n]);
    FramesInNext(log, e, stream);
    CutFirst(stream, bytes, first, maximum);
    EventsOfFrames(log, stream, bytes, maximum);
    EventsOfFrames(log + [e], stream, bytes[n..], maximum);
  }

  lemma {:induction false} EventsOfFrames(log: seq<Event>, stream: Stream, bytes: seq<Byte>, maximum: nat)
    requires maximum > 0
    ensures EventsOf(log, WriteFrames(stream, bytes), maximum) == Frames(stream, bytes, |FramesIn(log, stream)| + 1, maximum)
  {
    hide Frames, FramesIn;
  }

  lemma CutFirst(stream: Stream, bytes: seq<Byte>, first: nat, maximum: nat)
    requires maximum > 0 && bytes != []
    ensures var n := if |bytes| < maximum then |bytes| else maximum;
            Frames(stream, bytes, first, maximum) == [Output(stream, first, bytes[..n])] + Frames(stream, bytes[n..], first + 1, maximum)
  {
    if |bytes| <= maximum {
      assert bytes[..|bytes|] == bytes;
    }
  }

  lemma WorkFollows(s: State, story: Story, maximum: nat)
    requires maximum > 0 && Follows(s, story, maximum) && s.queue != [] && !s.broken
    ensures Follows(Work(s, maximum), story, maximum)
  {
    hide FramesIn, EventsOf;
    var log := Events(s.stored);
    match s.queue[0] {
      case WriteFrames(stream, bytes) =>
        assert s.queue[0] in s.queue;
        FrameFollows(s, story, stream, bytes, maximum);
      case WriteEvents(events, _) =>
        EventsJoin(s.stored, events, s.nextSequence);
        EventsOfEvents(log, s.queue[0], maximum);
        forall stream ensures FramesIn(log + events, stream) == FramesIn(log, stream) {
          assert s.queue[0] in s.queue;
          FramesInJoin(log, events, stream);
          NoFrames(events, stream);
        }
    }
  }

  lemma EventsOfEvents(log: seq<Event>, o: Operation, maximum: nat)
    requires maximum > 0 && o.WriteEvents?
    ensures EventsOf(log, o, maximum) == o.events
  {
  }

  lemma FrameFollows(s: State, story: Story, stream: Stream, bytes: seq<Byte>, maximum: nat)
    requires maximum > 0 && Follows(s, story, maximum) && s.queue != [] && !s.broken
    requires s.queue[0] == WriteFrames(stream, bytes) && bytes != []
    ensures Follows(Work(s, maximum), story, maximum)
  {
    hide FramesIn, EventsOf;
    var log, next := Events(s.stored), Work(s, maximum);
    var n := if |bytes| < maximum then |bytes| else maximum;
    var e := Output(stream, |FramesIn(log, stream)| + 1, bytes[..n]);
    EventsJoin(s.stored, [e], s.nextSequence);
    FirstFrame(log, stream, bytes, maximum);
    forall other ensures FramesIn(log + [e], other) == FramesIn(log, other) + if other == stream then [e] else [] {
      FramesInNext(log, e, other);
    }
    var rest := WriteFrames(stream, bytes[n..]);
    assert log + EventsOf(log, s.queue[0], maximum) == (log + [e]) + EventsOf(log + [e], rest, maximum);
    if n == |bytes| {
      NoBytes(log + [e], rest, maximum);
      assert next.queue == s.queue[1..] && (log + [e]) + [] == log + [e];
    } else {
      assert next.queue[0] == rest && next.queue[1..] == s.queue[1..];
    }
  }

  lemma NoBytes(log: seq<Event>, o: Operation, maximum: nat)
    requires maximum > 0 && o.WriteFrames? && o.bytes == []
    ensures EventsOf(log, o, maximum) == []
  {
  }

  lemma CallFollows(s: State, story: Story, c: Call, maximum: nat)
    requires maximum > 0 && Follows(s, story, maximum)
    ensures Follows(Step(s, Calling(c), maximum), TellNext(story, c, maximum), maximum)
  {
    hide FramesIn, EventsOf, WorkedOff, Accepts, FlagsAfter;
    if Accepts(s.flags, c) {
      if c.AppendOutput? && c.bytes == [] {
        NoBytes(story.log, OperationOf(c), maximum);
      } else {
        WorkedOffNext(Events(s.stored), s.queue, OperationOf(c), maximum);
      }
    }
  }

  /** In every run the events stored, with those still queued, are the log that the calls
      describe. */
  lemma {:induction false} RunFollows(first: nat, turns: seq<Turn>, maximum: nat)
    requires maximum > 0
    ensures Follows(Run(first, turns, maximum), Tell(CallsIn(turns), maximum), maximum)
    decreases |turns|
  {
    hide Follows, Work, WorkedOff;
    if turns == [] {
      StartFollows(first, maximum);
    } else {
      var front, t := turns[..|turns| - 1], turns[|turns| - 1];
      RunFollows(first, front, maximum);
      var s, story := Run(first, front, maximum), Tell(CallsIn(front), maximum);
      match t {
        case Calling(c) =>
          CallFollows(s, story, c, maximum);
          assert (CallsIn(front) + [c])[..|CallsIn(front)|] == CallsIn(front);
        case Working(fails, burned) =>
          assert CallsIn(turns) == CallsIn(front);
          if !s.broken && s.queue != [] && !fails {
            WorkFollows(s, story, maximum);
          } else {
            OthersFollow(s, story, t, maximum);
          }
        case Reserving(_) =>
          assert CallsIn(turns) == CallsIn(front);
          OthersFollow(s, story, t, maximum);
      }
    }
  }

  lemma OthersFollow(s: State, story: Story, t: Turn, maximum: nat)
    requires maximum > 0 && Follows(s, story, maximum)
    requires t.Reserving? || (t.Working? && (s.broken || s.queue == [] || t.fails))
    ensures Follows(Step(s, t, maximum), story, maximum)
  {
  }

  lemma StartFollows(first: nat, maximum: nat)
    requires maximum > 0
    ensures Follows(Start(first), OPENING, maximum)
  {
    assert Events(Start(first).stored) == [SessionStarted];
    CountersComplete();
    forall stream ensures FramesIn([SessionStarted], stream) == [] {
      NoFrames([SessionStarted], stream);
    }
  }

  lemma {:induction false} WorkedOffExtends(log: seq<Event>, queue: seq<Operation>, maximum: nat)
    requires maximum > 0
    ensures log <= WorkedOff(log, queue, maximum)
    decreases |queue|
  {
    hide EventsOf;
    if queue != [] {
      WorkedOffExtends(log + EventsOf(log, queue[0], maximum), queue[1..], maximum);
    }
  }

  /** The stored events are always a prefix of the described log, and all of it once the queue
      is empty. */
  lemma {:induction false} StoredIsPrefix(first: nat, turns: seq<Turn>, maximum: nat)
    requires maximum > 0
    ensures var s, story := Run(first, turns, maximum), Tell(CallsIn(turns), maximum);
            && Events(s.stored) <= story.log
            && (s.queue == [] ==> Events(s.stored) == story.log)
  {
    hide Run, Tell, EventsOf, FramesIn;
    RunFollows(first, turns, maximum);
    var s := Run(first, turns, maximum);
    WorkedOffExtends(Events(s.stored), s.queue, maximum);
  }

  /** Once a write has failed, nothing is ever stored again: the chain stays rejected. */
  lemma {:induction false} NothingAfterFailure(first: nat, turns: seq<Turn>, more: seq<Turn>, maximum: nat)
    requires maximum > 0 && Run(first, turns, maximum).broken
    ensures var s, s' := Run(first, turns, maximum), Run(first, turns + more, maximum);
            s'.broken && s'.stored == s.stored && s'.status == s.status
    decreases |more|
  {
    hide Work, Accepts, FlagsAfter, Enqueue;
    if more == [] {
      assert turns + more == turns;
    } else {
      assert (turns + more)[..|turns + more| - 1] == turns + more[..|more| - 1];
      NothingAfterFailure(first, turns, more[..|more| - 1], maximum);
    }
  }

  // ------------------------------------------------------------ order of events

  predicate Ends(e: Event) {
    e.SessionEnded? || e.SessionCrashed?
  }

  predicate Leaves(e: Event) {
    e.ProcessExited? || e.ProcessError?
  }

  /** Where an event may stand. */
  ghost predicate Fits(before: seq<Event>, e: Event) {
    && (forall b | b in before :: !Ends(b))
    && (Ends(e) <==> exists b | b in before :: Leaves(b))
    && match e
       case SessionStarted => before == []
       case ProcessStarted(_) => forall b | b in before :: !b.ProcessStarted?
       case Output(_, _, _) => exists b | b in before :: b.ProcessStarted?
       case Snapshot(final) => Snapshot(final) !in before && (final ==> Snapshot(false) in before)
       case FileChange(_) => Snapshot(false) in before && Snapshot(true) !in before
       case WorkspaceError(_) => true
       case ProcessExited(_, _) => exists b | b in before :: b.ProcessStarted?
       case ProcessError(_, _) => forall b | b in before :: !b.ProcessStarted?
       case SessionEnded(exitCode, signal) => before[|before| - 1..] == [ProcessExited(exitCode, signal)]
       case SessionCrashed(code, message) => before[|before| - 1..] == [ProcessError(code, message)]
  }

  /** Every event stands where it may: file changes between the baseline and the final
      snapshot, output only of a started process, and nothing after the terminal event. */
  ghost predicate Ordered(log: seq<Event>) {
    forall i | 0 <= i < |log| :: Fits(log[..i], log[i])
  }

  ghost predicate FlagsTell(story: Story) {
    var f, log := story.flags, story.log;
    && log != []
    && (f.pid.Some? <==> exists b | b in log :: b.ProcessStarted?)
    && ((exists b | b in log :: Ends(b)) ==> f.terminal)
    && ((exists b | b in log :: Leaves(b)) <==> exists b | b in log :: Ends(b))
    && (f.baselineRecorded <==> Snapshot(false) in log)
    && (f.finalRecorded <==> Snapshot(true) in log)
  }

  lemma OrderedNext(log: seq<Event>, e: Event)
    requires Ordered(log) && Fits(log, e)
    ensures Ordered(log + [e])
  {
    hide Fits;
    var next := log + [e];
    forall i | 0 <= i < |next| ensures Fits(next[..i], next[i]) {
      if i < |log| {
        assert next[..i] == log[..i];
      } else {
        assert next[..i] == log;
      }
    }
  }

  lemma OrderedPrefix(log: seq<Event>, whole: seq<Event>)
    requires Ordered(whole) && log <= whole
    ensures Ordered(log)
  {
    hide Fits;
    forall i | 0 <= i < |log| ensures Fits(log[..i], log[i]) {
      assert log[..i] == whole[..i] && log[i] == whole[i];
    }
  }

  ghost predicate OutputsOnly(events: seq<Event>) {
    forall e | e in events :: e.Output?
  }

  lemma {:induction false} FramesAreOutputs(stream: Stream, bytes: seq<Byte>, first: nat, maximum: nat)
    requires maximum > 0
    ensures OutputsOnly(Frames(stream, bytes, first, maximum))
    decreases |bytes|
  {
    if |bytes| > maximum {
      FramesAreOutputs(stream, bytes[maximum..], first + 1, maximum);
    }
  }

  lemma OutputFits(story: Story, e: Event)
    requires FlagsTell(story) && Ordered(story.log) && story.flags.pid.Some? && !story.flags.terminal && e.Output?
    ensures Ordered(story.log + [e]) && FlagsTell(story.(log := story.log + [e]))
  {
    hide Ordered;
    OrderedNext(story.log, e);
  }

  lemma {:induction false} OutputsFit(story: Story, events: seq<Event>)
    requires FlagsTell(story) && Ordered(story.log) && story.flags.pid.Some? && !story.flags.terminal && OutputsOnly(events)
    ensures Ordered(story.log + events) && FlagsTell(story.(log := story.log + events))
    decreases |events|
  {
    hide Ordered, FlagsTell;
    if events == [] {
      assert story.log + events == story.log;
    } else {
      var front, e := events[..|events| - 1], events[|events| - 1];
      OutputsFit(story, front);
      assert story.log + events == (story.log + front) + [e];
      assert e in events;
      OutputFits(story.(log := story.log + front), e);
    }
  }

  lemma SingleFits(story: Story, c: Call)
    requires FlagsTell(story) && Accepts(story.flags, c) && !c.AppendOutput? && !c.Finish? && !c.Fail?
    ensures |OperationOf(c).events| == 1 && Fits(story.log, OperationOf(c).events[0])
    ensures FlagsTell(Story(FlagsAfter(story.flags, c), story.log + OperationOf(c).events))
  {
  }

  lemma PairFits(log: seq<Event>, leaves: Event, ends: Event)
    requires forall b | b in log :: !Ends(b) && !Leaves(b)
    requires || (leaves.ProcessExited? && ends == SessionEnded(leaves.exitCode, leaves.signal) && exists b | b in log :: b.ProcessStarted?)
             || (leaves.ProcessError? && ends == SessionCrashed(leaves.code, leaves.message) && forall b | b in log :: !b.ProcessStarted?)
    ensures Fits(log, leaves) && Fits(log + [leaves], ends)
  {
    assert (log + [leaves])[|log|..] == [leaves] && leaves in log + [leaves];
  }

  lemma PairFlags(story: Story, f: Flags, leaves: Event, ends: Event)
    requires FlagsTell(story) && f == story.flags.(terminal := true)
    requires Leaves(leaves) && Ends(ends)
    ensures FlagsTell(Story(f, story.log + [leaves, ends]))
  {
    var all := story.log + [leaves, ends];
    assert leaves in all && ends in all;
    assert forall b | b in story.log :: b in all;
    assert forall b | b in all && b !in story.log :: b == leaves || b == ends;
  }

  lemma TerminalCall(story: Story, c: Call)
    requires FlagsTell(story) && Accepts(story.flags, c) && (c.Finish? || c.Fail?)
    ensures forall b | b in story.log :: !Ends(b) && !Leaves(b)
    ensures c.Finish? ==> exists b | b in story.log :: b.ProcessStarted?
    ensures c.Fail? ==> forall b | b in story.log :: !b.ProcessStarted?
    ensures FlagsAfter(story.flags, c) == story.flags.(terminal := true)
  {
  }

  lemma EventFits(story: Story, c: Call, maximum: nat)
    requires maximum > 0 && FlagsTell(story) && Ordered(story.log) && Accepts(story.flags, c) && !c.AppendOutput?
    ensures var next := TellNext(story, c, maximum); Ordered(next.log) && FlagsTell(next)
  {
    hide Ordered, Fits, Frames, FramesIn, FlagsTell, Accepts, FlagsAfter;
    var log, events := story.log, OperationOf(c).events;
    if c.Finish? || c.Fail? {
      TerminalCall(story, c);
      PairFits(log, events[0], events[1]);
      PairFlags(story, FlagsAfter(story.flags, c), events[0], events[1]);
      OrderedNext(log, events[0]);
      assert log + events == (log + [events[0]]) + [events[1]];
      OrderedNext(log + [events[0]], events[1]);
    } else {
      SingleFits(story, c);
      OrderedNext(log, events[0]);
      assert events == [events[0]];
    }
  }

  lemma {:induction false} StoryIsOrdered(calls: seq<Call>, maximum: nat)
    requires maximum > 0
    ensures Ordered(Tell(calls, maximum).log) && FlagsTell(Tell(calls, maximum))
    decreases |calls|
  {
    hide Ordered, FlagsTell, Frames;
    if calls == [] {
      OpeningIsOrdered();
    } else {
      var before, c := Tell(calls[..|calls| - 1], maximum), calls[|calls| - 1];
      StoryIsOrdered(calls[..|calls| - 1], maximum);
      if Accepts(before.flags, c) {
        if c.AppendOutput? {
          var first := |FramesIn(before.log, c.stream)| + 1;
          FramesAreOutputs(c.stream, c.bytes, first, maximum);
          OutputsFit(before, Frames(c.stream, c.bytes, first, maximum));
        } else {
          EventFits(before, c, maximum);
        }
      } else {
        RefusedTells(before, c, maximum);
      }
    }
  }

  lemma RefusedTells(story: Story, c: Call, maximum: nat)
    requires maximum > 0 && FlagsTell(story) && !Accepts(story.flags, c)
    ensures var next := TellNext(story, c, maximum); next.log == story.log && FlagsTell(next)
  {
  }

  /** A journal once closed tells nothing more, whatever is called. */
  lemma {:induction false} ClosedIsFinal(calls: seq<Call>, more: seq<Call>, maximum: nat)
    requires maximum > 0 && Tell(calls, maximum).flags.terminal
    ensures Tell(calls + more, maximum) == Tell(calls, maximum)
    decreases |more|
  {
    hide Tell;
    if more == [] {
      assert calls + more == calls;
    } else {
      var front := more[..|more| - 1];
      assert (calls + more)[..|calls + more| - 1] == calls + front;
      ClosedIsFinal(calls, front, maximum);
      TellLast(calls + more, maximum);
      ClosedAdmitsNothing(Tell(calls, maximum), more[|more| - 1], maximum);
    }
  }

  lemma {:induction false} TellLast(calls: seq<Call>, maximum: nat)
    requires maximum > 0 && calls != []
    ensures Tell(calls, maximum) == TellNext(Tell(calls[..|calls| - 1], maximum), calls[|calls| - 1], maximum)
  {
  }

  lemma ClosedAdmitsNothing(story: Story, c: Call, maximum: nat)
    requires maximum > 0 && story.flags.terminal
    ensures TellNext(story, c, maximum) == story
  {
  }

  /** Some call closed the journal with a record that the schema refuses. */
  ghost predicate ClosedEmpty(calls: seq<Call>, maximum: nat)
    requires maximum > 0
  {
    exists i | 0 <= i < |calls| :: Closes(Tell(calls[..i], maximum).flags, calls[i])
  }

  /** A closed journal has told its terminal event, unless it was closed with a record that the
      schema refuses: then it never tells one. */
  lemma {:induction false} ClosedExactly(calls: seq<Call>, maximum: nat)
    requires maximum > 0
    ensures var story := Tell(calls, maximum);
            && (story.flags.terminal <==> (exists b | b in story.log :: Ends(b)) || ClosedEmpty(calls, maximum))
            && !((exists b | b in story.log :: Ends(b)) && ClosedEmpty(calls, maximum))
    decreases |calls|
  {
    hide Tell, TellNext, Closes;
    if calls == [] {
      OpeningIsOpen(maximum);
    } else {
      var front, c := calls[..|calls| - 1], calls[|calls| - 1];
      ClosedExactly(front, maximum);
      TellLast(calls, maximum);
      NextCloses(Tell(front, maximum), c, maximum);
      ClosedEmptyNext(front, c, maximum);
      assert front + [c] == calls;
    }
  }

  lemma {:induction false} OpeningIsOpen(maximum: nat)
    requires maximum > 0
    ensures Tell([], maximum) == OPENING && !OPENING.flags.terminal && forall b | b in OPENING.log :: !Ends(b)
  {
  }

  lemma {:induction false} ClosedEmptyNext(front: seq<Call>, c: Call, maximum: nat)
    requires maximum > 0
    ensures ClosedEmpty(front + [c], maximum) <==> ClosedEmpty(front, maximum) || Closes(Tell(front, maximum).flags, c)
  {
    hide Tell, Closes;
    var calls := front + [c];
    forall i | 0 <= i < |front| ensures calls[..i] == front[..i] && calls[i] == front[i] {
    }
    assert calls[..|front|] == front && calls[|front|] == c;
    if ClosedEmpty(front, maximum) {
      var i :| 0 <= i < |front| && Closes(Tell(front[..i], maximum).flags, front[i]);
      assert Closes(Tell(calls[..i], maximum).flags, calls[i]);
    }
  }

  lemma NextCloses(story: Story, c: Call, maximum: nat)
    requires maximum > 0 && ((exists b | b in story.log :: Ends(b)) ==> story.flags.terminal)
    ensures var next := TellNext(story, c, maximum);
            && ((exists b | b in next.log :: Ends(b)) <==> (exists b | b in story.log :: Ends(b)) || (Accepts(story.flags, c) && (c.Finish? || c.Fail?)))
            && (next.flags.terminal <==> story.flags.terminal || Closes(story.flags, c) || (Accepts(story.flags, c) && (c.Finish? || c.Fail?)))
            && (story.flags.terminal ==> next == story && !Closes(story.flags, c))
            && !(Closes(story.flags, c) && Accepts(story.flags, c))
  {
    hide Frames, FramesIn;
    if Accepts(story.flags, c) {
      var events := EventsOf(story.log, OperationOf(c), maximum);
      match c {
        case AppendOutput(stream, bytes) => FramesAreOutputs(stream, bytes, |FramesIn(story.log, stream)| + 1, maximum);
        case Finish(_, _) => assert events[1] in story.log + events;
        case Fail(_, _) => assert events[1] in story.log + events;
        case _ =>
      }
    }
  }

  lemma OpeningIsOrdered()
    ensures Ordered(OPENING.log) && FlagsTell(OPENING)
  {
  }

  /** In every run, whatever fails, the stored events stand in order. */
  lemma {:induction false} StoredIsOrdered(first: nat, turns: seq<Turn>, maximum: nat)
    requires maximum > 0
    ensures Ordered(Events(Run(first, turns, maximum).stored))
  {
    hide Ordered, Run, Tell;
    StoredIsPrefix(first, turns, maximum);
    StoryIsOrdered(CallsIn(turns), maximum);
    OrderedPrefix(Events(Run(first, turns, maximum).stored), Tell(CallsIn(turns), maximum).log);
  }

  // ------------------------------------------------------------ frames

  function Joined(frames: seq<Event>): seq<Byte>
    decreases |frames|
  {
    if frames == [] then []
    else Joined(frames[..|frames| - 1]) + if frames[|frames| - 1].Output? then frames[|frames| - 1].bytes else []
  }

  /** All bytes that accepted calls appended to a stream. */
  function Appended(calls: seq<Call>, stream: Stream, maximum: nat): seq<Byte>
    requires maximum > 0
    decreases |calls|
  {
    if calls == [] then []
    else
      var front, c := calls[..|calls| - 1], calls[|calls| - 1];
      Appended(front, stream, maximum)
      + if c.AppendOutput? && c.stream == stream && Accepts(Tell(front, maximum).flags, c) then c.bytes else []
  }

  /** Frames of one stream, numbered from `first`, none empty and none too long. */
  ghost predicate NumberedFrom(frames: seq<Event>, stream: Stream, first: nat, maximum: nat) {
    forall i | 0 <= i < |frames| ::
      && frames[i].Output? && frames[i].stream == stream && frames[i].frameIndex == first + i
      && 0 < |frames[i].bytes| <= maximum
  }

  lemma {:induction false} JoinedJoin(a: seq<Event>, b: seq<Event>)
    ensures Joined(a + b) == Joined(a) + Joined(b)
    decreases |b|
  {
    if b == [] {
      assert a + b == a;
    } else {
      assert (a + b)[..|a + b| - 1] == a + b[..|b| - 1];
      JoinedJoin(a, b[..|b| - 1]);
    }
  }

  lemma JoinedSingle(e: Event)
    requires e.Output?
    ensures Joined([e]) == e.bytes
  {
    assert [e][..0] == [];
  }

  lemma {:induction false} FramesMeaning(stream: Stream, bytes: seq<Byte>, first: nat, maximum: nat)
    requires maximum > 0
    ensures var frames := Frames(stream, bytes, first, maximum);
            NumberedFrom(frames, stream, first, maximum) && Joined(frames) == bytes
    decreases |bytes|
  {
    hide Joined;
    if bytes == [] {
      JoinedNone();
    } else {
      var n := if |bytes| < maximum then |bytes| else maximum;
      JoinedSingle(Output(stream, first, bytes[..n]));
      if |bytes| > maximum {
        FramesMeaning(stream, bytes[maximum..], first + 1, maximum);
        JoinedJoin([Output(stream, first, bytes[..n])], Frames(stream, bytes[maximum..], first + 1, maximum));
      } else {
        assert bytes[..n] == bytes;
      }
    }
  }

  lemma JoinedNone()
    ensures Joined([]) == []
  {
  }

  lemma {:induction false} OnlyFrames(events: seq<Event>, stream: Stream, other: Stream)
    requires forall e | e in events :: e.Output? && e.stream == stream
    ensures FramesIn(events, other) == if other == stream then events else []
    decreases |events|
  {
    if events != [] {
      OnlyFrames(events[..|events| - 1], stream, other);
    }
  }

  lemma {:induction false} StoryFrames(calls: seq<Call>, stream: Stream, maximum: nat)
    requires maximum > 0
    ensures var frames := FramesIn(Tell(calls, maximum).log, stream);
            NumberedFrom(frames, stream, 1, maximum) && Joined(frames) == Appended(calls, stream, maximum)
    decreases |calls|
  {
    hide FramesIn, Joined, Frames, Accepts;
    if calls == [] {
      NoFrames([SessionStarted], stream);
      JoinedNone();
    } else {
      var front, c := calls[..|calls| - 1], calls[|calls| - 1];
      StoryFrames(front, stream, maximum);
      var before := Tell(front, maximum);
      if Accepts(before.flags, c) {
        var events := EventsOf(before.log, OperationOf(c), maximum);
        FramesInJoin(before.log, events, stream);
        JoinedJoin(FramesIn(before.log, stream), FramesIn(events, stream));
        if c.AppendOutput? {
          var first := |FramesIn(before.log, c.stream)| + 1;
          FramesMeaning(c.stream, c.bytes, first, maximum);
          FramesOfOneStream(events, c.stream, first, maximum);
          OnlyFrames(events, c.stream, stream);
        } else {
          NoFrames(events, stream);
        }
        JoinedNone();
      }
    }
  }

  lemma FramesOfOneStream(frames: seq<Event>, stream: Stream, first: nat, maximum: nat)
    requires NumberedFrom(frames, stream, first, maximum)
    ensures forall e | e in frames :: e.Output? && e.stream == stream
  {
  }

  lemma {:induction false} FramesOfPrefix(log: seq<Event>, whole: seq<Event>, stream: Stream)
    requires log <= whole
    ensures FramesIn(log, stream) <= FramesIn(whole, stream)
    ensures Joined(FramesIn(log, stream)) <= Joined(FramesIn(whole, stream))
  {
    assert whole == log + whole[|log|..];
    FramesInJoin(log, whole[|log|..], stream);
    JoinedJoin(FramesIn(log, stream), FramesIn(whole[|log|..], stream));
  }

  /** In every run the stored frames of a stream are numbered from 1 without gaps and join to
      a prefix of the bytes appended. */
  lemma {:induction false} StoredFrames(first: nat, turns: seq<Turn>, stream: Stream, maximum: nat)
    requires maximum > 0
    ensures var frames := FramesIn(Events(Run(first, turns, maximum).stored), stream);
            && NumberedFrom(frames, stream, 1, maximum)
            && Joined(frames) <= Appended(CallsIn(turns), stream, maximum)
  {
    hide Run, Tell, FramesIn, Joined;
    StoredIsPrefix(first, turns, maximum);
    StoryFrames(CallsIn(turns), stream, maximum);
    FramesOfPrefix(Events(Run(first, turns, maximum).stored), Tell(CallsIn(turns), maximum).log, stream);
  }

  // ------------------------------------------------------------ sequence numbers and status

  ghost predicate Increasing(s: State) {
    && (forall i, j | 0 <= i < j < |s.stored| :: s.stored[i].sequence < s.stored[j].sequence)
    && (forall r | r in s.stored :: r.sequence < s.nextSequence)
  }

  lemma WorkIncreases(s: State, maximum: nat)
    requires maximum > 0 && s.queue != [] && Complete(s.frameIndexes) && Increasing(s)
    ensures Increasing(Work(s, maximum))
  {
    match s.queue[0] {
      case WriteFrames(stream, bytes) =>
        var n := if |bytes| < maximum then |bytes| else maximum;
        StoreIncreases(s, [Output(stream, s.frameIndexes[stream] + 1, bytes[..n])], None);
      case WriteEvents(events, status) => StoreIncreases(s, events, status);
    }
  }

  lemma StoreIncreases(s: State, events: seq<Event>, status: Option<Status>)
    requires Increasing(s)
    ensures Increasing(Store(s, events, status))
  {
    var next := Store(s, events, status).stored;
    forall i, j | 0 <= i < j < |next| ensures next[i].sequence < next[j].sequence {
      if i < |s.stored| {
        assert s.stored[i] in s.stored;
      }
    }
  }

  lemma {:induction false} SequencesIncrease(first: nat, turns: seq<Turn>, maximum: nat)
    requires maximum > 0
    ensures Increasing(Run(first, turns, maximum))
    decreases |turns|
  {
    hide Work, Accepts, FlagsAfter, Enqueue;
    if turns != [] {
      var s, t := Run(first, turns[..|turns| - 1], maximum), turns[|turns| - 1];
      SequencesIncrease(first, turns[..|turns| - 1], maximum);
      if t.Working? && !s.broken && s.queue != [] && !t.fails {
        WorkIncreases(s, maximum);
      }
    }
  }

  ghost predicate StatusTells(s: State) {
    && (s.status == Completed <==> exists e | e in Events(s.stored) :: e.SessionEnded?)
    && (s.status == Crashed <==> exists e | e in Events(s.stored) :: e.SessionCrashed?)
  }

  /** The status an operation sets goes with the terminal event it writes. */
  ghost predicate StatusFits(o: Operation) {
    o.WriteEvents? ==>
      && o.status != Some(Active)
      && (o.status == Some(Completed) <==> exists e | e in o.events :: e.SessionEnded?)
      && (o.status == Some(Crashed) <==> exists e | e in o.events :: e.SessionCrashed?)
  }

  lemma OperationStatusFits(c: Call)
    ensures StatusFits(OperationOf(c))
  {
    if c.Finish? {
      assert SessionEnded(c.exitCode, c.signal) in OperationOf(c).events;
    } else if c.Fail? {
      assert SessionCrashed(c.code, Cut(c.message)) in OperationOf(c).events;
    }
  }

  /** An operation with a terminal event finds none stored. */
  lemma FirstTerminal(log: seq<Event>, events: seq<Event>, e: Event, b: Event)
    requires Ordered(log + events) && e in events && Ends(e) && b in log
    ensures !Ends(b)
  {
    hide Fits;
    var i :| 0 <= i < |events| && events[i] == e;
    var all := log + events;
    var k := |log| + i;
    assert Fits(all[..k], all[k]);
    assert all[..k] == log + events[..i];
    FitsAfterNoEnd(all[..k], e, b);
  }

  lemma FitsAfterNoEnd(before: seq<Event>, e: Event, b: Event)
    requires Fits(before, e) && b in before
    ensures !Ends(b)
  {
  }

  lemma StoreTells(s: State, o: Operation)
    requires StatusTells(s) && StatusFits(o) && o.WriteEvents? && Ordered(Events(s.stored) + o.events)
    ensures StatusTells(Store(s, o.events, o.status))
  {
    hide Events, Ordered, Numbered;
    EventsJoin(s.stored, o.events, s.nextSequence);
    forall e, b | e in o.events && Ends(e) && b in Events(s.stored) ensures !Ends(b) {
      FirstTerminal(Events(s.stored), o.events, e, b);
    }
  }

  lemma WorkTells(s: State, story: Story, maximum: nat)
    requires maximum > 0 && Follows(s, story, maximum) && Ordered(story.log) && s.queue != []
    requires StatusTells(s) && StatusFits(s.queue[0])
    ensures StatusTells(Work(s, maximum))
  {
    hide Ordered, StatusFits;
    var log := Events(s.stored);
    match s.queue[0] {
      case WriteFrames(stream, bytes) =>
        var n := if |bytes| < maximum then |bytes| else maximum;
        EventsJoin(s.stored, [Output(stream, s.frameIndexes[stream] + 1, bytes[..n])], s.nextSequence);
      case WriteEvents(events, _) =>
        WorkedOffExtends(log + events, s.queue[1..], maximum);
        OrderedPrefix(log + events, story.log);
        StoreTells(s, s.queue[0]);
    }
  }

  /** The session is completed exactly when `session.ended` is stored, and crashed exactly when
      `session.crashed` is. */
  lemma {:induction false} StatusIsTold(first: nat, turns: seq<Turn>, maximum: nat)
    requires maximum > 0
    ensures var s := Run(first, turns, maximum); StatusTells(s) && forall o | o in s.queue :: StatusFits(o)
    decreases |turns|
  {
    hide StatusTells, StatusFits, Accepts, FlagsAfter, Follows, Ordered, Tell, OperationOf;
    if turns == [] {
      NoStatusYet(first);
    } else {
      var front, t := turns[..|turns| - 1], turns[|turns| - 1];
      var s := Run(first, front, maximum);
      StatusIsTold(first, front, maximum);
      match t {
        case Calling(c) =>
          OperationStatusFits(c);
          SameStored(s, Step(s, t, maximum));
        case Working(fails, _) =>
          if !s.broken && s.queue != [] && !fails {
            RunFollows(first, front, maximum);
            StoryIsOrdered(CallsIn(front), maximum);
            WorkTells(s, Tell(CallsIn(front), maximum), maximum);
            LeftoversFit(s, maximum);
          } else {
            SameStored(s, Step(s, t, maximum));
          }
        case Reserving(_) => SameStored(s, Step(s, t, maximum));
      }
    }
  }

  lemma SameStored(s: State, s': State)
    requires StatusTells(s) && s'.stored == s.stored && s'.status == s.status
    ensures StatusTells(s')
  {
  }

  lemma LeftoversFit(s: State, maximum: nat)
    requires maximum > 0 && s.queue != [] && Complete(s.frameIndexes) && forall o | o in s.queue :: StatusFits(o)
    ensures forall o | o in Work(s, maximum).queue :: StatusFits(o)
  {
  }

  lemma NoStatusYet(first: nat)
    ensures StatusTells(Start(first))
  {
    assert Events(Start(first).stored) == [SessionStarted];
  }

  // ------------------------------------------------------------ the journal itself

  class SessionStore {
    var stored: seq<Record>
    var nextSequence: nat
    var status: Status

    constructor (first: nat)
      ensures stored == [] && nextSequence == first && status == Active
    {
      stored, nextSequence, status := [], first, Active;
    }

    method InsertEvent(event: Event)
      modifies this`stored, this`nextSequence
      ensures stored == old(stored) + Numbered([event], old(nextSequence)) && nextSequence == old(nextSequence) + 1
    {
      stored := stored + [Record(nextSequence, event)];
      nextSequence := nextSequence + 1;
    }
  }

  class RunEventJournal {
    const storage: SessionStore
    const maximum: nat
    var frameIndexes: map<Stream, nat>
    var pending: seq<Operation>
    var rejected: bool
    var pid: Option<int>
    var terminal: bool
    var workspaceBaselineRecorded: bool
    var workspaceFinalRecorded: bool

    ghost function Abstract(): State
      reads this, storage
    {
      State(Flags(pid, terminal, workspaceBaselineRecorded, workspaceFinalRecorded), frameIndexes, pending, rejected,
            storage.stored, storage.nextSequence, storage.status)
    }

    ghost predicate Valid()
      reads this, storage
    {
      maximum > 0 && Complete(frameIndexes)
    }

    constructor (storage: SessionStore, maximum: nat)
      requires maximum > 0 && storage.stored == [] && storage.status == Active
      modifies storage
      ensures this.storage == storage && this.maximum == maximum
      ensures Valid() && Abstract() == Start(old(storage.nextSequence))
    {
      this.storage, this.maximum := storage, maximum;
      frameIndexes, pending, rejected := COUNTERS, [], false;
      pid, terminal, workspaceBaselineRecorded, workspaceFinalRecorded := None, false, false, false;
      new;
      CountersComplete();
      storage.InsertEvent(SessionStarted);
    }

    method RecordStarted(started: int) returns (ok: bool)
      requires Valid()
      modifies this`pid, this`pending
      ensures Valid() && ok == Accepts(old(Abstract().flags), Call.RecordStarted(started))
      ensures Abstract() == Step(old(Abstract()), Calling(Call.RecordStarted(started)), maximum)
    {
      if pid.Some? || terminal || started <= 0 {
        return false;
      }
      pid := Some(started);
      pending := pending + [WriteEvents([ProcessStarted(started)], None)];
      return true;
    }

    method AppendOutput(stream: Stream, bytes: seq<Byte>) returns (ok: bool)
      requires Valid()
      modifies this`pending
      ensures Valid() && ok == Accepts(old(Abstract().flags), Call.AppendOutput(stream, bytes))
      ensures Abstract() == Step(old(Abstract()), Calling(Call.AppendOutput(stream, bytes)), maximum)
    {
      if pid.None? || terminal {
        return false;
      }
      if |bytes| != 0 {
        pending := pending + [WriteFrames(stream, bytes)];
      }
      return true;
    }

    method RecordWorkspaceSnapshot(final: bool, consistent: bool) returns (ok: bool)
      requires Valid()
      modifies this`pending, this`workspaceBaselineRecorded, this`workspaceFinalRecorded
      ensures Valid() && ok == Accepts(old(Abstract().flags), RecordSnapshot(final, consistent))
      ensures Abstract() == Step(old(Abstract()), Calling(RecordSnapshot(final, consistent)), maximum)
    {
      if terminal || !consistent {
        return false;
      }
      if !final {
        if workspaceBaselineRecorded {
          return false;
        }
        workspaceBaselineRecorded := true;
      } else {
        if !workspaceBaselineRecorded || workspaceFinalRecorded {
          return false;
        }
        workspaceFinalRecorded := true;
      }
      pending := pending + [WriteEvents([Snapshot(final)], None)];
      return true;
    }

    method RecordFileChange(change: string, consistent: bool) returns (ok: bool)
      requires Valid()
      modifies this`pending
      ensures Valid() && ok == Accepts(old(Abstract().flags), Call.RecordFileChange(change, consistent))
      ensures Abstract() == Step(old(Abstract()), Calling(Call.RecordFileChange(change, consistent)), maximum)
    {
      if terminal || !workspaceBaselineRecorded || workspaceFinalRecorded || !consistent {
        return false;
      }
      pending := pending + [WriteEvents([FileChange(change)], None)];
      return true;
    }

    method RecordWorkspaceError(message: string) returns (ok: bool)
      requires Valid()
      modifies this`pending
      ensures Valid() && ok == Accepts(old(Abstract().flags), Call.RecordWorkspaceError(message))
      ensures Abstract() == Step(old(Abstract()), Calling(Call.RecordWorkspaceError(message)), maximum)
    {
      if terminal {
        return false;
      }
      pending := pending + [WriteEvents([WorkspaceError(Cut(message))], None)];
      return true;
    }

    method Finish(exitCode: Option<int>, signal: Option<string>) returns (ok: bool)
      requires Valid()
      modifies this`pending, this`terminal
      ensures Valid() && ok == Accepts(old(Abstract().flags), Call.Finish(exitCode, signal))
      ensures Abstract() == Step(old(Abstract()), Calling(Call.Finish(exitCode, signal)), maximum)
    {
      if pid.None? || terminal {
        return false;
      }
      terminal := true;
      if signal == Some("") {
        return false;
      }
      pending := pending + [WriteEvents([ProcessExited(exitCode, signal), SessionEnded(exitCode, signal)], Some(Completed))];
      return true;
    }

    method Fail(code: Option<string>, message: string) returns (ok: bool)
      requires Valid()
      modifies this`pending, this`terminal
      ensures Valid() && ok == Accepts(old(Abstract().flags), Call.Fail(code, message))
      ensures Abstract() == Step(old(Abstract()), Calling(Call.Fail(code, message)), maximum)
    {
      if pid.Some? || terminal {
        return false;
      }
      terminal := true;
      if code == Some("") || message == "" {
        return false;
      }
      pending := pending + [WriteEvents([ProcessError(code, Cut(message)), SessionCrashed(code, Cut(message))], Some(Crashed))];
      return true;
    }

    /** The next piece of work on the chain: one output frame, or one transaction. */
    method WorkNext(fails: bool, burned: nat)
      requires Valid()
      modifies this`pending, this`rejected, this`frameIndexes, storage
      ensures Valid() && Abstract() == Step(old(Abstract()), Working(fails, burned), maximum)
    {
      if rejected || pending == [] {
        return;
      }
      if fails {
        rejected := true;
        storage.nextSequence := storage.nextSequence + burned;
        return;
      }
      match pending[0] {
        case WriteFrames(stream, bytes) =>
          var n := if |bytes| < maximum then |bytes| else maximum;
          frameIndexes := frameIndexes[stream := frameIndexes[stream] + 1];
          storage.InsertEvent(Output(stream, frameIndexes[stream], bytes[..n]));
          pending := (if n == |bytes| then [] else [WriteFrames(stream, bytes[n..])]) + pending[1..];
        case WriteEvents(events, status) =>
          var before := storage.stored;
          var first := storage.nextSequence;
          for i := 0 to |events|
            invariant storage.stored == before + Numbered(events[..i], first)
            invariant storage.nextSequence == first + i
            invariant storage.status == old(storage.status)
            modifies storage`stored, storage`nextSequence
          {
            storage.InsertEvent(events[i]);
            assert events[..i + 1] == events[..i] + [events[i]];
          }
          assert events[..|events|] == events;
          if status.Some? {
            storage.status := status.value;
          }
          pending := pending[1..];
      }
    }
  }
}