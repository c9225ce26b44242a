// What each call on the journal (apps/cli/src/run/run-event-journal.ts) adds to its log, in terms
// of the values given to the call and of the events told before.

module JournalTerms {
  import opened Wrappers
  import opened RunJournal

  /** At most the first 4096 characters. */
  ghost predicate Shortened(message: string, kept: string) {
    if |message| <= 4096 then kept == message else kept == message[..4096]
  }

  ghost predicate Started(log: seq<Event>) {
    exists e | e in log :: e.ProcessStarted?
  }

  predicate IsFrame(e: Event, stream: Stream) {
    e.Output? && e.stream == stream
  }

  /** The number of the next frame follows that of the last one. */
  ghost predicate NextIndex(log: seq<Event>, stream: Stream, index: nat) {
    || (index == 1 && forall e | e in log :: !IsFrame(e, stream))
    || exists i | 0 <= i < |log| ::
         && IsFrame(log[i], stream) && index == log[i].frameIndex + 1
         && forall j | i < j < |log| :: !IsFrame(log[j], stream)
  }

  /** `frames` are the pieces of `bytes`: all but the last are as long as allowed. */
  ghost predicate Pieces(frames: seq<Event>, stream: Stream, bytes: seq<Byte>, first: nat, maximum: nat) {
    && |bytes| <= |frames| * maximum
    && (frames != [] ==> (|frames| - 1) * maximum < |bytes|)
    && forall i | 0 <= i < |frames| ::
         && IsFrame(frames[i], stream) && frames[i].frameIndex == first + i
         && frames[i].bytes == Piece(bytes, i * maximum, maximum)
  }

  function Piece(bytes: seq<Byte>, from: int, maximum: nat): seq<Byte> {
    if 0 <= from <= |bytes| then bytes[from..if from + maximum < |bytes| then from + maximum else |bytes|] else []
  }

  lemma PieceOfRest(bytes: seq<Byte>, from: int, maximum: nat)
    requires 0 <= from && maximum <= |bytes|
    ensures Piece(bytes[maximum..], from, maximum) == Piece(bytes, from + maximum, maximum)
  {
  }

  lemma {:induction false} FramesArePieces(stream: Stream, bytes: seq<Byte>, first: nat, maximum: nat)
    requires maximum > 0
    ensures Pieces(Frames(stream, bytes, first, maximum), stream, bytes, first, maximum)
    decreases |bytes|
  {
    var frames := Frames(stream, bytes, first, maximum);
    if |bytes| > maximum {
      var rest := Frames(stream, bytes[maximum..], first + 1, maximum);
      FramesArePieces(stream, bytes[maximum..], first + 1, maximum);
      assert frames == [Output(stream, first, bytes[..maximum])] + rest;
      PiecesNext(rest, stream, bytes, first, maximum);
    }
  }

  lemma PiecesNext(rest: seq<Event>, stream: Stream, bytes: seq<Byte>, first: nat, maximum: nat)
    requires 0 < maximum < |bytes| && Pieces(rest, stream, bytes[maximum..], first + 1, maximum)
    ensures Pieces([Output(stream, first, bytes[..maximum])] + rest, stream, bytes, first, maximum)
  {
    var frames := [Output(stream, first, bytes[..maximum])] + rest;
    assert |frames| * maximum == |rest| * maximum + maximum;
    assert |rest| > 0;
    assert (|frames| - 1) * maximum == (|rest| - 1) * maximum + maximum;
    forall i | 0 <= i < |frames|
      ensures IsFrame(frames[i], stream) && frames[i].frameIndex == first + i && frames[i].bytes == Piece(bytes, i * maximum, maximum)
    {
      if i > 0 {
        assert (i - 1) * maximum + maximum == i * maximum && (i - 1) * maximum >= 0;
        PieceOfRest(bytes, (i - 1) * maximum, maximum);
      }
    }
  }

  lemma {:induction false} LastFrame(log: seq<Event>, stream: Stream)
    ensures var frames := FramesIn(log, stream);
            if frames == [] then forall e | e in log :: !IsFrame(e, stream)
            else
              exists i | 0 <= i < |log| ::
                log[i] == frames[|frames| - 1] && IsFrame(log[i], stream) && forall j | i < j < |log| :: !IsFrame(log[j], stream)
    decreases |log|
  {
    if log != [] {
      var front, e := log[..|log| - 1], log[|log| - 1];
      assert log == front + [e];
      LastFrame(front, stream);
      if !IsFrame(e, stream) && FramesIn(front, stream) != [] {
        var frames := FramesIn(front, stream);
        var i :| 0 <= i < |front| && front[i] == frames[|frames| - 1] && IsFrame(front[i], stream)
                 && forall j | i < j < |front| :: !IsFrame(front[j], stream);
        assert log[i] == front[i];
        assert FramesIn(log, stream) == frames;
      }
    }
  }

  lemma {:induction false} FirstIndex(log: seq<Event>, stream: Stream, maximum: nat)
    requires NumberedFrom(FramesIn(log, stream), stream, 1, maximum)
    ensures NextIndex(log, stream, |FramesIn(log, stream)| + 1)
  {
    hide FramesIn;
    LastFrame(log, stream);
  }

  // ------------------------------------------------------------ one call

  /** What a call told adds to the log. */
  ghost predicate Adds(log: seq<Event>, open: bool, c: Call, events: seq<Event>, maximum: nat) {
    match c
    case RecordStarted(pid) =>
      events == if open && !Started(log) && pid > 0 then [ProcessStarted(pid)] else []
    case AppendOutput(stream, bytes) =>
      if open && Started(log) then exists first: nat :: NextIndex(log, stream, first) && Pieces(events, stream, bytes, first, maximum)
      else events == []
    case RecordSnapshot(final, consistent) =>
      var baseline, done := Snapshot(false) in log, Snapshot(true) in log;
      events == if open && consistent && (if final then baseline && !done else !baseline) then [Snapshot(final)] else []
    case RecordFileChange(change, consistent) =>
      events == if open && consistent && Snapshot(false) in log && Snapshot(true) !in log then [FileChange(change)] else []
    case RecordWorkspaceError(message) =>
      if open then exists kept :: Shortened(message, kept) && events == [WorkspaceError(kept)] else events == []
    case Finish(exitCode, signal) =>
      events == if open && Started(log) && signal != Some("")
                then [ProcessExited(exitCode, signal), SessionEnded(exitCode, signal)] else []
    case Fail(code, message) =>
      if open && !Started(log) && code != Some("") && message != ""
      then exists kept :: Shortened(message, kept) && events == [ProcessError(code, kept), SessionCrashed(code, kept)]
      else events == []
  }

  lemma CutShortens(message: string)
    ensures Shortened(message, Cut(message))
  {
  }

  lemma EventsInTerms(story: Story, c: Call, maximum: nat)
    requires maximum > 0 && FlagsTell(story)
    requires forall stream :: NumberedFrom(FramesIn(story.log, stream), stream, 1, maximum)
    ensures story.log <= TellNext(story, c, maximum).log
    ensures Adds(story.log, !story.flags.terminal, c, TellNext(story, c, maximum).log[|story.log|..], maximum)
  {
    hide Frames, FramesIn, Cut, Shortened, NumberedFrom, Pieces, NextIndex;
    var log, next := story.log, TellNext(story, c, maximum).log;
    var events := if Accepts(story.flags, c) then EventsOf(log, OperationOf(c), maximum) else [];
    assert next == log + events;
    assert next[|log|..] == events;
    match c {
      case AppendOutput(stream, bytes) =>
        var first := |FramesIn(log, stream)| + 1;
        FirstIndex(log, stream, maximum);
        FramesArePieces(stream, bytes, first, maximum);
      case RecordWorkspaceError(message) => CutShortens(message);
      case Fail(_, message) => CutShortens(message);
      case _ =>
    }
  }

  /** Each call adds to the log what was given to it, when the events told so far let it; and a
      process that has started can be finished once, one that has not can fail once. */
  lemma {:induction false} CallIsTold(calls: seq<Call>, c: Call, maximum: nat)
    requires maximum > 0
    ensures var before, after := Tell(calls, maximum), Tell(calls + [c], maximum);
            && before.log <= after.log
            && Adds(before.log, !before.flags.terminal, c, after.log[|before.log|..], maximum)
            && (after.flags.terminal <==>
                  before.flags.terminal || (c.Finish? && Started(before.log)) || (c.Fail? && !Started(before.log)))
  {
    hide Adds, Tell, Ordered, NumberedFrom, FramesIn, EventsOf;
    var story := Tell(calls, maximum);
    TellLast(calls + [c], maximum);
    assert (calls + [c])[..|calls|] == calls;
    StoryIsOrdered(calls, maximum);
    forall stream ensures NumberedFrom(FramesIn(story.log, stream), stream, 1, maximum) {
      StoryFrames(calls, stream, maximum);
    }
    EventsInTerms(story, c, maximum);
  }

  /** Before any call: the session has started, and the journal is open. */
  lemma {:induction false} OpeningIsTold(maximum: nat)
    requires maximum > 0
    ensures Tell([], maximum).log == [SessionStarted] && !Tell([], maximum).flags.terminal
  {
  }

  // ------------------------------------------------------------ every run

  /** Some call gave what the event says. */
  ghost predicate WasGiven(e: Event, calls: seq<Call>) {
    match e
    case SessionStarted => true
    case ProcessStarted(pid) => RecordStarted(pid) in calls
    case Output(stream, _, bytes) =>
      exists c | c in calls :: c.AppendOutput? && c.stream == stream && exists at, length :: bytes == Piece(c.bytes, at, length)
    case Snapshot(final) => RecordSnapshot(final, true) in calls
    case FileChange(change) => RecordFileChange(change, true) in calls
    case WorkspaceError(kept) => exists c | c in calls :: c.RecordWorkspaceError? && Shortened(c.message, kept)
    case ProcessExited(exitCode, signal) => Finish(exitCode, signal) in calls
    case SessionEnded(exitCode, signal) => Finish(exitCode, signal) in calls
    case ProcessError(code, kept) => exists c | c in calls :: c.Fail? && c.code == code && Shortened(c.message, kept)
    case SessionCrashed(code, kept) => exists c | c in calls :: c.Fail? && c.code == code && Shortened(c.message, kept)
  }

  lemma GivenStays(e: Event, calls: seq<Call>, c: Call)
    requires WasGiven(e, calls)
    ensures WasGiven(e, calls + [c])
  {
    hide Shortened, Piece;
    assert forall x | x in calls :: x in calls + [c];
  }

  lemma AddedWasGiven(log: seq<Event>, open: bool, calls: seq<Call>, c: Call, events: seq<Event>, maximum: nat, e: Event)
    requires maximum > 0 && Adds(log, open, c, events, maximum) && e in events
    ensures WasGiven(e, calls + [c])
  {
    hide Shortened, NextIndex, Pieces, Piece;
    assert c in calls + [c];
    if c.AppendOutput? {
      var first: nat :| NextIndex(log, c.stream, first) && Pieces(events, c.stream, c.bytes, first, maximum);
      var i :| 0 <= i < |events| && events[i] == e;
      FrameOf(events, c.stream, c.bytes, first, maximum, i);
    }
  }

  lemma FrameOf(frames: seq<Event>, stream: Stream, bytes: seq<Byte>, first: nat, maximum: nat, i: nat)
    requires Pieces(frames, stream, bytes, first, maximum) && i < |frames|
    ensures IsFrame(frames[i], stream) && frames[i].bytes == Piece(bytes, i * maximum, maximum)
  {
  }

  lemma {:induction false} ToldWasGiven(calls: seq<Call>, maximum: nat, e: Event)
    requires maximum > 0 && e in Tell(calls, maximum).log
    ensures WasGiven(e, calls)
    decreases |calls|
  {
    hide WasGiven, Tell, Adds;
    if calls == [] {
      OpeningIsTold(maximum);
      OpeningWasGiven();
    } else {
      var front, c := calls[..|calls| - 1], calls[|calls| - 1];
      assert calls == front + [c];
      CallIsTold(front, c, maximum);
      var before, after := Tell(front, maximum).log, Tell(calls, maximum).log;
      assert after == before + after[|before|..];
      if e in before {
        ToldWasGiven(front, maximum, e);
        GivenStays(e, front, c);
      } else {
        AddedWasGiven(before, !Tell(front, maximum).flags.terminal, front, c, after[|before|..], maximum, e);
      }
    }
  }

  lemma OpeningWasGiven()
    ensures WasGiven(SessionStarted, [])
  {
  }

  /** In every run what a stored event says was given to some call: the process number, the exit
      code and signal, the change, and of a message its first 4096 characters. */
  lemma {:induction false} StoredWasGiven(first: nat, turns: seq<Turn>, maximum: nat, e: Event)
    requires maximum > 0 && e in Events(Run(first, turns, maximum).stored)
    ensures WasGiven(e, CallsIn(turns))
  {
    hide WasGiven, Run, Tell;
    StoredIsPrefix(first, turns, maximum);
    ToldWasGiven(CallsIn(turns), maximum, e);
  }
}
