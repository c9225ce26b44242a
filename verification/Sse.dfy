// Incremental decoding of a server-sent event stream (packages/normalizers/src/sse.ts),
// following sections 9.2.5 and 9.2.6 of the WHATWG HTML Living Standard with the
// decoder's own choices: frames without data are kept, and three limits apply.

module SseDecoding {
  import opened Wrappers
  import opened TextLines

  const BOM: char := '\U{FEFF}'
  const MAX_SAFE_INTEGER: nat := 0x1F_FFFF_FFFF_FFFF

  datatype Limits = Limits(buffer: nat, frame: nat, frames: nat) {
    // The constructor refuses any limit below one.
    predicate Valid() {
      buffer >= 1 && frame >= 1 && frames >= 1
    }
  }

  datatype SseError = BufferLimit | FrameLimit | FrameCountLimit | UnsafeRetry | AlreadyFinished

  datatype Frame = Frame(
    index: nat,
    event: Option<string>,
    data: Option<string>,
    id: Option<string>,
    retry: Option<nat>,
    comments: seq<string>,
    unknownFields: seq<(string, string)>,
    raw: string)

  datatype Incomplete = Incomplete(index: nat, raw: string)

  datatype Decoded = Decoded(frames: seq<Frame>, incomplete: Option<Incomplete>)

  // ---------------------------------------------------------------- one frame

  predicate IsDigits(s: string) {
    s != "" && forall k | 0 <= k < |s| :: '0' <= s[k] <= '9'
  }

  function DigitsValue(s: string): nat
    requires forall k | 0 <= k < |s| :: '0' <= s[k] <= '9'
  {
    if s == "" then 0 else 10 * DigitsValue(s[..|s| - 1]) + (s[|s| - 1] - '0') as nat
  }

  predicate HasNul(v: string) {
    '\0' in v
  }

  function NulFree(values: seq<string>): seq<string> {
    if values == [] then []
    else
      var v := values[|values| - 1];
      NulFree(values[..|values| - 1]) + (if HasNul(v) then [] else [v])
  }

  function Retries(values: seq<string>): seq<nat> {
    if values == [] then []
    else
      var v := values[|values| - 1];
      Retries(values[..|values| - 1]) + (if IsDigits(v) then [DigitsValue(v)] else [])
  }

  function Comments(lines: seq<string>): seq<string> {
    if lines == [] then []
    else
      var line := lines[|lines| - 1];
      Comments(lines[..|lines| - 1]) + (if IsComment(line) then [StripSpace(line[1..])] else [])
  }

  predicate IsKnownField(name: string) {
    name == "event" || name == "data" || name == "id" || name == "retry"
  }

  function UnknownFields(lines: seq<string>): seq<(string, string)> {
    if lines == [] then []
    else
      var line := lines[|lines| - 1];
      UnknownFields(lines[..|lines| - 1])
      + (if !IsComment(line) && !IsKnownField(FieldName(line)) then [(FieldName(line), FieldValue(line))] else [])
  }

  function RetryOf(lines: seq<string>): Option<nat> {
    Last(Retries(FieldValues(lines, "retry")))
  }

  function JoinedData(lines: seq<string>): Option<string> {
    var data := FieldValues(lines, "data");
    if data == [] then None else Some(Join(data))
  }

  /** The frame a group of lines stands for: the last event name, the last
      identifier without NUL, the last numeric retry, and all data in order. */
  function FrameOf(index: nat, lines: seq<string>): Frame {
    Frame(
      index,
      Last(FieldValues(lines, "event")),
      JoinedData(lines),
      Last(NulFree(FieldValues(lines, "id"))),
      RetryOf(lines),
      Comments(lines),
      UnknownFields(lines),
      Join(lines) + "\n\n")
  }

  /** The frame schema admits safe integers only, so a larger retry is refused. */
  predicate RetryIsSafe(lines: seq<string>) {
    match RetryOf(lines)
    case None => true
    case Some(n) => n <= MAX_SAFE_INTEGER
  }

  // ------------------------------------------------------- the one-shot reading

  function StripBom(text: string): string {
    if text != "" && text[0] == BOM then text[1..] else text
  }

  datatype Grouped = Grouped(groups: seq<seq<string>>, open: seq<string>)

  /** Runs of non-blank lines, each closed by a blank line; `open` continues a run. */
  function Group(open: seq<string>, lines: seq<string>): Grouped
    decreases |lines|
  {
    if lines == [] then Grouped([], open)
    else if lines[0] != "" then Group(open + [lines[0]], lines[1..])
    else
      var g := Group([], lines[1..]);
      Grouped((if open == [] then [] else [open]) + g.groups, g.open)
  }

  function FramesFrom(first: nat, groups: seq<seq<string>>): (fs: seq<Frame>)
    ensures |fs| == |groups|
    ensures forall k | 0 <= k < |fs| :: fs[k] == FrameOf(first + k, groups[k])
    decreases |groups|
  {
    if groups == [] then []
    else [FrameOf(first, groups[0])] + FramesFrom(first + 1, groups[1..])
  }

  /** A final line without line end still belongs to the open group. */
  function AllLines(text: string): seq<string> {
    var c := CutLines(text, true);
    c.lines + (if c.rest == "" then [] else [c.rest])
  }

  /** What the whole text means, read at once. */
  function OneShot(text: string): Decoded {
    var g := Group([], AllLines(StripBom(text)));
    Decoded(
      FramesFrom(1, g.groups),
      if g.open == [] then None else Some(Incomplete(|g.groups| + 1, Join(g.open))))
  }

  /** Characters a group counts against the frame limit: one extra for each line. */
  function Size(lines: seq<string>): nat {
    if lines == [] then 0 else Size(lines[..|lines| - 1]) + |lines[|lines| - 1]| + 1
  }

  /** The frame limits, which look only at the text and never at how it was cut. */
  ghost predicate FramesFit(l: Limits, g: Grouped) {
    && (forall k | 0 <= k < |g.groups| :: Size(g.groups[k]) <= l.frame && RetryIsSafe(g.groups[k]))
    && Size(g.open) <= l.frame
    && |g.groups| <= l.frames
  }

  ghost predicate TextFits(l: Limits, text: string) {
    FramesFit(l, Group([], AllLines(StripBom(text))))
  }

  /** Text still held back after `read` was drained. */
  function Held(read: string): string {
    CutLines(StripBom(read), false).rest
  }

  /** The buffer limit is checked after each chunk is appended and before it is drained. */
  ghost predicate BufferFits(l: Limits, chunks: seq<string>) {
    forall k | 0 <= k < |chunks| :: StepFits(l, Concat(chunks[..k]), chunks[k])
  }

  predicate StepFits(l: Limits, read: string, chunk: string) {
    |Held(read)| + |StripBom(read + chunk)| - |StripBom(read)| <= l.buffer
  }

  // ------------------------------------------------------------ the state machine

  /** The group being collected: `frameLines`, `frameCharacters` and `emittedFrames`. */
  datatype Assembly = Assembly(lines: seq<string>, characters: nat, emitted: nat)

  datatype State = State(buffer: string, assembly: Assembly, finished: bool, atStart: bool)

  const NO_LINES := Assembly([], 0, 0)
  const UNREAD := State("", NO_LINES, false, true)

  /** What a call leaves behind and what it returns or throws. */
  datatype Outcome<S, T> = Outcome(state: S, result: Result<T, SseError>)

  function After<S>(frames: seq<Frame>, next: Outcome<S, seq<Frame>>): Outcome<S, seq<Frame>> {
    Outcome(next.state, if next.result.Ok? then Ok(frames + next.result.value) else next.result)
  }

  function Accept(l: Limits, a: Assembly, line: string): Outcome<Assembly, seq<Frame>> {
    var a1 := a.(characters := a.characters + |line| + 1);
    if a1.characters > l.frame then Outcome(a1, Err(FrameLimit))
    else Outcome(a1.(lines := a.lines + [line]), Ok([]))
  }

  function Dispatch(l: Limits, a: Assembly): Outcome<Assembly, seq<Frame>> {
    if a.lines == [] then Outcome(a, Ok([]))
    else if a.emitted >= l.frames then Outcome(a, Err(FrameCountLimit))
    else if !RetryIsSafe(a.lines) then Outcome(a.(emitted := a.emitted + 1), Err(UnsafeRetry))
    else Outcome(Assembly([], 0, a.emitted + 1), Ok([FrameOf(a.emitted + 1, a.lines)]))
  }

  function TakeLine(l: Limits, a: Assembly, line: string): Outcome<Assembly, seq<Frame>> {
    if line == "" then Dispatch(l, a) else Accept(l, a, line)
  }

  function TakeLines(l: Limits, a: Assembly, lines: seq<string>): Outcome<Assembly, seq<Frame>>
    decreases |lines|, 0
  {
    if lines == [] then Outcome(a, Ok([])) else Resume(l, TakeLine(l, a, lines[0]), lines[1..])
  }

  /** Goes on with `lines` unless an error was already thrown. */
  function Resume(l: Limits, t: Outcome<Assembly, seq<Frame>>, lines: seq<string>): Outcome<Assembly, seq<Frame>>
    decreases |lines|, 1
  {
    if t.result.Ok? then After(t.result.value, TakeLines(l, t.state, lines)) else t
  }

  function Append(l: Limits, s: State, value: string): Outcome<State, ()> {
    var kept := if s.atStart then StripBom(value) else value;
    var s1 := s.(buffer := s.buffer + kept, atStart := s.atStart && value == "");
    Outcome(s1, if |s1.buffer| > l.buffer then Err(BufferLimit) else Ok(()))
  }

  /** Takes the first line out of the buffer. */
  function TakeFirst(l: Limits, s: State): (t: Outcome<State, seq<Frame>>)
    requires BreakAt(s.buffer) < |s.buffer|
    ensures |t.state.buffer| < |s.buffer|
  {
    var i := BreakAt(s.buffer);
    var t := TakeLine(l, s.assembly, s.buffer[..i]);
    Outcome(s.(buffer := s.buffer[i + BreakWidth(s.buffer, i)..], assembly := t.state), t.result)
  }

  function Drain(l: Limits, s: State, final: bool): Outcome<State, seq<Frame>>
    decreases |s.buffer|
  {
    var i := BreakAt(s.buffer);
    if Undecided(s.buffer, i, final) then
      if final && s.buffer != "" then
        var t := Accept(l, s.assembly, s.buffer);
        Outcome(State(if t.result.Ok? then "" else s.buffer, t.state, s.finished, s.atStart), t.result)
      else Outcome(s, Ok([]))
    else
      var t := TakeFirst(l, s);
      if t.result.Ok? then After(t.result.value, Drain(l, t.state, final)) else t
  }

  function PushChunk(l: Limits, s: State, chunk: string): Outcome<State, seq<Frame>> {
    if s.finished then Outcome(s, Err(AlreadyFinished))
    else
      var a := Append(l, s, chunk);
      if a.result.Ok? then Drain(l, a.state, false) else Outcome(a.state, Err(a.result.error))
  }

  /** The fatal text decoder has nothing to flush, so no text is appended at the end. */
  function FinishStream(l: Limits, s: State): Outcome<State, Decoded> {
    if s.finished then Outcome(s, Err(AlreadyFinished))
    else
      var a := Append(l, s.(finished := true), "");
      if a.result.Err? then Outcome(a.state, Err(a.result.error))
      else
        var d := Drain(l, a.state, true);
        if d.result.Err? then Outcome(d.state, Err(d.result.error))
        else
          var raw := Join(d.state.assembly.lines);
          var emitted := d.state.assembly.emitted;
          Outcome(
            d.state.(assembly := Assembly([], 0, emitted)),
            Ok(Decoded(d.result.value, if raw == "" then None else Some(Incomplete(emitted + 1, raw)))))
  }

  function PushAll(l: Limits, chunks: seq<string>): Outcome<State, seq<Frame>>
    decreases |chunks|
  {
    if chunks == [] then Outcome(UNREAD, Ok([]))
    else
      var p := PushAll(l, chunks[..|chunks| - 1]);
      if p.result.Ok? then After(p.result.value, PushChunk(l, p.state, chunks[|chunks| - 1])) else p
  }

  function Decode(l: Limits, chunks: seq<string>): Result<Decoded, SseError> {
    var p := PushAll(l, chunks);
    if p.result.Err? then Err(p.result.error)
    else
      var f := FinishStream(l, p.state).result;
      if f.Err? then f else Ok(f.value.(frames := p.result.value + f.value.frames))
  }

  // ------------------------------------------------- the machine reads lines

  lemma {:induction false} TakeLinesSplit(l: Limits, a: Assembly, x: seq<string>, y: seq<string>)
    ensures TakeLines(l, a, x + y) == Resume(l, TakeLines(l, a, x), y)
    decreases |x|, 0
  {
    if x == [] {
      assert x + y == y;
      AfterNothing(TakeLines(l, a, y));
    } else {
      assert (x + y)[1..] == x[1..] + y;
      ResumeSplit(l, TakeLine(l, a, x[0]), x[1..], y);
    }
  }

  lemma AfterNothing<S>(t: Outcome<S, seq<Frame>>)
    ensures After([], t) == t
  {
    if t.result.Ok? {
      assert [] + t.result.value == t.result.value;
    }
  }

  lemma AfterAfter<S>(x: seq<Frame>, y: seq<Frame>, t: Outcome<S, seq<Frame>>)
    ensures After(x, After(y, t)) == After(x + y, t)
  {
    if t.result.Ok? {
      assert x + (y + t.result.value) == (x + y) + t.result.value;
    }
  }

  lemma {:induction false} ResumeSplit(l: Limits, t: Outcome<Assembly, seq<Frame>>, x: seq<string>, y: seq<string>)
    ensures Resume(l, t, x + y) == Resume(l, Resume(l, t, x), y)
    decreases |x|, 1
  {
    if t.result.Ok? {
      TakeLinesSplit(l, t.state, x, y);
      var u := TakeLines(l, t.state, x);
      if u.result.Ok? {
        AfterAfter(t.result.value, u.result.value, TakeLines(l, u.state, y));
      }
    }
  }

  /** The lines a drain takes out of the buffer. */
  function DrainedLines(buffer: string, final: bool): seq<string> {
    var c := CutLines(buffer, final);
    c.lines + (if final && c.rest != "" then [c.rest] else [])
  }

  lemma DrainedLinesStep(buffer: string, final: bool)
    requires !Undecided(buffer, BreakAt(buffer), final)
    ensures var i := BreakAt(buffer);
            var rest := buffer[i + BreakWidth(buffer, i)..];
            && DrainedLines(buffer, final) == [buffer[..i]] + DrainedLines(rest, final)
            && CutLines(buffer, final).rest == CutLines(rest, final).rest
  {
    var i := BreakAt(buffer);
    var c := CutLines(buffer[i + BreakWidth(buffer, i)..], final);
    var tail := if final && c.rest != "" then [c.rest] else [];
    assert ([buffer[..i]] + c.lines) + tail == [buffer[..i]] + (c.lines + tail);
  }

  /** Draining `s` takes `lines` and leaves `rest` in the buffer. */
  ghost predicate DrainTakes(l: Limits, s: State, final: bool, lines: seq<string>, rest: string) {
    var t := TakeLines(l, s.assembly, lines);
    && Drain(l, s, final).result == t.result
    && (t.result.Ok? ==> Drain(l, s, final).state == s.(buffer := rest, assembly := t.state))
  }

  lemma {:induction false} TakeLinesFirst(l: Limits, a: Assembly, line: string, lines: seq<string>)
    ensures TakeLines(l, a, [line] + lines) == Resume(l, TakeLine(l, a, line), lines)
  {
    assert ([line] + lines)[1..] == lines;
  }

  lemma DrainTakesFirst(l: Limits, s: State, final: bool, lines: seq<string>, rest: string)
    requires !Undecided(s.buffer, BreakAt(s.buffer), final)
    requires var i := BreakAt(s.buffer);
             var t := TakeLine(l, s.assembly, s.buffer[..i]);
             DrainTakes(l, s.(buffer := s.buffer[i + BreakWidth(s.buffer, i)..], assembly := t.state), final, lines, rest)
    ensures DrainTakes(l, s, final, [s.buffer[..BreakAt(s.buffer)]] + lines, rest)
  {
    hide TakeLines, TakeLine;
    TakeLinesFirst(l, s.assembly, s.buffer[..BreakAt(s.buffer)], lines);
  }

  lemma DrainTail(l: Limits, s: State)
    requires BreakAt(s.buffer) == |s.buffer| && s.buffer != ""
    ensures DrainedLines(s.buffer, true) == [s.buffer]
    ensures DrainTakes(l, s, true, [s.buffer], "")
  {
    TakeLinesFirst(l, s.assembly, s.buffer, []);
    assert [s.buffer] + [] == [s.buffer];
    var t := Accept(l, s.assembly, s.buffer);
    if t.result.Ok? {
      assert t.result.value + [] == t.result.value;
    }
  }

  lemma {:induction false} DrainNothing(l: Limits, s: State, final: bool)
    requires Undecided(s.buffer, BreakAt(s.buffer), final) && (final ==> s.buffer == "")
    ensures DrainedLines(s.buffer, final) == [] && CutLines(s.buffer, final).rest == s.buffer
    ensures DrainTakes(l, s, final, [], s.buffer)
  {
  }

  /** Draining takes exactly the lines the buffer can be cut into. */
  lemma {:induction false} DrainTakesLines(l: Limits, s: State, final: bool)
    ensures DrainTakes(l, s, final, DrainedLines(s.buffer, final), if final then "" else CutLines(s.buffer, false).rest)
    decreases |s.buffer|
  {
    hide DrainTakes, DrainedLines, CutLines, TakeLine, BreakAt;
    var i := BreakAt(s.buffer);
    if Undecided(s.buffer, i, final) {
      if final && s.buffer != "" {
        DrainTail(l, s);
      } else {
        DrainNothing(l, s, final);
      }
    } else {
      var s1 := s.(buffer := s.buffer[i + BreakWidth(s.buffer, i)..], assembly := TakeLine(l, s.assembly, s.buffer[..i]).state);
      DrainTakesLines(l, s1, final);
      DrainedLinesStep(s.buffer, final);
      DrainTakesFirst(l, s, final, DrainedLines(s1.buffer, final), if final then "" else CutLines(s1.buffer, false).rest);
    }
  }

  /** Everything a reader that saw exactly `read` has taken so far. */
  function Seen(l: Limits, read: string): Outcome<Assembly, seq<Frame>> {
    TakeLines(l, NO_LINES, CutLines(StripBom(read), false).lines)
  }

  function Kept(read: string, chunk: string): string {
    if read == "" then StripBom(chunk) else chunk
  }

  lemma {:induction false} SeenGrows(l: Limits, read: string, chunk: string)
    ensures StripBom(read + chunk) == StripBom(read) + Kept(read, chunk)
    ensures var t, c := Seen(l, read), CutLines(Held(read) + Kept(read, chunk), false);
            && Held(read + chunk) == c.rest
            && Seen(l, read + chunk) == Resume(l, t, c.lines)
  {
    assert StripBom(read + chunk) == StripBom(read) + Kept(read, chunk) by {
      if read == "" {
        assert read + chunk == chunk;
      } else {
        assert (read + chunk)[0] == read[0];
      }
    }
    CutLinesIncremental(StripBom(read), Kept(read, chunk), false);
    TakeLinesSplit(l, NO_LINES, CutLines(StripBom(read), false).lines, CutLines(Held(read) + Kept(read, chunk), false).lines);
  }

  ghost predicate ReadExactly(l: Limits, s: State, read: string) {
    s == State(Held(read), Seen(l, read).state, false, read == "")
  }

  lemma {:induction false} BufferFitsStepwise(l: Limits, before: seq<string>, chunk: string)
    ensures BufferFits(l, before + [chunk]) <==> BufferFits(l, before) && StepFits(l, Concat(before), chunk)
  {
    var chunks := before + [chunk];
    assert chunks[..|before|] == before && chunks[|before|] == chunk;
    forall k | 0 <= k < |before|
      ensures chunks[..k] == before[..k] && chunks[k] == before[k]
    {
    }
  }

  lemma PushReads(l: Limits, s: State, read: string, chunk: string)
    requires Seen(l, read).result.Ok? && ReadExactly(l, s, read)
    ensures !StepFits(l, read, chunk) ==> PushChunk(l, s, chunk).result == Err(BufferLimit)
    ensures StepFits(l, read, chunk) ==>
              var p := After(Seen(l, read).result.value, PushChunk(l, s, chunk));
              p.result == Seen(l, read + chunk).result && (p.result.Ok? ==> ReadExactly(l, p.state, read + chunk))
  {
    hide Seen, Drain, TakeLines, CutLines, Held;
    SeenGrows(l, read, chunk);
    var a := Append(l, s, chunk);
    assert a.state.buffer == Held(read) + Kept(read, chunk);
    DrainTakesLines(l, a.state, false);
    assert DrainedLines(a.state.buffer, false) == CutLines(a.state.buffer, false).lines;
  }

  lemma {:induction false} PushAllReads(l: Limits, chunks: seq<string>)
    ensures BufferFits(l, chunks) ==>
              var p := PushAll(l, chunks);
              && p.result == Seen(l, Concat(chunks)).result
              && (p.result.Ok? ==> ReadExactly(l, p.state, Concat(chunks)))
    ensures !BufferFits(l, chunks) ==> PushAll(l, chunks).result.Err?
    decreases |chunks|
  {
    if chunks != [] {
      var before, chunk := chunks[..|chunks| - 1], chunks[|chunks| - 1];
      assert chunks == before + [chunk];
      BufferFitsStepwise(l, before, chunk);
      PushAllReads(l, before);
      if BufferFits(l, before) {
        SeenGrows(l, Concat(before), chunk);
        if Seen(l, Concat(before)).result.Ok? {
          PushReads(l, PushAll(l, before).state, Concat(before), chunk);
        }
      }
    }
  }

  lemma {:induction false} HeldFits(l: Limits, chunks: seq<string>)
    requires BufferFits(l, chunks)
    ensures |Held(Concat(chunks))| <= l.buffer
  {
    hide BufferFits, Held;
    if chunks == [] {
      HeldNothing();
    } else {
      var before, chunk := chunks[..|chunks| - 1], chunks[|chunks| - 1];
      assert chunks == before + [chunk];
      HeldFitsStep(l, before, chunk);
    }
  }

  lemma HeldNothing()
    ensures Held("") == ""
  {
  }

  lemma {:induction false} HeldFitsStep(l: Limits, before: seq<string>, chunk: string)
    requires BufferFits(l, before + [chunk])
    ensures |Held(Concat(before) + chunk)| <= l.buffer
  {
    hide BufferFits, CutLines, Held, Seen, Resume, Concat;
    BufferFitsStepwise(l, before, chunk);
    SeenGrows(l, Concat(before), chunk);
  }

  /** The result of one pass of the line machine over the whole text. */
  function Read(l: Limits, text: string): Result<Decoded, SseError> {
    var t := TakeLines(l, NO_LINES, AllLines(StripBom(text)));
    if t.result.Err? then Err(t.result.error)
    else
      var raw := Join(t.state.lines);
      Ok(Decoded(t.result.value, if raw == "" then None else Some(Incomplete(t.state.emitted + 1, raw))))
  }

  lemma {:induction false} AllLinesFromHeld(text: string)
    ensures AllLines(text) == CutLines(text, false).lines + DrainedLines(CutLines(text, false).rest, true)
  {
    hide CutLines;
    CutLinesIncremental(text, "", true);
    assert text + "" == text;
    var c := CutLines(text, false);
    assert c.rest + "" == c.rest;
    var d := CutLines(c.rest, true);
    var tail := if d.rest == "" then [] else [d.rest];
    assert (c.lines + d.lines) + tail == c.lines + (d.lines + tail);
  }

  lemma FinishReads(l: Limits, s: State, read: string)
    requires Seen(l, read).result.Ok? && ReadExactly(l, s, read)
    requires |Held(read)| <= l.buffer
    ensures var f := FinishStream(l, s).result;
            Read(l, read) == if f.Err? then f else Ok(f.value.(frames := Seen(l, read).result.value + f.value.frames))
  {
    hide Drain, TakeLines, CutLines, AllLines, DrainedLines, Join;
    AllLinesFromHeld(StripBom(read));
    TakeLinesSplit(l, NO_LINES, CutLines(StripBom(read), false).lines, DrainedLines(Held(read), true));
    var a := Append(l, s.(finished := true), "");
    assert a.state.buffer == Held(read);
    DrainTakesLines(l, a.state, true);
  }

  /** How the text was cut into chunks matters to the buffer limit only. */
  lemma {:induction false} DecodeIsRead(l: Limits, chunks: seq<string>)
    ensures BufferFits(l, chunks) ==> Decode(l, chunks) == Read(l, Concat(chunks))
    ensures !BufferFits(l, chunks) ==> Decode(l, chunks).Err?
  {
    hide TakeLines, CutLines, AllLines, DrainedLines, Join, FinishStream, PushAll;
    PushAllReads(l, chunks);
    if BufferFits(l, chunks) {
      HeldFits(l, chunks);
      var text := Concat(chunks);
      if Seen(l, text).result.Ok? {
        FinishReads(l, PushAll(l, chunks).state, text);
      } else {
        AllLinesFromHeld(StripBom(text));
        TakeLinesSplit(l, NO_LINES, CutLines(StripBom(text), false).lines, DrainedLines(Held(text), true));
      }
    }
  }

  // ------------------------------------------------- the line machine groups lines

  lemma {:induction false} SizeMonotonic(lines: seq<string>, k: nat)
    requires k <= |lines|
    ensures Size(lines[..k]) <= Size(lines)
    decreases |lines|
  {
    if k == |lines| {
      assert lines[..k] == lines;
    } else {
      assert lines[..|lines| - 1][..k] == lines[..k];
      SizeMonotonic(lines[..|lines| - 1], k);
    }
  }

  predicate NoBlank(lines: seq<string>) {
    forall k | 0 <= k < |lines| :: lines[k] != ""
  }

  /** The first group to be closed, or the one left open, starts with `open`. */
  lemma {:induction false} GroupKeepsOpen(open: seq<string>, lines: seq<string>)
    requires NoBlank(open)
    ensures var g := Group(open, lines);
            && NoBlank(g.open)
            && (open != [] ==> open <= if g.groups == [] then g.open else g.groups[0])
    decreases |lines|
  {
    if lines != [] {
      if lines[0] != "" {
        GroupKeepsOpen(open + [lines[0]], lines[1..]);
      } else {
        GroupKeepsOpen([], lines[1..]);
      }
    }
  }

  lemma {:induction false} OpenFits(l: Limits, open: seq<string>, lines: seq<string>)
    requires NoBlank(open) && open != [] && FramesFit(l, Group(open, lines))
    ensures Size(open) <= l.frame
  {
    hide Group, Size;
    GroupKeepsOpen(open, lines);
    var g := Group(open, lines);
    var whole := if g.groups == [] then g.open else g.groups[0];
    assert whole[..|open|] == open;
    SizeMonotonic(whole, |open|);
  }

  ghost predicate Collecting(l: Limits, a: Assembly) {
    a.characters == Size(a.lines) <= l.frame && NoBlank(a.lines) && a.emitted <= l.frames
  }

  /** Limits left for an assembly that already emitted some frames. */
  function Left(l: Limits, a: Assembly): Limits
    requires a.emitted <= l.frames
  {
    l.(frames := l.frames - a.emitted)
  }

  /** `t` is what grouping as `g` gives: an error exactly when a limit is exceeded. */
  ghost predicate Groups(l: Limits, a: Assembly, g: Grouped, t: Outcome<Assembly, seq<Frame>>)
    requires a.emitted <= l.frames
  {
    && (t.result.Ok? <==> FramesFit(Left(l, a), g))
    && (t.result.Ok? ==>
          && t.result.value == FramesFrom(a.emitted + 1, g.groups)
          && t.state == Assembly(g.open, Size(g.open), a.emitted + |g.groups|))
  }

  lemma {:induction false} TakeLinesGroups(l: Limits, a: Assembly, lines: seq<string>)
    requires Collecting(l, a)
    ensures Groups(l, a, Group(a.lines, lines), TakeLines(l, a, lines))
    decreases |lines|, 0
  {
    hide FrameOf, RetryIsSafe, Size;
    if lines == [] {
    } else if lines[0] == "" {
      if a.lines == [] {
        var groups := Group([], lines[1..]).groups;
        assert [] + groups == groups;
        TakeLinesGroups(l, a, lines[1..]);
        AfterNothing(TakeLines(l, a, lines[1..]));
      } else {
        DispatchGroups(l, a, lines[1..]);
      }
    } else {
      AcceptGroups(l, a, lines[0], lines[1..]);
    }
  }

  lemma {:induction false} AcceptGroups(l: Limits, a: Assembly, line: string, rest: seq<string>)
    requires Collecting(l, a) && line != ""
    ensures Groups(l, a, Group(a.lines + [line], rest), Resume(l, Accept(l, a, line), rest))
    decreases |rest|, 1
  {
    hide Group, TakeLines, FramesFit, FramesFrom, Size;
    var a1 := Assembly(a.lines + [line], a.characters + |line| + 1, a.emitted);
    SizeNext(a.lines, line);
    if a1.characters > l.frame {
      if FramesFit(Left(l, a), Group(a1.lines, rest)) {
        OpenFits(Left(l, a), a1.lines, rest);
      }
    } else {
      TakeLinesGroups(l, a1, rest);
      AcceptedLine(l, a, line, rest);
    }
  }

  lemma {:induction false} AcceptedLine(l: Limits, a: Assembly, line: string, rest: seq<string>)
    requires a.characters + |line| + 1 <= l.frame
    ensures Resume(l, Accept(l, a, line), rest) == TakeLines(l, Assembly(a.lines + [line], a.characters + |line| + 1, a.emitted), rest)
  {
    hide TakeLines;
    AfterNothing(TakeLines(l, Assembly(a.lines + [line], a.characters + |line| + 1, a.emitted), rest));
  }

  lemma {:induction false} DispatchGroups(l: Limits, a: Assembly, rest: seq<string>)
    requires Collecting(l, a) && a.lines != []
    ensures var g := Group([], rest);
            Groups(l, a, Grouped([a.lines] + g.groups, g.open), Resume(l, Dispatch(l, a), rest))
    decreases |rest|, 1
  {
    hide Group, FrameOf, TakeLines, RetryIsSafe, Size, FramesFit, FramesFrom, Groups;
    var g := Group([], rest);
    if a.emitted < l.frames && RetryIsSafe(a.lines) {
      var a1 := Assembly([], 0, a.emitted + 1);
      NothingCollected(l, a);
      TakeLinesGroups(l, a1, rest);
      DispatchedGroups(l, a, g, TakeLines(l, a1, rest));
    } else {
      RefusedGroups(l, a, g, Dispatch(l, a));
    }
  }

  lemma NothingCollected(l: Limits, a: Assembly)
    requires Collecting(l, a) && a.emitted < l.frames
    ensures Collecting(l, Assembly([], 0, a.emitted + 1))
  {
  }

  lemma RefusedGroups(l: Limits, a: Assembly, g: Grouped, t: Outcome<Assembly, seq<Frame>>)
    requires Collecting(l, a) && (a.emitted >= l.frames || !RetryIsSafe(a.lines)) && t.result.Err?
    ensures Groups(l, a, Grouped([a.lines] + g.groups, g.open), t)
  {
    hide RetryIsSafe, Size;
    assert ([a.lines] + g.groups)[0] == a.lines;
  }

  lemma DispatchedGroups(l: Limits, a: Assembly, g: Grouped, t: Outcome<Assembly, seq<Frame>>)
    requires Collecting(l, a) && a.emitted < l.frames && RetryIsSafe(a.lines) && Groups(l, Assembly([], 0, a.emitted + 1), g, t)
    ensures Groups(l, a, Grouped([a.lines] + g.groups, g.open), After([FrameOf(a.emitted + 1, a.lines)], t))
  {
    hide FrameOf, RetryIsSafe, Size, FramesFit, FramesFrom;
    FitsFirst(Left(l, a), a.lines, g);
    FramesFirst(a.emitted + 1, a.lines, g.groups);
  }

  lemma {:induction false} FramesFirst(first: nat, lines: seq<string>, groups: seq<seq<string>>)
    ensures FramesFrom(first, [lines] + groups) == [FrameOf(first, lines)] + FramesFrom(first + 1, groups)
  {
    hide FrameOf;
    assert ([lines] + groups)[1..] == groups;
  }

  lemma {:induction false} FitsFirst(l: Limits, first: seq<string>, g: Grouped)
    requires l.frames > 0 && Size(first) <= l.frame && RetryIsSafe(first)
    ensures FramesFit(l, Grouped([first] + g.groups, g.open)) <==> FramesFit(l.(frames := l.frames - 1), g)
  {
    hide Size, RetryIsSafe;
    var all := [first] + g.groups;
    assert all[1..] == g.groups;
    if FramesFit(l, Grouped(all, g.open)) {
      forall k | 0 <= k < |g.groups| ensures Size(g.groups[k]) <= l.frame && RetryIsSafe(g.groups[k]) {
        assert g.groups[k] == all[k + 1];
      }
    }
  }

  /** The decoder refines the one-shot reading: it fails exactly when a limit is
      exceeded, and otherwise yields the frames and the incomplete tail of the whole text. */
  lemma {:induction false} DecodeMeaning(l: Limits, chunks: seq<string>)
    requires l.Valid()
    ensures var text := Concat(chunks);
            && (Decode(l, chunks).Ok? <==> BufferFits(l, chunks) && TextFits(l, text))
            && (Decode(l, chunks).Ok? ==> Decode(l, chunks).value == OneShot(text))
  {
    hide Decode, BufferFits, Concat;
    DecodeIsRead(l, chunks);
    ReadMeaning(l, Concat(chunks));
  }

  lemma ReadMeaning(l: Limits, text: string)
    requires l.Valid()
    ensures Read(l, text).Ok? <==> TextFits(l, text)
    ensures Read(l, text).Ok? ==> Read(l, text).value == OneShot(text)
  {
    hide TakeLines, AllLines, Join, FramesFrom, Group, Size;
    var lines := AllLines(StripBom(text));
    SizeOfNothing();
    TakeLinesGroups(l, NO_LINES, lines);
    GroupKeepsOpen([], lines);
    var open := Group([], lines).open;
    if open == [] {
      JoinNothing();
    } else {
      JoinNonEmpty(open);
    }
  }

  lemma SizeOfNothing()
    ensures Size([]) == 0
  {
  }

  lemma JoinNothing()
    ensures Join([]) == ""
  {
  }

  // ------------------------------------------------------------ other cuttings

  /** Two ways of cutting one text that stay within the buffer give the same result,
      the same error included. */
  lemma {:induction false} ChunkIndependence(l: Limits, chunks: seq<string>, chunks': seq<string>)
    requires Concat(chunks) == Concat(chunks')
    requires BufferFits(l, chunks) && BufferFits(l, chunks')
    ensures Decode(l, chunks) == Decode(l, chunks')
  {
    hide Decode, Read, Concat;
    DecodeIsRead(l, chunks);
    DecodeIsRead(l, chunks');
  }

  function Flatten(parts: seq<seq<string>>): seq<string> {
    if parts == [] then [] else Flatten(parts[..|parts| - 1]) + parts[|parts| - 1]
  }

  /** The coarser chunks that `parts` cuts further. */
  function Coarse(parts: seq<seq<string>>): seq<string> {
    if parts == [] then [] else Coarse(parts[..|parts| - 1]) + [Concat(parts[|parts| - 1])]
  }

  lemma StepFitsPiecewise(l: Limits, read: string, chunk: string, more: string)
    requires StepFits(l, read, chunk + more)
    ensures StepFits(l, read, chunk) && StepFits(l, read + chunk, more)
  {
    hide CutLines, Held, Seen, Resume;
    SeenGrows(l, read, chunk);
    assert read + (chunk + more) == (read + chunk) + more;
  }

  lemma {:induction false} CutFits(l: Limits, before: seq<string>, pieces: seq<string>)
    requires BufferFits(l, before) && StepFits(l, Concat(before), Concat(pieces))
    ensures BufferFits(l, before + pieces)
    decreases |pieces|
  {
    hide BufferFits, StepFits;
    if pieces == [] {
      assert before + pieces == before;
    } else {
      var front, last := pieces[..|pieces| - 1], pieces[|pieces| - 1];
      StepFitsPiecewise(l, Concat(before), Concat(front), last);
      CutFits(l, before, front);
      ConcatSplit(before, front);
      BufferFitsStepwise(l, before + front, last);
      assert before + pieces == (before + front) + [last];
    }
  }

  lemma {:induction false} FineCuttingFits(l: Limits, parts: seq<seq<string>>)
    ensures Concat(Flatten(parts)) == Concat(Coarse(parts))
    ensures BufferFits(l, Coarse(parts)) ==> BufferFits(l, Flatten(parts))
    decreases |parts|
  {
    hide BufferFits, StepFits;
    if parts != [] {
      var front, last := parts[..|parts| - 1], parts[|parts| - 1];
      FineCuttingFits(l, front);
      ConcatSplit(Flatten(front), last);
      ConcatSplit(Coarse(front), [Concat(last)]);
      assert Concat([Concat(last)]) == Concat(last);
      BufferFitsStepwise(l, Coarse(front), Concat(last));
      if BufferFits(l, Coarse(parts)) {
        CutFits(l, Flatten(front), last);
      }
    }
  }

  /** Cutting chunks further never introduces an error and never changes the result. */
  lemma {:induction false} CuttingFurtherIsSafe(l: Limits, parts: seq<seq<string>>)
    ensures Decode(l, Coarse(parts)).Ok? ==> Decode(l, Flatten(parts)) == Decode(l, Coarse(parts))
  {
    hide Decode, Read, BufferFits, Concat, Flatten, Coarse;
    FineCuttingFits(l, parts);
    DecodeIsRead(l, Coarse(parts));
    DecodeIsRead(l, Flatten(parts));
  }

  lemma HeldOneLine()
    ensures Held("a\n") == ""
  {
    assert "a\n"[1..] == "\n" && "\n"[1..] == "";
    assert BreakAt("a\n") == 1;
  }

  lemma {:induction false} FirstOf(line: string, rest: string)
    requires BreakAt(line) == |line|
    ensures CutLines(line + "\n" + rest, true) == FirstLine(line, CutLines(rest, true))
  {
    hide CutLines;
    var s := line + "\n" + rest;
    BreakAfter(line, "\n" + rest);
    assert s == line + ("\n" + rest);
    CutLinesFirst(s, true);
    assert s[..|line|] == line && s[|line| + 1..] == rest;
  }

  lemma {:induction false} BreakAfter(line: string, more: string)
    requires BreakAt(line) == |line| && more != "" && IsBreak(more[0])
    ensures BreakAt(line + more) == |line|
  {
    if line == "" {
      assert line + more == more;
    } else {
      assert (line + more)[1..] == line[1..] + more;
      BreakAfter(line[1..], more);
    }
  }

  lemma NoText()
    ensures CutLines("", true) == Cut([], "")
  {
  }

  lemma TwoLinesFit(l: Limits)
    requires l == Limits(2, 4, 4)
    ensures TextFits(l, "a\nb\n")
  {
    hide CutLines, BreakAt, Group, Size, RetryIsSafe;
    assert BreakAt("a") == 1 && BreakAt("b") == 1 by {
      OneLetter("a");
      OneLetter("b");
    }
    NoText();
    FirstOf("b", "");
    FirstOf("a", "b\n");
    assert "a" + "\n" + "b\n" == "a\nb\n" && "b" + "\n" + "" == "b\n";
    assert AllLines("a\nb\n") == ["a", "b"];
    SmallGroup("a", "b");
  }

  lemma {:induction false} OneLetter(s: string)
    requires |s| == 1 && !IsBreak(s[0])
    ensures BreakAt(s) == 1
  {
    assert s[1..] == "";
  }

  lemma SmallGroup(a: string, b: string)
    requires a != "" && b != ""
    ensures Group([], [a, b]) == Grouped([], [a, b]) && Size([a, b]) == |a| + |b| + 2
  {
    hide Group, Size;
    GroupLine([], a, [b]);
    GroupLine([a], b, []);
    assert [a] + [b] == [a, b] && [b] + [] == [b] && [] + [a] == [a];
    GroupNothing([a, b]);
    SizeNext([], a);
    SizeNext([a], b);
    SizeOfNothing();
  }

  lemma {:induction false} GroupLine(open: seq<string>, line: string, rest: seq<string>)
    requires line != ""
    ensures Group(open, [line] + rest) == Group(open + [line], rest)
  {
    assert ([line] + rest)[1..] == rest;
  }

  lemma {:induction false} GroupNothing(open: seq<string>)
    ensures Group(open, []) == Grouped([], open)
  {
  }

  lemma {:induction false} SizeNext(lines: seq<string>, line: string)
    ensures Size(lines + [line]) == Size(lines) + |line| + 1
  {
    assert (lines + [line])[..|lines|] == lines;
  }

  /** The converse fails: joining chunks may exceed the buffer limit, and so make decoding fail,
      although the cut ones are decoded. */
  lemma JoiningCanFail()
    ensures var l := Limits(2, 4, 4);
            && BufferFits(l, ["a\n", "b\n"]) && !BufferFits(l, ["a\nb\n"])
            && Decode(l, ["a\n", "b\n"]).Ok? && Decode(l, ["a\nb\n"]).Err?
  {
    hide Held, BufferFits, Concat, TextFits, Decode;
    var l := Limits(2, 4, 4);
    TwoLinesFit(l);
    ConcatSplit(["a\n"], ["b\n"]);
    ConcatOne("b\n");
    assert "a\n" + "b\n" == "a\nb\n";
    DecodeMeaning(l, ["a\n", "b\n"]);
    DecodeIsRead(l, ["a\nb\n"]);
    HeldNothing();
    HeldOneLine();
    ConcatOne("a\n");
    BufferFitsStepwise(l, [], "a\n");
    BufferFitsStepwise(l, ["a\n"], "b\n");
    BufferFitsStepwise(l, [], "a\nb\n");
    assert [] + ["a\n"] == ["a\n"] && ["a\n"] + ["b\n"] == ["a\n", "b\n"] && [] + ["a\nb\n"] == ["a\nb\n"];
    NothingFits(l);
  }

  lemma ConcatOne(s: string)
    ensures Concat([]) == "" && Concat([s]) == s
  {
    assert [s][..0] == [];
  }

  lemma NothingFits(l: Limits)
    ensures BufferFits(l, [])
  {
  }

  // ------------------------------------------------------------ the decoder object

  class IncrementalSseDecoder {
    const limits: Limits
    var textBuffer: string
    var frameLines: seq<string>
    var frameCharacters: nat
    var emittedFrames: nat
    var finished: bool
    var atStart: bool

    ghost function View(): State
      reads this
    {
      State(textBuffer, Assembly(frameLines, frameCharacters, emittedFrames), finished, atStart)
    }

    constructor (limits: Limits)
      requires limits.Valid()
      ensures this.limits == limits && View() == UNREAD
    {
      this.limits := limits;
      textBuffer, frameLines, frameCharacters := "", [], 0;
      emittedFrames, finished, atStart := 0, false, true;
    }

    method AppendDecoded(value: string) returns (r: Result<(), SseError>)
      modifies this
      ensures Outcome(View(), r) == Append(limits, old(View()), value)
    {
      var decoded := value;
      if atStart && |decoded| > 0 {
        atStart := false;
        if decoded[0] == BOM {
          decoded := decoded[1..];
        }
      }
      textBuffer := textBuffer + decoded;
      if |textBuffer| > limits.buffer {
        return Err(BufferLimit);
      }
      return Ok(());
    }

    method AcceptLine(line: string) returns (r: Result<seq<Frame>, SseError>)
      modifies this
      ensures var t := Accept(limits, old(View()).assembly, line);
              View() == old(View()).(assembly := t.state) && r == t.result
    {
      frameCharacters := frameCharacters + |line| + 1;
      if frameCharacters > limits.frame {
        return Err(FrameLimit);
      }
      frameLines := frameLines + [line];
      return Ok([]);
    }

    method DispatchFrame() returns (r: Result<seq<Frame>, SseError>)
      modifies this
      ensures var t := Dispatch(limits, old(View()).assembly);
              View() == old(View()).(assembly := t.state) && r == t.result
    {
      if frameLines == [] {
        return Ok([]);
      }
      if emittedFrames >= limits.frames {
        return Err(FrameCountLimit);
      }
      var frame := ReadFields(emittedFrames + 1, frameLines);
      emittedFrames := emittedFrames + 1;
      if frame.retry.Some? && frame.retry.value > MAX_SAFE_INTEGER {
        return Err(UnsafeRetry);
      }
      frameLines, frameCharacters := [], 0;
      return Ok([frame]);
    }

    /** The body of the drain loop: one line leaves the buffer. */
    method TakeNext(newline: nat) returns (r: Result<seq<Frame>, SseError>)
      requires newline == BreakAt(textBuffer) < |textBuffer|
      modifies this
      ensures Outcome(View(), r) == TakeFirst(limits, old(View()))
    {
      hide Accept, Dispatch;
      var line := textBuffer[..newline];
      var width := if textBuffer[newline] == '\r' && newline + 1 < |textBuffer| && textBuffer[newline + 1] == '\n' then 2 else 1;
      textBuffer := textBuffer[newline + width..];
      if |line| == 0 {
        r := DispatchFrame();
      } else {
        r := AcceptLine(line);
      }
    }

    method DrainLines(final: bool) returns (r: Result<seq<Frame>, SseError>)
      modifies this
      ensures Outcome(View(), r) == Drain(limits, old(View()), final)
    {
      hide TakeFirst, Accept, BreakAt;
      var frames: seq<Frame> := [];
      AfterNothing(Drain(limits, View(), final));
      while true
        invariant After(frames, Drain(limits, View(), final)) == Drain(limits, old(View()), final)
        decreases |textBuffer|
      {
        var newline := FindBreak(textBuffer);
        if newline == |textBuffer| {
          if final && |textBuffer| > 0 {
            var a := AcceptLine(textBuffer);
            if a.Err? {
              return a;
            }
            textBuffer := "";
            frames := frames + a.value;
          }
          assert frames + [] == frames;
          return Ok(frames);
        }
        if textBuffer[newline] == '\r' && newline == |textBuffer| - 1 && !final {
          assert frames + [] == frames;
          return Ok(frames);
        }
        var next := TakeNext(newline);
        if next.Err? {
          return next;
        }
        AfterAfter(frames, next.value, Drain(limits, View(), final));
        frames := frames + next.value;
      }
    }

    method Push(chunk: string) returns (r: Result<seq<Frame>, SseError>)
      modifies this
      ensures Outcome(View(), r) == PushChunk(limits, old(View()), chunk)
    {
      if finished {
        return Err(AlreadyFinished);
      }
      var a := AppendDecoded(chunk);
      if a.Err? {
        return Err(a.error);
      }
      r := DrainLines(false);
    }

    method Finish() returns (r: Result<Decoded, SseError>)
      modifies this
      ensures Outcome(View(), r) == FinishStream(limits, old(View()))
    {
      hide Drain, Join;
      if finished {
        return Err(AlreadyFinished);
      }
      finished := true;
      var a := AppendDecoded("");
      if a.Err? {
        return Err(a.error);
      }
      var frames := DrainLines(true);
      if frames.Err? {
        return Err(frames.error);
      }
      var raw := Join(frameLines);
      frameLines, frameCharacters := [], 0;
      return Ok(Decoded(frames.value, if |raw| == 0 then None else Some(Incomplete(emittedFrames + 1, raw))));
    }
  }

  method ReadFields(index: nat, lines: seq<string>) returns (frame: Frame)
    ensures frame == FrameOf(index, lines)
  {
    hide DigitsValue, ColonAt, StripSpace, Join, FieldName, FieldValue, FieldValues, Comments, UnknownFields;
    var data: seq<string>, comments: seq<string>, unknown: seq<(string, string)> := [], [], [];
    var event: Option<string>, id: Option<string>, retry: Option<nat> := None, None, None;
    NoFields();
    for k := 0 to |lines|
      invariant data == FieldValues(lines[..k], "data")
      invariant event == Last(FieldValues(lines[..k], "event"))
      invariant id == Last(NulFree(FieldValues(lines[..k], "id")))
      invariant retry == RetryOf(lines[..k])
      invariant comments == Comments(lines[..k])
      invariant unknown == UnknownFields(lines[..k])
    {
      var line := lines[k];
      assert lines[..k + 1] == lines[..k] + [line];
      FieldsNext(lines[..k], line);
      if IsComment(line) {
        comments := comments + [StripSpace(line[1..])];
      } else {
        var name, value := FieldName(line), FieldValue(line);
        if name == "event" {
          event := Some(value);
        } else if name == "data" {
          data := data + [value];
        } else if name == "id" {
          if !HasNul(value) {
            id := Some(value);
          }
        } else if name == "retry" {
          if IsDigits(value) {
            retry := Some(DigitsValue(value));
          }
        } else {
          unknown := unknown + [(name, value)];
        }
      }
    }
    assert lines[..|lines|] == lines;
    frame := Frame(
      index, event, if data == [] then None else Some(Join(data)), id, retry, comments, unknown,
      Join(lines) + "\n\n");
  }

  lemma NoFields()
    ensures forall name :: FieldValues([], name) == []
    ensures Comments([]) == [] && UnknownFields([]) == []
  {
  }

  function KeepNulFree(id: Option<string>, values: seq<string>): Option<string>
    requires |values| <= 1
  {
    if values == [] || HasNul(values[0]) then id else Some(values[0])
  }

  function KeepRetry(retry: Option<nat>, values: seq<string>): Option<nat>
    requires |values| <= 1
  {
    if values == [] || !IsDigits(values[0]) then retry else Some(DigitsValue(values[0]))
  }

  lemma {:induction false} NulFreeNext(values: seq<string>, v: string)
    ensures NulFree(values + [v]) == NulFree(values) + (if HasNul(v) then [] else [v])
  {
    assert (values + [v])[..|values + [v]| - 1] == values;
  }

  lemma {:induction false} LastNulFree(values: seq<string>, more: seq<string>)
    requires |more| <= 1
    ensures Last(NulFree(values + more)) == KeepNulFree(Last(NulFree(values)), more)
  {
    hide HasNul, NulFree;
    if more == [] {
      assert values + more == values;
    } else {
      assert more == [more[0]];
      NulFreeNext(values, more[0]);
    }
  }

  lemma {:induction false} LastRetry(values: seq<string>, more: seq<string>)
    requires |more| <= 1
    ensures Last(Retries(values + more)) == KeepRetry(Last(Retries(values)), more)
  {
    hide DigitsValue;
    if more == [] {
      assert values + more == values;
    } else {
      assert (values + more)[..|values|] == values;
    }
  }

  /** How one more line changes what the group says. */
  lemma {:induction false} FieldsNext(lines: seq<string>, line: string)
    ensures forall name :: FieldValues(lines + [line], name) == FieldValues(lines, name) + FieldOf(line, name)
    ensures Last(NulFree(FieldValues(lines + [line], "id")))
         == KeepNulFree(Last(NulFree(FieldValues(lines, "id"))), FieldOf(line, "id"))
    ensures RetryOf(lines + [line]) == KeepRetry(RetryOf(lines), FieldOf(line, "retry"))
    ensures Comments(lines + [line]) == Comments(lines) + (if IsComment(line) then [StripSpace(line[1..])] else [])
    ensures UnknownFields(lines + [line])
         == UnknownFields(lines)
         + (if !IsComment(line) && !IsKnownField(FieldName(line)) then [(FieldName(line), FieldValue(line))] else [])
  {
    hide FieldValues, FieldOf, NulFree, Retries, FieldName, FieldValue, IsKnownField;
    assert (lines + [line])[..|lines|] == lines;
    forall name {
      FieldValuesNext(lines, line, name);
    }
    AtMostOneValue(line);
    LastNulFree(FieldValues(lines, "id"), FieldOf(line, "id"));
    LastRetry(FieldValues(lines, "retry"), FieldOf(line, "retry"));
  }

  lemma AtMostOneValue(line: string)
    ensures |FieldOf(line, "id")| <= 1 && |FieldOf(line, "retry")| <= 1
  {
  }

  method FindBreak(s: string) returns (i: nat)
    ensures i == BreakAt(s)
  {
    i := 0;
    while i < |s| && !IsBreak(s[i])
      invariant i <= |s|
      invariant BreakAt(s) == i + BreakAt(s[i..])
    {
      i := i + 1;
    }
  }

  method DecodeSseChunks(limits: Limits, chunks: seq<string>) returns (r: Result<Decoded, SseError>)
    requires limits.Valid()
    ensures r.Ok? <==> BufferFits(limits, chunks) && TextFits(limits, Concat(chunks))
    ensures r.Ok? ==> r.value == OneShot(Concat(chunks))
    ensures r == Decode(limits, chunks)
  {
    hide BufferFits, TextFits, OneShot, PushChunk, FinishStream;
    DecodeMeaning(limits, chunks);
    var decoder := new IncrementalSseDecoder(limits);
    var frames: seq<Frame> := [];
    for k := 0 to |chunks|
      invariant decoder.limits == limits
      invariant Outcome(decoder.View(), Ok(frames)) == PushAll(limits, chunks[..k])
    {
      assert chunks[..k + 1][..k] == chunks[..k];
      var p := decoder.Push(chunks[k]);
      if p.Err? {
        PushAllStops(limits, chunks, k + 1);
        return Err(p.error);
      }
      frames := frames + p.value;
    }
    assert chunks[..|chunks|] == chunks;
    var finished := decoder.Finish();
    if finished.Err? {
      return finished;
    }
    return Ok(Decoded(frames + finished.value.frames, finished.value.incomplete));
  }

  lemma {:induction false} PushAllStops(l: Limits, chunks: seq<string>, k: nat)
    requires k <= |chunks| && PushAll(l, chunks[..k]).result.Err?
    ensures PushAll(l, chunks) == PushAll(l, chunks[..k])
    decreases |chunks|
  {
    if k == |chunks| {
      assert chunks[..k] == chunks;
    } else {
      assert chunks[..|chunks| - 1][..k] == chunks[..k];
      PushAllStops(l, chunks[..|chunks| - 1], k);
    }
  }
}
