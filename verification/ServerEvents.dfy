// The viewer's reader of a server-sent event stream (apps/viewer/src/api.ts), a second
// implementation that rewrites line ends and splits at blank lines, and its agreement
// with the line machine of the stream decoder.

module ServerEvents {
  import opened Wrappers
  import opened TextLines
  import opened SseDecoding

  datatype ServerEvent = ServerEvent(event: string, id: Option<string>, data: string)

  // ------------------------------------------------------------ one block of lines

  /** The event a block stands for, if it carries data. */
  function EventOf(lines: seq<string>): Option<ServerEvent> {
    var data := FieldValues(lines, "data");
    if data == [] then None
    else
      Some(ServerEvent(
             GetOr(Last(FieldValues(lines, "event")), "message"),
             Last(FieldValues(lines, "id")),
             Join(data)))
  }

  function LfAt(s: string): (i: nat)
    ensures i <= |s|
    ensures i < |s| ==> s[i] == '\n'
  {
    if s == "" || s[0] == '\n' then 0 else 1 + LfAt(s[1..])
  }

  /** The pieces between LF characters; there is always at least one. */
  function SplitLf(s: string): (pieces: seq<string>)
    ensures pieces != []
    decreases |s|
  {
    var i := LfAt(s);
    if i == |s| then [s] else [s[..i]] + SplitLf(s[i + 1..])
  }

  method ParseEventBlock(block: string) returns (r: Option<ServerEvent>)
    ensures r == EventOf(SplitLf(block))
  {
    hide Join, FieldName, FieldValue, FieldValues, SplitLf;
    var lines := SplitLf(block);
    var eventName := "message";
    var id: Option<string> := None;
    var data: seq<string> := [];
    NoFields();
    for k := 0 to |lines|
      invariant eventName == GetOr(Last(FieldValues(lines[..k], "event")), "message")
      invariant id == Last(FieldValues(lines[..k], "id"))
      invariant data == FieldValues(lines[..k], "data")
    {
      var line := lines[k];
      assert lines[..k + 1] == lines[..k] + [line];
      FieldValuesNext(lines[..k], line, "event");
      FieldValuesNext(lines[..k], line, "id");
      FieldValuesNext(lines[..k], line, "data");
      if line == "" {
        BlankLineHasNoField("event");
        BlankLineHasNoField("id");
        BlankLineHasNoField("data");
      } else if !IsComment(line) {
        var field, value := FieldName(line), FieldValue(line);
        if field == "event" {
          eventName := value;
        } else if field == "id" {
          id := Some(value);
        } else if field == "data" {
          data := data + [value];
        }
      }
    }
    assert lines[..|lines|] == lines;
    if data == [] {
      return None;
    }
    return Some(ServerEvent(eventName, id, Join(data)));
  }

  // ------------------------------------------------------------ the whole stream

  function ReplaceCrLf(s: string): string {
    if s == "" then ""
    else if s[0] == '\r' && |s| > 1 && s[1] == '\n' then "\n" + ReplaceCrLf(s[2..])
    else [s[0]] + ReplaceCrLf(s[1..])
  }

  function ReplaceCr(s: string): string {
    if s == "" then "" else [if s[0] == '\r' then '\n' else s[0]] + ReplaceCr(s[1..])
  }

  function Normalize(s: string): string {
    ReplaceCr(ReplaceCrLf(s))
  }

  /** Position of the first blank line end, or the length when there is none. */
  function BoundaryAt(s: string): (i: nat)
    ensures i <= |s|
    ensures i < |s| ==> i + 2 <= |s| && s[i] == '\n' && s[i + 1] == '\n'
  {
    if |s| < 2 then |s|
    else if s[0] == '\n' && s[1] == '\n' then 0
    else 1 + BoundaryAt(s[1..])
  }

  function Optional<T>(o: Option<T>): seq<T> {
    match o
    case None => []
    case Some(v) => [v]
  }

  /** All events of normalised text: one block for each blank line end, and the rest. */
  function EventsIn(s: string): seq<ServerEvent>
    decreases |s|
  {
    var i := BoundaryAt(s);
    if i == |s| then Optional(EventOf(SplitLf(s)))
    else Optional(EventOf(SplitLf(s[..i]))) + EventsIn(s[i + 2..])
  }

  lemma {:induction false} ReplaceCrSplit(a: string, b: string)
    ensures ReplaceCr(a + b) == ReplaceCr(a) + ReplaceCr(b)
  {
    if a == "" {
      assert a + b == b;
    } else {
      assert (a + b)[1..] == a[1..] + b;
      ReplaceCrSplit(a[1..], b);
    }
  }

  /** No CRLF is torn apart between the two pieces. */
  predicate Apart(a: string, b: string) {
    !(a != "" && a[|a| - 1] == '\r' && b != "" && b[0] == '\n')
  }

  lemma {:induction false} ReplaceCrLfSplit(a: string, b: string)
    requires Apart(a, b)
    ensures ReplaceCrLf(a + b) == ReplaceCrLf(a) + ReplaceCrLf(b)
    decreases |a|
  {
    if a == "" {
      assert a + b == b;
    } else if a[0] == '\r' && |a| > 1 && a[1] == '\n' {
      assert (a + b)[2..] == a[2..] + b;
      ReplaceCrLfSplit(a[2..], b);
    } else {
      assert (a + b)[1..] == a[1..] + b;
      ReplaceCrLfSplit(a[1..], b);
    }
  }

  lemma NormalizeSplit(a: string, b: string)
    requires Apart(a, b)
    ensures Normalize(a + b) == Normalize(a) + Normalize(b)
  {
    ReplaceCrLfSplit(a, b);
    ReplaceCrSplit(ReplaceCrLf(a), ReplaceCrLf(b));
  }

  lemma {:induction false} BoundaryAtPrefix(a: string, b: string)
    requires BoundaryAt(a) < |a|
    ensures BoundaryAt(a + b) == BoundaryAt(a)
  {
    if !(a[0] == '\n' && a[1] == '\n') {
      assert (a + b)[1..] == a[1..] + b;
      BoundaryAtPrefix(a[1..], b);
    }
  }

  /** A block that is complete does not depend on later text. */
  lemma EventsPeel(a: string, b: string)
    requires BoundaryAt(a) < |a|
    ensures var i := BoundaryAt(a);
            EventsIn(a + b) == Optional(EventOf(SplitLf(a[..i]))) + EventsIn(a[i + 2..] + b)
  {
    var i := BoundaryAt(a);
    BoundaryAtPrefix(a, b);
    assert (a + b)[..i] == a[..i];
    assert (a + b)[i + 2..] == a[i + 2..] + b;
  }

  function Pending(carriageReturn: bool): string {
    if carriageReturn then "\r" else ""
  }

  /** The inner loop: every complete block leaves the buffer. */
  method TakeBlocks(text: string, ghost later: string) returns (events: seq<ServerEvent>, buffer: string)
    ensures BoundaryAt(buffer) == |buffer|
    ensures EventsIn(text + later) == events + EventsIn(buffer + later)
  {
    hide EventOf, SplitLf, EventsIn;
    buffer, events := text, [];
    assert events + EventsIn(buffer + later) == EventsIn(text + later);
    var boundary := BoundaryAt(buffer);
    while boundary < |buffer|
      invariant boundary == BoundaryAt(buffer)
      invariant EventsIn(text + later) == events + EventsIn(buffer + later)
      decreases |buffer|
    {
      var event := ParseEventBlock(buffer[..boundary]);
      EventsPeel(buffer, later);
      ghost var rest := EventsIn(buffer[boundary + 2..] + later);
      assert EventsIn(buffer + later) == Optional(event) + rest;
      assert EventsIn(text + later) == events + (Optional(event) + rest);
      assert (events + Optional(event)) + rest == events + (Optional(event) + rest);
      events := events + Optional(event);
      buffer := buffer[boundary + 2..];
      boundary := BoundaryAt(buffer);
    }
  }

  /** `last` is what the text decoder flushes when the stream is done. However the
      text was cut, the reader yields the events of the normalised whole. */
  method ParseServerEvents(chunks: seq<string>, last: string) returns (events: seq<ServerEvent>)
    ensures events == EventsIn(Normalize(Concat(chunks) + last))
  {
    hide Normalize, EventsIn, EventOf, SplitLf, Concat, BoundaryAt;
    ghost var all := EventsIn(Normalize(Concat(chunks) + last));
    var buffer := "";
    var trailingCarriageReturn := false;
    events := [];
    var k := 0;
    StartOfStream(chunks, last);
    assert events + all == all;
    assert all == events + EventsIn(buffer + Normalize(Pending(false) + (Concat(chunks[0..]) + last)));
    while true
      invariant k <= |chunks|
      invariant all == events + EventsIn(buffer + Normalize(Pending(trailingCarriageReturn) + (Concat(chunks[k..]) + last)))
      decreases |chunks| - k
    {
      var done := k == |chunks|;
      var read := if done then last else chunks[k];
      ghost var rest := if done then "" else Concat(chunks[k + 1..]) + last;
      ReadNext(chunks, last, k);
      var decoded := Pending(trailingCarriageReturn) + read;
      assert Pending(trailingCarriageReturn) + (read + rest) == decoded + rest;
      ghost var whole := decoded;
      trailingCarriageReturn := !done && |decoded| > 0 && decoded[|decoded| - 1] == '\r';
      if trailingCarriageReturn {
        decoded := decoded[..|decoded| - 1];
      }
      ghost var ahead := Pending(trailingCarriageReturn) + rest;
      assert whole + rest == decoded + ahead;
      NormalizeSplit(decoded, ahead);
      BufferGrows(buffer, Normalize(decoded), Normalize(ahead));
      buffer := buffer + Normalize(decoded);
      var taken;
      taken, buffer := TakeBlocks(buffer, Normalize(ahead));
      ghost var later := EventsIn(buffer + Normalize(ahead));
      assert (events + taken) + later == events + (taken + later);
      events := events + taken;
      if done {
        if trailingCarriageReturn {
          buffer := buffer + "\n";
        }
        EndOfStream(buffer);
        var event := ParseEventBlock(buffer);
        events := events + Optional(event);
        return;
      }
      k := k + 1;
    }
  }

  lemma {:induction false} StartOfStream(chunks: seq<string>, last: string)
    ensures "" + Normalize(Pending(false) + (Concat(chunks[0..]) + last)) == Normalize(Concat(chunks) + last)
  {
    assert chunks[0..] == chunks;
    assert Pending(false) + (Concat(chunks) + last) == Concat(chunks) + last;
  }

  lemma ReadNext(chunks: seq<string>, last: string, k: nat)
    requires k <= |chunks|
    ensures k < |chunks| ==> Concat(chunks[k..]) + last == chunks[k] + (Concat(chunks[k + 1..]) + last)
    ensures k == |chunks| ==> Concat(chunks[k..]) + last == last + ""
  {
    if k < |chunks| {
      assert chunks[k..] == [chunks[k]] + chunks[k + 1..];
      ConcatSplit([chunks[k]], chunks[k + 1..]);
      ConcatOne(chunks[k]);
    } else {
      ConcatOne("");
      assert chunks[k..] == [];
    }
  }

  lemma BufferGrows(buffer: string, now: string, later: string)
    ensures (buffer + now) + later == buffer + (now + later)
  {
  }

  lemma {:induction false} EndOfStream(buffer: string)
    requires BoundaryAt(buffer) == |buffer|
    ensures EventsIn(buffer + Normalize(Pending(false) + "")) == Optional(EventOf(SplitLf(buffer)))
  {
    assert Pending(false) + "" == "";
    assert Normalize("") == "";
    assert buffer + "" == buffer;
  }

  // ------------------------------------------------------------ agreement with the line machine

  /** What the viewer shows of a decoded frame: nothing without data, and an absent
      event name reads as "message". */
  function EventOfFrame(f: Frame): Option<ServerEvent> {
    match f.data
    case None => None
    case Some(data) => Some(ServerEvent(GetOr(f.event, "message"), f.id, data))
  }

  function EventsOfFrames(frames: seq<Frame>): seq<ServerEvent>
    decreases |frames|
  {
    if frames == [] then [] else Optional(EventOfFrame(frames[0])) + EventsOfFrames(frames[1..])
  }

  /** The viewer's events expected from a decoded stream: those of its frames, then the
      parse of the incomplete tail, which the viewer does not hold back. */
  function EventsOfDecoded(d: Decoded): seq<ServerEvent> {
    EventsOfFrames(d.frames)
    + (match d.incomplete
       case None => []
       case Some(tail) => Optional(EventOf(SplitLf(tail.raw))))
  }

  /** The viewer takes the last id of a block, the decoder the last id without NUL. */
  ghost predicate IdsAgree(lines: seq<string>) {
    FieldValues(lines, "data") != [] ==>
      var ids := FieldValues(lines, "id");
      ids == [] || !HasNul(ids[|ids| - 1])
  }

  lemma FrameShowsBlock(index: nat, lines: seq<string>)
    ensures EventOfFrame(FrameOf(index, lines)).Some? <==> EventOf(lines).Some?
    ensures EventOfFrame(FrameOf(index, lines)) == EventOf(lines) <==> IdsAgree(lines)
  {
    var ids := FieldValues(lines, "id");
    LastNulFreeHasNoNul(ids);
    if ids != [] {
      var front, last := ids[..|ids| - 1], ids[|ids| - 1];
      NulFreeNext(front, last);
      assert ids == front + [last];
    }
  }

  lemma {:induction false} LastNulFreeHasNoNul(values: seq<string>)
    ensures var last := Last(NulFree(values)); last.Some? ==> !HasNul(last.value)
    decreases |values|
  {
    if values != [] {
      LastNulFreeHasNoNul(values[..|values| - 1]);
    }
  }

  // The pieces between LF characters are read in two ways. The decoder drops every
  // blank piece that follows nothing; the viewer lets one blank piece lead a block.

  /** The decoder's blocks, `open` being the block read so far. */
  function DecoderBlocks(open: seq<string>, pieces: seq<string>): seq<seq<string>>
    requires pieces != []
    decreases |pieces|
  {
    if |pieces| == 1 then [open + (if pieces[0] == "" then [] else pieces)]
    else if pieces[0] != "" then DecoderBlocks(open + [pieces[0]], pieces[1..])
    else (if open == [] then [] else [open]) + DecoderBlocks([], pieces[1..])
  }

  /** The viewer's blocks, `open` being the block read so far. */
  function ViewerBlocks(open: seq<string>, pieces: seq<string>): seq<seq<string>>
    requires pieces != []
    decreases |pieces|
  {
    if |pieces| == 1 then [open + pieces]
    else if pieces[0] == "" && open != [] then [open] + ViewerBlocks([], pieces[1..])
    else ViewerBlocks(open + [pieces[0]], pieces[1..])
  }

  function EventsOfBlocks(blocks: seq<seq<string>>): seq<ServerEvent>
    decreases |blocks|
  {
    if blocks == [] then [] else Optional(EventOf(blocks[0])) + EventsOfBlocks(blocks[1..])
  }

  lemma {:induction false} EventsOfBlocksFirst(block: seq<string>, blocks: seq<seq<string>>)
    ensures EventsOfBlocks([block] + blocks) == Optional(EventOf(block)) + EventsOfBlocks(blocks)
  {
    assert ([block] + blocks)[1..] == blocks;
  }

  lemma EventsOfOneBlock(block: seq<string>)
    ensures EventsOfBlocks([block]) == Optional(EventOf(block))
  {
    EventsOfBlocksFirst(block, []);
    assert [block] + [] == [block];
    assert Optional(EventOf(block)) + [] == Optional(EventOf(block));
  }

  lemma EventOfIgnoresLeadingBlank(lines: seq<string>)
    ensures EventOf([""] + lines) == EventOf(lines)
  {
    BlankLineInFront(lines, "data");
    BlankLineInFront(lines, "event");
    BlankLineInFront(lines, "id");
  }

  lemma EventOfIgnoresTrailingBlank(lines: seq<string>)
    ensures EventOf(lines + [""]) == EventOf(lines)
  {
    TrailingBlank(lines, "data");
    TrailingBlank(lines, "event");
    TrailingBlank(lines, "id");
  }

  lemma {:induction false} TrailingBlank(lines: seq<string>, name: string)
    requires name != ""
    ensures FieldValues(lines + [""], name) == FieldValues(lines, name)
  {
    hide FieldValues;
    FieldValuesNext(lines, "", name);
    BlankLineHasNoField(name);
    assert FieldValues(lines, name) + [] == FieldValues(lines, name);
  }

  lemma {:induction false} BlocksAgree(led: bool, open: seq<string>, pieces: seq<string>)
    requires pieces != []
    ensures EventsOfBlocks(ViewerBlocks((if led then [""] else []) + open, pieces))
         == EventsOfBlocks(DecoderBlocks(open, pieces))
    decreases |pieces|
  {
    hide EventOf;
    var front := (if led then [""] else []) + open;
    assert !led ==> front == open;
    EventOfIgnoresLeadingBlank(open);
    var rest := pieces[1..];
    if |pieces| == 1 {
      EventsOfOneBlock(front + pieces);
      LastBlock(led, open, pieces[0]);
      assert pieces == [pieces[0]];
      EventsOfOneBlock(open + (if pieces[0] == "" then [] else pieces));
    } else if pieces[0] != "" {
      assert front + [pieces[0]] == (if led then [""] else []) + (open + [pieces[0]]);
      BlocksAgree(led, open + [pieces[0]], rest);
    } else if front == [] {
      assert [""] + [] == front + [pieces[0]];
      BlocksAgree(true, [], rest);
      assert [] + DecoderBlocks([], rest) == DecoderBlocks([], rest);
    } else {
      BlocksAgree(false, [], rest);
      var none: seq<string> := [];
      assert none + none == none;
      EventsOfBlocksFirst(front, ViewerBlocks([], rest));
      if open == [] {
        NothingToShow();
        assert [""] + [] == front == [""];
        assert [] + DecoderBlocks([], rest) == DecoderBlocks([], rest);
      } else {
        EventsOfBlocksFirst(open, DecoderBlocks([], rest));
      }
    }
  }

  lemma NothingToShow()
    ensures EventOf([]) == None
  {
  }

  lemma LastBlock(led: bool, open: seq<string>, piece: string)
    ensures EventOf((if led then [""] else []) + open + [piece])
         == EventOf(open + (if piece == "" then [] else [piece]))
  {
    hide EventOf;
    var lines := open + [piece];
    EventOfIgnoresLeadingBlank(lines);
    EventOfIgnoresTrailingBlank(open);
    assert [""] + open + [piece] == [""] + lines;
    assert [] + open + [piece] == lines;
    assert open + [] == open;
  }

  // ---------------------------------------- from text to pieces

  predicate NoLf(s: string) {
    '\n' !in s
  }

  predicate Pieces(pieces: seq<string>) {
    forall k | 0 <= k < |pieces| :: NoLf(pieces[k])
  }

  lemma {:induction false} LfAtOf(a: string, b: string)
    requires NoLf(a)
    ensures LfAt(a) == |a|
    ensures LfAt(a + "\n" + b) == |a|
  {
    if a != "" {
      assert (a + "\n" + b)[1..] == a[1..] + "\n" + b;
      LfAtOf(a[1..], b);
    }
  }

  lemma {:induction false} SplitLfFirst(a: string, b: string)
    requires NoLf(a)
    ensures SplitLf(a) == [a]
    ensures SplitLf(a + "\n" + b) == [a] + SplitLf(b)
  {
    LfAtOf(a, b);
    var s := a + "\n" + b;
    assert s[..|a|] == a && s[|a| + 1..] == b;
  }

  lemma {:induction false} SplitLfJoin(pieces: seq<string>)
    requires pieces != [] && Pieces(pieces)
    ensures SplitLf(Join(pieces)) == pieces
    decreases |pieces|
  {
    hide Join, SplitLf, NoLf;
    var rest := pieces[1..];
    assert pieces == [pieces[0]] + rest;
    JoinOne(pieces[0]);
    if rest == [] {
      assert pieces == [pieces[0]];
      SplitLfFirst(pieces[0], "");
    } else {
      JoinSplit([pieces[0]], rest);
      SplitLfJoin(rest);
      SplitLfFirst(pieces[0], Join(rest));
    }
  }

  lemma JoinOne(s: string)
    ensures Join([s]) == s
  {
  }

  lemma {:induction false} JoinSplitLf(s: string)
    ensures Pieces(SplitLf(s)) && Join(SplitLf(s)) == s
    decreases |s|
  {
    var i := LfAt(s);
    LfAtIsFirst(s);
    if i < |s| {
      JoinSplitLf(s[i + 1..]);
      JoinSplit([s[..i]], SplitLf(s[i + 1..]));
      JoinOne(s[..i]);
      assert s == s[..i] + "\n" + s[i + 1..];
    } else {
      assert s[..i] == s;
    }
  }

  lemma {:induction false} LfAtIsFirst(s: string)
    ensures NoLf(s[..LfAt(s)])
  {
    if s != "" && s[0] != '\n' {
      LfAtIsFirst(s[1..]);
      assert s[..LfAt(s)] == [s[0]] + s[1..][..LfAt(s[1..])];
    }
  }

  /** A block read so far: only its first piece may be blank. */
  predicate Opened(open: seq<string>) {
    Pieces(open) && forall k | 1 <= k < |open| :: open[k] != ""
  }

  /** No blank line end inside `s`, nor one made by a further LF at its end. */
  predicate Unbroken(s: string) {
    forall k | 0 <= k < |s| :: s[k] == '\n' ==> k + 1 < |s| && s[k + 1] != '\n'
  }

  lemma {:induction false} OpenedIsUnbroken(open: seq<string>)
    requires open != [] && Opened(open)
    ensures Unbroken(Join(open))
    decreases |open|
  {
    var n := |open| - 1;
    var front, last := open[..n], open[n];
    if n > 0 {
      OpenedIsUnbroken(front);
      assert NoLf(last) && last != "";
      assert Join(open) == Join(front) + "\n" + last;
    }
  }

  lemma {:induction false} BoundaryAfter(s: string, rest: string)
    requires Unbroken(s)
    ensures BoundaryAt(s + "\n\n" + rest) == |s|
    decreases |s|
  {
    if s != "" {
      var t := s + "\n\n" + rest;
      assert t[1..] == s[1..] + "\n\n" + rest;
      assert Unbroken(s[1..]) by {
        forall k | 0 <= k < |s[1..]| && s[1..][k] == '\n' ensures k + 1 < |s[1..]| && s[1..][k + 1] != '\n' {
          assert s[k + 1] == '\n';
        }
      }
      BoundaryAfter(s[1..], rest);
    }
  }

  lemma {:induction false} NoBoundary(s: string, end: string)
    requires Unbroken(s) && (end == "" || end == "\n")
    ensures BoundaryAt(s + end) == |s + end|
    decreases |s|
  {
    if s != "" {
      UnbrokenTail(s);
      assert (s + end)[1..] == s[1..] + end;
      NoBoundary(s[1..], end);
    }
  }

  lemma UnbrokenTail(s: string)
    requires Unbroken(s) && s != ""
    ensures Unbroken(s[1..])
  {
    forall k | 0 <= k < |s[1..]| && s[1..][k] == '\n' ensures k + 1 < |s[1..]| && s[1..][k + 1] != '\n' {
      assert s[k + 1] == '\n';
    }
  }

  /** Splitting text at blank line ends gives the viewer's blocks of pieces. */
  lemma {:induction false} EventsInAreBlocks(open: seq<string>, pieces: seq<string>)
    requires Opened(open) && Pieces(pieces) && pieces != []
    ensures EventsIn(Join(open + pieces)) == EventsOfBlocks(ViewerBlocks(open, pieces))
    decreases |pieces|
  {
    hide Join, SplitLf, BoundaryAt, EventOf, Unbroken;
    var first, rest := pieces[0], pieces[1..];
    if |pieces| == 1 {
      assert pieces == [first];
      LastBlockIsWhole(open, first);
      EventsOfOneBlock(open + pieces);
      SplitLfJoin(open + pieces);
    } else if first == "" && open != [] {
      assert pieces == [""] + rest;
      BlockEnds(open, rest);
      SplitLfJoin(open);
      EventsInAreBlocks([], rest);
      assert [] + rest == rest;
      EventsOfBlocksFirst(open, ViewerBlocks([], rest));
    } else {
      assert open + pieces == (open + [first]) + rest;
      EventsInAreBlocks(open + [first], rest);
    }
  }

  lemma {:induction false} LastBlockIsWhole(open: seq<string>, last: string)
    requires Opened(open) && NoLf(last)
    ensures var s := Join(open + [last]); BoundaryAt(s) == |s|
  {
    hide Join, BoundaryAt, Unbroken;
    if last == "" && open != [] {
      OpenedIsUnbroken(open);
      JoinSplit(open, [last]);
      JoinOne(last);
      assert Join(open) + "\n" + "" == Join(open) + "\n";
      NoBoundary(Join(open), "\n");
    } else {
      OpenedIsUnbroken(open + [last]);
      assert Join(open + [last]) + "" == Join(open + [last]);
      NoBoundary(Join(open + [last]), "");
    }
  }

  lemma {:induction false} BlockEnds(open: seq<string>, rest: seq<string>)
    requires Opened(open) && open != [] && rest != []
    ensures var s := Join(open + ([""] + rest));
            var i := |Join(open)|;
            BoundaryAt(s) == i && i + 2 <= |s| && s[..i] == Join(open) && s[i + 2..] == Join(rest)
  {
    hide Join, BoundaryAt, Unbroken;
    JoinSplit(open, [""] + rest);
    JoinSplit([""], rest);
    JoinOne("");
    var s := Join(open + ([""] + rest));
    assert s == Join(open) + "\n\n" + Join(rest);
    OpenedIsUnbroken(open);
    BoundaryAfter(Join(open), Join(rest));
  }

  // ---------------------------------------- from line ends to pieces

  lemma NormalizeChar(c: char, s: string)
    requires c != '\r'
    ensures Normalize([c] + s) == [c] + Normalize(s)
  {
    NormalizeSplit([c], s);
    assert [c][1..] == "";
    assert ReplaceCrLf([c]) == [c];
    assert ReplaceCr([c]) == [c];
  }

  lemma {:induction false} NormalizeLine(a: string, s: string)
    requires forall k | 0 <= k < |a| :: !IsBreak(a[k])
    ensures Normalize(a + s) == a + Normalize(s)
    ensures NoLf(a)
    decreases |a|
  {
    hide Normalize;
    if a == "" {
      assert a + s == s;
    } else {
      NormalizeLine(a[1..], s);
      assert a + s == [a[0]] + (a[1..] + s);
      NormalizeChar(a[0], a[1..] + s);
      assert a == [a[0]] + a[1..];
    }
  }

  lemma NormalizeBreak(s: string)
    requires s != "" && IsBreak(s[0])
    ensures Normalize(s) == "\n" + Normalize(s[BreakWidth(s, 0)..])
  {
    var rest := s[BreakWidth(s, 0)..];
    var end := s[..BreakWidth(s, 0)];
    assert s == end + rest;
    assert Apart(end, rest);
    NormalizeSplit(end, rest);
    assert Normalize(end) == "\n" by {
      assert end[1..] == "" || end[2..] == "";
    }
  }

  /** Rewriting line ends and splitting at LF finds the same lines. */
  lemma {:induction false} LinesArePieces(s: string)
    ensures SplitLf(Normalize(s)) == CutLines(s, true).lines + [CutLines(s, true).rest]
    decreases |s|
  {
    hide Normalize, SplitLf, CutLines;
    var i := BreakAt(s);
    var line := s[..i];
    forall k | 0 <= k < i ensures !IsBreak(line[k]) {
      BreakAtIsFirst(s, k);
    }
    NormalizeLine(line, s[i..]);
    assert s == line + s[i..];
    if i == |s| {
      LastLine(s);
      SplitLfFirst(line, "");
    } else {
      NormalizeBreak(s[i..]);
      var rest := s[i + BreakWidth(s, i)..];
      assert BreakWidth(s[i..], 0) == BreakWidth(s, i);
      assert s[i..][BreakWidth(s[i..], 0)..] == rest;
      assert line + ("\n" + Normalize(rest)) == line + "\n" + Normalize(rest);
      SplitLfFirst(line, Normalize(rest));
      LinesArePieces(rest);
      CutLinesFirst(s, true);
      var c := CutLines(rest, true);
      assert [line] + (c.lines + [c.rest]) == ([line] + c.lines) + [c.rest];
    }
  }

  lemma {:induction false} LastLine(s: string)
    requires BreakAt(s) == |s|
    ensures Normalize(s[|s|..]) == ""
    ensures CutLines(s, true) == Cut([], s)
    ensures [] + [s] == [s] && s[..|s|] == s && s + "" == s
  {
  }

  // ---------------------------------------- the agreement

  /** The decoder's blocks are its groups, and the last one is the open group. */
  lemma {:induction false} DecoderBlocksAreGroups(open: seq<string>, lines: seq<string>, tail: string)
    ensures var g := Group(open, lines + (if tail == "" then [] else [tail]));
            DecoderBlocks(open, lines + [tail]) == g.groups + [g.open]
    decreases |lines|
  {
    if lines == [] {
      assert lines + [tail] == [tail] && lines + [] == lines;
      assert [tail][1..] == [];
      assert open + [] == open;
    } else {
      var more := if tail == "" then [] else [tail];
      assert (lines + [tail])[1..] == lines[1..] + [tail];
      assert (lines + more)[1..] == lines[1..] + more;
      if lines[0] != "" {
        DecoderBlocksAreGroups(open + [lines[0]], lines[1..], tail);
      } else {
        DecoderBlocksAreGroups([], lines[1..], tail);
        var g := Group([], lines[1..] + more);
        var first := if open == [] then [] else [open];
        assert first + (g.groups + [g.open]) == (first + g.groups) + [g.open];
      }
    }
  }

  lemma {:induction false} EventsOfBlocksSplit(a: seq<seq<string>>, b: seq<seq<string>>)
    ensures EventsOfBlocks(a + b) == EventsOfBlocks(a) + EventsOfBlocks(b)
    decreases |a|
  {
    hide EventOf;
    if a == [] {
      assert a + b == b;
    } else {
      assert (a + b)[1..] == a[1..] + b;
      EventsOfBlocksSplit(a[1..], b);
    }
  }

  ghost predicate AllIdsAgree(groups: seq<seq<string>>) {
    forall k | 0 <= k < |groups| :: IdsAgree(groups[k])
  }

  lemma {:induction false} FramesShowBlocks(first: nat, groups: seq<seq<string>>)
    ensures |EventsOfFrames(FramesFrom(first, groups))| == |EventsOfBlocks(groups)|
    ensures EventsOfFrames(FramesFrom(first, groups)) == EventsOfBlocks(groups) <==> AllIdsAgree(groups)
    decreases |groups|
  {
    hide EventOf, EventOfFrame, FrameOf, IdsAgree;
    if groups != [] {
      FramesShowBlocks(first + 1, groups[1..]);
      FrameShowsBlock(first, groups[0]);
      assert AllIdsAgree(groups) <==> IdsAgree(groups[0]) && AllIdsAgree(groups[1..]) by {
        if AllIdsAgree(groups) {
          forall k | 0 <= k < |groups[1..]| ensures IdsAgree(groups[1..][k]) {
            assert groups[1..][k] == groups[k + 1];
          }
        }
      }
      var frames := FramesFrom(first, groups);
      assert frames[0] == FrameOf(first, groups[0]) && frames[1..] == FramesFrom(first + 1, groups[1..]);
      HeadAndTail(EventOfFrame(frames[0]), EventsOfFrames(frames[1..]), EventOf(groups[0]), EventsOfBlocks(groups[1..]));
    }
  }

  lemma HeadAndTail<T>(a: Option<T>, x: seq<T>, b: Option<T>, y: seq<T>)
    requires a.Some? <==> b.Some?
    ensures Optional(a) + x == Optional(b) + y <==> a == b && x == y
  {
    if Optional(a) + x == Optional(b) + y {
      var n := |Optional(a)|;
      assert (Optional(a) + x)[n..] == x && (Optional(b) + y)[n..] == y;
      if a.Some? {
        assert (Optional(a) + x)[0] == a.value && (Optional(b) + y)[0] == b.value;
      }
    }
  }

  /** The last id of every complete block with data is free of NUL. */
  ghost predicate IdsClean(text: string) {
    AllIdsAgree(Group([], AllLines(StripBom(text))).groups)
  }

  /** The viewer's events are those of the groups of lines, and of the group left open. */
  lemma ViewerReadsGroups(text: string)
    ensures var g := Group([], AllLines(text));
            EventsIn(Normalize(text)) == EventsOfBlocks(g.groups) + Optional(EventOf(g.open))
  {
    hide EventsIn, Normalize, EventOf, AllLines, CutLines, SplitLf, Join, Group, EventsOfBlocks;
    var c := CutLines(text, true);
    var pieces := c.lines + [c.rest];
    PiecesOfText(text);
    EventsInAreBlocks([], pieces);
    assert [] + pieces == pieces;
    BlocksAgree(false, [], pieces);
    var none: seq<string> := [];
    assert none + none == none;
    AllLinesOf(text);
    DecoderBlocksAreGroups([], c.lines, c.rest);
    var g := Group([], AllLines(text));
    EventsOfBlocksSplit(g.groups, [g.open]);
    EventsOfOneBlock(g.open);
  }

  /** The two readers agree on a text without byte order mark exactly when no block
      with data ends on an identifier with a NUL. */
  lemma ReadersAgree(text: string)
    requires text == "" || text[0] != BOM
    ensures EventsIn(Normalize(text)) == EventsOfDecoded(OneShot(text)) <==> IdsClean(text)
  {
    hide EventsIn, Normalize, EventOf, AllLines, CutLines, SplitLf, Join, Group, EventsOfFrames, EventsOfBlocks, AllIdsAgree, FramesFrom;
    ViewerReadsGroups(text);
    var g := Group([], AllLines(text));
    FramesShowBlocks(1, g.groups);
    TailShows(text);
    var frames, blocks := EventsOfFrames(FramesFrom(1, g.groups)), EventsOfBlocks(g.groups);
    var tail := Optional(EventOf(g.open));
    assert frames + tail == blocks + tail <==> frames == blocks by {
      if frames + tail == blocks + tail {
        assert (frames + tail)[..|frames|] == frames && (blocks + tail)[..|blocks|] == blocks;
      }
    }
  }

  lemma {:induction false} PiecesOfText(text: string)
    ensures var pieces := CutLines(text, true).lines + [CutLines(text, true).rest];
            Pieces(pieces) && Join(pieces) == Normalize(text)
  {
    hide Join, SplitLf, Normalize, CutLines;
    LinesArePieces(text);
    JoinSplitLf(Normalize(text));
  }

  lemma {:induction false} AllLinesOf(text: string)
    ensures var c := CutLines(text, true);
            AllLines(text) == c.lines + (if c.rest == "" then [] else [c.rest])
  {
  }

  lemma TailShows(text: string)
    ensures var g := Group([], AllLines(text));
            var tail := if g.open == [] then None else Some(Incomplete(|g.groups| + 1, Join(g.open)));
            (match tail
             case None => []
             case Some(t) => Optional(EventOf(SplitLf(t.raw)))) == Optional(EventOf(g.open))
  {
    hide EventOf, SplitLf, Join, AllLines, CutLines;
    NothingToShow();
    var g := Group([], AllLines(text));
    if g.open != [] {
      PiecesOfText(text);
      AllLinesOf(text);
      var pieces := CutLines(text, true).lines + [CutLines(text, true).rest];
      assert AllLines(text) == pieces || AllLines(text) == pieces[..|pieces| - 1];
      OpenIsAmong([], AllLines(text));
      SplitLfJoin(g.open);
    }
  }

  lemma {:induction false} OpenIsAmong(open: seq<string>, lines: seq<string>)
    requires Pieces(open) && Pieces(lines)
    ensures Pieces(Group(open, lines).open)
    decreases |lines|
  {
    hide NoLf;
    if lines != [] {
      if lines[0] != "" {
        OpenIsAmong(open + [lines[0]], lines[1..]);
      } else {
        OpenIsAmong([], lines[1..]);
      }
    }
  }

  /** For every text and any two cuttings of it that the decoder accepts. */
  lemma {:induction false} AnyCuttingsAgree(l: Limits, chunks: seq<string>, viewerChunks: seq<string>, last: string)
    requires l.Valid() && Decode(l, chunks).Ok?
    requires var text := Concat(chunks); text == Concat(viewerChunks) + last && (text == "" || text[0] != BOM)
    ensures EventsIn(Normalize(Concat(viewerChunks) + last)) == EventsOfDecoded(Decode(l, chunks).value)
       <==> IdsClean(Concat(chunks))
  {
    hide EventsIn, Normalize, EventsOfDecoded, Decode, IdsClean, OneShot, Concat;
    DecodeMeaning(l, chunks);
    ReadersAgree(Concat(chunks));
  }

  ghost predicate NoNul(lines: seq<string>) {
    forall k | 0 <= k < |lines| :: !HasNul(lines[k])
  }

  /** A text without NUL meets the condition, so the readers agree on it. */
  lemma NulFreeTextIsClean(text: string)
    requires !HasNul(text)
    ensures IdsClean(text)
  {
    hide CutLines, Group, IdsAgree;
    var s := StripBom(text);
    LinesLackNul(s);
    GroupsLackNul([], AllLines(s));
    var groups := Group([], AllLines(s)).groups;
    forall k | 0 <= k < |groups| ensures IdsAgree(groups[k]) {
      ValuesLackNul(groups[k]);
    }
  }

  lemma {:induction false} LinesLackNul(s: string)
    requires !HasNul(s)
    ensures NoNul(CutLines(s, true).lines) && !HasNul(CutLines(s, true).rest)
    decreases |s|
  {
    if !Undecided(s, BreakAt(s), true) {
      LinesLackNul(s[BreakAt(s) + BreakWidth(s, BreakAt(s))..]);
    }
  }

  lemma {:induction false} GroupsLackNul(open: seq<string>, lines: seq<string>)
    requires NoNul(open) && NoNul(lines)
    ensures forall k | 0 <= k < |Group(open, lines).groups| :: NoNul(Group(open, lines).groups[k])
    decreases |lines|
  {
    hide HasNul;
    if lines != [] {
      if lines[0] != "" {
        GroupsLackNul(open + [lines[0]], lines[1..]);
      } else {
        GroupsLackNul([], lines[1..]);
      }
    }
  }

  lemma {:induction false} ValuesLackNul(lines: seq<string>)
    requires NoNul(lines)
    ensures NoNul(FieldValues(lines, "id")) && IdsAgree(lines)
    decreases |lines|
  {
    if lines != [] {
      var front := lines[..|lines| - 1];
      ValuesLackNul(front);
      assert !HasNul(FieldValue(lines[|lines| - 1]));
    }
  }

  /** A text on which the readers do differ, and how they read its one block. */
  lemma NulIdIsReadDifferently()
    ensures var text := "id:\0\ndata\n\n";
            !IdsClean(text) && EventsIn(Normalize(text)) != EventsOfDecoded(OneShot(text))
    ensures var block := ["id:\0", "data"];
            && EventOf(block) == Some(ServerEvent("message", Some("\0"), ""))
            && EventOfFrame(FrameOf(1, block)) == Some(ServerEvent("message", None, ""))
  {
    hide EventsIn, Normalize, EventsOfDecoded, OneShot, IdsClean, EventOf, FrameOf;
    NulBlock();
    NulText();
    ReadersAgree("id:\0\ndata\n\n");
  }

  lemma NulText()
    ensures !IdsClean("id:\0\ndata\n\n")
  {
    hide CutLines, BreakAt, IdsAgree;
    var a, b, text := "id:\0", "data", "id:\0\ndata\n\n";
    assert BreakAt(a) == |a| && BreakAt(b) == |b| by {
      NoBreakAt(a);
      NoBreakAt(b);
    }
    assert BreakAt("") == 0 by {
      NoBreakAt("");
    }
    NoText();
    FirstOf("", "");
    FirstOf(b, "\n");
    FirstOf(a, b + "\n" + "\n");
    assert "" + "\n" + "" == "\n" && a + "\n" + (b + "\n" + "\n") == text;
    assert CutLines("\n", true) == Cut([""], "");
    assert CutLines(b + "\n" + "\n", true) == Cut([b, ""], "");
    assert AllLines(text) == [a, b, ""];
    OneBlock(a, b);
    assert !IdsAgree([a, b]) by {
      NulBlock();
    }
    assert Group([], AllLines(StripBom(text))).groups[0] == [a, b];
  }

  lemma {:induction false} NoBreakAt(s: string)
    requires forall k | 0 <= k < |s| :: !IsBreak(s[k])
    ensures BreakAt(s) == |s|
  {
    if s != "" {
      NoBreakAt(s[1..]);
    }
  }

  lemma OneBlock(a: string, b: string)
    requires a != "" && b != ""
    ensures Group([], [a, b, ""]) == Grouped([[a, b]], [])
  {
    var lines := [a, b, ""];
    assert lines[1..] == [b, ""] && lines[1..][1..] == [""] && lines[1..][1..][1..] == [];
    assert [] + [a] == [a] && [a] + [b] == [a, b];
    assert Group([a, b], [""]) == Grouped([[a, b]], []);
  }

  lemma NulBlock()
    ensures var block := ["id:\0", "data"];
            && EventOf(block) == Some(ServerEvent("message", Some("\0"), ""))
            && EventOfFrame(FrameOf(1, block)) == Some(ServerEvent("message", None, ""))
            && !IdsAgree(block)
  {
    var a, b := "id:\0", "data";
    assert ColonAt(a) == 2 by {
      assert a[1..] == "d:\0" && a[1..][1..] == ":\0";
    }
    assert a[..2] == "id" && a[3..] == "\0";
    assert ColonAt(b) == 4 by {
      assert b[1..] == "ata" && b[2..] == "ta" && b[3..] == "a";
      assert b[1..][1..] == b[2..] && b[2..][1..] == b[3..] && b[3..][1..] == "";
    }
    assert b[..4] == "data";
    assert [a, b] == [a] + [b] && [a] == [] + [a];
    forall name: string ensures FieldValues([a, b], name) == FieldValues([], name) + FieldOf(a, name) + FieldOf(b, name) {
      FieldValuesNext([a], b, name);
      FieldValuesNext([], a, name);
    }
    NulFreeNext([], "\0");
    assert [] + ["\0"] == ["\0"];
    assert NulFree(["\0"]) == [];
    assert FieldValues([a, b], "id") == ["\0"];
    assert FieldValues([a, b], "data") == [""];
    assert FieldValues([a, b], "event") == [];
    JoinOne("");
  }
}
