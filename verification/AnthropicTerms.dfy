// What the drafts of Anthropic messages (packages/normalizers/src/anthropic-messages.ts) say, in
// terms of the blocks and of the events of a stream.

module AnthropicTerms {
  import opened Wrappers
  import opened JsonValues
  import opened SseDecoding
  import opened Replay
  import opened AnthropicMessages

  // ------------------------------------------------------------ one block

  ghost predicate EndsIn(kind: string, name: string) {
    kind == name || exists front :: kind == front + "_" + name
  }

  /** The kind, unless it is the plain one. */
  function Special(kind: string, plain: string): Option<string> {
    if kind == plain then None else Some(kind)
  }

  /** The member, unless it is missing or null. */
  ghost predicate MemberOr(block: Json, name: string, fallback: Json, value: Json) {
    if exists v :: Has(block, name, v) && v != Null then Has(block, name, value) && value != Null else value == fallback
  }

  /** The draft of a whole block: by its kind a tool call, the result of one, or an item kept as it
      is; what was thought is not told. */
  ghost predicate Drafts(block: Json, kind: Option<string>, d: Draft) {
    if kind.Some? && EndsIn(kind.value, "tool_use") then
      && d.ToolCall? && d.callId == StringField(block, "id") && d.name == StringField(block, "name")
      && d.providerType == Special(kind.value, "tool_use") && MemberOr(block, "input", Obj([]), d.arguments)
    else if kind.Some? && EndsIn(kind.value, "tool_result") then
      && d.ToolResult? && d.callId == StringField(block, "tool_use_id")
      && d.providerType == Special(kind.value, "tool_result") && MemberOr(block, "content", block, d.output)
    else if kind.Some? && kind.value in {"thinking", "redacted_thinking"} then d == OpaqueItem(kind.value)
    else d == UnknownItem(if kind.Some? then kind.value else "unknown", Some(block))
  }

  lemma EndsInMeaning(kind: string, name: string)
    ensures EndsIn(kind, name) <==> kind == name || EndsWith(kind, "_" + name)
  {
    var suffix := "_" + name;
    if EndsWith(kind, suffix) {
      var front := kind[..|kind| - |suffix|];
      assert kind == front + suffix;
      assert kind == front + "_" + name;
    }
    if front :| kind == front + "_" + name {
      assert kind == front + suffix;
      assert kind[|kind| - |suffix|..] == suffix;
    }
  }

  lemma KindsInTerms(kind: Option<string>)
    ensures IsToolUse(kind) <==> kind.Some? && EndsIn(kind.value, "tool_use")
    ensures IsToolResult(kind) <==> kind.Some? && EndsIn(kind.value, "tool_result")
    ensures IsThinking(kind) <==> kind.Some? && kind.value in {"thinking", "redacted_thinking"}
  {
    hide EndsIn, EndsWith;
    if kind.Some? {
      assert "_" + "tool_use" == "_tool_use" && "_" + "tool_result" == "_tool_result";
      EndsInMeaning(kind.value, "tool_use");
      EndsInMeaning(kind.value, "tool_result");
    }
  }

  lemma OrElseInTerms(block: Json, name: string, fallback: Json)
    ensures MemberOr(block, name, fallback, OrElse(Field(block, name), fallback))
  {
    hide Has, Field;
    FieldsAreFound(block, name);
    assert forall v :: Has(block, name, v) <==> Field(block, name) == Some(v);
  }

  lemma BlockDraftInTerms(block: Json)
    ensures Drafts(block, StringField(block, "type"), BlockDraft(block))
  {
    hide EndsIn, MemberOr, StringField, Field, IsToolUse, IsToolResult, IsThinking, OrElse;
    KindsInTerms(KindOf(block));
    OrElseInTerms(block, "input", Obj([]));
    OrElseInTerms(block, "content", block);
  }

  // ------------------------------------------------------------ a streamed block

  /** The last start of a block. */
  function LastStart(pieces: seq<Piece>): Option<Json>
    decreases |pieces|
  {
    if pieces == [] then None
    else if pieces[|pieces| - 1].Start? then Some(pieces[|pieces| - 1].block)
    else LastStart(pieces[..|pieces| - 1])
  }

  /** The deltas that come after the last start, or all when there is none. */
  function Since(pieces: seq<Piece>): seq<Json>
    decreases |pieces|
  {
    if pieces == [] || pieces[|pieces| - 1].Start? then []
    else Since(pieces[..|pieces| - 1]) + [pieces[|pieces| - 1].delta]
  }

  function AllDeltas(pieces: seq<Piece>): seq<Json>
    decreases |pieces|
  {
    if pieces == [] then []
    else
      var last := pieces[|pieces| - 1];
      AllDeltas(pieces[..|pieces| - 1]) + if last.Delta? then [last.delta] else []
  }

  /** The text under a name, joined over the deltas of a kind. */
  function Spoken(deltas: seq<Json>, kind: string, name: string): string
    decreases |deltas|
  {
    if deltas == [] then ""
    else
      var last := deltas[|deltas| - 1];
      var more := if StringField(last, "type") == Some(kind) then StringField(last, name) else None;
      Spoken(deltas[..|deltas| - 1], kind, name) + if more.Some? then more.value else ""
  }

  /** The last text that a start gives under a name. */
  function LastGiven(pieces: seq<Piece>, name: string): Option<string>
    decreases |pieces|
  {
    if pieces == [] then None
    else
      var last := pieces[|pieces| - 1];
      var given := if last.Start? then StringField(last.block, name) else None;
      if given.Some? then given else LastGiven(pieces[..|pieces| - 1], name)
  }

  function FromStart(pieces: seq<Piece>, name: string): Option<string> {
    match LastStart(pieces)
    case None => None
    case Some(block) => StringField(block, name)
  }

  ghost predicate Thinks(deltas: seq<Json>) {
    exists d | d in deltas :: StringField(d, "type") in {Some("thinking_delta"), Some("signature_delta")}
  }

  /** A start sets the text and what is kept of the block anew; the argument text runs on. */
  ghost predicate BlockFits(pieces: seq<Piece>, a: ContentBlock) {
    && a.kind == LastGiven(pieces, "type") && a.id == LastGiven(pieces, "id") && a.name == LastGiven(pieces, "name")
    && a.text == (if FromStart(pieces, "text").Some? then FromStart(pieces, "text").value else "") + Spoken(Since(pieces), "text_delta", "text")
    && a.partialJson == Spoken(AllDeltas(pieces), "input_json_delta", "partial_json")
    && a.initial == LastStart(pieces)
    && a.input == (if LastStart(pieces).Some? then Field(LastStart(pieces).value, "input") else None)
    && (a.opaqueReasoning <==>
          || (LastStart(pieces).Some? && LastGiven(pieces, "type") in {Some("thinking"), Some("redacted_thinking")})
          || Thinks(Since(pieces)))
  }

  lemma DeltaKindsDiffer()
    ensures "text_delta" != "input_json_delta" && "text_delta" != "thinking_delta" && "text_delta" != "signature_delta"
    ensures "input_json_delta" != "thinking_delta" && "input_json_delta" != "signature_delta"
  {
    assert |"text_delta"| == 10 && |"input_json_delta"| == 16 && |"thinking_delta"| == 14 && |"signature_delta"| == 15;
  }

  lemma StartFits(front: seq<Piece>, a: ContentBlock, block: Json)
    requires BlockFits(front, a)
    ensures BlockFits(front + [Start(block)], ApplyStart(a, block))
  {
    hide Spoken, StringField, Field;
    var pieces := front + [Start(block)];
    assert pieces[..|pieces| - 1] == front;
    assert AllDeltas(front) + [] == AllDeltas(front);
    assert Spoken(Since(pieces), "text_delta", "text") == "" by {
      NothingSpoken();
    }
    assert forall text: string :: text + "" == text;
  }

  lemma NothingSpoken()
    ensures forall kind, name :: Spoken([], kind, name) == ""
  {
  }

  lemma {:induction false} SpokenNext(deltas: seq<Json>, d: Json, kind: string, name: string)
    ensures Spoken(deltas + [d], kind, name)
         == Spoken(deltas, kind, name) + if StringField(d, "type") == Some(kind) then Text(StringField(d, name)) else ""
  {
    hide StringField;
    assert (deltas + [d])[..|deltas|] == deltas;
  }

  lemma DeltaFits(front: seq<Piece>, a: ContentBlock, d: Json)
    requires BlockFits(front, a)
    ensures BlockFits(front + [Delta(d)], ApplyDelta(a, d))
  {
    hide Spoken, StringField, Field, Thinks, LastGiven, FromStart, LastStart, Since, AllDeltas;
    DeltaJoins(front, d);
    SpokenNext(Since(front), d, "text_delta", "text");
    SpokenNext(AllDeltas(front), d, "input_json_delta", "partial_json");
    DeltaKindsDiffer();
    ThinksNext(Since(front), d);
    assert forall x: string, y: string, z: string :: (x + y) + z == x + (y + z);
    assert forall x: string :: x + "" == x;
  }

  lemma {:induction false} DeltaJoins(front: seq<Piece>, d: Json)
    ensures var pieces := front + [Delta(d)];
            && Since(pieces) == Since(front) + [d] && AllDeltas(pieces) == AllDeltas(front) + [d]
            && LastStart(pieces) == LastStart(front) && forall name :: LastGiven(pieces, name) == LastGiven(front, name) && FromStart(pieces, name) == FromStart(front, name)
  {
    assert (front + [Delta(d)])[..|front|] == front;
  }

  lemma ThinksNext(deltas: seq<Json>, d: Json)
    ensures Thinks(deltas + [d]) <==> Thinks(deltas) || StringField(d, "type") in {Some("thinking_delta"), Some("signature_delta")}
  {
    hide StringField;
    assert d in deltas + [d];
    assert forall x | x in deltas :: x in deltas + [d];
  }

  lemma {:induction false} BlockAsTold(pieces: seq<Piece>)
    ensures BlockFits(pieces, Assembled(pieces))
    decreases |pieces|
  {
    hide BlockFits, ApplyStart, ApplyDelta;
    if pieces == [] {
      NewBlockFits();
    } else {
      var front, last := pieces[..|pieces| - 1], pieces[|pieces| - 1];
      BlockAsTold(front);
      assert pieces == front + [last];
      match last {
        case Start(block) => StartFits(front, Assembled(front), block);
        case Delta(d) => DeltaFits(front, Assembled(front), d);
      }
    }
  }

  lemma NewBlockFits()
    ensures BlockFits([], NEW_BLOCK)
  {
  }

  /** Each block of a stream is what its own starts and deltas say, replays and conflicts among
      the frames, however the blocks interleave. */
  lemma {:induction false} StreamedBlock(parse: Parser, frames: seq<Frame>, index: int)
    ensures var p := Anthropic(parse);
            var blocks, pieces := Turns(p, NO_FRAMES, frames).core.blocks, Projection(Accepted(p, NO_FRAMES, frames), index);
            && (index in blocks <==> pieces != [])
            && (index in blocks ==> BlockFits(pieces, blocks[index]))
  {
    hide Turns, Accepted, Projection, Assembled, BlockFits, BlocksOf;
    var items := Accepted(Anthropic(parse), NO_FRAMES, frames);
    LoopBlocks(parse, frames);
    BlockIsProjection(items, index);
    BlockAsTold(Projection(items, index));
  }

  /** An event gives a piece of a block: what it starts with, or a delta. */
  ghost predicate Gives(item: Item, index: int, piece: Piece) {
    && Has(item.payload, "index", Number(index as real))
    && match piece
       case Start(block) =>
         item.eventType == Some("content_block_start") && block.Obj? && Has(item.payload, "content_block", block)
       case Delta(delta) =>
         item.eventType == Some("content_block_delta") && delta.Obj? && Has(item.payload, "delta", delta)
  }

  lemma EventsDiffer()
    ensures "content_block_start" != "content_block_delta"
  {
    assert "content_block_start"[14] == 's' && "content_block_delta"[14] == 'd';
  }

  lemma RecordIs(j: Json, name: string, v: Json)
    ensures RecordField(j, name) == Some(v) <==> v.Obj? && Has(j, name, v)
  {
    hide Has;
    FieldsAreFound(j, name);
    assert v.Obj? ==> v == Obj(v.members);
  }

  lemma IndexIs(j: Json, name: string, n: int)
    ensures IntegerField(j, name) == Some(n) <==> Has(j, name, Number(n as real))
  {
    hide Has;
    FieldsAreFound(j, name);
  }

  lemma PieceInTerms(item: Item, index: int, piece: Piece)
    ensures PieceOf(item.eventType, item.payload) == Some((index, piece)) <==> Gives(item, index, piece)
  {
    hide Has, IntegerField, RecordField;
    EventsDiffer();
    IndexIs(item.payload, "index", index);
    match piece {
      case Start(block) => RecordIs(item.payload, "content_block", block);
      case Delta(delta) => RecordIs(item.payload, "delta", delta);
    }
  }

  // ------------------------------------------------------------ events beside the blocks

  function KnownEvents(): set<string> {
    {"message_start", "content_block_start", "content_block_delta", "content_block_stop", "ping", "message_delta", "message_stop",
     "error"}
  }

  function KnownDeltas(): set<string> {
    {"text_delta", "input_json_delta", "thinking_delta", "signature_delta"}
  }

  /** The type under which an event is kept aside: that of an unknown event, or of an unknown
      delta of a block. */
  function AsideType(item: Item): Option<string> {
    match item.eventType
    case None => Some("unknown")
    case Some(kind) =>
      if kind !in KnownEvents() then Some(kind)
      else
        match (kind == "content_block_delta", PieceOf(item.eventType, item.payload))
        case (true, Some((_, Delta(delta)))) =>
          var deltaType := StringField(delta, "type");
          if deltaType.None? then Some("content_block_delta") else if deltaType.value in KnownDeltas() then None else deltaType
        case _ => None
  }

  /** The reports on an event: that it lacks its index or its block, or that it is unknown. */
  function Reported(item: Item): seq<Diagnostic> {
    if item.eventType in {Some("content_block_start"), Some("content_block_delta")} && PieceOf(item.eventType, item.payload).None? then
      [Diagnostic(InvalidPayload, Some(item.frameIndex), item.eventType, false)]
    else if AsideType(item).Some? then [Diagnostic(UnsupportedEvent, Some(item.frameIndex), AsideType(item), false)]
    else []
  }

  function AsideOf(item: Item): seq<Draft> {
    if AsideType(item).None? then [] else [UnknownEvent(AsideType(item).value, Some(item.frameIndex), item.payload)]
  }

  function ErrorOf(item: Item): seq<Draft> {
    if item.eventType != Some("error") then []
    else
      match RecordField(item.payload, "error")
      case Some(error) => [ApiError(StringField(error, "type"), StringField(error, "message"))]
      case None => [ApiError(StringField(item.payload, "type"), StringField(item.payload, "message"))]
  }

  lemma EventApplied(m: Message, item: Item)
    ensures var a := Apply(m, item.frameIndex, item.eventType, item.payload);
            && a.diagnostics == Reported(item) && a.errors == 0
            && a.core.unknown == m.unknown + AsideOf(item) && a.core.terminal == m.terminal + ErrorOf(item)
            && a.core.started == m.started
               + if item.eventType == Some("message_start") && a.core.responseId.Some? then [ResponseStarted(a.core.responseId.value)] else []
  {
    hide StringField, RecordField, IntegerField, UsageOf, MergeUsage, ApplyPiece, BlockAssembly;
    assert forall x: seq<Draft> :: x + [] == x;
    PieceKinds(item);
    NamesDiffer(item.eventType);
  }

  lemma PieceKinds(item: Item)
    ensures var given := PieceOf(item.eventType, item.payload);
            given.Some? ==> if given.value.1.Start? then item.eventType == Some("content_block_start") else item.eventType == Some("content_block_delta")
  {
  }

  lemma NamesDiffer(kind: Option<string>)
    ensures kind == Some("error") ==> kind.value !in {"message_start", "content_block_start", "content_block_delta", "message_delta"}
    ensures kind == Some("message_stop") ==> kind.value !in {"content_block_stop", "ping", "content_block_delta", "content_block_start"}
    ensures kind == Some("message_delta") ==> kind.value !in {"content_block_delta", "content_block_stop", "ping"}
    ensures kind == Some("message_start") ==> kind.value !in {"content_block_delta", "content_block_start"}
  {
    assert |"error"| == 5 && |"message_start"| == 13 && |"content_block_start"| == 19 && |"content_block_delta"| == 19 && |"message_delta"| == 13;
    assert |"message_stop"| == 12 && |"content_block_stop"| == 18 && |"ping"| == 4;
  }

  function Asides(items: seq<Item>): seq<Draft>
    decreases |items|
  {
    if items == [] then [] else Asides(items[..|items| - 1]) + AsideOf(items[|items| - 1])
  }

  function Errors(items: seq<Item>): seq<Draft>
    decreases |items|
  {
    if items == [] then [] else Errors(items[..|items| - 1]) + ErrorOf(items[|items| - 1])
  }

  /** Every `message_start` tells the last identifier given so far, its own included. */
  function Starts(items: seq<Item>): seq<Draft>
    decreases |items|
  {
    if items == [] then []
    else
      Starts(items[..|items| - 1])
      + if items[|items| - 1].eventType == Some("message_start") && LastId(items).Some? then [ResponseStarted(LastId(items).value)] else []
  }

  lemma {:induction false} EventsAsTold(parse: Parser, items: seq<Item>)
    ensures var m := AppliedAll(Anthropic(parse), NOTHING_YET, items);
            m.started == Starts(items) && m.unknown == Asides(items) && m.terminal == Errors(items)
    decreases |items|
  {
    hide Apply, ReadFrame, AsideOf, ErrorOf, LastId, Counts, LastDelta;
    if items != [] {
      var front, last := items[..|items| - 1], items[|items| - 1];
      EventsAsTold(parse, front);
      EventApplied(AppliedAll(Anthropic(parse), NOTHING_YET, front), last);
      MessageAsTold(parse, items);
    }
  }

  /** Beside the blocks, a stream tells its starts, its errors and what it does not know, in the
      order they come. */
  lemma {:induction false} StreamedEvents(parse: Parser, frames: seq<Frame>)
    ensures var p := Anthropic(parse);
            var m, items := Turns(p, NO_FRAMES, frames).core, Accepted(p, NO_FRAMES, frames);
            m.started == Starts(items) && m.unknown == Asides(items) && m.terminal == Errors(items)
  {
    hide Turns, Accepted, AppliedAll, Starts, Asides, Errors;
    LoopIsFold(Anthropic(parse), NO_FRAMES, frames);
    EventsAsTold(parse, Accepted(Anthropic(parse), NO_FRAMES, frames));
  }

  // ------------------------------------------------------------ the drafts of streamed blocks

  /** The draft of a streamed block that is no text. */
  ghost predicate StreamDrafts(parse: Parser, a: ContentBlock, d: Draft) {
    if a.kind.Some? && EndsIn(a.kind.value, "tool_use") then
      && d.ToolCall? && d.callId == a.id && d.name == a.name && d.providerType == Special(a.kind.value, "tool_use")
      && if a.partialJson != "" then
           match parse(a.partialJson)
           case Some(value) => d.arguments == value
           case None => d.arguments == Str(a.partialJson)
         else if a.input.None? || a.input == Some(Null) then d.arguments == Obj([])
         else d.arguments == a.input.value
    else if a.opaqueReasoning then d == OpaqueItem(if a.kind.Some? then a.kind.value else "thinking")
    else d == UnknownItem(if a.kind.Some? then a.kind.value else "unknown", a.initial)
  }

  lemma StreamDraftInTerms(parse: Parser, a: ContentBlock)
    ensures StreamDrafts(parse, a, AssemblyDraft(parse, a))
  {
    hide EndsIn, IsToolUse;
    KindsInTerms(a.kind);
  }
}
