// ContentBlock of Anthropic messages (packages/normalizers/src/anthropic-messages.ts): the
// drafts of a whole message, and the same drafts put together from streamed blocks.

module AnthropicMessages {
  import opened Wrappers
  import TextLines
  import opened Ordering
  import opened JsonValues
  import opened SseDecoding
  import opened Replay

  datatype Usage = Usage(
    inputTokens: Option<nat>, outputTokens: Option<nat>, cacheCreationInputTokens: Option<nat>, cacheReadInputTokens: Option<nat>)

  datatype Draft =
    | AssistantMessage(messageId: Option<string>, text: string)
    | ToolCall(callId: Option<string>, name: Option<string>, arguments: Json, providerType: Option<string>)
    | ToolResult(callId: Option<string>, output: Json, providerType: Option<string>)
    | OpaqueItem(itemType: string)
    | UnknownItem(itemType: string, block: Option<Json>)
    | UnknownEvent(eventType: string, frameIndex: Option<nat>, payload: Json)
    | ApiError(kind: Option<string>, message: Option<string>)
    | ResponseStarted(responseId: string)

  datatype ContentBlock = ContentBlock(
    kind: Option<string>, id: Option<string>, name: Option<string>, text: string, partialJson: string,
    input: Option<Json>, initial: Option<Json>, opaqueReasoning: bool)

  /** What a stream has told so far. */
  datatype Message = Message(
    blocks: map<int, ContentBlock>,
    started: seq<Draft>,
    unknown: seq<Draft>,
    terminal: seq<Draft>,
    responseId: Option<string>,
    stopReason: Option<string>,
    stopSequence: Option<string>,
    usage: Option<Usage>,
    stopped: bool)

  const NOTHING_YET := Message(map[], [], [], [], None, None, None, None, false)

  const NEW_BLOCK := ContentBlock(None, None, None, "", "", None, None, false)

  // ------------------------------------------------------------ usage

  function UsageOf(value: Option<Json>): Option<Usage> {
    if value.None? || !value.value.Obj? then None
    else
      var j := value.value;
      var u := Usage(TokenField(j, "input_tokens"), TokenField(j, "output_tokens"),
                     TokenField(j, "cache_creation_input_tokens"), TokenField(j, "cache_read_input_tokens"));
      if u == Usage(None, None, None, None) then None else Some(u)
  }

  function MergeUsage(current: Option<Usage>, next: Option<Usage>): Option<Usage> {
    if next.None? then current
    else if current.None? then next
    else
      var c, n := current.value, next.value;
      Some(Usage(Or(n.inputTokens, c.inputTokens), Or(n.outputTokens, c.outputTokens),
                 Or(n.cacheCreationInputTokens, c.cacheCreationInputTokens), Or(n.cacheReadInputTokens, c.cacheReadInputTokens)))
  }

  // ------------------------------------------------------------ whole messages

  predicate EndsWith(s: string, suffix: string) {
    |suffix| <= |s| && s[|s| - |suffix|..] == suffix
  }

  predicate IsToolUse(kind: Option<string>) {
    kind.Some? && (kind.value == "tool_use" || EndsWith(kind.value, "_tool_use"))
  }

  predicate IsToolResult(kind: Option<string>) {
    kind.Some? && (kind.value == "tool_result" || EndsWith(kind.value, "_tool_result"))
  }

  predicate IsThinking(kind: Option<string>) {
    kind == Some("thinking") || kind == Some("redacted_thinking")
  }

  function KindOf(block: Json): Option<string> {
    StringField(block, "type")
  }

  function Arguments(input: Option<Json>): Json {
    OrElse(input, Obj([]))
  }

  /** The draft of a block that is no text. */
  function BlockDraft(block: Json): Draft {
    var kind := KindOf(block);
    if IsToolUse(kind) then
      ToolCall(StringField(block, "id"), StringField(block, "name"), Arguments(Field(block, "input")),
               if kind == Some("tool_use") then None else kind)
    else if IsToolResult(kind) then
      ToolResult(StringField(block, "tool_use_id"), OrElse(Field(block, "content"), block),
                 if kind == Some("tool_result") then None else kind)
    else if IsThinking(kind) then OpaqueItem(kind.value)
    else UnknownItem(if kind.Some? then kind.value else "unknown", Some(block))
  }

  function TextsOf(content: seq<Json>): seq<string>
    decreases |content|
  {
    if content == [] then []
    else
      var b := content[|content| - 1];
      TextsOf(content[..|content| - 1])
      + if b.Obj? && KindOf(b) == Some("text") then [Text(StringField(b, "text"))] else []
  }

  function ItemsOf(content: seq<Json>): seq<Draft>
    decreases |content|
  {
    if content == [] then []
    else
      var b := content[|content| - 1];
      ItemsOf(content[..|content| - 1]) + if b.Obj? && KindOf(b) != Some("text") then [BlockDraft(b)] else []
  }

  /** The assistant's text in front, if there is any text block at all. */
  function WithText(texts: seq<string>, items: seq<Draft>, responseId: Option<string>): seq<Draft> {
    (if texts == [] then [] else [AssistantMessage(responseId, TextLines.Concat(texts))]) + items
  }

  function WholeDrafts(content: seq<Json>, responseId: Option<string>): seq<Draft> {
    WithText(TextsOf(content), ItemsOf(content), responseId)
  }

  lemma NoBlocks()
    ensures TextsOf([]) == [] && ItemsOf([]) == []
  {
  }

  lemma NextBlock(content: seq<Json>, i: nat)
    requires i < |content|
    ensures var b, texts, items := content[i], TextsOf(content[..i]), ItemsOf(content[..i]);
            && TextsOf(content[..i + 1]) == (if b.Obj? && KindOf(b) == Some("text") then texts + [Text(StringField(b, "text"))] else texts)
            && ItemsOf(content[..i + 1]) == (if b.Obj? && KindOf(b) != Some("text") then items + [BlockDraft(b)] else items)
  {
    hide BlockDraft, KindOf, StringField;
    assert content[..i + 1][..i] == content[..i];
  }

  /** One pass over the blocks; an entry that is no object is reported and left out. */
  method ContentBlockDrafts(content: seq<Json>, responseId: Option<string>) returns (drafts: seq<Draft>, invalid: nat)
    ensures drafts == WholeDrafts(content, responseId)
    ensures invalid == 0 <==> forall b | b in content :: b.Obj?
  {
    hide BlockDraft, TextLines.Concat, KindOf, StringField, TextsOf, ItemsOf;
    drafts, invalid := [], 0;
    var text := [];
    NoBlocks();
    for i := 0 to |content|
      invariant text == TextsOf(content[..i]) && drafts == ItemsOf(content[..i])
      invariant invalid == 0 <==> forall b | b in content[..i] :: b.Obj?
    {
      NextBlock(content, i);
      assert content[..i + 1] == content[..i] + [content[i]];
      var block := content[i];
      if !block.Obj? {
        invalid := invalid + 1;
      } else if KindOf(block) == Some("text") {
        text := text + [Text(StringField(block, "text"))];
      } else {
        drafts := drafts + [BlockDraft(block)];
      }
    }
    assert content[..|content|] == content;
    if |text| > 0 {
      drafts := [AssistantMessage(responseId, TextLines.Concat(text))] + drafts;
    }
  }

  // ------------------------------------------------------------ streamed blocks

  /** A start or a delta of one block. */
  datatype Piece = Start(block: Json) | Delta(delta: Json)

  function BlockAssembly(blocks: map<int, ContentBlock>, index: int): ContentBlock {
    if index in blocks then blocks[index] else NEW_BLOCK
  }

  function ApplyStart(a: ContentBlock, block: Json): ContentBlock {
    var kind := Or(StringField(block, "type"), a.kind);
    ContentBlock(kind, Or(StringField(block, "id"), a.id), Or(StringField(block, "name"), a.name),
             Text(StringField(block, "text")), a.partialJson, Field(block, "input"), Some(block), IsThinking(kind))
  }

  function ApplyDelta(a: ContentBlock, delta: Json): ContentBlock {
    var kind := KindOf(delta);
    if kind == Some("text_delta") then a.(text := a.text + Text(StringField(delta, "text")))
    else if kind == Some("input_json_delta") then a.(partialJson := a.partialJson + Text(StringField(delta, "partial_json")))
    else if kind == Some("thinking_delta") || kind == Some("signature_delta") then a.(opaqueReasoning := true)
    else a
  }

  function ApplyPiece(a: ContentBlock, p: Piece): ContentBlock {
    match p
    case Start(block) => ApplyStart(a, block)
    case Delta(delta) => ApplyDelta(a, delta)
  }

  predicate KnownDelta(delta: Json) {
    KindOf(delta) in {Some("text_delta"), Some("input_json_delta"), Some("thinking_delta"), Some("signature_delta")}
  }

  /** The piece that a payload brings, with the index of its block. */
  function PieceOf(eventType: Option<string>, payload: Json): Option<(int, Piece)> {
    var index := IntegerField(payload, "index");
    if eventType == Some("content_block_start") then
      var block := RecordField(payload, "content_block");
      if index.None? || block.None? then None else Some((index.value, Start(block.value)))
    else if eventType == Some("content_block_delta") then
      var delta := RecordField(payload, "delta");
      if index.None? || delta.None? then None else Some((index.value, Delta(delta.value)))
    else None
  }

  function Report(kind: DiagnosticKind, frameIndex: nat, eventType: Option<string>): Diagnostic {
    Diagnostic(kind, Some(frameIndex), eventType, false)
  }

  function ApplyContent(m: Message, frameIndex: nat, eventType: Option<string>, payload: Json): Applied<Message> {
    match PieceOf(eventType, payload)
    case None => Applied(m, [Report(InvalidPayload, frameIndex, eventType)], 0)
    case Some((index, piece)) =>
      var next := m.(blocks := m.blocks[index := ApplyPiece(BlockAssembly(m.blocks, index), piece)]);
      if piece.Start? || KnownDelta(piece.delta) then Applied(next, [], 0)
      else
        var kind := Or(KindOf(piece.delta), Some("content_block_delta"));
        Applied(next.(unknown := next.unknown + [UnknownEvent(kind.value, Some(frameIndex), payload)]),
                [Report(UnsupportedEvent, frameIndex, kind)], 0)
  }

  /** The switch over the event types. */
  function Apply(m: Message, frameIndex: nat, eventType: Option<string>, payload: Json): Applied<Message> {
    if eventType == Some("message_start") then
      var message := RecordField(payload, "message");
      var id := Or(if message.Some? then StringField(message.value, "id") else None, m.responseId);
      var reported := UsageOf(if message.Some? then Field(message.value, "usage") else None);
      Applied(m.(responseId := id, usage := MergeUsage(m.usage, reported),
                 started := m.started + if id.Some? then [ResponseStarted(id.value)] else []), [], 0)
    else if eventType == Some("content_block_start") || eventType == Some("content_block_delta") then
      ApplyContent(m, frameIndex, eventType, payload)
    else if eventType == Some("content_block_stop") || eventType == Some("ping") then Applied(m, [], 0)
    else if eventType == Some("message_delta") then
      var delta := RecordField(payload, "delta");
      Applied(m.(stopReason := Or(if delta.Some? then StringField(delta.value, "stop_reason") else None, m.stopReason),
                 stopSequence := Or(if delta.Some? then StringField(delta.value, "stop_sequence") else None, m.stopSequence),
                 usage := MergeUsage(m.usage, UsageOf(Field(payload, "usage")))), [], 0)
    else if eventType == Some("message_stop") then Applied(m.(stopped := true), [], 0)
    else if eventType == Some("error") then
      var error := Or(RecordField(payload, "error"), Some(payload)).value;
      Applied(m.(terminal := m.terminal + [ApiError(StringField(error, "type"), StringField(error, "message"))]), [], 0)
    else
      var kind := Or(eventType, Some("unknown"));
      Applied(m.(unknown := m.unknown + [UnknownEvent(kind.value, Some(frameIndex), payload)]),
              [Report(UnsupportedEvent, frameIndex, kind)], 0)
  }

  // ------------------------------------------------------------ drafts of streamed blocks

  function StreamedArguments(parse: Parser, a: ContentBlock): Json {
    if a.partialJson == "" then Arguments(a.input)
    else
      var parsed := parse(a.partialJson);
      if parsed.Some? then parsed.value else Str(a.partialJson)
  }

  function AssemblyDraft(parse: Parser, a: ContentBlock): Draft {
    if IsToolUse(a.kind) then
      ToolCall(a.id, a.name, StreamedArguments(parse, a), if a.kind == Some("tool_use") then None else a.kind)
    else if a.opaqueReasoning then OpaqueItem(if a.kind.Some? then a.kind.value else "thinking")
    else UnknownItem(if a.kind.Some? then a.kind.value else "unknown", a.initial)
  }

  function AssemblyTexts(assemblies: seq<ContentBlock>): seq<string>
    decreases |assemblies|
  {
    if assemblies == [] then []
    else
      var a := assemblies[|assemblies| - 1];
      AssemblyTexts(assemblies[..|assemblies| - 1]) + if a.kind == Some("text") then [a.text] else []
  }

  function AssemblyItems(parse: Parser, assemblies: seq<ContentBlock>): seq<Draft>
    decreases |assemblies|
  {
    if assemblies == [] then []
    else
      var a := assemblies[|assemblies| - 1];
      AssemblyItems(parse, assemblies[..|assemblies| - 1]) + if a.kind == Some("text") then [] else [AssemblyDraft(parse, a)]
  }

  function StreamedDrafts(parse: Parser, assemblies: seq<ContentBlock>, responseId: Option<string>): seq<Draft> {
    WithText(AssemblyTexts(assemblies), AssemblyItems(parse, assemblies), responseId)
  }

  predicate IntLe(a: int, b: int) {
    a <= b
  }

  /** The indexes of the blocks in ascending order. */
  ghost predicate InOrder(blocks: map<int, ContentBlock>, indexes: seq<int>) {
    (forall i, j | 0 <= i < j < |indexes| :: indexes[i] < indexes[j]) && forall i :: i in indexes <==> i in blocks
  }

  function Select(blocks: map<int, ContentBlock>, indexes: seq<int>): seq<ContentBlock>
    requires forall k | 0 <= k < |indexes| :: indexes[k] in blocks
  {
    seq(|indexes|, k requires 0 <= k < |indexes| => blocks[indexes[k]])
  }

  lemma OneOrder(blocks: map<int, ContentBlock>, x: seq<int>, y: seq<int>)
    requires InOrder(blocks, x) && InOrder(blocks, y)
    ensures x == y
  {
    forall i: int ensures i in x <==> i in y {
      assert i in x <==> i in blocks;
    }
    SameElementsSameMultiset(x, y);
    SortedOnce(x, y, IntLe);
  }

  method SortedIndexes(blocks: map<int, ContentBlock>) returns (indexes: seq<int>)
    ensures InOrder(blocks, indexes)
  {
    var found := ToSequence(blocks.Keys);
    indexes := Sort(found, IntLe);
    SortSorts(found, IntLe);
    DistinctCounts(found);
    CountedOnceIsDistinct(indexes);
    forall i: int ensures i in indexes <==> i in blocks {
      assert i in indexes <==> i in multiset(indexes);
      assert i in found <==> i in blocks.Keys;
    }
  }

  method AssembledBlockDrafts(parse: Parser, blocks: map<int, ContentBlock>, responseId: Option<string>, ghost order: seq<int>)
    returns (drafts: seq<Draft>)
    requires InOrder(blocks, order) && forall k | 0 <= k < |order| :: order[k] in blocks
    ensures drafts == StreamedDrafts(parse, Select(blocks, order), responseId)
  {
    hide AssemblyDraft, TextLines.Concat;
    var indexes := SortedIndexes(blocks);
    OneOrder(blocks, indexes, order);
    var assemblies := Select(blocks, indexes);
    drafts := [];
    var text := [];
    for i := 0 to |assemblies|
      invariant text == AssemblyTexts(assemblies[..i]) && drafts == AssemblyItems(parse, assemblies[..i])
    {
      assert assemblies[..i + 1][..i] == assemblies[..i];
      var assembly := assemblies[i];
      if assembly.kind == Some("text") {
        text := text + [assembly.text];
      } else {
        drafts := drafts + [AssemblyDraft(parse, assembly)];
      }
    }
    assert assemblies[..|assemblies|] == assemblies;
    if |text| > 0 {
      drafts := [AssistantMessage(responseId, TextLines.Concat(text))] + drafts;
    }
  }

  // ------------------------------------------------------------ the frame loop

  function EraseDraft(d: Draft): Draft {
    if d.UnknownEvent? then d.(frameIndex := None) else d
  }

  function EraseDrafts(drafts: seq<Draft>): seq<Draft> {
    seq(|drafts|, i requires 0 <= i < |drafts| => EraseDraft(drafts[i]))
  }

  function Erase(m: Message): Message {
    m.(unknown := EraseDrafts(m.unknown))
  }

  function Anthropic(parse: Parser): Provider<Message> {
    Provider(frame => ReadFrame(parse, frame), Apply, Erase)
  }

  const NO_FRAMES := Opening(NOTHING_YET)

  lemma EraseNext(drafts: seq<Draft>, d: Draft)
    ensures EraseDrafts(drafts + [d]) == EraseDrafts(drafts) + [EraseDraft(d)]
  {
  }

  lemma EraseOnlyUnknown(m: Message, n: Message)
    requires Erase(m) == Erase(n)
    ensures n == m.(unknown := n.unknown) && EraseDrafts(m.unknown) == EraseDrafts(n.unknown)
  {
    assert Erase(m).(unknown := []) == m.(unknown := []) && Erase(n).(unknown := []) == n.(unknown := []);
  }

  lemma ContentIsPlaceFree(m: Message, n: Message, i: nat, j: nat, eventType: Option<string>, payload: Json)
    requires Erase(m) == Erase(n)
    ensures var a, b := ApplyContent(m, i, eventType, payload), ApplyContent(n, j, eventType, payload);
            Erase(a.core) == Erase(b.core) && Unplaced(a.diagnostics) == Unplaced(b.diagnostics) && a.errors == b.errors
  {
    hide PieceOf, ApplyPiece, Lookup, EraseDrafts, KindOf;
    EraseOnlyUnknown(m, n);
    var a, b := ApplyContent(m, i, eventType, payload), ApplyContent(n, j, eventType, payload);
    if |a.core.unknown| > |m.unknown| {
      EraseNext(m.unknown, a.core.unknown[|m.unknown|]);
      EraseNext(n.unknown, b.core.unknown[|n.unknown|]);
    }
  }

  lemma ApplyIsPlaceFree(m: Message, n: Message, i: nat, j: nat, eventType: Option<string>, payload: Json)
    requires Erase(m) == Erase(n)
    ensures var a, b := Apply(m, i, eventType, payload), Apply(n, j, eventType, payload);
            Erase(a.core) == Erase(b.core) && Unplaced(a.diagnostics) == Unplaced(b.diagnostics) && a.errors == b.errors
  {
    hide ApplyContent, UsageOf, MergeUsage, Lookup, StringField, RecordField, EraseDrafts;
    EraseOnlyUnknown(m, n);
    ContentIsPlaceFree(m, n, i, j, eventType, payload);
    var kind := Or(eventType, Some("unknown")).value;
    EraseNext(m.unknown, UnknownEvent(kind, Some(i), payload));
    EraseNext(n.unknown, UnknownEvent(kind, Some(j), payload));
  }

  /** So replays and conflicts are transparent to the Anthropic loop. */
  lemma AnthropicIsPlaceFree(parse: Parser)
    ensures PlaceFree(Anthropic(parse))
  {
    hide Apply, Erase, ReadFrame;
    var p := Anthropic(parse);
    forall f, g | SameFrame(f, g) ensures p.read(f) == p.read(g) {
      ReadIsPlaceFree(parse, f, g);
    }
    forall c, d, i, j, t, x | p.erase(c) == p.erase(d)
      ensures var a, b := p.apply(c, i, t, x), p.apply(d, j, t, x);
              p.erase(a.core) == p.erase(b.core) && Unplaced(a.diagnostics) == Unplaced(b.diagnostics) && a.errors == b.errors
    {
      ApplyIsPlaceFree(c, d, i, j, t, x);
    }
  }

  /** A frame that comes again, or comes with other content, under an identity that was accepted
      before leaves the blocks and everything else the loop assembles as they are. */
  lemma {:induction false} AnthropicIgnores(parse: Parser, a: seq<Frame>, c: Frame, b: seq<Frame>, b': seq<Frame>, i: nat, identity: string)
    requires i < |a| && FirstWith(Anthropic(parse), a, i, identity) && Anthropic(parse).read(c).Payload?
    requires Identified(Anthropic(parse), c, identity) && SameFrames(b, b')
    ensures var whole, plain := Turns(Anthropic(parse), NO_FRAMES, a + [c] + b'), Turns(Anthropic(parse), NO_FRAMES, a + b);
            && whole.core == plain.core.(unknown := whole.core.unknown)
            && EraseDrafts(whole.core.unknown) == EraseDrafts(plain.core.unknown)
            && |whole.parserErrors| == |plain.parserErrors|
            && |whole.duplicateErrors| == |plain.duplicateErrors| + if Fingerprint(a[i]) == Fingerprint(c) then 0 else 1
  {
    hide PlaceFree, Turns, FirstWith, Identified, SameFrames, Fingerprint, ReadFrame, Apply, EraseDrafts, OneMore;
    var p := Anthropic(parse);
    AnthropicIsPlaceFree(parse);
    InsertedFrame(p, NO_FRAMES, a, c, b, b', i, identity);
    EraseOnlyUnknown(Turns(p, NO_FRAMES, a + b).core, Turns(p, NO_FRAMES, a + [c] + b').core);
  }

  // ------------------------------------------------------------ what else is told

  /** The usage that an event reports. */
  function UsageGiven(item: Item): Option<Json> {
    if item.eventType == Some("message_start") then
      match RecordField(item.payload, "message")
      case None => None
      case Some(message) => Field(message, "usage")
    else if item.eventType == Some("message_delta") then Field(item.payload, "usage")
    else None
  }

  /** The last count reported under a name. */
  function LastCount(items: seq<Item>, name: string): Option<nat>
    decreases |items|
  {
    if items == [] then None
    else
      var given := UsageGiven(items[|items| - 1]);
      var count := if given.Some? then TokenField(given.value, name) else None;
      if count.Some? then count else LastCount(items[..|items| - 1], name)
  }

  function Counts(items: seq<Item>): Usage {
    Usage(LastCount(items, "input_tokens"), LastCount(items, "output_tokens"),
          LastCount(items, "cache_creation_input_tokens"), LastCount(items, "cache_read_input_tokens"))
  }

  function DeltaField(item: Item, name: string): Option<string> {
    match RecordField(item.payload, "delta")
    case None => None
    case Some(delta) => StringField(delta, name)
  }

  /** The last text that a `message_delta` gives under a name. */
  function LastDelta(items: seq<Item>, name: string): Option<string>
    decreases |items|
  {
    if items == [] then None
    else
      var last := items[|items| - 1];
      var text := if last.eventType == Some("message_delta") then DeltaField(last, name) else None;
      if text.Some? then text else LastDelta(items[..|items| - 1], name)
  }

  /** The identifier of the last `message_start` that has one. */
  function LastId(items: seq<Item>): Option<string>
    decreases |items|
  {
    if items == [] then None
    else
      var last := items[|items| - 1];
      var message := if last.eventType == Some("message_start") then RecordField(last.payload, "message") else None;
      var id := if message.Some? then StringField(message.value, "id") else None;
      if id.Some? then id else LastId(items[..|items| - 1])
  }

  const NO_COUNTS := Usage(None, None, None, None)

  function Reported(counts: Usage): Option<Usage> {
    if counts == NO_COUNTS then None else Some(counts)
  }

  /** A count reported later takes the place of an earlier one, each under its own name. */
  lemma MergedCounts(items: seq<Item>, last: Item, current: Option<Usage>)
    requires current == Reported(Counts(items))
    ensures MergeUsage(current, UsageOf(UsageGiven(last))) == Reported(Counts(items + [last]))
  {
    hide TokenField, UsageGiven;
    assert (items + [last])[..|items|] == items;
    var given := UsageGiven(last);
    if given.Some? && !given.value.Obj? {
      NoCounts(given.value);
    }
  }

  lemma NoCounts(j: Json)
    requires !j.Obj?
    ensures forall name :: TokenField(j, name) == None
  {
  }

  lemma TextsDiffer()
    ensures "message_start" != "message_delta" && "message_stop" != "message_start" && "message_stop" != "message_delta"
  {
    assert |"message_stop"| == 12 && |"message_start"| == 13 && |"message_delta"| == 13;
    assert "message_start"[8] == 's' && "message_delta"[8] == 'd';
  }

  lemma ApplyTells(m: Message, item: Item)
    ensures var next := Apply(m, item.frameIndex, item.eventType, item.payload).core;
            && next.usage == MergeUsage(m.usage, UsageOf(UsageGiven(item)))
            && next.stopReason == Or(if item.eventType == Some("message_delta") then DeltaField(item, "stop_reason") else None, m.stopReason)
            && next.stopSequence == Or(if item.eventType == Some("message_delta") then DeltaField(item, "stop_sequence") else None, m.stopSequence)
            && next.responseId == Or(
                 if item.eventType == Some("message_start") && RecordField(item.payload, "message").Some?
                 then StringField(RecordField(item.payload, "message").value, "id") else None, m.responseId)
            && next.stopped == (m.stopped || item.eventType == Some("message_stop"))
  {
    hide PieceOf, ApplyPiece, Lookup, StringField, RecordField, UsageOf;
    TextsDiffer();
    NothingReported(m.usage);
  }

  lemma NothingReported(current: Option<Usage>)
    ensures MergeUsage(current, UsageOf(None)) == current
  {
  }

  /** Whatever events come: each count, the stop reason, the stop sequence and the identifier are
      the last ones given, and the message has stopped once it was told so. */
  lemma {:induction false} MessageAsTold(parse: Parser, items: seq<Item>)
    ensures var m := AppliedAll(Anthropic(parse), NOTHING_YET, items);
            && m.usage == Reported(Counts(items))
            && m.stopReason == LastDelta(items, "stop_reason") && m.stopSequence == LastDelta(items, "stop_sequence")
            && m.responseId == LastId(items)
            && (m.stopped <==> exists item | item in items :: item.eventType == Some("message_stop"))
    decreases |items|
  {
    hide Apply, ReadFrame, UsageOf, MergeUsage, UsageGiven, StringField, RecordField, TokenField;
    if items != [] {
      var front, last := items[..|items| - 1], items[|items| - 1];
      MessageAsTold(parse, front);
      var before := AppliedAll(Anthropic(parse), NOTHING_YET, front);
      ApplyTells(before, last);
      assert front + [last] == items;
      MergedCounts(front, last, before.usage);
    }
  }

  /** The same for the frames of a stream, replays and conflicts among them. */
  lemma {:induction false} StreamAsTold(parse: Parser, frames: seq<Frame>)
    ensures var p := Anthropic(parse);
            var m, items := Turns(p, NO_FRAMES, frames).core, Accepted(p, NO_FRAMES, frames);
            && m.usage == Reported(Counts(items))
            && m.stopReason == LastDelta(items, "stop_reason") && m.stopSequence == LastDelta(items, "stop_sequence")
            && m.responseId == LastId(items)
            && (m.stopped <==> exists item | item in items :: item.eventType == Some("message_stop"))
  {
    hide Turns, Accepted, AppliedAll, Counts, LastDelta, LastId;
    LoopIsFold(Anthropic(parse), NO_FRAMES, frames);
    MessageAsTold(parse, Accepted(Anthropic(parse), NO_FRAMES, frames));
  }

  // ------------------------------------------------------------ streamed equals whole

  function AddPiece(blocks: map<int, ContentBlock>, item: Item): map<int, ContentBlock> {
    match PieceOf(item.eventType, item.payload)
    case None => blocks
    case Some((index, piece)) => blocks[index := ApplyPiece(BlockAssembly(blocks, index), piece)]
  }

  function BlocksOf(items: seq<Item>): map<int, ContentBlock>
    decreases |items|
  {
    if items == [] then map[] else AddPiece(BlocksOf(items[..|items| - 1]), items[|items| - 1])
  }

  lemma ApplyAddsPiece(m: Message, frameIndex: nat, eventType: Option<string>, payload: Json)
    ensures Apply(m, frameIndex, eventType, payload).core.blocks == AddPiece(m.blocks, Item(frameIndex, eventType, payload))
  {
    hide ApplyPiece, UsageOf, MergeUsage, Lookup;
  }

  /** The loop's blocks come from the accepted payloads alone. */
  lemma {:induction false} LoopBlocks(parse: Parser, frames: seq<Frame>)
    ensures var p := Anthropic(parse);
            Turns(p, NO_FRAMES, frames).core.blocks == BlocksOf(Accepted(p, NO_FRAMES, frames))
  {
    hide Turns, Accepted, ReadFrame, Apply;
    LoopIsFold(Anthropic(parse), NO_FRAMES, frames);
    FoldBlocks(parse, Accepted(Anthropic(parse), NO_FRAMES, frames));
  }

  lemma {:induction false} FoldBlocks(parse: Parser, items: seq<Item>)
    ensures AppliedAll(Anthropic(parse), NOTHING_YET, items).blocks == BlocksOf(items)
    decreases |items|
  {
    hide Apply, AddPiece, ReadFrame;
    if items != [] {
      var front, last := items[..|items| - 1], items[|items| - 1];
      FoldBlocks(parse, front);
      ApplyAddsPiece(AppliedAll(Anthropic(parse), NOTHING_YET, front), last.frameIndex, last.eventType, last.payload);
    }
  }

  /** The pieces of one block, in the order they come. */
  function Projection(items: seq<Item>, index: int): seq<Piece>
    decreases |items|
  {
    if items == [] then []
    else
      var item := items[|items| - 1];
      Projection(items[..|items| - 1], index)
      + match PieceOf(item.eventType, item.payload)
        case Some((i, piece)) => if i == index then [piece] else []
        case None => []
  }

  function Assembled(pieces: seq<Piece>): ContentBlock
    decreases |pieces|
  {
    if pieces == [] then NEW_BLOCK else ApplyPiece(Assembled(pieces[..|pieces| - 1]), pieces[|pieces| - 1])
  }

  /** Blocks do not disturb each other, however their pieces interleave. */
  lemma {:induction false} BlockIsProjection(items: seq<Item>, index: int)
    ensures index in BlocksOf(items) <==> Projection(items, index) != []
    ensures BlockAssembly(BlocksOf(items), index) == Assembled(Projection(items, index))
    decreases |items|
  {
    hide PieceOf, ApplyPiece;
    if items != [] {
      var front, item := items[..|items| - 1], items[|items| - 1];
      BlockIsProjection(front, index);
      var pieces := Projection(front, index);
      match PieceOf(item.eventType, item.payload) {
        case Some((i, piece)) =>
          if i == index {
            assert (pieces + [piece])[..|pieces|] == pieces;
          } else {
            assert pieces + [] == pieces;
          }
        case None => assert pieces + [] == pieces;
      }
    }
  }

  /** The joined text of a field of the deltas. */
  function Pieced(deltas: seq<Json>, name: string): string
    decreases |deltas|
  {
    if deltas == [] then "" else Pieced(deltas[..|deltas| - 1], name) + Text(StringField(deltas[|deltas| - 1], name))
  }

  datatype Cut = Cut(start: Json, deltas: seq<Json>)

  ghost predicate DeltasOfKind(deltas: seq<Json>, kinds: set<string>) {
    forall d | d in deltas :: KindOf(d).Some? && KindOf(d).value in kinds
  }

  /** The input of a tool call, null when it has none. */
  function InputOf(block: Json): Json {
    match Field(block, "input")
    case Some(input) => input
    case None => Null
  }

  /** One way of streaming a block: what it starts with, and deltas that complete it. */
  ghost predicate Cuts(parse: Parser, block: Json, cut: Cut) {
    var kind := KindOf(block);
    && block.Obj? && cut.start.Obj? && KindOf(cut.start) == kind
    && if kind == Some("text") then
         && DeltasOfKind(cut.deltas, {"text_delta"})
         && Text(StringField(cut.start, "text")) + Pieced(cut.deltas, "text") == Text(StringField(block, "text"))
       else if IsToolUse(kind) then
         && DeltasOfKind(cut.deltas, {"input_json_delta"})
         && StringField(cut.start, "id") == StringField(block, "id") && StringField(cut.start, "name") == StringField(block, "name")
         && var json := Pieced(cut.deltas, "partial_json");
            if json == "" then Arguments(Field(cut.start, "input")) == Arguments(Field(block, "input"))
            else parse(json) == Some(InputOf(block))
       else if IsThinking(kind) then DeltasOfKind(cut.deltas, {"thinking_delta", "signature_delta"})
       else cut.start == block && cut.deltas == []
  }

  function PiecesOf(cut: Cut): seq<Piece> {
    [Start(cut.start)] + seq(|cut.deltas|, i requires 0 <= i < |cut.deltas| => Delta(cut.deltas[i]))
  }

  /** `items` streams `content`: block by block a start and its deltas, in any interleaving
      with each other and with other events. */
  ghost predicate StreamOf(parse: Parser, content: seq<Json>, cuts: seq<Cut>, indexes: seq<int>, items: seq<Item>) {
    && |content| == |cuts| == |indexes|
    && (forall i, j | 0 <= i < j < |indexes| :: indexes[i] < indexes[j])
    && (forall index :: index in indexes <==> Projection(items, index) != [])
    && (forall k | 0 <= k < |content| :: Projection(items, indexes[k]) == PiecesOf(cuts[k]) && Cuts(parse, content[k], cuts[k]))
  }

  lemma PiecesFront(cut: Cut)
    requires cut.deltas != []
    ensures var n := |cut.deltas| - 1;
            PiecesOf(cut) == PiecesOf(Cut(cut.start, cut.deltas[..n])) + [Delta(cut.deltas[n])]
  {
  }

  lemma AssembledStart(start: Json)
    ensures Assembled(PiecesOf(Cut(start, []))) == ApplyStart(NEW_BLOCK, start)
  {
    assert PiecesOf(Cut(start, [])) == [Start(start)];
    assert [Start(start)][..0] == [];
  }

  lemma AssembledNext(cut: Cut)
    requires cut.deltas != []
    ensures var n := |cut.deltas| - 1;
            Assembled(PiecesOf(cut)) == ApplyDelta(Assembled(PiecesOf(Cut(cut.start, cut.deltas[..n]))), cut.deltas[n])
  {
    hide ApplyDelta, ApplyStart;
    var n := |cut.deltas| - 1;
    PiecesFront(cut);
    var front := PiecesOf(Cut(cut.start, cut.deltas[..n]));
    assert (front + [Delta(cut.deltas[n])])[..|front|] == front;
  }

  lemma {:induction false} TextDeltas(start: Json, deltas: seq<Json>)
    requires DeltasOfKind(deltas, {"text_delta"})
    ensures var a := ApplyStart(NEW_BLOCK, start);
            Assembled(PiecesOf(Cut(start, deltas))) == a.(text := a.text + Pieced(deltas, "text"))
    decreases |deltas|
  {
    hide ApplyStart, PiecesOf, Assembled, StringField;
    if deltas == [] {
      AssembledStart(start);
    } else {
      TextDeltas(start, deltas[..|deltas| - 1]);
      AssembledNext(Cut(start, deltas));
      assert KindOf(deltas[|deltas| - 1]) == Some("text_delta");
    }
  }

  lemma {:induction false} JsonDeltas(start: Json, deltas: seq<Json>)
    requires DeltasOfKind(deltas, {"input_json_delta"})
    ensures Assembled(PiecesOf(Cut(start, deltas))) == ApplyStart(NEW_BLOCK, start).(partialJson := Pieced(deltas, "partial_json"))
    decreases |deltas|
  {
    hide PiecesOf, Assembled, StringField;
    if deltas == [] {
      AssembledStart(start);
    } else {
      JsonDeltas(start, deltas[..|deltas| - 1]);
      AssembledNext(Cut(start, deltas));
      assert KindOf(deltas[|deltas| - 1]) == Some("input_json_delta");
      TypesDiffer();
    }
  }

  lemma TypesDiffer()
    ensures "input_json_delta" != "text_delta" && "thinking_delta" != "text_delta" && "signature_delta" != "text_delta"
    ensures "thinking_delta" != "input_json_delta" && "signature_delta" != "input_json_delta"
  {
    assert |"input_json_delta"| == 16 && |"text_delta"| == 10 && |"thinking_delta"| == 14 && |"signature_delta"| == 15;
  }

  lemma {:induction false} ThinkingDeltas(start: Json, deltas: seq<Json>)
    requires DeltasOfKind(deltas, {"thinking_delta", "signature_delta"}) && IsThinking(KindOf(start))
    ensures Assembled(PiecesOf(Cut(start, deltas))) == ApplyStart(NEW_BLOCK, start)
    decreases |deltas|
  {
    hide PiecesOf, Assembled, StringField;
    if deltas == [] {
      AssembledStart(start);
    } else {
      ThinkingDeltas(start, deltas[..|deltas| - 1]);
      AssembledNext(Cut(start, deltas));
      var kind := KindOf(deltas[|deltas| - 1]);
      assert kind == Some("thinking_delta") || kind == Some("signature_delta");
      TypesDiffer();
    }
  }

  predicate IsResultOnly(kind: Option<string>) {
    IsToolResult(kind) && !IsToolUse(kind) && kind != Some("text")
  }

  /** A tool call without arguments whose argument text is streamed all the same: as `null`. */
  predicate IsNullText(block: Json, cut: Cut) {
    var kind := KindOf(block);
    kind != Some("text") && IsToolUse(kind) && Pieced(cut.deltas, "partial_json") != "" && InputOf(block).Null?
  }

  /** A streamed block gives the draft of the whole block, unless it is a tool result or the
      null arguments of a tool call are streamed as text. */
  lemma CutGivesDraft(parse: Parser, block: Json, cut: Cut)
    requires Cuts(parse, block, cut)
    ensures var a := Assembled(PiecesOf(cut));
            && a.kind == KindOf(block)
            && (KindOf(block) == Some("text") ==> a.text == Text(StringField(block, "text")))
            && (KindOf(block) != Some("text") ==>
                  (AssemblyDraft(parse, a) == BlockDraft(block) <==> !IsResultOnly(KindOf(block)) && !IsNullText(block, cut)))
  {
    hide PiecesOf, Assembled, Pieced, EndsWith, StringField;
    var kind := KindOf(block);
    if kind == Some("text") {
      TextDeltas(cut.start, cut.deltas);
    } else if IsToolUse(kind) {
      JsonDeltas(cut.start, cut.deltas);
      StreamedInput(parse, block, cut);
    } else if IsThinking(kind) {
      ThinkingDeltas(cut.start, cut.deltas);
    } else {
      AssembledStart(cut.start);
    }
  }

  lemma StreamedInput(parse: Parser, block: Json, cut: Cut)
    requires Cuts(parse, block, cut) && IsToolUse(KindOf(block)) && KindOf(block) != Some("text")
    ensures var a := ApplyStart(NEW_BLOCK, cut.start).(partialJson := Pieced(cut.deltas, "partial_json"));
            StreamedArguments(parse, a) == Arguments(Field(block, "input")) <==> !IsNullText(block, cut)
  {
    hide Pieced, EndsWith, StringField, Lookup;
  }

  lemma {:induction false} SameTexts(content: seq<Json>, assemblies: seq<ContentBlock>)
    requires |content| == |assemblies|
    requires forall k | 0 <= k < |content| ::
               && content[k].Obj? && assemblies[k].kind == KindOf(content[k])
               && (KindOf(content[k]) == Some("text") ==> assemblies[k].text == Text(StringField(content[k], "text")))
    ensures AssemblyTexts(assemblies) == TextsOf(content)
    decreases |content|
  {
    hide StringField;
    if content != [] {
      SameTexts(content[..|content| - 1], assemblies[..|content| - 1]);
    }
  }

  ghost predicate DraftAgrees(parse: Parser, block: Json, a: ContentBlock) {
    KindOf(block) != Some("text") ==> AssemblyDraft(parse, a) == BlockDraft(block)
  }

  lemma ItemsNext(parse: Parser, x: seq<Draft>, y: seq<Draft>, block: Json, a: ContentBlock)
    requires |x| == |y| && a.kind == KindOf(block)
    ensures var more := x + if a.kind == Some("text") then [] else [AssemblyDraft(parse, a)];
            var items := y + if KindOf(block) != Some("text") then [BlockDraft(block)] else [];
            |more| == |items| && (more == items <==> x == y && DraftAgrees(parse, block, a))
  {
    hide AssemblyDraft, BlockDraft, KindOf;
    SnocInjective(x, y, AssemblyDraft(parse, a), BlockDraft(block));
    assert x + [] == x && y + [] == y;
  }

  lemma {:induction false} SameItems(parse: Parser, content: seq<Json>, assemblies: seq<ContentBlock>)
    requires |content| == |assemblies|
    requires forall k | 0 <= k < |content| :: content[k].Obj? && assemblies[k].kind == KindOf(content[k])
    ensures AssemblyItems(parse, assemblies) == ItemsOf(content) <==> forall k | 0 <= k < |content| :: DraftAgrees(parse, content[k], assemblies[k])
    ensures |AssemblyItems(parse, assemblies)| == |ItemsOf(content)|
    decreases |content|
  {
    hide AssemblyDraft, BlockDraft, KindOf, DraftAgrees;
    if content != [] {
      var n := |content| - 1;
      var c, s := content[..n], assemblies[..n];
      assert forall k | 0 <= k < n :: c[k] == content[k] && s[k] == assemblies[k];
      SameItems(parse, c, s);
      ItemsNext(parse, AssemblyItems(parse, s), ItemsOf(c), content[n], assemblies[n]);
      assert (forall k | 0 <= k < |content| :: DraftAgrees(parse, content[k], assemblies[k]))
        <==> (forall k | 0 <= k < n :: DraftAgrees(parse, c[k], s[k])) && DraftAgrees(parse, content[n], assemblies[n]);
    }
  }

  lemma SnocInjective(x: seq<Draft>, y: seq<Draft>, d: Draft, e: Draft)
    requires |x| == |y|
    ensures x + [d] == y + [e] <==> x == y && d == e
  {
    if x + [d] == y + [e] {
      assert (x + [d])[..|x|] == x && (y + [e])[..|x|] == y;
      assert (x + [d])[|x|] == d && (y + [e])[|x|] == e;
    }
  }

  predicate ResultFree(content: seq<Json>) {
    forall b | b in content :: !IsResultOnly(KindOf(b))
  }

  /** The blocks of a stream are those of the message, in order. */
  lemma {:induction false} StreamHasBlocks(parse: Parser, content: seq<Json>, cuts: seq<Cut>, indexes: seq<int>, items: seq<Item>)
    requires StreamOf(parse, content, cuts, indexes, items)
    ensures InOrder(BlocksOf(items), indexes)
    ensures forall k | 0 <= k < |indexes| :: indexes[k] in BlocksOf(items) && BlocksOf(items)[indexes[k]] == Assembled(PiecesOf(cuts[k]))
  {
    hide BlocksOf, Projection, Assembled, PiecesOf, Cuts;
    forall index: int
      ensures index in indexes <==> index in BlocksOf(items)
      ensures BlockAssembly(BlocksOf(items), index) == Assembled(Projection(items, index))
    {
      BlockIsProjection(items, index);
    }
    forall k | 0 <= k < |indexes| ensures indexes[k] in BlocksOf(items) {
      assert indexes[k] in indexes;
    }
  }

  ghost predicate NullTextFree(content: seq<Json>, cuts: seq<Cut>) {
    forall k | 0 <= k < |content| && k < |cuts| :: !IsNullText(content[k], cuts[k])
  }

  lemma SameFront(texts: seq<string>, x: seq<Draft>, y: seq<Draft>, responseId: Option<string>)
    ensures WithText(texts, x, responseId) == WithText(texts, y, responseId) <==> x == y
  {
    hide TextLines.Concat;
    var front := if texts == [] then [] else [AssistantMessage(responseId, TextLines.Concat(texts))];
    assert WithText(texts, x, responseId) == front + x && WithText(texts, y, responseId) == front + y;
    assert (front + x)[|front|..] == x && (front + y)[|front|..] == y;
  }

  /** Streamed assembly yields the drafts of the whole message, for every way of cutting the
      blocks and interleaving their pieces, exactly when the message has no tool result, which
      the streamed side never makes, and no null arguments of a tool call come as text. */
  lemma {:induction false} StreamedIsWhole(parse: Parser, content: seq<Json>, cuts: seq<Cut>, indexes: seq<int>, items: seq<Item>, responseId: Option<string>)
    requires StreamOf(parse, content, cuts, indexes, items)
    ensures var blocks := BlocksOf(items);
            && InOrder(blocks, indexes) && (forall k | 0 <= k < |indexes| :: indexes[k] in blocks)
            && (StreamedDrafts(parse, Select(blocks, indexes), responseId) == WholeDrafts(content, responseId)
                <==> ResultFree(content) && NullTextFree(content, cuts))
  {
    hide BlocksOf, Projection, Assembled, PiecesOf, AssemblyDraft, BlockDraft, StringField, WithText, IsResultOnly, IsNullText, AssemblyItems, ItemsOf, Cuts;
    StreamHasBlocks(parse, content, cuts, indexes, items);
    var assemblies := Select(BlocksOf(items), indexes);
    forall k | 0 <= k < |content|
      ensures content[k].Obj? && assemblies[k].kind == KindOf(content[k])
      ensures KindOf(content[k]) == Some("text") ==> assemblies[k].text == Text(StringField(content[k], "text"))
      ensures DraftAgrees(parse, content[k], assemblies[k]) <==> !IsResultOnly(KindOf(content[k])) && !IsNullText(content[k], cuts[k])
    {
      CutsObjects(parse, content[k], cuts[k]);
      CutGivesDraft(parse, content[k], cuts[k]);
      TextIsNoException(content[k], cuts[k]);
    }
    SameTexts(content, assemblies);
    SameItems(parse, content, assemblies);
    SameFront(TextsOf(content), AssemblyItems(parse, assemblies), ItemsOf(content), responseId);
    assert ResultFree(content) <==> forall k | 0 <= k < |content| :: !IsResultOnly(KindOf(content[k]));
  }

  lemma CutsObjects(parse: Parser, block: Json, cut: Cut)
    requires Cuts(parse, block, cut)
    ensures block.Obj?
  {
  }

  lemma TextIsNoException(block: Json, cut: Cut)
    ensures KindOf(block) == Some("text") ==> !IsResultOnly(KindOf(block)) && !IsNullText(block, cut)
  {
  }

  /** The same for what the loop makes of frames, replays and conflicts among them. */
  lemma {:induction false} FramesGiveWhole(parse: Parser, content: seq<Json>, cuts: seq<Cut>, indexes: seq<int>, frames: seq<Frame>, responseId: Option<string>)
    requires StreamOf(parse, content, cuts, indexes, Accepted(Anthropic(parse), NO_FRAMES, frames))
    ensures var blocks := Turns(Anthropic(parse), NO_FRAMES, frames).core.blocks;
            && InOrder(blocks, indexes) && (forall k | 0 <= k < |indexes| :: indexes[k] in blocks)
            && (StreamedDrafts(parse, Select(blocks, indexes), responseId) == WholeDrafts(content, responseId)
                <==> ResultFree(content) && NullTextFree(content, cuts))
  {
    hide StreamOf, ResultFree, NullTextFree, Turns, Accepted, StreamedDrafts, WholeDrafts;
    LoopBlocks(parse, frames);
    StreamedIsWhole(parse, content, cuts, indexes, Accepted(Anthropic(parse), NO_FRAMES, frames), responseId);
  }

  /** Why a tool call without arguments must not be streamed as the text `null`: the whole
      message then has an empty object where the stream has null. */
  lemma NullArgumentsDiffer(parse: Parser, block: Json, start: Json, json: string)
    requires block.Obj? && start.Obj? && KindOf(start) == KindOf(block) && IsToolUse(KindOf(block)) && KindOf(block) != Some("text")
    requires json != "" && parse(json) == Some(Null) && Or(Field(block, "input"), Some(Null)) == Some(Null)
    ensures AssemblyDraft(parse, ApplyStart(NEW_BLOCK, start).(partialJson := json)) != BlockDraft(block)
  {
    hide StringField, EndsWith;
  }
}
