// Streams of chat completions (packages/normalizers/src/chat-completions.ts): what each chunk
// does to the choices, and that replayed and conflicting frames do nothing to them.

module ChatCompletions {
  import opened Wrappers
  import opened JsonValues
  import opened SseDecoding
  import opened Replay

  datatype Usage = Usage(inputTokens: Option<nat>, outputTokens: Option<nat>, totalTokens: Option<nat>)

  datatype ToolAssembly = ToolAssembly(id: Option<string>, name: Option<string>, arguments: string)

  datatype ChoiceAssembly = ChoiceAssembly(
    content: string, refusal: string, finishReason: Option<string>, tools: map<nat, ToolAssembly>, unknownDeltas: seq<Json>)

  datatype Draft =
    | ApiError(kind: Option<string>, code: Option<string>, message: Option<string>)
    | UnknownEvent(frameIndex: Option<nat>, payload: Json)

  datatype Chat = Chat(
    choices: map<nat, ChoiceAssembly>, responseId: Option<string>, usage: Option<Usage>, unknownFrames: seq<Draft>)

  const NOTHING_YET := Chat(map[], None, None, [])

  const NEW_CHOICE := ChoiceAssembly("", "", None, map[], [])

  const NEW_TOOL := ToolAssembly(None, None, "")

  const DONE := "[DONE]"

  const KNOWN_DELTA_FIELDS := ["role", "content", "refusal", "tool_calls", "function_call"]

  // ------------------------------------------------------------ one choice

  function UsageOf(value: Option<Json>): Option<Usage> {
    if value.None? || !value.value.Obj? then None
    else
      var j := value.value;
      var u := Usage(TokenField(j, "prompt_tokens"), TokenField(j, "completion_tokens"), TokenField(j, "total_tokens"));
      if u == Usage(None, None, None) then None else Some(u)
  }

  function ToolFor(c: ChoiceAssembly, index: nat): ToolAssembly {
    if index in c.tools then c.tools[index] else NEW_TOOL
  }

  function Report(kind: DiagnosticKind, frameIndex: nat, eventType: Option<string>): Diagnostic {
    Diagnostic(kind, Some(frameIndex), eventType, false)
  }

  function IndexOf(j: Json): Option<nat> {
    TokenField(j, "index")
  }

  /** One delta of a tool call; an entry that is no object or has no index is reported. */
  function ApplyToolDelta(a: Applied<ChoiceAssembly>, frameIndex: nat, call: Json): Applied<ChoiceAssembly> {
    var index := IndexOf(call);
    if index.None? then
      a.(diagnostics := a.diagnostics + [Report(InvalidPayload, frameIndex, Some("chat.completion.chunk"))])
    else
      var tool := ToolFor(a.core, index.value);
      var fn := RecordField(call, "function");
      var name := if fn.Some? then StringField(fn.value, "name") else None;
      var delta := if fn.Some? then StringField(fn.value, "arguments") else None;
      a.(core := a.core.(tools := a.core.tools[index.value := ToolAssembly(
        Or(StringField(call, "id"), tool.id), Or(name, tool.name), tool.arguments + Text(delta))]))
  }

  function ApplyToolDeltas(a: Applied<ChoiceAssembly>, frameIndex: nat, calls: seq<Json>): Applied<ChoiceAssembly>
    decreases |calls|
  {
    if calls == [] then a
    else ApplyToolDelta(ApplyToolDeltas(a, frameIndex, calls[..|calls| - 1]), frameIndex, calls[|calls| - 1])
  }

  /** The old form of a tool call goes to the choice's first tool. */
  function ApplyFunctionCall(c: ChoiceAssembly, index: nat, call: Option<Json>): ChoiceAssembly {
    if call.None? then c
    else
      var tool := ToolFor(c, 0);
      c.(tools := c.tools[0 := ToolAssembly(
        Or(tool.id, Some("legacy-choice-" + Decimal(index) + "-function")),
        Or(StringField(call.value, "name"), tool.name),
        tool.arguments + Text(StringField(call.value, "arguments")))])
  }

  function UnknownMembers(members: seq<Member>): seq<Member> {
    if members == [] then []
    else (if members[0].name in KNOWN_DELTA_FIELDS then [] else [members[0]]) + UnknownMembers(members[1..])
  }

  function ApplyDelta(c: ChoiceAssembly, frameIndex: nat, index: nat, delta: Json): Applied<ChoiceAssembly>
    requires delta.Obj?
  {
    var calls := ArrayField(delta, "tool_calls");
    var spoken := c.(content := c.content + Text(StringField(delta, "content")), refusal := c.refusal + Text(StringField(delta, "refusal")));
    var tooled := ApplyToolDeltas(Applied(spoken, [], 0), frameIndex, if calls.Some? then calls.value else []);
    var called := ApplyFunctionCall(tooled.core, index, RecordField(delta, "function_call"));
    var unknown := UnknownMembers(delta.members);
    tooled.(core := if unknown == [] then called else called.(unknownDeltas := called.unknownDeltas + [Obj(unknown)]))
  }

  function ChoiceFor(chat: Chat, index: nat): ChoiceAssembly {
    if index in chat.choices then chat.choices[index] else NEW_CHOICE
  }

  /** One entry of a chunk's choices. */
  function ApplyChoice(a: Applied<Chat>, frameIndex: nat, choice: Json): Applied<Chat> {
    var index := IndexOf(choice);
    if index.None? then
      a.(diagnostics := a.diagnostics + [Report(InvalidPayload, frameIndex, None)], errors := a.errors + 1)
    else
      var before := ChoiceFor(a.core, index.value);
      var finished := before.(finishReason := Or(StringField(choice, "finish_reason"), before.finishReason));
      var delta := RecordField(choice, "delta");
      var after := if delta.Some? then ApplyDelta(finished, frameIndex, index.value, delta.value) else Applied(finished, [], 0);
      a.(core := a.core.(choices := a.core.choices[index.value := after.core]), diagnostics := a.diagnostics + after.diagnostics)
  }

  function ApplyChoices(a: Applied<Chat>, frameIndex: nat, choices: seq<Json>): Applied<Chat>
    decreases |choices|
  {
    if choices == [] then a
    else ApplyChoice(ApplyChoices(a, frameIndex, choices[..|choices| - 1]), frameIndex, choices[|choices| - 1])
  }

  /** A chunk without choices, while no usage is known: an error, or something unknown. */
  function ApplyEmpty(chat: Chat, frameIndex: nat, payload: Json): Applied<Chat> {
    match RecordField(payload, "error")
    case Some(error) =>
      Applied(chat.(unknownFrames := chat.unknownFrames
        + [ApiError(StringField(error, "type"), StringField(error, "code"), StringField(error, "message"))]), [], 0)
    case None =>
      Applied(chat.(unknownFrames := chat.unknownFrames + [UnknownEvent(Some(frameIndex), payload)]),
              [Report(UnsupportedEvent, frameIndex, None)], 0)
  }

  function ChoicesOf(payload: Json): seq<Json> {
    var choices := ArrayField(payload, "choices");
    if choices.Some? then choices.value else []
  }

  function Told(chat: Chat, payload: Json): Chat {
    chat.(responseId := Or(StringField(payload, "id"), chat.responseId), usage := Or(UsageOf(Field(payload, "usage")), chat.usage))
  }

  function Apply(chat: Chat, frameIndex: nat, eventType: Option<string>, payload: Json): Applied<Chat> {
    var told, choices := Told(chat, payload), ChoicesOf(payload);
    if choices == [] && told.usage.None? then ApplyEmpty(told, frameIndex, payload)
    else ApplyChoices(Applied(told, [], 0), frameIndex, choices)
  }

  method ApplyChunk(chat: Chat, frameIndex: nat, payload: Json) returns (a: Applied<Chat>)
    ensures a == Apply(chat, frameIndex, None, payload)
  {
    hide ApplyChoice, ApplyEmpty;
    var told, choices := Told(chat, payload), ChoicesOf(payload);
    a := Applied(told, [], 0);
    if |choices| == 0 && told.usage.None? {
      return ApplyEmpty(told, frameIndex, payload);
    }
    for i := 0 to |choices|
      invariant a == ApplyChoices(Applied(told, [], 0), frameIndex, choices[..i])
    {
      assert choices[..i + 1][..i] == choices[..i];
      a := ApplyChoice(a, frameIndex, choices[i]);
    }
    assert choices[..|choices|] == choices;
  }

  // ------------------------------------------------------------ replays

  function EraseDraft(d: Draft): Draft {
    if d.UnknownEvent? then d.(frameIndex := None) else d
  }

  function EraseDrafts(drafts: seq<Draft>): seq<Draft> {
    seq(|drafts|, i requires 0 <= i < |drafts| => EraseDraft(drafts[i]))
  }

  function Erase(chat: Chat): Chat {
    chat.(unknownFrames := EraseDrafts(chat.unknownFrames))
  }

  /** Chunks carry no type. */
  function ReadChunk(parse: Parser, frame: Frame): Reading {
    if frame.data == Some(DONE) then Skipped
    else
      match ReadFrame(parse, frame)
      case Payload(value, _) => Payload(value, None)
      case other => other
  }

  function Completions(parse: Parser): Provider<Chat> {
    Provider(frame => ReadChunk(parse, frame), Apply, Erase)
  }

  lemma EraseNext(drafts: seq<Draft>, d: Draft)
    ensures EraseDrafts(drafts + [d]) == EraseDrafts(drafts) + [EraseDraft(d)]
  {
  }

  lemma EraseOnlyUnknown(m: Chat, n: Chat)
    requires Erase(m) == Erase(n)
    ensures n == m.(unknownFrames := n.unknownFrames) && EraseDrafts(m.unknownFrames) == EraseDrafts(n.unknownFrames)
  {
    assert Erase(m).(unknownFrames := []) == m.(unknownFrames := []) && Erase(n).(unknownFrames := []) == n.(unknownFrames := []);
  }

  ghost predicate SameButPlace(a: Applied<Chat>, b: Applied<Chat>) {
    Erase(a.core) == Erase(b.core) && Unplaced(a.diagnostics) == Unplaced(b.diagnostics) && a.errors == b.errors
  }

  lemma {:induction false} ToolDeltasArePlaceFree(a: Applied<ChoiceAssembly>, i: nat, j: nat, calls: seq<Json>)
    ensures var x, y := ApplyToolDeltas(a, i, calls), ApplyToolDeltas(a, j, calls);
            x.core == y.core && Unplaced(x.diagnostics) == Unplaced(y.diagnostics) && x.errors == y.errors == a.errors
    decreases |calls|
  {
    hide ApplyToolDelta;
    if calls != [] {
      var front := calls[..|calls| - 1];
      ToolDeltasArePlaceFree(a, i, j, front);
      ToolDeltaIsPlaceFree(ApplyToolDeltas(a, i, front), ApplyToolDeltas(a, j, front), i, j, calls[|calls| - 1]);
    }
  }

  lemma ToolDeltaIsPlaceFree(a: Applied<ChoiceAssembly>, b: Applied<ChoiceAssembly>, i: nat, j: nat, call: Json)
    requires a.core == b.core && Unplaced(a.diagnostics) == Unplaced(b.diagnostics) && a.errors == b.errors
    ensures var x, y := ApplyToolDelta(a, i, call), ApplyToolDelta(b, j, call);
            x.core == y.core && Unplaced(x.diagnostics) == Unplaced(y.diagnostics) && x.errors == y.errors == a.errors
  {
    hide Lookup, StringField, RecordField, Unplaced;
    var chunk := Some("chat.completion.chunk");
    UnplacedJoin(a.diagnostics, [Report(InvalidPayload, i, chunk)]);
    UnplacedJoin(b.diagnostics, [Report(InvalidPayload, j, chunk)]);
    UnplacedReport(InvalidPayload, i, j, chunk);
  }

  lemma DeltaIsPlaceFree(c: ChoiceAssembly, i: nat, j: nat, index: nat, delta: Json)
    requires delta.Obj?
    ensures var x, y := ApplyDelta(c, i, index, delta), ApplyDelta(c, j, index, delta);
            x.core == y.core && Unplaced(x.diagnostics) == Unplaced(y.diagnostics)
  {
    hide ApplyToolDeltas, ApplyFunctionCall, UnknownMembers, Lookup, StringField;
    var calls := ArrayField(delta, "tool_calls");
    var spoken := c.(content := c.content + Text(StringField(delta, "content")), refusal := c.refusal + Text(StringField(delta, "refusal")));
    ToolDeltasArePlaceFree(Applied(spoken, [], 0), i, j, if calls.Some? then calls.value else []);
  }

  lemma ChoiceIsPlaceFree(a: Applied<Chat>, b: Applied<Chat>, i: nat, j: nat, choice: Json)
    requires SameButPlace(a, b)
    ensures SameButPlace(ApplyChoice(a, i, choice), ApplyChoice(b, j, choice))
  {
    hide ApplyDelta, EraseDrafts, Lookup, StringField, Unplaced;
    EraseOnlyUnknown(a.core, b.core);
    var index := IndexOf(choice);
    if index.None? {
      UnplacedJoin(a.diagnostics, [Report(InvalidPayload, i, None)]);
      UnplacedJoin(b.diagnostics, [Report(InvalidPayload, j, None)]);
      UnplacedReport(InvalidPayload, i, j, None);
    } else {
      var before := ChoiceFor(a.core, index.value);
      var finished := before.(finishReason := Or(StringField(choice, "finish_reason"), before.finishReason));
      var delta := RecordField(choice, "delta");
      if delta.Some? {
        DeltaIsPlaceFree(finished, i, j, index.value, delta.value);
        UnplacedJoin(a.diagnostics, ApplyDelta(finished, i, index.value, delta.value).diagnostics);
        UnplacedJoin(b.diagnostics, ApplyDelta(finished, j, index.value, delta.value).diagnostics);
      } else {
        assert a.diagnostics + [] == a.diagnostics && b.diagnostics + [] == b.diagnostics;
      }
    }
  }

  lemma UnplacedReport(kind: DiagnosticKind, i: nat, j: nat, eventType: Option<string>)
    ensures Unplaced([Report(kind, i, eventType)]) == Unplaced([Report(kind, j, eventType)])
  {
  }

  lemma {:induction false} ChoicesArePlaceFree(a: Applied<Chat>, b: Applied<Chat>, i: nat, j: nat, choices: seq<Json>)
    requires SameButPlace(a, b)
    ensures SameButPlace(ApplyChoices(a, i, choices), ApplyChoices(b, j, choices))
    decreases |choices|
  {
    hide ApplyChoice, SameButPlace;
    if choices != [] {
      var front, last := choices[..|choices| - 1], choices[|choices| - 1];
      ChoicesArePlaceFree(a, b, i, j, front);
      ChoiceIsPlaceFree(ApplyChoices(a, i, front), ApplyChoices(b, j, front), i, j, last);
    }
  }

  lemma EmptyIsPlaceFree(m: Chat, n: Chat, i: nat, j: nat, payload: Json)
    requires Erase(m) == Erase(n)
    ensures SameButPlace(ApplyEmpty(m, i, payload), ApplyEmpty(n, j, payload))
  {
    hide EraseDrafts, Lookup, StringField;
    EraseOnlyUnknown(m, n);
    var a, b := ApplyEmpty(m, i, payload), ApplyEmpty(n, j, payload);
    EraseNext(m.unknownFrames, a.core.unknownFrames[|m.unknownFrames|]);
    EraseNext(n.unknownFrames, b.core.unknownFrames[|n.unknownFrames|]);
  }

  lemma ApplyIsPlaceFree(m: Chat, n: Chat, i: nat, j: nat, eventType: Option<string>, payload: Json)
    requires Erase(m) == Erase(n)
    ensures SameButPlace(Apply(m, i, eventType, payload), Apply(n, j, eventType, payload))
  {
    hide ApplyChoices, ApplyEmpty, EraseDrafts, UsageOf, StringField;
    EraseOnlyUnknown(m, n);
    EmptyIsPlaceFree(Told(m, payload), Told(n, payload), i, j, payload);
    ChoicesArePlaceFree(Applied(Told(m, payload), [], 0), Applied(Told(n, payload), [], 0), i, j, ChoicesOf(payload));
  }

  /** So replays and conflicts are transparent to the loop over chunks. */
  lemma CompletionsArePlaceFree(parse: Parser)
    ensures PlaceFree(Completions(parse))
  {
    hide Apply, Erase, ReadFrame;
    var p := Completions(parse);
    forall f, g | SameFrame(f, g) ensures p.read(f) == p.read(g) {
      ReadIsPlaceFree(parse, f, g);
    }
    forall c, d, i, j, t, x | p.erase(c) == p.erase(d)
      ensures var a, b := p.apply(c, i, t, x), p.apply(d, j, t, x);
              p.erase(a.core) == p.erase(b.core) && Unplaced(a.diagnostics) == Unplaced(b.diagnostics) && a.errors == b.errors
    {
      ApplyIsPlaceFree(c, d, i, j, t, x);
    }
  }

  /** A frame that comes again, or comes with other content, under an identity that was accepted
      before leaves every choice, the identifier and the usage as they are. */
  lemma {:induction false} CompletionsIgnore(parse: Parser, a: seq<Frame>, c: Frame, b: seq<Frame>, b': seq<Frame>, i: nat, identity: string)
    requires i < |a| && FirstWith(Completions(parse), a, i, identity) && Completions(parse).read(c).Payload?
    requires Identified(Completions(parse), c, identity) && SameFrames(b, b')
    ensures var whole, plain := Turns(Completions(parse), Opening(NOTHING_YET), a + [c] + b'), Turns(Completions(parse), Opening(NOTHING_YET), a + b);
            && whole.core == plain.core.(unknownFrames := whole.core.unknownFrames)
            && EraseDrafts(whole.core.unknownFrames) == EraseDrafts(plain.core.unknownFrames)
            && |whole.parserErrors| == |plain.parserErrors|
            && |whole.duplicateErrors| == |plain.duplicateErrors| + if Fingerprint(a[i]) == Fingerprint(c) then 0 else 1
  {
    hide PlaceFree, Turns, FirstWith, Identified, SameFrames, Fingerprint, ReadFrame, Apply, EraseDrafts, OneMore;
    var p := Completions(parse);
    CompletionsArePlaceFree(parse);
    InsertedFrame(p, Opening(NOTHING_YET), a, c, b, b', i, identity);
    EraseOnlyUnknown(Turns(p, Opening(NOTHING_YET), a + b).core, Turns(p, Opening(NOTHING_YET), a + [c] + b').core);
  }

  // ------------------------------------------------------------ what is assembled

  /** What the chunks give to one tool: a piece of a call, or the old form of a call. */
  datatype ToolPiece = Call(name: Option<string>, fragment: string, id: Option<string>) | Legacy(name: Option<string>, fragment: string)

  /** The entries that chunks have for one choice, in order. */
  function Entries(payloads: seq<Json>, index: nat): seq<Json>
    decreases |payloads|
  {
    if payloads == [] then []
    else Entries(payloads[..|payloads| - 1], index) + EntriesFor(ArrayField(payloads[|payloads| - 1], "choices"), index)
  }

  function EntriesFor(choices: Option<seq<Json>>, index: nat): seq<Json> {
    if choices.None? then [] else WithIndex(choices.value, index)
  }

  function WithIndex(items: seq<Json>, index: nat): seq<Json>
    decreases |items|
  {
    if items == [] then []
    else
      var last := items[|items| - 1];
      WithIndex(items[..|items| - 1], index) + if IntegerField(last, "index") == Some(index) then [last] else []
  }

  function DeltaString(entry: Json, name: string): Option<string> {
    match RecordField(entry, "delta")
    case None => None
    case Some(delta) => StringField(delta, name)
  }

  /** The text that the deltas give, piece after piece. */
  function Spoken(entries: seq<Json>, name: string): string
    decreases |entries|
  {
    if entries == [] then ""
    else
      var more := DeltaString(entries[|entries| - 1], name);
      Spoken(entries[..|entries| - 1], name) + if more.Some? then more.value else ""
  }

  function LastString(items: seq<Json>, name: string): Option<string>
    decreases |items|
  {
    if items == [] then None
    else
      var last := StringField(items[|items| - 1], name);
      if last.Some? then last else LastString(items[..|items| - 1], name)
  }

  function CallPieces(calls: seq<Json>, tool: nat): seq<ToolPiece>
    decreases |calls|
  {
    if calls == [] then []
    else
      var last := calls[|calls| - 1];
      CallPieces(calls[..|calls| - 1], tool) + if IntegerField(last, "index") == Some(tool) then [CallOf(last)] else []
  }

  function CallOf(call: Json): ToolPiece {
    match RecordField(call, "function")
    case None => Call(None, "", StringField(call, "id"))
    case Some(fn) =>
      var fragment := StringField(fn, "arguments");
      Call(StringField(fn, "name"), if fragment.Some? then fragment.value else "", StringField(call, "id"))
  }

  function LegacyPieces(delta: Json, tool: nat): seq<ToolPiece> {
    match RecordField(delta, "function_call")
    case None => []
    case Some(call) =>
      var fragment := StringField(call, "arguments");
      if tool == 0 then [Legacy(StringField(call, "name"), if fragment.Some? then fragment.value else "")] else []
  }

  function EntryPieces(entry: Json, tool: nat): seq<ToolPiece> {
    match RecordField(entry, "delta")
    case None => []
    case Some(delta) =>
      var calls := ArrayField(delta, "tool_calls");
      CallPieces(if calls.Some? then calls.value else [], tool) + LegacyPieces(delta, tool)
  }

  function Pieces(entries: seq<Json>, tool: nat): seq<ToolPiece>
    decreases |entries|
  {
    if entries == [] then [] else Pieces(entries[..|entries| - 1], tool) + EntryPieces(entries[|entries| - 1], tool)
  }

  function Fragments(pieces: seq<ToolPiece>): string
    decreases |pieces|
  {
    if pieces == [] then "" else Fragments(pieces[..|pieces| - 1]) + pieces[|pieces| - 1].fragment
  }

  function LastName(pieces: seq<ToolPiece>): Option<string>
    decreases |pieces|
  {
    if pieces == [] then None
    else if pieces[|pieces| - 1].name.Some? then pieces[|pieces| - 1].name
    else LastName(pieces[..|pieces| - 1])
  }

  function LastId(pieces: seq<ToolPiece>): Option<string>
    decreases |pieces|
  {
    if pieces == [] then None
    else if pieces[|pieces| - 1].Call? && pieces[|pieces| - 1].id.Some? then pieces[|pieces| - 1].id
    else LastId(pieces[..|pieces| - 1])
  }

  /** The last identifier given; without any, the one that an old form of call brings along. */
  function IdOf(index: nat, pieces: seq<ToolPiece>): Option<string> {
    if LastId(pieces).Some? then LastId(pieces)
    else if exists p | p in pieces :: p.Legacy? then Some("legacy-choice-" + Decimal(index) + "-function")
    else None
  }

  ghost predicate ToolFits(tools: map<nat, ToolAssembly>, index: nat, tool: nat, pieces: seq<ToolPiece>) {
    && (tool in tools <==> pieces != [])
    && (tool in tools ==> tools[tool] == ToolAssembly(IdOf(index, pieces), LastName(pieces), Fragments(pieces)))
  }

  lemma {:induction false} PieceAdded(tools: map<nat, ToolAssembly>, index: nat, tool: nat, pieces: seq<ToolPiece>, p: ToolPiece)
    requires ToolFits(tools, index, tool, pieces)
    ensures var t := if tool in tools then tools[tool] else NEW_TOOL;
            var id := if p.Legacy? then Or(t.id, Some("legacy-choice-" + Decimal(index) + "-function")) else Or(p.id, t.id);
            ToolFits(tools[tool := ToolAssembly(id, Or(p.name, t.name), t.arguments + p.fragment)], index, tool, pieces + [p])
  {
    hide Decimal, IdOf, LastName, Fragments;
    NoPieces(index);
    NextPiece(index, pieces, p);
  }

  lemma NoPieces(index: nat)
    ensures IdOf(index, []) == None && LastName([]) == None && Fragments([]) == ""
  {
  }

  lemma {:induction false} NextPiece(index: nat, pieces: seq<ToolPiece>, p: ToolPiece)
    ensures var legacy := Some("legacy-choice-" + Decimal(index) + "-function");
            IdOf(index, pieces + [p]) == if p.Legacy? then Or(IdOf(index, pieces), legacy) else Or(p.id, IdOf(index, pieces))
    ensures LastName(pieces + [p]) == Or(p.name, LastName(pieces)) && Fragments(pieces + [p]) == Fragments(pieces) + p.fragment
  {
    hide Decimal;
    var all := pieces + [p];
    assert all[..|pieces|] == pieces && p in all;
    assert forall q | q in all :: q in pieces || q == p;
    assert forall q | q in pieces :: q in all;
  }

  lemma ToolElsewhere(tools: map<nat, ToolAssembly>, other: nat, a: ToolAssembly, index: nat, tool: nat, pieces: seq<ToolPiece>)
    requires ToolFits(tools, index, tool, pieces) && other != tool
    ensures ToolFits(tools[other := a], index, tool, pieces)
  {
  }

  lemma CallAdded(a: Applied<ChoiceAssembly>, frameIndex: nat, call: Json, index: nat, tool: nat, pieces: seq<ToolPiece>)
    requires ToolFits(a.core.tools, index, tool, pieces)
    ensures var more := if IntegerField(call, "index") == Some(tool) then [CallOf(call)] else [];
            ToolFits(ApplyToolDelta(a, frameIndex, call).core.tools, index, tool, pieces + more)
  {
    hide ToolFits, StringField, RecordField, IntegerField;
    if IntegerField(call, "index") == Some(tool) {
      PieceAdded(a.core.tools, index, tool, pieces, CallOf(call));
    } else {
      assert pieces + [] == pieces;
      var other := IndexOf(call);
      if other.Some? {
        ToolElsewhere(a.core.tools, other.value, ApplyToolDelta(a, frameIndex, call).core.tools[other.value], index, tool, pieces);
      }
    }
  }

  lemma {:induction false} CallsAdded(a: Applied<ChoiceAssembly>, frameIndex: nat, calls: seq<Json>, index: nat, tool: nat, pieces: seq<ToolPiece>)
    requires ToolFits(a.core.tools, index, tool, pieces)
    ensures var after := ApplyToolDeltas(a, frameIndex, calls).core;
            ToolFits(after.tools, index, tool, pieces + CallPieces(calls, tool)) && after == a.core.(tools := after.tools)
    decreases |calls|
  {
    hide ToolFits, StringField, RecordField, IntegerField, CallOf;
    if calls == [] {
      assert pieces + [] == pieces;
    } else {
      var front, last := calls[..|calls| - 1], calls[|calls| - 1];
      CallsAdded(a, frameIndex, front, index, tool, pieces);
      CallAdded(ApplyToolDeltas(a, frameIndex, front), frameIndex, last, index, tool, pieces + CallPieces(front, tool));
      assert pieces + CallPieces(calls, tool)
          == (pieces + CallPieces(front, tool)) + if IntegerField(last, "index") == Some(tool) then [CallOf(last)] else [];
    }
  }

  lemma LegacyAdded(c: ChoiceAssembly, index: nat, delta: Json, tool: nat, pieces: seq<ToolPiece>)
    requires ToolFits(c.tools, index, tool, pieces)
    ensures var after := ApplyFunctionCall(c, index, RecordField(delta, "function_call"));
            ToolFits(after.tools, index, tool, pieces + LegacyPieces(delta, tool)) && after == c.(tools := after.tools)
  {
    hide ToolFits, StringField, RecordField;
    var call := RecordField(delta, "function_call");
    if call.Some? && tool == 0 {
      PieceAdded(c.tools, index, tool, pieces, LegacyPieces(delta, tool)[0]);
    } else {
      assert pieces + [] == pieces;
      if call.Some? {
        ToolElsewhere(c.tools, 0, ApplyFunctionCall(c, index, call).tools[0], index, tool, pieces);
      }
    }
  }

  function UnknownOf(entry: Json): seq<Json> {
    match RecordField(entry, "delta")
    case Some(Obj(members)) => if UnknownMembers(members) == [] then [] else [Obj(UnknownMembers(members))]
    case _ => []
  }

  function UnknownGiven(entries: seq<Json>): seq<Json>
    decreases |entries|
  {
    if entries == [] then [] else UnknownGiven(entries[..|entries| - 1]) + UnknownOf(entries[|entries| - 1])
  }

  /** The members of a delta that have another name, in order. */
  lemma {:induction false} UnknownMeaning(members: seq<Member>)
    ensures forall m ::
              (m in UnknownMembers(members)
               <==> && m in members && m.name != "role" && m.name != "content" && m.name != "refusal"
                    && m.name != "tool_calls" && m.name != "function_call")
    decreases |members|
  {
    if members != [] {
      assert members == [members[0]] + members[1..];
      UnknownMeaning(members[1..]);
    }
  }

  /** What is assembled of a choice from its entries. */
  ghost predicate ChoiceFits(c: ChoiceAssembly, index: nat, entries: seq<Json>) {
    && c.content == Spoken(entries, "content") && c.refusal == Spoken(entries, "refusal")
    && c.finishReason == LastString(entries, "finish_reason")
    && c.unknownDeltas == UnknownGiven(entries)
    && forall tool :: ToolFits(c.tools, index, tool, Pieces(entries, tool))
  }

  lemma NothingFits(index: nat)
    ensures ChoiceFits(NEW_CHOICE, index, [])
  {
  }

  /** The choice after one more entry. */
  function EntryApplied(c: ChoiceAssembly, frameIndex: nat, index: nat, entry: Json): ChoiceAssembly {
    var finished := c.(finishReason := Or(StringField(entry, "finish_reason"), c.finishReason));
    var delta := RecordField(entry, "delta");
    if delta.Some? then ApplyDelta(finished, frameIndex, index, delta.value).core else finished
  }

  lemma EntryTools(c: ChoiceAssembly, frameIndex: nat, index: nat, entry: Json, tool: nat, pieces: seq<ToolPiece>)
    requires ToolFits(c.tools, index, tool, pieces)
    ensures ToolFits(EntryApplied(c, frameIndex, index, entry).tools, index, tool, pieces + EntryPieces(entry, tool))
  {
    hide ToolFits, StringField, RecordField, ArrayField, ApplyToolDeltas, ApplyFunctionCall, CallPieces, LegacyPieces, UnknownMembers;
    var delta := RecordField(entry, "delta");
    if delta.None? {
      assert pieces + [] == pieces;
    } else {
      var d := delta.value;
      assert d.Obj? by {
        FieldsAreFound(entry, "delta");
      }
      var items := ArrayField(d, "tool_calls");
      var calls := if items.Some? then items.value else [];
      var finished := c.(finishReason := Or(StringField(entry, "finish_reason"), c.finishReason));
      var spoken := finished.(content := c.content + Text(StringField(d, "content")), refusal := c.refusal + Text(StringField(d, "refusal")));
      CallsAdded(Applied(spoken, [], 0), frameIndex, calls, index, tool, pieces);
      LegacyAdded(ApplyToolDeltas(Applied(spoken, [], 0), frameIndex, calls).core, index, d, tool, pieces + CallPieces(calls, tool));
      assert pieces + (CallPieces(calls, tool) + LegacyPieces(d, tool)) == (pieces + CallPieces(calls, tool)) + LegacyPieces(d, tool);
    }
  }

  lemma EntryTexts(c: ChoiceAssembly, frameIndex: nat, index: nat, entry: Json)
    ensures var after := EntryApplied(c, frameIndex, index, entry);
            && after.content == c.content + Text(DeltaString(entry, "content"))
            && after.refusal == c.refusal + Text(DeltaString(entry, "refusal"))
            && after.finishReason == Or(StringField(entry, "finish_reason"), c.finishReason)
            && after.unknownDeltas == c.unknownDeltas + UnknownOf(entry)
  {
    hide StringField, RecordField, ArrayField, ApplyToolDeltas, ApplyFunctionCall, UnknownMembers;
    FieldsAreFound(entry, "delta");
    var delta := RecordField(entry, "delta");
    if delta.Some? {
      var d := delta.value;
      var items := ArrayField(d, "tool_calls");
      var calls := if items.Some? then items.value else [];
      var finished := c.(finishReason := Or(StringField(entry, "finish_reason"), c.finishReason));
      var spoken := finished.(content := c.content + Text(StringField(d, "content")), refusal := c.refusal + Text(StringField(d, "refusal")));
      OnlyTools(Applied(spoken, [], 0), frameIndex, calls, index, RecordField(d, "function_call"));
      assert c.unknownDeltas + [] == c.unknownDeltas;
    }
  }

  lemma {:induction false} OnlyTools(a: Applied<ChoiceAssembly>, frameIndex: nat, calls: seq<Json>, index: nat, call: Option<Json>)
    ensures var after := ApplyFunctionCall(ApplyToolDeltas(a, frameIndex, calls).core, index, call); after == a.core.(tools := after.tools)
  {
    OnlyCallTools(a, frameIndex, calls);
  }

  lemma {:induction false} OnlyCallTools(a: Applied<ChoiceAssembly>, frameIndex: nat, calls: seq<Json>)
    ensures var after := ApplyToolDeltas(a, frameIndex, calls).core; after == a.core.(tools := after.tools)
    decreases |calls|
  {
    hide StringField, RecordField;
    if calls != [] {
      OnlyCallTools(a, frameIndex, calls[..|calls| - 1]);
    }
  }

  lemma EntryFits(c: ChoiceAssembly, frameIndex: nat, index: nat, entries: seq<Json>, entry: Json)
    requires ChoiceFits(c, index, entries)
    ensures ChoiceFits(EntryApplied(c, frameIndex, index, entry), index, entries + [entry])
  {
    hide EntryApplied, ToolFits, StringField, DeltaString, UnknownOf, EntryPieces;
    EntryTexts(c, frameIndex, index, entry);
    var all := entries + [entry];
    assert all[..|entries|] == entries;
    forall tool ensures ToolFits(EntryApplied(c, frameIndex, index, entry).tools, index, tool, Pieces(all, tool)) {
      EntryTools(c, frameIndex, index, entry, tool, Pieces(entries, tool));
    }
  }

  ghost predicate ChoicesFit(choices: map<nat, ChoiceAssembly>, index: nat, entries: seq<Json>) {
    (index in choices <==> entries != []) && (index in choices ==> ChoiceFits(choices[index], index, entries))
  }

  lemma EntryKept(a: Applied<Chat>, frameIndex: nat, entry: Json, index: nat, entries: seq<Json>)
    requires ChoicesFit(a.core.choices, index, entries)
    ensures var more := if IntegerField(entry, "index") == Some(index) then [entry] else [];
            var after := ApplyChoice(a, frameIndex, entry).core;
            ChoicesFit(after.choices, index, entries + more) && after == a.core.(choices := after.choices)
  {
    hide ApplyDelta, ChoiceFits, StringField, RecordField, IntegerField;
    if IntegerField(entry, "index") == Some(index) {
      var before := ChoiceFor(a.core, index);
      if index !in a.core.choices {
        NothingFits(index);
      }
      EntryFits(before, frameIndex, index, entries, entry);
    } else {
      assert entries + [] == entries;
    }
  }

  lemma {:induction false} EntriesKept(a: Applied<Chat>, frameIndex: nat, items: seq<Json>, index: nat, entries: seq<Json>)
    requires ChoicesFit(a.core.choices, index, entries)
    ensures var after := ApplyChoices(a, frameIndex, items).core;
            ChoicesFit(after.choices, index, entries + WithIndex(items, index)) && after == a.core.(choices := after.choices)
    decreases |items|
  {
    hide ApplyChoice, ChoicesFit, IntegerField;
    if items == [] {
      assert entries + [] == entries;
    } else {
      var front, last := items[..|items| - 1], items[|items| - 1];
      EntriesKept(a, frameIndex, front, index, entries);
      EntryKept(ApplyChoices(a, frameIndex, front), frameIndex, last, index, entries + WithIndex(front, index));
      assert entries + WithIndex(items, index)
          == (entries + WithIndex(front, index)) + if IntegerField(last, "index") == Some(index) then [last] else [];
    }
  }

  lemma ChunkKept(chat: Chat, frameIndex: nat, eventType: Option<string>, payload: Json, index: nat, entries: seq<Json>)
    requires ChoicesFit(chat.choices, index, entries)
    ensures var after := Apply(chat, frameIndex, eventType, payload).core;
            && ChoicesFit(after.choices, index, entries + EntriesFor(ArrayField(payload, "choices"), index))
            && after.responseId == Or(StringField(payload, "id"), chat.responseId)
            && after.usage == Or(UsageOf(Field(payload, "usage")), chat.usage)
  {
    hide ApplyChoices, ChoicesFit, StringField, ArrayField, RecordField, UsageOf, Field;
    var told, items := Told(chat, payload), ChoicesOf(payload);
    EntriesKept(Applied(told, [], 0), frameIndex, items, index, entries);
    assert EntriesFor(ArrayField(payload, "choices"), index) == WithIndex(items, index);
    if items == [] {
      assert entries + [] == entries;
    }
  }

  function Payloads(items: seq<Item>): (r: seq<Json>)
    ensures |r| == |items|
  {
    seq(|items|, i requires 0 <= i < |items| => items[i].payload)
  }

  function LastUsage(payloads: seq<Json>): Option<Usage>
    decreases |payloads|
  {
    if payloads == [] then None
    else
      var last := UsageOf(Field(payloads[|payloads| - 1], "usage"));
      if last.Some? then last else LastUsage(payloads[..|payloads| - 1])
  }

  /** Whatever chunks come in whatever order: each choice is made up of its own entries, its texts
      and each tool's arguments piece after piece, its names and reasons as given last. */
  lemma {:induction false} ChoicesAsGiven(parse: Parser, items: seq<Item>, index: nat)
    ensures var chat := AppliedAll(Completions(parse), NOTHING_YET, items);
            && ChoicesFit(chat.choices, index, Entries(Payloads(items), index))
            && chat.responseId == LastString(Payloads(items), "id")
            && chat.usage == LastUsage(Payloads(items))
    decreases |items|
  {
    hide Apply, ReadChunk, ChoicesFit, StringField, Field, ArrayField, UsageOf;
    if items == [] {
      NoChoices(index);
    } else {
      var front, last := items[..|items| - 1], items[|items| - 1];
      ChoicesAsGiven(parse, front, index);
      var all := Payloads(items);
      assert all[..|all| - 1] == Payloads(front) && all[|all| - 1] == last.payload;
      ChunkKept(AppliedAll(Completions(parse), NOTHING_YET, front), last.frameIndex, last.eventType, last.payload, index, Entries(Payloads(front), index));
    }
  }

  /** The frames without choices, while no usage was reported: an error, or something unknown. */
  function FramesAside(items: seq<Item>): seq<Draft>
    decreases |items|
  {
    if items == [] then []
    else
      var front, last := items[..|items| - 1], items[|items| - 1];
      var choices := ArrayField(last.payload, "choices");
      FramesAside(front)
      + (if (choices.Some? && choices.value != []) || LastUsage(Payloads(items)).Some? then []
         else
           match RecordField(last.payload, "error")
           case Some(error) => [ApiError(StringField(error, "type"), StringField(error, "code"), StringField(error, "message"))]
           case None => [UnknownEvent(Some(last.frameIndex), last.payload)])
  }

  lemma {:induction false} FramesAsideAsGiven(parse: Parser, items: seq<Item>)
    ensures AppliedAll(Completions(parse), NOTHING_YET, items).unknownFrames == FramesAside(items)
    decreases |items|
  {
    hide ReadChunk, StringField, Field, ArrayField, RecordField, UsageOf, ApplyChoices, Entries;
    if items != [] {
      var front, last := items[..|items| - 1], items[|items| - 1];
      FramesAsideAsGiven(parse, front);
      ChoicesAsGiven(parse, items, 0);
      ChoicesAsGiven(parse, front, 0);
      var chat := AppliedAll(Completions(parse), NOTHING_YET, front);
      TellsAside(chat, last.frameIndex, last.eventType, last.payload);
      var all := Payloads(items);
      assert all[..|all| - 1] == Payloads(front) && all[|all| - 1] == last.payload;
    }
  }

  lemma TellsAside(chat: Chat, frameIndex: nat, eventType: Option<string>, payload: Json)
    ensures var choices := ArrayField(payload, "choices");
            Apply(chat, frameIndex, eventType, payload).core.unknownFrames
            == chat.unknownFrames
               + (if (choices.Some? && choices.value != []) || Or(UsageOf(Field(payload, "usage")), chat.usage).Some? then []
                  else
                    match RecordField(payload, "error")
                    case Some(error) => [ApiError(StringField(error, "type"), StringField(error, "code"), StringField(error, "message"))]
                    case None => [UnknownEvent(Some(frameIndex), payload)])
  {
    hide StringField, Field, ArrayField, RecordField, UsageOf, ApplyChoices;
    OnlyChoices(Applied(Told(chat, payload), [], 0), frameIndex, ChoicesOf(payload));
    assert chat.unknownFrames + [] == chat.unknownFrames;
  }

  lemma {:induction false} OnlyChoices(a: Applied<Chat>, frameIndex: nat, items: seq<Json>)
    ensures var after := ApplyChoices(a, frameIndex, items).core; after == a.core.(choices := after.choices)
    decreases |items|
  {
    hide ApplyDelta, StringField, RecordField, IntegerField;
    if items != [] {
      OnlyChoices(a, frameIndex, items[..|items| - 1]);
    }
  }

  lemma NoChoices(index: nat)
    ensures ChoicesFit(map[], index, [])
  {
  }

  /** The same for the frames of a stream, replays and conflicts among them. */
  lemma {:induction false} StreamAsGiven(parse: Parser, frames: seq<Frame>, index: nat)
    ensures var p := Completions(parse);
            var chat, payloads := Turns(p, Opening(NOTHING_YET), frames).core, Payloads(Accepted(p, Opening(NOTHING_YET), frames));
            && ChoicesFit(chat.choices, index, Entries(payloads, index))
            && chat.responseId == LastString(payloads, "id") && chat.usage == LastUsage(payloads)
  {
    hide Turns, Accepted, AppliedAll, ChoicesFit, LastString, LastUsage, Entries;
    LoopIsFold(Completions(parse), Opening(NOTHING_YET), frames);
    ChoicesAsGiven(parse, Accepted(Completions(parse), Opening(NOTHING_YET), frames), index);
  }

  /** The counts that a usage record reports, each under its own name. */
  lemma UsageAsReported(j: Json, input: Option<nat>, output: Option<nat>, total: Option<nat>)
    requires forall n: nat :: input == Some(n) <==> Has(j, "prompt_tokens", Number(n as real))
    requires forall n: nat :: output == Some(n) <==> Has(j, "completion_tokens", Number(n as real))
    requires forall n: nat :: total == Some(n) <==> Has(j, "total_tokens", Number(n as real))
    ensures UsageOf(Some(j)) == if j.Obj? && (input.Some? || output.Some? || total.Some?) then Some(Usage(input, output, total)) else None
  {
    hide Has, TokenField;
    FieldsAreFound(j, "prompt_tokens");
    FieldsAreFound(j, "completion_tokens");
    FieldsAreFound(j, "total_tokens");
    SameOption(TokenField(j, "prompt_tokens"), input);
    SameOption(TokenField(j, "completion_tokens"), output);
    SameOption(TokenField(j, "total_tokens"), total);
  }
}
