// What the loops over chat completions and over the Responses API
// (packages/normalizers/src/chat-completions.ts, packages/normalizers/src/responses.ts) skip,
// report and keep aside, in terms of the payloads.

module ReportTerms {
  import opened Wrappers
  import opened JsonValues
  import opened SseDecoding
  import opened Replay
  import Chat = ChatCompletions
  import Api = ResponsesApi

  // ------------------------------------------------------------ reading

  /** Both streams end with the word "[DONE]", which is no payload; chunks of a completion have no
      event type. */
  lemma DoneIsSkipped(parse: Parser, f: Frame)
    ensures f.data == Some("[DONE]") ==> Chat.ReadChunk(parse, f) == Skipped && Api.ReadEvent(parse, f) == Skipped
    ensures f.data != Some("[DONE]") ==>
              && Api.ReadEvent(parse, f) == ReadFrame(parse, f)
              && (ReadFrame(parse, f).Payload? ==> Chat.ReadChunk(parse, f) == Payload(ReadFrame(parse, f).value, None))
              && (!ReadFrame(parse, f).Payload? ==> Chat.ReadChunk(parse, f) == ReadFrame(parse, f))
  {
  }

  // ------------------------------------------------------------ chat completions

  predicate Placed(item: Json) {
    var index := IntegerField(item, "index");
    index.Some? && index.value >= 0
  }

  /** One report for each tool call without a place among a choice's calls. */
  function CallReports(calls: seq<Json>, frameIndex: nat): seq<Diagnostic> {
    if calls == [] then []
    else
      CallReports(calls[..|calls| - 1], frameIndex)
      + if Placed(calls[|calls| - 1]) then [] else [Diagnostic(InvalidPayload, Some(frameIndex), Some("chat.completion.chunk"), false)]
  }

  function CallsOf(choice: Json): seq<Json> {
    match RecordField(choice, "delta")
    case None => []
    case Some(delta) =>
      match ArrayField(delta, "tool_calls")
      case None => []
      case Some(calls) => calls
  }

  /** One report, and one error, for each choice without a place; else the reports on its calls. */
  function ChoiceReports(choices: seq<Json>, frameIndex: nat): seq<Diagnostic> {
    if choices == [] then []
    else
      var last := choices[|choices| - 1];
      ChoiceReports(choices[..|choices| - 1], frameIndex)
      + if Placed(last) then CallReports(CallsOf(last), frameIndex) else [Diagnostic(InvalidPayload, Some(frameIndex), None, false)]
  }

  function Misplaced(choices: seq<Json>): nat {
    if choices == [] then 0 else Misplaced(choices[..|choices| - 1]) + if Placed(choices[|choices| - 1]) then 0 else 1
  }

  lemma PlaceInTerms(item: Json)
    ensures Chat.IndexOf(item).Some? <==> Placed(item)
  {
  }

  lemma {:induction false} CallsReported(a: Applied<Chat.ChoiceAssembly>, frameIndex: nat, calls: seq<Json>)
    ensures Chat.ApplyToolDeltas(a, frameIndex, calls).diagnostics == a.diagnostics + CallReports(calls, frameIndex)
    decreases |calls|
  {
    hide Placed, StringField, RecordField;
    if calls == [] {
      assert a.diagnostics + [] == a.diagnostics;
    } else {
      CallsReported(a, frameIndex, calls[..|calls| - 1]);
      PlaceInTerms(calls[|calls| - 1]);
      var before := CallReports(calls[..|calls| - 1], frameIndex);
      assert before + [] == before;
      assert forall d: Diagnostic :: a.diagnostics + before + [d] == a.diagnostics + (before + [d]);
    }
  }

  lemma {:induction false} ChoiceReported(a: Applied<Chat.Chat>, frameIndex: nat, choice: Json)
    ensures var b := Chat.ApplyChoice(a, frameIndex, choice);
            && b.diagnostics == a.diagnostics
               + (if Placed(choice) then CallReports(CallsOf(choice), frameIndex) else [Diagnostic(InvalidPayload, Some(frameIndex), None, false)])
            && b.errors == a.errors + if Placed(choice) then 0 else 1
  {
    hide Placed, StringField, RecordField, ArrayField, CallReports, Chat.ApplyToolDeltas, Chat.ApplyFunctionCall, Chat.UnknownMembers;
    PlaceInTerms(choice);
    NoCalls(frameIndex);
    if RecordField(choice, "delta").Some? && Placed(choice) {
      var delta := RecordField(choice, "delta").value;
      DeltaIsObject(choice, delta);
      var index := Chat.IndexOf(choice).value;
      var before := Chat.ChoiceFor(a.core, index);
      var finished := before.(finishReason := Or(StringField(choice, "finish_reason"), before.finishReason));
      var spoken := finished.(content := finished.content + Text(StringField(delta, "content")), refusal := finished.refusal + Text(StringField(delta, "refusal")));
      CallsReported(Applied(spoken, [], 0), frameIndex, CallsOf(choice));
      assert [] + CallReports(CallsOf(choice), frameIndex) == CallReports(CallsOf(choice), frameIndex);
    }
  }

  lemma DeltaIsObject(choice: Json, delta: Json)
    requires RecordField(choice, "delta") == Some(delta)
    ensures delta.Obj?
  {
  }

  lemma {:induction false} NoCalls(frameIndex: nat)
    ensures CallReports([], frameIndex) == []
  {
  }

  lemma {:induction false} ChoicesReported(a: Applied<Chat.Chat>, frameIndex: nat, choices: seq<Json>)
    ensures var b := Chat.ApplyChoices(a, frameIndex, choices);
            b.diagnostics == a.diagnostics + ChoiceReports(choices, frameIndex) && b.errors == a.errors + Misplaced(choices)
    decreases |choices|
  {
    hide Placed, CallReports, CallsOf, Chat.ApplyChoice;
    if choices == [] {
      assert a.diagnostics + [] == a.diagnostics;
    } else {
      var front, last := choices[..|choices| - 1], choices[|choices| - 1];
      ChoicesReported(a, frameIndex, front);
      ChoiceReported(Chat.ApplyChoices(a, frameIndex, front), frameIndex, last);
      var more := if Placed(last) then CallReports(CallsOf(last), frameIndex) else [Diagnostic(InvalidPayload, Some(frameIndex), None, false)];
      assert (a.diagnostics + ChoiceReports(front, frameIndex)) + more == a.diagnostics + (ChoiceReports(front, frameIndex) + more);
    }
  }

  /** What a chunk reports: what it lacks, or, with no choices before any usage is known, that it is
      not understood, unless it is an error. */
  lemma {:induction false} ChunkReports(chat: Chat.Chat, frameIndex: nat, eventType: Option<string>, payload: Json)
    ensures var a := Chat.Apply(chat, frameIndex, eventType, payload);
            var choices := if ArrayField(payload, "choices").Some? then ArrayField(payload, "choices").value else [];
            && a.errors == Misplaced(choices)
            && a.diagnostics ==
               if choices != [] || a.core.usage.Some? then ChoiceReports(choices, frameIndex)
               else if RecordField(payload, "error").Some? then []
               else [Diagnostic(UnsupportedEvent, Some(frameIndex), None, false)]
  {
    hide ArrayField, RecordField, StringField, Chat.UsageOf, Chat.ApplyChoices, ChoiceReports;
    var choices := if ArrayField(payload, "choices").Some? then ArrayField(payload, "choices").value else [];
    var told := Chat.Told(chat, payload);
    ChoicesReported(Applied(told, [], 0), frameIndex, choices);
    assert [] + ChoiceReports(choices, frameIndex) == ChoiceReports(choices, frameIndex);
    UsageStays(Applied(told, [], 0), frameIndex, choices);
  }

  lemma {:induction false} UsageStays(a: Applied<Chat.Chat>, frameIndex: nat, choices: seq<Json>)
    ensures Chat.ApplyChoices(a, frameIndex, choices).core.usage == a.core.usage
    decreases |choices|
  {
    hide Chat.ApplyDelta, Chat.IndexOf, StringField, RecordField;
    if choices != [] {
      UsageStays(a, frameIndex, choices[..|choices| - 1]);
    }
  }

  // ------------------------------------------------------------ the Responses API

  function ApiEvents(): set<string> {
    {"response.created", "response.output_text.delta", "response.output_text.done", "response.function_call_arguments.delta",
     "response.function_call_arguments.done", "response.output_item.added", "response.output_item.done", "response.completed",
     "response.failed", "response.incomplete", "error"}
  }

  /** What an event must have to be used: a start its identifier, a delta its item and its text. */
  predicate Lacks(kind: string, payload: Json) {
    if kind == "response.created" then
      match RecordField(payload, "response")
      case None => true
      case Some(response) => StringField(response, "id").None?
    else
      && kind in {"response.output_text.delta", "response.function_call_arguments.delta"}
      && (StringField(payload, "item_id").None? || StringField(payload, "delta").None?)
  }

  /** An output item that is used: a message or a function call with an identifier. */
  predicate Used(item: Json) {
    StringField(item, "id").Some? && StringField(item, "type") in {Some("message"), Some("function_call")}
  }

  /** What is kept aside of an event: the whole of an unknown one, or an item that is not used. */
  function Aside(frameIndex: nat, eventType: Option<string>, payload: Json): seq<Api.Draft> {
    match eventType
    case None => [Api.UnknownEvent("unknown", Some(frameIndex), payload)]
    case Some(kind) =>
      if kind !in ApiEvents() then [Api.UnknownEvent(kind, Some(frameIndex), payload)]
      else if kind !in {"response.output_item.added", "response.output_item.done"} then []
      else
        match RecordField(payload, "item")
        case None => [Api.UnknownItem("unknown", Some(frameIndex), OrElse(Field(payload, "item"), payload))]
        case Some(item) =>
          if Used(item) then []
          else [Api.UnknownItem(Or(StringField(item, "type"), Some("unknown")).value, Some(frameIndex), item)]
  }

  lemma KindsDiffer()
    ensures "response.output_item.added" != "response.created" && "response.output_item.done" != "response.created"
    ensures "response.output_item.added" != "response.output_text.delta" && "response.output_item.done" != "response.output_text.delta"
    ensures "response.output_item.added" != "response.function_call_arguments.delta"
    ensures "response.output_item.done" != "response.function_call_arguments.delta"
    ensures "response.output_item.added" != "response.output_text.done" && "response.output_item.done" != "response.output_text.done"
    ensures "response.output_text.delta" != "response.output_text.done" && "response.output_text.delta" != "response.created"
    ensures "message" != "function_call"
  {
    assert |"response.output_item.added"| == 26 && |"response.output_item.done"| == 25 && |"response.created"| == 16;
    assert |"response.output_text.delta"| == 26 && |"response.function_call_arguments.delta"| == 38 && |"response.output_text.done"| == 25;
    assert "response.output_item.added"[16] == 'i' && "response.output_text.delta"[16] == 't';
    assert "response.output_item.done"[16] == 'i' && "response.output_text.done"[16] == 't';
    assert |"message"| == 7 && |"function_call"| == 13;
  }

  lemma ItemKeptAside(r: Api.Response, item: Json, finalized: bool)
    ensures Api.ApplyOutputItem(r, item, finalized).Some? <==> Used(item)
    ensures Used(item) ==> Api.ApplyOutputItem(r, item, finalized).value.unknown == r.unknown
  {
    hide StringField, ArrayField, Api.OutputText, Api.Put, Api.Get, Api.FunctionFor;
    KindsDiffer();
  }

  lemma RecordIsItem(payload: Json)
    ensures var record := RecordField(payload, "item");
            record.Some? ==> record.value.Obj? && OrElse(Field(payload, "item"), payload) == record.value
  {
  }

  /** What an event leaves aside. */
  lemma EventAside(r: Api.Response, frameIndex: nat, eventType: Option<string>, payload: Json)
    ensures Api.Apply(r, frameIndex, eventType, payload).core.unknown == r.unknown + Aside(frameIndex, eventType, payload)
  {
    hide StringField, RecordField, Field, OrElse, Used, Lacks, Api.ApplyOutputItem, Api.UsageOf, Api.Put, Api.Get, Api.FunctionFor;
    assert r.unknown + [] == r.unknown;
    KindsDiffer();
    RecordIsItem(payload);
    var item := RecordField(payload, "item");
    if eventType.Some? && item.Some? {
      ItemKeptAside(r, item.value, eventType.value == "response.output_item.done");
    }
  }

  /** What an event reports, and counts as an error. */
  lemma EventReports(r: Api.Response, frameIndex: nat, eventType: Option<string>, payload: Json)
    ensures var a := Api.Apply(r, frameIndex, eventType, payload);
            && a.errors == (if eventType.Some? && Lacks(eventType.value, payload) then 1 else 0)
            && a.diagnostics ==
               if eventType.None? then []
               else if Lacks(eventType.value, payload) then [Diagnostic(InvalidPayload, Some(frameIndex), eventType, false)]
               else if eventType.value !in ApiEvents() then [Diagnostic(UnsupportedEvent, Some(frameIndex), eventType, false)]
               else []
  {
    hide StringField, RecordField, Field, OrElse, Used, Aside, Api.ApplyOutputItem, Api.UsageOf, Api.Put, Api.Get, Api.FunctionFor;
    KindsDiffer();
  }

  function Asides(items: seq<Item>): seq<Api.Draft>
    decreases |items|
  {
    if items == [] then []
    else
      var last := items[|items| - 1];
      Asides(items[..|items| - 1]) + Aside(last.frameIndex, last.eventType, last.payload)
  }

  lemma {:induction false} AsidesAsGiven(parse: Parser, items: seq<Item>)
    ensures AppliedAll(Api.Responses(parse), Api.NOTHING_YET, items).unknown == Asides(items)
    decreases |items|
  {
    hide Api.Apply, ReadFrame, Aside;
    if items != [] {
      var front, last := items[..|items| - 1], items[|items| - 1];
      AsidesAsGiven(parse, front);
      EventAside(AppliedAll(Api.Responses(parse), Api.NOTHING_YET, front), last.frameIndex, last.eventType, last.payload);
    }
  }

  /** A stream keeps aside what it does not know, in the order it comes. */
  lemma {:induction false} StreamKeepsAside(parse: Parser, frames: seq<Frame>)
    ensures var p := Api.Responses(parse);
            Turns(p, Opening(Api.NOTHING_YET), frames).core.unknown == Asides(Accepted(p, Opening(Api.NOTHING_YET), frames))
  {
    hide Turns, Accepted, AppliedAll, Asides;
    var p := Api.Responses(parse);
    LoopIsFold(p, Opening(Api.NOTHING_YET), frames);
    AsidesAsGiven(parse, Accepted(p, Opening(Api.NOTHING_YET), frames));
  }
}
