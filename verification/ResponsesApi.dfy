// Streams of the Responses API (packages/normalizers/src/responses.ts): what each event does
// to the assembly, and that replayed and conflicting frames do nothing to it.

module ResponsesApi {
  import opened Wrappers
  import TextLines
  import opened JsonValues
  import opened SseDecoding
  import opened Replay

  datatype Usage = Usage(inputTokens: Option<nat>, outputTokens: Option<nat>, totalTokens: Option<nat>)

  datatype FunctionAssembly = FunctionAssembly(
    callId: Option<string>, name: Option<string>, argumentsDelta: string, argumentsDone: Option<string>)

  datatype Draft =
    | ResponseStarted(id: string)
    | ResponseCompleted(responseId: Option<string>, status: Option<string>)
    | ApiError(kind: Option<string>, code: Option<string>, message: Option<string>)
    | UnknownEvent(eventType: string, frameIndex: Option<nat>, payload: Json)
    | UnknownItem(itemType: string, frameIndex: Option<nat>, payload: Json)

  /** What a stream has told so far; texts and functions in the order of their first mention. */
  datatype Response = Response(
    texts: seq<(string, string)>,
    functions: seq<(string, FunctionAssembly)>,
    usage: Option<Usage>,
    started: seq<Draft>,
    unknown: seq<Draft>,
    terminal: seq<Draft>)

  const NOTHING_YET := Response([], [], None, [], [], [])

  const NEW_FUNCTION := FunctionAssembly(None, None, "", None)

  const DONE := "[DONE]"

  // ------------------------------------------------------------ entries in order of insertion

  function Get<V>(entries: seq<(string, V)>, key: string): Option<V> {
    if entries == [] then None else if entries[0].0 == key then Some(entries[0].1) else Get(entries[1..], key)
  }

  function Put<V>(entries: seq<(string, V)>, key: string, value: V): seq<(string, V)> {
    if entries == [] then [(key, value)]
    else if entries[0].0 == key then [(key, value)] + entries[1..]
    else [entries[0]] + Put(entries[1..], key, value)
  }

  // ------------------------------------------------------------ one event

  function UsageOf(value: Option<Json>): Option<Usage> {
    if value.None? || !value.value.Obj? then None
    else
      var j := value.value;
      var u := Usage(TokenField(j, "input_tokens"), TokenField(j, "output_tokens"), TokenField(j, "total_tokens"));
      if u == Usage(None, None, None) then None else Some(u)
  }

  function OutputText(parts: seq<Json>): string {
    if parts == [] then ""
    else
      (if StringField(parts[0], "type") == Some("output_text") then Text(StringField(parts[0], "text")) else "")
      + OutputText(parts[1..])
  }

  function FunctionFor(r: Response, id: string): FunctionAssembly {
    var existing := Get(r.functions, id);
    if existing.Some? then existing.value else NEW_FUNCTION
  }

  /** What a message or function item does; nothing for an item that is neither. */
  function ApplyOutputItem(r: Response, item: Json, finalized: bool): Option<Response> {
    var kind, id := StringField(item, "type"), StringField(item, "id");
    if kind == Some("message") && id.Some? then
      var content := ArrayField(item, "content");
      var text := OutputText(if content.Some? then content.value else []);
      Some(if text == "" then r else r.(texts := Put(r.texts, id.value, text)))
    else if kind == Some("function_call") && id.Some? then
      var f := FunctionFor(r, id.value);
      var done := StringField(item, "arguments");
      Some(r.(functions := Put(r.functions, id.value, f.(
        callId := Or(StringField(item, "call_id"), id),
        name := Or(StringField(item, "name"), f.name),
        argumentsDone := if finalized && done.Some? then done else f.argumentsDone))))
    else None
  }

  function Report(kind: DiagnosticKind, frameIndex: nat, eventType: string): Diagnostic {
    Diagnostic(kind, Some(frameIndex), Some(eventType), false)
  }

  function Invalid(r: Response, frameIndex: nat, eventType: string): Applied<Response> {
    Applied(r, [Report(InvalidPayload, frameIndex, eventType)], 1)
  }

  function Quiet(r: Response): Applied<Response> {
    Applied(r, [], 0)
  }

  function ApplyText(r: Response, frameIndex: nat, kind: string, payload: Json): Applied<Response> {
    var id, delta, text := StringField(payload, "item_id"), StringField(payload, "delta"), StringField(payload, "text");
    if kind == "response.output_text.delta" then
      if id.None? || delta.None? then Invalid(r, frameIndex, kind)
      else Quiet(r.(texts := Put(r.texts, id.value, Text(Get(r.texts, id.value)) + delta.value)))
    else Quiet(if id.Some? && text.Some? then r.(texts := Put(r.texts, id.value, text.value)) else r)
  }

  function ApplyArguments(r: Response, frameIndex: nat, kind: string, payload: Json): Applied<Response> {
    var id, delta, done := StringField(payload, "item_id"), StringField(payload, "delta"), StringField(payload, "arguments");
    if kind == "response.function_call_arguments.delta" then
      if id.None? || delta.None? then Invalid(r, frameIndex, kind)
      else
        var f := FunctionFor(r, id.value);
        Quiet(r.(functions := Put(r.functions, id.value, f.(argumentsDelta := f.argumentsDelta + delta.value))))
    else if id.None? then Quiet(r)
    else
      var f := FunctionFor(r, id.value);
      Quiet(r.(functions := Put(r.functions, id.value, f.(
        callId := Or(StringField(payload, "call_id"), id),
        name := Or(StringField(payload, "name"), f.name),
        argumentsDone := Or(done, f.argumentsDone)))))
  }

  function ApplyItem(r: Response, frameIndex: nat, kind: string, payload: Json): Applied<Response> {
    var item := RecordField(payload, "item");
    var next := if item.Some? then ApplyOutputItem(r, item.value, kind == "response.output_item.done") else None;
    if next.Some? then Quiet(next.value)
    else
      var itemType := if item.Some? then Or(StringField(item.value, "type"), Some("unknown")).value else "unknown";
      Quiet(r.(unknown := r.unknown + [UnknownItem(itemType, Some(frameIndex), OrElse(Field(payload, "item"), payload))]))
  }

  function ApplyCreated(r: Response, frameIndex: nat, kind: string, payload: Json): Applied<Response> {
    var response := RecordField(payload, "response");
    var id := if response.Some? then StringField(response.value, "id") else None;
    if id.None? then Invalid(r, frameIndex, kind) else Quiet(r.(started := r.started + [ResponseStarted(id.value)]))
  }

  function ApplyEnd(r: Response, payload: Json): Applied<Response> {
    var response := RecordField(payload, "response");
    var id := if response.Some? then StringField(response.value, "id") else None;
    var status := if response.Some? then StringField(response.value, "status") else None;
    var usage := UsageOf(if response.Some? then Field(response.value, "usage") else None);
    Quiet(r.(usage := Or(usage, r.usage), terminal := r.terminal + [ResponseCompleted(id, status)]))
  }

  function ApplyError(r: Response, payload: Json): Applied<Response> {
    var error := Or(RecordField(payload, "error"), Some(payload)).value;
    Quiet(r.(terminal := r.terminal + [ApiError(StringField(error, "type"), StringField(error, "code"), StringField(error, "message"))]))
  }

  /** The switch over the event types. */
  function Apply(r: Response, frameIndex: nat, eventType: Option<string>, payload: Json): Applied<Response> {
    var kind := Or(eventType, Some("unknown")).value;
    var noted := r.(unknown := r.unknown + [UnknownEvent(kind, Some(frameIndex), payload)]);
    if eventType.None? then Quiet(noted)
    else if kind == "response.created" then ApplyCreated(r, frameIndex, kind, payload)
    else if kind == "response.output_text.delta" || kind == "response.output_text.done" then ApplyText(r, frameIndex, kind, payload)
    else if kind == "response.function_call_arguments.delta" || kind == "response.function_call_arguments.done" then
      ApplyArguments(r, frameIndex, kind, payload)
    else if kind == "response.output_item.added" || kind == "response.output_item.done" then ApplyItem(r, frameIndex, kind, payload)
    else if kind == "response.completed" || kind == "response.failed" || kind == "response.incomplete" then ApplyEnd(r, payload)
    else if kind == "error" then ApplyError(r, payload)
    else Applied(noted, [Report(UnsupportedEvent, frameIndex, kind)], 0)
  }

  // ------------------------------------------------------------ replays

  function EraseDraft(d: Draft): Draft {
    if d.UnknownEvent? || d.UnknownItem? then d.(frameIndex := None) else d
  }

  function EraseDrafts(drafts: seq<Draft>): seq<Draft> {
    seq(|drafts|, i requires 0 <= i < |drafts| => EraseDraft(drafts[i]))
  }

  function Erase(r: Response): Response {
    r.(unknown := EraseDrafts(r.unknown))
  }

  function ReadEvent(parse: Parser, frame: Frame): Reading {
    if frame.data == Some(DONE) then Skipped else ReadFrame(parse, frame)
  }

  function Responses(parse: Parser): Provider<Response> {
    Provider(frame => ReadEvent(parse, frame), Apply, Erase)
  }

  lemma EraseNext(drafts: seq<Draft>, d: Draft)
    ensures EraseDrafts(drafts + [d]) == EraseDrafts(drafts) + [EraseDraft(d)]
  {
  }

  lemma EraseOnlyUnknown(m: Response, n: Response)
    requires Erase(m) == Erase(n)
    ensures n == m.(unknown := n.unknown) && EraseDrafts(m.unknown) == EraseDrafts(n.unknown)
  {
    assert Erase(m).(unknown := []) == m.(unknown := []) && Erase(n).(unknown := []) == n.(unknown := []);
  }

  ghost predicate SameButPlace(a: Applied<Response>, b: Applied<Response>) {
    Erase(a.core) == Erase(b.core) && Unplaced(a.diagnostics) == Unplaced(b.diagnostics) && a.errors == b.errors
  }

  lemma ItemIsPlaceFree(m: Response, n: Response, i: nat, j: nat, kind: string, payload: Json)
    requires Erase(m) == Erase(n)
    ensures SameButPlace(ApplyItem(m, i, kind, payload), ApplyItem(n, j, kind, payload))
  {
    hide Lookup, StringField, RecordField, EraseDrafts, Put, Get, OutputText;
    EraseOnlyUnknown(m, n);
    var a, b := ApplyItem(m, i, kind, payload), ApplyItem(n, j, kind, payload);
    if |a.core.unknown| > |m.unknown| {
      EraseNext(m.unknown, a.core.unknown[|m.unknown|]);
      EraseNext(n.unknown, b.core.unknown[|n.unknown|]);
    }
  }

  lemma EventIsPlaceFree(m: Response, n: Response, i: nat, j: nat, kind: string, payload: Json)
    requires Erase(m) == Erase(n)
    ensures SameButPlace(ApplyCreated(m, i, kind, payload), ApplyCreated(n, j, kind, payload))
    ensures SameButPlace(ApplyText(m, i, kind, payload), ApplyText(n, j, kind, payload))
    ensures SameButPlace(ApplyArguments(m, i, kind, payload), ApplyArguments(n, j, kind, payload))
    ensures SameButPlace(ApplyEnd(m, payload), ApplyEnd(n, payload)) && SameButPlace(ApplyError(m, payload), ApplyError(n, payload))
  {
    hide Lookup, StringField, RecordField, EraseDrafts, Put, Get, UsageOf;
    EraseOnlyUnknown(m, n);
  }

  lemma ApplyIsPlaceFree(m: Response, n: Response, i: nat, j: nat, eventType: Option<string>, payload: Json)
    requires Erase(m) == Erase(n)
    ensures SameButPlace(Apply(m, i, eventType, payload), Apply(n, j, eventType, payload))
  {
    hide ApplyItem, ApplyCreated, ApplyText, ApplyArguments, ApplyEnd, ApplyError, EraseDrafts;
    EraseOnlyUnknown(m, n);
    var kind := Or(eventType, Some("unknown")).value;
    ItemIsPlaceFree(m, n, i, j, kind, payload);
    EventIsPlaceFree(m, n, i, j, kind, payload);
    EraseNext(m.unknown, UnknownEvent(kind, Some(i), payload));
    EraseNext(n.unknown, UnknownEvent(kind, Some(j), payload));
  }

  /** So replays and conflicts are transparent to the Responses loop. */
  lemma ResponsesIsPlaceFree(parse: Parser)
    ensures PlaceFree(Responses(parse))
  {
    hide Apply, Erase, ReadFrame;
    var p := Responses(parse);
    forall f, g | SameFrame(f, g) ensures p.read(f) == p.read(g) {
      ReadIsPlaceFree(parse, f, g);
    }
    forall c, d, i, j, t, x | p.erase(c) == p.erase(d)
      ensures var a, b := p.apply(c, i, t, x), p.apply(d, j, t, x);
              p.erase(a.core) == p.erase(b.core) && Unplaced(a.diagnostics) == Unplaced(b.diagnostics) && a.errors == b.errors
    {
      ApplyIsPlaceFree(c, d, i, j, t, x);
    }
  }

  /** A frame that comes again, or comes with other content, under an identity that was accepted
      before leaves texts, function calls, usage and everything else as they are. */
  lemma {:induction false} ResponsesIgnores(parse: Parser, a: seq<Frame>, c: Frame, b: seq<Frame>, b': seq<Frame>, i: nat, identity: string)
    requires i < |a| && FirstWith(Responses(parse), a, i, identity) && Responses(parse).read(c).Payload?
    requires Identified(Responses(parse), c, identity) && SameFrames(b, b')
    ensures var whole, plain := Turns(Responses(parse), Opening(NOTHING_YET), a + [c] + b'), Turns(Responses(parse), Opening(NOTHING_YET), a + b);
            && whole.core == plain.core.(unknown := whole.core.unknown)
            && EraseDrafts(whole.core.unknown) == EraseDrafts(plain.core.unknown)
            && |whole.parserErrors| == |plain.parserErrors|
            && |whole.duplicateErrors| == |plain.duplicateErrors| + if Fingerprint(a[i]) == Fingerprint(c) then 0 else 1
  {
    hide PlaceFree, Turns, FirstWith, Identified, SameFrames, Fingerprint, ReadFrame, Apply, EraseDrafts, OneMore;
    var p := Responses(parse);
    ResponsesIsPlaceFree(parse);
    InsertedFrame(p, Opening(NOTHING_YET), a, c, b, b', i, identity);
    EraseOnlyUnknown(Turns(p, Opening(NOTHING_YET), a + b).core, Turns(p, Opening(NOTHING_YET), a + [c] + b').core);
  }

  // ------------------------------------------------------------ what is assembled

  /** What an event gives to the text of an item: more of it, or all of it. */
  datatype TextPiece = MoreText(text: string) | WholeText(text: string)

  /** What an event gives to a function call: more of its arguments, or its names and, once they
      are final, its arguments. */
  datatype CallPiece = MoreArguments(text: string) | Named(callId: string, name: Option<string>, arguments: Option<string>)

  function TextsIn(parts: seq<Json>): seq<string>
    decreases |parts|
  {
    if parts == [] then []
    else
      var last := parts[|parts| - 1];
      var text := StringField(last, "text");
      TextsIn(parts[..|parts| - 1])
      + if StringField(last, "type") != Some("output_text") then [] else [if text.Some? then text.value else ""]
  }

  /** The identifier of the item of an `output_item` event, when it is of the kind. */
  function ItemId(item: Json, kind: string): Option<string> {
    if StringField(item, "type") == Some(kind) then StringField(item, "id") else None
  }

  /** The item whose text an event speaks of, and what it says. */
  function TextGiven(item: Item): Option<(string, TextPiece)> {
    var id, delta, text := StringField(item.payload, "item_id"), StringField(item.payload, "delta"), StringField(item.payload, "text");
    if item.eventType == Some("response.output_text.delta") then
      if id.Some? && delta.Some? then Some((id.value, MoreText(delta.value))) else None
    else if item.eventType == Some("response.output_text.done") then
      if id.Some? && text.Some? then Some((id.value, WholeText(text.value))) else None
    else if item.eventType == Some("response.output_item.added") || item.eventType == Some("response.output_item.done") then
      match RecordField(item.payload, "item")
      case None => None
      case Some(record) =>
        var parts := ArrayField(record, "content");
        var whole := if parts.Some? then TextLines.Concat(TextsIn(parts.value)) else "";
        if ItemId(record, "message").Some? && whole != "" then Some((ItemId(record, "message").value, WholeText(whole))) else None
    else None
  }

  function CallGiven(item: Item): Option<(string, CallPiece)> {
    var id, delta := StringField(item.payload, "item_id"), StringField(item.payload, "delta");
    if item.eventType == Some("response.function_call_arguments.delta") then
      if id.Some? && delta.Some? then Some((id.value, MoreArguments(delta.value))) else None
    else if item.eventType == Some("response.function_call_arguments.done") then
      if id.None? then None
      else
        var callId := StringField(item.payload, "call_id");
        Some((id.value, Named(if callId.Some? then callId.value else id.value,
                              StringField(item.payload, "name"), StringField(item.payload, "arguments"))))
    else if item.eventType == Some("response.output_item.added") || item.eventType == Some("response.output_item.done") then
      match RecordField(item.payload, "item")
      case None => None
      case Some(record) =>
        var key := ItemId(record, "function_call");
        if key.None? then None
        else
          var callId := StringField(record, "call_id");
          Some((key.value, Named(if callId.Some? then callId.value else key.value, StringField(record, "name"),
                                 if item.eventType == Some("response.output_item.done") then StringField(record, "arguments") else None)))
    else None
  }

  function TextPieces(items: seq<Item>, id: string): seq<TextPiece>
    decreases |items|
  {
    if items == [] then []
    else
      var given := TextGiven(items[|items| - 1]);
      TextPieces(items[..|items| - 1], id) + if given.Some? && given.value.0 == id then [given.value.1] else []
  }

  function CallPieces(items: seq<Item>, id: string): seq<CallPiece>
    decreases |items|
  {
    if items == [] then []
    else
      var given := CallGiven(items[|items| - 1]);
      CallPieces(items[..|items| - 1], id) + if given.Some? && given.value.0 == id then [given.value.1] else []
  }

  /** The last whole text, and the pieces after it. */
  function Spoken(pieces: seq<TextPiece>): string
    decreases |pieces|
  {
    if pieces == [] then ""
    else
      var last := pieces[|pieces| - 1];
      if last.WholeText? then last.text else Spoken(pieces[..|pieces| - 1]) + last.text
  }

  function Streamed(pieces: seq<CallPiece>): string
    decreases |pieces|
  {
    if pieces == [] then ""
    else
      var last := pieces[|pieces| - 1];
      Streamed(pieces[..|pieces| - 1]) + if last.MoreArguments? then last.text else ""
  }

  /** The last of what the naming pieces say. */
  function LastOf(pieces: seq<CallPiece>, what: CallPiece -> Option<string>): Option<string>
    decreases |pieces|
  {
    if pieces == [] then None
    else if what(pieces[|pieces| - 1]).Some? then what(pieces[|pieces| - 1])
    else LastOf(pieces[..|pieces| - 1], what)
  }

  function Called(pieces: seq<CallPiece>): FunctionAssembly {
    FunctionAssembly(
      LastOf(pieces, (p: CallPiece) => if p.Named? then Some(p.callId) else None),
      LastOf(pieces, (p: CallPiece) => if p.Named? then p.name else None),
      Streamed(pieces),
      LastOf(pieces, (p: CallPiece) => if p.Named? then p.arguments else None))
  }

  lemma {:induction false} PutThenGet<V>(entries: seq<(string, V)>, key: string, value: V, other: string)
    ensures Get(Put(entries, key, value), other) == if other == key then Some(value) else Get(entries, other)
    decreases |entries|
  {
    if entries != [] && entries[0].0 != key {
      PutThenGet(entries[1..], key, value, other);
      assert Put(entries, key, value)[1..] == Put(entries[1..], key, value);
    }
  }

  function Keys<V>(entries: seq<(string, V)>): (r: seq<string>)
    ensures |r| == |entries|
  {
    seq(|entries|, i requires 0 <= i < |entries| => entries[i].0)
  }

  lemma KeysFirst<V>(entry: (string, V), entries: seq<(string, V)>)
    ensures Keys([entry] + entries) == [entry.0] + Keys(entries)
  {
  }

  /** Entries stand in the order of their first mention. */
  lemma {:induction false} PutKeepsOrder<V>(entries: seq<(string, V)>, key: string, value: V)
    ensures Keys(Put(entries, key, value)) == if key in Keys(entries) then Keys(entries) else Keys(entries) + [key]
    decreases |entries|
  {
    if entries == [] {
      assert Put(entries, key, value) == [(key, value)] + entries;
      KeysFirst((key, value), entries);
    } else {
      hide Keys;
      var rest := entries[1..];
      assert entries == [entries[0]] + rest;
      KeysFirst(entries[0], rest);
      if entries[0].0 == key {
        KeysFirst((key, value), rest);
      } else {
        PutKeepsOrder(rest, key, value);
        KeysFirst(entries[0], Put(rest, key, value));
        assert [entries[0].0] + (Keys(rest) + [key]) == [entries[0].0] + Keys(rest) + [key];
      }
    }
  }

  lemma {:induction false} OutputTextIsJoined(parts: seq<Json>)
    ensures OutputText(parts) == TextLines.Concat(TextsIn(parts))
    decreases |parts|
  {
    hide StringField;
    if parts != [] {
      var n := |parts| - 1;
      OutputTextIsJoined(parts[..n]);
      OutputTextLast(parts);
      var more := if StringField(parts[n], "type") != Some("output_text") then [] else [Text(StringField(parts[n], "text"))];
      TextLines.ConcatSplit(TextsIn(parts[..n]), more);
      if more != [] {
        assert more[..0] == [];
      }
    }
  }

  function PartText(part: Json): string {
    if StringField(part, "type") == Some("output_text") then Text(StringField(part, "text")) else ""
  }

  lemma {:induction false} OutputTextFirst(part: Json, rest: seq<Json>)
    ensures OutputText([part] + rest) == PartText(part) + OutputText(rest) && OutputText([]) == ""
  {
    hide StringField;
    assert ([part] + rest)[1..] == rest;
  }

  lemma {:induction false} OutputTextLast(parts: seq<Json>)
    requires parts != []
    ensures var n := |parts| - 1; OutputText(parts) == OutputText(parts[..n]) + PartText(parts[n])
    decreases |parts|
  {
    hide OutputText, PartText;
    var n := |parts| - 1;
    OutputTextFirst(parts[0], parts[1..]);
    assert parts == [parts[0]] + parts[1..];
    if n == 0 {
      assert parts[1..] == [] && parts[..0] == [];
      assert PartText(parts[0]) + "" == "" + PartText(parts[0]);
    } else {
      OutputTextLast(parts[1..]);
      OutputTextFirst(parts[0], parts[1..n]);
      assert parts[1..][..n - 1] == parts[1..n] && parts[..n] == [parts[0]] + parts[1..n];
      assert (PartText(parts[0]) + OutputText(parts[1..n])) + PartText(parts[n]) == PartText(parts[0]) + (OutputText(parts[1..n]) + PartText(parts[n]));
    }
  }

  /** What one event does to the texts and to the calls. */
  lemma TextApplied(r: Response, item: Item)
    ensures Apply(r, item.frameIndex, item.eventType, item.payload).core.texts
         == match TextGiven(item)
            case None => r.texts
            case Some((id, MoreText(more))) => Put(r.texts, id, Text(Get(r.texts, id)) + more)
            case Some((id, WholeText(text))) => Put(r.texts, id, text)
  {
    hide StringField, RecordField, ArrayField, Field, Put, Get, UsageOf, OutputText, TextsIn;
    forall parts ensures OutputText(parts) == TextLines.Concat(TextsIn(parts)) {
      OutputTextIsJoined(parts);
    }
    KindsDiffer();
    assert OutputText([]) == "" by {
      NoOutputText();
    }
  }

  lemma NoOutputText()
    ensures OutputText([]) == ""
  {
  }

  lemma KindsDiffer()
    ensures "message" != "function_call" && "response.output_item.done" != "response.output_item.added"
    ensures "response.output_text.delta" != "response.output_text.done"
    ensures "response.function_call_arguments.delta" != "response.function_call_arguments.done"
  {
    assert |"message"| == 7 && |"function_call"| == 13;
    assert |"response.output_item.done"| == 25 && |"response.output_item.added"| == 26;
    assert |"response.output_text.done"| == 25 && |"response.output_text.delta"| == 26;
    assert |"response.function_call_arguments.done"| == 37 && |"response.function_call_arguments.delta"| == 38;
  }

  lemma CallApplied(r: Response, item: Item)
    ensures var next := Apply(r, item.frameIndex, item.eventType, item.payload).core.functions;
            match CallGiven(item)
            case None => next == r.functions
            case Some((id, MoreArguments(more))) =>
              var f := FunctionFor(r, id); next == Put(r.functions, id, f.(argumentsDelta := f.argumentsDelta + more))
            case Some((id, Named(callId, name, arguments))) =>
              var f := FunctionFor(r, id);
              next == Put(r.functions, id, FunctionAssembly(Some(callId), Or(name, f.name), f.argumentsDelta, Or(arguments, f.argumentsDone)))
  {
    hide StringField, RecordField, ArrayField, Field, Put, Get, UsageOf, OutputText, FunctionFor;
    KindsDiffer();
  }

  function SpokenText(pieces: seq<TextPiece>): Option<string> {
    if pieces == [] then None else Some(Spoken(pieces))
  }

  lemma {:induction false} SpokenNext(pieces: seq<TextPiece>, piece: TextPiece)
    ensures Spoken(pieces + [piece]) == if piece.WholeText? then piece.text else Spoken(pieces) + piece.text
    ensures Spoken([]) == ""
  {
    assert (pieces + [piece])[..|pieces|] == pieces;
  }

  /** A further piece of the text of an item. */
  lemma NextText(texts: seq<(string, string)>, pieces: seq<TextPiece>, key: string, piece: TextPiece, id: string)
    requires Get(texts, id) == SpokenText(pieces)
    ensures var text := if piece.WholeText? then piece.text else Text(Get(texts, key)) + piece.text;
            Get(Put(texts, key, text), id) == SpokenText(pieces + if key == id then [piece] else [])
  {
    hide Get, Put, Spoken;
    assert pieces + [] == pieces;
    SpokenNext(pieces, piece);
    PutThenGet(texts, key, if piece.WholeText? then piece.text else Text(Get(texts, key)) + piece.text, id);
  }

  lemma {:induction false} TextsAsGiven(parse: Parser, items: seq<Item>, id: string)
    ensures var pieces := TextPieces(items, id);
            Get(AppliedAll(Responses(parse), NOTHING_YET, items).texts, id) == if pieces == [] then None else Some(Spoken(pieces))
    decreases |items|
  {
    hide Apply, ReadFrame, TextGiven, Get, Put, Spoken;
    if items == [] {
      NothingGot<string>(id);
    } else {
      var front, last := items[..|items| - 1], items[|items| - 1];
      TextsAsGiven(parse, front, id);
      var before := AppliedAll(Responses(parse), NOTHING_YET, front);
      TextApplied(before, last);
      var given, pieces := TextGiven(last), TextPieces(front, id);
      assert pieces + [] == pieces;
      if given.Some? {
        NextText(before.texts, pieces, given.value.0, given.value.1, id);
      }
    }
  }

  lemma {:induction false} NothingGot<V>(id: string)
    ensures Get<V>([], id) == None
  {
  }

  lemma CalledNext(pieces: seq<CallPiece>, p: CallPiece)
    ensures var f := Called(pieces);
            Called(pieces + [p])
            == match p
               case MoreArguments(more) => f.(argumentsDelta := f.argumentsDelta + more)
               case Named(callId, name, arguments) => FunctionAssembly(Some(callId), Or(name, f.name), f.argumentsDelta, Or(arguments, f.argumentsDone))
  {
    assert (pieces + [p])[..|pieces|] == pieces;
  }

  lemma {:induction false} CallsAsGiven(parse: Parser, items: seq<Item>, id: string)
    ensures var pieces := CallPieces(items, id);
            Get(AppliedAll(Responses(parse), NOTHING_YET, items).functions, id) == if pieces == [] then None else Some(Called(pieces))
    decreases |items|
  {
    hide Apply, ReadFrame, CallGiven, Get, Put, Called;
    NothingGot<FunctionAssembly>(id);
    NothingCalled();
    if items != [] {
      var front, last := items[..|items| - 1], items[|items| - 1];
      CallsAsGiven(parse, front, id);
      var before := AppliedAll(Responses(parse), NOTHING_YET, front);
      CallApplied(before, last);
      var given, pieces := CallGiven(last), CallPieces(front, id);
      assert pieces + [] == pieces;
      if given.Some? {
        var (key, piece) := given.value;
        var after := Apply(before, last.frameIndex, last.eventType, last.payload).core.functions;
        CalledNext(pieces, piece);
        var f := FunctionFor(before, key);
        PutThenGet(before.functions, key,
                   match piece
                   case MoreArguments(more) => f.(argumentsDelta := f.argumentsDelta + more)
                   case Named(callId, name, arguments) => FunctionAssembly(Some(callId), Or(name, f.name), f.argumentsDelta, Or(arguments, f.argumentsDone)),
                   id);
      }
    }
  }

  /** The items that texts and calls are given to, in the order of their first mention. */
  function Mentioned(items: seq<Item>, calls: bool): seq<string>
    decreases |items|
  {
    if items == [] then []
    else
      var before := Mentioned(items[..|items| - 1], calls);
      var text, call := TextGiven(items[|items| - 1]), CallGiven(items[|items| - 1]);
      var id := if calls then (if call.Some? then Some(call.value.0) else None) else if text.Some? then Some(text.value.0) else None;
      if id.Some? && id.value !in before then before + [id.value] else before
  }

  lemma {:induction false} OrderAsGiven(parse: Parser, items: seq<Item>)
    ensures var r := AppliedAll(Responses(parse), NOTHING_YET, items);
            Keys(r.texts) == Mentioned(items, false) && Keys(r.functions) == Mentioned(items, true)
    decreases |items|
  {
    hide Apply, ReadFrame, TextGiven, CallGiven, Get, Put, Keys;
    if items == [] {
      assert Keys(NOTHING_YET.texts) == [] && Keys(NOTHING_YET.functions) == [];
    } else {
      var front, last := items[..|items| - 1], items[|items| - 1];
      OrderAsGiven(parse, front);
      var before := AppliedAll(Responses(parse), NOTHING_YET, front);
      TextApplied(before, last);
      CallApplied(before, last);
      forall key, value {
        PutKeepsOrder(before.texts, key, value);
      }
      forall key, value {
        PutKeepsOrder(before.functions, key, value);
      }
    }
  }

  lemma NothingCalled()
    ensures Called([]) == NEW_FUNCTION
  {
  }

  // ------------------------------------------------------------ usage and the ends

  /** The usage that a terminal event reports, and what it says of the response. */
  function EndGiven(item: Item): Option<(Option<Usage>, Draft)> {
    if item.eventType in {Some("response.completed"), Some("response.failed"), Some("response.incomplete")} then
      match RecordField(item.payload, "response")
      case None => Some((None, ResponseCompleted(None, None)))
      case Some(record) => Some((UsageOf(Field(record, "usage")), ResponseCompleted(StringField(record, "id"), StringField(record, "status"))))
    else if item.eventType == Some("error") then
      match RecordField(item.payload, "error")
      case None =>
        Some((None, ApiError(StringField(item.payload, "type"), StringField(item.payload, "code"), StringField(item.payload, "message"))))
      case Some(error) => Some((None, ApiError(StringField(error, "type"), StringField(error, "code"), StringField(error, "message"))))
    else None
  }

  function Ends(items: seq<Item>): seq<Draft>
    decreases |items|
  {
    if items == [] then []
    else
      var given := EndGiven(items[|items| - 1]);
      Ends(items[..|items| - 1]) + if given.Some? then [given.value.1] else []
  }

  function LastUsage(items: seq<Item>): Option<Usage>
    decreases |items|
  {
    if items == [] then None
    else
      var given := EndGiven(items[|items| - 1]);
      if given.Some? && given.value.0.Some? then given.value.0 else LastUsage(items[..|items| - 1])
  }

  function Starts(items: seq<Item>): seq<Draft>
    decreases |items|
  {
    if items == [] then []
    else
      var last := items[|items| - 1];
      var record := if last.eventType == Some("response.created") then RecordField(last.payload, "response") else None;
      var id := if record.Some? then StringField(record.value, "id") else None;
      Starts(items[..|items| - 1]) + if id.Some? then [ResponseStarted(id.value)] else []
  }

  lemma EndApplied(r: Response, item: Item)
    ensures var next, given := Apply(r, item.frameIndex, item.eventType, item.payload).core, EndGiven(item);
            && next.terminal == r.terminal + (if given.Some? then [given.value.1] else [])
            && next.usage == (if given.Some? && given.value.0.Some? then given.value.0 else r.usage)
  {
    hide StringField, RecordField, ArrayField, Field, Put, Get, UsageOf, OutputText, FunctionFor;
    NoUsage();
    assert r.terminal + [] == r.terminal;
  }

  lemma NoUsage()
    ensures UsageOf(None) == None
  {
  }

  lemma StartApplied(r: Response, item: Item)
    ensures var record := if item.eventType == Some("response.created") then RecordField(item.payload, "response") else None;
            var id := if record.Some? then StringField(record.value, "id") else None;
            Apply(r, item.frameIndex, item.eventType, item.payload).core.started
            == r.started + if id.Some? then [ResponseStarted(id.value)] else []
  {
    hide StringField, RecordField, ArrayField, Field, Put, Get, UsageOf, OutputText, FunctionFor;
    assert r.started + [] == r.started;
  }

  /** Starts and ends are listed as they come, and the usage is the last one reported. */
  lemma {:induction false} EndsAsGiven(parse: Parser, items: seq<Item>)
    ensures var r := AppliedAll(Responses(parse), NOTHING_YET, items);
            r.started == Starts(items) && r.terminal == Ends(items) && r.usage == LastUsage(items)
    decreases |items|
  {
    hide Apply, ReadFrame, EndGiven, RecordField, StringField;
    if items != [] {
      var front, last := items[..|items| - 1], items[|items| - 1];
      EndsAsGiven(parse, front);
      EndApplied(AppliedAll(Responses(parse), NOTHING_YET, front), last);
      StartApplied(AppliedAll(Responses(parse), NOTHING_YET, front), last);
    }
  }

  /** The counts that a usage record reports, each under its own name. */
  lemma UsageAsReported(j: Json, input: Option<nat>, output: Option<nat>, total: Option<nat>)
    requires forall n: nat :: input == Some(n) <==> Has(j, "input_tokens", Number(n as real))
    requires forall n: nat :: output == Some(n) <==> Has(j, "output_tokens", Number(n as real))
    requires forall n: nat :: total == Some(n) <==> Has(j, "total_tokens", Number(n as real))
    ensures UsageOf(Some(j)) == if j.Obj? && (input.Some? || output.Some? || total.Some?) then Some(Usage(input, output, total)) else None
  {
    hide Has, TokenField;
    FieldsAreFound(j, "input_tokens");
    FieldsAreFound(j, "output_tokens");
    FieldsAreFound(j, "total_tokens");
    SameOption(TokenField(j, "input_tokens"), input);
    SameOption(TokenField(j, "output_tokens"), output);
    SameOption(TokenField(j, "total_tokens"), total);
  }

  /** Whatever the frames, replays and conflicts among them: the text of an item is the last whole
      text given with the pieces after it, a call has the names given last, its streamed arguments
      piece after piece and its final arguments as given last, and starts, ends and usage are
      those of the accepted events. */
  lemma {:induction false} StreamAsGiven(parse: Parser, frames: seq<Frame>, id: string)
    ensures var p := Responses(parse);
            var r, items := Turns(p, Opening(NOTHING_YET), frames).core, Accepted(p, Opening(NOTHING_YET), frames);
            && Get(r.texts, id) == (if TextPieces(items, id) == [] then None else Some(Spoken(TextPieces(items, id))))
            && Get(r.functions, id) == (if CallPieces(items, id) == [] then None else Some(Called(CallPieces(items, id))))
            && Keys(r.texts) == Mentioned(items, false) && Keys(r.functions) == Mentioned(items, true)
            && r.started == Starts(items) && r.terminal == Ends(items) && r.usage == LastUsage(items)
  {
    hide Turns, Accepted, AppliedAll, TextPieces, CallPieces, Spoken, Called, Get, Starts, Ends, LastUsage, Keys, Mentioned;
    LoopIsFold(Responses(parse), Opening(NOTHING_YET), frames);
    var items := Accepted(Responses(parse), Opening(NOTHING_YET), frames);
    TextsAsGiven(parse, items, id);
    CallsAsGiven(parse, items, id);
    OrderAsGiven(parse, items);
    EndsAsGiven(parse, items);
  }
}
