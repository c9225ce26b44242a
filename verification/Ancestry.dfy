// Context ancestry (packages/context/src/reconstructor.ts): a guarded walk along
// `previous_response_id` and the completeness label it earns.

module Ancestry {
  import opened Wrappers

  // ------------------------------------------------------------ the recorded evidence

  /** `previous_response_id`: absent or null, a non-empty string, or anything else. */
  datatype Previous = NoPrevious | PreviousResponse(id: string) | MalformedPrevious

  datatype Conversation = NoConversation | ConversationName(name: string) | ConversationRecord(id: Option<string>)

  /** The fields of a request body the walk looks at; a flag says present and not null. */
  datatype Request = Request(previous: Previous, conversation: Conversation, prompt: bool, contextManagement: bool)

  datatype Body = NoBody | Undecodable | NotAnObject | Decoded(request: Request)

  datatype Protocol = OpenAiResponses | OpenAiChatCompletions | AnthropicMessages | UnknownOpenAiCompatible

  datatype Exchange = Exchange(
    sessionId: string, protocol: Protocol, body: Body, requestComplete: bool, responseComplete: bool)

  datatype Event = Event(id: string, isModelRequest: bool, sequence: nat)

  /** The queries of the evidence source, and the names it gives to nodes. */
  datatype Source = Source(
    events: map<string, Event>,
    origins: map<string, string>,
    exchanges: map<string, Exchange>,
    exchangeEvents: map<string, seq<Event>>,
    responses: map<(string, string), Event>,
    responseNode: string -> string,
    conversationNode: string -> string)

  datatype ReconstructionError = EventNotFound | NotModelRequest | MissingEventOrigin | MissingRawExchange

  datatype Limitation =
    | NoRetainedBody(event: string)
    | BodyNotAnObject(event: string)
    | BodyUndecodable(event: string)
    | RequestIncomplete(event: string)
    | ResponseIncomplete(response: string)
    | NoContextParser
    | PreviousNotAString
    | InvalidPrevious(event: string)
    | ResponseCycle(response: string)
    | DepthExceeded
    | ResponseUnavailable(response: string)
    | NoResponseProvenance(response: string)
    | NoLocalRequest(response: string)
    | RequestCycle(event: string)
    | OutOfOrder(response: string)
    | PromptManaged
    | ContextManaged
    | ConversationManaged(conversation: string)

  datatype Turn = Turn(requestEvent: Event, exchange: Exchange, request: Option<Request>, limitations: set<Limitation>)

  datatype NodeKind = RequestNode | ResponseNode | MissingNode | ConversationNode

  datatype Relation = PreviousResponseOf | ExplicitInput | ConversationMember

  datatype Edge = Edge(from: string, to: string, relation: Relation)

  datatype Completeness =
    | ExactClientRequest | ReconstructedClientChain | PartialClientChain | ProviderManagedContext | UnknownUnsupported

  datatype State = State(
    turns: seq<Turn>,
    nodes: map<string, NodeKind>,
    edges: seq<Edge>,
    limitations: set<Limitation>,
    chainRequested: bool,
    chainIncomplete: bool,
    providerManaged: bool)

  // ------------------------------------------------------------ loading one turn

  function ConversationId(c: Conversation): Option<string> {
    match c
    case ConversationName(name) => if name != "" then Some(name) else None
    case ConversationRecord(Some(id)) => if id != "" then Some(id) else None
    case _ => None
  }

  function LoadTurn(src: Source, event: Event): Result<Turn, ReconstructionError> {
    if event.id !in src.origins then Err(MissingEventOrigin)
    else if src.origins[event.id] !in src.exchanges then Err(MissingRawExchange)
    else
      var exchange := src.exchanges[src.origins[event.id]];
      var body := match exchange.body
        case NoBody => {NoRetainedBody(event.id)}
        case Undecodable => {BodyUndecodable(event.id)}
        case NotAnObject => {BodyNotAnObject(event.id)}
        case Decoded(_) => {};
      Ok(Turn(
           event, exchange,
           if exchange.body.Decoded? then Some(exchange.body.request) else None,
           body + if exchange.requestComplete then {} else {RequestIncomplete(event.id)}))
  }

  function ModelRequestOf(events: seq<Event>): Option<Event> {
    if events == [] then None
    else if events[0].isModelRequest then Some(events[0])
    else ModelRequestOf(events[1..])
  }

  function EventsOf(src: Source, exchange: string): seq<Event> {
    if exchange in src.exchangeEvents then src.exchangeEvents[exchange] else []
  }

  // ------------------------------------------------------------ the walk

  function MarkManaged(s: State, r: Request): State {
    s.(providerManaged := s.providerManaged || r.prompt || r.contextManagement,
       limitations := s.limitations
         + (if r.prompt then {PromptManaged} else {})
         + (if r.contextManagement then {ContextManaged} else {}))
  }

  function AddConversation(src: Source, s: State, conversation: string, event: string): State {
    var node := src.conversationNode(conversation);
    s.(nodes := s.nodes[node := ConversationNode],
       edges := s.edges + [Edge(node, event, ConversationMember)],
       providerManaged := true,
       limitations := s.limitations + {ConversationManaged(conversation)})
  }

  function Incomplete(s: State, why: Limitation): State {
    s.(chainIncomplete := true, limitations := s.limitations + {why})
  }

  /** The text of `previous_response_id` that is followed further, if any. */
  function Followed(t: Turn): Option<string> {
    match t.request
    case Some(r) => if r.previous.PreviousResponse? then Some(r.previous.id) else None
    case None => None
  }

  datatype Visit = Stopped(state: State) | Reached(state: State, ancestor: Turn) | Failed(error: ReconstructionError)

  /** One turn of the loop: from `child` to the request behind response `id`. */
  function VisitResponse(src: Source, child: Turn, id: string, s: State): Visit {
    var node := src.responseNode(id);
    var edge := Edge(node, child.requestEvent.id, PreviousResponseOf);
    if (child.exchange.sessionId, id) !in src.responses then
      Stopped(Incomplete(s.(nodes := s.nodes[node := MissingNode], edges := s.edges + [edge]), ResponseUnavailable(id)))
    else
      var response := src.responses[(child.exchange.sessionId, id)];
      var s1 := s.(nodes := s.nodes[node := ResponseNode], edges := s.edges + [edge]);
      if response.id !in src.origins then Stopped(Incomplete(s1, NoResponseProvenance(id)))
      else
        var requestEvent := ModelRequestOf(EventsOf(src, src.origins[response.id]));
        if requestEvent.None? then Stopped(Incomplete(s1, NoLocalRequest(id)))
        else if requestEvent.value.id in s1.nodes then Stopped(Incomplete(s1, RequestCycle(requestEvent.value.id)))
        else if response.sequence >= child.requestEvent.sequence then Stopped(Incomplete(s1, OutOfOrder(id)))
        else
          match LoadTurn(src, requestEvent.value)
          case Err(e) => Failed(e)
          case Ok(ancestor) => AcceptAncestor(src, id, ancestor, s1)
  }

  function AcceptAncestor(src: Source, id: string, ancestor: Turn, s: State): (v: Visit)
    ensures !v.Failed?
  {
    var event := ancestor.requestEvent.id;
    var s1 := s.(
      turns := s.turns + [ancestor],
      nodes := s.nodes[event := RequestNode],
      edges := s.edges + [Edge(event, src.responseNode(id), ExplicitInput)],
      limitations := s.limitations + ancestor.limitations);
    var s2 := if ancestor.request.Some? then MarkManaged(s1, ancestor.request.value) else s1;
    var s3 := s2.(chainIncomplete := s2.chainIncomplete || ancestor.limitations != {});
    var s4 := if ancestor.exchange.responseComplete then s3 else Incomplete(s3, ResponseIncomplete(id));
    if ancestor.request.None? then Reached(s4, ancestor)
    else
      var conversation := ConversationId(ancestor.request.value.conversation);
      if conversation.Some? then Stopped(AddConversation(src, s4, conversation.value, event))
      else if ancestor.request.value.previous.MalformedPrevious? then Stopped(Incomplete(s4, InvalidPrevious(event)))
      else Reached(s4, ancestor)
  }

  function Walk(src: Source, maximumDepth: nat, child: Turn, visited: set<string>, depth: nat, s: State):
    Result<State, ReconstructionError>
    decreases maximumDepth - depth
  {
    match Followed(child)
    case None => Ok(s)
    case Some(id) =>
      if id in visited then Ok(Incomplete(s, ResponseCycle(id)))
      else if depth >= maximumDepth then Ok(Incomplete(s, DepthExceeded))
      else
        match VisitResponse(src, child, id, s)
        case Failed(e) => Err(e)
        case Stopped(s1) => Ok(s1)
        case Reached(s1, ancestor) => Walk(src, maximumDepth, ancestor, visited + {id}, depth + 1, s1)
  }

  function Resolve(src: Source, maximumDepth: nat, current: Turn, s: State): Result<State, ReconstructionError> {
    if current.request.None? then Ok(s)
    else
      var r := current.request.value;
      var s1 := MarkManaged(s, r);
      var conversation := ConversationId(r.conversation);
      if conversation.Some? then Ok(AddConversation(src, s1, conversation.value, current.requestEvent.id))
      else if r.previous.MalformedPrevious? then Ok(Incomplete(s1.(chainRequested := true), PreviousNotAString))
      else Walk(src, maximumDepth, current, {}, 0, s1.(chainRequested := s1.chainRequested || r.previous.PreviousResponse?))
  }

  function Start(current: Turn): State {
    State([current], map[current.requestEvent.id := RequestNode], [], current.limitations, false, false, false)
  }

  function Ancestors(src: Source, maximumDepth: nat, current: Turn): Result<State, ReconstructionError> {
    var s := Start(current);
    if current.request.None? then Ok(s)
    else
      match current.exchange.protocol
      case OpenAiResponses => Resolve(src, maximumDepth, current, s)
      case AnthropicMessages => Ok(MarkManaged(s, current.request.value))
      case OpenAiChatCompletions => Ok(s)
      case UnknownOpenAiCompatible => Ok(s.(limitations := s.limitations + {NoContextParser}))
  }

  function CompletenessOf(current: Turn, s: State): Completeness {
    if current.request.None? || current.exchange.protocol.UnknownOpenAiCompatible? || current.limitations != {} then
      UnknownUnsupported
    else if s.providerManaged then ProviderManagedContext
    else if s.chainRequested then
      if s.chainIncomplete then PartialClientChain else ReconstructedClientChain
    else ExactClientRequest
  }

  function Label(src: Source, maximumDepth: nat, current: Turn): Result<Completeness, ReconstructionError> {
    match Ancestors(src, maximumDepth, current)
    case Err(e) => Err(e)
    case Ok(s) => Ok(CompletenessOf(current, s))
  }

  /** The label of a request event. */
  function LabelOf(src: Source, maximumDepth: nat, event: Event): Result<Completeness, ReconstructionError> {
    match LoadTurn(src, event)
    case Err(e) => Err(e)
    case Ok(current) => Label(src, maximumDepth, current)
  }

  // ------------------------------------------------------------ what the record shows

  /** The event comes from an exchange that the source has. */
  predicate Recorded(src: Source, event: Event) {
    event.id in src.origins && src.origins[event.id] in src.exchanges
  }

  function ExchangeOf(src: Source, event: Event): Exchange
    requires Recorded(src, event)
  {
    src.exchanges[src.origins[event.id]]
  }

  /** The request's body is at hand. */
  predicate Legible(src: Source, event: Event) {
    Recorded(src, event) && ExchangeOf(src, event).body.Decoded?
  }

  function RequestOf(src: Source, event: Event): Request
    requires Legible(src, event)
  {
    ExchangeOf(src, event).body.request
  }

  /** The request is at hand and was captured in full. */
  predicate Whole(src: Source, event: Event) {
    Legible(src, event) && ExchangeOf(src, event).requestComplete
  }

  predicate InNoConversation(r: Request) {
    match r.conversation
    case NoConversation => true
    case ConversationName(name) => name == ""
    case ConversationRecord(None) => true
    case ConversationRecord(Some(id)) => id == ""
  }

  /** Nothing of the request's context lives with the provider. */
  predicate Unmanaged(r: Request) {
    !r.prompt && !r.contextManagement && InNoConversation(r)
  }

  predicate Managed(src: Source, event: Event) {
    Legible(src, event) && !Unmanaged(RequestOf(src, event))
  }

  /** The first event of an exchange that is a model request. */
  ghost predicate FirstRequest(src: Source, exchange: string, e: Event) {
    exchange in src.exchangeEvents && FirstOf(src.exchangeEvents[exchange], e)
  }

  ghost predicate FirstOf(events: seq<Event>, e: Event) {
    exists i | 0 <= i < |events| :: events[i] == e && e.isModelRequest && forall k | 0 <= k < i :: !events[k].isModelRequest
  }

  /** One step of a recorded chain: a response and the request that it answers. */
  datatype Link = Link(responseId: string, response: Event, request: Event)

  /** The response is held locally with its request, and precedes its child. */
  ghost predicate Stands(src: Source, child: Event, link: Link) {
    && Recorded(src, child)
    && (ExchangeOf(src, child).sessionId, link.responseId) in src.responses
    && link.response == src.responses[(ExchangeOf(src, child).sessionId, link.responseId)]
    && link.response.id in src.origins
    && FirstRequest(src, src.origins[link.response.id], link.request)
    && link.response.sequence < child.sequence
  }

  /** Besides, request and response were captured in full, and the client held all context. */
  ghost predicate Sound(src: Source, child: Event, link: Link) {
    && Stands(src, child, link)
    && Whole(src, link.request) && ExchangeOf(src, link.request).responseComplete
    && Unmanaged(RequestOf(src, link.request))
  }

  /** `links` leads from `child` to a request without predecessor. */
  ghost predicate Chain(src: Source, child: Event, links: seq<Link>)
    requires Whole(src, child)
    decreases |links|
  {
    if links == [] then RequestOf(src, child).previous == NoPrevious
    else
      && RequestOf(src, child).previous == PreviousResponse(links[0].responseId)
      && Sound(src, child, links[0])
      && Chain(src, links[0].request, links[1..])
  }

  /** No response and no request node comes up twice along `links`. */
  predicate Acyclic(src: Source, visited: set<string>, nodes: set<string>, links: seq<Link>)
    decreases |links|
  {
    links != [] ==>
      var id, event := links[0].responseId, links[0].request.id;
      var known := nodes + {src.responseNode(id)};
      id !in visited && event !in known && Acyclic(src, visited + {id}, known + {event}, links[1..])
  }

  ghost predicate Reconstructs(src: Source, maximumDepth: nat, event: Event, links: seq<Link>)
    requires Whole(src, event)
  {
    links != [] && |links| <= maximumDepth && Chain(src, event, links) && Acyclic(src, {}, {event.id}, links)
  }

  // ------------------------------------------------------------ turns as recorded

  lemma {:induction false} FirstIsFound(events: seq<Event>, e: Event)
    ensures ModelRequestOf(events) == Some(e) <==> FirstOf(events, e)
    decreases |events|
  {
    if events != [] {
      FirstIsFound(events[1..], e);
      if events[0].isModelRequest {
        assert FirstOf(events, e) <==> events[0] == e;
      } else {
        if FirstOf(events[1..], e) {
          var i :| 0 <= i < |events[1..]| && events[1..][i] == e && e.isModelRequest && forall k | 0 <= k < i :: !events[1..][k].isModelRequest;
          assert events[i + 1] == e;
          forall k | 0 <= k < i + 1 ensures !events[k].isModelRequest {
            if k > 0 {
              assert events[k] == events[1..][k - 1];
            }
          }
        }
        if FirstOf(events, e) {
          var i :| 0 <= i < |events| && events[i] == e && e.isModelRequest && forall k | 0 <= k < i :: !events[k].isModelRequest;
          assert events[1..][i - 1] == e;
          forall k | 0 <= k < i - 1 ensures !events[1..][k].isModelRequest {
            assert events[1..][k] == events[k + 1];
          }
        }
      }
    }
  }

  lemma RequestIsFound(src: Source, exchange: string, e: Event)
    ensures ModelRequestOf(EventsOf(src, exchange)) == Some(e) <==> FirstRequest(src, exchange, e)
  {
    FirstIsFound(EventsOf(src, exchange), e);
  }

  predicate Loaded(src: Source, t: Turn) {
    LoadTurn(src, t.requestEvent) == Ok(t)
  }

  /** What loading finds: the exchange, the request when its body is at hand, and limitations
      exactly when something of the request is missing. */
  lemma TurnIsLoaded(src: Source, event: Event)
    ensures var r := LoadTurn(src, event);
            && (r.Ok? <==> Recorded(src, event))
            && (r.Err? ==> r.error == if event.id in src.origins then MissingRawExchange else MissingEventOrigin)
            && (r.Ok? ==>
                  && Loaded(src, r.value) && r.value.requestEvent == event && r.value.exchange == ExchangeOf(src, event)
                  && r.value.request == (if Legible(src, event) then Some(RequestOf(src, event)) else None)
                  && (r.value.limitations == {} <==> Whole(src, event)))
  {
    var r := LoadTurn(src, event);
    if r.Ok? {
      var x := ExchangeOf(src, event);
      assert !x.requestComplete ==> RequestIncomplete(event.id) in r.value.limitations;
      assert x.body.NoBody? ==> NoRetainedBody(event.id) in r.value.limitations;
      assert x.body.Undecodable? ==> BodyUndecodable(event.id) in r.value.limitations;
      assert x.body.NotAnObject? ==> BodyNotAnObject(event.id) in r.value.limitations;
    }
  }

  lemma ConversationIsRead(r: Request)
    ensures ConversationId(r.conversation).None? <==> InNoConversation(r)
  {
  }

  // ------------------------------------------------------------ the walk follows the chain

  predicate Clean(s: State) {
    !s.chainIncomplete && !s.providerManaged
  }

  /** What one turn of the loop finds, in terms of the record. */
  lemma VisitMeaning(src: Source, child: Turn, id: string, s: State)
    requires Loaded(src, child)
    ensures var v := VisitResponse(src, child, id, s);
            && (v.Failed? <==> exists link :: FailsAt(src, child.requestEvent, s.nodes.Keys, id, link))
            && (forall link | VisitsAt(src, child.requestEvent, s.nodes.Keys, id, link) ::
                  LoadTurn(src, link.request).Ok?
                  && v == AcceptAncestor(src, id, LoadTurn(src, link.request).value, Passed(src, child, id, s)))
            && (!v.Failed? && (forall link :: !VisitsAt(src, child.requestEvent, s.nodes.Keys, id, link)) ==>
                  v.Stopped? && v.state.chainIncomplete && v.state.providerManaged == s.providerManaged)
  {
    hide AcceptAncestor;
    TurnIsLoaded(src, child.requestEvent);
    forall x, e ensures ModelRequestOf(EventsOf(src, x)) == Some(e) <==> FirstRequest(src, x, e) {
      RequestIsFound(src, x, e);
    }
    forall e ensures LoadTurn(src, e).Ok? <==> Recorded(src, e) {
      TurnIsLoaded(src, e);
    }
    hide LoadTurn, FirstRequest, EventsOf, ModelRequestOf;
    var v := VisitResponse(src, child, id, s);
    assert s.nodes[src.responseNode(id) := ResponseNode].Keys == s.nodes.Keys + {src.responseNode(id)};
    if (child.exchange.sessionId, id) in src.responses {
      var response := src.responses[(child.exchange.sessionId, id)];
      if response.id in src.origins {
        var found := ModelRequestOf(EventsOf(src, src.origins[response.id]));
        if found.Some? {
          assert FirstRequest(src, src.origins[response.id], found.value);
          var link := Link(id, response, found.value);
          if v.Failed? {
            assert FailsAt(src, child.requestEvent, s.nodes.Keys, id, link);
          }
          if found.value.id !in s.nodes.Keys + {src.responseNode(id)} && response.sequence < child.requestEvent.sequence && Recorded(src, found.value) {
            assert VisitsAt(src, child.requestEvent, s.nodes.Keys, id, link);
          }
        }
      }
    }
  }

  /** The state in which an ancestor is accepted. */
  function Passed(src: Source, child: Turn, id: string, s: State): State {
    var node := src.responseNode(id);
    s.(nodes := s.nodes[node := ResponseNode], edges := s.edges + [Edge(node, child.requestEvent.id, PreviousResponseOf)])
  }

  /** The link that response `id` makes, to a request that was not met before. */
  ghost predicate LeadsTo(src: Source, child: Event, nodes: set<string>, id: string, link: Link) {
    link.responseId == id && Stands(src, child, link) && link.request.id !in nodes + {src.responseNode(id)}
  }

  ghost predicate VisitsAt(src: Source, child: Event, nodes: set<string>, id: string, link: Link) {
    LeadsTo(src, child, nodes, id, link) && Recorded(src, link.request)
  }

  ghost predicate FailsAt(src: Source, child: Event, nodes: set<string>, id: string, link: Link) {
    LeadsTo(src, child, nodes, id, link) && !Recorded(src, link.request)
  }

  /** Either response `id` leads to a turn, or the walk gives up there. */
  lemma VisitCases(src: Source, child: Turn, id: string, s: State) returns (link: Link)
    requires Loaded(src, child) && !VisitResponse(src, child, id, s).Failed?
    ensures var v := VisitResponse(src, child, id, s);
            || VisitsAt(src, child.requestEvent, s.nodes.Keys, id, link)
            || (v.Stopped? && v.state.chainIncomplete && v.state.providerManaged == s.providerManaged)
  {
    hide VisitResponse, VisitsAt, FailsAt, Loaded;
    VisitMeaning(src, child, id, s);
    link := Link("", Event("", false, 0), Event("", false, 0));
    if found :| VisitsAt(src, child.requestEvent, s.nodes.Keys, id, found) {
      link := found;
    }
  }

  /** What accepting a turn does. */
  lemma AcceptMeaning(src: Source, id: string, t: Turn, s: State)
    requires Loaded(src, t)
    ensures var v, e := AcceptAncestor(src, id, t, s), t.requestEvent;
            && !v.Failed?
            && v.state.chainRequested == s.chainRequested && v.state.turns == s.turns + [t]
            && (v.Reached? ==> v.ancestor == t && v.state.nodes.Keys == s.nodes.Keys + {e.id})
            && (v.Reached? <==> !Legible(src, e) || (InNoConversation(RequestOf(src, e)) && !RequestOf(src, e).previous.MalformedPrevious?))
            && (v.state.providerManaged <==> s.providerManaged || Managed(src, e))
            && (v.Reached? && Clean(v.state) <==>
                  && Clean(s) && Whole(src, e) && ExchangeOf(src, e).responseComplete && Unmanaged(RequestOf(src, e))
                  && !RequestOf(src, e).previous.MalformedPrevious?)
            && (v.Stopped? ==> !Clean(v.state))
            && (!Clean(s) ==> !Clean(v.state))
  {
    hide LoadTurn, ConversationId, InNoConversation;
    TurnIsLoaded(src, t.requestEvent);
    if t.request.Some? {
      ConversationIsRead(t.request.value);
    }
  }

  lemma AcceptKeeps(src: Source, id: string, ancestor: Turn, s: State)
    ensures var v := AcceptAncestor(src, id, ancestor, s);
            && !v.Failed?
            && (!Clean(s) ==> !Clean(v.state))
            && (s.providerManaged ==> v.state.providerManaged)
            && v.state.chainRequested == s.chainRequested
            && v.state.turns == s.turns + [ancestor]
            && (v.Reached? ==> v.ancestor == ancestor)
  {
  }

  lemma VisitKeeps(src: Source, child: Turn, id: string, s: State)
    ensures var v := VisitResponse(src, child, id, s);
            !v.Failed? ==>
              && (!Clean(s) ==> !Clean(v.state))
              && (s.providerManaged ==> v.state.providerManaged)
              && v.state.chainRequested == s.chainRequested
  {
    hide AcceptAncestor;
    forall ancestor, s1 {
      AcceptKeeps(src, id, ancestor, s1);
    }
  }

  lemma {:induction false} NeverCleanAgain(src: Source, maximumDepth: nat, child: Turn, visited: set<string>, depth: nat, s: State)
    ensures var r := Walk(src, maximumDepth, child, visited, depth, s);
            r.Ok? ==> (!Clean(s) ==> !Clean(r.value)) && (s.providerManaged ==> r.value.providerManaged)
    decreases maximumDepth - depth
  {
    hide VisitResponse, Followed;
    if Followed(child).Some? && Followed(child).value !in visited && depth < maximumDepth {
      var v := VisitResponse(src, child, Followed(child).value, s);
      VisitKeeps(src, child, Followed(child).value, s);
      if v.Reached? {
        NeverCleanAgain(src, maximumDepth, v.ancestor, visited + {Followed(child).value}, depth + 1, v.state);
      }
    }
  }

  lemma FollowedIsPrevious(src: Source, child: Turn)
    requires Loaded(src, child)
    ensures Followed(child).Some? <==> Legible(src, child.requestEvent) && RequestOf(src, child.requestEvent).previous.PreviousResponse?
    ensures Followed(child).Some? ==> RequestOf(src, child.requestEvent).previous == PreviousResponse(Followed(child).value)
  {
    hide LoadTurn;
    TurnIsLoaded(src, child.requestEvent);
  }

  /** The turn behind a link, and what visiting it does. */
  lemma LinkIsVisited(src: Source, child: Turn, link: Link, s: State) returns (t: Turn)
    requires Loaded(src, child) && VisitsAt(src, child.requestEvent, s.nodes.Keys, link.responseId, link)
    ensures Loaded(src, t) && t.requestEvent == link.request
    ensures var v, e := VisitResponse(src, child, link.responseId, s), link.request;
            && !v.Failed?
            && (v.Reached? ==> v.ancestor == t && v.state.nodes.Keys == s.nodes.Keys + {src.responseNode(link.responseId)} + {e.id})
            && (v.Reached? <==> !Legible(src, e) || (InNoConversation(RequestOf(src, e)) && !RequestOf(src, e).previous.MalformedPrevious?))
            && (v.state.providerManaged <==> s.providerManaged || Managed(src, e))
            && (v.Reached? && Clean(v.state) <==>
                  && Clean(s) && Sound(src, child.requestEvent, link) && !RequestOf(src, e).previous.MalformedPrevious?)
            && (v.Stopped? ==> !Clean(v.state))
  {
    hide VisitResponse, AcceptAncestor, LoadTurn, Stands;
    VisitMeaning(src, child, link.responseId, s);
    TurnIsLoaded(src, link.request);
    t := LoadTurn(src, link.request).value;
    AcceptMeaning(src, link.responseId, t, Passed(src, child, link.responseId, s));
    assert Stands(src, child.requestEvent, link);
  }

  /** A walk that ends cleanly has followed a chain. */
  lemma {:induction false} CleanWalkIsChain(
    src: Source, maximumDepth: nat, child: Turn, visited: set<string>, depth: nat, s: State) returns (links: seq<Link>)
    requires Loaded(src, child) && Whole(src, child.requestEvent) && depth <= maximumDepth
    requires !RequestOf(src, child.requestEvent).previous.MalformedPrevious?
    requires var r := Walk(src, maximumDepth, child, visited, depth, s); r.Ok? && Clean(r.value)
    ensures Chain(src, child.requestEvent, links) && Acyclic(src, visited, s.nodes.Keys, links) && depth + |links| <= maximumDepth
    decreases maximumDepth - depth
  {
    hide VisitResponse, Stands, Loaded, Followed, Unmanaged;
    NeverCleanAgain(src, maximumDepth, child, visited, depth, s);
    FollowedIsPrevious(src, child);
    links := [];
    if Followed(child).Some? {
      var id := Followed(child).value;
      var v := VisitResponse(src, child, id, s);
      var link := VisitCases(src, child, id, s);
      assert v.Reached? || Clean(v.state);
      if v.Reached? {
        NeverCleanAgain(src, maximumDepth, v.ancestor, visited + {id}, depth + 1, v.state);
      }
      var t := LinkIsVisited(src, child, link, s);
      var rest := CleanWalkIsChain(src, maximumDepth, v.ancestor, visited + {id}, depth + 1, v.state);
      links := [link] + rest;
    }
  }

  /** A walk along a chain within the depth bound ends cleanly. */
  lemma {:induction false} ChainIsCleanWalk(
    src: Source, maximumDepth: nat, child: Turn, visited: set<string>, depth: nat, s: State, links: seq<Link>)
    requires Loaded(src, child) && Whole(src, child.requestEvent) && Clean(s) && depth + |links| <= maximumDepth
    requires Chain(src, child.requestEvent, links) && Acyclic(src, visited, s.nodes.Keys, links)
    ensures var r := Walk(src, maximumDepth, child, visited, depth, s); r.Ok? && Clean(r.value)
    decreases |links|
  {
    hide VisitResponse, Stands, Loaded, Followed, Unmanaged;
    FollowedIsPrevious(src, child);
    if links != [] {
      var link := links[0];
      NextIsWellFormed(src, child.requestEvent, links);
      assert VisitsAt(src, child.requestEvent, s.nodes.Keys, link.responseId, link);
      var t := LinkIsVisited(src, child, link, s);
      var v := VisitResponse(src, child, link.responseId, s);
      ChainIsCleanWalk(src, maximumDepth, t, visited + {link.responseId}, depth + 1, v.state, links[1..]);
    }
  }

  lemma {:induction false} NextIsWellFormed(src: Source, child: Event, links: seq<Link>)
    requires Whole(src, child) && links != [] && Chain(src, child, links)
    ensures Whole(src, links[0].request) && !RequestOf(src, links[0].request).previous.MalformedPrevious?
  {
  }

  lemma {:induction false} WalkKeepsRequested(src: Source, maximumDepth: nat, child: Turn, visited: set<string>, depth: nat, s: State)
    ensures var r := Walk(src, maximumDepth, child, visited, depth, s); r.Ok? ==> r.value.chainRequested == s.chainRequested
    decreases maximumDepth - depth
  {
    hide VisitResponse, Followed;
    if Followed(child).Some? && Followed(child).value !in visited && depth < maximumDepth {
      var v := VisitResponse(src, child, Followed(child).value, s);
      VisitKeeps(src, child, Followed(child).value, s);
      if v.Reached? {
        WalkKeepsRequested(src, maximumDepth, v.ancestor, visited + {Followed(child).value}, depth + 1, v.state);
      }
    }
  }

  // ------------------------------------------------------------ what the labels claim

  /** The state in which the walk of a Responses request begins. */
  function Begun(current: Turn, r: Request): State {
    MarkManaged(Start(current), r).(chainRequested := r.previous.PreviousResponse?)
  }

  /** How the label of a Responses request comes about. */
  lemma ResponsesLabel(src: Source, maximumDepth: nat, event: Event) returns (current: Turn, s: State)
    requires Legible(src, event) && ExchangeOf(src, event).protocol == OpenAiResponses
    ensures Loaded(src, current) && current.requestEvent == event
    ensures s == Begun(current, RequestOf(src, event)) && s.nodes.Keys == {event.id}
    ensures !s.chainIncomplete && (s.providerManaged <==> RequestOf(src, event).prompt || RequestOf(src, event).contextManagement)
    ensures var r, given := RequestOf(src, event), LabelOf(src, maximumDepth, event);
            && (!InNoConversation(r) ==> given == Ok(if Whole(src, event) then ProviderManagedContext else UnknownUnsupported))
            && (InNoConversation(r) && r.previous.MalformedPrevious? ==>
                  given == Ok(if !Whole(src, event) then UnknownUnsupported
                              else if s.providerManaged then ProviderManagedContext else PartialClientChain))
            && (InNoConversation(r) && !r.previous.MalformedPrevious? ==>
                  match Walk(src, maximumDepth, current, {}, 0, s)
                  case Err(e) => given == Err(e)
                  case Ok(w) => given == Ok(if !Whole(src, event) then UnknownUnsupported
                                            else if w.providerManaged then ProviderManagedContext
                                            else if !r.previous.PreviousResponse? then ExactClientRequest
                                            else if w.chainIncomplete then PartialClientChain else ReconstructedClientChain))
  {
    hide Walk, LoadTurn, ConversationId;
    TurnIsLoaded(src, event);
    current := LoadTurn(src, event).value;
    ConversationIsRead(RequestOf(src, event));
    s := Begun(current, RequestOf(src, event));
    WalkKeepsRequested(src, maximumDepth, current, {}, 0, s);
  }

  /** The given of any other request. */
  lemma OtherLabel(src: Source, maximumDepth: nat, event: Event)
    requires Recorded(src, event) && !(Legible(src, event) && ExchangeOf(src, event).protocol == OpenAiResponses)
    ensures var x := ExchangeOf(src, event);
            LabelOf(src, maximumDepth, event)
            == Ok(if !Whole(src, event) || x.protocol == UnknownOpenAiCompatible then UnknownUnsupported
                  else if x.protocol == AnthropicMessages && (RequestOf(src, event).prompt || RequestOf(src, event).contextManagement)
                  then ProviderManagedContext
                  else ExactClientRequest)
  {
    hide LoadTurn;
    TurnIsLoaded(src, event);
  }

  lemma UnrecordedFails(src: Source, maximumDepth: nat, event: Event)
    requires !Recorded(src, event)
    ensures LabelOf(src, maximumDepth, event) == Err(if event.id in src.origins then MissingRawExchange else MissingEventOrigin)
  {
  }

  /** The label claims a reconstructed chain exactly when the record holds one. */
  lemma ReconstructedLabelIsExact(src: Source, maximumDepth: nat, event: Event)
    ensures LabelOf(src, maximumDepth, event) == Ok(ReconstructedClientChain)
       <==> && Whole(src, event) && ExchangeOf(src, event).protocol == OpenAiResponses
            && Unmanaged(RequestOf(src, event))
            && exists links :: Reconstructs(src, maximumDepth, event, links)
  {
    hide Walk, Chain, Acyclic, LabelOf, Loaded, Begun;
    if !Recorded(src, event) {
      UnrecordedFails(src, maximumDepth, event);
    } else if !(Legible(src, event) && ExchangeOf(src, event).protocol == OpenAiResponses) {
      OtherLabel(src, maximumDepth, event);
    } else {
      var current, s := ResponsesLabel(src, maximumDepth, event);
      var r := RequestOf(src, event);
      NeverCleanAgain(src, maximumDepth, current, {}, 0, s);
      var w := Walk(src, maximumDepth, current, {}, 0, s);
      if Whole(src, event) && !r.previous.MalformedPrevious? && w.Ok? && Clean(w.value) {
        var links := CleanWalkIsChain(src, maximumDepth, current, {}, 0, s);
        ChainEnds(src, event, links);
        assert links != [] ==> Reconstructs(src, maximumDepth, event, links);
      }
      if Whole(src, event) && Unmanaged(r) {
        if links :| Reconstructs(src, maximumDepth, event, links) {
          ChainEnds(src, event, links);
          ChainIsCleanWalk(src, maximumDepth, current, {}, 0, s, links);
        }
      }
    }
  }

  lemma {:induction false} ChainEnds(src: Source, child: Event, links: seq<Link>)
    requires Whole(src, child) && Chain(src, child, links)
    ensures links == [] <==> RequestOf(src, child).previous == NoPrevious
    ensures links != [] <==> RequestOf(src, child).previous.PreviousResponse?
  {
  }

  /** The exact label, by what the record shows of the one request. */
  lemma ExactLabelIsExact(src: Source, maximumDepth: nat, event: Event)
    ensures LabelOf(src, maximumDepth, event) == Ok(ExactClientRequest)
       <==> && Whole(src, event) && ExchangeOf(src, event).protocol != UnknownOpenAiCompatible
            && match ExchangeOf(src, event).protocol
               case OpenAiResponses => Unmanaged(RequestOf(src, event)) && RequestOf(src, event).previous == NoPrevious
               case AnthropicMessages => !RequestOf(src, event).prompt && !RequestOf(src, event).contextManagement
               case _ => true
  {
    hide Walk, LabelOf, Loaded, Begun;
    if !Recorded(src, event) {
      UnrecordedFails(src, maximumDepth, event);
    } else if !(Legible(src, event) && ExchangeOf(src, event).protocol == OpenAiResponses) {
      OtherLabel(src, maximumDepth, event);
    } else {
      var current, s := ResponsesLabel(src, maximumDepth, event);
      NeverCleanAgain(src, maximumDepth, current, {}, 0, s);
      if RequestOf(src, event).previous == NoPrevious {
        NothingToWalk(src, maximumDepth, current, {}, 0, s);
      }
    }
  }

  lemma {:induction false} NothingToWalk(src: Source, maximumDepth: nat, child: Turn, visited: set<string>, depth: nat, s: State)
    requires Loaded(src, child) && Legible(src, child.requestEvent) && RequestOf(src, child.requestEvent).previous == NoPrevious
    ensures Walk(src, maximumDepth, child, visited, depth, s) == Ok(s)
  {
    hide Loaded, Followed;
    FollowedIsPrevious(src, child);
  }

  // ------------------------------------------------------------ where the walk goes

  /** The requests the walk visits: it goes on from a request at hand that is in no conversation
      to the request behind its previous response, however much of it was captured. */
  ghost predicate Path(src: Source, child: Event, links: seq<Link>)
    decreases |links|
  {
    links != [] ==>
      && Legible(src, child) && InNoConversation(RequestOf(src, child))
      && RequestOf(src, child).previous == PreviousResponse(links[0].responseId)
      && Stands(src, child, links[0]) && Recorded(src, links[0].request)
      && Path(src, links[0].request, links[1..])
  }

  function EndOf(child: Event, links: seq<Link>): Event {
    if links == [] then child else links[|links| - 1].request
  }

  /** A visited request whose context the provider holds in part. */
  ghost predicate ReachesManaged(src: Source, maximumDepth: nat, child: Event, visited: set<string>, depth: nat, nodes: set<string>, links: seq<Link>) {
    links != [] && depth + |links| <= maximumDepth && Path(src, child, links) && Acyclic(src, visited, nodes, links)
    && Managed(src, EndOf(child, links))
  }

  lemma {:induction false} ManagedIsReached(src: Source, maximumDepth: nat, child: Turn, visited: set<string>, depth: nat, s: State) returns (links: seq<Link>)
    requires Loaded(src, child) && depth <= maximumDepth && (Legible(src, child.requestEvent) ==> InNoConversation(RequestOf(src, child.requestEvent)))
    requires var r := Walk(src, maximumDepth, child, visited, depth, s); r.Ok? && r.value.providerManaged && !s.providerManaged
    ensures ReachesManaged(src, maximumDepth, child.requestEvent, visited, depth, s.nodes.Keys, links)
    decreases maximumDepth - depth
  {
    hide VisitResponse, Stands, Loaded, Followed, Managed, InNoConversation;
    FollowedIsPrevious(src, child);
    var id := Followed(child).value;
    var v := VisitResponse(src, child, id, s);
    var link := VisitCases(src, child, id, s);
    var t := LinkIsVisited(src, child, link, s);
    if v.state.providerManaged {
      links := [link];
      OneLink(src, child.requestEvent, visited, s.nodes.Keys, link);
    } else {
      var rest := ManagedIsReached(src, maximumDepth, t, visited + {id}, depth + 1, v.state);
      links := [link] + rest;
      assert links[1..] == rest;
    }
  }

  lemma {:induction false} OneLink(src: Source, child: Event, visited: set<string>, nodes: set<string>, link: Link)
    ensures Acyclic(src, visited, nodes, [link]) <==> link.responseId !in visited && link.request.id !in nodes + {src.responseNode(link.responseId)}
    ensures Path(src, child, [link])
       <==> && Legible(src, child) && InNoConversation(RequestOf(src, child))
            && RequestOf(src, child).previous == PreviousResponse(link.responseId)
            && Stands(src, child, link) && Recorded(src, link.request)
    ensures EndOf(child, [link]) == link.request
  {
    hide Stands;
    assert [link][1..] == [];
  }

  lemma {:induction false} ReachedIsManaged(src: Source, maximumDepth: nat, child: Turn, visited: set<string>, depth: nat, s: State, links: seq<Link>)
    requires Loaded(src, child) && ReachesManaged(src, maximumDepth, child.requestEvent, visited, depth, s.nodes.Keys, links)
    ensures var r := Walk(src, maximumDepth, child, visited, depth, s); r.Ok? ==> r.value.providerManaged
    decreases |links|
  {
    hide VisitResponse, Stands, Loaded, Followed, Managed, InNoConversation;
    FollowedIsPrevious(src, child);
    var link := links[0];
    assert VisitsAt(src, child.requestEvent, s.nodes.Keys, link.responseId, link);
    var t := LinkIsVisited(src, child, link, s);
    var v := VisitResponse(src, child, link.responseId, s);
    if v.Reached? {
      NeverCleanAgain(src, maximumDepth, t, visited + {link.responseId}, depth + 1, v.state);
    }
    if |links| > 1 {
      var rest := links[1..];
      assert Path(src, link.request, rest) && rest != [] && Legible(src, link.request);
      assert InNoConversation(RequestOf(src, link.request)) && RequestOf(src, link.request).previous.PreviousResponse?;
      assert EndOf(link.request, rest) == EndOf(child.requestEvent, links);
      ReachedIsManaged(src, maximumDepth, t, visited + {link.responseId}, depth + 1, v.state, links[1..]);
    }
  }

  /** A visited request from which the walk comes to one whose exchange is not at hand. */
  ghost predicate Derails(src: Source, maximumDepth: nat, child: Event, visited: set<string>, depth: nat, nodes: set<string>, links: seq<Link>, last: Link) {
    var from := EndOf(child, links);
    && depth + |links| < maximumDepth && Path(src, child, links) && Acyclic(src, visited, nodes, links + [last])
    && Legible(src, from) && InNoConversation(RequestOf(src, from)) && RequestOf(src, from).previous == PreviousResponse(last.responseId)
    && Stands(src, from, last) && !Recorded(src, last.request)
  }

  lemma {:induction false} FailureDerails(src: Source, maximumDepth: nat, child: Turn, visited: set<string>, depth: nat, s: State) returns (links: seq<Link>, last: Link)
    requires Loaded(src, child) && depth <= maximumDepth && (Legible(src, child.requestEvent) ==> InNoConversation(RequestOf(src, child.requestEvent)))
    requires Walk(src, maximumDepth, child, visited, depth, s).Err?
    ensures Derails(src, maximumDepth, child.requestEvent, visited, depth, s.nodes.Keys, links, last)
    decreases maximumDepth - depth
  {
    hide VisitResponse, Stands, Loaded, Followed, InNoConversation;
    FollowedIsPrevious(src, child);
    var id := Followed(child).value;
    var v := VisitResponse(src, child, id, s);
    VisitMeaning(src, child, id, s);
    if v.Failed? {
      links := [];
      last :| FailsAt(src, child.requestEvent, s.nodes.Keys, id, last);
      assert links + [last] == [last];
      OneLink(src, child.requestEvent, visited, s.nodes.Keys, last);
    } else {
      var link := VisitCases(src, child, id, s);
      var t := LinkIsVisited(src, child, link, s);
      var rest;
      rest, last := FailureDerails(src, maximumDepth, t, visited + {id}, depth + 1, v.state);
      links := [link] + rest;
      assert links[1..] == rest && (links + [last])[1..] == rest + [last];
    }
  }

  lemma {:induction false} DerailedFails(src: Source, maximumDepth: nat, child: Turn, visited: set<string>, depth: nat, s: State, links: seq<Link>, last: Link)
    requires Loaded(src, child) && Derails(src, maximumDepth, child.requestEvent, visited, depth, s.nodes.Keys, links, last)
    ensures Walk(src, maximumDepth, child, visited, depth, s).Err?
    decreases |links|
  {
    hide VisitResponse, Stands, Loaded, Followed, InNoConversation;
    FollowedIsPrevious(src, child);
    if links == [] {
      assert links + [last] == [last];
      OneLink(src, child.requestEvent, visited, s.nodes.Keys, last);
      VisitMeaning(src, child, last.responseId, s);
      assert FailsAt(src, child.requestEvent, s.nodes.Keys, last.responseId, last);
    } else {
      var link := links[0];
      assert (links + [last])[0] == link && (links + [last])[1..] == links[1..] + [last];
      assert VisitsAt(src, child.requestEvent, s.nodes.Keys, link.responseId, link);
      var t := LinkIsVisited(src, child, link, s);
      NextOnPath(src, links, last, t);
      var v := VisitResponse(src, child, link.responseId, s);
      DerailedFails(src, maximumDepth, t, visited + {link.responseId}, depth + 1, v.state, links[1..], last);
    }
  }

  lemma {:induction false} NextOnPath(src: Source, links: seq<Link>, last: Link, t: Turn)
    requires links != [] && t.requestEvent == links[0].request && Path(src, links[0].request, links[1..])
    requires var from := links[|links| - 1].request;
             Legible(src, from) && InNoConversation(RequestOf(src, from)) && RequestOf(src, from).previous == PreviousResponse(last.responseId)
    ensures Legible(src, links[0].request) && InNoConversation(RequestOf(src, links[0].request))
    ensures RequestOf(src, links[0].request).previous.PreviousResponse?
  {
  }

  /** The label says that the provider holds context exactly when the request itself or one that
      the walk visits has a prompt, managed context or a conversation. */
  lemma ManagedLabelIsExact(src: Source, maximumDepth: nat, event: Event)
    ensures LabelOf(src, maximumDepth, event) == Ok(ProviderManagedContext)
       <==> && Whole(src, event) && LabelOf(src, maximumDepth, event).Ok?
            && match ExchangeOf(src, event).protocol
               case OpenAiResponses =>
                 Managed(src, event) || exists links :: ReachesManaged(src, maximumDepth, event, {}, 0, {event.id}, links)
               case AnthropicMessages => RequestOf(src, event).prompt || RequestOf(src, event).contextManagement
               case _ => false
  {
    hide Walk, LabelOf, Loaded, Begun, ReachesManaged;
    if !Recorded(src, event) {
      UnrecordedFails(src, maximumDepth, event);
    } else if !(Legible(src, event) && ExchangeOf(src, event).protocol == OpenAiResponses) {
      OtherLabel(src, maximumDepth, event);
    } else {
      var current, s := ResponsesLabel(src, maximumDepth, event);
      var r := RequestOf(src, event);
      if InNoConversation(r) && !r.previous.MalformedPrevious? {
        NeverCleanAgain(src, maximumDepth, current, {}, 0, s);
        var w := Walk(src, maximumDepth, current, {}, 0, s);
        if w.Ok? && w.value.providerManaged && !s.providerManaged {
          var links := ManagedIsReached(src, maximumDepth, current, {}, 0, s);
        }
        forall links | ReachesManaged(src, maximumDepth, event, {}, 0, {event.id}, links) ensures w.Ok? ==> w.value.providerManaged {
          ReachedIsManaged(src, maximumDepth, current, {}, 0, s, links);
        }
      } else {
        forall links ensures !ReachesManaged(src, maximumDepth, event, {}, 0, {event.id}, links) {
          NowhereToGo(src, maximumDepth, event, links);
        }
      }
    }
  }

  lemma NowhereToGo(src: Source, maximumDepth: nat, event: Event, links: seq<Link>)
    requires Legible(src, event) && (!InNoConversation(RequestOf(src, event)) || RequestOf(src, event).previous.MalformedPrevious?)
    ensures !ReachesManaged(src, maximumDepth, event, {}, 0, {event.id}, links)
  {
  }

  /** No label at all, exactly when the request's exchange or that of a request the walk comes to
      is not at hand. */
  lemma LabelFailsExactly(src: Source, maximumDepth: nat, event: Event)
    ensures LabelOf(src, maximumDepth, event).Err?
       <==> || !Recorded(src, event)
            || (&& Legible(src, event) && ExchangeOf(src, event).protocol == OpenAiResponses
                && exists links, last :: Derails(src, maximumDepth, event, {}, 0, {event.id}, links, last))
  {
    hide Walk, LabelOf, Loaded, Begun, Derails;
    if !Recorded(src, event) {
      UnrecordedFails(src, maximumDepth, event);
    } else if !(Legible(src, event) && ExchangeOf(src, event).protocol == OpenAiResponses) {
      OtherLabel(src, maximumDepth, event);
    } else {
      var current, s := ResponsesLabel(src, maximumDepth, event);
      var r := RequestOf(src, event);
      if InNoConversation(r) && !r.previous.MalformedPrevious? {
        var w := Walk(src, maximumDepth, current, {}, 0, s);
        if w.Err? {
          var links, last := FailureDerails(src, maximumDepth, current, {}, 0, s);
        }
        forall links, last | Derails(src, maximumDepth, event, {}, 0, {event.id}, links, last) ensures w.Err? {
          DerailedFails(src, maximumDepth, current, {}, 0, s, links, last);
        }
      } else {
        forall links, last ensures !Derails(src, maximumDepth, event, {}, 0, {event.id}, links, last) {
          NowhereToDerail(src, maximumDepth, event, links, last);
        }
      }
    }
  }

  lemma NowhereToDerail(src: Source, maximumDepth: nat, event: Event, links: seq<Link>, last: Link)
    requires Legible(src, event) && (!InNoConversation(RequestOf(src, event)) || RequestOf(src, event).previous.MalformedPrevious?)
    ensures !Derails(src, maximumDepth, event, {}, 0, {event.id}, links, last)
  {
  }

  /** The label of what cannot be read; and of what is left. */
  lemma OtherLabelsAreExact(src: Source, maximumDepth: nat, event: Event)
    requires LabelOf(src, maximumDepth, event).Ok?
    ensures Recorded(src, event)
    ensures LabelOf(src, maximumDepth, event) == Ok(UnknownUnsupported)
       <==> !Whole(src, event) || ExchangeOf(src, event).protocol == UnknownOpenAiCompatible
    ensures LabelOf(src, maximumDepth, event) == Ok(PartialClientChain)
       <==> && Whole(src, event) && ExchangeOf(src, event).protocol == OpenAiResponses
            && RequestOf(src, event).previous != NoPrevious
            && !Managed(src, event)
            && (forall links :: !ReachesManaged(src, maximumDepth, event, {}, 0, {event.id}, links))
            && (forall links :: !Reconstructs(src, maximumDepth, event, links))
  {
    hide Walk, LabelOf, Loaded, Begun, ReachesManaged, Reconstructs;
    ManagedLabelIsExact(src, maximumDepth, event);
    ReconstructedLabelIsExact(src, maximumDepth, event);
    ExactLabelIsExact(src, maximumDepth, event);
    if !Recorded(src, event) {
      UnrecordedFails(src, maximumDepth, event);
    } else if !(Legible(src, event) && ExchangeOf(src, event).protocol == OpenAiResponses) {
      OtherLabel(src, maximumDepth, event);
    } else {
      var current, s := ResponsesLabel(src, maximumDepth, event);
    }
  }

  // ------------------------------------------------------------ stores as recorded

  /** What the event store guarantees by its keys: events listed for an exchange come
      from it, one identifier means one event, and a found response belongs to the
      session it was looked up in. */
  ghost predicate KeysHold(src: Source) {
    && (forall x, e | x in src.exchangeEvents && e in src.exchangeEvents[x] ::
          e.id in src.origins && src.origins[e.id] == x && e.id in src.events && src.events[e.id] == e)
    && (forall k | k in src.responses ::
          var e := src.responses[k];
          e.id in src.origins && src.origins[e.id] in src.exchanges ==> src.exchanges[src.origins[e.id]].sessionId == k.0)
  }

  /** Every exchange's request is recorded before its responses. */
  ghost predicate RequestsComeFirst(src: Source) {
    forall k | k in src.responses ::
      var response := src.responses[k];
      response.id in src.origins ==>
        var request := ModelRequestOf(EventsOf(src, src.origins[response.id]));
        request.Some? ==> request.value.sequence < response.sequence
  }

  /** Node names of responses are not event identifiers. */
  ghost predicate NamesApart(src: Source) {
    forall id, e: string | e in src.events :: src.responseNode(id) != e
  }

  lemma {:induction false} ModelRequestIsListed(events: seq<Event>)
    ensures ModelRequestOf(events).Some? ==> ModelRequestOf(events).value in events
  {
    if events != [] {
      ModelRequestIsListed(events[1..]);
    }
  }

  /** Accepted turns are strictly older and older. */
  lemma {:induction false} TurnsDecrease(src: Source, maximumDepth: nat, child: Turn, visited: set<string>, depth: nat, s: State)
    requires RequestsComeFirst(src)
    requires s.turns != [] && s.turns[|s.turns| - 1] == child
    requires forall k | 0 < k < |s.turns| :: s.turns[k].requestEvent.sequence < s.turns[k - 1].requestEvent.sequence
    ensures var r := Walk(src, maximumDepth, child, visited, depth, s);
            r.Ok? ==>
              && s.turns <= r.value.turns
              && |r.value.turns| <= |s.turns| + (if depth <= maximumDepth then maximumDepth - depth else 0)
              && forall k | 0 < k < |r.value.turns| ::
                   r.value.turns[k].requestEvent.sequence < r.value.turns[k - 1].requestEvent.sequence
    decreases maximumDepth - depth
  {
    hide VisitResponse, RequestsComeFirst, Followed;
    if Followed(child).Some? && Followed(child).value !in visited && depth < maximumDepth {
      var id := Followed(child).value;
      VisitAddsOlderTurn(src, child, id, s);
      var v := VisitResponse(src, child, id, s);
      if v.Reached? {
        TurnsDecrease(src, maximumDepth, v.ancestor, visited + {id}, depth + 1, v.state);
      }
    }
  }

  lemma VisitAddsOlderTurn(src: Source, child: Turn, id: string, s: State)
    requires RequestsComeFirst(src)
    ensures var v := VisitResponse(src, child, id, s);
            && (v.Reached? ==> v.state.turns == s.turns + [v.ancestor])
            && (v.Reached? ==> v.ancestor.requestEvent.sequence < child.requestEvent.sequence)
            && (v.Stopped? ==> v.state.turns == s.turns || exists t :: v.state.turns == s.turns + [t] && t.requestEvent.sequence < child.requestEvent.sequence)
  {
    hide AcceptAncestor;
    forall ancestor, s1 {
      AcceptKeeps(src, id, ancestor, s1);
    }
  }

  /** The ancestry of any request lists strictly older and older turns, never more than the bound allows. */
  lemma AncestorsDecrease(src: Source, maximumDepth: nat, current: Turn)
    requires RequestsComeFirst(src)
    ensures var r := Ancestors(src, maximumDepth, current);
            r.Ok? ==>
              && |r.value.turns| <= maximumDepth + 1
              && forall k | 0 < k < |r.value.turns| ::
                   r.value.turns[k].requestEvent.sequence < r.value.turns[k - 1].requestEvent.sequence
  {
    hide Walk;
    if current.request.Some? && current.exchange.protocol.OpenAiResponses? {
      var r := current.request.value;
      var s := MarkManaged(Start(current), r);
      TurnsDecrease(src, maximumDepth, current, {}, 0, s.(chainRequested := r.previous.PreviousResponse?));
    }
  }

  /** Whatever is known already is at least as recent as `child`. */
  ghost predicate OnlyNewer(src: Source, child: Event, visited: set<string>, nodes: set<string>)
    requires Recorded(src, child)
  {
    && (forall id | id in visited ::
          (ExchangeOf(src, child).sessionId, id) in src.responses
          && src.responses[(ExchangeOf(src, child).sessionId, id)].sequence > child.sequence)
    && (forall n | n in nodes && n in src.events :: src.events[n].sequence >= child.sequence)
  }

  lemma LinkIsOlder(src: Source, child: Event, link: Link)
    requires KeysHold(src) && RequestsComeFirst(src) && Sound(src, child, link)
    ensures link.request.sequence < link.response.sequence < child.sequence
    ensures ExchangeOf(src, link.request).sessionId == ExchangeOf(src, child).sessionId
    ensures link.request.id in src.events && src.events[link.request.id] == link.request
  {
    hide FirstRequest;
    RequestIsFound(src, src.origins[link.response.id], link.request);
    ModelRequestIsListed(EventsOf(src, src.origins[link.response.id]));
  }

  lemma {:induction false} ChainsAreAcyclic(src: Source, child: Event, visited: set<string>, nodes: set<string>, links: seq<Link>)
    requires KeysHold(src) && RequestsComeFirst(src) && NamesApart(src)
    requires Whole(src, child) && Chain(src, child, links) && OnlyNewer(src, child, visited, nodes)
    ensures Acyclic(src, visited, nodes, links)
    decreases |links|
  {
    hide FirstRequest, KeysHold, RequestsComeFirst;
    if links != [] {
      var link := links[0];
      LinkIsOlder(src, child, link);
      var id, event := link.responseId, link.request.id;
      ChainsAreAcyclic(src, link.request, visited + {id}, nodes + {src.responseNode(id)} + {event}, links[1..]);
    }
  }

  /** In a store as recorded the cycle guards never fire on a sound chain, so the label
      says no more and no less than that such a chain exists within the depth bound. */
  lemma {:induction false} ReconstructedLabelInRecordedStore(src: Source, maximumDepth: nat, event: Event)
    requires KeysHold(src) && RequestsComeFirst(src) && NamesApart(src)
    requires event.id in src.events && src.events[event.id] == event
    ensures LabelOf(src, maximumDepth, event) == Ok(ReconstructedClientChain)
       <==> && Whole(src, event) && ExchangeOf(src, event).protocol == OpenAiResponses
            && Unmanaged(RequestOf(src, event))
            && exists links :: links != [] && |links| <= maximumDepth && Chain(src, event, links)
  {
    hide LabelOf, Chain, KeysHold, RequestsComeFirst, NamesApart, Acyclic;
    ReconstructedLabelIsExact(src, maximumDepth, event);
    if Whole(src, event) {
      forall links | links != [] && |links| <= maximumDepth && Chain(src, event, links)
        ensures Reconstructs(src, maximumDepth, event, links)
      {
        ChainsAreAcyclic(src, event, {}, {event.id}, links);
      }
    }
  }

  // ------------------------------------------------------------ the graph of a chain

  /** The edges of a chain: each response belongs to the child before it, each request to its
      response. */
  function ChainEdges(src: Source, child: Event, links: seq<Link>): seq<Edge>
    decreases |links|
  {
    if links == [] then []
    else
      var node := src.responseNode(links[0].responseId);
      [Edge(node, child.id, PreviousResponseOf), Edge(links[0].request.id, node, ExplicitInput)]
      + ChainEdges(src, links[0].request, links[1..])
  }

  lemma AcceptDraws(src: Source, id: string, t: Turn, s: State)
    ensures var v := AcceptAncestor(src, id, t, s);
            v.Reached? ==>
              v.state.edges == s.edges + [Edge(t.requestEvent.id, src.responseNode(id), ExplicitInput)] && v.state.turns == s.turns + [t]
  {
    hide ConversationId;
  }

  lemma VisitDraws(src: Source, child: Turn, link: Link, s: State)
    requires Loaded(src, child) && VisitsAt(src, child.requestEvent, s.nodes.Keys, link.responseId, link)
    ensures var v, node := VisitResponse(src, child, link.responseId, s), src.responseNode(link.responseId);
            v.Reached? ==>
              && v.state.edges == s.edges + [Edge(node, child.requestEvent.id, PreviousResponseOf), Edge(link.request.id, node, ExplicitInput)]
              && v.state.turns == s.turns + [v.ancestor] && v.ancestor.requestEvent == link.request
  {
    hide VisitResponse, AcceptAncestor, LoadTurn, Stands;
    VisitMeaning(src, child, link.responseId, s);
    TurnIsLoaded(src, link.request);
    var t := LinkIsVisited(src, child, link, s);
    AcceptDraws(src, link.responseId, LoadTurn(src, link.request).value, Passed(src, child, link.responseId, s));
  }

  /** A walk along a chain draws the chain and nothing else. */
  lemma {:induction false} ChainIsDrawn(
    src: Source, maximumDepth: nat, child: Turn, visited: set<string>, depth: nat, s: State, links: seq<Link>)
    requires Loaded(src, child) && Whole(src, child.requestEvent) && Clean(s) && depth + |links| <= maximumDepth
    requires Chain(src, child.requestEvent, links) && Acyclic(src, visited, s.nodes.Keys, links)
    ensures var r := Walk(src, maximumDepth, child, visited, depth, s);
            && r.Ok? && r.value.edges == s.edges + ChainEdges(src, child.requestEvent, links)
            && |r.value.turns| == |s.turns| + |links| && s.turns <= r.value.turns
            && forall k | 0 <= k < |links| :: r.value.turns[|s.turns| + k].requestEvent == links[k].request
    decreases |links|
  {
    hide VisitResponse, Stands, Loaded, Followed, Unmanaged, VisitsAt;
    FollowedIsPrevious(src, child);
    if links == [] {
      assert s.edges + [] == s.edges;
    } else {
      var link := links[0];
      NextIsWellFormed(src, child.requestEvent, links);
      NextIsVisited(src, child.requestEvent, visited, s.nodes.Keys, links);
      var t := LinkIsVisited(src, child, link, s);
      VisitDraws(src, child, link, s);
      var v := VisitResponse(src, child, link.responseId, s);
      ChainIsDrawn(src, maximumDepth, t, visited + {link.responseId}, depth + 1, v.state, links[1..]);
      var more := ChainEdges(src, link.request, links[1..]);
      assert v.state.edges + more == s.edges + ChainEdges(src, child.requestEvent, links);
    }
  }

  lemma {:induction false} NextIsVisited(src: Source, child: Event, visited: set<string>, nodes: set<string>, links: seq<Link>)
    requires Whole(src, child) && links != [] && Chain(src, child, links) && Acyclic(src, visited, nodes, links)
    ensures VisitsAt(src, child, nodes, links[0].responseId, links[0])
  {
  }

  /** The graph and the turns of a reconstructed context are those of the recorded chain. */
  lemma {:induction false} ReconstructedGraphIsExact(src: Source, maximumDepth: nat, event: Event, links: seq<Link>)
    requires LabelOf(src, maximumDepth, event) == Ok(ReconstructedClientChain)
    requires Whole(src, event) && Reconstructs(src, maximumDepth, event, links)
    ensures LoadTurn(src, event).Ok?
    ensures var r := Ancestors(src, maximumDepth, LoadTurn(src, event).value);
            && r.Ok? && r.value.edges == ChainEdges(src, event, links)
            && |r.value.turns| == 1 + |links| && r.value.turns[0].requestEvent == event
            && forall k | 0 <= k < |links| :: r.value.turns[k + 1].requestEvent == links[k].request
  {
    hide Walk, Chain, Acyclic, LabelOf, LoadTurn, ConversationId, Stands, ChainEdges;
    ReconstructedLabelIsExact(src, maximumDepth, event);
    TurnIsLoaded(src, event);
    ConversationIsRead(RequestOf(src, event));
    ChainEnds(src, event, links);
    var current, s := ResponsesLabel(src, maximumDepth, event);
    ChainIsDrawn(src, maximumDepth, current, {}, 0, s, links);
  }

  // ------------------------------------------------------------ limitations

  /** The limitations are those the current turn began with and a reason for each mark set since. */
  ghost predicate Explained(current: Turn, s: State) {
    s.limitations == {} <==> current.limitations == {} && Clean(s)
  }

  lemma MarksAreExplained(src: Source, current: Turn, s: State, r: Request, conversation: string, event: string, why: Limitation)
    requires Explained(current, s)
    ensures Explained(current, MarkManaged(s, r)) && Explained(current, AddConversation(src, s, conversation, event))
    ensures Explained(current, Incomplete(s, why))
  {
    assert why in s.limitations + {why} && ConversationManaged(conversation) in s.limitations + {ConversationManaged(conversation)};
    assert PromptManaged in {PromptManaged} && ContextManaged in {ContextManaged};
    assert s.limitations + {} == s.limitations;
  }

  lemma AcceptIsExplained(src: Source, current: Turn, id: string, ancestor: Turn, s: State)
    requires Explained(current, s)
    ensures var v := AcceptAncestor(src, id, ancestor, s); !v.Failed? && Explained(current, v.state)
  {
    hide MarkManaged, AddConversation, Incomplete, ConversationId;
    var event := ancestor.requestEvent.id;
    var s1 := s.(turns := s.turns + [ancestor], nodes := s.nodes[event := RequestNode],
                 edges := s.edges + [Edge(event, src.responseNode(id), ExplicitInput)], limitations := s.limitations + ancestor.limitations);
    var s2 := if ancestor.request.Some? then MarkManaged(s1, ancestor.request.value) else s1;
    var s3 := s2.(chainIncomplete := s2.chainIncomplete || ancestor.limitations != {});
    assert s1.limitations == {} <==> s.limitations == {} && ancestor.limitations == {};
    if ancestor.request.Some? {
      MarkAdds(s1, ancestor.request.value);
    }
    assert Explained(current, s3);
    MarksAreExplained(src, current, s3, NO_REQUEST, "", event, ResponseIncomplete(id));
    var s4 := if ancestor.exchange.responseComplete then s3 else Incomplete(s3, ResponseIncomplete(id));
    MarksAreExplained(src, current, s4, NO_REQUEST, "", event, InvalidPrevious(event));
    if ancestor.request.Some? && ConversationId(ancestor.request.value.conversation).Some? {
      MarksAreExplained(src, current, s4, NO_REQUEST, ConversationId(ancestor.request.value.conversation).value, event, InvalidPrevious(event));
    }
  }

  /** What a request that says who manages the context adds. */
  lemma MarkAdds(s: State, r: Request)
    ensures var t := MarkManaged(s, r);
            && t.chainIncomplete == s.chainIncomplete && t.providerManaged == (s.providerManaged || r.prompt || r.contextManagement)
            && (t.limitations == {} <==> s.limitations == {} && !r.prompt && !r.contextManagement)
  {
    assert PromptManaged in {PromptManaged} && ContextManaged in {ContextManaged};
    assert s.limitations + {} == s.limitations;
  }

  const NO_REQUEST := Request(NoPrevious, NoConversation, false, false)

  lemma VisitIsExplained(src: Source, current: Turn, child: Turn, id: string, s: State)
    requires Explained(current, s)
    ensures var v := VisitResponse(src, child, id, s); !v.Failed? ==> Explained(current, v.state)
  {
    hide AcceptAncestor, MarkManaged, AddConversation, LoadTurn, EventsOf, ModelRequestOf;
    forall ancestor, t | Explained(current, t) {
      AcceptIsExplained(src, current, id, ancestor, t);
    }
    forall t, why | Explained(current, t) ensures Explained(current, Incomplete(t, why)) {
      MarksAreExplained(src, current, t, NO_REQUEST, "", "", why);
    }
    hide Incomplete;
  }

  lemma {:induction false} WalkIsExplained(src: Source, maximumDepth: nat, current: Turn, child: Turn, visited: set<string>, depth: nat, s: State)
    requires Explained(current, s)
    ensures var r := Walk(src, maximumDepth, child, visited, depth, s); r.Ok? ==> Explained(current, r.value)
    decreases maximumDepth - depth
  {
    hide VisitResponse, Followed, Incomplete, Explained;
    match Followed(child) {
      case None =>
      case Some(id) =>
        MarksAreExplained(src, current, s, NO_REQUEST, "", "", ResponseCycle(id));
        MarksAreExplained(src, current, s, NO_REQUEST, "", "", DepthExceeded);
        VisitIsExplained(src, current, child, id, s);
        match VisitResponse(src, child, id, s) {
          case Reached(s1, ancestor) =>
            if id !in visited && depth < maximumDepth {
              WalkIsExplained(src, maximumDepth, current, ancestor, visited + {id}, depth + 1, s1);
            }
          case _ =>
        }
    }
  }

  lemma ResolveIsExplained(src: Source, maximumDepth: nat, current: Turn, s: State)
    requires current.request.Some? && Explained(current, s) && !s.chainIncomplete
    ensures var r := Resolve(src, maximumDepth, current, s);
            r.Ok? ==> Explained(current, r.value) && (r.value.chainIncomplete ==> r.value.chainRequested)
  {
    hide Walk, Followed, MarkManaged, AddConversation, Incomplete, ConversationId, Explained;
    var r := current.request.value;
    MarksAreExplained(src, current, s, r, "", "", PreviousNotAString);
    MarkAdds(s, r);
    OnlyGivingUpIsIncomplete(src, s, r, "", "");
    var s1 := MarkManaged(s, r);
    var conversation := ConversationId(r.conversation);
    if conversation.Some? {
      MarksAreExplained(src, current, s1, r, conversation.value, current.requestEvent.id, PreviousNotAString);
      OnlyGivingUpIsIncomplete(src, s1, r, conversation.value, current.requestEvent.id);
    } else if r.previous.MalformedPrevious? {
      RequestedIsExplained(current, s1, true);
      MarksAreExplained(src, current, s1.(chainRequested := true), r, "", "", PreviousNotAString);
      GivingUpKeepsRequest(s1.(chainRequested := true), PreviousNotAString);
    } else {
      var s2 := s1.(chainRequested := s1.chainRequested || r.previous.PreviousResponse?);
      RequestedIsExplained(current, s1, s1.chainRequested || r.previous.PreviousResponse?);
      WalkIsExplained(src, maximumDepth, current, current, {}, 0, s2);
      WalkKeepsRequested(src, maximumDepth, current, {}, 0, s2);
      if !r.previous.PreviousResponse? {
        NothingToFollow(src, maximumDepth, current, s2);
      }
    }
  }

  lemma OnlyGivingUpIsIncomplete(src: Source, s: State, r: Request, conversation: string, event: string)
    ensures MarkManaged(s, r).chainIncomplete == s.chainIncomplete && AddConversation(src, s, conversation, event).chainIncomplete == s.chainIncomplete
  {
  }

  lemma GivingUpKeepsRequest(s: State, why: Limitation)
    ensures Incomplete(s, why).chainRequested == s.chainRequested
  {
  }

  lemma {:induction false} NothingToFollow(src: Source, maximumDepth: nat, current: Turn, s: State)
    requires current.request.Some? && !current.request.value.previous.PreviousResponse?
    ensures Walk(src, maximumDepth, current, {}, 0, s) == Ok(s)
  {
  }

  lemma AncestorsExplained(src: Source, maximumDepth: nat, current: Turn)
    ensures var r := Ancestors(src, maximumDepth, current);
            r.Ok? ==>
              && (r.value.chainIncomplete ==> r.value.chainRequested)
              && if current.request.Some? && current.exchange.protocol.UnknownOpenAiCompatible? then r.value.limitations != {}
                 else Explained(current, r.value)
  {
    hide Resolve, MarkManaged, Explained;
    var s := Start(current);
    StartIsExplained(current);
    NoParserIsTold(s);
    if current.request.Some? {
      MarksAreExplained(src, current, s, current.request.value, "", "", PreviousNotAString);
      OnlyGivingUpIsIncomplete(src, s, current.request.value, "", "");
      ResolveIsExplained(src, maximumDepth, current, s);
    }
  }

  lemma StartIsExplained(current: Turn)
    ensures Explained(current, Start(current))
  {
  }

  lemma NoParserIsTold(s: State)
    ensures s.limitations + {NoContextParser} != {}
  {
    assert NoContextParser in s.limitations + {NoContextParser};
  }

  lemma RequestedIsExplained(current: Turn, s: State, requested: bool)
    requires Explained(current, s)
    ensures Explained(current, s.(chainRequested := requested))
  {
  }

  /** The label calls a context exact or reconstructed exactly when loading and walking found no
      limitation; every lesser label comes with a reason. */
  lemma LimitationsDecide(src: Source, maximumDepth: nat, event: Event)
    ensures match LoadTurn(src, event)
            case Err(_) => true
            case Ok(current) =>
              match Ancestors(src, maximumDepth, current)
              case Err(_) => true
              case Ok(s) =>
                LabelOf(src, maximumDepth, event) in {Ok(ExactClientRequest), Ok(ReconstructedClientChain)} <==> s.limitations == {}
  {
    hide Ancestors, Explained;
    if LoadTurn(src, event).Ok? {
      var current := LoadTurn(src, event).value;
      AncestorsExplained(src, maximumDepth, current);
      MissingRequestIsTold(src, event);
      if Ancestors(src, maximumDepth, current).Ok? {
        ExplainedMeans(current, Ancestors(src, maximumDepth, current).value);
      }
    }
  }

  lemma ExplainedMeans(current: Turn, s: State)
    ensures Explained(current, s) ==> (s.limitations == {} <==> current.limitations == {} && Clean(s))
  {
  }

  lemma MissingRequestIsTold(src: Source, event: Event)
    ensures var t := LoadTurn(src, event); t.Ok? && t.value.request.None? ==> t.value.limitations != {}
  {
    if event.id in src.origins && src.origins[event.id] in src.exchanges {
      match src.exchanges[src.origins[event.id]].body {
        case NoBody => assert NoRetainedBody(event.id) in LoadTurn(src, event).value.limitations;
        case Undecodable => assert BodyUndecodable(event.id) in LoadTurn(src, event).value.limitations;
        case NotAnObject => assert BodyNotAnObject(event.id) in LoadTurn(src, event).value.limitations;
        case Decoded(_) =>
      }
    }
  }

  // ------------------------------------------------------------ the reconstructor object

  /** The record the walk updates in place. */
  class ReconstructionState {
    var turns: seq<Turn>
    var nodes: map<string, NodeKind>
    var edges: seq<Edge>
    var limitations: set<Limitation>
    var chainRequested: bool
    var chainIncomplete: bool
    var providerManaged: bool

    ghost function View(): State
      reads this
    {
      State(turns, nodes, edges, limitations, chainRequested, chainIncomplete, providerManaged)
    }

    constructor (current: Turn)
      ensures View() == Start(current)
    {
      turns, nodes, edges := [current], map[current.requestEvent.id := RequestNode], [];
      limitations := current.limitations;
      chainRequested, chainIncomplete, providerManaged := false, false, false;
    }

    method MarkProviderManagedRequestState(r: Request)
      modifies this
      ensures View() == MarkManaged(old(View()), r)
    {
      if r.prompt {
        providerManaged := true;
        limitations := limitations + {PromptManaged};
      }
      if r.contextManagement {
        providerManaged := true;
        limitations := limitations + {ContextManaged};
      }
    }

    method JoinConversation(src: Source, conversation: string, event: string)
      modifies this
      ensures View() == AddConversation(src, old(View()), conversation, event)
    {
      var node := src.conversationNode(conversation);
      nodes := nodes[node := ConversationNode];
      edges := edges + [Edge(node, event, ConversationMember)];
      providerManaged := true;
      limitations := limitations + {ConversationManaged(conversation)};
    }

    method GiveUp(why: Limitation)
      modifies this
      ensures View() == Incomplete(old(View()), why)
    {
      chainIncomplete := true;
      limitations := limitations + {why};
    }

    /** The body of the loop; `next` is the turn to go on from. */
    method FollowResponse(src: Source, child: Turn, id: string) returns (next: Option<Turn>, error: Option<ReconstructionError>)
      modifies this
      ensures match VisitResponse(src, child, id, old(View()))
              case Stopped(s) => View() == s && next.None? && error.None?
              case Reached(s, ancestor) => View() == s && next == Some(ancestor) && error.None?
              case Failed(e) => error == Some(e)
    {
      next, error := None, None;
      var node := src.responseNode(id);
      var edge := Edge(node, child.requestEvent.id, PreviousResponseOf);
      if (child.exchange.sessionId, id) !in src.responses {
        nodes := nodes[node := MissingNode];
        edges := edges + [edge];
        GiveUp(ResponseUnavailable(id));
        return;
      }
      var response := src.responses[(child.exchange.sessionId, id)];
      nodes := nodes[node := ResponseNode];
      edges := edges + [edge];
      if response.id !in src.origins {
        GiveUp(NoResponseProvenance(id));
        return;
      }
      var requestEvent := ModelRequestOf(EventsOf(src, src.origins[response.id]));
      if requestEvent.None? {
        GiveUp(NoLocalRequest(id));
        return;
      }
      if requestEvent.value.id in nodes {
        GiveUp(RequestCycle(requestEvent.value.id));
        return;
      }
      if response.sequence >= child.requestEvent.sequence {
        GiveUp(OutOfOrder(id));
        return;
      }
      var loaded := LoadTurn(src, requestEvent.value);
      if loaded.Err? {
        error := Some(loaded.error);
        return;
      }
      next := Accept(src, id, loaded.value);
    }

    method Accept(src: Source, id: string, ancestor: Turn) returns (next: Option<Turn>)
      modifies this
      ensures match AcceptAncestor(src, id, ancestor, old(View()))
              case Stopped(s) => View() == s && next.None?
              case Reached(s, a) => View() == s && next == Some(a)
              case Failed(_) => false
    {
      var event := ancestor.requestEvent.id;
      turns := turns + [ancestor];
      nodes := nodes[event := RequestNode];
      edges := edges + [Edge(event, src.responseNode(id), ExplicitInput)];
      limitations := limitations + ancestor.limitations;
      if ancestor.request.Some? {
        MarkProviderManagedRequestState(ancestor.request.value);
      }
      if ancestor.limitations != {} || !ancestor.exchange.responseComplete {
        chainIncomplete := true;
        if !ancestor.exchange.responseComplete {
          limitations := limitations + {ResponseIncomplete(id)};
        }
      }
      if ancestor.request.Some? {
        var conversation := ConversationId(ancestor.request.value.conversation);
        if conversation.Some? {
          JoinConversation(src, conversation.value, event);
          return None;
        }
        if ancestor.request.value.previous.MalformedPrevious? {
          GiveUp(InvalidPrevious(event));
          return None;
        }
      }
      return Some(ancestor);
    }
  }

  class ContextReconstructor {
    const source: Source
    const maximumChainDepth: nat

    constructor (source: Source, maximumChainDepth: nat := 64)
      requires 1 <= maximumChainDepth <= 256
      ensures this.source == source && this.maximumChainDepth == maximumChainDepth
    {
      this.source, this.maximumChainDepth := source, maximumChainDepth;
    }

    method ResolveResponsesAncestry(current: Turn, state: ReconstructionState) returns (error: Option<ReconstructionError>)
      modifies state
      ensures match Resolve(source, maximumChainDepth, current, old(state.View()))
              case Ok(s) => error.None? && state.View() == s
              case Err(e) => error == Some(e)
    {
      hide Walk, MarkManaged, AddConversation;
      error := None;
      if current.request.None? {
        return;
      }
      var request := current.request.value;
      state.MarkProviderManagedRequestState(request);
      var conversation := ConversationId(request.conversation);
      if conversation.Some? {
        state.JoinConversation(source, conversation.value, current.requestEvent.id);
        return;
      }
      if request.previous.MalformedPrevious? {
        state.chainRequested := true;
        state.GiveUp(PreviousNotAString);
        return;
      }
      if Followed(current).Some? {
        state.chainRequested := true;
      }
      error := FollowChain(current, state);
    }

    method FollowChain(current: Turn, state: ReconstructionState) returns (error: Option<ReconstructionError>)
      modifies state
      ensures match Walk(source, maximumChainDepth, current, {}, 0, old(state.View()))
              case Ok(s) => error.None? && state.View() == s
              case Err(e) => error == Some(e)
    {
      hide VisitResponse, Followed;
      error := None;
      var child := current;
      var previous := Followed(current);
      var visited: set<string> := {};
      var depth := 0;
      ghost var goal := Walk(source, maximumChainDepth, current, {}, 0, state.View());
      while previous.Some?
        invariant previous == Followed(child) && depth <= maximumChainDepth && error.None?
        invariant goal == Walk(source, maximumChainDepth, child, visited, depth, state.View())
        decreases maximumChainDepth - depth
      {
        var id := previous.value;
        if id in visited {
          state.GiveUp(ResponseCycle(id));
          return;
        }
        if depth >= maximumChainDepth {
          state.GiveUp(DepthExceeded);
          return;
        }
        visited := visited + {id};
        depth := depth + 1;
        var next;
        next, error := state.FollowResponse(source, child, id);
        if error.Some? || next.None? {
          return;
        }
        child := next.value;
        previous := Followed(child);
      }
    }

    method Reconstruct(requestEventId: string) returns (r: Result<Completeness, ReconstructionError>)
      ensures requestEventId !in source.events ==> r == Err(EventNotFound)
      ensures requestEventId in source.events && !source.events[requestEventId].isModelRequest ==> r == Err(NotModelRequest)
      ensures requestEventId in source.events && source.events[requestEventId].isModelRequest ==>
                r == LabelOf(source, maximumChainDepth, source.events[requestEventId])
    {
      if requestEventId !in source.events {
        return Err(EventNotFound);
      }
      var target := source.events[requestEventId];
      if !target.isModelRequest {
        return Err(NotModelRequest);
      }
      var loaded := LoadTurn(source, target);
      if loaded.Err? {
        return Err(loaded.error);
      }
      var current := loaded.value;
      var state := new ReconstructionState(current);
      if current.request.Some? {
        if current.exchange.protocol == OpenAiResponses {
          var error := ResolveResponsesAncestry(current, state);
          if error.Some? {
            return Err(error.value);
          }
        } else if current.exchange.protocol == AnthropicMessages {
          state.MarkProviderManagedRequestState(current.request.value);
        } else if current.exchange.protocol != OpenAiChatCompletions {
          state.limitations := state.limitations + {NoContextParser};
        }
      }
      if current.request.None? || current.exchange.protocol == UnknownOpenAiCompatible || current.limitations != {} {
        return Ok(UnknownUnsupported);
      }
      if state.providerManaged {
        return Ok(ProviderManagedContext);
      }
      if state.chainRequested {
        return Ok(if state.chainIncomplete then PartialClientChain else ReconstructedClientChain);
      }
      return Ok(ExactClientRequest);
    }
  }
}
