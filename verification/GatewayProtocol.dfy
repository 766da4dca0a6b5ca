/** mcp_gateway.py: the gateway's threads as one step relation. The client thread, the upstream reader
    and one timer per registered call interleave at critical-section granularity. Cancelling a timer is
    not a step: a timer may fire at any moment after its call was registered, which allows more. */
module GatewayProtocol {
  import opened Sequences
  import opened McpGateway

  // The client thread inside `_handle`, with the id and tool name it is working on.
  datatype Client =
    | Waiting
    | Authorizing(id: string, tool: string)
    | Cleared(id: string, tool: string)
    | Registered(id: string, tool: string)
    | Failing(id: string, kind: Kind)
    | Sending(id: string, kind: Kind)
    | ForwardingOther(id: string)

  datatype Reader =
    | Reading
    | Checking(key: string, generation: Option<nat>, response: Response, request: nat)
    | Delivering(key: string)
    | Closing(outstanding: set<string>)
    | Finished

  datatype Kind = Reply | Timeout | Shutdown | NotVerified | Unavailable | PolicyRefusal | Duplicate | CatalogError

  datatype Sent = Sent(id: string, kind: Kind)

  // What happened to the catalog and what was forwarded, in order. An accepted page names the entry of
  // the request it answers; nothing here mentions the gateway's own generation numbers.
  datatype Entry =
    | Invalidated
    | Listed(id: string, cursor: ListCursor)
    | PageAccepted(request: nat, tools: seq<Tool>, next: Cursor)
    | Forwarded(id: string, tool: string)

  // Besides the gateway's state: which timers were made and which are about to answer, what was sent,
  // the history and where in it each open tools/list request is, the ids the client used and upstream
  // received and replied to, the calls whose forward returned, and those whose pending entry was still
  // there when their forward failed.
  datatype World = World(
    shared: Shared, client: Client, reader: Reader, timers: set<string>, firing: set<string>,
    sent: seq<Sent>, history: seq<Entry>, asked: map<string, nat>,
    used: set<string>, received: set<string>, replied: set<string>, forwarded: set<string>, dropped: set<string>)

  datatype Event =
    | ClientCall(id: string, tool: string, wellFormed: bool)
    | Decide(allowed: bool)
    | Register
    | Forward(ok: bool, delivered: bool)
    | DropPending
    | SendFailure
    | ClientList(id: string, cursor: ListCursor)
    | ClientOther(id: string)
    | ForwardOther
    | ListChanged
    | UpstreamReply(key: string, response: Response)
    | CheckCatalog
    | Deliver
    | UpstreamEnds
    | CloseOne(key: string)
    | TimerFires(key: string)
    | TimerSends(key: string)

  function Start(): World {
    World(Shared({}, {}, Catalog(0, map[], map[]), map[]), Waiting, Reading, {}, {},
          [], [], map[], {}, {}, {}, {}, {})
  }

  function Answer(s: World, id: string, kind: Kind): World { s.(sent := s.sent + [Sent(id, kind)]) }

  // ----- Steps of the client thread -----

  // Up to the duplicate check and the parameter check.
  function OnCall(s: World, id: string, tool: string, wellFormed: bool): World {
    var s' := s.(used := s.used + {id});
    if Taken(s.shared, id) then Answer(s', id, Duplicate)
    else if !wellFormed then Answer(s', id, PolicyRefusal)
    else s'.(client := Authorizing(id, tool))
  }

  // `_authorize_tool`: the schema must be verified; everything else it weighs is the event's choice.
  function OnDecide(pins: Pins, s: World, allowed: bool): World
    requires s.client.Authorizing?
  {
    if allowed && Verified(pins, s.shared.catalog, s.client.tool)
    then s.(client := Cleared(s.client.id, s.client.tool))
    else Answer(s, s.client.id, PolicyRefusal).(client := Waiting)
  }

  function OnRegister(s: World): World
    requires s.client.Cleared?
  {
    var id := s.client.id;
    if id in s.shared.pending then Answer(s, id, Duplicate).(client := Waiting)
    else s.(shared := s.shared.(pending := s.shared.pending + {id}), timers := s.timers + {id},
            client := Registered(id, s.client.tool))
  }

  // The last check and the write, under the catalog lock. A write that raises may still have arrived.
  function OnForward(pins: Pins, s: World, ok: bool, delivered: bool): World
    requires s.client.Registered?
  {
    var id, tool := s.client.id, s.client.tool;
    if !Verified(pins, s.shared.catalog, tool) then s.(client := Failing(id, NotVerified))
    else
      var s' := if ok || delivered
                then s.(history := s.history + [Forwarded(id, tool)], received := s.received + {id}) else s;
      if ok then s'.(client := Waiting, forwarded := s.forwarded + {id})
      else s'.(client := Failing(id, Unavailable))
  }

  function OnDropPending(s: World): World
    requires s.client.Failing?
  {
    var id := s.client.id;
    s.(shared := s.shared.(pending := s.shared.pending - {id}), client := Sending(id, s.client.kind),
       dropped := if id in s.shared.pending then s.dropped + {id} else s.dropped)
  }

  function OnSendFailure(s: World): World
    requires s.client.Sending?
  {
    Answer(s, s.client.id, s.client.kind).(client := Waiting)
  }

  function OnList(s: World, id: string, cursor: ListCursor): World {
    var s' := s.(used := s.used + {id});
    if Taken(s.shared, id) then Answer(s', id, Duplicate)
    else
      var before := if cursor.Absent? then s.history + [Invalidated] else s.history;
      s'.(shared := RegisterList(s.shared, id, cursor), client := ForwardingOther(id),
          history := before + [Listed(id, cursor)], asked := s.asked[id := |before|])
  }

  function OnForwardOther(s: World): World
    requires s.client.ForwardingOther?
  {
    s.(received := s.received + {s.client.id}, client := Waiting)
  }

  // ----- Steps of the reader -----

  function OnReply(s: World, key: string, response: Response): World {
    var taking := Looked(s.shared, key);
    var s' := s.(shared := TakeReply(s.shared, key), replied := s.replied + {key}, asked := s.asked - {key});
    var request := if key in s.asked then s.asked[key] else 0;
    if !taking.wasPending && taking.wasExpired then s'
    else if taking.isCatalog then s'.(reader := Checking(key, taking.generation, response, request))
    else s'.(reader := Delivering(key))
  }

  function OnCheck(pins: Pins, s: World): World
    requires s.reader.Checking?
  {
    var c, scan, response := s.shared.catalog, s.reader.generation, s.reader.response;
    var entry :=
      if pins == map[] then []
      else match Judge(pins, c, response, scan)
           case Accepted(_) => [PageAccepted(s.reader.request, response.tools, response.cursor)]
           case Stale => []
           case _ => [Invalidated];
    Answer(s, s.reader.key, if Mismatch(pins, c, response, scan) then CatalogError else Reply)
      .(shared := s.shared.(catalog := AfterPage(pins, c, response, scan)), reader := Reading,
          history := s.history + entry)
  }

  function OnEnd(s: World): World {
    s.(shared := s.shared.(pending := {}), reader := Closing(s.shared.pending))
  }

  function OnClose(s: World, key: string): World
    requires s.reader.Closing?
  {
    var rest := s.reader.outstanding - {key};
    Answer(s, key, Shutdown).(reader := if rest == {} then Finished else Closing(rest))
  }

  function OnTimer(s: World, key: string): World {
    s.(shared := Expire(s.shared, key), firing := if key in s.shared.pending then s.firing + {key} else s.firing)
  }

  function Apply(pins: Pins, s: World, e: Event): Option<World> {
    match e
    case ClientCall(id, tool, ok) => if s.client.Waiting? then Some(OnCall(s, id, tool, ok)) else None
    case Decide(allowed) => if s.client.Authorizing? then Some(OnDecide(pins, s, allowed)) else None
    case Register => if s.client.Cleared? then Some(OnRegister(s)) else None
    case Forward(ok, delivered) => if s.client.Registered? then Some(OnForward(pins, s, ok, delivered)) else None
    case DropPending => if s.client.Failing? then Some(OnDropPending(s)) else None
    case SendFailure => if s.client.Sending? then Some(OnSendFailure(s)) else None
    case ClientList(id, cursor) => if s.client.Waiting? then Some(OnList(s, id, cursor)) else None
    case ClientOther(id) =>
      if s.client.Waiting? then Some(s.(used := s.used + {id}, client := ForwardingOther(id))) else None
    case ForwardOther => if s.client.ForwardingOther? then Some(OnForwardOther(s)) else None
    case ListChanged =>
      if s.reader.Reading?
      then Some(s.(shared := s.shared.(catalog := Invalidate(s.shared.catalog)), history := s.history + [Invalidated]))
      else None
    case UpstreamReply(key, response) => if s.reader.Reading? then Some(OnReply(s, key, response)) else None
    case CheckCatalog => if s.reader.Checking? then Some(OnCheck(pins, s)) else None
    case Deliver =>
      if s.reader.Delivering? then Some(Answer(s, s.reader.key, Reply).(reader := Reading)) else None
    case UpstreamEnds => if s.reader.Reading? then Some(OnEnd(s)) else None
    case CloseOne(key) => if s.reader.Closing? && key in s.reader.outstanding then Some(OnClose(s, key)) else None
    case TimerFires(key) => if key in s.timers then Some(OnTimer(s, key)) else None
    case TimerSends(key) =>
      if key in s.firing then Some(Answer(s, key, Timeout).(firing := s.firing - {key})) else None
  }

  function StepTo(pins: Pins, s: World, e: Event): World {
    var after := Apply(pins, s, e);
    if after.Some? then after.value else s
  }

  function Run(pins: Pins, events: seq<Event>): World {
    if events == [] then Start()
    else
      var before := Run(pins, events[..|events| - 1]);
      var after := Apply(pins, before, events[|events| - 1]);
      if after.Some? then after.value else before
  }
}

/** mcp_gateway.py: no call of a pinned tool is forwarded on stale trust, in any interleaving. Whether
    trust is fresh is said by the history alone: which request a page answers, which page handed out a
    request's cursor, and whether anything was invalidated since the first request of that scan. */
module GatewayTrust {
  import opened Sequences
  import opened McpGateway
  import opened GatewayProtocol

  ghost predicate Quiet(history: seq<Entry>, start: nat) {
    forall k :: start <= k < |history| ==> !history[k].Invalidated?
  }

  predicate HandsOut(e: Entry, token: string) { e.PageAccepted? && e.next == Next(token) }

  // Request r belongs to the scan whose first request is `start`: it is that request, or its cursor
  // was handed out by a page that answers a request of the scan.
  ghost predicate FromScan(history: seq<Entry>, start: nat, r: nat) {
    && start <= r < |history| && history[r].Listed?
    && match history[r].cursor
       case Absent => r == start
       case NotText => false
       case Text(token) =>
         exists j: nat :: j < r && HandsOut(history[j], token) && history[j].request < j
                          && FromScan(history, start, history[j].request)
  }

  // The scan of request r still stands: nothing was invalidated since its first request.
  ghost predicate Fresh(history: seq<Entry>, r: nat) {
    exists start: nat :: FromScan(history, start, r) && Quiet(history, start)
  }

  // Entry j answers a request of a scan that still stands.
  ghost predicate AnswersFresh(history: seq<Entry>, j: nat) {
    j < |history| && history[j].PageAccepted? && history[j].request < j && Fresh(history, history[j].request)
  }

  ghost predicate VouchedBy(pins: Pins, history: seq<Entry>, tool: string, j: nat)
    requires tool in pins
  {
    AnswersFresh(history, j) && Tool(tool, Some(pins[tool])) in history[j].tools
  }

  ghost predicate Vouched(pins: Pins, history: seq<Entry>, tool: string)
    requires tool in pins
  {
    exists j: nat :: VouchedBy(pins, history, tool, j)
  }

  // Some page of a scan that still stands handed out this cursor.
  ghost predicate Handed(history: seq<Entry>, token: string) {
    exists j: nat :: AnswersFresh(history, j) && HandsOut(history[j], token)
  }

  // ----- How these change as the history grows -----

  lemma {:induction false} FromScanFrame(history: seq<Entry>, longer: seq<Entry>, start: nat, r: nat)
    requires history <= longer && r < |history|
    ensures FromScan(history, start, r) <==> FromScan(longer, start, r)
    decreases r
  {
    assert longer[r] == history[r];
    forall j: nat | j < r && history[j].PageAccepted? && history[j].request < j
      ensures FromScan(history, start, history[j].request) <==> FromScan(longer, start, history[j].request)
      ensures history[j] == longer[j]
    {
      FromScanFrame(history, longer, start, history[j].request);
    }
    assert forall j: nat :: j < r ==> history[j] == longer[j];
  }

  lemma FreshAppend(history: seq<Entry>, e: Entry, r: nat)
    requires r < |history| && !e.Invalidated?
    ensures Fresh(history + [e], r) <==> Fresh(history, r)
  {
    var longer := history + [e];
    forall start: nat ensures FromScan(history, start, r) <==> FromScan(longer, start, r) {
      FromScanFrame(history, longer, start, r);
    }
    forall start: nat | start <= r ensures Quiet(history, start) <==> Quiet(longer, start) {
      QuietAppend(history, e, start);
    }
  }

  lemma QuietAppend(history: seq<Entry>, e: Entry, start: nat)
    requires start <= |history|
    ensures Quiet(history + [e], start) <==> Quiet(history, start) && !e.Invalidated?
  {
    var longer := history + [e];
    assert longer[|history|] == e;
    assert forall k :: start <= k < |history| ==> longer[k] == history[k];
  }

  // An invalidation ends every scan so far.
  lemma FreshEnds(history: seq<Entry>, r: nat)
    requires r < |history|
    ensures !Fresh(history + [Invalidated], r)
  {
    forall start: nat | start <= r ensures !Quiet(history + [Invalidated], start) {
      QuietAppend(history, Invalidated, start);
    }
  }

  lemma AnswersAppend(history: seq<Entry>, e: Entry, j: nat)
    requires j < |history|
    ensures !e.Invalidated? ==> (AnswersFresh(history + [e], j) <==> AnswersFresh(history, j))
    ensures e.Invalidated? ==> !AnswersFresh(history + [e], j)
  {
    assert (history + [e])[j] == history[j];
    if history[j].PageAccepted? && history[j].request < j {
      if e.Invalidated? {
        FreshEnds(history, history[j].request);
      } else {
        FreshAppend(history, e, history[j].request);
      }
    }
  }

  lemma LastAnswers(history: seq<Entry>, e: Entry)
    requires e.PageAccepted? && e.request < |history|
    ensures AnswersFresh(history + [e], |history|) <==> Fresh(history, e.request)
  {
    assert (history + [e])[|history|] == e;
    FreshAppend(history, e, e.request);
  }

  lemma VouchedAppend(pins: Pins, history: seq<Entry>, tool: string, e: Entry)
    requires tool in pins && !e.Invalidated? && (e.PageAccepted? ==> e.request < |history|)
    ensures Vouched(pins, history + [e], tool)
            <==> Vouched(pins, history, tool) || (Lists(e, Tool(tool, Some(pins[tool]))) && Fresh(history, e.request))
  {
    var longer := history + [e];
    assert longer[|history|] == e;
    forall j: nat | j < |history| ensures VouchedBy(pins, longer, tool, j) <==> VouchedBy(pins, history, tool, j) {
      AnswersAppend(history, e, j);
      assert longer[j] == history[j];
    }
    if e.PageAccepted? {
      LastAnswers(history, e);
      assert VouchedBy(pins, longer, tool, |history|)
             <==> Lists(e, Tool(tool, Some(pins[tool]))) && Fresh(history, e.request);
    }
    if Vouched(pins, longer, tool) {
      var j: nat :| VouchedBy(pins, longer, tool, j);
      assert j < |history| ==> VouchedBy(pins, history, tool, j);
    }
    if Vouched(pins, history, tool) {
      var j: nat :| VouchedBy(pins, history, tool, j);
      assert VouchedBy(pins, longer, tool, j);
    }
  }

  predicate Lists(e: Entry, tool: Tool) { e.PageAccepted? && tool in e.tools }

  lemma VouchedEnds(pins: Pins, history: seq<Entry>, tool: string)
    requires tool in pins
    ensures !Vouched(pins, history + [Invalidated], tool)
  {
    forall j: nat | j < |history| ensures !AnswersFresh(history + [Invalidated], j) {
      AnswersAppend(history, Invalidated, j);
    }
  }

  lemma HandedAppend(history: seq<Entry>, e: Entry, token: string)
    requires !e.Invalidated? && (e.PageAccepted? ==> e.request < |history|)
    ensures Handed(history + [e], token)
            <==> Handed(history, token) || (HandsOut(e, token) && Fresh(history, e.request))
  {
    var longer := history + [e];
    assert longer[|history|] == e;
    forall j: nat | j < |history| ensures AnswersFresh(longer, j) <==> AnswersFresh(history, j) {
      AnswersAppend(history, e, j);
    }
    assert forall j: nat :: j < |history| ==> longer[j] == history[j];
    if e.PageAccepted? {
      LastAnswers(history, e);
    }
    if Handed(longer, token) {
      var j: nat :| AnswersFresh(longer, j) && HandsOut(longer[j], token);
      assert j < |history| ==> AnswersFresh(history, j) && HandsOut(history[j], token);
    }
    if Handed(history, token) {
      var j: nat :| AnswersFresh(history, j) && HandsOut(history[j], token);
      assert AnswersFresh(longer, j) && HandsOut(longer[j], token);
    }
  }

  lemma HandedEnds(history: seq<Entry>, token: string)
    ensures !Handed(history + [Invalidated], token)
  {
    forall j: nat | j < |history| ensures !AnswersFresh(history + [Invalidated], j) {
      AnswersAppend(history, Invalidated, j);
    }
  }

  // A request is fresh when made exactly if it starts a scan or carries a cursor of one that stands.
  lemma NewRequest(history: seq<Entry>, id: string, cursor: ListCursor)
    ensures Fresh(history + [Listed(id, cursor)], |history|)
            <==> cursor.Absent? || (cursor.Text? && Handed(history, cursor.token))
  {
    var e := Listed(id, cursor);
    var longer, r := history + [e], |history|;
    assert longer[r] == e;
    match cursor
    case Absent =>
      assert FromScan(longer, r, r) && Quiet(longer, r);
    case NotText =>
    case Text(token) =>
      HandedAppend(history, e, token);
      if Fresh(longer, r) {
        var start: nat :| FromScan(longer, start, r) && Quiet(longer, start);
        var j: nat :| j < r && HandsOut(longer[j], token) && longer[j].request < j
                      && FromScan(longer, start, longer[j].request);
        assert Fresh(longer, longer[j].request);
        assert AnswersFresh(longer, j);
      }
      if Handed(longer, token) {
        var j: nat :| AnswersFresh(longer, j) && HandsOut(longer[j], token);
        var start: nat :| FromScan(longer, start, longer[j].request) && Quiet(longer, start);
        assert j < r;
        assert FromScan(longer, start, r);
      }
  }

  // ----- The gateway's bookkeeping is what the history says it is -----

  // The generation kept for a request is the current one exactly while the request's scan stands.
  ghost predicate Tied(c: Catalog, history: seq<Entry>, generation: Option<nat>, r: nat) {
    && r < |history|
    && (generation == Some(c.generation) <==> Fresh(history, r))
    && (generation.Some? ==> generation.value <= c.generation)
  }

  ghost predicate CursorTied(c: Catalog, history: seq<Entry>, token: string) {
    && (token in c.cursors <==> Handed(history, token))
    && (token in c.cursors ==> c.cursors[token] == c.generation)
  }

  ghost predicate Grounded(pins: Pins, c: Catalog, history: seq<Entry>) {
    && (forall n :: n in c.validated <==> n in pins && Vouched(pins, history, n))
    && (forall n :: n in c.validated ==> c.validated[n] == pins[n])
    && (forall token :: CursorTied(c, history, token))
  }

  ghost predicate ForwardedVouched(pins: Pins, history: seq<Entry>) {
    forall i :: 0 <= i < |history| && history[i].Forwarded? && history[i].tool in pins
      ==> Vouched(pins, history[..i], history[i].tool)
  }

  predicate Asks(history: seq<Entry>, r: nat, id: string) {
    r < |history| && history[r].Listed? && history[r].id == id
  }

  ghost predicate RequestsTied(s: World) {
    forall key :: key in s.shared.catalogRequests ==>
      && key in s.asked && Asks(s.history, s.asked[key], key)
      && Tied(s.shared.catalog, s.history, s.shared.catalogRequests[key], s.asked[key])
  }

  ghost predicate ReaderTied(s: World) {
    s.reader.Checking? ==>
      && Asks(s.history, s.reader.request, s.reader.key)
      && Tied(s.shared.catalog, s.history, s.reader.generation, s.reader.request)
  }

  ghost predicate TrustInv(pins: Pins, s: World) {
    && Grounded(pins, s.shared.catalog, s.history) && ForwardedVouched(pins, s.history)
    && RequestsTied(s) && ReaderTied(s)
  }

  lemma ForwardedAppend(pins: Pins, history: seq<Entry>, e: Entry)
    requires ForwardedVouched(pins, history)
    requires e.Forwarded? && e.tool in pins ==> Vouched(pins, history, e.tool)
    ensures ForwardedVouched(pins, history + [e])
  {
    var longer := history + [e];
    forall i | 0 <= i < |longer| && longer[i].Forwarded? && longer[i].tool in pins
      ensures Vouched(pins, longer[..i], longer[i].tool)
    {
      if i < |history| {
        assert longer[..i] == history[..i];
      } else {
        assert longer[..i] == history;
      }
    }
  }

  lemma TiedAppend(c: Catalog, c': Catalog, history: seq<Entry>, e: Entry, generation: Option<nat>, r: nat)
    requires Tied(c, history, generation, r)
    requires e.Invalidated? ==> c' == Invalidate(c)
    requires !e.Invalidated? ==> c'.generation == c.generation
    ensures Tied(c', history + [e], generation, r)
  {
    if e.Invalidated? {
      FreshEnds(history, r);
    } else {
      FreshAppend(history, e, r);
    }
  }

  lemma InvalidationGrounded(pins: Pins, c: Catalog, history: seq<Entry>)
    ensures Grounded(pins, Invalidate(c), history + [Invalidated])
  {
    forall token ensures CursorTied(Invalidate(c), history + [Invalidated], token) {
      HandedEnds(history, token);
    }
    forall n | n in pins ensures !Vouched(pins, history + [Invalidated], n) {
      VouchedEnds(pins, history, n);
    }
  }

  // An entry that is neither an invalidation nor a page.
  lemma PlainGrounded(pins: Pins, c: Catalog, history: seq<Entry>, e: Entry)
    requires Grounded(pins, c, history) && !e.Invalidated? && !e.PageAccepted?
    ensures Grounded(pins, c, history + [e])
  {
    forall n | n in pins ensures Vouched(pins, history + [e], n) <==> Vouched(pins, history, n) {
      VouchedAppend(pins, history, n, e);
    }
    forall token ensures CursorTied(c, history + [e], token) {
      assert CursorTied(c, history, token);
      HandedAppend(history, e, token);
    }
  }

  lemma PageGrounded(pins: Pins, c: Catalog, history: seq<Entry>, response: Response, generation: Option<nat>, r: nat)
    requires Grounded(pins, c, history) && Tied(c, history, generation, r)
    requires Judge(pins, c, response, generation).Accepted?
    ensures var c' := Judge(pins, c, response, generation).catalog;
            && c'.generation == c.generation
            && Grounded(pins, c', history + [PageAccepted(r, response.tools, response.cursor)])
  {
    var c' := Judge(pins, c, response, generation).catalog;
    var e := PageAccepted(r, response.tools, response.cursor);
    ScanTakes(pins, c.validated, response.tools);
    assert Fresh(history, r);
    forall n | n in pins
      ensures Vouched(pins, history + [e], n)
              <==> Vouched(pins, history, n) || Tool(n, Some(pins[n])) in response.tools
    {
      VouchedAppend(pins, history, n, e);
    }
    forall token ensures CursorTied(c', history + [e], token) {
      assert CursorTied(c, history, token);
      HandedAppend(history, e, token);
    }
  }

  // ----- Every step keeps it so -----

  // A step that appends one entry and leaves the open requests and the reader's work as they were.
  lemma AppendKeepsRequests(s: World, s': World, e: Entry)
    requires RequestsTied(s) && ReaderTied(s) && s'.history == s.history + [e]
    requires e.Invalidated? ==> s'.shared.catalog == Invalidate(s.shared.catalog)
    requires !e.Invalidated? ==> s'.shared.catalog.generation == s.shared.catalog.generation
    requires s'.shared.catalogRequests == s.shared.catalogRequests && s'.asked == s.asked
    requires s'.reader == s.reader || !s'.reader.Checking?
    ensures RequestsTied(s') && ReaderTied(s')
  {
    var c, c' := s.shared.catalog, s'.shared.catalog;
    forall key | key in s'.shared.catalogRequests
      ensures key in s'.asked && Asks(s'.history, s'.asked[key], key)
      ensures Tied(c', s'.history, s'.shared.catalogRequests[key], s'.asked[key])
    {
      TiedAppend(c, c', s.history, e, s.shared.catalogRequests[key], s.asked[key]);
    }
    if s'.reader.Checking? {
      TiedAppend(c, c', s.history, e, s.reader.generation, s.reader.request);
    }
  }

  lemma ForwardKeepsTrust(pins: Pins, s: World, ok: bool, delivered: bool)
    requires TrustInv(pins, s) && s.client.Registered?
    ensures TrustInv(pins, OnForward(pins, s, ok, delivered))
  {
    if Verified(pins, s.shared.catalog, s.client.tool) && (ok || delivered) {
      var e := Forwarded(s.client.id, s.client.tool);
      PlainGrounded(pins, s.shared.catalog, s.history, e);
      ForwardedAppend(pins, s.history, e);
      AppendKeepsRequests(s, OnForward(pins, s, ok, delivered), e);
    }
  }

  function Changed(s: World): World {
    s.(shared := s.shared.(catalog := Invalidate(s.shared.catalog)), history := s.history + [Invalidated])
  }

  lemma InvalidationKeepsTrust(pins: Pins, s: World)
    requires TrustInv(pins, s)
    ensures TrustInv(pins, Changed(s))
  {
    InvalidationGrounded(pins, s.shared.catalog, s.history);
    ForwardedAppend(pins, s.history, Invalidated);
    AppendKeepsRequests(s, Changed(s), Invalidated);
  }

  // Registering a request in the catalog it is registered in.
  lemma ListKeepsTrust(pins: Pins, s: World, s': World, id: string, cursor: ListCursor)
    requires TrustInv(pins, s)
    requires s'.shared.catalog == s.shared.catalog && s'.reader == s.reader
    requires s'.shared.catalogRequests == s.shared.catalogRequests[id := ListGeneration(s.shared.catalog, cursor)]
    requires s'.history == s.history + [Listed(id, cursor)] && s'.asked == s.asked[id := |s.history|]
    ensures TrustInv(pins, s')
  {
    var c, e := s.shared.catalog, Listed(id, cursor);
    PlainGrounded(pins, c, s.history, e);
    ForwardedAppend(pins, s.history, e);
    NewRequest(s.history, id, cursor);
    if cursor.Text? {
      assert CursorTied(c, s.history, cursor.token);
    }
    forall key | key in s'.shared.catalogRequests
      ensures key in s'.asked && Asks(s'.history, s'.asked[key], key)
      ensures Tied(c, s'.history, s'.shared.catalogRequests[key], s'.asked[key])
    {
      if key != id {
        TiedAppend(c, c, s.history, e, s.shared.catalogRequests[key], s.asked[key]);
      }
    }
    if s'.reader.Checking? {
      TiedAppend(c, c, s.history, e, s.reader.generation, s.reader.request);
    }
  }

  lemma OnListKeepsTrust(pins: Pins, s: World, id: string, cursor: ListCursor)
    requires TrustInv(pins, s)
    ensures TrustInv(pins, OnList(s, id, cursor))
  {
    if !Taken(s.shared, id) {
      if cursor.Absent? {
        InvalidationKeepsTrust(pins, s);
        ListKeepsTrust(pins, Changed(s), OnList(s, id, cursor), id, cursor);
      } else {
        ListKeepsTrust(pins, s, OnList(s, id, cursor), id, cursor);
      }
    }
  }

  lemma CheckKeepsTrust(pins: Pins, s: World)
    requires TrustInv(pins, s) && s.reader.Checking?
    ensures TrustInv(pins, OnCheck(pins, s))
  {
    var c, response, generation, r := s.shared.catalog, s.reader.response, s.reader.generation, s.reader.request;
    var s' := OnCheck(pins, s);
    assert s.history + [] == s.history;
    if pins != map[] {
      match Judge(pins, c, response, generation)
      case Accepted(_) =>
        var e := PageAccepted(r, response.tools, response.cursor);
        PageGrounded(pins, c, s.history, response, generation, r);
        ForwardedAppend(pins, s.history, e);
        AppendKeepsRequests(s, s', e);
      case Stale =>
      case _ =>
        InvalidationGrounded(pins, c, s.history);
        ForwardedAppend(pins, s.history, Invalidated);
        AppendKeepsRequests(s, s', Invalidated);
    }
  }

  // A reply takes out the request it answers, and the reader goes on with it.
  lemma ReplyKeepsTrust(pins: Pins, s: World, key: string, response: Response)
    requires TrustInv(pins, s) && s.reader.Reading?
    ensures TrustInv(pins, OnReply(s, key, response))
  {
  }

  // Every other step leaves the catalog, the history and the open requests alone.
  predicate TouchesCatalog(e: Event) {
    e.Forward? || e.ListChanged? || e.CheckCatalog? || e.ClientList? || e.UpstreamReply?
  }

  lemma OtherStepsKeepCatalog(pins: Pins, s: World, e: Event)
    requires !TouchesCatalog(e) && Apply(pins, s, e).Some?
    ensures var s' := Apply(pins, s, e).value;
            && s'.shared.catalog == s.shared.catalog && s'.history == s.history
            && s'.shared.catalogRequests == s.shared.catalogRequests && s'.asked == s.asked
            && (s'.reader == s.reader || !s'.reader.Checking?)
  {
  }

  lemma StepKeepsTrust(pins: Pins, s: World, e: Event)
    requires TrustInv(pins, s) && Apply(pins, s, e).Some?
    ensures TrustInv(pins, Apply(pins, s, e).value)
  {
    match e
    case Forward(ok, delivered) => ForwardKeepsTrust(pins, s, ok, delivered);
    case ClientList(id, cursor) => OnListKeepsTrust(pins, s, id, cursor);
    case ListChanged => InvalidationKeepsTrust(pins, s);
    case CheckCatalog => CheckKeepsTrust(pins, s);
    case UpstreamReply(key, response) => ReplyKeepsTrust(pins, s, key, response);
    case _ => OtherStepsKeepCatalog(pins, s, e);
  }

  lemma {:induction false} RunKeepsTrust(pins: Pins, events: seq<Event>)
    ensures TrustInv(pins, Run(pins, events))
  {
    if events != [] {
      var init := events[..|events| - 1];
      RunKeepsTrust(pins, init);
      var before, e := Run(pins, init), events[|events| - 1];
      if Apply(pins, before, e).Some? {
        StepKeepsTrust(pins, before, e);
      }
    }
  }

  // In every interleaving, at the moment a call of a pinned tool is forwarded there is an accepted page
  // that listed the tool with exactly the pinned digest, and nothing was invalidated since the first
  // request of the scan that page belongs to, followed back from the request it answers cursor by cursor.
  lemma ForwardedOnlyWhileVerified(pins: Pins, events: seq<Event>, i: nat)
    requires i < |Run(pins, events).history|
    requires Run(pins, events).history[i].Forwarded? && Run(pins, events).history[i].tool in pins
    ensures Vouched(pins, Run(pins, events).history[..i], Run(pins, events).history[i].tool)
  {
    RunKeepsTrust(pins, events);
  }

  // In every interleaving the schema check passes exactly for tools that are not pinned and for those
  // a page of a scan that still stands has vouched for.
  lemma VerifiedExact(pins: Pins, events: seq<Event>, tool: string)
    ensures var s := Run(pins, events);
            Verified(pins, s.shared.catalog, tool) <==> (tool in pins ==> Vouched(pins, s.history, tool))
  {
    RunKeepsTrust(pins, events);
  }

  // So a registered call is written upstream exactly in that case.
  lemma ForwardExact(pins: Pins, events: seq<Event>, ok: bool, delivered: bool)
    requires Run(pins, events).client.Registered?
    ensures var s := Run(pins, events); var id, tool := s.client.id, s.client.tool;
            var s' := StepTo(pins, s, Forward(ok, delivered));
            && (if (tool in pins ==> Vouched(pins, s.history, tool)) && (ok || delivered)
                then s'.history == s.history + [Forwarded(id, tool)] && s'.received == s.received + {id}
                else s'.history == s.history && s'.received == s.received)
            && s'.client == (if tool in pins && !Vouched(pins, s.history, tool) then Failing(id, NotVerified)
                             else if ok then Waiting else Failing(id, Unavailable))
            && s'.shared == s.shared && s'.sent == s.sent
  {
    VerifiedExact(pins, events, Run(pins, events).client.tool);
  }

  // An id that is pending or being listed is refused as a duplicate, and a malformed call is refused at
  // once; neither touches the shared state.
  lemma RefusedAtOnce(pins: Pins, s: World, id: string, tool: string, wellFormed: bool, cursor: ListCursor)
    requires s.client.Waiting?
    ensures var taken := id in s.shared.pending || id in s.shared.catalogRequests;
            var called := StepTo(pins, s, ClientCall(id, tool, wellFormed));
            var listed := StepTo(pins, s, ClientList(id, cursor));
            && (taken || !wellFormed ==>
                  called.client == Waiting && called.shared == s.shared && called.history == s.history
                  && called.sent == s.sent + [Sent(id, if taken then Duplicate else PolicyRefusal)])
            && (taken ==> listed.client == Waiting && listed.shared == s.shared && listed.history == s.history
                          && listed.sent == s.sent + [Sent(id, Duplicate)])
            && (!taken ==> listed.client == ForwardingOther(id) && listed.sent == s.sent
                           && listed.history[|listed.history| - 1] == Listed(id, cursor))
  {
  }

  // In every interleaving a well-formed call of a free id that nothing else weighs against gets through to
  // its write, registered with a timer, exactly when its tool is not pinned or vouched for; else it is
  // refused and leaves no trace but the refusal.
  lemma CallGetsThrough(pins: Pins, events: seq<Event>, id: string, tool: string)
    requires Run(pins, events).client.Waiting?
    requires id !in Run(pins, events).shared.pending && id !in Run(pins, events).shared.catalogRequests
    ensures var s := Run(pins, events);
            var decided := StepTo(pins, StepTo(pins, s, ClientCall(id, tool, true)), Decide(true));
            var registered := StepTo(pins, decided, Register);
            if tool in pins ==> Vouched(pins, s.history, tool) then
              && registered.client == Registered(id, tool) && registered.sent == s.sent
              && registered.shared == s.shared.(pending := s.shared.pending + {id})
              && registered.timers == s.timers + {id} && registered.history == s.history
            else
              && decided.client == Waiting && decided.sent == s.sent + [Sent(id, PolicyRefusal)]
              && decided.shared == s.shared && decided.timers == s.timers && decided.history == s.history
  {
    VerifiedExact(pins, events, tool);
  }

  // Where a reply goes: to the check if it answers an open tools/list, else to the client, unless the
  // timer has answered already. Its id leaves all tables.
  lemma ReplyExact(pins: Pins, s: World, key: string, response: Response)
    requires s.reader.Reading? && (key in s.shared.catalogRequests ==> key in s.asked)
    ensures var s' := StepTo(pins, s, UpstreamReply(key, response));
            && s'.reader ==
                 (if key !in s.shared.pending && key in s.shared.expired then Reading
                  else if key in s.shared.catalogRequests
                  then Checking(key, s.shared.catalogRequests[key], response, s.asked[key])
                  else Delivering(key))
            && key !in s'.shared.pending && key !in s'.shared.expired && key !in s'.shared.catalogRequests
            && s'.sent == s.sent && s'.shared.catalog == s.shared.catalog
  {
  }

  lemma FreshScan(pins: Pins, c: Catalog, tools: seq<Tool>)
    requires Clean(pins, map[], tools) && pins != map[]
    requires forall n :: n in pins ==> Tool(n, Some(pins[n])) in tools
    ensures AfterPage(pins, Invalidate(c), Page(tools, NoCursor), Some(c.generation + 1))
            == Catalog(c.generation + 1, pins, map[])
    ensures !Mismatch(pins, Invalidate(c), Page(tools, NoCursor), Some(c.generation + 1))
  {
    PageExact(pins, Invalidate(c), Page(tools, NoCursor), Some(c.generation + 1));
    var c' := AfterPage(pins, Invalidate(c), Page(tools, NoCursor), Some(c.generation + 1));
    assert c'.validated == pins;
  }

  // A scan that nothing disturbs, of one page that lists every pinned tool cleanly, verifies them all and
  // the client gets the page.
  lemma ScanVerifies(pins: Pins, s: World, id: string, tools: seq<Tool>)
    requires s.client.Waiting? && s.reader.Reading? && pins != map[]
    requires id !in s.shared.pending && id !in s.shared.catalogRequests && id !in s.shared.expired
    requires Clean(pins, map[], tools) && forall n :: n in pins ==> Tool(n, Some(pins[n])) in tools
    ensures var asked := StepTo(pins, StepTo(pins, s, ClientList(id, Absent)), ForwardOther);
            var answered := StepTo(pins, asked, UpstreamReply(id, Page(tools, NoCursor)));
            var checked := StepTo(pins, answered, CheckCatalog);
            && checked.shared.catalog == Catalog(s.shared.catalog.generation + 1, pins, map[])
            && checked.sent == s.sent + [Sent(id, Reply)]
            && checked.client == Waiting && checked.reader == Reading
  {
    FreshScan(pins, s.shared.catalog, tools);
  }

  // When upstream ends, every pending call is told so, and the reader finishes with the last of them.
  lemma ShutdownTellsAll(pins: Pins, s: World, key: string)
    requires s.reader.Closing? && key in s.reader.outstanding
    ensures var s' := StepTo(pins, s, CloseOne(key));
            && s'.sent == s.sent + [Sent(key, Shutdown)]
            && s'.reader == if s.reader.outstanding == {key} then Finished
                            else Closing(s.reader.outstanding - {key})
  {
    assert s.reader.outstanding - {key} == {} <==> s.reader.outstanding == {key};
  }

  // The client thread is never stuck: it has a step for the client or one of its own.
  lemma ClientGoesOn(pins: Pins, s: World, id: string)
    ensures match s.client
            case Waiting => Apply(pins, s, ClientOther(id)).Some? && Apply(pins, s, ClientList(id, Absent)).Some?
            case Authorizing(_, _) => Apply(pins, s, Decide(true)).Some? && Apply(pins, s, Decide(false)).Some?
            case Cleared(_, _) => Apply(pins, s, Register).Some?
            case Registered(_, _) =>
              Apply(pins, s, Forward(true, true)).Some? && Apply(pins, s, Forward(false, false)).Some?
            case Failing(_, _) => Apply(pins, s, DropPending).Some?
            case Sending(_, _) => Apply(pins, s, SendFailure).Some?
            case ForwardingOther(_) => Apply(pins, s, ForwardOther).Some?
  {
  }

  // Nor is the reader until it has finished, nor a timer.
  lemma ReaderGoesOn(pins: Pins, s: World, key: string, response: Response)
    ensures match s.reader
            case Reading =>
              && Apply(pins, s, UpstreamReply(key, response)).Some?
              && Apply(pins, s, ListChanged).Some? && Apply(pins, s, UpstreamEnds).Some?
            case Checking(_, _, _, _) => Apply(pins, s, CheckCatalog).Some?
            case Delivering(_) => Apply(pins, s, Deliver).Some?
            case Closing(outstanding) => key in outstanding ==> Apply(pins, s, CloseOne(key)).Some?
            case Finished => true
    ensures key in s.timers ==> Apply(pins, s, TimerFires(key)).Some?
    ensures key in s.firing ==> Apply(pins, s, TimerSends(key)).Some?
  {
  }

  // A page that may extend what the scans that stand have vouched for, by the history alone.
  ghost predicate GoodByHistory(pins: Pins, history: seq<Entry>, response: Response) {
    && response.Page?
    && (forall tool :: tool in response.tools && PinnedName(pins, tool) ==>
          tool.digest == Some(pins[tool.name]) && !Vouched(pins, history, tool.name))
    && Malformed !in response.tools
    && (forall i, j :: 0 <= i < j < |response.tools| && PinnedName(pins, response.tools[j]) ==>
          response.tools[i] != response.tools[j])
    && match response.cursor
       case BadCursor => false
       case Next(token) => token != ""
       case NoCursor => forall n :: n in pins ==> Vouched(pins, history, n) || Tool(n, Some(pins[n])) in response.tools
  }

  predicate PinnedName(pins: Pins, tool: Tool) { tool.Tool? && tool.name in pins }

  ghost predicate CleanTools(pins: Pins, validated: map<string, string>, tools: seq<Tool>) {
    && Malformed !in tools
    && (forall tool :: tool in tools && PinnedName(pins, tool) ==>
          tool.digest == Some(pins[tool.name]) && tool.name !in validated)
    && (forall i, j :: 0 <= i < j < |tools| && PinnedName(pins, tools[j]) ==> tools[i] != tools[j])
  }

  lemma CleanExact(pins: Pins, validated: map<string, string>, tools: seq<Tool>)
    ensures Clean(pins, validated, tools) <==> CleanTools(pins, validated, tools)
  {
    if Clean(pins, validated, tools) {
      forall tool | tool in tools
        ensures tool.Tool? && (PinnedName(pins, tool) ==>
                  tool.digest == Some(pins[tool.name]) && tool.name !in validated)
      {
        var i :| 0 <= i < |tools| && tools[i] == tool;
        assert CleanAt(pins, validated, tools, i);
      }
      forall i, j | 0 <= i < j < |tools| && PinnedName(pins, tools[j]) ensures tools[i] != tools[j] {
        assert CleanAt(pins, validated, tools, j);
      }
    }
    if CleanTools(pins, validated, tools) {
      forall i | 0 <= i < |tools| ensures CleanAt(pins, validated, tools, i) {
        assert tools[i] in tools;
        assert tools[i].name in pins ==> PinnedName(pins, tools[i]);
      }
    }
  }

  // In every interleaving, with tools pinned: the page the reader is about to check is accepted, revokes
  // its scan or is passed over, and which of these depends on the history and the page alone.
  lemma VerdictExact(pins: Pins, events: seq<Event>)
    requires pins != map[] && Run(pins, events).reader.Checking?
    ensures Asks(Run(pins, events).history, Run(pins, events).reader.request, Run(pins, events).reader.key)
    ensures var s := Run(pins, events); var s' := OnCheck(pins, s); var response := s.reader.response;
            var stands, good := Fresh(s.history, s.reader.request), GoodByHistory(pins, s.history, response);
            && s'.history ==
                 (if !stands then s.history
                  else s.history + [if good then PageAccepted(s.reader.request, response.tools, response.cursor)
                                    else Invalidated])
            && s'.sent == s.sent + [Sent(s.reader.key,
                 if stands && (good || response.ErrorResponse?) then Reply else CatalogError)]
            && (!stands ==> s'.shared == s.shared)
  {
    RunKeepsTrust(pins, events);
    var s := Run(pins, events);
    var c, response := s.shared.catalog, s.reader.response;
    assert Tied(c, s.history, s.reader.generation, s.reader.request);
    assert s.history + [] == s.history;
    JudgedExact(pins, c, response);
    if response.Page? {
      CleanExact(pins, c.validated, response.tools);
    }
    assert GoodPage(pins, c.validated, response) <==> GoodByHistory(pins, s.history, response);
  }

  // In every interleaving the validated map holds pinned digests only, and an accepted last page of a
  // scan leaves it equal to the pins.
  lemma CompletedScan(pins: Pins, events: seq<Event>, tools: seq<Tool>)
    requires pins != map[]
    ensures var c := Run(pins, events).shared.catalog;
            var response, scan := Page(tools, NoCursor), Some(c.generation);
            !Mismatch(pins, c, response, scan) ==> AfterPage(pins, c, response, scan).validated == pins
  {
    RunKeepsTrust(pins, events);
    CompletedScanIsPins(pins, Run(pins, events).shared.catalog, tools);
  }
}
