/** mcp_gateway.py: how many answers a forwarded call gets, over all interleavings in which the client
    never reuses an id and upstream answers each message it received at most once. */
module GatewayAnswers {
  import opened Sequences
  import opened McpGateway
  import opened GatewayProtocol

  predicate Disciplined(s: World, e: Event) {
    match e
    case ClientCall(id, _, _) => id !in s.used
    case ClientList(id, _) => id !in s.used
    case ClientOther(id) => id !in s.used
    case UpstreamReply(key, _) => key in s.received && key !in s.replied
    case _ => true
  }

  predicate DisciplinedRun(pins: Pins, events: seq<Event>) {
    events == [] ||
    (var init := events[..|events| - 1];
     DisciplinedRun(pins, init) && Disciplined(Run(pins, init), events[|events| - 1]))
  }

  function Count(sent: seq<Sent>, id: string): nat {
    if sent == [] then 0
    else Count(sent[..|sent| - 1], id) + (if sent[|sent| - 1].id == id then 1 else 0)
  }

  function One(b: bool): nat { if b then 1 else 0 }

  predicate ReaderHolds(s: World, id: string) {
    || (s.reader.Delivering? && s.reader.key == id)
    || (s.reader.Checking? && s.reader.key == id)
    || (s.reader.Closing? && id in s.reader.outstanding)
  }

  // Answers to this id: still owed by the pending table, owed by its timer, in the reader's hands, or sent.
  function Owed(s: World, id: string): nat {
    One(id in s.shared.pending) + One(id in s.firing) + One(ReaderHolds(s, id)) + Count(s.sent, id)
  }

  predicate ClientAt(s: World, id: string) {
    (s.client.Registered? || s.client.Failing? || s.client.Sending?) && s.client.id == id
  }

  // A registered call that the client thread is done with.
  predicate Left(s: World, id: string) { id in s.timers && !ClientAt(s, id) }

  // The forward returned, or it failed while the pending entry was still there and no reply came after.
  predicate AnsweredOnce(s: World, id: string) {
    id in s.forwarded || (id in s.dropped && id !in s.replied)
  }

  // What a registered call comes to, besides an error the client thread is still about to send.
  function Due(s: World, id: string): nat {
    if s.client.Sending? && s.client.id == id then (if id in s.dropped && id !in s.replied then 0 else 1)
    else if ClientAt(s, id) || AnsweredOnce(s, id) then 1
    else 2
  }

  predicate Stopped(s: World) { s.reader.Closing? || s.reader.Finished? }

  ghost predicate Known(s: World) {
    && (forall id :: Owed(s, id) > 0 ==> id in s.used)
    && s.shared.catalogRequests.Keys <= s.used
    && s.received <= s.used && s.timers <= s.used && s.shared.expired <= s.timers
    && s.forwarded <= s.timers && s.replied <= s.received
    && (s.client != Waiting ==> s.client.id in s.used)
  }

  ghost predicate ClientOk(s: World) {
    match s.client
    case Waiting => true
    case Authorizing(id, _) => Untouched(s, id)
    case Cleared(id, _) => Untouched(s, id)
    case Registered(id, _) => id in s.timers && id !in s.received && id !in s.forwarded && id !in s.dropped
    case Failing(id, _) => id in s.timers && id !in s.forwarded && id !in s.dropped
    case Sending(id, _) => id in s.timers && id !in s.forwarded
    case ForwardingOther(id) => id !in s.timers
  }

  // An id only the client thread knows so far.
  ghost predicate Untouched(s: World, id: string) {
    Owed(s, id) == 0 && id !in s.timers && id !in s.received && id !in s.shared.catalogRequests
  }

  ghost predicate Accounted(s: World) {
    && (forall id :: id in s.timers ==> Owed(s, id) == Due(s, id))
    && (forall id :: id in s.shared.pending ==> OpenEntry(s, id))
    && (forall id :: id in s.timers && Answerable(s, id) ==> id in s.shared.expired)
    && (forall id :: id in s.dropped ==> id in s.timers && id !in s.forwarded && id !in s.shared.expired)
    && (forall id :: id in s.timers ==> id !in s.shared.catalogRequests)
  }

  // A pending entry belongs to a forwarded call, or to the one the client thread is at.
  predicate OpenEntry(s: World, id: string) {
    && id in s.timers && id !in s.replied && id !in s.dropped && id !in s.shared.expired
    && (id in s.forwarded || (ClientAt(s, id) && !s.client.Sending?))
  }

  // Popped by its timer, so a reply would be a second answer.
  predicate Answerable(s: World, id: string) {
    id !in s.shared.pending && id !in s.replied && id !in s.dropped && !Stopped(s)
  }

  ghost predicate Inv(s: World) { Known(s) && ClientOk(s) && Accounted(s) }

  lemma CountAppend(sent: seq<Sent>, x: Sent, id: string)
    ensures Count(sent + [x], id) == Count(sent, id) + One(x.id == id)
  {
    assert (sent + [x])[..|sent|] == sent;
  }

  // Sending one message moves one id's count and no other's.
  lemma AnswerCounts(s: World, id: string, kind: Kind)
    ensures forall x :: Count(Answer(s, id, kind).sent, x) == Count(s.sent, x) + One(x == id)
  {
    forall x ensures Count(Answer(s, id, kind).sent, x) == Count(s.sent, x) + One(x == id) {
      CountAppend(s.sent, Sent(id, kind), x);
    }
  }

  lemma ClientStartKeeps(pins: Pins, s: World, e: Event)
    requires Inv(s) && Disciplined(s, e) && Apply(pins, s, e).Some?
    requires e.ClientCall? || e.ClientOther?
    ensures Inv(Apply(pins, s, e).value)
  {
    if e.ClientCall? {
      CallKeeps(s, e.id, e.tool, e.wellFormed);
    } else {
      assert Owed(s, e.id) == 0;
      var s' := Apply(pins, s, e).value;
      forall id ensures Owed(s', id) == Owed(s, id) {
      }
    }
  }

  lemma CallKeeps(s: World, id: string, tool: string, wellFormed: bool)
    requires Inv(s) && s.client.Waiting? && id !in s.used
    ensures Inv(OnCall(s, id, tool, wellFormed))
  {
    assert Owed(s, id) == 0;
    if Taken(s.shared, id) {
      RefusedCallKeeps(s, id, Duplicate);
    } else if !wellFormed {
      RefusedCallKeeps(s, id, PolicyRefusal);
    } else {
      var s' := OnCall(s, id, tool, wellFormed);
      forall x ensures Owed(s', x) == Owed(s, x) {
      }
    }
  }

  lemma RefusedCallKeeps(s: World, id: string, kind: Kind)
    requires Inv(s) && s.client.Waiting? && id !in s.used && Owed(s, id) == 0
    ensures Inv(Answer(s.(used := s.used + {id}), id, kind))
  {
    var s0 := s.(used := s.used + {id});
    AnswerCounts(s0, id, kind);
    forall x ensures Owed(Answer(s0, id, kind), x) == Owed(s, x) + One(x == id) {
    }
  }

  lemma ClientListKeeps(pins: Pins, s: World, e: Event)
    requires Inv(s) && Disciplined(s, e) && Apply(pins, s, e).Some? && e.ClientList?
    ensures Inv(Apply(pins, s, e).value)
  {
    assert Owed(s, e.id) == 0;
    var s' := Apply(pins, s, e).value;
    forall id ensures Owed(s', id) == Owed(s, id) {
    }
  }

  lemma DecideKeeps(pins: Pins, s: World, allowed: bool)
    requires Inv(s) && s.client.Authorizing?
    ensures Inv(OnDecide(pins, s, allowed))
  {
    var id := s.client.id;
    var refused := Answer(s, id, PolicyRefusal).(client := Waiting);
    RefuseKeeps(s, refused);
    var cleared := s.(client := Cleared(id, s.client.tool));
    forall x ensures Owed(cleared, x) == Owed(s, x) && Due(cleared, x) == Due(s, x) {
    }
    assert Inv(cleared);
  }

  lemma RefuseKeeps(s: World, refused: World)
    requires Inv(s) && s.client.Authorizing?
    requires refused == Answer(s, s.client.id, PolicyRefusal).(client := Waiting)
    ensures Inv(refused)
  {
    AnswerCounts(s, s.client.id, PolicyRefusal);
    forall x ensures Owed(refused, x) == Owed(s, x) + One(x == s.client.id) {
    }
    assert s.client.id !in s.forwarded;
  }

  lemma RegisterKeeps(s: World)
    requires Inv(s) && s.client.Cleared?
    ensures Inv(OnRegister(s))
  {
    var s' := OnRegister(s);
    forall id ensures Owed(s', id) == Owed(s, id) + One(id == s.client.id) {
    }
  }

  lemma ForwardKeeps(pins: Pins, s: World, ok: bool, delivered: bool)
    requires Inv(s) && s.client.Registered?
    ensures Inv(OnForward(pins, s, ok, delivered))
  {
    var s' := OnForward(pins, s, ok, delivered);
    forall id ensures Owed(s', id) == Owed(s, id) {
    }
  }

  lemma DropKeeps(s: World)
    requires Inv(s) && s.client.Failing?
    ensures Inv(OnDropPending(s))
  {
    var s', x := OnDropPending(s), s.client.id;
    forall id ensures Owed(s', id) == Owed(s, id) - One(id == x && x in s.shared.pending) {
    }
    forall id | id in s.timers ensures Owed(s', id) == Due(s', id) {
      assert Owed(s, id) == Due(s, id);
    }
  }

  lemma SendFailureKeeps(s: World)
    requires Inv(s) && s.client.Sending?
    ensures Inv(OnSendFailure(s))
  {
    AnswerCounts(s, s.client.id, s.client.kind);
    var s' := OnSendFailure(s);
    forall id ensures Owed(s', id) == Owed(s, id) + One(id == s.client.id) {
    }
    forall id | id in s.timers ensures Owed(s', id) == Due(s', id) {
      assert Owed(s, id) == Due(s, id);
    }
  }

  lemma ReplyKeeps(s: World, key: string, response: Response)
    requires Inv(s) && s.reader.Reading? && key in s.received && key !in s.replied
    ensures Inv(OnReply(s, key, response))
  {
    var s' := OnReply(s, key, response);
    forall id | id != key ensures Owed(s', id) == Owed(s, id) && Due(s', id) == Due(s, id) {
      ReplyFrame(s, key, response, id);
    }
    if key in s.timers {
      ReplyCounts(s, key, response);
    }
    assert s' == s.(shared := s'.shared, replied := s.replied + {key}, asked := s'.asked, reader := s'.reader);
    assert Known(s') && ClientOk(s');
  }

  lemma ReplyFrame(s: World, key: string, response: Response, id: string)
    requires s.reader.Reading? && id != key
    ensures Owed(OnReply(s, key, response), id) == Owed(s, id) && Due(OnReply(s, key, response), id) == Due(s, id)
  {
  }

  // A reply takes over from the pending entry, is swallowed after a timeout, or is one answer more.
  lemma ReplyCounts(s: World, key: string, response: Response)
    requires Inv(s) && s.reader.Reading? && key in s.received && key !in s.replied && key in s.timers
    ensures Owed(OnReply(s, key, response), key) == Owed(s, key) + One(key in s.dropped)
    ensures Due(OnReply(s, key, response), key) == Due(s, key) + One(key in s.dropped)
  {
    assert key !in s.shared.catalogRequests;
    assert Owed(s, key) == Due(s, key);
    assert key in s.shared.pending ==> OpenEntry(s, key);
  }

  lemma CheckKeeps(pins: Pins, s: World)
    requires Inv(s) && s.reader.Checking?
    ensures Inv(OnCheck(pins, s))
  {
    var s' := OnCheck(pins, s);
    AnswerCounts(s, s.reader.key, s'.sent[|s.sent|].kind);
    forall id ensures Owed(s', id) == Owed(s, id) {
    }
  }

  lemma DeliverKeeps(s: World)
    requires Inv(s) && s.reader.Delivering?
    ensures Inv(Answer(s, s.reader.key, Reply).(reader := Reading))
  {
    AnswerCounts(s, s.reader.key, Reply);
    var s' := Answer(s, s.reader.key, Reply).(reader := Reading);
    forall id ensures Owed(s', id) == Owed(s, id) {
    }
  }

  lemma EndKeeps(s: World)
    requires Inv(s) && s.reader.Reading?
    ensures Inv(OnEnd(s))
  {
    var s' := OnEnd(s);
    forall id ensures Owed(s', id) == Owed(s, id) {
    }
  }

  lemma CloseKeeps(s: World, key: string)
    requires Inv(s) && s.reader.Closing? && key in s.reader.outstanding
    ensures Inv(OnClose(s, key))
  {
    AnswerCounts(s, key, Shutdown);
    var s' := OnClose(s, key);
    forall id ensures Owed(s', id) == Owed(s, id) {
      assert id in s.reader.outstanding - {key} <==> id in s.reader.outstanding && id != key;
    }
  }

  lemma FiredKeeps(s: World, key: string)
    requires Inv(s) && key in s.timers
    ensures Inv(OnTimer(s, key))
  {
    var fired := OnTimer(s, key);
    if key in s.shared.pending {
      assert OpenEntry(s, key) && Owed(s, key) == Due(s, key) == 1;
    }
    forall id ensures Owed(fired, id) == Owed(s, id) {
    }
  }

  lemma TimeoutKeeps(s: World, key: string)
    requires Inv(s) && key in s.firing
    ensures Inv(Answer(s, key, Timeout).(firing := s.firing - {key}))
  {
    var answered := Answer(s, key, Timeout).(firing := s.firing - {key});
    forall id ensures Owed(answered, id) == Owed(s, id) {
      TimeoutOwes(s, key, id);
    }
    assert answered == s.(sent := answered.sent, firing := answered.firing);
    assert forall id :: Due(answered, id) == Due(s, id);
  }

  // The timer's answer was owed and is now sent.
  lemma TimeoutOwes(s: World, key: string, id: string)
    requires key in s.firing
    ensures Owed(Answer(s, key, Timeout).(firing := s.firing - {key}), id) == Owed(s, id)
  {
    CountAppend(s.sent, Sent(key, Timeout), id);
  }

  lemma ForwardOtherKeeps(s: World)
    requires Inv(s) && s.client.ForwardingOther?
    ensures Inv(OnForwardOther(s))
  {
    var s' := OnForwardOther(s);
    forall id ensures Owed(s', id) == Owed(s, id) {
    }
  }

  lemma ListChangedKeeps(pins: Pins, s: World)
    requires Inv(s) && s.reader.Reading?
    ensures Inv(Apply(pins, s, ListChanged).value)
  {
    var s' := Apply(pins, s, ListChanged).value;
    forall id ensures Owed(s', id) == Owed(s, id) {
    }
  }

  lemma StepKeepsInv(pins: Pins, s: World, e: Event)
    requires Inv(s) && Disciplined(s, e) && Apply(pins, s, e).Some?
    ensures Inv(Apply(pins, s, e).value)
  {
    match e
    case ClientCall(_, _, _) => ClientStartKeeps(pins, s, e);
    case ClientOther(_) => ClientStartKeeps(pins, s, e);
    case ClientList(_, _) => ClientListKeeps(pins, s, e);
    case Decide(allowed) => DecideKeeps(pins, s, allowed);
    case Register => RegisterKeeps(s);
    case Forward(ok, delivered) => ForwardKeeps(pins, s, ok, delivered);
    case DropPending => DropKeeps(s);
    case SendFailure => SendFailureKeeps(s);
    case ForwardOther => ForwardOtherKeeps(s);
    case ListChanged => ListChangedKeeps(pins, s);
    case UpstreamReply(key, response) => ReplyKeeps(s, key, response);
    case CheckCatalog => CheckKeeps(pins, s);
    case Deliver => DeliverKeeps(s);
    case UpstreamEnds => EndKeeps(s);
    case CloseOne(key) => CloseKeeps(s, key);
    case TimerFires(key) => FiredKeeps(s, key);
    case TimerSends(key) => TimeoutKeeps(s, key);
  }

  lemma {:induction false} RunKeepsInv(pins: Pins, events: seq<Event>)
    requires DisciplinedRun(pins, events)
    ensures Inv(Run(pins, events))
  {
    if events != [] {
      var init := events[..|events| - 1];
      RunKeepsInv(pins, init);
      var before, e := Run(pins, init), events[|events| - 1];
      if Apply(pins, before, e).Some? {
        StepKeepsInv(pins, before, e);
      }
    }
  }

  // Every registered call the client thread is done with has exactly one answer, owed or sent, if and
  // only if its forward returned, or its failure found the pending entry and no reply is processed
  // after that. Otherwise it has exactly two.
  lemma AnswersExact(pins: Pins, events: seq<Event>, id: string)
    requires DisciplinedRun(pins, events) && Left(Run(pins, events), id)
    ensures Owed(Run(pins, events), id) == (if AnsweredOnce(Run(pins, events), id) then 1 else 2)
  {
    RunKeepsInv(pins, events);
  }

  // Whether a thread of the gateway still has this call in hand.
  predicate Settled(s: World, id: string) {
    id !in s.shared.pending && id !in s.firing && !ReaderHolds(s, id)
  }

  // Once nothing is owed any more, that is the number of answers the client was sent.
  lemma SentExact(pins: Pins, events: seq<Event>, id: string)
    requires DisciplinedRun(pins, events) && Left(Run(pins, events), id) && Settled(Run(pins, events), id)
    ensures Count(Run(pins, events).sent, id) == (if AnsweredOnce(Run(pins, events), id) then 1 else 2)
  {
    RunKeepsInv(pins, events);
  }

  // A call whose forward returned normally is owed exactly one answer at every moment of every
  // interleaving: it is in one place only, or sent once. So it never gets two, and is never dropped.
  lemma ExactlyOneAnswerOwed(pins: Pins, events: seq<Event>, id: string)
    requires DisciplinedRun(pins, events) && id in Run(pins, events).forwarded
    ensures Owed(Run(pins, events), id) == 1
    ensures Count(Run(pins, events).sent, id) <= 1
  {
    RunKeepsInv(pins, events);
    assert Left(Run(pins, events), id);
  }

  // Once nothing is owed by the pending table, a timer or the reader, the answer has been sent.
  lemma AnsweredWhenSettled(pins: Pins, events: seq<Event>, id: string)
    requires DisciplinedRun(pins, events) && id in Run(pins, events).forwarded && Settled(Run(pins, events), id)
    ensures Count(Run(pins, events).sent, id) == 1
  {
    ExactlyOneAnswerOwed(pins, events, id);
  }

  const RACE := [ClientCall("1", "t", true), Decide(true), Register, TimerFires("1"), Forward(false, true),
                 DropPending, SendFailure, TimerSends("1")]

  // After the timer has fired on the registered call, before the write raises.
  const MIDWAY := World(Shared({}, {"1"}, Catalog(0, map[], map[]), map[]), Registered("1", "t"), Reading, {"1"}, {"1"},
                        [], [], map[], {"1"}, {}, {}, {}, {})

  lemma RaceBegins()
    ensures DisciplinedRun(map[], RACE[..4]) && Run(map[], RACE[..4]) == MIDWAY
  {
    RunStep(RACE, 0);
    RunStep(RACE, 1);
    RunStep(RACE, 2);
    RunStep(RACE, 3);
    assert RACE[..0] == [];
    assert {"1"} - {"1"} == {};
  }

  // The write raises, the entry is gone, the client is told, and then the timer tells it again.
  lemma RaceEnds() returns (failing: World, dropped: World, refused: World, last: World)
    ensures failing == StepTo(map[], MIDWAY, Forward(false, true))
    ensures dropped == StepTo(map[], failing, DropPending)
    ensures refused == StepTo(map[], dropped, SendFailure)
    ensures last == StepTo(map[], refused, TimerSends("1"))
    ensures last.sent == [Sent("1", Unavailable), Sent("1", Timeout)]
  {
    failing := StepTo(map[], MIDWAY, Forward(false, true));
    assert failing.client == Failing("1", Unavailable) && failing.firing == {"1"} && failing.sent == [];
    dropped := StepTo(map[], failing, DropPending);
    assert dropped.client == Sending("1", Unavailable) && dropped.firing == {"1"} && dropped.sent == [];
    refused := StepTo(map[], dropped, SendFailure);
    assert refused.firing == {"1"} && refused.sent == [] + [Sent("1", Unavailable)];
    last := StepTo(map[], refused, TimerSends("1"));
  }

  // A forward that raises is the exception: if the timer fires first, the client gets two answers.
  lemma RaisedForwardAnswersTwice()
    ensures DisciplinedRun(map[], RACE)
    ensures Run(map[], RACE).sent == [Sent("1", Unavailable), Sent("1", Timeout)]
  {
    var failing, dropped, refused, last := RaceEnds();
    RaceGoesOn(failing, dropped);
    RunOn(RACE, 6, dropped, SendFailure);
    RunOn(RACE, 7, refused, TimerSends("1"));
    assert RACE[..8] == RACE;
  }

  lemma RaceGoesOn(failing: World, dropped: World)
    requires failing == StepTo(map[], MIDWAY, Forward(false, true)) && dropped == StepTo(map[], failing, DropPending)
    ensures DisciplinedRun(map[], RACE[..6]) && Run(map[], RACE[..6]) == dropped
  {
    RaceBegins();
    RunOn(RACE, 4, MIDWAY, Forward(false, true));
    RunOn(RACE, 5, failing, DropPending);
  }

  lemma RunOn(events: seq<Event>, i: nat, s: World, e: Event)
    requires i < |events| && events[i] == e && Disciplined(s, e)
    requires DisciplinedRun(map[], events[..i]) && Run(map[], events[..i]) == s
    ensures DisciplinedRun(map[], events[..i + 1]) && Run(map[], events[..i + 1]) == StepTo(map[], s, e)
  {
    RunStep(events, i);
  }

  lemma RunStep(events: seq<Event>, i: nat)
    requires i < |events|
    ensures Run(map[], events[..i + 1]) == StepTo(map[], Run(map[], events[..i]), events[i])
    ensures DisciplinedRun(map[], events[..i + 1])
            <==> DisciplinedRun(map[], events[..i]) && Disciplined(Run(map[], events[..i]), events[i])
  {
    assert events[..i + 1][..i] == events[..i];
  }
}
