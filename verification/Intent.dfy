/** intent.py: task envelopes and the linked lineage of evaluated actions. A transaction is one atomic
    step; None is a ControlError, and leaves the store as it was. */
module Intent {
  import opened Sequences
  import opened AgentState

  const MAX_TASK_CHARS := 50000
  const MAX_DRIFT := 1000.0

  datatype Config = Config(maxSessions: nat, maxActions: nat, maxRecords: nat)

  datatype Envelope = Envelope(
    sessionId: string, taskHash: string, repository: string, scopes: set<string>, capabilities: set<string>,
    forbidden: set<string>, maxDrift: real, drift: real, policyRevision: string, stopped: bool,
    count: nat, last: Option<string>)

  datatype Evidence =
    | SessionStopped | TaskChanged | RepositoryChanged | PolicyChanged
    | CapabilityOutside | ResourceOutside | CumulativeDrift

  datatype Action = Action(
    actionId: string, parentId: Option<string>, sessionId: string, policyDecision: string,
    evidence: seq<Evidence>, scopeCreep: real, drift: real, allowed: bool)

  datatype State = State(intents: Table<Envelope>, actions: Table<Action>) {
    function Records(): nat { |intents.order| + |actions.order| }
  }

  const EMPTY := State(EmptyTable<Envelope>(), EmptyTable<Action>())

  datatype CreateRequest = CreateRequest(
    sessionId: string, task: string, taskHash: string, repository: string, policyRevision: string,
    scopes: seq<string>, capabilities: set<string>, forbidden: set<string>, maxDrift: real)

  // One proposed action as `describe_action` classifies it.
  datatype EvaluateRequest = EvaluateRequest(
    sessionId: string, taskHash: string, repository: string, policyRevision: string, policyDecision: string,
    classes: set<string>, resources: seq<Resource>, scopeCreep: real)

  function DraftEnvelope(q: CreateRequest): Option<Envelope> {
    if !IsIdentifier(q.sessionId) || q.task == "" || |q.task| > MAX_TASK_CHARS || q.policyRevision == ""
       || !(0.0 <= q.maxDrift <= MAX_DRIFT)
    then None
    else
      var forbidden :- if q.forbidden == {} then Some({}) else Capabilities(q.forbidden);
      var permitted :- Capabilities(q.capabilities);
      if permitted * forbidden != {} then None
      else
        var scopes :- Scopes(q.scopes);
        Some(Envelope(q.sessionId, q.taskHash, q.repository, scopes, permitted, forbidden, q.maxDrift, 0.0,
                      q.policyRevision, false, 0, None))
  }

  function Created(cfg: Config, s: State, q: CreateRequest, oversize: bool): Option<State> {
    var envelope :- DraftEnvelope(q);
    if |s.intents.order| >= cfg.maxSessions || oversize || s.Records() >= cfg.maxRecords then None
    else
      var intents :- s.intents.Insert(q.sessionId, envelope);
      Some(s.(intents := intents))
  }

  // The while loop of `_lineage`: newest record first.
  function Walk(cfg: Config, s: State, session: string, tip: Option<string>, seen: set<string>, records: seq<Action>)
    : Option<seq<Action>>
    decreases cfg.maxActions - |records|
  {
    match tip
    case None => Some(records)
    case Some(id) =>
      if id in seen || |records| >= cfg.maxActions || id !in s.actions.rows then None
      else
        var record := s.actions.rows[id];
        if record.sessionId != session || record.actionId != id then None
        else Walk(cfg, s, session, record.parentId, seen + {id}, records + [record])
  }

  function Reverse<T>(s: seq<T>): seq<T> { if s == [] then [] else Reverse(s[1..]) + [s[0]] }

  function LineageOf(cfg: Config, s: State, envelope: Envelope): Option<seq<Action>> {
    var records :- Walk(cfg, s, envelope.sessionId, envelope.last, {}, []);
    if |records| != envelope.count then None else Some(Reverse(records))
  }

  function Note(evidence: seq<Evidence>, wrong: bool, item: Evidence): seq<Evidence> {
    if wrong then evidence + [item] else evidence
  }

  function EvidenceOf(e: Envelope, q: EvaluateRequest): seq<Evidence> {
    var stopped := Note([], e.stopped, SessionStopped);
    var task := Note(stopped, q.taskHash != e.taskHash, TaskChanged);
    var repository := Note(task, q.repository != e.repository, RepositoryChanged);
    var policy := Note(repository, q.policyRevision != e.policyRevision, PolicyChanged);
    var capability := Note(policy, !(q.classes <= e.capabilities) || q.classes * e.forbidden != {}, CapabilityOutside);
    var resource := Note(capability, !ResourcesWithin(q.resources, e.scopes), ResourceOutside);
    Note(resource, e.drift + q.scopeCreep > e.maxDrift, CumulativeDrift)
  }

  // No evidence exactly when the action stays inside the envelope on every count.
  predicate InsideEnvelope(e: Envelope, q: EvaluateRequest) {
    && !e.stopped
    && q.taskHash == e.taskHash && q.repository == e.repository && q.policyRevision == e.policyRevision
    && q.classes <= e.capabilities && q.classes * e.forbidden == {}
    && ResourcesWithin(q.resources, e.scopes)
    && e.drift + q.scopeCreep <= e.maxDrift
  }

  function RecordOf(e: Envelope, q: EvaluateRequest, actionId: Uuid): Action {
    var evidence := EvidenceOf(e, q);
    Action(actionId, e.last, q.sessionId, q.policyDecision, evidence, q.scopeCreep, e.drift + q.scopeCreep,
        evidence == [])
  }

  function Evaluated(cfg: Config, s: State, q: EvaluateRequest, actionId: Uuid, oversize: bool): Option<State> {
    if !IsIdentifier(q.sessionId) || !(0.0 <= q.scopeCreep <= 1.0) || q.sessionId !in s.intents.rows then None
    else
      var e := s.intents.rows[q.sessionId];
      var lineage :- LineageOf(cfg, s, e);
      if e.count >= cfg.maxActions || oversize || s.Records() >= cfg.maxRecords then None
      else
        var actions :- s.actions.Insert(actionId, RecordOf(e, q, actionId));
        var intents :- s.intents.Update(q.sessionId,
          e.(last := Some(actionId), count := e.count + 1, drift := e.drift + q.scopeCreep));
        Some(State(intents, actions))
  }

  function Stopped(s: State, session: string, oversize: bool): Option<State> {
    if !IsIdentifier(session) || session !in s.intents.rows || oversize then None
    else
      var intents :- s.intents.Update(session, s.intents.rows[session].(stopped := true));
      Some(s.(intents := intents))
  }

  class IntentStore {
    const config: Config
    var intents: Table<Envelope>
    var actions: Table<Action>

    function Snapshot(): State
      reads this
    {
      State(intents, actions)
    }

    constructor (config: Config)
      ensures Snapshot() == EMPTY && this.config == config
    {
      this.config := config;
      intents := EmptyTable<Envelope>();
      actions := EmptyTable<Action>();
    }

    method Create(q: CreateRequest, oversize: bool) returns (ok: bool)
      modifies this
      ensures var after := Created(config, old(Snapshot()), q, oversize);
              ok == after.Some? && Snapshot() == (if after.Some? then after.value else old(Snapshot()))
    {
      var envelope := DraftEnvelope(q);
      if envelope.None? || |intents.order| >= config.maxSessions {
        return false;
      }
      if oversize || |intents.order| + |actions.order| >= config.maxRecords || q.sessionId in intents.rows {
        return false;
      }
      intents := Table(intents.rows[q.sessionId := envelope.value], intents.order + [q.sessionId]);
      return true;
    }

    method Lineage(envelope: Envelope) returns (r: Option<seq<Action>>)
      ensures r == LineageOf(config, Snapshot(), envelope)
    {
      var records: seq<Action> := [];
      var tip := envelope.last;
      var seen: set<string> := {};
      while tip.Some?
        invariant Walk(config, Snapshot(), envelope.sessionId, tip, seen, records)
                  == Walk(config, Snapshot(), envelope.sessionId, envelope.last, {}, [])
        invariant |records| <= config.maxActions
        decreases config.maxActions - |records|, tip.Some?
      {
        var id := tip.value;
        if id in seen || |records| >= config.maxActions {
          return None;
        }
        seen := seen + {id};
        if id !in actions.rows {
          return None;
        }
        var record := actions.rows[id];
        if record.sessionId != envelope.sessionId || record.actionId != id {
          return None;
        }
        records := records + [record];
        tip := record.parentId;
      }
      if |records| != envelope.count {
        return None;
      }
      return Some(Reverse(records));
    }

    method Evaluate(q: EvaluateRequest, actionId: Uuid, oversize: bool) returns (r: Option<Action>)
      modifies this
      ensures var after := Evaluated(config, old(Snapshot()), q, actionId, oversize);
              && Snapshot() == (if after.Some? then after.value else old(Snapshot()))
              && r == (if after.Some? then Some(after.value.actions.rows[actionId]) else None)
    {
      if !IsIdentifier(q.sessionId) || !(0.0 <= q.scopeCreep <= 1.0) || q.sessionId !in intents.rows {
        return None;
      }
      var envelope := intents.rows[q.sessionId];
      var lineage := Lineage(envelope);
      if lineage.None? || envelope.count >= config.maxActions {
        return None;
      }
      var evidence := Collect(envelope, q);
      var drift := envelope.drift + q.scopeCreep;
      var record := Action(actionId, envelope.last, q.sessionId, q.policyDecision, evidence, q.scopeCreep, drift,
          evidence == []);
      if oversize || |intents.order| + |actions.order| >= config.maxRecords || actionId in actions.rows {
        return None;
      }
      actions := Table(actions.rows[actionId := record], actions.order + [actionId]);
      intents := Table(
        intents.rows[q.sessionId := envelope.(last := Some(actionId), count := envelope.count + 1, drift := drift)],
        intents.order);
      return Some(record);
    }

    // The evidence list, appended to check by check.
    method Collect(envelope: Envelope, q: EvaluateRequest) returns (evidence: seq<Evidence>)
      ensures evidence == EvidenceOf(envelope, q)
    {
      evidence := [];
      if envelope.stopped {
        evidence := evidence + [SessionStopped];
      }
      if q.taskHash != envelope.taskHash {
        evidence := evidence + [TaskChanged];
      }
      if q.repository != envelope.repository {
        evidence := evidence + [RepositoryChanged];
      }
      if q.policyRevision != envelope.policyRevision {
        evidence := evidence + [PolicyChanged];
      }
      if !(q.classes <= envelope.capabilities) || q.classes * envelope.forbidden != {} {
        evidence := evidence + [CapabilityOutside];
      }
      var within := CheckResources(q.resources, envelope.scopes);
      if !within {
        evidence := evidence + [ResourceOutside];
      }
      if envelope.drift + q.scopeCreep > envelope.maxDrift {
        evidence := evidence + [CumulativeDrift];
      }
    }

    method Stop(session: string, oversize: bool) returns (ok: bool)
      modifies this
      ensures var after := Stopped(old(Snapshot()), session, oversize);
              ok == after.Some? && Snapshot() == (if after.Some? then after.value else old(Snapshot()))
    {
      if !IsIdentifier(session) || session !in intents.rows || oversize {
        return false;
      }
      intents := Table(intents.rows[session := intents.rows[session].(stopped := true)], intents.order);
      return true;
    }
  }
}

/** intent.py: what holds in every store that any run of create, evaluate and stop steps can reach. */
module IntentHistory {
  import opened Sequences
  import opened AgentState
  import opened Intent

  datatype Op =
    | CreateOp(create: CreateRequest, oversize: bool)
    | EvaluateOp(action: EvaluateRequest, actionId: Uuid, oversize: bool)
    | StopOp(session: string, oversize: bool)

  function Attempt(cfg: Config, s: State, op: Op): Option<State> {
    match op
    case CreateOp(q, oversize) => Created(cfg, s, q, oversize)
    case EvaluateOp(q, actionId, oversize) => Evaluated(cfg, s, q, actionId, oversize)
    case StopOp(session, oversize) => Stopped(s, session, oversize)
  }

  function Step(cfg: Config, s: State, op: Op): State {
    var after := Attempt(cfg, s, op);
    if after.Some? then after.value else s
  }

  function Run(cfg: Config, ops: seq<Op>): State {
    if ops == [] then EMPTY else Step(cfg, Run(cfg, ops[..|ops| - 1]), ops[|ops| - 1])
  }

  // The reference: the session's records in the order they were inserted.
  function Own(rows: map<string, Action>, order: seq<string>, session: string): seq<Action> {
    if order == [] then []
    else
      var rest := Own(rows, order[..|order| - 1], session);
      var id := order[|order| - 1];
      if id in rows && rows[id].sessionId == session then rest + [rows[id]] else rest
  }

  function OwnOf(s: State, session: string): seq<Action> { Own(s.actions.rows, s.actions.order, session) }

  function Creep(records: seq<Action>): real {
    if records == [] then 0.0 else Creep(records[..|records| - 1]) + records[|records| - 1].scopeCreep
  }

  // Each record points at the one before it and carries the sum of scope creep up to itself.
  ghost predicate ThreadedAt(records: seq<Action>, i: nat)
    requires i < |records|
  {
    && records[i].parentId == (if i == 0 then None else Some(records[i - 1].actionId))
    && records[i].drift == Creep(records[..i + 1])
    && records[i].scopeCreep >= 0.0
  }

  ghost predicate Threaded(records: seq<Action>) {
    forall i :: 0 <= i < |records| ==> ThreadedAt(records, i)
  }

  ghost predicate SessionOk(cfg: Config, s: State, session: string)
    requires session in s.intents.rows
  {
    var e, own := s.intents.rows[session], OwnOf(s, session);
    && e.sessionId == session
    && e.count == |own| <= cfg.maxActions
    && e.last == (if own == [] then None else Some(own[|own| - 1].actionId))
    && e.drift == Creep(own)
    && Threaded(own)
    && forall r :: r in own && r.allowed ==> r.drift <= e.maxDrift
  }

  ghost predicate Inv(cfg: Config, s: State) {
    && s.intents.Valid() && s.actions.Valid()
    && (forall session :: session in s.intents.rows ==> SessionOk(cfg, s, session))
    && (forall id :: id in s.actions.rows ==>
          s.actions.rows[id].actionId == id && s.actions.rows[id].sessionId in s.intents.rows)
  }

  // ----- Facts about the reference -----

  lemma {:induction false} OwnMembers(rows: map<string, Action>, order: seq<string>, session: string)
    requires forall id :: id in rows ==> rows[id].actionId == id
    ensures forall r :: r in Own(rows, order, session) ==>
              r.actionId in order && r.actionId in rows && rows[r.actionId] == r && r.sessionId == session
  {
    if order != [] {
      OwnMembers(rows, order[..|order| - 1], session);
    }
  }

  lemma {:induction false} OwnDistinct(rows: map<string, Action>, order: seq<string>, session: string)
    requires Distinct(order) && forall id :: id in rows ==> rows[id].actionId == id
    ensures forall i, j :: 0 <= i < j < |Own(rows, order, session)| ==>
              Own(rows, order, session)[i].actionId != Own(rows, order, session)[j].actionId
  {
    if order != [] {
      var rest := order[..|order| - 1];
      OwnDistinct(rows, rest, session);
      OwnMembers(rows, rest, session);
      var own := Own(rows, rest, session);
      forall i | 0 <= i < |own| ensures own[i].actionId != order[|order| - 1] {
        assert own[i] in own;
      }
    }
  }

  // A record inserted later changes no earlier part of the reference.
  lemma {:induction false} OwnFrame(rows: map<string, Action>, order: seq<string>, id: string, record: Action,
      session: string)
    requires id !in order
    ensures Own(rows[id := record], order, session) == Own(rows, order, session)
  {
    if order != [] {
      OwnFrame(rows, order[..|order| - 1], id, record, session);
    }
  }

  lemma OwnInsert(s: State, id: string, record: Action, session: string)
    requires s.actions.Valid() && id !in s.actions.rows
    ensures Own(s.actions.rows[id := record], s.actions.order + [id], session)
            == OwnOf(s, session) + (if record.sessionId == session then [record] else [])
  {
    OwnFrame(s.actions.rows, s.actions.order, id, record, session);
    var longer := s.actions.order + [id];
    assert longer[..|longer| - 1] == s.actions.order;
  }

  lemma CreepAppend(records: seq<Action>, r: Action)
    ensures Creep(records + [r]) == Creep(records) + r.scopeCreep
  {
    assert (records + [r])[..|records|] == records;
  }

  lemma ThreadedAgree(a: seq<Action>, b: seq<Action>, i: nat)
    requires i < |a| && i < |b| && a[..i + 1] == b[..i + 1]
    ensures ThreadedAt(a, i) <==> ThreadedAt(b, i)
  {
    assert a[i] == a[..i + 1][i] && b[i] == b[..i + 1][i];
    if i > 0 {
      assert a[i - 1] == a[..i + 1][i - 1] && b[i - 1] == b[..i + 1][i - 1];
    }
  }

  lemma ThreadedPrefix(records: seq<Action>, n: nat)
    requires n <= |records| && Threaded(records)
    ensures Threaded(records[..n])
  {
    forall i | 0 <= i < n ensures ThreadedAt(records[..n], i) {
      assert records[..n][..i + 1] == records[..i + 1];
      ThreadedAgree(records, records[..n], i);
    }
  }

  lemma ThreadedAppend(records: seq<Action>, r: Action)
    requires Threaded(records) && r.scopeCreep >= 0.0
    requires r.parentId == (if records == [] then None else Some(records[|records| - 1].actionId))
    requires r.drift == Creep(records) + r.scopeCreep
    ensures Threaded(records + [r])
  {
    var longer := records + [r];
    CreepAppend(records, r);
    assert longer[..|longer|] == longer;
    assert ThreadedAt(longer, |records|);
    forall i | 0 <= i < |records| ensures ThreadedAt(longer, i) {
      assert longer[..i + 1] == records[..i + 1];
      ThreadedAgree(records, longer, i);
    }
  }

  // ----- The walk returns the reference -----

  lemma {:induction false} WalkExact(cfg: Config, s: State, own: seq<Action>, session: string, seen: set<string>,
      records: seq<Action>)
    requires Threaded(own) && |records| + |own| <= cfg.maxActions
    requires forall r :: r in own ==>
               r.actionId in s.actions.rows && s.actions.rows[r.actionId] == r && r.sessionId == session
    requires forall r :: r in own ==> r.actionId !in seen
    requires forall i, j :: 0 <= i < j < |own| ==> own[i].actionId != own[j].actionId
    ensures Walk(cfg, s, session, if own == [] then None else Some(own[|own| - 1].actionId), seen, records)
            == Some(records + Reverse(own))
    decreases |own|
  {
    if own == [] {
      assert records + [] == records;
    } else {
      var rest, last := own[..|own| - 1], own[|own| - 1];
      assert last in own;
      assert ThreadedAt(own, |own| - 1);
      ThreadedPrefix(own, |own| - 1);
      WalkExact(cfg, s, rest, session, seen + {last.actionId}, records + [last]);
      ReverseLast(own);
      assert (records + [last]) + Reverse(rest) == records + Reverse(own);
    }
  }

  lemma {:induction false} ReverseLast<T>(s: seq<T>)
    requires s != []
    ensures Reverse(s) == [s[|s| - 1]] + Reverse(s[..|s| - 1])
  {
    if |s| > 1 {
      ReverseLast(s[1..]);
      assert s[1..][..|s| - 2] == s[..|s| - 1][1..];
    }
  }

  lemma {:induction false} ReverseTwice<T>(s: seq<T>)
    ensures Reverse(Reverse(s)) == s && |Reverse(s)| == |s|
  {
    if s != [] {
      ReverseTwice(s[..|s| - 1]);
      ReverseLast(s);
      var r := Reverse(s[..|s| - 1]);
      assert ([s[|s| - 1]] + r)[1..] == r;
    }
  }

  lemma LineageInInvariant(cfg: Config, s: State, session: string)
    requires Inv(cfg, s) && session in s.intents.rows
    ensures LineageOf(cfg, s, s.intents.rows[session]) == Some(OwnOf(s, session))
  {
    var own := OwnOf(s, session);
    assert SessionOk(cfg, s, session);
    OwnMembers(s.actions.rows, s.actions.order, session);
    OwnDistinct(s.actions.rows, s.actions.order, session);
    WalkExact(cfg, s, own, session, {}, []);
    assert [] + Reverse(own) == Reverse(own);
    ReverseTwice(own);
  }

  // ----- The invariant is inductive -----

  // What an accepted evaluation changes.
  ghost predicate Acts(cfg: Config, s: State, s': State, q: EvaluateRequest, actionId: Uuid) {
    && q.sessionId in s.intents.rows && q.scopeCreep >= 0.0 && actionId !in s.actions.rows
    && var e := s.intents.rows[q.sessionId];
       && e.count < cfg.maxActions
       && s'.intents == Table(s.intents.rows[q.sessionId :=
            e.(last := Some(actionId), count := e.count + 1, drift := e.drift + q.scopeCreep)], s.intents.order)
       && s'.actions == Table(s.actions.rows[actionId := RecordOf(e, q, actionId)], s.actions.order + [actionId])
  }

  lemma EvaluateActs(cfg: Config, s: State, q: EvaluateRequest, actionId: Uuid, oversize: bool)
    requires Evaluated(cfg, s, q, actionId, oversize).Some?
    ensures Acts(cfg, s, Evaluated(cfg, s, q, actionId, oversize).value, q, actionId)
  {
  }

  lemma ActingSessionOk(cfg: Config, s: State, s': State, q: EvaluateRequest, actionId: Uuid)
    requires Inv(cfg, s) && Acts(cfg, s, s', q, actionId)
    ensures SessionOk(cfg, s', q.sessionId)
  {
    var e, own := s.intents.rows[q.sessionId], OwnOf(s, q.sessionId);
    var record := RecordOf(e, q, actionId);
    assert SessionOk(cfg, s, q.sessionId);
    OwnInsert(s, actionId, record, q.sessionId);
    ThreadedAppend(own, record);
    CreepAppend(own, record);
    AllowedExact(e, q, actionId);
  }

  lemma OtherSessionOk(cfg: Config, s: State, s': State, q: EvaluateRequest, actionId: Uuid, session: string)
    requires Inv(cfg, s) && Acts(cfg, s, s', q, actionId)
    requires session in s'.intents.rows && session != q.sessionId
    ensures SessionOk(cfg, s', session)
  {
    assert SessionOk(cfg, s, session);
    OwnInsert(s, actionId, RecordOf(s.intents.rows[q.sessionId], q, actionId), session);
    assert OwnOf(s, session) + [] == OwnOf(s, session);
  }

  lemma ActsKeepsInv(cfg: Config, s: State, s': State, q: EvaluateRequest, actionId: Uuid)
    requires Inv(cfg, s) && Acts(cfg, s, s', q, actionId)
    ensures Inv(cfg, s')
  {
    InsertValid(s.actions, actionId, RecordOf(s.intents.rows[q.sessionId], q, actionId));
    forall session | session in s'.intents.rows ensures SessionOk(cfg, s', session) {
      if session == q.sessionId {
        ActingSessionOk(cfg, s, s', q, actionId);
      } else {
        OtherSessionOk(cfg, s, s', q, actionId, session);
      }
    }
  }

  lemma EvaluateKeepsInv(cfg: Config, s: State, op: Op)
    requires Inv(cfg, s) && op.EvaluateOp? && Attempt(cfg, s, op).Some?
    ensures Inv(cfg, Attempt(cfg, s, op).value)
  {
    EvaluateActs(cfg, s, op.action, op.actionId, op.oversize);
    ActsKeepsInv(cfg, s, Attempt(cfg, s, op).value, op.action, op.actionId);
  }

  // An action is allowed exactly when it stays inside its envelope.
  lemma AllowedExact(e: Envelope, q: EvaluateRequest, actionId: Uuid)
    ensures RecordOf(e, q, actionId).allowed <==> InsideEnvelope(e, q)
  {
  }

  lemma CreateKeepsInv(cfg: Config, s: State, op: Op)
    requires Inv(cfg, s) && op.CreateOp? && Attempt(cfg, s, op).Some?
    ensures Inv(cfg, Attempt(cfg, s, op).value)
  {
    var s' := Attempt(cfg, s, op).value;
    var session := op.create.sessionId;
    InsertValid(s.intents, session, DraftEnvelope(op.create).value);
    NoOrphans(cfg, s, session);
    forall x | x in s'.intents.rows ensures SessionOk(cfg, s', x) {
      if x in s.intents.rows {
        assert SessionOk(cfg, s, x);
      }
    }
  }

  lemma NoOrphans(cfg: Config, s: State, session: string)
    requires Inv(cfg, s) && session !in s.intents.rows
    ensures OwnOf(s, session) == []
  {
    var own := OwnOf(s, session);
    if own != [] {
      assert own[0] in own;
      OwnMembers(s.actions.rows, s.actions.order, session);
    }
  }

  lemma StopKeepsInv(cfg: Config, s: State, op: Op)
    requires Inv(cfg, s) && op.StopOp? && Attempt(cfg, s, op).Some?
    ensures Inv(cfg, Attempt(cfg, s, op).value)
  {
    var s' := Attempt(cfg, s, op).value;
    forall session | session in s'.intents.rows ensures SessionOk(cfg, s', session) {
      assert SessionOk(cfg, s, session);
    }
  }

  lemma {:induction false} RunKeepsInv(cfg: Config, ops: seq<Op>)
    ensures Inv(cfg, Run(cfg, ops))
  {
    if ops != [] {
      var s, op := Run(cfg, ops[..|ops| - 1]), ops[|ops| - 1];
      RunKeepsInv(cfg, ops[..|ops| - 1]);
      if Attempt(cfg, s, op).Some? {
        match op
        case CreateOp(_, _) => CreateKeepsInv(cfg, s, op);
        case EvaluateOp(_, _, _) => EvaluateKeepsInv(cfg, s, op);
        case StopOp(_, _) => StopKeepsInv(cfg, s, op);
      }
    }
  }

  // ----- Main results -----

  // In every reachable store `_lineage` succeeds for every session and returns exactly that session's
  // records in creation order; the envelope's count, tip and drift are those of its lineage, and every
  // record's drift is the sum of scope creep up to it.
  lemma LineageExact(cfg: Config, ops: seq<Op>, session: string)
    requires session in Run(cfg, ops).intents.rows
    ensures var s := Run(cfg, ops); var e, own := s.intents.rows[session], OwnOf(s, session);
            && LineageOf(cfg, s, e) == Some(own)
            && e.count == |own| && e.drift == Creep(own)
            && e.last == (if own == [] then None else Some(own[|own| - 1].actionId))
            && (forall i :: 0 <= i < |own| ==> own[i].drift == Creep(own[..i + 1]))
  {
    RunKeepsInv(cfg, ops);
    var s := Run(cfg, ops);
    LineageInInvariant(cfg, s, session);
    SessionFacts(cfg, s, session);
  }

  lemma SessionFacts(cfg: Config, s: State, session: string)
    requires Inv(cfg, s) && session in s.intents.rows
    ensures var e, own := s.intents.rows[session], OwnOf(s, session);
            && e.count == |own| && e.drift == Creep(own)
            && e.last == (if own == [] then None else Some(own[|own| - 1].actionId))
            && (forall i :: 0 <= i < |own| ==> own[i].drift == Creep(own[..i + 1]))
  {
    assert SessionOk(cfg, s, session);
    var own := OwnOf(s, session);
    forall i | 0 <= i < |own| ensures own[i].drift == Creep(own[..i + 1]) {
      assert ThreadedAt(own, i);
    }
  }

  // ----- `_lineage` on a store that may have been tampered with -----

  ghost predicate IsRecord(s: State, session: string, r: Action) {
    r.actionId in s.actions.rows && s.actions.rows[r.actionId] == r && r.sessionId == session
  }

  // Distinct records of the session, newest first, each pointing at the next.
  ghost predicate IsTrail(s: State, session: string, trail: seq<Action>) {
    && (forall i :: 0 <= i < |trail| ==> IsRecord(s, session, trail[i]))
    && (forall i, j :: 0 <= i < j < |trail| ==> trail[i].actionId != trail[j].actionId)
    && (forall i :: 0 <= i < |trail| - 1 ==> trail[i].parentId == Some(trail[i + 1].actionId))
  }

  function NextOf(trail: seq<Action>, tip: Option<string>): Option<string> {
    if trail == [] then tip else trail[|trail| - 1].parentId
  }

  ghost predicate StartsAt(trail: seq<Action>, tip: Option<string>) {
    trail != [] ==> tip == Some(trail[0].actionId)
  }

  lemma {:induction false} WalkSound(cfg: Config, s: State, session: string, tip: Option<string>, seen: set<string>,
                                     trail: seq<Action>)
    requires IsTrail(s, session, trail) && StartsAt(trail, tip) && |trail| <= cfg.maxActions
    requires forall r :: r in trail ==> r.actionId in seen
    requires Walk(cfg, s, session, NextOf(trail, tip), seen, trail).Some?
    ensures var whole := Walk(cfg, s, session, NextOf(trail, tip), seen, trail).value;
            && IsTrail(s, session, whole) && StartsAt(whole, tip) && NextOf(whole, tip) == None
            && |whole| <= cfg.maxActions
    decreases cfg.maxActions - |trail|
  {
    if NextOf(trail, tip).Some? {
      var next := NextOf(trail, tip).value;
      var record := s.actions.rows[next];
      var longer := trail + [record];
      forall i | 0 <= i < |trail| ensures longer[i].actionId != next {
        assert trail[i] in trail;
      }
      WalkSound(cfg, s, session, tip, seen + {next}, longer);
    }
  }

  lemma {:induction false} WalkComplete(cfg: Config, s: State, session: string, tip: Option<string>,
                                        whole: seq<Action>, k: nat, seen: set<string>)
    requires IsTrail(s, session, whole) && StartsAt(whole, tip) && NextOf(whole, tip) == None
    requires |whole| <= cfg.maxActions && k <= |whole|
    requires forall i :: k <= i < |whole| ==> whole[i].actionId !in seen
    ensures Walk(cfg, s, session, NextOf(whole[..k], tip), seen, whole[..k]) == Some(whole)
    decreases |whole| - k
  {
    if k == |whole| {
      assert whole[..k] == whole;
    } else {
      assert IsRecord(s, session, whole[k]);
      assert whole[..k + 1] == whole[..k] + [whole[k]];
      assert k > 0 ==> whole[k - 1].parentId == Some(whole[k].actionId);
      WalkComplete(cfg, s, session, tip, whole, k + 1, seen + {whole[k].actionId});
    }
  }

  // In any store at all `_lineage` returns exactly the trail of distinct records of the session from the
  // tip to one without a parent, oldest first, if it has as many as the envelope counts and no more than
  // the maximum; otherwise it refuses.
  lemma LineageAnywhere(cfg: Config, s: State, e: Envelope, own: seq<Action>)
    ensures LineageOf(cfg, s, e) == Some(own) <==>
              && IsTrail(s, e.sessionId, Reverse(own)) && StartsAt(Reverse(own), e.last)
              && NextOf(Reverse(own), e.last) == None && |own| == e.count <= cfg.maxActions
  {
    ReverseTwice(own);
    var walked := Walk(cfg, s, e.sessionId, e.last, {}, []);
    if LineageOf(cfg, s, e) == Some(own) {
      WalkSound(cfg, s, e.sessionId, e.last, {}, []);
      ReverseTwice(walked.value);
    }
    var trail := Reverse(own);
    if IsTrail(s, e.sessionId, trail) && StartsAt(trail, e.last) && NextOf(trail, e.last) == None
       && |own| == e.count <= cfg.maxActions
    {
      WalkComplete(cfg, s, e.sessionId, e.last, trail, 0, {});
    }
  }

  // ----- What is accepted, and what it changes -----

  // In every store a session can be opened exactly with a well-formed request on an unused id while
  // there is room; its envelope then holds what was asked for.
  lemma CreateExact(cfg: Config, s: State, q: CreateRequest, oversize: bool)
    ensures Created(cfg, s, q, oversize).Some? <==>
              && IsIdentifier(q.sessionId) && q.sessionId !in s.intents.rows
              && 1 <= |q.task| <= MAX_TASK_CHARS && q.policyRevision != "" && 0.0 <= q.maxDrift <= MAX_DRIFT
              && 1 <= |q.scopes| <= MAX_SCOPES && (forall v :: v in q.scopes ==> IsScope(v))
              && q.capabilities != {} && q.capabilities <= CAPABILITIES && q.forbidden <= CAPABILITIES
              && q.capabilities !! q.forbidden
              && |s.intents.order| < cfg.maxSessions && |s.intents.order| + |s.actions.order| < cfg.maxRecords
              && !oversize
    ensures Created(cfg, s, q, oversize).Some? ==> Opens(s, Created(cfg, s, q, oversize).value, q)
  {
    ScopesGiven(q.scopes);
    NothingSharedExact(q.capabilities, q.forbidden);
  }

  ghost predicate Opens(s: State, s': State, q: CreateRequest) {
    && q.sessionId in s'.intents.rows && s'.actions == s.actions
    && var e := s'.intents.rows[q.sessionId];
       && s'.intents == Table(s.intents.rows[q.sessionId := e], s.intents.order + [q.sessionId])
       && e.sessionId == q.sessionId && e.taskHash == q.taskHash && e.repository == q.repository
       && e.policyRevision == q.policyRevision && e.capabilities == q.capabilities && e.forbidden == q.forbidden
       && (forall x :: x in e.scopes <==> exists v :: v in q.scopes && IsScope(v) && x == AsPosix(ParsePath(v)))
       && e.maxDrift == q.maxDrift && e.drift == 0.0 && e.count == 0 && e.last == None && !e.stopped
  }

  const ALL_EVIDENCE := [SessionStopped, TaskChanged, RepositoryChanged, PolicyChanged, CapabilityOutside,
                         ResourceOutside, CumulativeDrift]

  // What each kind of evidence says.
  predicate Caused(e: Envelope, q: EvaluateRequest, item: Evidence) {
    match item
    case SessionStopped => e.stopped
    case TaskChanged => q.taskHash != e.taskHash
    case RepositoryChanged => q.repository != e.repository
    case PolicyChanged => q.policyRevision != e.policyRevision
    case CapabilityOutside => exists c :: c in q.classes && (c !in e.capabilities || c in e.forbidden)
    case ResourceOutside => !ResourcesWithin(q.resources, e.scopes)
    case CumulativeDrift => e.drift + q.scopeCreep > e.maxDrift
  }

  function CauseOf(e: Envelope, q: EvaluateRequest): Evidence -> bool { item => Caused(e, q, item) }

  lemma {:induction false} FilterLast<T>(s: seq<T>, keep: T -> bool)
    requires s != []
    ensures var n := |s| - 1; Filter(s, keep) == Filter(s[..n], keep) + (if keep(s[n]) then [s[n]] else [])
  {
    var n := |s| - 1;
    assert s == s[..n] + [s[n]];
    FilterAppend(s[..n], [s[n]], keep);
    assert Filter([s[n]], keep) == if keep(s[n]) then [s[n]] else [];
  }

  // One more kind of evidence, noted when caused.
  lemma NoteNext(all: seq<Evidence>, evidence: seq<Evidence>, e: Envelope, q: EvaluateRequest, i: nat, wrong: bool)
    requires i < |all| && wrong == Caused(e, q, all[i])
    requires evidence == Filter(all[..i], CauseOf(e, q))
    ensures Note(evidence, wrong, all[i]) == Filter(all[..i + 1], CauseOf(e, q))
  {
    var more := all[..i + 1];
    assert more[..i] == all[..i] && more[i] == all[i];
    FilterLast(more, CauseOf(e, q));
    assert evidence + [] == evidence;
  }

  lemma CapabilityCause(e: Envelope, q: EvaluateRequest)
    ensures !(q.classes <= e.capabilities) || q.classes * e.forbidden != {} <==> Caused(e, q, CapabilityOutside)
  {
    NothingSharedExact(q.classes, e.forbidden);
  }

  predicate IsAll(all: seq<Evidence>) {
    && |all| == 7 && all[0] == SessionStopped && all[1] == TaskChanged && all[2] == RepositoryChanged
    && all[3] == PolicyChanged && all[4] == CapabilityOutside && all[5] == ResourceOutside && all[6] == CumulativeDrift
  }

  lemma FirstFour(e: Envelope, q: EvaluateRequest, all: seq<Evidence>) returns (evidence: seq<Evidence>)
    requires IsAll(all)
    ensures evidence == Note(Note(Note(Note([], e.stopped, SessionStopped), q.taskHash != e.taskHash, TaskChanged),
                                  q.repository != e.repository, RepositoryChanged),
                             q.policyRevision != e.policyRevision, PolicyChanged)
    ensures evidence == Filter(all[..4], CauseOf(e, q))
  {
    var stopped := Note([], e.stopped, SessionStopped);
    NoteNext(all, [], e, q, 0, e.stopped);
    var task := Note(stopped, q.taskHash != e.taskHash, TaskChanged);
    NoteNext(all, stopped, e, q, 1, q.taskHash != e.taskHash);
    var repository := Note(task, q.repository != e.repository, RepositoryChanged);
    NoteNext(all, task, e, q, 2, q.repository != e.repository);
    evidence := Note(repository, q.policyRevision != e.policyRevision, PolicyChanged);
    NoteNext(all, repository, e, q, 3, q.policyRevision != e.policyRevision);
  }

  lemma EvidenceOfAll(e: Envelope, q: EvaluateRequest, all: seq<Evidence>)
    requires IsAll(all)
    ensures EvidenceOf(e, q) == Filter(all[..7], CauseOf(e, q))
  {
    CapabilityCause(e, q);
    var policy := FirstFour(e, q, all);
    var outside := Caused(e, q, CapabilityOutside);
    var capability := Note(policy, outside, CapabilityOutside);
    NoteNext(all, policy, e, q, 4, outside);
    var resource := Note(capability, !ResourcesWithin(q.resources, e.scopes), ResourceOutside);
    NoteNext(all, capability, e, q, 5, !ResourcesWithin(q.resources, e.scopes));
    NoteNext(all, resource, e, q, 6, e.drift + q.scopeCreep > e.maxDrift);
  }

  // The evidence is the list of all its kinds with those left out that have no cause.
  lemma EvidenceExact(e: Envelope, q: EvaluateRequest)
    ensures EvidenceOf(e, q) == Filter(ALL_EVIDENCE, CauseOf(e, q))
  {
    EvidenceOfAll(e, q, ALL_EVIDENCE);
    assert ALL_EVIDENCE[..7] == ALL_EVIDENCE;
  }

  // The record an accepted evaluation makes under this envelope.
  ghost predicate NewRecord(e: Envelope, q: EvaluateRequest, actionId: Uuid, record: Action) {
    && record.actionId == actionId && record.sessionId == q.sessionId && record.policyDecision == q.policyDecision
    && record.parentId == e.last && record.scopeCreep == q.scopeCreep && record.drift == e.drift + q.scopeCreep
    && (forall item :: item in record.evidence <==> Caused(e, q, item))
    && (record.allowed <==> InsideEnvelope(e, q))
  }

  lemma EvidenceMembers(e: Envelope, q: EvaluateRequest, all: seq<Evidence>)
    requires IsAll(all)
    ensures forall item :: item in EvidenceOf(e, q) <==> Caused(e, q, item)
  {
    EvidenceOfAll(e, q, all);
    assert all[..7] == all;
    FilterMembers(all, CauseOf(e, q));
    forall item ensures item in all {
      match item {
        case SessionStopped => assert all[0] == item;
        case TaskChanged => assert all[1] == item;
        case RepositoryChanged => assert all[2] == item;
        case PolicyChanged => assert all[3] == item;
        case CapabilityOutside => assert all[4] == item;
        case ResourceOutside => assert all[5] == item;
        case CumulativeDrift => assert all[6] == item;
      }
    }
  }

  lemma RecordIsNew(e: Envelope, q: EvaluateRequest, actionId: Uuid)
    ensures NewRecord(e, q, actionId, RecordOf(e, q, actionId))
  {
    EvidenceMembers(e, q, ALL_EVIDENCE);
    AllowedExact(e, q, actionId);
  }

  // What an accepted evaluation does to the store, given the session's records so far.
  ghost predicate Records(s: State, s': State, own: seq<Action>, q: EvaluateRequest, actionId: Uuid) {
    && q.sessionId in s.intents.rows && actionId in s'.actions.rows
    && var e, record := s.intents.rows[q.sessionId], s'.actions.rows[actionId];
       && NewRecord(e, q, actionId, record)
       && record.parentId == (if own == [] then None else Some(own[|own| - 1].actionId))
       && record.drift == Creep(own) + q.scopeCreep
       && s'.actions == Table(s.actions.rows[actionId := record], s.actions.order + [actionId])
       && s'.intents == Table(s.intents.rows[q.sessionId :=
            e.(last := Some(actionId), count := |own| + 1, drift := record.drift)], s.intents.order)
  }

  lemma ActsMakesRecord(cfg: Config, s: State, s': State, q: EvaluateRequest, actionId: Uuid)
    requires Acts(cfg, s, s', q, actionId)
    ensures NewRecord(s.intents.rows[q.sessionId], q, actionId, s'.actions.rows[actionId])
  {
    RecordIsNew(s.intents.rows[q.sessionId], q, actionId);
  }

  lemma ActsRecords(cfg: Config, s: State, s': State, q: EvaluateRequest, actionId: Uuid)
    requires Inv(cfg, s) && Acts(cfg, s, s', q, actionId)
    ensures Records(s, s', OwnOf(s, q.sessionId), q, actionId)
  {
    ActsMakesRecord(cfg, s, s', q, actionId);
    SessionFacts(cfg, s, q.sessionId);
  }

  // In every reachable store an action is recorded, allowed or not, exactly for an open session with
  // fewer than the maximum of records while there is room. It adds this record at the end of the
  // session's own and moves the envelope's tip, count and drift, and nothing else.
  lemma EvaluateExact(cfg: Config, ops: seq<Op>, q: EvaluateRequest, actionId: Uuid, oversize: bool)
    ensures var s := Run(cfg, ops);
            Evaluated(cfg, s, q, actionId, oversize).Some? <==>
              && IsIdentifier(q.sessionId) && q.sessionId in s.intents.rows && 0.0 <= q.scopeCreep <= 1.0
              && |OwnOf(s, q.sessionId)| < cfg.maxActions && actionId !in s.actions.rows
              && |s.intents.order| + |s.actions.order| < cfg.maxRecords && !oversize
    ensures var s, after := Run(cfg, ops), Evaluated(cfg, Run(cfg, ops), q, actionId, oversize);
            after.Some? ==> Records(s, after.value, OwnOf(s, q.sessionId), q, actionId)
  {
    RunKeepsInv(cfg, ops);
    var s := Run(cfg, ops);
    if q.sessionId in s.intents.rows {
      LineageInInvariant(cfg, s, q.sessionId);
      SessionFacts(cfg, s, q.sessionId);
    }
    if Evaluated(cfg, s, q, actionId, oversize).Some? {
      EvaluateActs(cfg, s, q, actionId, oversize);
      ActsRecords(cfg, s, Evaluated(cfg, s, q, actionId, oversize).value, q, actionId);
    }
  }

  // In every store exactly an existing session can be stopped, which marks it and changes nothing else.
  lemma StopExact(s: State, session: string, oversize: bool)
    ensures Stopped(s, session, oversize).Some? <==> IsIdentifier(session) && session in s.intents.rows && !oversize
    ensures Stopped(s, session, oversize).Some? ==>
              && session in s.intents.rows
              && Stopped(s, session, oversize).value == State(
                   Table(s.intents.rows[session := s.intents.rows[session].(stopped := true)], s.intents.order),
                   s.actions)
  {
  }

  // After an accepted stop no action of the session is ever allowed again.
  lemma StoppedNeverAllows(cfg: Config, ops: seq<Op>, i: nat, j: nat)
    requires i < j < |ops| && ops[i].StopOp? && ops[j].EvaluateOp? && ops[i].session == ops[j].action.sessionId
    requires Attempt(cfg, Run(cfg, ops[..i]), ops[i]).Some? && Attempt(cfg, Run(cfg, ops[..j]), ops[j]).Some?
    ensures !Attempt(cfg, Run(cfg, ops[..j]), ops[j]).value.actions.rows[ops[j].actionId].allowed
  {
    assert ops[..i + 1][..i] == ops[..i];
    assert Closed(Run(cfg, ops[..i + 1]), ops[i].session);
    ClosedSessionsNeverAllow(cfg, ops, i + 1, j);
  }

  // No record is in the lineages of two sessions.
  lemma LineagesDisjoint(cfg: Config, ops: seq<Op>, a: string, b: string, r: Action)
    requires a != b && a in Run(cfg, ops).intents.rows && b in Run(cfg, ops).intents.rows
    requires r in OwnOf(Run(cfg, ops), a)
    ensures r !in OwnOf(Run(cfg, ops), b)
  {
    RunKeepsInv(cfg, ops);
    var s := Run(cfg, ops);
    OwnMembers(s.actions.rows, s.actions.order, a);
    OwnMembers(s.actions.rows, s.actions.order, b);
  }

  // The session can never act again: stopped, or already past its drift limit.
  predicate Closed(s: State, session: string) {
    session in s.intents.rows &&
    (s.intents.rows[session].stopped || s.intents.rows[session].drift > s.intents.rows[session].maxDrift)
  }

  lemma ClosedStays(cfg: Config, s: State, op: Op, session: string)
    requires Closed(s, session)
    ensures Closed(Step(cfg, s, op), session)
  {
    if Attempt(cfg, s, op).Some? {
      match op
      case CreateOp(q, oversize) =>
      case EvaluateOp(q, actionId, oversize) => EvaluateActs(cfg, s, q, actionId, oversize);
      case StopOp(x, oversize) =>
    }
  }

  lemma {:induction false} ClosedForever(cfg: Config, ops: seq<Op>, i: nat, j: nat, session: string)
    requires i <= j <= |ops| && Closed(Run(cfg, ops[..i]), session)
    ensures Closed(Run(cfg, ops[..j]), session)
    decreases j - i
  {
    if i < j {
      ClosedForever(cfg, ops, i, j - 1, session);
      assert ops[..j][..j - 1] == ops[..j - 1];
      ClosedStays(cfg, Run(cfg, ops[..j - 1]), ops[j - 1], session);
    }
  }

  // Once stopped or over its drift limit, a session records actions but never again an allowed one.
  lemma ClosedSessionsNeverAllow(cfg: Config, ops: seq<Op>, i: nat, j: nat)
    requires i <= j < |ops| && ops[j].EvaluateOp?
    requires Closed(Run(cfg, ops[..i]), ops[j].action.sessionId)
    requires Attempt(cfg, Run(cfg, ops[..j]), ops[j]).Some?
    ensures !Attempt(cfg, Run(cfg, ops[..j]), ops[j]).value.actions.rows[ops[j].actionId].allowed
  {
    ClosedForever(cfg, ops, i, j, ops[j].action.sessionId);
    var s, q := Run(cfg, ops[..j]), ops[j].action;
    EvaluateActs(cfg, s, q, ops[j].actionId, ops[j].oversize);
    AllowedExact(s.intents.rows[q.sessionId], q, ops[j].actionId);
  }

  // Every record ever allowed was inside its session's drift limit at that moment.
  lemma AllowedWithinDrift(cfg: Config, ops: seq<Op>, session: string, r: Action)
    requires session in Run(cfg, ops).intents.rows
    requires r in OwnOf(Run(cfg, ops), session) && r.allowed
    ensures r.drift <= Run(cfg, ops).intents.rows[session].maxDrift
  {
    RunKeepsInv(cfg, ops);
    assert SessionOk(cfg, Run(cfg, ops), session);
  }
}
