/** authority.py: what the replay-state guards of `_chain` are for. Someone without the key rewrites the
    store between operations: rows can be deleted and older versions put back, but every row that
    reads back was put under its key, as ControlHistory.ReadWasPut shows. */
module RewrittenAuthority {
  import opened Sequences
  import opened AgentState
  import opened Authority
  import AuthorityHistory

  datatype Event = Do(op: AuthorityHistory.Op) | Rewrite(state: State)

  // The store, every row ever put under its key, and the version of each lease that was put last.
  datatype World = World(
    state: State, leases: set<(string, Lease)>, uses: set<(string, Use)>, latest: map<string, Lease>)

  // Ids may be listed without a row: such a row fails authentication when it is read.
  ghost predicate Possible(w: World, e: Event) {
    e.Rewrite? ==>
      && (forall id :: id in e.state.leases.rows ==> (id, e.state.leases.rows[id]) in w.leases)
      && (forall key :: key in e.state.uses.rows ==>
            (key, e.state.uses.rows[key]) in w.uses && key in e.state.uses.order)
      && Distinct(e.state.uses.order)
  }

  function Step(cfg: Config, w: World, e: Event): World {
    match e
    case Rewrite(s) => w.(state := s)
    case Do(op) =>
      var after := AuthorityHistory.Attempt(cfg, w.state, op);
      if after.None? then w else After(w, after.value, Target(op))
  }

  // The lease whose row an operation puts.
  function Target(op: AuthorityHistory.Op): string {
    match op
    case IssueOp(_, leaseId, _, _, _, _) => leaseId
    case ValidateOp(q, _, _) => q.leaseId
    case RevokeOp(target, _) => target
  }

  // What an operation leaves in the store counts as put.
  function After(w: World, s: State, x: string): World {
    World(s, w.leases + s.leases.rows.Items, w.uses + s.uses.rows.Items,
          if x in s.leases.rows then w.latest[x := s.leases.rows[x]] else w.latest)
  }

  function Run(cfg: Config, events: seq<Event>): World {
    if events == [] then World(EMPTY, {}, {}, map[])
    else Step(cfg, Run(cfg, events[..|events| - 1]), events[|events| - 1])
  }

  predicate Accepted(cfg: Config, events: seq<Event>, i: nat)
    requires i < |events| && events[i].Do?
  {
    AuthorityHistory.Attempt(cfg, Run(cfg, events[..i]).state, events[i].op).Some?
  }

  // No rewrite of the run puts an older version of this lease in its row: the row may go, and come back
  // as it was last put. Everything else is up to the rewrites. Generated ids are never generated again.
  ghost predicate NotRolledBack(cfg: Config, events: seq<Event>, id: string) {
    forall i :: 0 <= i < |events| ==>
      Possible(Run(cfg, events[..i]), events[i]) && LatestOrGone(Run(cfg, events[..i]), events[i], id)
  }

  predicate LatestOrGone(w: World, e: Event, id: string) {
    match e
    case Rewrite(s) => id in s.leases.rows ==> id in w.latest && s.leases.rows[id] == w.latest[id]
    case Do(op) => op.IssueOp? && op.leaseId == id ==> id !in w.latest
  }

  // The use keys ever put for a lease.
  ghost function KeysOf(w: World, id: string): set<string> {
    set u | u in w.uses && u.1.leaseId == id :: u.0
  }

  ghost predicate LeasesPut(w: World) {
    && (forall x :: x in w.state.leases.rows ==> (x, w.state.leases.rows[x]) in w.leases)
    && (forall l :: l in w.leases ==> l.1.leaseId == l.0 && IsHex32(l.0))
  }

  ghost predicate UsesPut(w: World) {
    && (forall key :: key in w.state.uses.rows ==>
          (key, w.state.uses.rows[key]) in w.uses && key in w.state.uses.order)
    && (forall u :: u in w.uses ==> u.0 == UseKey(u.1.leaseId, u.1.nonce) && IsHex32(u.1.leaseId))
    && Distinct(w.state.uses.order)
  }

  // The use count of the last version is the number of uses ever put for the lease.
  ghost predicate Counted(w: World, id: string) {
    |KeysOf(w, id)| == if id in w.latest then w.latest[id].useCount else 0
  }

  predicate RowIsLatest(w: World, id: string) {
    id in w.state.leases.rows ==> id in w.latest && w.state.leases.rows[id] == w.latest[id]
  }

  ghost predicate Inv(w: World, id: string) { LeasesPut(w) && UsesPut(w) && Counted(w, id) && RowIsLatest(w, id) }

  // ----- What an accepted validation has checked -----

  lemma {:induction false} WalkExtends(cfg: Config, s: State, current: Option<string>, seen: set<string>,
                                       chain: seq<Lease>, now: real)
    requires Walk(cfg, s, current, seen, chain, now).Some?
    ensures chain <= Walk(cfg, s, current, seen, chain, now).value
    decreases cfg.maxDepth + 1 - |chain|
  {
    if current.Some? {
      var lease := s.leases.rows[current.value];
      WalkExtends(cfg, s, lease.parentId, seen + {current.value}, chain + [lease], now);
    }
  }

  // What an accepted validation changes, and what it has seen before.
  ghost predicate Uses(s: State, s': State, q: ValidateRequest) {
    && q.leaseId in s.leases.rows && s.leases.rows[q.leaseId].leaseId == q.leaseId
    && UsesConsistent(s, q.leaseId, s.leases.rows[q.leaseId].useCount)
    && var lease, key := s.leases.rows[q.leaseId], UseKey(q.leaseId, q.nonce);
       && key !in s.uses.rows
       && s'.uses == Table(s.uses.rows[key := Use(q.leaseId, q.nonce)], s.uses.order + [key])
       && s'.leases == Table(s.leases.rows[q.leaseId := lease.(useCount := lease.useCount + 1)], s.leases.order)
  }

  lemma ValidateUses(cfg: Config, s: State, q: ValidateRequest, now: real, oversize: bool)
    requires Validated(cfg, s, q, now, oversize).Some?
    ensures Uses(s, Validated(cfg, s, q, now, oversize).value, q)
  {
    var lease := s.leases.rows[q.leaseId];
    WalkExtends(cfg, s, lease.parentId, {} + {q.leaseId}, [] + [lease], now);
    assert ChainOf(cfg, s, q.leaseId, now).value[0] == lease;
  }

  // ----- Counting keys -----

  lemma {:induction false} DistinctSize(s: seq<string>)
    requires Distinct(s)
    ensures |set x | x in s| == |s|
  {
    if s != [] {
      var n := |s| - 1;
      DistinctSize(s[..n]);
      assert s == s[..n] + [s[n]];
      assert (set x | x in s) == (set x | x in s[..n]) + {s[n]};
    }
  }

  lemma {:induction false} UseKeysDistinct(order: seq<string>, id: string)
    requires Distinct(order)
    ensures Distinct(UseKeysOf(order, id))
  {
    if order != [] {
      UseKeysDistinct(order[1..], id);
      AuthorityHistory.UseKeyMembers(order[1..], id);
    }
  }

  lemma SubsetEqual<T>(a: set<T>, b: set<T>)
    requires a <= b && |a| == |b|
    ensures a == b
  {
    assert b == a + (b - a);
  }

  // A key of the lease that is listed at all has its row.
  lemma ListedHasRow(s: State, id: string, nonce: string, count: nat)
    requires UsesConsistent(s, id, count) && UseKey(id, nonce) in s.uses.order
    ensures UseKey(id, nonce) in s.uses.rows
  {
    AuthorityHistory.UseKeyMembers(s.uses.order, id);
    assert id + ":" <= UseKey(id, nonce);
  }

  // With the lease's row as it was last put, a consistent count means every use ever put is still there.
  lemma AllStillThere(w: World, id: string)
    requires Inv(w, id) && id in w.state.leases.rows
    requires UsesConsistent(w.state, id, w.state.leases.rows[id].useCount)
    ensures forall key :: key in KeysOf(w, id) ==> key in w.state.uses.rows
  {
    var s := w.state;
    var keys := UseKeysOf(s.uses.order, id);
    var there := set key | key in keys;
    UseKeysDistinct(s.uses.order, id);
    DistinctSize(keys);
    forall key | key in keys ensures key in KeysOf(w, id) {
      assert (key, s.uses.rows[key]) in w.uses;
    }
    SubsetEqual(there, KeysOf(w, id));
  }

  // ----- The invariant over every run -----

  lemma LeaseRowPut(w: World, s': State, x: string, lease: Lease)
    requires LeasesPut(w) && IsHex32(x) && lease.leaseId == x
    requires s'.leases.rows == w.state.leases.rows[x := lease]
    ensures LeasesPut(After(w, s', x))
  {
    forall l | l in s'.leases.rows.Items && l.0 != x ensures l in w.leases {
      assert (l.0, w.state.leases.rows[l.0]) in w.leases;
    }
  }

  lemma ValidateKeepsUses(w: World, s': State, q: ValidateRequest)
    requires UsesPut(w) && Uses(w.state, s', q) && IsHex32(q.leaseId)
    ensures UsesPut(After(w, s', q.leaseId))
    ensures After(w, s', q.leaseId).uses == w.uses + {(UseKey(q.leaseId, q.nonce), Use(q.leaseId, q.nonce))}
  {
    var s, key, use := w.state, UseKey(q.leaseId, q.nonce), Use(q.leaseId, q.nonce);
    if key in s.uses.order {
      ListedHasRow(s, q.leaseId, q.nonce, s.leases.rows[q.leaseId].useCount);
    }
    UsesGrow(w, After(w, s', q.leaseId), key, use);
  }

  lemma ValidateKeepsCount(w: World, s': State, q: ValidateRequest, id: string)
    requires Inv(w, id) && Uses(w.state, s', q)
    requires After(w, s', q.leaseId).uses == w.uses + {(UseKey(q.leaseId, q.nonce), Use(q.leaseId, q.nonce))}
    ensures Counted(After(w, s', q.leaseId), id)
  {
    KeysGrow(w, After(w, s', q.leaseId), UseKey(q.leaseId, q.nonce), Use(q.leaseId, q.nonce), id);
    if id == q.leaseId {
      AllStillThere(w, id);
    } else {
      assert KeysOf(After(w, s', q.leaseId), id) == KeysOf(w, id);
    }
  }

  lemma ValidateKeepsInv(w: World, s': State, q: ValidateRequest, id: string)
    requires Inv(w, id) && Uses(w.state, s', q)
    ensures Inv(After(w, s', q.leaseId), id)
  {
    assert (q.leaseId, w.state.leases.rows[q.leaseId]) in w.leases;
    LeaseRowPut(w, s', q.leaseId, s'.leases.rows[q.leaseId]);
    ValidateKeepsUses(w, s', q);
    ValidateKeepsCount(w, s', q, id);
  }

  lemma UsesGrow(w: World, w': World, key: string, use: Use)
    requires forall k :: k in w.state.uses.rows ==> (k, w.state.uses.rows[k]) in w.uses
    requires w'.state.uses.rows == w.state.uses.rows[key := use]
    requires w'.uses == w.uses + w'.state.uses.rows.Items
    ensures w'.uses == w.uses + {(key, use)}
  {
    var rows := w'.state.uses.rows;
    forall u | u in rows.Items ensures u in w.uses + {(key, use)} {
      assert u.1 == rows[u.0];
      assert u.0 != key ==> (u.0, w.state.uses.rows[u.0]) in w.uses;
    }
    assert (key, use) in rows.Items;
  }

  lemma KeysGrow(w: World, w': World, key: string, use: Use, id: string)
    requires w'.uses == w.uses + {(key, use)}
    ensures KeysOf(w', id) == KeysOf(w, id) + (if use.leaseId == id then {key} else {})
  {
    forall k ensures k in KeysOf(w', id) <==> k in KeysOf(w, id) || (use.leaseId == id && k == key) {
      if k in KeysOf(w', id) {
        var u :| u in w'.uses && u.1.leaseId == id && u.0 == k;
        assert u in w.uses || u == (key, use);
      }
      if k in KeysOf(w, id) {
        var u :| u in w.uses && u.1.leaseId == id && u.0 == k;
        assert u in w'.uses;
      }
      assert (key, use) in w'.uses;
    }
  }

  // An accepted issue or revocation changes one lease row, not its count, and no use.
  ghost predicate ChangesLease(s: State, s': State, x: string) {
    && s'.uses == s.uses && x in s'.leases.rows && s'.leases.rows[x].leaseId == x
    && s'.leases.rows == s.leases.rows[x := s'.leases.rows[x]]
    && s'.leases.rows[x].useCount == if x in s.leases.rows then s.leases.rows[x].useCount else 0
  }

  lemma ChangeKeepsInv(w: World, s': State, x: string, id: string)
    requires Inv(w, id) && IsHex32(x) && ChangesLease(w.state, s', x)
    requires x == id && id !in w.state.leases.rows ==> id !in w.latest
    ensures Inv(After(w, s', x), id)
  {
    LeaseRowPut(w, s', x, s'.leases.rows[x]);
    assert After(w, s', x).uses == w.uses by {
      forall u | u in s'.uses.rows.Items ensures u in w.uses {
        assert (u.0, w.state.uses.rows[u.0]) in w.uses;
      }
    }
    assert KeysOf(After(w, s', x), id) == KeysOf(w, id);
  }

  lemma IssueChanges(cfg: Config, s: State, op: AuthorityHistory.Op)
    requires op.IssueOp? && AuthorityHistory.Attempt(cfg, s, op).Some?
    ensures ChangesLease(s, AuthorityHistory.Attempt(cfg, s, op).value, op.leaseId)
  {
  }

  lemma RevokeChanges(cfg: Config, s: State, op: AuthorityHistory.Op)
    requires op.RevokeOp? && AuthorityHistory.Attempt(cfg, s, op).Some?
    requires op.target in s.leases.rows ==> s.leases.rows[op.target].leaseId == op.target
    ensures ChangesLease(s, AuthorityHistory.Attempt(cfg, s, op).value, op.target)
  {
  }

  lemma DoKeepsInv(cfg: Config, w: World, op: AuthorityHistory.Op, id: string)
    requires Inv(w, id) && AuthorityHistory.Attempt(cfg, w.state, op).Some? && LatestOrGone(w, Do(op), id)
    ensures Inv(Step(cfg, w, Do(op)), id)
  {
    var s' := AuthorityHistory.Attempt(cfg, w.state, op).value;
    match op
    case IssueOp(_, leaseId, _, _, _, _) =>
      IssueChanges(cfg, w.state, op);
      ChangeKeepsInv(w, s', leaseId, id);
    case ValidateOp(q, now, oversize) =>
      ValidateUses(cfg, w.state, q, now, oversize);
      ValidateKeepsInv(w, s', q, id);
    case RevokeOp(target, _) =>
      assert (target, w.state.leases.rows[target]) in w.leases;
      RevokeChanges(cfg, w.state, op);
      ChangeKeepsInv(w, s', target, id);
  }

  lemma RewriteKeepsInv(w: World, s': State, id: string)
    requires Inv(w, id) && Possible(w, Rewrite(s')) && LatestOrGone(w, Rewrite(s'), id)
    ensures Inv(w.(state := s'), id)
  {
    assert KeysOf(w.(state := s'), id) == KeysOf(w, id);
  }

  lemma {:induction false} RunKeepsInv(cfg: Config, events: seq<Event>, id: string)
    requires NotRolledBack(cfg, events, id)
    ensures Inv(Run(cfg, events), id)
  {
    if events == [] {
      assert KeysOf(World(EMPTY, {}, {}, map[]), id) == {};
    } else {
      var n := |events| - 1;
      assert forall i :: 0 <= i < n ==> events[..n][..i] == events[..i];
      RunKeepsInv(cfg, events[..n], id);
      var w, e := Run(cfg, events[..n]), events[n];
      if e.Rewrite? {
        RewriteKeepsInv(w, e.state, id);
      } else if AuthorityHistory.Attempt(cfg, w.state, e.op).Some? {
        DoKeepsInv(cfg, w, e.op, id);
      }
    }
  }

  lemma {:induction false} UsesStay(cfg: Config, events: seq<Event>, i: nat)
    requires i <= |events|
    ensures Run(cfg, events[..i]).uses <= Run(cfg, events).uses
    decreases |events|
  {
    if i == |events| {
      assert events[..i] == events;
    } else {
      var init := events[..|events| - 1];
      assert init[..i] == events[..i];
      UsesStay(cfg, init, i);
      LastStepKeepsUses(cfg, events);
    }
  }

  lemma LastStepKeepsUses(cfg: Config, events: seq<Event>)
    requires events != []
    ensures Run(cfg, events[..|events| - 1]).uses <= Run(cfg, events).uses
  {
    StepKeepsUses(cfg, Run(cfg, events[..|events| - 1]), events[|events| - 1]);
  }

  lemma StepKeepsUses(cfg: Config, w: World, e: Event)
    ensures w.uses <= Step(cfg, w, e).uses
  {
  }

  // An accepted use stays among what was put.
  lemma AcceptedIsPut(cfg: Config, events: seq<Event>, i: nat, j: nat)
    requires i < j <= |events| && events[i].Do? && events[i].op.ValidateOp? && Accepted(cfg, events, i)
    ensures var q := events[i].op.use; UseKey(q.leaseId, q.nonce) in KeysOf(Run(cfg, events[..j]), q.leaseId)
  {
    var op := events[i].op;
    var put := (UseKey(op.use.leaseId, op.use.nonce), Use(op.use.leaseId, op.use.nonce));
    ValidateUses(cfg, Run(cfg, events[..i]).state, op.use, op.now, op.oversize);
    assert events[..i + 1][..i] == events[..i];
    assert put in Run(cfg, events[..i + 1]).uses;
    assert events[..j][..i + 1] == events[..i + 1];
    UsesStay(cfg, events[..j], i + 1);
    assert put in Run(cfg, events[..j]).uses && put.1.leaseId == op.use.leaseId;
  }

  lemma NotPutBefore(cfg: Config, w: World, op: AuthorityHistory.Op)
    requires op.ValidateOp? && Inv(w, op.use.leaseId) && AuthorityHistory.Attempt(cfg, w.state, op).Some?
    ensures UseKey(op.use.leaseId, op.use.nonce) !in KeysOf(w, op.use.leaseId)
  {
    ValidateUses(cfg, w.state, op.use, op.now, op.oversize);
    AllStillThere(w, op.use.leaseId);
  }

  // Whatever is deleted or put back, a (lease, nonce) pair is not accepted again unless some rewrite puts
  // an older version of the lease into its row.
  lemma ReplayNeedsOlderLease(cfg: Config, events: seq<Event>, i: nat, j: nat)
    requires i < j < |events| && events[i].Do? && events[j].Do? && events[i].op.ValidateOp? && events[j].op.ValidateOp?
    requires events[i].op.use.leaseId == events[j].op.use.leaseId && events[i].op.use.nonce == events[j].op.use.nonce
    requires NotRolledBack(cfg, events, events[i].op.use.leaseId) && Accepted(cfg, events, i)
    ensures !Accepted(cfg, events, j)
  {
    AcceptedIsPut(cfg, events, i, j);
    assert forall k :: 0 <= k < j ==> events[..j][..k] == events[..k];
    RunKeepsInv(cfg, events[..j], events[j].op.use.leaseId);
    if Accepted(cfg, events, j) {
      NotPutBefore(cfg, Run(cfg, events[..j]), events[j].op);
    }
  }
}

/** intent.py: what the count and link guards of `_lineage` are for, in the same setting. */
module RewrittenIntent {
  import opened Sequences
  import opened AgentState
  import opened Intent
  import IntentHistory

  datatype Event = Do(op: IntentHistory.Op) | Rewrite(state: State)

  // The envelope of a session as it was last put, and the records made since it was created.
  datatype Session = Session(envelope: Envelope, records: seq<Action>)

  // The store, every record of an action ever put, and the sessions as the operations left them.
  datatype World = World(state: State, made: set<Action>, sessions: map<string, Session>)

  function RecordsOf(w: World, session: string): seq<Action> {
    if session in w.sessions then w.sessions[session].records else []
  }

  function Step(cfg: Config, w: World, e: Event): World {
    match e
    case Rewrite(s) => w.(state := s)
    case Do(op) =>
      var after := IntentHistory.Attempt(cfg, w.state, op);
      if after.None? then w else After(cfg, w, op)
  }

  function After(cfg: Config, w: World, op: IntentHistory.Op): World
    requires IntentHistory.Attempt(cfg, w.state, op).Some?
  {
    var s := IntentHistory.Attempt(cfg, w.state, op).value;
    match op
    case CreateOp(q, _) =>
      World(s, w.made, w.sessions[q.sessionId := Session(s.intents.rows[q.sessionId], [])])
    case EvaluateOp(q, actionId, _) =>
      var record := s.actions.rows[actionId];
      var records := RecordsOf(w, q.sessionId) + [record];
      World(s, w.made + {record}, w.sessions[q.sessionId := Session(s.intents.rows[q.sessionId], records)])
    case StopOp(session, _) =>
      World(s, w.made, w.sessions[session := Session(s.intents.rows[session], RecordsOf(w, session))])
  }

  function Run(cfg: Config, events: seq<Event>): World {
    if events == [] then World(EMPTY, {}, map[])
    else Step(cfg, Run(cfg, events[..|events| - 1]), events[|events| - 1])
  }

  // A rewrite may delete any rows and put back any record of an action under its id; the session's own
  // envelope may go, and come back as it was last put. Generated ids are never generated again.
  ghost predicate Possible(w: World, e: Event, session: string) {
    match e
    case Rewrite(s) =>
      && (forall id :: id in s.actions.rows ==> s.actions.rows[id] in w.made && s.actions.rows[id].actionId == id)
      && EnvelopeIsLatest(s, w.sessions, session)
    case Do(op) => op.EvaluateOp? ==> IsNew(w.made, op.actionId)
  }

  ghost predicate IsNew(made: set<Action>, id: string) {
    forall r :: r in made ==> r.actionId != id
  }

  predicate EnvelopeIsLatest(s: State, sessions: map<string, Session>, session: string) {
    session in s.intents.rows ==> session in sessions && s.intents.rows[session] == sessions[session].envelope
  }

  ghost predicate NotRolledBack(cfg: Config, events: seq<Event>, session: string) {
    forall i :: 0 <= i < |events| ==> Possible(Run(cfg, events[..i]), events[i], session)
  }

  predicate AllThere(rows: map<string, Action>, own: seq<Action>) {
    forall i :: 0 <= i < |own| ==> own[i].actionId in rows
  }

  // ----- The invariant over every run -----

  ghost predicate RecordsMade(w: World) {
    && (forall id :: id in w.state.actions.rows ==>
          w.state.actions.rows[id] in w.made && w.state.actions.rows[id].actionId == id)
    && (forall r, t :: r in w.made && t in w.made && r.actionId == t.actionId ==> r == t)
  }

  ghost predicate OwnRecords(w: World, own: seq<Action>, session: string) {
    && (forall r :: r in own ==> r in w.made && r.sessionId == session)
    && (forall i, j :: 0 <= i < j < |own| ==> own[i].actionId != own[j].actionId)
    && IntentHistory.Threaded(own)
  }

  // The envelope's tip, count and drift are those of the records.
  ghost predicate Sums(cfg: Config, e: Envelope, own: seq<Action>, session: string) {
    && e.sessionId == session
    && e.count == |own| <= cfg.maxActions
    && e.last == (if own == [] then None else Some(own[|own| - 1].actionId))
    && e.drift == IntentHistory.Creep(own)
  }

  ghost predicate Inv(cfg: Config, w: World, session: string) {
    && RecordsMade(w) && EnvelopeIsLatest(w.state, w.sessions, session)
    && OwnRecords(w, RecordsOf(w, session), session)
    && (session in w.sessions ==>
          Sums(cfg, w.sessions[session].envelope, w.sessions[session].records, session))
  }

  lemma OwnAppend(w: World, w': World, own: seq<Action>, record: Action, session: string)
    requires OwnRecords(w, own, session) && IsNew(w.made, record.actionId)
    requires w'.made == w.made + {record} && record.sessionId == session && record.scopeCreep >= 0.0
    requires record.parentId == (if own == [] then None else Some(own[|own| - 1].actionId))
    requires record.drift == IntentHistory.Creep(own) + record.scopeCreep
    ensures OwnRecords(w', own + [record], session)
  {
    IntentHistory.ThreadedAppend(own, record);
    var longer := own + [record];
    forall i | 0 <= i < |own| ensures longer[i].actionId != record.actionId {
      assert longer[i] == own[i] && own[i] in own;
    }
  }

  lemma EvaluateKeepsInv(cfg: Config, w: World, op: IntentHistory.Op, session: string)
    requires Inv(cfg, w, session) && op.EvaluateOp? && Possible(w, Do(op), session)
    requires IntentHistory.Attempt(cfg, w.state, op).Some?
    ensures Inv(cfg, After(cfg, w, op), session)
  {
    var w' := After(cfg, w, op);
    IntentHistory.EvaluateActs(cfg, w.state, op.action, op.actionId, op.oversize);
    var own, record := RecordsOf(w, session), w'.state.actions.rows[op.actionId];
    if op.action.sessionId == session {
      OwnAppend(w, w', own, record, session);
      IntentHistory.CreepAppend(own, record);
    } else {
      assert OwnRecords(w', own, session);
    }
  }

  lemma OtherKeepsInv(cfg: Config, w: World, op: IntentHistory.Op, session: string)
    requires Inv(cfg, w, session) && !op.EvaluateOp? && IntentHistory.Attempt(cfg, w.state, op).Some?
    ensures Inv(cfg, After(cfg, w, op), session)
  {
    var w' := After(cfg, w, op);
    assert w'.state.actions == w.state.actions && w'.made == w.made;
    assert OwnRecords(w', RecordsOf(w', session), session);
  }

  lemma {:induction false} RunKeepsInv(cfg: Config, events: seq<Event>, session: string)
    requires NotRolledBack(cfg, events, session)
    ensures Inv(cfg, Run(cfg, events), session)
  {
    if events != [] {
      var n := |events| - 1;
      assert forall i :: 0 <= i < n ==> events[..n][..i] == events[..i];
      RunKeepsInv(cfg, events[..n], session);
      var w, e := Run(cfg, events[..n]), events[n];
      if e.Rewrite? {
        assert OwnRecords(w.(state := e.state), RecordsOf(w, session), session);
      } else if IntentHistory.Attempt(cfg, w.state, e.op).Some? {
        if e.op.EvaluateOp? {
          EvaluateKeepsInv(cfg, w, e.op, session);
        } else {
          OtherKeepsInv(cfg, w, e.op, session);
        }
      }
    }
  }

  // ----- The walk against the records -----

  // From any point of the session's own records, the walk returns the rest or meets a missing one.
  lemma {:induction false} WalkFindsAll(cfg: Config, s: State, own: seq<Action>, session: string, seen: set<string>,
                                        records: seq<Action>)
    requires IntentHistory.Threaded(own) && |records| + |own| <= cfg.maxActions
    requires forall r :: r in own ==> r.sessionId == session && r.actionId !in seen
    requires forall r :: r in own && r.actionId in s.actions.rows ==> s.actions.rows[r.actionId] == r
    requires forall i, j :: 0 <= i < j < |own| ==> own[i].actionId != own[j].actionId
    ensures Walk(cfg, s, session, if own == [] then None else Some(own[|own| - 1].actionId), seen, records)
            == if AllThere(s.actions.rows, own) then Some(records + Reverse(own)) else None
    decreases |own|
  {
    if own == [] {
      assert records + [] == records;
    } else {
      var n := |own| - 1;
      var rest, last := own[..n], own[n];
      assert last in own && forall i :: 0 <= i < n ==> rest[i] == own[i];
      assert IntentHistory.ThreadedAt(own, n);
      assert AllThere(s.actions.rows, own) <==> AllThere(s.actions.rows, rest) && last.actionId in s.actions.rows;
      if last.actionId in s.actions.rows {
        IntentHistory.ThreadedPrefix(own, n);
        WalkFindsAll(cfg, s, rest, session, seen + {last.actionId}, records + [last]);
        IntentHistory.ReverseLast(own);
        Associate(records, [last], Reverse(rest));
      }
    }
  }

  // However deletions and older versions are interleaved with the operations, as long as no older version
  // of the envelope is put back: the lineage is the whole list of the session's records, or it is refused,
  // and it is refused exactly when one of them is missing. The drift stays the sum over all of them.
  lemma MissingRecordIsNoticed(cfg: Config, events: seq<Event>, session: string)
    requires NotRolledBack(cfg, events, session) && session in Run(cfg, events).state.intents.rows
    ensures var w := Run(cfg, events); var s, own := w.state, RecordsOf(w, session);
            && LineageOf(cfg, s, s.intents.rows[session]) == (if AllThere(s.actions.rows, own) then Some(own) else None)
            && s.intents.rows[session].drift == IntentHistory.Creep(own)
  {
    RunKeepsInv(cfg, events, session);
    LineageInInvariant(cfg, Run(cfg, events), session);
  }

  lemma LineageInInvariant(cfg: Config, w: World, session: string)
    requires Inv(cfg, w, session) && session in w.state.intents.rows
    ensures var s, own := w.state, RecordsOf(w, session);
            LineageOf(cfg, s, s.intents.rows[session]) == if AllThere(s.actions.rows, own) then Some(own) else None
  {
    var own := RecordsOf(w, session);
    WalkFindsAll(cfg, w.state, own, session, {}, []);
    assert [] + Reverse(own) == Reverse(own);
    IntentHistory.ReverseTwice(own);
  }
}
