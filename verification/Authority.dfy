/** authority.py: the store of delegated leases, as specification functions and as the class whose
    methods are proved against them. A transaction is one atomic step; None is a ControlError, and
    leaves the store as it was. */
module Authority {
  import opened Sequences
  import opened AgentState

  datatype Config = Config(environment: string, maxLeases: nat, maxRecords: nat, maxDepth: nat, maxTtl: nat)

  datatype Lease = Lease(
    leaseId: string, issuer: string, issuerSession: string, subject: string, sessionId: string,
    repository: string, environment: string, policyRevision: string,
    scopes: set<string>, capabilities: set<string>, forbidden: set<string>,
    issuedAt: real, expiresAt: real, parentId: Option<string>, depth: nat, nonce: string,
    revoked: bool, useCount: nat)

  datatype Use = Use(leaseId: string, nonce: string)

  datatype State = State(leases: Table<Lease>, uses: Table<Use>) {
    function Records(): nat { |leases.order| + |uses.order| }
  }

  const EMPTY := State(EmptyTable<Lease>(), EmptyTable<Use>())

  function UseKey(leaseId: string, nonce: string): string { leaseId + ":" + nonce }

  predicate BelongsTo(key: string, leaseId: string) { leaseId + ":" <= key }

  function UseKeysOf(order: seq<string>, leaseId: string): seq<string> {
    if order == [] then []
    else (if BelongsTo(order[0], leaseId) then [order[0]] else []) + UseKeysOf(order[1..], leaseId)
  }

  // The replay-state guard of `_chain` for one lease.
  predicate UsesConsistent(s: State, leaseId: string, useCount: nat) {
    var keys := UseKeysOf(s.uses.order, leaseId);
    |keys| == useCount && forall key :: key in keys ==> key in s.uses.rows && s.uses.rows[key].leaseId == leaseId
  }

  predicate InWindow(lease: Lease, now: real) { lease.issuedAt <= now < lease.expiresAt }

  predicate Subset(child: Lease, parent: Lease) {
    && child.issuer == parent.subject
    && child.issuerSession == parent.sessionId
    && child.repository == parent.repository
    && child.environment == parent.environment
    && child.policyRevision == parent.policyRevision
    && child.expiresAt <= parent.expiresAt
    && child.issuedAt >= parent.issuedAt
    && child.depth == parent.depth + 1
    && child.capabilities <= parent.capabilities
    && parent.forbidden <= child.forbidden
    && forall scope :: scope in child.scopes ==> Contained(scope, parent.scopes)
  }

  // The while loop of `_chain`, from any point of the walk.
  function Walk(cfg: Config, s: State, current: Option<string>, seen: set<string>, chain: seq<Lease>, now: real)
    : Option<seq<Lease>>
    decreases cfg.maxDepth + 1 - |chain|
  {
    match current
    case None => Some(chain)
    case Some(id) =>
      if id in seen || |chain| > cfg.maxDepth then None
      else if id !in s.leases.rows then None
      else
        var lease := s.leases.rows[id];
        if lease.leaseId != id || lease.revoked || !InWindow(lease, now) then None
        else if !UsesConsistent(s, id, lease.useCount) then None
        else Walk(cfg, s, lease.parentId, seen + {id}, chain + [lease], now)
  }

  predicate Linked(chain: seq<Lease>) {
    forall i :: 0 <= i < |chain| - 1 ==> Subset(chain[i], chain[i + 1])
  }

  // `_chain`: the lease and its ancestors, leaf first.
  function ChainOf(cfg: Config, s: State, leaseId: string, now: real): Option<seq<Lease>> {
    if !IsIdentifier(leaseId) then None
    else
      var chain :- Walk(cfg, s, Some(leaseId), {}, [], now);
      if Linked(chain) then Some(chain) else None
  }

  datatype IssueRequest = IssueRequest(
    issuer: string, issuerSession: string, subject: string, sessionId: string,
    repository: string, environment: string, policyRevision: string,
    scopes: seq<string>, capabilities: set<string>, ttlSeconds: int,
    parentId: Option<string>, forbidden: set<string>)

  datatype ValidateRequest = ValidateRequest(
    leaseId: string, subject: string, sessionId: string, repository: string, environment: string,
    policyRevision: string, capabilities: set<string>, resources: seq<Resource>, nonce: string)

  // The record `issue` builds before its transaction.
  function DraftLease(cfg: Config, q: IssueRequest, leaseId: Uuid, nonce: Uuid, now: real): Option<Lease> {
    if !IsIdentifier(q.issuer) || !IsIdentifier(q.issuerSession) || !IsIdentifier(q.subject)
        || !IsIdentifier(q.sessionId)
    then None
    else if !(1 <= q.ttlSeconds <= cfg.maxTtl) || q.environment != cfg.environment || q.policyRevision == "" then None
    else
      var scopes :- Scopes(q.scopes);
      var capabilities :- Capabilities(q.capabilities);
      var forbidden :- if q.forbidden == {} then Some({}) else Capabilities(q.forbidden);
      Some(Lease(leaseId, q.issuer, q.issuerSession, q.subject, q.sessionId, q.repository, q.environment,
                 q.policyRevision, scopes, capabilities, forbidden, now, now + q.ttlSeconds as real,
                 q.parentId, 0, nonce, false, 0))
  }

  // The draft under its parent: one deeper, and forbidding what the parent forbids.
  function Attenuated(cfg: Config, s: State, draft: Lease, now: real): Option<Lease> {
    match draft.parentId
    case None => Some(draft)
    case Some(parentId) =>
      var chain :- ChainOf(cfg, s, parentId, now);
      if chain == [] then None
      else
        var lease := draft.(depth := chain[0].depth + 1, forbidden := draft.forbidden + chain[0].forbidden);
        if Subset(lease, chain[0]) then Some(lease) else None
  }

  // put(..., new=True) of a lease. `oversize` stands for the payload exceeding the record size cap.
  function PutNewLease(cfg: Config, s: State, lease: Lease, oversize: bool): Option<State> {
    if oversize || s.Records() >= cfg.maxRecords then None
    else
      var leases :- s.leases.Insert(lease.leaseId, lease);
      Some(s.(leases := leases))
  }

  // `issue`, reading the clock as `now` when drafting and as `chainNow` inside the transaction.
  function Issued(cfg: Config, s: State, q: IssueRequest, leaseId: Uuid, nonce: Uuid, now: real, chainNow: real,
                  oversize: bool): Option<State>
  {
    var draft :- DraftLease(cfg, q, leaseId, nonce, now);
    if |s.leases.order| >= cfg.maxLeases then None
    else
      var lease :- Attenuated(cfg, s, draft, chainNow);
      if lease.depth > cfg.maxDepth || lease.capabilities * lease.forbidden != {} then None
      else PutNewLease(cfg, s, lease, oversize)
  }

  predicate Authorizes(cfg: Config, lease: Lease, q: ValidateRequest) {
    && q.subject == lease.subject
    && q.sessionId == lease.sessionId
    && q.repository == lease.repository
    && q.environment == lease.environment
    && q.environment == cfg.environment
    && q.policyRevision == lease.policyRevision
    && q.capabilities <= lease.capabilities
    && q.capabilities * lease.forbidden == {}
    && ResourcesWithin(q.resources, lease.scopes)
  }

  // The use record and the bumped use count, or neither.
  function Recorded(cfg: Config, s: State, lease: Lease, q: ValidateRequest, oversize: bool): Option<State> {
    if oversize || s.Records() >= cfg.maxRecords then None
    else
      var uses :- s.uses.Insert(UseKey(q.leaseId, q.nonce), Use(q.leaseId, q.nonce));
      var leases :- s.leases.Update(q.leaseId, lease.(useCount := lease.useCount + 1));
      Some(State(leases, uses))
  }

  function Validated(cfg: Config, s: State, q: ValidateRequest, now: real, oversize: bool): Option<State> {
    if !IsIdentifier(q.nonce) then None
    else
      var chain :- ChainOf(cfg, s, q.leaseId, now);
      if chain == [] || !Authorizes(cfg, chain[0], q) then None
      else Recorded(cfg, s, chain[0], q, oversize)
  }

  function Revoked(s: State, leaseId: string, oversize: bool): Option<State> {
    if !IsIdentifier(leaseId) || leaseId !in s.leases.rows || oversize then None
    else
      var leases :- s.leases.Update(leaseId, s.leases.rows[leaseId].(revoked := true));
      Some(s.(leases := leases))
  }

  // One pass of `tree` over the records; a row selected early in the pass already counts for the rows after it.
  function Round(records: seq<Lease>, selected: set<string>): set<string> {
    if records == [] then selected
    else if records[0].parentId.Some? && records[0].parentId.value in selected
    then Round(records[1..], selected + {records[0].leaseId})
    else Round(records[1..], selected)
  }

  function Rounds(records: seq<Lease>, selected: set<string>, n: nat): set<string>
    decreases n
  {
    if n == 0 then selected else Rounds(records, Round(records, selected), n - 1)
  }

  function Records(t: Table<Lease>, order: seq<string>): Option<seq<Lease>> {
    if order == [] then Some([])
    else if order[0] !in t.rows then None
    else
      var rest :- Records(t, order[1..]);
      Some([t.rows[order[0]]] + rest)
  }

  function Selected(records: seq<Lease>, ids: set<string>): seq<Lease> {
    if records == [] then []
    else (if records[0].leaseId in ids then [records[0]] else []) + Selected(records[1..], ids)
  }

  function TreeOf(cfg: Config, s: State, leaseId: string): Option<seq<Lease>> {
    var records :- Records(s.leases, s.leases.order);
    if !IsIdentifier(leaseId) then None
    else Some(Selected(records, Rounds(records, {leaseId}, cfg.maxDepth + 1)))
  }

  lemma {:induction false} RecordsAppend(t: Table<Lease>, a: seq<string>, b: seq<string>)
    requires forall id :: id in a ==> id in t.rows
    ensures Records(t, a).Some? && |Records(t, a).value| == |a|
    ensures forall i :: 0 <= i < |a| ==> Records(t, a).value[i] == t.rows[a[i]]
    ensures Records(t, a + b) ==
            (if Records(t, b).Some? then Some(Records(t, a).value + Records(t, b).value) else None)
  {
    if a == [] {
      assert a + b == b;
      if Records(t, b).Some? {
        assert [] + Records(t, b).value == Records(t, b).value;
      }
    } else {
      RecordsAppend(t, a[1..], b);
      var ab := a + b;
      assert ab[1..] == a[1..] + b && ab[0] == a[0];
      assert a[0] in a;
      if Records(t, b).Some? {
        var x, ra, rb := t.rows[a[0]], Records(t, a[1..]).value, Records(t, b).value;
        assert [x] + (ra + rb) == ([x] + ra) + rb;
      }
    }
  }

  lemma RecordsStep(t: Table<Lease>, order: seq<string>, id: string)
    requires id in t.rows && forall k :: k in order ==> k in t.rows
    ensures Records(t, order).Some?
    ensures Records(t, order + [id]) == Some(Records(t, order).value + [t.rows[id]])
  {
    RecordsAppend(t, order, [id]);
    assert [id][1..] == [];
    assert [t.rows[id]] + [] == [t.rows[id]];
  }

  class AuthorityStore {
    const config: Config
    var leases: Table<Lease>
    var uses: Table<Use>

    function Snapshot(): State
      reads this
    {
      State(leases, uses)
    }

    constructor (config: Config)
      ensures Snapshot() == EMPTY && this.config == config
    {
      this.config := config;
      leases := EmptyTable<Lease>();
      uses := EmptyTable<Use>();
    }

    // The two replay-state checks of one step of the walk.
    method CheckUses(leaseId: string, useCount: nat) returns (ok: bool)
      ensures ok == UsesConsistent(Snapshot(), leaseId, useCount)
    {
      var keys := [];
      var i := 0;
      while i < |uses.order|
        invariant 0 <= i <= |uses.order|
        invariant keys + UseKeysOf(uses.order[i..], leaseId) == UseKeysOf(uses.order, leaseId)
      {
        if BelongsTo(uses.order[i], leaseId) {
          keys := keys + [uses.order[i]];
        }
        i := i + 1;
      }
      if |keys| != useCount {
        return false;
      }
      for k := 0 to |keys|
        invariant forall j :: 0 <= j < k ==> keys[j] in uses.rows && uses.rows[keys[j]].leaseId == leaseId
      {
        assert keys[k] in keys;
        if keys[k] !in uses.rows || uses.rows[keys[k]].leaseId != leaseId {
          return false;
        }
      }
      return true;
    }

    method Chain(leaseId: string, now: real) returns (r: Option<seq<Lease>>)
      ensures r == ChainOf(config, Snapshot(), leaseId, now)
    {
      if !IsIdentifier(leaseId) {
        return None;
      }
      var chain: seq<Lease> := [];
      var seen: set<string> := {};
      var current := Some(leaseId);
      while current.Some?
        invariant Walk(config, Snapshot(), current, seen, chain, now)
            == Walk(config, Snapshot(), Some(leaseId), {}, [], now)
        invariant |chain| <= config.maxDepth + 1
        invariant current == Some(leaseId) || chain != []
        decreases config.maxDepth + 1 - |chain|, current.Some?
      {
        var id := current.value;
        if id in seen || |chain| > config.maxDepth {
          return None;
        }
        if id !in leases.rows {
          return None;
        }
        var lease := leases.rows[id];
        if lease.leaseId != id || lease.revoked || !InWindow(lease, now) {
          return None;
        }
        var consistent := CheckUses(id, lease.useCount);
        if !consistent {
          return None;
        }
        seen := seen + {id};
        chain := chain + [lease];
        current := lease.parentId;
      }
      for i := 1 to |chain|
        invariant forall j :: 0 <= j < i - 1 ==> Subset(chain[j], chain[j + 1])
      {
        if !Subset(chain[i - 1], chain[i]) {
          return None;
        }
      }
      return Some(chain);
    }

    method Issue(q: IssueRequest, leaseId: Uuid, nonce: Uuid, now: real, chainNow: real, oversize: bool)
      returns (r: Option<Lease>)
      modifies this
      ensures var after := Issued(config, old(Snapshot()), q, leaseId, nonce, now, chainNow, oversize);
              && Snapshot() == (if after.Some? then after.value else old(Snapshot()))
              && r == (if after.Some? then Some(after.value.leases.rows[leaseId]) else None)
    {
      var draft := DraftLease(config, q, leaseId, nonce, now);
      if draft.None? || |leases.order| >= config.maxLeases {
        return None;
      }
      var lease := draft.value;
      if q.parentId.Some? {
        var chain := Chain(q.parentId.value, chainNow);
        if chain.None? || chain.value == [] {
          return None;
        }
        var parent := chain.value[0];
        lease := lease.(depth := parent.depth + 1, forbidden := lease.forbidden + parent.forbidden);
        if !Subset(lease, parent) {
          return None;
        }
      }
      if lease.depth > config.maxDepth || lease.capabilities * lease.forbidden != {} {
        return None;
      }
      if oversize || |leases.order| + |uses.order| >= config.maxRecords || lease.leaseId in leases.rows {
        return None;
      }
      leases := Table(leases.rows[lease.leaseId := lease], leases.order + [lease.leaseId]);
      return Some(lease);
    }

    method Validate(q: ValidateRequest, now: real, oversize: bool) returns (r: Option<Lease>)
      modifies this
      ensures var after := Validated(config, old(Snapshot()), q, now, oversize);
              && Snapshot() == (if after.Some? then after.value else old(Snapshot()))
              && r == (if after.Some? then Some(after.value.leases.rows[q.leaseId]) else None)
    {
      if !IsIdentifier(q.nonce) {
        return None;
      }
      var chain := Chain(q.leaseId, now);
      if chain.None? || chain.value == [] || !Authorizes(config, chain.value[0], q) {
        return None;
      }
      var key := UseKey(q.leaseId, q.nonce);
      if oversize || |leases.order| + |uses.order| >= config.maxRecords || key in uses.rows
          || q.leaseId !in leases.rows {
        return None;
      }
      var lease := chain.value[0].(useCount := chain.value[0].useCount + 1);
      uses := Table(uses.rows[key := Use(q.leaseId, q.nonce)], uses.order + [key]);
      leases := Table(leases.rows[q.leaseId := lease], leases.order);
      return Some(lease);
    }

    // True when the lease is live for this principal; false is the ControlError.
    method CheckLive(leaseId: string, subject: string, sessionId: string, now: real) returns (ok: bool)
      ensures ok == (var chain := ChainOf(config, Snapshot(), leaseId, now);
                     chain.Some? && chain.value != [] && chain.value[0].subject == subject
                         && chain.value[0].sessionId == sessionId)
    {
      var chain := Chain(leaseId, now);
      if chain.None? || chain.value == [] {
        return false;
      }
      return chain.value[0].subject == subject && chain.value[0].sessionId == sessionId;
    }

    method Revoke(leaseId: string, oversize: bool) returns (ok: bool)
      modifies this
      ensures var after := Revoked(old(Snapshot()), leaseId, oversize);
              ok == after.Some? && Snapshot() == (if after.Some? then after.value else old(Snapshot()))
    {
      if !IsIdentifier(leaseId) || leaseId !in leases.rows || oversize {
        return false;
      }
      leases := Table(leases.rows[leaseId := leases.rows[leaseId].(revoked := true)], leases.order);
      return true;
    }

    // Every stored lease, in insertion order.
    method ReadAll() returns (r: Option<seq<Lease>>)
      ensures r == Records(leases, leases.order)
    {
      var records: seq<Lease> := [];
      var i := 0;
      while i < |leases.order|
        invariant 0 <= i <= |leases.order|
        invariant forall k :: 0 <= k < i ==> leases.order[k] in leases.rows
        invariant Records(leases, leases.order[..i]) == Some(records)
      {
        var id := leases.order[i];
        assert leases.order == leases.order[..i] + leases.order[i..];
        RecordsAppend(leases, leases.order[..i], leases.order[i..]);
        if id !in leases.rows {
          return None;
        }
        assert leases.order[..i + 1] == leases.order[..i] + [id];
        RecordsStep(leases, leases.order[..i], id);
        records := records + [leases.rows[id]];
        i := i + 1;
      }
      assert leases.order[..i] == leases.order;
      return Some(records);
    }

    // One round: a row selected early in it already counts for the rows after it.
    method SelectChildren(records: seq<Lease>, before: set<string>) returns (selected: set<string>)
      ensures selected == Round(records, before)
    {
      selected := before;
      for k := 0 to |records|
        invariant Round(records[k..], selected) == Round(records, before)
      {
        if records[k].parentId.Some? && records[k].parentId.value in selected {
          selected := selected + {records[k].leaseId};
        }
      }
    }

    method PickRows(records: seq<Lease>, selected: set<string>) returns (rows: seq<Lease>)
      ensures rows == Selected(records, selected)
    {
      rows := [];
      for k := 0 to |records|
        invariant rows + Selected(records[k..], selected) == Selected(records, selected)
      {
        if records[k].leaseId in selected {
          rows := rows + [records[k]];
        }
      }
      assert rows + [] == rows;
    }

    method Tree(leaseId: string) returns (r: Option<seq<Lease>>)
      ensures r == TreeOf(config, Snapshot(), leaseId)
    {
      var read := ReadAll();
      if read.None? {
        return None;
      }
      if !IsIdentifier(leaseId) {
        return None;
      }
      var records, selected := read.value, {leaseId};
      for round := 0 to config.maxDepth + 1
        invariant Rounds(records, selected, config.maxDepth + 1 - round)
            == Rounds(records, {leaseId}, config.maxDepth + 1)
      {
        selected := SelectChildren(records, selected);
      }
      var rows := PickRows(records, selected);
      return Some(rows);
    }
  }
}
