/** authority.py: what holds in every store that any run of issue, validate and revoke steps can
    reach, whatever the clock shows at each step. */
module AuthorityHistory {
  import opened Sequences
  import opened AgentState
  import opened Authority

  datatype Op =
    | IssueOp(issue: IssueRequest, leaseId: Uuid, nonce: Uuid, draftNow: real, chainNow: real, oversize: bool)
    | ValidateOp(use: ValidateRequest, now: real, oversize: bool)
    | RevokeOp(target: string, oversize: bool)

  function Attempt(cfg: Config, s: State, op: Op): Option<State> {
    match op
    case IssueOp(q, leaseId, nonce, draftNow, chainNow, oversize) =>
      Issued(cfg, s, q, leaseId, nonce, draftNow, chainNow, oversize)
    case ValidateOp(q, now, oversize) => Validated(cfg, s, q, now, oversize)
    case RevokeOp(leaseId, oversize) => Revoked(s, leaseId, oversize)
  }

  function Step(cfg: Config, s: State, op: Op): State {
    var after := Attempt(cfg, s, op);
    if after.Some? then after.value else s
  }

  function Run(cfg: Config, ops: seq<Op>): State {
    if ops == [] then EMPTY else Step(cfg, Run(cfg, ops[..|ops| - 1]), ops[|ops| - 1])
  }

  predicate Accepted(cfg: Config, ops: seq<Op>, i: nat)
    requires i < |ops|
  {
    Attempt(cfg, Run(cfg, ops[..i]), ops[i]).Some?
  }

  // ----- The invariant -----

  ghost predicate LeaseOk(cfg: Config, s: State, id: string)
    requires id in s.leases.rows
  {
    var lease := s.leases.rows[id];
    && lease.leaseId == id && IsHex32(id)
    && lease.depth <= cfg.maxDepth
    && lease.capabilities !! lease.forbidden
    && (lease.parentId.Some? ==>
          lease.parentId.value in s.leases.rows && Subset(lease, s.leases.rows[lease.parentId.value]))
    && |UseKeysOf(s.uses.order, id)| == lease.useCount
  }

  ghost predicate UseOk(s: State, key: string)
    requires key in s.uses.rows
  {
    var use := s.uses.rows[key];
    use.leaseId in s.leases.rows && key == UseKey(use.leaseId, use.nonce)
  }

  ghost predicate Inv(cfg: Config, s: State) {
    && s.leases.Valid() && s.uses.Valid()
    && (forall id :: id in s.leases.rows ==> LeaseOk(cfg, s, id))
    && (forall key :: key in s.uses.rows ==> UseOk(s, key))
  }

  // A lease followed by its parent, its parent's parent, and so on to the root.
  ghost function Ancestry(cfg: Config, s: State, id: string): (path: seq<Lease>)
    requires Inv(cfg, s) && id in s.leases.rows
    ensures |path| >= 1 && path[0] == s.leases.rows[id]
    decreases s.leases.rows[id].depth
  {
    assert LeaseOk(cfg, s, id);
    var lease := s.leases.rows[id];
    [lease] + (if lease.parentId.Some? then Ancestry(cfg, s, lease.parentId.value) else [])
  }

  ghost predicate Unrevoked(path: seq<Lease>) { forall lease :: lease in path ==> !lease.revoked }

  ghost predicate AllLive(path: seq<Lease>, now: real) {
    forall lease :: lease in path ==> !lease.revoked && InWindow(lease, now)
  }

  // ----- The guards never fire -----

  lemma KeyOwner(key: string, leaseId: string, use: Use)
    requires IsHex32(leaseId) && IsHex32(use.leaseId)
    requires key == UseKey(use.leaseId, use.nonce)
    ensures BelongsTo(key, leaseId) <==> use.leaseId == leaseId
  {
    assert key[..32] == use.leaseId;
    if BelongsTo(key, leaseId) {
      assert (leaseId + ":")[..32] == leaseId;
    }
    if use.leaseId == leaseId {
      assert key == leaseId + ":" + use.nonce;
    }
  }

  lemma {:induction false} UseKeyMembers(order: seq<string>, leaseId: string)
    ensures forall key :: key in UseKeysOf(order, leaseId) <==> key in order && BelongsTo(key, leaseId)
  {
    if order != [] {
      UseKeyMembers(order[1..], leaseId);
      assert order == [order[0]] + order[1..];
    }
  }

  lemma {:induction false} UseKeysAppend(order: seq<string>, key: string, leaseId: string)
    ensures UseKeysOf(order + [key], leaseId)
            == UseKeysOf(order, leaseId) + (if BelongsTo(key, leaseId) then [key] else [])
  {
    if order == [] {
      assert [key][1..] == [] && [] + [key] == [key];
      assert [key] + [] == [key];
    } else {
      UseKeysAppend(order[1..], key, leaseId);
      var longer := order + [key];
      assert longer[1..] == order[1..] + [key] && longer[0] == order[0];
      Associate(if BelongsTo(order[0], leaseId) then [order[0]] else [], UseKeysOf(order[1..], leaseId),
                if BelongsTo(key, leaseId) then [key] else []);
    }
  }

  lemma UsesAlwaysConsistent(cfg: Config, s: State, id: string)
    requires Inv(cfg, s) && id in s.leases.rows
    ensures UsesConsistent(s, id, s.leases.rows[id].useCount)
  {
    UseKeyMembers(s.uses.order, id);
    assert LeaseOk(cfg, s, id);
    forall key | key in UseKeysOf(s.uses.order, id)
      ensures key in s.uses.rows && s.uses.rows[key].leaseId == id
    {
      assert UseOk(s, key);
      var use := s.uses.rows[key];
      assert LeaseOk(cfg, s, use.leaseId);
      KeyOwner(key, id, use);
    }
  }

  lemma LiveStep(lease: Lease, rest: seq<Lease>, now: real)
    ensures AllLive([lease] + rest, now) <==> !lease.revoked && InWindow(lease, now) && AllLive(rest, now)
  {
    var path := [lease] + rest;
    assert forall x :: x in path <==> x == lease || x in rest;
  }

  // One turn of the loop at an honest lease: only revocation and the clock can stop it.
  lemma WalkTurn(cfg: Config, s: State, id: string, seen: set<string>, chain: seq<Lease>, now: real)
    requires Inv(cfg, s) && id in s.leases.rows && id !in seen && |chain| <= cfg.maxDepth
    ensures var lease := s.leases.rows[id];
            Walk(cfg, s, Some(id), seen, chain, now)
            == if lease.revoked || !InWindow(lease, now) then None
               else Walk(cfg, s, lease.parentId, seen + {id}, chain + [lease], now)
  {
    assert LeaseOk(cfg, s, id);
    UsesAlwaysConsistent(cfg, s, id);
  }

  // From any point of an honest walk, the loop ends with the rest of the ancestry or meets a dead lease.
  lemma {:induction false} WalkExact(cfg: Config, s: State, id: string, seen: set<string>, chain: seq<Lease>, now: real)
    requires Inv(cfg, s) && id in s.leases.rows
    requires |chain| + s.leases.rows[id].depth <= cfg.maxDepth
    requires forall x :: x in seen ==> x in s.leases.rows && s.leases.rows[x].depth > s.leases.rows[id].depth
    ensures Walk(cfg, s, Some(id), seen, chain, now)
            == if AllLive(Ancestry(cfg, s, id), now) then Some(chain + Ancestry(cfg, s, id)) else None
    decreases s.leases.rows[id].depth
  {
    assert LeaseOk(cfg, s, id);
    WalkTurn(cfg, s, id, seen, chain, now);
    var lease := s.leases.rows[id];
    var rest := if lease.parentId.Some? then Ancestry(cfg, s, lease.parentId.value) else [];
    assert Ancestry(cfg, s, id) == [lease] + rest;
    LiveStep(lease, rest, now);
    assert (chain + [lease]) + rest == chain + ([lease] + rest);
    assert (chain + [lease]) + [] == chain + [lease];
    if lease.parentId.Some? && !lease.revoked && InWindow(lease, now) {
      WalkExact(cfg, s, lease.parentId.value, seen + {id}, chain + [lease], now);
    }
  }

  lemma {:induction false} AncestryLinked(cfg: Config, s: State, id: string)
    requires Inv(cfg, s) && id in s.leases.rows
    ensures Linked(Ancestry(cfg, s, id))
    decreases s.leases.rows[id].depth
  {
    assert LeaseOk(cfg, s, id);
    var lease := s.leases.rows[id];
    if lease.parentId.Some? {
      AncestryLinked(cfg, s, lease.parentId.value);
    }
  }

  // Each ancestor's window contains the lease's own.
  lemma {:induction false} WindowsNest(path: seq<Lease>, now: real)
    requires Linked(path) && path != [] && InWindow(path[0], now)
    ensures forall lease :: lease in path ==> InWindow(lease, now)
  {
    if |path| > 1 {
      assert Subset(path[0], path[1]);
      forall i | 0 <= i < |path[1..]| - 1 ensures Subset(path[1..][i], path[1..][i + 1]) {
        assert Subset(path[i + 1], path[i + 2]);
      }
      WindowsNest(path[1..], now);
      assert path == [path[0]] + path[1..];
    }
  }

  ghost predicate Live(cfg: Config, s: State, id: string, now: real)
    requires Inv(cfg, s)
  {
    && id in s.leases.rows && Unrevoked(Ancestry(cfg, s, id))
    && s.leases.rows[id].issuedAt <= now < s.leases.rows[id].expiresAt
  }

  lemma HexIsIdentifier(id: string)
    requires IsHex32(id)
    ensures IsIdentifier(id)
  {
  }

  lemma ChainInInvariant(cfg: Config, s: State, id: string, now: real)
    requires Inv(cfg, s)
    ensures ChainOf(cfg, s, id, now) == if Live(cfg, s, id, now) then Some(Ancestry(cfg, s, id)) else None
  {
    if id in s.leases.rows {
      assert LeaseOk(cfg, s, id);
      HexIsIdentifier(id);
      var path := Ancestry(cfg, s, id);
      WalkExact(cfg, s, id, {}, [], now);
      AncestryLinked(cfg, s, id);
      assert [] + path == path;
      if InWindow(path[0], now) {
        WindowsNest(path, now);
      } else {
        assert path[0] in path;
      }
    }
  }

  // ----- The invariant is inductive -----

  lemma FreshLeaseHasNoUses(cfg: Config, s: State, id: string)
    requires Inv(cfg, s) && IsHex32(id) && id !in s.leases.rows
    ensures UseKeysOf(s.uses.order, id) == []
  {
    UseKeyMembers(s.uses.order, id);
    var keys := UseKeysOf(s.uses.order, id);
    if keys != [] {
      var key := keys[0];
      assert key in keys && UseOk(s, key);
      assert LeaseOk(cfg, s, s.uses.rows[key].leaseId);
      KeyOwner(key, id, s.uses.rows[key]);
    }
  }

  // What an accepted issue adds.
  ghost predicate Adds(cfg: Config, s: State, s': State, lease: Lease) {
    && s'.uses == s.uses
    && lease.leaseId !in s.leases.rows
    && s'.leases == Table(s.leases.rows[lease.leaseId := lease], s.leases.order + [lease.leaseId])
    && IsHex32(lease.leaseId) && lease.useCount == 0 && lease.depth <= cfg.maxDepth
    && lease.capabilities !! lease.forbidden
    && (lease.parentId.Some? ==>
          lease.parentId.value in s.leases.rows && Subset(lease, s.leases.rows[lease.parentId.value]))
  }

  lemma UnderLiveParent(cfg: Config, s: State, draft: Lease, now: real)
    requires Inv(cfg, s) && draft.parentId.Some? && Attenuated(cfg, s, draft, now).Some?
    ensures draft.parentId.value in s.leases.rows
    ensures Subset(Attenuated(cfg, s, draft, now).value, s.leases.rows[draft.parentId.value])
  {
    ChainInInvariant(cfg, s, draft.parentId.value, now);
  }

  lemma IssueAdds(cfg: Config, s: State, op: Op) returns (lease: Lease)
    requires Inv(cfg, s) && op.IssueOp? && Attempt(cfg, s, op).Some?
    ensures Adds(cfg, s, Attempt(cfg, s, op).value, lease)
  {
    var draft := DraftLease(cfg, op.issue, op.leaseId, op.nonce, op.draftNow).value;
    lease := Attenuated(cfg, s, draft, op.chainNow).value;
    NothingShared(lease.capabilities, lease.forbidden);
    if draft.parentId.Some? {
      UnderLiveParent(cfg, s, draft, op.chainNow);
    }
  }

  lemma AddedLeaseOk(cfg: Config, s: State, s': State, lease: Lease, id: string)
    requires Inv(cfg, s) && Adds(cfg, s, s', lease) && id in s'.leases.rows
    ensures LeaseOk(cfg, s', id)
  {
    if id in s.leases.rows {
      assert LeaseOk(cfg, s, id);
    } else {
      FreshLeaseHasNoUses(cfg, s, id);
    }
  }

  lemma IssueKeepsInv(cfg: Config, s: State, op: Op)
    requires Inv(cfg, s) && op.IssueOp? && Attempt(cfg, s, op).Some?
    ensures Inv(cfg, Attempt(cfg, s, op).value)
  {
    var s' := Attempt(cfg, s, op).value;
    var lease := IssueAdds(cfg, s, op);
    AddKeepsInv(cfg, s, s', lease);
  }

  lemma AddKeepsInv(cfg: Config, s: State, s': State, lease: Lease)
    requires Inv(cfg, s) && Adds(cfg, s, s', lease)
    ensures Inv(cfg, s')
  {
    InsertValid(s.leases, lease.leaseId, lease);
    forall id | id in s'.leases.rows ensures LeaseOk(cfg, s', id) {
      AddedLeaseOk(cfg, s, s', lease, id);
    }
    forall key | key in s'.uses.rows ensures UseOk(s', key) {
      assert UseOk(s, key);
    }
  }

  // What an accepted validation adds.
  ghost predicate AddsUse(s: State, s': State, q: ValidateRequest) {
    && q.leaseId in s.leases.rows
    && var lease, key := s.leases.rows[q.leaseId], UseKey(q.leaseId, q.nonce);
       && key !in s.uses.rows
       && s'.uses == Table(s.uses.rows[key := Use(q.leaseId, q.nonce)], s.uses.order + [key])
       && s'.leases == Table(s.leases.rows[q.leaseId := lease.(useCount := lease.useCount + 1)], s.leases.order)
  }

  lemma ValidateUses(cfg: Config, s: State, op: Op)
    requires Inv(cfg, s) && op.ValidateOp? && Attempt(cfg, s, op).Some?
    ensures AddsUse(s, Attempt(cfg, s, op).value, op.use)
  {
    ChainInInvariant(cfg, s, op.use.leaseId, op.now);
  }

  lemma RecordedLeaseOk(cfg: Config, s: State, s': State, q: ValidateRequest, id: string)
    requires Inv(cfg, s) && AddsUse(s, s', q) && id in s'.leases.rows
    ensures LeaseOk(cfg, s', id)
  {
    var key := UseKey(q.leaseId, q.nonce);
    assert LeaseOk(cfg, s, id) && LeaseOk(cfg, s, q.leaseId);
    UseKeysAppend(s.uses.order, key, id);
    KeyOwner(key, id, Use(q.leaseId, q.nonce));
  }

  lemma ValidateKeepsInv(cfg: Config, s: State, op: Op)
    requires Inv(cfg, s) && op.ValidateOp? && Attempt(cfg, s, op).Some?
    ensures Inv(cfg, Attempt(cfg, s, op).value)
  {
    ValidateUses(cfg, s, op);
    RecordKeepsInv(cfg, s, Attempt(cfg, s, op).value, op.use);
  }

  lemma RecordKeepsInv(cfg: Config, s: State, s': State, q: ValidateRequest)
    requires Inv(cfg, s) && AddsUse(s, s', q)
    ensures Inv(cfg, s')
  {
    var key := UseKey(q.leaseId, q.nonce);
    InsertValid(s.uses, key, Use(q.leaseId, q.nonce));
    forall id | id in s'.leases.rows ensures LeaseOk(cfg, s', id) {
      RecordedLeaseOk(cfg, s, s', q, id);
    }
    forall k | k in s'.uses.rows ensures UseOk(s', k) {
      if k != key {
        assert UseOk(s, k);
      }
    }
  }

  lemma RevokeKeepsInv(cfg: Config, s: State, op: Op)
    requires Inv(cfg, s) && op.RevokeOp? && Attempt(cfg, s, op).Some?
    ensures Inv(cfg, Attempt(cfg, s, op).value)
  {
    var s' := Attempt(cfg, s, op).value;
    forall id | id in s'.leases.rows ensures LeaseOk(cfg, s', id) {
      assert LeaseOk(cfg, s, id);
    }
    forall key | key in s'.uses.rows ensures UseOk(s', key) {
      assert UseOk(s, key);
    }
  }

  lemma {:induction false} RunKeepsInv(cfg: Config, ops: seq<Op>)
    ensures Inv(cfg, Run(cfg, ops))
  {
    if ops != [] {
      var s, op := Run(cfg, ops[..|ops| - 1]), ops[|ops| - 1];
      RunKeepsInv(cfg, ops[..|ops| - 1]);
      if Attempt(cfg, s, op).Some? {
        match op
        case IssueOp(_, _, _, _, _, _) => IssueKeepsInv(cfg, s, op);
        case ValidateOp(_, _, _) => ValidateKeepsInv(cfg, s, op);
        case RevokeOp(_, _) => RevokeKeepsInv(cfg, s, op);
      }
    }
  }

  // ----- Main results -----

  // In every reachable store `_chain` succeeds exactly when the lease exists, nothing on its ancestor
  // path is revoked and the clock is inside its own window; it then returns that path. So no cycle,
  // depth, replay-count, binding or subset guard ever refuses an honest history.
  lemma ChainExact(cfg: Config, ops: seq<Op>, id: string, now: real)
    ensures Inv(cfg, Run(cfg, ops))
    ensures ChainOf(cfg, Run(cfg, ops), id, now)
            == if Live(cfg, Run(cfg, ops), id, now) then Some(Ancestry(cfg, Run(cfg, ops), id)) else None
  {
    RunKeepsInv(cfg, ops);
    ChainInInvariant(cfg, Run(cfg, ops), id, now);
  }

  // ----- `_chain` on a store that may have been tampered with -----

  ghost predicate Standing(s: State, lease: Lease, now: real) {
    && lease.leaseId in s.leases.rows && s.leases.rows[lease.leaseId] == lease
    && !lease.revoked && lease.issuedAt <= now < lease.expiresAt
    && UsesAgree(s, lease.leaseId + ":", lease.leaseId, lease.useCount)
  }

  // As many uses are listed under the lease's prefix as it counts, and all of them name the lease.
  ghost predicate UsesAgree(s: State, prefix: string, id: string, count: nat) {
    && |Filter(s.uses.order, key => prefix <= key)| == count
    && forall key :: key in s.uses.order && prefix <= key ==> key in s.uses.rows && s.uses.rows[key].leaseId == id
  }

  lemma {:induction false} UseKeysFiltered(order: seq<string>, id: string)
    ensures UseKeysOf(order, id) == Filter(order, key => id + ":" <= key)
  {
    if order != [] {
      UseKeysFiltered(order[1..], id);
    }
  }

  lemma ConsistentExact(s: State, id: string, count: nat)
    ensures UsesConsistent(s, id, count) <==> UsesAgree(s, id + ":", id, count)
  {
    UseKeysFiltered(s.uses.order, id);
    UseKeyMembers(s.uses.order, id);
  }

  // A path of distinct standing leases, each under the next, from this id to a root.
  ghost predicate Standings(s: State, path: seq<Lease>, now: real) {
    && (forall i :: 0 <= i < |path| ==> Standing(s, path[i], now))
    && (forall i, j :: 0 <= i < j < |path| ==> path[i].leaseId != path[j].leaseId)
    && (forall i :: 0 <= i < |path| - 1 ==> path[i].parentId == Some(path[i + 1].leaseId))
  }

  ghost predicate IsChain(cfg: Config, s: State, id: string, path: seq<Lease>, now: real) {
    && 1 <= |path| <= cfg.maxDepth + 1 && path[0].leaseId == id && path[|path| - 1].parentId == None
    && Standings(s, path, now) && Linked(path)
  }

  function NextOf(path: seq<Lease>, id: string): Option<string> {
    if path == [] then Some(id) else path[|path| - 1].parentId
  }

  ghost predicate AllSeen(path: seq<Lease>, seen: set<string>) {
    forall lease :: lease in path ==> lease.leaseId in seen
  }

  lemma {:induction false} WalkSound(cfg: Config, s: State, id: string, seen: set<string>, chain: seq<Lease>, now: real)
    requires Standings(s, chain, now) && AllSeen(chain, seen) && |chain| <= cfg.maxDepth + 1
    requires chain != [] ==> chain[0].leaseId == id
    requires Walk(cfg, s, NextOf(chain, id), seen, chain, now).Some?
    ensures var path := Walk(cfg, s, NextOf(chain, id), seen, chain, now).value;
            && 1 <= |path| <= cfg.maxDepth + 1 && path[0].leaseId == id && path[|path| - 1].parentId == None
            && Standings(s, path, now)
    decreases cfg.maxDepth + 1 - |chain|
  {
    if NextOf(chain, id).Some? {
      var next := NextOf(chain, id).value;
      var lease := s.leases.rows[next];
      var longer := chain + [lease];
      ConsistentExact(s, next, lease.useCount);
      assert Standing(s, lease, now);
      forall i | 0 <= i < |chain| ensures longer[i].leaseId != next {
        assert chain[i] in chain;
      }
      WalkSound(cfg, s, id, seen + {next}, longer, now);
    }
  }

  lemma {:induction false} WalkComplete(cfg: Config, s: State, id: string, path: seq<Lease>, k: nat, seen: set<string>,
                                        now: real)
    requires IsChain(cfg, s, id, path, now) && k <= |path|
    requires forall i :: k <= i < |path| ==> path[i].leaseId !in seen
    ensures Walk(cfg, s, NextOf(path[..k], id), seen, path[..k], now) == Some(path)
    decreases |path| - k
  {
    if k == |path| {
      assert path[..k] == path;
    } else {
      assert Standing(s, path[k], now);
      ConsistentExact(s, path[k].leaseId, path[k].useCount);
      assert path[..k + 1] == path[..k] + [path[k]];
      assert k > 0 ==> path[k - 1].parentId == Some(path[k].leaseId);
      WalkComplete(cfg, s, id, path, k + 1, seen + {path[k].leaseId}, now);
    }
  }

  // In any store at all, also one rewritten by hand: `_chain` returns exactly the path of distinct,
  // unrevoked, current leases with agreeing use records, each a subset of the next, from the lease to a
  // root within the depth limit, and refuses where there is none.
  lemma ChainAnywhere(cfg: Config, s: State, id: string, path: seq<Lease>, now: real)
    ensures ChainOf(cfg, s, id, now) == Some(path) <==> IsIdentifier(id) && IsChain(cfg, s, id, path, now)
  {
    if ChainOf(cfg, s, id, now) == Some(path) {
      WalkSound(cfg, s, id, {}, [], now);
    }
    if IsIdentifier(id) && IsChain(cfg, s, id, path, now) {
      WalkComplete(cfg, s, id, path, 0, {}, now);
    }
  }

  lemma {:induction false} AncestorsBound(path: seq<Lease>, capabilities: set<string>, resources: seq<Resource>)
    requires Linked(path) && path != []
    requires capabilities <= path[0].capabilities && capabilities !! path[0].forbidden
    requires ResourcesWithin(resources, path[0].scopes)
    ensures forall a :: a in path ==>
              capabilities <= a.capabilities && capabilities !! a.forbidden && ResourcesWithin(resources, a.scopes)
  {
    if |path| > 1 {
      assert Subset(path[0], path[1]);
      forall i | 0 <= i < |path[1..]| - 1 ensures Subset(path[1..][i], path[1..][i + 1]) {
        assert Subset(path[i + 1], path[i + 2]);
      }
      forall r | r in resources ensures ResourceWithin(r, path[1].scopes) {
        assert ResourceWithin(r, path[0].scopes);
        ContainedTransitive(r.resolved.value, path[0].scopes, path[1].scopes);
      }
      AncestorsBound(path[1..], capabilities, resources);
      assert path == [path[0]] + path[1..];
    }
  }

  // Whatever an accepted use asked for lies inside the authority of every ancestor, at any depth.
  lemma AcceptedUseIsConfined(cfg: Config, ops: seq<Op>, i: nat)
    requires i < |ops| && ops[i].ValidateOp? && Accepted(cfg, ops, i)
    ensures var s := Run(cfg, ops[..i]); var q := ops[i].use;
            && Inv(cfg, s) && q.leaseId in s.leases.rows
            && forall a :: a in Ancestry(cfg, s, q.leaseId) ==>
                 && !a.revoked && InWindow(a, ops[i].now)
                 && q.repository == a.repository && q.environment == a.environment
                 && q.capabilities <= a.capabilities && q.capabilities !! a.forbidden
                 && ResourcesWithin(q.resources, a.scopes)
  {
    var s, q := Run(cfg, ops[..i]), ops[i].use;
    ChainExact(cfg, ops[..i], q.leaseId, ops[i].now);
    var path := Ancestry(cfg, s, q.leaseId);
    AncestryLinked(cfg, s, q.leaseId);
    WindowsNest(path, ops[i].now);
    AncestorsBound(path, q.capabilities, q.resources);
    SameBinding(path);
  }

  lemma {:induction false} SameBinding(path: seq<Lease>)
    requires Linked(path) && path != []
    ensures forall a :: a in path ==> a.repository == path[0].repository && a.environment == path[0].environment
  {
    if |path| > 1 {
      assert Subset(path[0], path[1]);
      forall i | 0 <= i < |path[1..]| - 1 ensures Subset(path[1..][i], path[1..][i + 1]) {
        assert Subset(path[i + 1], path[i + 2]);
      }
      SameBinding(path[1..]);
      assert path == [path[0]] + path[1..];
    }
  }

  // ----- What is accepted, and what it changes -----

  // Some accepted operation of the run used this lease with this nonce.
  ghost predicate UsedBefore(cfg: Config, ops: seq<Op>, leaseId: string, nonce: string) {
    exists i :: 0 <= i < |ops| && UsedAt(cfg, ops, i, leaseId, nonce)
  }

  predicate UsedAt(cfg: Config, ops: seq<Op>, i: nat, leaseId: string, nonce: string)
    requires i < |ops|
  {
    && ops[i].ValidateOp? && ops[i].use.leaseId == leaseId && ops[i].use.nonce == nonce
    && Accepted(cfg, ops, i)
  }

  lemma UsedAtPrefix(cfg: Config, ops: seq<Op>, n: nat, i: nat, leaseId: string, nonce: string)
    requires i < n <= |ops|
    ensures UsedAt(cfg, ops[..n], i, leaseId, nonce) == UsedAt(cfg, ops, i, leaseId, nonce)
  {
    assert ops[..n][..i] == ops[..i];
  }

  lemma UsedBeforeStep(cfg: Config, ops: seq<Op>, leaseId: string, nonce: string)
    requires ops != []
    ensures var n := |ops| - 1;
            UsedBefore(cfg, ops, leaseId, nonce)
            <==> UsedBefore(cfg, ops[..n], leaseId, nonce) || UsedAt(cfg, ops, n, leaseId, nonce)
  {
    var n := |ops| - 1;
    forall i | 0 <= i < n ensures UsedAt(cfg, ops[..n], i, leaseId, nonce) == UsedAt(cfg, ops, i, leaseId, nonce) {
      UsedAtPrefix(cfg, ops, n, i, leaseId, nonce);
    }
    if UsedBefore(cfg, ops[..n], leaseId, nonce) {
      var i :| 0 <= i < n && UsedAt(cfg, ops[..n], i, leaseId, nonce);
      assert UsedAt(cfg, ops, i, leaseId, nonce);
    }
    if UsedBefore(cfg, ops, leaseId, nonce) {
      var i :| 0 <= i < |ops| && UsedAt(cfg, ops, i, leaseId, nonce);
      assert i < n ==> UsedAt(cfg, ops[..n], i, leaseId, nonce);
    }
  }

  lemma UseKeyBinds(a: string, b: string, x: string, y: string)
    requires IsHex32(a) && IsHex32(b) && UseKey(a, x) == UseKey(b, y)
    ensures a == b && x == y
  {
    assert UseKey(a, x)[..32] == a && UseKey(b, y)[..32] == b;
    assert UseKey(a, x)[33..] == x && UseKey(b, y)[33..] == y;
  }

  // The use records of a lease are the nonces it was used with.
  lemma {:induction false} UsesAreAccepted(cfg: Config, ops: seq<Op>, leaseId: string, nonce: string)
    requires IsHex32(leaseId)
    ensures UseKey(leaseId, nonce) in Run(cfg, ops).uses.rows <==> UsedBefore(cfg, ops, leaseId, nonce)
  {
    if ops != [] {
      var n := |ops| - 1;
      var s, op := Run(cfg, ops[..n]), ops[n];
      UsesAreAccepted(cfg, ops[..n], leaseId, nonce);
      UsedBeforeStep(cfg, ops, leaseId, nonce);
      RunKeepsInv(cfg, ops[..n]);
      if Attempt(cfg, s, op).Some? {
        NewUse(cfg, s, op, leaseId, nonce);
      }
    }
  }

  lemma NewUse(cfg: Config, s: State, op: Op, leaseId: string, nonce: string)
    requires Inv(cfg, s) && IsHex32(leaseId) && Attempt(cfg, s, op).Some?
    ensures UseKey(leaseId, nonce) in Attempt(cfg, s, op).value.uses.rows
            <==> UseKey(leaseId, nonce) in s.uses.rows
                 || (op.ValidateOp? && op.use.leaseId == leaseId && op.use.nonce == nonce)
  {
    match op
    case IssueOp(_, _, _, _, _, _) => var lease := IssueAdds(cfg, s, op);
    case ValidateOp(q, _, _) =>
      ValidateUses(cfg, s, op);
      assert LeaseOk(cfg, s, q.leaseId);
      if UseKey(q.leaseId, q.nonce) == UseKey(leaseId, nonce) {
        UseKeyBinds(q.leaseId, leaseId, q.nonce, nonce);
      }
    case RevokeOp(_, _) =>
  }

  // Who may use this lease for what, in the fields of the request and of the lease.
  ghost predicate Entitled(cfg: Config, lease: Lease, q: ValidateRequest) {
    && q.subject == lease.subject && q.sessionId == lease.sessionId
    && q.repository == lease.repository
    && q.environment == lease.environment && q.environment == cfg.environment
    && q.policyRevision == lease.policyRevision
    && q.capabilities <= lease.capabilities && q.capabilities !! lease.forbidden
    && q.resources != [] && forall r :: r in q.resources ==> Confined(r, lease.scopes)
  }

  lemma EntitledExact(cfg: Config, lease: Lease, q: ValidateRequest)
    ensures Authorizes(cfg, lease, q) <==> Entitled(cfg, lease, q)
  {
    ResourcesExact(q.resources, lease.scopes);
    NothingSharedExact(q.capabilities, lease.forbidden);
  }

  // In any store, tampered with or not, an accepted use has a whole chain above its lease and is entitled
  // to it; and it is refused only if one of these is missing.
  lemma UseAnywhere(cfg: Config, s: State, q: ValidateRequest, now: real, oversize: bool)
    ensures Validated(cfg, s, q, now, oversize).Some? <==>
              && IsIdentifier(q.leaseId) && IsIdentifier(q.nonce)
              && (exists path :: IsChain(cfg, s, q.leaseId, path, now) && Entitled(cfg, path[0], q))
              && UseKey(q.leaseId, q.nonce) !in s.uses.rows
              && |s.leases.order| + |s.uses.order| < cfg.maxRecords && !oversize
  {
    var chain := ChainOf(cfg, s, q.leaseId, now);
    forall path ensures chain == Some(path) <==> IsIdentifier(q.leaseId) && IsChain(cfg, s, q.leaseId, path, now) {
      ChainAnywhere(cfg, s, q.leaseId, path, now);
    }
    if chain.Some? {
      assert IsChain(cfg, s, q.leaseId, chain.value, now);
      assert Standing(s, chain.value[0], now);
      EntitledExact(cfg, chain.value[0], q);
    }
  }

  // In every reachable store a use is accepted exactly when its principal is entitled to it, the nonce
  // is an identifier that no earlier accepted use of the lease had, and the store has room. It then
  // adds this one use record and one to the lease's count, and nothing else.
  lemma UseExact(cfg: Config, ops: seq<Op>, q: ValidateRequest, now: real, oversize: bool)
    ensures Inv(cfg, Run(cfg, ops))
    ensures var s := Run(cfg, ops);
            Validated(cfg, s, q, now, oversize).Some? <==>
              && Live(cfg, s, q.leaseId, now) && Entitled(cfg, s.leases.rows[q.leaseId], q)
              && IsIdentifier(q.nonce) && !UsedBefore(cfg, ops, q.leaseId, q.nonce)
              && |s.leases.order| + |s.uses.order| < cfg.maxRecords && !oversize
    ensures var s, after := Run(cfg, ops), Validated(cfg, Run(cfg, ops), q, now, oversize);
            after.Some? ==> AddsUse(s, after.value, q)
  {
    RunKeepsInv(cfg, ops);
    var s := Run(cfg, ops);
    ChainInInvariant(cfg, s, q.leaseId, now);
    if q.leaseId in s.leases.rows {
      assert LeaseOk(cfg, s, q.leaseId);
      UsesAreAccepted(cfg, ops, q.leaseId, q.nonce);
      EntitledExact(cfg, s.leases.rows[q.leaseId], q);
    }
  }

  // What every issue must bring, with or without a parent.
  ghost predicate Issuable(cfg: Config, q: IssueRequest) {
    && IsIdentifier(q.issuer) && IsIdentifier(q.issuerSession) && IsIdentifier(q.subject) && IsIdentifier(q.sessionId)
    && 1 <= q.ttlSeconds <= cfg.maxTtl && q.environment == cfg.environment && q.policyRevision != ""
    && 1 <= |q.scopes| <= MAX_SCOPES && (forall v :: v in q.scopes ==> IsScope(v))
    && q.capabilities != {} && q.capabilities <= CAPABILITIES && q.forbidden <= CAPABILITIES
    && q.capabilities !! q.forbidden
  }

  // What a parent lease lets its holder hand on, in fields.
  ghost predicate MayDelegate(cfg: Config, s: State, q: IssueRequest, now: real, chainNow: real)
    requires Inv(cfg, s) && q.parentId.Some?
  {
    && Live(cfg, s, q.parentId.value, chainNow)
    && var parent := s.leases.rows[q.parentId.value];
       && q.issuer == parent.subject && q.issuerSession == parent.sessionId
       && q.repository == parent.repository && q.environment == parent.environment
       && q.policyRevision == parent.policyRevision
       && parent.issuedAt <= now && now + q.ttlSeconds as real <= parent.expiresAt
       && parent.depth < cfg.maxDepth
       && q.capabilities <= parent.capabilities && q.capabilities !! parent.forbidden
       && forall v :: v in q.scopes ==> Reaches(v, parent.scopes)
  }

  // The path the text names lies under one of the scopes.
  ghost predicate Reaches(text: string, scopes: set<string>) {
    exists p :: p in scopes && ParsePath(text).IsRelativeTo(ParsePath(p))
  }

  // The lease an accepted issue stores: parent decides depth and what else is forbidden.
  ghost predicate NewLease(s: State, q: IssueRequest, leaseId: Uuid, nonce: Uuid, now: real, lease: Lease)
    requires q.parentId.Some? ==> q.parentId.value in s.leases.rows
  {
    && lease.leaseId == leaseId && lease.nonce == nonce && lease.parentId == q.parentId
    && lease.issuer == q.issuer && lease.issuerSession == q.issuerSession
    && lease.subject == q.subject && lease.sessionId == q.sessionId
    && lease.repository == q.repository && lease.environment == q.environment
    && lease.policyRevision == q.policyRevision && lease.capabilities == q.capabilities
    && lease.issuedAt == now && lease.expiresAt == now + q.ttlSeconds as real
    && !lease.revoked && lease.useCount == 0
    && (forall x :: x in lease.scopes <==> exists v :: v in q.scopes && IsScope(v) && x == AsPosix(ParsePath(v)))
    && (if q.parentId.None? then lease.depth == 0 && lease.forbidden == q.forbidden
        else var parent := s.leases.rows[q.parentId.value];
             lease.depth == parent.depth + 1 && lease.forbidden == q.forbidden + parent.forbidden)
  }

  lemma ScopesUnder(values: seq<string>, parent: set<string>)
    requires Scopes(values).Some?
    ensures (forall x :: x in Scopes(values).value ==> Contained(x, parent))
            <==> forall v :: v in values ==> Reaches(v, parent)
  {
    var stored := Scopes(values).value;
    forall v | v in values
      ensures AsPosix(ParsePath(v)) in stored && ParsePath(AsPosix(ParsePath(v))) == ParsePath(v)
      ensures Contained(AsPosix(ParsePath(v)), parent) <==> Reaches(v, parent)
    {
      ScopeRoundTrip(v);
    }
  }

  lemma DraftExact(cfg: Config, q: IssueRequest, leaseId: Uuid, nonce: Uuid, now: real)
    ensures DraftLease(cfg, q, leaseId, nonce, now).Some? && q.capabilities !! q.forbidden <==> Issuable(cfg, q)
    ensures var draft := DraftLease(cfg, q, leaseId, nonce, now);
            draft.Some? ==>
              && draft.value == Lease(leaseId, q.issuer, q.issuerSession, q.subject, q.sessionId, q.repository,
                   q.environment, q.policyRevision, Scopes(q.scopes).value, q.capabilities, q.forbidden,
                   now, now + q.ttlSeconds as real, q.parentId, 0, nonce, false, 0)
              && Scopes(q.scopes).Some?
  {
    ScopesGiven(q.scopes);
  }

  lemma AttenuatedExact(cfg: Config, s: State, q: IssueRequest, leaseId: Uuid, nonce: Uuid, now: real, chainNow: real)
    requires Inv(cfg, s) && DraftLease(cfg, q, leaseId, nonce, now).Some? && q.parentId.Some?
    ensures var lease := Attenuated(cfg, s, DraftLease(cfg, q, leaseId, nonce, now).value, chainNow);
            && (lease.Some? && lease.value.depth <= cfg.maxDepth && lease.value.capabilities !! lease.value.forbidden
                <==> MayDelegate(cfg, s, q, now, chainNow) && q.capabilities !! q.forbidden)
            && (lease.Some? ==> q.parentId.value in s.leases.rows && NewLease(s, q, leaseId, nonce, now, lease.value))
  {
    DraftExact(cfg, q, leaseId, nonce, now);
    ChainInInvariant(cfg, s, q.parentId.value, chainNow);
    if q.parentId.value in s.leases.rows {
      ScopesGiven(q.scopes);
      ScopesUnder(q.scopes, s.leases.rows[q.parentId.value].scopes);
    }
  }

  // In every reachable store an issue is accepted exactly when the request is well formed, a named
  // parent is live and lets its holder hand all of it on, and the store has room; it then adds exactly
  // this lease.
  lemma IssueExact(cfg: Config, ops: seq<Op>, q: IssueRequest, leaseId: Uuid, nonce: Uuid, now: real, chainNow: real,
                   oversize: bool)
    ensures Inv(cfg, Run(cfg, ops))
    ensures var s := Run(cfg, ops);
            Issued(cfg, s, q, leaseId, nonce, now, chainNow, oversize).Some? <==>
              && Issuable(cfg, q) && (q.parentId.Some? ==> MayDelegate(cfg, s, q, now, chainNow))
              && leaseId !in s.leases.rows
              && |s.leases.order| < cfg.maxLeases && |s.leases.order| + |s.uses.order| < cfg.maxRecords && !oversize
    ensures var s, after := Run(cfg, ops), Issued(cfg, Run(cfg, ops), q, leaseId, nonce, now, chainNow, oversize);
            after.Some? ==>
              && (q.parentId.Some? ==> q.parentId.value in s.leases.rows)
              && leaseId in after.value.leases.rows
              && var lease := after.value.leases.rows[leaseId];
                 && NewLease(s, q, leaseId, nonce, now, lease)
                 && after.value.leases == Table(s.leases.rows[leaseId := lease], s.leases.order + [leaseId])
                 && after.value.uses == s.uses
  {
    RunKeepsInv(cfg, ops);
    var s := Run(cfg, ops);
    DraftExact(cfg, q, leaseId, nonce, now);
    ScopesGiven(q.scopes);
    if DraftLease(cfg, q, leaseId, nonce, now).Some? {
      var draft := DraftLease(cfg, q, leaseId, nonce, now).value;
      if q.parentId.Some? {
        AttenuatedExact(cfg, s, q, leaseId, nonce, now, chainNow);
      }
      var lease := Attenuated(cfg, s, draft, chainNow);
      if lease.Some? {
        NothingSharedExact(lease.value.capabilities, lease.value.forbidden);
      }
    }
  }

  // In every reachable store a revocation is accepted exactly for a stored lease, and marks only it.
  lemma RevokeExact(cfg: Config, ops: seq<Op>, id: string, oversize: bool)
    ensures var s, after := Run(cfg, ops), Revoked(Run(cfg, ops), id, oversize);
            && (after.Some? <==> id in s.leases.rows && !oversize)
            && (after.Some? ==>
                  && after.value.leases
                     == Table(s.leases.rows[id := s.leases.rows[id].(revoked := true)], s.leases.order)
                  && after.value.uses == s.uses)
  {
    RunKeepsInv(cfg, ops);
    var s := Run(cfg, ops);
    if id in s.leases.rows {
      assert LeaseOk(cfg, s, id);
      HexIsIdentifier(id);
    }
  }

  // What any step leaves alone: use records stay, and a lease only ever gains uses or becomes revoked.
  ghost predicate Extends(a: State, b: State) {
    && a.uses.rows.Keys <= b.uses.rows.Keys
    && forall id :: id in a.leases.rows ==>
         && id in b.leases.rows
         && var x, y := a.leases.rows[id], b.leases.rows[id];
            (x.revoked ==> y.revoked) && x.useCount <= y.useCount
            && y == x.(revoked := y.revoked, useCount := y.useCount)
  }

  lemma StepExtends(cfg: Config, s: State, op: Op)
    requires Inv(cfg, s)
    ensures Extends(s, Step(cfg, s, op))
  {
    if Attempt(cfg, s, op).Some? {
      if op.IssueOp? {
        var lease := IssueAdds(cfg, s, op);
        AddExtends(cfg, s, Attempt(cfg, s, op).value, lease);
      } else if op.ValidateOp? {
        ValidateUses(cfg, s, op);
        RecordExtends(s, Attempt(cfg, s, op).value, op.use);
      } else {
        RevokeExtends(cfg, s, op);
      }
    }
  }

  lemma AddExtends(cfg: Config, s: State, s': State, lease: Lease)
    requires Adds(cfg, s, s', lease)
    ensures Extends(s, s')
  {
  }

  lemma RecordExtends(s: State, s': State, q: ValidateRequest)
    requires AddsUse(s, s', q)
    ensures Extends(s, s')
  {
  }

  lemma RevokeExtends(cfg: Config, s: State, op: Op)
    requires op.RevokeOp? && Attempt(cfg, s, op).Some?
    ensures Extends(s, Attempt(cfg, s, op).value)
  {
  }

  lemma {:induction false} RunExtendsTo(cfg: Config, ops: seq<Op>, i: nat, j: nat)
    requires i <= j <= |ops|
    ensures Extends(Run(cfg, ops[..i]), Run(cfg, ops[..j]))
    decreases j - i
  {
    if i < j {
      RunExtendsTo(cfg, ops, i, j - 1);
      assert ops[..j][..j - 1] == ops[..j - 1];
      RunKeepsInv(cfg, ops[..j - 1]);
      StepExtends(cfg, Run(cfg, ops[..j - 1]), ops[j - 1]);
      ExtendsFurther(Run(cfg, ops[..i]), Run(cfg, ops[..j - 1]), Run(cfg, ops[..j]));
    }
  }

  lemma ExtendsFurther(a: State, b: State, c: State)
    requires Extends(a, b) && Extends(b, c)
    ensures Extends(a, c)
  {
  }

  // No (lease, nonce) pair is accepted twice in any run.
  lemma NoReplay(cfg: Config, ops: seq<Op>, i: nat, j: nat)
    requires i < j < |ops| && ops[i].ValidateOp? && ops[j].ValidateOp?
    requires ops[i].use.leaseId == ops[j].use.leaseId && ops[i].use.nonce == ops[j].use.nonce
    requires Accepted(cfg, ops, i)
    ensures !Accepted(cfg, ops, j)
  {
    var key := UseKey(ops[i].use.leaseId, ops[i].use.nonce);
    assert ops[..i + 1][..i] == ops[..i];
    assert key in Run(cfg, ops[..i + 1]).uses.rows;
    RunExtendsTo(cfg, ops, i + 1, j);
    assert key in Run(cfg, ops[..j]).uses.rows;
  }

  // A revocation is final for the whole subtree: a use is accepted only if no ancestor was revoked at
  // any earlier moment of the run.
  lemma RevocationIsFinal(cfg: Config, ops: seq<Op>, i: nat, j: nat)
    requires i <= j < |ops| && ops[j].ValidateOp? && Accepted(cfg, ops, j)
    ensures var earlier, current := Run(cfg, ops[..i]), Run(cfg, ops[..j]);
            && Inv(cfg, current) && ops[j].use.leaseId in current.leases.rows
            && forall a :: a in Ancestry(cfg, current, ops[j].use.leaseId) && a.leaseId in earlier.leases.rows
                 ==> !earlier.leases.rows[a.leaseId].revoked
  {
    var s := Run(cfg, ops[..j]);
    RunExtendsTo(cfg, ops, i, j);
    ChainExact(cfg, ops[..j], ops[j].use.leaseId, ops[j].now);
    AncestryRows(cfg, s, ops[j].use.leaseId);
  }

  // After an accepted revocation no use is accepted of the lease or of anything issued below it.
  lemma RevokedSubtreeIsDead(cfg: Config, ops: seq<Op>, i: nat, j: nat)
    requires i < j < |ops| && ops[i].RevokeOp? && Accepted(cfg, ops, i) && ops[j].ValidateOp?
    requires Inv(cfg, Run(cfg, ops[..j])) && ops[j].use.leaseId in Run(cfg, ops[..j]).leases.rows
    requires Lineal(cfg, Run(cfg, ops[..j]), ops[i].target, ops[j].use.leaseId)
    ensures !Accepted(cfg, ops, j)
  {
    assert ops[..i + 1][..i] == ops[..i];
    assert Run(cfg, ops[..i + 1]).leases.rows[ops[i].target].revoked;
    if Accepted(cfg, ops, j) {
      RevocationIsFinal(cfg, ops, i + 1, j);
    }
  }

  lemma {:induction false} AncestryRows(cfg: Config, s: State, id: string)
    requires Inv(cfg, s) && id in s.leases.rows
    ensures forall a :: a in Ancestry(cfg, s, id) ==> a.leaseId in s.leases.rows && a == s.leases.rows[a.leaseId]
    decreases s.leases.rows[id].depth
  {
    assert LeaseOk(cfg, s, id);
    var lease := s.leases.rows[id];
    if lease.parentId.Some? {
      AncestryRows(cfg, s, lease.parentId.value);
    }
  }

  // ----- `tree` -----

  // id is x itself or one of its ancestors.
  ghost predicate Lineal(cfg: Config, s: State, id: string, x: string)
    requires Inv(cfg, s) && x in s.leases.rows
  {
    exists a :: a in Ancestry(cfg, s, x) && a.leaseId == id
  }

  lemma LinealStep(cfg: Config, s: State, id: string, x: string)
    requires Inv(cfg, s) && x in s.leases.rows
    ensures s.leases.rows[x].parentId.Some? ==> s.leases.rows[x].parentId.value in s.leases.rows
    ensures Lineal(cfg, s, id, x) <==>
              id == x || (s.leases.rows[x].parentId.Some? && Lineal(cfg, s, id, s.leases.rows[x].parentId.value))
  {
    assert LeaseOk(cfg, s, x);
    var lease := s.leases.rows[x];
    var path := Ancestry(cfg, s, x);
    assert lease in path;
    if lease.parentId.Some? {
      assert path == [lease] + Ancestry(cfg, s, lease.parentId.value);
    } else {
      assert path == [lease];
    }
  }

  ghost predicate AreRows(s: State, records: seq<Lease>) {
    forall r :: r in records ==> r.leaseId in s.leases.rows && s.leases.rows[r.leaseId] == r
  }

  ghost predicate HasRows(s: State, records: seq<Lease>) {
    forall x :: x in s.leases.rows ==> s.leases.rows[x] in records
  }

  lemma {:induction false} RoundGrows(records: seq<Lease>, selected: set<string>)
    ensures selected <= Round(records, selected)
    ensures forall r :: r in records && r.parentId.Some? && r.parentId.value in selected
              ==> r.leaseId in Round(records, selected)
    decreases |records|
  {
    if records != [] {
      var wider := if records[0].parentId.Some? && records[0].parentId.value in selected
                   then selected + {records[0].leaseId} else selected;
      RoundGrows(records[1..], wider);
      assert records == [records[0]] + records[1..];
    }
  }

  ghost function Subtree(cfg: Config, s: State, id: string): set<string>
    requires Inv(cfg, s)
  {
    set x | x in s.leases.rows && Lineal(cfg, s, id, x)
  }

  function DepthOf(s: State, id: string): nat { if id in s.leases.rows then s.leases.rows[id].depth else 0 }

  // A family: children of its members belong to it, and all but the head have their parent in it.
  ghost predicate Family(s: State, records: seq<Lease>, family: set<string>, head: string) {
    && head in family
    && (forall r :: r in records && r.parentId.Some? && r.parentId.value in family ==> r.leaseId in family)
    && (forall x :: x in family && x != head ==> ChildIn(s, records, family, x))
  }

  predicate ChildIn(s: State, records: seq<Lease>, family: set<string>, x: string) {
    && x in s.leases.rows && s.leases.rows[x] in records && s.leases.rows[x].leaseId == x
    && s.leases.rows[x].parentId.Some? && s.leases.rows[x].parentId.value in family
    && s.leases.rows[x].depth == DepthOf(s, s.leases.rows[x].parentId.value) + 1
  }

  // Only members of the family are selected, and all of them down to a level.
  ghost predicate Between(s: State, selected: set<string>, family: set<string>, level: nat) {
    selected <= family && forall x :: x in family && DepthOf(s, x) <= level ==> x in selected
  }

  lemma {:induction false} RoundStaysInside(s: State, records: seq<Lease>, selected: set<string>, family: set<string>)
    requires selected <= family
    requires forall r :: r in records && r.parentId.Some? && r.parentId.value in family ==> r.leaseId in family
    ensures Round(records, selected) <= family
    decreases |records|
  {
    if records != [] {
      assert records[0] in records;
      assert forall r :: r in records[1..] ==> r in records;
      var wider := if records[0].parentId.Some? && records[0].parentId.value in selected
                   then selected + {records[0].leaseId} else selected;
      RoundStaysInside(s, records[1..], wider, family);
    }
  }

  lemma RoundReaches(s: State, records: seq<Lease>, selected: set<string>, family: set<string>, head: string,
      level: nat)
    requires Family(s, records, family, head) && head in selected && Between(s, selected, family, level)
    ensures head in Round(records, selected) && Between(s, Round(records, selected), family, level + 1)
  {
    RoundStaysInside(s, records, selected, family);
    RoundGrows(records, selected);
    forall x | x in family && DepthOf(s, x) <= level + 1 ensures x in Round(records, selected) {
      if x != head {
        assert ChildIn(s, records, family, x);
      }
    }
  }

  // Each round goes one level further.
  lemma {:induction false} RoundsReach(s: State, records: seq<Lease>, selected: set<string>, family: set<string>,
                                       head: string, level: nat, n: nat)
    requires Family(s, records, family, head) && head in selected && Between(s, selected, family, level)
    ensures Between(s, Rounds(records, selected, n), family, level + n)
    decreases n
  {
    if n > 0 {
      RoundReaches(s, records, selected, family, head, level);
      RoundsReach(s, records, Round(records, selected), family, head, level + 1, n - 1);
    }
  }

  lemma {:induction false} SelectedAgree(records: seq<Lease>, a: set<string>, b: set<string>)
    requires forall r :: r in records ==> (r.leaseId in a <==> r.leaseId in b)
    ensures Selected(records, a) == Selected(records, b)
  {
    if records != [] {
      assert records[0] in records;
      assert forall r :: r in records[1..] ==> r in records;
      SelectedAgree(records[1..], a, b);
    }
  }

  lemma StoredRecords(cfg: Config, s: State)
    requires Inv(cfg, s)
    ensures Records(s.leases, s.leases.order).Some?
    ensures AreRows(s, Records(s.leases, s.leases.order).value)
    ensures HasRows(s, Records(s.leases, s.leases.order).value)
  {
    var order := s.leases.order;
    RecordsAppend(s.leases, order, []);
    var records := Records(s.leases, order).value;
    forall r | r in records ensures r.leaseId in s.leases.rows && s.leases.rows[r.leaseId] == r {
      var i :| 0 <= i < |records| && records[i] == r;
      assert order[i] in order && LeaseOk(cfg, s, order[i]);
    }
    forall x | x in s.leases.rows ensures s.leases.rows[x] in records {
      var i :| 0 <= i < |order| && order[i] == x;
      assert records[i] == s.leases.rows[x];
    }
  }

  lemma SubtreeIsFamily(cfg: Config, s: State, records: seq<Lease>, id: string)
    requires Inv(cfg, s) && AreRows(s, records) && HasRows(s, records)
    ensures Family(s, records, Subtree(cfg, s, id) + {id}, id)
  {
    var family := Subtree(cfg, s, id) + {id};
    forall r | r in records && r.parentId.Some? && r.parentId.value in family ensures r.leaseId in family {
      LinealStep(cfg, s, id, r.leaseId);
      LinealStep(cfg, s, id, r.parentId.value);
    }
    forall x | x in family && x != id ensures ChildIn(s, records, family, x) {
      LinealStep(cfg, s, id, x);
      assert LeaseOk(cfg, s, x);
    }
  }

  // Nothing at or above the head's level descends from it but itself.
  lemma HeadIsAlone(cfg: Config, s: State, id: string)
    requires Inv(cfg, s)
    ensures Between(s, {id}, Subtree(cfg, s, id) + {id}, DepthOf(s, id))
  {
    forall x | x in Subtree(cfg, s, id) && DepthOf(s, x) <= DepthOf(s, id) ensures x == id {
      Deeper(cfg, s, id, x);
    }
  }

  lemma TreeInInvariant(cfg: Config, s: State, id: string)
    requires Inv(cfg, s) && IsIdentifier(id)
    ensures Records(s.leases, s.leases.order).Some?
    ensures TreeOf(cfg, s, id) == Some(Selected(Records(s.leases, s.leases.order).value, Subtree(cfg, s, id)))
  {
    StoredRecords(cfg, s);
    var records := Records(s.leases, s.leases.order).value;
    var result := Rounds(records, {id}, cfg.maxDepth + 1);
    SubtreeIsFamily(cfg, s, records, id);
    HeadIsAlone(cfg, s, id);
    RoundsReach(s, records, {id}, Subtree(cfg, s, id) + {id}, id, DepthOf(s, id), cfg.maxDepth + 1);
    forall r | r in records ensures r.leaseId in result <==> r.leaseId in Subtree(cfg, s, id) {
      assert LeaseOk(cfg, s, r.leaseId);
      LinealStep(cfg, s, id, r.leaseId);
    }
    SelectedAgree(records, result, Subtree(cfg, s, id));
  }

  // The rows of these ids, in this order.
  ghost predicate RowsOf(s: State, records: seq<Lease>, ids: seq<string>) {
    && |records| == |ids|
    && forall i :: 0 <= i < |ids| ==> ids[i] in s.leases.rows && records[i] == s.leases.rows[ids[i]]
  }

  lemma {:induction false} SelectedRows(cfg: Config, s: State, order: seq<string>, records: seq<Lease>,
                                        ids: set<string>)
    requires Inv(cfg, s) && RowsOf(s, records, order)
    ensures RowsOf(s, Selected(records, ids), Filter(order, x => x in ids))
  {
    if order != [] {
      assert LeaseOk(cfg, s, order[0]);
      SelectedRows(cfg, s, order[1..], records[1..], ids);
    }
  }

  // In every reachable store `tree(id)` lists, in insertion order, exactly the lease and all its
  // transitive descendants: max_depth + 1 rounds always reach the fixpoint.
  lemma TreeExact(cfg: Config, ops: seq<Op>, id: string)
    ensures Inv(cfg, Run(cfg, ops))
    ensures var s := Run(cfg, ops);
            && (TreeOf(cfg, s, id).Some? <==> IsIdentifier(id))
            && (IsIdentifier(id) ==> RowsOf(s, TreeOf(cfg, s, id).value,
                                            Filter(s.leases.order, x => x in Subtree(cfg, s, id))))
  {
    RunKeepsInv(cfg, ops);
    var s := Run(cfg, ops);
    StoredRecords(cfg, s);
    if IsIdentifier(id) {
      TreeInInvariant(cfg, s, id);
      RecordsAppend(s.leases, s.leases.order, []);
      SelectedRows(cfg, s, s.leases.order, Records(s.leases, s.leases.order).value, Subtree(cfg, s, id));
    }
  }

  lemma {:induction false} Deeper(cfg: Config, s: State, id: string, x: string)
    requires Inv(cfg, s) && x in s.leases.rows && Lineal(cfg, s, id, x)
    ensures id in s.leases.rows && (x == id || s.leases.rows[x].depth > s.leases.rows[id].depth)
    decreases s.leases.rows[x].depth
  {
    LinealStep(cfg, s, id, x);
    assert LeaseOk(cfg, s, x);
    if x != id {
      Deeper(cfg, s, id, s.leases.rows[x].parentId.value);
    }
  }
}
