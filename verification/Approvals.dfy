/** workspace/streaming.py: one-time approval tickets and the bounded memory of retired requests. */
module Approvals {
  import opened Sequences

  const MAX_PENDING := 1000
  const MAX_RETIRED := 10000

  // The request a ticket answers.
  datatype Key = Key(provider: string, session: string, request: string)

  // Ticket ids are handed out fresh, as uuid4 does; the action is bound by its digest.
  datatype Ticket = Ticket(id: nat, key: Key, digest: string, expiresAt: real)

  // Pending tickets and retired keys in insertion order; besides them, everything ever retired or decided.
  datatype State = State(pending: seq<Ticket>, retired: seq<Key>, nextId: nat, history: seq<Key>, decided: seq<nat>)

  const EMPTY := State([], [], 0, [], [])

  function Without<T(==)>(s: seq<T>, x: T): seq<T> {
    if s == [] then [] else (if s[0] == x then [] else [s[0]]) + Without(s[1..], x)
  }

  function LastOf<T>(s: seq<T>, n: nat): seq<T> { if |s| <= n then s else s[|s| - n..] }

  // Set, move to the end, then drop from the front what is over the bound.
  function Retire(retired: seq<Key>, key: Key): seq<Key> { LastOf(Without(retired, key) + [key], MAX_RETIRED) }

  function RemoveTicket(pending: seq<Ticket>, id: nat): seq<Ticket> {
    if pending == [] then []
    else if pending[0].id == id then pending[1..]
    else [pending[0]] + RemoveTicket(pending[1..], id)
  }

  // Deleting a pending ticket and retiring its key.
  function Drop(s: State, t: Ticket): State {
    s.(pending := RemoveTicket(s.pending, t.id), retired := Retire(s.retired, t.key), history := s.history + [t.key])
  }

  predicate KeyPending(s: State, key: Key) { exists i :: 0 <= i < |s.pending| && s.pending[i].key == key }

  // `issue`; a digest of None is an action too large to bind.
  function Issued(s: State, key: Key, digest: Option<string>, expiresAt: real): Option<State> {
    if key.provider == "" || key.session == "" || key.request == "" then None
    else if |s.pending| >= MAX_PENDING then None
    else if key in s.retired || KeyPending(s, key) then None
    else if digest.None? then None
    else Some(s.(pending := s.pending + [Ticket(s.nextId, key, digest.value, expiresAt)], nextId := s.nextId + 1))
  }

  function Find(pending: seq<Ticket>, id: nat): Option<Ticket> {
    if pending == [] then None else if pending[0].id == id then Some(pending[0]) else Find(pending[1..], id)
  }

  datatype Ruling = Allowed | Expired | Refused

  function RulingOf(s: State, id: nat, key: Key, digest: Option<string>, validChoice: bool, now: real): Ruling {
    if !validChoice then Refused
    else
      var found := Find(s.pending, id);
      if found.None? then Refused
      else if found.value.expiresAt <= now then Expired
      else if found.value.key != key || digest != Some(found.value.digest) then Refused
      else Allowed
  }

  // `decide`: an expired ticket is retired too, though the caller gets an error.
  function Decided(s: State, id: nat, key: Key, digest: Option<string>, validChoice: bool, now: real): State {
    match RulingOf(s, id, key, digest, validChoice, now)
    case Refused => s
    case Expired => Drop(s, Find(s.pending, id).value)
    case Allowed => Drop(s, Find(s.pending, id).value).(decided := s.decided + [id])
  }

  // The loops of `close_session` and `expire` over a snapshot of the pending tickets.
  function Sweep(s: State, snapshot: seq<Ticket>, closes: Ticket -> bool): State
    decreases |snapshot|
  {
    if snapshot == [] then s
    else Sweep(if closes(snapshot[0]) then Drop(s, snapshot[0]) else s, snapshot[1..], closes)
  }

  function OfSession(provider: string, session: string): Ticket -> bool {
    (t: Ticket) => t.key.provider == provider && t.key.session == session
  }

  function ExpiredBy(now: real): Ticket -> bool { (t: Ticket) => t.expiresAt <= now }

  class PendingApprovals {
    const ttl: real
    var pending: seq<Ticket>
    var consumed: seq<Key>
    var nextId: nat
    ghost var history: seq<Key>
    ghost var decided: seq<nat>

    ghost function Snapshot(): State
      reads this
    {
      State(pending, consumed, nextId, history, decided)
    }

    constructor (ttl: real)
      ensures Snapshot() == EMPTY && this.ttl == ttl
    {
      this.ttl := ttl;
      pending, consumed, nextId, history, decided := [], [], 0, [], [];
    }

    method RetireKey(key: Key)
      modifies this`consumed, this`history
      ensures consumed == Retire(old(consumed), key) && history == old(history) + [key]
    {
      consumed := Without(consumed, key) + [key];
      ghost var all := consumed;
      ghost var dropped := 0;
      while |consumed| > MAX_RETIRED
        invariant dropped <= |all| && consumed == all[dropped..] && history == old(history)
        invariant |consumed| >= MAX_RETIRED || dropped == 0
      {
        consumed := consumed[1..];
        dropped := dropped + 1;
      }
      history := history + [key];
    }

    method Issue(key: Key, digest: Option<string>, now: real) returns (r: Option<Ticket>)
      modifies this
      ensures var after := Issued(old(Snapshot()), key, digest, now + ttl);
              && Snapshot() == (if after.Some? then after.value else old(Snapshot()))
              && (r.Some? <==> after.Some?) && (r.Some? ==> pending == old(pending) + [r.value])
    {
      if key.provider == "" || key.session == "" || key.request == "" {
        return None;
      }
      if |pending| >= MAX_PENDING {
        return None;
      }
      if key in consumed {
        return None;
      }
      for i := 0 to |pending|
        invariant forall k :: 0 <= k < i ==> pending[k].key != key
      {
        if pending[i].key == key {
          return None;
        }
      }
      if digest.None? {
        return None;
      }
      var ticket := Ticket(nextId, key, digest.value, now + ttl);
      pending := pending + [ticket];
      nextId := nextId + 1;
      return Some(ticket);
    }

    method Decide(id: nat, key: Key, digest: Option<string>, validChoice: bool, now: real) returns (ruling: Ruling)
      modifies this
      ensures ruling == RulingOf(old(Snapshot()), id, key, digest, validChoice, now)
      ensures Snapshot() == Decided(old(Snapshot()), id, key, digest, validChoice, now)
    {
      if !validChoice {
        return Refused;
      }
      var ticket := Find(pending, id);
      if ticket.None? {
        return Refused;
      }
      if ticket.value.expiresAt <= now {
        pending := RemoveTicket(pending, ticket.value.id);
        RetireKey(ticket.value.key);
        FindHasId(old(pending), id);
        return Expired;
      }
      if ticket.value.key != key || digest != Some(ticket.value.digest) {
        return Refused;
      }
      FindHasId(pending, id);
      pending := RemoveTicket(pending, id);
      RetireKey(key);
      decided := decided + [id];
      return Allowed;
    }

    method CloseSession(provider: string, session: string)
      modifies this
      ensures Snapshot() == Sweep(old(Snapshot()), old(pending), OfSession(provider, session))
    {
      var snapshot := pending;
      for i := 0 to |snapshot|
        invariant Sweep(Snapshot(), snapshot[i..], OfSession(provider, session))
                  == Sweep(old(Snapshot()), snapshot, OfSession(provider, session))
      {
        var ticket := snapshot[i];
        if ticket.key.provider == provider && ticket.key.session == session {
          pending := RemoveTicket(pending, ticket.id);
          RetireKey(ticket.key);
        }
      }
    }

    method Expire(now: real)
      modifies this
      ensures Snapshot() == Sweep(old(Snapshot()), old(pending), ExpiredBy(now))
    {
      var snapshot := pending;
      for i := 0 to |snapshot|
        invariant Sweep(Snapshot(), snapshot[i..], ExpiredBy(now)) == Sweep(old(Snapshot()), snapshot, ExpiredBy(now))
      {
        var ticket := snapshot[i];
        if ticket.expiresAt <= now {
          pending := RemoveTicket(pending, ticket.id);
          RetireKey(ticket.key);
        }
      }
    }
  }

  lemma {:induction false} FindHasId(pending: seq<Ticket>, id: nat)
    ensures var t := Find(pending, id); t.Some? ==> t.value in pending && t.value.id == id
    ensures Find(pending, id).None? ==> forall t :: t in pending ==> t.id != id
  {
    if pending != [] {
      FindHasId(pending[1..], id);
      assert pending == [pending[0]] + pending[1..];
    }
  }
}

/** workspace/streaming.py: what holds after any run of issue, decide, expire and close_session. */
module ApprovalHistory {
  import opened Sequences
  import opened Approvals

  datatype Op =
    | IssueOp(key: Key, digest: Option<string>, expiresAt: real)
    | DecideOp(id: nat, key: Key, digest: Option<string>, validChoice: bool, now: real)
    | CloseOp(provider: string, session: string)
    | ExpireOp(now: real)

  function Step(s: State, op: Op): State {
    match op
    case IssueOp(key, digest, expiresAt) =>
      var after := Issued(s, key, digest, expiresAt);
      if after.Some? then after.value else s
    case DecideOp(id, key, digest, validChoice, now) => Decided(s, id, key, digest, validChoice, now)
    case CloseOp(provider, session) => Sweep(s, s.pending, OfSession(provider, session))
    case ExpireOp(now) => Sweep(s, s.pending, ExpiredBy(now))
  }

  function Run(ops: seq<Op>): State {
    if ops == [] then EMPTY else Step(Run(ops[..|ops| - 1]), ops[|ops| - 1])
  }

  ghost predicate PendingOk(s: State) {
    && (forall i, j :: 0 <= i < j < |s.pending| ==>
          s.pending[i].id != s.pending[j].id && s.pending[i].key != s.pending[j].key)
    && (forall t :: t in s.pending ==> t.id < s.nextId && t.key !in s.retired && t.id !in s.decided)
  }

  ghost predicate Inv(s: State) {
    && PendingOk(s) && |s.pending| <= MAX_PENDING
    && s.retired == LastOf(s.history, MAX_RETIRED) && Distinct(s.retired)
    && Distinct(s.decided) && (forall id :: id in s.decided ==> id < s.nextId)
    && s.nextId == |s.pending| + |s.history|
  }

  lemma {:induction false} RemoveMembers(pending: seq<Ticket>, t: Ticket)
    requires t in pending
    requires forall i, j :: 0 <= i < j < |pending| ==> pending[i].id != pending[j].id
    ensures var rest := RemoveTicket(pending, t.id);
            && |rest| == |pending| - 1
            && (forall x :: x in rest <==> x in pending && x != t)
  {
    if pending[0].id == t.id {
      assert pending[0] == t;
      assert pending == [t] + pending[1..];
      forall x | x in pending[1..] ensures x != t {
        var j :| 1 <= j < |pending| && pending[j] == x;
        assert pending[0].id != pending[j].id;
      }
    } else {
      assert pending == [pending[0]] + pending[1..];
      RemoveMembers(pending[1..], t);
    }
  }

  lemma {:induction false} RemoveKeepsOrder(pending: seq<Ticket>, id: nat)
    requires forall i, j :: 0 <= i < j < |pending| ==>
               pending[i].id != pending[j].id && pending[i].key != pending[j].key
    ensures var rest := RemoveTicket(pending, id);
            && (forall x :: x in rest ==> x in pending)
            && forall i, j :: 0 <= i < j < |rest| ==> rest[i].id != rest[j].id && rest[i].key != rest[j].key
  {
    if pending != [] && pending[0].id != id {
      RemoveKeepsOrder(pending[1..], id);
      var rest := RemoveTicket(pending[1..], id);
      forall j | 0 <= j < |rest| ensures rest[j].id != pending[0].id && rest[j].key != pending[0].key {
        assert rest[j] in pending[1..];
      }
    }
  }

  function Differs<T(==)>(x: T): T -> bool { (y: T) => y != x }

  lemma {:induction false} WithoutExact<T>(s: seq<T>, x: T)
    ensures Without(s, x) == Filter(s, Differs(x))
  {
    if s != [] {
      WithoutExact(s[1..], x);
    }
  }

  // A retired key is remembered as the newest, and the oldest beyond the bound are forgotten.
  lemma RetireExact(retired: seq<Key>, key: Key)
    ensures var all := Filter(retired, Differs(key)) + [key];
            Retire(retired, key) == if |all| <= MAX_RETIRED then all else all[|all| - MAX_RETIRED..]
  {
    WithoutExact(retired, key);
  }

  // Keys remembered once stay so.
  lemma RetireKeepsDistinct(retired: seq<Key>, key: Key)
    requires Distinct(retired)
    ensures Distinct(Retire(retired, key))
  {
    var rest := Filter(retired, Differs(key));
    FilterDistinct(retired, Differs(key));
    AppendDistinct(rest, key);
    RetireExact(retired, key);
  }

  lemma AppendDistinct<T>(s: seq<T>, x: T)
    requires Distinct(s) && x !in s
    ensures Distinct(s + [x])
  {
  }

  lemma {:induction false} FilterDistinct<T>(s: seq<T>, keep: T -> bool)
    requires Distinct(s)
    ensures Distinct(Filter(s, keep))
    ensures forall x :: x in Filter(s, keep) <==> x in s && keep(x)
  {
    if s != [] {
      FilterDistinct(s[1..], keep);
      assert s == [s[0]] + s[1..];
    }
  }

  lemma {:induction false} WithoutAbsent<T>(s: seq<T>, x: T)
    requires x !in s
    ensures Without(s, x) == s
  {
    if s != [] {
      WithoutAbsent(s[1..], x);
      assert s == [s[0]] + s[1..];
    }
  }

  // Retiring a key not already remembered keeps the memory the tail of the history.
  lemma RetireIsTail(s: State, key: Key)
    requires s.retired == LastOf(s.history, MAX_RETIRED) && Distinct(s.retired) && key !in s.retired
    ensures Retire(s.retired, key) == LastOf(s.history + [key], MAX_RETIRED)
    ensures Distinct(Retire(s.retired, key))
    ensures forall k :: k in Retire(s.retired, key) ==> k == key || k in s.retired
  {
    WithoutAbsent(s.retired, key);
    var longer := s.history + [key];
    if |s.history| > MAX_RETIRED {
      assert s.retired + [key] == longer[|s.history| - MAX_RETIRED..];
    }
  }

  lemma DropKeepsInv(s: State, t: Ticket)
    requires Inv(s) && t in s.pending
    ensures Inv(Drop(s, t))
    ensures forall x :: x in Drop(s, t).pending <==> x in s.pending && x != t
  {
    RemoveMembers(s.pending, t);
    RemoveKeepsOrder(s.pending, t.id);
    RetireIsTail(s, t.key);
    forall x | x in Drop(s, t).pending ensures x.key != t.key {
      assert x in s.pending && x != t;
    }
  }

  lemma {:induction false} SweepKeepsInv(s: State, snapshot: seq<Ticket>, closes: Ticket -> bool)
    requires Inv(s)
    requires forall t :: t in snapshot ==> t in s.pending
    requires Distinct(snapshot)
    ensures var s' := Sweep(s, snapshot, closes);
            && Inv(s') && s'.decided == s.decided && s'.nextId == s.nextId
            && (forall t :: t in s'.pending <==> t in s.pending && !(t in snapshot && closes(t)))
    decreases |snapshot|
  {
    if snapshot != [] {
      var next := if closes(snapshot[0]) then Drop(s, snapshot[0]) else s;
      if closes(snapshot[0]) {
        DropKeepsInv(s, snapshot[0]);
      }
      assert snapshot == [snapshot[0]] + snapshot[1..];
      forall t | t in snapshot[1..] ensures t in next.pending {
        assert t != snapshot[0];
      }
      SweepKeepsInv(next, snapshot[1..], closes);
    }
  }

  lemma PendingDistinct(s: State)
    requires Inv(s)
    ensures Distinct(s.pending)
  {
  }

  lemma IssueKeepsInv(s: State, key: Key, digest: Option<string>, expiresAt: real)
    requires Inv(s) && Issued(s, key, digest, expiresAt).Some?
    ensures Inv(Issued(s, key, digest, expiresAt).value)
  {
    var s' := Issued(s, key, digest, expiresAt).value;
    var n := |s.pending|;
    forall i, j | 0 <= i < j < |s'.pending|
      ensures s'.pending[i].id != s'.pending[j].id && s'.pending[i].key != s'.pending[j].key
    {
      if j == n {
        assert s.pending[i] in s.pending;
      }
    }
  }

  lemma DecideKeepsInv(s: State, op: Op)
    requires Inv(s) && op.DecideOp?
    ensures Inv(Step(s, op))
  {
    var found := Find(s.pending, op.id);
    FindHasId(s.pending, op.id);
    if found.Some? {
      DropKeepsInv(s, found.value);
      var dropped := Drop(s, found.value);
      forall t | t in dropped.pending ensures t.id != op.id {
        assert t in s.pending && t != found.value;
      }
    }
  }

  lemma {:induction false} RunKeepsInv(ops: seq<Op>)
    ensures Inv(Run(ops))
  {
    if ops != [] {
      var s, op := Run(ops[..|ops| - 1]), ops[|ops| - 1];
      RunKeepsInv(ops[..|ops| - 1]);
      match op {
        case IssueOp(key, digest, expiresAt) =>
          if Issued(s, key, digest, expiresAt).Some? {
            IssueKeepsInv(s, key, digest, expiresAt);
          }
        case DecideOp(_, _, _, _, _) => DecideKeepsInv(s, op);
        case CloseOp(provider, session) =>
          PendingDistinct(s);
          SweepKeepsInv(s, s.pending, OfSession(provider, session));
        case ExpireOp(now) =>
          PendingDistinct(s);
          SweepKeepsInv(s, s.pending, ExpiredBy(now));
      }
    }
  }

  // ----- Main results -----

  // The bounded memory is exactly the last 10,000 retirements of the whole history, pending keys are
  // distinct and none of them is remembered, no ticket is decided twice, and every ticket ever issued
  // is either pending or retired.
  lemma ApprovalsExact(ops: seq<Op>)
    ensures var s := Run(ops);
            && s.retired == LastOf(s.history, MAX_RETIRED) && Distinct(s.retired)
            && (forall i, j :: 0 <= i < j < |s.pending| ==> s.pending[i].key != s.pending[j].key)
            && (forall t :: t in s.pending ==> t.key !in s.retired && t.id !in s.decided)
            && Distinct(s.decided)
            && s.nextId == |s.pending| + |s.history|
  {
    RunKeepsInv(ops);
  }

  // An issue is refused exactly for an incomplete key, an unbindable action, a full table, a key that is
  // pending or one among the last 10,000 retirements; else it adds this one ticket at the end.
  lemma IssueExact(ops: seq<Op>, key: Key, digest: Option<string>, expiresAt: real)
    ensures var s := Run(ops);
            Issued(s, key, digest, expiresAt).Some? <==>
              && key.provider != "" && key.session != "" && key.request != "" && digest.Some?
              && |s.pending| < MAX_PENDING && (forall t :: t in s.pending ==> t.key != key)
              && forall i :: 0 <= i < |s.history| && |s.history| - i <= MAX_RETIRED ==> s.history[i] != key
    ensures var s, after := Run(ops), Issued(Run(ops), key, digest, expiresAt);
            after.Some? ==>
              && digest.Some?
              && after.value == s.(pending := s.pending + [Ticket(s.nextId, key, digest.value, expiresAt)],
                                   nextId := s.nextId + 1)
  {
    RunKeepsInv(ops);
    var s := Run(ops);
    var tail := LastOf(s.history, MAX_RETIRED);
    if key in tail {
      var j :| 0 <= j < |tail| && tail[j] == key;
      assert s.history[|s.history| - |tail| + j] == key;
    } else {
      forall i | 0 <= i < |s.history| && |s.history| - i <= MAX_RETIRED ensures s.history[i] != key {
        assert tail[i - (|s.history| - |tail|)] == s.history[i];
      }
    }
  }

  // The action the decision is about is the one this ticket binds, and its time has not passed.
  ghost predicate Binds(t: Ticket, op: Op, s: State)
    requires op.DecideOp?
  {
    t in s.pending && t.id == op.id && t.key == op.key && op.digest == Some(t.digest) && op.now < t.expiresAt
  }

  ghost predicate Lapsed(t: Ticket, op: Op, s: State)
    requires op.DecideOp?
  {
    t in s.pending && t.id == op.id && t.expiresAt <= op.now
  }

  // In every reachable state a decision is allowed exactly on a pending ticket with this id, this key and
  // this very action's digest before its time, and the caller is told of expiry exactly on one past it.
  lemma RulingExact(ops: seq<Op>, op: Op)
    requires op.DecideOp?
    ensures var s := Run(ops); var ruling := RulingOf(s, op.id, op.key, op.digest, op.validChoice, op.now);
            && (ruling == Allowed <==> op.validChoice && exists t :: Binds(t, op, s))
            && (ruling == Expired <==> op.validChoice && exists t :: Lapsed(t, op, s))
  {
    RunKeepsInv(ops);
    var s := Run(ops);
    FindHasId(s.pending, op.id);
    var found := Find(s.pending, op.id);
    if found.Some? {
      assert Binds(found.value, op, s) || !Binds(found.value, op, s);
      assert Lapsed(found.value, op, s) || !Lapsed(found.value, op, s);
      forall t | t in s.pending && t.id == op.id ensures t == found.value {
      }
    }
  }

  function Other(id: nat): Ticket -> bool { (t: Ticket) => t.id != id }

  lemma {:induction false} RemoveIsFilter(pending: seq<Ticket>, id: nat)
    requires forall i, j :: 0 <= i < j < |pending| ==> pending[i].id != pending[j].id
    ensures RemoveTicket(pending, id) == Filter(pending, Other(id))
  {
    if pending != [] {
      if pending[0].id == id {
        forall t | t in pending[1..] ensures t.id != id {
          var j :| 1 <= j < |pending| && pending[j] == t;
        }
        FilterAll(pending[1..], Other(id));
      } else {
        RemoveIsFilter(pending[1..], id);
      }
    }
  }

  // A refused decision changes nothing. Any other takes out exactly its ticket, retires that ticket's key
  // and, only when allowed, counts it as decided.
  lemma DecideExact(ops: seq<Op>, op: Op)
    requires op.DecideOp?
    ensures var s, s' := Run(ops), Step(Run(ops), op);
            var ruling := RulingOf(s, op.id, op.key, op.digest, op.validChoice, op.now);
            if ruling == Refused then s' == s
            else
              && s'.pending == Filter(s.pending, Other(op.id))
              && (exists t :: t in s.pending && t.id == op.id && s'.history == s.history + [t.key])
              && s'.decided == (if ruling == Allowed then s.decided + [op.id] else s.decided)
              && s'.nextId == s.nextId
  {
    RunKeepsInv(ops);
    var s := Run(ops);
    FindHasId(s.pending, op.id);
    RemoveIsFilter(s.pending, op.id);
  }

  // Operation i issued this ticket.
  ghost predicate IssuedAt(ops: seq<Op>, i: nat, t: Ticket) {
    && i < |ops| && ops[i].IssueOp? && ops[i].key == t.key && ops[i].digest == Some(t.digest)
    && ops[i].expiresAt == t.expiresAt && Run(ops[..i]).nextId == t.id
  }

  lemma {:induction false} PendingWasIssued(ops: seq<Op>, t: Ticket)
    requires t in Run(ops).pending
    ensures exists i: nat :: IssuedAt(ops, i, t)
  {
    var n := |ops| - 1;
    var s, op := Run(ops[..n]), ops[n];
    if t in s.pending {
      PendingWasIssued(ops[..n], t);
      var i: nat :| IssuedAt(ops[..n], i, t);
      assert ops[..n][..i] == ops[..i];
      assert IssuedAt(ops, i, t);
    } else {
      RunKeepsInv(ops[..n]);
      if op.IssueOp? {
        assert IssuedAt(ops, n, t);
      } else {
        assert false by {
          NothingAppears(s, op, t);
        }
      }
    }
  }

  lemma NothingAppears(s: State, op: Op, t: Ticket)
    requires Inv(s) && !op.IssueOp? && t in Step(s, op).pending
    ensures t in s.pending
  {
    match op
    case DecideOp(id, _, _, _, _) => RemoveKeepsOrder(s.pending, id); FindHasId(s.pending, id);
    case CloseOp(provider, session) =>
      PendingDistinct(s);
      SweepKeepsInv(s, s.pending, OfSession(provider, session));
    case ExpireOp(now) =>
      PendingDistinct(s);
      SweepKeepsInv(s, s.pending, ExpiredBy(now));
  }

  // So whatever was allowed was asked for: an earlier issue named this request and this very action, and
  // set a time that has not passed.
  lemma AllowedWasAsked(ops: seq<Op>, op: Op)
    requires op.DecideOp?
    requires RulingOf(Run(ops), op.id, op.key, op.digest, op.validChoice, op.now) == Allowed
    ensures exists i :: 0 <= i < |ops| && ops[i].IssueOp?
              && ops[i].key == op.key && ops[i].digest == op.digest && op.now < ops[i].expiresAt
  {
    RulingExact(ops, op);
    var t :| Binds(t, op, Run(ops));
    PendingWasIssued(ops, t);
    var i: nat :| IssuedAt(ops, i, t);
  }

  // The tickets closing a session or expiring is about.
  predicate Meant(op: Op, t: Ticket)
    requires op.CloseOp? || op.ExpireOp?
  {
    match op
    case CloseOp(provider, session) => t.key.provider == provider && t.key.session == session
    case ExpireOp(now) => t.expiresAt <= now
  }

  function MeantBy(op: Op): Ticket -> bool
    requires op.CloseOp? || op.ExpireOp?
  {
    (t: Ticket) => Meant(op, t)
  }

  function KeysOf(tickets: seq<Ticket>): seq<Key> {
    if tickets == [] then [] else [tickets[0].key] + KeysOf(tickets[1..])
  }

  lemma {:induction false} SweepHistory(s: State, snapshot: seq<Ticket>, closes: Ticket -> bool)
    ensures Sweep(s, snapshot, closes).history == s.history + KeysOf(Filter(snapshot, closes))
    decreases |snapshot|
  {
    if snapshot == [] {
      assert s.history + [] == s.history;
    } else {
      var t, rest := snapshot[0], Filter(snapshot[1..], closes);
      SweepHistory(if closes(t) then Drop(s, t) else s, snapshot[1..], closes);
      if closes(t) {
        assert ([t] + rest)[1..] == rest;
        Associate(s.history, [t.key], KeysOf(rest));
      } else {
        assert [] + rest == rest;
      }
    }
  }

  lemma {:induction false} FilterAgree<T>(s: seq<T>, a: T -> bool, b: T -> bool)
    requires forall x :: a(x) == b(x)
    ensures Filter(s, a) == Filter(s, b)
  {
    if s != [] {
      FilterAgree(s[1..], a, b);
    }
  }

  // Closing a session or expiring removes exactly the matching tickets, retires their keys in the order
  // of issue and decides nothing.
  lemma SweepExact(ops: seq<Op>, op: Op)
    requires op.CloseOp? || op.ExpireOp?
    ensures var s, s' := Run(ops), Step(Run(ops), op);
            && (forall t :: t in s'.pending <==> t in s.pending && !Meant(op, t))
            && s'.history == s.history + KeysOf(Filter(s.pending, MeantBy(op)))
            && s'.decided == s.decided && s'.nextId == s.nextId
  {
    RunKeepsInv(ops);
    var s := Run(ops);
    var closes := if op.CloseOp? then OfSession(op.provider, op.session) else ExpiredBy(op.now);
    PendingDistinct(s);
    SweepKeepsInv(s, s.pending, closes);
    SweepHistory(s, s.pending, closes);
    FilterAgree(s.pending, closes, MeantBy(op));
  }

  lemma StepForgetsNothing(s: State, op: Op, id: nat)
    requires Inv(s) && id < s.nextId && (forall t :: t in s.pending ==> t.id != id)
    ensures var s' := Step(s, op); id < s'.nextId && forall t :: t in s'.pending ==> t.id != id
  {
    match op
    case IssueOp(key, digest, expiresAt) =>
    case DecideOp(x, _, _, _, _) =>
      FindHasId(s.pending, x);
      RemoveKeepsOrder(s.pending, x);
    case CloseOp(provider, session) =>
      PendingDistinct(s);
      SweepKeepsInv(s, s.pending, OfSession(provider, session));
    case ExpireOp(now) =>
      PendingDistinct(s);
      SweepKeepsInv(s, s.pending, ExpiredBy(now));
  }

  lemma {:induction false} GoneForever(ops: seq<Op>, i: nat, j: nat, id: nat)
    requires i <= j <= |ops| && id < Run(ops[..i]).nextId
    requires forall t :: t in Run(ops[..i]).pending ==> t.id != id
    ensures id < Run(ops[..j]).nextId && forall t :: t in Run(ops[..j]).pending ==> t.id != id
    decreases j - i
  {
    if i < j {
      GoneForever(ops, i, j - 1, id);
      assert ops[..j][..j - 1] == ops[..j - 1];
      RunKeepsInv(ops[..j - 1]);
      StepForgetsNothing(Run(ops[..j - 1]), ops[j - 1], id);
    }
  }

  // A ticket that was decided, expired or closed is refused by every later decision.
  lemma NeverDecidedAgain(ops: seq<Op>, i: nat, j: nat)
    requires i <= j < |ops| && ops[j].DecideOp?
    requires ops[j].id < Run(ops[..i]).nextId && forall t :: t in Run(ops[..i]).pending ==> t.id != ops[j].id
    ensures RulingOf(Run(ops[..j]), ops[j].id, ops[j].key, ops[j].digest, ops[j].validChoice, ops[j].now) == Refused
    ensures Run(ops[..j + 1]) == Run(ops[..j])
  {
    GoneForever(ops, i, j, ops[j].id);
    FindHasId(Run(ops[..j]).pending, ops[j].id);
    assert ops[..j + 1][..j] == ops[..j];
  }
}
