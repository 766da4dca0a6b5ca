/** agent_state.py: the authenticated record table. Every row carries a MAC over its namespace, id
    and payload, joined by NUL; a transaction is one atomic step. */
module ControlStore {
  import opened Sequences
  import opened Json

  const MAX_PAYLOAD := 65536
  const NUL := '\0'

  type Data = map<string, Json>

  // HMAC-SHA256 under the host key, canonical JSON text, and json.loads (None is any ValueError).
  datatype Codec = Codec(mac: string -> string, canonical: Data -> string, load: string -> Option<Json>)

  datatype Row = Row(namespace: string, id: string, payload: string, mac: string)

  function Frame(namespace: string, id: string, payload: string): string {
    Join([namespace, id, payload], NUL)
  }

  predicate Genuine(c: Codec, row: Row) {
    row.mac == c.mac(Frame(row.namespace, row.id, row.payload))
  }

  function Sealed(c: Codec, namespace: string, id: string, data: Data): Row {
    var payload := c.canonical(data);
    Row(namespace, id, payload, c.mac(Frame(namespace, id, payload)))
  }

  predicate Keyed(row: Row, namespace: string, id: string) {
    row.namespace == namespace && row.id == id
  }

  function Find(rows: seq<Row>, namespace: string, id: string): (i: Option<nat>)
    ensures i.Some? ==> i.value < |rows| && Keyed(rows[i.value], namespace, id)
    ensures i.None? ==> forall k :: 0 <= k < |rows| ==> !Keyed(rows[k], namespace, id)
  {
    if rows == [] then None
    else if Keyed(rows[|rows| - 1], namespace, id) then Some(|rows| - 1)
    else Find(rows[..|rows| - 1], namespace, id)
  }

  ghost predicate KeysDistinct(rows: seq<Row>) {
    forall i, j :: 0 <= i < j < |rows| ==> !Keyed(rows[j], rows[i].namespace, rows[i].id)
  }

  function Opened(c: Codec, row: Row): Option<Data> {
    if |row.payload| > MAX_PAYLOAD || !Genuine(c, row) then None
    else
      var value :- c.load(row.payload);
      if value.JObj? then Some(value.fields) else None
  }

  function Got(c: Codec, rows: seq<Row>, namespace: string, id: string): Option<Data> {
    var i :- Find(rows, namespace, id);
    Opened(c, rows[i])
  }

  function Stored(c: Codec, limit: nat, rows: seq<Row>, namespace: string, id: string, data: Data, isNew: bool)
    : Option<seq<Row>>
  {
    var row := Sealed(c, namespace, id, data);
    var found := Find(rows, namespace, id);
    if |row.payload| > MAX_PAYLOAD then None
    else if isNew then if |rows| >= limit || found.Some? then None else Some(rows + [row])
    else if found.None? then None else Some(rows[found.value := row])
  }

  function Ids(rows: seq<Row>, namespace: string): seq<string> {
    if rows == [] then []
    else
      Ids(rows[..|rows| - 1], namespace)
      + (if rows[|rows| - 1].namespace == namespace then [rows[|rows| - 1].id] else [])
  }

  class AuthenticatedStore {
    const codec: Codec
    const maxRecords: nat
    var rows: seq<Row>

    ghost predicate Valid()
      reads this
    {
      KeysDistinct(rows)
    }

    constructor (codec: Codec, maxRecords: nat)
      ensures Valid() && rows == [] && this.codec == codec && this.maxRecords == maxRecords
    {
      this.codec, this.maxRecords, rows := codec, maxRecords, [];
    }

    method Get(namespace: string, id: string) returns (data: Option<Data>)
      ensures data == Got(codec, rows, namespace, id)
    {
      var found := Find(rows, namespace, id);
      if found.None? {
        return None;
      }
      var row := rows[found.value];
      if |row.payload| > MAX_PAYLOAD || row.mac != codec.mac(Frame(namespace, id, row.payload)) {
        return None;
      }
      var value := codec.load(row.payload);
      if value.None? || !value.value.JObj? {
        return None;
      }
      return Some(value.value.fields);
    }

    method Put(namespace: string, id: string, data: Data, isNew: bool) returns (ok: bool)
      requires Valid()
      modifies this
      ensures Valid()
      ensures ok == Stored(codec, maxRecords, old(rows), namespace, id, data, isNew).Some?
      ensures rows == if ok then Stored(codec, maxRecords, old(rows), namespace, id, data, isNew).value
                      else old(rows)
    {
      var payload := codec.canonical(data);
      if |payload| > MAX_PAYLOAD {
        return false;
      }
      if isNew && |rows| >= maxRecords {
        return false;
      }
      var row := Row(namespace, id, payload, codec.mac(Frame(namespace, id, payload)));
      var found := Find(rows, namespace, id);
      if isNew {
        if found.Some? {
          return false;
        }
        rows := rows + [row];
      } else {
        if found.None? {
          return false;
        }
        rows := rows[found.value := row];
      }
      return true;
    }

    method List(namespace: string) returns (ids: seq<string>)
      ensures ids == Ids(rows, namespace)
    {
      ids := [];
      for i := 0 to |rows|
        invariant ids == Ids(rows[..i], namespace)
      {
        assert rows[..i + 1][..i] == rows[..i];
        if rows[i].namespace == namespace {
          ids := ids + [rows[i].id];
        }
      }
      assert rows[..|rows|] == rows;
    }
  }
}

/** Runs of the store, including steps in which someone without the key rewrites its file. */
module ControlHistory {
  import opened Sequences
  import opened Json
  import opened ControlStore

  lemma JoinCons(x: char, pieces: seq<string>, sep: char)
    requires |pieces| >= 1
    ensures Join([[x] + pieces[0]] + pieces[1..], sep) == [x] + Join(pieces, sep)
  {
    var longer := [[x] + pieces[0]] + pieces[1..];
    assert longer[1..] == pieces[1..];
    if |pieces| > 1 {
      Associate([x], pieces[0] + [sep], Join(pieces[1..], sep));
      Associate([x], pieces[0], [sep]);
    }
  }

  lemma JoinEmpty(pieces: seq<string>, sep: char)
    requires |pieces| >= 1
    ensures Join([[]] + pieces, sep) == [sep] + Join(pieces, sep)
  {
    assert ([[]] + pieces)[1..] == pieces;
    assert [] + [sep] == [sep];
  }

  lemma {:induction false} JoinOfSplit(s: string, sep: char)
    ensures Join(Split(s, sep), sep) == s
  {
    if s != "" {
      var rest := Split(s[1..], sep);
      JoinOfSplit(s[1..], sep);
      JoinCons(s[0], rest, sep);
      JoinEmpty(rest, sep);
      assert [s[0]] + s[1..] == s;
    }
  }

  lemma SplitFrame(namespace: string, id: string, payload: string)
    ensures Split(Frame(namespace, id, payload), NUL) == Split(namespace, NUL) + Split(id, NUL) + Split(payload, NUL)
  {
    var tail := id + [NUL] + payload;
    assert [id, payload][1..] == [payload];
    assert [namespace, id, payload][1..] == [id, payload];
    assert Join([payload], NUL) == payload && Join([id, payload], NUL) == tail;
    assert Frame(namespace, id, payload) == namespace + [NUL] + tail;
    SplitAtSeparator(namespace, tail, NUL);
    SplitAtSeparator(id, payload, NUL);
  }

  // A frame whose parts are free of NUL has no other reading: the MAC binds all three parts.
  lemma FrameBinds(n: string, i: string, p: string, n': string, i': string, p': string)
    requires NUL !in n && NUL !in i && NUL !in p
    requires Frame(n, i, p) == Frame(n', i', p')
    ensures n == n' && i == i' && p == p'
  {
    SplitFrame(n, i, p);
    SplitFrame(n', i', p');
    SplitFree(n, NUL);
    SplitFree(i, NUL);
    SplitFree(p, NUL);
    var a, b, d := Split(n', NUL), Split(i', NUL), Split(p', NUL);
    assert |a| == 1 && |b| == 1 && |d| == 1;
    assert (a + b + d)[0] == a[0] && (a + b + d)[1] == b[0] && (a + b + d)[2] == d[0];
    JoinOfSplit(n', NUL);
    JoinOfSplit(i', NUL);
    JoinOfSplit(p', NUL);
  }

  // Without that the framing is ambiguous.
  lemma FrameAmbiguous()
    ensures Frame("a\0b", "c", "d") == Frame("a", "b", "c\0d")
  {
    assert Frame("a\0b", "c", "d") == "a\0b\0c\0d";
    assert ["c", "d"][1..] == ["d"] && ["a\0b", "c", "d"][1..] == ["c", "d"];
    assert ["b", "c\0d"][1..] == ["c\0d"] && ["a", "b", "c\0d"][1..] == ["b", "c\0d"];
    assert Frame("a", "b", "c\0d") == "a\0b\0c\0d";
  }

  /** What one call accepts. */

  // The text under the MAC.
  function Signed(namespace: string, id: string, payload: string): string {
    namespace + "\0" + id + "\0" + payload
  }

  lemma FrameIsSigned(namespace: string, id: string, payload: string)
    ensures Frame(namespace, id, payload) == Signed(namespace, id, payload)
  {
    assert [namespace, id, payload][1..] == [id, payload] && [id, payload][1..] == [payload];
    assert Join([id, payload], NUL) == id + [NUL] + payload;
  }

  predicate IsAt(rows: seq<Row>, i: nat, namespace: string, id: string) {
    i < |rows| && rows[i].namespace == namespace && rows[i].id == id
  }

  lemma FoundAt(rows: seq<Row>, namespace: string, id: string, i: nat)
    requires KeysDistinct(rows) && IsAt(rows, i, namespace, id)
    ensures Find(rows, namespace, id) == Some(i)
  {
    FindUnique(rows, namespace, id, i);
  }

  // A record reads back exactly when its row is there, no larger than the limit, with the right MAC and
  // a payload that loads as an object, which is then what is read.
  lemma GotExact(c: Codec, rows: seq<Row>, namespace: string, id: string, data: Data)
    requires KeysDistinct(rows)
    ensures Got(c, rows, namespace, id) == Some(data) <==>
              exists i: nat :: IsAt(rows, i, namespace, id) && |rows[i].payload| <= MAX_PAYLOAD
                && rows[i].mac == c.mac(Signed(namespace, id, rows[i].payload))
                && c.load(rows[i].payload) == Some(JObj(data))
  {
    var found := Find(rows, namespace, id);
    forall i: nat | IsAt(rows, i, namespace, id) ensures found == Some(i) {
      FoundAt(rows, namespace, id, i);
    }
    if found.Some? {
      FrameIsSigned(namespace, id, rows[found.value].payload);
      assert IsAt(rows, found.value, namespace, id);
    }
  }

  // A put is accepted exactly for a payload within the limit and, as a new record, on an unused key of a
  // table with room, as an update, on a key that is there. It then adds or replaces this one row.
  lemma StoredExact(c: Codec, limit: nat, rows: seq<Row>, namespace: string, id: string, data: Data, isNew: bool)
    requires KeysDistinct(rows)
    ensures Stored(c, limit, rows, namespace, id, data, isNew).Some? <==>
              && |c.canonical(data)| <= MAX_PAYLOAD
              && if isNew then |rows| < limit && forall i: nat :: !IsAt(rows, i, namespace, id)
                 else exists i: nat :: IsAt(rows, i, namespace, id)
    ensures var after, payload := Stored(c, limit, rows, namespace, id, data, isNew), c.canonical(data);
            var row := Row(namespace, id, payload, c.mac(Signed(namespace, id, payload)));
            after.Some? ==>
              if isNew then after.value == rows + [row]
              else exists i: nat :: IsAt(rows, i, namespace, id) && after.value == rows[i := row]
  {
    FrameIsSigned(namespace, id, c.canonical(data));
    var found := Find(rows, namespace, id);
    forall i: nat | IsAt(rows, i, namespace, id) ensures found == Some(i) {
      FoundAt(rows, namespace, id, i);
    }
    if found.Some? {
      assert IsAt(rows, found.value, namespace, id);
    }
  }

  function InNamespace(namespace: string): Row -> bool { (row: Row) => row.namespace == namespace }

  // A namespace lists the ids of its rows, in insertion order.
  lemma {:induction false} IdsExact(rows: seq<Row>, namespace: string)
    ensures var own := Filter(rows, InNamespace(namespace));
            |Ids(rows, namespace)| == |own| && forall i :: 0 <= i < |own| ==> Ids(rows, namespace)[i] == own[i].id
  {
    if rows != [] {
      var n := |rows| - 1;
      IdsExact(rows[..n], namespace);
      assert rows == rows[..n] + [rows[n]];
      FilterAppend(rows[..n], [rows[n]], InNamespace(namespace));
    }
  }

  /** Runs. */

  datatype Event =
    | Write(namespace: string, id: string, data: Data, isNew: bool)
    | Rewrite(rows: seq<Row>)

  datatype World = World(rows: seq<Row>, written: set<(string, string, Data)>)

  // Nobody without the key makes a MAC of a text that was not written.
  ghost predicate Unforged(c: Codec, rows: seq<Row>, written: set<(string, string, Data)>) {
    forall i :: 0 <= i < |rows| && rows[i].mac == c.mac(Frame(rows[i].namespace, rows[i].id, rows[i].payload))
      ==> FrameWritten(c, rows[i], written)
  }

  ghost predicate FrameWritten(c: Codec, row: Row, written: set<(string, string, Data)>) {
    exists w :: w in written && Frame(w.0, w.1, c.canonical(w.2)) == Frame(row.namespace, row.id, row.payload)
  }

  ghost predicate Possible(c: Codec, s: World, e: Event) {
    match e
    case Write(namespace, id, _, _) => NUL !in namespace && NUL !in id
    case Rewrite(rows) => Unforged(c, rows, s.written)
  }

  function Step(c: Codec, limit: nat, s: World, e: Event): World {
    match e
    case Rewrite(rows) => s.(rows := rows)
    case Write(namespace, id, data, isNew) =>
      var after := Stored(c, limit, s.rows, namespace, id, data, isNew);
      if after.None? then s else World(after.value, s.written + {(namespace, id, data)})
  }

  function Run(c: Codec, limit: nat, events: seq<Event>): World {
    if events == [] then World([], {})
    else Step(c, limit, Run(c, limit, events[..|events| - 1]), events[|events| - 1])
  }

  ghost predicate AllPossible(c: Codec, limit: nat, events: seq<Event>) {
    forall i :: 0 <= i < |events| ==> Possible(c, Run(c, limit, events[..i]), events[i])
  }

  // Canonical text escapes control characters and reads back as the object it was written from: asked
  // only of the objects a run writes.
  ghost predicate Faithful(c: Codec, data: Data) {
    NUL !in c.canonical(data) && c.load(c.canonical(data)) == Some(JObj(data))
  }

  ghost predicate FaithfulRun(c: Codec, events: seq<Event>) {
    forall i :: 0 <= i < |events| && events[i].Write? ==> Faithful(c, events[i].data)
  }

  ghost predicate Inv(c: Codec, s: World) {
    && Unforged(c, s.rows, s.written)
    && (forall w :: w in s.written ==> NUL !in w.0 && NUL !in w.1)
  }

  lemma {:induction false} StepKeepsInv(c: Codec, limit: nat, s: World, e: Event)
    requires Inv(c, s) && Possible(c, s, e)
    ensures Inv(c, Step(c, limit, s, e))
  {
    var s' := Step(c, limit, s, e);
    if s' != s && e.Write? {
      var w := (e.namespace, e.id, e.data);
      var row := Sealed(c, e.namespace, e.id, e.data);
      forall i | 0 <= i < |s'.rows| && Genuine(c, s'.rows[i]) ensures FrameWritten(c, s'.rows[i], s'.written) {
        if s'.rows[i] == row {
          assert w in s'.written;
        } else {
          assert s'.rows[i] == s.rows[i] && FrameWritten(c, s.rows[i], s.written);
        }
      }
    }
  }

  lemma {:induction false} RunKeepsInv(c: Codec, limit: nat, events: seq<Event>)
    requires AllPossible(c, limit, events)
    ensures Inv(c, Run(c, limit, events))
  {
    if events != [] {
      var init := events[..|events| - 1];
      assert forall i :: 0 <= i < |init| ==> events[..i] == init[..i];
      RunKeepsInv(c, limit, init);
      StepKeepsInv(c, limit, Run(c, limit, init), events[|events| - 1]);
    }
  }

  // Event i is an accepted put of this content under this key.
  ghost predicate PutAt(c: Codec, limit: nat, events: seq<Event>, i: nat, namespace: string, id: string, data: Data) {
    && i < |events| && events[i].Write?
    && events[i].namespace == namespace && events[i].id == id && events[i].data == data
    && Stored(c, limit, Run(c, limit, events[..i]).rows, namespace, id, data, events[i].isNew).Some?
  }

  ghost predicate WasPut(c: Codec, limit: nat, events: seq<Event>, namespace: string, id: string, data: Data) {
    exists i: nat :: PutAt(c, limit, events, i, namespace, id, data)
  }

  lemma {:induction false} WrittenWasPut(c: Codec, limit: nat, events: seq<Event>, w: (string, string, Data))
    ensures w in Run(c, limit, events).written <==> WasPut(c, limit, events, w.0, w.1, w.2)
  {
    if events != [] {
      var n := |events| - 1;
      var init := events[..n];
      WrittenWasPut(c, limit, init, w);
      forall i: nat | i < n
        ensures PutAt(c, limit, events, i, w.0, w.1, w.2) <==> PutAt(c, limit, init, i, w.0, w.1, w.2)
      {
        assert init[..i] == events[..i];
      }
      var e := events[n];
      var last := e.Write? && (e.namespace, e.id, e.data) == w
                  && Stored(c, limit, Run(c, limit, init).rows, w.0, w.1, w.2, e.isNew).Some?;
      assert w in Run(c, limit, events).written <==> w in Run(c, limit, init).written || last;
      assert last <==> PutAt(c, limit, events, n, w.0, w.1, w.2);
      if WasPut(c, limit, init, w.0, w.1, w.2) {
        var i: nat :| PutAt(c, limit, init, i, w.0, w.1, w.2);
        assert PutAt(c, limit, events, i, w.0, w.1, w.2);
      }
    }
  }

  // A row that reads back, in a file nobody forged, is the text of something written under its key.
  lemma GotWasWritten(c: Codec, s: World, rows: seq<Row>, namespace: string, id: string)
    requires Inv(c, s) && Unforged(c, rows, s.written)
    requires forall w :: w in s.written ==> Faithful(c, w.2)
    requires Got(c, rows, namespace, id).Some?
    ensures (namespace, id, Got(c, rows, namespace, id).value) in s.written
  {
    var row := rows[Find(rows, namespace, id).value];
    assert FrameWritten(c, row, s.written);
    var w :| w in s.written && Frame(w.0, w.1, c.canonical(w.2)) == Frame(row.namespace, row.id, row.payload);
    assert Faithful(c, w.2);
    FrameBinds(w.0, w.1, c.canonical(w.2), row.namespace, row.id, row.payload);
  }

  lemma WrittenIsFaithful(c: Codec, limit: nat, events: seq<Event>)
    requires FaithfulRun(c, events)
    ensures forall w :: w in Run(c, limit, events).written ==> Faithful(c, w.2)
  {
    forall w | w in Run(c, limit, events).written ensures Faithful(c, w.2) {
      WrittenWasPut(c, limit, events, w);
      var i: nat :| PutAt(c, limit, events, i, w.0, w.1, w.2);
    }
  }

  // Whatever anyone without the key does to the file along the way, a record that reads back was put,
  // with exactly this content, under exactly this namespace and id.
  lemma ReadWasPut(c: Codec, limit: nat, events: seq<Event>, namespace: string, id: string)
    requires FaithfulRun(c, events) && AllPossible(c, limit, events)
    requires Got(c, Run(c, limit, events).rows, namespace, id).Some?
    ensures WasPut(c, limit, events, namespace, id, Got(c, Run(c, limit, events).rows, namespace, id).value)
  {
    var s := Run(c, limit, events);
    RunKeepsInv(c, limit, events);
    WrittenIsFaithful(c, limit, events);
    GotWasWritten(c, s, s.rows, namespace, id);
    WrittenWasPut(c, limit, events, (namespace, id, Got(c, s.rows, namespace, id).value));
  }

  lemma SealedReadsBack(c: Codec, namespace: string, id: string, data: Data)
    requires Faithful(c, data) && |c.canonical(data)| <= MAX_PAYLOAD
    ensures Got(c, [Sealed(c, namespace, id, data)], namespace, id) == Some(data)
  {
    assert Find([Sealed(c, namespace, id, data)], namespace, id) == Some(0);
  }

  // After any possible run, what a rewrite without the key can make a record read as is exactly what
  // was put under its key at any time: nothing else, and every older version.
  lemma ReadableExact(c: Codec, limit: nat, events: seq<Event>, namespace: string, id: string, data: Data)
    requires FaithfulRun(c, events) && AllPossible(c, limit, events)
    ensures (exists rows ::
               Possible(c, Run(c, limit, events), Rewrite(rows)) && Got(c, rows, namespace, id) == Some(data))
            <==> WasPut(c, limit, events, namespace, id, data)
  {
    var s := Run(c, limit, events);
    RunKeepsInv(c, limit, events);
    WrittenIsFaithful(c, limit, events);
    WrittenWasPut(c, limit, events, (namespace, id, data));
    forall rows | Possible(c, s, Rewrite(rows)) && Got(c, rows, namespace, id) == Some(data)
      ensures (namespace, id, data) in s.written
    {
      GotWasWritten(c, s, rows, namespace, id);
    }
    if WasPut(c, limit, events, namespace, id, data) {
      var i: nat :| PutAt(c, limit, events, i, namespace, id, data);
      var row := Sealed(c, namespace, id, data);
      SealedReadsBack(c, namespace, id, data);
      assert FrameWritten(c, row, s.written);
      assert Possible(c, s, Rewrite([row]));
    }
  }

  /** Without such rewriting the table is an ordinary map that remembers the last accepted put. */

  ghost predicate Honest(events: seq<Event>) {
    forall i :: 0 <= i < |events| ==> events[i].Write?
  }

  function Latest(c: Codec, limit: nat, events: seq<Event>, namespace: string, id: string): Option<Data> {
    if events == [] then None
    else
      var init, e := events[..|events| - 1], events[|events| - 1];
      if e.Write? && e.namespace == namespace && e.id == id
         && Stored(c, limit, Run(c, limit, init).rows, namespace, id, e.data, e.isNew).Some?
      then Some(e.data)
      else Latest(c, limit, init, namespace, id)
  }

  ghost predicate AllSealed(c: Codec, rows: seq<Row>) {
    && KeysDistinct(rows)
    && forall i :: 0 <= i < |rows| ==> Genuine(c, rows[i]) && |rows[i].payload| <= MAX_PAYLOAD
  }

  lemma {:induction false} FindUnique(rows: seq<Row>, namespace: string, id: string, i: nat)
    requires KeysDistinct(rows) && i < |rows| && Keyed(rows[i], namespace, id)
    ensures Find(rows, namespace, id) == Some(i)
  {
    var n := |rows| - 1;
    if i < n {
      assert !Keyed(rows[n], rows[i].namespace, rows[i].id);
      FindUnique(rows[..n], namespace, id, i);
    }
  }

  lemma StoredGets(c: Codec, limit: nat, rows: seq<Row>, namespace: string, id: string, data: Data, isNew: bool)
    requires Faithful(c, data) && AllSealed(c, rows)
    requires Stored(c, limit, rows, namespace, id, data, isNew).Some?
    ensures var rows' := Stored(c, limit, rows, namespace, id, data, isNew).value;
            AllSealed(c, rows') && Got(c, rows', namespace, id) == Some(data)
  {
    var rows' := Stored(c, limit, rows, namespace, id, data, isNew).value;
    var at := if isNew then |rows| else Find(rows, namespace, id).value;
    assert rows'[at] == Sealed(c, namespace, id, data);
    FindUnique(rows', namespace, id, at);
  }

  lemma StoredFrame(c: Codec, limit: nat, rows: seq<Row>, e: Event, namespace: string, id: string)
    requires KeysDistinct(rows) && e.Write? && !(e.namespace == namespace && e.id == id)
    requires Stored(c, limit, rows, e.namespace, e.id, e.data, e.isNew).Some?
    ensures var rows' := Stored(c, limit, rows, e.namespace, e.id, e.data, e.isNew).value;
            Got(c, rows', namespace, id) == Got(c, rows, namespace, id)
  {
    var rows' := Stored(c, limit, rows, e.namespace, e.id, e.data, e.isNew).value;
    assert KeysDistinct(rows');
    var found := Find(rows, namespace, id);
    if found.Some? {
      assert rows'[found.value] == rows[found.value];
      FindUnique(rows', namespace, id, found.value);
    } else {
      assert forall k :: 0 <= k < |rows'| ==> !Keyed(rows'[k], namespace, id);
    }
  }

  // A read returns the content of the last accepted put of its key, and nothing if there is none.
  lemma {:induction false} ReadIsLatest(c: Codec, limit: nat, events: seq<Event>, namespace: string, id: string)
    requires FaithfulRun(c, events) && Honest(events)
    ensures AllSealed(c, Run(c, limit, events).rows)
    ensures Got(c, Run(c, limit, events).rows, namespace, id) == Latest(c, limit, events, namespace, id)
  {
    if events != [] {
      var init, e := events[..|events| - 1], events[|events| - 1];
      ReadIsLatest(c, limit, init, namespace, id);
      var rows := Run(c, limit, init).rows;
      if Stored(c, limit, rows, e.namespace, e.id, e.data, e.isNew).Some? {
        StoredGets(c, limit, rows, e.namespace, e.id, e.data, e.isNew);
        if !(e.namespace == namespace && e.id == id) {
          StoredFrame(c, limit, rows, e, namespace, id);
        }
      }
    }
  }
}
