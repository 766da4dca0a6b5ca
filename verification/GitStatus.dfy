/** The two readers of `git status --porcelain=v1 -z` output, a printer they invert, and the
    records appended for changed submodules. */
module GitStatus {
  import opened ByteStrings
  import opened Sequences

  const NUL: Byte := 0
  const SPACE: Byte := 32
  const SLASH: Byte := 47
  const LETTER_C: Byte := 67
  const LETTER_M: Byte := 77
  const LETTER_R: Byte := 82

  // One porcelain record: two status letters, the path, and for a rename or a copy the old path.
  datatype Record = Record(x: Byte, y: Byte, path: Bytes, source: Option<Bytes>)

  // One dictionary of `_porcelain_entries`: the old path of a rename carries a marked status.
  datatype Status = Changed(x: Byte, y: Byte) | SourceOf(x: Byte, y: Byte)
  datatype Entry = Entry(path: Bytes, status: Status)

  predicate Moves(x: Byte, y: Byte) {
    x == LETTER_R || y == LETTER_R || x == LETTER_C || y == LETTER_C
  }

  predicate IsName(path: Bytes) {
    path != [] && NUL !in path
  }

  predicate WellFormed(record: Record) {
    && record.x != NUL && record.y != NUL
    && IsName(record.path)
    && (record.source.Some? <==> Moves(record.x, record.y))
    && (record.source.Some? ==> IsName(record.source.value))
  }

  ghost predicate AllWellFormed(records: seq<Record>) {
    forall i :: 0 <= i < |records| ==> WellFormed(records[i])
  }

  /** The printer: git's documented layout. */

  function Head(record: Record): Bytes {
    [record.x, record.y, SPACE] + record.path
  }

  function Pieces(record: Record): seq<Bytes> {
    [Head(record)] + (if record.source.Some? then [record.source.value] else [])
  }

  function Terminated(pieces: seq<Bytes>): Bytes {
    if pieces == [] then [] else pieces[0] + [NUL] + Terminated(pieces[1..])
  }

  function Print(records: seq<Record>): Bytes {
    if records == [] then [] else Terminated(Pieces(records[0])) + Print(records[1..])
  }

  /** The reading both functions are measured against. */

  predicate IsHead(piece: Bytes) {
    |piece| >= 4 && piece[2] == SPACE
  }

  function Ahead<T>(first: seq<T>, rest: Option<seq<T>>): Option<seq<T>> {
    if rest.Some? then Some(first + rest.value) else None
  }

  // The record at the front of the pieces, with the piece after it for a rename or a copy.
  function FirstOf(pieces: seq<Bytes>): (r: Option<Record>)
    requires pieces != []
    ensures r.Some? ==> 1 <= |Pieces(r.value)| <= |pieces|
  {
    var head := pieces[0];
    if !IsHead(head) then None
    else if !Moves(head[0], head[1]) then Some(Record(head[0], head[1], head[3..], None))
    else if |pieces| < 2 || pieces[1] == [] then None
    else Some(Record(head[0], head[1], head[3..], Some(pieces[1])))
  }

  function Records(pieces: seq<Bytes>): Option<seq<Record>> {
    if pieces == [] then Some([])
    else if pieces[0] == [] then Records(pieces[1..])
    else
      var first :- FirstOf(pieces);
      Ahead([first], Records(pieces[|Pieces(first)|..]))
  }

  function Parse(status: Bytes): Option<seq<Record>> {
    Records(Split(status, NUL))
  }

  function PathsOf(record: Record): seq<Bytes> {
    [record.path] + (if record.source.Some? then [record.source.value] else [])
  }

  function Paths(records: seq<Record>): seq<Bytes> {
    if records == [] then [] else PathsOf(records[0]) + Paths(records[1..])
  }

  function EntriesOf(record: Record): seq<Entry> {
    [Entry(record.path, Changed(record.x, record.y))]
    + (if record.source.Some? then [Entry(record.source.value, SourceOf(record.x, record.y))] else [])
  }

  function Entries(records: seq<Record>): seq<Entry> {
    if records == [] then [] else EntriesOf(records[0]) + Entries(records[1..])
  }

  function PathsRead(parsed: Option<seq<Record>>): Option<seq<Bytes>> {
    if parsed.Some? then Some(Paths(parsed.value)) else None
  }

  function EntriesRead(parsed: Option<seq<Record>>): Option<seq<Entry>> {
    if parsed.Some? then Some(Entries(parsed.value)) else None
  }

  lemma AheadPaths(record: Record, rest: Option<seq<Record>>)
    ensures PathsRead(Ahead([record], rest)) == Ahead(PathsOf(record), PathsRead(rest))
    ensures EntriesRead(Ahead([record], rest)) == Ahead(EntriesOf(record), EntriesRead(rest))
  {
    if rest.Some? {
      assert ([record] + rest.value)[1..] == rest.value;
    }
  }

  lemma AheadTwice<T>(a: seq<T>, b: seq<T>, rest: Option<seq<T>>)
    ensures Ahead(a, Ahead(b, rest)) == Ahead(a + b, rest)
  {
    if rest.Some? {
      assert a + (b + rest.value) == (a + b) + rest.value;
    }
  }

  lemma AheadNothing<T>(rest: Option<seq<T>>)
    ensures Ahead([], rest) == rest
    ensures rest.Some? ==> Ahead(rest.value, Some([])) == rest
  {
    if rest.Some? {
      assert [] + rest.value == rest.value && rest.value + [] == rest.value;
    }
  }

  /** The readers. */

  // What is read in the end, when `found` has been read and the pieces from i on are left.
  function PathsLeft(pieces: seq<Bytes>, i: nat, found: seq<Bytes>): Option<seq<Bytes>>
    requires i <= |pieces|
  {
    Ahead(found, PathsRead(Records(pieces[i..])))
  }

  function EntriesLeft(pieces: seq<Bytes>, i: nat, found: seq<Entry>): Option<seq<Entry>>
    requires i <= |pieces|
  {
    Ahead(found, EntriesRead(Records(pieces[i..])))
  }

  lemma NothingRead(pieces: seq<Bytes>)
    ensures PathsLeft(pieces, 0, []) == PathsRead(Records(pieces))
    ensures EntriesLeft(pieces, 0, []) == EntriesRead(Records(pieces))
  {
    assert pieces[0..] == pieces;
    AheadNothing(PathsRead(Records(pieces)));
    AheadNothing(EntriesRead(Records(pieces)));
  }

  lemma AllRead(pieces: seq<Bytes>, paths: seq<Bytes>, entries: seq<Entry>)
    ensures PathsLeft(pieces, |pieces|, paths) == Some(paths)
    ensures EntriesLeft(pieces, |pieces|, entries) == Some(entries)
  {
    AheadNothing(Some(paths));
    AheadNothing(Some(entries));
  }

  // An empty piece is skipped.
  lemma BlankTurn(pieces: seq<Bytes>, i: nat, paths: seq<Bytes>, entries: seq<Entry>)
    requires i < |pieces| && pieces[i] == []
    ensures PathsLeft(pieces, i, paths) == PathsLeft(pieces, i + 1, paths)
    ensures EntriesLeft(pieces, i, entries) == EntriesLeft(pieces, i + 1, entries)
  {
    assert pieces[i..][1..] == pieces[i + 1..];
  }

  // Any other piece starts a record, or spoils the status.
  lemma RecordTurn(pieces: seq<Bytes>, i: nat, paths: seq<Bytes>, entries: seq<Entry>)
    requires i < |pieces| && pieces[i] != []
    ensures var first := FirstOf(pieces[i..]);
            if first.None? then PathsLeft(pieces, i, paths) == None && EntriesLeft(pieces, i, entries) == None
            else
              var next := i + |Pieces(first.value)|;
              && next <= |pieces|
              && PathsLeft(pieces, i, paths) == PathsLeft(pieces, next, paths + PathsOf(first.value))
              && EntriesLeft(pieces, i, entries) == EntriesLeft(pieces, next, entries + EntriesOf(first.value))
  {
    var rest := pieces[i..];
    if FirstOf(rest).Some? {
      var first := FirstOf(rest).value;
      var n := |Pieces(first)|;
      assert rest[n..] == pieces[i + n..];
      AheadPaths(first, Records(rest[n..]));
      AheadTwice(paths, PathsOf(first), PathsRead(Records(rest[n..])));
      AheadTwice(entries, EntriesOf(first), EntriesRead(Records(rest[n..])));
    }
  }

  // The same, in terms of the piece and the one after it.
  lemma PieceTurn(pieces: seq<Bytes>, i: nat, paths: seq<Bytes>, entries: seq<Entry>)
    requires i < |pieces| && pieces[i] != []
    ensures var piece := pieces[i]; var alone := i + 1 == |pieces| || pieces[i + 1] == [];
            if !IsHead(piece) || (Moves(piece[0], piece[1]) && alone) then
              PathsLeft(pieces, i, paths) == None && EntriesLeft(pieces, i, entries) == None
            else if !Moves(piece[0], piece[1]) then
              && PathsLeft(pieces, i, paths) == PathsLeft(pieces, i + 1, paths + [piece[3..]])
              && EntriesLeft(pieces, i, entries)
                 == EntriesLeft(pieces, i + 1, entries + [Entry(piece[3..], Changed(piece[0], piece[1]))])
            else
              && PathsLeft(pieces, i, paths) == PathsLeft(pieces, i + 2, (paths + [piece[3..]]) + [pieces[i + 1]])
              && EntriesLeft(pieces, i, entries)
                 == EntriesLeft(pieces, i + 2, (entries + [Entry(piece[3..], Changed(piece[0], piece[1]))])
                                               + [Entry(pieces[i + 1], SourceOf(piece[0], piece[1]))])
  {
    RecordTurn(pieces, i, paths, entries);
    var rest := pieces[i..];
    assert rest[0] == pieces[i] && (i + 1 < |pieces| ==> rest[1] == pieces[i + 1]);
    if FirstOf(rest).Some? {
      var first := FirstOf(rest).value;
      assert first.source.None? ==> PathsOf(first) == [first.path];
      Associate(paths, [first.path], if first.source.Some? then [first.source.value] else []);
      Associate(entries, [Entry(first.path, Changed(first.x, first.y))],
                if first.source.Some? then [Entry(first.source.value, SourceOf(first.x, first.y))] else []);
      assert paths + [first.path] + [] == paths + [first.path];
      var entry := Entry(first.path, Changed(first.x, first.y));
      assert entries + [entry] + [] == entries + [entry];
    }
  }

  lemma CodeMoves(piece: Bytes)
    requires |piece| >= 2
    ensures LETTER_R in piece[..2] || LETTER_C in piece[..2] <==> Moves(piece[0], piece[1])
  {
    assert piece[..2] == [piece[0], piece[1]];
  }

  method StatusPaths(status: Bytes) returns (paths: Option<seq<Bytes>>)
    ensures paths == PathsRead(Parse(status))
  {
    var entries := Split(status, NUL);
    var found: seq<Bytes> := [];
    var i := 0;
    NothingRead(entries);
    while i < |entries|
      invariant 0 <= i <= |entries|
      invariant PathsRead(Parse(status)) == PathsLeft(entries, i, found)
    {
      var entry := entries[i];
      if entry == [] {
        BlankTurn(entries, i, found, []);
        i := i + 1;
        continue;
      }
      PieceTurn(entries, i, found, []);
      i := i + 1;
      if |entry| < 4 || entry[2] != SPACE {
        return None;
      }
      found := found + [entry[3..]];
      CodeMoves(entry);
      if LETTER_R in entry[..2] || LETTER_C in entry[..2] {
        if i == |entries| || entries[i] == [] {
          return None;
        }
        found := found + [entries[i]];
        i := i + 1;
      }
    }
    AllRead(entries, found, []);
    return Some(found);
  }

  method PorcelainEntries(raw: Bytes) returns (result: Option<seq<Entry>>)
    ensures result == EntriesRead(Parse(raw))
  {
    var entries := Split(raw, NUL);
    var found: seq<Entry> := [];
    var i := 0;
    NothingRead(entries);
    while i < |entries|
      invariant 0 <= i <= |entries|
      invariant EntriesRead(Parse(raw)) == EntriesLeft(entries, i, found)
    {
      var item := entries[i];
      if item == [] {
        BlankTurn(entries, i, [], found);
        i := i + 1;
        continue;
      }
      PieceTurn(entries, i, [], found);
      i := i + 1;
      if |item| < 4 || item[2] != SPACE {
        return None;
      }
      var x, y := item[0], item[1];
      found := found + [Entry(item[3..], Changed(x, y))];
      if LETTER_R in [x, y] || LETTER_C in [x, y] {
        if i == |entries| || entries[i] == [] {
          return None;
        }
        found := found + [Entry(entries[i], SourceOf(x, y))];
        i := i + 1;
      }
    }
    AllRead(entries, [], found);
    return Some(found);
  }

  function PathsIn(entries: seq<Entry>): seq<Bytes> {
    if entries == [] then [] else [entries[0].path] + PathsIn(entries[1..])
  }

  lemma {:induction false} EntriesCarryPaths(records: seq<Record>)
    ensures PathsIn(Entries(records)) == Paths(records)
  {
    if records != [] {
      EntriesCarryPaths(records[1..]);
      var e := Entries(records);
      if records[0].source.Some? {
        assert e[1..][1..] == Entries(records[1..]);
        assert PathsIn(e) == [e[0].path] + ([e[1].path] + PathsIn(e[1..][1..]));
      } else {
        assert e[1..] == Entries(records[1..]);
      }
    }
  }

  // The two readers refuse the same inputs and list the same paths in the same order.
  method ReadersAgree(status: Bytes) returns (paths: Option<seq<Bytes>>, entries: Option<seq<Entry>>)
    ensures paths.Some? <==> entries.Some?
    ensures paths.Some? ==> PathsIn(entries.value) == paths.value
    ensures paths == PathsRead(Parse(status))
  {
    paths := StatusPaths(status);
    entries := PorcelainEntries(status);
    if paths.Some? {
      EntriesCarryPaths(Parse(status).value);
    }
  }

  // Every record has an entry with its path and status, and one with a marked status for its old path;
  // there are no others.
  lemma {:induction false} EntriesExact(records: seq<Record>)
    ensures forall r :: r in records ==> Entry(r.path, Changed(r.x, r.y)) in Entries(records)
    ensures forall r :: r in records && r.source.Some? ==> Entry(r.source.value, SourceOf(r.x, r.y)) in Entries(records)
    ensures |Entries(records)| == |records| + Sources(records)
  {
    if records != [] {
      var first, rest := EntriesOf(records[0]), Entries(records[1..]);
      EntriesExact(records[1..]);
      assert records == [records[0]] + records[1..];
      assert first[0] == Entry(records[0].path, Changed(records[0].x, records[0].y)) && first[0] in first + rest;
      assert forall e :: e in rest ==> e in first + rest;
      if records[0].source.Some? {
        assert first[1] in first + rest;
      }
    }
  }

  function Sources(records: seq<Record>): nat {
    if records == [] then 0 else (if records[0].source.Some? then 1 else 0) + Sources(records[1..])
  }

  // Nothing in the records is lost by the entries.
  lemma {:induction false} EntriesDetermineRecords(left: seq<Record>, right: seq<Record>)
    requires AllWellFormed(left) && AllWellFormed(right)
    requires Entries(left) == Entries(right)
    ensures left == right
  {
    if left == [] || right == [] {
      assert left == [] <==> Entries(left) == [];
      assert right == [] <==> Entries(right) == [];
    } else {
      var l, r := left[0], right[0];
      assert WellFormed(l) && WellFormed(r);
      assert Entries(left)[0] == EntriesOf(l)[0] && Entries(right)[0] == EntriesOf(r)[0];
      if l.source.Some? {
        assert Entries(left)[1] == EntriesOf(l)[1] && Entries(right)[1] == EntriesOf(r)[1];
      }
      assert l == r;
      var n := |EntriesOf(l)|;
      assert Entries(left)[n..] == Entries(left[1..]);
      assert Entries(right)[n..] == Entries(right[1..]);
      EntriesDetermineRecords(left[1..], right[1..]);
      assert left == [l] + left[1..] && right == [r] + right[1..];
    }
  }

  /** Reading inverts printing. */

  lemma {:induction false} RecordsAppend(a: seq<Bytes>, b: seq<Bytes>)
    requires Records(a).Some?
    ensures Records(a + b) == Ahead(Records(a).value, Records(b))
    decreases |a|
  {
    if a == [] {
      assert a + b == b;
      AheadNothing(Records(b));
    } else if a[0] == [] {
      RecordsAppend(a[1..], b);
      assert (a + b)[1..] == a[1..] + b;
    } else {
      var n := |Pieces(FirstOf(a).value)|;
      RecordsAppend(a[n..], b);
      assert a == a[..n] + a[n..];
      RecordsAppendFirst(a[..n], a[n..], b);
    }
  }

  lemma RecordsFrom(front: seq<Bytes>, rest: seq<Bytes>)
    requires front != [] && front[0] != []
    requires FirstOf(front + rest).Some? && |front| == |Pieces(FirstOf(front + rest).value)|
    ensures Records(front + rest) == Ahead([FirstOf(front + rest).value], Records(rest))
  {
    assert (front + rest)[|front|..] == rest;
  }

  lemma RecordsAppendFirst(front: seq<Bytes>, rest: seq<Bytes>, b: seq<Bytes>)
    requires front != [] && front[0] != []
    requires FirstOf(front + rest).Some? && |front| == |Pieces(FirstOf(front + rest).value)|
    requires Records(rest).Some? && Records(rest + b) == Ahead(Records(rest).value, Records(b))
    ensures Records(front + rest).Some?
    ensures Records((front + rest) + b) == Ahead(Records(front + rest).value, Records(b))
  {
    RecordsFrom(front, rest);
    FirstAppend(front + rest, b);
    Associate(front, rest, b);
    RecordsFrom(front, rest + b);
    AheadTwice([FirstOf(front + rest).value], Records(rest).value, Records(b));
  }

  lemma FirstAppend(a: seq<Bytes>, b: seq<Bytes>)
    requires a != [] && FirstOf(a).Some?
    ensures FirstOf(a + b) == FirstOf(a)
  {
    assert (a + b)[0] == a[0] && (|a| >= 2 ==> (a + b)[1] == a[1]);
  }

  // A stream that ends with a separator leaves an empty last piece, which is skipped.
  lemma {:induction false} RecordsSkipLast(a: seq<Bytes>)
    ensures Records(a + [[]]) == Records(a)
    decreases |a|
  {
    var b := a + [[]];
    if a != [] {
      assert b[0] == a[0] && b[1..] == a[1..] + [[]];
      RecordsSkipLast(a[1..]);
      if |a| >= 2 {
        assert b[1] == a[1] && b[2..] == a[2..] + [[]];
        RecordsSkipLast(a[2..]);
      }
    } else {
      assert b[1..] == [];
    }
  }

  function AllPieces(records: seq<Record>): seq<Bytes> {
    if records == [] then [] else Pieces(records[0]) + AllPieces(records[1..])
  }

  lemma SplitFirstPiece(piece: Bytes, tail: Bytes)
    requires NUL !in piece
    ensures Split(piece + [NUL] + tail, NUL) == [piece] + Split(tail, NUL)
  {
    SplitAtSeparator(piece, tail, NUL);
    SplitFree(piece, NUL);
  }

  lemma {:induction false} SplitTerminated(pieces: seq<Bytes>, rest: Bytes)
    requires forall i :: 0 <= i < |pieces| ==> NUL !in pieces[i]
    ensures Split(Terminated(pieces) + rest, NUL) == pieces + Split(rest, NUL)
  {
    if pieces == [] {
      assert Terminated(pieces) + rest == rest;
      assert pieces + Split(rest, NUL) == Split(rest, NUL);
    } else {
      var tail := Terminated(pieces[1..]) + rest;
      Associate(pieces[0] + [NUL], Terminated(pieces[1..]), rest);
      SplitFirstPiece(pieces[0], tail);
      SplitTerminated(pieces[1..], rest);
      Associate([pieces[0]], pieces[1..], Split(rest, NUL));
      assert [pieces[0]] + pieces[1..] == pieces;
    }
  }

  lemma {:induction false} SplitPrint(records: seq<Record>)
    requires AllWellFormed(records)
    ensures Split(Print(records), NUL) == AllPieces(records) + [[]]
  {
    if records != [] {
      assert WellFormed(records[0]);
      SplitTerminated(Pieces(records[0]), Print(records[1..]));
      SplitPrint(records[1..]);
      assert Pieces(records[0]) + (AllPieces(records[1..]) + [[]]) == AllPieces(records) + [[]];
    }
  }

  lemma {:induction false} RecordsOfPieces(records: seq<Record>)
    requires AllWellFormed(records)
    ensures Records(AllPieces(records)) == Some(records)
  {
    if records != [] {
      var r := records[0];
      var pieces := AllPieces(records);
      assert WellFormed(r);
      RecordsOfPieces(records[1..]);
      assert pieces[0] == Head(r) && Head(r)[3..] == r.path;
      assert [r] + records[1..] == records;
      if r.source.Some? {
        assert pieces[1] == r.source.value && pieces[2..] == AllPieces(records[1..]);
      } else {
        assert pieces[1..] == AllPieces(records[1..]);
      }
    }
  }

  // Both readers invert the printer on every list of well-formed records, rename sources included.
  lemma RoundTrip(records: seq<Record>)
    requires AllWellFormed(records)
    ensures Parse(Print(records)) == Some(records)
  {
    SplitPrint(records);
    RecordsSkipLast(AllPieces(records));
    RecordsOfPieces(records);
  }

  predicate NonEmpty(piece: Bytes) {
    piece != []
  }

  lemma FirstIsPrinted(pieces: seq<Bytes>)
    requires forall i :: 0 <= i < |pieces| ==> NUL !in pieces[i]
    requires pieces != [] && FirstOf(pieces).Some?
    ensures WellFormed(FirstOf(pieces).value)
    ensures Pieces(FirstOf(pieces).value) == pieces[..|Pieces(FirstOf(pieces).value)|]
    ensures Filter(pieces[..|Pieces(FirstOf(pieces).value)|], NonEmpty) == Pieces(FirstOf(pieces).value)
  {
    var head := pieces[0];
    assert head == [head[0], head[1], SPACE] + head[3..];
    assert head[0] in head && head[1] in head;
    var r := FirstOf(pieces).value;
    FilterAll(Pieces(r), NonEmpty);
  }

  // The other way round: what is accepted is a printed list, up to empty pieces and a missing
  // last separator.
  lemma {:induction false} RecordsArePrinted(pieces: seq<Bytes>)
    requires forall i :: 0 <= i < |pieces| ==> NUL !in pieces[i]
    requires Records(pieces).Some?
    ensures AllWellFormed(Records(pieces).value)
    ensures AllPieces(Records(pieces).value) == Filter(pieces, NonEmpty)
    decreases |pieces|
  {
    if pieces == [] {
    } else if pieces[0] == [] {
      RecordsArePrinted(pieces[1..]);
    } else {
      var first := FirstOf(pieces).value;
      var n := |Pieces(first)|;
      RecordsArePrinted(pieces[n..]);
      FirstIsPrinted(pieces);
      assert Records(pieces).value[1..] == Records(pieces[n..]).value;
      FilterAppend(pieces[..n], pieces[n..], NonEmpty);
      assert pieces[..n] + pieces[n..] == pieces;
    }
  }

  lemma AcceptedIsPrinted(status: Bytes)
    requires Parse(status).Some?
    ensures AllWellFormed(Parse(status).value)
    ensures Print(Parse(status).value) == Terminated(Filter(Split(status, NUL), NonEmpty))
  {
    PiecesAreFree(status, NUL);
    RecordsArePrinted(Split(status, NUL));
    PrintTerminatesPieces(Parse(status).value);
  }

  lemma {:induction false} TerminatedAppend(a: seq<Bytes>, b: seq<Bytes>)
    ensures Terminated(a + b) == Terminated(a) + Terminated(b)
  {
    var ab := a + b;
    if a == [] {
      assert ab == b;
    } else {
      assert ab[0] == a[0] && ab[1..] == a[1..] + b;
      TerminatedAppend(a[1..], b);
    }
  }

  lemma {:induction false} PrintTerminatesPieces(records: seq<Record>)
    ensures Print(records) == Terminated(AllPieces(records))
  {
    if records != [] {
      PrintTerminatesPieces(records[1..]);
      TerminatedAppend(Pieces(records[0]), AllPieces(records[1..]));
    }
  }

  /** Submodules: each changed path becomes one more record of the outer stream. */

  function Prefixed(relative: Bytes, path: Bytes): Bytes {
    relative + [SLASH] + path
  }

  function Modified(relative: Bytes, path: Bytes): Bytes {
    [SPACE, LETTER_M, SPACE] + Prefixed(relative, path) + [NUL]
  }

  function AllPrefixed(relative: Bytes, paths: seq<Bytes>): (all: seq<Bytes>)
    ensures |all| == |paths| && forall i :: 0 <= i < |all| ==> all[i] == relative + [SLASH] + paths[i]
  {
    if paths == [] then []
    else AllPrefixed(relative, paths[..|paths| - 1]) + [Prefixed(relative, paths[|paths| - 1])]
  }

  function WithModified(stdout: Bytes, relative: Bytes, paths: seq<Bytes>): Bytes {
    if paths == [] then stdout
    else WithModified(stdout, relative, paths[..|paths| - 1]) + Modified(relative, paths[|paths| - 1])
  }

  datatype Submodule = Submodule(relative: Bytes, status: Bytes)

  function WithSubmodules(stdout: Bytes, modules: seq<Submodule>): Option<Bytes> {
    if modules == [] then Some(stdout)
    else
      var last := modules[|modules| - 1];
      var before :- WithSubmodules(stdout, modules[..|modules| - 1]);
      var paths :- PathsRead(Parse(last.status));
      Some(WithModified(before, last.relative, paths))
  }

  lemma {:induction false} RefusedStaysRefused(stdout: Bytes, modules: seq<Submodule>, n: nat)
    requires n <= |modules|
    requires WithSubmodules(stdout, modules[..n]).None?
    ensures WithSubmodules(stdout, modules).None?
    decreases |modules|
  {
    if n == |modules| {
      assert modules[..n] == modules;
    } else {
      assert modules[..|modules| - 1][..n] == modules[..n];
      RefusedStaysRefused(stdout, modules[..|modules| - 1], n);
    }
  }

  method AppendSubmodules(stdout: Bytes, modules: seq<Submodule>) returns (result: Option<Bytes>)
    ensures result == WithSubmodules(stdout, modules)
  {
    var out := stdout;
    for i := 0 to |modules|
      invariant WithSubmodules(stdout, modules[..i]) == Some(out)
    {
      var submodule := modules[i];
      ghost var upTo := modules[..i + 1];
      assert upTo[..i] == modules[..i] && upTo[i] == submodule;
      var paths := StatusPaths(submodule.status);
      if paths.None? {
        RefusedStaysRefused(stdout, modules, i + 1);
        return None;
      }
      ghost var before := out;
      for j := 0 to |paths.value|
        invariant out == WithModified(before, submodule.relative, paths.value[..j])
      {
        assert paths.value[..j + 1][..j] == paths.value[..j];
        out := out + [SPACE, LETTER_M, SPACE] + submodule.relative + [SLASH] + paths.value[j] + [NUL];
        assert out == WithModified(before, submodule.relative, paths.value[..j])
                      + Modified(submodule.relative, paths.value[j]);
      }
      assert paths.value[..|paths.value|] == paths.value;
    }
    assert modules[..|modules|] == modules;
    return Some(out);
  }

  // Empty, or ended by a separator: what git itself writes.
  predicate Settled(stream: Bytes) {
    stream == [] || stream[|stream| - 1] == NUL
  }

  lemma {:induction false} SettledExact(stream: Bytes)
    ensures var pieces := Split(stream, NUL);
            Settled(stream) <==> pieces[|pieces| - 1] == []
  {
    if |stream| > 1 {
      SettledExact(stream[1..]);
    }
  }

  lemma {:induction false} PathsAppend(a: seq<Record>, b: seq<Record>)
    ensures Paths(a + b) == Paths(a) + Paths(b)
  {
    var ab := a + b;
    if a == [] {
      assert ab == b;
    } else {
      assert ab[0] == a[0] && ab[1..] == a[1..] + b;
      PathsAppend(a[1..], b);
    }
  }

  lemma SplitModified(relative: Bytes, path: Bytes)
    requires NUL !in relative && IsName(path)
    ensures var body := [SPACE, LETTER_M, SPACE] + Prefixed(relative, path);
            && Split(Modified(relative, path), NUL) == [body] + [[]]
            && Records([body] + [[]]) == Some([Record(SPACE, LETTER_M, Prefixed(relative, path), None)])
  {
    var name := Prefixed(relative, path);
    var body := [SPACE, LETTER_M, SPACE] + name;
    assert NUL !in body;
    SplitAtSeparator(body, [], NUL);
    SplitFree(body, NUL);
    assert body + [NUL] + [] == Modified(relative, path);
    RecordsSkipLast([body]);
    assert body[3..] == name;
    assert [body][1..] == [];
    AheadNothing(Some([Record(SPACE, LETTER_M, name, None)]));
  }

  lemma AppendToSettled(stream: Bytes, relative: Bytes, path: Bytes)
    requires Parse(stream).Some? && Settled(stream)
    requires NUL !in relative && IsName(path)
    ensures Parse(stream + Modified(relative, path))
            == Some(Parse(stream).value + [Record(SPACE, LETTER_M, Prefixed(relative, path), None)])
  {
    var pieces := Split(stream, NUL);
    var front := pieces[..|pieces| - 1];
    SettledExact(stream);
    assert pieces == front + [[]];
    RecordsSkipLast(front);
    SplitResume(stream, Modified(relative, path), NUL);
    assert [] + Modified(relative, path) == Modified(relative, path);
    SplitModified(relative, path);
    RecordsAppend(front, Split(Modified(relative, path), NUL));
  }

  // Without the separator the appended bytes run on from the last name: no path is added.
  lemma {:induction false} GrownLast(front: seq<Bytes>, last: Bytes, more: Bytes)
    requires last != []
    requires Records(front + [last]).Some?
    ensures Records(front + [last + more]).Some?
    ensures |Paths(Records(front + [last + more]).value)| == |Paths(Records(front + [last]).value)|
    decreases |front|
  {
    var a, b := front + [last], front + [last + more];
    if front == [] {
      assert a[1..] == [] && b[1..] == [];
    } else if front[0] == [] || !Moves(front[0][0], front[0][1]) {
      assert a[1..] == front[1..] + [last] && b[1..] == front[1..] + [last + more];
      GrownLast(front[1..], last, more);
    } else if |front| == 1 {
      assert a[2..] == [] && b[2..] == [];
      assert b[1] == last + more;
    } else {
      assert a[2..] == front[2..] + [last] && b[2..] == front[2..] + [last + more];
      assert a[1] == front[1] && b[1] == front[1];
      GrownLast(front[2..], last, more);
    }
  }

  lemma SplitUnsettled(stream: Bytes, body: Bytes)
    requires NUL !in body
    ensures var pieces := Split(stream, NUL); var front, last := pieces[..|pieces| - 1], pieces[|pieces| - 1];
            Split(stream + body + [NUL], NUL) == (front + [last + body]) + [[]]
  {
    var pieces := Split(stream, NUL);
    var front, last := pieces[..|pieces| - 1], pieces[|pieces| - 1];
    PiecesAreFree(stream, NUL);
    SplitResume(stream, body, NUL);
    SplitFree(last + body, NUL);
    SplitAtSeparator(stream + body, [], NUL);
    assert stream + body + [NUL] + [] == stream + body + [NUL];
  }

  lemma AppendToUnsettled(stream: Bytes, relative: Bytes, path: Bytes)
    requires Parse(stream).Some? && !Settled(stream)
    requires NUL !in relative && IsName(path)
    ensures Parse(stream + Modified(relative, path)).Some?
    ensures |Paths(Parse(stream + Modified(relative, path)).value)| == |Paths(Parse(stream).value)|
  {
    var pieces := Split(stream, NUL);
    var front, last := pieces[..|pieces| - 1], pieces[|pieces| - 1];
    var body := [SPACE, LETTER_M, SPACE] + Prefixed(relative, path);
    SettledExact(stream);
    assert pieces == front + [last];
    Associate(stream, body, [NUL]);
    SplitUnsettled(stream, body);
    RecordsSkipLast(front + [last + body]);
    GrownLast(front, last, body);
  }

  // For an accepted stream, one appended record adds exactly its path if and only if the stream
  // is empty or ends with a separator.
  lemma AppendExact(stream: Bytes, relative: Bytes, path: Bytes)
    requires Parse(stream).Some?
    requires NUL !in relative && IsName(path)
    ensures Settled(stream)
            <==> PathsRead(Parse(stream + Modified(relative, path)))
                 == Some(Paths(Parse(stream).value) + [relative + [SLASH] + path])
  {
    if Settled(stream) {
      AppendToSettled(stream, relative, path);
      var record := Record(SPACE, LETTER_M, Prefixed(relative, path), None);
      PathsAppend(Parse(stream).value, [record]);
      assert [record][1..] == [] && Paths([record]) == [record.path];
    } else {
      AppendToUnsettled(stream, relative, path);
    }
  }

  lemma {:induction false} AppendAll(stream: Bytes, relative: Bytes, paths: seq<Bytes>)
    requires Parse(stream).Some? && Settled(stream) && NUL !in relative
    requires forall i :: 0 <= i < |paths| ==> IsName(paths[i])
    ensures Settled(WithModified(stream, relative, paths))
    ensures PathsRead(Parse(WithModified(stream, relative, paths)))
            == Some(Paths(Parse(stream).value) + AllPrefixed(relative, paths))
  {
    if paths == [] {
      assert Paths(Parse(stream).value) + [] == Paths(Parse(stream).value);
    } else {
      var n := |paths| - 1;
      AppendAll(stream, relative, paths[..n]);
      AppendExact(WithModified(stream, relative, paths[..n]), relative, paths[n]);
      var outer, last := Paths(Parse(stream).value), Prefixed(relative, paths[n]);
      Associate(outer, AllPrefixed(relative, paths[..n]), [last]);
    }
  }

  lemma {:induction false} PathsAreNames(records: seq<Record>)
    requires AllWellFormed(records)
    ensures forall i :: 0 <= i < |Paths(records)| ==> IsName(Paths(records)[i])
  {
    if records != [] {
      assert WellFormed(records[0]);
      PathsAreNames(records[1..]);
    }
  }

  ghost predicate AllReadable(modules: seq<Submodule>) {
    forall i :: 0 <= i < |modules| ==> Parse(modules[i].status).Some?
  }

  ghost function SubmodulePaths(modules: seq<Submodule>): seq<Bytes>
    requires AllReadable(modules)
  {
    if modules == [] then []
    else
      var last := modules[|modules| - 1];
      SubmodulePaths(modules[..|modules| - 1])
      + AllPrefixed(last.relative, Paths(Parse(last.status).value))
  }

  // The stream lists the outer paths and then every submodule's paths under its prefix.
  ghost predicate Lists(stream: Bytes, stdout: Bytes, modules: seq<Submodule>)
    requires Parse(stdout).Some? && AllReadable(modules)
  {
    && Settled(stream)
    && PathsRead(Parse(stream)) == Some(Paths(Parse(stdout).value) + SubmodulePaths(modules))
  }

  lemma OneMoreSubmodule(before: Bytes, stdout: Bytes, modules: seq<Submodule>)
    requires Parse(stdout).Some? && modules != [] && AllReadable(modules)
    requires NUL !in modules[|modules| - 1].relative
    requires Lists(before, stdout, modules[..|modules| - 1])
    ensures var last := modules[|modules| - 1];
            Lists(WithModified(before, last.relative, Paths(Parse(last.status).value)), stdout, modules)
  {
    var n := |modules| - 1;
    var last := modules[n];
    var paths := Paths(Parse(last.status).value);
    AcceptedIsPrinted(last.status);
    PathsAreNames(Parse(last.status).value);
    AppendAll(before, last.relative, paths);
    var outer := Paths(Parse(stdout).value);
    Associate(outer, SubmodulePaths(modules[..n]), AllPrefixed(last.relative, paths));
  }

  lemma ReadableExact(modules: seq<Submodule>)
    requires modules != []
    ensures var n := |modules| - 1;
            AllReadable(modules) <==> AllReadable(modules[..n]) && Parse(modules[n].status).Some?
  {
    var n := |modules| - 1;
    assert forall i :: 0 <= i < n ==> modules[..n][i] == modules[i];
    if AllReadable(modules[..n]) && Parse(modules[n].status).Some? {
      forall i | 0 <= i < |modules| ensures Parse(modules[i].status).Some? {
        assert i < n ==> modules[..n][i] == modules[i];
      }
    }
  }

  // For a stream as git writes it, appending is refused exactly when some submodule's status is,
  // and otherwise adds exactly the prefixed paths.
  lemma {:induction false} SubmodulesExact(stdout: Bytes, modules: seq<Submodule>)
    requires Parse(stdout).Some? && Settled(stdout)
    requires forall i :: 0 <= i < |modules| ==> NUL !in modules[i].relative
    ensures WithSubmodules(stdout, modules).Some? <==> AllReadable(modules)
    ensures AllReadable(modules) ==> Lists(WithSubmodules(stdout, modules).value, stdout, modules)
  {
    if modules == [] {
      assert Paths(Parse(stdout).value) + [] == Paths(Parse(stdout).value);
    } else {
      var n := |modules| - 1;
      SubmodulesExact(stdout, modules[..n]);
      ReadableExact(modules);
      if AllReadable(modules) {
        OneMoreSubmodule(WithSubmodules(stdout, modules[..n]).value, stdout, modules);
      }
    }
  }
}
