/** workspace/process.py: exactly when the delivered events do not depend on how the output is cut into
    chunks at all, agreeing with the newline split or not. */
module CutIndependence {
  import opened ByteStrings
  import opened Sequences
  import opened StreamFraming

  // A provider whose events tell the lines they come from apart.
  ghost predicate TellsApart<E(!new)>(p: Provider<E>) {
    !p.antigravity && forall x, y :: p.parse(x) == p.parse(y) ==> x == y
  }

  // All finished lines fit, and the last piece is one byte too long with no way of reading it together
  // with a newline before it: it is found too long at its last byte, whatever the cuts.
  ghost predicate OneOverAtEnd(limit: nat, input: Bytes) {
    && AllFit(limit, Complete(input))
    && |Partial(input)| == limit + 1
    && (NEWLINE !in input || limit + 2 > READ_SIZE)
  }

  ghost predicate CutsDoNotMatter<E(!new)>(p: Provider<E>, limit: nat, input: Bytes) {
    forall a, b :: IsCut(a, input) && IsCut(b, input) ==> Events(p, limit, a) == Events(p, limit, b)
  }

  // ----- From a given state on -----

  // The events of the chunks still to come, and of the end.
  function From<E>(p: Provider<E>, limit: nat, b: Buffered, chunks: seq<Bytes>): seq<Event<E>>
    decreases |chunks|
  {
    if chunks == [] then Finish(p, limit, b.buffer)
    else
      var (b', events) := Feed(p, limit, b, chunks[0]);
      events + From(p, limit, b', chunks[1..])
  }

  lemma FromCons<E>(p: Provider<E>, limit: nat, b: Buffered, chunk: Bytes, chunks: seq<Bytes>)
    ensures var (b', events) := Feed(p, limit, b, chunk);
            From(p, limit, b, [chunk] + chunks) == events + From(p, limit, b', chunks)
  {
    assert ([chunk] + chunks)[1..] == chunks;
  }

  lemma {:induction false} EventsFrom<E>(p: Provider<E>, limit: nat, a: seq<Bytes>, c: seq<Bytes>)
    ensures var (b, events) := FeedAll(p, limit, a);
            Events(p, limit, a + c) == events + From(p, limit, b, c)
    decreases |c|
  {
    if c == [] {
      assert a + c == a;
    } else {
      var longer, rest := a + [c[0]], c[1..];
      assert a + c == longer + rest && c == [c[0]] + rest;
      EventsFrom(p, limit, longer, rest);
      FedOne(p, limit, a, c[0]);
      var (b, events) := FeedAll(p, limit, a);
      var (b', more) := Feed(p, limit, b, c[0]);
      FromCons(p, limit, b, c[0], rest);
      Associate(events, more, From(p, limit, b', rest));
    }
  }

  lemma FedOne<E>(p: Provider<E>, limit: nat, a: seq<Bytes>, chunk: Bytes)
    ensures var (b, events) := FeedAll(p, limit, a);
            var (b', more) := Feed(p, limit, b, chunk);
            FeedAll(p, limit, a + [chunk]) == (b', events + more)
  {
    assert (a + [chunk])[..|a|] == a;
  }

  // ----- Byte by byte -----

  // The length of the first line, or of everything when there is no newline.
  function FirstLength(s: Bytes): nat { if NEWLINE in s then IndexOf(s, NEWLINE) else |s| }

  // The reference for reading byte by byte from an empty buffer.
  function Bytewise<E>(p: Provider<E>, limit: nat, s: Bytes): seq<Event<E>>
    decreases |s|
  {
    var n := FirstLength(s);
    if s == [] then []
    else if n > limit then FirstFits(s); [Oversized] + Bytewise(p, limit, s[limit + 1..])
    else if NEWLINE in s then [Parsed(p.parse(s[..n]))] + Bytewise(p, limit, s[n + 1..])
    else [Parsed(p.parse(s))]
  }

  lemma FirstFits(s: Bytes)
    ensures FirstLength(s) <= |s|
  {
  }

  lemma FirstAfter(x: Bytes, s: Bytes)
    requires NEWLINE !in x
    ensures FirstLength(x + s) == |x| + FirstLength(s)
    ensures NEWLINE in x + s <==> NEWLINE in s
  {
    if NEWLINE in s {
      IndexAfter(x, s);
    }
  }

  lemma {:induction false} IndexAfter(x: Bytes, s: Bytes)
    requires NEWLINE !in x && NEWLINE in s
    ensures NEWLINE in x + s && IndexOf(x + s, NEWLINE) == |x| + IndexOf(s, NEWLINE)
  {
    if x == [] {
      assert x + s == s;
    } else {
      IndexAfter(x[1..], s);
      assert (x + s)[1..] == x[1..] + s;
    }
  }

  // What the reference gives for a buffered piece and what follows, in the four cases of the next byte.
  lemma BytewiseNewline<E>(p: Provider<E>, limit: nat, x: Bytes, s: Bytes)
    requires NEWLINE !in x && |x| <= limit
    ensures Bytewise(p, limit, x + [NEWLINE] + s) == [Parsed(p.parse(x))] + Bytewise(p, limit, s)
  {
    var all := x + [NEWLINE] + s;
    assert all == x + ([NEWLINE] + s);
    FirstAfter(x, [NEWLINE] + s);
    assert ([NEWLINE] + s)[0] == NEWLINE;
    assert all[..|x|] == x && all[|x| + 1..] == s;
  }

  lemma BytewiseOver<E>(p: Provider<E>, limit: nat, x: Bytes, s: Bytes)
    requires NEWLINE !in x && |x| == limit + 1
    ensures Bytewise(p, limit, x + s) == [Oversized] + Bytewise(p, limit, s)
  {
    FirstAfter(x, s);
    assert (x + s)[limit + 1..] == s;
  }

  lemma BytewiseEnd<E>(p: Provider<E>, limit: nat, x: Bytes)
    requires NEWLINE !in x && |x| <= limit
    ensures Bytewise(p, limit, x) == if x == [] then [] else [Parsed(p.parse(x))]
  {
  }

  lemma FeedNewline<E>(p: Provider<E>, limit: nat, b: Buffered)
    requires !p.antigravity && NEWLINE !in b.buffer && |b.buffer| <= limit
    ensures var (b', events) := Feed(p, limit, b, [NEWLINE]);
            b'.buffer == [] && events == [Parsed(p.parse(b.buffer))]
  {
    WholeLine(b.buffer);
    OnLinesCons(p, limit, b.seen, b.buffer, []);
    assert [b.buffer] + [] == [b.buffer];
    assert (b.buffer + [NEWLINE])[|b.buffer|] == NEWLINE;
  }

  lemma WholeLine(x: Bytes)
    requires NEWLINE !in x
    ensures Complete(x + [NEWLINE]) == [x] && Partial(x + [NEWLINE]) == []
  {
    SplitAtSeparator(x, [], NEWLINE);
    SplitFree(x, NEWLINE);
    assert x + [NEWLINE] + [] == x + [NEWLINE];
  }

  lemma FeedPlain<E>(p: Provider<E>, limit: nat, b: Buffered, chunk: Bytes)
    requires NEWLINE !in b.buffer + chunk
    ensures var whole := b.buffer + chunk; var (b', events) := Feed(p, limit, b, chunk);
            && b'.seen == b.seen
            && b'.buffer == (if |whole| > limit then [] else whole)
            && events == (if |whole| > limit then [Oversized] else [])
  {
    var whole := b.buffer + chunk;
    SplitFree(if |whole| > limit then [] else whole, NEWLINE);
  }

  lemma SinglesCons(s: Bytes)
    requires s != []
    ensures Singles(s) == [[s[0]]] + Singles(s[1..])
  {
  }

  // Reading byte by byte with a piece in the buffer gives the reference for that piece and the rest.
  lemma {:induction false} SinglesFrom<E>(p: Provider<E>, limit: nat, b: Buffered, s: Bytes)
    requires !p.antigravity && NEWLINE !in b.buffer && |b.buffer| <= limit
    ensures From(p, limit, b, Singles(s)) == Bytewise(p, limit, b.buffer + s)
    decreases |s|
  {
    if s == [] {
      assert b.buffer + s == b.buffer;
      BytewiseEnd(p, limit, b.buffer);
    } else {
      SinglesCons(s);
      FromCons(p, limit, b, [s[0]], Singles(s[1..]));
      var b' := Feed(p, limit, b, [s[0]]).0;
      SinglesStep(p, limit, b, s);
      SinglesFrom(p, limit, b', s[1..]);
    }
  }

  lemma SinglesStep<E>(p: Provider<E>, limit: nat, b: Buffered, s: Bytes)
    requires !p.antigravity && NEWLINE !in b.buffer && |b.buffer| <= limit && s != []
    ensures var (b', events) := Feed(p, limit, b, [s[0]]);
            && NEWLINE !in b'.buffer && |b'.buffer| <= limit
            && Bytewise(p, limit, b.buffer + s) == events + Bytewise(p, limit, b'.buffer + s[1..])
  {
    var c, rest := s[0], s[1..];
    var whole := b.buffer + [c];
    assert b.buffer + s == whole + rest && [] + rest == rest;
    if c == NEWLINE {
      FeedNewline(p, limit, b);
      BytewiseNewline(p, limit, b.buffer, rest);
    } else {
      FeedPlain(p, limit, b, [c]);
      if |whole| > limit {
        BytewiseOver(p, limit, whole, rest);
      } else {
        assert [] + Bytewise(p, limit, whole + rest) == Bytewise(p, limit, whole + rest);
      }
    }
  }

  // ----- Where dropping one byte shows -----

  lemma FirstDrops(s: Bytes)
    requires s != [] && s[0] != NEWLINE
    ensures FirstLength(s) == FirstLength(s[1..]) + 1
    ensures NEWLINE in s <==> NEWLINE in s[1..]
  {
    assert s == [s[0]] + s[1..];
    FirstAfter([s[0]], s[1..]);
  }

  lemma {:induction false} ByteShows<E(!new)>(p: Provider<E>, limit: nat, s: Bytes)
    requires TellsApart(p) && s != [] && s[0] != NEWLINE
    ensures Bytewise(p, limit, s) != Bytewise(p, limit, s[1..])
    decreases |s|
  {
    var n, t := FirstLength(s), s[1..];
    FirstDrops(s);
    if n > limit + 1 {
      FirstFits(s);
      var s', t' := s[limit + 1..], t[limit + 1..];
      assert s'[1..] == t';
      NotYet(s, limit + 1);
      ByteShows(p, limit, s');
      assert Bytewise(p, limit, s)[1..] == Bytewise(p, limit, s');
      assert Bytewise(p, limit, t)[1..] == Bytewise(p, limit, t');
    } else if n == limit + 1 {
      assert Bytewise(p, limit, s)[0] == Oversized;
    } else {
      LastShows(p, limit, s);
    }
  }

  lemma NotYet(s: Bytes, i: nat)
    requires i < FirstLength(s)
    ensures i < |s| && s[i] != NEWLINE
  {
    if NEWLINE in s {
      assert s[i] in s[..IndexOf(s, NEWLINE)];
    }
  }

  lemma LastShows<E(!new)>(p: Provider<E>, limit: nat, s: Bytes)
    requires TellsApart(p) && s != [] && s[0] != NEWLINE && FirstLength(s) <= limit
    ensures Bytewise(p, limit, s) != Bytewise(p, limit, s[1..])
  {
    var n, t := FirstLength(s), s[1..];
    FirstDrops(s);
    if NEWLINE in s {
      assert Bytewise(p, limit, s)[0] == Parsed(p.parse(s[..n]));
      assert Bytewise(p, limit, t)[0] == Parsed(p.parse(t[..n - 1]));
      assert |s[..n]| != |t[..n - 1]|;
    } else if t != [] {
      assert Bytewise(p, limit, s)[0] == Parsed(p.parse(s));
      assert Bytewise(p, limit, t)[0] == Parsed(p.parse(t));
      assert |s| != |t|;
    }
  }

  // ----- When all cuts agree although a line is too long -----

  function OneOver<E>(p: Provider<E>, limit: nat, input: Bytes): seq<Event<E>> {
    OnLines(p, limit, false, Complete(input)).1 + [Oversized]
  }

  lemma NewlineInChunk(x: Bytes, chunk: Bytes)
    requires NEWLINE in chunk
    ensures |Partial(x + chunk)| < |chunk|
  {
    SplitAppend(x, chunk, NEWLINE);
    PartialShorter(chunk);
  }

  lemma PartialShorter(s: Bytes)
    requires NEWLINE in s
    ensures |Split(s, NEWLINE)| >= 2 && |Partial(s)| < |s|
  {
    var k := IndexOf(s, NEWLINE);
    SplitAtFirst(s, NEWLINE);
    PartialFits(s[k + 1..]);
  }

  lemma {:induction false} PartialFits(s: Bytes)
    ensures |Partial(s)| <= |s|
  {
    if s != [] {
      PartialFits(s[1..]);
    }
  }

  lemma PlainChunk(x: Bytes, chunk: Bytes)
    requires NEWLINE !in chunk
    ensures Complete(x + chunk) == Complete(x) && Partial(x + chunk) == Partial(x) + chunk
  {
    CutsResume(x, chunk);
    SplitFree(Partial(x) + chunk, NEWLINE);
    assert Complete(x) + [] == Complete(x);
  }

  // The last chunk brings no newline, and everything before it fits.
  lemma LastChunkIsPlain(limit: nat, before: Bytes, chunk: Bytes)
    requires OneOverAtEnd(limit, before + chunk) && 1 <= |chunk| <= READ_SIZE
    ensures NEWLINE !in chunk && LinesFit(limit, before)
    ensures Complete(before + chunk) == Complete(before) && Partial(before + chunk) == Partial(before) + chunk
  {
    if NEWLINE in chunk {
      NewlineInChunk(before, chunk);
      assert false;
    }
    PlainChunk(before, chunk);
    FitsSplit(limit, before);
  }

  lemma OverAtEnd<E>(p: Provider<E>, limit: nat, chunks: seq<Bytes>, chunk: Bytes)
    requires OneOverAtEnd(limit, Flatten(chunks) + chunk) && 1 <= |chunk| <= READ_SIZE
    ensures Events(p, limit, chunks + [chunk]) == OneOver(p, limit, Flatten(chunks) + chunk)
  {
    var before := Flatten(chunks);
    LastChunkIsPlain(limit, before, chunk);
    FeedAllExact(p, limit, chunks);
    CutsResume(before, []);
    var (b, events) := FeedAll(p, limit, chunks);
    FeedPlain(p, limit, b, chunk);
    FedOne(p, limit, chunks, chunk);
    var all := events + [Oversized];
    assert all + [] == all;
  }

  lemma AllCutsOneOver<E(!new)>(p: Provider<E>, limit: nat, input: Bytes, chunks: seq<Bytes>)
    requires OneOverAtEnd(limit, input) && IsCut(chunks, input)
    ensures Events(p, limit, chunks) == OneOver(p, limit, input)
  {
    if chunks == [] {
      PartialFits(input);
    } else {
      var n := |chunks| - 1;
      assert chunks == chunks[..n] + [chunks[n]];
      OverAtEnd(p, limit, chunks[..n], chunks[n]);
    }
  }

  // ----- When two cuts differ -----

  // Bytes one by one, then one chunk, then bytes one by one.
  function WithChunk(before: Bytes, chunk: Bytes, after: Bytes): seq<Bytes> {
    (Singles(before) + [chunk]) + Singles(after)
  }

  lemma WithChunkIsCut(before: Bytes, chunk: Bytes, after: Bytes)
    requires 1 <= |chunk| <= READ_SIZE
    ensures IsCut(WithChunk(before, chunk, after), before + chunk + after)
  {
    SinglesFlatten(before);
    SinglesFlatten(after);
    FlattenAppend(Singles(before), [chunk]);
    FlattenAppend(Singles(before) + [chunk], Singles(after));
    FlattenOne(chunk);
  }

  lemma FlattenOne(chunk: Bytes)
    ensures Flatten([chunk]) == chunk
  {
    assert Flatten([chunk]) == Flatten([chunk][..0]) + chunk;
    assert [] + chunk == chunk;
  }

  lemma {:induction false} FlattenAppend(a: seq<Bytes>, b: seq<Bytes>)
    ensures Flatten(a + b) == Flatten(a) + Flatten(b)
    decreases |b|
  {
    if b == [] {
      assert a + b == a && Flatten(a) + [] == Flatten(a);
    } else {
      var n := |b| - 1;
      assert (a + b)[..|a + b| - 1] == a + b[..n];
      FlattenAppend(a, b[..n]);
      Associate(Flatten(a), Flatten(b[..n]), b[n]);
    }
  }

  // The events before the chunk, of the chunk, and after it.
  lemma ChunkEvents<E>(p: Provider<E>, limit: nat, before: Bytes, chunk: Bytes, after: Bytes)
    requires !p.antigravity && LinesFit(limit, before)
    requires var b' := Feed(p, limit, FeedAll(p, limit, Singles(before)).0, chunk).0;
             NEWLINE !in b'.buffer && |b'.buffer| <= limit
    ensures FeedAll(p, limit, Singles(before)).0.buffer == Partial(before)
    ensures var (b, events) := FeedAll(p, limit, Singles(before));
            var (b', more) := Feed(p, limit, b, chunk);
            Events(p, limit, WithChunk(before, chunk, after))
            == (events + more) + Bytewise(p, limit, b'.buffer + after)
  {
    SinglesFlatten(before);
    FeedAllExact(p, limit, Singles(before));
    EventsFrom(p, limit, Singles(before) + [chunk], Singles(after));
    FedOne(p, limit, Singles(before), chunk);
    SinglesFrom(p, limit, Feed(p, limit, FeedAll(p, limit, Singles(before)).0, chunk).0, after);
  }

  lemma BufferIsPartial<E>(p: Provider<E>, limit: nat, before: Bytes)
    requires LinesFit(limit, before)
    ensures var (b, events) := FeedAll(p, limit, Singles(before));
            && b.buffer == Partial(before) && NEWLINE !in b.buffer
            && events == OnLines(p, limit, false, Complete(before)).1
  {
    SinglesFlatten(before);
    FeedAllExact(p, limit, Singles(before));
    CutsResume(before, []);
  }

  // A line gets too long at byte c.
  predicate GoesOver(limit: nat, before: Bytes, c: Byte) {
    c != NEWLINE && |Partial(before)| == limit
  }

  // The chunk is that byte alone, or with a further byte of the same line: one oversized event either way.
  lemma OversizedChunk<E>(p: Provider<E>, limit: nat, before: Bytes, chunk: Bytes, after: Bytes)
    requires !p.antigravity && LinesFit(limit, before) && |Partial(before)| == limit
    requires chunk != [] && NEWLINE !in chunk
    ensures Events(p, limit, WithChunk(before, chunk, after))
            == (FeedAll(p, limit, Singles(before)).1 + [Oversized]) + Bytewise(p, limit, after)
  {
    BufferIsPartial(p, limit, before);
    FeedPlain(p, limit, FeedAll(p, limit, Singles(before)).0, chunk);
    ChunkEvents(p, limit, before, chunk, after);
    assert [] + after == after;
  }

  // The chunk is that byte and the newline that ends the line: the line is dropped silently.
  lemma SilentChunk<E>(p: Provider<E>, limit: nat, before: Bytes, c: Byte, after: Bytes)
    requires !p.antigravity && LinesFit(limit, before) && GoesOver(limit, before, c)
    ensures Events(p, limit, WithChunk(before, [c, NEWLINE], after))
            == FeedAll(p, limit, Singles(before)).1 + Bytewise(p, limit, after)
  {
    BufferIsPartial(p, limit, before);
    var (b, events) := FeedAll(p, limit, Singles(before));
    FeedDropped(p, limit, b, c);
    ChunkEvents(p, limit, before, [c, NEWLINE], after);
    assert [] + after == after && events + [] == events;
  }

  // A line over the limit that arrives together with its newline leaves nothing behind.
  lemma FeedDropped<E>(p: Provider<E>, limit: nat, b: Buffered, c: Byte)
    requires NEWLINE !in b.buffer && c != NEWLINE && |b.buffer| == limit
    ensures Feed(p, limit, b, [c, NEWLINE]) == (Buffered([], b.seen), [])
  {
    var line := b.buffer + [c];
    assert b.buffer + [c, NEWLINE] == line + [NEWLINE];
    assert (line + [NEWLINE])[|line|] == NEWLINE;
    WholeLine(line);
    OnLinesCons(p, limit, b.seen, line, []);
    assert [line] + [] == [line];
    var none: seq<Event<E>> := [];
    assert Feed(p, limit, b, [c, NEWLINE]) == (Buffered([], b.seen), none + none) && none + none == none;
  }

  lemma TwoCutsDiffer<E(!new)>(p: Provider<E>, limit: nat, input: Bytes, a: seq<Bytes>, b: seq<Bytes>)
    requires IsCut(a, input) && IsCut(b, input) && Events(p, limit, a) != Events(p, limit, b)
    ensures !CutsDoNotMatter(p, limit, input)
  {
  }

  // The line goes on after the byte that is too much: taking in one byte more shows.
  lemma LongerLineShows<E(!new)>(p: Provider<E>, limit: nat, before: Bytes, c: Byte, d: Byte, rest: Bytes)
    requires TellsApart(p) && LinesFit(limit, before) && GoesOver(limit, before, c) && d != NEWLINE
    ensures !CutsDoNotMatter(p, limit, before + [c, d] + rest)
  {
    LongerLineEvents(p, limit, before, c, d, rest);
    TwoChunkings(before, c, d, rest);
    TwoCutsDiffer(p, limit, before + [c, d] + rest,
                  WithChunk(before, [c], [d] + rest), WithChunk(before, [c, d], rest));
  }

  // The same input with byte c read alone, and with the byte after it.
  lemma TwoChunkings(before: Bytes, c: Byte, d: Byte, rest: Bytes)
    ensures IsCut(WithChunk(before, [c], [d] + rest), before + [c, d] + rest)
    ensures IsCut(WithChunk(before, [c, d], rest), before + [c, d] + rest)
  {
    WithChunkIsCut(before, [c], [d] + rest);
    WithChunkIsCut(before, [c, d], rest);
    assert [c, d] == [c] + [d];
    Associate(before, [c], [d]);
    Associate(before + [c], [d], rest);
  }

  lemma LongerLineEvents<E(!new)>(p: Provider<E>, limit: nat, before: Bytes, c: Byte, d: Byte, rest: Bytes)
    requires TellsApart(p) && LinesFit(limit, before) && GoesOver(limit, before, c) && d != NEWLINE
    ensures Events(p, limit, WithChunk(before, [c], [d] + rest)) != Events(p, limit, WithChunk(before, [c, d], rest))
  {
    var after := [d] + rest;
    assert after[1..] == rest;
    OversizedChunk(p, limit, before, [c], after);
    OversizedChunk(p, limit, before, [c, d], rest);
    ByteShows(p, limit, after);
    SamePrefix(FeedAll(p, limit, Singles(before)).1 + [Oversized], Bytewise(p, limit, after), Bytewise(p, limit, rest));
  }

  lemma SamePrefix<T>(x: seq<T>, y: seq<T>, z: seq<T>)
    requires y != z
    ensures x + y != x + z
  {
    assert (x + y)[|x|..] == y && (x + z)[|x|..] == z;
  }

  // The line ends right there: reading its newline with the byte that is too much shows.
  lemma EndedLineShows<E(!new)>(p: Provider<E>, limit: nat, before: Bytes, c: Byte, rest: Bytes)
    requires TellsApart(p) && LinesFit(limit, before) && GoesOver(limit, before, c)
    ensures !CutsDoNotMatter(p, limit, before + [c, NEWLINE] + rest)
  {
    EndedLineEvents(p, limit, before, c, rest);
    TwoChunkings(before, c, NEWLINE, rest);
    TwoCutsDiffer(p, limit, before + [c, NEWLINE] + rest,
                  WithChunk(before, [c], [NEWLINE] + rest), WithChunk(before, [c, NEWLINE], rest));
  }

  lemma EndedLineEvents<E(!new)>(p: Provider<E>, limit: nat, before: Bytes, c: Byte, rest: Bytes)
    requires TellsApart(p) && LinesFit(limit, before) && GoesOver(limit, before, c)
    ensures |Events(p, limit, WithChunk(before, [c], [NEWLINE] + rest))|
            == |Events(p, limit, WithChunk(before, [c, NEWLINE], rest))| + 2
  {
    OversizedChunk(p, limit, before, [c], [NEWLINE] + rest);
    SilentChunk(p, limit, before, c, rest);
    BytewiseNewline(p, limit, [], rest);
    assert [] + [NEWLINE] + rest == [NEWLINE] + rest;
  }

  // The last piece is one byte too long and can be read together with the newline before it: it is
  // then dropped at the end without an event.
  lemma DroppedTailShows<E(!new)>(p: Provider<E>, limit: nat, head: Bytes, tail: Bytes)
    requires LinesFit(limit, head) && NEWLINE !in tail && |tail| == limit + 1 && limit + 2 <= READ_SIZE
    ensures !CutsDoNotMatter(p, limit, head + ([NEWLINE] + tail))
  {
    var most, c := tail[..limit], tail[limit];
    var chunk, before := [NEWLINE] + tail, head + ([NEWLINE] + most);
    assert chunk == ([NEWLINE] + most) + [c];
    Associate(head, [NEWLINE] + most, [c]);
    DroppedTail(p, limit, head, tail);
    FoundTail(p, limit, head, most, c);
    WithChunkIsCut(head, chunk, []);
    WithChunkIsCut(before, [c], []);
    assert head + chunk + [] == head + chunk && before + [c] + [] == before + [c];
    TwoCutsDiffer(p, limit, head + chunk, WithChunk(head, chunk, []), WithChunk(before, [c], []));
  }

  lemma TailPieces(head: Bytes, tail: Bytes)
    requires NEWLINE !in tail
    ensures Complete(head + ([NEWLINE] + tail)) == Complete(head) + [Partial(head)]
    ensures Partial(head + ([NEWLINE] + tail)) == tail
  {
    assert head + ([NEWLINE] + tail) == head + [NEWLINE] + tail;
    SplitAtSeparator(head, tail, NEWLINE);
    SplitFree(tail, NEWLINE);
    PiecesOf(head);
  }

  lemma DroppedTail<E>(p: Provider<E>, limit: nat, head: Bytes, tail: Bytes)
    requires LinesFit(limit, head) && NEWLINE !in tail && |tail| == limit + 1
    ensures |Events(p, limit, WithChunk(head, [NEWLINE] + tail, []))| == |Complete(head)| + 1
  {
    BufferIsPartial(p, limit, head);
    FitsSplit(limit, head);
    var (b, events) := FeedAll(p, limit, Singles(head));
    var chunk := [NEWLINE] + tail;
    assert (b.buffer + chunk)[|b.buffer|] == NEWLINE;
    TailPieces(b.buffer, tail);
    SplitFree(b.buffer, NEWLINE);
    assert Complete(b.buffer + chunk) == [b.buffer];
    FeedFits(p, limit, b, chunk);
    AllParsed(p, limit, false, Complete(head));
    AllParsed(p, limit, b.seen, [b.buffer]);
    FedOne(p, limit, Singles(head), chunk);
    assert Singles([]) == [];
    assert WithChunk(head, chunk, []) == Singles(head) + [chunk];
  }

  lemma TailFits(limit: nat, head: Bytes, tail: Bytes)
    requires LinesFit(limit, head) && NEWLINE !in tail && |tail| <= limit
    ensures LinesFit(limit, head + ([NEWLINE] + tail))
  {
    TailPieces(head, tail);
    FitsSplit(limit, head);
    AllFitParts(limit, Complete(head), [Partial(head)]);
    FitsSplit(limit, head + ([NEWLINE] + tail));
  }

  lemma FoundTail<E>(p: Provider<E>, limit: nat, head: Bytes, most: Bytes, c: Byte)
    requires LinesFit(limit, head) && NEWLINE !in most && |most| == limit && c != NEWLINE
    ensures |Events(p, limit, WithChunk(head + ([NEWLINE] + most), [c], []))| == |Complete(head)| + 2
  {
    TailPieces(head, most);
    TailFits(limit, head, most);
    FoundAtEnd(p, limit, head + ([NEWLINE] + most), c);
  }

  lemma FoundAtEnd<E>(p: Provider<E>, limit: nat, before: Bytes, c: Byte)
    requires LinesFit(limit, before) && |Partial(before)| == limit && c != NEWLINE
    ensures |Events(p, limit, WithChunk(before, [c], []))| == |Complete(before)| + 1
  {
    FitsSplit(limit, before);
    BufferIsPartial(p, limit, before);
    AllParsed(p, limit, false, Complete(before));
    var (b, events) := FeedAll(p, limit, Singles(before));
    FeedPlain(p, limit, b, [c]);
    FedOne(p, limit, Singles(before), [c]);
    assert WithChunk(before, [c], []) == Singles(before) + [[c]];
  }

  lemma {:induction false} AllParsed<E>(p: Provider<E>, limit: nat, seen: bool, lines: seq<Bytes>)
    requires AllFit(limit, lines)
    ensures |OnLines(p, limit, seen, lines).1| == |lines|
    decreases |lines|
  {
    if lines != [] {
      assert lines[0] in lines && forall line :: line in lines[1..] ==> line in lines;
      AllParsed(p, limit, OnLine(p, seen, lines[0]).0, lines[1..]);
    }
  }

  // ----- The exact condition -----

  // Where the first line gets too long.
  lemma FirstOver(limit: nat, input: Bytes) returns (n: nat)
    requires !LinesFit(limit, input)
    ensures n < |input| && LinesFit(limit, input[..n]) && GoesOver(limit, input[..n], input[n])
  {
    n := FirstOverflow(limit, input);
    assert input[..n] + [input[n]] == input[..n + 1];
    if !Overflows(limit, Partial(input[..n]), input[n]) {
      OneMoreByte(limit, input[..n], input[n]);
    }
    FitsSplit(limit, input[..n]);
    assert (Partial(input[..n]) + [input[n]])[limit] == input[n];
  }

  lemma TailOverShows<E(!new)>(p: Provider<E>, limit: nat, before: Bytes, c: Byte)
    requires LinesFit(limit, before) && GoesOver(limit, before, c)
    ensures OneOverAtEnd(limit, before + [c]) || !CutsDoNotMatter(p, limit, before + [c])
  {
    PlainChunk(before, [c]);
    FitsSplit(limit, before);
    var input := before + [c];
    if NEWLINE in input && limit + 2 <= READ_SIZE {
      var head := CutTail(input);
      var tail := Partial(input);
      HeadFits(limit, head, tail, before, c);
      PiecesAreFree(input, NEWLINE);
      DroppedTailShows(p, limit, head, tail);
    }
  }

  lemma {:induction false} CutTail(s: Bytes) returns (head: Bytes)
    requires NEWLINE in s
    ensures s == head + ([NEWLINE] + Partial(s))
  {
    var last := s[|s| - 1];
    var init := s[..|s| - 1];
    assert s == init + [last];
    if last == NEWLINE {
      head := init;
      SplitAtSeparator(init, [], NEWLINE);
      assert init + [NEWLINE] + [] == s;
    } else {
      head := CutTail(init);
      PlainChunk(init, [last]);
    }
  }

  lemma HeadFits(limit: nat, head: Bytes, tail: Bytes, before: Bytes, c: Byte)
    requires before + [c] == head + ([NEWLINE] + tail) && tail != []
    requires LinesFit(limit, before)
    ensures LinesFit(limit, head)
  {
    var most := tail[..|tail| - 1];
    assert before == (before + [c])[..|before|] == (head + ([NEWLINE] + tail))[..|before|];
    assert before == head + ([NEWLINE] + most);
    FitsPrefix(limit, head, [NEWLINE] + most);
  }

  // All cuts of an input give the same events if and only if every line fits, or every finished line
  // does and the last piece is one byte too long and cannot be read together with a newline before it.
  lemma CutsExact<E(!new)>(p: Provider<E>, limit: nat, input: Bytes)
    requires TellsApart(p)
    ensures CutsDoNotMatter(p, limit, input) <==> LinesFit(limit, input) || OneOverAtEnd(limit, input)
  {
    if LinesFit(limit, input) || OneOverAtEnd(limit, input) {
      CutsAgreeWhen(p, limit, input);
    } else {
      var n := FirstOver(limit, input);
      var before, c, after := input[..n], input[n], input[n + 1..];
      assert input == before + [c] + after;
      if after == [] {
        assert input == before + [c];
        TailOverShows(p, limit, before, c);
      } else if after[0] == NEWLINE {
        assert input == before + [c, NEWLINE] + after[1..];
        EndedLineShows(p, limit, before, c, after[1..]);
      } else {
        assert input == before + [c, after[0]] + after[1..];
        LongerLineShows(p, limit, before, c, after[0], after[1..]);
      }
    }
  }

  // One direction holds for every provider.
  lemma CutsAgreeWhen<E(!new)>(p: Provider<E>, limit: nat, input: Bytes)
    requires LinesFit(limit, input) || OneOverAtEnd(limit, input)
    ensures CutsDoNotMatter(p, limit, input)
  {
    forall a, b | IsCut(a, input) && IsCut(b, input) ensures Events(p, limit, a) == Events(p, limit, b) {
      if LinesFit(limit, input) {
        CutsAgree(p, limit, a, input);
        CutsAgree(p, limit, b, input);
      } else {
        AllCutsOneOver(p, limit, input, a);
        AllCutsOneOver(p, limit, input, b);
      }
    }
  }
}
