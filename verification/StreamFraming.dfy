/** workspace/process.py: the provider's output, read in chunks from two descriptors and delivered line
    by line. */
module StreamFraming {
  import opened ByteStrings
  import opened Sequences

  const NEWLINE: Byte := 10
  const READ_SIZE := 65536

  // The pieces a newline ends, and what follows the last newline.
  function Complete(s: Bytes): seq<Bytes> { Split(s, NEWLINE)[..|Split(s, NEWLINE)| - 1] }

  function Partial(s: Bytes): Bytes { Split(s, NEWLINE)[|Split(s, NEWLINE)| - 1] }

  // `parse_provider_event` and what the loop asks of an event, left abstract.
  datatype Provider<!E> = Provider(
    parse: Bytes -> E, marksOutput: E -> bool, endsTurn: E -> bool, reviewed: E -> E, antigravity: bool)

  // Events of the standard output, a line of the standard error, and the one sent on cancellation.
  datatype Event<+E> = Parsed(event: E) | Oversized | Notice(line: Bytes) | Cancelled

  // One complete line; a turn that ends after output is marked for review for one provider only.
  function OnLine<E>(p: Provider<E>, seen: bool, line: Bytes): (bool, Event<E>) {
    var event := p.parse(line);
    var seen' := seen || p.marksOutput(event);
    (seen', Parsed(if p.antigravity && p.endsTurn(event) && seen' then p.reviewed(event) else event))
  }

  // The events of complete lines; a line over the limit is dropped without one.
  function OnLines<E>(p: Provider<E>, limit: nat, seen: bool, lines: seq<Bytes>): (bool, seq<Event<E>>)
    decreases |lines|
  {
    if lines == [] then (seen, [])
    else if |lines[0]| > limit then OnLines(p, limit, seen, lines[1..])
    else
      var (seen', event) := OnLine(p, seen, lines[0]);
      var (last, events) := OnLines(p, limit, seen', lines[1..]);
      (last, [event] + events)
  }

  datatype Buffered = Buffered(buffer: Bytes, seen: bool)

  // One chunk: what stays buffered, and the events it causes.
  function Feed<E>(p: Provider<E>, limit: nat, b: Buffered, chunk: Bytes): (Buffered, seq<Event<E>>) {
    var whole := b.buffer + chunk;
    var over := |whole| > limit && NEWLINE !in whole;
    var kept := if over then [] else whole;
    var (seen, events) := OnLines(p, limit, b.seen, Complete(kept));
    (Buffered(Partial(kept), seen), (if over then [Oversized] else []) + events)
  }

  function FeedAll<E>(p: Provider<E>, limit: nat, chunks: seq<Bytes>): (Buffered, seq<Event<E>>) {
    if chunks == [] then (Buffered([], false), [])
    else
      var (b, events) := FeedAll(p, limit, chunks[..|chunks| - 1]);
      var (b', more) := Feed(p, limit, b, chunks[|chunks| - 1]);
      (b', events + more)
  }

  // What is left at the end of the stream is parsed as it is.
  function Finish<E>(p: Provider<E>, limit: nat, buffer: Bytes): seq<Event<E>> {
    if buffer == [] || |buffer| > limit then [] else [Parsed(p.parse(buffer))]
  }

  // The events of the standard output alone.
  function Events<E>(p: Provider<E>, limit: nat, chunks: seq<Bytes>): seq<Event<E>> {
    var (b, events) := FeedAll(p, limit, chunks);
    events + Finish(p, limit, b.buffer)
  }

  // The standard error: a line is shown unless it is empty, and only the last `limit` bytes are kept.
  function Notices<E>(lines: seq<Bytes>): seq<Event<E>> {
    if lines == [] then [] else (if lines[0] != [] then [Notice(lines[0])] else []) + Notices(lines[1..])
  }

  function Trimmed(limit: nat, s: Bytes): Bytes { if |s| > limit then s[|s| - limit..] else s }

  // One read of either descriptor, and what it causes.
  datatype Read = Out(chunk: Bytes) | Err(chunk: Bytes)

  datatype Buffers = Buffers(out: Buffered, err: Bytes)

  function FeedRead<E>(p: Provider<E>, limit: nat, b: Buffers, read: Read): (Buffers, seq<Event<E>>) {
    match read
    case Out(chunk) =>
      var (out, events) := Feed(p, limit, b.out, chunk);
      (b.(out := out), events)
    case Err(chunk) =>
      var kept := Trimmed(limit, b.err + chunk);
      (b.(err := Partial(kept)), Notices(Complete(kept)))
  }

  function FeedReads<E>(p: Provider<E>, limit: nat, trace: seq<Read>): (Buffers, seq<Event<E>>) {
    if trace == [] then (Buffers(Buffered([], false), []), [])
    else
      var (b, events) := FeedReads(p, limit, trace[..|trace| - 1]);
      var (b', more) := FeedRead(p, limit, b, trace[|trace| - 1]);
      (b', events + more)
  }

  // A run ends when both descriptors are closed, or at a cancellation between two rounds of reads.
  datatype Ending = Closed | Cancellation

  function Last<E>(p: Provider<E>, limit: nat, b: Buffers, ending: Ending): seq<Event<E>> {
    match ending
    case Cancellation => [Cancelled]
    case Closed => Finish(p, limit, b.out.buffer) + Notices([b.err])
  }

  // All events of a whole run whose handler never stops it.
  function RunEvents<E>(p: Provider<E>, limit: nat, trace: seq<Read>, ending: Ending): seq<Event<E>> {
    var (b, events) := FeedReads(p, limit, trace);
    events + Last(p, limit, b, ending)
  }

  // A handler sees events up to and including the first it answers False to.
  function Until<E>(handler: Event<E> -> bool, events: seq<Event<E>>): seq<Event<E>> {
    if events == [] then []
    else if handler(events[0]) then [events[0]] + Until(handler, events[1..])
    else [events[0]]
  }

  predicate AllAccepted<E(!new)>(handler: Event<E> -> bool, events: seq<Event<E>>) {
    forall i :: 0 <= i < |events| ==> handler(events[i])
  }

  lemma UntilCons<E(!new)>(handler: Event<E> -> bool, x: Event<E>, rest: seq<Event<E>>)
    ensures Until(handler, [x] + rest) == [x] + (if handler(x) then Until(handler, rest) else [])
    ensures AllAccepted(handler, [x] + rest) <==> handler(x) && AllAccepted(handler, rest)
  {
    var all := [x] + rest;
    assert all[0] == x && all[1..] == rest && [x] + [] == [x];
    if handler(x) && AllAccepted(handler, rest) {
      forall i | 0 <= i < |all| ensures handler(all[i]) {
        assert i > 0 ==> all[i] == rest[i - 1];
      }
    }
    if AllAccepted(handler, all) {
      forall i | 0 <= i < |rest| ensures handler(rest[i]) {
        assert all[i + 1] == rest[i];
      }
    }
  }

  lemma {:induction false} UntilAppend<E(!new)>(handler: Event<E> -> bool, a: seq<Event<E>>, b: seq<Event<E>>)
    ensures Until(handler, a + b) ==
            if AllAccepted(handler, a) then a + Until(handler, b) else Until(handler, a)
    ensures AllAccepted(handler, a) ==> Until(handler, a) == a
    decreases |a|
  {
    if a == [] {
      assert a + b == b;
      assert [] + Until(handler, b) == Until(handler, b);
    } else {
      var x, rest := a[0], a[1..];
      assert a == [x] + rest;
      UntilAppend(handler, rest, b);
      UntilCons(handler, x, rest);
      UntilCons(handler, x, rest + b);
      Associate([x], rest, b);
      Associate([x], rest, Until(handler, b));
    }
  }

  lemma AcceptedAppend<E(!new)>(handler: Event<E> -> bool, a: seq<Event<E>>, b: seq<Event<E>>)
    ensures AllAccepted(handler, a + b) <==> AllAccepted(handler, a) && AllAccepted(handler, b)
  {
    var ab := a + b;
    if AllAccepted(handler, ab) {
      forall i | 0 <= i < |a| ensures handler(a[i]) {
        assert ab[i] == a[i];
      }
      forall i | 0 <= i < |b| ensures handler(b[i]) {
        assert ab[|a| + i] == b[i];
      }
    }
  }

  // The first line of a buffer, and what is left of it.
  lemma FirstLine(buffer: Bytes)
    requires NEWLINE in buffer
    ensures var k := IndexOf(buffer, NEWLINE);
            Complete(buffer) == [buffer[..k]] + Complete(buffer[k + 1..]) && Partial(buffer) == Partial(buffer[k + 1..])
  {
    var k := IndexOf(buffer, NEWLINE);
    SplitAtFirst(buffer, NEWLINE);
  }

  lemma OnLinesCons<E>(p: Provider<E>, limit: nat, seen: bool, line: Bytes, lines: seq<Bytes>)
    ensures OnLines(p, limit, seen, [line] + lines) ==
            if |line| > limit then OnLines(p, limit, seen, lines)
            else var (seen', event) := OnLine(p, seen, line);
                 var (last, events) := OnLines(p, limit, seen', lines);
                 (last, [event] + events)
  {
    assert ([line] + lines)[1..] == lines;
  }

  // Taking one line off the buffer takes one line off what is left to deliver.
  lemma NextLine<E>(p: Provider<E>, limit: nat, seen: bool, buffer: Bytes)
    requires NEWLINE in buffer
    ensures var k := IndexOf(buffer, NEWLINE); var line, rest := buffer[..k], buffer[k + 1..];
            && Partial(buffer) == Partial(rest)
            && OnLines(p, limit, seen, Complete(buffer)) ==
                 if k > limit then OnLines(p, limit, seen, Complete(rest))
                 else var (seen', event) := OnLine(p, seen, line);
                      var (last, events) := OnLines(p, limit, seen', Complete(rest));
                      (last, [event] + events)
  {
    var k := IndexOf(buffer, NEWLINE);
    FirstLine(buffer);
    OnLinesCons(p, limit, seen, buffer[..k], Complete(buffer[k + 1..]));
  }

  // Accepted events followed by a refused one: the run stops right there.
  lemma StopsAt<E(!new)>(handler: Event<E> -> bool, done: seq<Event<E>>, event: Event<E>, all: seq<Event<E>>)
    requires AllAccepted(handler, done) && done + [event] <= all
    ensures handler(event) ==> AllAccepted(handler, done + [event])
    ensures !handler(event) ==> !AllAccepted(handler, all) && Until(handler, all) == done + [event]
  {
    if !handler(event) {
      var rest := all[|done|..];
      assert all == done + rest && rest[0] == event && all[|done|] == event;
      UntilAppend(handler, done, rest);
    }
  }

  // Where draining the buffer stands: `all` is what it delivers in the end, `done` what it has.
  ghost predicate Draining<E(!new)>(p: Provider<E>, limit: nat, seen: bool, buffer: Bytes,
                                    done: seq<Event<E>>, all: seq<Event<E>>, last: bool, end: Bytes)
  {
    && Partial(buffer) == end
    && OnLines(p, limit, seen, Complete(buffer)).0 == last
    && all == done + OnLines(p, limit, seen, Complete(buffer)).1
  }

  lemma DrainTurn<E(!new)>(p: Provider<E>, limit: nat, seen: bool, buffer: Bytes,
                           done: seq<Event<E>>, all: seq<Event<E>>, last: bool, end: Bytes)
    requires NEWLINE in buffer && Draining(p, limit, seen, buffer, done, all, last, end)
    ensures var k := IndexOf(buffer, NEWLINE); var (seen', event) := OnLine(p, seen, buffer[..k]);
            if k > limit then Draining(p, limit, seen, buffer[k + 1..], done, all, last, end)
            else && Draining(p, limit, seen', buffer[k + 1..], done + [event], all, last, end)
                 && done + [event] <= all
  {
    NextLine(p, limit, seen, buffer);
    var k := IndexOf(buffer, NEWLINE);
    if k <= limit {
      var (seen', event) := OnLine(p, seen, buffer[..k]);
      var rest := OnLines(p, limit, seen', Complete(buffer[k + 1..])).1;
      Associate(done, [event], rest);
    }
  }

  lemma DrainEnd<E(!new)>(p: Provider<E>, limit: nat, seen: bool, buffer: Bytes,
                          done: seq<Event<E>>, all: seq<Event<E>>, last: bool, end: Bytes)
    requires NEWLINE !in buffer && Draining(p, limit, seen, buffer, done, all, last, end)
    ensures all == done && last == seen && end == buffer
  {
    SplitFree(buffer, NEWLINE);
    assert Complete(buffer) == [];
  }

  // Where showing the lines of the error buffer stands.
  ghost predicate Showing<E>(buffer: Bytes, done: seq<Event<E>>, all: seq<Event<E>>, end: Bytes) {
    Partial(buffer) == end && all == done + Notices(Complete(buffer))
  }

  lemma ShowingTurn<E>(buffer: Bytes, done: seq<Event<E>>, all: seq<Event<E>>, end: Bytes)
    requires NEWLINE in buffer && Showing(buffer, done, all, end)
    ensures var k := IndexOf(buffer, NEWLINE); var line, rest := buffer[..k], buffer[k + 1..];
            if line == [] then Showing(rest, done, all, end)
            else Showing(rest, done + [Notice(line)], all, end) && done + [Notice(line)] <= all
  {
    var k := IndexOf(buffer, NEWLINE);
    FirstLine(buffer);
    ShowFirst(buffer[..k], Complete(buffer[k + 1..]), done, all);
  }

  lemma ShowFirst<E>(line: Bytes, lines: seq<Bytes>, done: seq<Event<E>>, all: seq<Event<E>>)
    requires all == done + Notices([line] + lines)
    ensures line == [] ==> all == done + Notices(lines)
    ensures line != [] ==> all == (done + [Notice(line)]) + Notices(lines)
  {
    NoticesCons<E>(line, lines);
    Associate(done, [Notice(line)], Notices(lines));
  }

  lemma NoticesCons<E>(line: Bytes, lines: seq<Bytes>)
    ensures Notices<E>([line] + lines) == if line != [] then [Notice(line)] + Notices(lines) else Notices(lines)
  {
    assert ([line] + lines)[1..] == lines;
    assert [] + Notices<E>(lines) == Notices<E>(lines);
  }

  lemma NoticesOne<E>(line: Bytes)
    ensures Notices<E>([line]) == if line != [] then [Notice(line)] else []
  {
    NoticesCons<E>(line, []);
    assert [line] + [] == [line];
  }

  lemma ShowingEnds<E>(buffer: Bytes, done: seq<Event<E>>, all: seq<Event<E>>, end: Bytes)
    requires NEWLINE !in buffer && Showing(buffer, done, all, end)
    ensures all == done && end == buffer
  {
    SplitFree(buffer, NEWLINE);
    assert Complete(buffer) == [];
  }

  lemma UntilShort<E(!new)>(handler: Event<E> -> bool, first: seq<Event<E>>, second: seq<Event<E>>)
    requires |first| <= 1 && |second| <= 1
    ensures Until(handler, first + second) == first + (if AllAccepted(handler, first) then second else [])
  {
    UntilAppend(handler, first, second);
    UntilSelf(handler, first);
    UntilSelf(handler, second);
    assert first + [] == first;
  }

  lemma UntilSelf<E(!new)>(handler: Event<E> -> bool, events: seq<Event<E>>)
    requires |events| <= 1
    ensures Until(handler, events) == events
  {
    if events != [] {
      UntilCons(handler, events[0], []);
      assert events == [events[0]] + [];
    }
  }

  lemma OversizedFirst<E(!new)>(handler: Event<E> -> bool, rest: seq<Event<E>>)
    ensures [] + rest == rest
    ensures AllAccepted(handler, [Oversized] + rest) <==> handler(Oversized) && AllAccepted(handler, rest)
    ensures Until(handler, [Oversized] + rest)
            == [Oversized] + (if handler(Oversized) then Until(handler, rest) else [])
  {
    UntilCons(handler, Oversized, rest);
  }

  class StreamReader<E(!new)> {
    const provider: Provider<E>
    const limit: nat
    const handler: Event<E> -> bool
    var buffer: Bytes
    var errors: Bytes
    var seen: bool
    var delivered: seq<Event<E>>

    constructor (provider: Provider<E>, limit: nat, handler: Event<E> -> bool)
      ensures Held() == Buffers(Buffered([], false), []) && delivered == []
      ensures this.provider == provider && this.limit == limit && this.handler == handler
    {
      this.provider := provider;
      this.limit := limit;
      this.handler := handler;
      buffer, errors, seen, delivered := [], [], false, [];
    }

    function Held(): Buffers
      reads this
    {
      Buffers(Buffered(buffer, seen), errors)
    }

    method Deliver(event: Event<E>) returns (running: bool)
      modifies this`delivered
      ensures delivered == old(delivered) + [event] && running == handler(event)
    {
      delivered := delivered + [event];
      running := handler(event);
    }

    // One read of either descriptor; false once the handler stopped the run.
    method OnRead(read: Read) returns (running: bool)
      modifies this
      ensures var (b, events) := FeedRead(provider, limit, old(Held()), read);
              && running == AllAccepted(handler, events)
              && delivered == old(delivered) + Until(handler, events)
              && (running ==> Held() == b)
    {
      match read {
        case Out(chunk) => running := OnChunk(chunk);
        case Err(chunk) => running := OnError(chunk);
      }
    }

    method OnError(chunk: Bytes) returns (running: bool)
      modifies this`errors, this`delivered
      ensures var kept := Trimmed(limit, old(errors) + chunk);
              && running == AllAccepted(handler, Notices(Complete(kept)))
              && delivered == old(delivered) + Until(handler, Notices(Complete(kept)))
              && (running ==> errors == Partial(kept))
    {
      errors := errors + chunk;
      if |errors| > limit {
        errors := errors[|errors| - limit..];
      }
      running := ShowLines();
    }

    method ShowLines() returns (running: bool)
      modifies this`errors, this`delivered
      ensures running == AllAccepted(handler, Notices(Complete(old(errors))))
      ensures delivered == old(delivered) + Until(handler, Notices(Complete(old(errors))))
      ensures running ==> errors == Partial(old(errors))
    {
      ghost var end := Partial(errors);
      ghost var all: seq<Event<E>> := Notices(Complete(errors));
      ghost var done: seq<Event<E>> := [];
      ghost var before := delivered;
      while NEWLINE in errors
        invariant Showing(errors, done, all, end)
        invariant delivered == before + done && AllAccepted(handler, done)
        decreases |errors|
      {
        running, done := TakeNotice(before, done, all, end);
        if !running {
          return false;
        }
      }
      ShowingEnds(errors, done, all, end);
      UntilAppend(handler, done, []);
      return true;
    }

    // The body of that loop.
    method TakeNotice(ghost before: seq<Event<E>>, ghost done: seq<Event<E>>, ghost all: seq<Event<E>>,
        ghost end: Bytes)
      returns (running: bool, ghost done': seq<Event<E>>)
      requires NEWLINE in errors && Showing(errors, done, all, end)
      requires delivered == before + done && AllAccepted(handler, done)
      modifies this`errors, this`delivered
      ensures delivered == before + done'
      ensures running ==> |errors| < |old(errors)| && AllAccepted(handler, done') && Showing(errors, done', all, end)
      ensures !running ==> !AllAccepted(handler, all) && Until(handler, all) == done'
    {
      ShowingTurn(errors, done, all, end);
      var k := IndexOf(errors, NEWLINE);
      var line := errors[..k];
      errors := errors[k + 1..];
      if line == [] {
        return true, done;
      }
      StopsAt(handler, done, Notice(line), all);
      running := Deliver(Notice(line));
      done' := done + [Notice(line)];
      Associate(before, done, [Notice(line)]);
    }

    // One chunk of the standard output.
    method OnChunk(chunk: Bytes) returns (running: bool)
      modifies this`buffer, this`seen, this`delivered
      ensures var (b, events) := Feed(provider, limit, Buffered(old(buffer), old(seen)), chunk);
              && running == AllAccepted(handler, events)
              && delivered == old(delivered) + Until(handler, events)
              && (running ==> buffer == b.buffer && seen == b.seen)
    {
      buffer := buffer + chunk;
      ghost var over := |buffer| > limit && NEWLINE !in buffer;
      ghost var rest := OnLines(provider, limit, seen, Complete(if over then [] else buffer)).1;
      OversizedFirst(handler, rest);
      if |buffer| > limit && NEWLINE !in buffer {
        buffer := [];
        running := Deliver(Oversized);
        if !running {
          return;
        }
      }
      running := DrainLines();
    }

    // Parse one line, note whether the provider has produced output, mark a turn that ends after it.
    method DeliverLine(line: Bytes) returns (running: bool)
      modifies this`seen, this`delivered
      ensures var (seen', event) := OnLine(provider, old(seen), line);
              seen == seen' && delivered == old(delivered) + [event] && running == handler(event)
    {
      var event := provider.parse(line);
      seen := seen || provider.marksOutput(event);
      if provider.antigravity && provider.endsTurn(event) && seen {
        event := provider.reviewed(event);
      }
      running := Deliver(Parsed(event));
    }

    // The inner loop: one line at a time while the buffer holds a newline.
    method DrainLines() returns (running: bool)
      modifies this`buffer, this`seen, this`delivered
      ensures var (last, events) := OnLines(provider, limit, old(seen), Complete(old(buffer)));
              && running == AllAccepted(handler, events)
              && delivered == old(delivered) + Until(handler, events)
              && (running ==> buffer == Partial(old(buffer)) && seen == last)
    {
      ghost var (last, all) := OnLines(provider, limit, seen, Complete(buffer));
      ghost var done: seq<Event<E>> := [];
      ghost var end := Partial(buffer);
      ghost var before := delivered;
      while NEWLINE in buffer
        invariant Draining(provider, limit, seen, buffer, done, all, last, end)
        invariant delivered == before + done && AllAccepted(handler, done)
        decreases |buffer|
      {
        running, done := TakeLine(before, done, all, last, end);
        if !running {
          return false;
        }
      }
      DrainEnd(provider, limit, seen, buffer, done, all, last, end);
      UntilAppend(handler, done, []);
      return true;
    }

    // The body of that loop.
    method TakeLine(ghost before: seq<Event<E>>, ghost done: seq<Event<E>>, ghost all: seq<Event<E>>,
                    ghost last: bool, ghost end: Bytes)
      returns (running: bool, ghost done': seq<Event<E>>)
      requires NEWLINE in buffer && Draining(provider, limit, seen, buffer, done, all, last, end)
      requires delivered == before + done && AllAccepted(handler, done)
      modifies this`buffer, this`seen, this`delivered
      ensures delivered == before + done'
      ensures running ==> |buffer| < |old(buffer)| && AllAccepted(handler, done')
      ensures running ==> Draining(provider, limit, seen, buffer, done', all, last, end)
      ensures !running ==> !AllAccepted(handler, all) && Until(handler, all) == done'
    {
      DrainTurn(provider, limit, seen, buffer, done, all, last, end);
      var k := IndexOf(buffer, NEWLINE);
      var line := buffer[..k];
      buffer := buffer[k + 1..];
      if |line| > limit {
        return true, done;
      }
      ghost var event := OnLine(provider, seen, line).1;
      StopsAt(handler, done, event, all);
      running := DeliverLine(line);
      done' := done + [event];
      Associate(before, done, [event]);
    }

    // End of the streams: what is left of the output, and then of the error.
    method OnEnd()
      modifies this
      ensures delivered == old(delivered) + Until(handler, Last(provider, limit, old(Held()), Closed))
    {
      ghost var first: seq<Event<E>> := Finish(provider, limit, buffer);
      ghost var second: seq<Event<E>> := Notices([errors]);
      NoticesOne<E>(errors);
      UntilShort(handler, first, second);
      var trailing, rest := buffer, errors;
      buffer, errors := [], [];
      if trailing != [] && |trailing| <= limit {
        var running := Deliver(Parsed(provider.parse(trailing)));
        if !running {
          assert !handler(first[0]);
          return;
        }
      }
      if rest != [] {
        var _ := Deliver(Notice(rest));
      }
    }
  }

  // The whole run: reads until the handler stops it, a cancellation, or the end of both streams.
  method Stream<E(!new)>(provider: Provider<E>, limit: nat, handler: Event<E> -> bool, trace: seq<Read>, ending: Ending)
    returns (delivered: seq<Event<E>>)
    ensures delivered == Until(handler, RunEvents(provider, limit, trace, ending))
  {
    var reader := new StreamReader(provider, limit, handler);
    var i := 0;
    while i < |trace|
      invariant 0 <= i <= |trace|
      invariant reader.provider == provider && reader.limit == limit && reader.handler == handler
      invariant FeedReads(provider, limit, trace[..i]) == (reader.Held(), reader.delivered)
      invariant AllAccepted(handler, reader.delivered)
    {
      ghost var (after, more) := FeedRead(provider, limit, reader.Held(), trace[i]);
      ReadStep(provider, limit, trace, i);
      UntilGrows(handler, reader.delivered, more);
      var running := reader.OnRead(trace[i]);
      i := i + 1;
      if !running {
        StopsHere(provider, limit, handler, trace, i, ending);
        return reader.delivered;
      }
    }
    assert trace[..i] == trace;
    UntilGrows(handler, reader.delivered, Last(provider, limit, reader.Held(), ending));
    if ending.Cancellation? {
      var _ := reader.Deliver(Cancelled);
    } else {
      reader.OnEnd();
    }
    return reader.delivered;
  }

  lemma UntilGrows<E(!new)>(handler: Event<E> -> bool, done: seq<Event<E>>, more: seq<Event<E>>)
    requires AllAccepted(handler, done)
    ensures Until(handler, done + more) == done + Until(handler, more)
    ensures AllAccepted(handler, done + more) <==> AllAccepted(handler, more)
    ensures AllAccepted(handler, more) ==> Until(handler, more) == more
  {
    AcceptedAppend(handler, done, more);
    UntilAppend(handler, done, more);
    UntilAppend(handler, more, []);
  }

  lemma FeedStep<E>(p: Provider<E>, limit: nat, chunks: seq<Bytes>, i: nat)
    requires i < |chunks|
    ensures var (b, events) := FeedAll(p, limit, chunks[..i]);
            var (b', more) := Feed(p, limit, b, chunks[i]);
            FeedAll(p, limit, chunks[..i + 1]) == (b', events + more)
  {
    assert chunks[..i + 1][..i] == chunks[..i];
  }

  lemma ReadStep<E>(p: Provider<E>, limit: nat, trace: seq<Read>, i: nat)
    requires i < |trace|
    ensures var (b, events) := FeedReads(p, limit, trace[..i]);
            var (b', more) := FeedRead(p, limit, b, trace[i]);
            FeedReads(p, limit, trace[..i + 1]) == (b', events + more)
  {
    assert trace[..i + 1][..i] == trace[..i];
  }

  // Once an event was refused, later reads do not matter.
  lemma StopsHere<E(!new)>(p: Provider<E>, limit: nat, handler: Event<E> -> bool, trace: seq<Read>, i: nat,
      ending: Ending)
    requires i <= |trace| && !AllAccepted(handler, FeedReads(p, limit, trace[..i]).1)
    ensures Until(handler, RunEvents(p, limit, trace, ending)) == Until(handler, FeedReads(p, limit, trace[..i]).1)
  {
    var rest := ReadsExtend(p, limit, trace, i);
    var last := Last(p, limit, FeedReads(p, limit, trace).0, ending);
    var soFar := FeedReads(p, limit, trace[..i]).1;
    Associate(soFar, rest, last);
    UntilAppend(handler, soFar, rest + last);
  }

  lemma {:induction false} ReadsExtend<E>(p: Provider<E>, limit: nat, trace: seq<Read>, i: nat)
    returns (rest: seq<Event<E>>)
    requires i <= |trace|
    ensures FeedReads(p, limit, trace).1 == FeedReads(p, limit, trace[..i]).1 + rest
    decreases |trace|
  {
    if i == |trace| {
      assert trace[..i] == trace;
      rest := [];
    } else {
      var n := |trace| - 1;
      var r := ReadsExtend(p, limit, trace[..n], i);
      assert trace[..n][..i] == trace[..i] && trace[..n + 1] == trace;
      ReadStep(p, limit, trace, n);
      var more := FeedRead(p, limit, FeedReads(p, limit, trace[..n]).0, trace[n]).1;
      Associate(FeedReads(p, limit, trace[..i]).1, r, more);
      rest := r + more;
    }
  }

  // ----- The two descriptors do not disturb each other -----

  // The chunks read from the standard output.
  function OutputOf(trace: seq<Read>): seq<Bytes> {
    if trace == [] then []
    else
      var n := |trace| - 1;
      OutputOf(trace[..n]) + (if trace[n].Out? then [trace[n].chunk] else [])
  }

  predicate IsOutput<E>(event: Event<E>) { event.Parsed? || event.Oversized? }

  lemma {:induction false} NoticesAreNotOutput<E(!new)>(lines: seq<Bytes>)
    ensures Filter(Notices<E>(lines), IsOutput<E>) == []
  {
    if lines != [] {
      NoticesAreNotOutput<E>(lines[1..]);
      if lines[0] != [] {
        assert Notices<E>(lines)[1..] == Notices<E>(lines[1..]);
      } else {
        assert Notices<E>(lines) == Notices<E>(lines[1..]);
      }
    }
  }

  lemma {:induction false} LinesAreOutput<E(!new)>(p: Provider<E>, limit: nat, seen: bool, lines: seq<Bytes>)
    ensures forall event :: event in OnLines(p, limit, seen, lines).1 ==> IsOutput(event)
    decreases |lines|
  {
    if lines != [] {
      var next := if |lines[0]| > limit then seen else OnLine(p, seen, lines[0]).0;
      LinesAreOutput(p, limit, next, lines[1..]);
    }
  }

  lemma FeedIsOutput<E(!new)>(p: Provider<E>, limit: nat, b: Buffered, chunk: Bytes)
    ensures var events := Feed(p, limit, b, chunk).1; Filter(events, IsOutput<E>) == events
  {
    var whole := b.buffer + chunk;
    LinesAreOutput(p, limit, b.seen, Complete(if |whole| > limit && NEWLINE !in whole then [] else whole));
    FilterAll(Feed(p, limit, b, chunk).1, IsOutput<E>);
  }

  lemma {:induction false} OutputAlone<E(!new)>(p: Provider<E>, limit: nat, trace: seq<Read>)
    ensures var (b, events) := FeedReads(p, limit, trace);
            FeedAll(p, limit, OutputOf(trace)) == (b.out, Filter(events, IsOutput<E>))
  {
    if trace != [] {
      var n := |trace| - 1;
      var init, read := trace[..n], trace[n];
      var (b, events) := FeedReads(p, limit, init);
      var more := FeedRead(p, limit, b, read).1;
      OutputAlone(p, limit, init);
      FilterAppend(events, more, IsOutput<E>);
      match read
      case Out(chunk) =>
        FeedIsOutput(p, limit, b.out, chunk);
        assert OutputOf(trace)[..|OutputOf(init)|] == OutputOf(init);
      case Err(chunk) =>
        NoticesAreNotOutput<E>(Complete(Trimmed(limit, b.err + chunk)));
        assert Filter(events, IsOutput<E>) + [] == Filter(events, IsOutput<E>);
        assert OutputOf(init) + [] == OutputOf(init);
    }
  }

  // Of a run that is not cancelled, the output events are those of the output chunks alone, whatever is
  // read from the standard error in between.
  lemma OutputUndisturbed<E(!new)>(p: Provider<E>, limit: nat, trace: seq<Read>)
    ensures Filter(RunEvents(p, limit, trace, Closed), IsOutput<E>) == Events(p, limit, OutputOf(trace))
  {
    var (b, events) := FeedReads(p, limit, trace);
    var finish: seq<Event<E>> := Finish(p, limit, b.out.buffer);
    OutputAlone(p, limit, trace);
    FilterAppend(events, finish + Notices([b.err]), IsOutput<E>);
    FilterAppend(finish, Notices([b.err]), IsOutput<E>);
    FilterAll(finish, IsOutput<E>);
    NoticesAreNotOutput<E>([b.err]);
    assert finish + [] == finish;
  }

  // ----- What each line and each descriptor gives -----

  predicate Short(limit: nat, line: Bytes) { |line| <= limit }

  function Within(limit: nat): Bytes -> bool { line => Short(limit, line) }

  // Some line up to the i-th was marked as output, or one before the first was.
  ghost predicate SeenBy<E>(p: Provider<E>, seen: bool, lines: seq<Bytes>, i: nat)
    requires i < |lines|
  {
    seen || exists j :: 0 <= j <= i && p.marksOutput(p.parse(lines[j]))
  }

  // The event of the i-th line that fits: what the provider makes of it, and for the one provider that
  // needs it marked for review when it ends a turn that had output.
  ghost predicate EventOf<E>(p: Provider<E>, seen: bool, lines: seq<Bytes>, i: nat, event: Event<E>)
    requires i < |lines|
  {
    var e := p.parse(lines[i]);
    event == Parsed(if p.antigravity && p.endsTurn(e) && SeenBy(p, seen, lines, i) then p.reviewed(e) else e)
  }

  // One event for each line that fits, in order.
  lemma {:induction false} LinesExact<E>(p: Provider<E>, limit: nat, seen: bool, lines: seq<Bytes>)
    ensures var kept, events := Filter(lines, Within(limit)), OnLines(p, limit, seen, lines).1;
            |events| == |kept| && forall i :: 0 <= i < |kept| ==> EventOf(p, seen, kept, i, events[i])
    decreases |lines|
  {
    if lines != [] {
      if |lines[0]| > limit {
        LinesExact(p, limit, seen, lines[1..]);
        assert Filter(lines, Within(limit)) == Filter(lines[1..], Within(limit));
        assert OnLines(p, limit, seen, lines).1 == OnLines(p, limit, seen, lines[1..]).1;
      } else {
        var (next, first) := OnLine(p, seen, lines[0]);
        LinesExact(p, limit, next, lines[1..]);
        EventsCons(p, limit, seen, lines);
      }
    }
  }

  lemma EventsCons<E>(p: Provider<E>, limit: nat, seen: bool, lines: seq<Bytes>)
    requires lines != [] && |lines[0]| <= limit
    requires var next := OnLine(p, seen, lines[0]).0;
             var kept, events := Filter(lines[1..], Within(limit)), OnLines(p, limit, next, lines[1..]).1;
             |events| == |kept| && forall i :: 0 <= i < |kept| ==> EventOf(p, next, kept, i, events[i])
    ensures var kept, events := Filter(lines, Within(limit)), OnLines(p, limit, seen, lines).1;
            |events| == |kept| && forall i :: 0 <= i < |kept| ==> EventOf(p, seen, kept, i, events[i])
  {
    var (next, first) := OnLine(p, seen, lines[0]);
    var rest, more := Filter(lines[1..], Within(limit)), OnLines(p, limit, next, lines[1..]).1;
    var kept, events := [lines[0]] + rest, [first] + more;
    assert Filter(lines, Within(limit)) == kept && OnLines(p, limit, seen, lines).1 == events;
    forall i | 0 <= i < |kept| ensures EventOf(p, seen, kept, i, events[i]) {
      if i > 0 {
        assert EventOf(p, next, rest, i - 1, more[i - 1]);
        SeenCons(p, seen, lines[0], rest, i - 1);
      }
    }
  }

  lemma SeenCons<E>(p: Provider<E>, seen: bool, line: Bytes, rest: seq<Bytes>, i: nat)
    requires i < |rest|
    ensures SeenBy(p, OnLine(p, seen, line).0, rest, i) <==> SeenBy(p, seen, [line] + rest, i + 1)
  {
    var all := [line] + rest;
    assert all[0] == line;
    if j :| 0 <= j <= i && p.marksOutput(p.parse(rest[j])) {
      assert all[j + 1] == rest[j];
    }
    if j :| 0 <= j <= i + 1 && p.marksOutput(p.parse(all[j])) {
      assert j > 0 ==> all[j] == rest[j - 1];
    }
  }

  // The chunks read from the standard error.
  function ErrorsOf(trace: seq<Read>): seq<Bytes> {
    if trace == [] then []
    else
      var n := |trace| - 1;
      ErrorsOf(trace[..n]) + (if trace[n].Err? then [trace[n].chunk] else [])
  }

  // No line of the error comes so near the limit that a read could push the buffer over it.
  ghost predicate RoomToRead(limit: nat, trace: seq<Read>) {
    && (forall i :: 0 <= i < |trace| && trace[i].Err? ==> |trace[i].chunk| <= READ_SIZE)
    && forall n :: 0 <= n <= |trace| ==> |Partial(Flatten(ErrorsOf(trace[..n])))| + READ_SIZE <= limit
  }

  predicate IsNotice<E>(event: Event<E>) { event.Notice? }

  lemma {:induction false} NoticesAreNotices<E(!new)>(lines: seq<Bytes>)
    ensures forall event :: event in Notices<E>(lines) ==> IsNotice(event)
  {
    if lines != [] {
      NoticesAreNotices<E>(lines[1..]);
    }
  }

  lemma {:induction false} OutputIsNoNotice<E(!new)>(events: seq<Event<E>>)
    requires forall event :: event in events ==> IsOutput(event)
    ensures Filter(events, IsNotice<E>) == []
  {
    if events != [] {
      OutputIsNoNotice(events[1..]);
      assert events[0] in events;
    }
  }

  lemma FeedHasNoNotice<E(!new)>(p: Provider<E>, limit: nat, b: Buffered, chunk: Bytes)
    ensures Filter(Feed(p, limit, b, chunk).1, IsNotice<E>) == []
  {
    var whole := b.buffer + chunk;
    LinesAreOutput(p, limit, b.seen, Complete(if |whole| > limit && NEWLINE !in whole then [] else whole));
    OutputIsNoNotice(Feed(p, limit, b, chunk).1);
  }

  lemma {:induction false} NoticesAppend<E>(a: seq<Bytes>, b: seq<Bytes>)
    ensures Notices<E>(a + b) == Notices<E>(a) + Notices<E>(b)
  {
    if a == [] {
      assert a + b == b && [] + Notices<E>(b) == Notices<E>(b);
    } else {
      NoticesAppend<E>(a[1..], b);
      assert a == [a[0]] + a[1..] && a + b == [a[0]] + (a[1..] + b);
      NoticesCons<E>(a[0], a[1..]);
      NoticesCons<E>(a[0], a[1..] + b);
      Associate([Notice(a[0])], Notices<E>(a[1..]), Notices<E>(b));
    }
  }

  // One more chunk of the error that is not trimmed.
  lemma ErrorGrows<E>(limit: nat, before: Bytes, chunk: Bytes)
    requires |Partial(before) + chunk| <= limit
    ensures var kept := Trimmed(limit, Partial(before) + chunk);
            && Partial(kept) == Partial(before + chunk)
            && Notices<E>(Complete(before)) + Notices<E>(Complete(kept)) == Notices<E>(Complete(before + chunk))
  {
    CutsResume(before, chunk);
    NoticesAppend<E>(Complete(before), Complete(Partial(before) + chunk));
  }

  lemma {:induction false} ErrorAlone<E(!new)>(p: Provider<E>, limit: nat, trace: seq<Read>)
    requires RoomToRead(limit, trace)
    ensures var (b, events) := FeedReads(p, limit, trace); var error := Flatten(ErrorsOf(trace));
            b.err == Partial(error) && Filter(events, IsNotice<E>) == Notices(Complete(error))
  {
    if trace != [] {
      var n := |trace| - 1;
      var init, read := trace[..n], trace[n];
      assert forall m :: 0 <= m <= n ==> init[..m] == trace[..m];
      ErrorAlone(p, limit, init);
      var (b, events) := FeedReads(p, limit, init);
      var more := FeedRead(p, limit, b, read).1;
      var error := Flatten(ErrorsOf(init));
      FilterAppend(events, more, IsNotice<E>);
      match read
      case Out(chunk) =>
        FeedHasNoNotice(p, limit, b.out, chunk);
        assert ErrorsOf(trace) == ErrorsOf(init);
        assert Filter(events, IsNotice<E>) + [] == Filter(events, IsNotice<E>);
      case Err(chunk) =>
        assert init[..n] == init;
        ErrorGrows<E>(limit, error, chunk);
        NoticesAreNotices<E>(Complete(Trimmed(limit, b.err + chunk)));
        FilterAll(more, IsNotice<E>);
        assert ErrorsOf(trace) == ErrorsOf(init) + [chunk];
        assert ErrorsOf(trace)[..|ErrorsOf(init)|] == ErrorsOf(init);
    }
  }

  // While no line of the standard error comes within one read of the limit, a run that is not cancelled
  // shows exactly its non-empty lines, in order, however it is cut and whatever the output brings.
  lemma ErrorsExact<E(!new)>(p: Provider<E>, limit: nat, trace: seq<Read>)
    requires RoomToRead(limit, trace)
    ensures Filter(RunEvents(p, limit, trace, Closed), IsNotice<E>)
            == Notices(Split(Flatten(ErrorsOf(trace)), NEWLINE))
  {
    var (b, events) := FeedReads(p, limit, trace);
    var finish: seq<Event<E>> := Finish(p, limit, b.out.buffer);
    var rest: seq<Event<E>> := Notices([b.err]);
    var error := Flatten(ErrorsOf(trace));
    ErrorAlone(p, limit, trace);
    FilterAppend(events, finish + rest, IsNotice<E>);
    FilterAppend(finish, rest, IsNotice<E>);
    OutputIsNoNotice(finish);
    NoticesAreNotices<E>([b.err]);
    FilterAll(rest, IsNotice<E>);
    PiecesOf(error);
    NoticesAppend<E>(Complete(error), [Partial(error)]);
    assert [] + rest == rest;
  }

  // The lines shown are the non-empty ones.
  lemma {:induction false} NoticesExact<E>(lines: seq<Bytes>)
    ensures var shown := Filter(lines, NonEmpty);
            |Notices<E>(lines)| == |shown| && forall i :: 0 <= i < |shown| ==> Notices<E>(lines)[i] == Notice(shown[i])
  {
    if lines != [] {
      NoticesExact<E>(lines[1..]);
      assert lines == [lines[0]] + lines[1..];
      NoticesCons<E>(lines[0], lines[1..]);
    }
  }

  predicate NonEmpty(line: Bytes) { line != [] }

  predicate ReadsFit(trace: seq<Read>) { forall i :: 0 <= i < |trace| ==> |trace[i].chunk| <= READ_SIZE }

  lemma PartialOfTail(x: Bytes, chunk: Bytes)
    requires NEWLINE !in x
    ensures NEWLINE in x + chunk ==> |Partial(x + chunk)| < |chunk|
    ensures NEWLINE !in x + chunk ==> Partial(x + chunk) == x + chunk
    ensures |Partial(chunk)| <= |chunk|
  {
    SplitFree(x, NEWLINE);
    SplitAppend(x, chunk, NEWLINE);
    PartialShort(chunk);
    if NEWLINE !in x + chunk {
      SplitFree(x + chunk, NEWLINE);
    } else {
      assert NEWLINE in chunk;
      SplitAtFirst(chunk, NEWLINE);
      assert Partial(x + chunk) == Partial(chunk);
    }
  }

  lemma {:induction false} PartialShort(s: Bytes)
    ensures |Partial(s)| <= |s| && (NEWLINE in s ==> |Partial(s)| < |s|)
  {
    if s != [] {
      PartialShort(s[1..]);
    }
  }

  // However long lines are, the buffers are bounded: the error's by the limit, the output's by the limit
  // or what one read can bring after a newline.
  lemma {:induction false} BuffersBounded<E>(p: Provider<E>, limit: nat, trace: seq<Read>)
    requires ReadsFit(trace)
    ensures var b := FeedReads(p, limit, trace).0;
            && |b.err| <= limit
            && NEWLINE !in b.out.buffer && (|b.out.buffer| <= limit || |b.out.buffer| < READ_SIZE)
  {
    if trace != [] {
      var n := |trace| - 1;
      BuffersBounded(p, limit, trace[..n]);
      var b := FeedReads(p, limit, trace[..n]).0;
      match trace[n]
      case Out(chunk) =>
        PartialOfTail(b.out.buffer, chunk);
        CutsResume(b.out.buffer + chunk, []);
        SplitFree([], NEWLINE);
      case Err(chunk) => PartialShort(Trimmed(limit, b.err + chunk));
    }
  }

  // Of an unfinished error line over the limit its last bytes are kept.
  lemma ErrorKeepsEnd<E>(p: Provider<E>, limit: nat, b: Buffers, chunk: Bytes)
    requires NEWLINE !in b.err + chunk
    ensures var whole := b.err + chunk;
            FeedRead(p, limit, b, Err(chunk)).0.err == if |whole| <= limit then whole else whole[|whole| - limit..]
  {
    SplitFree(Trimmed(limit, b.err + chunk), NEWLINE);
  }

  // A cancelled run shows what was read before and then that it was cancelled; nothing left over is shown.
  lemma CancelledRun<E(!new)>(p: Provider<E>, limit: nat, trace: seq<Read>)
    ensures var events := RunEvents(p, limit, trace, Cancellation);
            && events != [] && events[|events| - 1] == Cancelled
            && Filter(events, IsOutput<E>) == FeedAll(p, limit, OutputOf(trace)).1
  {
    var (b, events) := FeedReads(p, limit, trace);
    OutputAlone(p, limit, trace);
    FilterAppend(events, [Cancelled], IsOutput<E>);
    assert Filter([Cancelled], IsOutput<E>) == [];
    assert Filter(events, IsOutput<E>) + [] == Filter(events, IsOutput<E>);
  }

  // What a handler sees: everything, or up to the first event it refuses.
  lemma {:induction false} UntilExact<E(!new)>(handler: Event<E> -> bool, events: seq<Event<E>>)
    ensures var shown := Until(handler, events);
            && shown <= events
            && (forall i :: 0 <= i < |shown| - 1 ==> handler(shown[i]))
            && (shown == events || (shown != [] && !handler(shown[|shown| - 1])))
  {
    if events != [] {
      UntilExact(handler, events[1..]);
    }
  }

  // ----- Independence of the cuts -----

  // The reference: the newline split of the whole input, an empty last piece dropped.
  function Expected<E>(p: Provider<E>, limit: nat, input: Bytes): seq<Event<E>> {
    OnLines(p, limit, false, Complete(input)).1
    + (if Partial(input) == [] then [] else [Parsed(p.parse(Partial(input)))])
  }

  ghost predicate AllFit(limit: nat, lines: seq<Bytes>) {
    forall line :: line in lines ==> |line| <= limit
  }

  ghost predicate LinesFit(limit: nat, input: Bytes) { AllFit(limit, Split(input, NEWLINE)) }

  // A way os.read can cut the input.
  ghost predicate IsCut(chunks: seq<Bytes>, input: Bytes) {
    Flatten(chunks) == input && forall i :: 0 <= i < |chunks| ==> 1 <= |chunks[i]| <= READ_SIZE
  }

  lemma {:induction false} OnLinesAppend<E>(p: Provider<E>, limit: nat, seen: bool, a: seq<Bytes>, b: seq<Bytes>)
    ensures var (s1, e1) := OnLines(p, limit, seen, a);
            var (s2, e2) := OnLines(p, limit, s1, b);
            OnLines(p, limit, seen, a + b) == (s2, e1 + e2)
    decreases |a|
  {
    if a == [] {
      assert a + b == b;
      assert [] + OnLines(p, limit, seen, b).1 == OnLines(p, limit, seen, b).1;
    } else {
      var ab := a + b;
      assert ab[1..] == a[1..] + b && ab[0] == a[0];
      var next := if |a[0]| > limit then seen else OnLine(p, seen, a[0]).0;
      OnLinesAppend(p, limit, next, a[1..], b);
      if |a[0]| <= limit {
        var (s1, e1) := OnLines(p, limit, next, a[1..]);
        var e2 := OnLines(p, limit, s1, b).1;
        assert [OnLine(p, seen, a[0]).1] + (e1 + e2) == ([OnLine(p, seen, a[0]).1] + e1) + e2;
      }
    }
  }

  lemma CutsResume(a: Bytes, b: Bytes)
    ensures Complete(a + b) == Complete(a) + Complete(Partial(a) + b)
    ensures Partial(a + b) == Partial(Partial(a) + b)
    ensures NEWLINE !in Partial(a)
  {
    SplitResume(a, b, NEWLINE);
    PiecesAreFree(a, NEWLINE);
  }

  lemma PiecesOf(s: Bytes)
    ensures Split(s, NEWLINE) == Complete(s) + [Partial(s)]
  {
  }

  lemma AllFitParts(limit: nat, a: seq<Bytes>, b: seq<Bytes>)
    ensures AllFit(limit, a + b) <==> AllFit(limit, a) && AllFit(limit, b)
  {
    if AllFit(limit, a + b) {
      assert forall line :: line in a || line in b ==> line in a + b;
    }
  }

  lemma FitsSplit(limit: nat, a: Bytes)
    ensures LinesFit(limit, a) <==> AllFit(limit, Complete(a)) && |Partial(a)| <= limit
  {
    PiecesOf(a);
    AllFitParts(limit, Complete(a), [Partial(a)]);
    assert AllFit(limit, [Partial(a)]) <==> |Partial(a)| <= limit by {
      assert Partial(a) in [Partial(a)];
    }
  }

  // Whether lines fit when more input arrives.
  lemma FitsResume(limit: nat, a: Bytes, b: Bytes)
    ensures LinesFit(limit, a + b) <==> AllFit(limit, Complete(a)) && LinesFit(limit, Partial(a) + b)
  {
    CutsResume(a, b);
    PiecesOf(a + b);
    PiecesOf(Partial(a) + b);
    assert Split(a + b, NEWLINE) == Complete(a) + Split(Partial(a) + b, NEWLINE);
    AllFitParts(limit, Complete(a), Split(Partial(a) + b, NEWLINE));
  }

  lemma UnfinishedFits(limit: nat, x: Bytes, b: Bytes)
    requires NEWLINE !in x && LinesFit(limit, x + b)
    ensures |x| <= limit && (NEWLINE !in x + b ==> |x + b| <= limit)
  {
    SplitFree(x, NEWLINE);
    SplitAppend(x, b, NEWLINE);
    var first := Split(x + b, NEWLINE)[0];
    assert first in Split(x + b, NEWLINE);
    assert first == x + Split(b, NEWLINE)[0];
    if NEWLINE !in x + b {
      SplitFree(x + b, NEWLINE);
    }
  }

  // Lines that fit before more input arrives, and the still unfinished line with it.
  lemma FitsPrefix(limit: nat, a: Bytes, b: Bytes)
    requires LinesFit(limit, a + b)
    ensures LinesFit(limit, a)
    ensures NEWLINE !in Partial(a) + b ==> |Partial(a) + b| <= limit
  {
    FitsResume(limit, a, b);
    CutsResume(a, b);
    UnfinishedFits(limit, Partial(a), b);
    FitsSplit(limit, a);
  }

  // After any chunks of input whose lines fit: the unfinished last piece is buffered, and the finished
  // lines have been delivered.
  lemma {:induction false} FeedAllExact<E>(p: Provider<E>, limit: nat, chunks: seq<Bytes>)
    requires LinesFit(limit, Flatten(chunks))
    ensures var (seen, events) := OnLines(p, limit, false, Complete(Flatten(chunks)));
            FeedAll(p, limit, chunks) == (Buffered(Partial(Flatten(chunks)), seen), events)
  {
    if chunks != [] {
      var n := |chunks| - 1;
      var s, chunk := Flatten(chunks[..n]), chunks[n];
      FitsPrefix(limit, s, chunk);
      FeedAllExact(p, limit, chunks[..n]);
      assert chunks[..n + 1] == chunks;
      FeedStep(p, limit, chunks, n);
      CutsResume(s, chunk);
      OnLinesAppend(p, limit, false, Complete(s), Complete(Partial(s) + chunk));
      FeedFits(p, limit, Buffered(Partial(s), OnLines(p, limit, false, Complete(s)).0), chunk);
    }
  }

  lemma FeedFits<E>(p: Provider<E>, limit: nat, b: Buffered, chunk: Bytes)
    requires NEWLINE !in b.buffer + chunk ==> |b.buffer + chunk| <= limit
    ensures var (seen, events) := OnLines(p, limit, b.seen, Complete(b.buffer + chunk));
            Feed(p, limit, b, chunk) == (Buffered(Partial(b.buffer + chunk), seen), events)
  {
    var events := OnLines(p, limit, b.seen, Complete(b.buffer + chunk)).1;
    assert [] + events == events;
  }

  lemma CutsAgree<E>(p: Provider<E>, limit: nat, chunks: seq<Bytes>, input: Bytes)
    requires LinesFit(limit, input) && Flatten(chunks) == input
    ensures Events(p, limit, chunks) == Expected(p, limit, input)
  {
    FeedAllExact(p, limit, chunks);
    FitsSplit(limit, input);
  }

  // ----- When a line does not fit -----

  function Singles(input: Bytes): (chunks: seq<Bytes>)
    ensures |chunks| == |input| && forall i :: 0 <= i < |chunks| ==> chunks[i] == [input[i]]
  {
    seq(|input|, i requires 0 <= i < |input| => [input[i]])
  }

  lemma {:induction false} SinglesFlatten(input: Bytes)
    ensures Flatten(Singles(input)) == input
  {
    if input != [] {
      var init := input[..|input| - 1];
      SinglesFlatten(init);
      assert Singles(input)[..|input| - 1] == Singles(init);
      assert init + [input[|input| - 1]] == input;
    }
  }

  predicate Overflows(limit: nat, buffer: Bytes, c: Byte) {
    |buffer + [c]| > limit && NEWLINE !in buffer + [c]
  }

  lemma LastByte(limit: nat, x: Bytes, c: Byte)
    requires NEWLINE !in x && |x| <= limit && !Overflows(limit, x, c)
    ensures LinesFit(limit, x + [c])
  {
    if c == NEWLINE {
      SplitAtSeparator(x, [], NEWLINE);
      SplitFree(x, NEWLINE);
      assert x + [NEWLINE] + [] == x + [c];
    } else {
      SplitFree(x + [c], NEWLINE);
    }
  }

  lemma OneMoreByte(limit: nat, init: Bytes, c: Byte)
    requires LinesFit(limit, init) && !Overflows(limit, Partial(init), c)
    ensures LinesFit(limit, init + [c])
  {
    FitsSplit(limit, init);
    CutsResume(init, []);
    LastByte(limit, Partial(init), c);
    FitsResume(limit, init, [c]);
  }

  // The byte at which a line gets too long.
  lemma {:induction false} FirstOverflow(limit: nat, input: Bytes) returns (n: nat)
    requires !LinesFit(limit, input)
    ensures n < |input| && LinesFit(limit, input[..n]) && !LinesFit(limit, input[..n + 1])
  {
    n := 0;
    if input != [] {
      var last := |input| - 1;
      if LinesFit(limit, input[..last]) {
        n := last;
        assert input[..n + 1] == input;
      } else {
        n := FirstOverflow(limit, input[..last]);
        assert input[..last][..n] == input[..n] && input[..last][..n + 1] == input[..n + 1];
      }
    }
  }

  // Reading that byte on its own, after chunks whose lines fit, gives an oversized event.
  lemma OverflowShows<E>(p: Provider<E>, limit: nat, chunks: seq<Bytes>, c: Byte)
    requires LinesFit(limit, Flatten(chunks)) && !LinesFit(limit, Flatten(chunks) + [c])
    ensures Oversized in FeedAll(p, limit, chunks + [[c]]).1
  {
    var init := Flatten(chunks);
    if !Overflows(limit, Partial(init), c) {
      OneMoreByte(limit, init, c);
    }
    FeedAllExact(p, limit, chunks);
    OverflowFed(p, limit, FeedAll(p, limit, chunks).0, c);
    assert (chunks + [[c]])[..|chunks|] == chunks;
  }

  lemma OverflowFed<E>(p: Provider<E>, limit: nat, b: Buffered, c: Byte)
    requires Overflows(limit, b.buffer, c)
    ensures Oversized in Feed(p, limit, b, [c]).1
  {
  }

  lemma {:induction false} EventsStay<E>(p: Provider<E>, limit: nat, a: seq<Bytes>, b: seq<Bytes>, event: Event<E>)
    requires event in FeedAll(p, limit, a).1
    ensures event in FeedAll(p, limit, a + b).1
    decreases |b|
  {
    if b == [] {
      assert a + b == a;
    } else {
      var n := |b| - 1;
      EventsStay(p, limit, a, b[..n], event);
      assert (a + b)[..|a + b| - 1] == a + b[..n];
    }
  }

  lemma SinglesAround(input: Bytes, n: nat)
    requires n < |input|
    ensures Singles(input) == (Singles(input[..n]) + [[input[n]]]) + Singles(input[n + 1..])
    ensures input[..n] + [input[n]] == input[..n + 1]
  {
  }

  // Read byte by byte, every input with a line over the limit gives an oversized event.
  lemma LongLineShows<E>(p: Provider<E>, limit: nat, input: Bytes)
    requires !LinesFit(limit, input)
    ensures Oversized in FeedAll(p, limit, Singles(input)).1
  {
    var n := FirstOverflow(limit, input);
    SinglesAround(input, n);
    SinglesFlatten(input[..n]);
    OverflowShows(p, limit, Singles(input[..n]), input[n]);
    EventsStay(p, limit, Singles(input[..n]) + [[input[n]]], Singles(input[n + 1..]), Oversized);
  }

  lemma {:induction false} OnLinesParsed<E>(p: Provider<E>, limit: nat, seen: bool, lines: seq<Bytes>)
    ensures Oversized !in OnLines(p, limit, seen, lines).1
    decreases |lines|
  {
    if lines != [] {
      var next := if |lines[0]| > limit then seen else OnLine(p, seen, lines[0]).0;
      OnLinesParsed(p, limit, next, lines[1..]);
    }
  }

  // The delivered events are those of the newline split of the input for every way of cutting it,
  // exactly when no line of the input exceeds the limit.
  lemma FramingExact<E>(p: Provider<E>, limit: nat, input: Bytes)
    ensures (forall chunks :: IsCut(chunks, input) ==> Events(p, limit, chunks) == Expected(p, limit, input))
            <==> LinesFit(limit, input)
  {
    if LinesFit(limit, input) {
      forall chunks | IsCut(chunks, input) ensures Events(p, limit, chunks) == Expected(p, limit, input) {
        CutsAgree(p, limit, chunks, input);
      }
    } else {
      var chunks := Singles(input);
      SinglesFlatten(input);
      assert IsCut(chunks, input);
      if Events(p, limit, chunks) == Expected(p, limit, input) {
        OnLinesParsed(p, limit, false, Complete(input));
        assert Oversized !in Events(p, limit, chunks);
        LongLineShows(p, limit, input);
      }
    }
  }
}
