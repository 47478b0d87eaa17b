/** executeClean of a request parser as it is written: the paths over the fields of one `Parser`, proved
    to do what `RequestDispatch.Execute` says. */
module RequestExecution {
  import opened Bytes
  import opened Grammar
  import opened Reference
  import opened Events
  import opened Machine
  import opened MessageEvents
  import opened Cursors
  import opened FastPaths
  import opened FastTrace
  import opened Parsing
  import opened RequestDispatch

  /** A path on `p`, which had made the callbacks `before`, has done what `r` says. */
  ghost predicate Did(p: Parser, before: seq<Event>, r: Called, over: bool, n: nat, err: Option<Err>)
    reads p, p.lineScratch
  {
    p.Valid() && p.Abs() == r.st && over == r.over && n == r.n && err == r.err && p.events == before + r.es
  }

  /** applyFastRequestResult, and the flag that complete() sets. */
  method ApplyFast(p: Parser, line: RequestLine, meta: Meta, flags: Flags, done: bool)
    requires p.Valid()
    modifies p
    ensures p.Valid() && p.Abs() == Applied(old(p.Abs()), line, meta, flags).(done := done) && p.events == old(p.events)
  {
    p.contentLength := if BodyMode(meta) == NoBody then -1 else meta.length;
    p.facts := Facts(line.verb, line.version, meta.hasLength, meta.chunked, flags);
    p.told := Told(false, |line.target|, 0);
    p.upgrade := if flags.upgrade && flags.connUpgrade then true else line.verb == CONNECT;
    p.messageCompleteCalled := done;
  }

  // -------------------------------------------------------------------- tryFastRequest

  lemma WholeIs(cb: Setting, st: State, buf: bytes, msg: Message)
    requires !st.told.started && ParseMessage(cb.lines, Request, buf) == Accepted(msg)
    ensures msg.start.Req? && TryWhole(cb, st, buf) == WholeCall(cb, st, buf, msg)
  {
    FastErrIs(cb.lines, buf);
  }

  method TryFastRequest(p: Parser, cb: Setting, buf: bytes, slots: array<Header>) returns (over: bool, n: nat, err: Option<Err>)
    requires p.Valid() && slots.Length == MAX_FAST_HEADERS && cb.lines == HTTP
    modifies p, slots
    ensures Did(p, old(p.events), TryWhole(cb, old(p.Abs()), buf), over, n, err)
  {
    EmptyAppend(p.events);
    if p.told.started {
      return false, 0, None;
    }
    ghost var spec := ParseMessage(HTTP, Request, buf);
    var res, count;
    res, err, count := AnalyzeFastRequest(buf, cb.field || cb.value, slots);
    if err.Some? {
      return true, 0, err;
    }
    if res.None? {
      return false, 0, None;
    }
    WholeIs(cb, p.Abs(), buf, spec.msg);
    var es := EmitFastRequest(cb, buf, res.value, slots, count, spec.msg);
    ApplyFast(p, res.value.line, res.value.meta, res.value.flags, true);
    p.events := p.events + es;
    return true, |buf|, None;
  }

  // ------------------------------------------------------------- tryFastChunkedRequest

  /** The request line, and a cursor behind it. */
  method FirstLineOf(buf: bytes) returns (c: Cursor, line: Option<RequestLine>)
    ensures fresh(c) && c.Valid() && c.buf == buf && line == LineIn(HTTP, buf)
    ensures line.Some? ==> c.pos == CrlfFrom(buf, 0).value + 2
  {
    c := new Cursor(buf);
    var end := c.ScanCrlf();
    if end.None? {
      return c, None;
    }
    line := ParseRequestLine(c.Slice(end.value));
    if line.Some? {
      c.Advance(end.value + 2);
    }
  }

  /** The head of a chunked request, if it is there. */
  method FindChunkedHead(cb: Setting, buf: bytes, slots: array<Header>)
      returns (c: Cursor, line: Option<RequestLine>, err: Option<Err>, flags: Flags, count: int, ghost hs: seq<Header>)
    requires slots.Length == MAX_FAST_HEADERS
    modifies slots
    ensures err == if HeadersIn(HTTP, buf).HeadRejected? then Some(HeadersIn(HTTP, buf).err) else None
    ensures line.Some? <==> HeadIn(HTTP, buf).Some?
    ensures line.Some? ==> fresh(c) && c.Valid() && c.buf == buf && HeadIn(HTTP, buf) == Some(ChunkedHead(line.value, hs, c.pos))
    ensures line.Some? ==> flags == AllFlags(NO_FLAGS, hs) && if cb.field || cb.value then Captured(hs, slots, count) else count == 0
  {
    c, line := FirstLineOf(buf);
    flags, count, hs := NO_FLAGS, 0, [];
    if line.None? {
      return c, None, None, flags, count, hs;
    }
    var head;
    head, flags, count, hs := AnalyzeHeaders(c, Meta(Request, 0, false, 0, false), cb.field || cb.value, slots);
    if head.HeadRejected? {
      return c, None, Some(head.err), flags, count, hs;
    }
    if head.HeadIncomplete? || !head.meta.chunked {
      return c, None, None, flags, count, hs;
    }
    EmptyAppend(hs);
    return c, line, None, flags, count, hs;
  }

  lemma LeadingStep(g: LineGrammar, buf: bytes, p: nat, data: bytes, next: nat, parts: seq<bytes>)
    requires p <= |buf| && TakeChunk(g, buf, p) == Some(Data(data, next))
    ensures parts + LeadingChunks(g, buf, p).0 == parts + [data] + LeadingChunks(g, buf, next).0
    ensures LeadingChunks(g, buf, p).1 == LeadingChunks(g, buf, next).1
  {
    Assoc(parts, [data], LeadingChunks(g, buf, next).0);
  }

  lemma LeadingEnd(g: LineGrammar, buf: bytes, p: nat)
    requires p <= |buf| && (TakeChunk(g, buf, p).None? || TakeChunk(g, buf, p).value.Last?)
    ensures LeadingChunks(g, buf, p) == ([], TakeChunk(g, buf, p).Some? && TakeChunk(g, buf, p).value.next == |buf|)
  {
  }

  /** The chunk loop: every chunk is told as it is found. */
  method TellChunks(cb: Setting, c: Cursor) returns (es: seq<Event>, complete: bool, bad: bool)
    requires c.Valid()
    modifies c
    ensures var r := LeadingChunks(HTTP, c.buf, old(c.pos)); es == PartsTrace(cb, r.0) && complete == r.1
    ensures bad == BadEnd(HTTP, c.buf, old(c.pos))
  {
    ghost var start, parts: seq<bytes> := c.pos, [];
    es := [];
    EmptyAppend(LeadingChunks(HTTP, c.buf, start).0);
    while true
      invariant c.Valid() && start <= |c.buf|
      invariant LeadingChunks(HTTP, c.buf, start).0 == parts + LeadingChunks(HTTP, c.buf, c.pos).0
      invariant LeadingChunks(HTTP, c.buf, start).1 == LeadingChunks(HTTP, c.buf, c.pos).1
      invariant BadEnd(HTTP, c.buf, start) == BadEnd(HTTP, c.buf, c.pos) && es == PartsTrace(cb, parts)
      decreases |c.buf| - c.pos
    {
      ghost var p := c.pos;
      EmptyAppend(parts);
      var chunk;
      chunk, bad := NextFastChunk(c);
      match chunk
      case None =>
        LeadingEnd(HTTP, c.buf, p);
        return es, false, bad;
      case Some(Last(_)) =>
        LeadingEnd(HTTP, c.buf, p);
        return es, c.Remaining() == 0, bad;
      case Some(Data(data, next)) =>
        LeadingStep(HTTP, c.buf, p, data, next, parts);
        BadEndStep(HTTP, c.buf, p, data, next);
        PartsTraceSnoc(cb, parts, data);
        parts := parts + [data];
        es := es + When(cb.body, BodyPart(data));
    }
  }

  lemma ChunkedIs(cb: Setting, st: State, buf: bytes, h: ChunkedHead)
    requires !st.told.started && st.phase == Idle && HeadIn(cb.lines, buf) == Some(h)
    ensures TryChunked(cb, st, buf) == ChunkedCall(cb, st, buf, h)
  {
  }

  /** The callbacks for a head, from the captured headers if they fit. */
  method TellHead(cb: Setting, target: bytes, slots: array<Header>, count: int, ghost hs: seq<Header>) returns (es: seq<Event>)
    requires if cb.field || cb.value then Captured(hs, slots, count) else count == 0
    ensures es == StartTrace(cb, target) + (if |hs| <= MAX_FAST_HEADERS then HeaderTrace(cb, hs) else []) + When(cb.headers, HeadersDone)
  {
    es := StartTrace(cb, target);
    var headers: seq<Event> := [];
    if cb.field || cb.value {
      if count >= 0 {
        headers := EmitCaptured(cb, slots, count);
      }
    } else {
      NoHeaderCallbacks(cb, hs);
    }
    es := es + headers;
    es := es + When(cb.headers, HeadersDone);
  }

  method TellChunked(cb: Setting, c: Cursor, slots: array<Header>, count: int, target: bytes, ghost h: ChunkedHead)
      returns (es: seq<Event>, complete: bool, bad: bool)
    requires c.Valid() && c.pos == h.next && target == h.line.target
    requires if cb.field || cb.value then Captured(h.headers, slots, count) else count == 0
    modifies c
    ensures h.next <= |c.buf| && bad == BadEnd(HTTP, c.buf, h.next)
    ensures var r := LeadingChunks(HTTP, c.buf, h.next); complete == r.1 && es == ChunkedSays(cb, h, r)
  {
    es := TellHead(cb, target, slots, count, h.headers);
    var parts;
    parts, complete, bad := TellChunks(cb, c);
    es := es + parts;
    es := es + When(cb.complete && complete, Complete);
  }

  method TryFastChunkedRequest(p: Parser, cb: Setting, buf: bytes, slots: array<Header>) returns (over: bool, n: nat, err: Option<Err>)
    requires p.Valid() && slots.Length == MAX_FAST_HEADERS && cb.lines == HTTP
    modifies p, slots
    ensures Did(p, old(p.events), TryChunked(cb, old(p.Abs()), buf), over, n, err)
  {
    EmptyAppend(p.events);
    if p.told.started || p.fastPhase != Idle {
      return false, 0, None;
    }
    var c, line, flags, count;
    ghost var hs;
    c, line, err, flags, count, hs := FindChunkedHead(cb, buf, slots);
    if err.Some? {
      return true, 0, err;
    }
    if line.None? {
      return false, 0, None;
    }
    ghost var h := ChunkedHead(line.value, hs, c.pos);
    ChunkedIs(cb, p.Abs(), buf, h);
    var es, complete, bad := TellChunked(cb, c, slots, count, line.value.target, h);
    ApplyFast(p, line.value, Meta(Request, 0, false, 0, true), flags, complete);
    p.events := p.events + es;
    return complete || bad, if complete then |buf| else 0, if bad then Some(ErrChunkSize) else None;
  }

  // --------------------------------------------------------------------- executeClean

  lemma ExecuteFeeds(cb: Setting, st: State, buf: bytes, st': State, es: seq<Event>)
    requires buf != [] && !Silent(cb) && TryWhole(cb, st, buf) == Declined(st)
    requires !TryChunked(cb, st, buf).over && TryChunked(cb, st, buf).st == st' && TryChunked(cb, st, buf).es == es
    ensures Execute(cb, st, buf) == FeedCall(cb, st', buf, es)
  {
  }

  lemma NotOver(cb: Setting, st: State, buf: bytes)
    ensures !TryWhole(cb, st, buf).over ==> TryWhole(cb, st, buf) == Declined(st)
  {
  }

  /** Execute of a request parser. */
  method ExecuteRequest(p: Parser, cb: Setting, buf: bytes, slots: array<Header>) returns (n: nat, err: Option<Err>)
    requires p.Valid() && slots.Length == MAX_FAST_HEADERS && cb.lines == HTTP && |buf| < 0x8000_0000
    modifies p, p.lineScratch, slots
    ensures Did(p, old(p.events), Execute(cb, old(p.Abs()), buf), true, n, err)
  {
    ghost var st, before := p.Abs(), p.events;
    EmptyAppend(before);
    if buf == [] {
      return 0, None;
    }
    if Silent(cb) {
      EmptyAppend(FeedSays(cb, st, buf));
      n, err := p.SplitRequest(cb, buf);
      return;
    }
    NotOver(cb, st, buf);
    var over;
    over, n, err := TryFastRequest(p, cb, buf, slots);
    if over {
      return;
    }
    over, n, err := TryFastChunkedRequest(p, cb, buf, slots);
    if over {
      return;
    }
    ghost var chunked := TryChunked(cb, st, buf);
    ExecuteFeeds(cb, st, buf, chunked.st, chunked.es);
    Assoc(before, chunked.es, FeedSays(cb, chunked.st, buf));
    n, err := p.SplitRequest(cb, buf);
  }
}
