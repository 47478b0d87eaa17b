/** The whole-buffer fast paths of internal/parser/engine.go: they accept what the one-shot parser
    accepts, know the same about it, and make the same callbacks. */
module FastPaths {
  import opened Bytes
  import opened Grammar
  import opened Reference
  import opened Cursors
  import opened UniqueFraming

  const MAX_FAST_HEADERS: nat := 64

  datatype FastRequest = FastRequest(
    line: RequestLine,
    meta: Meta,
    mode: Mode,
    flags: Flags,
    body: bytes,
    headersStart: nat,
    headersEnd: nat,
    bodyStart: nat)

  datatype FastResponse = FastResponse(
    line: ResponseLine,
    meta: Meta,
    mode: Mode,
    close: bool,
    body: bytes,
    headersStart: nat,
    headersEnd: nat)

  /** The first headers of a message in an array, and how many there are, or -1 if they do not fit. */
  ghost predicate Captured(hs: seq<Header>, slots: array<Header>, count: int)
    reads slots
  {
    slots.Length == MAX_FAST_HEADERS &&
    if |hs| <= MAX_FAST_HEADERS then count == |hs| && slots[..count] == hs else count == -1
  }

  lemma FlagsSnoc(f: Flags, hs: seq<Header>, h: Header)
    ensures AllFlags(f, hs + [h]) == AddFlags(AllFlags(f, hs), h)
  {
    FlagsAppend(f, hs, [h]);
    assert [h][1..] == [];
  }

  /** One header more in the capture. */
  method Capture(h: Header, slots: array<Header>, count: int, ghost hs: seq<Header>) returns (count': int)
    requires Captured(hs, slots, count)
    modifies slots
    ensures Captured(hs + [h], slots, count')
  {
    count' := count;
    if count >= 0 {
      if count < slots.Length {
        slots[count] := h;
        count' := count + 1;
      } else {
        count' := -1;
      }
    }
  }

  /** The header loop of analyzeFastRequestCaptured: no list of headers is built; flags are noted
      and, if asked for, the first headers captured. */
  method AnalyzeHeaders(c: Cursor, start: Meta, capture: bool, slots: array<Header>)
      returns (head: Head, flags: Flags, count: int, ghost hs: seq<Header>)
    requires c.Valid() && slots.Length == MAX_FAST_HEADERS
    modifies c, slots
    ensures c.Valid() && WithHeaders(hs, head) == ParseHeaders(HTTP, start, c.buf, old(c.pos))
    ensures head.HeadDone? ==> head.headers == [] && c.pos == head.next
    ensures flags == AllFlags(NO_FLAGS, hs) && if capture then Captured(hs, slots, count) else count == 0
  {
    ghost var spec := ParseHeaders(HTTP, start, c.buf, c.pos);
    WithNothing(spec, None);
    var meta := start;
    flags, count, hs := NO_FLAGS, 0, [];
    while true
      invariant c.Valid()
      invariant spec == WithHeaders(hs, ParseHeaders(HTTP, meta, c.buf, c.pos))
      invariant flags == AllFlags(NO_FLAGS, hs)
      invariant if capture then Captured(hs, slots, count) else count == 0
      decreases |c.buf| - c.pos
    {
      var t := NextHeader(c, meta);
      match t
      case Ends(last) =>
        return last, flags, count, hs;
      case One(h, meta') =>
        if capture {
          count := Capture(h, slots, count, hs);
        }
        WithTwo(hs, h, ParseHeaders(HTTP, meta', c.buf, c.pos));
        FlagsSnoc(NO_FLAGS, hs, h);
        flags, hs, meta := AddFlags(flags, h), hs + [h], meta';
    }
  }

  /** The chunks at `p` lead to a zero size line with two bytes behind it that are no CRLF. */
  predicate BadEnd(g: LineGrammar, buf: bytes, p: nat)
    requires p <= |buf|
    decreases |buf| - p
  {
    match CrlfFrom(buf, p)
    case None => false
    case Some(i) =>
      match g.size(buf[p..i])
      case None => false
      case Some(size) =>
        if size == 0 then i + 4 <= |buf| && !CrlfAt(buf, i + 2)
        else size > 0 && CrlfAt(buf, i + 2 + size) && BadEnd(g, buf, i + 4 + size)
  }

  /** The error for a chunked body: that of a wrong final CRLF, which the one-shot parser takes for
      input that is only missing. */
  function ChunksErr(g: LineGrammar, buf: bytes, p: nat): (e: Option<Err>)
    requires p <= |buf|
  {
    if BadEnd(g, buf, p) then Some(ErrChunkSize) else None
  }

  lemma BadEndStep(g: LineGrammar, buf: bytes, p: nat, data: bytes, next: nat)
    requires p <= |buf| && TakeChunk(g, buf, p) == Some(Data(data, next))
    ensures BadEnd(g, buf, p) == BadEnd(g, buf, next)
  {
  }

  /** The chunk loop of analyzeFastRequestCaptured, which decodes nothing. */
  method AnalyzeChunks(c: Cursor) returns (ok: bool, err: Option<Err>)
    requires c.Valid()
    modifies c
    ensures c.Valid()
    ensures var r := ParseChunks(HTTP, c.buf, old(c.pos)); ok <==> r.Some? && r.value.next == |c.buf|
    ensures err == ChunksErr(HTTP, c.buf, old(c.pos))
  {
    ghost var spec := ParseChunks(HTTP, c.buf, c.pos);
    ghost var parts: seq<bytes> := [];
    WithNothing(HeadIncomplete, spec);
    while true
      invariant c.Valid()
      invariant spec == WithParts(parts, ParseChunks(HTTP, c.buf, c.pos))
      invariant BadEnd(HTTP, c.buf, old(c.pos)) == BadEnd(HTTP, c.buf, c.pos)
      decreases |c.buf| - c.pos
    {
      ghost var p := c.pos;
      var chunk, bad := NextFastChunk(c);
      match chunk
      case None =>
        return false, if bad then Some(ErrChunkSize) else None;
      case Some(Last(next)) =>
        ChunkLast(parts, c.buf, p, next);
        return c.Remaining() == 0, None;
      case Some(Data(data, next)) =>
        ChunkStep(parts, c.buf, p, data, next);
        BadEndStep(HTTP, c.buf, p, data, next);
        parts := parts + [data];
    }
  }

  /** `NextChunk`, with the final CRLF told apart from input that is only missing. */
  method NextFastChunk(c: Cursor) returns (r: Option<Chunk>, bad: bool)
    requires c.Valid()
    modifies c
    ensures c.Valid()
    ensures r == TakeChunk(HTTP, c.buf, old(c.pos))
    ensures r.Some? ==> c.pos == r.value.next
    ensures r.None? || r.value.Last? ==> bad == BadEnd(HTTP, c.buf, old(c.pos))
  {
    var size := c.ChunkSizeLine();
    if size.None? {
      return None, false;
    }
    if size.value == 0 {
      var missing := c.Remaining() < 2;
      var ok := c.ExpectCrlf();
      if !ok {
        return None, !missing;
      }
      return Some(Last(c.pos)), false;
    }
    var chunk := c.ChunkData(size.value);
    if chunk.None? {
      return None, false;
    }
    return Some(Data(chunk.value, c.pos)), false;
  }

  /** The fast result says what the one-shot parser says, and where the head and the body stand. */
  ghost predicate Agrees(buf: bytes, res: FastRequest, msg: Message) {
    && msg.start == Req(res.line) && msg.meta == res.meta && msg.mode == res.mode
    && res.flags == AllFlags(NO_FLAGS, msg.headers)
    && 2 <= res.headersStart <= |buf| && CrlfFrom(buf, 0) == Some(res.headersStart - 2)
    && ParseHeaders(HTTP, StartMeta(msg.start), buf, res.headersStart) == HeadDone(msg.meta, msg.headers, res.bodyStart)
    && res.headersEnd == res.bodyStart - 2 && res.bodyStart <= |buf|
    && (res.mode == ChunkedBody ==>
          ParseChunks(HTTP, buf, res.bodyStart).Some? && msg.body == Concat(ParseChunks(HTTP, buf, res.bodyStart).value.parts))
    && (res.mode != ChunkedBody ==> res.body == msg.body)
  }

  /** The body of a request by its framing: the whole rest of the buffer, or not accepted. */
  method AnalyzeBody(c: Cursor, meta: Meta) returns (ok: bool, err: Option<Err>, body: bytes)
    requires c.Valid() && meta.kind == Request
    modifies c
    ensures c.Valid()
    ensures var r := ParseBody(HTTP, meta, c.buf, old(c.pos)); ok <==> r.BodyDone? && r.next == |c.buf|
    ensures ok && BodyMode(meta) != ChunkedBody ==> body == ParseBody(HTTP, meta, c.buf, old(c.pos)).body
    ensures err == if meta.chunked then ChunksErr(HTTP, c.buf, old(c.pos)) else None
  {
    body, err := [], None;
    var mode := BodyMode(meta);
    if mode == ChunkedBody {
      ok, err := AnalyzeChunks(c);
      return;
    }
    if mode == EofBody {
      return false, None, [];
    }
    if mode == LengthBody {
      if c.Remaining() != meta.length {
        return false, None, [];
      }
      body := c.Slice(meta.length);
      c.Advance(meta.length);
    }
    ok := c.Remaining() == 0;
  }

  /** The outcome once the head has been read. */
  function Assembled(g: LineGrammar, start: StartLine, head: Head, buf: bytes): (r: Parsed) {
    match head
    case HeadIncomplete => Incomplete
    case HeadRejected(e) => Rejected(e)
    case HeadDone(meta, hs, p) =>
      if |buf| < p then Incomplete
      else
        match ParseBody(g, meta, buf, p)
        case BodyIncomplete => Incomplete
        case BodyPanics => Panics
        case BodyDone(body, next) => if next == |buf| then Accepted(Message(start, hs, meta, BodyMode(meta), body)) else Incomplete
  }

  lemma MessageParts(g: LineGrammar, kind: Kind, buf: bytes, i: nat)
    requires CrlfFrom(buf, 0) == Some(i)
    ensures var start := ParseStart(g, kind, buf[0..i]);
            ParseMessage(g, kind, buf) ==
            if start.None? then Incomplete else Assembled(g, start.value, ParseHeaders(g, StartMeta(start.value), buf, i + 2), buf)
  {
    assert buf[..i] == buf[0..i];
  }

  /** A message without a start line, or made of its start line and the rest. */
  lemma FirstLine(g: LineGrammar, kind: Kind, buf: bytes, i: nat, start: Option<StartLine>, spec: Parsed)
    requires CrlfFrom(buf, 0) == Some(i) && ParseStart(g, kind, buf[0..i]) == start
    requires spec == if start.None? then Incomplete else Assembled(g, start.value, ParseHeaders(g, StartMeta(start.value), buf, i + 2), buf)
    ensures ParseMessage(g, kind, buf) == spec
  {
    MessageParts(g, kind, buf, i);
  }

  lemma {:induction false} KindKept(g: LineGrammar, meta: Meta, buf: bytes, p: nat)
    requires p <= |buf| && ParseHeaders(g, meta, buf, p).HeadDone?
    ensures ParseHeaders(g, meta, buf, p).meta.kind == meta.kind
    decreases |buf| - p
  {
    if buf[p] != CR {
      var i := CrlfFrom(buf, p).value;
      KindKept(g, ApplyHeader(meta, g.header(buf[p..i]).value).value, buf, i + 2);
    }
  }

  /** The error of the fast path once the head has been read: that of a header the one-shot parser
      rejects, or that of a wrong final CRLF. */
  function HeadErr(g: LineGrammar, head: Head, buf: bytes): (e: Option<Err>) {
    match head
    case HeadIncomplete => None
    case HeadRejected(err) => Some(err)
    case HeadDone(meta, _, p) => if meta.chunked && p <= |buf| then ChunksErr(g, buf, p) else None
  }

  /** The error analyzeFastRequestCaptured returns for a buffer. */
  function FastErr(g: LineGrammar, buf: bytes): (e: Option<Err>) {
    match CrlfFrom(buf, 0)
    case None => None
    case Some(i) =>
      match ParseStart(g, Request, buf[0..i])
      case None => None
      case Some(start) => HeadErr(g, ParseHeaders(g, StartMeta(start), buf, i + 2), buf)
  }

  /** The fast result `r` is what the one-shot outcome `spec` says. */
  ghost predicate SameVerdict(buf: bytes, spec: Parsed, r: Option<FastRequest>) {
    (r.Some? <==> spec.Accepted?) && (r.Some? ==> Agrees(buf, r.value, spec.msg))
  }

  lemma AgreesBy(buf: bytes, line: RequestLine, start: nat, head: Head, flags: Flags, body: bytes)
    requires 2 <= start <= |buf| && CrlfFrom(buf, 0) == Some(start - 2) && head.HeadDone? && head.next <= |buf|
        && ParseHeaders(HTTP, StartMeta(Req(line)), buf, start) == head
    requires flags == AllFlags(NO_FLAGS, head.headers)
    requires ParseBody(HTTP, head.meta, buf, head.next).BodyDone? && ParseBody(HTTP, head.meta, buf, head.next).next == |buf|
    requires BodyMode(head.meta) != ChunkedBody ==> body == ParseBody(HTTP, head.meta, buf, head.next).body
    ensures SameVerdict(buf, Assembled(HTTP, Req(line), head, buf),
                        Some(FastRequest(line, head.meta, BodyMode(head.meta), flags, body, start, head.next - 2, head.next)))
  {
  }

  /** analyzeFastRequestCaptured behind the request line. */
  method AnalyzeRest(c: Cursor, line: RequestLine, capture: bool, slots: array<Header>)
      returns (r: Option<FastRequest>, err: Option<Err>, count: int, ghost head: Head)
    requires c.Valid() && slots.Length == MAX_FAST_HEADERS && 2 <= c.pos && CrlfFrom(c.buf, 0) == Some(c.pos - 2)
    modifies c, slots
    ensures head == ParseHeaders(HTTP, StartMeta(Req(line)), c.buf, old(c.pos))
    ensures SameVerdict(c.buf, Assembled(HTTP, Req(line), head, c.buf), r) && err == HeadErr(HTTP, head, c.buf)
    ensures r.Some? ==> if capture then Captured(head.headers, slots, count) else count == 0
  {
    var start := c.pos;
    var found, flags, n, hs := AnalyzeHeaders(c, Meta(Request, 0, false, 0, false), capture, slots);
    head := WithHeaders(hs, found);
    if found.HeadIncomplete? {
      return None, None, n, head;
    }
    if found.HeadRejected? {
      return None, Some(found.err), n, head;
    }
    EmptyAppend(hs);
    KindKept(HTTP, StartMeta(Req(line)), c.buf, start);
    var bodyStart := c.pos;
    var ok, bad, body := AnalyzeBody(c, found.meta);
    if !ok {
      return None, bad, n, head;
    }
    AgreesBy(c.buf, line, start, head, flags, body);
    return Some(FastRequest(line, found.meta, BodyMode(found.meta), flags, body, start, bodyStart - 2, bodyStart)), bad, n, head;
  }

  lemma NoLine(g: LineGrammar, kind: Kind, buf: bytes)
    requires CrlfFrom(buf, 0).None?
    ensures ParseMessage(g, kind, buf) == Incomplete
  {
  }

  /** The request line, and a cursor behind it. */
  method RequestLineOf(buf: bytes) returns (c: Cursor, line: Option<RequestLine>)
    ensures fresh(c) && c.Valid() && c.buf == buf
    ensures line.None? ==> ParseMessage(HTTP, Request, buf) == Incomplete
    ensures line.Some? ==> 2 <= c.pos && CrlfFrom(buf, 0) == Some(c.pos - 2)
    ensures line.Some? ==>
              ParseMessage(HTTP, Request, buf) == Assembled(HTTP, Req(line.value), ParseHeaders(HTTP, StartMeta(Req(line.value)), buf, c.pos), buf)
    ensures FastErr(HTTP, buf) == if line.None? then None else HeadErr(HTTP, ParseHeaders(HTTP, StartMeta(Req(line.value)), buf, c.pos), buf)
  {
    c := new Cursor(buf);
    var end := c.ScanCrlf();
    if end.None? {
      NoLine(HTTP, Request, buf);
      return c, None;
    }
    line := ParseRequestLine(c.Slice(end.value));
    if line.None? {
      FirstLine(HTTP, Request, buf, end.value, None, Incomplete);
    } else {
      c.Advance(end.value + 2);
      ghost var head := ParseHeaders(HTTP, StartMeta(Req(line.value)), buf, c.pos);
      FirstLine(HTTP, Request, buf, end.value, Some(Req(line.value)), Assembled(HTTP, Req(line.value), head, buf));
    }
  }

  /** analyzeFastRequestCaptured: it accepts exactly what the one-shot parser accepts, and its error is
      that of `FastErr`. */
  method AnalyzeFastRequest(buf: bytes, capture: bool, slots: array<Header>) returns (r: Option<FastRequest>, err: Option<Err>, count: int)
    requires slots.Length == MAX_FAST_HEADERS
    modifies slots
    ensures SameVerdict(buf, ParseMessage(HTTP, Request, buf), r) && err == FastErr(HTTP, buf)
    ensures r.Some? ==> if capture then Captured(ParseMessage(HTTP, Request, buf).msg.headers, slots, count) else count == 0
  {
    ghost var spec := ParseMessage(HTTP, Request, buf);
    var c, line := RequestLineOf(buf);
    if line.None? {
      return None, None, 0;
    }
    ghost var head;
    r, err, count, head := AnalyzeRest(c, line.value, capture, slots);
    assert spec == Assembled(HTTP, Req(line.value), head, buf);
  }

  /** A message that analyzeFastResponse takes: one without a body or with a length. */
  predicate Simple(r: Parsed) {
    r.Accepted? && r.msg.mode in {NoBody, LengthBody}
  }

  function ResponseErr(r: Parsed): (e: Option<Err>) {
    if r.Rejected? then Some(r.err) else None
  }

  /** The fast result says what the one-shot parser says, and where the headers stand; their end is
      behind the CR of the empty line. */
  ghost predicate AgreesResponse(buf: bytes, res: FastResponse, msg: Message) {
    && msg.start == Rsp(res.line) && msg.meta == res.meta && msg.mode == res.mode && msg.body == res.body
    && res.close == AllFlags(NO_FLAGS, msg.headers).close
    && res.headersStart <= |buf|
    && ParseHeaders(HTTP, StartMeta(msg.start), buf, res.headersStart) == HeadDone(msg.meta, msg.headers, res.headersEnd + 1)
  }

  /** analyzeFastResponse: it takes exactly the messages without a body or with a length, and fails
      exactly where the one-shot parser does. */
  method AnalyzeFastResponse(buf: bytes) returns (r: Option<FastResponse>, err: Option<Err>)
    ensures r.Some? <==> Simple(ParseMessage(HTTP, Response, buf))
    ensures r.Some? ==> AgreesResponse(buf, r.value, ParseMessage(HTTP, Response, buf).msg)
    ensures err == ResponseErr(ParseMessage(HTTP, Response, buf))
  {
    var c, line := ResponseLineOf(buf);
    if line.None? {
      return None, None;
    }
    r, err := AnalyzeResponseRest(c, line.value);
  }

  /** The status line, and a cursor behind it. */
  method ResponseLineOf(buf: bytes) returns (c: Cursor, line: Option<ResponseLine>)
    ensures fresh(c) && c.Valid() && c.buf == buf
    ensures ParseMessage(HTTP, Response, buf) ==
            if line.None? then Incomplete else Assembled(HTTP, Rsp(line.value), ParseHeaders(HTTP, StartMeta(Rsp(line.value)), buf, c.pos), buf)
  {
    c := new Cursor(buf);
    var end := c.ScanCrlf();
    if end.None? {
      NoLine(HTTP, Response, buf);
      return c, None;
    }
    line := ParseResponseLine(c.Slice(end.value));
    if line.None? {
      FirstLine(HTTP, Response, buf, end.value, None, Incomplete);
    } else {
      c.Advance(end.value + 2);
      ghost var head := ParseHeaders(HTTP, StartMeta(Rsp(line.value)), buf, c.pos);
      FirstLine(HTTP, Response, buf, end.value, Some(Rsp(line.value)), Assembled(HTTP, Rsp(line.value), head, buf));
    }
  }

  /** The bytes analyzeFastResponse wants behind a head. */
  function Wanted(meta: Meta): (n: Option<int>) {
    match BodyMode(meta)
    case NoBody => Some(0)
    case LengthBody => Some(meta.length)
    case _ => None
  }

  lemma ResponseDeclined(g: LineGrammar, start: StartLine, head: Head, buf: bytes)
    requires head.HeadDone? && head.next <= |buf| && Wanted(head.meta) != Some(|buf| - head.next)
    ensures var spec := Assembled(g, start, head, buf); !Simple(spec) && ResponseErr(spec).None?
  {
  }

  lemma ResponseTaken(line: ResponseLine, p: nat, head: Head, buf: bytes, close: bool, body: bytes)
    requires head.HeadDone? && head.next <= |buf| && Wanted(head.meta) == Some(|buf| - head.next) && body == buf[head.next..]
    requires p <= |buf| && ParseHeaders(HTTP, StartMeta(Rsp(line)), buf, p) == head && close == AllFlags(NO_FLAGS, head.headers).close
    ensures var spec := Assembled(HTTP, Rsp(line), head, buf);
            && Simple(spec) && ResponseErr(spec).None?
            && AgreesResponse(buf, FastResponse(line, head.meta, BodyMode(head.meta), close, body, p, head.next - 1), spec.msg)
  {
  }

  /** analyzeFastResponse behind the status line. */
  method AnalyzeResponseRest(c: Cursor, line: ResponseLine) returns (r: Option<FastResponse>, err: Option<Err>)
    requires c.Valid()
    modifies c
    ensures var spec := Assembled(HTTP, Rsp(line), ParseHeaders(HTTP, StartMeta(Rsp(line)), c.buf, old(c.pos)), c.buf);
            && (r.Some? <==> Simple(spec)) && (r.Some? ==> AgreesResponse(c.buf, r.value, spec.msg)) && err == ResponseErr(spec)
  {
    var start := c.pos;
    var found, close, hs := AnalyzeResponseHeaders(c, Meta(Response, line.status, false, 0, false));
    if found.HeadIncomplete? {
      return None, None;
    }
    if found.HeadRejected? {
      return None, Some(found.err);
    }
    EmptyAppend(hs);
    ghost var head := WithHeaders(hs, found);
    var mode := BodyMode(found.meta);
    var headersEnd := c.pos - 1;
    var body: bytes := [];
    if mode == EofBody || mode == ChunkedBody || (mode == LengthBody && c.Remaining() != found.meta.length)
       || (mode == NoBody && c.Remaining() != 0) {
      ResponseDeclined(HTTP, Rsp(line), head, c.buf);
      return None, None;
    }
    body := c.Slice(c.Remaining());
    ResponseTaken(line, start, head, c.buf, close, body);
    return Some(FastResponse(line, found.meta, mode, close, body, start, headersEnd)), None;
  }

  /** The header loop of analyzeFastResponse, which notes only Connection: close. */
  method AnalyzeResponseHeaders(c: Cursor, start: Meta) returns (head: Head, close: bool, ghost hs: seq<Header>)
    requires c.Valid()
    modifies c
    ensures c.Valid() && WithHeaders(hs, head) == ParseHeaders(HTTP, start, c.buf, old(c.pos))
    ensures head.HeadDone? ==> head.headers == [] && c.pos == head.next
    ensures close == AllFlags(NO_FLAGS, hs).close
  {
    ghost var spec := ParseHeaders(HTTP, start, c.buf, c.pos);
    WithNothing(spec, None);
    var meta := start;
    close, hs := false, [];
    while true
      invariant c.Valid()
      invariant spec == WithHeaders(hs, ParseHeaders(HTTP, meta, c.buf, c.pos))
      invariant close == AllFlags(NO_FLAGS, hs).close
      decreases |c.buf| - c.pos
    {
      var t := NextHeader(c, meta);
      match t
      case Ends(last) =>
        return last, close, hs;
      case One(h, meta') =>
        WithTwo(hs, h, ParseHeaders(HTTP, meta', c.buf, c.pos));
        FlagsSnoc(NO_FLAGS, hs, h);
        close := close || (EqualFold(h.name, "connection") && EqualFold(h.value, "close"));
        hs, meta := hs + [h], meta';
    }
  }

  /** A finished chunked head with a wrong CRLF behind the zero chunk of its body. */
  predicate EndsBadly(g: LineGrammar, buf: bytes) {
    match CrlfFrom(buf, 0)
    case None => false
    case Some(i) =>
      match ParseStart(g, Request, buf[0..i])
      case None => false
      case Some(start) =>
        match ParseHeaders(g, StartMeta(start), buf, i + 2)
        case HeadDone(meta, _, p) => meta.chunked && BadEnd(g, buf, p)
        case _ => false
  }

  /** The fast path fails on a buffer exactly when the one-shot parser rejects it, with the same error,
      or when the CRLF behind the zero chunk is wrong, where that one waits for more. */
  lemma FastErrIs(g: LineGrammar, buf: bytes)
    ensures FastErr(g, buf).Some? <==> ParseMessage(g, Request, buf).Rejected? || EndsBadly(g, buf)
    ensures ParseMessage(g, Request, buf).Rejected? ==> FastErr(g, buf) == Some(ParseMessage(g, Request, buf).err)
    ensures EndsBadly(g, buf) ==> FastErr(g, buf) == Some(ErrChunkSize) && ParseMessage(g, Request, buf) == Incomplete
  {
    if CrlfFrom(buf, 0).Some? {
      var i := CrlfFrom(buf, 0).value;
      MessageParts(g, Request, buf, i);
      if ParseStart(g, Request, buf[0..i]).Some? {
        var head := ParseHeaders(g, StartMeta(ParseStart(g, Request, buf[0..i]).value), buf, i + 2);
        if head.HeadDone? && head.meta.chunked {
          BadEndIsNoBody(g, buf, head.next);
        }
      }
    }
  }

  lemma {:induction false} BadEndIsNoBody(g: LineGrammar, buf: bytes, p: nat)
    requires p <= |buf|
    ensures BadEnd(g, buf, p) ==> ParseChunks(g, buf, p).None?
    decreases |buf| - p
  {
    if TakeChunk(g, buf, p).Some? && TakeChunk(g, buf, p).value.Data? {
      BadEndIsNoBody(g, buf, TakeChunk(g, buf, p).value.next);
    }
  }

  // ------------------------------------------------------- prefixes of accepted requests

  /** A wrong final CRLF stays wrong, whatever follows. */
  lemma {:induction false} BadEndKept(g: LineGrammar, s: bytes, t: bytes, p: nat)
    requires p <= |s| && BadEnd(g, s, p)
    ensures BadEnd(g, s + t, p)
    decreases |s| - p
  {
    var i := CrlfFrom(s, p).value;
    CrlfKept(s, t, p);
    SliceAppend(s, t, p, i);
    if TakeChunk(g, s, p).Some? {
      BadEndKept(g, s, t, TakeChunk(g, s, p).value.next);
    }
  }

  lemma PrefixEndsWell(g: LineGrammar, m: bytes, p: nat, k: nat)
    requires p <= k <= |m| && ParseChunks(g, m, p).Some?
    ensures !BadEnd(g, m[..k], p)
  {
    assert m[..k] + m[k..] == m;
    if BadEnd(g, m[..k], p) {
      BadEndKept(g, m[..k], m[k..], p);
      BadEndIsNoBody(g, m, p);
    }
  }

  /** The fast path does not fail on a part of an accepted request. */
  lemma PrefixFastErr(g: LineGrammar, m: bytes, k: nat)
    requires Accepts(g, Request, m) && k <= |m|
    ensures FastErr(g, m[..k]) == None
  {
    var i := CrlfFrom(m, 0).value;
    CrlfPrefix(m, 0, k);
    if i + 2 <= k {
      assert m[..k][0..i] == m[..i];
      var meta := StartMeta(ParseStart(g, Request, m[..i]).value);
      HeadersPrefix(g, meta, m, i + 2, k);
      var head := ParseHeaders(g, meta, m, i + 2);
      if head.next <= k && head.meta.chunked {
        PrefixEndsWell(g, m, head.next, k);
      }
    }
  }
}
