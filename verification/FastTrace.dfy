/** The callbacks of emitFastRequest: the same whether headers come from the 64-entry capture or from
    a second scan of the bytes, and the same as those for the reference message. */
module FastTrace {
  import opened Bytes
  import opened Numerals
  import opened Grammar
  import opened Reference
  import opened Events
  import opened Machine
  import opened SplitEvents
  import opened MessageEvents
  import opened StartEvents
  import opened Cursors
  import opened FastPaths

  // ------------------------------------------------------------------------- headers

  lemma {:induction false} HeaderTraceAppend(cb: Setting, a: seq<Header>, b: seq<Header>)
    ensures HeaderTrace(cb, a + b) == HeaderTrace(cb, a) + HeaderTrace(cb, b)
  {
    if a == [] {
      EmptyAppend(b);
    } else {
      HeaderTraceAppend(cb, a[1..], b);
      DropAppend(a, b, 1);
      Assoc(When(cb.field, Field(a[0].name)) + When(cb.value, Value(a[0].value)), HeaderTrace(cb, a[1..]), HeaderTrace(cb, b));
    }
  }

  lemma HeaderTraceSnoc(cb: Setting, hs: seq<Header>, h: Header)
    ensures HeaderTrace(cb, hs + [h]) == HeaderTrace(cb, hs) + (When(cb.field, Field(h.name)) + When(cb.value, Value(h.value)))
  {
    var es := When(cb.field, Field(h.name)) + When(cb.value, Value(h.value));
    HeaderTraceAppend(cb, hs, [h]);
    assert [h][1..] == [];
    EmptyAppend(es);
  }

  lemma {:induction false} NoHeaderCallbacks(cb: Setting, hs: seq<Header>)
    requires !cb.field && !cb.value
    ensures HeaderTrace(cb, hs) == []
  {
    if hs != [] {
      NoHeaderCallbacks(cb, hs[1..]);
    }
  }

  /** The captured headers, in three loops as the callbacks present demand. */
  method EmitCaptured(cb: Setting, slots: array<Header>, count: nat) returns (es: seq<Event>)
    requires count <= slots.Length
    ensures es == HeaderTrace(cb, slots[..count])
  {
    es := [];
    if cb.field && cb.value {
      for i := 0 to count
        invariant es == HeaderTrace(cb, slots[..i])
      {
        HeaderTraceSnoc(cb, slots[..i], slots[i]);
        assert slots[..i + 1] == slots[..i] + [slots[i]];
        es := es + ([Field(slots[i].name)] + [Value(slots[i].value)]);
      }
    } else if cb.field {
      for i := 0 to count
        invariant es == HeaderTrace(cb, slots[..i])
      {
        HeaderTraceSnoc(cb, slots[..i], slots[i]);
        assert slots[..i + 1] == slots[..i] + [slots[i]];
        es := es + ([Field(slots[i].name)] + []);
      }
    } else {
      for i := 0 to count
        invariant es == HeaderTrace(cb, slots[..i])
      {
        HeaderTraceSnoc(cb, slots[..i], slots[i]);
        assert slots[..i + 1] == slots[..i] + [slots[i]];
        es := es + ([] + When(cb.value, Value(slots[i].value)));
      }
    }
  }

  /** The headers a scan of `s` from `p` on finds, up to the first line that is not one. */
  function ScanLines(g: LineGrammar, s: bytes, p: nat): (hs: seq<Header>)
    decreases |s| - p
  {
    if p >= |s| then []
    else
      match CrlfFrom(s, p)
      case None => []
      case Some(i) =>
        match g.header(s[p..i])
        case None => []
        case Some(h) => [h] + ScanLines(g, s, i + 2)
  }

  lemma CrlfInSlice(buf: bytes, a: nat, b: nat, p: nat)
    requires a <= p <= b <= |buf| && CrlfFrom(buf, p).Some? && CrlfFrom(buf, p).value + 2 <= b
    ensures CrlfFrom(buf[a..b], p - a) == Some(CrlfFrom(buf, p).value - a)
  {
    var i := CrlfFrom(buf, p).value;
    CrlfFound(buf, p);
    forall j | p - a <= j < i - a ensures !CrlfAt(buf[a..b], j) { assert !CrlfAt(buf, a + j); }
    CrlfIs(buf[a..b], p - a, i - a);
  }

  lemma SliceOfSlice(s: bytes, a: nat, b: nat, p: nat, i: nat)
    requires a <= p <= i <= b <= |s|
    ensures s[a..b][p - a..i - a] == s[p..i]
  {
    var t := s[a..b][p - a..i - a];
    forall k | 0 <= k < |t| ensures t[k] == s[p..i][k] { assert t[k] == s[a..b][p - a + k]; }
  }

  lemma ScanNext(g: LineGrammar, s: bytes, p: nat, i: Option<nat>, h: Option<Header>)
    requires p < |s| && CrlfFrom(s, p) == i && h == if i.None? then None else g.header(s[p..i.value])
    ensures ScanLines(g, s, p) == if h.None? then [] else [h.value] + ScanLines(g, s, i.value + 2)
  {
  }

  /** The bytes between the start line and the empty line, with or without the CR of that line,
      scanned again, give the same headers. */
  lemma {:induction false} RescanSame(g: LineGrammar, meta: Meta, buf: bytes, a: nat, p: nat, end: nat)
    requires a <= p <= |buf| && ParseHeaders(g, meta, buf, p).HeadDone? && end + 1 <= ParseHeaders(g, meta, buf, p).next <= end + 2
    ensures end <= |buf| && p <= end && ScanLines(g, buf[a..end], p - a) == ParseHeaders(g, meta, buf, p).headers
    decreases |buf| - p
  {
    if buf[p] != CR {
      var i := CrlfFrom(buf, p).value;
      var h := g.header(buf[p..i]).value;
      RescanSame(g, ApplyHeader(meta, h).value, buf, a, i + 2, end);
      CrlfInSlice(buf, a, end, p);
      SliceOfSlice(buf, a, end, p, i);
    }
  }

  /** One turn of the scan. */
  method NextLine(g: LineGrammar, c: Cursor) returns (h: Option<Header>)
    requires c.Valid() && c.pos < |c.buf|
    modifies c
    ensures c.Valid() && (h.Some? ==> old(c.pos) < c.pos)
    ensures ScanLines(g, c.buf, old(c.pos)) == if h.None? then [] else [h.value] + ScanLines(g, c.buf, c.pos)
  {
    ghost var p := c.pos;
    var end := c.ScanCrlf();
    if end.None? {
      ScanNext(g, c.buf, p, None, None);
      return None;
    }
    var line := c.Slice(end.value);
    h := g.header(line);
    ScanNext(g, c.buf, p, Some(p + end.value), h);
    if h.Some? {
      c.Advance(end.value + 2);
    }
  }

  method EmitRescanned(g: LineGrammar, cb: Setting, s: bytes) returns (es: seq<Event>)
    ensures es == HeaderTrace(cb, ScanLines(g, s, 0))
  {
    var c := new Cursor(s);
    es := [];
    ghost var all, hs: seq<Header> := ScanLines(g, s, 0), [];
    EmptyAppend(all);
    while c.Remaining() > 0
      invariant c.Valid() && c.buf == s
      invariant all == hs + ScanLines(g, s, c.pos) && es == HeaderTrace(cb, hs)
      decreases |s| - c.pos
    {
      EmptyAppend(hs);
      var h := NextLine(g, c);
      if h.None? {
        return;
      }
      HeaderTraceSnoc(cb, hs, h.value);
      Assoc(hs, [h.value], ScanLines(g, s, c.pos));
      hs := hs + [h.value];
      es := es + (When(cb.field, Field(h.value.name)) + When(cb.value, Value(h.value.value)));
    }
    EmptyAppend(hs);
  }

  /** emitFastRequest, the headers: from the capture if it holds them all, else scanned again. */
  method EmitHeaders(cb: Setting, buf: bytes, res: FastRequest, slots: array<Header>, count: int, ghost msg: Message) returns (es: seq<Event>)
    requires Agrees(buf, res, msg)
    requires cb.field || cb.value ==> Captured(msg.headers, slots, count)
    ensures es == HeaderTrace(cb, msg.headers)
  {
    RescanSame(HTTP, StartMeta(msg.start), buf, res.headersStart, res.headersStart, res.headersEnd);
    if res.headersStart < res.headersEnd && (cb.field || cb.value) {
      if count > 0 {
        es := EmitCaptured(cb, slots, count);
      } else {
        es := EmitRescanned(HTTP, cb, buf[res.headersStart..res.headersEnd]);
      }
    } else {
      es := [];
      if !cb.field && !cb.value {
        NoHeaderCallbacks(cb, msg.headers);
      }
    }
  }

  // --------------------------------------------------------------------------- bodies

  /** One Body callback for each chunk. */
  function PartsTrace(cb: Setting, parts: seq<bytes>): (es: seq<Event>) {
    if parts == [] then [] else When(cb.body, BodyPart(parts[0])) + PartsTrace(cb, parts[1..])
  }

  lemma {:induction false} PartsTraceAppend(cb: Setting, a: seq<bytes>, b: seq<bytes>)
    ensures PartsTrace(cb, a + b) == PartsTrace(cb, a) + PartsTrace(cb, b)
  {
    if a == [] {
      EmptyAppend(b);
    } else {
      PartsTraceAppend(cb, a[1..], b);
      DropAppend(a, b, 1);
      Assoc(When(cb.body, BodyPart(a[0])), PartsTrace(cb, a[1..]), PartsTrace(cb, b));
    }
  }

  lemma PartsTraceSnoc(cb: Setting, parts: seq<bytes>, part: bytes)
    ensures PartsTrace(cb, parts + [part]) == PartsTrace(cb, parts) + When(cb.body, BodyPart(part))
  {
    PartsTraceAppend(cb, parts, [part]);
    assert [part][1..] == [];
    EmptyAppend(When(cb.body, BodyPart(part)));
  }

  /** Chunk fragments join to the body. */
  lemma {:induction false} PartsTraceAlike(view: View, cb: Setting, parts: seq<bytes>)
    ensures Alike(view, PartsTrace(cb, parts), When(cb.body, BodyPart(Concat(parts))))
  {
    if parts == [] {
      OneEvent(BodyPart([]));
      OneJoined(BodyPart([]));
    } else {
      var x := When(cb.body, BodyPart(parts[0]));
      PartsTraceAlike(view, cb, parts[1..]);
      AlikeAppend(view, x, x, PartsTrace(cb, parts[1..]), When(cb.body, BodyPart(Concat(parts[1..]))));
      BodyInTwo(view, cb.body, parts[0], Concat(parts[1..]));
      AlikeTrans(view, PartsTrace(cb, parts), x + When(cb.body, BodyPart(Concat(parts[1..]))), When(cb.body, BodyPart(Concat(parts))));
    }
  }

  /** The chunk loop of emitFastRequest. */
  method EmitChunks(cb: Setting, buf: bytes, start: nat) returns (es: seq<Event>)
    requires start <= |buf| && ParseChunks(HTTP, buf, start).Some?
    ensures es == PartsTrace(cb, ParseChunks(HTTP, buf, start).value.parts)
  {
    var c := new Cursor(buf);
    c.Advance(start);
    es := [];
    ghost var spec := ParseChunks(HTTP, buf, start);
    ghost var parts: seq<bytes> := [];
    WithNothing(HeadIncomplete, spec);
    while true
      invariant c.Valid() && c.buf == buf
      invariant spec == WithParts(parts, ParseChunks(HTTP, buf, c.pos)) && es == PartsTrace(cb, parts)
      decreases |buf| - c.pos
    {
      ghost var p := c.pos;
      var chunk := NextChunk(c);
      match chunk
      case None =>
        return;
      case Some(Last(next)) =>
        ChunkLast(parts, buf, p, next);
        return;
      case Some(Data(data, next)) =>
        ChunkStep(parts, buf, p, data, next);
        PartsTraceSnoc(cb, parts, data);
        parts := parts + [data];
        es := es + When(cb.body, BodyPart(data));
    }
  }

  /** A body that is passed on at once, if there is one. */
  function OnePart(body: bytes): (parts: seq<bytes>) {
    if body == [] then [] else [body]
  }

  /** The chunks behind the head at the beginning of `buf`. */
  function ChunkParts(g: LineGrammar, start: StartLine, buf: bytes): (parts: seq<bytes>) {
    match CrlfFrom(buf, 0)
    case None => []
    case Some(i) =>
      match ParseHeaders(g, StartMeta(start), buf, i + 2)
      case HeadDone(_, _, p) => (match ParseChunks(g, buf, p) case Some(c) => c.parts case None => [])
      case _ => []
  }

  /** The fragments in which a fast path passes on the body of a request. */
  function RequestParts(g: LineGrammar, buf: bytes, msg: Message): (parts: seq<bytes>) {
    if msg.mode == ChunkedBody then ChunkParts(g, msg.start, buf) else OnePart(msg.body)
  }

  lemma OnePartIs(cb: Setting, body: bytes)
    ensures Concat(OnePart(body)) == body
    ensures PartsTrace(cb, OnePart(body)) == When(cb.body && body != [], BodyPart(body))
  {
    if body != [] {
      assert [body][1..] == [];
      EmptyAppend(body);
      EmptyAppend(When(cb.body, BodyPart(body)));
    }
  }

  /** The fragments join to the body. */
  lemma PartsJoin(g: LineGrammar, m: bytes, msg: Message)
    requires ParseMessage(g, Request, m) == Accepted(msg)
    ensures Concat(RequestParts(g, m, msg)) == msg.body
  {
    if msg.body != [] && msg.mode != ChunkedBody {
      assert [msg.body][1..] == [];
      EmptyAppend(msg.body);
    }
  }

  method EmitBody(cb: Setting, buf: bytes, res: FastRequest, ghost msg: Message) returns (es: seq<Event>)
    requires Agrees(buf, res, msg)
    ensures es == PartsTrace(cb, RequestParts(HTTP, buf, msg))
  {
    if res.mode == ChunkedBody {
      es := EmitChunks(cb, buf, res.bodyStart);
    } else {
      OnePartIs(cb, msg.body);
      es := When(cb.body && res.body != [], BodyPart(res.body));
    }
  }

  // ------------------------------------------------------------------------- the trace

  /** Begin, and the target unless it is empty. */
  function StartTrace(cb: Setting, target: bytes): (es: seq<Event>) {
    When(cb.begin, Begin) + When(cb.url && target != [], Url(target))
  }

  function TargetOf(start: StartLine): (t: bytes) {
    if start.Req? then start.req.target else []
  }

  /** The callbacks of emitFastRequest and emitFastResponse. */
  function FastEvents(cb: Setting, msg: Message, parts: seq<bytes>): (es: seq<Event>) {
    StartTrace(cb, TargetOf(msg.start)) + HeaderTrace(cb, msg.headers) + When(cb.headers, HeadersDone)
    + PartsTrace(cb, parts) + When(cb.complete, Complete)
  }

  /** emitFastRequest: Begin, the target, the headers of the reference message, HeadersDone, the
      body in its fragments, Complete, in this order. */
  method EmitFastRequest(cb: Setting, buf: bytes, res: FastRequest, slots: array<Header>, count: int, ghost msg: Message)
      returns (es: seq<Event>)
    requires Agrees(buf, res, msg)
    requires cb.field || cb.value ==> Captured(msg.headers, slots, count)
    ensures es == FastEvents(cb, msg, RequestParts(HTTP, buf, msg))
  {
    es := StartTrace(cb, res.line.target);
    var headers := EmitHeaders(cb, buf, res, slots, count, msg);
    es := es + headers;
    es := es + When(cb.headers, HeadersDone);
    var body := EmitBody(cb, buf, res, msg);
    es := es + body;
    es := es + When(cb.complete, Complete);
  }

  /** Fast or not, the callbacks of an accepted request are the same behind Begin and Url: in the same
      order, fragments joined. */
  lemma FastTellsTheMessage(view: View, g: LineGrammar, cb: Setting, m: bytes, msg: Message)
    requires ParseMessage(g, Request, m) == Accepted(msg)
    ensures msg.start.Req? && Alike(view, FastEvents(cb, msg, RequestParts(g, m, msg)), Trace(cb, msg))
  {
    var parts := RequestParts(g, m, msg);
    PartsJoin(g, m, msg);
    PartsTraceAlike(view, cb, parts);
    BodyAlike(view, cb, msg, parts);
  }

  lemma StartIsSilent(view: View, cb: Setting, target: bytes)
    ensures Alike(view, StartTrace(cb, target), [])
  {
    var x, y := When(cb.begin, Begin), When(cb.url && target != [], Url(target));
    OneEvent(Begin);
    OneEvent(Url(target));
    JoinedParts(x, y);
    OneJoined(Begin);
    OneJoined(Url(target));
    OntoAppend(x, y, []);
  }

  lemma BodyAlike(view: View, cb: Setting, msg: Message, parts: seq<bytes>)
    requires Alike(view, PartsTrace(cb, parts), When(cb.body, BodyPart(msg.body)))
    ensures Alike(view, FastEvents(cb, msg, parts), Trace(cb, msg))
  {
    var s, n, h, b, c := StartTrace(cb, TargetOf(msg.start)), HeaderTrace(cb, msg.headers), When(cb.headers, HeadersDone),
        PartsTrace(cb, parts), When(cb.complete, Complete);
    var b' := When(cb.body, BodyPart(msg.body));
    StartIsSilent(view, cb, TargetOf(msg.start));
    AlikeAppend(view, s, [], n, n);
    AlikeAppend(view, s + n, [] + n, h, h);
    AlikeAppend(view, s + n + h, [] + n + h, b, b');
    AlikeAppend(view, s + n + h + b, [] + n + h + b', c, c);
    EmptyAppend(n);
    Assoc(n, h, b');
    Assoc(n, h + b', c);
    Assoc(h, b', c);
  }

  /** Begin and Url of the whole-buffer path. */
  lemma FastStart(cb: Setting, msg: Message, parts: seq<bytes>)
    ensures var es := FastEvents(cb, msg, parts);
            Count(es, Begin) == (if cb.begin then 1 else 0) && UrlOf(es) == if cb.url then TargetOf(msg.start) else []
  {
    var t := TargetOf(msg.start);
    var s, n, h, b, c := StartTrace(cb, t), HeaderTrace(cb, msg.headers), When(cb.headers, HeadersDone), PartsTrace(cb, parts),
        When(cb.complete, Complete);
    StartTraceTold(cb, t);
    QuietHeaders(cb, msg.headers);
    QuietWhen(cb.headers, HeadersDone);
    QuietParts(cb, parts);
    QuietWhen(cb.complete, Complete);
    QuietBehind(s, n);
    QuietBehind(s + n, h);
    QuietBehind(s + n + h, b);
    QuietBehind(s + n + h + b, c);
  }

  lemma StartTraceTold(cb: Setting, t: bytes)
    ensures Count(StartTrace(cb, t), Begin) == (if cb.begin then 1 else 0) && UrlOf(StartTrace(cb, t)) == if cb.url then t else []
  {
    var x, y := When(cb.begin, Begin), When(cb.url && t != [], Url(t));
    OneEvent(Begin);
    OneEvent(Url(t));
    JoinedParts(x, y);
  }

  lemma {:induction false} QuietHeaders(cb: Setting, hs: seq<Header>)
    ensures Quiet(HeaderTrace(cb, hs))
  {
    if hs != [] {
      var f, v := When(cb.field, Field(hs[0].name)), When(cb.value, Value(hs[0].value));
      QuietWhen(cb.field, Field(hs[0].name));
      QuietWhen(cb.value, Value(hs[0].value));
      QuietAppend(f, v);
      QuietHeaders(cb, hs[1..]);
      QuietAppend(f + v, HeaderTrace(cb, hs[1..]));
    }
  }

  lemma {:induction false} QuietParts(cb: Setting, parts: seq<bytes>)
    ensures Quiet(PartsTrace(cb, parts))
  {
    if parts != [] {
      QuietWhen(cb.body, BodyPart(parts[0]));
      QuietParts(cb, parts[1..]);
      QuietAppend(When(cb.body, BodyPart(parts[0])), PartsTrace(cb, parts[1..]));
    }
  }

  // ------------------------------------------------------- what the parser object then knows

  /** The fields of the parser that both paths set from a message. */
  datatype Known = Known(verb: nat, version: Version, hasLength: bool, chunked: bool, length: int, flags: Flags, upgrade: bool)

  /** applyFastRequestResult. */
  function AppliedFast(res: FastRequest): (k: Known) {
    Known(res.line.verb, res.line.version, res.meta.hasLength, res.meta.chunked,
          if res.mode == NoBody then -1 else res.meta.length, res.flags,
          (res.flags.upgrade && res.flags.connUpgrade) || res.line.verb == CONNECT)
  }

  /** applyParsedMessage for a request, `before` being the flags the parser had. */
  function AppliedParsed(msg: Message, before: Flags): (k: Known)
    requires msg.start.Req?
  {
    var flags := AllFlags(before, msg.headers);
    var length := if msg.mode == ChunkedBody && msg.body != [] then Int32(|msg.body|) else msg.meta.length;
    Known(msg.start.req.verb, msg.start.req.version, msg.meta.hasLength, msg.meta.chunked,
          if msg.mode == NoBody then -1 else length, flags,
          if flags.upgrade && flags.connUpgrade then true else msg.start.req.verb == CONNECT)
  }

  predicate Within(f: Flags, g: Flags) {
    (f.close ==> g.close) && (f.connUpgrade ==> g.connUpgrade) && (f.upgrade ==> g.upgrade)
  }

  lemma {:induction false} FlagsKept(f: Flags, hs: seq<Header>)
    ensures Within(f, AllFlags(f, hs))
    decreases |hs|
  {
    if hs != [] {
      FlagsKept(AddFlags(f, hs[0]), hs[1..]);
    }
  }

  lemma {:induction false} FlagsGrow(f: Flags, g: Flags, hs: seq<Header>)
    requires Within(f, g)
    ensures Within(AllFlags(f, hs), AllFlags(g, hs)) && Within(g, AllFlags(g, hs))
    ensures var all := AllFlags(g, hs);
            && all.close == (g.close || AllFlags(f, hs).close)
            && all.connUpgrade == (g.connUpgrade || AllFlags(f, hs).connUpgrade)
            && all.upgrade == (g.upgrade || AllFlags(f, hs).upgrade)
    decreases |hs|
  {
    if hs != [] {
      FlagsGrow(AddFlags(f, hs[0]), AddFlags(g, hs[0]), hs[1..]);
      FlagsKept(AddFlags(f, hs[0]), hs[1..]);
    }
  }

  /** Both paths leave the parser knowing the same about an accepted request, the length of a
      chunked body aside, exactly when the flags it had before are among the request's own. */
  lemma FastKnowsTheSame(buf: bytes, res: FastRequest, msg: Message, before: Flags)
    requires ParseMessage(HTTP, Request, buf) == Accepted(msg) && Agrees(buf, res, msg)
    ensures AppliedFast(res).(length := 0) == AppliedParsed(msg, before).(length := 0) <==> Within(before, res.flags)
    ensures msg.mode != ChunkedBody && Within(before, res.flags) ==> AppliedFast(res) == AppliedParsed(msg, before)
  {
    FlagsGrow(NO_FLAGS, before, msg.headers);
  }
}
