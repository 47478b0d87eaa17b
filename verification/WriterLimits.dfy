/** Exactly when the response round trip fails: bytes that Write holds back and others overtake, a Content-Length
    that is not the body's, and trailers. */
module WriterLimits {
  import opened Bytes
  import opened Numerals
  import opened Grammar
  import opened Reference
  import opened Cursors
  import opened Wire
  import opened Writing
  import opened WriterWire
  import opened ResponseText
  import opened WriterHeads
  import opened WriterRoundTrip

  // ------------------------------------------------------------------- chunk arithmetic

  /** A chunked body is longer than what it carries: four bytes for each chunk and for the last. */
  lemma {:induction false} ChunksOverhead(g: LineGrammar, buf: bytes, p: nat)
    requires p <= |buf| && ParseChunks(g, buf, p).Some?
    ensures var c := ParseChunks(g, buf, p).value; |Concat(c.parts)| + 4 * |c.parts| + 4 <= c.next - p
    decreases |buf| - p
  {
    match TakeChunk(g, buf, p).value
    case Last(_) =>
    case Data(data, next) =>
      ChunksOverhead(g, buf, next);
      var rest := ParseChunks(g, buf, next).value.parts;
      assert ([data] + rest)[1..] == rest;
  }

  lemma BehindTwo(part: bytes, parts: seq<bytes>, r: Option<Chunks>)
    ensures WithParts([part], WithParts(parts, r)) == WithParts([part] + parts, r)
  {
    if r.Some? {
      Assoc([part], parts, r.value.parts);
    }
  }

  lemma ChunkThen(g: LineGrammar, buf: bytes, p: nat, part: bytes, next: nat)
    requires p <= |buf| && TakeChunk(g, buf, p) == Some(Data(part, next))
    ensures ParseChunks(g, buf, p) == WithParts([part], ParseChunks(g, buf, next))
  {
  }

  lemma BehindNone(r: Option<Chunks>)
    ensures WithParts([], r) == r
  {
    if r.Some? {
      EmptyAppend(r.value.parts);
    }
  }

  /** What is behind the texts of some parts is decoded behind them. */
  lemma {:induction false} TextsThen(g: LineGrammar, f: bytes -> bytes, parts: seq<bytes>, buf: bytes, p: nat, q: nat)
    requires At(buf, p, Texts(f, parts)) && ReadsParts(g, f, buf, parts) && q == p + |Texts(f, parts)|
    ensures ParseChunks(g, buf, p) == WithParts(parts, ParseChunks(g, buf, q))
    decreases |parts|
  {
    if parts == [] {
      BehindNone(ParseChunks(g, buf, p));
    } else {
      AtSplit(buf, p, f(parts[0]), Texts(f, parts[1..]));
      TextsThen(g, f, parts[1..], buf, p + |f(parts[0])|, q);
      ChunkThen(g, buf, p, parts[0], p + |f(parts[0])|);
      BehindTwo(parts[0], parts[1..], ParseChunks(g, buf, q));
      assert [parts[0]] + parts[1..] == parts;
    }
  }

  lemma ChunksThen(parts: seq<bytes>, text: bytes, buf: bytes, p: nat, q: nat)
    requires Sendable(parts) && text == ChunksText(parts) && At(buf, p, text) && q == p + |text|
    ensures ParseChunks(HTTP, buf, p) == WithParts(parts, ParseChunks(HTTP, buf, q))
  {
    AllChunksRead(buf, parts);
    TextsThen(HTTP, ChunkText, parts, buf, p, q);
  }

  /** Raw bytes between the chunks and the last chunk: whatever is decoded is too short. */
  lemma RawBytesShow(g: LineGrammar, parts: seq<bytes>, n: nat, buf: bytes, p: nat, q: nat)
    requires p <= |buf| && q <= |buf| && 0 < n && |buf| == q + n + 5
    requires ParseChunks(g, buf, p) == WithParts(parts, ParseChunks(g, buf, q))
    ensures ParseChunks(g, buf, p).Some? ==> |Concat(ParseChunks(g, buf, p).value.parts)| < |Concat(parts)| + n
  {
    if ParseChunks(g, buf, q).Some? {
      ChunksOverhead(g, buf, q);
      ConcatAppend(parts, ParseChunks(g, buf, q).value.parts);
    }
  }

  // ------------------------------------------------------------- trailers behind the last chunk

  /** A chunked body ends with a zero size line, which starts the body or stands behind a CRLF. */
  lemma {:induction false} ZeroLine(g: LineGrammar, buf: bytes, p: nat) returns (z: nat)
    requires p <= |buf| && ParseChunks(g, buf, p).Some?
    ensures p <= z && (z == p || (p + 2 <= z && CrlfAt(buf, z - 2))) && z + 4 <= ParseChunks(g, buf, p).value.next
    ensures CrlfFrom(buf, z) == Some(ParseChunks(g, buf, p).value.next - 4)
    ensures g.size(buf[z..ParseChunks(g, buf, p).value.next - 4]) == Some(0)
    decreases |buf| - p
  {
    match TakeChunk(g, buf, p).value
    case Last(_) => z := p;
    case Data(_, next) => z := ZeroLine(g, buf, next);
  }

  /** A header line is not a chunk size. */
  lemma HeaderIsNoSize(x: Header)
    requires PlainLine(x) && SEMI !in x.name
    ensures ParseChunkSize(LineText(x)) == None
  {
    var t, n := LineText(x), |x.name|;
    assert t[n] == COLON && forall i | 0 <= i < n :: t[i] == x.name[i];
    var s := BeforeSemi(t);
    assert n < |s| && s[n] == COLON;
  }

  /** The place of the last line of a text that ends with CRLF, the line, CRLF and CRLF. */
  lemma LastLineStart(buf: bytes, p: nat, z: nat, t: bytes, b: nat)
    requires CR !in t && At(buf, b, CRLF + t + CRLF + CRLF) && b + |t| + 6 == |buf|
    requires p <= b && p <= z && (z == p || (p + 2 <= z && CrlfAt(buf, z - 2))) && z + 4 <= |buf|
    requires CrlfFrom(buf, z) == Some(|buf| - 4)
    ensures z == b + 2 && buf[z..|buf| - 4] == t
  {
    AtThree(buf, b, CRLF + t, CRLF, CRLF);
    AtSplit(buf, b, CRLF, t);
    CrlfHere(buf, b);
    CrlfFound(buf, z);
    AtSlice(buf, b + 2, t);
    assert z > b;
    forall j | b + 2 <= j < b + 2 + |t| ensures buf[j] != CR { AtByte(buf, b + 2, t, j - b - 2); }
  }

  /** No chunked body ends in a line that is not a size. */
  lemma NoBodyEndsIn(g: LineGrammar, buf: bytes, p: nat, b: nat, t: bytes)
    requires g.size(t).None? && CR !in t && p <= b && b + |t| + 6 == |buf| && At(buf, b, CRLF + t + CRLF + CRLF)
    ensures ParseChunks(g, buf, p).Some? ==> ParseChunks(g, buf, p).value.next != |buf|
  {
    if ParseChunks(g, buf, p).Some? && ParseChunks(g, buf, p).value.next == |buf| {
      var z := ZeroLine(g, buf, p);
      LastLineStart(buf, p, z, t, b);
    }
  }

  lemma LineIsNoSize(x: Header)
    requires PlainLine(x) && SEMI !in x.name
    ensures HTTP.size(LineText(x)).None? && CR !in LineText(x)
  {
    LineReads(x);
    HeaderIsNoSize(x);
  }

  // ---------------------------------------------------------------- what the reader sees

  /** The head of a chunked response is read back, whatever follows it. */
  lemma ChunkedHeadOnly(g: LineGrammar, line: bytes, start: StartLine, hs: seq<Header>, meta: Meta, wire: bytes, p: nat)
    requires ReadsBack(g, line, start, hs, meta) && At(wire, 0, line + CRLF) && At(wire, |line| + 2, HeadersText(hs) + CRLF)
    requires p == |line| + 4 + |HeadersText(hs)| <= |wire| && meta.chunked
    ensures var r := ParseMessage(g, Response, wire);
            r.Accepted? ==> ParseChunks(g, wire, p).Some? && r.msg.body == Concat(ParseChunks(g, wire, p).value.parts)
  {
    LineAt(wire, 0, line);
    assert wire[..|line|] == wire[0..|line|];
    HeadersRead(g, StartMeta(start), hs, wire, |line| + 2, p);
  }

  lemma FourPlaces(line: bytes, hs: seq<Header>, chunks: bytes, raw: bytes, last: bytes, wire: bytes, p: nat)
    requires wire == line + CRLF + (HeadersText(hs) + CRLF) + chunks + raw + last && p == |line| + 4 + |HeadersText(hs)|
    ensures At(wire, 0, line + CRLF) && At(wire, |line| + 2, HeadersText(hs) + CRLF) && At(wire, p, chunks)
    ensures |wire| == p + |chunks| + |raw| + |last|
  {
    Assoc(line + CRLF + (HeadersText(hs) + CRLF) + chunks, raw, last);
    Assoc(line + CRLF + (HeadersText(hs) + CRLF), chunks, raw + last);
    Places(line, HeadersText(hs) + CRLF, chunks + (raw + last), wire);
    AtSplit(wire, p, chunks, raw + last);
  }

  /** What is accepted is shorter than what was written. */
  lemma ShortBody(g: LineGrammar, wire: bytes, p: nat, parts: seq<bytes>, n: nat)
    requires p <= |wire|
    requires var r := ParseMessage(g, Response, wire);
             r.Accepted? ==> ParseChunks(g, wire, p).Some? && r.msg.body == Concat(ParseChunks(g, wire, p).value.parts)
    requires ParseChunks(g, wire, p).Some? ==> |Concat(ParseChunks(g, wire, p).value.parts)| < |Concat(parts)| + n
    ensures var r := ParseMessage(g, Response, wire); r.Accepted? ==> |r.msg.body| < |Concat(parts)| + n
  {
  }

  lemma OvertakenAt(code: nat, reason: bytes, hs: seq<Header>, parts: seq<bytes>, text: bytes, n: nat, line: bytes, wire: bytes, p: nat, q: nat)
    requires GoodHead(code, reason, hs, StreamedMeta(code)) && line == StatusLine(code, reason)
    requires At(wire, 0, line + CRLF) && At(wire, |line| + 2, HeadersText(hs) + CRLF) && p == |line| + 4 + |HeadersText(hs)|
    requires Sendable(parts) && text == ChunksText(parts) && At(wire, p, text) && 0 < n && q == p + |text| && |wire| == q + n + 5
    ensures var r := ParseMessage(HTTP, Response, wire); r.Accepted? ==> |r.msg.body| < |Concat(parts)| + n
  {
    var meta := StreamedMeta(code);
    GoodHeadReads(code, reason, hs, meta);
    ChunkedHeadOnly(HTTP, line, Rsp(ResponseLine(Version(1, 1), code, reason)), hs, meta, wire, p);
    ChunksThen(parts, text, wire, p, q);
    RawBytesShow(HTTP, parts, n, wire, p, q);
    ShortBody(HTTP, wire, p, parts, n);
  }

  /** Bytes left between the chunks and the last chunk: what is accepted is shorter than what was written. */
  lemma LeftoverShows(code: nat, reason: bytes, hs: seq<Header>, parts: seq<bytes>, left: bytes, wire: bytes)
    requires GoodHead(code, reason, hs, StreamedMeta(code)) && Sendable(parts) && left != []
    requires wire == HeadText(code, reason, hs) + ChunksText(parts) + left + LAST_CHUNK
    ensures var r := ParseMessage(HTTP, Response, wire); r.Accepted? ==> |r.msg.body| < |Concat(parts)| + |left|
  {
    var line := StatusLine(code, reason);
    var p := |line| + 4 + |HeadersText(hs)|;
    FourPlaces(line, hs, ChunksText(parts), left, LAST_CHUNK, wire, p);
    OvertakenAt(code, reason, hs, parts, ChunksText(parts), |left|, line, wire, p, p + |ChunksText(parts)|);
  }

  // ------------------------------------------------------------------ trailers in a chunked body

  lemma {:induction false} ListedNames(env: Env, h: Headers, ks: seq<bytes>)
    requires Sane(env) && forall i | 0 <= i < |ks| :: PlainName(ks[i]) && SEMI !in ks[i]
    ensures forall i | 0 <= i < |ListKeys(env, h, ks)| :: PlainLine(ListKeys(env, h, ks)[i]) && SEMI !in ListKeys(env, h, ks)[i].name
  {
    if ks != [] {
      LinesOfPlain(env, ks[0], if ks[0] in h then h[ks[0]] else []);
      ListedNames(env, h, ks[1..]);
    }
  }

  lemma LastListed(env: Env, h: Headers) returns (hs: seq<Header>, x: Header)
    requires Sane(env) && Listed(env, h) != []
    ensures Listed(env, h) == hs + [x] && PlainLine(x) && SEMI !in x.name
  {
    var all := Listed(env, h);
    forall i | 0 <= i < |env.order(h)| ensures PlainName(env.order(h)[i]) && SEMI !in env.order(h)[i] {
      assert env.order(h)[i] in env.order(h);
    }
    ListedNames(env, h, env.order(h));
    hs, x := all[..|all| - 1], all[|all| - 1];
  }

  /** A text that ends with CRLF. */
  ghost predicate Crlfs(t: bytes) {
    2 <= |t| && t[|t| - 2..] == CRLF
  }

  lemma {:induction false} LinesCrlf(a: bytes, hs: seq<Header>)
    requires Crlfs(a)
    ensures Crlfs(a + HeadersText(hs))
    decreases |hs|
  {
    if hs == [] {
      EmptyAppend(a);
    } else {
      LinesCrlf(a + (LineText(hs[0]) + CRLF), hs[1..]);
      Assoc(a, LineText(hs[0]) + CRLF, HeadersText(hs[1..]));
    }
  }

  lemma TrailerPlace(pre: bytes, hs: seq<Header>, x: Header, wire: bytes, b: nat)
    requires wire == pre + ([48] + CRLF + HeadersText(hs + [x]) + CRLF) && b + |LineText(x)| + 6 == |wire|
    ensures |pre| <= b && At(wire, b, CRLF + LineText(x) + CRLF + CRLF)
  {
    var t := LineText(x);
    var a := [48] + CRLF;
    LinesCrlf(a, hs);
    var c := a + HeadersText(hs);
    OneMore(a, hs, x);
    assert wire == pre + c + (t + CRLF) + CRLF by {
      Assoc(pre, a + HeadersText(hs + [x]), CRLF);
      Assoc(pre, c, t + CRLF);
    }
    assert forall i | 0 <= i < 2 :: c[|c| - 2..][i] == CRLF[i];
  }

  /** A chunked response that ends in trailers is not accepted, whatever is between. */
  lemma TrailersNotAccepted(code: nat, reason: bytes, hs: seq<Header>, meta: Meta, mid: bytes, ts: seq<Header>, x: Header, wire: bytes)
    requires GoodHead(code, reason, hs, meta) && meta.chunked && PlainLine(x) && SEMI !in x.name
    requires wire == HeadText(code, reason, hs) + mid + ([48] + CRLF + HeadersText(ts + [x]) + CRLF)
    ensures !ParseMessage(HTTP, Response, wire).Accepted?
  {
    var line, tail := StatusLine(code, reason), [48] + CRLF + HeadersText(ts + [x]) + CRLF;
    var p := |line| + 4 + |HeadersText(hs)|;
    Assoc(HeadText(code, reason, hs), mid, tail);
    PlacedBy(line, hs, mid + tail, wire);
    OneMore([48] + CRLF, ts, x);
    var b := |wire| - |LineText(x)| - 6;
    TrailerPlace(HeadText(code, reason, hs) + mid, ts, x, wire, b);
    LineIsNoSize(x);
    NoBodyEndsIn(HTTP, wire, p, b, LineText(x));
    GoodHeadReads(code, reason, hs, meta);
    ChunkedHeadNext(HTTP, line, Rsp(ResponseLine(Version(1, 1), code, reason)), hs, meta, wire, p);
  }

  lemma ChunkedHeadNext(g: LineGrammar, line: bytes, start: StartLine, hs: seq<Header>, meta: Meta, wire: bytes, p: nat)
    requires ReadsBack(g, line, start, hs, meta) && At(wire, 0, line + CRLF) && At(wire, |line| + 2, HeadersText(hs) + CRLF)
    requires p == |line| + 4 + |HeadersText(hs)| <= |wire| && meta.chunked
    ensures ParseMessage(g, Response, wire).Accepted? ==> ParseChunks(g, wire, p).Some? && ParseChunks(g, wire, p).value.next == |wire|
  {
    LineAt(wire, 0, line);
    assert wire[..|line|] == wire[0..|line|];
    HeadersRead(g, StartMeta(start), hs, wire, |line| + 2, p);
  }

  lemma HasMember(ks: seq<bytes>)
    ensures ks == [] || exists k :: k in ks
  {
    if ks != [] {
      assert ks[0] in ks;
    }
  }

  lemma NothingListed(env: Env)
    requires Sane(env)
    ensures Listed(env, map[]) == []
  {
    HasMember(env.order(map[]));
  }

  // -------------------------------------------------------------- trailers when the head goes out

  lemma TrailerLine(x: Header)
    requires x.name == TRANSFER_ENCODING && x.value == CHUNKED_TRAILERS
    ensures PlainLine(x) && Read(x) == x && !IsLength(x) && !IsChunked(x)
  {
    EncodingName();
    TrailerValue(x.value);
    ReadSame(x);
  }

  lemma TrailerValue(v: bytes)
    requires v == CHUNKED_TRAILERS
    ensures Plain(v) && v != [] && !IsSpace(v[0]) && |v| == 17
  {
  }

  /** Lines and one more line the parser does not know. */
  lemma UnknownLast(meta: Meta, meta': Meta, a: seq<Header>, x: Header)
    requires PlainLines(a) && Applied(meta, ReadAll(a)) == Some(meta') && PlainLine(x) && Read(x) == x && !IsLength(x) && !IsChunked(x)
    ensures PlainLines(a + [x]) && Applied(meta, ReadAll(a + [x])) == Some(meta')
  {
    OneApplied(meta', x, meta');
    AppliedInTwo(meta, meta', a, [x]);
  }

  /** A message whose framing ends before the wire does is not accepted. */
  lemma TooLong(g: LineGrammar, line: bytes, start: StartLine, hs: seq<Header>, meta: Meta, wire: bytes, p: nat, n: nat)
    requires ReadsBack(g, line, start, hs, meta) && At(wire, 0, line + CRLF) && At(wire, |line| + 2, HeadersText(hs) + CRLF)
    requires p == |line| + 4 + |HeadersText(hs)| && p + n < |wire| && !meta.chunked
    requires if meta.hasLength then meta.length == n else n == 0
    ensures !ParseMessage(g, Response, wire).Accepted?
  {
    LineAt(wire, 0, line);
    assert wire[..|line|] == wire[0..|line|];
    HeadersRead(g, StartMeta(start), hs, wire, |line| + 2, p);
  }

  lemma TooLongResponse(code: nat, reason: bytes, hs: seq<Header>, meta: Meta, n: nat, text: bytes, wire: bytes)
    requires GoodHead(code, reason, hs, meta) && !meta.chunked && (if meta.hasLength then meta.length == n else n == 0)
    requires n < |text| && wire == HeadText(code, reason, hs) + text
    ensures !ParseMessage(HTTP, Response, wire).Accepted?
  {
    var line := StatusLine(code, reason);
    GoodHeadReads(code, reason, hs, meta);
    PlacedBy(line, hs, text, wire);
    TooLong(HTTP, line, Rsp(ResponseLine(Version(1, 1), code, reason)), hs, meta, wire, |line| + 4 + |HeadersText(hs)|, n);
  }

  /** A message with a length, and some text behind its head. */
  lemma SizedText(g: LineGrammar, line: bytes, start: StartLine, hs: seq<Header>, meta: Meta, wire: bytes, p: nat, text: bytes)
    requires ReadsBack(g, line, start, hs, meta) && Placed(wire, line, hs, text, p) && meta.hasLength && !meta.chunked && 0 <= meta.length
    ensures var r := ParseMessage(g, Response, wire); r.Accepted? ==> meta.length == |text| && r.msg.body == text
  {
    LineAt(wire, 0, line);
    assert wire[..|line|] == wire[0..|line|];
    HeadersRead(g, StartMeta(start), hs, wire, |line| + 2, p);
    AtSlice(wire, p, text);
  }

  lemma SizedTextResponse(code: nat, reason: bytes, hs: seq<Header>, n: nat, text: bytes, wire: bytes)
    requires GoodHead(code, reason, hs, SizedMeta(code, n)) && wire == HeadText(code, reason, hs) + text
    ensures var r := ParseMessage(HTTP, Response, wire); r.Accepted? ==> n == |text| && r.msg.body == text
  {
    var line := StatusLine(code, reason);
    GoodHeadReads(code, reason, hs, SizedMeta(code, n));
    PlacedBy(line, hs, text, wire);
    SizedText(HTTP, line, Rsp(ResponseLine(Version(1, 1), code, reason)), hs, SizedMeta(code, n), wire, |line| + 4 + |HeadersText(hs)|, text);
  }

  // -------------------------------------------------------------- trailers when the head goes out

  /** A line that the parser reads and does not know. */
  ghost predicate Unknown(x: Header) {
    PlainLine(x) && Read(x) == x && !IsLength(x) && !IsChunked(x)
  }

  lemma TrailerCoding(h: Heading, x: Header)
    requires TRANSFER_ENCODING !in h.header && h.trailer != map[] && x.name == TRANSFER_ENCODING && x.value == CHUNKED_TRAILERS
    ensures CodingLine(h) == [x]
  {
  }

  lemma LinesWith(env: Env, h: Heading, x: Header)
    requires CodingLine(h) == [x] && h.trailer != map[]
    ensures SentLines(env, h) == OwnDate(env, h.header) + Listed(env, h.header) + [x]
  {
  }

  lemma UnknownTrailer(x: Header)
    requires x.name == TRANSFER_ENCODING && x.value == CHUNKED_TRAILERS
    ensures Unknown(x)
  {
    TrailerLine(x);
  }

  /** The lines of a head with trailers: the last one says nothing the parser takes as framing. */
  lemma TrailedLines(env: Env, h: Heading) returns (x: Header)
    requires Decent(h.header) && h.trailer != map[]
    ensures Unknown(x) && SentLines(env, h) == OwnDate(env, h.header) + Listed(env, h.header) + [x]
  {
    x := Header(TRANSFER_ENCODING, CHUNKED_TRAILERS);
    UnknownTrailer(x);
    DecentHasNoEncoding(h.header);
    TrailerCoding(h, x);
    LinesWith(env, h, x);
  }

  lemma UnknownAdded(code: nat, text: bytes, a: seq<Header>, x: Header, meta: Meta)
    requires GoodHead(code, text, a, meta) && Unknown(x)
    ensures GoodHead(code, text, a + [x], meta)
  {
    UnknownLast(NO_META.(status := code), meta, a, x);
  }

  lemma FreeHead(env: Env, h: Headers, code: nat)
    requires Sane(env) && FreeHeaders(h) && 100 <= code <= 999
    ensures GoodHead(code, StatusText(env, code), OwnDate(env, h) + Listed(env, h), NO_META.(status := code))
  {
    FreeHeadLines(env, h);
    FreeLinesApply(NO_META.(status := code), OwnDate(env, h) + Listed(env, h));
    StatusTextPlain(env, code);
  }

  /** The head a writer with trailers sends says nothing the parser takes as framing. */
  lemma TrailerHead(env: Env, h: Heading)
    requires Sane(env) && FreeHeaders(h.header) && h.trailer != map[] && 100 <= h.code <= 999
    ensures GoodHead(h.code, StatusText(env, h.code), SentLines(env, h), NO_META.(status := h.code))
  {
    var x := TrailedLines(env, h);
    FreeHead(env, h.header, h.code);
    UnknownAdded(h.code, StatusText(env, h.code), OwnDate(env, h.header) + Listed(env, h.header), x, NO_META.(status := h.code));
  }

  /** With a length in the head as well, the length is all the parser takes. */
  lemma SizedTrailerHead(env: Env, h: Heading, n: nat)
    requires Sane(env) && SizedHeaders(h.header, n) && h.trailer != map[] && 100 <= h.code <= 999
    ensures GoodHead(h.code, StatusText(env, h.code), SentLines(env, h), SizedMeta(h.code, n))
  {
    var x := TrailedLines(env, h);
    SizedLines(env, h.header, h.code, n);
    UnknownAdded(h.code, StatusText(env, h.code), OwnDate(env, h.header) + Listed(env, h.header), x, SizedMeta(h.code, n));
  }

  lemma {:induction false} ChunksAreLonger(parts: seq<bytes>)
    ensures |Concat(parts)| <= |ChunksText(parts)|
  {
    if parts != [] {
      ChunksAreLonger(parts[1..]);
    }
  }

  lemma EndIsSomething(env: Env, trailer: Headers)
    ensures 5 <= |EndText(env, true, trailer)|
  {
  }

  /** What follows a head with trailers is longer than the body. */
  lemma TrailedWire(env: Env, ops: seq<Op>, h: Heading) returns (rest: bytes)
    requires Sane(env) && h == HeadOf(env, ops) && h.trailer != map[]
    ensures WireOf(env, ops) == HeadText(h.code, StatusText(env, h.code), SentLines(env, h)) + rest && |rest| > |GivenBy(ops)|
  {
    var head, chunks, left, end := HeadBytes(env, h), ChunksText(Parts(env, ops)), Leftover(env, ops), EndText(env, true, TrailerOf(ops));
    HeadIs(env, h);
    rest := chunks + left + end;
    Assoc(head, chunks, left);
    Assoc(head, chunks + left, end);
    EndIsSomething(env, TrailerOf(ops));
    ChunksAreLonger(Parts(env, ops));
    BodySplit(ops);
    Carries(env, ops);
  }

  lemma TrailersShow(env: Env, ops: seq<Op>, h: Heading)
    requires Sane(env) && AllInRange(ops) && h == HeadOf(env, ops) && h.trailer != map[]
    ensures var r := ParseMessage(HTTP, Response, WireOf(env, ops)); r.Accepted? ==> r.msg.body != GivenBy(ops)
  {
    var wire := WireOf(env, ops);
    var rest := TrailedWire(env, ops, h);
    HeadingIs(env, ops);
    if Streamed(ops) {
      SeenDecent(env, ops);
      TrailerHead(env, h);
      TooLongResponse(h.code, StatusText(env, h.code), SentLines(env, h), NO_META.(status := h.code), 0, rest, wire);
    } else {
      var n := Sizes(env, ops);
      SizedTrailerHead(env, h, n);
      SizedTextResponse(h.code, StatusText(env, h.code), SentLines(env, h), n, rest, wire);
    }
  }

  /** A head that is not of a streamed response has a length. */
  lemma Sizes(env: Env, ops: seq<Op>) returns (n: nat)
    requires Sane(env) && AllInRange(ops) && !Streamed(ops)
    ensures SizedHeaders(HeadOf(env, ops).header, n)
  {
    if CONTENT_LENGTH in HandlersMap(ops) {
      n := SizedByHandler(env, ops);
    } else {
      n := |FirstWrite(ops)|;
      SizedAtEnd(env, ops);
    }
  }

  // ------------------------------------------------------------------ the exact condition

  lemma LengthShows(env: Env, ops: seq<Op>, h: Heading)
    requires Sane(env) && AllInRange(ops) && CONTENT_LENGTH in HandlersMap(ops) && h == HeadOf(env, ops) && h.trailer == map[]
    requires var r := ParseMessage(HTTP, Response, WireOf(env, ops)); r.Accepted? && r.msg.body == GivenBy(ops)
    ensures Suits(env, ops)
  {
    var n := SizedByHandler(env, ops);
    HeadingIs(env, ops);
    SizedWire(env, ops, h, n);
    var body := Concat(Parts(env, ops)) + Leftover(env, ops);
    SizedTextResponse(h.code, StatusText(env, h.code), SentLines(env, h), n, body, WireOf(env, ops));
    FirstGoesLast(env, ops);
    BodySplit(ops);
  }

  lemma EndTrailersShow(env: Env, ops: seq<Op>, h: Heading)
    requires Sane(env) && AllInRange(ops) && Streamed(ops) && h == HeadOf(env, ops) && h.trailer == map[]
    requires Listed(env, TrailerOf(ops)) != []
    ensures !ParseMessage(HTTP, Response, WireOf(env, ops)).Accepted?
  {
    var ts, x := LastListed(env, TrailerOf(ops));
    assert TrailerOf(ops) != map[] by { NothingListed(env); }
    StreamedWire(env, ops, h);
    var head, chunks := HeadText(h.code, StatusText(env, h.code), SentLines(env, h)), ChunksText(Parts(env, ops));
    Assoc(head, chunks, Leftover(env, ops));
    TrailersNotAccepted(h.code, StatusText(env, h.code), SentLines(env, h), StreamedMeta(h.code), chunks + Leftover(env, ops), ts, x,
                        WireOf(env, ops));
  }

  lemma HeldBackShows(env: Env, ops: seq<Op>, h: Heading)
    requires Sane(env) && AllInRange(ops) && Streamed(ops) && h == HeadOf(env, ops) && h.trailer == map[]
    requires Listed(env, TrailerOf(ops)) == [] && Leftover(env, ops) != []
    ensures var r := ParseMessage(HTTP, Response, WireOf(env, ops)); r.Accepted? ==> |r.msg.body| < |GivenBy(ops)|
  {
    StreamedWire(env, ops, h);
    EndIsLast(env, TrailerOf(ops));
    PartsSendable(env, ops);
    BodySplit(ops);
    Carries(env, ops);
    LeftoverShows(h.code, StatusText(env, h.code), SentLines(env, h), Parts(env, ops), Leftover(env, ops), WireOf(env, ops));
  }

  /** What is read with the right body was suitable. */
  lemma ReadWasSuitable(env: Env, ops: seq<Op>)
    requires Sane(env) && AllInRange(ops)
    requires var r := ParseMessage(HTTP, Response, WireOf(env, ops)); r.Accepted? && r.msg.body == GivenBy(ops)
    ensures Suits(env, ops)
  {
    var h := HeadOf(env, ops);
    HeadingIs(env, ops);
    if h.trailer != map[] {
      TrailersShow(env, ops, h);
    } else if CONTENT_LENGTH in HandlersMap(ops) {
      LengthShows(env, ops, h);
    } else if HeadAt(ops) < |ops| {
      StreamWasSuitable(env, ops, h);
    }
  }

  lemma StreamWasSuitable(env: Env, ops: seq<Op>, h: Heading)
    requires Sane(env) && AllInRange(ops) && Streamed(ops) && h == HeadOf(env, ops) && h.trailer == map[]
    requires var r := ParseMessage(HTTP, Response, WireOf(env, ops)); r.Accepted? && r.msg.body == GivenBy(ops)
    ensures Suits(env, ops)
  {
    HeadingIs(env, ops);
    FirstGoesFirst(env, ops);
    if Listed(env, TrailerOf(ops)) != [] {
      EndTrailersShow(env, ops, h);
    } else if Leftover(env, ops) != [] {
      HeldBackShows(env, ops, h);
    }
  }

  /** The exact condition: a response is read back, with its status, headers and body, if and only if the operations
      suit; and if they do not, not even the body is. */
  lemma RoundTripsExactly(env: Env, ops: seq<Op>)
    requires Sane(env) && AllInRange(ops)
    ensures var r := ParseMessage(HTTP, Response, DoEnd(env, DoAll(env, NEW, ops)).out);
            (ReadBack(env, ops, r) <==> Suits(env, ops)) && (r.Accepted? && r.msg.body == GivenBy(ops) ==> Suits(env, ops))
  {
    WireIs(env, ops);
    var r := ParseMessage(HTTP, Response, WireOf(env, ops));
    if Suits(env, ops) {
      ResponseRoundTrip(env, ops);
    }
    if r.Accepted? && r.msg.body == GivenBy(ops) {
      ReadWasSuitable(env, ops);
    }
  }

  // ------------------------------------------------------------------- headers cut short

  lemma {:induction false} TypeAmong(env: Env, h: Headers, ks: seq<bytes>)
    requires NoDup(ks) && forall i | 0 <= i < |ks| :: ks[i] == CONTENT_LENGTH || ks[i] == CONTENT_TYPE
    ensures Only(ListKeys(env, h, ks), Handlers) ==
            if CONTENT_TYPE in ks && CONTENT_TYPE in h then LinesOf(env, CONTENT_TYPE, h[CONTENT_TYPE]) else []
  {
    if ks != [] {
      var vs := if ks[0] in h then h[ks[0]] else [];
      var rest := ListKeys(env, h, ks[1..]);
      TypeAmong(env, h, ks[1..]);
      NamesDiffer();
      OnlyAppend(LinesOf(env, ks[0], vs), rest, Handlers);
      OnlyOfKey(env, ks[0], vs, Handlers);
      EmptyAppend(Only(rest, Handlers));
      EmptyAppend(LinesOf(env, ks[0], vs));
      assert CONTENT_TYPE in ks <==> ks[0] == CONTENT_TYPE || CONTENT_TYPE in ks[1..];
      if ks[0] == CONTENT_TYPE {
        assert CONTENT_TYPE !in ks[1..];
      }
    }
  }

  /** The header map lists the content types of a short head. */
  lemma ShortLists(env: Env, h: Heading, seen: Headers, n: nat)
    requires Sane(env) && Short(h) && (h.header == seen || h.header == WithLength(seen, n))
    ensures Only(Listed(env, seen), Handlers) == if CONTENT_TYPE in seen then LinesOf(env, CONTENT_TYPE, seen[CONTENT_TYPE]) else []
    ensures CONTENT_TYPE in seen <==> Has(seen, CONTENT_TYPE)
  {
    NamesDiffer();
    var ks := env.order(seen);
    forall i | 0 <= i < |ks| ensures ks[i] == CONTENT_LENGTH || ks[i] == CONTENT_TYPE {
      assert ks[i] in env.order(seen);
      assert ks[i] in h.header;
    }
    TypeAmong(env, seen, ks);
  }

  lemma {:induction false} ReadAllLength(hs: seq<Header>)
    ensures |ReadAll(hs)| == |hs|
  {
    if hs != [] {
      ReadAllLength(hs[1..]);
    }
  }

  /** Cleaning the value changes nothing that is read. */
  ghost predicate ReadsClean(env: Env, h: Header) {
    Read(Header(h.name, env.clean(h.value))) == Read(h)
  }

  /** The handler's headers are all sent, as the header map lists them, if and only if the head is not short, or has
      at most one content type, and that one is sent as it would be listed. */
  lemma HeadersKeptExactly(env: Env, ops: seq<Op>)
    requires Sane(env) && AllInRange(ops)
    ensures var seen := SeenMap(env, ops);
            ReadAll(HandlersLines(env, ops)) == ReadAll(Only(Listed(env, seen), Handlers)) <==>
            || !Short(HeadOf(env, ops)) || CONTENT_TYPE !in seen
            || (|seen[CONTENT_TYPE]| == 1 && ReadsClean(env, Header(CONTENT_TYPE, seen[CONTENT_TYPE][0])))
  {
    var h, seen := HeadOf(env, ops), SeenMap(env, ops);
    HeadingIs(env, ops);
    if Short(h) {
      ShortLists(env, h, seen, |FirstWrite(ops)|);
      if CONTENT_TYPE in seen {
        var x, lines := Header(CONTENT_TYPE, seen[CONTENT_TYPE][0]), LinesOf(env, CONTENT_TYPE, seen[CONTENT_TYPE]);
        LinesNamed(env, CONTENT_TYPE, seen[CONTENT_TYPE]);
        ReadAllLength(lines);
        ReadAllLength([x]);
        assert ReadAll([x])[0] == Read(x) && ReadAll(lines)[0] == Read(lines[0]);
        assert |lines| == 1 ==> lines == [lines[0]] && ReadAll(lines) == [Read(lines[0])];
      }
    }
  }

  // ---------------------------------------------------------------- trailers, for who reads them

  /** A streamed response with trailers set behind its head: where the chunks end, a zero line stands, and from there
      the header parser reads the trailers as listed, to the end. */
  lemma TrailersFollow(env: Env, ops: seq<Op>, p: nat)
    requires Sane(env) && AllInRange(ops) && Streamed(ops) && TrailerOf(ops[..HeadAt(ops)]) == map[]
    requires FreeHeaders(TrailerOf(ops)) && TrailerOf(ops) != map[]
    requires p + |HeadersText(Listed(env, TrailerOf(ops)))| + 2 == |WireOf(env, ops)|
    ensures var h, wire := HeadOf(env, ops), WireOf(env, ops);
            && wire[..p] == HeadText(h.code, StatusText(env, h.code), SentLines(env, h))
                            + ChunksText(Parts(env, ops)) + Leftover(env, ops) + ([48] + CRLF)
            && ParseHeaders(HTTP, NO_META, wire, p) == HeadDone(NO_META, ReadAll(Listed(env, TrailerOf(ops))), |wire|)
  {
    var h, wire, list := HeadOf(env, ops), WireOf(env, ops), Listed(env, TrailerOf(ops));
    HeadingIs(env, ops);
    StreamedWire(env, ops, h);
    var before := HeadText(h.code, StatusText(env, h.code), SentLines(env, h)) + ChunksText(Parts(env, ops)) + Leftover(env, ops);
    TrailerText(before, HeadersText(list), wire, p);
    FreeOrder(env, TrailerOf(ops));
    ListedFree(env, TrailerOf(ops), env.order(TrailerOf(ops)));
    FreeLinesApply(NO_META, list);
    PlainLinesRead(list);
    HeadersRead(HTTP, NO_META, list, wire, p, |wire|);
  }

  lemma TrailerText(before: bytes, text: bytes, wire: bytes, p: nat)
    requires wire == before + ([48] + CRLF + text + CRLF) && p + |text| + 2 == |wire|
    ensures wire[..p] == before + ([48] + CRLF) && At(wire, p, text + CRLF)
  {
    Assoc([48] + CRLF, text, CRLF);
    Assoc(before, [48] + CRLF, text + CRLF);
  }
}
