/** Concrete requests, and how the one-shot parser reads them. */
module Samples {
  import opened Bytes
  import opened Numerals
  import opened Grammar
  import opened Reference
  import opened Wire
  import opened Writing
  import opened ResponseText
  import opened LostRequest

  const REQUEST_META := Meta(Request, 0, false, 0, false)

  /** A request as a client may print it. */
  function RequestText(line: bytes, hs: seq<Header>, body: bytes): (m: bytes) {
    line + CRLF + (HeadersText(hs) + CRLF) + body
  }

  /** The position behind the empty line. */
  function BodyStart(line: bytes, hs: seq<Header>): (p: nat) {
    |line| + 4 + |HeadersText(hs)|
  }

  /** What is read of such a text. */
  ghost predicate Read(g: LineGrammar, line: bytes, hs: seq<Header>, body: bytes, meta: Meta, m: bytes) {
    && m == RequestText(line, hs, body) && |m| == BodyStart(line, hs) + |body| && At(m, BodyStart(line, hs), body)
    && CrlfFrom(m, 0) == Some(|line|) && m[0..|line|] == line && |line| + 2 <= |m|
    && ParseHeaders(g, REQUEST_META, m, |line| + 2) == HeadDone(meta, hs, BodyStart(line, hs))
  }

  lemma TextPlaces(line: bytes, hs: seq<Header>, body: bytes, m: bytes)
    requires m == RequestText(line, hs, body)
    ensures At(m, 0, line + CRLF) && At(m, |line| + 2, HeadersText(hs) + CRLF) && At(m, BodyStart(line, hs), body)
    ensures |m| == BodyStart(line, hs) + |body|
  {
    Places(line, HeadersText(hs) + CRLF, body, m);
  }

  lemma HeadRead(g: LineGrammar, line: bytes, hs: seq<Header>, body: bytes, meta: Meta, m: bytes)
    requires m == RequestText(line, hs, body) && CR !in line && LinesRead(g, hs) && ReadAll(hs) == hs
    requires Wire.Applied(REQUEST_META, hs) == Some(meta)
    ensures Read(g, line, hs, body, meta, m)
  {
    TextPlaces(line, hs, body, m);
    Wire.LineAt(m, 0, line);
    HeadersRead(g, REQUEST_META, hs, m, |line| + 2, BodyStart(line, hs));
  }

  lemma RequestRead(g: LineGrammar, line: bytes, l: RequestLine, hs: seq<Header>, body: bytes, meta: Meta, m: bytes, decoded: bytes)
    requires Read(g, line, hs, body, meta, m) && g.request(line) == Some(l)
    requires ParseBody(g, meta, m, BodyStart(line, hs)) == BodyDone(decoded, |m|)
    ensures ParseMessage(g, Request, m) == Accepted(Message(Req(l), hs, meta, BodyMode(meta), decoded))
  {
    MessageOf(g, Request, m, |line|, Req(l), meta, hs, BodyStart(line, hs), decoded);
  }

  lemma RequestPanics(g: LineGrammar, line: bytes, l: RequestLine, hs: seq<Header>, meta: Meta, m: bytes)
    requires Read(g, line, hs, [], meta, m) && g.request(line) == Some(l) && !meta.chunked && meta.hasLength && meta.length < 0
    ensures ParseMessage(g, Request, m) == Panics
  {
    assert m[..|line|] == m[0..|line|];
  }

  // -------------------------------------------------------------------------- headers

  /** A header line that is read back as it is. */
  ghost predicate Clean(h: Header) {
    PlainLine(h) && (h.value == [] || !IsSpace(h.value[0]))
  }

  lemma CleanRead(g: LineGrammar, h: Header, hs: seq<Header>)
    requires Clean(h) && g.header == ParseHeaderLine && LinesRead(g, hs) && ReadAll(hs) == hs
    ensures LinesRead(g, [h] + hs) && ReadAll([h] + hs) == [h] + hs
  {
    ReadSame(h);
    Wire.LineReads(h);
    assert ([h] + hs)[1..] == hs && LineText(h) != [];
  }

  lemma OneClean(g: LineGrammar, h: Header)
    requires Clean(h) && g.header == ParseHeaderLine
    ensures LinesRead(g, [h]) && ReadAll([h]) == [h]
  {
    CleanRead(g, h, []);
    EmptyAppend([h]);
  }

  lemma TwoClean(g: LineGrammar, h: Header, k: Header, hs: seq<Header>)
    requires Clean(h) && Clean(k) && g.header == ParseHeaderLine && hs == [h] + [k]
    ensures LinesRead(g, hs) && ReadAll(hs) == hs
  {
    OneClean(g, k);
    CleanRead(g, h, [k]);
  }

  lemma OneApplies(meta: Meta, h: Header)
    ensures Wire.Applied(meta, [h]) == ApplyHeader(meta, h)
  {
    assert [h][1..] == [];
  }

  lemma TwoApply(meta: Meta, h: Header, k: Header, hs: seq<Header>)
    requires ApplyHeader(meta, h) == Some(meta) && ApplyHeader(meta, k) == Some(meta) && hs == [h] + [k]
    ensures Wire.Applied(meta, hs) == Some(meta)
  {
    assert hs[1..] == [k];
    OneApplies(meta, k);
  }

  // ------------------------------------------------------------------- kinds of requests

  /** A request line that is read. */
  ghost predicate GoodLine(g: LineGrammar, line: bytes) {
    CR !in line && g.request(line).Some?
  }

  /** A request without a body. */
  lemma BodylessRead(g: LineGrammar, line: bytes, hs: seq<Header>, m: bytes)
    requires m == RequestText(line, hs, []) && GoodLine(g, line) && LinesRead(g, hs) && ReadAll(hs) == hs
    requires Wire.Applied(REQUEST_META, hs) == Some(REQUEST_META)
    ensures Read(g, line, hs, [], REQUEST_META, m)
    ensures ParseMessage(g, Request, m) == Accepted(Message(Req(g.request(line).value), hs, REQUEST_META, NoBody, []))
  {
    HeadRead(g, line, hs, [], REQUEST_META, m);
    RequestRead(g, line, g.request(line).value, hs, [], REQUEST_META, m, []);
  }

  lemma LengthHeader(n: nat)
    ensures Clean(Header(CONTENT_LENGTH, Print(10, n)))
    ensures ApplyHeader(REQUEST_META, Header(CONTENT_LENGTH, Print(10, n))) == Some(REQUEST_META.(hasLength := true, length := Int32(n)))
  {
    LengthName();
    PrintParses(10, n);
  }

  /** A request with a length, and the body of that length. */
  lemma SizedRead(g: LineGrammar, line: bytes, body: bytes, m: bytes)
    requires |body| < 0x8000_0000 && body != [] && GoodLine(g, line) && g.header == ParseHeaderLine
    requires m == RequestText(line, [Header(CONTENT_LENGTH, Print(10, |body|))], body)
    ensures var h, meta := Header(CONTENT_LENGTH, Print(10, |body|)), REQUEST_META.(hasLength := true, length := |body|);
            && Read(g, line, [h], body, meta, m)
            && ParseMessage(g, Request, m) == Accepted(Message(Req(g.request(line).value), [h], meta, LengthBody, body))
  {
    var h, meta := Header(CONTENT_LENGTH, Print(10, |body|)), REQUEST_META.(hasLength := true, length := |body|);
    LengthHeader(|body|);
    Int32Exact(|body|);
    OneClean(g, h);
    OneApplies(REQUEST_META, h);
    HeadRead(g, line, [h], body, meta, m);
    LengthBodyReads(g, meta, m, BodyStart(line, [h]), body);
    RequestRead(g, line, g.request(line).value, [h], body, meta, m, body);
  }

  /** A request whose length wraps to a negative number. */
  lemma WrappedRead(g: LineGrammar, line: bytes, n: nat, m: bytes)
    requires Int32(n) < 0 && GoodLine(g, line) && g.header == ParseHeaderLine && m == RequestText(line, [Header(CONTENT_LENGTH, Print(10, n))], [])
    ensures ParseMessage(g, Request, m) == Panics
  {
    var h, meta := Header(CONTENT_LENGTH, Print(10, n)), REQUEST_META.(hasLength := true, length := Int32(n));
    LengthHeader(n);
    OneClean(g, h);
    OneApplies(REQUEST_META, h);
    HeadRead(g, line, [h], [], meta, m);
    RequestPanics(g, line, g.request(line).value, [h], meta, m);
  }

  const CHUNKING := Header(TRANSFER_ENCODING, CHUNKED)

  lemma ChunkingHeader()
    ensures Clean(CHUNKING) && ApplyHeader(REQUEST_META, CHUNKING) == Some(REQUEST_META.(chunked := true))
  {
    PlainChunkedLine(CHUNKING);
    IsChunkedLine(CHUNKING);
    ApplyChunked(REQUEST_META, CHUNKING);
    ChunkedValue();
  }

  /** A chunked request, whatever its body. */
  lemma ChunkedRead(g: LineGrammar, line: bytes, h: Header, body: bytes, m: bytes)
    requires GoodLine(g, line) && g.header == ParseHeaderLine && m == RequestText(line, [h], body)
    requires Clean(h) && ApplyHeader(REQUEST_META, h) == Some(REQUEST_META.(chunked := true))
    ensures Read(g, line, [h], body, REQUEST_META.(chunked := true), m)
  {
    OneClean(g, h);
    OneApplies(REQUEST_META, h);
    HeadRead(g, line, [h], body, REQUEST_META.(chunked := true), m);
  }

  /** A zero chunk that is followed by two bytes that are no CRLF. */
  lemma ZeroLine(m: bytes, p: nat, x: byte, y: byte)
    requires At(m, p, [48] + CRLF + [x, y]) && x != CR
    ensures CrlfFrom(m, p) == Some(p + 1) && m[p..p + 1] == [48] && !CrlfAt(m, p + 3)
  {
    AtSplit(m, p, [48] + CRLF, [x, y]);
    Wire.LineAt(m, p, [48]);
    AtByte(m, p + 3, [x, y], 0);
  }

  // ---------------------------------------------------------------------- the GET line

  lemma GetLine()
    ensures GoodLine(HTTP, LINE) && |LINE| == 14 && HTTP.header == ParseHeaderLine && HTTP.size([48]) == Some(0)
  {
    LostRequest.LineReads();
    ZeroSize();
  }
}
