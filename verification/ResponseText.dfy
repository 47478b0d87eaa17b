/** Responses as the writer prints them, and how the repository's own parser reads them. */
module ResponseText {
  import opened Bytes
  import opened Numerals
  import opened Grammar
  import opened Reference
  import opened Wire
  import opened Writing
  import opened WriterWire

  /** What is assumed of the library code behind `Env`. */
  ghost predicate Sane(env: Env) {
    && (forall h: Headers, k: bytes {:trigger k in env.order(h)} :: k in env.order(h) ==> k in h && PlainName(k) && SEMI !in k)
    && (forall h: Headers :: NoDup(env.order(h)) && (CONTENT_LENGTH in h ==> CONTENT_LENGTH in env.order(h)))
    && (forall h: Headers :: CONTENT_TYPE in h ==> CONTENT_TYPE in env.order(h))
    && (forall h: Headers, v: seq<bytes> :: LengthMovesNothing(env, h, v))
    && (forall v: bytes :: Plain(env.clean(v)))
    && (forall n: nat :: env.clean(Print(10, n)) == Print(10, n))
    && (forall c: int :: Plain(env.statusText(c))) && env.statusText(200) == OK
    && Plain(env.date)
    && (forall p: bytes :: Plain(env.sniff(p))) && Sniffs(env)
  }

  /** With a Content-Length besides, the other keys are listed as before. */
  ghost predicate LengthMovesNothing(env: Env, h: Headers, v: seq<bytes>) {
    CONTENT_LENGTH !in h ==> Minus(env.order(h[CONTENT_LENGTH := v])) == env.order(h)
  }

  /** The keys without Content-Length. */
  function Minus(ks: seq<bytes>): (r: seq<bytes>) {
    if ks == [] then [] else (if ks[0] == CONTENT_LENGTH then [] else [ks[0]]) + Minus(ks[1..])
  }

  ghost predicate NoDup(ks: seq<bytes>) {
    forall i, j | 0 <= i < j < |ks| :: ks[i] != ks[j]
  }

  /** A header name that does not decide the framing. */
  predicate Free(k: bytes) {
    !EqualFold(k, "content-length") && !EqualFold(k, "transfer-encoding")
  }

  lemma LengthName()
    ensures EqualFold(CONTENT_LENGTH, "content-length") && PlainName(CONTENT_LENGTH)
  {
  }

  lemma EncodingName()
    ensures EqualFold(TRANSFER_ENCODING, "transfer-encoding") && PlainName(TRANSFER_ENCODING)
  {
  }

  lemma ChunkedValue()
    ensures EqualFold(CHUNKED, "chunked") && Plain(CHUNKED)
  {
  }

  lemma DateName()
    ensures Free(DATE) && PlainName(DATE)
  {
  }

  lemma TypeName()
    ensures Free(CONTENT_TYPE) && PlainName(CONTENT_TYPE)
  {
  }

  lemma OkText()
    ensures Plain(OK) && Plain(STATUS_CODE)
  {
  }

  // --------------------------------------------------------------- headers and framing

  lemma {:induction false} ReadAllAppend(a: seq<Header>, b: seq<Header>)
    ensures ReadAll(a + b) == ReadAll(a) + ReadAll(b)
  {
    if a == [] {
      EmptyAppend(b);
      EmptyAppend(ReadAll(b));
    } else {
      ReadAllAppend(a[1..], b);
      DropAppend(a, b, 1);
      Assoc([Read(a[0])], ReadAll(a[1..]), ReadAll(b));
    }
  }

  lemma {:induction false} AppliedAppend(meta: Meta, a: seq<Header>, b: seq<Header>)
    requires Applied(meta, a).Some?
    ensures Applied(meta, a + b) == Applied(Applied(meta, a).value, b)
    decreases |a|
  {
    if a == [] {
      EmptyAppend(b);
    } else {
      AppliedAppend(ApplyHeader(meta, a[0]).value, a[1..], b);
      DropAppend(a, b, 1);
    }
  }

  /** Two lists of lines, one behind the other. */
  lemma AppliedInTwo(meta: Meta, meta': Meta, a: seq<Header>, b: seq<Header>)
    requires Applied(meta, ReadAll(a)) == Some(meta')
    ensures Applied(meta, ReadAll(a + b)) == Applied(meta', ReadAll(b))
  {
    ReadAllAppend(a, b);
    AppliedAppend(meta, ReadAll(a), ReadAll(b));
  }

  ghost predicate PlainLines(hs: seq<Header>) {
    forall i | 0 <= i < |hs| :: PlainLine(hs[i])
  }

  /** Lines that leave the framing undecided. */
  ghost predicate FreeLines(hs: seq<Header>) {
    forall i | 0 <= i < |hs| :: PlainLine(hs[i]) && Free(hs[i].name)
  }

  lemma {:induction false} FreeLinesApply(meta: Meta, hs: seq<Header>)
    requires FreeLines(hs)
    ensures Applied(meta, ReadAll(hs)) == Some(meta)
    decreases |hs|
  {
    if hs != [] {
      FreeLinesApply(meta, hs[1..]);
      assert ReadAll(hs)[0] == Read(hs[0]) && ReadAll(hs)[1..] == ReadAll(hs[1..]);
    }
  }

  lemma {:induction false} PlainLinesRead(hs: seq<Header>)
    requires PlainLines(hs)
    ensures LinesRead(HTTP, hs)
  {
    if hs != [] {
      LineReads(hs[0]);
      PlainLinesRead(hs[1..]);
    }
  }

  lemma {:induction false} LinesOfPlain(env: Env, k: bytes, vs: seq<bytes>)
    requires PlainName(k) && forall v: bytes :: Plain(env.clean(v))
    ensures PlainLines(LinesOf(env, k, vs)) && forall i | 0 <= i < |LinesOf(env, k, vs)| :: LinesOf(env, k, vs)[i].name == k
  {
    if vs != [] {
      LinesOfPlain(env, k, vs[1..]);
    }
  }

  ghost predicate PlainKeys(ks: seq<bytes>) {
    forall i | 0 <= i < |ks| :: PlainName(ks[i])
  }

  lemma {:induction false} ListedPlain(env: Env, h: Headers, ks: seq<bytes>)
    requires PlainKeys(ks) && forall v: bytes :: Plain(env.clean(v))
    ensures PlainLines(ListKeys(env, h, ks))
    ensures forall i | 0 <= i < |ListKeys(env, h, ks)| :: ListKeys(env, h, ks)[i].name in ks
  {
    if ks != [] {
      var vs := if ks[0] in h then h[ks[0]] else [];
      LinesOfPlain(env, ks[0], vs);
      ListedPlain(env, h, ks[1..]);
    }
  }

  lemma ListedFree(env: Env, h: Headers, ks: seq<bytes>)
    requires PlainKeys(ks) && (forall i | 0 <= i < |ks| :: Free(ks[i])) && forall v: bytes :: Plain(env.clean(v))
    ensures FreeLines(ListKeys(env, h, ks))
  {
    ListedPlain(env, h, ks);
  }

  lemma ReadSame(h: Header)
    requires h.value == [] || !IsSpace(h.value[0])
    ensures Read(h) == h
  {
    assert h.value[0..] == h.value;
  }

  lemma OneApplied(meta: Meta, x: Header, meta': Meta)
    requires Read(x) == x && ApplyHeader(meta, x) == Some(meta')
    ensures Applied(meta, ReadAll([x])) == Some(meta')
  {
    assert [x][1..] == [];
    assert ReadAll([x]) == [x];
  }

  lemma OneLine(env: Env, k: bytes, v: bytes)
    ensures LinesOf(env, k, [v]) == [Header(k, env.clean(v))]
  {
    assert [v][1..] == [];
  }

  lemma LengthLine(meta: Meta, n: nat)
    requires n < 0x8000_0000 && !meta.hasLength
    ensures PlainLine(Header(CONTENT_LENGTH, Print(10, n)))
    ensures Applied(meta, ReadAll([Header(CONTENT_LENGTH, Print(10, n))])) == Some(meta.(hasLength := true, length := n))
  {
    var x := Header(CONTENT_LENGTH, Print(10, n));
    LengthName();
    PrintParses(10, n);
    DecimalRoundTrip(n);
    ReadSame(x);
    OneApplied(meta, x, meta.(hasLength := true, length := n));
  }

  lemma IsChunkedLine(x: Header)
    requires x.name == TRANSFER_ENCODING && x.value == CHUNKED
    ensures IsChunked(x) && !IsLength(x)
  {
    EncodingName();
    ChunkedValue();
  }

  lemma ApplyChunked(meta: Meta, x: Header)
    requires IsChunked(x) && !IsLength(x)
    ensures ApplyHeader(meta, x) == Some(meta.(chunked := true))
  {
  }

  lemma PlainChunkedLine(x: Header)
    requires x.name == TRANSFER_ENCODING && x.value == CHUNKED
    ensures PlainLine(x) && Read(x) == x
  {
    EncodingName();
    ChunkedValue();
    ReadSame(x);
  }

  lemma ChunkedLine(meta: Meta)
    ensures PlainLine(Header(TRANSFER_ENCODING, CHUNKED))
    ensures Applied(meta, ReadAll([Header(TRANSFER_ENCODING, CHUNKED)])) == Some(meta.(chunked := true))
  {
    var x := Header(TRANSFER_ENCODING, CHUNKED);
    PlainChunkedLine(x);
    IsChunkedLine(x);
    ApplyChunked(meta, x);
    OneApplied(meta, x, meta.(chunked := true));
  }

  /** Keys that leave the framing undecided, except for one Content-Length. */
  ghost predicate SizedKeys(ks: seq<bytes>) {
    && PlainKeys(ks) && NoDup(ks) && CONTENT_LENGTH in ks
    && forall i | 0 <= i < |ks| :: ks[i] == CONTENT_LENGTH || Free(ks[i])
  }

  lemma FreeTail(ks: seq<bytes>)
    requires SizedKeys(ks)
    ensures ks[0] == CONTENT_LENGTH ==> PlainKeys(ks[1..]) && forall i | 0 <= i < |ks[1..]| :: Free(ks[1..][i])
    ensures ks[0] != CONTENT_LENGTH ==> Free(ks[0]) && SizedKeys(ks[1..])
  {
    var i :| 0 <= i < |ks| && ks[i] == CONTENT_LENGTH;
    if ks[0] != CONTENT_LENGTH {
      assert ks[1..][i - 1] == CONTENT_LENGTH;
      assert NoDup(ks[1..]);
    }
  }

  /** A header map with a Content-Length and nothing else about the framing, as listed. */
  lemma {:induction false} SizedListing(env: Env, h: Headers, ks: seq<bytes>, n: nat, meta: Meta)
    requires SizedKeys(ks) && CONTENT_LENGTH in h && h[CONTENT_LENGTH] == [Print(10, n)] && n < 0x8000_0000 && !meta.hasLength
    requires (forall v: bytes :: Plain(env.clean(v))) && env.clean(Print(10, n)) == Print(10, n)
    ensures Applied(meta, ReadAll(ListKeys(env, h, ks))) == Some(meta.(hasLength := true, length := n))
  {
    var vs := if ks[0] in h then h[ks[0]] else [];
    var a, b := LinesOf(env, ks[0], vs), ListKeys(env, h, ks[1..]);
    FreeTail(ks);
    if ks[0] == CONTENT_LENGTH {
      OneLine(env, ks[0], Print(10, n));
      assert a == [Header(CONTENT_LENGTH, Print(10, n))];
      LengthLine(meta, n);
      ListedFree(env, h, ks[1..]);
      FreeLinesApply(meta.(hasLength := true, length := n), b);
      AppliedInTwo(meta, meta.(hasLength := true, length := n), a, b);
    } else {
      LinesOfPlain(env, ks[0], vs);
      FreeLinesApply(meta, a);
      SizedListing(env, h, ks[1..], n, meta);
      AppliedInTwo(meta, meta, a, b);
    }
  }

  // ------------------------------------------------------------------- whole responses

  const NO_META := Meta(Response, 0, false, 0, false)

  lemma Places(line: bytes, rest: bytes, body: bytes, wire: bytes)
    requires wire == line + CRLF + rest + body
    ensures At(wire, 0, line + CRLF) && At(wire, |line| + 2, rest) && At(wire, |line| + 2 + |rest|, body)
  {
    AtSplit(wire, 0, line + CRLF + rest, body);
    AtSplit(wire, 0, line + CRLF, rest);
  }

  /** How the parts of a message make it up. */
  lemma MessageOf(g: LineGrammar, kind: Kind, wire: bytes, i: nat, start: StartLine, meta: Meta, hs: seq<Header>, p: nat, body: bytes)
    requires CrlfFrom(wire, 0) == Some(i) && i + 2 <= |wire| && ParseStart(g, kind, wire[0..i]) == Some(start)
    requires p <= |wire| && ParseHeaders(g, StartMeta(start), wire, i + 2) == HeadDone(meta, hs, p)
    requires ParseBody(g, meta, wire, p) == BodyDone(body, |wire|)
    ensures ParseMessage(g, kind, wire) == Accepted(Message(start, hs, meta, BodyMode(meta), body))
  {
    assert wire[..i] == wire[0..i];
  }

  ghost predicate GoodHead(code: nat, text: bytes, hs: seq<Header>, meta: Meta) {
    100 <= code <= 999 && Plain(text) && PlainLines(hs) && Applied(NO_META.(status := code), ReadAll(hs)) == Some(meta)
  }

  /** The response to be read back. */
  function Answer(code: nat, text: bytes, hs: seq<Header>, meta: Meta, body: bytes): (m: Message) {
    Message(Rsp(ResponseLine(Version(1, 1), code, text)), ReadAll(hs), meta, BodyMode(meta), body)
  }

  lemma StartReads(code: nat, text: bytes, line: bytes)
    requires 100 <= code <= 999 && Plain(text) && line == StatusLine(code, text)
    ensures ParseStart(HTTP, Response, line) == Some(Rsp(ResponseLine(Version(1, 1), code, text))) && CR !in line
  {
    StatusLineReads(code, text);
  }

  /** The line grammar reads back a start line and the header lines. */
  ghost predicate ReadsBack(g: LineGrammar, line: bytes, start: StartLine, hs: seq<Header>, meta: Meta) {
    && ParseStart(g, Response, line) == Some(start) && CR !in line && LinesRead(g, hs)
    && Applied(StartMeta(start), ReadAll(hs)) == Some(meta)
  }

  /** The start line and the headers, read back. */
  lemma HeadReads(g: LineGrammar, line: bytes, start: StartLine, hs: seq<Header>, meta: Meta, wire: bytes, body: bytes, p: nat)
    requires ReadsBack(g, line, start, hs, meta) && At(wire, 0, line + CRLF) && At(wire, |line| + 2, HeadersText(hs) + CRLF)
    requires p == |line| + 4 + |HeadersText(hs)| <= |wire| && ParseBody(g, meta, wire, p) == BodyDone(body, |wire|)
    ensures ParseMessage(g, Response, wire) == Accepted(Message(start, ReadAll(hs), meta, BodyMode(meta), body))
  {
    LineAt(wire, 0, line);
    HeadersRead(g, StartMeta(start), hs, wire, |line| + 2, p);
    MessageOf(g, Response, wire, |line|, start, meta, ReadAll(hs), p, body);
  }

  lemma LengthBodyReads(g: LineGrammar, meta: Meta, buf: bytes, p: nat, body: bytes)
    requires meta.hasLength && !meta.chunked && meta.length == |body| && At(buf, p, body) && p + |body| == |buf|
    ensures ParseBody(g, meta, buf, p) == BodyDone(body, |buf|)
  {
    AtSlice(buf, p, body);
  }

  lemma GoodHeadReads(code: nat, text: bytes, hs: seq<Header>, meta: Meta)
    requires GoodHead(code, text, hs, meta)
    ensures ReadsBack(HTTP, StatusLine(code, text), Rsp(ResponseLine(Version(1, 1), code, text)), hs, meta)
  {
    StartReads(code, text, StatusLine(code, text));
    PlainLinesRead(hs);
  }

  /** Where the head and the body text stand. */
  ghost predicate Placed(wire: bytes, line: bytes, hs: seq<Header>, body: bytes, p: nat) {
    && At(wire, 0, line + CRLF) && At(wire, |line| + 2, HeadersText(hs) + CRLF) && At(wire, p, body)
    && p == |line| + 4 + |HeadersText(hs)| && p + |body| == |wire|
  }

  lemma PlacedBy(line: bytes, hs: seq<Header>, body: bytes, wire: bytes)
    requires wire == line + CRLF + (HeadersText(hs) + CRLF) + body
    ensures Placed(wire, line, hs, body, |line| + 4 + |HeadersText(hs)|)
  {
    Places(line, HeadersText(hs) + CRLF, body, wire);
  }

  lemma SizedAt(code: nat, text: bytes, hs: seq<Header>, meta: Meta, line: bytes, body: bytes, wire: bytes, p: nat)
    requires GoodHead(code, text, hs, meta) && meta.hasLength && meta.length == |body| && !meta.chunked
    requires line == StatusLine(code, text) && Placed(wire, line, hs, body, p)
    ensures ParseMessage(HTTP, Response, wire) == Accepted(Answer(code, text, hs, meta, body))
  {
    GoodHeadReads(code, text, hs, meta);
    LengthBodyReads(HTTP, meta, wire, p, body);
    HeadReads(HTTP, line, Rsp(ResponseLine(Version(1, 1), code, text)), hs, meta, wire, body, p);
  }

  lemma ChunkedAt(code: nat, text: bytes, hs: seq<Header>, meta: Meta, line: bytes, parts: seq<bytes>, tail: bytes, wire: bytes, p: nat)
    requires GoodHead(code, text, hs, meta) && meta.chunked && Sendable(parts) && tail == ChunksText(parts) + LAST_CHUNK
    requires line == StatusLine(code, text) && Placed(wire, line, hs, tail, p)
    ensures ParseMessage(HTTP, Response, wire) == Accepted(Answer(code, text, hs, meta, Concat(parts)))
  {
    GoodHeadReads(code, text, hs, meta);
    ChunkedBodyRoundTrip(parts, tail, wire, p, |wire|);
    ChunkedBody(HTTP, meta, wire, p, parts, |wire|);
    HeadReads(HTTP, line, Rsp(ResponseLine(Version(1, 1), code, text)), hs, meta, wire, Concat(parts), p);
  }

  lemma ChunkedBody(g: LineGrammar, meta: Meta, buf: bytes, p: nat, parts: seq<bytes>, end: nat)
    requires p <= |buf| && ParseChunks(g, buf, p) == Some(Chunks(parts, end)) && meta.chunked
    ensures ParseBody(g, meta, buf, p) == BodyDone(Concat(parts), end)
  {
  }

  /** A response with a length: the body is what follows the head. */
  lemma SizedResponse(code: nat, text: bytes, hs: seq<Header>, meta: Meta, body: bytes, wire: bytes)
    requires GoodHead(code, text, hs, meta) && meta.hasLength && meta.length == |body| && !meta.chunked
    requires wire == HeadText(code, text, hs) + body
    ensures ParseMessage(HTTP, Response, wire) == Accepted(Answer(code, text, hs, meta, body))
  {
    var line := StatusLine(code, text);
    PlacedBy(line, hs, body, wire);
    SizedAt(code, text, hs, meta, line, body, wire, |line| + 4 + |HeadersText(hs)|);
  }

  /** A chunked response: the body is what the chunks carry. */
  lemma ChunkedResponse(code: nat, text: bytes, hs: seq<Header>, meta: Meta, parts: seq<bytes>, tail: bytes, wire: bytes)
    requires GoodHead(code, text, hs, meta) && meta.chunked && Sendable(parts)
    requires tail == ChunksText(parts) + LAST_CHUNK && wire == HeadText(code, text, hs) + tail
    ensures ParseMessage(HTTP, Response, wire) == Accepted(Answer(code, text, hs, meta, Concat(parts)))
  {
    var line := StatusLine(code, text);
    PlacedBy(line, hs, tail, wire);
    ChunkedAt(code, text, hs, meta, line, parts, tail, wire, |line| + 4 + |HeadersText(hs)|);
  }
}
