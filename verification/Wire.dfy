/** What the response writer puts on the wire, and that the repository's own parser reads it back. */
module Wire {
  import opened Bytes
  import opened Numerals
  import opened Grammar
  import opened Reference

  // ------------------------------------------------------------------ text at a place

  ghost predicate At(buf: bytes, p: nat, t: bytes) {
    p + |t| <= |buf| && forall i | 0 <= i < |t| :: buf[p + i] == t[i]
  }

  lemma AtSplit(buf: bytes, p: nat, s: bytes, t: bytes)
    requires At(buf, p, s + t)
    ensures At(buf, p, s) && At(buf, p + |s|, t)
  {
    forall i | 0 <= i < |s| ensures buf[p + i] == s[i] { assert (s + t)[i] == s[i]; }
    forall i | 0 <= i < |t| ensures buf[p + |s| + i] == t[i] { assert (s + t)[|s| + i] == t[i]; }
  }

  lemma AtSlice(buf: bytes, p: nat, t: bytes)
    requires At(buf, p, t)
    ensures buf[p..p + |t|] == t
  {
  }

  lemma AtThree(buf: bytes, p: nat, s: bytes, t: bytes, u: bytes)
    requires At(buf, p, s + t + u)
    ensures At(buf, p, s) && At(buf, p + |s|, t + u)
  {
    Assoc(s, t, u);
    AtSplit(buf, p, s, t + u);
  }

  lemma AtByte(buf: bytes, p: nat, t: bytes, i: nat)
    requires At(buf, p, t) && i < |t|
    ensures buf[p + i] == t[i]
  {
  }

  lemma CrlfHere(buf: bytes, p: nat)
    requires At(buf, p, CRLF)
    ensures CrlfAt(buf, p)
  {
    AtByte(buf, p, CRLF, 0);
    AtByte(buf, p, CRLF, 1);
  }

  /** A line without CR that ends in CRLF is found. */
  lemma LineAt(buf: bytes, p: nat, s: bytes)
    requires At(buf, p, s + CRLF) && CR !in s
    ensures CrlfFrom(buf, p) == Some(p + |s|) && buf[p..p + |s|] == s
  {
    AtSplit(buf, p, s, CRLF);
    CrlfHere(buf, p + |s|);
    forall j | p <= j < p + |s| ensures !CrlfAt(buf, j) {
      AtByte(buf, p, s, j - p);
    }
    CrlfIs(buf, p, p + |s|);
    AtSlice(buf, p, s);
  }

  // -------------------------------------------------------------------------- headers

  predicate Plain(v: bytes) { CR !in v && LF !in v }

  predicate PlainName(k: bytes) { k != [] && Plain(k) && COLON !in k }

  predicate PlainLine(h: Header) { PlainName(h.name) && Plain(h.value) }

  function LineText(h: Header): (t: bytes) {
    h.name + [COLON, SP] + h.value
  }

  function HeadersText(hs: seq<Header>): (t: bytes) {
    if hs == [] then [] else LineText(hs[0]) + CRLF + HeadersText(hs[1..])
  }

  lemma {:induction false} HeadersTextAppend(a: seq<Header>, b: seq<Header>)
    ensures HeadersText(a + b) == HeadersText(a) + HeadersText(b)
  {
    if a == [] {
      EmptyAppend(b);
    } else {
      HeadersTextAppend(a[1..], b);
      DropAppend(a, b, 1);
      Assoc(LineText(a[0]) + CRLF, HeadersText(a[1..]), HeadersText(b));
    }
  }

  lemma OneHeader(x: Header)
    ensures HeadersText([x]) == LineText(x) + CRLF
  {
    assert [x][1..] == [];
    EmptyAppend(LineText(x) + CRLF);
  }

  lemma OneMore(out: bytes, hs: seq<Header>, x: Header)
    ensures out + HeadersText(hs) + (LineText(x) + CRLF) == out + HeadersText(hs + [x])
  {
    OneHeader(x);
    HeadersTextAppend(hs, [x]);
    Assoc(out, HeadersText(hs), LineText(x) + CRLF);
  }

  /** A header as it is read back: leading spaces of the value are skipped. */
  function Read(h: Header): (r: Header) {
    Header(h.name, h.value[SkipFrom(h.value, 0)..])
  }

  function ReadAll(hs: seq<Header>): (r: seq<Header>) {
    if hs == [] then [] else [Read(hs[0])] + ReadAll(hs[1..])
  }

  lemma LineReads(h: Header)
    requires PlainLine(h)
    ensures ParseHeaderLine(LineText(h)) == Some(Read(h)) && CR !in LineText(h)
  {
    var t := LineText(h);
    var n := |h.name|;
    assert t[..n] == h.name && t[n] == COLON && t[n + 1] == SP;
    ByteIs(t, COLON, n);
    var k := SkipFrom(h.value, 0);
    assert t[n + 2..] == h.value;
    forall j | n + 1 <= j < n + 2 + k ensures IsSpace(t[j]) {
      if n + 2 <= j {
        assert t[j] == h.value[j - n - 2];
      }
    }
    if k < |h.value| {
      assert t[n + 2 + k] == h.value[k];
    }
    SkipIs(t, n + 1, n + 2 + k);
    assert t[n + 2 + k..] == h.value[k..];
  }

  /** applyHeaderMeta over a list of headers. */
  function Applied(meta: Meta, hs: seq<Header>): (r: Option<Meta>)
    decreases |hs|
  {
    if hs == [] then Some(meta)
    else
      match ApplyHeader(meta, hs[0])
      case None => None
      case Some(meta') => Applied(meta', hs[1..])
  }

  /** Every line is read back by the line grammar. */
  ghost predicate LinesRead(g: LineGrammar, hs: seq<Header>) {
    hs == [] ||
    (LineText(hs[0]) != [] && CR !in LineText(hs[0]) && g.header(LineText(hs[0])) == Some(Read(hs[0])) && LinesRead(g, hs[1..]))
  }

  lemma HeadersTextSplit(hs: seq<Header>, buf: bytes, p: nat)
    requires hs != [] && At(buf, p, HeadersText(hs) + CRLF)
    ensures At(buf, p, LineText(hs[0]) + CRLF) && At(buf, p + |LineText(hs[0])| + 2, HeadersText(hs[1..]) + CRLF)
    ensures |HeadersText(hs)| == |LineText(hs[0])| + 2 + |HeadersText(hs[1..])|
  {
    AtThree(buf, p, LineText(hs[0]) + CRLF, HeadersText(hs[1..]), CRLF);
  }

  /** One header line of a header section. */
  lemma HeadersStep(g: LineGrammar, meta: Meta, meta': Meta, h: Header, buf: bytes, p: nat, t: bytes, meta'': Meta, hs: seq<Header>, end: nat)
    requires At(buf, p, t + CRLF) && t != [] && CR !in t && g.header(t) == Some(h) && ApplyHeader(meta, h) == Some(meta')
    requires p + |t| + 2 <= |buf| && ParseHeaders(g, meta', buf, p + |t| + 2) == HeadDone(meta'', hs, end)
    ensures ParseHeaders(g, meta, buf, p) == HeadDone(meta'', [h] + hs, end)
  {
    LineAt(buf, p, t);
    AtSplit(buf, p, t, CRLF);
    AtByte(buf, p, t, 0);
  }

  /** A printed header section is read back, for every grammar that reads single lines back. */
  lemma {:induction false} HeadersRead(g: LineGrammar, meta: Meta, hs: seq<Header>, buf: bytes, p: nat, end: nat)
    requires At(buf, p, HeadersText(hs) + CRLF) && Applied(meta, ReadAll(hs)).Some? && LinesRead(g, hs)
    requires end == p + |HeadersText(hs)| + 2
    ensures ParseHeaders(g, meta, buf, p) == HeadDone(Applied(meta, ReadAll(hs)).value, ReadAll(hs), end)
    decreases |hs|
  {
    if hs == [] {
      EmptyAppend(CRLF);
      CrlfHere(buf, p);
    } else {
      var t, h := LineText(hs[0]), Read(hs[0]);
      HeadersTextSplit(hs, buf, p);
      ReadFirst(meta, hs);
      var meta' := ApplyHeader(meta, h).value;
      HeadersRead(g, meta', hs[1..], buf, p + |t| + 2, end);
      HeadersStep(g, meta, meta', h, buf, p, t, Applied(meta', ReadAll(hs[1..])).value, ReadAll(hs[1..]), end);
    }
  }

  lemma ReadFirst(meta: Meta, hs: seq<Header>)
    requires hs != [] && Applied(meta, ReadAll(hs)).Some?
    ensures ApplyHeader(meta, Read(hs[0])).Some?
    ensures Applied(meta, ReadAll(hs)) == Applied(ApplyHeader(meta, Read(hs[0])).value, ReadAll(hs[1..]))
  {
    assert ReadAll(hs)[0] == Read(hs[0]) && ReadAll(hs)[1..] == ReadAll(hs[1..]);
  }

  // --------------------------------------------------------------------------- chunks

  const LAST_CHUNK: bytes := [48, CR, LF, CR, LF]

  function ChunkText(p: bytes): (t: bytes) {
    Print(16, |p|) + CRLF + p + CRLF
  }

  /** The texts of some parts, one behind the other. */
  function Texts(f: bytes -> bytes, parts: seq<bytes>): (t: bytes) {
    if parts == [] then [] else f(parts[0]) + Texts(f, parts[1..])
  }

  function ChunksText(parts: seq<bytes>): (t: bytes) {
    Texts(ChunkText, parts)
  }

  lemma {:induction false} TextsAppend(f: bytes -> bytes, a: seq<bytes>, b: seq<bytes>)
    ensures Texts(f, a + b) == Texts(f, a) + Texts(f, b)
  {
    if a == [] {
      EmptyAppend(b);
    } else {
      TextsAppend(f, a[1..], b);
      DropAppend(a, b, 1);
      Assoc(f(a[0]), Texts(f, a[1..]), Texts(f, b));
    }
  }

  /** Chunk sizes are read back. */
  ghost predicate ReadsSize(g: LineGrammar, n: nat) {
    g.size(Print(16, n)) == Some(n) && CR !in Print(16, n)
  }

  lemma ChunkRead(g: LineGrammar, part: bytes, buf: bytes, p: nat)
    requires At(buf, p, ChunkText(part)) && part != [] && ReadsSize(g, |part|)
    ensures TakeChunk(g, buf, p) == Some(Data(part, p + |ChunkText(part)|))
  {
    var s := Print(16, |part|);
    assert ChunkText(part) == (s + CRLF) + (part + CRLF);
    AtSplit(buf, p, s + CRLF, part + CRLF);
    LineAt(buf, p, s);
    AtSplit(buf, p + |s| + 2, part, CRLF);
    AtSlice(buf, p + |s| + 2, part);
    CrlfHere(buf, p + |s| + 2 + |part|);
  }

  lemma LastRead(g: LineGrammar, buf: bytes, p: nat)
    requires At(buf, p, LAST_CHUNK) && g.size([48]) == Some(0)
    ensures TakeChunk(g, buf, p) == Some(Last(p + 5))
  {
    assert LAST_CHUNK == ([48] + CRLF) + CRLF;
    AtSplit(buf, p, [48] + CRLF, CRLF);
    LineAt(buf, p, [48]);
    CrlfHere(buf, p + 3);
  }

  /** Wherever its text stands, the part is read back as a chunk. */
  ghost predicate ReadsPart(g: LineGrammar, f: bytes -> bytes, buf: bytes, part: bytes) {
    forall p: nat {:trigger At(buf, p, f(part))} :: At(buf, p, f(part)) ==> TakeChunk(g, buf, p) == Some(Data(part, p + |f(part)|))
  }

  ghost predicate ReadsParts(g: LineGrammar, f: bytes -> bytes, buf: bytes, parts: seq<bytes>) {
    parts == [] || (ReadsPart(g, f, buf, parts[0]) && ReadsParts(g, f, buf, parts[1..]))
  }

  lemma ChunksStep(g: LineGrammar, parts: seq<bytes>, buf: bytes, p: nat, next: nat, end: nat)
    requires p <= |buf| && parts != [] && TakeChunk(g, buf, p) == Some(Data(parts[0], next))
    requires next <= |buf| && ParseChunks(g, buf, next) == Some(Chunks(parts[1..], end))
    ensures ParseChunks(g, buf, p) == Some(Chunks(parts, end))
  {
    assert [parts[0]] + parts[1..] == parts;
  }

  lemma TextsSplit(f: bytes -> bytes, parts: seq<bytes>, buf: bytes, p: nat, t: bytes)
    requires parts != [] && At(buf, p, Texts(f, parts) + t)
    ensures At(buf, p, f(parts[0])) && At(buf, p + |f(parts[0])|, Texts(f, parts[1..]) + t)
    ensures |Texts(f, parts)| == |f(parts[0])| + |Texts(f, parts[1..])|
  {
    AtThree(buf, p, f(parts[0]), Texts(f, parts[1..]), t);
  }

  /** The texts of parts and the last chunk are decoded to the parts. */
  lemma {:induction false} TextsRead(g: LineGrammar, f: bytes -> bytes, parts: seq<bytes>, buf: bytes, p: nat, end: nat)
    requires At(buf, p, Texts(f, parts) + LAST_CHUNK) && g.size([48]) == Some(0) && ReadsParts(g, f, buf, parts)
    requires end == p + |Texts(f, parts)| + 5
    ensures ParseChunks(g, buf, p) == Some(Chunks(parts, end))
    decreases |parts|
  {
    if parts == [] {
      EmptyAppend(LAST_CHUNK);
      LastRead(g, buf, p);
    } else {
      TextsSplit(f, parts, buf, p, LAST_CHUNK);
      TextsRead(g, f, parts[1..], buf, p + |f(parts[0])|, end);
      ChunksStep(g, parts, buf, p, p + |f(parts[0])|, end);
    }
  }

  /** Parts that the writer may send as chunks. */
  ghost predicate Sendable(parts: seq<bytes>) {
    forall i | 0 <= i < |parts| :: 0 < |parts[i]| < 0x8000_0000
  }

  lemma ChunkReads(g: LineGrammar, buf: bytes, part: bytes)
    requires part != [] && ReadsSize(g, |part|)
    ensures ReadsPart(g, ChunkText, buf, part)
  {
    forall p: nat | At(buf, p, ChunkText(part)) ensures TakeChunk(g, buf, p) == Some(Data(part, p + |ChunkText(part)|)) {
      ChunkRead(g, part, buf, p);
    }
  }

  lemma HttpReadsSize(n: nat)
    requires n < 0x8000_0000
    ensures ReadsSize(HTTP, n)
  {
    ChunkSizeRoundTrip(n);
    PrintParses(16, n);
  }

  lemma {:induction false} AllChunksRead(buf: bytes, parts: seq<bytes>)
    requires Sendable(parts)
    ensures ReadsParts(HTTP, ChunkText, buf, parts)
  {
    if parts != [] {
      HttpReadsSize(|parts[0]|);
      ChunkReads(HTTP, buf, parts[0]);
      AllChunksRead(buf, parts[1..]);
    }
  }

  /** A chunked body as the writer prints it is decoded to the parts it was printed from. */
  lemma ChunkedBodyRoundTrip(parts: seq<bytes>, text: bytes, buf: bytes, p: nat, end: nat)
    requires Sendable(parts) && text == ChunksText(parts) + LAST_CHUNK && At(buf, p, text) && end == p + |text|
    ensures ParseChunks(HTTP, buf, p) == Some(Chunks(parts, end))
  {
    AllChunksRead(buf, parts);
    ZeroSize();
    TextsRead(HTTP, ChunkText, parts, buf, p, end);
  }

  lemma ZeroSize()
    ensures ParseChunkSize([48]) == Some(0)
  {
    assert Print(16, 0) == [48];
    ChunkSizeRoundTrip(0);
  }

  // ---------------------------------------------------------------------- status lines

  const HTTP11: bytes := [72, 84, 84, 80, SLASH, 49, DOT, 49, SP]

  function StatusLine(code: nat, text: bytes): (t: bytes) {
    HTTP11 + Print(10, code) + [SP] + text
  }

  lemma ThreeDigits(code: nat)
    requires 100 <= code <= 999
    ensures |Print(10, code)| == 3
  {
    assert Print(10, code / 10) == Print(10, code / 10 / 10) + [Digit(code / 10 % 10)];
    assert Print(10, code / 100) == [Digit(code / 100)];
    assert code / 10 / 10 == code / 100;
  }

  lemma StatusLineReads(code: nat, text: bytes)
    requires 100 <= code <= 999 && Plain(text)
    ensures ParseResponseLine(StatusLine(code, text)) == Some(ResponseLine(Version(1, 1), code, text))
    ensures CR !in StatusLine(code, text)
  {
    var d, t := Print(10, code), StatusLine(code, text);
    ThreeDigits(code);
    DecimalRoundTrip(code);
    PrintParses(10, code);
    assert t[9..12] == d && t[12] == SP && t[13..] == text;
    assert forall i | 0 <= i < 9 :: t[i] == HTTP11[i];
  }
}
