/** Concrete requests at which the properties fail that the code does not have in general. */
module Witnesses {
  import opened Bytes
  import opened Numerals
  import opened Grammar
  import opened Reference
  import opened Events
  import opened Machine
  import opened SplitEvents
  import opened Incremental
  import opened Consumers
  import opened ValueCuts
  import opened UniqueFraming
  import opened FastPaths
  import opened RequestDispatch
  import opened RequestRuns
  import opened HttpRequests
  import opened Completion
  import LostRequest
  import Writing
  import Wire
  import Samples

  // ------------------------------------------------------------------- small requests

  lemma {:induction false} SmallHeadFits(m: bytes, p: nat, end: nat)
    requires p <= |m| <= SCRATCH
    ensures HeadFits(m, p, end)
    decreases |m| - p
  {
    if CrlfFrom(m, p).Some? && CrlfFrom(m, p).value + 2 < end {
      SmallHeadFits(m, CrlfFrom(m, p).value + 2, end);
    }
  }

  lemma SmallIsWhole(g: LineGrammar, m: bytes)
    requires Accepts(g, Request, m) && |m| <= SCRATCH && ParseMessage(g, Request, m).msg.mode != ChunkedBody
    ensures WholeRequest(g, m)
  {
    SmallHeadFits(m, 0, HeadEnd(g, m));
  }

  /** Two pieces with a safe cut between them. */
  lemma TwoSafe(g: LineGrammar, m: bytes, a: bytes, b: bytes)
    requires m == a + b && a != [] && b != [] && SafeCut(g, m, |a|)
    ensures SafePieces(g, m, [a, b]) && Concat([a, b][..1]) == a
  {
    var pieces := [a, b];
    EmptyAppend(b);
    EmptyAppend(a);
    assert [b][1..] == [] && Concat([b]) == b;
    assert pieces[1..] == [b] && Concat(pieces) == a + b;
    assert pieces[..1] == [a] && [a][1..] == [] && Concat([a]) == a;
  }

  lemma EndOfHead(g: LineGrammar, line: bytes, hs: seq<Header>, body: bytes, meta: Meta, m: bytes)
    requires Samples.Read(g, line, hs, body, meta, m) && g.request(line).Some?
    ensures HeadEnd(g, m) == Samples.BodyStart(line, hs)
  {
    assert m[..|line|] == m[0..|line|];
  }

  lemma TextIsHeadAndBody(line: bytes, hs: seq<Header>, body: bytes)
    ensures Samples.RequestText(line, hs, body) == Samples.RequestText(line, hs, []) + body
  {
    EmptyAppend(line + CRLF + (Wire.HeadersText(hs) + CRLF));
  }

  // ----------------------------------------------------- a body that is a request itself

  /** A cut in front of a body is safe. */
  lemma CutBeforeBody(g: LineGrammar, m: bytes)
    requires Accepts(g, Request, m) && ParseMessage(g, Request, m).msg.mode != ChunkedBody
    ensures SafeCut(g, m, HeadEnd(g, m))
  {
  }

  /** Without a MessageBegin callback, a body in a piece of its own that is a request is taken as one. */
  lemma BodyTakenAsRequest(cb: Setting, m: bytes, a: bytes, b: bytes, msg: Message)
    requires cb.lines == HTTP && !cb.begin && !Silent(cb) && WholeRequest(HTTP, m) && ParseMessage(HTTP, Request, m) == Accepted(msg)
    requires m == a + b && a != [] && b != [] && SafeCut(HTTP, m, |a|) && Accepts(HTTP, Request, b)
    ensures !OnTime(cb, [a, b]) && (cb.complete ==> !ToldOnce(cb, msg, Executed(Calls(cb), [a, b])))
  {
    var pieces := [a, b];
    TwoSafe(HTTP, m, a, b);
    assert Intrudes(HTTP, pieces[1]);
    OnTimeExactly(cb, m, pieces);
    HttpToldOnceExactly(cb, m, pieces, msg);
  }

  lemma PrintsTwo(n: nat)
    requires 10 <= n < 100
    ensures |Print(10, n)| == 2
  {
    assert Print(10, n) == Print(10, n / 10) + [Digit(n % 10)];
  }

  /** "GET / HTTP/1.1", Content-Length: 18, and as its body "GET / HTTP/1.1" with an empty head. */
  lemma NestedRequestLost(cb: Setting) returns (m: bytes, a: bytes, b: bytes, msg: Message)
    requires cb.lines == HTTP && !cb.begin && !Silent(cb)
    ensures WholeRequest(HTTP, m) && ParseMessage(HTTP, Request, m) == Accepted(msg) && SafePieces(HTTP, m, [a, b])
    ensures !OnTime(cb, [a, b]) && (cb.complete ==> !ToldOnce(cb, msg, Executed(Calls(cb), [a, b])))
  {
    Samples.GetLine();
    var line := LostRequest.LINE;
    b := Samples.RequestText(line, [], []);
    Samples.BodylessRead(HTTP, line, [], b);
    assert |b| == 18;
    var h := Header(Writing.CONTENT_LENGTH, Print(10, |b|));
    m := Samples.RequestText(line, [h], b);
    a := Samples.RequestText(line, [h], []);
    Samples.SizedRead(HTTP, line, b, m);
    msg := ParseMessage(HTTP, Request, m).msg;
    TextIsHeadAndBody(line, [h], b);
    NestedSizes(line, h, b, m, a);
    SmallIsWhole(HTTP, m);
    EndOfHead(HTTP, line, [h], b, msg.meta, m);
    CutBeforeBody(HTTP, m);
    TwoSafe(HTTP, m, a, b);
    BodyTakenAsRequest(cb, m, a, b, msg);
  }

  lemma NestedSizes(line: bytes, h: Header, b: bytes, m: bytes, a: bytes)
    requires |line| == 14 && h == Header(Writing.CONTENT_LENGTH, Print(10, 18)) && |b| == 18
    requires m == Samples.RequestText(line, [h], b) && a == Samples.RequestText(line, [h], [])
    ensures |m| <= SCRATCH && a != [] && |a| == Samples.BodyStart(line, [h])
  {
    PrintsTwo(18);
    Wire.OneHeader(h);
  }

  // ------------------------------------------------------------- a value cut in two

  /** "A: x" and "B: yz". */
  const FIRST := Header([65], [120])
  const SECOND := Header([66], [121, 122])

  lemma TwoHeaders(hs: seq<Header>)
    requires hs == [FIRST] + [SECOND]
    ensures Wire.LinesRead(HTTP, hs) && Wire.ReadAll(hs) == hs && Wire.Applied(Samples.REQUEST_META, hs) == Some(Samples.REQUEST_META)
  {
    Samples.GetLine();
    Samples.TwoClean(HTTP, FIRST, SECOND, hs);
    Samples.TwoApply(Samples.REQUEST_META, FIRST, SECOND, hs);
  }

  lemma LinesOfTwo(m: bytes, p: nat, hs: seq<Header>)
    requires hs == [FIRST] + [SECOND] && Wire.At(m, p, Wire.HeadersText(hs) + CRLF)
    ensures |Wire.HeadersText(hs)| == 13
    ensures CrlfFrom(m, p) == Some(p + 4) && CrlfFrom(m, p + 6) == Some(p + 11) && Wire.At(m, p + 6, [66, COLON, SP, 121, 122])
  {
    Wire.HeadersTextSplit(hs, m, p);
    var l1, l2 := Wire.LineText(FIRST), Wire.LineText(SECOND);
    assert hs[0] == FIRST && hs[1..] == [SECOND];
    assert l1 == [65, COLON, SP, 120] && l2 == [66, COLON, SP, 121, 122];
    Wire.LineAt(m, p, l1);
    Wire.HeadersTextSplit([SECOND], m, p + 6);
    assert [SECOND][1..] == [];
    Wire.LineAt(m, p + 6, l2);
    Wire.AtSplit(m, p + 6, l2, CRLF);
  }

  lemma ShowsY(m: bytes, p: nat)
    requires Wire.At(m, p, [66, COLON, SP, 121, 122])
    ensures PartialValue(m[p..p + 4]) == [121]
  {
    Wire.AtSlice(m, p, [66, COLON, SP, 121, 122]);
    var line := m[p..p + 4];
    assert line == m[p..p + 5][..4];
    assert line == [66, COLON, SP, 121];
    ByteIs(line, COLON, 1);
    SkipIs(line, 2, 3);
  }

  lemma CutsSecond(m: bytes, i: nat)
    requires CrlfFrom(m, 0) == Some(i) && i + 13 <= |m| && CrlfFrom(m, i + 2) == Some(i + 6) && CrlfFrom(m, i + 8) == Some(i + 13)
    requires Wire.At(m, i + 8, [66, COLON, SP, 121, 122])
    ensures CutsValue(m, i + 12)
  {
    ShowsY(m, i + 8);
    assert CutsValueFrom(m, i + 8, i + 12);
  }

  /** A request with a line of 14 bytes and the headers A: x and B: yz, and the place behind the y. */
  lemma TwoHeaderRequest(line: bytes, hs: seq<Header>, m: bytes, k: nat)
    requires Samples.GoodLine(HTTP, line) && |line| == 14 && hs == [FIRST] + [SECOND] && m == Samples.RequestText(line, hs, [])
    requires k == |line| + 12
    ensures WholeRequest(HTTP, m) && |m| == k + 5 && HeadEnd(HTTP, m) == k + 5 && ParseMessage(HTTP, Request, m).msg.headers == hs
    ensures CutsValue(m, k) && !CrlfAt(m, k - 1)
  {
    TwoHeaders(hs);
    Samples.BodylessRead(HTTP, line, hs, m);
    Samples.TextPlaces(line, hs, [], m);
    LinesOfTwo(m, |line| + 2, hs);
    CutsSecond(m, |line|);
    SmallIsWhole(HTTP, m);
    EndOfHead(HTTP, line, hs, [], Samples.REQUEST_META, m);
    Wire.AtByte(m, |line| + 8, [66, COLON, SP, 121, 122], 3);
  }

  lemma NotUncut(m: bytes, pieces: seq<bytes>, j: nat)
    requires 0 < j < |pieces| && CutsValue(m, |Concat(pieces[..j])|)
    ensures !ValuesUncut(m, pieces)
  {
  }

  /** A cut inside a value. */
  lemma AstrayAt(cb: Setting, m: bytes, a: bytes, b: bytes)
    requires cb.lines == HTTP && cb.field && cb.value && WholeRequest(HTTP, m) && SafePieces(HTTP, m, [a, b]) && Concat([a, b][..1]) == a
    requires CutsValue(m, |a|)
    ensures Hear(SaysAll(cb, FRESH, [a, b])) != Heard([], ParseMessage(HTTP, Request, m).msg.headers)
  {
    NotUncut(m, [a, b], 1);
    HttpHeardExactly(cb, m, [a, b]);
  }

  /** Such a request, cut between the y and the z: a consumer of names and values does not collect these
      headers. */
  lemma ValueGoesAstray(cb: Setting) returns (m: bytes, a: bytes, b: bytes)
    requires cb.lines == HTTP && cb.field && cb.value
    ensures WholeRequest(HTTP, m) && SafePieces(HTTP, m, [a, b]) && ParseMessage(HTTP, Request, m).msg.headers == [FIRST] + [SECOND]
    ensures Hear(SaysAll(cb, FRESH, [a, b])) != Heard([], [FIRST] + [SECOND])
  {
    var hs, k;
    hs, m, k := AstrayRequest();
    a, b := AstrayCut(cb, m, k, hs);
  }

  lemma AstrayRequest() returns (hs: seq<Header>, m: bytes, k: nat)
    ensures hs == [FIRST] + [SECOND] && WholeRequest(HTTP, m) && ParseMessage(HTTP, Request, m).msg.headers == hs
    ensures 0 < k < |m| && k < HeadEnd(HTTP, m) && CutsValue(m, k) && !CrlfAt(m, k - 1)
  {
    hs, k := [FIRST] + [SECOND], |LostRequest.LINE| + 12;
    Samples.GetLine();
    m := Samples.RequestText(LostRequest.LINE, hs, []);
    TwoHeaderRequest(LostRequest.LINE, hs, m, k);
  }

  lemma AstrayCut(cb: Setting, m: bytes, k: nat, hs: seq<Header>) returns (a: bytes, b: bytes)
    requires cb.lines == HTTP && cb.field && cb.value && WholeRequest(HTTP, m) && 0 < k < |m| && k < HeadEnd(HTTP, m)
    requires !CrlfAt(m, k - 1) && CutsValue(m, k) && ParseMessage(HTTP, Request, m).msg.headers == hs
    ensures SafePieces(HTTP, m, [a, b])
    ensures Hear(SaysAll(cb, FRESH, [a, b])) != Heard([], hs)
  {
    a, b := m[..k], m[k..];
    HeadCutIsSafe(m, k, a, b);
    AstrayAt(cb, m, a, b);
  }

  lemma HeadCutIsSafe(m: bytes, k: nat, a: bytes, b: bytes)
    requires 0 < k < |m| && k < HeadEnd(HTTP, m) && !CrlfAt(m, k - 1) && a == m[..k] && b == m[k..]
    ensures SafePieces(HTTP, m, [a, b]) && Concat([a, b][..1]) == a
  {
    assert m == a + b;
    TwoSafe(HTTP, m, a, b);
  }

  // ----------------------------------------------------------------------- Upgrade

  /** Connection: upgrade and Upgrade: x. */
  const ASKING := Header([67, 111, 110, 110, 101, 99, 116, 105, 111, 110], [117, 112, 103, 114, 97, 100, 101])
  const NAMING := Header([85, 112, 103, 114, 97, 100, 101], [120])

  lemma UpgradeHeaders(hs: seq<Header>)
    requires hs == [ASKING] + [NAMING]
    ensures Wire.LinesRead(HTTP, hs) && Wire.ReadAll(hs) == hs && Wire.Applied(Samples.REQUEST_META, hs) == Some(Samples.REQUEST_META)
  {
    Samples.GetLine();
    AskingFacts();
    Samples.TwoClean(HTTP, ASKING, NAMING, hs);
    Samples.TwoApply(Samples.REQUEST_META, ASKING, NAMING, hs);
  }

  lemma AskingFacts()
    ensures EqualFold(ASKING.name, "connection") && EqualFold(ASKING.value, "upgrade") && EqualFold(NAMING.name, "upgrade")
    ensures Samples.Clean(ASKING) && Samples.Clean(NAMING) && !IsLength(ASKING) && !IsLength(NAMING) && !IsChunked(ASKING) && !IsChunked(NAMING)
  {
    AskingName();
    AskingValue();
    NamingName();
  }

  lemma AskingName()
    ensures EqualFold(ASKING.name, "connection") && Wire.PlainName(ASKING.name)
  {
  }

  lemma AskingValue()
    ensures EqualFold(ASKING.value, "upgrade") && Wire.Plain(ASKING.value) && !IsSpace(ASKING.value[0])
  {
  }

  lemma NamingName()
    ensures EqualFold(NAMING.name, "upgrade") && Wire.PlainName(NAMING.name)
  {
  }

  lemma UpgradeFlags(hs: seq<Header>)
    requires hs == [ASKING] + [NAMING]
    ensures AllFlags(NO_FLAGS, hs).upgrade && AllFlags(NO_FLAGS, hs).connUpgrade
  {
    AskingFacts();
    assert hs[1..] == [NAMING] && hs[1..][1..] == [];
    assert AllFlags(AddFlags(AddFlags(NO_FLAGS, ASKING), NAMING), []) == AddFlags(AddFlags(NO_FLAGS, ASKING), NAMING);
  }

  /** A request line alone holds no head. */
  lemma LineHoldsNoHead(g: LineGrammar, b: bytes, i: nat)
    requires CrlfFrom(b, 0) == Some(i) && |b| == i + 2
    ensures HeadIn(g, b).None?
  {
  }

  /** A request with a line of 14 bytes that asks for an upgrade. */
  lemma UpgradeRequest(line: bytes, hs: seq<Header>, m: bytes)
    requires Samples.GoodLine(HTTP, line) && |line| == 14 && hs == [ASKING] + [NAMING] && m == Samples.RequestText(line, hs, [])
    ensures WholeRequest(HTTP, m) && |m| == 51 && HeadEnd(HTTP, m) == 51 && CrlfFrom(m, 0) == Some(14)
    ensures ParseMessage(HTTP, Request, m).msg.start.Req? && ParseMessage(HTTP, Request, m).msg.headers == hs
  {
    UpgradeHeaders(hs);
    Samples.BodylessRead(HTTP, line, hs, m);
    Samples.TextPlaces(line, hs, [], m);
    UpgradeSizes(hs);
    SmallIsWhole(HTTP, m);
    EndOfHead(HTTP, line, hs, [], Samples.REQUEST_META, m);
  }

  /** Such a request, cut behind its request line, leaves Upgrade unset. */
  lemma UpgradeMissed(cb: Setting) returns (m: bytes, a: bytes, b: bytes)
    requires cb.lines == HTTP && cb.begin
    ensures WholeRequest(HTTP, m) && SafePieces(HTTP, m, [a, b]) && ParseMessage(HTTP, Request, m).msg.start.Req?
    ensures MessageUpgrades(ParseMessage(HTTP, Request, m).msg) && !Executed(Calls(cb), [a, b]).st.upgrade
  {
    Samples.GetLine();
    m := Samples.RequestText(LostRequest.LINE, [ASKING] + [NAMING], []);
    UpgradeRequest(LostRequest.LINE, [ASKING] + [NAMING], m);
    UpgradeFlags([ASKING] + [NAMING]);
    a, b := m[..16], m[16..];
    CrlfFound(m, 0);
    HeadCutIsSafe(m, 16, a, b);
    UpgradeMissedAt(cb, m, a, b);
  }

  lemma UpgradeMissedAt(cb: Setting, m: bytes, a: bytes, b: bytes)
    requires cb.lines == HTTP && cb.begin && WholeRequest(HTTP, m) && SafePieces(HTTP, m, [a, b])
    requires CrlfFrom(m, 0) == Some(14) && 16 <= |m| && a == m[..16]
    requires ParseMessage(HTTP, Request, m).msg.start.Req? && MessageUpgrades(ParseMessage(HTTP, Request, m).msg)
    ensures !Executed(Calls(cb), [a, b]).st.upgrade
  {
    CrlfPrefix(m, 0, 16);
    LineHoldsNoHead(HTTP, a, 14);
    UpgradeExactly(cb, m, [a, b], ParseMessage(HTTP, Request, m).msg);
  }

  lemma UpgradeSizes(hs: seq<Header>)
    requires hs == [ASKING] + [NAMING]
    ensures |Wire.HeadersText(hs)| == 33
  {
    assert hs[1..] == [NAMING] && [NAMING][1..] == [];
    assert Wire.HeadersText([]) == [];
  }

  // ------------------------------------------------------------- lengths and last chunks

  /** Content-Length: 2147483648 makes the one-shot parser panic, and the machine completes the request
      without a body; 4294967298 is read as 2. */
  lemma LengthWraps(cb: Setting) returns (m: bytes)
    requires cb.lines == HTTP
    ensures ParseMessage(HTTP, Request, m) == Panics && Finished(Run(cb, Start(FRESH), m, 0))
    ensures ParseNumeral(10, Print(10, 0x1_0000_0002)) == Some(2)
  {
    Samples.GetLine();
    m := Samples.RequestText(LostRequest.LINE, [Header(Writing.CONTENT_LENGTH, Print(10, 0x8000_0000))], []);
    Samples.WrappedRead(HTTP, LostRequest.LINE, 0x8000_0000, m);
    MachineTakesNoBody(cb, m);
    PrintParses(10, 0x1_0000_0002);
  }

  lemma EndsBadlyBy(g: LineGrammar, line: bytes, hs: seq<Header>, body: bytes, m: bytes)
    requires Samples.Read(g, line, hs, body, Samples.REQUEST_META.(chunked := true), m) && g.request(line).Some? && g.size([48]) == Some(0)
    requires var p := Samples.BodyStart(line, hs); CrlfFrom(m, p) == Some(p + 1) && m[p..p + 1] == [48] && |m| == p + 5 && !CrlfAt(m, p + 3)
    ensures EndsBadly(g, m)
  {
  }

  /** A zero chunk followed by "XX": ErrChunkSize on the fast path, incomplete for the one-shot parser. */
  lemma LastChunkSpoiled() returns (m: bytes)
    ensures FastErr(HTTP, m) == Some(ErrChunkSize) && ParseMessage(HTTP, Request, m) == Incomplete
  {
    var line, body := LostRequest.LINE, [48] + CRLF + [88, 88];
    Samples.GetLine();
    Samples.ChunkingHeader();
    m := Samples.RequestText(line, [Samples.CHUNKING], body);
    Samples.ChunkedRead(HTTP, line, Samples.CHUNKING, body, m);
    Samples.ZeroLine(m, Samples.BodyStart(line, [Samples.CHUNKING]), 88, 88);
    EndsBadlyBy(HTTP, line, [Samples.CHUNKING], body, m);
    FastErrIs(HTTP, m);
  }
}
