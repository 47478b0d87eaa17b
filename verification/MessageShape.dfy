/** What the one-shot parser accepts and rejects, as a grammar: start line, header lines, empty line, and the body the
    headers ask for. */
module MessageShape {
  import opened Bytes
  import opened Numerals
  import opened Grammar
  import opened Reference
  import opened Wire
  import FastPaths

  // ---------------------------------------------------------------------------- lines

  ghost predicate NoCrlf(l: bytes) {
    forall i: nat :: !CrlfAt(l, i)
  }

  function Lines(ls: seq<bytes>): (t: bytes) {
    if ls == [] then [] else ls[0] + CRLF + Lines(ls[1..])
  }

  /** A line of the header section, and not its end. */
  ghost predicate HeaderLine(g: LineGrammar, l: bytes) {
    l != [] && l[0] != CR && NoCrlf(l) && g.header(l).Some?
  }

  ghost predicate HeaderLines(g: LineGrammar, ls: seq<bytes>) {
    forall i | 0 <= i < |ls| :: HeaderLine(g, ls[i])
  }

  ghost function HeadersIn(g: LineGrammar, ls: seq<bytes>): (hs: seq<Header>)
    requires HeaderLines(g, ls)
  {
    if ls == [] then [] else [g.header(ls[0]).value] + HeadersIn(g, ls[1..])
  }

  /** A line without a CRLF, and a CRLF behind it: that is the first one. */
  lemma FirstCrlf(buf: bytes, p: nat, l: bytes)
    requires At(buf, p, l + CRLF) && NoCrlf(l)
    ensures CrlfFrom(buf, p) == Some(p + |l|) && buf[p..p + |l|] == l
  {
    AtSplit(buf, p, l, CRLF);
    CrlfHere(buf, p + |l|);
    forall j | p <= j < p + |l| ensures !CrlfAt(buf, j) {
      AtByte(buf, p, l, j - p);
      if j + 1 < p + |l| {
        AtByte(buf, p, l, j + 1 - p);
        assert !CrlfAt(l, j - p);
      }
    }
    CrlfIs(buf, p, p + |l|);
    AtSlice(buf, p, l);
  }

  /** The line up to the first CRLF. */
  lemma LineBefore(buf: bytes, p: nat)
    requires p <= |buf| && CrlfFrom(buf, p).Some?
    ensures var i := CrlfFrom(buf, p).value; NoCrlf(buf[p..i]) && buf[p..i + 2] == buf[p..i] + CRLF
  {
    var i := CrlfFrom(buf, p).value;
    CrlfFound(buf, p);
    forall j: nat ensures !CrlfAt(buf[p..i], j) {
      if CrlfAt(buf[p..i], j) {
        assert CrlfAt(buf, p + j);
      }
    }
  }

  // -------------------------------------------------------------------------- framing

  /** The values of the Content-Length headers. */
  function Lengths(hs: seq<Header>): (vs: seq<bytes>) {
    if hs == [] then [] else (if EqualFold(hs[0].name, "content-length") then [hs[0].value] else []) + Lengths(hs[1..])
  }

  predicate AsksForChunks(h: Header) {
    EqualFold(h.name, "transfer-encoding") && EqualFold(h.value, "chunked")
  }

  predicate AnyChunks(hs: seq<Header>) {
    exists i :: 0 <= i < |hs| && AsksForChunks(hs[i])
  }

  /** At most one Content-Length, and that a numeral. */
  predicate LengthsGood(vs: seq<bytes>) {
    vs == [] || (|vs| == 1 && ParseNumeral(10, vs[0]).Some?)
  }

  /** What headers with good lengths say. */
  function MetaWith(meta: Meta, hs: seq<Header>): (m: Meta)
    requires LengthsGood(Lengths(hs))
  {
    var m := meta.(chunked := meta.chunked || AnyChunks(hs));
    if Lengths(hs) == [] then m else m.(hasLength := true, length := ParseNumeral(10, Lengths(hs)[0]).value)
  }

  lemma ChunksAmong(h: Header, hs: seq<Header>)
    ensures AnyChunks([h] + hs) <==> AsksForChunks(h) || AnyChunks(hs)
  {
    var all := [h] + hs;
    assert all[0] == h && forall i | 0 <= i < |hs| :: all[i + 1] == hs[i];
    if AnyChunks(all) {
      var i :| 0 <= i < |all| && AsksForChunks(all[i]);
      assert i == 0 || AsksForChunks(hs[i - 1]);
    }
    if AnyChunks(hs) {
      var i :| 0 <= i < |hs| && AsksForChunks(hs[i]);
      assert AsksForChunks(all[i + 1]);
    }
  }

  lemma LengthIsNoCoding(h: Header)
    ensures !(EqualFold(h.name, "content-length") && EqualFold(h.name, "transfer-encoding"))
  {
    assert |"content-length"| == 14 && |"transfer-encoding"| == 17;
  }

  /** One header more in front. */
  lemma AppliedOne(meta: Meta, h: Header, rest: seq<Header>)
    ensures Lengths([h] + rest) == (if EqualFold(h.name, "content-length") then [h.value] else []) + Lengths(rest)
    ensures ApplyHeader(meta, h).Some? <==> !EqualFold(h.name, "content-length") || (!meta.hasLength && ParseNumeral(10, h.value).Some?)
    ensures ApplyHeader(meta, h).Some? ==>
              ApplyHeader(meta, h).value == if EqualFold(h.name, "content-length")
                                            then meta.(hasLength := true, length := ParseNumeral(10, h.value).value)
                                            else meta.(chunked := meta.chunked || AsksForChunks(h))
  {
    assert ([h] + rest)[1..] == rest;
  }

  /** Applying headers one by one succeeds exactly when, all together, they are good. */
  lemma {:induction false} AppliedExactly(meta: Meta, hs: seq<Header>)
    ensures Applied(meta, hs).Some? <==> if meta.hasLength then Lengths(hs) == [] else LengthsGood(Lengths(hs))
    ensures Applied(meta, hs).Some? ==> LengthsGood(Lengths(hs)) && Applied(meta, hs).value == MetaWith(meta, hs)
    decreases |hs|
  {
    if hs != [] {
      var h, rest := hs[0], hs[1..];
      assert hs == [h] + rest;
      AppliedOne(meta, h, rest);
      ChunksAmong(h, rest);
      LengthIsNoCoding(h);
      if ApplyHeader(meta, h).Some? {
        AppliedExactly(ApplyHeader(meta, h).value, rest);
      }
    }
  }

  // ------------------------------------------------------------------------ the header section

  lemma LinesSplit(ls: seq<bytes>, buf: bytes, p: nat, t: bytes)
    requires ls != [] && At(buf, p, Lines(ls) + t)
    ensures At(buf, p, ls[0] + CRLF) && At(buf, p + |ls[0]| + 2, Lines(ls[1..]) + t)
    ensures |Lines(ls)| == |ls[0]| + 2 + |Lines(ls[1..])|
  {
    AtThree(buf, p, ls[0] + CRLF, Lines(ls[1..]), t);
  }

  /** What is read of a header section behind some headers. */
  function Behind(hs: seq<Header>, r: Head): (r': Head) {
    if r.HeadDone? then r.(headers := hs + r.headers) else r
  }

  lemma BehindNone(r: Head)
    ensures Behind([], r) == r
  {
    if r.HeadDone? {
      EmptyAppend(r.headers);
    }
  }

  lemma BehindTwo(h: Header, hs: seq<Header>, r: Head)
    ensures Behind([h], Behind(hs, r)) == Behind([h] + hs, r)
  {
    if r.HeadDone? {
      Assoc([h], hs, r.headers);
    }
  }

  /** A first line that is good. */
  lemma HeadersOne(g: LineGrammar, meta: Meta, buf: bytes, p: nat, l: bytes, h: Header)
    requires At(buf, p, l + CRLF) && HeaderLine(g, l) && g.header(l) == Some(h)
    ensures p + |l| + 2 <= |buf|
    ensures ApplyHeader(meta, h).None? ==> ParseHeaders(g, meta, buf, p) == HeadRejected(SemanticError(meta))
    ensures ApplyHeader(meta, h).Some? ==>
              ParseHeaders(g, meta, buf, p) == Behind([h], ParseHeaders(g, ApplyHeader(meta, h).value, buf, p + |l| + 2))
  {
    FirstCrlf(buf, p, l);
    AtByte(buf, p, l + CRLF, 0);
  }

  lemma AppliedFirst(meta: Meta, h: Header, hs: seq<Header>)
    requires Applied(meta, [h] + hs).Some?
    ensures ApplyHeader(meta, h).Some? && Applied(meta, [h] + hs) == Applied(ApplyHeader(meta, h).value, hs)
  {
    assert ([h] + hs)[1..] == hs;
  }

  /** Good lines are read; what follows them is read next. */
  lemma {:induction false} LinesRead(g: LineGrammar, meta: Meta, ls: seq<bytes>, buf: bytes, p: nat, t: bytes)
    requires At(buf, p, Lines(ls) + t) && HeaderLines(g, ls) && Applied(meta, HeadersIn(g, ls)).Some?
    ensures p + |Lines(ls)| <= |buf|
    ensures ParseHeaders(g, meta, buf, p) ==
            Behind(HeadersIn(g, ls), ParseHeaders(g, Applied(meta, HeadersIn(g, ls)).value, buf, p + |Lines(ls)|))
    decreases |ls|
  {
    if ls == [] {
      BehindNone(ParseHeaders(g, meta, buf, p));
    } else {
      var h, rest := g.header(ls[0]).value, HeadersIn(g, ls[1..]);
      LinesSplit(ls, buf, p, t);
      HeadersOne(g, meta, buf, p, ls[0], h);
      AppliedFirst(meta, h, rest);
      LinesRead(g, ApplyHeader(meta, h).value, ls[1..], buf, p + |ls[0]| + 2, t);
      BehindTwo(h, rest, ParseHeaders(g, Applied(meta, HeadersIn(g, ls)).value, buf, p + |Lines(ls)|));
    }
  }

  lemma SectionEnds(g: LineGrammar, meta: Meta, buf: bytes, p: nat)
    requires At(buf, p, CRLF)
    ensures ParseHeaders(g, meta, buf, p) == HeadDone(meta, [], p + 2)
  {
    CrlfHere(buf, p);
  }

  /** A printed header section, with what follows it. */
  lemma SectionReads(g: LineGrammar, meta: Meta, ls: seq<bytes>, buf: bytes, p: nat)
    requires At(buf, p, Lines(ls) + CRLF) && HeaderLines(g, ls) && Applied(meta, HeadersIn(g, ls)).Some?
    ensures ParseHeaders(g, meta, buf, p) == HeadDone(Applied(meta, HeadersIn(g, ls)).value, HeadersIn(g, ls), p + |Lines(ls)| + 2)
  {
    LinesRead(g, meta, ls, buf, p, CRLF);
    AtSplit(buf, p, Lines(ls), CRLF);
    SectionEnds(g, Applied(meta, HeadersIn(g, ls)).value, buf, p + |Lines(ls)|);
    EmptyAppend(HeadersIn(g, ls));
  }

  lemma OneLineMore(l: bytes, ls: seq<bytes>, g: LineGrammar)
    requires HeaderLine(g, l) && HeaderLines(g, ls)
    ensures HeaderLines(g, [l] + ls) && HeadersIn(g, [l] + ls) == [g.header(l).value] + HeadersIn(g, ls)
    ensures Lines([l] + ls) == l + CRLF + Lines(ls)
  {
    assert ([l] + ls)[1..] == ls;
  }

  /** A header section that was read was printed so. */
  lemma {:induction false} SectionWas(g: LineGrammar, meta: Meta, buf: bytes, p: nat) returns (ls: seq<bytes>)
    requires p <= |buf| && ParseHeaders(g, meta, buf, p).HeadDone?
    ensures var r := ParseHeaders(g, meta, buf, p);
            && HeaderLines(g, ls) && HeadersIn(g, ls) == r.headers && Applied(meta, r.headers) == Some(r.meta)
            && buf[p..r.next] == Lines(ls) + CRLF
    decreases |buf| - p
  {
    var r := ParseHeaders(g, meta, buf, p);
    if buf[p] == CR {
      ls := [];
      EmptyAppend(CRLF);
    } else {
      var i := CrlfFrom(buf, p).value;
      var l, h := buf[p..i], g.header(buf[p..i]).value;
      LineBefore(buf, p);
      FirstIsNoCr(buf, p, i);
      var ls' := SectionWas(g, ApplyHeader(meta, h).value, buf, i + 2);
      ls := [l] + ls';
      OneLineMore(l, ls', g);
      assert ([h] + HeadersIn(g, ls'))[1..] == HeadersIn(g, ls');
      JoinTwo(buf, p, i + 2, r.next);
      Assoc(l + CRLF, Lines(ls'), CRLF);
    }
  }

  lemma FirstIsNoCr(buf: bytes, p: nat, i: nat)
    requires p <= |buf| && CrlfFrom(buf, p) == Some(i) && buf[p] != CR
    ensures p < i && buf[p..i][0] != CR
  {
    CrlfFound(buf, p);
  }

  lemma JoinTwo(s: bytes, a: nat, b: nat, c: nat)
    requires a <= b <= c <= |s|
    ensures s[a..c] == s[a..b] + s[b..c]
  {
  }

  // ----------------------------------------------------------------------------- chunks

  /** A chunk as it is written: the size line and the data. */
  datatype Piece = Piece(size: bytes, data: bytes)

  ghost predicate GoodPiece(g: LineGrammar, c: Piece) {
    c.data != [] && NoCrlf(c.size) && g.size(c.size) == Some(|c.data|)
  }

  ghost predicate GoodPieces(g: LineGrammar, cs: seq<Piece>) {
    forall i | 0 <= i < |cs| :: GoodPiece(g, cs[i])
  }

  function PieceText(c: Piece): (t: bytes) { c.size + CRLF + (c.data + CRLF) }

  function PiecesText(cs: seq<Piece>): (t: bytes) {
    if cs == [] then [] else PieceText(cs[0]) + PiecesText(cs[1..])
  }

  function DataIn(cs: seq<Piece>): (b: bytes) {
    if cs == [] then [] else cs[0].data + DataIn(cs[1..])
  }

  /** A chunked body as it is written: chunks, a size line that says zero, and an empty line. */
  ghost predicate ChunkedText(g: LineGrammar, text: bytes, cs: seq<Piece>, last: bytes) {
    GoodPieces(g, cs) && NoCrlf(last) && g.size(last) == Some(0) && text == PiecesText(cs) + (last + CRLF + CRLF)
  }

  lemma PieceRead(g: LineGrammar, c: Piece, buf: bytes, p: nat)
    requires At(buf, p, PieceText(c)) && GoodPiece(g, c)
    ensures TakeChunk(g, buf, p) == Some(Data(c.data, p + |PieceText(c)|))
  {
    AtSplit(buf, p, c.size + CRLF, c.data + CRLF);
    FirstCrlf(buf, p, c.size);
    AtSplit(buf, p + |c.size| + 2, c.data, CRLF);
    AtSlice(buf, p + |c.size| + 2, c.data);
    CrlfHere(buf, p + |c.size| + 2 + |c.data|);
  }

  lemma ZeroRead(g: LineGrammar, last: bytes, buf: bytes, p: nat)
    requires At(buf, p, last + CRLF + CRLF) && NoCrlf(last) && g.size(last) == Some(0)
    ensures TakeChunk(g, buf, p) == Some(Last(p + |last| + 4))
  {
    AtSplit(buf, p, last + CRLF, CRLF);
    FirstCrlf(buf, p, last);
    CrlfHere(buf, p + |last| + 2);
  }

  /** The chunks written here are read, and end here. */
  ghost predicate ChunksEnd(g: LineGrammar, buf: bytes, p: nat, data: bytes, end: nat) {
    p <= |buf| && ParseChunks(g, buf, p).Some? && Concat(ParseChunks(g, buf, p).value.parts) == data && ParseChunks(g, buf, p).value.next == end
  }

  lemma ChunkInFront(g: LineGrammar, buf: bytes, p: nat, data: bytes, next: nat, more: bytes, end: nat)
    requires p <= |buf| && TakeChunk(g, buf, p) == Some(Data(data, next)) && ChunksEnd(g, buf, next, more, end)
    ensures ChunksEnd(g, buf, p, data + more, end)
  {
    var rest := ParseChunks(g, buf, next).value.parts;
    assert ([data] + rest)[1..] == rest;
  }

  /** A chunked body that is written so is read. */
  lemma {:induction false} ChunkedReads(g: LineGrammar, cs: seq<Piece>, last: bytes, buf: bytes, p: nat)
    requires GoodPieces(g, cs) && NoCrlf(last) && g.size(last) == Some(0) && At(buf, p, PiecesText(cs) + (last + CRLF + CRLF))
    ensures ChunksEnd(g, buf, p, DataIn(cs), p + |PiecesText(cs)| + |last| + 4)
    decreases |cs|
  {
    if cs == [] {
      EmptyAppend(last + CRLF + CRLF);
      ZeroRead(g, last, buf, p);
    } else {
      var next := p + |PieceText(cs[0])|;
      AtThree(buf, p, PieceText(cs[0]), PiecesText(cs[1..]), last + CRLF + CRLF);
      PieceRead(g, cs[0], buf, p);
      ChunkedReads(g, cs[1..], last, buf, next);
      ChunkInFront(g, buf, p, cs[0].data, next, DataIn(cs[1..]), next + |PiecesText(cs[1..])| + |last| + 4);
    }
  }

  lemma ChunkWas(g: LineGrammar, buf: bytes, p: nat) returns (size: bytes)
    requires p <= |buf| && TakeChunk(g, buf, p).Some?
    ensures match TakeChunk(g, buf, p).value
            case Data(data, next) => GoodPiece(g, Piece(size, data)) && buf[p..next] == PieceText(Piece(size, data))
            case Last(next) => NoCrlf(size) && g.size(size) == Some(0) && buf[p..next] == size + CRLF + CRLF
  {
    var i := CrlfFrom(buf, p).value;
    size := buf[p..i];
    LineBefore(buf, p);
    match TakeChunk(g, buf, p).value
    case Data(data, next) =>
      JoinTwo(buf, p, i + 2, next);
      JoinTwo(buf, i + 2, next - 2, next);
      CrlfSlice(buf, next - 2);
    case Last(next) =>
      JoinTwo(buf, p, i + 2, next);
      CrlfSlice(buf, i + 2);
  }

  lemma CrlfSlice(buf: bytes, p: nat)
    requires CrlfAt(buf, p)
    ensures buf[p..p + 2] == CRLF
  {
  }

  /** A chunked body that was read was written so. */
  lemma {:induction false} ChunksWere(g: LineGrammar, buf: bytes, p: nat) returns (cs: seq<Piece>, last: bytes)
    requires p <= |buf| && ParseChunks(g, buf, p).Some?
    ensures var c := ParseChunks(g, buf, p).value; ChunkedText(g, buf[p..c.next], cs, last) && DataIn(cs) == Concat(c.parts)
    decreases |buf| - p
  {
    var size := ChunkWas(g, buf, p);
    match TakeChunk(g, buf, p).value
    case Last(next) =>
      cs, last := [], size;
      EmptyAppend(last + CRLF + CRLF);
    case Data(data, next) =>
      var cs', last' := ChunksWere(g, buf, next);
      var c, rest := Piece(size, data), ParseChunks(g, buf, next).value.parts;
      cs, last := [c] + cs', last';
      assert cs[1..] == cs' && ([data] + rest)[1..] == rest;
      JoinTwo(buf, p, next, ParseChunks(g, buf, p).value.next);
      Assoc(PieceText(c), PiecesText(cs'), last + CRLF + CRLF);
  }

  // --------------------------------------------------------------------------- the body

  /** What stands behind the head, and what body it is: chunks if a header asks for them, whatever else is said; the
      bytes of the Content-Length; or nothing. */
  ghost predicate BodyText(g: LineGrammar, hs: seq<Header>, rest: bytes, body: bytes) {
    if AnyChunks(hs) then exists cs, last :: ChunkedText(g, rest, cs, last) && body == DataIn(cs)
    else if Lengths(hs) != [] then rest == body && ParseNumeral(10, Lengths(hs)[0]) == Some(|rest|)
    else rest == [] && body == []
  }

  /** How the body is delimited: as section 6.3 of RFC 9112 has it, a response that says nothing having a body up to
      the end of the connection unless its status is 1xx, 204 or 304. */
  function ModeOf(start: StartLine, hs: seq<Header>): (m: Mode) {
    if AnyChunks(hs) then ChunkedBody
    else if Lengths(hs) != [] then if ParseNumeral(10, Lengths(hs)[0]) == Some(0) then NoBody else LengthBody
    else
      match start
      case Req(_) => NoBody
      case Rsp(l) => if 100 <= l.status <= 199 || l.status == 204 || l.status == 304 then NoBody else EofBody
  }

  lemma ModeIs(start: StartLine, hs: seq<Header>)
    requires LengthsGood(Lengths(hs))
    ensures BodyMode(MetaWith(StartMeta(start), hs)) == ModeOf(start, hs)
  {
  }

  lemma BodyReads(g: LineGrammar, start: StartLine, hs: seq<Header>, buf: bytes, p: nat, rest: bytes, body: bytes)
    requires LengthsGood(Lengths(hs)) && BodyText(g, hs, rest, body) && p <= |buf| && buf[p..] == rest
    ensures ParseBody(g, MetaWith(StartMeta(start), hs), buf, p) == BodyDone(body, |buf|)
  {
    var meta := MetaWith(StartMeta(start), hs);
    ModeIs(start, hs);
    assert |rest| == |buf| - p;
    if AnyChunks(hs) {
      var cs, last :| ChunkedText(g, rest, cs, last) && body == DataIn(cs);
      assert At(buf, p, PiecesText(cs) + (last + CRLF + CRLF));
      ChunkedReads(g, cs, last, buf, p);
    } else if Lengths(hs) != [] {
      assert buf[p..p + |rest|] == rest;
    }
  }

  lemma BodyWas(g: LineGrammar, start: StartLine, hs: seq<Header>, buf: bytes, p: nat, body: bytes)
    requires LengthsGood(Lengths(hs)) && p <= |buf| && ParseBody(g, MetaWith(StartMeta(start), hs), buf, p) == BodyDone(body, |buf|)
    ensures BodyText(g, hs, buf[p..], body)
  {
    ModeIs(start, hs);
    if AnyChunks(hs) {
      var cs, last := ChunksWere(g, buf, p);
      assert buf[p..|buf|] == buf[p..];
    } else if Lengths(hs) != [] {
      assert |body| == |buf| - p;
      assert buf[p..|buf|] == buf[p..];
    }
  }

  // ---------------------------------------------------------------------- whole messages

  /** A message as it is written. */
  datatype Shape = Shape(line: bytes, ls: seq<bytes>, rest: bytes)

  function TextOf(s: Shape): (t: bytes) {
    s.line + CRLF + (Lines(s.ls) + CRLF) + s.rest
  }

  /** The text is a message of this kind, and says this. */
  ghost predicate Forms(g: LineGrammar, kind: Kind, s: Shape, msg: Message) {
    && NoCrlf(s.line) && ParseStart(g, kind, s.line) == Some(msg.start)
    && HeaderLines(g, s.ls) && msg.headers == HeadersIn(g, s.ls) && LengthsGood(Lengths(msg.headers))
    && BodyText(g, msg.headers, s.rest, msg.body) && msg.mode == ModeOf(msg.start, msg.headers)
    && msg.meta == MetaWith(StartMeta(msg.start), msg.headers)
  }

  /** Where the parts of such a text stand. */
  ghost predicate Stands(s: Shape, m: bytes) {
    var p := |s.line| + 4 + |Lines(s.ls)|;
    At(m, 0, s.line + CRLF) && At(m, |s.line| + 2, Lines(s.ls) + CRLF) && p <= |m| && m[p..] == s.rest
  }

  lemma TextStands(s: Shape, m: bytes)
    requires m == TextOf(s)
    ensures Stands(s, m)
  {
    AtSplit(m, 0, s.line + CRLF + (Lines(s.ls) + CRLF), s.rest);
    AtSplit(m, 0, s.line + CRLF, Lines(s.ls) + CRLF);
  }

  lemma StartStands(s: Shape, m: bytes)
    requires Stands(s, m) && NoCrlf(s.line)
    ensures CrlfFrom(m, 0) == Some(|s.line|) && m[0..|s.line|] == s.line
  {
    FirstCrlf(m, 0, s.line);
  }

  lemma HeadStands(g: LineGrammar, s: Shape, meta: Meta, hs: seq<Header>, m: bytes)
    requires Stands(s, m) && HeaderLines(g, s.ls) && hs == HeadersIn(g, s.ls) && LengthsGood(Lengths(hs)) && !meta.hasLength
    ensures ParseHeaders(g, meta, m, |s.line| + 2) == HeadDone(MetaWith(meta, hs), hs, |s.line| + 4 + |Lines(s.ls)|)
  {
    AppliedExactly(meta, hs);
    SectionReads(g, meta, s.ls, m, |s.line| + 2);
  }

  /** The parts of a message make it up. */
  lemma MessageFrom(g: LineGrammar, kind: Kind, m: bytes, i: nat, start: StartLine, meta: Meta, hs: seq<Header>, p: nat, body: bytes)
    requires CrlfFrom(m, 0) == Some(i) && i + 2 <= |m| && ParseStart(g, kind, m[0..i]) == Some(start)
    requires p <= |m| && ParseHeaders(g, StartMeta(start), m, i + 2) == HeadDone(meta, hs, p) && ParseBody(g, meta, m, p) == BodyDone(body, |m|)
    ensures ParseMessage(g, kind, m) == Accepted(Message(start, hs, meta, BodyMode(meta), body))
  {
    assert m[..i] == m[0..i];
  }

  lemma ShapeStands(g: LineGrammar, kind: Kind, s: Shape, msg: Message, m: bytes, p: nat, meta: Meta)
    requires Forms(g, kind, s, msg) && Stands(s, m) && p == |s.line| + 4 + |Lines(s.ls)| && meta == StartMeta(msg.start)
    ensures ParseMessage(g, kind, m) == Accepted(msg)
  {
    StartStands(s, m);
    HeadStands(g, s, meta, msg.headers, m);
    BodyReads(g, msg.start, msg.headers, m, p, s.rest, msg.body);
    ModeIs(msg.start, msg.headers);
    MessageFrom(g, kind, m, |s.line|, msg.start, msg.meta, msg.headers, p, msg.body);
  }

  lemma ShapeReads(g: LineGrammar, kind: Kind, s: Shape, msg: Message, m: bytes)
    requires Forms(g, kind, s, msg) && m == TextOf(s)
    ensures ParseMessage(g, kind, m) == Accepted(msg)
  {
    TextStands(s, m);
    ShapeStands(g, kind, s, msg, m, |s.line| + 4 + |Lines(s.ls)|, StartMeta(msg.start));
  }

  lemma WasShaped(g: LineGrammar, kind: Kind, m: bytes) returns (s: Shape)
    requires ParseMessage(g, kind, m).Accepted?
    ensures Forms(g, kind, s, ParseMessage(g, kind, m).msg) && m == TextOf(s)
  {
    var msg, i := ParseMessage(g, kind, m).msg, CrlfFrom(m, 0).value;
    var meta := StartMeta(msg.start);
    var head := ParseHeaders(g, meta, m, i + 2);
    var ls := SectionWas(g, meta, m, i + 2);
    s := Shape(m[..i], ls, m[head.next..]);
    LineBefore(m, 0);
    assert m[0..i] == m[..i];
    AppliedExactly(meta, msg.headers);
    BodyWas(g, msg.start, msg.headers, m, head.next, msg.body);
    ModeIs(msg.start, msg.headers);
    JoinTwo(m, 0, i + 2, head.next);
    assert m == m[0..head.next] + m[head.next..];
  }

  /** The one-shot parser accepts exactly the texts of this grammar, and says of them what it says. */
  lemma AcceptedExactly(g: LineGrammar, kind: Kind, m: bytes, msg: Message)
    ensures ParseMessage(g, kind, m) == Accepted(msg) <==> exists s :: Forms(g, kind, s, msg) && m == TextOf(s)
  {
    if ParseMessage(g, kind, m) == Accepted(msg) {
      var s := WasShaped(g, kind, m);
    }
    if s :| Forms(g, kind, s, msg) && m == TextOf(s) {
      ShapeReads(g, kind, s, msg, m);
    }
  }

  // -------------------------------------------------------------------------- rejections

  /** The first Content-Length line that is wrong: it repeats one, or is no numeral. */
  ghost predicate BadLine(g: LineGrammar, before: seq<Header>, l: bytes, e: Err) {
    && HeaderLine(g, l) && EqualFold(g.header(l).value.name, "content-length")
    && if Lengths(before) != [] then e == ErrDuplicateLength else ParseNumeral(10, g.header(l).value.value).None? && e == ErrInvalidLength
  }

  /** A message up to a wrong line, and anything behind it. */
  ghost predicate Spoilt(g: LineGrammar, kind: Kind, line: bytes, ls: seq<bytes>, l: bytes, e: Err) {
    && NoCrlf(line) && ParseStart(g, kind, line).Some? && HeaderLines(g, ls) && LengthsGood(Lengths(HeadersIn(g, ls)))
    && BadLine(g, HeadersIn(g, ls), l, e)
  }

  function SpoiltText(line: bytes, ls: seq<bytes>, l: bytes, rest: bytes): (t: bytes) {
    line + CRLF + (Lines(ls) + (l + CRLF)) + rest
  }

  lemma BadApplies(meta: Meta, before: seq<Header>, g: LineGrammar, l: bytes, e: Err)
    requires !meta.hasLength && LengthsGood(Lengths(before)) && BadLine(g, before, l, e)
    ensures var meta' := MetaWith(meta, before); ApplyHeader(meta', g.header(l).value).None? && SemanticError(meta') == e
  {
  }

  lemma SectionRejects(g: LineGrammar, meta: Meta, ls: seq<bytes>, l: bytes, buf: bytes, p: nat, e: Err)
    requires At(buf, p, Lines(ls) + (l + CRLF)) && !meta.hasLength && HeaderLines(g, ls) && LengthsGood(Lengths(HeadersIn(g, ls)))
    requires BadLine(g, HeadersIn(g, ls), l, e)
    ensures ParseHeaders(g, meta, buf, p) == HeadRejected(e)
  {
    AppliedExactly(meta, HeadersIn(g, ls));
    LinesRead(g, meta, ls, buf, p, l + CRLF);
    AtSplit(buf, p, Lines(ls), l + CRLF);
    BadApplies(meta, HeadersIn(g, ls), g, l, e);
    HeadersOne(g, MetaWith(meta, HeadersIn(g, ls)), buf, p + |Lines(ls)|, l, g.header(l).value);
  }

  lemma SpoiltStands(line: bytes, ls: seq<bytes>, l: bytes, rest: bytes, m: bytes)
    requires m == SpoiltText(line, ls, l, rest)
    ensures At(m, 0, line + CRLF) && At(m, |line| + 2, Lines(ls) + (l + CRLF))
  {
    AtSplit(m, 0, line + CRLF + (Lines(ls) + (l + CRLF)), rest);
    AtSplit(m, 0, line + CRLF, Lines(ls) + (l + CRLF));
  }

  lemma SpoiltReads(g: LineGrammar, kind: Kind, line: bytes, ls: seq<bytes>, l: bytes, rest: bytes, e: Err, m: bytes)
    requires Spoilt(g, kind, line, ls, l, e) && m == SpoiltText(line, ls, l, rest)
    ensures ParseMessage(g, kind, m) == Rejected(e)
  {
    SpoiltStands(line, ls, l, rest, m);
    FirstCrlf(m, 0, line);
    assert m[..|line|] == m[0..|line|];
    SectionRejects(g, StartMeta(ParseStart(g, kind, line).value), ls, l, m, |line| + 2, e);
  }

  /** Where a header section was rejected. */
  lemma {:induction false} SectionSpoilt(g: LineGrammar, meta: Meta, buf: bytes, p: nat) returns (ls: seq<bytes>, l: bytes, q: nat)
    requires p <= |buf| && ParseHeaders(g, meta, buf, p).HeadRejected?
    ensures HeaderLines(g, ls) && HeaderLine(g, l) && q <= |buf| && p <= q && buf[p..q] == Lines(ls) + (l + CRLF)
    ensures Applied(meta, HeadersIn(g, ls)).Some?
    ensures var meta' := Applied(meta, HeadersIn(g, ls)).value;
            ApplyHeader(meta', g.header(l).value).None? && ParseHeaders(g, meta, buf, p).err == SemanticError(meta')
    decreases |buf| - p
  {
    var i := CrlfFrom(buf, p).value;
    var t, h := buf[p..i], g.header(buf[p..i]).value;
    LineBefore(buf, p);
    FirstIsNoCr(buf, p, i);
    if ApplyHeader(meta, h).None? {
      ls, l, q := [], t, i + 2;
      EmptyAppend(l + CRLF);
    } else {
      var ls' ;
      ls', l, q := SectionSpoilt(g, ApplyHeader(meta, h).value, buf, i + 2);
      ls := [t] + ls';
      OneLineMore(t, ls', g);
      assert ([h] + HeadersIn(g, ls'))[1..] == HeadersIn(g, ls');
      JoinTwo(buf, p, i + 2, q);
      Assoc(t + CRLF, Lines(ls'), l + CRLF);
    }
  }

  lemma WasSpoilt(g: LineGrammar, kind: Kind, m: bytes) returns (line: bytes, ls: seq<bytes>, l: bytes, rest: bytes)
    requires ParseMessage(g, kind, m).Rejected?
    ensures Spoilt(g, kind, line, ls, l, ParseMessage(g, kind, m).err) && m == SpoiltText(line, ls, l, rest)
  {
    var i := CrlfFrom(m, 0).value;
    line := m[..i];
    var meta := StartMeta(ParseStart(g, kind, line).value);
    var q;
    ls, l, q := SectionSpoilt(g, meta, m, i + 2);
    rest := m[q..];
    LineBefore(m, 0);
    assert m[0..i] == m[..i];
    AppliedExactly(meta, HeadersIn(g, ls));
    AppliedOne(Applied(meta, HeadersIn(g, ls)).value, g.header(l).value, []);
    JoinTwo(m, 0, i + 2, q);
    assert m == m[0..q] + m[q..];
  }

  /** It rejects exactly the texts with a good start line and good header lines up to a Content-Length line that repeats
      one or is no numeral, whatever follows. */
  lemma RejectedExactly(g: LineGrammar, kind: Kind, m: bytes, e: Err)
    ensures ParseMessage(g, kind, m) == Rejected(e) <==>
            exists line, ls, l, rest :: Spoilt(g, kind, line, ls, l, e) && m == SpoiltText(line, ls, l, rest)
  {
    if ParseMessage(g, kind, m) == Rejected(e) {
      var line, ls, l, rest := WasSpoilt(g, kind, m);
    }
    if line, ls, l, rest :| Spoilt(g, kind, line, ls, l, e) && m == SpoiltText(line, ls, l, rest) {
      SpoiltReads(g, kind, line, ls, l, rest, e, m);
    }
  }

  // ------------------------------------------------------------------ a wrong end of the chunks

  /** Chunks, a size line that says zero, and two bytes that are no CRLF. */
  ghost predicate WrongEnd(g: LineGrammar, text: bytes, cs: seq<Piece>, last: bytes) {
    && GoodPieces(g, cs) && NoCrlf(last) && g.size(last) == Some(0)
    && |PiecesText(cs)| + |last| + 4 <= |text| && text[..|PiecesText(cs)| + |last| + 2] == PiecesText(cs) + (last + CRLF)
    && !CrlfAt(text, |PiecesText(cs)| + |last| + 2)
  }

  lemma {:induction false} WrongEndFails(g: LineGrammar, cs: seq<Piece>, last: bytes, buf: bytes, p: nat)
    requires GoodPieces(g, cs) && NoCrlf(last) && g.size(last) == Some(0) && At(buf, p, PiecesText(cs) + (last + CRLF))
    requires var k := p + |PiecesText(cs)| + |last| + 2; k + 2 <= |buf| && !CrlfAt(buf, k)
    ensures FastPaths.BadEnd(g, buf, p)
    decreases |cs|
  {
    if cs == [] {
      EmptyAppend(last + CRLF);
      FirstCrlf(buf, p, last);
    } else {
      AtThree(buf, p, PieceText(cs[0]), PiecesText(cs[1..]), last + CRLF);
      PieceRead(g, cs[0], buf, p);
      PieceLine(cs[0], buf, p);
      WrongEndFails(g, cs[1..], last, buf, p + |PieceText(cs[0])|);
    }
  }

  lemma PieceLine(c: Piece, buf: bytes, p: nat)
    requires At(buf, p, PieceText(c)) && NoCrlf(c.size)
    ensures CrlfFrom(buf, p) == Some(p + |c.size|) && buf[p..p + |c.size|] == c.size && CrlfAt(buf, p + |c.size| + 2 + |c.data|)
  {
    AtSplit(buf, p, c.size + CRLF, c.data + CRLF);
    FirstCrlf(buf, p, c.size);
    AtSplit(buf, p + |c.size| + 2, c.data, CRLF);
    CrlfHere(buf, p + |c.size| + 2 + |c.data|);
  }

  lemma {:induction false} FailureWasWrongEnd(g: LineGrammar, buf: bytes, p: nat) returns (cs: seq<Piece>, last: bytes)
    requires p <= |buf| && FastPaths.BadEnd(g, buf, p)
    ensures WrongEnd(g, buf[p..], cs, last)
    decreases |buf| - p
  {
    var i := CrlfFrom(buf, p).value;
    LineBefore(buf, p);
    if g.size(buf[p..i]) == Some(0) {
      cs, last := [], buf[p..i];
      ZeroWas(buf, p, i);
    } else {
      var size := ChunkWas(g, buf, p);
      var next := TakeChunk(g, buf, p).value.next;
      var data := TakeChunk(g, buf, p).value.data;
      var cs';
      cs', last := FailureWasWrongEnd(g, buf, next);
      cs := [Piece(size, data)] + cs';
      OneMoreInFront(g, buf, p, next, Piece(size, data), cs', last);
    }
  }

  lemma ZeroWas(buf: bytes, p: nat, i: nat)
    requires p <= i && CrlfAt(buf, i) && buf[p..i + 2] == buf[p..i] + CRLF && i + 4 <= |buf| && !CrlfAt(buf, i + 2)
    ensures var text, last := buf[p..], buf[p..i];
            text[..|last| + 2] == [] + (last + CRLF) && |last| + 4 <= |text| && !CrlfAt(text, |last| + 2)
  {
    EmptyAppend(buf[p..i] + CRLF);
    assert buf[p..][..i - p + 2] == buf[p..i + 2];
  }

  lemma OneMoreInFront(g: LineGrammar, buf: bytes, p: nat, next: nat, c: Piece, cs: seq<Piece>, last: bytes)
    requires p <= next <= |buf| && GoodPiece(g, c) && buf[p..next] == PieceText(c) && WrongEnd(g, buf[next..], cs, last)
    ensures WrongEnd(g, buf[p..], [c] + cs, last)
  {
    var k := |PiecesText(cs)| + |last| + 2;
    assert ([c] + cs)[1..] == cs;
    Assoc(PieceText(c), PiecesText(cs), last + CRLF);
    JoinTwo(buf, p, next, next + k);
    assert buf[next..][..k] == buf[next..next + k] && buf[p..][..next - p + k] == buf[p..next + k];
  }

  /** Where the fast path fails and the one-shot parser waits: behind the zero line stand two bytes that are no CRLF. */
  lemma BadEndExactly(g: LineGrammar, buf: bytes, p: nat)
    requires p <= |buf|
    ensures FastPaths.BadEnd(g, buf, p) <==> exists cs, last :: WrongEnd(g, buf[p..], cs, last)
  {
    if FastPaths.BadEnd(g, buf, p) {
      var cs, last := FailureWasWrongEnd(g, buf, p);
    }
    if cs, last :| WrongEnd(g, buf[p..], cs, last) {
      var t := PiecesText(cs) + (last + CRLF);
      forall j | 0 <= j < |t| ensures buf[p + j] == t[j] { assert buf[p..][..|t|][j] == t[j]; }
      WrongEndFails(g, cs, last, buf, p);
    }
  }
}
