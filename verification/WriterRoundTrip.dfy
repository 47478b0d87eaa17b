/** Whatever a handler writes, the repository's own parser reads back its status, its headers and its body. */
module WriterRoundTrip {
  import opened Bytes
  import opened Numerals
  import opened Grammar
  import opened Reference
  import opened Wire
  import opened Writing
  import opened WriterWire
  import opened ResponseText
  import opened WriterHeads

  // -------------------------------------------------------------------------- the body

  lemma {:induction false} GivenAppend(a: seq<Op>, b: seq<Op>)
    ensures GivenBy(a + b) == GivenBy(a) + GivenBy(b)
  {
    if a == [] {
      EmptyAppend(b);
      EmptyAppend(GivenBy(b));
    } else {
      GivenAppend(a[1..], b);
      DropAppend(a, b, 1);
      Assoc(Given(a[0]), GivenBy(a[1..]), GivenBy(b));
    }
  }

  lemma GivenOne(op: Op)
    ensures GivenBy([op]) == Given(op)
  {
    assert [op][1..] == [];
    EmptyAppend(Given(op));
  }

  lemma {:induction false} NonEmptyGives(parts: seq<bytes>)
    ensures Concat(NonEmpty(parts)) == Concat(parts)
  {
    if parts != [] {
      NonEmptyGives(parts[1..]);
      if parts[0] == [] {
        EmptyAppend(NonEmpty(parts[1..]));
        EmptyAppend(Concat(parts[1..]));
      } else {
        ConcatAppend([parts[0]], NonEmpty(parts[1..]));
        ConcatOne(parts[0]);
      }
    }
  }

  lemma PiecesOfGive(op: Op)
    ensures Concat(PiecesOf(op)) == Given(op)
  {
    match op
    case ReadFrom(parts) => NonEmptyGives(parts);
    case _ =>
      NonEmptyGives([DataOf(op)]);
      ConcatOne(DataOf(op));
  }

  lemma {:induction false} PiecesGive(ops: seq<Op>)
    ensures Concat(Pieces(ops)) == GivenBy(ops)
    decreases |ops|
  {
    if ops != [] {
      var before, op := ops[..|ops| - 1], ops[|ops| - 1];
      assert ops == before + [op];
      PiecesGive(before);
      PiecesOfGive(op);
      ConcatAppend(Pieces(before), PiecesOf(op));
      GivenAppend(before, [op]);
      GivenOne(op);
    }
  }

  /** Before the head goes out, at most the first Write has given something. */
  lemma {:induction false} GivenBefore(ops: seq<Op>)
    requires HeadAt(ops) == |ops|
    ensures GivenBy(ops) == FirstWrite(ops)
    decreases |ops|
  {
    if ops != [] {
      var before, op := ops[..|ops| - 1], ops[|ops| - 1];
      assert ops == before + [op];
      HeadAtSnoc(before, op);
      GivenBefore(before);
      FirstWriteSnoc(before, op);
      GivenAppend(before, [op]);
      GivenOne(op);
      EmptyAppend(Given(op));
      EmptyAppend(GivenBy(before));
    }
  }

  lemma NoneBefore(ops: seq<Op>)
    ensures HeadAt(ops[..HeadAt(ops)]) == HeadAt(ops)
  {
    var before := ops[..HeadAt(ops)];
    assert forall j | 0 <= j < |before| :: before[..j] == ops[..j];
  }

  lemma GivenInTwo(ops: seq<Op>, k: nat)
    requires k <= |ops|
    ensures GivenBy(ops) == GivenBy(ops[..k]) + GivenBy(ops[k..])
  {
    assert ops == ops[..k] + ops[k..];
    GivenAppend(ops[..k], ops[k..]);
  }

  /** What the first Write gave before the head, and what the others gave from the head on. */
  lemma BodySplit(ops: seq<Op>)
    ensures GivenBy(ops) == FirstWrite(ops[..HeadAt(ops)]) + GivenBy(ops[HeadAt(ops)..])
  {
    GivenInTwo(ops, HeadAt(ops));
    NoneBefore(ops);
    GivenBefore(ops[..HeadAt(ops)]);
  }

  ghost predicate AllSmall(parts: seq<bytes>) {
    forall i | 0 <= i < |parts| :: |parts[i]| < 0x8000_0000
  }

  lemma {:induction false} NonEmptySendable(parts: seq<bytes>)
    requires AllSmall(parts)
    ensures Sendable(NonEmpty(parts))
  {
    if parts != [] {
      NonEmptySendable(parts[1..]);
    }
  }

  lemma {:induction false} PiecesSendable(ops: seq<Op>)
    requires AllInRange(ops)
    ensures Sendable(Pieces(ops))
    decreases |ops|
  {
    if ops != [] {
      PiecesSendable(ops[..|ops| - 1]);
      var op := ops[|ops| - 1];
      assert InRange(op);
      NonEmptySendable(if op.ReadFrom? then op.parts else [DataOf(op)]);
    }
  }

  lemma {:induction false} FirstWriteSmall(ops: seq<Op>)
    requires AllInRange(ops)
    ensures |FirstWrite(ops)| < 0x8000_0000
  {
    if ops != [] {
      assert InRange(ops[0]);
      FirstWriteSmall(ops[1..]);
    }
  }

  lemma PartsSendable(env: Env, ops: seq<Op>)
    requires AllInRange(ops)
    ensures Sendable(Parts(env, ops))
  {
    var k := HeadAt(ops);
    FirstWriteSmall(ops[..k]);
    PiecesSendable(ops[k..]);
  }

  /** What the wire carries, framing aside: the body, or the body with what the first Write gave at its end. */
  lemma Carries(env: Env, ops: seq<Op>)
    ensures var k := HeadAt(ops);
            var held, later := FirstWrite(ops[..k]), GivenBy(ops[k..]);
            Concat(Parts(env, ops)) + Leftover(env, ops) ==
              if k < |ops| && PutsFirst(HeadOf(env, ops), ops[k]) then held + later else later + held
  {
    var k := HeadAt(ops);
    if k < |ops| {
      CarriesFrom(HeadOf(env, ops), FirstWrite(ops[..k]), ops[k..]);
    } else {
      assert ops[k..] == [];
    }
  }

  lemma CarriesFrom(h: Heading, held: bytes, rest: seq<Op>)
    requires rest != []
    ensures Concat(PartsFrom(h, held, rest)) + Left(h, held, rest[0]) == if PutsFirst(h, rest[0]) then held + GivenBy(rest) else GivenBy(rest) + held
  {
    PiecesGive(rest);
    if PutsFirst(h, rest[0]) {
      HeldInFront(held, Pieces(rest));
      EmptyAppend(held + GivenBy(rest));
    } else {
      EmptyAppend(Pieces(rest));
    }
  }

  lemma HeldInFront(held: bytes, parts: seq<bytes>)
    ensures Concat((if held != [] then [held] else []) + parts) == held + Concat(parts)
  {
    if held != [] {
      ConcatAppend([held], parts);
      ConcatOne(held);
    } else {
      EmptyAppend(parts);
      EmptyAppend(Concat(parts));
    }
  }

  // ---------------------------------------------------------------------- what is read

  /** The response goes out in chunks: the head is sent before the end, without a Content-Length. */
  predicate Streamed(ops: seq<Op>) {
    HeadAt(ops) < |ops| && CONTENT_LENGTH !in HandlersMap(ops)
  }

  /** The handler's headers as they are to be read: all that are listed, but of a short head the first content type
      alone, as it was set. */
  function HandlersLines(env: Env, ops: seq<Op>): (r: seq<Header>) {
    if Short(HeadOf(env, ops)) then TypeLine(SeenMap(env, ops)) else Only(Listed(env, SeenMap(env, ops)), Handlers)
  }

  /** The date lines: one of the writer's unless the handler set a date, and the handler's. */
  function DateLines(env: Env, ops: seq<Op>): (r: seq<Header>) {
    OwnDate(env, SeenMap(env, ops)) + Only(Listed(env, SeenMap(env, ops)), IsDate)
  }

  /** The text of a status: the library's, or one with its code. */
  function ReasonFor(env: Env, code: nat): (t: bytes) {
    if env.statusText(code) != [] then env.statusText(code) else [115, 116, 97, 116, 117, 115, 32, 99, 111, 100, 101, 32] + Print(10, code)
  }

  /** The parser reads the status set last before the head was sent, the framing, the headers and the body. */
  ghost predicate ReadBack(env: Env, ops: seq<Op>, r: Parsed) {
    var code := StatusOf(ops[..HeadAt(ops)]);
    && r.Accepted? && r.msg.start == Rsp(ResponseLine(Version(1, 1), code, ReasonFor(env, code)))
    && r.msg.meta == (if Streamed(ops) then StreamedMeta(code) else SizedMeta(code, |GivenBy(ops)|))
    && Only(r.msg.headers, Handlers) == ReadAll(HandlersLines(env, ops))
    && Only(r.msg.headers, IsDate) == ReadAll(DateLines(env, ops))
    && r.msg.body == GivenBy(ops)
  }

  lemma HeadingIs(env: Env, ops: seq<Op>)
    requires Sane(env) && AllInRange(ops)
    ensures var h := HeadOf(env, ops); var k := HeadAt(ops);
            && h.code == StatusOf(ops[..k]) && 100 <= h.code <= 999 && h.trailer == TrailerOf(ops[..k])
            && h.header == if k < |ops| then SeenMap(env, ops) else WithLength(SeenMap(env, ops), |FirstWrite(ops)|)
  {
    var k := HeadAt(ops);
    StatusInRange(ops[..k]);
    if k == |ops| {
      assert ops[..k] == ops;
    }
  }

  lemma LengthIsNoType(h: Headers, n: nat)
    ensures TypeLine(WithLength(h, n)) == TypeLine(h)
  {
    NamesDiffer();
  }

  /** The short head has no other date than the writer's. */
  lemma ShortDates(env: Env, h: Heading, seen: Headers, n: nat)
    requires Sane(env) && Short(h) && (h.header == seen || h.header == WithLength(seen, n))
    ensures OwnDate(env, seen) + Only(Listed(env, seen), IsDate) == [Header(DATE, env.date)]
  {
    NamesDiffer();
    assert DATE !in h.header && DATE !in seen;
    NoDate(env, seen, env.order(seen));
    EmptyAppend([Header(DATE, env.date)]);
  }

  lemma {:induction false} NoDate(env: Env, h: Headers, ks: seq<bytes>)
    requires DATE !in h
    ensures Only(ListKeys(env, h, ks), IsDate) == []
  {
    if ks != [] {
      var vs := if ks[0] in h then h[ks[0]] else [];
      NoDate(env, h, ks[1..]);
      OnlyAppend(LinesOf(env, ks[0], vs), ListKeys(env, h, ks[1..]), IsDate);
      OnlyOfKey(env, ks[0], vs, IsDate);
    }
  }

  lemma SentHandlers(env: Env, ops: seq<Op>)
    requires Sane(env) && AllInRange(ops)
    ensures Only(SentLines(env, HeadOf(env, ops)), Handlers) == HandlersLines(env, ops)
    ensures Only(SentLines(env, HeadOf(env, ops)), IsDate) == DateLines(env, ops)
  {
    var h, seen, n := HeadOf(env, ops), SeenMap(env, ops), |FirstWrite(ops)|;
    HeadingIs(env, ops);
    SeenDecent(env, ops);
    NamesDiffer();
    if Short(h) {
      ShortOfKind(env, h);
      LengthIsNoType(seen, n);
      ShortDates(env, h, seen, n);
    } else {
      SentOfKind(env, h, seen, n, Handlers);
      SentOfKind(env, h, seen, n, IsDate);
      EmptyAppend(Only(Listed(env, seen), Handlers));
    }
  }

  lemma AnswerIsReadBack(env: Env, ops: seq<Op>, meta: Meta, r: Parsed)
    requires Sane(env) && AllInRange(ops)
    requires var h := HeadOf(env, ops); r == Accepted(Answer(h.code, StatusText(env, h.code), SentLines(env, h), meta, GivenBy(ops)))
    requires var code := StatusOf(ops[..HeadAt(ops)]); meta == if Streamed(ops) then StreamedMeta(code) else SizedMeta(code, |GivenBy(ops)|)
    ensures ReadBack(env, ops, r)
  {
    var lines := SentLines(env, HeadOf(env, ops));
    HeadingIs(env, ops);
    SentHandlers(env, ops);
    OnlyRead(lines, Handlers);
    OnlyRead(lines, IsDate);
  }

  // ---------------------------------------------------------------- the round trip

  /** When the response can be read back, by the operations alone. No trailers are set when the head is sent. If the
      handler has set a length by then, it is the length of the body, and what the first Write gave may change places
      with the rest. If not, and the head is sent before the end, then by a Write or a Flush if a Write came before,
      and no trailers are listed at the end. */
  ghost predicate Suits(env: Env, ops: seq<Op>) {
    var k := HeadAt(ops);
    var held, later := FirstWrite(ops[..k]), GivenBy(ops[k..]);
    TrailerOf(ops[..k]) == map[] &&
    if CONTENT_LENGTH in HandlersMap(ops) then
      HandlersMap(ops)[CONTENT_LENGTH] == [Print(10, |GivenBy(ops)|)] && held + later == later + held
    else
      k < |ops| ==> (held == [] || ops[k].Write? || ops[k].Flush?) && Listed(env, TrailerOf(ops)) == []
  }

  lemma PrintInjective(m: nat, n: nat)
    requires Print(10, m) == Print(10, n)
    ensures m == n
  {
    PrintParses(10, m);
    PrintParses(10, n);
  }

  /** With a length in the map, the wire is the head and the body as it is. */
  lemma SizedWire(env: Env, ops: seq<Op>, h: Heading, n: nat)
    requires Sane(env) && AllInRange(ops) && h == HeadOf(env, ops) && h.trailer == map[] && SizedHeaders(h.header, n)
    ensures WireOf(env, ops) == HeadText(h.code, StatusText(env, h.code), SentLines(env, h)) + (Concat(Parts(env, ops)) + Leftover(env, ops))
    ensures GoodHead(h.code, StatusText(env, h.code), SentLines(env, h), SizedMeta(h.code, n))
  {
    HeadingIs(env, ops);
    HeadIs(env, h);
    SizedHead(env, h, n);
    var head, body := HeadBytes(env, h), Concat(Parts(env, ops));
    EmptyAppend(head + body + Leftover(env, ops));
    Assoc(head, body, Leftover(env, ops));
  }

  lemma SizedByHandler(env: Env, ops: seq<Op>) returns (n: nat)
    requires Sane(env) && AllInRange(ops) && CONTENT_LENGTH in HandlersMap(ops)
    ensures SizedHeaders(HeadOf(env, ops).header, n) && HandlersMap(ops)[CONTENT_LENGTH] == [Print(10, n)]
  {
    SeenDecent(env, ops);
    HeadingIs(env, ops);
    DecentHasNoEncoding(SeenMap(env, ops));
    n :| n < 0x8000_0000 && SeenMap(env, ops)[CONTENT_LENGTH] == [Print(10, n)];
  }

  /** With a length in the map, what the first Write gave goes last. */
  lemma FirstGoesLast(env: Env, ops: seq<Op>)
    requires Sane(env) && AllInRange(ops) && CONTENT_LENGTH in HandlersMap(ops)
    ensures var k := HeadAt(ops); Concat(Parts(env, ops)) + Leftover(env, ops) == GivenBy(ops[k..]) + FirstWrite(ops[..k])
  {
    var n := SizedByHandler(env, ops);
    DecentHasNoEncoding(HeadOf(env, ops).header);
    Carries(env, ops);
  }

  /** A body of known size that goes out in order is read back. */
  lemma SizedReads(env: Env, ops: seq<Op>, h: Heading, n: nat)
    requires Sane(env) && AllInRange(ops) && !Streamed(ops) && h == HeadOf(env, ops) && h.trailer == map[] && SizedHeaders(h.header, n)
    requires Concat(Parts(env, ops)) + Leftover(env, ops) == GivenBy(ops) && n == |GivenBy(ops)|
    ensures ReadBack(env, ops, ParseMessage(HTTP, Response, WireOf(env, ops)))
  {
    HeadingIs(env, ops);
    SizedWire(env, ops, h, n);
    SizedResponse(h.code, StatusText(env, h.code), SentLines(env, h), SizedMeta(h.code, n), GivenBy(ops), WireOf(env, ops));
    AnswerIsReadBack(env, ops, SizedMeta(h.code, n), ParseMessage(HTTP, Response, WireOf(env, ops)));
  }

  lemma SizedByHandlerReads(env: Env, ops: seq<Op>)
    requires Sane(env) && AllInRange(ops) && Suits(env, ops) && CONTENT_LENGTH in HandlersMap(ops)
    ensures ReadBack(env, ops, ParseMessage(HTTP, Response, WireOf(env, ops)))
  {
    var h := HeadOf(env, ops);
    var n := SizedByHandler(env, ops);
    PrintInjective(n, |GivenBy(ops)|);
    HeadingIs(env, ops);
    BodySplit(ops);
    FirstGoesLast(env, ops);
    SizedReads(env, ops, h, n);
  }

  lemma WithLengthSized(h: Headers, n: nat)
    requires FreeHeaders(h) && n < 0x8000_0000
    ensures SizedHeaders(WithLength(h, n), n)
  {
    LengthName();
    PrintParses(10, n);
    assert !EqualFold(CONTENT_LENGTH, "transfer-encoding") by { LengthIsNotEncoding(); }
    DecentHasNoEncoding(h);
  }

  lemma LengthIsNotEncoding()
    ensures !EqualFold(CONTENT_LENGTH, "transfer-encoding")
  {
    assert |CONTENT_LENGTH| == 14 && |"transfer-encoding"| == 17;
  }

  /** If only the end sends the head, the body is what the first Write gave. */
  lemma BodyAtEnd(env: Env, ops: seq<Op>)
    requires HeadAt(ops) == |ops|
    ensures Concat(Parts(env, ops)) + Leftover(env, ops) == GivenBy(ops) == FirstWrite(ops)
  {
    assert ops[..|ops|] == ops;
    GivenBefore(ops);
    EmptyAppend(FirstWrite(ops));
  }

  lemma SizedAtEnd(env: Env, ops: seq<Op>)
    requires Sane(env) && AllInRange(ops) && CONTENT_LENGTH !in HandlersMap(ops) && HeadAt(ops) == |ops|
    ensures SizedHeaders(HeadOf(env, ops).header, |FirstWrite(ops)|)
  {
    SeenDecent(env, ops);
    FirstWriteSmall(ops);
    WithLengthSized(SeenMap(env, ops), |FirstWrite(ops)|);
  }

  lemma SizedAtEndReads(env: Env, ops: seq<Op>, h: Heading)
    requires Sane(env) && AllInRange(ops) && CONTENT_LENGTH !in HandlersMap(ops) && HeadAt(ops) == |ops|
    requires h == HeadOf(env, ops) && h.trailer == map[]
    ensures ReadBack(env, ops, ParseMessage(HTTP, Response, WireOf(env, ops)))
  {
    SizedAtEnd(env, ops);
    BodyAtEnd(env, ops);
    SizedReads(env, ops, h, |FirstWrite(ops)|);
  }

  /** Without a length, a Write or a Flush that sends the head sends what was held back behind it. */
  lemma FirstGoesFirst(env: Env, ops: seq<Op>)
    requires Sane(env) && AllInRange(ops) && Streamed(ops) && TrailerOf(ops[..HeadAt(ops)]) == map[]
    ensures var k := HeadAt(ops); PutsFirst(HeadOf(env, ops), ops[k]) <==> ops[k].Write? || ops[k].Flush?
    ensures FreeHeaders(HeadOf(env, ops).header)
  {
    HeadingIs(env, ops);
    SeenDecent(env, ops);
    DecentHasNoEncoding(SeenMap(env, ops));
  }

  lemma EndIsLast(env: Env, trailer: Headers)
    requires trailer == map[] || Listed(env, trailer) == []
    ensures EndText(env, true, trailer) == LAST_CHUNK
  {
    EmptyAppend([48] + CRLF);
  }

  /** Without a length and without trailers, the wire is the head, chunks, what was left, and the end. */
  lemma StreamedWire(env: Env, ops: seq<Op>, h: Heading)
    requires Sane(env) && AllInRange(ops) && Streamed(ops) && h == HeadOf(env, ops) && h.trailer == map[]
    ensures GoodHead(h.code, StatusText(env, h.code), SentLines(env, h), StreamedMeta(h.code)) && SendsChunks(h)
    ensures WireOf(env, ops) == HeadText(h.code, StatusText(env, h.code), SentLines(env, h)) + ChunksText(Parts(env, ops))
                                + Leftover(env, ops) + EndText(env, true, TrailerOf(ops))
  {
    HeadingIs(env, ops);
    FirstGoesFirst(env, ops);
    HeadIs(env, h);
    StreamedHead(env, h);
  }

  lemma StreamedReads(env: Env, ops: seq<Op>)
    requires Sane(env) && AllInRange(ops) && Suits(env, ops) && Streamed(ops)
    ensures ReadBack(env, ops, ParseMessage(HTTP, Response, WireOf(env, ops)))
  {
    var h, parts := HeadOf(env, ops), Parts(env, ops);
    HeadingIs(env, ops);
    FirstGoesFirst(env, ops);
    BodySplit(ops);
    Carries(env, ops);
    StreamedWire(env, ops, h);
    EndIsLast(env, TrailerOf(ops));
    PartsSendable(env, ops);
    assert Leftover(env, ops) == [];
    EmptyAppend(Concat(parts));
    EmptyAppend(GivenBy(ops[HeadAt(ops)..]));
    assert Concat(parts) == GivenBy(ops);
    var head := HeadText(h.code, StatusText(env, h.code), SentLines(env, h));
    EmptyAppend(head + ChunksText(parts));
    Assoc(head, ChunksText(parts), LAST_CHUNK);
    ChunkedResponse(h.code, StatusText(env, h.code), SentLines(env, h), StreamedMeta(h.code), parts, ChunksText(parts) + LAST_CHUNK,
                    WireOf(env, ops));
    AnswerIsReadBack(env, ops, StreamedMeta(h.code), ParseMessage(HTTP, Response, WireOf(env, ops)));
  }

  /** Response round trip: after every suitable series of operations the parser accepts the wire, with the status set
      last before the head was sent, the handler's headers, and a body equal to all that was written. */
  lemma ResponseRoundTrip(env: Env, ops: seq<Op>)
    requires Sane(env) && AllInRange(ops) && Suits(env, ops)
    ensures ReadBack(env, ops, ParseMessage(HTTP, Response, DoEnd(env, DoAll(env, NEW, ops)).out))
  {
    WireIs(env, ops);
    if CONTENT_LENGTH in HandlersMap(ops) {
      SizedByHandlerReads(env, ops);
    } else if HeadAt(ops) == |ops| {
      HeadingIs(env, ops);
      SizedAtEndReads(env, ops, HeadOf(env, ops));
    } else {
      StreamedReads(env, ops);
    }
  }
}
