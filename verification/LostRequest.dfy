/** A request that a parser of both kinds loses although its first piece shows the kind. */
module LostRequest {
  import opened Bytes
  import opened Numerals
  import opened Grammar
  import opened Reference
  import opened Machine
  import opened UniqueFraming
  import opened Pending
  import opened PendingRuns
  import opened BothDispatch

  /** "GET / HTTP/1.1" and "Content-Length:18" */
  const LINE: bytes := [71, 69, 84, 32, 47, 32, 72, 84, 84, 80, 47, 49, 46, 49]
  const NAME: bytes := [67, 111, 110, 116, 101, 110, 116, 45, 76, 101, 110, 103, 116, 104]
  const LENGTH: bytes := NAME + [COLON, 49, 56]
  /** "HTTP/1.1 204 X" */
  const STATUS: bytes := [72, 84, 84, 80, 47, 49, 46, 49, 32, 50, 48, 52, 32, 88]

  const HEAD: bytes := LINE + CRLF + (LENGTH + CRLF + CRLF)
  const BODY: bytes := STATUS + CRLF + CRLF
  const WHOLE: bytes := LINE + CRLF + (LENGTH + CRLF + (CRLF + BODY))

  lemma LineReads()
    ensures ParseRequestLine(LINE).Some? && CrlfFrom(LINE + CRLF, 0) == Some(14)
  {
    ByteIs(LINE, SP, 3);
    ByteFromIs(LINE, 4, 5);
    var token := LINE[..3];
    assert EqualFold(token, "get");
    assert MatchMethod(token) == Some(1);
    CrlfIs(LINE + CRLF, 0, 14);
  }

  lemma NameReads()
    ensures EqualFold(NAME, "content-length") && |NAME| == 14
    ensures forall j | 0 <= j < |NAME| :: NAME[j] != COLON && NAME[j] != CR
  {
  }

  lemma NumberReads(v: bytes)
    requires v == [49, 56]
    ensures ParseNumeral(10, v) == Some(18)
  {
    assert NumeralUpTo(10, v, 0) == 0 && NumeralUpTo(10, v, 1) == 1 && NumeralUpTo(10, v, 2) == 18;
  }

  /** A header line made of a name and a value of two digits. */
  lemma TwoDigits(name: bytes, x: byte, y: byte, line: bytes)
    requires (forall j | 0 <= j < |name| :: name[j] != COLON && name[j] != CR) && IsDigit(x) && IsDigit(y) && line == name + [COLON, x, y]
    ensures ParseHeaderLine(line) == Some(Header(name, [x, y])) && CrlfFrom(line + CRLF, 0) == Some(|line|)
  {
    var n := |name|;
    assert line[n] == COLON && line[n + 1] == x && line[n + 2] == y;
    ByteIs(line, COLON, n);
    SkipIs(line, n + 1, n + 1);
    assert line[..n] == name && line[n + 1..] == [x, y];
    var s := line + CRLF;
    forall j | 0 <= j < |line| ensures !CrlfAt(s, j) { assert s[j] == line[j] && line[j] != CR; }
    CrlfIs(s, 0, |line|);
  }

  lemma LengthReads()
    ensures ParseHeaderLine(LENGTH) == Some(Header(NAME, [49, 56])) && CrlfFrom(LENGTH + CRLF, 0) == Some(17)
    ensures IsLength(Header(NAME, [49, 56])) && ParseNumeral(10, [49, 56]) == Some(18)
  {
    NameReads();
    NumberReads([49, 56]);
    TwoDigits(NAME, 49, 56, LENGTH);
  }

  lemma StatusReads()
    ensures ParseResponseLine(STATUS).Some? && ParseResponseLine(STATUS).value.status == 204 && CrlfFrom(STATUS + CRLF, 0) == Some(14)
  {
    assert STATUS[9..12] == [50, 48, 52];
    CrlfIs(STATUS + CRLF, 0, 14);
  }

  lemma BodyIntrudes()
    ensures Intrudes(BODY)
  {
    StatusReads();
    CrlfKept(STATUS + CRLF, CRLF, 0);
    assert BODY[..14] == STATUS;
    assert CrlfFrom(BODY, 0) == Some(14);
    var meta := Meta(Response, 204, false, 0, false);
    assert ParseHeaders(HTTP, meta, BODY, 16) == HeadDone(meta, [], 18);
  }

  lemma LineInFront(a: bytes, b: bytes, m: bytes, i: nat)
    requires CrlfFrom(a, 0) == Some(i) && m == a + b
    ensures CrlfFrom(m, 0) == Some(i) && m[..i] == a[..i]
  {
    CrlfKept(a, b, 0);
    TakeAppend(a, b, i);
  }

  lemma LineBehind(a: bytes, b: bytes, m: bytes, i: nat, k: nat)
    requires m == a + b && CrlfFrom(b, 0) == Some(i) && CrlfAt(b, k)
    ensures CrlfFrom(m, |a|) == Some(|a| + i) && m[|a|..|a| + i] == b[..i] && CrlfAt(m, |a| + k)
  {
    CrlfShift(a, b, 0);
    CrlfAcross(a, b, k);
  }

  /** Two lines, an empty line and a rest. */
  lemma TwoLines(l: bytes, h: bytes, rest: bytes, m: bytes, i: nat, j: nat)
    requires CrlfFrom(l, 0) == Some(i) && CrlfFrom(h, 0) == Some(j) && CrlfAt(rest, 0) && m == l + (h + rest)
    ensures CrlfFrom(m, 0) == Some(i) && m[..i] == l[..i] && CrlfFrom(m, |l|) == Some(|l| + j) && m[|l|..|l| + j] == h[..j]
    ensures CrlfAt(m, |l| + |h|) && |m| == |l| + |h| + |rest|
  {
    LineInFront(h, rest, h + rest, j);
    CrlfAcross(h, rest, 0);
    LineInFront(l, h + rest, m, i);
    LineBehind(l, h + rest, m, j, |h|);
  }

  lemma WholeIsAccepted(m: bytes)
    requires m == WHOLE
    ensures Accepts(HTTP, Request, m)
  {
    LineReads();
    LengthReads();
    TwoLines(LINE + CRLF, LENGTH + CRLF, CRLF + BODY, m, 14, 17);
    assert (LINE + CRLF)[..14] == LINE && (LENGTH + CRLF)[..17] == LENGTH;
    var meta := Meta(Request, 0, false, 0, false);
    var meta' := meta.(hasLength := true, length := 18);
    var h := Header(NAME, [49, 56]);
    assert ApplyHeader(meta, h) == Some(meta');
    assert ParseHeaders(HTTP, meta', m, 35) == HeadDone(meta', [], 37);
    assert ParseHeaders(HTTP, meta, m, 16) == HeadDone(meta', [h] + [], 37);
  }

  /** A request cut before a piece that looks like a response. */
  lemma LostInTwo(cb: Setting, m: bytes, a: bytes, b: bytes)
    requires cb.begin && Accepts(HTTP, Request, m) && m == a + b && a != [] && b != [] && Intrudes(b)
    ensures !Delivered(cb, ParseMessage(HTTP, Request, m).msg, Executed(Calls(cb), [a, b]))
  {
    var pieces := [a, b];
    TwoPieces(a, b);
    assert Intrudes(pieces[1]);
    DeliversExactlyWhenUndisturbed(cb, Request, m, pieces, ParseMessage(HTTP, Request, m).msg);
  }

  lemma TwoPieces(a: bytes, b: bytes)
    requires a != [] && b != []
    ensures Pieces(a + b, [a, b])
  {
    EmptyAppend(b);
    assert [b][1..] == [] && Concat([b]) == b;
    assert [a, b][1..] == [b] && Concat([a, b]) == a + b;
  }

  /** The request arrives as its head and its body; the body, taken alone, is a response. */
  lemma RequestIsLost(cb: Setting)
    requires cb.begin
    ensures Accepts(HTTP, Request, HEAD + BODY) && Infer(HEAD) == Some(Request)
    ensures !Delivered(cb, ParseMessage(HTTP, Request, HEAD + BODY).msg, Executed(Calls(cb), [HEAD, BODY]))
  {
    Assoc(LENGTH + CRLF, CRLF, BODY);
    Assoc(LINE + CRLF, LENGTH + CRLF + CRLF, BODY);
    WholeIsAccepted(HEAD + BODY);
    BodyIntrudes();
    LostInTwo(cb, HEAD + BODY, HEAD, BODY);
    assert HEAD[0] == 71;
  }
}
