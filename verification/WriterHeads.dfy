/** What a response's head says: the headers the handler set, and what the writer adds. */
module WriterHeads {
  import opened Bytes
  import opened Numerals
  import opened Grammar
  import opened Wire
  import opened Writing
  import opened WriterWire
  import opened ResponseText

  // ------------------------------------------------------------------- what handlers set

  /** Headers a handler may set: nothing about transfer codings, a Content-Length only as strconv prints it, and
      values without CR and LF. */
  ghost predicate Decent(h: Headers) {
    && (forall k | k in h :: !EqualFold(k, "transfer-encoding") && (EqualFold(k, "content-length") ==> k == CONTENT_LENGTH))
    && (forall k | k in h :: forall v | v in h[k] :: Plain(v))
    && (CONTENT_LENGTH in h ==> exists n: nat :: n < 0x8000_0000 && h[CONTENT_LENGTH] == [Print(10, n)])
  }

  /** Sizes an int32 can hold, three-digit statuses and decent headers. */
  ghost predicate InRange(op: Op) {
    match op
    case Write(p) => |p| < 0x8000_0000
    case WriteString(s) => |s| < 0x8000_0000
    case ReadFrom(parts) => forall i | 0 <= i < |parts| :: |parts[i]| < 0x8000_0000
    case Flush => true
    case WriteHeader(code) => 100 <= code <= 999
    case EditHeader(h) => Decent(h)
    case EditTrailer(_) => true
  }

  ghost predicate AllInRange(ops: seq<Op>) {
    forall i | 0 <= i < |ops| :: InRange(ops[i])
  }

  /** A header map that says nothing about the framing. */
  ghost predicate FreeHeaders(h: Headers) {
    Decent(h) && CONTENT_LENGTH !in h
  }

  /** A header map that sets the length of the body, and nothing else about the framing. */
  ghost predicate SizedHeaders(h: Headers, n: nat) {
    Decent(h) && n < 0x8000_0000 && CONTENT_LENGTH in h && h[CONTENT_LENGTH] == [Print(10, n)]
  }

  lemma DecentHasNoEncoding(h: Headers)
    requires Decent(h)
    ensures TRANSFER_ENCODING !in h
    ensures CONTENT_LENGTH in h <==> Has(h, CONTENT_LENGTH)
  {
    EncodingName();
  }

  lemma FreeKey(h: Headers, k: bytes)
    requires Decent(h) && k in h && k != CONTENT_LENGTH
    ensures Free(k)
  {
  }

  lemma {:induction false} StatusInRange(ops: seq<Op>)
    requires AllInRange(ops)
    ensures 100 <= StatusOf(ops) <= 999
    decreases |ops|
  {
    if ops != [] {
      assert InRange(ops[|ops| - 1]);
      StatusInRange(ops[..|ops| - 1]);
    }
  }

  lemma MapDecent(ops: seq<Op>)
    requires AllInRange(ops)
    ensures Decent(MapOf(ops))
  {
    if EditAt(ops) != 0 {
      assert InRange(ops[EditAt(ops) - 1]);
    }
  }

  lemma TypeDecent(env: Env, h: Headers, data: bytes)
    requires Sane(env) && Decent(h)
    ensures Decent(WithType(env, h, data)) && (CONTENT_LENGTH in WithType(env, h, data) <==> CONTENT_LENGTH in h)
    ensures CONTENT_LENGTH in h ==> WithType(env, h, data)[CONTENT_LENGTH] == h[CONTENT_LENGTH]
  {
    TypeName();
    LengthName();
    assert CONTENT_TYPE != CONTENT_LENGTH;
  }

  /** The header map before the writer adds a length: the handler's, and a content type. */
  function SeenMap(env: Env, ops: seq<Op>): (h: Headers) {
    var k := HeadAt(ops);
    HeaderOf(env, if k < |ops| then ops[..k + 1] else ops)
  }

  /** The header map of the operations up to the one that sends the head, before it was sent. */
  function HandlersMap(ops: seq<Op>): (h: Headers) {
    MapOf(ops[..HeadAt(ops)])
  }

  lemma SenderEditsNothing(before: seq<Op>, op: Op, upto: seq<Op>)
    requires upto == before + [op] && Sends(before, op)
    ensures MapOf(upto) == MapOf(before)
  {
    MapSnoc(before, op);
  }

  lemma SeenDecent(env: Env, ops: seq<Op>)
    requires Sane(env) && AllInRange(ops)
    ensures Decent(SeenMap(env, ops)) && (CONTENT_LENGTH in SeenMap(env, ops) <==> CONTENT_LENGTH in HandlersMap(ops))
    ensures CONTENT_LENGTH in HandlersMap(ops) ==> SeenMap(env, ops)[CONTENT_LENGTH] == HandlersMap(ops)[CONTENT_LENGTH]
  {
    var k := HeadAt(ops);
    var upto := if k < |ops| then ops[..k + 1] else ops;
    if k < |ops| {
      SenderEditsNothing(ops[..k], ops[k], upto);
    } else {
      assert ops[..k] == ops;
    }
    MapDecent(upto);
    TypeDecent(env, MapOf(upto), FirstData(upto[EditAt(upto)..]));
  }

  // ------------------------------------------------------------------------- the head

  /** The 200 response with a Content-Length and at most a Content-Type besides, written directly. */
  predicate Short(h: Heading) {
    && h.code == 200 && h.trailer == map[] && Has(h.header, CONTENT_LENGTH)
    && (h.header.Keys == {CONTENT_LENGTH} || (h.header.Keys == {CONTENT_LENGTH, CONTENT_TYPE} && Has(h.header, CONTENT_TYPE)))
  }

  /** The first content type, as it was set. */
  function TypeLine(h: Headers): (r: seq<Header>) {
    if Has(h, CONTENT_TYPE) then [Header(CONTENT_TYPE, h[CONTENT_TYPE][0])] else []
  }

  /** The writer's date, unless the handler set one. */
  function OwnDate(env: Env, h: Headers): (r: seq<Header>) {
    if Has(h, DATE) then [] else [Header(DATE, env.date)]
  }

  /** The header lines of a head. */
  function SentLines(env: Env, h: Heading): (r: seq<Header>) {
    if Short(h) then [Header(DATE, env.date)] + TypeLine(h.header) + [Header(CONTENT_LENGTH, h.header[CONTENT_LENGTH][0])]
    else OwnDate(env, h.header) + Listed(env, h.header) + CodingLine(h)
  }

  function CodingLine(h: Heading): (r: seq<Header>) {
    if !SendsChunks(h) || Has(h.header, TRANSFER_ENCODING) then []
    else [Header(TRANSFER_ENCODING, if h.trailer == map[] then CHUNKED else CHUNKED_TRAILERS)]
  }

  lemma KeysOfTwo(h: Headers)
    requires CONTENT_LENGTH in h && CONTENT_TYPE in h && |h| == 2
    ensures h.Keys == {CONTENT_LENGTH, CONTENT_TYPE}
  {
    assert CONTENT_TYPE != CONTENT_LENGTH by { TypeName(); LengthName(); }
    var rest := h.Keys - {CONTENT_LENGTH, CONTENT_TYPE};
    assert |h.Keys| == |rest| + |{CONTENT_LENGTH, CONTENT_TYPE}|;
  }

  lemma KeysOfOne(h: Headers)
    requires CONTENT_LENGTH in h && |h| == 1
    ensures h.Keys == {CONTENT_LENGTH}
  {
    var rest := h.Keys - {CONTENT_LENGTH};
    assert |h.Keys| == |rest| + 1;
  }

  lemma NamesDiffer()
    ensures CONTENT_LENGTH != CONTENT_TYPE && CONTENT_LENGTH != DATE && CONTENT_TYPE != DATE
    ensures TRANSFER_ENCODING != CONTENT_LENGTH && TRANSFER_ENCODING != CONTENT_TYPE && TRANSFER_ENCODING != DATE
  {
    assert |CONTENT_LENGTH| == 14 && |CONTENT_TYPE| == 12 && |DATE| == 4 && |TRANSFER_ENCODING| == 17;
  }

  lemma ShortIsDirect(h: Heading, w: Writer)
    requires w.status == h.code && w.header == h.header && w.trailer == h.trailer
    ensures Direct(w) <==> Short(h)
  {
    NamesDiffer();
    if Direct(w) {
      if |w.header| == 1 {
        KeysOfOne(w.header);
      } else {
        KeysOfTwo(w.header);
      }
    }
    if Short(h) && h.header.Keys == {CONTENT_LENGTH} {
      assert |h.header| == 1;
    }
    if Short(h) && h.header.Keys == {CONTENT_LENGTH, CONTENT_TYPE} {
      assert |h.header| == 2;
    }
  }

  lemma HeadIs(env: Env, h: Heading)
    requires Sane(env)
    ensures HeadBytes(env, h) == HeadText(h.code, StatusText(env, h.code), SentLines(env, h))
  {
    var w := Writer(h.code, h.header, h.trailer, false, false, false, [], []);
    ShortIsDirect(h, w);
    if Short(h) {
      EmptyAppend(HeadText(200, OK, SentLines(env, h)));
    } else {
      EmptyAppend(HeadText(h.code, StatusText(env, h.code), SentLines(env, h)));
    }
  }

  lemma FreeOrder(env: Env, h: Headers)
    requires Sane(env) && FreeHeaders(h)
    ensures PlainKeys(env.order(h)) && forall i | 0 <= i < |env.order(h)| :: Free(env.order(h)[i])
  {
    forall i | 0 <= i < |env.order(h)| ensures PlainName(env.order(h)[i]) && Free(env.order(h)[i]) {
      assert env.order(h)[i] in env.order(h);
      FreeKey(h, env.order(h)[i]);
    }
  }

  lemma StatusTextPlain(env: Env, code: nat)
    requires Sane(env)
    ensures Plain(StatusText(env, code))
  {
    OkText();
    PrintParses(10, code);
  }

  /** The lines before the framing line. */
  lemma FreeHeadLines(env: Env, h: Headers)
    requires Sane(env) && FreeHeaders(h)
    ensures FreeLines(OwnDate(env, h) + Listed(env, h))
  {
    DateName();
    FreeOrder(env, h);
    ListedFree(env, h, env.order(h));
  }

  function StreamedMeta(code: nat): (m: Meta) {
    NO_META.(status := code, chunked := true)
  }

  function SizedMeta(code: nat, n: nat): (m: Meta) {
    NO_META.(status := code, hasLength := true, length := n)
  }

  /** The head of a body of unknown size. */
  lemma StreamedHead(env: Env, h: Heading)
    requires Sane(env) && FreeHeaders(h.header) && h.trailer == map[] && 100 <= h.code <= 999
    ensures SendsChunks(h) && GoodHead(h.code, StatusText(env, h.code), SentLines(env, h), StreamedMeta(h.code))
  {
    var meta := NO_META.(status := h.code);
    var a := OwnDate(env, h.header) + Listed(env, h.header);
    DecentHasNoEncoding(h.header);
    FreeHeadLines(env, h.header);
    FreeLinesApply(meta, a);
    ChunkedLine(meta);
    AppliedInTwo(meta, meta, a, [Header(TRANSFER_ENCODING, CHUNKED)]);
    StatusTextPlain(env, h.code);
  }

  lemma SizedOrder(env: Env, h: Headers, n: nat)
    requires Sane(env) && SizedHeaders(h, n)
    ensures SizedKeys(env.order(h))
  {
    var ks := env.order(h);
    assert CONTENT_LENGTH in ks;
    forall i | 0 <= i < |ks| ensures PlainName(ks[i]) && (ks[i] == CONTENT_LENGTH || Free(ks[i])) {
      assert ks[i] in env.order(h);
      if ks[i] != CONTENT_LENGTH {
        FreeKey(h, ks[i]);
      }
    }
  }

  /** The general head of a response of known size, before the line of a coding. */
  lemma SizedLines(env: Env, h: Headers, code: nat, n: nat)
    requires Sane(env) && SizedHeaders(h, n) && 100 <= code <= 999
    ensures GoodHead(code, StatusText(env, code), OwnDate(env, h) + Listed(env, h), SizedMeta(code, n))
  {
    var meta := NO_META.(status := code);
    DateName();
    SizedOrder(env, h, n);
    FreeLinesApply(meta, OwnDate(env, h));
    SizedListing(env, h, env.order(h), n, meta);
    AppliedInTwo(meta, meta, OwnDate(env, h), Listed(env, h));
    ListedPlain(env, h, env.order(h));
    StatusTextPlain(env, code);
  }

  /** The directly written head of a 200 response. */
  lemma ShortHead(env: Env, h: Headers, n: nat)
    requires Sane(env) && SizedHeaders(h, n)
    ensures GoodHead(200, OK, [Header(DATE, env.date)] + TypeLine(h) + [Header(CONTENT_LENGTH, h[CONTENT_LENGTH][0])], SizedMeta(200, n))
  {
    var meta, a := NO_META.(status := 200), [Header(DATE, env.date)] + TypeLine(h);
    DateName();
    TypeName();
    NamesDiffer();
    OkText();
    FreeLinesApply(meta, a);
    LengthLine(meta, n);
    AppliedInTwo(meta, meta, a, [Header(CONTENT_LENGTH, Print(10, n))]);
  }

  /** The head of a body of known size. */
  lemma SizedHead(env: Env, h: Heading, n: nat)
    requires Sane(env) && SizedHeaders(h.header, n) && h.trailer == map[] && 100 <= h.code <= 999
    ensures !SendsChunks(h) && GoodHead(h.code, StatusText(env, h.code), SentLines(env, h), SizedMeta(h.code, n))
  {
    if Short(h) {
      ShortHead(env, h.header, n);
    } else {
      EmptyAppend(OwnDate(env, h.header) + Listed(env, h.header));
      SizedLines(env, h.header, h.code, n);
    }
  }

  // -------------------------------------------------------------------- header selections

  /** The headers with names of a kind, in order. */
  function Only(hs: seq<Header>, kind: bytes -> bool): (r: seq<Header>) {
    if hs == [] then [] else (if kind(hs[0].name) then [hs[0]] else []) + Only(hs[1..], kind)
  }

  /** Names the writer has no say in. */
  predicate Handlers(k: bytes) { k != DATE && k != CONTENT_LENGTH && k != TRANSFER_ENCODING }

  predicate IsDate(k: bytes) { k == DATE }

  lemma {:induction false} OnlyAppend(a: seq<Header>, b: seq<Header>, kind: bytes -> bool)
    ensures Only(a + b, kind) == Only(a, kind) + Only(b, kind)
  {
    if a == [] {
      EmptyAppend(b);
      EmptyAppend(Only(b, kind));
    } else {
      OnlyAppend(a[1..], b, kind);
      DropAppend(a, b, 1);
      Assoc(if kind(a[0].name) then [a[0]] else [], Only(a[1..], kind), Only(b, kind));
    }
  }

  lemma {:induction false} OnlyRead(hs: seq<Header>, kind: bytes -> bool)
    ensures Only(ReadAll(hs), kind) == ReadAll(Only(hs, kind))
  {
    if hs != [] {
      OnlyRead(hs[1..], kind);
      assert ReadAll(hs)[0] == Read(hs[0]) && ReadAll(hs)[1..] == ReadAll(hs[1..]);
      if kind(hs[0].name) {
        assert ([hs[0]] + Only(hs[1..], kind))[1..] == Only(hs[1..], kind);
      } else {
        EmptyAppend(Only(hs[1..], kind));
        EmptyAppend(Only(ReadAll(hs[1..]), kind));
      }
    }
  }

  lemma {:induction false} OnlyNone(hs: seq<Header>, kind: bytes -> bool)
    requires forall i | 0 <= i < |hs| :: !kind(hs[i].name)
    ensures Only(hs, kind) == []
  {
    if hs != [] {
      OnlyNone(hs[1..], kind);
    }
  }

  lemma {:induction false} OnlyAll(hs: seq<Header>, kind: bytes -> bool)
    requires forall i | 0 <= i < |hs| :: kind(hs[i].name)
    ensures Only(hs, kind) == hs
  {
    if hs != [] {
      OnlyAll(hs[1..], kind);
      assert [hs[0]] + hs[1..] == hs;
    }
  }

  lemma {:induction false} LinesNamed(env: Env, k: bytes, vs: seq<bytes>)
    ensures |LinesOf(env, k, vs)| == |vs|
    ensures forall i | 0 <= i < |vs| :: LinesOf(env, k, vs)[i] == Header(k, env.clean(vs[i]))
  {
    if vs != [] {
      LinesNamed(env, k, vs[1..]);
    }
  }

  lemma OnlyOfKey(env: Env, k: bytes, vs: seq<bytes>, kind: bytes -> bool)
    ensures Only(LinesOf(env, k, vs), kind) == if kind(k) then LinesOf(env, k, vs) else []
  {
    LinesNamed(env, k, vs);
    if kind(k) {
      OnlyAll(LinesOf(env, k, vs), kind);
    } else {
      OnlyNone(LinesOf(env, k, vs), kind);
    }
  }

  /** A length in the map does not show among other headers. */
  lemma {:induction false} ListWithout(env: Env, h: Headers, v: seq<bytes>, ks: seq<bytes>, kind: bytes -> bool)
    requires !kind(CONTENT_LENGTH)
    ensures Only(ListKeys(env, h[CONTENT_LENGTH := v], ks), kind) == Only(ListKeys(env, h, Minus(ks)), kind)
  {
    if ks != [] {
      var h' := h[CONTENT_LENGTH := v];
      var vs, vs' := if ks[0] in h then h[ks[0]] else [], if ks[0] in h' then h'[ks[0]] else [];
      ListWithout(env, h, v, ks[1..], kind);
      OnlyAppend(LinesOf(env, ks[0], vs'), ListKeys(env, h', ks[1..]), kind);
      OnlyOfKey(env, ks[0], vs', kind);
      if ks[0] == CONTENT_LENGTH {
        EmptyAppend(Minus(ks[1..]));
        EmptyAppend(Only(ListKeys(env, h', ks[1..]), kind));
      } else {
        assert ([ks[0]] + Minus(ks[1..]))[1..] == Minus(ks[1..]);
        OnlyAppend(LinesOf(env, ks[0], vs), ListKeys(env, h, Minus(ks[1..])), kind);
      }
    }
  }

  lemma ListedWithout(env: Env, h: Headers, n: nat, kind: bytes -> bool)
    requires Sane(env) && Decent(h) && !kind(CONTENT_LENGTH)
    ensures Only(Listed(env, WithLength(h, n)), kind) == Only(Listed(env, h), kind)
  {
    DecentHasNoEncoding(h);
    if CONTENT_LENGTH !in h {
      assert LengthMovesNothing(env, h, [Print(10, n)]);
      ListWithout(env, h, [Print(10, n)], env.order(WithLength(h, n)), kind);
    }
  }

  /** The headers of one kind in a head that is not short: the date line, and those of the map. */
  lemma SentOfKind(env: Env, h: Heading, seen: Headers, n: nat, kind: bytes -> bool)
    requires Sane(env) && Decent(seen) && (h.header == seen || h.header == WithLength(seen, n)) && !Short(h)
    requires !kind(CONTENT_LENGTH) && !kind(TRANSFER_ENCODING)
    ensures Only(SentLines(env, h), kind) == (if kind(DATE) then OwnDate(env, seen) else []) + Only(Listed(env, seen), kind)
  {
    var date, list := OwnDate(env, h.header), Listed(env, h.header);
    NamesDiffer();
    assert date == OwnDate(env, seen);
    OnlyAppend(date + list, CodingLine(h), kind);
    OnlyAppend(date, list, kind);
    OnlyNone(CodingLine(h), kind);
    EmptyAppend(Only(date, kind) + Only(list, kind));
    if kind(DATE) {
      OnlyAll(date, kind);
    } else {
      OnlyNone(date, kind);
    }
    ListedWithout(env, seen, n, kind);
  }

  lemma TypeIsHandlers()
    ensures Handlers(CONTENT_TYPE) && !IsDate(CONTENT_TYPE)
  {
    NamesDiffer();
  }

  /** The headers of one kind in a short head. */
  lemma ShortOfKind(env: Env, h: Heading)
    requires Short(h)
    ensures Only(SentLines(env, h), Handlers) == TypeLine(h.header)
    ensures Only(SentLines(env, h), IsDate) == [Header(DATE, env.date)]
  {
    var date, typ, len := [Header(DATE, env.date)], TypeLine(h.header), [Header(CONTENT_LENGTH, h.header[CONTENT_LENGTH][0])];
    TypeIsHandlers();
    NamesDiffer();
    OnlyAppend(date + typ, len, Handlers);
    OnlyAppend(date, typ, Handlers);
    OnlyNone(date, Handlers);
    OnlyAll(typ, Handlers);
    OnlyNone(len, Handlers);
    EmptyAppend(typ);
    OnlyAppend(date + typ, len, IsDate);
    OnlyAppend(date, typ, IsDate);
    OnlyAll(date, IsDate);
    OnlyNone(typ, IsDate);
    OnlyNone(len, IsDate);
    EmptyAppend(date);
  }

  // ------------------------------------------------------------------ what listing means

  lemma {:induction false} ListAppend(env: Env, h: Headers, a: seq<bytes>, b: seq<bytes>)
    ensures ListKeys(env, h, a + b) == ListKeys(env, h, a) + ListKeys(env, h, b)
  {
    if a == [] {
      EmptyAppend(b);
      EmptyAppend(ListKeys(env, h, b));
    } else {
      ListAppend(env, h, a[1..], b);
      DropAppend(a, b, 1);
      Assoc(LinesOf(env, a[0], if a[0] in h then h[a[0]] else []), ListKeys(env, h, a[1..]), ListKeys(env, h, b));
    }
  }

  /** The values of a key, in order, cleaned. */
  ghost predicate OwnLines(env: Env, k: bytes, vs: seq<bytes>, own: seq<Header>) {
    |own| == |vs| && forall j | 0 <= j < |vs| :: own[j] == Header(k, env.clean(vs[j]))
  }

  /** The header lines are those of the listed keys, key by key in their order: for every key all its values in
      order, cleaned. */
  lemma ListedInOrder(env: Env, h: Headers, i: nat) returns (own: seq<Header>)
    requires Sane(env) && i < |env.order(h)|
    ensures env.order(h)[i] in h && OwnLines(env, env.order(h)[i], h[env.order(h)[i]], own)
    ensures Listed(env, h) == ListKeys(env, h, env.order(h)[..i]) + own + ListKeys(env, h, env.order(h)[i + 1..])
  {
    var ks, k := env.order(h), env.order(h)[i];
    assert k in env.order(h);
    own := LinesOf(env, k, h[k]);
    LinesNamed(env, k, h[k]);
    ListAppend(env, h, ks[..i], ks[i..]);
    assert ks == ks[..i] + ks[i..] && ks[i..][0] == k && ks[i..][1..] == ks[i + 1..];
    Assoc(ListKeys(env, h, ks[..i]), own, ListKeys(env, h, ks[i + 1..]));
  }
}
