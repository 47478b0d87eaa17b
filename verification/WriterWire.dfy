/** What a response writer puts on the wire, read off the handler's operations alone: which operation sends the
    head, what the head says, and what follows it. */
module WriterWire {
  import opened Bytes
  import opened Numerals
  import opened Wire
  import opened Writing

  // ----------------------------------------------------------------- what has been set

  /** The code of the last WriteHeader; 200 if there is none. */
  function StatusOf(ops: seq<Op>): (code: nat)
    decreases |ops|
  {
    if ops == [] then 200
    else
      match ops[|ops| - 1]
      case WriteHeader(code) => code
      case _ => StatusOf(ops[..|ops| - 1])
  }

  function TrailerOf(ops: seq<Op>): (t: Headers)
    decreases |ops|
  {
    if ops == [] then map[]
    else
      match ops[|ops| - 1]
      case EditTrailer(t) => t
      case _ => TrailerOf(ops[..|ops| - 1])
  }

  /** How many operations there are up to the last one that edits the header map. */
  function EditAt(ops: seq<Op>): (n: nat)
    ensures n <= |ops|
    ensures n > 0 ==> ops[n - 1].EditHeader?
    ensures forall i | n <= i < |ops| :: !ops[i].EditHeader?
    decreases |ops|
  {
    if ops == [] then 0 else if ops[|ops| - 1].EditHeader? then |ops| else EditAt(ops[..|ops| - 1])
  }

  /** The header map as the handler left it. */
  function MapOf(ops: seq<Op>): (h: Headers) {
    if EditAt(ops) == 0 then map[] else ops[EditAt(ops) - 1].header
  }

  /** The body bytes that Write and WriteString look at. */
  function DataOf(op: Op): (b: bytes) {
    match op
    case Write(p) => p
    case WriteString(s) => s
    case _ => []
  }

  function FirstData(ops: seq<Op>): (b: bytes) {
    if ops == [] then [] else if DataOf(ops[0]) != [] then DataOf(ops[0]) else FirstData(ops[1..])
  }

  /** The header map has a first value for the key, and not an empty one. */
  predicate Has(h: Headers, k: bytes) {
    k in h && h[k] != [] && h[k][0] != []
  }

  /** The header map with the content type of `data`, if there are data and the map has no content type. */
  function WithType(env: Env, h: Headers, data: bytes): (r: Headers) {
    if Has(h, CONTENT_TYPE) || data == [] then h
    else h[CONTENT_TYPE := [env.sniff(if |data| < 512 then data else data[..512])]]
  }

  /** The header map: what the handler left last, and the content type of the first data written since. */
  function HeaderOf(env: Env, ops: seq<Op>): (h: Headers) {
    WithType(env, MapOf(ops), FirstData(ops[EditAt(ops)..]))
  }

  /** The data of the first Write that has any. */
  function FirstWrite(ops: seq<Op>): (b: bytes) {
    if ops == [] then [] else if ops[0].Write? && ops[0].data != [] then ops[0].data else FirstWrite(ops[1..])
  }

  // -------------------------------------------------------------- when the head goes out

  predicate SetsFraming(h: Headers) {
    Has(h, CONTENT_LENGTH) || Has(h, TRANSFER_ENCODING)
  }

  /** The operation, behind `ops`, sends the head, if none before did: every Flush and ReadFrom, a WriteString of
      something, and a Write of something behind another one or with the framing or trailers set. */
  predicate Sends(ops: seq<Op>, op: Op) {
    match op
    case Write(p) => p != [] && (FirstWrite(ops) != [] || SetsFraming(MapOf(ops)) || TrailerOf(ops) != map[])
    case WriteString(s) => s != []
    case ReadFrom(_) => true
    case Flush => true
    case _ => false
  }

  /** The first operation that sends the head; their number if only the end of the response does. */
  function HeadAt(ops: seq<Op>): (k: nat)
    ensures k <= |ops|
    ensures k < |ops| ==> Sends(ops[..k], ops[k])
    ensures forall i | 0 <= i < k :: !Sends(ops[..i], ops[i])
    decreases |ops|
  {
    if ops == [] then 0
    else
      var before := ops[..|ops| - 1];
      var k := HeadAt(before);
      assert forall i | 0 <= i < |before| :: before[..i] == ops[..i] && before[i] == ops[i];
      if k < |before| then k else if Sends(before, ops[|ops| - 1]) then |before| else |ops|
  }

  // -------------------------------------------------------------------------- the wire

  /** What is known when the head goes out. */
  datatype Heading = Heading(code: nat, header: Headers, trailer: Headers)

  function HeadOf(env: Env, ops: seq<Op>): (h: Heading) {
    var k := HeadAt(ops);
    if k < |ops| then Heading(StatusOf(ops[..k]), HeaderOf(env, ops[..k + 1]), TrailerOf(ops[..k]))
    else Heading(StatusOf(ops), WithLength(HeaderOf(env, ops), |FirstWrite(ops)|), TrailerOf(ops))
  }

  /** The header map with a Content-Length, unless it has one. */
  function WithLength(h: Headers, n: nat): (r: Headers) {
    if Has(h, CONTENT_LENGTH) then h else h[CONTENT_LENGTH := [Print(10, n)]]
  }

  function HeadBytes(env: Env, h: Heading): (t: bytes) {
    SendHead(env, Writer(h.code, h.header, h.trailer, false, false, false, [], [])).out
  }

  predicate SendsChunks(h: Heading) {
    !Has(h.header, CONTENT_LENGTH) || h.trailer != map[]
  }

  /** What the first Write gave is sent right behind the head: by a Flush without a Content-Length, or by a second
      Write without framing and trailers. */
  predicate PutsFirst(h: Heading, op: Op) {
    match op
    case Flush => !Has(h.header, CONTENT_LENGTH)
    case Write(_) => !SetsFraming(h.header) && h.trailer == map[]
    case _ => false
  }

  function NonEmpty(parts: seq<bytes>): (r: seq<bytes>) {
    if parts == [] then [] else (if parts[0] == [] then [] else [parts[0]]) + NonEmpty(parts[1..])
  }

  function PiecesOf(op: Op): (r: seq<bytes>) {
    match op
    case ReadFrom(parts) => NonEmpty(parts)
    case _ => NonEmpty([DataOf(op)])
  }

  /** The pieces of the body that some operations give. */
  function Pieces(ops: seq<Op>): (r: seq<bytes>)
    decreases |ops|
  {
    if ops == [] then [] else Pieces(ops[..|ops| - 1]) + PiecesOf(ops[|ops| - 1])
  }

  /** What is sent in pieces from the head on, by `rest`, the first of which sends the head. */
  function PartsFrom(h: Heading, held: bytes, rest: seq<Op>): (r: seq<bytes>)
    requires rest != []
  {
    (if held != [] && PutsFirst(h, rest[0]) then [held] else []) + Pieces(rest)
  }

  function Parts(env: Env, ops: seq<Op>): (r: seq<bytes>) {
    var k := HeadAt(ops);
    if k == |ops| then [] else PartsFrom(HeadOf(env, ops), FirstWrite(ops[..k]), ops[k..])
  }

  /** What the first Write gave, if it is left to the end. */
  function Leftover(env: Env, ops: seq<Op>): (b: bytes) {
    var k := HeadAt(ops);
    if k < |ops| && PutsFirst(HeadOf(env, ops), ops[k]) then [] else FirstWrite(ops[..k])
  }

  function Framed(chunked: bool, parts: seq<bytes>): (t: bytes) {
    if chunked then ChunksText(parts) else Concat(parts)
  }

  function EndText(env: Env, chunked: bool, trailer: Headers): (t: bytes) {
    if !chunked then []
    else if trailer == map[] then LAST_CHUNK
    else [48] + CRLF + HeadersText(Listed(env, trailer)) + CRLF
  }

  /** The whole response: the head, the pieces framed, what is left to the end, and the end of the chunks. */
  function WireOf(env: Env, ops: seq<Op>): (t: bytes) {
    var h := HeadOf(env, ops);
    HeadBytes(env, h) + Framed(SendsChunks(h), Parts(env, ops)) + Leftover(env, ops) + EndText(env, SendsChunks(h), TrailerOf(ops))
  }

  // ----------------------------------------------------------------------- one more operation

  lemma Snoc<T>(s: seq<T>, x: T)
    ensures (s + [x])[..|s|] == s && (s + [x])[|s|] == x && |s + [x]| == |s| + 1
  {
  }

  lemma {:induction false} DoAllSnoc(env: Env, w: Writer, ops: seq<Op>, op: Op)
    ensures DoAll(env, w, ops + [op]) == Do(env, DoAll(env, w, ops), op)
    decreases |ops|
  {
    if ops == [] {
      EmptyAppend([op]);
      assert [op][1..] == [];
    } else {
      DoAllSnoc(env, Do(env, w, ops[0]), ops[1..], op);
      DropAppend(ops, [op], 1);
    }
  }

  lemma {:induction false} FirstDataSnoc(ops: seq<Op>, op: Op)
    ensures FirstData(ops + [op]) == if FirstData(ops) != [] then FirstData(ops) else DataOf(op)
    decreases |ops|
  {
    if ops == [] {
      EmptyAppend([op]);
      assert [op][1..] == [];
    } else {
      FirstDataSnoc(ops[1..], op);
      DropAppend(ops, [op], 1);
    }
  }

  lemma {:induction false} FirstWriteSnoc(ops: seq<Op>, op: Op)
    ensures FirstWrite(ops + [op]) == if FirstWrite(ops) != [] then FirstWrite(ops) else if op.Write? then op.data else []
    decreases |ops|
  {
    if ops == [] {
      EmptyAppend([op]);
      assert [op][1..] == [];
    } else {
      FirstWriteSnoc(ops[1..], op);
      DropAppend(ops, [op], 1);
    }
  }

  lemma StatusSnoc(ops: seq<Op>, op: Op)
    ensures StatusOf(ops + [op]) == if op.WriteHeader? then op.code else StatusOf(ops)
  {
    Snoc(ops, op);
  }

  lemma TrailerSnoc(ops: seq<Op>, op: Op)
    ensures TrailerOf(ops + [op]) == if op.EditTrailer? then op.trailer else TrailerOf(ops)
  {
    Snoc(ops, op);
  }

  lemma EditSnoc(ops: seq<Op>, op: Op)
    ensures EditAt(ops + [op]) == if op.EditHeader? then |ops| + 1 else EditAt(ops)
  {
    Snoc(ops, op);
  }

  lemma MapSnoc(ops: seq<Op>, op: Op)
    ensures MapOf(ops + [op]) == if op.EditHeader? then op.header else MapOf(ops)
  {
    EditSnoc(ops, op);
    Snoc(ops, op);
    if !op.EditHeader? && EditAt(ops) > 0 {
      assert (ops + [op])[EditAt(ops) - 1] == ops[EditAt(ops) - 1];
    }
  }

  lemma SettingsSnoc(ops: seq<Op>, op: Op)
    ensures StatusOf(ops + [op]) == (if op.WriteHeader? then op.code else StatusOf(ops))
    ensures TrailerOf(ops + [op]) == (if op.EditTrailer? then op.trailer else TrailerOf(ops))
    ensures EditAt(ops + [op]) == (if op.EditHeader? then |ops| + 1 else EditAt(ops))
    ensures MapOf(ops + [op]) == (if op.EditHeader? then op.header else MapOf(ops))
  {
    StatusSnoc(ops, op);
    TrailerSnoc(ops, op);
    EditSnoc(ops, op);
    MapSnoc(ops, op);
  }

  /** http.DetectContentType always has an answer. */
  ghost predicate Sniffs(env: Env) {
    forall p: bytes :: env.sniff(p) != []
  }

  lemma HeaderSnoc(env: Env, ops: seq<Op>, op: Op)
    requires Sniffs(env)
    ensures HeaderOf(env, ops + [op]) == if op.EditHeader? then op.header else WithType(env, HeaderOf(env, ops), DataOf(op))
  {
    SettingsSnoc(ops, op);
    if op.EditHeader? {
      assert (ops + [op])[|ops| + 1..] == [];
    } else {
      DropAppend(ops, [op], EditAt(ops));
      FirstDataSnoc(ops[EditAt(ops)..], op);
    }
  }

  lemma TypeIsNoFraming(env: Env, h: Headers, data: bytes)
    ensures First(WithType(env, h, data), CONTENT_LENGTH) == First(h, CONTENT_LENGTH)
    ensures First(WithType(env, h, data), TRANSFER_ENCODING) == First(h, TRANSFER_ENCODING)
  {
    assert |CONTENT_TYPE| != |CONTENT_LENGTH| && |CONTENT_TYPE| != |TRANSFER_ENCODING|;
  }

  lemma HeadAtSnoc(ops: seq<Op>, op: Op)
    ensures HeadAt(ops + [op]) == if HeadAt(ops) < |ops| then HeadAt(ops) else if Sends(ops, op) then |ops| else |ops| + 1
  {
    Snoc(ops, op);
  }

  lemma PiecesSnoc(ops: seq<Op>, op: Op)
    ensures Pieces(ops + [op]) == Pieces(ops) + PiecesOf(op)
  {
    Snoc(ops, op);
  }

  lemma FramedAppend(chunked: bool, a: seq<bytes>, b: seq<bytes>)
    ensures Framed(chunked, a + b) == Framed(chunked, a) + Framed(chunked, b)
  {
    if chunked {
      TextsAppend(ChunkText, a, b);
    } else {
      ConcatAppend(a, b);
    }
  }

  lemma FramedOne(chunked: bool, p: bytes)
    ensures Framed(chunked, [p]) == if chunked then ChunkText(p) else p
  {
    ConcatOne(p);
    assert [p][1..] == [];
    assert Texts(ChunkText, [p]) == ChunkText(p) + [];
    EmptyAppend(ChunkText(p));
  }

  lemma OnePiece(p: bytes)
    requires p != []
    ensures NonEmpty([p]) == [p]
  {
    assert [p][1..] == [];
  }

  lemma NoPiece()
    ensures NonEmpty([[]]) == []
  {
    var s: seq<bytes> := [[]];
    assert s[1..] == [];
  }

  lemma EmitFrames(w: Writer, p: bytes)
    ensures Emit(w, p) == w.(out := w.out + Framed(w.chunked, [p]))
  {
    FramedOne(w.chunked, p);
  }

  lemma {:induction false} ReadsFrame(w: Writer, parts: seq<bytes>)
    ensures EmitReads(w, parts) == w.(out := w.out + Framed(w.chunked, NonEmpty(parts)))
    decreases |parts|
  {
    if parts == [] {
      EmptyAppend(w.out);
    } else if parts[0] == [] {
      ReadsFrame(w, parts[1..]);
      EmptyAppend(NonEmpty(parts[1..]));
    } else {
      EmitFrames(w, parts[0]);
      ReadsFrame(Emit(w, parts[0]), parts[1..]);
      FramedAppend(w.chunked, [parts[0]], NonEmpty(parts[1..]));
      Assoc(w.out, Framed(w.chunked, [parts[0]]), Framed(w.chunked, NonEmpty(parts[1..])));
    }
  }

  // ----------------------------------------------------------------------- before the head

  /** The writer while nothing has gone out. */
  function Waiting(env: Env, ops: seq<Op>): (w: Writer) {
    Writer(StatusOf(ops), HeaderOf(env, ops), TrailerOf(ops), false, false, false, FirstWrite(ops), [])
  }

  lemma SniffedIs(env: Env, w: Writer, p: bytes)
    requires p != []
    ensures Sniffed(env, w, p) == w.(header := WithType(env, w.header, p))
  {
    if |p| < 512 {
      assert p[..|p|] == p;
    }
  }

  lemma EditsWait(env: Env, ops: seq<Op>, op: Op)
    requires Sniffs(env) && (op.WriteHeader? || op.EditHeader? || op.EditTrailer?)
    ensures Do(env, Waiting(env, ops), op) == Waiting(env, ops + [op])
  {
    SettingsSnoc(ops, op);
    HeaderSnoc(env, ops, op);
    FirstWriteSnoc(ops, op);
  }

  /** The header map decides the framing of a Write as the handler left it. */
  lemma FramingSet(env: Env, ops: seq<Op>, p: bytes)
    ensures SetsFraming(WithType(env, HeaderOf(env, ops), p)) <==> SetsFraming(MapOf(ops))
  {
    TypeIsNoFraming(env, HeaderOf(env, ops), p);
    TypeIsNoFraming(env, MapOf(ops), FirstData(ops[EditAt(ops)..]));
  }

  lemma WriteWaits(env: Env, ops: seq<Op>, p: bytes)
    requires Sniffs(env) && !Sends(ops, Write(p))
    ensures Do(env, Waiting(env, ops), Write(p)) == Waiting(env, ops + [Write(p)])
  {
    SettingsSnoc(ops, Write(p));
    HeaderSnoc(env, ops, Write(p));
    FirstWriteSnoc(ops, Write(p));
    if p != [] {
      SniffedIs(env, Waiting(env, ops), p);
      FramingSet(env, ops, p);
    }
  }

  /** An operation that does not send the head. */
  lemma StillWaits(env: Env, ops: seq<Op>, op: Op)
    requires Sniffs(env) && !Sends(ops, op)
    ensures Do(env, Waiting(env, ops), op) == Waiting(env, ops + [op])
  {
    match op
    case Write(p) => WriteWaits(env, ops, p);
    case WriteString(s) =>
      SettingsSnoc(ops, op);
      HeaderSnoc(env, ops, op);
      FirstWriteSnoc(ops, op);
    case _ => EditsWait(env, ops, op);
  }

  // --------------------------------------------------------------------------- the head

  lemma SendHeadIs(env: Env, w: Writer)
    requires !w.headerSent && w.out == [] && !w.hijacked && !w.chunked
    ensures var h := Heading(w.status, w.header, w.trailer);
            SendHead(env, w) == w.(chunked := SendsChunks(h), headerSent := true, out := HeadBytes(env, h))
  {
  }

  /** The writer once the head is out: `parts` have followed it. */
  ghost predicate Going(env: Env, w: Writer, h: Heading, parts: seq<bytes>, left: bytes) {
    && !w.hijacked && w.headerSent && w.chunked == SendsChunks(h) && w.pending == left
    && w.out == HeadBytes(env, h) + Framed(SendsChunks(h), parts)
  }

  lemma GoesOn(env: Env, w: Writer, h: Heading, parts: seq<bytes>, left: bytes, more: seq<bytes>, w': Writer)
    requires Going(env, w, h, parts, left) && w' == w.(out := w.out + Framed(w.chunked, more))
    ensures Going(env, w', h, parts + more, left)
  {
    FramedAppend(w.chunked, parts, more);
    Assoc(HeadBytes(env, h), Framed(w.chunked, parts), Framed(w.chunked, more));
  }

  lemma Started(env: Env, w: Writer, h: Heading)
    requires !w.headerSent && w.out == [] && !w.hijacked && !w.chunked && h == Heading(w.status, w.header, w.trailer)
    ensures Going(env, SendHead(env, w), h, [], w.pending) && SendHead(env, w).trailer == w.trailer
  {
    SendHeadIs(env, w);
    EmptyAppend(HeadBytes(env, h));
  }

  /** The head, and what the first Write gave behind it. */
  lemma StartedWithFirst(env: Env, w: Writer, h: Heading)
    requires !w.headerSent && w.out == [] && !w.hijacked && !w.chunked && h == Heading(w.status, w.header, w.trailer) && w.pending != []
    ensures Going(env, EmitPending(SendHead(env, w)), h, [w.pending], []) && EmitPending(SendHead(env, w)).trailer == w.trailer
  {
    Started(env, w, h);
    var w1 := SendHead(env, w);
    EmitFrames(w1, w1.pending);
    GoesOn(env, w1, h, [], w.pending, [w.pending], Emit(w1, w1.pending));
    EmptyAppend([w.pending]);
  }

  /** The head, the first Write if it goes first, and the pieces of the operation. */
  function Opening(h: Heading, held: bytes, op: Op): (r: seq<bytes>) {
    (if held != [] && PutsFirst(h, op) then [held] else []) + PiecesOf(op)
  }

  function Left(h: Heading, held: bytes, op: Op): (b: bytes) {
    if PutsFirst(h, op) then [] else held
  }

  /** A writer before its head, with the content type settled. */
  ghost predicate Poised(w: Writer) {
    !w.headerSent && w.out == [] && !w.hijacked && !w.chunked
  }

  lemma WriteSends(env: Env, w: Writer, p: bytes, w1: Writer, h: Heading)
    requires Poised(w) && p != [] && w1 == w.(header := WithType(env, w.header, p)) && h == Heading(w1.status, w1.header, w1.trailer)
    requires w.pending != [] || SetsFraming(w1.header) || w1.trailer != map[]
    ensures Going(env, DoWrite(env, w, p), h, Opening(h, w.pending, Write(p)), Left(h, w.pending, Write(p)))
    ensures DoWrite(env, w, p).trailer == w.trailer
  {
    SniffedIs(env, w, p);
    OnePiece(p);
    if PutsFirst(h, Write(p)) {
      StartedWithFirst(env, w1, h);
      var w2 := EmitPending(SendHead(env, w1));
      EmitFrames(w2, p);
      GoesOn(env, w2, h, [w.pending], [], [p], Emit(w2, p));
    } else {
      Started(env, w1, h);
      var w2 := SendHead(env, w1);
      EmitFrames(w2, p);
      GoesOn(env, w2, h, [], w.pending, [p], Emit(w2, p));
    }
  }

  lemma WriteStringSends(env: Env, w: Writer, s: bytes, w1: Writer, h: Heading)
    requires Poised(w) && s != [] && w1 == w.(header := WithType(env, w.header, s)) && h == Heading(w1.status, w1.header, w1.trailer)
    ensures Going(env, DoWriteString(env, w, s), h, Opening(h, w.pending, WriteString(s)), Left(h, w.pending, WriteString(s)))
    ensures DoWriteString(env, w, s).trailer == w.trailer
  {
    SniffedIs(env, w, s);
    OnePiece(s);
    Started(env, w1, h);
    var w2 := SendHead(env, w1);
    EmitFrames(w2, s);
    GoesOn(env, w2, h, [], w.pending, [s], Emit(w2, s));
  }

  lemma ReadFromSends(env: Env, w: Writer, parts: seq<bytes>, h: Heading)
    requires Poised(w) && h == Heading(w.status, w.header, w.trailer)
    ensures Going(env, DoReadFrom(env, w, parts), h, Opening(h, w.pending, ReadFrom(parts)), Left(h, w.pending, ReadFrom(parts)))
    ensures DoReadFrom(env, w, parts).trailer == w.trailer
  {
    Started(env, w, h);
    var w2 := SendHead(env, w);
    ReadsFrame(w2, parts);
    GoesOn(env, w2, h, [], w.pending, NonEmpty(parts), EmitReads(w2, parts));
  }

  lemma FlushSends(env: Env, w: Writer, h: Heading)
    requires Poised(w) && h == Heading(w.status, w.header, w.trailer)
    ensures Going(env, DoFlush(env, w), h, Opening(h, w.pending, Flush), Left(h, w.pending, Flush))
    ensures DoFlush(env, w).trailer == w.trailer
  {
    NoPiece();
    EmptyAppend([w.pending]);
    if w.pending != [] && PutsFirst(h, Flush) {
      StartedWithFirst(env, w, h);
    } else {
      Started(env, w, h);
    }
  }

  /** The operation that sends the head. */
  lemma OpSends(env: Env, ops: seq<Op>, op: Op, h: Heading)
    requires Sniffs(env) && Sends(ops, op) && h == Heading(StatusOf(ops), HeaderOf(env, ops + [op]), TrailerOf(ops))
    ensures var w := Do(env, Waiting(env, ops), op);
            Going(env, w, h, Opening(h, FirstWrite(ops), op), Left(h, FirstWrite(ops), op)) && w.trailer == TrailerOf(ops)
  {
    var w := Waiting(env, ops);
    HeaderSnoc(env, ops, op);
    var w1 := w.(header := WithType(env, w.header, DataOf(op)));
    match op
    case Write(p) =>
      FramingSet(env, ops, p);
      WriteSends(env, w, p, w1, h);
    case WriteString(s) => WriteStringSends(env, w, s, w1, h);
    case ReadFrom(parts) => ReadFromSends(env, w, parts, h);
    case Flush => FlushSends(env, w, h);
  }

  /** Any later operation. */
  lemma OpGoesOn(env: Env, w: Writer, h: Heading, parts: seq<bytes>, left: bytes, op: Op)
    requires Going(env, w, h, parts, left)
    ensures Going(env, Do(env, w, op), h, parts + PiecesOf(op), left)
    ensures Do(env, w, op).trailer == if op.EditTrailer? then op.trailer else w.trailer
  {
    NoPiece();
    EmptyAppend(parts);
    match op
    case Write(p) =>
      if p != [] {
        OnePiece(p);
        EmitFrames(w, p);
        GoesOn(env, w, h, parts, left, [p], Emit(w, p));
      }
    case WriteString(s) =>
      if s != [] {
        OnePiece(s);
        EmitFrames(w, s);
        GoesOn(env, w, h, parts, left, [s], Emit(w, s));
      }
    case ReadFrom(more) =>
      ReadsFrame(w, more);
      GoesOn(env, w, h, parts, left, NonEmpty(more), EmitReads(w, more));
    case _ =>
  }

  // -------------------------------------------------------------------------- whole runs

  /** Where a run stands. */
  ghost predicate Reached(env: Env, ops: seq<Op>, w: Writer) {
    if HeadAt(ops) == |ops| then w == Waiting(env, ops)
    else Going(env, w, HeadOf(env, ops), Parts(env, ops), Leftover(env, ops)) && w.trailer == TrailerOf(ops)
  }

  lemma HeadAtHead(env: Env, ops: seq<Op>, op: Op)
    requires HeadAt(ops) == |ops| && Sends(ops, op)
    ensures HeadAt(ops + [op]) == |ops| && HeadOf(env, ops + [op]) == Heading(StatusOf(ops), HeaderOf(env, ops + [op]), TrailerOf(ops))
  {
    Snoc(ops, op);
    HeadAtSnoc(ops, op);
    assert (ops + [op])[..|ops| + 1] == ops + [op];
  }

  lemma OpeningIs(h: Heading, held: bytes, op: Op)
    ensures PartsFrom(h, held, [op]) == Opening(h, held, op)
  {
    PiecesSnoc([], op);
    EmptyAppend([op]);
    EmptyAppend(PiecesOf(op));
  }

  lemma PartsAtHead(env: Env, ops: seq<Op>, op: Op, h: Heading)
    requires HeadAt(ops + [op]) == |ops| && HeadOf(env, ops + [op]) == h
    ensures Parts(env, ops + [op]) == Opening(h, FirstWrite(ops), op) && Leftover(env, ops + [op]) == Left(h, FirstWrite(ops), op)
  {
    Snoc(ops, op);
    assert (ops + [op])[|ops|..] == [op];
    OpeningIs(h, FirstWrite(ops), op);
  }

  lemma HeadLater(env: Env, ops: seq<Op>, op: Op)
    requires HeadAt(ops) < |ops|
    ensures HeadAt(ops + [op]) == HeadAt(ops) && HeadOf(env, ops + [op]) == HeadOf(env, ops)
  {
    HeadAtSnoc(ops, op);
    TakeAppend(ops, [op], HeadAt(ops));
    TakeAppend(ops, [op], HeadAt(ops) + 1);
  }

  lemma PartsFromSnoc(h: Heading, held: bytes, rest: seq<Op>, op: Op)
    requires rest != []
    ensures PartsFrom(h, held, rest + [op]) == PartsFrom(h, held, rest) + PiecesOf(op)
  {
    PiecesSnoc(rest, op);
    Assoc(if held != [] && PutsFirst(h, rest[0]) then [held] else [], Pieces(rest), PiecesOf(op));
  }

  lemma PartsAre(env: Env, ops: seq<Op>, h: Heading, held: bytes, rest: seq<Op>)
    requires HeadAt(ops) < |ops| && HeadOf(env, ops) == h && FirstWrite(ops[..HeadAt(ops)]) == held && ops[HeadAt(ops)..] == rest
    ensures rest != [] && Parts(env, ops) == PartsFrom(h, held, rest) && Leftover(env, ops) == Left(h, held, rest[0])
  {
  }

  lemma PartsLater(env: Env, ops: seq<Op>, op: Op)
    requires HeadAt(ops) < |ops|
    ensures HeadOf(env, ops + [op]) == HeadOf(env, ops) && Leftover(env, ops + [op]) == Leftover(env, ops)
    ensures Parts(env, ops + [op]) == Parts(env, ops) + PiecesOf(op)
  {
    var k, h := HeadAt(ops), HeadOf(env, ops);
    var held, rest := FirstWrite(ops[..k]), ops[k..];
    HeadLater(env, ops, op);
    TakeAppend(ops, [op], k);
    DropAppend(ops, [op], k);
    PartsAre(env, ops, h, held, rest);
    PartsAre(env, ops + [op], h, held, rest + [op]);
    PartsFromSnoc(h, held, rest, op);
  }

  lemma OneOpMore(env: Env, ops: seq<Op>, w: Writer, op: Op)
    requires Sniffs(env) && Reached(env, ops, w)
    ensures Reached(env, ops + [op], Do(env, w, op))
  {
    HeadAtSnoc(ops, op);
    SettingsSnoc(ops, op);
    if HeadAt(ops) < |ops| {
      PartsLater(env, ops, op);
      OpGoesOn(env, w, HeadOf(env, ops), Parts(env, ops), Leftover(env, ops), op);
    } else if Sends(ops, op) {
      var h := Heading(StatusOf(ops), HeaderOf(env, ops + [op]), TrailerOf(ops));
      HeadAtHead(env, ops, op);
      PartsAtHead(env, ops, op, h);
      OpSends(env, ops, op, h);
    } else {
      StillWaits(env, ops, op);
    }
  }

  lemma {:induction false} RunReaches(env: Env, ops: seq<Op>)
    requires Sniffs(env)
    ensures Reached(env, ops, DoAll(env, NEW, ops))
    decreases |ops|
  {
    if ops != [] {
      var before, op := ops[..|ops| - 1], ops[|ops| - 1];
      assert ops == before + [op];
      RunReaches(env, before);
      DoAllSnoc(env, NEW, before, op);
      OneOpMore(env, before, DoAll(env, NEW, before), op);
    }
  }

  lemma SizedIs(w: Writer)
    ensures Sized(w) == w.(header := WithLength(w.header, |w.pending|))
  {
  }

  /** The end of a response whose head is out. */
  lemma GoingEnds(env: Env, w: Writer, h: Heading, parts: seq<bytes>, left: bytes)
    requires Going(env, w, h, parts, left)
    ensures DoEnd(env, w).out == HeadBytes(env, h) + Framed(SendsChunks(h), parts) + left + EndText(env, SendsChunks(h), w.trailer)
  {
    EmptyAppend(w.out + w.pending);
  }

  lemma WaitingEnds(env: Env, w: Writer, h: Heading)
    requires Poised(w) && h == Heading(w.status, WithLength(w.header, |w.pending|), w.trailer)
    ensures DoEnd(env, w).out == HeadBytes(env, h) + Framed(SendsChunks(h), []) + w.pending + EndText(env, SendsChunks(h), w.trailer)
  {
    SizedIs(w);
    Started(env, Sized(w), h);
    GoingEnds(env, SendHead(env, Sized(w)), h, [], w.pending);
  }

  /** Every run, whatever the handler does, puts on the wire what its operations say. */
  lemma WireIs(env: Env, ops: seq<Op>)
    requires Sniffs(env)
    ensures DoEnd(env, DoAll(env, NEW, ops)).out == WireOf(env, ops)
  {
    RunReaches(env, ops);
    var w, h := DoAll(env, NEW, ops), HeadOf(env, ops);
    if HeadAt(ops) == |ops| {
      assert ops[..|ops|] == ops;
      WaitingEnds(env, w, h);
    } else {
      GoingEnds(env, w, h, Parts(env, ops), Leftover(env, ops));
    }
  }
}
