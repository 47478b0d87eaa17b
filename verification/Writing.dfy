/** The response writer of adaptor/adaptor.go: a state machine that decides late between
    Content-Length and chunked framing, as functions of its state. */
module Writing {
  import opened Bytes
  import opened Numerals
  import opened Grammar
  import opened Wire

  type Headers = map<bytes, seq<bytes>>

  const CONTENT_LENGTH: bytes := [67, 111, 110, 116, 101, 110, 116, 45, 76, 101, 110, 103, 116, 104]  // Content-Length
  const CONTENT_TYPE: bytes := [67, 111, 110, 116, 101, 110, 116, 45, 84, 121, 112, 101]  // Content-Type
  const TRANSFER_ENCODING: bytes := [84, 114, 97, 110, 115, 102, 101, 114, 45, 69, 110, 99, 111, 100, 105, 110, 103]  // Transfer-Encoding
  const CHUNKED: bytes := [99, 104, 117, 110, 107, 101, 100]  // chunked
  const CHUNKED_TRAILERS: bytes := [99, 104, 117, 110, 107, 101, 100, 44, 32, 116, 114, 97, 105, 108, 101, 114, 115]  // chunked, trailers
  const STATUS_CODE: bytes := [115, 116, 97, 116, 117, 115, 32, 99, 111, 100, 101, 32]  // status code
  const OK: bytes := [79, 75]
  const DATE: bytes := [68, 97, 116, 101]  // Date

  /** What the writer takes from its surroundings: the order in which http.Header.Write lists the
      valid keys, its cleaning of values, http.StatusText, the current date and content sniffing. */
  datatype Env = Env(
    order: Headers -> seq<bytes>,
    clean: bytes -> bytes,
    statusText: int -> bytes,
    date: bytes,
    sniff: bytes -> bytes)

  /** The writer's fields, with all that was written to its buffered writer as `out`. */
  datatype Writer = Writer(
    status: nat,
    header: Headers,
    trailer: Headers,
    hijacked: bool,
    headerSent: bool,
    chunked: bool,
    pending: bytes,
    out: bytes)

  const NEW := Writer(200, map[], map[], false, false, false, [], [])

  function First(h: Headers, k: bytes): (v: bytes) {
    if k in h && h[k] != [] then h[k][0] else []
  }

  // ------------------------------------------------------------------------ the head

  function LinesOf(env: Env, k: bytes, vs: seq<bytes>): (r: seq<Header>) {
    if vs == [] then [] else [Header(k, env.clean(vs[0]))] + LinesOf(env, k, vs[1..])
  }

  function ListKeys(env: Env, h: Headers, ks: seq<bytes>): (r: seq<Header>) {
    if ks == [] then [] else LinesOf(env, ks[0], if ks[0] in h then h[ks[0]] else []) + ListKeys(env, h, ks[1..])
  }

  /** http.Header.Write. */
  function Listed(env: Env, h: Headers): (r: seq<Header>) {
    ListKeys(env, h, env.order(h))
  }

  function StatusText(env: Env, code: nat): (t: bytes) {
    if env.statusText(code) == [] then STATUS_CODE + Print(10, code) else env.statusText(code)
  }

  function HeadText(code: nat, text: bytes, hs: seq<Header>): (t: bytes) {
    StatusLine(code, text) + CRLF + (HeadersText(hs) + CRLF)
  }

  function DateLine(env: Env, h: Headers): (r: seq<Header>) {
    if First(h, DATE) == [] then [Header(DATE, env.date)] else []
  }

  /** The 200 response with a Content-Length and at most a Content-Type besides, written directly. */
  predicate Direct(w: Writer) {
    && w.status == 200 && w.trailer == map[] && First(w.header, DATE) == [] && First(w.header, TRANSFER_ENCODING) == []
    && First(w.header, CONTENT_LENGTH) != []
    && (|w.header| == 1 || (|w.header| == 2 && First(w.header, CONTENT_TYPE) != []))
  }

  function DirectLines(env: Env, h: Headers): (r: seq<Header>) {
    [Header(DATE, env.date)]
    + (if First(h, CONTENT_TYPE) == [] then [] else [Header(CONTENT_TYPE, First(h, CONTENT_TYPE))])
    + [Header(CONTENT_LENGTH, First(h, CONTENT_LENGTH))]
  }

  function EncodingLine(w: Writer, chunked: bool): (r: seq<Header>) {
    if chunked && First(w.header, TRANSFER_ENCODING) == [] then
      [Header(TRANSFER_ENCODING, if w.trailer == map[] then CHUNKED else CHUNKED_TRAILERS)]
    else []
  }

  function HeadLines(env: Env, w: Writer, chunked: bool): (r: seq<Header>) {
    DateLine(env, w.header) + Listed(env, w.header) + EncodingLine(w, chunked)
  }

  /** ensureHeaderSent. */
  function SendHead(env: Env, w: Writer): (r: Writer) {
    if w.headerSent then w
    else if Direct(w) then
      w.(chunked := false, headerSent := true, out := w.out + HeadText(200, OK, DirectLines(env, w.header)))
    else
      var chunked := First(w.header, CONTENT_LENGTH) == [] || w.trailer != map[];
      w.(chunked := chunked, headerSent := true,
         out := w.out + HeadText(w.status, StatusText(env, w.status), HeadLines(env, w, chunked)))
  }

  // ------------------------------------------------------------------------ operations

  /** Body bytes go out as a chunk or as they are. */
  function Emit(w: Writer, p: bytes): (r: Writer) {
    w.(out := w.out + if w.chunked then ChunkText(p) else p)
  }

  function EmitPending(w: Writer): (r: Writer) {
    Emit(w, w.pending).(pending := [])
  }

  function Sniffed(env: Env, w: Writer, p: bytes): (r: Writer) {
    if First(w.header, CONTENT_TYPE) != [] then w
    else w.(header := w.header[CONTENT_TYPE := [env.sniff(p[..if |p| < 512 then |p| else 512])]])
  }

  function DoWrite(env: Env, w: Writer, p: bytes): (r: Writer) {
    if w.hijacked || p == [] then w
    else if w.headerSent then Emit(w, p)
    else
      var w1 := Sniffed(env, w, p);
      if First(w1.header, CONTENT_LENGTH) == [] && First(w1.header, TRANSFER_ENCODING) == [] && w1.trailer == map[] then
        if w1.pending == [] then w1.(pending := p)
        else Emit(EmitPending(SendHead(env, w1)), p)
      else Emit(SendHead(env, w1), p)
  }

  function DoWriteString(env: Env, w: Writer, s: bytes): (r: Writer) {
    if w.hijacked || s == [] then w
    else Emit(SendHead(env, if w.headerSent then w else Sniffed(env, w, s)), s)
  }

  /** What ReadFrom does with the results of successive reads. */
  function EmitReads(w: Writer, parts: seq<bytes>): (r: Writer)
    decreases |parts|
  {
    if parts == [] then w
    else EmitReads(if parts[0] == [] then w else Emit(w, parts[0]), parts[1..])
  }

  function DoReadFrom(env: Env, w: Writer, parts: seq<bytes>): (r: Writer) {
    if w.hijacked then w else EmitReads(SendHead(env, w), parts)
  }

  function DoFlush(env: Env, w: Writer): (r: Writer) {
    if w.hijacked || w.headerSent then w
    else if w.pending != [] && First(w.header, CONTENT_LENGTH) == [] then EmitPending(SendHead(env, w))
    else SendHead(env, w)
  }

  function DoWriteHeader(w: Writer, code: nat): (r: Writer) {
    if w.hijacked || w.headerSent then w else w.(status := code)
  }

  /** The head as EndResponse completes it: without Content-Length, the size of what is pending. */
  function Sized(w: Writer): (r: Writer) {
    if First(w.header, CONTENT_LENGTH) != [] then w
    else w.(header := w.header[CONTENT_LENGTH := [Print(10, |w.pending|)]])
  }

  function Ending(env: Env, w: Writer): (t: bytes) {
    if !w.chunked then []
    else if w.trailer == map[] then LAST_CHUNK
    else [48] + CRLF + HeadersText(Listed(env, w.trailer)) + CRLF
  }

  function DoEnd(env: Env, w: Writer): (r: Writer) {
    if w.hijacked then w
    else
      var w1 := if w.headerSent then w else SendHead(env, Sized(w));
      w1.(out := w1.out + w1.pending + Ending(env, w1), pending := [])
  }

  /** What a handler does. */
  datatype Op =
    | Write(data: bytes)
    | WriteString(data: bytes)
    | ReadFrom(parts: seq<bytes>)
    | Flush
    | WriteHeader(code: nat)
    | EditHeader(header: Headers)
    | EditTrailer(trailer: Headers)

  function Do(env: Env, w: Writer, op: Op): (r: Writer) {
    match op
    case Write(p) => DoWrite(env, w, p)
    case WriteString(s) => DoWriteString(env, w, s)
    case ReadFrom(parts) => DoReadFrom(env, w, parts)
    case Flush => DoFlush(env, w)
    case WriteHeader(code) => DoWriteHeader(w, code)
    case EditHeader(h) => w.(header := h)
    case EditTrailer(h) => w.(trailer := h)
  }

  function DoAll(env: Env, w: Writer, ops: seq<Op>): (r: Writer)
    decreases |ops|
  {
    if ops == [] then w else DoAll(env, Do(env, w, ops[0]), ops[1..])
  }

  /** The bytes an operation adds to the body. */
  function Given(op: Op): (b: bytes) {
    match op
    case Write(p) => p
    case WriteString(s) => s
    case ReadFrom(parts) => Concat(parts)
    case _ => []
  }

  function GivenBy(ops: seq<Op>): (b: bytes) {
    if ops == [] then [] else Given(ops[0]) + GivenBy(ops[1..])
  }
}
