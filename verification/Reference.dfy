/** The one-shot parser `parseMessageDetailed` (internal/parser/engine.go) as a function of the
    line grammar and the buffer. */
module Reference {
  import opened Bytes
  import opened Grammar

  datatype StartLine = Req(req: RequestLine) | Rsp(rsp: ResponseLine)

  datatype Message = Message(start: StartLine, headers: seq<Header>, meta: Meta, mode: Mode, body: bytes)

  datatype Parsed =
    | Accepted(msg: Message)
    | Incomplete
    | Rejected(err: Err)
    | Panics  // a negative Content-Length is used as a slice bound

  function ParseStart(g: LineGrammar, kind: Kind, line: bytes): (r: Option<StartLine>) {
    match kind
    case Request => (match g.request(line) case Some(l) => Some(Req(l)) case None => None)
    case Response => (match g.response(line) case Some(l) => Some(Rsp(l)) case None => None)
    case Both => None
  }

  function StartMeta(start: StartLine): (m: Meta) {
    match start
    case Req(_) => Meta(Request, 0, false, 0, false)
    case Rsp(l) => Meta(Response, l.status, false, 0, false)
  }

  datatype Head = HeadDone(meta: Meta, headers: seq<Header>, next: nat) | HeadIncomplete | HeadRejected(err: Err)

  /** The header section: from the header line at `p` to behind the empty line. */
  function ParseHeaders(g: LineGrammar, meta: Meta, buf: bytes, p: nat): (r: Head)
    requires p <= |buf|
    ensures r.HeadDone? ==> p + 2 <= r.next <= |buf|
    decreases |buf| - p
  {
    if |buf| < p + 2 then HeadIncomplete
    else if buf[p] == CR then
      if buf[p + 1] == LF then HeadDone(meta, [], p + 2) else HeadIncomplete
    else
      match CrlfFrom(buf, p)
      case None => HeadIncomplete
      case Some(i) =>
        match g.header(buf[p..i])
        case None => HeadIncomplete
        case Some(h) =>
          match ApplyHeader(meta, h)
          case None => HeadRejected(SemanticError(meta))
          case Some(meta') =>
            match ParseHeaders(g, meta', buf, i + 2)
            case HeadDone(m, hs, next) => HeadDone(m, [h] + hs, next)
            case other => other
  }

  /** One step of a chunked body: a chunk of data, or the zero chunk; `next` is the position behind it. */
  datatype Chunk = Data(data: bytes, next: nat) | Last(next: nat)

  function TakeChunk(g: LineGrammar, buf: bytes, p: nat): (r: Option<Chunk>)
    requires p <= |buf|
    ensures r.Some? ==> p + 4 <= r.value.next <= |buf|
  {
    match CrlfFrom(buf, p)
    case None => None
    case Some(i) =>
      match g.size(buf[p..i])
      case None => None
      case Some(size) =>
        if size < 0 || !CrlfAt(buf, i + 2 + size) then None
        else if size == 0 then Some(Last(i + 4))
        else Some(Data(buf[i + 2..i + 2 + size], i + 4 + size))
  }

  datatype Chunks = Chunks(parts: seq<bytes>, next: nat)

  /** A chunked body (section 7.1 of RFC 9112) without trailers. */
  function ParseChunks(g: LineGrammar, buf: bytes, p: nat): (r: Option<Chunks>)
    requires p <= |buf|
    ensures r.Some? ==> p + 4 <= r.value.next <= |buf|
    decreases |buf| - p
  {
    match TakeChunk(g, buf, p)
    case None => None
    case Some(Last(next)) => Some(Chunks([], next))
    case Some(Data(data, next)) =>
      match ParseChunks(g, buf, next)
      case None => None
      case Some(c) => Some(Chunks([data] + c.parts, c.next))
  }

  datatype Body = BodyDone(body: bytes, next: nat) | BodyIncomplete | BodyPanics

  function ParseBody(g: LineGrammar, meta: Meta, buf: bytes, p: nat): (r: Body)
    requires p <= |buf|
    ensures r.BodyDone? ==> p <= r.next <= |buf|
  {
    match BodyMode(meta)
    case LengthBody =>
      if |buf| - p < meta.length then BodyIncomplete
      else if meta.length < 0 then BodyPanics
      else BodyDone(buf[p..p + meta.length], p + meta.length)
    case ChunkedBody =>
      (match ParseChunks(g, buf, p)
       case None => BodyIncomplete
       case Some(c) => BodyDone(Concat(c.parts), c.next))
    case _ => BodyDone([], p)
  }

  function ParseMessage(g: LineGrammar, kind: Kind, buf: bytes): (r: Parsed) {
    match CrlfFrom(buf, 0)
    case None => Incomplete
    case Some(i) =>
      match ParseStart(g, kind, buf[..i])
      case None => Incomplete
      case Some(start) =>
        match ParseHeaders(g, StartMeta(start), buf, i + 2)
        case HeadIncomplete => Incomplete
        case HeadRejected(e) => Rejected(e)
        case HeadDone(meta, headers, p) =>
          match ParseBody(g, meta, buf, p)
          case BodyIncomplete => Incomplete
          case BodyPanics => Panics
          case BodyDone(body, next) =>
            if next != |buf| then Incomplete
            else Accepted(Message(start, headers, meta, BodyMode(meta), body))
  }
}
