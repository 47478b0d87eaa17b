/** The line grammar: internal/parser/startline.go, headers.go, framing.go and the header
    semantics at the end of engine.go. */
module Grammar {
  import opened Bytes
  import opened Numerals

  datatype Kind = Request | Response | Both

  datatype Err =
    | ErrReqMethod
    | ErrHeaderOverflow
    | ErrNoEndLF
    | ErrChunkSize
    | ErrScratchOverflow
    | ErrDuplicateLength
    | ErrInvalidLength
    | ErrUrl
    | ErrEof
    | Fault  // int32 overflow of a chunk size: the program's own behaviour is not modelled

  // ---------------------------------------------------------------- start lines

  /** Method tokens in the order of their numbers, which start at 1. */
  const METHODS: seq<string> := [
    "get", "head", "post", "put", "delete", "connect", "options", "trace", "acl", "bind", "copy",
    "checkout", "lock", "unlock", "link", "mkcol", "move", "mkactivity", "merge", "m-search",
    "mkcalendar", "notify", "propfind", "proppatch", "patch", "purge", "report", "rebind",
    "subscribe", "search", "source", "unsubscribe", "unbind", "unlink"
  ]
  const CONNECT: nat := 6

  function MatchFrom(b: bytes, table: seq<string>, i: nat): (r: Option<nat>)
    requires i <= |table|
    ensures r.Some? ==> 0 < r.value <= |table| && EqualFold(b, table[r.value - 1])
    decreases |table| - i, |b|
  {
    if i == |table| then None
    else if EqualFold(b, table[i]) then Some(i + 1)
    else MatchFrom(b, table, i + 1)
  }

  function MatchMethod(b: bytes): (r: Option<nat>)
    ensures r.Some? ==> 0 < r.value <= |METHODS| && EqualFold(b, METHODS[r.value - 1])
  {
    MatchFrom(b, METHODS, 0)
  }

  datatype Version = Version(major: int, minor: int)
  datatype RequestLine = RequestLine(verb: nat, target: bytes, version: Version)
  datatype ResponseLine = ResponseLine(version: Version, status: int, reason: bytes)

  predicate IsDigit(b: byte) { 48 <= b <= 57 }

  /** "HTTP/" at position `p`. */
  predicate HttpAt(b: bytes, p: nat) {
    p + 5 <= |b| && b[p] == 72 && b[p + 1] == 84 && b[p + 2] == 84 && b[p + 3] == 80 && b[p + 4] == SLASH
  }

  /** A version number d.d at position `p`. */
  function VersionAt(b: bytes, p: nat): (r: Option<Version>) {
    if |b| < p + 3 || b[p + 1] != DOT || !IsDigit(b[p]) || !IsDigit(b[p + 2]) then None
    else Some(Version(b[p] as int - 48, b[p + 2] as int - 48))
  }

  function ParseRequestLine(line: bytes): (r: Option<RequestLine>) {
    match FindByte(line, SP)
    case None => None
    case Some(first) =>
      match ByteFrom(line, SP, first + 1)
      case None => None
      case Some(second) =>
        if |line| != second + 9 || !HttpAt(line, second + 1) then None
        else
          match (MatchMethod(line[..first]), VersionAt(line, second + 6))
          case (Some(verb), Some(version)) => Some(RequestLine(verb, line[first + 1..second], version))
          case _ => None
  }

  function ParseResponseLine(line: bytes): (r: Option<ResponseLine>) {
    if |line| < 12 || !HttpAt(line, 0) || line[8] != SP then None
    else
      match (VersionAt(line, 5), ParseNumeral(10, line[9..12]))
      case (Some(version), Some(status)) =>
        Some(ResponseLine(version, status % 0x1_0000, if |line| > 13 then line[13..] else []))
      case _ => None
  }

  // -------------------------------------------------------------------- headers

  datatype Header = Header(name: bytes, value: bytes)

  function ParseHeaderLine(line: bytes): (r: Option<Header>) {
    match FindByte(line, COLON)
    case None => None
    case Some(sep) => Some(Header(line[..sep], line[SkipFrom(line, sep + 1)..]))
  }

  datatype Meta = Meta(kind: Kind, status: int, hasLength: bool, length: int, chunked: bool)

  predicate IsLength(h: Header) { EqualFold(h.name, "content-length") }

  predicate IsChunked(h: Header) {
    EqualFold(h.name, "transfer-encoding") && EqualFold(h.value, "chunked")
  }

  /** applyHeaderMeta; None where the source returns false. */
  function ApplyHeader(meta: Meta, h: Header): (r: Option<Meta>)
    ensures r.Some? ==> r.value.kind == meta.kind && r.value.status == meta.status
  {
    if IsLength(h) then
      if meta.hasLength then None
      else
        match ParseNumeral(10, h.value)
        case None => None
        case Some(n) => Some(meta.(hasLength := true, length := n))
    else if IsChunked(h) then Some(meta.(chunked := true))
    else Some(meta)
  }

  function SemanticError(meta: Meta): (e: Err) {
    if meta.hasLength then ErrDuplicateLength else ErrInvalidLength
  }

  /** What a header says about the connection. */
  datatype Flags = Flags(close: bool, connUpgrade: bool, upgrade: bool)
  const NO_FLAGS := Flags(false, false, false)

  function AddFlags(f: Flags, h: Header): (r: Flags) {
    var connection := EqualFold(h.name, "connection");
    Flags(f.close || (connection && EqualFold(h.value, "close")),
          f.connUpgrade || (connection && EqualFold(h.value, "upgrade")),
          f.upgrade || EqualFold(h.name, "upgrade"))
  }

  function AllFlags(f: Flags, hs: seq<Header>): (r: Flags)
    decreases |hs|
  {
    if hs == [] then f else AllFlags(AddFlags(f, hs[0]), hs[1..])
  }

  /** How single lines are read. What is proved of framing, splitting and resuming uses nothing
      else about the syntax of lines, so it holds for every line grammar. */
  datatype LineGrammar = LineGrammar(
    request: bytes -> Option<RequestLine>,
    response: bytes -> Option<ResponseLine>,
    header: bytes -> Option<Header>,
    size: bytes -> Option<int>)

  const HTTP := LineGrammar(ParseRequestLine, ParseResponseLine, ParseHeaderLine, ParseChunkSize)

  // -------------------------------------------------------------------- framing

  datatype Mode = NoBody | LengthBody | ChunkedBody | EofBody

  predicate StatusHasNoBody(status: int) {
    100 <= status < 200 || status == 204 || status == 304
  }

  /** Section 6.3 of RFC 9112 as decideBodyMode applies it. */
  function BodyMode(meta: Meta): (m: Mode) {
    if meta.chunked then ChunkedBody
    else if meta.hasLength then if meta.length == 0 then NoBody else LengthBody
    else if meta.kind == Response && !StatusHasNoBody(meta.status) then EofBody
    else NoBody
  }

  // ---------------------------------------------------------------------- facts

  /** The value of a header line as far as it has arrived. */
  function PartialValue(line: bytes): (v: bytes) {
    match FindByte(line, COLON)
    case None => []
    case Some(sep) => line[SkipFrom(line, sep + 1)..]
  }

  /** What is read of a value from a shorter line is a prefix of what a longer line gives. */
  lemma PartialValueGrows(line: bytes, x: bytes)
    ensures PartialValue(line) <= PartialValue(line + x)
  {
    if FindByte(line, COLON).Some? {
      var sep := FindByte(line, COLON).value;
      ByteKept(line, x, COLON);
      var k := SkipFrom(line, sep + 1);
      if k < |line| {
        SkipIs(line + x, sep + 1, k);
        DropAppend(line, x, k);
      }
    }
  }

  /** Header lines that fix the framing say nothing about the connection. */
  lemma FramingHeadersCarryNoFlags(f: Flags, h: Header)
    ensures IsLength(h) || IsChunked(h) ==> AddFlags(f, h) == f
    ensures EqualFold(h.name, "connection") ==> !EqualFold(h.name, "upgrade")
  {
  }

  lemma {:induction false} FlagsAppend(f: Flags, a: seq<Header>, b: seq<Header>)
    ensures AllFlags(f, a + b) == AllFlags(AllFlags(f, a), b)
    decreases |a|
  {
    if a == [] {
      EmptyAppend(b);
    } else {
      FlagsAppend(AddFlags(f, a[0]), a[1..], b);
      DropAppend(a, b, 1);
    }
  }
}
