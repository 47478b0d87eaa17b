/** The cursor of internal/parser/cursor.go, the scans that move it, and the cursor loop of
    parseMessageDetailed proved to compute `Reference.ParseMessage`. */
module Cursors {
  import opened Bytes
  import opened Numerals
  import opened Grammar
  import opened Reference

  class Cursor {
    const buf: bytes
    var pos: nat

    ghost predicate Valid()
      reads this
    {
      pos <= |buf|
    }

    constructor (buf: bytes)
      ensures Valid() && this.buf == buf && pos == 0
    {
      this.buf := buf;
      pos := 0;
    }

    function Remaining(): (n: nat)
      requires Valid()
      reads this
      ensures pos + n == |buf|
    {
      if pos >= |buf| then 0 else |buf| - pos
    }

    function Peek(): (r: Option<byte>)
      reads this
    {
      if pos >= |buf| then None else Some(buf[pos])
    }

    /** At most `n` bytes from the cursor on. */
    function Slice(n: nat): (s: bytes)
      requires Valid()
      reads this
      ensures pos + n <= |buf| ==> s == buf[pos..pos + n]
      ensures |buf| < pos + n ==> s == buf[pos..]
    {
      var end := if pos + n > |buf| then |buf| else pos + n;
      buf[pos..end]
    }

    method Advance(n: nat)
      requires Valid()
      modifies this
      ensures Valid() && pos == if old(pos) + n <= |buf| then old(pos) + n else |buf|
    {
      pos := pos + n;
      if pos > |buf| {
        pos := |buf|;
      }
    }

    /** The distance to the next CRLF. */
    method ScanCrlf() returns (r: Option<nat>)
      requires Valid()
      ensures match CrlfFrom(buf, pos) case None => r == None case Some(i) => r == Some(i - pos)
    {
      var i := pos;
      while i + 1 < |buf|
        invariant pos <= i
        invariant forall j | pos <= j < i :: !CrlfAt(buf, j)
      {
        if buf[i] == CR && buf[i + 1] == LF {
          CrlfIs(buf, pos, i);
          return Some(i - pos);
        }
        i := i + 1;
      }
      CrlfFound(buf, pos);
      return None;
    }

    /** parseChunkSizeLine: moves past the line only when it is a chunk size. */
    method ChunkSizeLine() returns (r: Option<int>)
      requires Valid()
      modifies this
      ensures Valid()
      ensures match CrlfFrom(buf, old(pos))
              case None => r == None
              case Some(i) => r == ParseChunkSize(buf[old(pos)..i]) && (r.Some? ==> pos == i + 2)
    {
      var end := ScanCrlf();
      if end.None? {
        return None;
      }
      r := ParseChunkSize(Slice(end.value));
      if r.Some? {
        Advance(end.value + 2);
      }
    }

    /** The CRLF behind the data of a chunk, or behind the zero chunk. */
    method ExpectCrlf() returns (ok: bool)
      requires Valid()
      modifies this
      ensures Valid()
      ensures ok <==> CrlfAt(buf, old(pos))
      ensures ok ==> pos == old(pos) + 2
    {
      if Remaining() < 2 || Peek() != Some(CR) {
        return false;
      }
      Advance(1);
      if Peek() != Some(LF) {
        return false;
      }
      Advance(1);
      return true;
    }

    /** consumeChunkData: `size` bytes and the CRLF behind them. */
    method ChunkData(size: int) returns (r: Option<bytes>)
      requires Valid()
      modifies this
      ensures Valid()
      ensures r.Some? <==> 0 <= size && CrlfAt(buf, old(pos) + size)
      ensures r.Some? ==> r.value == buf[old(pos)..old(pos) + size] && pos == old(pos) + size + 2
    {
      if size < 0 || Remaining() < size + 2 {
        return None;
      }
      var data := Slice(size);
      Advance(size);
      var ok := ExpectCrlf();
      if !ok {
        return None;
      }
      return Some(data);
    }
  }

  // ----------------------------------------------------------- the one-shot loop

  function WithHeaders(hs: seq<Header>, r: Head): (r': Head) {
    if r.HeadDone? then r.(headers := hs + r.headers) else r
  }

  function WithParts(parts: seq<bytes>, r: Option<Chunks>): (r': Option<Chunks>) {
    if r.Some? then Some(Chunks(parts + r.value.parts, r.value.next)) else None
  }

  lemma WithNothing(r: Head, q: Option<Chunks>)
    ensures WithHeaders([], r) == r
    ensures WithParts([], q) == q
  {
    if r.HeadDone? {
      EmptyAppend(r.headers);
    }
    if q.Some? {
      EmptyAppend(q.value.parts);
    }
  }

  /** What a turn of a header loop finds: the end of the loop, or one more header. */
  datatype HeaderTurn = Ends(head: Head) | One(header: Header, meta: Meta)

  lemma WithTwo(hs: seq<Header>, h: Header, r: Head)
    ensures WithHeaders(hs, WithHeaders([h], r)) == WithHeaders(hs + [h], r)
  {
    if r.HeadDone? {
      Assoc(hs, [h], r.headers);
    }
  }

  lemma ChunkStep(parts: seq<bytes>, s: bytes, p: nat, data: bytes, next: nat)
    requires p <= |s| && TakeChunk(HTTP, s, p) == Some(Data(data, next))
    ensures WithParts(parts, ParseChunks(HTTP, s, p)) == WithParts(parts + [data], ParseChunks(HTTP, s, next))
  {
    var tail := ParseChunks(HTTP, s, next);
    if tail.Some? {
      Assoc(parts, [data], tail.value.parts);
    }
  }

  lemma ChunkLast(parts: seq<bytes>, s: bytes, p: nat, next: nat)
    requires p <= |s| && TakeChunk(HTTP, s, p) == Some(Last(next))
    ensures WithParts(parts, ParseChunks(HTTP, s, p)) == Some(Chunks(parts, next))
  {
    EmptyAppend(parts);
  }

  /** What the header line at `p` means for the whole section. */
  lemma HeaderLineTurn(g: LineGrammar, meta: Meta, buf: bytes, p: nat, h: Option<Header>)
    requires p + 2 <= |buf| && buf[p] != CR && CrlfFrom(buf, p).Some? && g.header(buf[p..CrlfFrom(buf, p).value]) == h
    ensures h.None? ==> ParseHeaders(g, meta, buf, p) == HeadIncomplete
    ensures h.Some? && ApplyHeader(meta, h.value).None? ==> ParseHeaders(g, meta, buf, p) == HeadRejected(SemanticError(meta))
    ensures h.Some? && ApplyHeader(meta, h.value).Some? ==>
              ParseHeaders(g, meta, buf, p) == WithHeaders([h.value],
                  ParseHeaders(g, ApplyHeader(meta, h.value).value, buf, CrlfFrom(buf, p).value + 2))
  {
  }

  lemma OtherLineTurn(g: LineGrammar, meta: Meta, buf: bytes, p: nat)
    requires p <= |buf|
    ensures |buf| < p + 2 ==> ParseHeaders(g, meta, buf, p) == HeadIncomplete
    ensures p + 2 <= |buf| && buf[p] == CR ==> ParseHeaders(g, meta, buf, p) == if buf[p + 1] == LF then HeadDone(meta, [], p + 2) else HeadIncomplete
    ensures p + 2 <= |buf| && buf[p] != CR && CrlfFrom(buf, p).None? ==> ParseHeaders(g, meta, buf, p) == HeadIncomplete
  {
  }

  /** A header line that is not empty. */
  method HeaderLine(c: Cursor, meta: Meta, end: nat) returns (t: HeaderTurn)
    requires c.Valid() && c.pos + 2 <= |c.buf| && c.buf[c.pos] != CR && CrlfFrom(c.buf, c.pos) == Some(c.pos + end)
    modifies c
    ensures c.Valid()
    ensures match t
            case Ends(head) => head == ParseHeaders(HTTP, meta, c.buf, old(c.pos)) && !head.HeadDone?
            case One(h, meta') =>
              ParseHeaders(HTTP, meta, c.buf, old(c.pos)) == WithHeaders([h], ParseHeaders(HTTP, meta', c.buf, c.pos)) && old(c.pos) < c.pos
  {
    var h := ParseHeaderLine(c.Slice(end));
    HeaderLineTurn(HTTP, meta, c.buf, c.pos, h);
    if h.None? {
      return Ends(HeadIncomplete);
    }
    var meta' := ApplyHeader(meta, h.value);
    if meta'.None? {
      return Ends(HeadRejected(SemanticError(meta)));
    }
    c.Advance(end + 2);
    return One(h.value, meta'.value);
  }

  /** One turn of the header loops: the empty line, or a header line applied to the framing. */
  method NextHeader(c: Cursor, meta: Meta) returns (t: HeaderTurn)
    requires c.Valid()
    modifies c
    ensures c.Valid()
    ensures match t
            case Ends(head) => head == ParseHeaders(HTTP, meta, c.buf, old(c.pos)) && (head.HeadDone? ==> c.pos == head.next && head.headers == [])
            case One(h, meta') =>
              ParseHeaders(HTTP, meta, c.buf, old(c.pos)) == WithHeaders([h], ParseHeaders(HTTP, meta', c.buf, c.pos)) && old(c.pos) < c.pos
  {
    OtherLineTurn(HTTP, meta, c.buf, c.pos);
    if c.Remaining() < 2 {
      return Ends(HeadIncomplete);
    }
    if c.Peek() == Some(CR) {
      c.Advance(1);
      if c.Peek() != Some(LF) {
        return Ends(HeadIncomplete);
      }
      c.Advance(1);
      return Ends(HeadDone(meta, [], c.pos));
    }
    var end := c.ScanCrlf();
    if end.None? {
      return Ends(HeadIncomplete);
    }
    t := HeaderLine(c, meta, end.value);
  }

  method ScanHeaders(c: Cursor, start: Meta) returns (head: Head)
    requires c.Valid()
    modifies c
    ensures c.Valid()
    ensures head == ParseHeaders(HTTP, start, c.buf, old(c.pos))
    ensures head.HeadDone? ==> c.pos == head.next
  {
    ghost var spec := ParseHeaders(HTTP, start, c.buf, c.pos);
    WithNothing(spec, None);
    var meta := start;
    var hs: seq<Header> := [];
    while true
      invariant c.Valid()
      invariant spec == WithHeaders(hs, ParseHeaders(HTTP, meta, c.buf, c.pos))
      decreases |c.buf| - c.pos
    {
      var t := NextHeader(c, meta);
      match t
      case Ends(last) =>
        EmptyAppend(hs);
        return WithHeaders(hs, last);
      case One(h, meta') =>
        WithTwo(hs, h, ParseHeaders(HTTP, meta', c.buf, c.pos));
        hs, meta := hs + [h], meta';
    }
  }

  /** One turn of the chunk loop: a size line, then the data or the final CRLF. */
  method NextChunk(c: Cursor) returns (r: Option<Chunk>)
    requires c.Valid()
    modifies c
    ensures c.Valid()
    ensures r == TakeChunk(HTTP, c.buf, old(c.pos))
    ensures r.Some? ==> c.pos == r.value.next
  {
    var size := c.ChunkSizeLine();
    if size.None? {
      return None;
    }
    if size.value == 0 {
      var ok := c.ExpectCrlf();
      if !ok {
        return None;
      }
      return Some(Last(c.pos));
    }
    var chunk := c.ChunkData(size.value);
    if chunk.None? {
      return None;
    }
    return Some(Data(chunk.value, c.pos));
  }

  method ScanChunks(c: Cursor) returns (r: Option<bytes>)
    requires c.Valid()
    modifies c
    ensures c.Valid()
    ensures match ParseChunks(HTTP, c.buf, old(c.pos))
            case None => r == None
            case Some(spec) => r == Some(Concat(spec.parts)) && c.pos == spec.next
  {
    WithNothing(HeadIncomplete, ParseChunks(HTTP, c.buf, c.pos));
    var body: bytes := [];
    ghost var parts: seq<bytes> := [];
    while true
      invariant c.Valid()
      invariant ParseChunks(HTTP, c.buf, old(c.pos)) == WithParts(parts, ParseChunks(HTTP, c.buf, c.pos))
      invariant body == Concat(parts)
      decreases |c.buf| - c.pos
    {
      ghost var p := c.pos;
      var chunk := NextChunk(c);
      match chunk
      case None =>
        return None;
      case Some(Last(next)) =>
        ChunkLast(parts, c.buf, p, next);
        return Some(body);
      case Some(Data(data, next)) =>
        ChunkStep(parts, c.buf, p, data, next);
        ConcatSnoc(parts, data);
        parts := parts + [data];
        body := body + data;
    }
  }

  method ScanBody(c: Cursor, meta: Meta) returns (r: Body)
    requires c.Valid()
    modifies c
    ensures c.Valid()
    ensures r == ParseBody(HTTP, meta, c.buf, old(c.pos))
    ensures r.BodyDone? ==> r.next == c.pos
  {
    var mode := BodyMode(meta);
    var body: bytes := [];
    if mode == LengthBody {
      if c.Remaining() < meta.length {
        return BodyIncomplete;
      }
      if meta.length < 0 {
        return BodyPanics;
      }
      body := c.Slice(meta.length);
      c.Advance(meta.length);
    }
    if mode == ChunkedBody {
      var decoded := ScanChunks(c);
      if decoded.None? {
        return BodyIncomplete;
      }
      body := decoded.value;
    }
    return BodyDone(body, c.pos);
  }

  method ParseMessageDetailed(buf: bytes, kind: Kind) returns (r: Parsed)
    ensures r == ParseMessage(HTTP, kind, buf)
  {
    var c := new Cursor(buf);
    var end := c.ScanCrlf();
    if end.None? {
      return Incomplete;
    }
    var start := ParseStart(HTTP, kind, c.Slice(end.value));
    if start.None? {
      return Incomplete;
    }
    c.Advance(end.value + 2);
    var head := ScanHeaders(c, StartMeta(start.value));
    if head.HeadIncomplete? {
      return Incomplete;
    }
    if head.HeadRejected? {
      return Rejected(head.err);
    }
    var body := ScanBody(c, head.meta);
    if body.BodyIncomplete? {
      return Incomplete;
    }
    if body.BodyPanics? {
      return Panics;
    }
    if c.Remaining() != 0 {
      return Incomplete;
    }
    return Accepted(Message(start.value, head.headers, head.meta, BodyMode(head.meta), body.body));
  }
}
