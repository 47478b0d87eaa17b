/** ReadRequest (internal/parser/request.go) over a byte stream, and the serve loop of engine/engine.go
    that reads one request after the other, drains what the handler left of a body, and goes on. */
module KeepAlive {
  import opened Bytes
  import opened Grammar
  import opened Reference
  import opened UniqueFraming

  const MAX_LINE: nat := 4096

  /** What readCRLFLine makes of the stream from a position on. */
  datatype LineResult = Line(text: bytes, next: nat) | NoLine(err: Err)

  function LfFrom(s: bytes, p: nat): (r: Option<nat>)
    requires p <= |s|
  {
    ByteFrom(s, LF, p)
  }

  function LineAt(s: bytes, p: nat): (r: LineResult)
    requires p <= |s|
    ensures r.Line? ==> p + 2 <= r.next <= |s|
  {
    match LfFrom(s, p)
    case None => NoLine(ErrEof)
    case Some(j) =>
      if j == p || s[j - 1] != CR then NoLine(ErrNoEndLF)
      else if j - 1 - p > MAX_LINE then NoLine(ErrHeaderOverflow)
      else Line(s[p..j - 1], j + 1)
  }

  /** What ReadRequest needs of its surroundings: how lines are read, and which targets
      url.ParseRequestURI takes. */
  datatype Env = Env(lines: LineGrammar, urlOk: (nat, bytes) -> bool, closes: (RequestLine, seq<Header>) -> bool, maxDrain: int)

  datatype HeadRead = HeadGot(meta: Meta, headers: seq<Header>, next: nat) | HeadBad(err: Err)

  function ReadHeaders(g: LineGrammar, meta: Meta, s: bytes, p: nat): (r: HeadRead)
    requires p <= |s|
    ensures r.HeadGot? ==> p <= r.next <= |s|
    decreases |s| - p
  {
    match LineAt(s, p)
    case NoLine(e) => HeadBad(e)
    case Line(t, next) =>
      if t == [] then HeadGot(meta, [], next)
      else
        match g.header(t)
        case None => HeadBad(ErrHeaderOverflow)
        case Some(h) =>
          match ApplyHeader(meta, h)
          case None => HeadBad(SemanticError(meta))
          case Some(meta') =>
            match ReadHeaders(g, meta', s, next)
            case HeadBad(e) => HeadBad(e)
            case HeadGot(m, hs, end) => HeadGot(m, [h] + hs, end)
  }

  /** A request as ReadRequest returns it: its body, if any, begins at `next`. */
  datatype Incoming = Incoming(line: RequestLine, headers: seq<Header>, meta: Meta, next: nat)
  datatype Reading = Got(req: Incoming) | Bad(err: Err)

  function ReadRequest(env: Env, s: bytes, p: nat): (r: Reading)
    requires p <= |s|
    ensures r.Got? ==> p <= r.req.next <= |s|
  {
    match LineAt(s, p)
    case NoLine(e) => Bad(e)
    case Line(t, next) =>
      match env.lines.request(t)
      case None => Bad(ErrReqMethod)
      case Some(l) =>
        if !env.urlOk(l.verb, l.target) then Bad(ErrUrl)
        else
          match ReadHeaders(env.lines, Meta(Request, 0, false, 0, false), s, next)
          case HeadBad(e) => Bad(e)
          case HeadGot(meta, hs, end) => Got(Incoming(l, hs, meta, end))
  }

  // ----------------------------------------------------------- lines against the one-shot parser

  /** A line that readCRLFLine returns ends at the first CRLF. */
  lemma LineIsCrlfLine(s: bytes, p: nat)
    requires p <= |s| && LineAt(s, p).Line?
    ensures CrlfFrom(s, p) == Some(LineAt(s, p).next - 2) && LineAt(s, p).text == s[p..LineAt(s, p).next - 2]
  {
    var j := LfFrom(s, p).value;
    forall k | p <= k < j - 1 ensures !CrlfAt(s, k) {
      assert s[k + 1] != LF;
    }
    CrlfIs(s, p, j - 1);
  }

  /** `m` stands in the stream at `base`. */
  ghost predicate Stands(s: bytes, base: nat, m: bytes) {
    base + |m| <= |s| && s[base..base + |m|] == m
  }

  lemma StandsByte(s: bytes, base: nat, m: bytes, i: nat)
    requires Stands(s, base, m) && i < |m|
    ensures s[base + i] == m[i]
  {
    assert s[base..base + |m|][i] == m[i];
  }

  lemma StandsCrlf(s: bytes, base: nat, m: bytes, p: nat)
    requires Stands(s, base, m) && p <= |m| && CrlfFrom(m, p).Some?
    ensures CrlfFrom(s, base + p) == Some(base + CrlfFrom(m, p).value)
  {
    var i := CrlfFrom(m, p).value;
    CrlfFound(m, p);
    StandsByte(s, base, m, i);
    StandsByte(s, base, m, i + 1);
    forall j | base + p <= j < base + i ensures !CrlfAt(s, j) {
      StandsByte(s, base, m, j - base);
      StandsByte(s, base, m, j - base + 1);
      assert !CrlfAt(m, j - base);
    }
    CrlfIs(s, base + p, base + i);
  }

  lemma StandsSlice(s: bytes, base: nat, m: bytes, p: nat, i: nat)
    requires Stands(s, base, m) && p <= i <= |m|
    ensures s[base + p..base + i] == m[p..i]
  {
    forall k | 0 <= k < i - p ensures s[base + p..base + i][k] == m[p..i][k] {
      StandsByte(s, base, m, p + k);
    }
  }

  /** In the stream, the line of `m` at `p` is refused or is the line the one-shot parser reads. */
  lemma SameLine(s: bytes, base: nat, m: bytes, p: nat)
    requires Stands(s, base, m) && p <= |m| && CrlfFrom(m, p).Some?
    ensures var r := LineAt(s, base + p);
            r.Line? ==> r.next == base + CrlfFrom(m, p).value + 2 && r.text == m[p..CrlfFrom(m, p).value]
  {
    StandsCrlf(s, base, m, p);
    if LineAt(s, base + p).Line? {
      LineIsCrlfLine(s, base + p);
      StandsSlice(s, base, m, p, CrlfFrom(m, p).value);
    }
  }

  /** The headers are refused, or they are those the one-shot parser reads. */
  lemma {:induction false} SameHeaders(g: LineGrammar, meta: Meta, s: bytes, base: nat, m: bytes, p: nat)
    requires Stands(s, base, m) && p <= |m| && ParseHeaders(g, meta, m, p).HeadDone?
    ensures var head, r := ParseHeaders(g, meta, m, p), ReadHeaders(g, meta, s, base + p);
            r.HeadGot? ==> r == HeadGot(head.meta, head.headers, base + head.next)
    decreases |m| - p
  {
    if m[p] == CR {
      CrlfIs(m, p, p);
      SameLine(s, base, m, p);
    } else {
      var i := CrlfFrom(m, p).value;
      CrlfFound(m, p);
      SameLine(s, base, m, p);
      SameHeaders(g, ApplyHeader(meta, g.header(m[p..i]).value).value, s, base, m, i + 2);
    }
  }

  /** The length of the body that follows the head. */
  function BodyLength(meta: Meta): (n: nat) {
    if BodyMode(meta) == LengthBody && meta.length > 0 then meta.length else 0
  }

  /** A request without a body or with a length. */
  ghost predicate Plain(g: LineGrammar, m: bytes) {
    Accepts(g, Request, m) && ParseMessage(g, Request, m).msg.mode in {NoBody, LengthBody}
  }

  /** What a handler is to see of message `m` when it stands at `base`. */
  function Expected(g: LineGrammar, m: bytes, base: nat): (r: Option<Incoming>) {
    match ParseMessage(g, Request, m)
    case Accepted(msg) =>
      if msg.start.Req? && |msg.body| <= |m| then Some(Incoming(msg.start.req, msg.headers, msg.meta, base + |m| - |msg.body|)) else None
    case _ => None
  }

  /** The parts of such a message. */
  lemma PlainParts(g: LineGrammar, m: bytes, base: nat) returns (i: nat, l: RequestLine, head: Head)
    requires Plain(g, m)
    ensures i + 2 <= |m| && CrlfFrom(m, 0) == Some(i) && g.request(m[0..i]) == Some(l)
    ensures head == ParseHeaders(g, Meta(Request, 0, false, 0, false), m, i + 2) && head.HeadDone?
    ensures Expected(g, m, base) == Some(Incoming(l, head.headers, head.meta, base + head.next))
    ensures Expected(g, m, 0) == Some(Incoming(l, head.headers, head.meta, head.next))
    ensures head.next + BodyLength(head.meta) == |m|
  {
    i := CrlfFrom(m, 0).value;
    assert m[..i] == m[0..i];
    l := g.request(m[0..i]).value;
    head := ParseHeaders(g, Meta(Request, 0, false, 0, false), m, i + 2);
  }

  // ------------------------------------------------------------------------ what can be read

  /** From `p` to the end of the head, every line is within the limit and has no LF before its CRLF. */
  predicate ShortLines(m: bytes, p: nat, end: nat)
    requires p <= |m|
    decreases |m| - p
  {
    match CrlfFrom(m, p)
    case None => false
    case Some(i) => i - p <= MAX_LINE && LF !in m[p..i] && (i + 2 < end ==> ShortLines(m, i + 2, end))
  }

  /** A line of the message is read from the stream exactly when it is short and has no LF. */
  lemma LineReads(s: bytes, base: nat, m: bytes, p: nat, i: nat)
    requires Stands(s, base, m) && p <= |m| && CrlfFrom(m, p) == Some(i)
    ensures LineAt(s, base + p).Line? <==> i - p <= MAX_LINE && LF !in m[p..i]
  {
    StandsCrlf(s, base, m, p);
    StandsSlice(s, base, m, p, i);
    CrlfFound(s, base + p);
    if LF !in m[p..i] {
      forall j | base + p <= j < base + i + 1 ensures s[j] != LF {
        if j < base + i {
          assert s[base + p..base + i][j - base - p] == s[j];
        }
      }
      LfIs(s, base + p, base + i + 1);
    } else {
      var k :| 0 <= k < i - p && m[p..i][k] == LF;
      assert s[base + p + k] == LF by { assert s[base + p..base + i][k] == LF; }
      var j := LfFrom(s, base + p).value;
      assert j <= base + p + k && (base + p < j ==> !CrlfAt(s, j - 1));
    }
  }

  lemma LfIs(s: bytes, p: nat, j: nat)
    requires p <= j < |s| && s[j] == LF && forall k | p <= k < j :: s[k] != LF
    ensures LfFrom(s, p) == Some(j)
  {
    var r := LfFrom(s, p);
    assert r.Some? && !(j < r.value);
  }

  lemma {:induction false} HeadersReadExactly(g: LineGrammar, meta: Meta, s: bytes, base: nat, m: bytes, p: nat)
    requires Stands(s, base, m) && p <= |m| && ParseHeaders(g, meta, m, p).HeadDone?
    ensures ReadHeaders(g, meta, s, base + p).HeadGot? <==> ShortLines(m, p, ParseHeaders(g, meta, m, p).next)
    decreases |m| - p
  {
    if m[p] == CR {
      CrlfIs(m, p, p);
      LineReads(s, base, m, p, p);
      SameLine(s, base, m, p);
    } else {
      var i := CrlfFrom(m, p).value;
      CrlfFound(m, p);
      LineReads(s, base, m, p, i);
      SameLine(s, base, m, p);
      HeadersReadExactly(g, ApplyHeader(meta, g.header(m[p..i]).value).value, s, base, m, i + 2);
    }
  }

  /** Short lines, and a target the URL parser takes. */
  ghost predicate Readable(env: Env, m: bytes) {
    match Expected(env.lines, m, 0)
    case None => false
    case Some(req) => req.next <= |m| && ShortLines(m, 0, req.next) && env.urlOk(req.line.verb, req.line.target)
  }

  lemma ReadsBy(env: Env, s: bytes, p: nat, l: RequestLine, head: HeadRead)
    requires p <= |s| && LineAt(s, p).Line? && env.lines.request(LineAt(s, p).text) == Some(l)
    requires ReadHeaders(env.lines, Meta(Request, 0, false, 0, false), s, LineAt(s, p).next) == head
    ensures ReadRequest(env, s, p) ==
            if !env.urlOk(l.verb, l.target) then Bad(ErrUrl)
            else if head.HeadBad? then Bad(head.err)
            else Got(Incoming(l, head.headers, head.meta, head.next))
  {
  }

  lemma HeadPart(g: LineGrammar, meta: Meta, s: bytes, base: nat, m: bytes, p: nat, head: Head, r: HeadRead)
    requires Stands(s, base, m) && p <= |m| && head == ParseHeaders(g, meta, m, p) && head.HeadDone? && r == ReadHeaders(g, meta, s, base + p)
    ensures r.HeadGot? <==> ShortLines(m, p, head.next)
    ensures r.HeadGot? ==> r == HeadGot(head.meta, head.headers, base + head.next)
  {
    HeadersReadExactly(g, meta, s, base, m, p);
    SameHeaders(g, meta, s, base, m, p);
  }

  lemma LinePart(s: bytes, base: nat, m: bytes, i: nat, r: LineResult)
    requires Stands(s, base, m) && CrlfFrom(m, 0) == Some(i) && r == LineAt(s, base)
    ensures r.Line? <==> i <= MAX_LINE && LF !in m[0..i]
    ensures r.Line? ==> r == Line(m[0..i], base + i + 2)
  {
    LineReads(s, base, m, 0, i);
    SameLine(s, base, m, 0);
  }

  lemma ShortFirst(m: bytes, i: nat, end: nat)
    requires CrlfFrom(m, 0) == Some(i) && i + 2 < end
    ensures ShortLines(m, 0, end) <==> i <= MAX_LINE && LF !in m[0..i] && ShortLines(m, i + 2, end)
  {
  }

  lemma NoLineNoRequest(env: Env, s: bytes, p: nat)
    requires p <= |s| && LineAt(s, p).NoLine?
    ensures ReadRequest(env, s, p).Bad?
  {
  }

  lemma ReadsParts(env: Env, s: bytes, base: nat, l: RequestLine, line: LineResult, r: HeadRead)
    requires base <= |s| && line == LineAt(s, base)
    requires line.Line? ==> env.lines.request(line.text) == Some(l) && r == ReadHeaders(env.lines, Meta(Request, 0, false, 0, false), s, line.next)
    ensures ReadRequest(env, s, base).Got? <==> line.Line? && r.HeadGot? && env.urlOk(l.verb, l.target)
    ensures ReadRequest(env, s, base).Got? ==> ReadRequest(env, s, base) == Got(Incoming(l, r.headers, r.meta, r.next))
  {
    if line.Line? {
      ReadsBy(env, s, base, l, r);
    } else {
      NoLineNoRequest(env, s, base);
    }
  }

  lemma FirstLinePart(s: bytes, base: nat, m: bytes, i: nat, end: nat, line: LineResult)
    requires Stands(s, base, m) && CrlfFrom(m, 0) == Some(i) && i + 2 < end && line == LineAt(s, base)
    ensures ShortLines(m, 0, end) <==> line.Line? && ShortLines(m, i + 2, end)
    ensures line.Line? ==> line.text == m[0..i] && line.next == base + i + 2
  {
    LinePart(s, base, m, i, line);
    ShortFirst(m, i, end);
  }

  /** A message made of these parts: it is read exactly when its lines are short and its target is
      taken, and what is read is the message. */
  lemma PartsRead(env: Env, s: bytes, base: nat, m: bytes, i: nat, l: RequestLine, head: Head, meta: Meta, r: HeadRead)
    requires Stands(s, base, m) && i + 2 <= |m| && CrlfFrom(m, 0) == Some(i) && env.lines.request(m[0..i]) == Some(l)
    requires meta == Meta(Request, 0, false, 0, false) && r == ReadHeaders(env.lines, meta, s, base + i + 2)
    requires head.HeadDone? && i + 2 < head.next && (r.HeadGot? <==> ShortLines(m, i + 2, head.next))
    requires r.HeadGot? ==> r == HeadGot(head.meta, head.headers, base + head.next)
    ensures ReadRequest(env, s, base).Got? <==> ShortLines(m, 0, head.next) && env.urlOk(l.verb, l.target)
    ensures ReadRequest(env, s, base).Got? ==> ReadRequest(env, s, base) == Got(Incoming(l, head.headers, head.meta, base + head.next))
  {
    var line := LineAt(s, base);
    FirstLinePart(s, base, m, i, head.next, line);
    ReadsParts(env, s, base, l, line, r);
  }

  lemma ReadableBy(env: Env, m: bytes, l: RequestLine, head: Head)
    requires head.HeadDone? && head.next <= |m| && Expected(env.lines, m, 0) == Some(Incoming(l, head.headers, head.meta, head.next))
    ensures Readable(env, m) <==> ShortLines(m, 0, head.next) && env.urlOk(l.verb, l.target)
  {
  }

  /** A delivered request is read from the stream exactly when it is readable; what is read is the
      message the one-shot parser accepts, its body ending where the message ends. */
  lemma ReadsExactlyWhenReadable(env: Env, s: bytes, base: nat, m: bytes)
    requires Stands(s, base, m) && Plain(env.lines, m)
    ensures Expected(env.lines, m, base).Some?
    ensures var req := Expected(env.lines, m, base).value;
            && req.next + BodyLength(req.meta) == base + |m|
            && (if Readable(env, m) then ReadRequest(env, s, base) == Got(req) else ReadRequest(env, s, base).Bad?)
  {
    var i, l, head := PlainParts(env.lines, m, base);
    ReadableBy(env, m, l, head);
    var meta := Meta(Request, 0, false, 0, false);
    assert i + 2 < head.next;
    HeadPart(env.lines, meta, s, base, m, i + 2, head, ReadHeaders(env.lines, meta, s, base + i + 2));
    PartsRead(env, s, base, m, i, l, head, meta, ReadHeaders(env.lines, meta, s, base + i + 2));
  }

  // ------------------------------------------------------------------------- the serve loop

  /** What a handler does with a request: how many body bytes it reads, and whether it fails. */
  datatype Plan = Plan(wants: nat, fails: bool)

  function Min(a: int, b: int): (m: int) { if a <= b then a else b }

  /** What the drain reads of `left` body bytes. */
  function Drained(limit: int, left: nat): (n: nat) {
    if limit < 0 then 0 else Min(left, limit + 1)
  }

  /** Where the next request is read, unless the connection is closed: after the handler's reads and
      the drain, which are bounded by the body's length, the limit and what has been delivered. */
  function Next(env: Env, s: bytes, req: Incoming, plan: Plan): (r: Option<nat>)
    requires req.next <= |s|
    ensures r.Some? ==> req.next <= r.value <= |s|
  {
    var length := BodyLength(req.meta);
    var read := Min(plan.wants, Min(length, |s| - req.next));
    var drained := if length == 0 then 0 else Drained(env.maxDrain, Min(length - read, |s| - req.next - read));
    if plan.fails || (length > 0 && drained > env.maxDrain) || env.closes(req.line, req.headers) then None
    else Some(req.next + read + drained)
  }

  /** The connection stays open after a request: the handler does not fail, nothing asks to close it,
      and what the handler leaves of the body is within the drain limit. */
  predicate StaysOpen(env: Env, req: Incoming, plan: Plan) {
    var length := BodyLength(req.meta);
    !plan.fails && !env.closes(req.line, req.headers) && (length > 0 ==> length - Min(plan.wants, length) <= env.maxDrain)
  }

  /** With the body delivered, the connection stays open exactly then, and the drain has reached the
      end of the body. */
  lemma DrainAligns(env: Env, s: bytes, req: Incoming, plan: Plan)
    requires req.next + BodyLength(req.meta) <= |s|
    ensures Next(env, s, req, plan).Some? <==> StaysOpen(env, req, plan)
    ensures Next(env, s, req, plan).Some? ==> Next(env, s, req, plan).value == req.next + BodyLength(req.meta)
  {
  }

  /** A request as a handler sees it, and where it was read. */
  datatype Seen = Seen(start: nat, req: Incoming)

  type Source = nat -> Reading
  type Mover = (Incoming, Plan) -> Option<nat>

  /** The serve loop, for any way to read a request and to move on. */
  function ServeWith(read: Source, move: Mover, p: nat, plans: seq<Plan>): (r: seq<Seen>)
    decreases |plans|
  {
    if plans == [] then []
    else
      match read(p)
      case Bad(_) => []
      case Got(req) =>
        [Seen(p, req)] +
        match move(req, plans[0])
        case None => []
        case Some(q) => ServeWith(read, move, q, plans[1..])
  }

  function Reads(env: Env, s: bytes): (read: Source) {
    (p: nat) => if p <= |s| then ReadRequest(env, s, p) else Bad(ErrEof)
  }

  function Moves(env: Env, s: bytes): (move: Mover) {
    (req: Incoming, plan: Plan) => if req.next <= |s| then Next(env, s, req, plan) else None
  }

  /** serveHTTP over the stream, one plan for each handler call. */
  function Serve(env: Env, s: bytes, p: nat, plans: seq<Plan>): (r: seq<Seen>) {
    ServeWith(Reads(env, s), Moves(env, s), p, plans)
  }

  // ------------------------------------------------------------------------- alignment

  /** What is to be read at the boundaries of the stream: nothing, or one request after the other. */
  datatype Script = Over | Item(at: nat, req: Option<Incoming>, goes: Plan -> bool, rest: Script)

  function Place(t: Script, end: nat): (p: nat) {
    match t case Over => end case Item(p, _, _, _) => p
  }

  /** Reading and moving follow the script, whose end is `end`. */
  ghost predicate Follows(read: Source, move: Mover, t: Script, end: nat) {
    match t
    case Over => read(end).Bad?
    case Item(p, req, goes, rest) =>
      && (if req.Some? then read(p) == Got(req.value) else read(p).Bad?)
      && (req.Some? ==> forall plan: Plan {:trigger move(req.value, plan)} ::
                          move(req.value, plan) == if goes(plan) then Some(Place(rest, end)) else None)
      && Follows(read, move, rest, end)
  }

  /** What handlers see of a script. */
  function Play(t: Script, plans: seq<Plan>): (r: seq<Seen>) {
    match t
    case Over => []
    case Item(p, req, goes, rest) =>
      if plans == [] || req.None? then []
      else [Seen(p, req.value)] + if goes(plans[0]) then Play(rest, plans[1..]) else []
  }

  lemma {:induction false} ServePlays(read: Source, move: Mover, t: Script, end: nat, plans: seq<Plan>)
    requires Follows(read, move, t, end)
    ensures ServeWith(read, move, Place(t, end), plans) == Play(t, plans)
    decreases |plans|
  {
    if plans != [] {
      match t
      case Over =>
      case Item(p, req, goes, rest) =>
        if req.Some? {
          assert move(req.value, plans[0]) == if goes(plans[0]) then Some(Place(rest, end)) else None;
          ServePlays(read, move, rest, end, plans[1..]);
        }
    }
  }

  /** The messages of a stream as a script: each where the one before ends, read if it is readable,
      followed by the next one if the connection stays open. */
  ghost function ScriptOf(env: Env, ms: seq<bytes>, base: nat): (t: Script)
    decreases |ms|
  {
    if ms == [] then Over
    else
      var req := Expected(env.lines, ms[0], base);
      Item(base, if Readable(env, ms[0]) then req else None, Goes(env, req), ScriptOf(env, ms[1..], base + |ms[0]|))
  }

  function Goes(env: Env, req: Option<Incoming>): (goes: Plan -> bool) {
    (plan: Plan) => req.Some? && StaysOpen(env, req.value, plan)
  }

  /** The message at `base` is read if it is readable, and followed by what stands behind it if the
      connection stays open. */
  ghost predicate Fits(read: Source, move: Mover, base: nat, next: nat, readable: bool, req: Incoming, goes: Plan -> bool) {
    && (if readable then read(base) == Got(req) else read(base).Bad?)
    && forall plan: Plan {:trigger move(req, plan)} :: move(req, plan) == if goes(plan) then Some(next) else None
  }

  lemma MessageFollows(env: Env, s: bytes, base: nat, m: bytes)
    requires Stands(s, base, m) && Plain(env.lines, m)
    ensures var req := Expected(env.lines, m, base);
            req.Some? && Fits(Reads(env, s), Moves(env, s), base, base + |m|, Readable(env, m), req.value, Goes(env, req))
  {
    ReadsExactlyWhenReadable(env, s, base, m);
    var req := Expected(env.lines, m, base).value;
    forall plan: Plan ensures Moves(env, s)(req, plan) == if StaysOpen(env, req, plan) then Some(base + |m|) else None {
      DrainAligns(env, s, req, plan);
    }
  }

  lemma NextStands(s: bytes, base: nat, ms: seq<bytes>)
    requires ms != [] && base <= |s| && s[base..] == Concat(ms)
    ensures Stands(s, base, ms[0]) && base + |ms[0]| <= |s| && s[base + |ms[0]|..] == Concat(ms[1..])
  {
    var n := |ms[0]|;
    assert Concat(ms) == ms[0] + Concat(ms[1..]);
    assert s[base..base + n] == s[base..][..n];
    assert s[base + n..] == s[base..][n..];
  }

  lemma NothingAtEnd(env: Env, s: bytes)
    ensures Reads(env, s)(|s|).Bad?
  {
  }

  lemma ItemFollows(read: Source, move: Mover, p: nat, req: Incoming, readable: bool, goes: Plan -> bool, rest: Script, end: nat)
    requires Fits(read, move, p, Place(rest, end), readable, req, goes) && Follows(read, move, rest, end)
    ensures Follows(read, move, Item(p, if readable then Some(req) else None, goes, rest), end)
  {
  }

  lemma {:induction false} StreamFollows(env: Env, s: bytes, base: nat, ms: seq<bytes>)
    requires base <= |s| && s[base..] == Concat(ms) && forall i | 0 <= i < |ms| :: Plain(env.lines, ms[i])
    ensures Follows(Reads(env, s), Moves(env, s), ScriptOf(env, ms, base), |s|) && Place(ScriptOf(env, ms, base), |s|) == base
    decreases |ms|
  {
    if ms == [] {
      NothingAtEnd(env, s);
    } else {
      NextStands(s, base, ms);
      StreamFollows(env, s, base + |ms[0]|, ms[1..]);
      MessageFollows(env, s, base, ms[0]);
      FirstFollows(env, Reads(env, s), Moves(env, s), |s|, base, ms);
    }
  }

  lemma FirstFollows(env: Env, read: Source, move: Mover, end: nat, base: nat, ms: seq<bytes>)
    requires ms != [] && Expected(env.lines, ms[0], base).Some?
    requires var req := Expected(env.lines, ms[0], base);
             Fits(read, move, base, base + |ms[0]|, Readable(env, ms[0]), req.value, Goes(env, req))
    requires Follows(read, move, ScriptOf(env, ms[1..], base + |ms[0]|), end) && Place(ScriptOf(env, ms[1..], base + |ms[0]|), end) == base + |ms[0]|
    ensures Follows(read, move, ScriptOf(env, ms, base), end)
  {
    var req := Expected(env.lines, ms[0], base);
    ItemFollows(read, move, base, req.value, Readable(env, ms[0]), Goes(env, req), ScriptOf(env, ms[1..], base + |ms[0]|), end);
  }

  /** Keep-alive alignment: on a stream of delivered requests, for every handler, drain limit and
      decision to close, handlers see the stream's requests in order, each read exactly where the one
      before ended, up to the first that cannot be read or after which the connection is closed. */
  lemma KeepAliveAligned(env: Env, ms: seq<bytes>, plans: seq<Plan>)
    requires forall i | 0 <= i < |ms| :: Plain(env.lines, ms[i])
    ensures Serve(env, Concat(ms), 0, plans) == Play(ScriptOf(env, ms, 0), plans)
  {
    var s := Concat(ms);
    assert s[0..] == s;
    StreamFollows(env, s, 0, ms);
    ServePlays(Reads(env, s), Moves(env, s), ScriptOf(env, ms, 0), |s|, plans);
  }

  // ----------------------------------------------------------------- item by item

  /** The script without its first `i` items. */
  function Behind(t: Script, i: nat): (r: Script) {
    if i == 0 || t.Over? then t else Behind(t.rest, i - 1)
  }

  /** The `i`-th item is read. */
  predicate ReadAt(t: Script, i: nat) {
    Behind(t, i).Item? && Behind(t, i).req.Some?
  }

  /** The first `k` items are read, and the connection stays open after each. */
  ghost predicate Lasts(t: Script, plans: seq<Plan>, k: nat) {
    k <= |plans| && forall j | 0 <= j < k :: ReadAt(t, j) && Behind(t, j).goes(plans[j])
  }

  lemma {:induction false} LastsStep(t: Script, plans: seq<Plan>, k: nat)
    requires t.Item? && plans != [] && 0 < k
    ensures Lasts(t, plans, k) <==> t.req.Some? && t.goes(plans[0]) && Lasts(t.rest, plans[1..], k - 1)
  {
    if Lasts(t, plans, k) {
      assert ReadAt(t, 0) && Behind(t, 0).goes(plans[0]);
      forall j | 0 <= j < k - 1 ensures ReadAt(t.rest, j) && Behind(t.rest, j).goes(plans[1..][j]) {
        assert ReadAt(t, j + 1) && Behind(t, j + 1).goes(plans[j + 1]);
      }
    } else if t.req.Some? && t.goes(plans[0]) && Lasts(t.rest, plans[1..], k - 1) {
      forall j | 0 <= j < k ensures ReadAt(t, j) && Behind(t, j).goes(plans[j]) {
        if 0 < j {
          assert ReadAt(t.rest, j - 1) && Behind(t.rest, j - 1).goes(plans[1..][j - 1]);
        }
      }
    }
  }

  lemma {:induction false} PlayAt(t: Script, plans: seq<Plan>, k: nat)
    ensures k < |Play(t, plans)| <==> k < |plans| && Lasts(t, plans, k) && ReadAt(t, k)
    ensures k < |Play(t, plans)| ==> Play(t, plans)[k] == Seen(Behind(t, k).at, Behind(t, k).req.value)
    decreases k
  {
    if t.Item? && plans != [] && 0 < k {
      LastsStep(t, plans, k);
      PlayAt(t.rest, plans[1..], k - 1);
    }
  }

  lemma {:induction false} ScriptAt(env: Env, ms: seq<bytes>, base: nat, i: nat)
    requires i <= |ms|
    ensures Behind(ScriptOf(env, ms, base), i) == ScriptOf(env, ms[i..], base + |Concat(ms[..i])|)
    decreases i
  {
    if 0 < i {
      ScriptAt(env, ms[1..], base + |ms[0]|, i - 1);
      assert ms[1..][i - 1..] == ms[i..] && ms[..i][0] == ms[0] && ms[..i][1..] == ms[1..][..i - 1];
    } else {
      assert ms[0..] == ms;
    }
  }

  lemma {:induction false} ScriptEnds(env: Env, ms: seq<bytes>, base: nat, i: nat)
    requires |ms| <= i
    ensures Behind(ScriptOf(env, ms, base), i) == Over
    decreases i
  {
    if ms != [] {
      ScriptEnds(env, ms[1..], base + |ms[0]|, i - 1);
    }
  }

  /** Where the `i`-th message starts. */
  function StartOf(ms: seq<bytes>, i: nat): (p: nat)
    requires i <= |ms|
  {
    |Concat(ms[..i])|
  }

  lemma PlaysInOrder(env: Env, ms: seq<bytes>, plans: seq<Plan>, i: nat)
    requires i < |Play(ScriptOf(env, ms, 0), plans)|
    ensures i < |ms|
    ensures Play(ScriptOf(env, ms, 0), plans)[i].start == StartOf(ms, i)
    ensures Some(Play(ScriptOf(env, ms, 0), plans)[i].req) == Expected(env.lines, ms[i], StartOf(ms, i))
  {
    PlayAt(ScriptOf(env, ms, 0), plans, i);
    if |ms| <= i {
      ScriptEnds(env, ms, 0, i);
    } else {
      ScriptAt(env, ms, 0, i);
    }
  }

  /** Handlers see the `i`-th request of the stream as their `i`-th, read where the first `i` end. */
  lemma SeenInOrder(env: Env, ms: seq<bytes>, plans: seq<Plan>, i: nat)
    requires (forall k | 0 <= k < |ms| :: Plain(env.lines, ms[k])) && i < |Serve(env, Concat(ms), 0, plans)|
    ensures i < |ms|
    ensures Serve(env, Concat(ms), 0, plans)[i].start == StartOf(ms, i)
    ensures Some(Serve(env, Concat(ms), 0, plans)[i].req) == Expected(env.lines, ms[i], StartOf(ms, i))
  {
    KeepAliveAligned(env, ms, plans);
    PlaysInOrder(env, ms, plans, i);
  }

  /** Message `i` is read. */
  ghost predicate IsRead(env: Env, ms: seq<bytes>, i: nat) {
    i < |ms| && Readable(env, ms[i]) && Expected(env.lines, ms[i], StartOf(ms, i)).Some?
  }

  /** And the connection stays open after it. */
  ghost predicate IsPassed(env: Env, ms: seq<bytes>, plan: Plan, i: nat) {
    IsRead(env, ms, i) && StaysOpen(env, Expected(env.lines, ms[i], StartOf(ms, i)).value, plan)
  }

  lemma ItemIs(env: Env, ms: seq<bytes>, i: nat, plan: Plan)
    ensures ReadAt(ScriptOf(env, ms, 0), i) <==> IsRead(env, ms, i)
    ensures ReadAt(ScriptOf(env, ms, 0), i) && Behind(ScriptOf(env, ms, 0), i).goes(plan) <==> IsPassed(env, ms, plan, i)
  {
    if |ms| <= i {
      ScriptEnds(env, ms, 0, i);
    } else {
      ScriptAt(env, ms, 0, i);
      assert ms[i..][0] == ms[i];
    }
  }

  /** How many are seen: more than `k` exactly when there is a handler for another one, the first `k`
      were read and left the connection open, and the next one is readable. */
  lemma SeenCount(env: Env, ms: seq<bytes>, plans: seq<Plan>, k: nat)
    requires forall j | 0 <= j < |ms| :: Plain(env.lines, ms[j])
    ensures k < |Serve(env, Concat(ms), 0, plans)| <==>
            k < |plans| && IsRead(env, ms, k) && forall j | 0 <= j < k :: IsPassed(env, ms, plans[j], j)
  {
    KeepAliveAligned(env, ms, plans);
    PlayAt(ScriptOf(env, ms, 0), plans, k);
    if k < |plans| {
      ItemIs(env, ms, k, plans[k]);
      forall j | 0 <= j < k ensures (ReadAt(ScriptOf(env, ms, 0), j) && Behind(ScriptOf(env, ms, 0), j).goes(plans[j]))
          <==> IsPassed(env, ms, plans[j], j) {
        ItemIs(env, ms, j, plans[j]);
      }
    }
  }
}
