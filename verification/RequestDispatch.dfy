/** executeClean (internal/parser/engine.go) for a request parser with callbacks: the whole-buffer
    path, the chunked path, which makes its callbacks before it knows whether it will decline, and
    the resumable machine; and exactly when a consumer is told one message. */
module RequestDispatch {
  import opened Bytes
  import opened Grammar
  import opened Reference
  import opened Events
  import opened Machine
  import opened Split
  import opened MessageEvents
  import opened UniqueFraming
  import opened FastPaths
  import opened FastTrace

  /** What a call, or a path that may end it, leaves behind: the state, the count it returns, its error
      and its callbacks. */
  datatype Called = Called(over: bool, st: State, n: nat, err: Option<Err>, es: seq<Event>)

  function Declined(st: State): (r: Called) { Called(false, st, 0, None, []) }

  /** applyFastRequestResult. */
  function Applied(st: State, l: RequestLine, meta: Meta, flags: Flags): (r: State) {
    st.(length := if BodyMode(meta) == NoBody then -1 else meta.length,
        facts := Facts(l.verb, l.version, meta.hasLength, meta.chunked, flags),
        told := Told(false, |l.target|, 0), done := false, upgrade := Upgrades(l.verb, flags))
  }

  /** What both applyFastRequestResult and applyParsedMessage set Upgrade to. */
  predicate Upgrades(verb: nat, flags: Flags) {
    (flags.upgrade && flags.connUpgrade) || verb == CONNECT
  }

  /** tryFastRequest. It does not look at the phase. */
  function TryWhole(cb: Setting, st: State, buf: bytes): (r: Called) {
    if st.told.started then Declined(st)
    else if FastErr(cb.lines, buf).Some? then Called(true, st, 0, FastErr(cb.lines, buf), [])
    else
      match ParseMessage(cb.lines, Request, buf)
      case Accepted(msg) => if msg.start.Req? then WholeCall(cb, st, buf, msg) else Declined(st)
      case _ => Declined(st)
  }

  function WholeCall(cb: Setting, st: State, buf: bytes, msg: Message): (r: Called)
    requires msg.start.Req?
  {
    Called(true, Applied(st, msg.start.req, msg.meta, AllFlags(NO_FLAGS, msg.headers)).(done := true), |buf|, None,
           FastEvents(cb, msg, RequestParts(cb.lines, buf, msg)))
  }

  /** A whole head that announces a chunked body, its headers, and the position behind it. */
  datatype ChunkedHead = ChunkedHead(line: RequestLine, headers: seq<Header>, next: nat)

  function LineIn(g: LineGrammar, buf: bytes): (l: Option<RequestLine>)
    ensures l.Some? ==> CrlfFrom(buf, 0).Some?
  {
    match CrlfFrom(buf, 0)
    case None => None
    case Some(i) => g.request(buf[0..i])
  }

  /** The header section behind the request line. */
  function HeadersIn(g: LineGrammar, buf: bytes): (h: Head)
    ensures h.HeadDone? ==> h.next <= |buf|
  {
    match LineIn(g, buf)
    case None => HeadIncomplete
    case Some(l) => ParseHeaders(g, StartMeta(Req(l)), buf, CrlfFrom(buf, 0).value + 2)
  }

  function HeadIn(g: LineGrammar, buf: bytes): (h: Option<ChunkedHead>)
    ensures h.Some? ==> h.value.next <= |buf| && LineIn(g, buf) == Some(h.value.line)
  {
    match HeadersIn(g, buf)
    case HeadDone(meta, hs, p) => if meta.chunked then Some(ChunkedHead(LineIn(g, buf).value, hs, p)) else None
    case _ => None
  }

  /** The chunks that stand complete at `p`, and whether the zero chunk follows as the last thing. */
  function LeadingChunks(g: LineGrammar, buf: bytes, p: nat): (r: (seq<bytes>, bool))
    requires p <= |buf|
    decreases |buf| - p
  {
    match TakeChunk(g, buf, p)
    case None => ([], false)
    case Some(Last(next)) => ([], next == |buf|)
    case Some(Data(data, next)) => var r := LeadingChunks(g, buf, next); ([data] + r.0, r.1)
  }

  /** The callbacks tryFastChunkedRequest makes for a head and for the chunks behind it. More than
      64 headers are not told at all. */
  function ChunkedSays(cb: Setting, h: ChunkedHead, chunks: (seq<bytes>, bool)): (es: seq<Event>) {
    StartTrace(cb, h.line.target) + (if |h.headers| <= MAX_FAST_HEADERS then HeaderTrace(cb, h.headers) else [])
    + When(cb.headers, HeadersDone) + PartsTrace(cb, chunks.0) + When(cb.complete && chunks.1, Complete)
  }

  /** tryFastChunkedRequest: with a whole head it applies and tells what it has found, and then may
      still decline. */
  function TryChunked(cb: Setting, st: State, buf: bytes): (r: Called) {
    if st.told.started || st.phase != Idle then Declined(st)
    else if HeadersIn(cb.lines, buf).HeadRejected? then Called(true, st, 0, Some(HeadersIn(cb.lines, buf).err), [])
    else
      match HeadIn(cb.lines, buf)
      case None => Declined(st)
      case Some(h) => ChunkedCall(cb, st, buf, h)
  }

  function ChunkedCall(cb: Setting, st: State, buf: bytes, h: ChunkedHead): (r: Called)
    requires h.next <= |buf|
  {
    var chunks := LeadingChunks(cb.lines, buf, h.next);
    Called(chunks.1 || BadEnd(cb.lines, buf, h.next), HeadApplied(st, h).(done := chunks.1), if chunks.1 then |buf| else 0,
           ChunksErr(cb.lines, buf, h.next), ChunkedSays(cb, h, chunks))
  }

  /** The state once the head of a chunked request has been applied. */
  function HeadApplied(st: State, h: ChunkedHead): (r: State) {
    Applied(st, h.line, Meta(Request, 0, false, 0, true), AllFlags(NO_FLAGS, h.headers))
  }

  /** hasNoCallbacks. */
  predicate Silent(cb: Setting) {
    !cb.begin && !cb.url && !cb.field && !cb.value && !cb.headers && !cb.body && !cb.complete
  }

  function FeedCall(cb: Setting, st: State, buf: bytes, told: seq<Event>): (r: Called) {
    var o := Feed(cb, st, buf);
    Called(true, o.st, o.n, o.err, told + FeedSays(cb, st, buf))
  }

  /** One call of Execute. */
  function Execute(cb: Setting, st: State, buf: bytes): (r: Called) {
    if buf == [] then Called(true, st, 0, None, [])
    else if Silent(cb) then FeedCall(cb, st, buf, [])
    else
      var whole := TryWhole(cb, st, buf);
      if whole.over then whole
      else
        var chunked := TryChunked(cb, whole.st, buf);
        if chunked.over then chunked else FeedCall(cb, chunked.st, buf, chunked.es)
  }

  // ------------------------------------------------------------------------------ runs

  type Caller = (State, bytes) -> Called

  function Calls(cb: Setting): (call: Caller) {
    (st: State, buf: bytes) => Execute(cb, st, buf)
  }

  /** What has happened after some calls; `ok` says that none has failed. */
  datatype Ran = Ran(ok: bool, st: State, es: seq<Event>)

  function Next(call: Caller, r: Ran, buf: bytes): (r': Ran) {
    var x := call(r.st, buf);
    Ran(r.ok && x.err.None?, x.st, r.es + x.es)
  }

  function Executed(call: Caller, pieces: seq<bytes>): (r: Ran)
    decreases |pieces|
  {
    if pieces == [] then Ran(true, FRESH, [])
    else Next(call, Executed(call, pieces[..|pieces| - 1]), pieces[|pieces| - 1])
  }

  /** The consumer has been told the message, once and as it is: MessageBegin once, the target, and the
      callbacks of emitParsedMessage in their order with adjacent fragments joined; and the parser waits
      for the next message. */
  ghost predicate ToldOnce(cb: Setting, msg: Message, r: Ran) {
    && r.ok && r.st.done && r.st.phase == Idle && msg.start.Req?
    && (cb.begin ==> Count(r.es, Begin) == 1)
    && (cb.url ==> UrlOf(r.es) == msg.start.req.target)
    && Alike(Stream, r.es, Trace(cb, msg))
  }

  lemma ExecutedNext(call: Caller, pieces: seq<bytes>, j: nat)
    requires j < |pieces|
    ensures Executed(call, pieces[..j + 1]) == Next(call, Executed(call, pieces[..j]), pieces[j])
  {
    assert pieces[..j + 1][..j] == pieces[..j];
  }

  lemma BeginsAdd(x: seq<Event>, y: seq<Event>)
    ensures Count(x + y, Begin) == Count(x, Begin) + Count(y, Begin)
  {
    JoinedParts(x, y);
  }

  // --------------------------------------------------------------- messageStarted stays

  /** With a MessageBegin callback, a turn behind or in the request line leaves Begin told. */
  ghost predicate MarksAt(step: Stepper, st: State, buf: bytes, p: nat) {
    p < |buf| && (st.told.started || st.phase == RequestLinePhase) ==> Mark(step(st, buf, p))
  }

  predicate Mark(t: Turn) {
    match t
    case Go(st', _) => st'.told.started
    case Stop(o) => o.err.None? ==> o.st.told.started
  }

  lemma LineMarks(cb: Setting, st: State, line: bytes, buf: bytes, k: nat)
    requires cb.begin && k <= |buf| && InLine(st) && (st.told.started || st.phase == RequestLinePhase)
    ensures Mark(TakeLine(cb, st, line, buf, k))
  {
  }

  lemma LineTurnMarks(cb: Setting, st: State, buf: bytes, p: nat)
    requires cb.begin && p < |buf| && InLine(st) && (st.told.started || st.phase == RequestLinePhase)
    ensures Mark(LineTurn(cb, st, buf, p))
  {
    if CrlfFrom(buf, p).Some? {
      var i := CrlfFrom(buf, p).value;
      var line := st.scratch + buf[p..i];
      LineMarks(cb, Holding(st, line), line, buf, i + 2);
    }
  }

  lemma StepsMark(cb: Setting, st: State, buf: bytes, p: nat)
    requires cb.begin
    ensures MarksAt(Steps(cb), st, buf, p)
  {
    if p < |buf| && InLine(st) && (st.told.started || st.phase == RequestLinePhase) {
      LineTurnMarks(cb, st, buf, p);
    }
  }

  lemma {:induction false} LoopMarks(step: Stepper, st: State, buf: bytes, p: nat)
    requires Advances(step) && (st.told.started || (st.phase == RequestLinePhase && p < |buf|))
    requires forall st': State, p': nat {:trigger MarksAt(step, st', buf, p')} :: MarksAt(step, st', buf, p')
    ensures Loop(step, st, buf, p).err.None? ==> Loop(step, st, buf, p).st.told.started
    decreases |buf| - p
  {
    if p < |buf| {
      assert MarksAt(step, st, buf, p);
      if step(st, buf, p).Go? {
        LoopMarks(step, step(st, buf, p).st, buf, step(st, buf, p).next);
      }
    }
  }

  /** A call that does not fail leaves Begin told. */
  lemma FeedMarks(cb: Setting, st: State, buf: bytes)
    requires cb.begin && buf != [] && (st.told.started || Start(st).phase == RequestLinePhase)
    ensures Feed(cb, st, buf).err.None? ==> Feed(cb, st, buf).st.told.started
  {
    StepsAdvance(cb);
    forall st': State, p': nat ensures MarksAt(Steps(cb), st', buf, p') { StepsMark(cb, st', buf, p'); }
    LoopMarks(Steps(cb), Start(st), buf, 0);
  }

  // ------------------------------------------------------ calls that go to the machine

  /** A piece that the whole-buffer path takes for a request of its own, or fails. */
  predicate Intrudes(g: LineGrammar, b: bytes) {
    FastErr(g, b).Some? || ParseMessage(g, Request, b).Accepted?
  }

  /** Inside a message a call goes to the machine, unless the whole-buffer path steps in. */
  lemma LaterFeeds(cb: Setting, st: State, buf: bytes)
    requires buf != [] && (Silent(cb) || st.told.started || (st.phase != Idle && !Intrudes(cb.lines, buf)))
    ensures Calls(cb)(st, buf) == FeedCall(cb, st, buf, [])
  {
  }

  /** A part of a request is not taken by the whole-buffer path. */
  lemma PartDeclined(cb: Setting, m: bytes, b: bytes)
    requires Accepts(cb.lines, Request, m) && b <= m && b != m
    ensures TryWhole(cb, FRESH, b) == Declined(FRESH) && FastErr(cb.lines, b).None?
  {
    assert b == m[..|b|];
    PrefixIncomplete(cb.lines, Request, m, |b|);
    PrefixFastErr(cb.lines, m, |b|);
  }

  lemma NoBadHeader(g: LineGrammar, buf: bytes)
    requires FastErr(g, buf).None?
    ensures !HeadersIn(g, buf).HeadRejected?
  {
  }

  /** The first call on a part of a request without a whole chunked head. */
  lemma FirstFeeds(cb: Setting, m: bytes, b: bytes)
    requires Accepts(cb.lines, Request, m) && b <= m && b != m && b != [] && (Silent(cb) || HeadIn(cb.lines, b).None?)
    ensures Calls(cb)(FRESH, b) == FeedCall(cb, FRESH, b, [])
  {
    PartDeclined(cb, m, b);
    NoBadHeader(cb.lines, b);
  }

  /** The chunked path cannot end the call on a part of a request. */
  lemma {:induction false} PartNotOver(g: LineGrammar, b: bytes, p: nat)
    requires p <= |b| && LeadingChunks(g, b, p).1
    ensures ParseChunks(g, b, p).Some? && ParseChunks(g, b, p).value.next == |b|
    decreases |b| - p
  {
    match TakeChunk(g, b, p).value
    case Last(_) =>
    case Data(_, next) => PartNotOver(g, b, next);
  }

  /** An incomplete buffer with a chunked head: no complete body, and no wrong end. */
  lemma HeadOfPart(g: LineGrammar, b: bytes, h: ChunkedHead)
    requires HeadIn(g, b) == Some(h) && ParseMessage(g, Request, b) == Incomplete && FastErr(g, b).None?
    ensures !LeadingChunks(g, b, h.next).1 && !BadEnd(g, b, h.next)
  {
    var i := CrlfFrom(b, 0).value;
    MessageParts(g, Request, b, i);
    if LeadingChunks(g, b, h.next).1 {
      PartNotOver(g, b, h.next);
    }
  }

  /** The first call on a part of a request that holds a whole chunked head. */
  lemma FirstTells(cb: Setting, m: bytes, b: bytes, h: ChunkedHead)
    requires Accepts(cb.lines, Request, m) && b <= m && b != m && b != [] && !Silent(cb) && HeadIn(cb.lines, b) == Some(h)
    ensures Calls(cb)(FRESH, b) == FeedCall(cb, HeadApplied(FRESH, h), b, ChunkedSays(cb, h, LeadingChunks(cb.lines, b, h.next)))
    ensures !LeadingChunks(cb.lines, b, h.next).1
  {
    assert b == m[..|b|];
    PrefixIncomplete(cb.lines, Request, m, |b|);
    PartDeclined(cb, m, b);
    NoBadHeader(cb.lines, b);
    HeadOfPart(cb.lines, b, h);
  }

  lemma FirstPart(m: bytes, pieces: seq<bytes>)
    requires Concat(pieces) == m && (forall i | 0 <= i < |pieces| :: pieces[i] != []) && 1 < |pieces|
    ensures pieces[0] <= m && pieces[0] != m && pieces[0] == m[..|pieces[0]|]
  {
    PieceCut(m, pieces, 1);
    PiecesNext(pieces, 0);
    EmptyAppend(pieces[0]);
  }

  lemma OnePieceIs(m: bytes, pieces: seq<bytes>)
    requires Concat(pieces) == m && |pieces| == 1
    ensures pieces == [m]
  {
    assert pieces[1..] == [];
    EmptyAppend(pieces[0]);
  }

  lemma OneCall(call: Caller, m: bytes)
    ensures var r := call(FRESH, m); Executed(call, [m]) == Ran(r.err.None?, r.st, r.es)
  {
    assert [m][..0] == [];
    EmptyAppend(call(FRESH, m).es);
  }

}
