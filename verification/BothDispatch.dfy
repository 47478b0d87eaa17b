/** executeClean (internal/parser/engine.go) for a parser of both kinds: the fast response path, which
    looks at a piece alone even in the middle of a message, the fast request path, and the
    accumulating path; and exactly when an accepted message gets through. Status callbacks are left
    aside. */
module BothDispatch {
  import opened Bytes
  import opened Grammar
  import opened Reference
  import opened Events
  import opened Machine
  import opened SplitEvents
  import opened UniqueFraming
  import opened FastPaths
  import opened FastTrace
  import opened Pending
  import opened PendingRuns

  /** What a fast path makes of a piece; `parts` are the fragments of the body it passes on. */
  datatype Fast = Taken(msg: Message, parts: seq<bytes>) | Failed(err: Err) | Declined

  /** analyzeFastResponse. */
  function FastRsp(r: Parsed): (f: Fast) {
    if Simple(r) then Taken(r.msg, OnePart(r.msg.body)) else if r.Rejected? then Failed(r.err) else Declined
  }

  /** analyzeFastRequestCaptured. */
  function FastReq(g: LineGrammar, buf: bytes, r: Parsed, e: Option<Err>): (f: Fast) {
    if e.Some? then Failed(e.value)
    else if !r.Accepted? then Declined
    else Taken(r.msg, RequestParts(g, buf, r.msg))
  }

  /** A fast path that does not decline: the message replaces whatever was being collected. */
  function FastCall(cb: Setting, st: Gathered, kind: Kind, f: Fast): (r: Result)
    requires !f.Declined?
  {
    match f
    case Failed(e) => Result(st, Some(e), [])
    case Taken(msg, parts) => Result(Gathered([], false, kind, |TargetOf(msg.start)|, 0, true), None, FastEvents(cb, msg, parts))
  }

  /** The three analyses a call may make. */
  datatype Analyses = Analyses(response: bytes -> Fast, request: bytes -> Fast, parse: OneShot)

  const ANALYSES := Analyses(
    (b: bytes) => FastRsp(ParseMessage(HTTP, Response, b)),
    (b: bytes) => FastReq(HTTP, b, ParseMessage(HTTP, Request, b), FastErr(HTTP, b)),
    PARSE)

  /** One call of Execute. The response path tests neither `pending` nor `started`. */
  function Dispatch(x: Analyses, cb: Setting, st: Gathered, buf: bytes): (r: Result) {
    if buf == [] then Result(st, None, [])
    else if Infer(buf) == Some(Response) && !x.response(buf).Declined? then
      FastCall(cb, st, Response, x.response(buf))
    else if !st.started && st.pending == [] && Infer(buf) == Some(Request) && !x.request(buf).Declined? then
      FastCall(cb, st, Request, x.request(buf))
    else GatherWith(x.parse, cb, st, buf)
  }

  // ---------------------------------------------------------------------------- calls

  type Caller = (Gathered, bytes) -> Result

  function Calls(cb: Setting): (call: Caller) {
    (st: Gathered, buf: bytes) => Dispatch(ANALYSES, cb, st, buf)
  }

  /** What has happened after some calls; `ok` says that none has failed. */
  datatype Ran = Ran(ok: bool, st: Gathered, es: seq<Event>)

  function Next(call: Caller, r: Ran, buf: bytes): (r': Ran) {
    var x := call(r.st, buf);
    Ran(r.ok && x.err.None?, x.st, r.es + x.es)
  }

  function Executed(call: Caller, pieces: seq<bytes>): (r: Ran)
    decreases |pieces|
  {
    if pieces == [] then Ran(true, NEW, [])
    else Next(call, Executed(call, pieces[..|pieces| - 1]), pieces[|pieces| - 1])
  }

  /** No call has failed, the callbacks are those of the message, and the parser waits for the next one. */
  ghost predicate Delivered(cb: Setting, msg: Message, r: Ran) {
    r.ok && r.st.pending == [] && !r.st.started && r.st.done && WholeTold(cb, msg, r.es)
  }

  lemma ExecutedNext(call: Caller, pieces: seq<bytes>, j: nat)
    requires j < |pieces|
    ensures Executed(call, pieces[..j + 1]) == Next(call, Executed(call, pieces[..j]), pieces[j])
  {
    assert pieces[..j + 1][..j] == pieces[..j];
  }

  lemma NextKeeps(call: Caller, r: Ran, buf: bytes)
    ensures Next(call, r, buf).ok ==> r.ok
    ensures Count(Next(call, r, buf).es, Begin) == Count(r.es, Begin) + Count(call(r.st, buf).es, Begin)
  {
    StartSum(r.es, call(r.st, buf).es);
  }

  /** A failure is not undone, and a Begin is not taken back. */
  lemma {:induction false} NothingUndone(call: Caller, pieces: seq<bytes>, j: nat, n: nat)
    requires j <= n <= |pieces|
    ensures Executed(call, pieces[..n]).ok ==> Executed(call, pieces[..j]).ok
    ensures Count(Executed(call, pieces[..j]).es, Begin) <= Count(Executed(call, pieces[..n]).es, Begin)
    decreases n
  {
    if j < n {
      NothingUndone(call, pieces, j, n - 1);
      ExecutedNext(call, pieces, n - 1);
      NextKeeps(call, Executed(call, pieces[..n - 1]), pieces[n - 1]);
    }
  }

  /** The calls so far went the accumulating path without an error. */
  ghost predicate Gathers(call: Caller, parse: OneShot, cb: Setting, pieces: seq<bytes>, i: nat)
    requires i < |pieces|
  {
    var st := Fed(parse, cb, pieces[..i]).st;
    call(st, pieces[i]) == GatherWith(parse, cb, st, pieces[i]) && Fed(parse, cb, pieces[..i + 1]).err.None?
  }

  lemma {:induction false} SameAsFed(call: Caller, parse: OneShot, cb: Setting, pieces: seq<bytes>, j: nat)
    requires j <= |pieces| && forall i | 0 <= i < j :: Gathers(call, parse, cb, pieces, i)
    ensures var t := Fed(parse, cb, pieces[..j]); Executed(call, pieces[..j]) == Ran(true, t.st, t.es)
    decreases j
  {
    if 0 < j {
      SameAsFed(call, parse, cb, pieces, j - 1);
      ExecutedNext(call, pieces, j - 1);
      FedNext(parse, cb, pieces, j - 1);
      assert Gathers(call, parse, cb, pieces, j - 1);
    }
  }

  // ------------------------------------------------------------ pieces that interfere

  /** A piece that analyzeFastResponse takes for a message of its own, or fails. */
  predicate Intrudes(b: bytes) {
    Simple(ParseMessage(HTTP, Response, b)) || ParseMessage(HTTP, Response, b).Rejected?
  }

  lemma NoStatusLine(b: bytes)
    requires !HttpAt(b, 0)
    ensures ParseMessage(HTTP, Response, b) == Incomplete
  {
    if CrlfFrom(b, 0).Some? {
      var i := CrlfFrom(b, 0).value;
      assert !HttpAt(b[..i], 0);
    }
  }

  lemma IntruderShowsKind(b: bytes)
    requires Intrudes(b)
    ensures Infer(b) == Some(Response)
  {
    if !HttpAt(b, 0) {
      NoStatusLine(b);
    }
    assert b[0] == 72;
  }

  lemma AnalysesAre(b: bytes)
    ensures ANALYSES.response(b) == FastRsp(ParseMessage(HTTP, Response, b))
    ensures ANALYSES.request(b) == FastReq(HTTP, b, ParseMessage(HTTP, Request, b), FastErr(HTTP, b))
  {
  }

  /** What the call on an intruding piece does, whatever the parser was doing. */
  lemma IntruderCall(cb: Setting, st: Gathered, b: bytes)
    requires Intrudes(b) && b != []
    ensures var r := Calls(cb)(st, b);
            !ANALYSES.response(b).Declined? && r == FastCall(cb, st, Response, ANALYSES.response(b))
  {
    IntruderShowsKind(b);
    AnalysesAre(b);
  }

  lemma FastBegins(cb: Setting, st: Gathered, kind: Kind, f: Fast)
    requires !f.Declined? && cb.begin
    ensures var r := FastCall(cb, st, kind, f); r.err.None? ==> 1 <= Count(r.es, Begin)
  {
    if f.Taken? {
      FastStart(cb, f.msg, f.parts);
    }
  }

  /** Collecting begins with Begin. */
  lemma GatherBegins(parse: OneShot, cb: Setting, buf: bytes)
    requires cb.begin
    ensures 1 <= Count(GatherWith(parse, cb, NEW, buf).es, Begin)
  {
    var st := Added(NEW, buf);
    var st2 := st.(url := Offset(cb, st), value := ValueOffset(cb, st));
    var f, v, r := Fragment(cb, st), ValueFragment(cb, st), Conclude(cb, st2, parse(st.kind, st.pending));
    OneEvent(Begin);
    StartSum([Begin], f);
    StartSum([Begin] + f, v);
    StartSum([Begin] + f + v, r.es);
  }

  /** The fast paths leave a part of a message alone. */
  lemma PartGathers(cb: Setting, kind: Kind, m: bytes, b: bytes)
    requires Accepts(HTTP, kind, m) && b != [] && b <= m && b != m
    ensures Calls(cb)(NEW, b) == GatherWith(PARSE, cb, NEW, b)
  {
    AnalysesAre(b);
    assert b == m[..|b|];
    PrefixIncomplete(HTTP, kind, m, |b|);
    InferIsRight(kind, m, b);
    if kind == Request {
      PrefixFastErr(HTTP, m, |b|);
    }
  }

  lemma LaterGathers(cb: Setting, st: Gathered, b: bytes)
    requires st.started && b != [] && !Intrudes(b)
    ensures Calls(cb)(st, b) == GatherWith(PARSE, cb, st, b)
  {
    AnalysesAre(b);
  }

  // --------------------------------------------------------------------- one piece

  lemma FastTold(cb: Setting, msg: Message, parts: seq<bytes>)
    requires Concat(parts) == msg.body
    ensures WholeTold(cb, msg, FastEvents(cb, msg, parts))
  {
    PartsTraceAlike(Stream, cb, parts);
    BodyAlike(Stream, cb, msg, parts);
    FastStart(cb, msg, parts);
  }

  /** On an accepted message a fast path delivers the message, or declines. */
  lemma FastDelivers(cb: Setting, kind: Kind, m: bytes, f: Fast)
    requires Accepts(HTTP, kind, m) && kind != Both
    requires f == if kind == Response then FastRsp(ParseMessage(HTTP, kind, m)) else FastReq(HTTP, m, ParseMessage(HTTP, kind, m), FastErr(HTTP, m))
    ensures !f.Failed? && (f.Taken? ==> WholeTold(cb, f.msg, FastEvents(cb, f.msg, f.parts)) && f.msg == ParseMessage(HTTP, kind, m).msg)
    ensures kind == Request ==> f.Taken?
  {
    var msg := ParseMessage(HTTP, kind, m).msg;
    if kind == Request {
      FastErrIs(HTTP, m);
      PartsJoin(HTTP, m, msg);
    } else {
      OnePartIs(cb, msg.body);
    }
    if f.Taken? {
      FastTold(cb, msg, f.parts);
    }
  }

  lemma AcceptedKind(kind: Kind, m: bytes)
    requires Accepts(HTTP, kind, m)
    ensures kind != Both && m != [] && Infer(m) == Some(kind)
  {
    AcceptedNonEmpty(HTTP, kind, m);
    if kind == Request {
      RequestIsNotResponse(m);
      AcceptedSize(m);
    } else {
      ResponseStart(m);
    }
  }

  lemma AcceptedSize(m: bytes)
    requires Accepts(HTTP, Request, m)
    ensures 5 <= |m|
  {
    var i := CrlfFrom(m, 0).value;
    RequestLineShape(m[..i], ParseRequestLine(m[..i]).value);
  }

  lemma OneCall(call: Caller, m: bytes)
    ensures var r := call(NEW, m); Executed(call, [m]) == Ran(r.err.None?, r.st, r.es)
  {
    assert [m][..0] == [];
    EmptyAppend(call(NEW, m).es);
  }

  lemma FedOne(parse: OneShot, cb: Setting, m: bytes)
    ensures var r := GatherWith(parse, cb, NEW, m); Fed(parse, cb, [m]) == Total(r.st, r.err, r.es)
  {
    assert [m][..0] == [];
    EmptyAppend(GatherWith(parse, cb, NEW, m).es);
  }

  lemma OneIsPieces(m: bytes)
    requires m != []
    ensures Pieces(m, [m])
  {
    assert [m][1..] == [];
    EmptyAppend(m);
  }

  lemma WholeCall(cb: Setting, kind: Kind, m: bytes, f: Fast)
    requires kind != Both && m != [] && Infer(m) == Some(kind)
    requires f == if kind == Response then ANALYSES.response(m) else ANALYSES.request(m)
    ensures Calls(cb)(NEW, m) == if f.Declined? then GatherWith(PARSE, cb, NEW, m) else FastCall(cb, NEW, kind, f)
  {
  }

  /** A fast path takes the whole message. */
  predicate TakenWhole(kind: Kind, m: bytes) {
    kind == Request || Simple(ParseMessage(HTTP, Response, m))
  }

  lemma FastIs(kind: Kind, m: bytes, f: Fast)
    requires Accepts(HTTP, kind, m) && kind != Both
    requires f == if kind == Response then FastRsp(ParseMessage(HTTP, kind, m)) else FastReq(HTTP, m, ParseMessage(HTTP, kind, m), FastErr(HTTP, m))
    ensures f.Taken? <==> TakenWhole(kind, m)
  {
    if kind == Request {
      FastErrIs(HTTP, m);
    }
  }

  /** A message in one piece. */
  lemma OnePieceDelivers(cb: Setting, kind: Kind, m: bytes, msg: Message)
    requires ParseMessage(HTTP, kind, m) == Accepted(msg)
    ensures Infer(m).Some?
    ensures Delivered(cb, msg, Executed(Calls(cb), [m])) <==> TakenWhole(kind, m) || EarlyFits(cb, Early(cb.value, [m]), msg.headers)
  {
    var f := if kind == Response then ANALYSES.response(m) else ANALYSES.request(m);
    AcceptedKind(kind, m);
    AnalysesAre(m);
    FastDelivers(cb, kind, m, f);
    FastIs(kind, m, f);
    WholeCall(cb, kind, m, f);
    OneCall(Calls(cb), m);
    if f.Declined? {
      OneIsPieces(m);
      GatheredInOne(cb, kind, m, msg);
    }
  }

  lemma GatheredInOne(cb: Setting, kind: Kind, m: bytes, msg: Message)
    requires ParseMessage(HTTP, kind, m) == Accepted(msg) && Pieces(m, [m]) && Infer(m) == Some(kind)
    ensures var r := GatherWith(PARSE, cb, NEW, m);
            Delivered(cb, msg, Ran(r.err.None?, r.st, r.es)) <==> EarlyFits(cb, Early(cb.value, [m]), msg.headers)
  {
    DeliversExactlyWhenKindShows(cb, kind, m, [m]);
    BothModeDelivers(cb, kind, m, [m]);
    FedOne(PARSE, cb, m);
  }

  // -------------------------------------------------------------------- all pieces

  /** With no intruder behind it, every piece of a message goes the accumulating path. */
  lemma AllGather(cb: Setting, kind: Kind, m: bytes, pieces: seq<bytes>, i: nat)
    requires Accepts(HTTP, kind, m) && Pieces(m, pieces) && 1 < |pieces| && i < |pieces|
    requires Undisturbed(pieces)
    ensures Gathers(Calls(cb), PARSE, cb, pieces, i)
  {
    FirstIsPart(m, pieces);
    InferIsRight(kind, m, pieces[0]);
    if i == 0 {
      PartGathers(cb, kind, m, pieces[0]);
    } else {
      FedStarted(cb, kind, m, pieces, i);
      LaterGathers(cb, Fed(PARSE, cb, pieces[..i]).st, pieces[i]);
    }
    FedFine(cb, kind, m, pieces, i + 1);
  }

  lemma FirstIsPart(m: bytes, pieces: seq<bytes>)
    requires Pieces(m, pieces) && 1 < |pieces|
    ensures pieces[0] <= m && pieces[0] != m
  {
    PieceAt(m, pieces, 0);
  }

  lemma FedStarted(cb: Setting, kind: Kind, m: bytes, pieces: seq<bytes>, i: nat)
    requires Accepts(HTTP, kind, m) && Pieces(m, pieces) && 0 < i < |pieces|
    ensures Fed(PARSE, cb, pieces[..i]).st.started
  {
    assert pieces[0] <= m;
    InferIsRight(kind, m, pieces[0]);
    assert pieces[..i][0] == pieces[0];
    if Infer(pieces[0]).Some? {
      BothModeDelivers(cb, kind, m, pieces);
    } else {
      UnknownKindNeverCompletes(cb, pieces[..i]);
    }
  }

  lemma FedFine(cb: Setting, kind: Kind, m: bytes, pieces: seq<bytes>, i: nat)
    requires Accepts(HTTP, kind, m) && Pieces(m, pieces) && 0 < i <= |pieces|
    ensures Fed(PARSE, cb, pieces[..i]).err.None?
  {
    assert pieces[0] <= m;
    InferIsRight(kind, m, pieces[0]);
    assert pieces[..i][0] == pieces[0] && pieces[..|pieces|] == pieces;
    if Infer(pieces[0]).Some? {
      BothModeDelivers(cb, kind, m, pieces);
    } else {
      UnknownKindNeverCompletes(cb, pieces[..i]);
    }
  }

  lemma FedDelivered(call: Caller, parse: OneShot, cb: Setting, pieces: seq<bytes>, msg: Message, right: bool)
    requires var t := Fed(parse, cb, pieces);
             && Executed(call, pieces) == Ran(true, t.st, t.es) && (AtRest(t) && WholeTold(cb, msg, t.es) <==> right)
             && (AtRest(t) || Stuck(t))
    ensures Delivered(cb, msg, Executed(call, pieces)) <==> right
  {
  }

  /** The first piece shows the kind, and what was passed on of values does no harm. */
  ghost predicate GathersRight(cb: Setting, pieces: seq<bytes>, msg: Message)
    requires pieces != []
  {
    KindShows(pieces[0]) && EarlyFits(cb, Early(cb.value, pieces), msg.headers)
  }

  lemma FedEnds(cb: Setting, kind: Kind, m: bytes, pieces: seq<bytes>, msg: Message)
    requires ParseMessage(HTTP, kind, m) == Accepted(msg) && Pieces(m, pieces) && pieces != []
    ensures var t := Fed(PARSE, cb, pieces); (AtRest(t) && WholeTold(cb, msg, t.es) <==> GathersRight(cb, pieces, msg)) && (AtRest(t) || Stuck(t))
  {
    DeliversExactlyWhenKindShows(cb, kind, m, pieces);
    assert pieces[0] <= m;
    InferIsRight(kind, m, pieces[0]);
    if Infer(pieces[0]).None? {
      UnknownKindNeverCompletes(cb, pieces);
    } else {
      BothModeDelivers(cb, kind, m, pieces);
    }
  }

  ghost predicate AllGathers(call: Caller, parse: OneShot, cb: Setting, pieces: seq<bytes>) {
    forall i | 0 <= i < |pieces| :: Gathers(call, parse, cb, pieces, i)
  }

  lemma EveryPieceGathers(cb: Setting, kind: Kind, m: bytes, pieces: seq<bytes>)
    requires Accepts(HTTP, kind, m) && Pieces(m, pieces) && 1 < |pieces| && Undisturbed(pieces)
    ensures AllGathers(Calls(cb), PARSE, cb, pieces)
  {
    forall i | 0 <= i < |pieces| ensures Gathers(Calls(cb), PARSE, cb, pieces, i) {
      AllGather(cb, kind, m, pieces, i);
    }
  }

  lemma AllFed(call: Caller, parse: OneShot, cb: Setting, pieces: seq<bytes>)
    requires AllGathers(call, parse, cb, pieces)
    ensures var t := Fed(parse, cb, pieces); Executed(call, pieces) == Ran(true, t.st, t.es)
  {
    SameAsFed(call, parse, cb, pieces, |pieces|);
    assert pieces[..|pieces|] == pieces;
  }

  /** On the accumulating path the first piece decides. */
  lemma FedDecides(call: Caller, cb: Setting, kind: Kind, m: bytes, pieces: seq<bytes>, msg: Message)
    requires ParseMessage(HTTP, kind, m) == Accepted(msg) && Pieces(m, pieces) && pieces != []
    ensures AllGathers(call, PARSE, cb, pieces) ==> (Delivered(cb, msg, Executed(call, pieces)) <==> GathersRight(cb, pieces, msg))
  {
    if AllGathers(call, PARSE, cb, pieces) {
      FedEnds(cb, kind, m, pieces, msg);
      AllFed(call, PARSE, cb, pieces);
      FedDelivered(call, PARSE, cb, pieces, msg, GathersRight(cb, pieces, msg));
    }
  }

  lemma UndisturbedDelivers(cb: Setting, kind: Kind, m: bytes, pieces: seq<bytes>, msg: Message)
    requires ParseMessage(HTTP, kind, m) == Accepted(msg) && Pieces(m, pieces) && 1 < |pieces| && Undisturbed(pieces)
    ensures Delivered(cb, msg, Executed(Calls(cb), pieces)) <==> GathersRight(cb, pieces, msg)
  {
    FedDecides(Calls(cb), cb, kind, m, pieces, msg);
    EveryPieceGathers(cb, kind, m, pieces);
  }

  lemma FirstBegins(call: Caller, pieces: seq<bytes>)
    requires pieces != []
    ensures Count(Executed(call, pieces[..1]).es, Begin) == Count(call(NEW, pieces[0]).es, Begin)
  {
    assert pieces[..0] == [];
    ExecutedNext(call, pieces, 0);
    NextKeeps(call, Ran(true, NEW, []), pieces[0]);
  }

  lemma BeginsAgain(call: Caller, pieces: seq<bytes>, j: nat)
    requires 0 < j < |pieces| && 1 <= Count(call(NEW, pieces[0]).es, Begin)
    requires var x := call(Executed(call, pieces[..j]).st, pieces[j]); x.err.None? ==> 1 <= Count(x.es, Begin)
    ensures Executed(call, pieces).ok ==> 2 <= Count(Executed(call, pieces).es, Begin)
  {
    FirstBegins(call, pieces);
    NothingUndone(call, pieces, 1, j);
    ExecutedNext(call, pieces, j);
    NextKeeps(call, Executed(call, pieces[..j]), pieces[j]);
    assert pieces[..|pieces|] == pieces;
    NothingUndone(call, pieces, j + 1, |pieces|);
  }

  /** An intruder makes a call fail, or makes Begin fire again. */
  lemma IntruderDisturbs(cb: Setting, kind: Kind, m: bytes, pieces: seq<bytes>, j: nat)
    requires Accepts(HTTP, kind, m) && Pieces(m, pieces) && 0 < j < |pieces| && Intrudes(pieces[j]) && cb.begin
    ensures Executed(Calls(cb), pieces).ok ==> 2 <= Count(Executed(Calls(cb), pieces).es, Begin)
  {
    var call := Calls(cb);
    var st := Executed(call, pieces[..j]).st;
    FirstIsPart(m, pieces);
    PartGathers(cb, kind, m, pieces[0]);
    GatherBegins(PARSE, cb, pieces[0]);
    IntruderCall(cb, st, pieces[j]);
    FastBegins(cb, st, Response, ANALYSES.response(pieces[j]));
    BeginsAgain(call, pieces, j);
  }

  ghost predicate Undisturbed(pieces: seq<bytes>) {
    forall j {:trigger Intrudes(pieces[j])} | 0 < j < |pieces| :: !Intrudes(pieces[j])
  }

  /** What a caller can check of the pieces: the first shows the kind, no later one is a response of its
      own, and, unless a fast path takes the whole message, no call passes on value bytes that do harm. */
  ghost predicate PiecesSuit(cb: Setting, kind: Kind, m: bytes, pieces: seq<bytes>, msg: Message)
    requires pieces != []
  {
    && KindShows(pieces[0]) && Undisturbed(pieces)
    && ((|pieces| == 1 && TakenWhole(kind, m)) || EarlyFits(cb, Early(cb.value, pieces), msg.headers))
  }

  /** Through Execute an accepted message gets through, told once and as it is, if its pieces suit; with a
      MessageBegin callback to tell, only then. */
  lemma DeliversExactlyWhenUndisturbed(cb: Setting, kind: Kind, m: bytes, pieces: seq<bytes>, msg: Message)
    requires ParseMessage(HTTP, kind, m) == Accepted(msg) && Pieces(m, pieces) && pieces != []
    ensures PiecesSuit(cb, kind, m, pieces, msg) ==> Delivered(cb, msg, Executed(Calls(cb), pieces))
    ensures cb.begin && Delivered(cb, msg, Executed(Calls(cb), pieces)) ==> PiecesSuit(cb, kind, m, pieces, msg)
  {
    assert pieces[0] <= m;
    InferIsRight(kind, m, pieces[0]);
    if |pieces| == 1 {
      OnlyPiece(m, pieces);
      OnePieceDelivers(cb, kind, m, msg);
    } else if Undisturbed(pieces) {
      UndisturbedDelivers(cb, kind, m, pieces, msg);
    } else if cb.begin {
      var j :| 0 < j < |pieces| && Intrudes(pieces[j]);
      IntruderDisturbs(cb, kind, m, pieces, j);
    }
  }

  lemma OnlyPiece(m: bytes, pieces: seq<bytes>)
    requires Pieces(m, pieces) && |pieces| == 1
    ensures pieces == [m]
  {
    PieceAt(m, pieces, 0);
    assert pieces[..0] == [];
  }

  // ------------------------------------------------------------------- as it is written

  /** emitFastResponse: the headers are scanned again, up to the CR of the empty line. */
  method EmitFastResponse(cb: Setting, buf: bytes, res: FastResponse, ghost msg: Message) returns (es: seq<Event>)
    requires AgreesResponse(buf, res, msg)
    ensures es == FastEvents(cb, msg, OnePart(msg.body))
  {
    RescanSame(HTTP, StartMeta(msg.start), buf, res.headersStart, res.headersStart, res.headersEnd);
    OnePartIs(cb, msg.body);
    es := When(cb.begin, Begin);
    EmptyAppend(es);
    var headers: seq<Event> := [];
    if cb.field || cb.value {
      headers := EmitRescanned(HTTP, cb, buf[res.headersStart..res.headersEnd]);
    } else {
      NoHeaderCallbacks(cb, msg.headers);
    }
    es := es + headers;
    es := es + When(cb.headers, HeadersDone);
    es := es + When(cb.body && res.body != [], BodyPart(res.body));
    es := es + When(cb.complete, Complete);
  }

  /** What a fast path reports: what it makes of the piece, and the callbacks it makes then. */
  ghost predicate Reports(f: Fast, cb: Setting, taken: bool, err: Option<Err>, es: seq<Event>) {
    match f
    case Taken(msg, parts) => taken && err.None? && es == FastEvents(cb, msg, parts)
    case Failed(e) => !taken && err == Some(e)
    case Declined => !taken && err.None?
  }

  /** analyzeFastResponse and emitFastResponse. */
  method FastResponsePath(cb: Setting, buf: bytes) returns (taken: bool, err: Option<Err>, es: seq<Event>, ghost f: Fast)
    ensures f == FastRsp(ParseMessage(HTTP, Response, buf)) && Reports(f, cb, taken, err, es)
    ensures f.Taken? ==> f.msg.start.Rsp?
  {
    ghost var spec := ParseMessage(HTTP, Response, buf);
    f := FastRsp(spec);
    var res;
    res, err := AnalyzeFastResponse(buf);
    if res.None? {
      return false, err, [], f;
    }
    es := EmitFastResponse(cb, buf, res.value, spec.msg);
    return true, err, es, f;
  }

  /** analyzeFastRequestCaptured and emitFastRequest. */
  method FastRequestPath(cb: Setting, buf: bytes, slots: array<Header>)
      returns (taken: bool, err: Option<Err>, es: seq<Event>, target: bytes, ghost f: Fast)
    requires slots.Length == MAX_FAST_HEADERS
    modifies slots
    ensures f == FastReq(HTTP, buf, ParseMessage(HTTP, Request, buf), FastErr(HTTP, buf)) && Reports(f, cb, taken, err, es)
    ensures f.Taken? ==> f.msg.start.Req? && target == f.msg.start.req.target
  {
    ghost var spec := ParseMessage(HTTP, Request, buf);
    FastErrIs(HTTP, buf);
    f := FastReq(HTTP, buf, spec, FastErr(HTTP, buf));
    var res, count;
    res, err, count := AnalyzeFastRequest(buf, cb.field || cb.value, slots);
    if res.None? {
      return false, err, [], [], f;
    }
    es := EmitFastRequest(cb, buf, res.value, slots, count, spec.msg);
    return true, err, es, res.value.line.target, f;
  }

  /** A call on `p`, which had made the callbacks `before`, has done what `r` says. */
  ghost predicate Done(p: BothParser, before: seq<Event>, r: Result, err: Option<Err>)
    reads p
  {
    p.Abs() == r.st && err == r.err && p.events == before + r.es
  }

  /** The fields a fast path sets for a message it has taken. */
  method TakeFast(p: BothParser, kind: Kind, target: bytes, es: seq<Event>)
    modifies p
    ensures p.Abs() == Gathered([], false, kind, |target|, 0, true) && p.events == old(p.events) + es
  {
    p.currentType, p.pending, p.messageStarted, p.urlOffset, p.headerValueOffset, p.messageCompleteCalled := kind, [], false, |target|, 0, true;
    p.events := p.events + es;
  }

  /** executeClean of a parser of both kinds. */
  method ExecuteBoth(p: BothParser, cb: Setting, buf: bytes, slots: array<Header>) returns (err: Option<Err>)
    requires slots.Length == MAX_FAST_HEADERS
    modifies p, slots
    ensures Done(p, old(p.events), Dispatch(ANALYSES, cb, old(p.Abs()), buf), err)
  {
    EmptyAppend(p.events);
    if buf == [] {
      return None;
    }
    AnalysesAre(buf);
    var taken, es;
    ghost var f;
    if Infer(buf) == Some(Response) {
      taken, err, es, f := FastResponsePath(cb, buf);
      if taken {
        TakeFast(p, Response, [], es);
      }
      if taken || err.Some? {
        return;
      }
    }
    if !p.messageStarted && p.pending == [] && Infer(buf) == Some(Request) {
      var target;
      taken, err, es, target, f := FastRequestPath(cb, buf, slots);
      if taken {
        TakeFast(p, Request, target, es);
      }
      if taken || err.Some? {
        return;
      }
    }
    err := p.ExecutePending(cb, buf, PARSE);
  }
}
