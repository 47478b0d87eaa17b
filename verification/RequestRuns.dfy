/** Whole runs of Execute of a request parser, whatever its callbacks: exactly when a request in safe
    pieces is told once and as it is, when it is completed on its last piece, and when Upgrade is right. */
module RequestRuns {
  import opened Bytes
  import opened Grammar
  import opened Reference
  import opened Events
  import opened Machine
  import opened Split
  import opened SplitEvents
  import opened Incremental
  import opened MessageEvents
  import opened ValueCuts
  import opened StartEvents
  import opened UniqueFraming
  import opened FastPaths
  import opened FastTrace
  import opened RequestDispatch
  import opened ChunkedHeads

  // --------------------------------------------------------------------- the first call

  /** A whole chunked head that the chunked path tells before it declines. */
  predicate TellsHead(cb: Setting, b: bytes) {
    !Silent(cb) && HeadIn(cb.lines, b).Some?
  }

  /** What the first call tells in front of the machine's callbacks. */
  function Extra(cb: Setting, b: bytes): (es: seq<Event>) {
    if TellsHead(cb, b) then
      var h := HeadIn(cb.lines, b).value;
      ChunkedSays(cb, h, LeadingChunks(cb.lines, b, h.next)) + When(cb.begin, Begin)
    else []
  }

  /** What the machine would have told there from a fresh parser. */
  function Omitted(cb: Setting, b: bytes): (es: seq<Event>) {
    if TellsHead(cb, b) then When(cb.begin, Begin) + UrlRest(cb.url, HeadIn(cb.lines, b).value.line.target, 0) else []
  }

  ghost predicate Near(x: State, y: State) {
    x == y || Twin(x, y)
  }

  /** The call with `b` from `x` has done what the machine does from `y`. */
  ghost predicate Matches(c: Called, o: Outcome, es: seq<Event>) {
    c.err.None? && Near(c.st, o.st) && c.es == es
  }

  lemma FirstCall(cb: Setting, m: bytes, b: bytes) returns (e: seq<Event>)
    requires Accepts(cb.lines, Request, m) && b <= m && b != [] && (Silent(cb) || b != m) && Feed(cb, FRESH, b).err.None?
    ensures Matches(Calls(cb)(FRESH, b), Feed(cb, FRESH, b), Extra(cb, b) + e) && FeedSays(cb, FRESH, b) == Omitted(cb, b) + e
  {
    if TellsHead(cb, b) {
      e := HeadCall(cb, m, b, HeadIn(cb.lines, b).value);
    } else {
      if Silent(cb) {
        LaterFeeds(cb, FRESH, b);
      } else {
        FirstFeeds(cb, m, b);
      }
      e := FeedSays(cb, FRESH, b);
      EmptyAppend(e);
    }
  }

  lemma HeadCall(cb: Setting, m: bytes, b: bytes, h: ChunkedHead) returns (e: seq<Event>)
    requires Accepts(cb.lines, Request, m) && b <= m && b != [] && b != m && Feed(cb, FRESH, b).err.None?
    requires !Silent(cb) && HeadIn(cb.lines, b) == Some(h)
    ensures Matches(Calls(cb)(FRESH, b), Feed(cb, FRESH, b), Extra(cb, b) + e) && FeedSays(cb, FRESH, b) == Omitted(cb, b) + e
  {
    FirstTells(cb, m, b, h);
    e := AppliedRunsAsFresh(cb, b, h);
    EmptyAppend(When(cb.begin, Begin));
    Assoc(ChunkedSays(cb, h, LeadingChunks(cb.lines, b, h.next)), When(cb.begin, Begin), e);
  }

  // --------------------------------------------------------------------- later calls

  lemma LaterCall(cb: Setting, x: State, y: State, b: bytes)
    requires Near(x, y) && y.phase != Idle && b != [] && (Silent(cb) || y.told.started || !Intrudes(cb.lines, b)) && Feed(cb, y, b).err.None?
    ensures Matches(Calls(cb)(x, b), Feed(cb, y, b), FeedSays(cb, y, b))
  {
    LaterFeeds(cb, x, b);
    EmptyAppend(FeedSays(cb, x, b));
    if x != y {
      RunTwins(cb, x, y, b, 0);
    }
  }

  /** From any state near the machine's after `i` pieces, the next call does what the machine does. */
  ghost predicate FollowsAt(call: Caller, feed: Feeder, tell: Speaker, pieces: seq<bytes>, i: nat, x: State)
    requires i < |pieces|
  {
    var y := Series(feed, FRESH, pieces[..i]).st;
    Near(x, y) ==> Matches(call(x, pieces[i]), feed(y, pieces[i]), tell(y, pieces[i]))
  }

  ghost predicate Follows(call: Caller, feed: Feeder, tell: Speaker, pieces: seq<bytes>, i: nat)
    requires i < |pieces|
  {
    forall x: State {:trigger FollowsAt(call, feed, tell, pieces, i, x)} :: FollowsAt(call, feed, tell, pieces, i, x)
  }

  lemma {:induction false} SeriesNear(call: Caller, feed: Feeder, tell: Speaker, pieces: seq<bytes>, j: nat, c: seq<Event>,
      u: seq<Event>, e0: seq<Event>)
      returns (e: seq<Event>)
    requires 0 < j <= |pieces| && forall i | 0 < i < j :: Follows(call, feed, tell, pieces, i)
    requires Matches(call(FRESH, pieces[0]), feed(FRESH, pieces[0]), c + e0) && tell(FRESH, pieces[0]) == u + e0
    ensures var r := Executed(call, pieces[..j]);
            r.ok && Near(r.st, Series(feed, FRESH, pieces[..j]).st) && r.es == c + e && Chronicle(feed, tell, FRESH, pieces[..j]) == u + e
    decreases j
  {
    if j == 1 {
      OneSeries(call, feed, tell, pieces);
      e := e0;
    } else {
      var e1 := SeriesNear(call, feed, tell, pieces, j - 1, c, u, e0);
      e := NextSeries(call, feed, tell, pieces, j - 1, c, u, e1);
    }
  }

  lemma OneSeries(call: Caller, feed: Feeder, tell: Speaker, pieces: seq<bytes>)
    requires pieces != []
    ensures var x := call(FRESH, pieces[0]); Executed(call, pieces[..1]) == Ran(x.err.None?, x.st, x.es)
    ensures Series(feed, FRESH, pieces[..1]) == feed(FRESH, pieces[0]) && Chronicle(feed, tell, FRESH, pieces[..1]) == tell(FRESH, pieces[0])
  {
    assert pieces[..0] == [];
    ExecutedNext(call, pieces, 0);
    NextCall(feed, tell, FRESH, pieces, 0);
    EmptyAppend(call(FRESH, pieces[0]).es);
    EmptyAppend(tell(FRESH, pieces[0]));
  }

  lemma NextSeries(call: Caller, feed: Feeder, tell: Speaker, pieces: seq<bytes>, j: nat, c: seq<Event>, u: seq<Event>, e: seq<Event>)
      returns (e': seq<Event>)
    requires 0 < j < |pieces| && Follows(call, feed, tell, pieces, j)
    requires var r := Executed(call, pieces[..j]);
             r.ok && Near(r.st, Series(feed, FRESH, pieces[..j]).st) && r.es == c + e && Chronicle(feed, tell, FRESH, pieces[..j]) == u + e
    ensures var r := Executed(call, pieces[..j + 1]);
            r.ok && Near(r.st, Series(feed, FRESH, pieces[..j + 1]).st) && r.es == c + e' && Chronicle(feed, tell, FRESH, pieces[..j + 1]) == u + e'
  {
    var y := Series(feed, FRESH, pieces[..j]).st;
    ExecutedNext(call, pieces, j);
    NextCall(feed, tell, FRESH, pieces, j);
    assert FollowsAt(call, feed, tell, pieces, j, Executed(call, pieces[..j]).st);
    e' := e + tell(y, pieces[j]);
    Assoc(c, e, tell(y, pieces[j]));
    Assoc(u, e, tell(y, pieces[j]));
  }

  /** Begin has been told after every call, if it is told at all. */
  lemma {:induction false} StartedBetween(cb: Setting, m: bytes, pieces: seq<bytes>, j: nat)
    requires cb.begin && WholeRequest(cb.lines, m) && SafePieces(cb.lines, m, pieces) && 0 < j <= |pieces|
    ensures After(cb, FRESH, pieces[..j]).st.told.started
    decreases j
  {
    IncrementalRefinesOneShot(cb, m, pieces, j);
    AfterNext(cb, FRESH, pieces, j - 1);
    if 1 < j {
      StartedBetween(cb, m, pieces, j - 1);
    }
    FeedMarks(cb, After(cb, FRESH, pieces[..j - 1]).st, pieces[j - 1]);
  }

  /** The whole-buffer path does not step in at this piece. */
  predicate Passes(cb: Setting, b: bytes) {
    Silent(cb) || cb.begin || !Intrudes(cb.lines, b)
  }

  lemma PieceFollows(cb: Setting, m: bytes, pieces: seq<bytes>, i: nat)
    requires WholeRequest(cb.lines, m) && SafePieces(cb.lines, m, pieces) && 0 < i < |pieces| && Passes(cb, pieces[i])
    ensures Follows(Calls(cb), Feeds(cb), Speaks(cb), pieces, i)
  {
    var y := After(cb, FRESH, pieces[..i]).st;
    IncrementalRefinesOneShot(cb, m, pieces, i);
    IncrementalRefinesOneShot(cb, m, pieces, i + 1);
    AfterNext(cb, FRESH, pieces, i);
    if cb.begin {
      StartedBetween(cb, m, pieces, i);
    }
    forall x: State ensures FollowsAt(Calls(cb), Feeds(cb), Speaks(cb), pieces, i, x) {
      if Near(x, y) {
        LaterCall(cb, x, y, pieces[i]);
      }
    }
  }

  lemma FirstPiece(cb: Setting, m: bytes, pieces: seq<bytes>) returns (e: seq<Event>)
    requires WholeRequest(cb.lines, m) && SafePieces(cb.lines, m, pieces) && pieces != [] && (Silent(cb) || 1 < |pieces|)
    ensures Matches(Calls(cb)(FRESH, pieces[0]), Feed(cb, FRESH, pieces[0]), Extra(cb, pieces[0]) + e)
    ensures FeedSays(cb, FRESH, pieces[0]) == Omitted(cb, pieces[0]) + e
  {
    IncrementalRefinesOneShot(cb, m, pieces, 1);
    AfterNext(cb, FRESH, pieces, 0);
    if 1 < |pieces| {
      FirstPart(m, pieces);
    } else {
      OnePieceIs(m, pieces);
    }
    e := FirstCall(cb, m, pieces[0]);
  }

  /** Up to piece `j` a run without intruders is the machine's, but for a chunked head told in front. */
  lemma RunNear(cb: Setting, m: bytes, pieces: seq<bytes>, j: nat) returns (e: seq<Event>)
    requires WholeRequest(cb.lines, m) && SafePieces(cb.lines, m, pieces) && 0 < j <= |pieces| && (Silent(cb) || 1 < |pieces|)
    requires forall i | 0 < i < j :: Passes(cb, pieces[i])
    ensures var r := Executed(Calls(cb), pieces[..j]);
            r.ok && Near(r.st, After(cb, FRESH, pieces[..j]).st) && r.es == Extra(cb, pieces[0]) + e
    ensures SaysAll(cb, FRESH, pieces[..j]) == Omitted(cb, pieces[0]) + e
  {
    var e0 := FirstPiece(cb, m, pieces);
    forall i | 0 < i < j ensures Follows(Calls(cb), Feeds(cb), Speaks(cb), pieces, i) {
      PieceFollows(cb, m, pieces, i);
    }
    e := SeriesNear(Calls(cb), Feeds(cb), Speaks(cb), pieces, j, Extra(cb, pieces[0]), Omitted(cb, pieces[0]), e0);
  }

  // --------------------------------------------------------------- what the machine tells

  /** MessageBegin fires once and the URL fragments join to the target. */
  ghost predicate LineTold(cb: Setting, m: bytes, pieces: seq<bytes>, target: bytes)
    requires CrlfFrom(m, 0).Some? && pieces != []
  {
    var i := CrlfFrom(m, 0).value;
    (cb.begin ==> i < |pieces[0]|) && (cb.url ==> TargetUncut(pieces, TargetEnd(m[0..i], target), i))
  }

  lemma MachineTold(cb: Setting, m: bytes, pieces: seq<bytes>, msg: Message)
    requires WholeRequest(cb.lines, m) && SafePieces(cb.lines, m, pieces) && PlainValues(cb.lines) && PlainTargets(cb.lines)
    requires ParseMessage(cb.lines, Request, m) == Accepted(msg)
    ensures pieces != [] && CrlfFrom(m, 0).Some? && msg.start.Req?
    ensures ToldOnce(cb, msg, Ran(true, After(cb, FRESH, pieces).st, SaysAll(cb, FRESH, pieces)))
            <==> LineTold(cb, m, pieces, msg.start.req.target) && ValuesInPlace(cb, m, pieces)
  {
    StartOfPieces(cb, m, pieces);
    StreamExactly(cb, m, pieces);
    IncrementalRefinesOneShot(cb, m, pieces, |pieces|);
    assert pieces[..|pieces|] == pieces;
  }

  // ------------------------------------------------------------- a head told in front

  /** Nothing that the chunked path tells in front of the machine is set as a callback. */
  predicate Unheard(cb: Setting, h: ChunkedHead, chunks: seq<bytes>) {
    && !cb.begin && !cb.headers
    && ((!cb.field && !cb.value) || |h.headers| > MAX_FAST_HEADERS)
    && (!cb.body || chunks == [])
  }

  /** The first piece holds no whole chunked head, or none of its callbacks is set. */
  predicate HeadSuits(cb: Setting, b: bytes) {
    TellsHead(cb, b) ==> var h := HeadIn(cb.lines, b).value; Unheard(cb, h, LeadingChunks(cb.lines, b, h.next).0)
  }

  lemma {:induction false} NoParts(cb: Setting, parts: seq<bytes>)
    requires !cb.body || parts == []
    ensures PartsTrace(cb, parts) == []
  {
    if parts != [] {
      NoParts(cb, parts[1..]);
    }
  }

  /** Then the stream has nothing in front. */
  lemma UnheardIsSilent(cb: Setting, h: ChunkedHead, chunks: (seq<bytes>, bool))
    requires Unheard(cb, h, chunks.0) && !chunks.1
    ensures Alike(Stream, ChunkedSays(cb, h, chunks), [])
  {
    var s := StartTrace(cb, h.line.target);
    if !cb.field && !cb.value {
      NoHeaderCallbacks(cb, h.headers);
    }
    NoParts(cb, chunks.0);
    StartIsSilent(Stream, cb, h.line.target);
    EmptyAppend(s);
  }

  // otherwise something is told twice

  lemma HeaderParts3(f: seq<Event>, v: seq<Event>, rest: seq<Event>)
    ensures |Names(f + v + rest)| == |Names(f)| + |Names(v)| + |Names(rest)|
    ensures |Values(f + v + rest)| == |Values(f)| + |Values(v)| + |Values(rest)|
  {
    JoinedParts(f, v);
    JoinedParts(f + v, rest);
  }

  lemma {:induction false} HeaderTraceTotals(cb: Setting, hs: seq<Header>, k: nat)
    requires k < |hs| && hs[k].value != []
    ensures cb.field ==> Names(HeaderTrace(cb, hs)) != []
    ensures cb.value ==> Values(HeaderTrace(cb, hs)) != []
    decreases k
  {
    OneEvent(Field(hs[0].name));
    OneEvent(Value(hs[0].value));
    HeaderParts3(When(cb.field, Field(hs[0].name)), When(cb.value, Value(hs[0].value)), HeaderTrace(cb, hs[1..]));
    if 0 < k {
      HeaderTraceTotals(cb, hs[1..], k - 1);
    }
  }

  /** A chunked head has a header that says so. */
  lemma {:induction false} ChunkedHeader(g: LineGrammar, meta: Meta, b: bytes, p: nat) returns (k: nat)
    requires p <= |b| && ParseHeaders(g, meta, b, p).HeadDone? && ParseHeaders(g, meta, b, p).meta.chunked && !meta.chunked
    ensures k < |ParseHeaders(g, meta, b, p).headers| && ParseHeaders(g, meta, b, p).headers[k].value != []
    decreases |b| - p
  {
    var i := CrlfFrom(b, p).value;
    var h := g.header(b[p..i]).value;
    if IsChunked(h) && !IsLength(h) {
      k := 0;
    } else {
      k := ChunkedHeader(g, ApplyHeader(meta, h).value, b, i + 2);
      k := k + 1;
    }
  }

  lemma LeadingNonEmpty(g: LineGrammar, b: bytes, p: nat)
    requires p <= |b| && LeadingChunks(g, b, p).0 != []
    ensures LeadingChunks(g, b, p).0[0] != []
  {
  }

  lemma PartsTotals(cb: Setting, parts: seq<bytes>)
    requires cb.body && parts != [] && parts[0] != []
    ensures BodyOf(PartsTrace(cb, parts)) != []
  {
    OneEvent(BodyPart(parts[0]));
    JoinedParts([BodyPart(parts[0])], PartsTrace(cb, parts[1..]));
  }

  /** Something that Totals counts. */
  predicate Sounds(es: seq<Event>) {
    Names(es) != [] || Values(es) != [] || BodyOf(es) != [] || Count(es, HeadersDone) > 0
  }

  lemma SoundsIn(x: seq<Event>, y: seq<Event>)
    requires Sounds(x) || Sounds(y)
    ensures Sounds(x + y)
  {
    JoinedParts(x, y);
  }

  lemma HeardSounds(cb: Setting, h: ChunkedHead, chunks: (seq<bytes>, bool), k: nat)
    requires !cb.begin && !Unheard(cb, h, chunks.0) && k < |h.headers| && h.headers[k].value != []
    requires chunks.0 != [] ==> chunks.0[0] != []
    ensures Sounds(ChunkedSays(cb, h, chunks))
  {
    var s, n, d, b, c := StartTrace(cb, h.line.target), if |h.headers| <= MAX_FAST_HEADERS then HeaderTrace(cb, h.headers) else [],
                         When(cb.headers, HeadersDone), PartsTrace(cb, chunks.0), When(cb.complete && chunks.1, Complete);
    OneEvent(HeadersDone);
    HeaderTraceTotals(cb, h.headers, k);
    if cb.body && chunks.0 != [] {
      PartsTotals(cb, chunks.0);
    }
    assert Sounds(n) || Sounds(d) || Sounds(b);
    if Sounds(n) {
      SoundsIn(s, n);
    }
    if Sounds(s + n) || Sounds(d) {
      SoundsIn(s + n, d);
    }
    SoundsIn(s + n + d, b);
    SoundsIn(s + n + d + b, c);
  }

  /** What sounds in front is too much. */
  lemma SoundsTooMuch(x: seq<Event>, e: seq<Event>, t: seq<Event>)
    requires Sounds(x) && Alike(Totals, e, t)
    ensures !Alike(Stream, x + e, t)
  {
    JoinedParts(x, e);
    if Alike(Stream, x + e, t) {
      StreamTotals(x + e, t);
    }
  }

  // ----------------------------------------------------- runs without intruders

  lemma NearTold(cb: Setting, msg: Message, x: State, y: State, es: seq<Event>)
    requires Near(x, y)
    ensures ToldOnce(cb, msg, Ran(true, x, es)) <==> ToldOnce(cb, msg, Ran(true, y, es))
  {
  }

  lemma HeadParts(cb: Setting, b: bytes, h: ChunkedHead) returns (k: nat)
    requires HeadIn(cb.lines, b) == Some(h)
    ensures k < |h.headers| && h.headers[k].value != []
    ensures var parts := LeadingChunks(cb.lines, b, h.next).0; parts != [] ==> parts[0] != []
  {
    k := ChunkedHeader(cb.lines, StartMeta(Req(h.line)), b, CrlfFrom(b, 0).value + 2);
    if LeadingChunks(cb.lines, b, h.next).0 != [] {
      LeadingNonEmpty(cb.lines, b, h.next);
    }
  }

  /** The target of a head told in front. */
  lemma ExtraUrl(cb: Setting, h: ChunkedHead, chunks: (seq<bytes>, bool))
    requires cb.url
    ensures UrlOf(ChunkedSays(cb, h, chunks)) == h.line.target
  {
    var s, n, d, b, c := StartTrace(cb, h.line.target), if |h.headers| <= MAX_FAST_HEADERS then HeaderTrace(cb, h.headers) else [],
                         When(cb.headers, HeadersDone), PartsTrace(cb, chunks.0), When(cb.complete && chunks.1, Complete);
    StartTraceTold(cb, h.line.target);
    QuietHeaders(cb, h.headers);
    QuietWhen(cb.headers, HeadersDone);
    QuietParts(cb, chunks.0);
    QuietWhen(cb.complete && chunks.1, Complete);
    QuietBehind(s, n);
    QuietBehind(s + n, d);
    QuietBehind(s + n + d, b);
    QuietBehind(s + n + d + b, c);
  }

  lemma ExtraBegins(cb: Setting, h: ChunkedHead, chunks: (seq<bytes>, bool))
    requires cb.begin
    ensures 2 <= Count(ChunkedSays(cb, h, chunks) + When(cb.begin, Begin), Begin)
  {
    var s, n, d, b, c := StartTrace(cb, h.line.target), if |h.headers| <= MAX_FAST_HEADERS then HeaderTrace(cb, h.headers) else [],
                         When(cb.headers, HeadersDone), PartsTrace(cb, chunks.0), When(cb.complete && chunks.1, Complete);
    StartTraceTold(cb, h.line.target);
    BeginsAdd(s, n);
    BeginsAdd(s + n, d);
    BeginsAdd(s + n + d, b);
    BeginsAdd(s + n + d + b, c);
    OneEvent(Begin);
    BeginsAdd(ChunkedSays(cb, h, chunks), When(cb.begin, Begin));
  }

  /** The stream of a run with a head told in front: as the machine's if nothing of it is heard. */
  lemma ExtraStream(cb: Setting, b: bytes, h: ChunkedHead, e: seq<Event>, all: seq<Event>, trace: seq<Event>)
    requires !cb.begin && HeadIn(cb.lines, b) == Some(h) && !LeadingChunks(cb.lines, b, h.next).1 && TellsHead(cb, b)
    requires all == Omitted(cb, b) + e && Alike(Totals, all, trace)
    ensures Alike(Stream, Extra(cb, b) + e, trace) <==> HeadSuits(cb, b) && Alike(Stream, all, trace)
  {
    var chunks := LeadingChunks(cb.lines, b, h.next);
    var c, u := ChunkedSays(cb, h, chunks), Omitted(cb, b);
    EmptyAppend(c);
    EmptyAppend(e);
    StartsAlike(Stream, cb.begin, cb.url, h.line.target, 0);
    StartsAlike(Totals, cb.begin, cb.url, h.line.target, 0);
    AlikeAppend(Stream, u, [], e, e);
    AlikeAppend(Totals, u, [], e, e);
    if HeadSuits(cb, b) {
      UnheardIsSilent(cb, h, chunks);
      AlikeAppend(Stream, c, [], e, e);
    } else {
      var k := HeadParts(cb, b, h);
      HeardSounds(cb, h, chunks, k);
      AlikeTrans(Totals, e, all, trace);
      SoundsTooMuch(c, e, trace);
    }
  }

  lemma ExtraRunUrl(cb: Setting, b: bytes, h: ChunkedHead, e: seq<Event>, all: seq<Event>)
    requires !cb.begin && cb.url && HeadIn(cb.lines, b) == Some(h) && TellsHead(cb, b) && all == Omitted(cb, b) + e && UrlOf(all) == h.line.target
    ensures UrlOf(Extra(cb, b) + e) == h.line.target
  {
    var chunks := LeadingChunks(cb.lines, b, h.next);
    var c, u := ChunkedSays(cb, h, chunks), Omitted(cb, b);
    EmptyAppend(c);
    ExtraUrl(cb, h, chunks);
    StartParts(cb.begin, cb.url, h.line.target, 0);
    JoinedParts(u, e);
    JoinedParts(c, e);
    if h.line.target != [] {
      assert h.line.target[0..] == h.line.target;
    }
    EmptyAppend(h.line.target);
  }

  /** Cuts behind the request line leave the target alone. */
  lemma NoCutInLine(pieces: seq<bytes>, end: int, i: nat)
    requires (forall k | 0 <= k < |pieces| :: pieces[k] != []) && pieces != [] && i < |pieces[0]|
    ensures TargetUncut(pieces, end, i)
  {
    forall j | 0 < j < |pieces| ensures !(end < |Concat(pieces[..j])| <= i) {
      CutsGrow(pieces, 1, j);
      PiecesNext(pieces, 0);
    }
  }

  /** The line of a chunked head is the message's. */
  lemma HeadLine(g: LineGrammar, m: bytes, pieces: seq<bytes>, msg: Message, h: ChunkedHead)
    requires ParseMessage(g, Request, m) == Accepted(msg) && Concat(pieces) == m && (forall i | 0 <= i < |pieces| :: pieces[i] != [])
    requires 1 < |pieces| && HeadIn(g, pieces[0]) == Some(h)
    ensures msg.start == Req(h.line) && CrlfFrom(m, 0).Some? && CrlfFrom(m, 0).value < |pieces[0]|
  {
    var b, i := pieces[0], CrlfFrom(m, 0).value;
    FirstPart(m, pieces);
    CrlfPrefix(m, 0, |b|);
    assert b[0..i] == m[..i];
  }

  /** A run without intruders that has told a head in front. */
  lemma HeadRunTold(cb: Setting, m: bytes, pieces: seq<bytes>, msg: Message, h: ChunkedHead, x: State, e: seq<Event>)
    requires WholeRequest(cb.lines, m) && SafePieces(cb.lines, m, pieces) && PlainValues(cb.lines) && PlainTargets(cb.lines)
    requires ParseMessage(cb.lines, Request, m) == Accepted(msg) && 1 < |pieces| && TellsHead(cb, pieces[0]) && HeadIn(cb.lines, pieces[0]) == Some(h)
    requires Near(x, After(cb, FRESH, pieces).st) && SaysAll(cb, FRESH, pieces) == Omitted(cb, pieces[0]) + e && !cb.begin
    ensures ToldOnce(cb, msg, Ran(true, x, Extra(cb, pieces[0]) + e)) <==> ValuesInPlace(cb, m, pieces) && HeadSuits(cb, pieces[0])
  {
    var all, first := SaysAll(cb, FRESH, pieces), pieces[0];
    HeadLine(cb.lines, m, pieces, msg, h);
    FirstPart(m, pieces);
    FirstTells(cb, m, first, h);
    PiecesTellTheMessage(Totals, cb, m, pieces);
    StreamExactly(cb, m, pieces);
    ExtraStream(cb, first, h, e, all, Trace(cb, msg));
    IncrementalRefinesOneShot(cb, m, pieces, |pieces|);
    assert pieces[..|pieces|] == pieces;
    if cb.url {
      StartOfPieces(cb, m, pieces);
      NoCutInLine(pieces, TargetEnd(m[0..CrlfFrom(m, 0).value], h.line.target), CrlfFrom(m, 0).value);
      ExtraRunUrl(cb, first, h, e, all);
    }
  }

  lemma HeadLineTold(cb: Setting, m: bytes, pieces: seq<bytes>, msg: Message, h: ChunkedHead)
    requires ParseMessage(cb.lines, Request, m) == Accepted(msg) && Concat(pieces) == m && (forall i | 0 <= i < |pieces| :: pieces[i] != [])
    requires 1 < |pieces| && HeadIn(cb.lines, pieces[0]) == Some(h)
    ensures CrlfFrom(m, 0).Some? && msg.start.Req? && LineTold(cb, m, pieces, msg.start.req.target)
  {
    HeadLine(cb.lines, m, pieces, msg, h);
    NoCutInLine(pieces, TargetEnd(m[0..CrlfFrom(m, 0).value], h.line.target), CrlfFrom(m, 0).value);
  }

  /** A run in which the whole-buffer path does not step in. */
  lemma PassedTold(cb: Setting, m: bytes, pieces: seq<bytes>, msg: Message)
    requires WholeRequest(cb.lines, m) && SafePieces(cb.lines, m, pieces) && PlainValues(cb.lines) && PlainTargets(cb.lines)
    requires ParseMessage(cb.lines, Request, m) == Accepted(msg) && pieces != [] && (Silent(cb) || 1 < |pieces|)
    requires forall i | 0 < i < |pieces| :: Passes(cb, pieces[i])
    ensures CrlfFrom(m, 0).Some? && msg.start.Req?
    ensures ToldOnce(cb, msg, Executed(Calls(cb), pieces))
            <==> LineTold(cb, m, pieces, msg.start.req.target) && ValuesInPlace(cb, m, pieces) && HeadSuits(cb, pieces[0])
  {
    var first := pieces[0];
    assert pieces[..|pieces|] == pieces;
    MachineTold(cb, m, pieces, msg);
    var e := RunNear(cb, m, pieces, |pieces|);
    var r := Executed(Calls(cb), pieces);
    if !TellsHead(cb, first) {
      EmptyAppend(e);
      NearTold(cb, msg, r.st, After(cb, FRESH, pieces).st, r.es);
    } else {
      var h := HeadIn(cb.lines, first).value;
      HeadLineTold(cb, m, pieces, msg, h);
      if cb.begin {
        ExtraBegins(cb, h, LeadingChunks(cb.lines, first, h.next));
        BeginsAdd(Extra(cb, first), e);
      } else {
        HeadRunTold(cb, m, pieces, msg, h, r.st, e);
      }
    }
  }

  // ------------------------------------------------------------------------- intruders

  ghost predicate Calm(g: LineGrammar, pieces: seq<bytes>, n: nat)
    requires n <= |pieces|
  {
    forall j {:trigger Intrudes(g, pieces[j])} | 0 < j < n :: !Intrudes(g, pieces[j])
  }

  /** No piece but the first is taken or failed as a request of its own. */
  ghost predicate Undisturbed(g: LineGrammar, pieces: seq<bytes>) {
    Calm(g, pieces, |pieces|)
  }

  lemma CompletesAdd(x: seq<Event>, y: seq<Event>)
    ensures Count(x + y, Complete) == Count(x, Complete) + Count(y, Complete)
  {
    JoinedParts(x, y);
  }

  lemma FastCompletes(cb: Setting, msg: Message, parts: seq<bytes>)
    requires msg.start.Req? && cb.complete
    ensures 1 <= Count(FastEvents(cb, msg, parts), Complete)
  {
    var es := StartTrace(cb, msg.start.req.target) + HeaderTrace(cb, msg.headers) + When(cb.headers, HeadersDone) + PartsTrace(cb, parts);
    OneEvent(Complete);
    CompletesAdd(es, When(cb.complete, Complete));
  }

  /** An intruding piece fails the call, or is told as a message while the machine stays where it was. */
  lemma IntruderCall(cb: Setting, st: State, b: bytes)
    requires b != [] && !Silent(cb) && !st.told.started && Intrudes(cb.lines, b)
    ensures var c := Calls(cb)(st, b);
            c.err.None? ==> c.st.phase == st.phase && c.st.done && (cb.complete ==> 1 <= Count(c.es, Complete))
  {
    if FastErr(cb.lines, b).None? {
      var msg := ParseMessage(cb.lines, Request, b).msg;
      if cb.complete {
        FastCompletes(cb, msg, RequestParts(cb.lines, b, msg));
      }
    }
  }

  /** The machine does not become idle without a Complete. */
  ghost predicate IdlesAt(step: Stepper, says: Teller, st: State, buf: bytes, p: nat) {
    p < |buf| && st.phase != Idle ==> IdlesAloud(step(st, buf, p), says(st, buf, p))
  }

  /** A turn goes on inside the message, or ends it and says Complete. */
  predicate IdlesAloud(t: Turn, es: seq<Event>) {
    match t
    case Go(st', _) => st'.phase != Idle
    case Stop(o) => o.err.None? && o.st.phase == Idle ==> 1 <= Count(es, Complete)
  }

  lemma LineIdles(cb: Setting, st: State, line: bytes, buf: bytes, k: nat)
    requires cb.complete && k <= |buf| && InLine(st)
    ensures IdlesAloud(TakeLine(cb, st, line, buf, k), LineSays(cb, st, line, buf, k))
  {
    OneEvent(Complete);
    if st.phase == HeaderPhase && line == [] {
      CompletesAdd(When(cb.headers, HeadersDone), When(cb.complete && !st.facts.chunked && st.length <= 0, Complete));
    }
  }

  lemma LineTurnIdles(cb: Setting, st: State, buf: bytes, p: nat)
    requires cb.complete && p < |buf| && InLine(st)
    ensures IdlesAloud(LineTurn(cb, st, buf, p), LineTurnSays(cb, st, buf, p))
  {
    if CrlfFrom(buf, p).Some? {
      EndedLineIdles(cb, st, buf, p, CrlfFrom(buf, p).value);
    } else {
      OpenLineIdles(cb, st, buf, p);
    }
  }

  lemma OpenLineIdles(cb: Setting, st: State, buf: bytes, p: nat)
    requires p < |buf| && InLine(st) && CrlfFrom(buf, p).None?
    ensures IdlesAloud(LineTurn(cb, st, buf, p), LineTurnSays(cb, st, buf, p))
  {
  }

  lemma EndedLineIdles(cb: Setting, st: State, buf: bytes, p: nat, i: nat)
    requires cb.complete && p < |buf| && InLine(st) && CrlfFrom(buf, p) == Some(i)
    ensures IdlesAloud(LineTurn(cb, st, buf, p), LineTurnSays(cb, st, buf, p))
  {
    var line := st.scratch + buf[p..i];
    LineIdles(cb, Holding(st, line), line, buf, i + 2);
    SaysHolds(cb, st, line, buf, i + 2);
  }

  lemma StepsIdle(cb: Setting, st: State, buf: bytes, p: nat)
    requires cb.complete
    ensures IdlesAt(Steps(cb), Tells(cb), st, buf, p)
  {
    if p < |buf| && st.phase != Idle {
      if InLine(st) {
        LineTurnIdles(cb, st, buf, p);
      } else {
        OneEvent(Complete);
        CompletesAdd(DataSays(cb, st, buf, p), When(cb.complete && st.length <= |buf| - p, Complete));
      }
      StepsAre(cb, st, buf, p, Step(cb, st, buf, p));
      TellsAre(cb, st, buf, p, StepSays(cb, st, buf, p));
    }
  }

  lemma {:induction false} LoopIdles(step: Stepper, says: Teller, st: State, buf: bytes, p: nat)
    requires Advances(step) && st.phase != Idle
    requires forall st': State, p': nat {:trigger IdlesAt(step, says, st', buf, p')} :: IdlesAt(step, says, st', buf, p')
    ensures var o := Loop(step, st, buf, p); o.err.None? && o.st.phase == Idle ==> 1 <= Count(Tale(step, says, st, buf, p), Complete)
    decreases |buf| - p
  {
    if p < |buf| {
      assert IdlesAt(step, says, st, buf, p);
      match step(st, buf, p)
      case Go(st', next) =>
        LoopIdles(step, says, st', buf, next);
        CompletesAdd(says(st, buf, p), Tale(step, says, st', buf, next));
      case Stop(_) => EmptyAppend(says(st, buf, p));
    }
  }

  /** A call that leaves the message with the parser idle says Complete. */
  lemma CallIdles(cb: Setting, st: State, b: bytes)
    requires cb.complete && st.phase != Idle && b != []
    ensures var c := Calls(cb)(st, b); c.err.None? && c.st.phase == Idle ==> 1 <= Count(c.es, Complete)
  {
    StepsAdvance(cb);
    forall st': State, p': nat ensures IdlesAt(Steps(cb), Tells(cb), st', b, p') { StepsIdle(cb, st', b, p'); }
    LoopIdles(Steps(cb), Tells(cb), st, b, 0);
    EmptyAppend(FeedSays(cb, st, b));
  }

  /** A message that cannot be told once any more. */
  ghost predicate Lost(r: Ran) {
    !r.ok || 2 <= Count(r.es, Complete) || (r.st.phase != Idle && 1 <= Count(r.es, Complete))
  }

  ghost predicate IdlesBy(call: Caller, st: State, b: bytes) {
    st.phase != Idle ==> var c := call(st, b); c.err.None? && c.st.phase == Idle ==> 1 <= Count(c.es, Complete)
  }

  ghost predicate Idles(call: Caller, pieces: seq<bytes>) {
    forall i: nat, st: State {:trigger IdlesBy(call, st, pieces[i])} | i < |pieces| :: IdlesBy(call, st, pieces[i])
  }

  lemma LostNext(call: Caller, r: Ran, b: bytes)
    requires Lost(r) && IdlesBy(call, r.st, b)
    ensures Lost(Next(call, r, b))
  {
    CompletesAdd(r.es, call(r.st, b).es);
  }

  lemma {:induction false} LostStays(call: Caller, pieces: seq<bytes>, j: nat, n: nat)
    requires j <= n <= |pieces| && Lost(Executed(call, pieces[..j]))
    requires Idles(call, pieces)
    ensures Lost(Executed(call, pieces[..n]))
    decreases n
  {
    if j < n {
      LostStays(call, pieces, j, n - 1);
      ExecutedNext(call, pieces, n - 1);
      assert IdlesBy(call, Executed(call, pieces[..n - 1]).st, pieces[n - 1]);
      LostNext(call, Executed(call, pieces[..n - 1]), pieces[n - 1]);
    }
  }

  /** Without a MessageBegin callback, Begin is never marked as told. */
  ghost predicate UnmarkedAt(step: Stepper, st: State, buf: bytes, p: nat) {
    p < |buf| && !st.told.started ==> Unmarked(step(st, buf, p))
  }

  predicate Unmarked(t: Turn) {
    match t
    case Go(st', _) => !st'.told.started
    case Stop(o) => !o.st.told.started
  }

  lemma LineUnmarked(cb: Setting, st: State, line: bytes, buf: bytes, k: nat)
    requires !cb.begin && k <= |buf| && !st.told.started
    ensures Unmarked(TakeLine(cb, st, line, buf, k))
  {
  }

  lemma LineTurnUnmarked(cb: Setting, st: State, buf: bytes, p: nat)
    requires !cb.begin && p < |buf| && !st.told.started
    ensures Unmarked(LineTurn(cb, st, buf, p))
  {
    if CrlfFrom(buf, p).Some? {
      var i := CrlfFrom(buf, p).value;
      var line := st.scratch + buf[p..i];
      LineUnmarked(cb, Holding(st, line), line, buf, i + 2);
    }
  }

  lemma StepsUnmarked(cb: Setting, st: State, buf: bytes, p: nat)
    requires !cb.begin
    ensures UnmarkedAt(Steps(cb), st, buf, p)
  {
    if p < |buf| && !st.told.started {
      if InLine(st) {
        LineTurnUnmarked(cb, st, buf, p);
      }
      StepsAre(cb, st, buf, p, Step(cb, st, buf, p));
    }
  }

  lemma {:induction false} LoopUnmarked(step: Stepper, st: State, buf: bytes, p: nat)
    requires Advances(step) && !st.told.started
    requires forall st': State, p': nat {:trigger UnmarkedAt(step, st', buf, p')} :: UnmarkedAt(step, st', buf, p')
    ensures !Loop(step, st, buf, p).st.told.started
    decreases |buf| - p
  {
    if p < |buf| {
      assert UnmarkedAt(step, st, buf, p);
      if step(st, buf, p).Go? {
        LoopUnmarked(step, step(st, buf, p).st, buf, step(st, buf, p).next);
      }
    }
  }

  lemma FeedUnmarked(cb: Setting, st: State, buf: bytes)
    requires !cb.begin && !st.told.started
    ensures !Feed(cb, st, buf).st.told.started
  {
    StepsAdvance(cb);
    forall st': State, p': nat ensures UnmarkedAt(Steps(cb), st', buf, p') { StepsUnmarked(cb, st', buf, p'); }
    LoopUnmarked(Steps(cb), Start(st), buf, 0);
  }

  lemma {:induction false} UnmarkedBetween(cb: Setting, pieces: seq<bytes>, j: nat)
    requires !cb.begin && j <= |pieces|
    ensures !After(cb, FRESH, pieces[..j]).st.told.started
    decreases j
  {
    if 0 < j {
      UnmarkedBetween(cb, pieces, j - 1);
      AfterNext(cb, FRESH, pieces, j - 1);
      FeedUnmarked(cb, After(cb, FRESH, pieces[..j - 1]).st, pieces[j - 1]);
    }
  }

  lemma {:induction false} FirstIntruder(g: LineGrammar, pieces: seq<bytes>, n: nat) returns (j: nat)
    requires 0 < n < |pieces| && Intrudes(g, pieces[n])
    ensures 0 < j < |pieces| && Intrudes(g, pieces[j]) && Calm(g, pieces, j)
    decreases n
  {
    if i :| 0 < i < n && Intrudes(g, pieces[i]) {
      j := FirstIntruder(g, pieces, i);
    } else {
      j := n;
    }
  }

  /** The first intruder: the call fails, or it completes a message with the machine still inside another. */
  lemma IntruderStrikes(cb: Setting, m: bytes, pieces: seq<bytes>, j: nat)
    requires WholeRequest(cb.lines, m) && SafePieces(cb.lines, m, pieces) && !cb.begin && !Silent(cb)
    requires 0 < j < |pieces| && Intrudes(cb.lines, pieces[j]) && Calm(cb.lines, pieces, j)
    ensures var r := Executed(Calls(cb), pieces[..j + 1]);
            r.ok ==> r.st.phase != Idle && r.st.done && (cb.complete ==> 1 <= Count(r.es, Complete))
  {
    var r := Executed(Calls(cb), pieces[..j]);
    forall i | 0 < i < j ensures Passes(cb, pieces[i]) {
      assert !Intrudes(cb.lines, pieces[i]);
    }
    var e := RunNear(cb, m, pieces, j);
    IncrementalRefinesOneShot(cb, m, pieces, j);
    UnmarkedBetween(cb, pieces, j);
    IntruderCall(cb, r.st, pieces[j]);
    ExecutedNext(Calls(cb), pieces, j);
    CompletesAdd(r.es, Calls(cb)(r.st, pieces[j]).es);
  }

  lemma AllIdle(cb: Setting, pieces: seq<bytes>)
    requires cb.complete && forall i | 0 <= i < |pieces| :: pieces[i] != []
    ensures Idles(Calls(cb), pieces)
  {
    forall i: nat, st: State | i < |pieces| ensures IdlesBy(Calls(cb), st, pieces[i]) {
      if st.phase != Idle {
        CallIdles(cb, st, pieces[i]);
      }
    }
  }

  lemma DisturbedLost(cb: Setting, m: bytes, pieces: seq<bytes>, j: nat)
    requires WholeRequest(cb.lines, m) && SafePieces(cb.lines, m, pieces) && !cb.begin && cb.complete
    requires 0 < j < |pieces| && Intrudes(cb.lines, pieces[j]) && Calm(cb.lines, pieces, j)
    ensures Lost(Executed(Calls(cb), pieces))
  {
    IntruderStrikes(cb, m, pieces, j);
    AllIdle(cb, pieces);
    LostFrom(Calls(cb), pieces, j + 1);
  }

  lemma LostFrom(call: Caller, pieces: seq<bytes>, j: nat)
    requires j <= |pieces| && Idles(call, pieces)
    requires var r := Executed(call, pieces[..j]); r.ok ==> r.st.phase != Idle && 1 <= Count(r.es, Complete)
    ensures Lost(Executed(call, pieces))
  {
    LostStays(call, pieces, j, |pieces|);
    assert pieces[..|pieces|] == pieces;
  }

  lemma LostIsNotTold(cb: Setting, msg: Message, r: Ran)
    requires cb.complete && Lost(r)
    ensures !ToldOnce(cb, msg, r)
  {
    if ToldOnce(cb, msg, r) {
      StreamTotals(r.es, Trace(cb, msg));
      TraceCompletes(cb, msg);
    }
  }

  lemma TraceCompletes(cb: Setting, msg: Message)
    ensures Count(Trace(cb, msg), Complete) <= 1
  {
    var n, h, b, c := HeaderTrace(cb, msg.headers), When(cb.headers, HeadersDone), When(cb.body, BodyPart(msg.body)), When(cb.complete, Complete);
    HeadersDoNotComplete(cb, msg.headers);
    OneEvent(HeadersDone);
    OneEvent(BodyPart(msg.body));
    OneEvent(Complete);
    CompletesAdd(b, c);
    CompletesAdd(h, b + c);
    CompletesAdd(n, h + (b + c));
  }

  lemma {:induction false} HeadersDoNotComplete(cb: Setting, hs: seq<Header>)
    ensures Count(HeaderTrace(cb, hs), Complete) == 0
  {
    if hs != [] {
      var f, v := When(cb.field, Field(hs[0].name)), When(cb.value, Value(hs[0].value));
      HeadersDoNotComplete(cb, hs[1..]);
      OneEvent(Field(hs[0].name));
      OneEvent(Value(hs[0].value));
      CompletesAdd(f, v);
      CompletesAdd(f + v, HeaderTrace(cb, hs[1..]));
    }
  }

  // ----------------------------------------------------------------- the exact condition

  lemma OnePieceTold(cb: Setting, m: bytes, pieces: seq<bytes>, msg: Message)
    requires ParseMessage(cb.lines, Request, m) == Accepted(msg) && Concat(pieces) == m && |pieces| == 1 && !Silent(cb)
    ensures ToldOnce(cb, msg, Executed(Calls(cb), pieces))
    ensures Executed(Calls(cb), pieces).st == Applied(FRESH, msg.start.req, msg.meta, AllFlags(NO_FLAGS, msg.headers)).(done := true)
  {
    AcceptedNonEmpty(cb.lines, Request, m);
    OnePieceIs(m, pieces);
    FastTellsTheMessage(Stream, cb.lines, cb, m, msg);
    FastStart(cb, msg, RequestParts(cb.lines, m, msg));
    FastErrIs(cb.lines, m);
    assert Calls(cb)(FRESH, m) == WholeCall(cb, FRESH, m, msg);
    OneCall(Calls(cb), m);
  }

  /** What a caller can check of the pieces of `m`: the request line comes in the first piece, or nobody
      is told MessageBegin; no cut spoils the target; no cut falls inside a header value, or names and
      values are not both told; the first piece does not hold a whole chunked head, or nothing of it is
      told; and no later piece is a request of its own, or MessageBegin is told. */
  ghost predicate PiecesSuit(cb: Setting, m: bytes, pieces: seq<bytes>, target: bytes)
    requires CrlfFrom(m, 0).Some? && pieces != []
  {
    && LineTold(cb, m, pieces, target) && ValuesInPlace(cb, m, pieces) && HeadSuits(cb, pieces[0])
    && (Silent(cb) || cb.begin || Undisturbed(cb.lines, pieces))
  }

  lemma AllPass(cb: Setting, pieces: seq<bytes>)
    requires Silent(cb) || cb.begin || Undisturbed(cb.lines, pieces)
    ensures forall i | 0 < i < |pieces| :: Passes(cb, pieces[i])
  {
    forall i | 0 < i < |pieces| ensures Passes(cb, pieces[i]) {
      if !Silent(cb) && !cb.begin {
        assert !Intrudes(cb.lines, pieces[i]);
      }
    }
  }

  lemma OneSuits(cb: Setting, m: bytes, pieces: seq<bytes>)
    requires CrlfFrom(m, 0).Some? && Concat(pieces) == m && |pieces| == 1
    ensures CrlfFrom(m, 0).value < |pieces[0]| && ValuesUncut(m, pieces)
    ensures forall end: int :: TargetUncut(pieces, end, CrlfFrom(m, 0).value)
  {
    OnePieceIs(m, pieces);
    CrlfFound(m, 0);
  }

  /** Through Execute, an accepted request in safe pieces is told once, and as it is, if it comes in one
      piece or its pieces suit; with a MessageBegin or a MessageComplete callback, only then. */
  lemma ToldOnceExactly(cb: Setting, m: bytes, pieces: seq<bytes>, msg: Message)
    requires WholeRequest(cb.lines, m) && SafePieces(cb.lines, m, pieces) && PlainValues(cb.lines) && PlainTargets(cb.lines)
    requires ParseMessage(cb.lines, Request, m) == Accepted(msg)
    ensures pieces != [] && CrlfFrom(m, 0).Some? && msg.start.Req?
    ensures |pieces| == 1 || PiecesSuit(cb, m, pieces, msg.start.req.target) ==> ToldOnce(cb, msg, Executed(Calls(cb), pieces))
    ensures (cb.begin || cb.complete) && ToldOnce(cb, msg, Executed(Calls(cb), pieces)) ==>
              |pieces| == 1 || PiecesSuit(cb, m, pieces, msg.start.req.target)
  {
    AcceptedNonEmpty(cb.lines, Request, m);
    MachineTold(cb, m, pieces, msg);
    if |pieces| == 1 && !Silent(cb) {
      OnePieceTold(cb, m, pieces, msg);
    } else if Silent(cb) || cb.begin || Undisturbed(cb.lines, pieces) {
      AllPass(cb, pieces);
      PassedTold(cb, m, pieces, msg);
      if |pieces| == 1 {
        OneSuits(cb, m, pieces);
      }
    } else if cb.complete {
      var n :| 0 < n < |pieces| && Intrudes(cb.lines, pieces[n]);
      var j := FirstIntruder(cb.lines, pieces, n);
      DisturbedLost(cb, m, pieces, j);
      LostIsNotTold(cb, msg, Executed(Calls(cb), pieces));
    }
  }

  // ------------------------------------------------------------------ completion in time

  /** The message is complete with the last piece, the parser waits for the next one, and no earlier
      call has completed anything. */
  ghost predicate OnTime(cb: Setting, pieces: seq<bytes>) {
    && (forall j | 0 < j < |pieces| :: !Executed(Calls(cb), pieces[..j]).st.done)
    && var r := Executed(Calls(cb), pieces); r.ok && r.st.done && r.st.phase == Idle
  }

  lemma NotDoneBefore(cb: Setting, m: bytes, pieces: seq<bytes>, j: nat)
    requires WholeRequest(cb.lines, m) && SafePieces(cb.lines, m, pieces) && 0 < j <= |pieces| && (Silent(cb) || 1 < |pieces|)
    requires Silent(cb) || cb.begin || Undisturbed(cb.lines, pieces)
    ensures var r := Executed(Calls(cb), pieces[..j]); r.ok && (r.st.done <==> j == |pieces|) && (r.st.phase == Idle <==> j == |pieces|)
  {
    AllPass(cb, pieces);
    var e := RunNear(cb, m, pieces, j);
    IncrementalRefinesOneShot(cb, m, pieces, j);
  }

  lemma IntruderIsEarly(cb: Setting, m: bytes, pieces: seq<bytes>, j: nat)
    requires WholeRequest(cb.lines, m) && SafePieces(cb.lines, m, pieces) && !cb.begin && !Silent(cb)
    requires 0 < j < |pieces| && Intrudes(cb.lines, pieces[j]) && Calm(cb.lines, pieces, j)
    ensures !OnTime(cb, pieces)
  {
    IntruderStrikes(cb, m, pieces, j);
    FailureStays(Calls(cb), pieces, j + 1, |pieces|);
    assert pieces[..|pieces|] == pieces;
  }

  lemma {:induction false} FailureStays(call: Caller, pieces: seq<bytes>, j: nat, n: nat)
    requires j <= n <= |pieces|
    ensures Executed(call, pieces[..n]).ok ==> Executed(call, pieces[..j]).ok
    decreases n
  {
    if j < n {
      FailureStays(call, pieces, j, n - 1);
      ExecutedNext(call, pieces, n - 1);
    }
  }

  /** Whichever callbacks are set, an accepted request in safe pieces is completed in time if and only if
      it comes in one piece, no later piece is taken or failed as a request of its own, or that is not
      tried, because MessageBegin is set or nothing is. */
  lemma OnTimeExactly(cb: Setting, m: bytes, pieces: seq<bytes>)
    requires WholeRequest(cb.lines, m) && SafePieces(cb.lines, m, pieces)
    ensures OnTime(cb, pieces) <==> |pieces| == 1 || Silent(cb) || cb.begin || Undisturbed(cb.lines, pieces)
  {
    AcceptedNonEmpty(cb.lines, Request, m);
    assert pieces[..|pieces|] == pieces;
    if |pieces| == 1 && !Silent(cb) {
      OnePieceTold(cb, m, pieces, ParseMessage(cb.lines, Request, m).msg);
    } else if Silent(cb) || cb.begin || Undisturbed(cb.lines, pieces) {
      forall j | 0 < j < |pieces| ensures !Executed(Calls(cb), pieces[..j]).st.done {
        NotDoneBefore(cb, m, pieces, j);
      }
      NotDoneBefore(cb, m, pieces, |pieces|);
    } else {
      var n :| 0 < n < |pieces| && Intrudes(cb.lines, pieces[n]);
      var j := FirstIntruder(cb.lines, pieces, n);
      IntruderIsEarly(cb, m, pieces, j);
    }
  }

  // -------------------------------------------------------------------------- Upgrade

  ghost predicate KeepsUpgradeAt(step: Stepper, st: State, buf: bytes, p: nat) {
    p < |buf| ==> UpgradeIn(step(st, buf, p)) == st.upgrade
  }

  function UpgradeIn(t: Turn): (u: bool) {
    match t
    case Go(st', _) => st'.upgrade
    case Stop(o) => o.st.upgrade
  }

  lemma LineKeepsUpgrade(cb: Setting, st: State, line: bytes, buf: bytes, k: nat)
    requires k <= |buf|
    ensures UpgradeIn(TakeLine(cb, st, line, buf, k)) == st.upgrade
  {
  }

  lemma LineTurnKeepsUpgrade(cb: Setting, st: State, buf: bytes, p: nat)
    requires p < |buf|
    ensures UpgradeIn(LineTurn(cb, st, buf, p)) == st.upgrade
  {
    if CrlfFrom(buf, p).Some? {
      var i := CrlfFrom(buf, p).value;
      var line := st.scratch + buf[p..i];
      LineKeepsUpgrade(cb, Holding(st, line), line, buf, i + 2);
    }
  }

  lemma StepsKeepUpgrade(cb: Setting, st: State, buf: bytes, p: nat)
    ensures KeepsUpgradeAt(Steps(cb), st, buf, p)
  {
    if p < |buf| {
      if InLine(st) {
        LineTurnKeepsUpgrade(cb, st, buf, p);
      }
      StepsAre(cb, st, buf, p, Step(cb, st, buf, p));
    }
  }

  lemma {:induction false} LoopKeepsUpgrade(step: Stepper, st: State, buf: bytes, p: nat)
    requires Advances(step)
    requires forall st': State, p': nat {:trigger KeepsUpgradeAt(step, st', buf, p')} :: KeepsUpgradeAt(step, st', buf, p')
    ensures Loop(step, st, buf, p).st.upgrade == st.upgrade
    decreases |buf| - p
  {
    if p < |buf| {
      assert KeepsUpgradeAt(step, st, buf, p);
      if step(st, buf, p).Go? {
        LoopKeepsUpgrade(step, step(st, buf, p).st, buf, step(st, buf, p).next);
      }
    }
  }

  /** The machine never touches Upgrade. */
  lemma FeedKeepsUpgrade(cb: Setting, st: State, buf: bytes)
    ensures Feed(cb, st, buf).st.upgrade == st.upgrade
  {
    StepsAdvance(cb);
    forall st': State, p': nat ensures KeepsUpgradeAt(Steps(cb), st', buf, p') { StepsKeepUpgrade(cb, st', buf, p'); }
    LoopKeepsUpgrade(Steps(cb), Start(st), buf, 0);
  }

  /** What the first piece lets the parser know. */
  predicate KnownAtOnce(cb: Setting, first: bytes) {
    TellsHead(cb, first) && var h := HeadIn(cb.lines, first).value; Upgrades(h.line.verb, AllFlags(NO_FLAGS, h.headers))
  }

  lemma FirstUpgrade(cb: Setting, m: bytes, b: bytes)
    requires Accepts(cb.lines, Request, m) && b <= m && b != [] && (Silent(cb) || b != m)
    ensures Calls(cb)(FRESH, b).st.upgrade == KnownAtOnce(cb, b)
  {
    if TellsHead(cb, b) {
      var h := HeadIn(cb.lines, b).value;
      FirstTells(cb, m, b, h);
      FeedKeepsUpgrade(cb, HeadApplied(FRESH, h), b);
    } else {
      FeedKeepsUpgrade(cb, FRESH, b);
      if Silent(cb) {
        LaterFeeds(cb, FRESH, b);
      } else {
        FirstFeeds(cb, m, b);
      }
    }
  }

  lemma {:induction false} RunUpgrade(cb: Setting, m: bytes, pieces: seq<bytes>, j: nat)
    requires WholeRequest(cb.lines, m) && SafePieces(cb.lines, m, pieces) && 0 < j <= |pieces| && (Silent(cb) || 1 < |pieces|)
    requires Silent(cb) || cb.begin || Undisturbed(cb.lines, pieces)
    ensures Executed(Calls(cb), pieces[..j]).st.upgrade == KnownAtOnce(cb, pieces[0])
    decreases j
  {
    if j == 1 {
      OneSeries(Calls(cb), Feeds(cb), Speaks(cb), pieces);
      if 1 < |pieces| {
        FirstPart(m, pieces);
      } else {
        OnePieceIs(m, pieces);
      }
      FirstUpgrade(cb, m, pieces[0]);
    } else {
      RunUpgrade(cb, m, pieces, j - 1);
      LaterUpgrade(cb, m, pieces, j - 1);
    }
  }

  lemma LaterUpgrade(cb: Setting, m: bytes, pieces: seq<bytes>, j: nat)
    requires WholeRequest(cb.lines, m) && SafePieces(cb.lines, m, pieces) && 0 < j < |pieces|
    requires Silent(cb) || cb.begin || Undisturbed(cb.lines, pieces)
    ensures Executed(Calls(cb), pieces[..j + 1]).st.upgrade == Executed(Calls(cb), pieces[..j]).st.upgrade
  {
    var x := Executed(Calls(cb), pieces[..j]).st;
    AllPass(cb, pieces);
    var e := RunNear(cb, m, pieces, j);
    IncrementalRefinesOneShot(cb, m, pieces, j);
    if cb.begin {
      StartedBetween(cb, m, pieces, j);
    }
    assert Passes(cb, pieces[j]);
    LaterFeeds(cb, x, pieces[j]);
    FeedKeepsUpgrade(cb, x, pieces[j]);
    ExecutedNext(Calls(cb), pieces, j);
  }

  lemma HeadSaysAll(g: LineGrammar, m: bytes, pieces: seq<bytes>, msg: Message, h: ChunkedHead)
    requires ParseMessage(g, Request, m) == Accepted(msg) && Concat(pieces) == m && (forall i | 0 <= i < |pieces| :: pieces[i] != [])
    requires 1 < |pieces| && HeadIn(g, pieces[0]) == Some(h)
    ensures msg.start == Req(h.line) && msg.headers == h.headers
  {
    var b, i := pieces[0], CrlfFrom(m, 0).value;
    HeadLine(g, m, pieces, msg, h);
    FirstPart(m, pieces);
    CrlfPrefix(m, 0, |b|);
    assert b[0..i] == m[..i];
    HeadersPrefix(g, StartMeta(msg.start), m, i + 2, |b|);
  }

  /** applyParsedMessage and applyFastRequestResult set Upgrade for CONNECT and for a request with both
      upgrade headers. */
  predicate MessageUpgrades(msg: Message)
    requires msg.start.Req?
  {
    Upgrades(msg.start.req.verb, AllFlags(NO_FLAGS, msg.headers))
  }

  /** Through Execute from a fresh parser, Upgrade says what the whole message says if and only if that is
      nothing, or the request comes in one piece or with a whole chunked head in the first. */
  lemma UpgradeExactly(cb: Setting, m: bytes, pieces: seq<bytes>, msg: Message)
    requires WholeRequest(cb.lines, m) && SafePieces(cb.lines, m, pieces) && ParseMessage(cb.lines, Request, m) == Accepted(msg)
    requires Silent(cb) || cb.begin || Undisturbed(cb.lines, pieces)
    ensures pieces != [] && msg.start.Req?
    ensures Executed(Calls(cb), pieces).st.upgrade == MessageUpgrades(msg)
            <==> !MessageUpgrades(msg) || (!Silent(cb) && (|pieces| == 1 || HeadIn(cb.lines, pieces[0]).Some?))
  {
    AcceptedNonEmpty(cb.lines, Request, m);
    assert pieces[..|pieces|] == pieces;
    if |pieces| == 1 && !Silent(cb) {
      OnePieceTold(cb, m, pieces, msg);
    } else {
      RunUpgrade(cb, m, pieces, |pieces|);
      if TellsHead(cb, pieces[0]) {
        HeadSaysAll(cb.lines, m, pieces, msg, HeadIn(cb.lines, pieces[0]).value);
      }
    }
  }
}
