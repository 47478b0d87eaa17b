/** Exactly when tryFastSplitRequest tells the headers of a request as they are: a call that ends inside
    a value tells the part it has before the name of its header, so a consumer hears it behind the
    header before. */
module ValueCuts {
  import opened Bytes
  import opened Grammar
  import opened Reference
  import opened Events
  import opened Machine
  import opened Split
  import opened SplitEvents
  import opened Incremental
  import opened MessageEvents
  import opened Consumers

  /** `k` lies behind the first value byte of a header line from `p` on, and not behind the line. */
  predicate CutsValueFrom(m: bytes, p: nat, k: nat)
    requires p <= |m|
    decreases |m| - p
  {
    match CrlfFrom(m, p)
    case None => false
    case Some(i) => if k <= i then p < k && PartialValue(m[p..k]) != [] else i != p && CutsValueFrom(m, i + 2, k)
  }

  /** A cut at `k` leaves a header line of the request with a part of its value before the cut. */
  predicate CutsValue(m: bytes, k: nat) {
    CrlfFrom(m, 0).Some? && CrlfFrom(m, 0).value < k && CutsValueFrom(m, CrlfFrom(m, 0).value + 2, k)
  }

  // --------------------------------------------------------- where the machine then stands

  /** A header line of which a part of the value has arrived. */
  predicate InValue(st: State) {
    st.phase == HeaderPhase && PartialValue(st.scratch) != []
  }

  predicate BehindHead(st: State) {
    st.phase == BodyPhase || st.phase == ChunkSizePhase || st.phase == ChunkDataPhase || st.phase == Idle
  }

  ghost predicate StaysBehindAt(step: Stepper, st: State, buf: bytes, p: nat) {
    p < |buf| && BehindHead(st) ==>
      match step(st, buf, p)
      case Go(st', _) => BehindHead(st')
      case Stop(o) => BehindHead(o.st)
  }

  lemma StepsStayBehind(cb: Setting, st: State, buf: bytes, p: nat)
    ensures StaysBehindAt(Steps(cb), st, buf, p)
  {
  }

  lemma {:induction false} LoopStaysBehind(step: Stepper, st: State, buf: bytes, p: nat)
    requires Advances(step) && BehindHead(st)
    requires forall st': State, p': nat {:trigger StaysBehindAt(step, st', buf, p')} :: StaysBehindAt(step, st', buf, p')
    ensures BehindHead(Loop(step, st, buf, p).st)
    decreases |buf| - p
  {
    if p < |buf| {
      assert StaysBehindAt(step, st, buf, p);
      if step(st, buf, p).Go? {
        LoopStaysBehind(step, step(st, buf, p).st, buf, step(st, buf, p).next);
      }
    }
  }

  /** What the calls rely on to know where they end. */
  ghost predicate Leads(cb: Setting, step: Stepper, c: bytes) {
    && Advances(step) && ReadsHead(cb, step, c)
    && forall st: State, p: nat {:trigger StaysBehindAt(step, st, c, p)} :: StaysBehindAt(step, st, c, p)
  }

  lemma StepsLead(cb: Setting, c: bytes)
    ensures Leads(cb, Steps(cb), c)
  {
    StepsAdvance(cb);
    forall st: State, p: nat ensures HeadTurns(cb, Steps(cb), c, st, p) { StepsHead(cb, c, st, p); }
    forall st: State, p: nat ensures StaysBehindAt(Steps(cb), st, c, p) { StepsStayBehind(cb, st, c, p); }
  }

  lemma OpenStands(cb: Setting, step: Stepper, st: State, m: bytes, k: nat, p: nat, i: nat)
    requires p < k <= |m| && CrlfFrom(m, p) == Some(i) && k <= i && i - p <= SCRATCH
    requires st.phase == HeaderPhase && st.scratch == [] && OpenTurns(cb, step, m[..k], st, p)
    ensures InValue(Loop(step, st, m[..k], p).st) <==> PartialValue(m[p..k]) != []
  {
    CrlfPrefix(m, p, k);
    assert m[..k][p..] == m[p..k];
  }

  lemma EndStands(cb: Setting, step: Stepper, st: State, m: bytes, k: nat, p: nat)
    requires CrlfAt(m, p) && p + 2 <= k <= |m| && st.phase == HeaderPhase && st.scratch == [] && Leads(cb, step, m[..k])
    ensures BehindHead(Loop(step, st, m[..k], p).st)
  {
    HeadTurnAt(cb, step, m[..k], st, p);
    EmptyLineRun(cb, step, st, m, k, p);
    match EndHeaders(st, p + 2, k)
    case Go(st', next) => LoopStaysBehind(step, st', m[..k], next);
    case Stop(_) =>
  }

  lemma CutIsSafe(g: LineGrammar, st: State, meta: Meta, m: bytes, p: nat, k: nat)
    requires AtHeader(g, st, meta, m, p) && p < k && SafeFrom(g, meta, m, p, k)
    ensures CrlfFrom(m, p).Some? && CrlfFrom(m, p).value - p <= SCRATCH && k != CrlfFrom(m, p).value + 1
    ensures CrlfAt(m, p) <==> CrlfFrom(m, p).value == p
  {
    HeaderHere(g, meta, m, p);
    CrlfFound(m, p);
    if k < CrlfFrom(m, p).value + 2 {
      InsideHead(g, meta, m, p, k);
    }
    if CrlfAt(m, p) {
      CrlfIs(m, p, p);
    }
  }

  /** A call that ends at `k` has told a part of a value exactly when `k` cuts one. */
  lemma {:induction false} HeadersStand(cb: Setting, step: Stepper, st: State, meta: Meta, m: bytes, k: nat, p: nat)
    requires p <= k <= |m| && AtHeader(cb.lines, st, meta, m, p) && Leads(cb, step, m[..k])
    requires SafeFrom(cb.lines, meta, m, p, k)
    ensures InValue(Loop(step, st, m[..k], p).st) <==> CutsValueFrom(m, p, k)
    decreases |m| - p
  {
    PartialValueNone();
    if p < k {
      CutIsSafe(cb.lines, st, meta, m, p, k);
      var i := CrlfFrom(m, p).value;
      if k <= i {
        HeadTurnAt(cb, step, m[..k], st, p);
        OpenStands(cb, step, st, m, k, p, i);
      } else if i == p {
        EndStands(cb, step, st, m, k, p);
      } else {
        var st', meta', next := HeaderPassed(cb, step, st, meta, m, k, p);
        HeadersStand(cb, step, st', meta', m, k, next);
      }
    } else {
      HeaderHere(cb.lines, meta, m, p);
    }
  }

  /** Where the machine stands after a safe part of a request. */
  lemma CutStands(cb: Setting, m: bytes, k: nat)
    requires WholeRequest(cb.lines, m) && 0 < k < |m| && SafeCut(cb.lines, m, k)
    ensures InValue(Run(cb, Start(FRESH), m[..k], 0).st) <==> CutsValue(m, k)
  {
    var i, l, meta := HeadOf(cb.lines, m, k);
    StepsLead(cb, m[..k]);
    if k < i + 2 {
      StepsOpen(cb, m[..k], Start(FRESH), 0);
      CrlfPrefix(m, 0, k);
    } else {
      CrlfPrefix(m, 0, k);
      assert m[..k][0..i] == m[0..i];
      RequestLineTurn(cb, m[..k], i, l);
      CrlfFound(m, 0);
      HeadersStand(cb, Steps(cb), Steps(cb)(Start(FRESH), m[..k], 0).st, meta, m, k, i + 2);
    }
  }

  // ------------------------------------------------------------ a cut value is overtold

  lemma OpenTells(cb: Setting, st: State, m: bytes, k: nat, p: nat, i: nat)
    requires p < k <= |m| && CrlfFrom(m, p) == Some(i) && k <= i && i - p <= SCRATCH
    requires st.phase == HeaderPhase && st.scratch == [] && st.told.value == 0
    ensures Tale(Steps(cb), Tells(cb), st, m[..k], p) == ValueRest(cb.value, PartialValue(m[p..k]), 0)
  {
    CrlfPrefix(m, p, k);
    assert m[..k][p..] == m[p..k];
    OpenTale(cb, st, m[..k], p, m[p..k]);
  }

  lemma OpenTale(cb: Setting, st: State, c: bytes, p: nat, line: bytes)
    requires p < |c| && CrlfFrom(c, p).None? && line == c[p..] && |line| <= SCRATCH
    requires st.phase == HeaderPhase && st.scratch == [] && st.told.value == 0
    ensures Tale(Steps(cb), Tells(cb), st, c, p) == ValueRest(cb.value, PartialValue(line), 0)
  {
    EmptyAppend(line);
    OpenSays(cb, st, c, p, line);
    OpenTurn(cb, st, c, p);
    TellsAre(cb, st, c, p, ValueRest(cb.value, PartialValue(line), 0));
    EmptyAppend(ValueRest(cb.value, PartialValue(line), 0));
  }

  lemma OpenOvertold(v: bytes, hs: seq<Header>)
    requires v != []
    ensures Overtold(ValueRest(true, v, 0), hs)
  {
    ValueParts(true, v, 0);
    assert hs[..0] == [];
  }

  /** One header in front. */
  lemma OvertoldBehind(h: Header, es: seq<Event>, hs: seq<Header>)
    requires Overtold(es, hs)
    ensures Overtold([Field(h.name)] + ValueRest(true, h.value, 0) + es, [h] + hs)
  {
    var f, v := [Field(h.name)], ValueRest(true, h.value, 0);
    OneEvent(Field(h.name));
    ValueParts(true, h.value, 0);
    JoinedParts(f, v);
    JoinedParts(f + v, es);
    var n := |Names(es)|;
    assert ([h] + hs)[..n + 1] == [h] + hs[..n];
    TotalAppend([h], hs[..n]);
    TotalOne(h);
  }

  lemma {:induction false} HeadersOvertold(cb: Setting, st: State, meta: Meta, m: bytes, k: nat, p: nat)
    requires p <= k <= |m| && AtHeader(cb.lines, st, meta, m, p) && cb.field && cb.value
    requires SafeFrom(cb.lines, meta, m, p, k) && CutsValueFrom(m, p, k) && PlainValues(cb.lines)
    ensures Overtold(Tale(Steps(cb), Tells(cb), st, m[..k], p), HeadersOf(cb.lines, meta, m, p))
    decreases |m| - p
  {
    HeaderHere(cb.lines, meta, m, p);
    var i := CrlfFrom(m, p).value;
    if k <= i {
      OpenTells(cb, st, m, k, p, i);
      OpenOvertold(PartialValue(m[p..k]), HeadersOf(cb.lines, meta, m, p));
    } else {
      var h, st', meta', next := HeaderSteps(cb, st, meta, m, k, p);
      HeadersOvertold(cb, st', meta', m, k, next);
      OvertoldBehind(h, Tale(Steps(cb), Tells(cb), st', m[..k], next), HeadersOf(cb.lines, meta', m, next));
    }
  }

  /** A header line before the cut, read and told. */
  lemma HeaderSteps(cb: Setting, st: State, meta: Meta, m: bytes, k: nat, p: nat) returns (h: Header, st': State, meta': Meta, next: nat)
    requires p <= k <= |m| && AtHeader(cb.lines, st, meta, m, p) && SafeFrom(cb.lines, meta, m, p, k)
    requires CrlfFrom(m, p).Some? && CrlfFrom(m, p).value < k && CutsValueFrom(m, p, k)
    ensures p < next <= k && AtHeader(cb.lines, st', meta', m, next) && SafeFrom(cb.lines, meta', m, next, k) && CutsValueFrom(m, next, k)
    ensures Tale(Steps(cb), Tells(cb), st, m[..k], p) ==
            When(cb.field, Field(h.name)) + ValueRest(cb.value, h.value, 0) + Tale(Steps(cb), Tells(cb), st', m[..k], next)
    ensures HeadersOf(cb.lines, meta, m, p) == [h] + HeadersOf(cb.lines, meta', m, next)
  {
    var i, facts, length;
    i, h, facts, length, meta' := HeaderPlace(cb, st, meta, m, k, p);
    st', next := st.(facts := facts, length := length), i + 2;
    HeaderTold(cb, st, m, k, p, i, h, facts, length);
  }

  lemma HeaderPlace(cb: Setting, st: State, meta: Meta, m: bytes, k: nat, p: nat)
      returns (i: nat, h: Header, facts: Facts, length: int, meta': Meta)
    requires p <= k <= |m| && AtHeader(cb.lines, st, meta, m, p) && SafeFrom(cb.lines, meta, m, p, k)
    requires CrlfFrom(m, p).Some? && CrlfFrom(m, p).value < k && CutsValueFrom(m, p, k)
    ensures p < i && i + 2 <= k && CrlfFrom(m, p) == Some(i) && cb.lines.header(m[p..i]) == Some(h)
    ensures NoteHeader(st.facts, st.length, h) == Some((facts, length)) && CutsValueFrom(m, i + 2, k)
    ensures AtHeader(cb.lines, st.(facts := facts, length := length), meta', m, i + 2) && SafeFrom(cb.lines, meta', m, i + 2, k)
    ensures HeadersOf(cb.lines, meta, m, p) == [h] + HeadersOf(cb.lines, meta', m, i + 2)
  {
    CutIsSafe(cb.lines, st, meta, m, p, k);
    i, h, facts, length, meta' := HeaderNoted(cb.lines, st, meta, m, k, p);
    RestSame(cb, meta, m, p, h, meta', i + 2);
  }

  /** One header line that the prefix holds, told. */
  lemma HeaderTold(cb: Setting, st: State, m: bytes, k: nat, p: nat, i: nat, h: Header, facts: Facts, length: int)
    requires p < i && i + 2 <= k <= |m| && CrlfFrom(m, p) == Some(i) && cb.lines.header(m[p..i]) == Some(h)
    requires NoteHeader(st.facts, st.length, h) == Some((facts, length))
    requires st.phase == HeaderPhase && st.scratch == [] && st.told.value == 0
    ensures Tale(Steps(cb), Tells(cb), st, m[..k], p) ==
            When(cb.field, Field(h.name)) + ValueRest(cb.value, h.value, 0)
            + Tale(Steps(cb), Tells(cb), st.(facts := facts, length := length), m[..k], i + 2)
  {
    CrlfPrefix(m, p, k);
    assert m[..k][p..i] == m[p..i];
    StepsHead(cb, m[..k], st, p);
    StepsTell(cb, m[..k], st, p);
    HeaderTale(cb, Steps(cb), Tells(cb), st, m[..k], p, i, h, facts, length);
  }

  lemma StartBehind(x: seq<Event>, es: seq<Event>, hs: seq<Header>)
    requires Overtold(es, hs) && Alike(Totals, x, [])
    ensures Overtold(x + es, hs)
  {
    JoinedParts(x, es);
    EmptyAppend(Names(es));
    EmptyAppend(Values(es));
  }

  /** A call on a part of a request that ends in a value tells more value bytes than belong to the names. */
  lemma CutOvertold(cb: Setting, m: bytes, k: nat)
    requires WholeRequest(cb.lines, m) && 0 < k < |m| && SafeCut(cb.lines, m, k) && CutsValue(m, k)
    requires cb.field && cb.value && PlainValues(cb.lines)
    ensures Overtold(Says(cb, Start(FRESH), m[..k], 0), ParseMessage(cb.lines, Request, m).msg.headers)
  {
    var i, l, meta := HeadOf(cb.lines, m, k);
    HeadOfCut(cb.lines, m, k, i, meta);
    CrlfPrefix(m, 0, k);
    assert m[..k][0..i] == m[0..i];
    RequestLineTurn(cb, m[..k], i, l);
    RequestLineTale(Totals, cb, m[..k], i, l);
    CrlfFound(m, 0);
    var st := Steps(cb)(Start(FRESH), m[..k], 0).st;
    HeadersOvertold(cb, st, meta, m, k, i + 2);
    StartBehind(Tells(cb)(Start(FRESH), m[..k], 0), Tale(Steps(cb), Tells(cb), st, m[..k], i + 2), HeadersOf(cb.lines, meta, m, i + 2));
  }

  lemma HeadOfCut(g: LineGrammar, m: bytes, k: nat, i: nat, meta: Meta)
    requires WholeRequest(g, m) && CrlfFrom(m, 0) == Some(i) && CutsValue(m, k) && SafeCut(g, m, k) && 0 < k < |m|
    requires meta == Meta(Request, 0, false, 0, false)
    ensures i + 2 <= k && ParseMessage(g, Request, m).msg.headers == HeadersOf(g, meta, m, i + 2)
  {
    var i', l, meta' := HeadOf(g, m, k);
  }

  // ------------------------------------------------------------------------- all pieces

  /** No cut falls behind the first value byte of a header line and before the end of the line. */
  ghost predicate ValuesUncut(m: bytes, pieces: seq<bytes>) {
    forall j | 0 < j < |pieces| :: !CutsValue(m, |Concat(pieces[..j])|)
  }

  /** The callbacks of a request come as a stream with each value behind its name. */
  ghost predicate ValuesInPlace(cb: Setting, m: bytes, pieces: seq<bytes>) {
    cb.field && cb.value ==> ValuesUncut(m, pieces)
  }

  lemma PieceStands(cb: Setting, m: bytes, pieces: seq<bytes>, j: nat)
    requires WholeRequest(cb.lines, m) && SafePieces(cb.lines, m, pieces) && 0 < j < |pieces|
    ensures SmoothAfter(Stream, cb, FRESH, pieces, j) <==> !cb.field || !cb.value || !CutsValue(m, |Concat(pieces[..j])|)
  {
    PieceCut(m, pieces, j);
    CutStands(cb, m, |Concat(pieces[..j])|);
  }

  lemma TraceHeard(cb: Setting, msg: Message)
    requires cb.field && cb.value
    ensures Hear(Trace(cb, msg)) == Heard([], msg.headers)
  {
    var rest := When(cb.headers, HeadersDone) + BodyTrace(cb, msg.body);
    HearAppend(NOTHING, HeaderTrace(cb, msg.headers), rest);
    HeadersHeard(cb, [], msg.headers);
    EmptyAppend(msg.headers);
    RestUnheard(cb, Heard([], msg.headers), msg.body);
  }

  lemma RestUnheard(cb: Setting, h: Heard, body: bytes)
    ensures HearFrom(h, When(cb.headers, HeadersDone) + BodyTrace(cb, body)) == h
  {
    var a, b, c := When(cb.headers, HeadersDone), When(cb.body, BodyPart(body)), When(cb.complete, Complete);
    HearAppend(h, a, b + c);
    HearAppend(h, b, c);
    OneUnheard(h, cb.headers, HeadersDone);
    OneUnheard(h, cb.body, BodyPart(body));
    OneUnheard(h, cb.complete, Complete);
  }

  lemma OneUnheard(h: Heard, c: bool, e: Event)
    requires !e.Field? && !e.Value?
    ensures HearFrom(h, When(c, e)) == h
  {
    assert [e][1..] == [] && Listen(h, e) == h && HearFrom(h, [e][1..]) == h;
  }

  lemma HeaderHeard(done: seq<Header>, h: Header)
    ensures HearFrom(Heard([], done), [Field(h.name)] + [Value(h.value)]) == Heard([], done + [h])
  {
    var es := [Field(h.name)] + [Value(h.value)];
    assert es[1..] == [Value(h.value)] && es[1..][1..] == [];
    var h1 := Heard([], done + [Header(h.name, [])]);
    assert Listen(Heard([], done), es[0]) == h1;
    assert h1.headers[..|done|] == done;
    EmptyAppend(h.value);
    assert Listen(h1, Value(h.value)) == Heard([], done + [h]);
    assert HearFrom(h1, [Value(h.value)]) == HearFrom(Listen(h1, Value(h.value)), []);
  }

  lemma {:induction false} HeadersHeard(cb: Setting, done: seq<Header>, hs: seq<Header>)
    requires cb.field && cb.value
    ensures HearFrom(Heard([], done), HeaderTrace(cb, hs)) == Heard([], done + hs)
    decreases |hs|
  {
    if hs == [] {
      EmptyAppend(done);
    } else {
      var es := [Field(hs[0].name)] + [Value(hs[0].value)];
      HeaderHeard(done, hs[0]);
      HearAppend(Heard([], done), es, HeaderTrace(cb, hs[1..]));
      HeadersHeard(cb, done + [hs[0]], hs[1..]);
      Assoc(done, [hs[0]], hs[1..]);
      assert hs == [hs[0]] + hs[1..];
    }
  }

  /** The first cut inside a value, if there is one. */
  lemma {:induction false} FirstCut(m: bytes, pieces: seq<bytes>, n: nat) returns (j: nat)
    requires 0 < n < |pieces| && CutsValue(m, |Concat(pieces[..n])|)
    ensures 0 < j < |pieces| && CutsValue(m, |Concat(pieces[..j])|) && forall i | 0 < i < j :: !CutsValue(m, |Concat(pieces[..i])|)
    decreases n
  {
    if i :| 0 < i < n && CutsValue(m, |Concat(pieces[..i])|) {
      j := FirstCut(m, pieces, i);
    } else {
      j := n;
    }
  }

  lemma {:induction false} ChronicleParts(feed: Feeder, tell: Speaker, st: State, pieces: seq<bytes>, j: nat) returns (rest: seq<Event>)
    requires j <= |pieces|
    ensures Chronicle(feed, tell, st, pieces) == Chronicle(feed, tell, st, pieces[..j]) + rest
    decreases |pieces| - j
  {
    if j == |pieces| {
      assert pieces[..j] == pieces;
      rest := [];
      EmptyAppend(Chronicle(feed, tell, st, pieces));
    } else {
      NextCall(feed, tell, st, pieces, j);
      var rest' := ChronicleParts(feed, tell, st, pieces, j + 1);
      var e := tell(Series(feed, st, pieces[..j]).st, pieces[j]);
      Assoc(Chronicle(feed, tell, st, pieces[..j]), e, rest');
      rest := e + rest';
    }
  }

  /** Up to the first cut inside a value the callbacks are those of one call, which has told too much. */
  lemma FirstCutOvertold(cb: Setting, m: bytes, pieces: seq<bytes>, j: nat)
    requires WholeRequest(cb.lines, m) && SafePieces(cb.lines, m, pieces) && PlainValues(cb.lines) && cb.field && cb.value
    requires 0 < j < |pieces| && CutsValue(m, |Concat(pieces[..j])|) && forall i | 0 < i < j :: !CutsValue(m, |Concat(pieces[..i])|)
    ensures Overtold(SaysAll(cb, FRESH, pieces[..j]), ParseMessage(cb.lines, Request, m).msg.headers)
  {
    var k := |Concat(pieces[..j])|;
    PieceCut(m, pieces, j);
    forall i | 0 < i < j ensures SmoothAfter(Stream, cb, FRESH, pieces, i) {
      PieceStands(cb, m, pieces, i);
    }
    SafePiecesUnbroken(cb, m, pieces);
    PrefixRun(cb, m, k);
    PiecesTellAsOne(Stream, cb, FRESH, pieces, j);
    StreamTotals(Says(cb, Start(FRESH), m[..k], 0), SaysAll(cb, FRESH, pieces[..j]));
    CutOvertold(cb, m, k);
  }

  /** A cut inside a value is heard: the consumer's headers are not the message's. */
  lemma CutValueHeard(cb: Setting, m: bytes, pieces: seq<bytes>)
    requires WholeRequest(cb.lines, m) && SafePieces(cb.lines, m, pieces) && PlainValues(cb.lines) && cb.field && cb.value
    requires !ValuesUncut(m, pieces)
    ensures Hear(SaysAll(cb, FRESH, pieces)) != Heard([], ParseMessage(cb.lines, Request, m).msg.headers)
  {
    var n :| 0 < n < |pieces| && CutsValue(m, |Concat(pieces[..n])|);
    var j := FirstCut(m, pieces, n);
    FirstCutOvertold(cb, m, pieces, j);
    var rest := ChronicleParts(Feeds(cb), Speaks(cb), FRESH, pieces, j);
    OvertoldShows(SaysAll(cb, FRESH, pieces[..j]), rest, ParseMessage(cb.lines, Request, m).msg.headers);
  }

  /** The machine tells a request in safe pieces as emitParsedMessage does, callback by callback with
      adjacent fragments joined, if and only if no piece ends inside a header value or not both of
      names and values are told. */
  lemma StreamExactly(cb: Setting, m: bytes, pieces: seq<bytes>)
    requires WholeRequest(cb.lines, m) && SafePieces(cb.lines, m, pieces) && PlainValues(cb.lines)
    ensures Alike(Stream, SaysAll(cb, FRESH, pieces), Trace(cb, ParseMessage(cb.lines, Request, m).msg)) <==> ValuesInPlace(cb, m, pieces)
  {
    if ValuesInPlace(cb, m, pieces) {
      forall i | 0 < i < |pieces| ensures SmoothAfter(Stream, cb, FRESH, pieces, i) {
        PieceStands(cb, m, pieces, i);
      }
      PiecesTellTheMessage(Stream, cb, m, pieces);
    } else {
      CutValueHeard(cb, m, pieces);
      TraceHeard(cb, ParseMessage(cb.lines, Request, m).msg);
      if Alike(Stream, SaysAll(cb, FRESH, pieces), Trace(cb, ParseMessage(cb.lines, Request, m).msg)) {
        StreamHeard(SaysAll(cb, FRESH, pieces), Trace(cb, ParseMessage(cb.lines, Request, m).msg));
      }
    }
  }

  /** What a consumer of names and values collects is the message's headers if and only if no piece ends
      inside a value. */
  lemma HeardExactly(cb: Setting, m: bytes, pieces: seq<bytes>)
    requires WholeRequest(cb.lines, m) && SafePieces(cb.lines, m, pieces) && PlainValues(cb.lines) && cb.field && cb.value
    ensures Hear(SaysAll(cb, FRESH, pieces)) == Heard([], ParseMessage(cb.lines, Request, m).msg.headers) <==> ValuesUncut(m, pieces)
  {
    if ValuesUncut(m, pieces) {
      StreamExactly(cb, m, pieces);
      TraceHeard(cb, ParseMessage(cb.lines, Request, m).msg);
      StreamHeard(SaysAll(cb, FRESH, pieces), Trace(cb, ParseMessage(cb.lines, Request, m).msg));
    } else {
      CutValueHeard(cb, m, pieces);
    }
  }
}
