/** After tryFastChunkedRequest has told a head and declined, the resumable machine runs as if from a
    fresh parser, except that it does not tell the target again. */
module ChunkedHeads {
  import opened Bytes
  import opened Grammar
  import opened Reference
  import opened Events
  import opened Machine
  import opened Split
  import opened SplitEvents
  import opened Incremental
  import opened MessageEvents
  import opened RequestDispatch

  // ------------------------------------------------------------------ behind the head

  /** Two states in a chunked body, or behind it, that differ only in what no turn there looks at. */
  ghost predicate Twin(x: State, y: State) {
    && x.phase == y.phase && x.scratch == y.scratch && x.done == y.done
    && x.told.started == y.told.started && x.told.value == y.told.value
    && (x.phase == ChunkSizePhase || x.phase == ChunkDataPhase || x.phase == Idle)
    && (x.phase == ChunkDataPhase ==> x.length == y.length)
  }

  ghost predicate TwinTurns(t: Turn, u: Turn) {
    match (t, u)
    case (Go(x, next), Go(y, next')) => Twin(x, y) && next == next'
    case (Stop(o), Stop(p)) => o.err == p.err && (o.err.None? ==> Twin(o.st, p.st))
    case _ => false
  }

  ghost predicate TwinsAt(step: Stepper, says: Teller, x: State, y: State, buf: bytes, p: nat) {
    p < |buf| && Twin(x, y) ==> TwinTurns(step(x, buf, p), step(y, buf, p)) && says(x, buf, p) == says(y, buf, p)
  }

  lemma SizeTwins(cb: Setting, x: State, y: State, line: bytes, buf: bytes, k: nat)
    requires k <= |buf| && Twin(x.(scratch := []), y.(scratch := [])) && x.phase == ChunkSizePhase
    ensures TwinTurns(TakeSizeLine(cb, x, line, buf, k), TakeSizeLine(cb, y, line, buf, k))
  {
  }

  lemma TakenTwins(cb: Setting, x: State, y: State, buf: bytes, p: nat, i: nat, line: bytes, t: Turn, u: Turn)
    requires p < |buf| && Twin(x, y) && x.phase == ChunkSizePhase && CrlfFrom(buf, p) == Some(i) && line == x.scratch + buf[p..i]
    requires t == TakeLine(cb, Holding(x, line), line, buf, i + 2) && u == TakeLine(cb, Holding(y, line), line, buf, i + 2)
    ensures TwinTurns(t, u)
  {
    SizeTwins(cb, Holding(x, line), Holding(y, line), line, buf, i + 2);
  }

  lemma LineTwins(cb: Setting, x: State, y: State, buf: bytes, p: nat)
    requires p < |buf| && Twin(x, y) && x.phase == ChunkSizePhase
    ensures TwinTurns(LineTurn(cb, x, buf, p), LineTurn(cb, y, buf, p))
  {
    if CrlfFrom(buf, p).Some? {
      var i := CrlfFrom(buf, p).value;
      var line := x.scratch + buf[p..i];
      if x.scratch == [] || |line| <= SCRATCH {
        LineTurnTakes(cb, x, buf, p, i, line);
        LineTurnTakes(cb, y, buf, p, i, line);
        TakenTwins(cb, x, y, buf, p, i, line, LineTurn(cb, x, buf, p), LineTurn(cb, y, buf, p));
      } else {
        TooLong(cb, x, buf, p, i);
        TooLong(cb, y, buf, p, i);
      }
    }
  }

  lemma LineSaysTwins(cb: Setting, x: State, y: State, buf: bytes, p: nat)
    requires p < |buf| && Twin(x, y) && x.phase == ChunkSizePhase
    ensures LineTurnSays(cb, x, buf, p) == LineTurnSays(cb, y, buf, p)
  {
  }

  lemma DataTwins(x: State, y: State, buf: bytes, p: nat)
    requires p < |buf| && Twin(x, y) && x.phase == ChunkDataPhase
    ensures TwinTurns(DataTurn(x, buf, p), DataTurn(y, buf, p))
  {
  }

  lemma StepTwins(cb: Setting, x: State, y: State, buf: bytes, p: nat)
    ensures TwinsAt(Steps(cb), Tells(cb), x, y, buf, p)
  {
    if p < |buf| && Twin(x, y) {
      if x.phase == ChunkSizePhase {
        LineTwins(cb, x, y, buf, p);
        LineSaysTwins(cb, x, y, buf, p);
      } else if x.phase == ChunkDataPhase {
        DataTwins(x, y, buf, p);
      }
      StepsAre(cb, x, buf, p, Step(cb, x, buf, p));
      StepsAre(cb, y, buf, p, Step(cb, y, buf, p));
      TellsAre(cb, x, buf, p, StepSays(cb, x, buf, p));
      TellsAre(cb, y, buf, p, StepSays(cb, y, buf, p));
    }
  }

  lemma {:induction false} LoopTwins(step: Stepper, says: Teller, x: State, y: State, buf: bytes, p: nat)
    requires Advances(step) && Twin(x, y)
    requires forall x': State, y': State, p': nat {:trigger TwinsAt(step, says, x', y', buf, p')} :: TwinsAt(step, says, x', y', buf, p')
    ensures var o, o' := Loop(step, x, buf, p), Loop(step, y, buf, p); o.err == o'.err && (o.err.None? ==> Twin(o.st, o'.st))
    ensures Tale(step, says, x, buf, p) == Tale(step, says, y, buf, p)
    decreases |buf| - p
  {
    if p < |buf| {
      assert TwinsAt(step, says, x, y, buf, p);
      if step(x, buf, p).Go? {
        LoopTwins(step, says, step(x, buf, p).st, step(y, buf, p).st, buf, step(x, buf, p).next);
      }
    }
  }

  /** From twin states, runs tell the same and end in twin states. */
  lemma RunTwins(cb: Setting, x: State, y: State, buf: bytes, p: nat)
    requires Twin(x, y)
    ensures var o, o' := Run(cb, x, buf, p), Run(cb, y, buf, p); o.err == o'.err && (o.err.None? ==> Twin(o.st, o'.st))
    ensures Says(cb, x, buf, p) == Says(cb, y, buf, p)
  {
    StepsAdvance(cb);
    forall x': State, y': State, p': nat ensures TwinsAt(Steps(cb), Tells(cb), x', y', buf, p') { StepTwins(cb, x', y', buf, p'); }
    LoopTwins(Steps(cb), Tells(cb), x, y, buf, p);
  }

  // ----------------------------------------------------------------------- the head

  /** What the machine tells for whole header lines. */
  function LinesTold(cb: Setting, hs: seq<Header>): (es: seq<Event>) {
    if hs == [] then [] else When(cb.field, Field(hs[0].name)) + ValueRest(cb.value, hs[0].value, 0) + LinesTold(cb, hs[1..])
  }

  /** A state at a header line that knows at least what the reference parser knows. */
  ghost predicate Knows(st: State, meta: Meta) {
    && st.phase == HeaderPhase && st.scratch == [] && st.told.value == 0
    && st.facts.hasLength == meta.hasLength && (meta.chunked ==> st.facts.chunked)
  }

  lemma NoteKnows(st: State, meta: Meta, h: Header)
    requires Knows(st, meta) && ApplyHeader(meta, h).Some?
    ensures NoteHeader(st.facts, st.length, h).Some?
    ensures var (facts, length) := NoteHeader(st.facts, st.length, h).value; Knows(st.(facts := facts, length := length), ApplyHeader(meta, h).value)
  {
  }

  lemma LineThrough(cb: Setting, st: State, b: bytes, p: nat, i: nat, h: Header, facts: Facts, length: int)
    requires p < i && i + 2 <= |b| && CrlfFrom(b, p) == Some(i) && cb.lines.header(b[p..i]) == Some(h)
    requires NoteHeader(st.facts, st.length, h) == Some((facts, length))
    requires st.phase == HeaderPhase && st.scratch == [] && st.told.value == 0
    ensures var st' := st.(facts := facts, length := length);
            && Run(cb, st, b, p) == Run(cb, st', b, i + 2)
            && Says(cb, st, b, p) == When(cb.field, Field(h.name)) + ValueRest(cb.value, h.value, 0) + Says(cb, st', b, i + 2)
  {
    StepsHead(cb, b, st, p);
    StepsTell(cb, b, st, p);
    HeaderTale(cb, Steps(cb), Tells(cb), st, b, p, i, h, facts, length);
    assert b[..|b|] == b;
    HeaderRun(cb, Steps(cb), st, b, |b|, p, i, h, facts, length);
  }

  lemma EndThrough(cb: Setting, st: State, b: bytes, p: nat)
    requires CrlfAt(b, p) && st.phase == HeaderPhase && st.scratch == [] && st.facts.chunked
    ensures Run(cb, st, b, p) == Run(cb, st.(phase := ChunkSizePhase), b, p + 2)
    ensures Says(cb, st, b, p) == When(cb.headers, HeadersDone) + Says(cb, st.(phase := ChunkSizePhase), b, p + 2)
  {
    StepsHead(cb, b, st, p);
    StepsTell(cb, b, st, p);
    EmptyLineTale(cb, Steps(cb), Tells(cb), st, b, p);
    assert b[..|b|] == b;
    EmptyLineRun(cb, Steps(cb), st, b, |b|, p);
    assert st.(phase := ChunkSizePhase, scratch := []) == st.(phase := ChunkSizePhase);
  }

  lemma LinePlace(g: LineGrammar, meta: Meta, b: bytes, p: nat) returns (i: nat, h: Header, meta': Meta)
    requires p <= |b| && ParseHeaders(g, meta, b, p).HeadDone? && !CrlfAt(b, p)
    ensures p < i && i + 2 <= |b| && CrlfFrom(b, p) == Some(i) && g.header(b[p..i]) == Some(h) && ApplyHeader(meta, h) == Some(meta')
    ensures var tail := ParseHeaders(g, meta', b, i + 2);
            tail.HeadDone? && ParseHeaders(g, meta, b, p) == HeadDone(tail.meta, [h] + tail.headers, tail.next)
  {
    CrlfFound(b, p);
    i := CrlfFrom(b, p).value;
    h := g.header(b[p..i]).value;
    meta' := ApplyHeader(meta, h).value;
  }

  /** From `p` the machine reads and tells the headers `hs` and goes on behind the empty line. */
  ghost predicate Through(cb: Setting, st: State, hs: seq<Header>, b: bytes, p: nat, st': State, next: nat) {
    && Run(cb, st, b, p) == Run(cb, st', b, next)
    && Says(cb, st, b, p) == LinesTold(cb, hs) + (When(cb.headers, HeadersDone) + Says(cb, st', b, next))
  }

  lemma ThroughStep(cb: Setting, st: State, st1: State, h: Header, hs: seq<Header>, b: bytes, p: nat, q: nat, st': State, next: nat)
    requires Run(cb, st, b, p) == Run(cb, st1, b, q) && Through(cb, st1, hs, b, q, st', next)
    requires Says(cb, st, b, p) == When(cb.field, Field(h.name)) + ValueRest(cb.value, h.value, 0) + Says(cb, st1, b, q)
    ensures Through(cb, st, [h] + hs, b, p, st', next)
  {
    assert ([h] + hs)[1..] == hs;
    Assoc(When(cb.field, Field(h.name)) + ValueRest(cb.value, h.value, 0), LinesTold(cb, hs), When(cb.headers, HeadersDone) + Says(cb, st', b, next));
  }

  lemma EndIsThrough(cb: Setting, st: State, meta: Meta, b: bytes, p: nat, head: Head)
    requires CrlfAt(b, p) && head == ParseHeaders(cb.lines, meta, b, p) && head.HeadDone? && head.meta.chunked && Knows(st, meta)
    ensures Through(cb, st, head.headers, b, p, st.(phase := ChunkSizePhase), head.next)
  {
    EndThrough(cb, st, b, p);
    EmptyAppend(When(cb.headers, HeadersDone) + Says(cb, st.(phase := ChunkSizePhase), b, p + 2));
  }

  lemma NextThrough(cb: Setting, st: State, meta: Meta, b: bytes, p: nat, head: Head)
      returns (q: nat, h: Header, meta': Meta, st1: State, tail: Head)
    requires p <= |b| && head == ParseHeaders(cb.lines, meta, b, p) && head.HeadDone? && !CrlfAt(b, p) && Knows(st, meta)
    ensures p < q <= |b| && Knows(st1, meta') && st1 == st.(facts := st1.facts, length := st1.length)
    ensures tail == ParseHeaders(cb.lines, meta', b, q) && tail.HeadDone? && head == HeadDone(tail.meta, [h] + tail.headers, tail.next)
    ensures Run(cb, st, b, p) == Run(cb, st1, b, q)
    ensures Says(cb, st, b, p) == When(cb.field, Field(h.name)) + ValueRest(cb.value, h.value, 0) + Says(cb, st1, b, q)
  {
    var i;
    i, h, meta' := LinePlace(cb.lines, meta, b, p);
    q, tail := i + 2, ParseHeaders(cb.lines, meta', b, i + 2);
    NoteKnows(st, meta, h);
    var (facts, length) := NoteHeader(st.facts, st.length, h).value;
    st1 := st.(facts := facts, length := length);
    LineThrough(cb, st, b, p, i, h, facts, length);
  }

  /** The machine reads a whole head whose body is chunked, and goes on behind it. */
  lemma {:induction false} HeadThrough(cb: Setting, st: State, meta: Meta, b: bytes, p: nat, head: Head) returns (facts: Facts, length: int)
    requires p <= |b| && head == ParseHeaders(cb.lines, meta, b, p) && head.HeadDone? && head.meta.chunked && Knows(st, meta)
    ensures Through(cb, st, head.headers, b, p, st.(phase := ChunkSizePhase, facts := facts, length := length), head.next)
    decreases |b| - p
  {
    if CrlfAt(b, p) {
      EndIsThrough(cb, st, meta, b, p, head);
      facts, length := st.facts, st.length;
    } else {
      var q, h, meta', st1, tail := NextThrough(cb, st, meta, b, p, head);
      facts, length := HeadThrough(cb, st1, meta', b, q, tail);
      ThroughStep(cb, st, st1, h, tail.headers, b, p, q, st1.(phase := ChunkSizePhase, facts := facts, length := length), tail.next);
    }
  }

  // --------------------------------------------------------------------- the first call

  lemma FirstLineThrough(cb: Setting, st: State, b: bytes, i: nat, l: RequestLine)
    requires b != [] && Start(st).phase == RequestLinePhase && st.scratch == [] && CrlfFrom(b, 0) == Some(i) && cb.lines.request(b[0..i]) == Some(l)
    ensures var st' := Start(st).(phase := HeaderPhase, facts := st.facts.(verb := l.verb, version := l.version),
                                  told := Told(cb.begin, Passed(cb.url, l.target, st.told.url), st.told.value));
            && Feed(cb, st, b) == Run(cb, st', b, i + 2)
            && FeedSays(cb, st, b) == When(cb.begin, Begin) + UrlRest(cb.url, l.target, st.told.url) + Says(cb, st', b, i + 2)
  {
    var st0 := Start(st);
    EmptyAppend(b[0..i]);
    StepsAre(cb, st0, b, 0, Step(cb, st0, b, 0));
    TellsAre(cb, st0, b, 0, StepSays(cb, st0, b, 0));
  }

  /** What the machine tells behind the request line, from a fresh parser. */
  ghost predicate SameRest(cb: Setting, x: State, y: State, b: bytes, target: bytes, rest: seq<Event>) {
    && FeedSays(cb, x, b) == When(cb.begin, Begin) + UrlRest(cb.url, target, |target|) + rest
    && FeedSays(cb, y, b) == When(cb.begin, Begin) + UrlRest(cb.url, target, 0) + rest
    && Feed(cb, x, b).err == Feed(cb, y, b).err && (Feed(cb, x, b).err.None? ==> Twin(Feed(cb, x, b).st, Feed(cb, y, b).st))
  }

  lemma ThroughTwins(cb: Setting, x: State, y: State, hs: seq<Header>, b: bytes, p: nat, x': State, y': State, next: nat)
    requires Through(cb, x, hs, b, p, x', next) && Through(cb, y, hs, b, p, y', next) && Twin(x', y')
    ensures Says(cb, x, b, p) == Says(cb, y, b, p)
    ensures var o, o' := Run(cb, x, b, p), Run(cb, y, b, p); o.err == o'.err && (o.err.None? ==> Twin(o.st, o'.st))
  {
    RunTwins(cb, x', y', b, next);
  }

  /** With the head of a chunked request applied, the first call runs as from a fresh parser. */
  lemma AppliedRunsAsFresh(cb: Setting, b: bytes, h: ChunkedHead) returns (rest: seq<Event>)
    requires b != [] && HeadIn(cb.lines, b) == Some(h)
    ensures SameRest(cb, HeadApplied(FRESH, h), FRESH, b, h.line.target, rest)
  {
    var i, l, meta := CrlfFrom(b, 0).value, h.line, Meta(Request, 0, false, 0, false);
    var x, y := HeadApplied(FRESH, h), FRESH;
    FirstLineThrough(cb, x, b, i, l);
    FirstLineThrough(cb, y, b, i, l);
    var x1 := Start(x).(phase := HeaderPhase, facts := x.facts.(verb := l.verb, version := l.version),
                        told := Told(cb.begin, Passed(cb.url, l.target, x.told.url), x.told.value));
    var y1 := Start(y).(phase := HeaderPhase, facts := y.facts.(verb := l.verb, version := l.version),
                        told := Told(cb.begin, Passed(cb.url, l.target, y.told.url), y.told.value));
    rest := Says(cb, x1, b, i + 2);
    BothThrough(cb, x1, y1, meta, b, i + 2);
  }

  lemma BothThrough(cb: Setting, x: State, y: State, meta: Meta, b: bytes, p: nat)
    requires p <= |b| && ParseHeaders(cb.lines, meta, b, p).HeadDone? && ParseHeaders(cb.lines, meta, b, p).meta.chunked
    requires Knows(x, meta) && Knows(y, meta) && x.done == y.done && x.told.started == y.told.started
    ensures Says(cb, x, b, p) == Says(cb, y, b, p)
    ensures var o, o' := Run(cb, x, b, p), Run(cb, y, b, p); o.err == o'.err && (o.err.None? ==> Twin(o.st, o'.st))
  {
    var head := ParseHeaders(cb.lines, meta, b, p);
    var facts, length := HeadThrough(cb, x, meta, b, p, head);
    var facts', length' := HeadThrough(cb, y, meta, b, p, head);
    ThroughTwins(cb, x, y, head.headers, b, p, x.(phase := ChunkSizePhase, facts := facts, length := length),
                 y.(phase := ChunkSizePhase, facts := facts', length := length'), head.next);
  }
}
