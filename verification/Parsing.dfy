/** The resumable request parser as it is written: fields updated in place, a fixed scratch buffer,
    loops over the input. Every call is proved to do what `Machine.Feed` and `Machine.FeedSays` say. */
module Parsing {
  import opened Bytes
  import opened Numerals
  import opened Grammar
  import opened Events
  import opened Machine
  import opened Split
  import opened SplitEvents

  /** How a turn of a source loop ended: it left the call with a count or an error, or went on. */
  datatype Went = On(next: nat) | Out(n: nat, err: Option<Err>)

  /** The new state `st` and `w` are what turn `t` of the machine says. */
  ghost predicate Did(t: Turn, st: State, w: Went) {
    match t
    case Go(st', next) => w == On(next) && st == st'
    case Stop(o) => w == Out(o.n, o.err) && st == o.st
  }

  lemma TurnGoes(cb: Setting, st: State, buf: bytes, p: nat, st': State, next: nat)
    requires p < |buf| && Step(cb, st, buf, p) == Go(st', next)
    ensures Run(cb, st, buf, p) == Run(cb, st', buf, next)
    ensures Says(cb, st, buf, p) == StepSays(cb, st, buf, p) + Says(cb, st', buf, next)
  {
  }

  lemma TurnStops(cb: Setting, st: State, buf: bytes, p: nat, o: Outcome)
    requires p < |buf| && Step(cb, st, buf, p) == Stop(o)
    ensures Run(cb, st, buf, p) == o
    ensures Says(cb, st, buf, p) == StepSays(cb, st, buf, p)
  {
    EmptyAppend(StepSays(cb, st, buf, p));
  }

  /** A turn from `st` at `p` has led to `st'`; what is told from there on completes what was to be told. */
  ghost predicate Continued(cb: Setting, st: State, es: seq<Event>, buf: bytes, p: nat, st': State, es': seq<Event>, w: Went) {
    match w
    case On(next) => Run(cb, st, buf, p) == Run(cb, st', buf, next) && es + Says(cb, st, buf, p) == es' + Says(cb, st', buf, next)
    case Out(n, err) => Ended(Run(cb, st, buf, p), st', n, err) && es' == es + Says(cb, st, buf, p)
  }

  lemma TurnDone(cb: Setting, st: State, es: seq<Event>, buf: bytes, p: nat, st': State, es': seq<Event>, w: Went)
    requires p < |buf| && Did(Step(cb, st, buf, p), st', w) && es' == es + StepSays(cb, st, buf, p)
    ensures Continued(cb, st, es, buf, p, st', es', w)
    ensures w.On? ==> p < w.next <= |buf|
  {
    match w
    case On(next) =>
      TurnGoes(cb, st, buf, p, st', next);
      Assoc(es, StepSays(cb, st, buf, p), Says(cb, st', buf, next));
    case Out(_, _) => TurnStops(cb, st, buf, p, Step(cb, st, buf, p).out);
  }

  /** A call has ended with state `st`, count `n` and error `err` as outcome `o` says. */
  ghost predicate Ended(o: Outcome, st: State, n: nat, err: Option<Err>) {
    st == o.st && n == o.n && err == o.err
  }

  lemma StrayIs(buf: bytes, k: nat)
    requires k <= |buf| < k + 2
    ensures Stray(buf, k) == buf[k..]
  {
  }

  /** A call that starts in a body. */
  lemma BodyCall(cb: Setting, st: State, buf: bytes, p: nat, k: nat)
    requires p <= |buf| && st.phase == BodyPhase && 0 < st.length && k == Least(|buf| - p, st.length)
    ensures var st' := st.(length := st.length - k);
            Ended(Run(cb, st, buf, p), if k == st.length then Finish(st') else st', p + k, None)
    ensures Says(cb, st, buf, p) == When(cb.body && 0 < k, BodyPart(buf[p..p + k])) + When(cb.complete && k == st.length, Complete)
  {
    if p < |buf| {
      EmptyAppend(StepSays(cb, st, buf, p));
    }
  }

  /** A call that starts in a body of which nothing is left. */
  lemma NothingLeft(cb: Setting, st: State, buf: bytes, p: nat)
    requires p < |buf| && st.phase == BodyPhase && st.length <= 0
    ensures Ended(Run(cb, st, buf, p), Finish(st), p, None)
    ensures Says(cb, st, buf, p) == When(cb.complete, Complete)
  {
    EmptyAppend(StepSays(cb, st, buf, p));
    EmptyAppend(When(cb.complete, Complete));
  }

  /** The distance-free form of scanCRLFBytes. */
  method ScanCrlf(buf: bytes, p: nat) returns (r: Option<nat>)
    requires p <= |buf|
    ensures r == CrlfFrom(buf, p)
  {
    var i := p;
    while i + 1 < |buf|
      invariant p <= i
      invariant forall j | p <= j < i :: !CrlfAt(buf, j)
    {
      if buf[i] == CR && buf[i + 1] == LF {
        CrlfIs(buf, p, i);
        return Some(i);
      }
      i := i + 1;
    }
    CrlfFound(buf, p);
    return None;
  }

  class Parser {
    const lineScratch: array<byte>
    var lineScratchLen: nat
    var fastPhase: Phase
    var contentLength: int
    /** Method, Major, Minor and the five header flags. */
    var facts: Facts
    /** messageStarted, urlOffset and headerValueOffset. */
    var told: Told
    var messageCompleteCalled: bool
    var upgrade: bool
    /** The callbacks made so far. */
    ghost var events: seq<Event>

    ghost predicate Valid()
      reads this
    {
      lineScratch.Length == SCRATCH && lineScratchLen <= SCRATCH
    }

    ghost function Scratch(): (s: bytes)
      requires Valid()
      reads this, lineScratch
    {
      lineScratch[..lineScratchLen]
    }

    /** The fields as a value. */
    ghost function Abs(): (st: State)
      requires Valid()
      reads this, lineScratch
    {
      State(fastPhase, Scratch(), contentLength, facts, told, messageCompleteCalled, upgrade)
    }

    constructor ()
      ensures Valid() && fresh(lineScratch) && Abs() == FRESH && events == []
    {
      lineScratch := new byte[SCRATCH];
      lineScratchLen, fastPhase, contentLength := 0, Idle, -1;
      facts := Facts(0, Version(0, 0), false, false, NO_FLAGS);
      told := Told(false, 0, 0);
      messageCompleteCalled, upgrade := false, false;
      events := [];
    }

    method Reset()
      requires Valid()
      modifies this
      ensures Valid() && Abs() == FRESH && events == old(events)
    {
      lineScratchLen, fastPhase, contentLength := 0, Idle, -1;
      facts := Facts(0, Version(0, 0), false, false, NO_FLAGS);
      told := Told(false, 0, 0);
      messageCompleteCalled, upgrade := false, false;
    }

    /** appendScratch: bytes are kept only if they fit. */
    method AppendScratch(b: bytes) returns (ok: bool)
      requires Valid()
      modifies lineScratch, this`lineScratchLen
      ensures Valid()
      ensures ok <==> |old(Scratch())| + |b| <= SCRATCH
      ensures Scratch() == if ok then old(Scratch()) + b else old(Scratch())
    {
      if lineScratchLen + |b| > SCRATCH {
        return false;
      }
      forall i | 0 <= i < |b| {
        lineScratch[lineScratchLen + i] := b[i];
      }
      lineScratchLen := lineScratchLen + |b|;
      return true;
    }

    /** The end of a message: the phase is idle, scratch empty, MessageComplete called. */
    method FinishMessage(cb: Setting)
      requires Valid()
      modifies this
      ensures Valid() && Abs() == Finish(old(Abs())) && events == old(events) + When(cb.complete, Complete)
    {
      messageCompleteCalled := true;
      fastPhase := Idle;
      lineScratchLen := 0;
      events := events + When(cb.complete, Complete);
      assert Scratch() == [];
    }

    /** consumeFastHeader. */
    method ConsumeFastHeader(h: Header) returns (err: Option<Err>)
      modifies this`contentLength, this`facts
      ensures match NoteHeader(old(facts), old(contentLength), h)
              case None => unchanged(this) && err == Some(if facts.hasLength then ErrDuplicateLength else ErrInvalidLength)
              case Some((f, length)) => err.None? && facts == f && contentLength == length
    {
      FramingHeadersCarryNoFlags(facts.flags, h);
      if EqualFold(h.name, "content-length") {
        if facts.hasLength {
          return Some(ErrDuplicateLength);
        }
        var n := ParseNumeral(10, h.value);
        if n.None? {
          return Some(ErrInvalidLength);
        }
        facts, contentLength := facts.(hasLength := true), n.value;
        return None;
      }
      if EqualFold(h.name, "transfer-encoding") && EqualFold(h.value, "chunked") {
        facts := facts.(chunked := true);
        return None;
      }
      if EqualFold(h.name, "connection") {
        if EqualFold(h.value, "close") {
          facts := facts.(flags := facts.flags.(close := true));
        }
        if EqualFold(h.value, "upgrade") {
          facts := facts.(flags := facts.flags.(connUpgrade := true));
        }
        return None;
      }
      if EqualFold(h.name, "upgrade") {
        facts := facts.(flags := facts.flags.(upgrade := true));
      }
      return None;
    }

    /** emitSplitRequestLineFragment. */
    method EmitRequestLineFragment(cb: Setting)
      requires Valid() && fastPhase == RequestLinePhase
      modifies this`told, this`events
      ensures told == Announced(cb, fastPhase, old(told), Scratch())
      ensures events == old(events) + OpenLineSays(cb, fastPhase, old(told), Scratch())
    {
      var line := lineScratch[..lineScratchLen];
      ghost var es, b := events, When(cb.begin && !told.started, Begin);
      EmptyAppend(es);
      EmptyAppend(es + b);
      Assoc(es, b, UrlRest(cb.url, AfterSpace(line), told.url));
      if cb.begin && !told.started {
        events := events + [Begin];
        told := told.(started := true);
      }
      var space := FindByte(line, SP);
      assert events == es + b && AfterSpace(line) == if space.Some? then line[space.value + 1..] else [];
      if cb.url && space.Some? && told.url < |line| - (space.value + 1) {
        events := events + [Url(line[space.value + 1..][told.url..])];
        told := told.(url := |line| - (space.value + 1));
      }
    }

    /** emitSplitHeaderValueFragment: the count it reports, if it has one. */
    method EmitHeaderValueFragment(cb: Setting, consumed: nat) returns (n: Option<nat>)
      requires Valid() && fastPhase == HeaderPhase
      modifies this`told, this`events
      ensures told == Announced(cb, fastPhase, old(told), Scratch())
      ensures events == old(events) + OpenLineSays(cb, fastPhase, old(told), Scratch())
      ensures forall whole: nat :: Reported(cb, fastPhase, Scratch(), consumed, whole) == if n.Some? then n.value else whole
    {
      if !cb.value {
        return None;
      }
      var line := lineScratch[..lineScratchLen];
      var sep := FindByte(line, COLON);
      if sep.None? {
        return None;
      }
      var start := SkipFrom(line, sep.value + 1);
      var value := line[start..];
      assert value == PartialValue(Scratch());
      if told.value < |value| {
        events := events + [Value(value[told.value..])];
        told := told.(value := |value|);
      }
      return Some(consumed + start);
    }

    /** The rest of the buffer holds no CRLF: it is kept, and what it shows of the line is announced. */
    method KeepOpenLine(cb: Setting, buf: bytes, p: nat) returns (w: Went)
      requires Valid() && p < |buf| && InLine(Abs())
      modifies this, lineScratch
      ensures Valid() && Did(KeepLine(cb, old(Abs()), buf, p), Abs(), w)
      ensures events == old(events) + if w.err.Some? then [] else OpenLineSays(cb, old(fastPhase), old(told), old(Scratch()) + buf[p..])
    {
      var ok := AppendScratch(buf[p..]);
      if !ok {
        return Out(0, Some(ErrScratchOverflow));
      }
      if fastPhase == RequestLinePhase {
        EmitRequestLineFragment(cb);
      }
      if fastPhase == HeaderPhase {
        var n := EmitHeaderValueFragment(cb, p);
        return Out(if n.Some? then n.value else |buf|, None);
      }
      return Out(|buf|, None);
    }

    /** The line that ends here: the segment itself, or scratch with the segment appended. */
    method GatherLine(segment: bytes) returns (line: Option<bytes>)
      requires Valid()
      modifies lineScratch, this`lineScratchLen
      ensures Valid()
      ensures line.None? <==> old(Scratch()) != [] && |old(Scratch())| + |segment| > SCRATCH
      ensures line.None? ==> Abs() == old(Abs())
      ensures line.Some? ==> line.value == old(Scratch()) + segment && Abs() == Holding(old(Abs()), line.value)
    {
      if lineScratchLen == 0 {
        EmptyAppend(segment);
        return Some(segment);
      }
      var ok := AppendScratch(segment);
      if !ok {
        return None;
      }
      return Some(lineScratch[..lineScratchLen]);
    }

    method TakeFastRequestLine(cb: Setting, line: bytes, k: nat, ghost buf: bytes) returns (w: Went)
      requires Valid() && fastPhase == RequestLinePhase
      modifies this
      ensures Valid() && Did(TakeRequestLine(cb, old(Abs()), line, k), Abs(), w)
      ensures events == old(events) + LineSays(cb, old(Abs()), line, buf, k)
    {
      var l := cb.lines.request(line);
      if l.None? {
        return Out(0, Some(ErrReqMethod));
      }
      facts := facts.(verb := l.value.verb, version := l.value.version);
      told := told.(started := false);
      if cb.begin {
        events := events + [Begin];
        told := told.(started := true);
      }
      if cb.url && told.url < |l.value.target| {
        events := events + [Url(l.value.target[told.url..])];
        told := told.(url := |l.value.target|);
      }
      lineScratchLen := 0;
      fastPhase := HeaderPhase;
      return On(k);
    }

    method TakeFastHeader(cb: Setting, line: bytes, k: nat, ghost buf: bytes) returns (w: Went)
      requires Valid() && fastPhase == HeaderPhase && line != []
      modifies this
      ensures Valid() && Did(TakeHeader(cb, old(Abs()), line, k), Abs(), w)
      ensures events == old(events) + LineSays(cb, old(Abs()), line, buf, k)
    {
      var h := cb.lines.header(line);
      if h.None? {
        return Out(0, Some(ErrHeaderOverflow));
      }
      var err := ConsumeFastHeader(h.value);
      if err.Some? {
        return Out(0, err);
      }
      events := events + When(cb.field, Field(h.value.name));
      if cb.value {
        if told.value < |h.value.value| {
          events := events + [Value(h.value.value[told.value..])];
        }
        told := told.(value := 0);
      }
      lineScratchLen := 0;
      return On(k);
    }

    /** consumeFastBodyWithCallbacks on buf[p:]. */
    method ConsumeFastBody(cb: Setting, buf: bytes, p: nat) returns (n: nat, err: Option<Err>)
      requires Valid() && p <= |buf| < 0x8000_0000 && fastPhase == BodyPhase && (p < |buf| || 0 < contentLength)
      modifies this
      ensures Valid() && Ended(Run(cb, old(Abs()), buf, p), Abs(), n, err)
      ensures events == old(events) + Says(cb, old(Abs()), buf, p)
    {
      if contentLength <= 0 {
        NothingLeft(cb, Abs(), buf, p);
        FinishMessage(cb);
        return p, None;
      }
      var toConsume := |buf| - p;
      if toConsume > contentLength {
        toConsume := contentLength;
      }
      BodyCall(cb, Abs(), buf, p, toConsume);
      ghost var es, part := events, When(cb.body && 0 < toConsume, BodyPart(buf[p..p + toConsume]));
      events := events + part;
      contentLength := contentLength - toConsume;
      Assoc(es, part, When(cb.complete, Complete));
      EmptyAppend(part);
      if contentLength == 0 {
        FinishMessage(cb);
      }
      return p + toConsume, None;
    }

    /** The data branch of consumeFastChunkedWithCallbacks. */
    method ConsumeChunkData(cb: Setting, buf: bytes, p: nat) returns (w: Went)
      requires Valid() && p < |buf| < 0x8000_0000 && fastPhase == ChunkDataPhase
      modifies this, lineScratch
      ensures Valid() && Did(DataTurn(old(Abs()), buf, p), Abs(), w)
      ensures events == old(events) + DataSays(cb, old(Abs()), buf, p)
    {
      if contentLength < 0 {
        return Out(0, Some(Fault));
      }
      var toConsume := |buf| - p;
      if toConsume > contentLength {
        toConsume := contentLength;
      }
      if toConsume > 0 {
        events := events + When(cb.body, BodyPart(buf[p..p + toConsume]));
      }
      contentLength := contentLength - toConsume;
      var k := p + toConsume;
      if contentLength != 0 {
        return On(|buf|);
      }
      fastPhase := ChunkSizePhase;
      if |buf| - k < 2 {
        StrayIs(buf, k);
        var ok := AppendScratch(buf[k..]);
        if !ok {
          return Out(0, Some(ErrScratchOverflow));
        }
        return Out(|buf|, None);
      }
      if buf[k] != CR || buf[k + 1] != LF {
        return Out(0, Some(ErrChunkSize));
      }
      return On(k + 2);
    }

    /** The size branch, from the finished line on. */
    method TakeFastSizeLine(cb: Setting, line: bytes, buf: bytes, k: nat) returns (w: Went)
      requires Valid() && k <= |buf| && fastPhase == ChunkSizePhase
      modifies this, lineScratch
      ensures Valid() && Did(TakeSizeLine(cb, old(Abs()), line, buf, k), Abs(), w)
      ensures events == old(events) + LineSays(cb, old(Abs()), line, buf, k)
    {
      var size := cb.lines.size(line);
      if size.None? {
        return Out(0, Some(ErrChunkSize));
      }
      lineScratchLen := 0;
      assert Scratch() == [];
      if size.value < 0 {
        return Out(0, Some(Fault));
      }
      if size.value == 0 {
        if |buf| - k < 2 {
          StrayIs(buf, k);
          EmptyAppend(buf[k..]);
          var ok := AppendScratch(buf[k..]);
          return Out(|buf|, None);
        }
        if buf[k] != CR || buf[k + 1] != LF {
          return Out(0, Some(ErrChunkSize));
        }
        FinishMessage(cb);
        return Out(k + 2, None);
      }
      contentLength := size.value;
      fastPhase := ChunkDataPhase;
      return On(k);
    }

    /** One turn of consumeFastChunkedWithCallbacks. */
    method ChunkedTurn(cb: Setting, buf: bytes, p: nat) returns (w: Went)
      requires Valid() && p < |buf| < 0x8000_0000 && (fastPhase == ChunkSizePhase || fastPhase == ChunkDataPhase)
      modifies this, lineScratch
      ensures Valid() && Did(Step(cb, old(Abs()), buf, p), Abs(), w)
      ensures events == old(events) + StepSays(cb, old(Abs()), buf, p)
      ensures w.On? ==> fastPhase == ChunkSizePhase || fastPhase == ChunkDataPhase
    {
      if fastPhase == ChunkDataPhase {
        w := ConsumeChunkData(cb, buf, p);
        return;
      }
      var end := ScanCrlf(buf, p);
      if end.None? {
        w := KeepOpenLine(cb, buf, p);
        return;
      }
      var line := GatherLine(buf[p..end.value]);
      if line.None? {
        return Out(0, Some(ErrScratchOverflow));
      }
      SaysHolds(cb, old(Abs()), line.value, buf, end.value + 2);
      w := TakeFastSizeLine(cb, line.value, buf, end.value + 2);
    }

    /** consumeFastChunkedWithCallbacks on buf[p:]. */
    method ConsumeFastChunked(cb: Setting, buf: bytes, p: nat) returns (n: nat, err: Option<Err>)
      requires Valid() && p <= |buf| < 0x8000_0000 && (fastPhase == ChunkSizePhase || fastPhase == ChunkDataPhase)
      modifies this, lineScratch
      ensures Valid() && Ended(Run(cb, old(Abs()), buf, p), Abs(), n, err)
      ensures events == old(events) + Says(cb, old(Abs()), buf, p)
    {
      var consumed := p;
      ghost var st, es := Abs(), events;
      while consumed < |buf|
        invariant Valid() && consumed <= |buf| && (fastPhase == ChunkSizePhase || fastPhase == ChunkDataPhase)
        invariant Run(cb, st, buf, p) == Run(cb, Abs(), buf, consumed)
        invariant es + Says(cb, st, buf, p) == events + Says(cb, Abs(), buf, consumed)
      {
        ghost var st0, es0 := Abs(), events;
        var w := ChunkedTurn(cb, buf, consumed);
        TurnDone(cb, st0, es0, buf, consumed, Abs(), events, w);
        match w
        case Out(n', err') => return n', err';
        case On(next) => consumed := next;
      }
      EmptyAppend(events);
      return consumed, None;
    }

    /** The empty line behind the headers: what follows is decided by the framing headers. */
    method EndFastHeaders(cb: Setting, buf: bytes, k: nat) returns (n: nat, err: Option<Err>)
      requires Valid() && k <= |buf| < 0x8000_0000 && fastPhase == HeaderPhase
      modifies this, lineScratch
      ensures Valid()
      ensures match EndHeaders(old(Abs()), k, |buf|)
              case Stop(o) => Ended(o, Abs(), n, err) && events == old(events) + LineSays(cb, old(Abs()), [], buf, k)
              case Go(st, next) =>
                && Ended(Run(cb, st, buf, next), Abs(), n, err)
                && events == old(events) + (LineSays(cb, old(Abs()), [], buf, k) + Says(cb, st, buf, next))
    {
      ghost var es, h := events, When(cb.headers, HeadersDone);
      EmptyAppend(h);
      events := events + h;
      lineScratchLen := 0;
      assert Scratch() == [];
      if facts.chunked {
        fastPhase := ChunkSizePhase;
        ghost var st := Abs();
        n, err := ConsumeFastChunked(cb, buf, k);
        Assoc(es, h, Says(cb, st, buf, k));
      } else if contentLength > 0 {
        fastPhase := BodyPhase;
        ghost var st := Abs();
        n, err := ConsumeFastBody(cb, buf, k);
        Assoc(es, h, Says(cb, st, buf, k));
      } else {
        FinishMessage(cb);
        Assoc(es, h, When(cb.complete, Complete));
        return |buf|, None;
      }
    }

    /** A line of the head that the buffer finishes, taken; the empty line ends the call. */
    method TakeFastLine(cb: Setting, line: bytes, buf: bytes, k: nat) returns (w: Went)
      requires Valid() && k <= |buf| < 0x8000_0000 && (fastPhase == RequestLinePhase || (fastPhase == HeaderPhase && line != []))
      modifies this, lineScratch
      ensures Valid() && Did(TakeLine(cb, old(Abs()), line, buf, k), Abs(), w)
      ensures events == old(events) + LineSays(cb, old(Abs()), line, buf, k)
      ensures w.On? ==> fastPhase == HeaderPhase
    {
      if fastPhase == RequestLinePhase {
        w := TakeFastRequestLine(cb, line, k, buf);
      } else {
        w := TakeFastHeader(cb, line, k, buf);
      }
    }

    /** One turn of the line loop of tryFastSplitRequest. */
    method HeadTurn(cb: Setting, buf: bytes, p: nat) returns (w: Went)
      requires Valid() && p < |buf| < 0x8000_0000 && (fastPhase == RequestLinePhase || fastPhase == HeaderPhase)
      modifies this, lineScratch
      ensures Valid() && Continued(cb, old(Abs()), old(events), buf, p, Abs(), events, w)
      ensures w.On? ==> fastPhase == HeaderPhase && p < w.next <= |buf|
    {
      ghost var st, es := Abs(), events;
      var end := ScanCrlf(buf, p);
      if end.None? {
        w := KeepOpenLine(cb, buf, p);
        TurnDone(cb, st, es, buf, p, Abs(), events, w);
        return;
      }
      var k := end.value + 2;
      var line := GatherLine(buf[p..end.value]);
      if line.None? {
        w := Out(0, Some(ErrScratchOverflow));
        EmptyAppend(events);
        TurnDone(cb, st, es, buf, p, Abs(), events, w);
        return;
      }
      SaysHolds(cb, st, line.value, buf, k);
      if fastPhase == HeaderPhase && line.value == [] {
        var n, err := EndFastHeaders(cb, buf, k);
        EmptyLineEnds(cb, st, buf, p, k);
        return Out(n, err);
      }
      w := TakeFastLine(cb, line.value, buf, k);
      TurnDone(cb, st, es, buf, p, Abs(), events, w);
    }

    /** The line loop of tryFastSplitRequest. */
    method SplitHead(cb: Setting, buf: bytes) returns (n: nat, err: Option<Err>)
      requires Valid() && |buf| < 0x8000_0000 && (fastPhase == RequestLinePhase || fastPhase == HeaderPhase)
      modifies this, lineScratch
      ensures Valid() && Ended(Run(cb, old(Abs()), buf, 0), Abs(), n, err)
      ensures events == old(events) + Says(cb, old(Abs()), buf, 0)
    {
      var consumed := 0;
      ghost var st, es := Abs(), events;
      while consumed < |buf|
        invariant Valid() && consumed <= |buf| && (fastPhase == RequestLinePhase || fastPhase == HeaderPhase)
        invariant Run(cb, st, buf, 0) == Run(cb, Abs(), buf, consumed)
        invariant es + Says(cb, st, buf, 0) == events + Says(cb, Abs(), buf, consumed)
      {
        var w := HeadTurn(cb, buf, consumed);
        match w
        case Out(n', err') => return n', err';
        case On(next) => consumed := next;
      }
      EmptyAppend(events);
      return |buf|, None;
    }

    /** tryFastSplitRequest, and with no callbacks tryFastSplitRequestEmpty. */
    method SplitRequest(cb: Setting, buf: bytes) returns (n: nat, err: Option<Err>)
      requires Valid() && |buf| < 0x8000_0000 && buf != []
      modifies this, lineScratch
      ensures Valid() && Ended(Feed(cb, old(Abs()), buf), Abs(), n, err)
      ensures events == old(events) + FeedSays(cb, old(Abs()), buf)
    {
      if fastPhase == Idle {
        fastPhase := RequestLinePhase;
      }
      if fastPhase == BodyPhase {
        n, err := ConsumeFastBody(cb, buf, 0);
        return;
      }
      if fastPhase == ChunkSizePhase || fastPhase == ChunkDataPhase {
        n, err := ConsumeFastChunked(cb, buf, 0);
        return;
      }
      n, err := SplitHead(cb, buf);
    }
  }

  /** The turn of the empty line. */
  lemma EmptyLineEnds(cb: Setting, st: State, buf: bytes, p: nat, k: nat)
    requires p < |buf| && st.phase == HeaderPhase && CrlfFrom(buf, p).Some? && k == CrlfFrom(buf, p).value + 2
    requires st.scratch + buf[p..k - 2] == []
    ensures match EndHeaders(st, k, |buf|)
            case Stop(o) => Run(cb, st, buf, p) == o && Says(cb, st, buf, p) == LineSays(cb, st, [], buf, k)
            case Go(st', next) =>
              && Run(cb, st, buf, p) == Run(cb, st', buf, next)
              && Says(cb, st, buf, p) == LineSays(cb, st, [], buf, k) + Says(cb, st', buf, next)
  {
    EmptyAppend(LineSays(cb, st, [], buf, k));
  }
}
