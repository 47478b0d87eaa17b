/** What a call of the resumable machine returns as the number of bytes it has taken. Every call that neither fails nor
    completes a message takes all of its input; what it says is another matter. */
module Counts {
  import opened Bytes
  import opened Grammar
  import opened Reference
  import opened Machine
  import opened UniqueFraming
  import opened FastPaths
  import opened RequestDispatch
  import opened Completion
  import opened LostRequest

  /** How much of the line that is open at the end of a call came with earlier calls. */
  function Carried(st: State, buf: bytes, p: nat): (n: nat)
    requires p <= |buf|
  {
    if CrlfFrom(buf, p).None? then |st.scratch| else 0
  }

  /** The call ended inside a header line whose colon has arrived. */
  predicate InValueLine(o: Outcome) {
    o.st.phase == HeaderPhase && COLON in o.st.scratch
  }

  /** What is reported. */
  function Says(cb: Setting, o: Outcome, carried: nat, whole: nat): (n: int) {
    if cb.value && InValueLine(o) then whole + carried - |PartialValue(o.st.scratch)| else whole
  }

  lemma KeptLine(cb: Setting, st: State, buf: bytes, p: nat)
    requires p < |buf| && CrlfFrom(buf, p).None? && KeepLine(cb, st, buf, p).Stop? && KeepLine(cb, st, buf, p).out.err.None?
    ensures var o := KeepLine(cb, st, buf, p).out; o.n == Says(cb, o, |st.scratch|, |buf|)
  {
  }

  /** A line that is taken and lets the call go on leaves no header line open. */
  lemma TakenLine(cb: Setting, st: State, buf: bytes, p: nat, i: nat)
    requires p < |buf| && CrlfFrom(buf, p) == Some(i)
    requires st.phase == RequestLinePhase || st.phase == HeaderPhase || st.phase == ChunkSizePhase
    ensures var t := LineTurn(cb, st, buf, p);
            if t.Go? then t.st.phase != Idle && (t.st.phase == HeaderPhase ==> t.st.scratch == [])
            else t.out.err.Some? || t.out.st.phase == Idle || (t.out.n == |buf| && t.out.st.phase == ChunkSizePhase)
  {
  }

  lemma StepCounts(cb: Setting, st: State, buf: bytes, p: nat)
    requires p < |buf| && st.phase != Idle
    ensures var t := Step(cb, st, buf, p);
            if t.Go? then t.st.phase != Idle && (t.st.phase == HeaderPhase ==> t.st.scratch == [] && CrlfFrom(buf, p).Some?)
            else t.out.err.Some? || t.out.st.phase == Idle || t.out.n == Says(cb, t.out, Carried(st, buf, p), |buf|)
  {
    if st.phase == RequestLinePhase || st.phase == HeaderPhase || st.phase == ChunkSizePhase {
      if CrlfFrom(buf, p).None? {
        if KeepLine(cb, st, buf, p).out.err.None? {
          KeptLine(cb, st, buf, p);
        }
      } else {
        TakenLine(cb, st, buf, p, CrlfFrom(buf, p).value);
      }
    }
  }

  /** The count of a call that leaves a message unfinished. */
  predicate Counted(cb: Setting, o: Outcome, carried: nat, whole: nat) {
    o.err.None? && o.st.phase != Idle ==> o.n == Says(cb, o, carried, whole)
  }

  /** Behind a turn that goes on, nothing of an open header line is from earlier calls. */
  lemma CountedBehind(cb: Setting, st: State, buf: bytes, p: nat, o: Outcome)
    requires p < |buf| && st.phase != Idle && Step(cb, st, buf, p).Go?
    requires var t := Step(cb, st, buf, p);
             && Counted(cb, o, Carried(t.st, buf, t.next), |buf|)
             && (t.st.phase != HeaderPhase && t.st.phase != RequestLinePhase ==> o.st.phase != HeaderPhase)
    ensures Counted(cb, o, Carried(st, buf, p), |buf|)
  {
    StepCounts(cb, st, buf, p);
    StepNotBack(cb, st, buf, p);
  }

  lemma StepNotBack(cb: Setting, st: State, buf: bytes, p: nat)
    requires p < |buf| && st.phase != Idle && Step(cb, st, buf, p).Go?
    ensures Step(cb, st, buf, p).st.phase != RequestLinePhase
  {
  }

  lemma {:induction false} RunCounts(cb: Setting, st: State, buf: bytes, p: nat)
    requires p <= |buf| && st.phase != Idle && (p == |buf| && st.phase == HeaderPhase ==> st.scratch == [])
    ensures Counted(cb, Run(cb, st, buf, p), Carried(st, buf, p), |buf|)
    decreases |buf| - p
  {
    if p < |buf| {
      StepCounts(cb, st, buf, p);
      RunStep(cb, st, buf, p);
      var t := Step(cb, st, buf, p);
      if t.Go? {
        RunCounts(cb, t.st, buf, t.next);
        LaterPhase(cb, t.st, buf, t.next);
        CountedBehind(cb, st, buf, p, Run(cb, t.st, buf, t.next));
      }
    }
  }

  /** What is open at the end is open since this call, or is no header line. */
  lemma {:induction false} LaterPhase(cb: Setting, st: State, buf: bytes, p: nat)
    requires p <= |buf| && st.phase != Idle && (st.phase == HeaderPhase ==> st.scratch == [])
    ensures st.phase != HeaderPhase && st.phase != RequestLinePhase ==> Run(cb, st, buf, p).st.phase != HeaderPhase
    decreases |buf| - p
  {
    if p < |buf| && st.phase != HeaderPhase && st.phase != RequestLinePhase {
      StepCounts(cb, st, buf, p);
      RunStep(cb, st, buf, p);
      if Step(cb, st, buf, p).Go? {
        LaterPhase(cb, Step(cb, st, buf, p).st, buf, Step(cb, st, buf, p).next);
      }
    }
  }

  /** A call that leaves a message unfinished returns the length of its input, unless there is a HeaderValue callback and
      the input ends inside a header line behind its colon: then it returns that length, and what earlier calls had of the
      line, and not what there is of the value. */
  lemma OpenCount(cb: Setting, st: State, buf: bytes)
    requires buf != [] && Feed(cb, st, buf).err.None? && Feed(cb, st, buf).st.phase != Idle
    ensures var o := Feed(cb, st, buf);
            o.n == if cb.value && InValueLine(o) then |buf| + Carried(st, buf, 0) - |PartialValue(o.st.scratch)| else |buf|
  {
    RunCounts(cb, Start(st), buf, 0);
  }

  /** So it returns what it has taken if and only if there is no such callback or line, or the value is as long as what
      earlier calls had of its line. */
  lemma OpenCountExactly(cb: Setting, st: State, buf: bytes)
    requires buf != [] && Feed(cb, st, buf).err.None? && Feed(cb, st, buf).st.phase != Idle
    ensures var o := Feed(cb, st, buf);
            o.n == |buf| <==> !cb.value || !InValueLine(o) || |PartialValue(o.st.scratch)| == Carried(st, buf, 0)
  {
    OpenCount(cb, st, buf);
  }

  // ------------------------------------------------------------- requests one behind the other

  /** The head of the first request, seen in the whole buffer. */
  lemma FirstHead(g: LineGrammar, a: bytes, t: bytes)
    requires Accepts(g, Request, a) && ParseMessage(g, Request, a).msg.mode != ChunkedBody
    ensures RequestDispatch.HeadersIn(g, a + t).HeadDone? && !RequestDispatch.HeadersIn(g, a + t).meta.chunked
    ensures FastErr(g, a + t).None?
  {
    var i := CrlfFrom(a, 0).value;
    CrlfKept(a, t, 0);
    assert (a + t)[0..i] == a[..i];
    HeadersKept(g, StartMeta(ParseStart(g, Request, a[..i]).value), a, t, i + 2);
  }

  /** Through Execute, a fresh parser that is given a request without chunks and more behind it completes the request,
      and returns its end if the request has a body; if it has none, everything behind it is reported as taken. */
  lemma ExecuteCount(cb: Setting, a: bytes, t: bytes)
    requires Accepts(cb.lines, Request, a) && t != [] && ParseMessage(cb.lines, Request, a).msg.mode != ChunkedBody
    ensures var r := Execute(cb, FRESH, a + t);
            r.err.None? && r.st.done && r.n == if ParseMessage(cb.lines, Request, a).msg.mode == NoBody then |a| + |t| else |a|
  {
    FirstHead(cb.lines, a, t);
    AcceptedIsMaximal(cb.lines, Request, a, t);
    CompletesExactly(cb, a + t);
    CountWithMore(cb.lines, a, t);
  }

  // ------------------------------------------------------------------------ an input

  /** The beginning of a header line, "B: y", and its next byte. */
  const OPEN: bytes := [66, COLON, SP, 121]
  const MORE: bytes := [122]

  lemma OpenLine(line: bytes)
    requires line == OPEN || line == OPEN + MORE
    ensures FindByte(line, COLON) == Some(1) && SkipFrom(line, 2) == 3 && CrlfFrom(line, 0).None? && COLON in line
  {
    ByteIs(line, COLON, 1);
    SkipIs(line, 2, 3);
    CrlfFound(line, 0);
  }

  lemma KeptOpen(cb: Setting, st: State, buf: bytes, k: nat, open: bytes)
    requires k < |buf| && st.phase == HeaderPhase && st.scratch == [] && CrlfFrom(buf, k).None? && buf[k..] == open && |open| < 100
    ensures var o := Run(cb, st, buf, k); o.err.None? && o.st.phase == HeaderPhase && o.st.scratch == open
  {
    RunStep(cb, st, buf, k);
    EmptyAppend(open);
  }

  lemma PlacesOf(line: bytes, open: bytes, buf: bytes)
    requires CrlfFrom(line + CRLF, 0) == Some(|line|) && CrlfFrom(open, 0).None? && buf == line + CRLF + open
    ensures var k := |line| + 2; CrlfFrom(buf, 0) == Some(|line|) && buf[0..|line|] == line && buf[k..] == open && CrlfFrom(buf, k).None?
  {
    CrlfKept(line + CRLF, open, 0);
    CrlfShift(line + CRLF, open, 0);
  }

  /** A request line, and a header line begun behind it. */
  lemma FirstCall(cb: Setting, line: bytes, l: RequestLine, open: bytes, buf: bytes)
    requires CrlfFrom(line + CRLF, 0) == Some(|line|) && cb.lines.request(line) == Some(l)
    requires open != [] && |open| < 100 && CrlfFrom(open, 0).None? && buf == line + CRLF + open
    ensures var o := Feed(cb, FRESH, buf); o.err.None? && o.st.phase == HeaderPhase && o.st.scratch == open
  {
    PlacesOf(line, open, buf);
    FirstStep(cb, buf);
    var st := FRESH.(phase := HeaderPhase, facts := FRESH.facts.(verb := l.verb, version := l.version),
                     told := Told(cb.begin, Passed(cb.url, l.target, 0), 0));
    KeptOpen(cb, st, buf, |line| + 2, open);
  }

  lemma NextCall(cb: Setting, st: State, open: bytes, buf: bytes)
    requires st.phase == HeaderPhase && st.scratch == open && buf != [] && |open| + |buf| < 100 && CrlfFrom(buf, 0).None?
    ensures var o := Feed(cb, st, buf); o.err.None? && o.st.phase == HeaderPhase && o.st.scratch == open + buf
  {
    assert buf[0..] == buf;
    RunStep(cb, st, buf, 0);
  }

  lemma MoreHasNoEnd()
    ensures CrlfFrom(MORE, 0).None?
  {
  }

  /** A request cut twice inside a value: with a HeaderValue callback, the second call, which takes one byte, returns
      three. */
  lemma CountPastEnd(cb: Setting)
    requires cb.lines == HTTP && cb.value
    ensures var o := Feed(cb, FRESH, LINE + CRLF + OPEN); var o' := Feed(cb, o.st, MORE);
            o.err.None? && o'.err.None? && |MORE| == 1 && o'.n == 3
  {
    LineReads();
    OpenLine(OPEN);
    FirstCall(cb, LINE, ParseRequestLine(LINE).value, OPEN, LINE + CRLF + OPEN);
    var o := Feed(cb, FRESH, LINE + CRLF + OPEN);
    MoreHasNoEnd();
    NextCall(cb, o.st, OPEN, MORE);
    OpenLine(OPEN + MORE);
    OpenCount(cb, o.st, MORE);
  }
}
