/** MessageBegin and the target come first, and nothing of them later. */
module EventOrder {
  import opened Bytes
  import opened Grammar
  import opened Reference
  import opened Events
  import opened Machine
  import opened Split
  import opened SplitEvents
  import opened Incremental
  import opened MessageEvents
  import opened UniqueFraming
  import opened FastPaths
  import opened FastTrace
  import opened RequestDispatch
  import opened RequestRuns

  predicate OfStart(e: Event) { e.Begin? || e.Url? }

  predicate AllStart(es: seq<Event>) { forall i | 0 <= i < |es| :: OfStart(es[i]) }

  predicate NoneStart(es: seq<Event>) { forall i | 0 <= i < |es| :: !OfStart(es[i]) }

  /** MessageBegin and URL callbacks, and then the others. */
  ghost predicate StartFirst(es: seq<Event>) {
    exists k :: 0 <= k <= |es| && AllStart(es[..k]) && NoneStart(es[k..])
  }

  lemma StartThen(a: seq<Event>, b: seq<Event>)
    requires AllStart(a) && NoneStart(b)
    ensures StartFirst(a + b)
  {
    assert (a + b)[..|a|] == a && (a + b)[|a|..] == b;
  }

  lemma MoreBehind(a: seq<Event>, b: seq<Event>)
    requires StartFirst(a) && NoneStart(b)
    ensures StartFirst(a + b)
  {
    var k :| 0 <= k <= |a| && AllStart(a[..k]) && NoneStart(a[k..]);
    TakeAppend(a, b, k);
    DropAppend(a, b, k);
  }

  lemma MoreStart(a: seq<Event>, b: seq<Event>)
    requires AllStart(a) && StartFirst(b)
    ensures StartFirst(a + b)
  {
    var k :| 0 <= k <= |b| && AllStart(b[..k]) && NoneStart(b[k..]);
    assert (a + b)[..|a| + k] == a + b[..k] && (a + b)[|a| + k..] == b[k..];
  }

  // -------------------------------------------------------------------------- one turn

  /** In the request line a turn tells of the start only, and behind it of anything else; and nothing leads back. */
  ghost predicate InOrderAt(step: Stepper, says: Teller, st: State, buf: bytes, p: nat) {
    p < |buf| && st.phase != Idle ==>
      && (if st.phase == RequestLinePhase then AllStart(says(st, buf, p)) else NoneStart(says(st, buf, p)))
      && match step(st, buf, p)
         case Go(st', _) => st'.phase != RequestLinePhase && st'.phase != Idle
         case Stop(o) => o.err.None? && st.phase != RequestLinePhase ==> o.st.phase != RequestLinePhase
  }

  lemma LineInOrder(cb: Setting, st: State, line: bytes, buf: bytes, k: nat)
    requires k <= |buf| && InLine(st)
    ensures if st.phase == RequestLinePhase then AllStart(LineSays(cb, st, line, buf, k)) else NoneStart(LineSays(cb, st, line, buf, k))
    ensures match TakeLine(cb, st, line, buf, k)
            case Go(st', _) => st'.phase != RequestLinePhase && st'.phase != Idle
            case Stop(o) => o.err.None? && st.phase != RequestLinePhase ==> o.st.phase != RequestLinePhase
  {
  }

  lemma LineTurnInOrder(cb: Setting, st: State, buf: bytes, p: nat)
    requires p < |buf| && InLine(st)
    ensures if st.phase == RequestLinePhase then AllStart(LineTurnSays(cb, st, buf, p)) else NoneStart(LineTurnSays(cb, st, buf, p))
    ensures match LineTurn(cb, st, buf, p)
            case Go(st', _) => st'.phase != RequestLinePhase && st'.phase != Idle
            case Stop(o) => o.err.None? && st.phase != RequestLinePhase ==> o.st.phase != RequestLinePhase
  {
    if CrlfFrom(buf, p).Some? {
      var i := CrlfFrom(buf, p).value;
      var line := st.scratch + buf[p..i];
      LineInOrder(cb, Holding(st, line), line, buf, i + 2);
      LineInOrder(cb, st, line, buf, i + 2);
    }
  }

  lemma StepsInOrder(cb: Setting, st: State, buf: bytes, p: nat)
    ensures InOrderAt(Steps(cb), Tells(cb), st, buf, p)
  {
    if p < |buf| && st.phase != Idle {
      if InLine(st) {
        LineTurnInOrder(cb, st, buf, p);
      }
      StepsAre(cb, st, buf, p, Step(cb, st, buf, p));
      TellsAre(cb, st, buf, p, StepSays(cb, st, buf, p));
    }
  }

  // -------------------------------------------------------------------------- one call

  lemma {:induction false} LoopBehind(step: Stepper, says: Teller, st: State, buf: bytes, p: nat)
    requires Advances(step) && st.phase != Idle && st.phase != RequestLinePhase
    requires forall st': State, p': nat {:trigger InOrderAt(step, says, st', buf, p')} :: InOrderAt(step, says, st', buf, p')
    ensures NoneStart(Tale(step, says, st, buf, p))
    ensures Loop(step, st, buf, p).err.None? ==> Loop(step, st, buf, p).st.phase != RequestLinePhase
    decreases |buf| - p
  {
    if p < |buf| {
      assert InOrderAt(step, says, st, buf, p);
      match step(st, buf, p)
      case Go(st', next) => LoopBehind(step, says, st', buf, next);
      case Stop(_) =>
    }
  }

  lemma LoopInLine(step: Stepper, says: Teller, st: State, buf: bytes)
    requires Advances(step) && st.phase == RequestLinePhase && buf != []
    requires forall st': State, p': nat {:trigger InOrderAt(step, says, st', buf, p')} :: InOrderAt(step, says, st', buf, p')
    ensures StartFirst(Tale(step, says, st, buf, 0))
    ensures Loop(step, st, buf, 0).err.None? && Loop(step, st, buf, 0).st.phase == RequestLinePhase ==> AllStart(Tale(step, says, st, buf, 0))
  {
    assert InOrderAt(step, says, st, buf, 0);
    match step(st, buf, 0)
    case Go(st', next) =>
      LoopBehind(step, says, st', buf, next);
      StartThen(says(st, buf, 0), Tale(step, says, st', buf, next));
    case Stop(_) =>
      StartThen(says(st, buf, 0), []);
      EmptyAppend(says(st, buf, 0));
  }

  /** One call: from the request line it tells of the start first, and behind it of anything but the start. */
  lemma CallInOrder(cb: Setting, st: State, buf: bytes)
    requires buf != []
    ensures var es, o := FeedSays(cb, st, buf), Feed(cb, st, buf);
            if st.phase == Idle || st.phase == RequestLinePhase then
              StartFirst(es) && (o.err.None? && o.st.phase == RequestLinePhase ==> AllStart(es))
            else NoneStart(es) && (o.err.None? ==> o.st.phase != RequestLinePhase)
  {
    StepsAdvance(cb);
    forall st': State, p': nat ensures InOrderAt(Steps(cb), Tells(cb), st', buf, p') { StepsInOrder(cb, st', buf, p'); }
    if st.phase == Idle || st.phase == RequestLinePhase {
      LoopInLine(Steps(cb), Tells(cb), Start(st), buf);
    } else {
      LoopBehind(Steps(cb), Tells(cb), st, buf, 0);
    }
  }

  // ------------------------------------------------------------------------- any pieces

  /** A request in any safe pieces: the start is told first. */
  lemma {:induction false} PiecesInOrder(cb: Setting, m: bytes, pieces: seq<bytes>, j: nat)
    requires WholeRequest(cb.lines, m) && SafePieces(cb.lines, m, pieces) && 0 < j <= |pieces|
    ensures StartFirst(SaysAll(cb, FRESH, pieces[..j]))
    ensures After(cb, FRESH, pieces[..j]).st.phase == RequestLinePhase ==> AllStart(SaysAll(cb, FRESH, pieces[..j]))
    decreases j
  {
    var st := After(cb, FRESH, pieces[..j - 1]).st;
    IncrementalRefinesOneShot(cb, m, pieces, j);
    AfterNext(cb, FRESH, pieces, j - 1);
    NextCall(Feeds(cb), Speaks(cb), FRESH, pieces, j - 1);
    CallInOrder(cb, st, pieces[j - 1]);
    var a, b := SaysAll(cb, FRESH, pieces[..j - 1]), FeedSays(cb, st, pieces[j - 1]);
    if 1 < j {
      IncrementalRefinesOneShot(cb, m, pieces, j - 1);
      PiecesInOrder(cb, m, pieces, j - 1);
      if st.phase == RequestLinePhase {
        MoreStart(a, b);
      } else {
        MoreBehind(a, b);
      }
    } else {
      assert pieces[..0] == [];
      EmptyAppend(b);
    }
  }

  // ------------------------------------------------------------------------ the fast path

  lemma {:induction false} HeadersAreNoStart(cb: Setting, hs: seq<Header>)
    ensures NoneStart(HeaderTrace(cb, hs))
    decreases |hs|
  {
    if hs != [] {
      HeadersAreNoStart(cb, hs[1..]);
    }
  }

  lemma {:induction false} PartsAreNoStart(cb: Setting, parts: seq<bytes>)
    ensures NoneStart(PartsTrace(cb, parts))
  {
    if parts != [] {
      PartsAreNoStart(cb, parts[1..]);
    }
  }

  lemma FastInOrder(cb: Setting, msg: Message, parts: seq<bytes>)
    ensures StartFirst(FastEvents(cb, msg, parts))
  {
    HeadersAreNoStart(cb, msg.headers);
    PartsAreNoStart(cb, parts);
    var a, h, d := StartTrace(cb, TargetOf(msg.start)), HeaderTrace(cb, msg.headers), When(cb.headers, HeadersDone);
    var b, c := PartsTrace(cb, parts), When(cb.complete, Complete);
    StartThen(a, h);
    MoreBehind(a + h, d);
    MoreBehind(a + h + d, b);
    MoreBehind(a + h + d + b, c);
  }

  // --------------------------------------------------------------------- through Execute

  /** Through Execute, a request that comes in one piece, or in safe pieces none of which the whole-buffer path or the
      chunked path tells of, is told with MessageBegin and its target in front of everything else. */
  lemma ToldInOrder(cb: Setting, m: bytes, pieces: seq<bytes>, msg: Message)
    requires WholeRequest(cb.lines, m) && SafePieces(cb.lines, m, pieces) && ParseMessage(cb.lines, Request, m) == Accepted(msg)
    requires Silent(cb) || |pieces| == 1 || ((cb.begin || RequestRuns.Undisturbed(cb.lines, pieces)) && !TellsHead(cb, pieces[0]))
    ensures StartFirst(Executed(Calls(cb), pieces).es)
  {
    AcceptedNonEmpty(cb.lines, Request, m);
    assert pieces[..|pieces|] == pieces;
    if |pieces| == 1 && !Silent(cb) {
      OnePieceIs(m, pieces);
      FastErrIs(cb.lines, m);
      assert Calls(cb)(FRESH, m) == WholeCall(cb, FRESH, m, msg);
      OneCall(Calls(cb), m);
      FastInOrder(cb, msg, RequestParts(cb.lines, m, msg));
    } else {
      AllPass(cb, pieces);
      PiecesInOrder(cb, m, pieces, |pieces|);
      var e := RunNear(cb, m, pieces, |pieces|);
      EmptyAppend(e);
    }
  }
}
