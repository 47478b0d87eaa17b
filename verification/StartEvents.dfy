/** The callbacks that tryFastSplitRequest makes for the request line: how often Begin fires, and when
    the URL fragments join to the target. */
module StartEvents {
  import opened Bytes
  import opened Grammar
  import opened Reference
  import opened Events
  import opened Machine
  import opened Split
  import opened SplitEvents
  import opened Incremental

  // ------------------------------------------------------------- Complete and completion

  /** A call says Complete when it completes the message, and only then. */
  ghost predicate CompletesAt(cb: Setting, step: Stepper, says: Teller, st: State, buf: bytes, p: nat) {
    p < |buf| && !st.done ==>
      match step(st, buf, p)
      case Go(st', _) => !st'.done && Count(says(st, buf, p), Complete) == 0
      case Stop(o) => Count(says(st, buf, p), Complete) == if cb.complete && o.err.None? && o.st.done then 1 else 0
  }

  lemma {:induction false} TaleCompletes(cb: Setting, step: Stepper, says: Teller, st: State, buf: bytes, p: nat)
    requires Advances(step) && !st.done && p <= |buf|
    requires forall st': State, p': nat {:trigger CompletesAt(cb, step, says, st', buf, p')} :: CompletesAt(cb, step, says, st', buf, p')
    ensures var o := Loop(step, st, buf, p);
            Count(Tale(step, says, st, buf, p), Complete) == if cb.complete && o.err.None? && o.st.done then 1 else 0
    decreases |buf| - p
  {
    if p < |buf| {
      assert CompletesAt(cb, step, says, st, buf, p);
      match step(st, buf, p)
      case Stop(_) => EmptyAppend(says(st, buf, p));
      case Go(st', next) =>
        TaleCompletes(cb, step, says, st', buf, next);
        JoinedParts(says(st, buf, p), Tale(step, says, st', buf, next));
    }
  }

  /** The number of Complete callbacks a turn owes. */
  function Owed(cb: Setting, t: Turn): (n: nat) {
    if t.Stop? && cb.complete && t.out.err.None? && t.out.st.done then 1 else 0
  }

  lemma NoCompleteIn(x: seq<Event>, y: seq<Event>)
    requires Count(x, Complete) == 0 && Count(y, Complete) == 0
    ensures Count(x + y, Complete) == 0
  {
    JoinedParts(x, y);
  }

  lemma NoCompleteWhen(c: bool, e: Event)
    ensures Count(When(c, e), Complete) == if c && e == Complete then 1 else 0
  {
    OneEvent(e);
  }

  lemma NoCompleteRest(on: bool, v: bytes, offset: nat)
    ensures Count(UrlRest(on, v, offset), Complete) == 0 && Count(ValueRest(on, v, offset), Complete) == 0
  {
    if on && offset < |v| {
      OneEvent(Url(v[offset..]));
      OneEvent(Value(v[offset..]));
    }
  }

  lemma RequestLineCompletes(cb: Setting, st: State, line: bytes, buf: bytes, k: nat)
    requires k <= |buf| && st.phase == RequestLinePhase && !st.done
    ensures Count(LineSays(cb, st, line, buf, k), Complete) == 0 == Owed(cb, TakeLine(cb, st, line, buf, k))
  {
    if cb.lines.request(line).Some? {
      var v := cb.lines.request(line).value.target;
      NoCompleteWhen(cb.begin, Begin);
      NoCompleteRest(cb.url, v, st.told.url);
      NoCompleteIn(When(cb.begin, Begin), UrlRest(cb.url, v, st.told.url));
    }
  }

  lemma HeaderCompletes(cb: Setting, st: State, line: bytes, buf: bytes, k: nat)
    requires k <= |buf| && st.phase == HeaderPhase && !st.done && line != []
    ensures Count(LineSays(cb, st, line, buf, k), Complete) == 0 == Owed(cb, TakeLine(cb, st, line, buf, k))
  {
    if cb.lines.header(line).Some? {
      var h := cb.lines.header(line).value;
      NoCompleteWhen(cb.field, Field(h.name));
      NoCompleteRest(cb.value, h.value, st.told.value);
      NoCompleteIn(When(cb.field, Field(h.name)), ValueRest(cb.value, h.value, st.told.value));
    }
  }

  lemma EmptyLineCompletes(cb: Setting, st: State, buf: bytes, k: nat)
    requires k <= |buf| && st.phase == HeaderPhase && !st.done
    ensures Count(LineSays(cb, st, [], buf, k), Complete) == Owed(cb, TakeLine(cb, st, [], buf, k))
  {
    var c := cb.complete && !st.facts.chunked && st.length <= 0;
    NoCompleteWhen(cb.headers, HeadersDone);
    NoCompleteWhen(c, Complete);
    JoinedParts(When(cb.headers, HeadersDone), When(c, Complete));
  }

  lemma LineCompletes(cb: Setting, st: State, line: bytes, buf: bytes, k: nat)
    requires k <= |buf| && InLine(st) && !st.done
    ensures Count(LineSays(cb, st, line, buf, k), Complete) == Owed(cb, TakeLine(cb, st, line, buf, k))
  {
    match st.phase
    case RequestLinePhase => RequestLineCompletes(cb, st, line, buf, k);
    case ChunkSizePhase => OneEvent(Complete);
    case HeaderPhase =>
      if line == [] {
        EmptyLineCompletes(cb, st, buf, k);
      } else {
        HeaderCompletes(cb, st, line, buf, k);
      }
  }

  lemma OpenLineCompletes(cb: Setting, phase: Phase, told: Told, line: bytes)
    ensures Count(OpenLineSays(cb, phase, told, line), Complete) == 0
  {
    var c := cb.begin && !told.started;
    NoCompleteWhen(c, Begin);
    NoCompleteRest(cb.url, AfterSpace(line), told.url);
    NoCompleteIn(When(c, Begin), UrlRest(cb.url, AfterSpace(line), told.url));
    NoCompleteRest(cb.value, PartialValue(line), told.value);
  }

  lemma LineTurnCompletes(cb: Setting, st: State, buf: bytes, p: nat)
    requires p < |buf| && InLine(st) && !st.done
    ensures Count(LineTurnSays(cb, st, buf, p), Complete) == Owed(cb, LineTurn(cb, st, buf, p))
  {
    match CrlfFrom(buf, p)
    case None => OpenLineCompletes(cb, st.phase, st.told, st.scratch + buf[p..]);
    case Some(i) =>
      var line := st.scratch + buf[p..i];
      LineCompletes(cb, Holding(st, line), line, buf, i + 2);
      SaysHolds(cb, st, line, buf, i + 2);
  }

  lemma DataCompletes(cb: Setting, st: State, buf: bytes, p: nat)
    requires p < |buf| && !st.done && !InLine(st)
    ensures Count(StepSays(cb, st, buf, p), Complete) == Owed(cb, Step(cb, st, buf, p))
  {
    var c := cb.complete && st.length <= |buf| - p;
    if 0 < st.length {
      NoCompleteWhen(cb.body, BodyPart(buf[p..p + Least(|buf| - p, st.length)]));
    }
    NoCompleteWhen(c, Complete);
    JoinedParts(DataSays(cb, st, buf, p), When(c, Complete));
  }

  lemma NotDoneYet(cb: Setting, st: State, buf: bytes, p: nat)
    requires p < |buf| && !st.done && Step(cb, st, buf, p).Go?
    ensures !Step(cb, st, buf, p).st.done
  {
  }

  lemma StepsComplete(cb: Setting, st: State, buf: bytes, p: nat)
    ensures CompletesAt(cb, Steps(cb), Tells(cb), st, buf, p)
  {
    if p < |buf| && !st.done {
      if InLine(st) {
        LineTurnCompletes(cb, st, buf, p);
      } else {
        DataCompletes(cb, st, buf, p);
      }
      if Step(cb, st, buf, p).Go? {
        NotDoneYet(cb, st, buf, p);
      }
      TellsAre(cb, st, buf, p, StepSays(cb, st, buf, p));
    }
  }

  lemma CallCompletes(cb: Setting, st: State, buf: bytes)
    requires !st.done && buf != []
    ensures var o := Feed(cb, st, buf);
            Count(FeedSays(cb, st, buf), Complete) == if cb.complete && o.err.None? && o.st.done then 1 else 0
  {
    StepsAdvance(cb);
    forall st': State, p': nat ensures CompletesAt(cb, Steps(cb), Tells(cb), st', buf, p') { StepsComplete(cb, st', buf, p'); }
    TaleCompletes(cb, Steps(cb), Tells(cb), Start(st), buf, 0);
  }

  /** Of the machine's calls, the one that takes the last piece says Complete, once, and no other. */
  lemma CompleteOnLastPiece(cb: Setting, m: bytes, pieces: seq<bytes>, j: nat)
    requires WholeRequest(cb.lines, m) && SafePieces(cb.lines, m, pieces) && 0 < j <= |pieces|
    ensures Count(FeedSays(cb, After(cb, FRESH, pieces[..j - 1]).st, pieces[j - 1]), Complete) == if cb.complete && j == |pieces| then 1 else 0
  {
    IncrementalRefinesOneShot(cb, m, pieces, j);
    if 1 < j {
      IncrementalRefinesOneShot(cb, m, pieces, j - 1);
    }
    AfterNext(cb, FRESH, pieces, j - 1);
    CallCompletes(cb, After(cb, FRESH, pieces[..j - 1]).st, pieces[j - 1]);
  }

  // ---------------------------------------------------------- behind the request line

  /** Behind the request line there is no Begin and no Url. */
  ghost predicate QuietAt(step: Stepper, says: Teller, st: State, buf: bytes, p: nat) {
    p < |buf| && st.phase != RequestLinePhase ==>
      && UrlOf(says(st, buf, p)) == [] && Count(says(st, buf, p), Begin) == 0
      && match step(st, buf, p)
         case Go(st', _) => st'.phase != RequestLinePhase
         case Stop(o) => o.st.phase != RequestLinePhase
  }

  lemma {:induction false} QuietTale(step: Stepper, says: Teller, st: State, buf: bytes, p: nat)
    requires Advances(step) && st.phase != RequestLinePhase && p <= |buf|
    requires forall st': State, p': nat {:trigger QuietAt(step, says, st', buf, p')} :: QuietAt(step, says, st', buf, p')
    ensures UrlOf(Tale(step, says, st, buf, p)) == [] && Count(Tale(step, says, st, buf, p), Begin) == 0
    ensures Loop(step, st, buf, p).st.phase != RequestLinePhase
    decreases |buf| - p
  {
    if p < |buf| {
      assert QuietAt(step, says, st, buf, p);
      match step(st, buf, p)
      case Stop(_) => EmptyAppend(says(st, buf, p));
      case Go(st', next) =>
        QuietTale(step, says, st', buf, next);
        JoinedParts(says(st, buf, p), Tale(step, says, st', buf, next));
    }
  }

  ghost predicate Quiet(es: seq<Event>) {
    UrlOf(es) == [] && Count(es, Begin) == 0
  }

  lemma QuietWhen(c: bool, e: Event)
    requires !e.Begin? && !e.Url?
    ensures Quiet(When(c, e))
  {
    OneEvent(e);
  }

  lemma QuietAppend(x: seq<Event>, y: seq<Event>)
    requires Quiet(x) && Quiet(y)
    ensures Quiet(x + y)
  {
    JoinedParts(x, y);
  }

  lemma QuietBehind(x: seq<Event>, y: seq<Event>)
    requires Quiet(y)
    ensures Count(x + y, Begin) == Count(x, Begin) && UrlOf(x + y) == UrlOf(x)
  {
    JoinedParts(x, y);
    EmptyAppend(UrlOf(x));
  }

  lemma QuietValue(on: bool, v: bytes, offset: nat)
    ensures Quiet(ValueRest(on, v, offset))
  {
    if on && offset < |v| {
      OneEvent(Value(v[offset..]));
    }
  }

  lemma QuietLine(cb: Setting, st: State, line: bytes, buf: bytes, k: nat)
    requires st.phase != RequestLinePhase
    ensures Quiet(LineSays(cb, st, line, buf, k))
  {
    QuietWhen(cb.complete && cb.lines.size(line) == Some(0) && CrlfAt(buf, k), Complete);
    var c := cb.complete && !st.facts.chunked && st.length <= 0;
    QuietWhen(cb.headers, HeadersDone);
    QuietWhen(c, Complete);
    QuietAppend(When(cb.headers, HeadersDone), When(c, Complete));
    if cb.lines.header(line).Some? {
      var h := cb.lines.header(line).value;
      QuietWhen(cb.field, Field(h.name));
      QuietValue(cb.value, h.value, st.told.value);
      QuietAppend(When(cb.field, Field(h.name)), ValueRest(cb.value, h.value, st.told.value));
    }
  }

  lemma QuietLineTurn(cb: Setting, st: State, buf: bytes, p: nat)
    requires p < |buf| && st.phase != RequestLinePhase
    ensures Quiet(LineTurnSays(cb, st, buf, p))
  {
    match CrlfFrom(buf, p)
    case None => QuietValue(cb.value, PartialValue(st.scratch + buf[p..]), st.told.value);
    case Some(i) => QuietLine(cb, st, st.scratch + buf[p..i], buf, i + 2);
  }

  lemma QuietStep(cb: Setting, st: State, buf: bytes, p: nat)
    requires p < |buf| && st.phase != RequestLinePhase
    ensures Quiet(StepSays(cb, st, buf, p))
  {
    if InLine(st) {
      QuietLineTurn(cb, st, buf, p);
    } else if st.phase != Idle {
      var c := cb.complete && st.length <= |buf| - p;
      if 0 < st.length {
        QuietWhen(cb.body, BodyPart(buf[p..p + Least(|buf| - p, st.length)]));
      }
      QuietWhen(c, Complete);
      QuietAppend(DataSays(cb, st, buf, p), When(c, Complete));
    }
  }

  lemma PhaseStays(cb: Setting, st: State, buf: bytes, p: nat)
    requires p < |buf| && st.phase != RequestLinePhase
    ensures match Step(cb, st, buf, p)
            case Go(st', _) => st'.phase != RequestLinePhase
            case Stop(o) => o.st.phase != RequestLinePhase
  {
  }

  lemma StepsQuiet(cb: Setting, st: State, buf: bytes, p: nat)
    ensures QuietAt(Steps(cb), Tells(cb), st, buf, p)
  {
    if p < |buf| && st.phase != RequestLinePhase {
      QuietStep(cb, st, buf, p);
      PhaseStays(cb, st, buf, p);
      TellsAre(cb, st, buf, p, StepSays(cb, st, buf, p));
    }
  }

  lemma QuietCall(cb: Setting, st: State, buf: bytes, p: nat)
    requires st.phase != RequestLinePhase && p <= |buf|
    ensures UrlOf(Says(cb, st, buf, p)) == [] && Count(Says(cb, st, buf, p), Begin) == 0
    ensures Run(cb, st, buf, p).st.phase != RequestLinePhase
  {
    StepsAdvance(cb);
    forall st': State, p': nat ensures QuietAt(Steps(cb), Tells(cb), st', buf, p') { StepsQuiet(cb, st', buf, p'); }
    QuietTale(Steps(cb), Tells(cb), st, buf, p);
  }

  // ------------------------------------------------------------- inside the request line

  lemma AfterSpaceGrows(a: bytes, b: bytes)
    ensures AfterSpace(a) <= AfterSpace(a + b)
  {
    if FindByte(a, SP).Some? {
      ByteKept(a, b, SP);
      DropAppend(a, b, FindByte(a, SP).value + 1);
    }
  }

  /** The state and the callbacks while the request line is unfinished, `a` having arrived. */
  ghost predicate InRequestLine(cb: Setting, a: bytes, st: State, es: seq<Event>) {
    && Start(st).phase == RequestLinePhase && st.scratch == a && st.told.value == 0
    && st.told.url == (if cb.url then |AfterSpace(a)| else 0)
    && (st.told.started <==> cb.begin && a != [])
    && UrlOf(es) == (if cb.url then AfterSpace(a) else [])
    && Count(es, Begin) == if cb.begin && a != [] then 1 else 0
  }

  lemma StartParts(c: bool, on: bool, v: bytes, offset: nat)
    ensures var es := When(c, Begin) + UrlRest(on, v, offset);
            UrlOf(es) == (if on && offset < |v| then v[offset..] else []) && Count(es, Begin) == if c then 1 else 0
  {
    JoinedParts(When(c, Begin), UrlRest(on, v, offset));
    OneEvent(Begin);
    if on && offset < |v| {
      OneEvent(Url(v[offset..]));
    }
  }

  /** A call whose input leaves the request line unfinished. */
  lemma OpenCall(cb: Setting, st: State, b: bytes, line: bytes)
    requires Start(st).phase == RequestLinePhase && b != [] && CrlfFrom(b, 0).None? && line == st.scratch + b && |line| <= SCRATCH
    ensures Feed(cb, st, b).st == Start(st).(scratch := line, told := Announced(cb, RequestLinePhase, st.told, line))
    ensures FeedSays(cb, st, b) == OpenLineSays(cb, RequestLinePhase, st.told, line)
  {
    assert b[0..] == b;
    OpenSays(cb, Start(st), b, 0, line);
    EmptyAppend(OpenLineSays(cb, RequestLinePhase, st.told, line));
  }

  lemma SuffixJoins(v: bytes, w: bytes)
    requires v <= w
    ensures v + w[|v|..] == w
  {
  }

  lemma StillInRequestLine(cb: Setting, a: bytes, b: bytes, st: State, es: seq<Event>)
    requires InRequestLine(cb, a, st, es) && b != [] && CrlfFrom(b, 0).None? && |a| + |b| <= SCRATCH
    ensures InRequestLine(cb, a + b, Feed(cb, st, b).st, es + FeedSays(cb, st, b))
  {
    OpenCall(cb, st, b, a + b);
    AfterSpaceGrows(a, b);
    SuffixJoins(AfterSpace(a), AfterSpace(a + b));
    StartParts(cb.begin && !st.told.started, cb.url, AfterSpace(a + b), st.told.url);
    JoinedParts(es, OpenLineSays(cb, RequestLinePhase, st.told, a + b));
  }

  /** A call whose input finishes the request line. */
  lemma CrossingCall(cb: Setting, st: State, b: bytes, j: nat, line: bytes, l: RequestLine) returns (rest: seq<Event>)
    requires Start(st).phase == RequestLinePhase && b != [] && CrlfFrom(b, 0) == Some(j)
    requires line == st.scratch + b[0..j] && |line| <= SCRATCH && cb.lines.request(line) == Some(l)
    ensures FeedSays(cb, st, b) == When(cb.begin, Begin) + UrlRest(cb.url, l.target, st.told.url) + rest
    ensures Quiet(rest) && Feed(cb, st, b).st.phase != RequestLinePhase
  {
    var st1 := Step(cb, Start(st), b, 0).st;
    TakenSays(cb, Start(st), b, 0, j, line);
    rest := Says(cb, st1, b, j + 2);
    QuietCall(cb, st1, b, j + 2);
  }

  lemma PrefixesAgree(v: bytes, t: bytes, w: bytes)
    requires v <= w && t <= w
    ensures |v| <= |t| ==> v + t[|v|..] == t
    ensures v == t <==> |v| == |t|
  {
  }

  /** Begin and Url, told before, in and behind the call that finishes the request line. */
  lemma CrossedTold(cb: Setting, offset: nat, target: bytes, es: seq<Event>, rest: seq<Event>)
    requires Quiet(rest)
    ensures var told := When(cb.begin, Begin) + UrlRest(cb.url, target, offset);
            && UrlOf(es + (told + rest)) == UrlOf(es) + (if cb.url && offset < |target| then target[offset..] else [])
            && Count(es + (told + rest), Begin) == Count(es, Begin) + if cb.begin then 1 else 0
  {
    var told := When(cb.begin, Begin) + UrlRest(cb.url, target, offset);
    StartParts(cb.begin, cb.url, target, offset);
    JoinedParts(told, rest);
    JoinedParts(es, told + rest);
    EmptyAppend(UrlOf(told));
  }

  /** What the bytes so far, the state and the callbacks so far have in common. */
  type Condition = (bytes, State, seq<Event>) -> bool

  ghost predicate StaysAt(inv: Condition, feed: Feeder, tell: Speaker, a: bytes, b: bytes, st: State, es: seq<Event>) {
    inv(a, st, es) && b != [] && CrlfFrom(b, 0).None? && |a| + |b| <= SCRATCH ==> inv(a + b, feed(st, b).st, es + tell(st, b))
  }

  ghost predicate Stays(inv: Condition, feed: Feeder, tell: Speaker) {
    && inv([], FRESH, [])
    && forall a: bytes, b: bytes, st: State, es: seq<Event>
         {:trigger StaysAt(inv, feed, tell, a, b, st, es)} :: StaysAt(inv, feed, tell, a, b, st, es)
  }

  lemma FeedsStay(cb: Setting, inv: Condition)
    requires forall a: bytes, st: State, es: seq<Event> :: inv(a, st, es) <==> InRequestLine(cb, a, st, es)
    ensures Stays(inv, Feeds(cb), Speaks(cb))
  {
    forall a: bytes, b: bytes, st: State, es: seq<Event> ensures StaysAt(inv, Feeds(cb), Speaks(cb), a, b, st, es) {
      if InRequestLine(cb, a, st, es) && b != [] && CrlfFrom(b, 0).None? && |a| + |b| <= SCRATCH {
        StillInRequestLine(cb, a, b, st, es);
      }
    }
  }

  /** Pieces of the first line, which ends at `i`, keep what every piece of a line keeps. */
  lemma {:induction false} PiecesStay(inv: Condition, feed: Feeder, tell: Speaker, m: bytes, i: nat, pieces: seq<bytes>, j: nat)
    requires Concat(pieces) == m && (forall n | 0 <= n < |pieces| :: pieces[n] != []) && CrlfFrom(m, 0) == Some(i) && i <= SCRATCH
    requires j <= |pieces| && |Concat(pieces[..j])| <= i && Stays(inv, feed, tell)
    ensures inv(Concat(pieces[..j]), Series(feed, FRESH, pieces[..j]).st, Chronicle(feed, tell, FRESH, pieces[..j]))
    decreases j
  {
    if 0 < j {
      var a, b := Concat(pieces[..j - 1]), pieces[j - 1];
      PiecesNext(pieces, j - 1);
      PieceOf(m, pieces, j - 1);
      PiecesStay(inv, feed, tell, m, i, pieces, j - 1);
      NextCall(feed, tell, FRESH, pieces, j - 1);
      NoCrlfInside(m, i, |a|, |a| + |b|);
      assert StaysAt(inv, feed, tell, a, b, Series(feed, FRESH, pieces[..j - 1]).st, Chronicle(feed, tell, FRESH, pieces[..j - 1]));
    }
  }

  lemma PieceOf(m: bytes, pieces: seq<bytes>, j: nat)
    requires Concat(pieces) == m && j < |pieces|
    ensures var k := |Concat(pieces[..j])|; k + |pieces[j]| <= |m| && m[..k] == Concat(pieces[..j]) && m[k..k + |pieces[j]|] == pieces[j]
  {
    PiecesUpTo(pieces, j);
    PiecesUpTo(pieces, j + 1);
    PiecesNext(pieces, j);
  }

  lemma NoCrlfInside(m: bytes, i: nat, k: nat, n: nat)
    requires CrlfFrom(m, 0) == Some(i) && k <= n <= i
    ensures CrlfFrom(m[k..n], 0).None?
  {
    CrlfFound(m, 0);
    CrlfFound(m[k..n], 0);
    if CrlfFrom(m[k..n], 0).Some? {
      assert CrlfAt(m, k + CrlfFrom(m[k..n], 0).value);
    }
  }

  lemma CrlfInside(m: bytes, i: nat, k: nat, n: nat)
    requires CrlfFrom(m, 0) == Some(i) && k <= i && i + 2 <= n <= |m|
    ensures CrlfFrom(m[k..n], 0) == Some(i - k) && m[..k] + m[k..n][0..i - k] == m[0..i]
  {
    CrlfFound(m, 0);
    forall j | 0 <= j < i - k ensures !CrlfAt(m[k..n], j) { assert !CrlfAt(m, k + j); }
    CrlfIs(m[k..n], 0, i - k);
  }

  // ----------------------------------------------------- all pieces of a request

  ghost predicate QuietFeedAt(feed: Feeder, tell: Speaker, st: State, b: bytes) {
    b != [] && st.phase != Idle && st.phase != RequestLinePhase ==> Quiet(tell(st, b)) && feed(st, b).st.phase != RequestLinePhase
  }

  ghost predicate QuietFeed(feed: Feeder, tell: Speaker) {
    forall st: State, b: bytes {:trigger QuietFeedAt(feed, tell, st, b)} :: QuietFeedAt(feed, tell, st, b)
  }

  lemma FeedsQuiet(cb: Setting)
    ensures QuietFeed(Feeds(cb), Speaks(cb))
  {
    forall st: State, b: bytes ensures QuietFeedAt(Feeds(cb), Speaks(cb), st, b) {
      if b != [] && st.phase != Idle && st.phase != RequestLinePhase {
        QuietCall(cb, st, b, 0);
      }
    }
  }

  /** Behind the piece that finishes the request line, nothing is added to Begin and Url. */
  lemma {:induction false} LaterPieces(feed: Feeder, tell: Speaker, pieces: seq<bytes>, j0: nat, j: nat)
    requires QuietFeed(feed, tell) && 0 < j0 <= j <= |pieces| && (forall n | 0 <= n < |pieces| :: pieces[n] != [])
    requires Series(feed, FRESH, pieces[..j0]).st.phase != RequestLinePhase
    requires forall n | j0 <= n < |pieces| :: Series(feed, FRESH, pieces[..n]).st.phase != Idle
    ensures Series(feed, FRESH, pieces[..j]).st.phase != RequestLinePhase
    ensures UrlOf(Chronicle(feed, tell, FRESH, pieces[..j])) == UrlOf(Chronicle(feed, tell, FRESH, pieces[..j0]))
    ensures Count(Chronicle(feed, tell, FRESH, pieces[..j]), Begin) == Count(Chronicle(feed, tell, FRESH, pieces[..j0]), Begin)
    decreases j
  {
    if j0 < j {
      var st := Series(feed, FRESH, pieces[..j - 1]).st;
      LaterPieces(feed, tell, pieces, j0, j - 1);
      NextCall(feed, tell, FRESH, pieces, j - 1);
      assert QuietFeedAt(feed, tell, st, pieces[j - 1]);
      QuietBehind(Chronicle(feed, tell, FRESH, pieces[..j - 1]), tell(st, pieces[j - 1]));
    }
  }

  /** The piece that finishes the request line: pieces 0 to j0 - 1 lie inside it. */
  lemma {:induction false} FindCrossing(pieces: seq<bytes>, i: nat, j: nat) returns (j0: nat)
    requires j <= |pieces| && |Concat(pieces[..j])| <= i < |Concat(pieces)|
    ensures j <= j0 < |pieces| && |Concat(pieces[..j0])| <= i < |Concat(pieces[..j0 + 1])|
    decreases |pieces| - j
  {
    assert pieces[..|pieces|] == pieces;
    if i < |Concat(pieces[..j + 1])| {
      j0 := j;
    } else {
      j0 := FindCrossing(pieces, i, j + 1);
    }
  }

  lemma {:induction false} CutsGrow(pieces: seq<bytes>, j: nat, n: nat)
    requires j <= n <= |pieces| && (forall k | 0 <= k < |pieces| :: pieces[k] != [])
    ensures |Concat(pieces[..j])| <= |Concat(pieces[..n])| && (j < n ==> |Concat(pieces[..j])| < |Concat(pieces[..n])|)
    decreases n
  {
    if j < n {
      PiecesNext(pieces, n - 1);
      CutsGrow(pieces, j, n - 1);
    }
  }

  /** The target is what stands before the next space behind the first one, or less. */
  ghost predicate PlainTargets(g: LineGrammar) {
    forall l: bytes :: g.request(l).Some? ==> g.request(l).value.target <= AfterSpace(l)
  }

  /** The position of the byte behind the target of a request line. */
  function TargetEnd(line: bytes, target: bytes): (k: int) {
    |line| - |AfterSpace(line)| + |target|
  }

  /** How much of what follows the first space has arrived with `line[..k]`. */
  lemma AfterSpaceSize(line: bytes, k: nat)
    requires k <= |line|
    ensures |AfterSpace(line[..k])| == if |line| - |AfterSpace(line)| <= k then k - (|line| - |AfterSpace(line)|) else 0
  {
    match FindByte(line, SP)
    case None =>
      assert FindByte(line[..k], SP).None?;
    case Some(first) =>
      if first < k {
        ByteIs(line[..k], SP, first);
      }
  }

  /** No cut falls behind the target and inside the request line. */
  ghost predicate TargetUncut(pieces: seq<bytes>, end: int, i: nat) {
    forall j | 0 < j < |pieces| :: !(end < |Concat(pieces[..j])| <= i)
  }

  /** Only the last cut inside the line matters. */
  lemma LastCutDecides(pieces: seq<bytes>, end: int, i: nat, j0: nat)
    requires j0 < |pieces| && |Concat(pieces[..j0])| <= i < |Concat(pieces[..j0 + 1])| && 0 <= end
    requires forall k | 0 <= k < |pieces| :: pieces[k] != []
    ensures TargetUncut(pieces, end, i) <==> |Concat(pieces[..j0])| <= end
  {
    if |Concat(pieces[..j0])| <= end {
      forall j | 0 < j < |pieces| ensures !(end < |Concat(pieces[..j])| <= i) {
        if j <= j0 {
          CutsGrow(pieces, j, j0);
        } else {
          CutsGrow(pieces, j0 + 1, j);
        }
      }
    } else {
      assert end < |Concat(pieces[..j0])| <= i;
    }
  }

  /** What holds once the request line is finished, `a` having arrived in earlier pieces. */
  ghost predicate Crossed(cb: Setting, a: bytes, target: bytes, st: State, es: seq<Event>) {
    && st.phase != RequestLinePhase
    && (cb.begin ==> Count(es, Begin) == if a == [] then 1 else 2)
    && (cb.url ==> (UrlOf(es) == target <==> |AfterSpace(a)| <= |target|))
  }

  /** The call that finishes the request line `line`, of which `a` had arrived. */
  lemma CrossedRequestLine(cb: Setting, a: bytes, b: bytes, st: State, es: seq<Event>, j: nat, line: bytes, l: RequestLine)
    requires InRequestLine(cb, a, st, es) && b != [] && CrlfFrom(b, 0) == Some(j)
    requires line == a + b[0..j] && |line| <= SCRATCH && cb.lines.request(line) == Some(l) && l.target <= AfterSpace(line)
    ensures Crossed(cb, a, l.target, Feed(cb, st, b).st, es + FeedSays(cb, st, b))
  {
    var rest := CrossingCall(cb, st, b, j, line, l);
    CrossedTold(cb, st.told.url, l.target, es, rest);
    AfterSpaceGrows(a, b[0..j]);
    PrefixesAgree(AfterSpace(a), l.target, AfterSpace(line));
    assert FeedSays(cb, st, b) == When(cb.begin, Begin) + UrlRest(cb.url, l.target, st.told.url) + rest;
  }

  type Finding = (State, seq<Event>) -> bool

  lemma OneMorePiece(inv: Finding, after: Finding, feed: Feeder, tell: Speaker, pieces: seq<bytes>, j: nat)
    requires j < |pieces| && inv(Series(feed, FRESH, pieces[..j]).st, Chronicle(feed, tell, FRESH, pieces[..j]))
    requires forall st: State, es: seq<Event> :: inv(st, es) ==> after(feed(st, pieces[j]).st, es + tell(st, pieces[j]))
    ensures after(Series(feed, FRESH, pieces[..j + 1]).st, Chronicle(feed, tell, FRESH, pieces[..j + 1]))
  {
    NextCall(feed, tell, FRESH, pieces, j);
  }

  lemma CrossingPlace(m: bytes, pieces: seq<bytes>, i: nat, j0: nat)
    requires Concat(pieces) == m && CrlfFrom(m, 0) == Some(i) && j0 < |pieces|
    requires |Concat(pieces[..j0])| <= i && i + 2 <= |Concat(pieces[..j0 + 1])|
    ensures var a, b := Concat(pieces[..j0]), pieces[j0];
            i - |a| <= |b| && CrlfFrom(b, 0) == Some(i - |a|) && m[0..i] == a + b[0..i - |a|]
  {
    var a, b := Concat(pieces[..j0]), pieces[j0];
    PieceOf(m, pieces, j0);
    PiecesNext(pieces, j0);
    CrlfInside(m, i, |a|, |a| + |b|);
  }

  lemma AnyCrosses(cb: Setting, inv: Finding, after: Finding, a: bytes, b: bytes, j: nat, line: bytes, l: RequestLine)
    requires b != [] && CrlfFrom(b, 0) == Some(j)
    requires line == a + b[0..j] && |line| <= SCRATCH && cb.lines.request(line) == Some(l) && l.target <= AfterSpace(line)
    requires forall st: State, es: seq<Event> :: inv(st, es) ==> InRequestLine(cb, a, st, es)
    requires forall st: State, es: seq<Event> :: Crossed(cb, a, l.target, st, es) ==> after(st, es)
    ensures forall st: State, es: seq<Event> :: inv(st, es) ==> after(Feeds(cb)(st, b).st, es + Speaks(cb)(st, b))
  {
    forall st: State, es: seq<Event> | inv(st, es) ensures after(Feeds(cb)(st, b).st, es + Speaks(cb)(st, b)) {
      CrossedRequestLine(cb, a, b, st, es, j, line, l);
      assert Crossed(cb, a, l.target, Feed(cb, st, b).st, es + FeedSays(cb, st, b));
    }
  }

  /** What the pieces up to the end of the request line have told. */
  lemma CrossingPiece(cb: Setting, m: bytes, pieces: seq<bytes>, i: nat, l: RequestLine, j0: nat)
    requires Concat(pieces) == m && (forall k | 0 <= k < |pieces| :: pieces[k] != []) && CrlfFrom(m, 0) == Some(i) && i <= SCRATCH
    requires cb.lines.request(m[0..i]) == Some(l) && l.target <= AfterSpace(m[0..i])
    requires j0 < |pieces| && |Concat(pieces[..j0])| <= i && i + 2 <= |Concat(pieces[..j0 + 1])|
    ensures Crossed(cb, Concat(pieces[..j0]), l.target, After(cb, FRESH, pieces[..j0 + 1]).st, SaysAll(cb, FRESH, pieces[..j0 + 1]))
  {
    var a, b := Concat(pieces[..j0]), pieces[j0];
    var inv: Finding := (st: State, es: seq<Event>) => InRequestLine(cb, a, st, es);
    var after: Finding := (st: State, es: seq<Event>) => Crossed(cb, a, l.target, st, es);
    CrossingPlace(m, pieces, i, j0);
    AnyCrosses(cb, inv, after, a, b, i - |a|, m[0..i], l);
    InRequestLineHere(cb, m, i, pieces, j0);
    OneMorePiece(inv, after, Feeds(cb), Speaks(cb), pieces, j0);
  }

  lemma InRequestLineHere(cb: Setting, m: bytes, i: nat, pieces: seq<bytes>, j: nat)
    requires Concat(pieces) == m && (forall n | 0 <= n < |pieces| :: pieces[n] != []) && CrlfFrom(m, 0) == Some(i) && i <= SCRATCH
    requires j <= |pieces| && |Concat(pieces[..j])| <= i
    ensures InRequestLine(cb, Concat(pieces[..j]), After(cb, FRESH, pieces[..j]).st, SaysAll(cb, FRESH, pieces[..j]))
  {
    var inv: Condition := (a: bytes, st: State, es: seq<Event>) => InRequestLine(cb, a, st, es);
    FeedsStay(cb, inv);
    PiecesStay(inv, Feeds(cb), Speaks(cb), m, i, pieces, j);
  }

  /** Behind the piece that finishes the request line, all pieces tell the same Begin and Url. */
  lemma AllPiecesTell(cb: Setting, m: bytes, pieces: seq<bytes>, j: nat)
    requires WholeRequest(cb.lines, m) && SafePieces(cb.lines, m, pieces) && 0 < j <= |pieces|
    requires After(cb, FRESH, pieces[..j]).st.phase != RequestLinePhase
    ensures UrlOf(SaysAll(cb, FRESH, pieces)) == UrlOf(SaysAll(cb, FRESH, pieces[..j]))
    ensures Count(SaysAll(cb, FRESH, pieces), Begin) == Count(SaysAll(cb, FRESH, pieces[..j]), Begin)
  {
    forall n | j <= n < |pieces| ensures Series(Feeds(cb), FRESH, pieces[..n]).st.phase != Idle {
      IncrementalRefinesOneShot(cb, m, pieces, n);
    }
    FeedsQuiet(cb);
    LaterPieces(Feeds(cb), Speaks(cb), pieces, j, |pieces|);
    assert pieces[..|pieces|] == pieces;
  }

  /** How much of the target has arrived, in terms of the last cut inside the line. */
  lemma ArrivedTarget(m: bytes, pieces: seq<bytes>, i: nat, j0: nat, target: bytes)
    requires Concat(pieces) == m && i <= |m| && target <= AfterSpace(m[0..i])
    requires forall k | 0 <= k < |pieces| :: pieces[k] != []
    requires j0 < |pieces| && |Concat(pieces[..j0])| <= i < |Concat(pieces[..j0 + 1])|
    ensures TargetUncut(pieces, TargetEnd(m[0..i], target), i) <==> |AfterSpace(Concat(pieces[..j0]))| <= |target|
  {
    var line, k := m[0..i], |Concat(pieces[..j0])|;
    AfterSpaceSize(line, k);
    PiecesUpTo(pieces, j0);
    assert line[..k] == Concat(pieces[..j0]);
    LastCutDecides(pieces, TargetEnd(line, target), i, j0);
  }

  /** In tryFastSplitRequest, Begin fires once exactly when no cut falls inside the request line, and twice otherwise; the
      URL fragments join to the target exactly when no cut falls between the end of the target and
      the end of the request line. */
  lemma StartOfPieces(cb: Setting, m: bytes, pieces: seq<bytes>)
    requires WholeRequest(cb.lines, m) && SafePieces(cb.lines, m, pieces) && PlainTargets(cb.lines)
    ensures var es, i := SaysAll(cb, FRESH, pieces), CrlfFrom(m, 0).value;
            var target := ParseMessage(cb.lines, Request, m).msg.start.req.target;
            && |pieces| > 0
            && (cb.begin ==> Count(es, Begin) == if |pieces[0]| <= i then 2 else 1)
            && (cb.url ==> (UrlOf(es) == target <==> TargetUncut(pieces, TargetEnd(m[0..i], target), i)))
  {
    var i, l, meta := HeadOf(cb.lines, m, 0);
    var j0 := FindCrossing(pieces, i, 0);
    CrossingFits(cb.lines, m, pieces, i, j0);
    CrossingPiece(cb, m, pieces, i, l, j0);
    AllPiecesTell(cb, m, pieces, j0 + 1);
    FirstPieceInside(pieces, i, j0);
    ArrivedTarget(m, pieces, i, j0, l.target);
  }

  lemma FirstPieceInside(pieces: seq<bytes>, i: nat, j0: nat)
    requires j0 < |pieces| && |Concat(pieces[..j0])| <= i < |Concat(pieces[..j0 + 1])|
    requires forall k | 0 <= k < |pieces| :: pieces[k] != []
    ensures Concat(pieces[..j0]) == [] <==> i < |pieces[0]|
  {
    PiecesNext(pieces, 0);
    EmptyAppend(pieces[0]);
    if 0 < j0 {
      CutsGrow(pieces, 1, j0);
      CutsGrow(pieces, 0, j0);
    }
  }

  /** No safe cut falls inside the CRLF of the request line. */
  lemma CrossingFits(g: LineGrammar, m: bytes, pieces: seq<bytes>, i: nat, j0: nat)
    requires WholeRequest(g, m) && SafePieces(g, m, pieces) && CrlfFrom(m, 0) == Some(i) && j0 < |pieces| && i < |Concat(pieces[..j0 + 1])|
    ensures i + 2 <= |Concat(pieces[..j0 + 1])|
  {
    assert pieces[..|pieces|] == pieces;
    if j0 + 1 < |pieces| {
      PieceCut(m, pieces, j0 + 1);
      var i', l, meta := HeadOf(g, m, |Concat(pieces[..j0 + 1])|);
    }
  }
}
