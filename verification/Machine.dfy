/** The resumable request machine of internal/parser/engine.go (tryFastSplitRequestEmpty,
    tryFastSplitRequest and the functions they call) as functions of its state and one buffer:
    `Run` gives the state a call leaves behind, `Says` the callbacks it makes. */
module Machine {
  import opened Bytes
  import opened Numerals
  import opened Grammar
  import opened Events

  const SCRATCH: nat := 4096

  datatype Phase = Idle | RequestLinePhase | HeaderPhase | BodyPhase | ChunkSizePhase | ChunkDataPhase

  /** The line grammar, and which callbacks of a Setting are present. */
  datatype Setting = Setting(
    lines: LineGrammar,
    begin: bool,
    url: bool,
    field: bool,
    value: bool,
    headers: bool,
    body: bool,
    complete: bool)

  /** What the lines of the head have said so far. */
  datatype Facts = Facts(verb: nat, version: Version, hasLength: bool, chunked: bool, flags: Flags)

  /** What has been announced of the current line: begin fired, bytes of target and value passed on. */
  datatype Told = Told(started: bool, url: nat, value: nat)

  /** The parser fields the request machine reads and writes, and Upgrade, which it does neither. */
  datatype State = State(phase: Phase, scratch: bytes, length: int, facts: Facts, told: Told, done: bool, upgrade: bool)

  const FRESH := State(Idle, [], -1, Facts(0, Version(0, 0), false, false, NO_FLAGS), Told(false, 0, 0), false, false)

  /** Where the input of a call ended: outside every line terminator, behind a CR that may begin
      one, or between the data of a chunk (or the zero size line) and the end of its CRLF. */
  datatype Seam = Clean | AfterCr | Torn

  /** What one call leaves behind: the new state, the consumed count it returns, its error, and
      where its input ended. */
  datatype Outcome = Outcome(st: State, n: nat, err: Option<Err>, seam: Seam)

  /** One turn of the machine's loops: it leaves the call, or goes on at position `next`. */
  datatype Turn = Stop(out: Outcome) | Go(st: State, next: nat)

  function Fail(st: State, err: Err): (t: Turn) {
    Stop(Outcome(st, 0, Some(err), Clean))
  }

  function Finish(st: State): (r: State) {
    st.(phase := Idle, done := true, scratch := [])
  }

  /** The offset after announcing all of `v`. */
  function Passed(on: bool, v: bytes, offset: nat): (r: nat) {
    if on && offset < |v| then |v| else offset
  }

  // --------------------------------------------------------------- whole lines

  function TakeRequestLine(cb: Setting, st: State, line: bytes, k: nat): (t: Turn)
    ensures t.Go? ==> t.next == k
  {
    match cb.lines.request(line)
    case None => Fail(st, ErrReqMethod)
    case Some(l) =>
      Go(st.(phase := HeaderPhase, scratch := [], facts := st.facts.(verb := l.verb, version := l.version),
             told := Told(cb.begin, Passed(cb.url, l.target, st.told.url), st.told.value)), k)
  }

  /** consumeFastHeader: what a header line adds to the facts, and the length it sets. */
  function NoteHeader(facts: Facts, length: int, h: Header): (r: Option<(Facts, int)>) {
    if IsLength(h) then
      if facts.hasLength then None
      else
        match ParseNumeral(10, h.value)
        case None => None
        case Some(n) => Some((facts.(hasLength := true), n))
    else if IsChunked(h) then Some((facts.(chunked := true), length))
    else Some((facts.(flags := AddFlags(facts.flags, h)), length))
  }

  function TakeHeader(cb: Setting, st: State, line: bytes, k: nat): (t: Turn)
    ensures t.Go? ==> t.next == k
  {
    match cb.lines.header(line)
    case None => Fail(st, ErrHeaderOverflow)
    case Some(h) =>
      match NoteHeader(st.facts, st.length, h)
      case None => Fail(st, if st.facts.hasLength then ErrDuplicateLength else ErrInvalidLength)
      case Some((facts, length)) =>
        Go(st.(scratch := [], facts := facts, length := length,
               told := if cb.value then st.told.(value := 0) else st.told), k)
  }

  function EndHeaders(st: State, k: nat, whole: nat): (t: Turn)
    ensures t.Go? ==> t.next == k
  {
    if st.facts.chunked then Go(st.(phase := ChunkSizePhase, scratch := []), k)
    else if st.length > 0 then Go(st.(phase := BodyPhase, scratch := []), k)
    else Stop(Outcome(Finish(st), whole, None, Clean))
  }

  /** What is left behind position `k` when that is at most one byte. */
  function Stray(buf: bytes, k: nat): (r: bytes) {
    if k < |buf| then [buf[k]] else []
  }

  function TakeSizeLine(cb: Setting, st: State, line: bytes, buf: bytes, k: nat): (t: Turn)
    requires k <= |buf|
    ensures t.Go? ==> t.next == k
  {
    match cb.lines.size(line)
    case None => Fail(st, ErrChunkSize)
    case Some(size) =>
      var st' := st.(scratch := []);
      if size < 0 then Fail(st', Fault)
      else if size > 0 then Go(st'.(phase := ChunkDataPhase, length := size), k)
      else if |buf| < k + 2 then Stop(Outcome(st'.(scratch := Stray(buf, k)), |buf|, None, Torn))
      else if !CrlfAt(buf, k) then Fail(st', ErrChunkSize)
      else Stop(Outcome(Finish(st'), k + 2, None, Clean))
  }

  function TakeLine(cb: Setting, st: State, line: bytes, buf: bytes, k: nat): (t: Turn)
    requires k <= |buf|
    ensures t.Go? ==> t.next == k
  {
    match st.phase
    case RequestLinePhase => TakeRequestLine(cb, st, line, k)
    case ChunkSizePhase => TakeSizeLine(cb, st, line, buf, k)
    case _ => if line == [] then EndHeaders(st, k, |buf|) else TakeHeader(cb, st, line, k)
  }

  // ------------------------------------------------------------- unfinished lines

  function AfterSpace(line: bytes): (r: bytes) {
    match FindByte(line, SP)
    case None => []
    case Some(i) => line[i + 1..]
  }

  /** The offsets after what has arrived of an unfinished line was announced
      (emitSplitRequestLineFragment, emitSplitHeaderValueFragment). */
  function Announced(cb: Setting, phase: Phase, told: Told, line: bytes): (r: Told) {
    match phase
    case RequestLinePhase =>
      told.(started := told.started || cb.begin, url := Passed(cb.url, AfterSpace(line), told.url))
    case HeaderPhase => told.(value := Passed(cb.value, PartialValue(line), told.value))
    case _ => told
  }

  /** The count returned for an unfinished line that starts in the buffer at `p`: with a
      HeaderValue callback, `p` and the bytes before the value. */
  function Reported(cb: Setting, phase: Phase, line: bytes, p: nat, whole: nat): (n: nat) {
    match FindByte(line, COLON)
    case Some(sep) => if phase == HeaderPhase && cb.value then p + SkipFrom(line, sep + 1) else whole
    case None => whole
  }

  function KeepLine(cb: Setting, st: State, buf: bytes, p: nat): (t: Turn)
    requires p < |buf|
  {
    if |st.scratch| + |buf| - p > SCRATCH then Fail(st, ErrScratchOverflow)
    else
      var line := st.scratch + buf[p..];
      Stop(Outcome(st.(scratch := line, told := Announced(cb, st.phase, st.told, line)),
                   Reported(cb, st.phase, line, p, |buf|), None, if buf[|buf| - 1] == CR then AfterCr else Clean))
  }

  /** While a line is taken, scratch holds it if it held its beginning. */
  function Holding(st: State, line: bytes): (r: State) {
    if st.scratch == [] then st else st.(scratch := line)
  }

  /** A line from `p` on: finished by the next CRLF, with scratch as its beginning, or kept. */
  function LineTurn(cb: Setting, st: State, buf: bytes, p: nat): (t: Turn)
    requires p < |buf|
    ensures t.Go? ==> p < t.next <= |buf|
  {
    match CrlfFrom(buf, p)
    case None => KeepLine(cb, st, buf, p)
    case Some(i) =>
      if st.scratch != [] && |st.scratch| + i - p > SCRATCH then Fail(st, ErrScratchOverflow)
      else
        var line := st.scratch + buf[p..i];
        TakeLine(cb, Holding(st, line), line, buf, i + 2)
  }

  // ------------------------------------------------------------------------ data

  function Least(a: nat, b: nat): (m: nat) { if a <= b then a else b }

  /** consumeFastBodyWithCallbacks. */
  function BodyTurn(st: State, buf: bytes, p: nat): (t: Turn)
    requires p < |buf|
  {
    if st.length <= 0 then Stop(Outcome(Finish(st), p, None, Clean))
    else
      var k := Least(|buf| - p, st.length);
      var st' := st.(length := st.length - k);
      Stop(Outcome(if st'.length == 0 then Finish(st') else st', p + k, None, Clean))
  }

  /** The data branch of consumeFastChunkedWithCallbacks. */
  function DataTurn(st: State, buf: bytes, p: nat): (t: Turn)
    requires p < |buf|
    ensures t.Go? ==> p < t.next <= |buf|
  {
    if st.length < 0 then Fail(st, Fault)
    else
      var k := Least(|buf| - p, st.length);
      if k < st.length then Go(st.(length := st.length - k), |buf|)
      else
        var st' := st.(phase := ChunkSizePhase, length := 0);
        if |buf| < p + k + 2 then
          if |st.scratch| + |buf| - (p + k) > SCRATCH then Fail(st', ErrScratchOverflow)
          else Stop(Outcome(st'.(scratch := st.scratch + Stray(buf, p + k)), |buf|, None, Torn))
        else if !CrlfAt(buf, p + k) then Fail(st', ErrChunkSize)
        else Go(st', p + k + 2)
  }

  // ------------------------------------------------------------------- the machine

  function Step(cb: Setting, st: State, buf: bytes, p: nat): (t: Turn)
    ensures t.Go? ==> p < t.next <= |buf|
  {
    if |buf| <= p then Stop(Outcome(st, p, None, Clean))
    else
      match st.phase
      case Idle => Stop(Outcome(st, p, None, Clean))
      case BodyPhase => BodyTurn(st, buf, p)
      case ChunkDataPhase => DataTurn(st, buf, p)
      case _ => LineTurn(cb, st, buf, p)
  }

  type Stepper = (State, bytes, nat) -> Turn

  function Steps(cb: Setting): (step: Stepper) {
    (st: State, buf: bytes, p: nat) => Step(cb, st, buf, p)
  }

  /** A call's loop from position `p` of the buffer on. */
  function Loop(step: Stepper, st: State, buf: bytes, p: nat): (o: Outcome)
    decreases |buf| - p
  {
    if p >= |buf| then Outcome(st, p, None, Clean)
    else
      match step(st, buf, p)
      case Stop(o) => o
      case Go(st', next) => if p < next <= |buf| then Loop(step, st', buf, next) else Outcome(st', p, None, Clean)
  }

  function Run(cb: Setting, st: State, buf: bytes, p: nat): (o: Outcome) {
    Loop(Steps(cb), st, buf, p)
  }

  function Start(st: State): (r: State) {
    if st.phase == Idle then st.(phase := RequestLinePhase) else st
  }

  /** One call of tryFastSplitRequest, or without callbacks of tryFastSplitRequestEmpty. */
  function Feed(cb: Setting, st: State, buf: bytes): (o: Outcome) {
    if buf == [] then Outcome(st, 0, None, Clean) else Run(cb, Start(st), buf, 0)
  }

  // ------------------------------------------------------------------- callbacks

  function When(c: bool, e: Event): (r: seq<Event>) {
    if c then [e] else []
  }

  /** The part of a target or value not announced yet, if there is one. */
  function UrlRest(on: bool, v: bytes, offset: nat): (r: seq<Event>) {
    if on && offset < |v| then [Url(v[offset..])] else []
  }

  function ValueRest(on: bool, v: bytes, offset: nat): (r: seq<Event>) {
    if on && offset < |v| then [Value(v[offset..])] else []
  }

  function LineSays(cb: Setting, st: State, line: bytes, buf: bytes, k: nat): (r: seq<Event>) {
    match st.phase
    case RequestLinePhase =>
      (match cb.lines.request(line)
       case None => []
       case Some(l) => When(cb.begin, Begin) + UrlRest(cb.url, l.target, st.told.url))
    case ChunkSizePhase => When(cb.complete && cb.lines.size(line) == Some(0) && CrlfAt(buf, k), Complete)
    case _ =>
      if line == [] then
        When(cb.headers, HeadersDone) + When(cb.complete && !st.facts.chunked && st.length <= 0, Complete)
      else
        match cb.lines.header(line)
        case None => []
        case Some(h) =>
          if NoteHeader(st.facts, st.length, h).None? then []
          else When(cb.field, Field(h.name)) + ValueRest(cb.value, h.value, st.told.value)
  }

  function OpenLineSays(cb: Setting, phase: Phase, told: Told, line: bytes): (r: seq<Event>) {
    match phase
    case RequestLinePhase =>
      When(cb.begin && !told.started, Begin) + UrlRest(cb.url, AfterSpace(line), told.url)
    case HeaderPhase => ValueRest(cb.value, PartialValue(line), told.value)
    case _ => []
  }

  function LineTurnSays(cb: Setting, st: State, buf: bytes, p: nat): (r: seq<Event>)
    requires p < |buf|
  {
    match CrlfFrom(buf, p)
    case None =>
      if |st.scratch| + |buf| - p > SCRATCH then [] else OpenLineSays(cb, st.phase, st.told, st.scratch + buf[p..])
    case Some(i) =>
      if st.scratch != [] && |st.scratch| + i - p > SCRATCH then []
      else LineSays(cb, st, st.scratch + buf[p..i], buf, i + 2)
  }

  function DataSays(cb: Setting, st: State, buf: bytes, p: nat): (r: seq<Event>)
    requires p < |buf|
  {
    if st.length <= 0 then [] else When(cb.body, BodyPart(buf[p..p + Least(|buf| - p, st.length)]))
  }

  function StepSays(cb: Setting, st: State, buf: bytes, p: nat): (r: seq<Event>) {
    if |buf| <= p then []
    else
      match st.phase
      case Idle => []
      case BodyPhase => DataSays(cb, st, buf, p) + When(cb.complete && st.length <= |buf| - p, Complete)
      case ChunkDataPhase => DataSays(cb, st, buf, p)
      case _ => LineTurnSays(cb, st, buf, p)
  }

  type Teller = (State, bytes, nat) -> seq<Event>

  function Tells(cb: Setting): (says: Teller) {
    (st: State, buf: bytes, p: nat) => StepSays(cb, st, buf, p)
  }

  /** The callbacks of a call's loop from position `p` on. */
  function Tale(step: Stepper, says: Teller, st: State, buf: bytes, p: nat): (r: seq<Event>)
    decreases |buf| - p
  {
    if p >= |buf| then []
    else
      says(st, buf, p) +
      match step(st, buf, p)
      case Stop(_) => []
      case Go(st', next) => if p < next <= |buf| then Tale(step, says, st', buf, next) else []
  }

  function Says(cb: Setting, st: State, buf: bytes, p: nat): (r: seq<Event>) {
    Tale(Steps(cb), Tells(cb), st, buf, p)
  }

  function FeedSays(cb: Setting, st: State, buf: bytes): (r: seq<Event>) {
    if buf == [] then [] else Says(cb, Start(st), buf, 0)
  }
}
