/** The resumable machine refines the one-shot parser: a message accepted in one buffer, cut into
    any safe pieces, drives the machine to completion exactly on the last piece. */
module Incremental {
  import opened Bytes
  import opened Grammar
  import opened Reference
  import opened Machine
  import opened Split

  // ------------------------------------------------------------- cuts and sizes

  /** Where `k` lies in the chunked body that starts at `p`: not inside the CRLF of a size line, of
      a chunk or behind the zero chunk, and not between the zero size line and its CRLF. */
  predicate ChunkCut(g: LineGrammar, buf: bytes, p: nat, k: nat)
    requires p <= |buf|
    decreases |buf| - p
  {
    match CrlfFrom(buf, p)
    case None => false
    case Some(i) =>
      if k < i + 2 then k != i + 1
      else
        match TakeChunk(g, buf, p)
        case Some(Data(data, next)) => k < i + 2 + |data| || (next <= k && ChunkCut(g, buf, next, k))
        case _ => false
  }

  /** The position behind the empty line that ends the head. */
  function HeadEnd(g: LineGrammar, m: bytes): (p: nat) {
    match CrlfFrom(m, 0)
    case None => 0
    case Some(i) =>
      match ParseStart(g, Request, m[..i])
      case None => 0
      case Some(start) =>
        match ParseHeaders(g, StartMeta(start), m, i + 2)
        case HeadDone(_, _, next) => next
        case _ => 0
  }

  /** A position at which an accepted message may be cut: outside the CRLF of a line, and outside
      the terminators of a chunked body. */
  predicate SafeCut(g: LineGrammar, m: bytes, k: nat) {
    if 0 < k < HeadEnd(g, m) then !CrlfAt(m, k - 1)
    else
      match ParseMessage(g, Request, m)
      case Accepted(msg) => msg.mode == ChunkedBody && HeadEnd(g, m) <= |m| ==> ChunkCut(g, m, HeadEnd(g, m), k)
      case _ => true
  }

  predicate LineFits(buf: bytes, p: nat)
    requires p <= |buf|
  {
    CrlfFrom(buf, p).Some? ==> CrlfFrom(buf, p).value - p <= SCRATCH
  }

  /** Every line of the head from `p` on fits the scratch buffer. */
  predicate HeadFits(buf: bytes, p: nat, end: nat)
    requires p <= |buf|
    decreases |buf| - p
  {
    LineFits(buf, p) && (CrlfFrom(buf, p).Some? && CrlfFrom(buf, p).value + 2 < end ==> HeadFits(buf, CrlfFrom(buf, p).value + 2, end))
  }

  /** Every size line of the chunked body at `p` fits the scratch buffer. */
  predicate SizesFit(g: LineGrammar, buf: bytes, p: nat)
    requires p <= |buf|
    decreases |buf| - p
  {
    LineFits(buf, p) &&
    match TakeChunk(g, buf, p)
    case Some(Data(_, next)) => SizesFit(g, buf, next)
    case _ => true
  }

  predicate Fits(g: LineGrammar, m: bytes) {
    && HeadFits(m, 0, HeadEnd(g, m))
    && (ParseMessage(g, Request, m).Accepted? && ParseMessage(g, Request, m).msg.mode == ChunkedBody && HeadEnd(g, m) <= |m|
        ==> SizesFit(g, m, HeadEnd(g, m)))
  }

  // ----------------------------------------------------- single turns on a buffer

  /** What a call leaves behind when its buffer `c` ends in the line that starts at `p`. */
  ghost predicate LeavesOpen(cb: Setting, st: State, c: bytes, p: nat, o: Outcome) {
    && p < |c|
    && o.err.None? && o.st.phase == st.phase && o.st.scratch == c[p..] && o.st.done == st.done
    && (!cb.value ==> o.n == |c|) && o.seam == if c[|c| - 1] == CR then AfterCr else Clean
  }

  /** An unfinished line is kept if it fits. */
  lemma OpenTurn(cb: Setting, st: State, c: bytes, p: nat)
    requires p < |c| && InLine(st) && st.scratch == [] && CrlfFrom(c, p).None?
    ensures Step(cb, st, c, p).Stop?
    ensures |c| - p <= SCRATCH ==> LeavesOpen(cb, st, c, p, Step(cb, st, c, p).out)
    ensures |c| - p > SCRATCH ==> Step(cb, st, c, p).out.err.Some?
  {
    EmptyAppend(c[p..]);
  }

  /** The turn in which a size line is read. */
  function SizeTurn(st: State, c: bytes, i: nat, size: nat): (t: Turn) {
    if 0 < size then Go(st.(phase := ChunkDataPhase, length := size), i + 2)
    else if |c| < i + 4 then Stop(Outcome(st.(scratch := Stray(c, i + 2)), |c|, None, Torn))
    else if CrlfAt(c, i + 2) then Stop(Outcome(Finish(st), i + 4, None, Clean))
    else Fail(st, ErrChunkSize)
  }

  /** What the turns of a body do, with nothing said about how they do it. */
  ghost predicate BodyTurns(cb: Setting, step: Stepper, c: bytes, st: State, p: nat) {
    p < |c| && st.scratch == [] ==>
      && (st.phase == BodyPhase ==> step(st, c, p) == BodyTurn(st, c, p))
      && (st.phase == ChunkDataPhase ==> step(st, c, p) == DataTurn(st, c, p))
      && (st.phase == ChunkSizePhase && CrlfFrom(c, p).Some? ==>
            match cb.lines.size(c[p..CrlfFrom(c, p).value])
            case Some(size) => 0 <= size ==> step(st, c, p) == SizeTurn(st, c, CrlfFrom(c, p).value, size)
            case None => true)
      && OpenTurns(cb, step, c, st, p)
  }

  ghost predicate OpenTurns(cb: Setting, step: Stepper, c: bytes, st: State, p: nat) {
    p < |c| && st.scratch == [] && InLine(st) && CrlfFrom(c, p).None? ==>
      && step(st, c, p).Stop?
      && (if |c| - p <= SCRATCH then LeavesOpen(cb, st, c, p, step(st, c, p).out) else step(st, c, p).out.err.Some?)
  }

  ghost predicate ReadsBody(cb: Setting, step: Stepper, c: bytes) {
    forall st: State, p: nat {:trigger BodyTurns(cb, step, c, st, p)} :: BodyTurns(cb, step, c, st, p)
  }

  lemma BodyTurnAt(cb: Setting, step: Stepper, c: bytes, st: State, p: nat)
    requires ReadsBody(cb, step, c)
    ensures BodyTurns(cb, step, c, st, p)
  {
  }

  lemma StepsOpen(cb: Setting, c: bytes, st: State, p: nat)
    ensures OpenTurns(cb, Steps(cb), c, st, p)
  {
    if p < |c| && InLine(st) && st.scratch == [] && CrlfFrom(c, p).None? {
      OpenTurn(cb, st, c, p);
    }
  }

  lemma StepsSize(cb: Setting, st: State, c: bytes, p: nat, i: nat, size: int)
    requires p < |c| && st.phase == ChunkSizePhase && st.scratch == [] && CrlfFrom(c, p) == Some(i)
    requires cb.lines.size(c[p..i]) == Some(size) && 0 <= size
    ensures Steps(cb)(st, c, p) == SizeTurn(st, c, i, size)
  {
    EmptyAppend(c[p..i]);
  }

  lemma StepsBody(cb: Setting, c: bytes, st: State, p: nat)
    ensures BodyTurns(cb, Steps(cb), c, st, p)
  {
    StepsOpen(cb, c, st, p);
    if p < |c| && st.scratch == [] && st.phase == ChunkSizePhase && CrlfFrom(c, p).Some? {
      match cb.lines.size(c[p..CrlfFrom(c, p).value])
      case Some(size) =>
        if 0 <= size {
          StepsSize(cb, st, c, p, CrlfFrom(c, p).value, size);
        }
      case None =>
    }
  }

  // --------------------------------------------------------------- runs on prefixes

  /** An unfinished line left in scratch still fits when its CRLF arrives. */
  ghost predicate OpenFits(st: State, m: bytes, k: nat) {
    st.scratch != [] ==> k <= |m| && CrlfFrom(m, k).Some? && |st.scratch| + CrlfFrom(m, k).value - k <= SCRATCH
  }

  /** The outcome of a call on the first `k` bytes of an accepted message `m`: the message is
      complete exactly when all of it has arrived, and the seam shows whether the cut is safe. */
  ghost predicate Reached(cb: Setting, m: bytes, k: nat, safe: bool, facts: Facts, o: Outcome) {
    if k < |m| then
      && (safe ==> o.err.None? && (!cb.value ==> o.n == k) && OpenFits(o.st, m, k))
      && (o.err.None? ==> o.st.phase != Idle && !o.st.done && (Whole(o.seam, m[k..]) <==> safe))
    else
      o.err.None? && o.st.phase == Idle && o.st.done && o.n == |m| && o.st.facts == facts && o.seam == Clean
  }

  lemma CrlfAhead(s: bytes, p: nat, k: nat)
    requires p <= k <= |s| && CrlfFrom(s, p).Some? && k <= CrlfFrom(s, p).value
    ensures CrlfFrom(s, k) == CrlfFrom(s, p)
  {
    CrlfFound(s, p);
    CrlfIs(s, k, CrlfFrom(s, p).value);
  }

  lemma OpenReached(cb: Setting, st: State, m: bytes, k: nat, p: nat, i: nat, facts: Facts, o: Outcome)
    requires p < k <= |m| && CrlfFrom(m, p) == Some(i) && k < i + 2 && i - p <= SCRATCH && InLine(st) && !st.done
    requires if k - p <= SCRATCH then LeavesOpen(cb, st, m[..k], p, o) else o.err.Some?
    ensures Reached(cb, m, k, k != i + 1, facts, o)
  {
    CrlfFound(m, p);
    if k <= i {
      CrlfAhead(m, p, k);
      assert !CrlfAt(m, k - 1);
    }
  }

  /** A line of `m` that a prefix does not finish. */
  lemma OpenRun(cb: Setting, step: Stepper, st: State, m: bytes, k: nat, p: nat, i: nat, facts: Facts)
    requires p < k <= |m| && CrlfFrom(m, p) == Some(i) && k < i + 2 && i - p <= SCRATCH
    requires InLine(st) && st.scratch == [] && !st.done && OpenTurns(cb, step, m[..k], st, p)
    ensures Reached(cb, m, k, k != i + 1, facts, Loop(step, st, m[..k], p))
  {
    CrlfPrefix(m, p, k);
    OpenReached(cb, st, m, k, p, i, facts, step(st, m[..k], p).out);
  }

  lemma BodyRun(cb: Setting, step: Stepper, st: State, m: bytes, c: bytes, p: nat)
    requires p <= |c| <= |m| && p + st.length == |m| && 0 < st.length
    requires st.phase == BodyPhase && st.scratch == [] && !st.done && BodyTurns(cb, step, c, st, p)
    ensures Reached(cb, m, |c|, true, st.facts, Loop(step, st, c, p))
  {
  }

  // ------------------------------------------------------------------ chunked bodies

  /** The data of a chunk, or its CRLF, is cut at `k`. */
  lemma CutDataRun(cb: Setting, step: Stepper, st: State, m: bytes, k: nat, q: nat)
    requires q <= k < |m| && st.phase == ChunkDataPhase && st.scratch == [] && 0 < st.length && !st.done
    requires k < q + st.length + 2 <= |m| && BodyTurns(cb, step, m[..k], st, q)
    ensures Reached(cb, m, k, k < q + st.length, st.facts, Loop(step, st, m[..k], q))
  {
  }

  lemma WholeDataRun(cb: Setting, step: Stepper, st: State, m: bytes, k: nat, q: nat)
    requires q < k <= |m| && st.phase == ChunkDataPhase && st.scratch == [] && 0 < st.length
    requires CrlfAt(m, q + st.length) && q + st.length + 2 <= k && BodyTurns(cb, step, m[..k], st, q)
    ensures Loop(step, st, m[..k], q) == Loop(step, st.(phase := ChunkSizePhase, length := 0), m[..k], q + st.length + 2)
  {
  }

  lemma SizeRun(cb: Setting, step: Stepper, st: State, m: bytes, k: nat, p: nat, i: nat, size: nat)
    requires p <= |m| && CrlfFrom(m, p) == Some(i) && i + 2 <= k <= |m| && cb.lines.size(m[p..i]) == Some(size)
    requires st.phase == ChunkSizePhase && st.scratch == [] && BodyTurns(cb, step, m[..k], st, p)
    ensures 0 < size ==>
              Loop(step, st, m[..k], p) == Loop(step, st.(phase := ChunkDataPhase, length := size), m[..k], i + 2)
    ensures size == 0 && i + 4 == |m| && CrlfAt(m, i + 2) && !st.done ==>
              Reached(cb, m, k, false, st.facts, Loop(step, st, m[..k], p))
  {
    CrlfPrefix(m, p, k);
    assert m[..k][p..i] == m[p..i];
  }

  lemma ChunkRun(cb: Setting, step: Stepper, st: State, m: bytes, k: nat, p: nat, i: nat, size: nat)
    requires p <= |m| && CrlfFrom(m, p) == Some(i) && i + 2 <= k <= |m| && cb.lines.size(m[p..i]) == Some(size)
    requires 0 < size && CrlfAt(m, i + 2 + size)
    requires ReadsBody(cb, step, m[..k])
    requires st.phase == ChunkSizePhase && st.scratch == [] && !st.done
    ensures k < i + 4 + size ==> Reached(cb, m, k, k < i + 2 + size, st.facts, Loop(step, st, m[..k], p))
    ensures i + 4 + size <= k ==> Loop(step, st, m[..k], p) == Loop(step, st.(length := 0), m[..k], i + 4 + size)
  {
    var st1 := st.(phase := ChunkDataPhase, length := size);
    BodyTurnAt(cb, step, m[..k], st, p);
    BodyTurnAt(cb, step, m[..k], st1, i + 2);
    SizeRun(cb, step, st, m, k, p, i, size);
    if k < i + 4 + size {
      CutDataRun(cb, step, st1, m, k, i + 2);
    } else {
      WholeDataRun(cb, step, st1, m, k, i + 2);
    }
  }

  /** The chunked body from `p` on, as far as the prefix goes. */
  lemma {:induction false} ChunksRun(cb: Setting, step: Stepper, st: State, m: bytes, k: nat, p: nat)
    requires p <= k <= |m| && ParseChunks(cb.lines, m, p).Some? && ParseChunks(cb.lines, m, p).value.next == |m|
    requires SizesFit(cb.lines, m, p) && ReadsBody(cb, step, m[..k])
    requires st.phase == ChunkSizePhase && st.scratch == [] && !st.done
    ensures Reached(cb, m, k, ChunkCut(cb.lines, m, p, k), st.facts, Loop(step, st, m[..k], p))
    decreases |m| - p
  {
    if p < k {
      var i := CrlfFrom(m, p).value;
      if k < i + 2 {
        BodyTurnAt(cb, step, m[..k], st, p);
        OpenRun(cb, step, st, m, k, p, i, st.facts);
      } else {
        match TakeChunk(cb.lines, m, p).value
        case Last(_) =>
          BodyTurnAt(cb, step, m[..k], st, p);
          SizeRun(cb, step, st, m, k, p, i, 0);
        case Data(data, next) =>
          ChunkRun(cb, step, st, m, k, p, i, |data|);
          if next <= k {
            ChunksRun(cb, step, st.(length := 0), m, k, next);
          }
      }
    }
  }

  // -------------------------------------------------------------------------- the head

  /** What the turns of a header section do. */
  ghost predicate HeadTurns(cb: Setting, step: Stepper, c: bytes, st: State, p: nat) {
    && OpenTurns(cb, step, c, st, p)
    && (p < |c| && st.phase == HeaderPhase && st.scratch == [] && CrlfFrom(c, p).Some? ==>
          var i := CrlfFrom(c, p).value;
          if i == p then step(st, c, p) == EndHeaders(st, p + 2, |c|)
          else cb.lines.header(c[p..i]).Some? && st.told.value == 0 ==>
            match NoteHeader(st.facts, st.length, cb.lines.header(c[p..i]).value)
            case Some((facts, length)) => step(st, c, p) == Go(st.(facts := facts, length := length), i + 2)
            case None => true)
  }

  ghost predicate ReadsHead(cb: Setting, step: Stepper, c: bytes) {
    forall st: State, p: nat {:trigger HeadTurns(cb, step, c, st, p)} :: HeadTurns(cb, step, c, st, p)
  }

  lemma HeadTurnAt(cb: Setting, step: Stepper, c: bytes, st: State, p: nat)
    requires ReadsHead(cb, step, c)
    ensures HeadTurns(cb, step, c, st, p)
  {
  }

  lemma StepsHead(cb: Setting, c: bytes, st: State, p: nat)
    ensures HeadTurns(cb, Steps(cb), c, st, p)
  {
    StepsOpen(cb, c, st, p);
    if p < |c| && st.phase == HeaderPhase && st.scratch == [] && CrlfFrom(c, p).Some? {
      EmptyAppend(c[p..CrlfFrom(c, p).value]);
    }
  }

  /** The machine's facts and length say what the reference parser's record says. */
  predicate Tracks(facts: Facts, length: int, meta: Meta) {
    && facts.hasLength == meta.hasLength && facts.chunked == meta.chunked
    && length == if meta.hasLength then meta.length else -1
  }

  lemma NoteAsApplied(facts: Facts, length: int, meta: Meta, h: Header)
    requires Tracks(facts, length, meta) && ApplyHeader(meta, h).Some?
    ensures NoteHeader(facts, length, h).Some?
    ensures var (facts', length') := NoteHeader(facts, length, h).value;
            && Tracks(facts', length', ApplyHeader(meta, h).value)
            && facts'.verb == facts.verb && facts'.version == facts.version && facts'.flags == AddFlags(facts.flags, h)
  {
    FramingHeadersCarryNoFlags(facts.flags, h);
  }

  /** The facts when a head with these headers has been read. */
  function FactsOf(facts: Facts, meta: Meta, hs: seq<Header>): (r: Facts) {
    Facts(facts.verb, facts.version, meta.hasLength, meta.chunked, AllFlags(facts.flags, hs))
  }

  /** `SafeCut` from the header line at `p` on. */
  predicate SafeFrom(g: LineGrammar, meta: Meta, m: bytes, p: nat, k: nat)
    requires p <= |m|
  {
    match ParseHeaders(g, meta, m, p)
    case HeadDone(meta', _, next) =>
      if 0 < k < next then !CrlfAt(m, k - 1) else meta'.chunked ==> ChunkCut(g, m, next, k)
    case _ => true
  }

  /** From the header line at `p` on, `m` is the rest of an accepted message that fits. */
  ghost predicate RestAccepted(g: LineGrammar, meta: Meta, m: bytes, p: nat) {
    p <= |m| &&
    match ParseHeaders(g, meta, m, p)
    case HeadDone(meta', _, next) =>
      && ParseBody(g, meta', m, next).BodyDone? && ParseBody(g, meta', m, next).next == |m|
      && HeadFits(m, p, next) && (meta'.chunked ==> SizesFit(g, m, next))
    case _ => false
  }

  /** The turn of the empty line. */
  lemma EmptyLineRun(cb: Setting, step: Stepper, st: State, m: bytes, k: nat, p: nat)
    requires CrlfAt(m, p) && p + 2 <= k <= |m| && HeadTurns(cb, step, m[..k], st, p)
    requires st.phase == HeaderPhase && st.scratch == []
    ensures match EndHeaders(st, p + 2, k)
            case Go(st', next) => Loop(step, st, m[..k], p) == Loop(step, st', m[..k], next)
            case Stop(o) => Loop(step, st, m[..k], p) == o
  {
    CrlfIs(m[..k], p, p);
  }

  /** The empty line is behind `k`: what follows depends on the framing. */
  lemma HeadEndRun(cb: Setting, step: Stepper, st: State, meta: Meta, m: bytes, k: nat, p: nat)
    requires CrlfAt(m, p) && p + 2 <= k <= |m| && Tracks(st.facts, st.length, meta)
    requires ParseBody(cb.lines, meta, m, p + 2).BodyDone? && ParseBody(cb.lines, meta, m, p + 2).next == |m|
    requires meta.chunked ==> SizesFit(cb.lines, m, p + 2)
    requires HeadTurns(cb, step, m[..k], st, p) && ReadsBody(cb, step, m[..k])
    requires st.phase == HeaderPhase && st.scratch == [] && !st.done
    ensures Reached(cb, m, k, meta.chunked ==> ChunkCut(cb.lines, m, p + 2, k), st.facts, Loop(step, st, m[..k], p))
  {
    EmptyLineRun(cb, step, st, m, k, p);
    if meta.chunked {
      ChunksRun(cb, step, st.(phase := ChunkSizePhase), m, k, p + 2);
    } else if 0 < st.length {
      BodyTurnAt(cb, step, m[..k], st.(phase := BodyPhase), p + 2);
      BodyRun(cb, step, st.(phase := BodyPhase), m, m[..k], p + 2);
    }
  }

  /** One header line that the prefix holds. */
  lemma HeaderRun(cb: Setting, step: Stepper, st: State, m: bytes, k: nat, p: nat, i: nat, h: Header, facts: Facts, length: int)
    requires p < i && i + 2 <= k <= |m| && CrlfFrom(m, p) == Some(i) && cb.lines.header(m[p..i]) == Some(h)
    requires NoteHeader(st.facts, st.length, h) == Some((facts, length))
    requires HeadTurns(cb, step, m[..k], st, p)
    requires st.phase == HeaderPhase && st.scratch == [] && st.told.value == 0
    ensures Loop(step, st, m[..k], p) == Loop(step, st.(facts := facts, length := length), m[..k], i + 2)
  {
    CrlfPrefix(m, p, k);
    assert m[..k][p..i] == m[p..i];
  }

  /** The facts of a head are those of its first header and of the others. */
  lemma FactsStep(facts: Facts, facts': Facts, meta: Meta, h: Header, hs: seq<Header>)
    requires facts'.verb == facts.verb && facts'.version == facts.version && facts'.flags == AddFlags(facts.flags, h)
    ensures FactsOf(facts, meta, [h] + hs) == FactsOf(facts', meta, hs)
  {
    assert ([h] + hs)[1..] == hs;
  }

  /** Past a header line, the rest of the message is what is left. */
  lemma RestStep(g: LineGrammar, meta: Meta, m: bytes, p: nat, i: nat, h: Header, meta': Meta, k: nat)
    requires RestAccepted(g, meta, m, p) && !CrlfAt(m, p) && CrlfFrom(m, p) == Some(i)
    requires g.header(m[p..i]) == Some(h) && ApplyHeader(meta, h) == Some(meta')
    ensures RestAccepted(g, meta', m, i + 2) && SafeFrom(g, meta, m, p, k) == SafeFrom(g, meta', m, i + 2, k)
    ensures var head, tail := ParseHeaders(g, meta, m, p), ParseHeaders(g, meta', m, i + 2);
            head == HeadDone(tail.meta, [h] + tail.headers, tail.next)
  {
  }

  lemma HeaderHere(g: LineGrammar, meta: Meta, m: bytes, p: nat)
    requires RestAccepted(g, meta, m, p)
    ensures p + 2 <= |m| && CrlfFrom(m, p).Some? && CrlfFrom(m, p).value - p <= SCRATCH
    ensures m[p] == CR ==> CrlfAt(m, p) && CrlfFrom(m, p) == Some(p)
    ensures !CrlfAt(m, p) ==>
              p < CrlfFrom(m, p).value && g.header(m[p..CrlfFrom(m, p).value]).Some?
              && ApplyHeader(meta, g.header(m[p..CrlfFrom(m, p).value]).value).Some?
  {
    CrlfFound(m, p);
    if m[p] == CR {
      CrlfIs(m, p, p);
    }
  }

  /** The facts once the header section at `p` has been read. */
  function FactsAt(g: LineGrammar, facts: Facts, meta: Meta, m: bytes, p: nat): (r: Facts)
    requires p <= |m|
  {
    match ParseHeaders(g, meta, m, p)
    case HeadDone(meta', headers, _) => FactsOf(facts, meta', headers)
    case _ => facts
  }

  /** A state at the beginning of a header line. */
  ghost predicate AtHeader(g: LineGrammar, st: State, meta: Meta, m: bytes, p: nat) {
    && 0 < p <= |m| && m[p - 1] == LF && RestAccepted(g, meta, m, p) && Tracks(st.facts, st.length, meta)
    && st.phase == HeaderPhase && st.scratch == [] && st.told.value == 0 && !st.done
  }

  /** The header line at `p` of an accepted message, and what it does to the facts. */
  lemma HeaderNoted(g: LineGrammar, st: State, meta: Meta, m: bytes, k: nat, p: nat)
      returns (i: nat, h: Header, facts: Facts, length: int, meta': Meta)
    requires AtHeader(g, st, meta, m, p) && !CrlfAt(m, p)
    ensures p < i && i + 2 <= |m| && CrlfFrom(m, p) == Some(i) && g.header(m[p..i]) == Some(h)
    ensures NoteHeader(st.facts, st.length, h) == Some((facts, length)) && meta'.kind == meta.kind
    ensures AtHeader(g, st.(facts := facts, length := length), meta', m, i + 2)
    ensures SafeFrom(g, meta, m, p, k) == SafeFrom(g, meta', m, i + 2, k)
    ensures FactsAt(g, st.facts, meta, m, p) == FactsAt(g, facts, meta', m, i + 2)
    ensures var head, tail := ParseHeaders(g, meta, m, p), ParseHeaders(g, meta', m, i + 2);
            head == HeadDone(tail.meta, [h] + tail.headers, tail.next)
  {
    HeaderHere(g, meta, m, p);
    CrlfFound(m, p);
    i := CrlfFrom(m, p).value;
    h := g.header(m[p..i]).value;
    meta' := ApplyHeader(meta, h).value;
    NoteAsApplied(st.facts, st.length, meta, h);
    facts, length := NoteHeader(st.facts, st.length, h).value.0, NoteHeader(st.facts, st.length, h).value.1;
    RestStep(g, meta, m, p, i, h, meta', k);
    var tail := ParseHeaders(g, meta', m, i + 2);
    FactsStep(st.facts, facts, tail.meta, h, tail.headers);
  }

  lemma OpenHeaderRun(cb: Setting, step: Stepper, st: State, meta: Meta, m: bytes, k: nat, p: nat, facts: Facts)
    requires p < k <= |m| && AtHeader(cb.lines, st, meta, m, p) && ReadsHead(cb, step, m[..k])
    requires CrlfFrom(m, p).Some? && k < CrlfFrom(m, p).value + 2
    ensures Reached(cb, m, k, SafeFrom(cb.lines, meta, m, p, k), facts, Loop(step, st, m[..k], p))
  {
    HeaderHere(cb.lines, meta, m, p);
    HeadTurnAt(cb, step, m[..k], st, p);
    OpenRun(cb, step, st, m, k, p, CrlfFrom(m, p).value, facts);
    InsideHead(cb.lines, meta, m, p, k);
  }

  /** A cut in the header line at `p` is safe when it is not inside the CRLF. */
  lemma InsideHead(g: LineGrammar, meta: Meta, m: bytes, p: nat, k: nat)
    requires RestAccepted(g, meta, m, p) && p < k && CrlfFrom(m, p).Some? && k < CrlfFrom(m, p).value + 2
    ensures SafeFrom(g, meta, m, p, k) <==> k != CrlfFrom(m, p).value + 1
  {
    HeaderHere(g, meta, m, p);
    CrlfFound(m, p);
  }

  lemma EndHeaderRun(cb: Setting, step: Stepper, st: State, meta: Meta, m: bytes, k: nat, p: nat)
    requires p + 2 <= k <= |m| && CrlfAt(m, p) && AtHeader(cb.lines, st, meta, m, p)
    requires ReadsHead(cb, step, m[..k]) && ReadsBody(cb, step, m[..k])
    ensures Reached(cb, m, k, SafeFrom(cb.lines, meta, m, p, k), FactsAt(cb.lines, st.facts, meta, m, p), Loop(step, st, m[..k], p))
  {
    HeadTurnAt(cb, step, m[..k], st, p);
    HeadEndRun(cb, step, st, meta, m, k, p);
  }

  /** One header line that the prefix holds, passed. */
  lemma HeaderPassed(cb: Setting, step: Stepper, st: State, meta: Meta, m: bytes, k: nat, p: nat) returns (st': State, meta': Meta, next: nat)
    requires p < k <= |m| && AtHeader(cb.lines, st, meta, m, p) && ReadsHead(cb, step, m[..k]) && !CrlfAt(m, p)
    requires CrlfFrom(m, p).Some? && CrlfFrom(m, p).value + 2 <= k
    ensures p < next <= k && next == CrlfFrom(m, p).value + 2 && AtHeader(cb.lines, st', meta', m, next)
    ensures Loop(step, st, m[..k], p) == Loop(step, st', m[..k], next)
    ensures SafeFrom(cb.lines, meta, m, p, k) == SafeFrom(cb.lines, meta', m, next, k)
    ensures FactsAt(cb.lines, st.facts, meta, m, p) == FactsAt(cb.lines, st'.facts, meta', m, next)
  {
    var i, h, facts, length, m' := HeaderNoted(cb.lines, st, meta, m, k, p);
    HeadTurnAt(cb, step, m[..k], st, p);
    HeaderRun(cb, step, st, m, k, p, i, h, facts, length);
    st', meta', next := st.(facts := facts, length := length), m', i + 2;
  }

  /** The header section from `p` on and the body, as far as the prefix goes. */
  lemma {:induction false} HeadersRun(cb: Setting, step: Stepper, st: State, meta: Meta, m: bytes, k: nat, p: nat)
    requires p <= k <= |m| && AtHeader(cb.lines, st, meta, m, p)
    requires ReadsHead(cb, step, m[..k]) && ReadsBody(cb, step, m[..k])
    ensures Reached(cb, m, k, SafeFrom(cb.lines, meta, m, p, k), FactsAt(cb.lines, st.facts, meta, m, p), Loop(step, st, m[..k], p))
    decreases |m| - p
  {
    HeaderHere(cb.lines, meta, m, p);
    if p < k {
      if k < CrlfFrom(m, p).value + 2 {
        OpenHeaderRun(cb, step, st, meta, m, k, p, FactsAt(cb.lines, st.facts, meta, m, p));
      } else if CrlfAt(m, p) {
        EndHeaderRun(cb, step, st, meta, m, k, p);
      } else {
        var st', meta', next := HeaderPassed(cb, step, st, meta, m, k, p);
        HeadersRun(cb, step, st', meta', m, k, next);
      }
    }
  }

  // ------------------------------------------------------------------- whole messages

  /** An accepted request whose lines fit the scratch buffer. */
  ghost predicate WholeRequest(g: LineGrammar, m: bytes) {
    ParseMessage(g, Request, m).Accepted? && Fits(g, m)
  }

  /** What is known at the end of an accepted request. */
  function FinalFacts(msg: Message): (f: Facts)
    requires msg.start.Req?
  {
    Facts(msg.start.req.verb, msg.start.req.version, msg.meta.hasLength, msg.meta.chunked, AllFlags(NO_FLAGS, msg.headers))
  }

  lemma RequestLineTurn(cb: Setting, c: bytes, i: nat, l: RequestLine)
    requires 0 < |c| && CrlfFrom(c, 0) == Some(i) && cb.lines.request(c[0..i]) == Some(l)
    ensures match Steps(cb)(Start(FRESH), c, 0)
            case Go(st, next) =>
              && next == i + 2 && st.phase == HeaderPhase && st.scratch == [] && st.length == -1 && !st.done && st.told.value == 0
              && st.facts == Facts(l.verb, l.version, false, false, NO_FLAGS)
            case Stop(_) => false
  {
    EmptyAppend(c[0..i]);
  }

  /** The request line and the head of an accepted message. */
  lemma HeadOf(g: LineGrammar, m: bytes, k: nat) returns (i: nat, l: RequestLine, meta: Meta)
    requires WholeRequest(g, m)
    ensures i + 2 <= |m| && CrlfFrom(m, 0) == Some(i) && i <= SCRATCH && g.request(m[0..i]) == Some(l)
    ensures meta == Meta(Request, 0, false, 0, false) && RestAccepted(g, meta, m, i + 2)
    ensures ParseMessage(g, Request, m).msg.start == Req(l)
    ensures FactsAt(g, Facts(l.verb, l.version, false, false, NO_FLAGS), meta, m, i + 2) == FinalFacts(ParseMessage(g, Request, m).msg)
    ensures 0 < k < |m| ==> SafeCut(g, m, k) == if k < i + 2 then k != i + 1 else SafeFrom(g, meta, m, i + 2, k)
  {
    i := CrlfFrom(m, 0).value;
    CrlfFound(m, 0);
    assert m[..i] == m[0..i];
    l := g.request(m[..i]).value;
    meta := Meta(Request, 0, false, 0, false);
  }

  /** Every prefix of an accepted request: the machine is inside the message until all of it has
      arrived, and then it is complete with the facts of the one-shot parser. */
  lemma PrefixRun(cb: Setting, m: bytes, k: nat)
    requires WholeRequest(cb.lines, m) && 0 < k <= |m|
    ensures Reached(cb, m, k, SafeCut(cb.lines, m, k), FinalFacts(ParseMessage(cb.lines, Request, m).msg), Run(cb, Start(FRESH), m[..k], 0))
  {
    var i, l, meta := HeadOf(cb.lines, m, k);
    var facts := FinalFacts(ParseMessage(cb.lines, Request, m).msg);
    if k < i + 2 {
      StepsOpen(cb, m[..k], Start(FRESH), 0);
      OpenRun(cb, Steps(cb), Start(FRESH), m, k, 0, i, facts);
    } else {
      CrlfPrefix(m, 0, k);
      assert m[..k][0..i] == m[0..i];
      RequestLineTurn(cb, m[..k], i, l);
      var st := Steps(cb)(Start(FRESH), m[..k], 0).st;
      CrlfFound(m, 0);
      forall st', p' ensures HeadTurns(cb, Steps(cb), m[..k], st', p') { StepsHead(cb, m[..k], st', p'); }
      forall st', p' ensures BodyTurns(cb, Steps(cb), m[..k], st', p') { StepsBody(cb, m[..k], st', p'); }
      HeadersRun(cb, Steps(cb), st, meta, m, k, i + 2);
    }
  }

  // ------------------------------------------------------------------ any number of pieces

  /** `pieces` is `m` cut into non-empty pieces at safe places. */
  ghost predicate SafePieces(g: LineGrammar, m: bytes, pieces: seq<bytes>) {
    && Concat(pieces) == m
    && (forall i | 0 <= i < |pieces| :: pieces[i] != [])
    && (forall i | 0 < i < |pieces| :: SafeCut(g, m, |Concat(pieces[..i])|))
  }

  /** The line left open fits when the next piece ends it. */
  lemma NextPieceRests(m: bytes, k: nat, b: bytes, o: Outcome)
    requires k < |m| && b != [] && k + |b| <= |m| && m[k..k + |b|] == b
    requires o.err.None? && Whole(o.seam, m[k..]) && o.st.phase != Idle && OpenFits(o.st, m, k)
    ensures Rests(o, b)
  {
    if CrlfFrom(b, 0).Some? {
      var t := m[k + |b|..];
      CrlfKept(b, t, 0);
      CrlfShift(m[..k], b + t, 0);
      assert m == m[..k] + (b + t);
    }
  }

  lemma SafePiecesUnbroken(cb: Setting, m: bytes, pieces: seq<bytes>)
    requires WholeRequest(cb.lines, m) && SafePieces(cb.lines, m, pieces)
    ensures Unbroken(cb, FRESH, pieces)
  {
    forall i: nat ensures RestsBefore(cb, FRESH, pieces, i) {
      if 0 < i < |pieces| {
        var k := |Concat(pieces[..i])|;
        PieceCut(m, pieces, i);
        PrefixRun(cb, m, k);
        NextPieceRests(m, k, pieces[i], Run(cb, Start(FRESH), m[..k], 0));
      }
    }
  }

  /** Incremental refines one-shot: an accepted request in any safe pieces completes exactly on the
      last piece, every call takes its whole piece, and what is known at the end is what the
      one-shot parser knows. */
  lemma IncrementalRefinesOneShot(cb: Setting, m: bytes, pieces: seq<bytes>, j: nat)
    requires WholeRequest(cb.lines, m) && SafePieces(cb.lines, m, pieces) && 0 < j <= |pieces|
    ensures var o := After(cb, FRESH, pieces[..j]);
            && o.err.None? && (o.st.done <==> j == |pieces|) && (o.st.phase == Idle <==> j == |pieces|)
            && (!cb.value ==> o.n == |pieces[j - 1]|)
            && (j == |pieces| ==> o.st.facts == FinalFacts(ParseMessage(cb.lines, Request, m).msg))
  {
    var k := |Concat(pieces[..j])|;
    PiecesUpTo(pieces, j);
    PiecesNext(pieces, j - 1);
    assert pieces[..|pieces|] == pieces;
    if j < |pieces| {
      PieceCut(m, pieces, j);
    }
    SafePiecesUnbroken(cb, m, pieces);
    PiecesAsOne(cb, FRESH, pieces, j);
    PrefixRun(cb, m, k);
  }
}
