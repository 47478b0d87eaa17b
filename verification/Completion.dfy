/** Which buffers one call of the resumable machine completes, and how that differs from what the one-shot
    parser accepts: the machine stops at the end of a message, reads header lines that begin with a CR,
    and takes a negative length for no body. */
module Completion {
  import opened Bytes
  import opened Numerals
  import opened Grammar
  import opened Reference
  import opened Machine
  import opened Incremental
  import opened UniqueFraming

  // ------------------------------------------------------------------- the machine's rule

  /** A header section as the machine reads it: every line but the empty one is a header. */
  function LooseHead(g: LineGrammar, meta: Meta, m: bytes, p: nat): (r: Head)
    requires p <= |m|
    ensures r.HeadDone? ==> p + 2 <= r.next <= |m|
    decreases |m| - p
  {
    match CrlfFrom(m, p)
    case None => HeadIncomplete
    case Some(i) =>
      if i == p then HeadDone(meta, [], p + 2)
      else
        match g.header(m[p..i])
        case None => HeadIncomplete
        case Some(h) =>
          match ApplyHeader(meta, h)
          case None => HeadRejected(SemanticError(meta))
          case Some(meta') =>
            match LooseHead(g, meta', m, i + 2)
            case HeadDone(mt, hs, next) => HeadDone(mt, [h] + hs, next)
            case other => other
  }

  /** The body that the framing demands has arrived. */
  predicate BodyArrived(g: LineGrammar, meta: Meta, m: bytes, p: nat)
    requires p <= |m|
  {
    if meta.chunked then ParseChunks(g, m, p).Some? else meta.hasLength ==> p + meta.length <= |m|
  }

  /** A request line, a header section and a body are there; whatever follows them. */
  predicate Completes(g: LineGrammar, m: bytes) {
    match CrlfFrom(m, 0)
    case None => false
    case Some(i) =>
      match g.request(m[0..i])
      case None => false
      case Some(_) =>
        match LooseHead(g, Meta(Request, 0, false, 0, false), m, i + 2)
        case HeadDone(meta, _, p) => BodyArrived(g, meta, m, p)
        case _ => false
  }

  predicate Finished(o: Outcome) { o.err.None? && o.st.done }

  /** The count that is returned for a message whose head ends at `p`: its end, if it has a body, and all of the
      buffer if it has none. */
  function EndCount(g: LineGrammar, meta: Meta, m: bytes, p: nat): (n: int)
    requires p <= |m| && BodyArrived(g, meta, m, p)
  {
    if meta.chunked then ParseChunks(g, m, p).value.next
    else if meta.hasLength && meta.length > 0 then p + meta.length
    else |m|
  }

  // ----------------------------------------------------------------------------- bodies

  /** What a turn of the machine leads to. */
  lemma RunStep(cb: Setting, st: State, m: bytes, p: nat)
    requires p < |m|
    ensures match Step(cb, st, m, p)
            case Stop(o) => Run(cb, st, m, p) == o
            case Go(st', next) => Run(cb, st, m, p) == Run(cb, st', m, next)
  {
  }

  lemma SizeFinishes(cb: Setting, st: State, m: bytes, p: nat, i: nat)
    requires p < |m| && CrlfFrom(m, p) == Some(i) && st.phase == ChunkSizePhase && st.scratch == []
    ensures Step(cb, st, m, p) == TakeSizeLine(cb, st, m[p..i], m, i + 2)
  {
    EmptyAppend(m[p..i]);
  }

  /** A chunk of data that is not followed by its CRLF does not finish the call. */
  lemma DataStops(cb: Setting, st: State, m: bytes, p: nat)
    requires p <= |m| && st.phase == ChunkDataPhase && 0 < st.length && !CrlfAt(m, p + st.length) && !st.done && st.scratch == []
    ensures !Finished(Run(cb, st, m, p))
  {
    if p < |m| {
      RunStep(cb, st, m, p);
    }
  }

  lemma DataGoes(cb: Setting, st: State, m: bytes, p: nat)
    requires p <= |m| && st.phase == ChunkDataPhase && 0 < st.length && CrlfAt(m, p + st.length)
    ensures Run(cb, st, m, p) == Run(cb, st.(phase := ChunkSizePhase, length := 0), m, p + st.length + 2)
  {
    RunStep(cb, st, m, p);
  }

  /** A data chunk is passed, or the call does not finish. */
  lemma DataFinishes(cb: Setting, st: State, m: bytes, q: nat)
    requires q <= |m| && st.phase == ChunkDataPhase && 0 < st.length && st.scratch == [] && !st.done
    ensures if CrlfAt(m, q + st.length) then Run(cb, st, m, q) == Run(cb, st.(phase := ChunkSizePhase, length := 0), m, q + st.length + 2)
            else !Finished(Run(cb, st, m, q))
  {
    if CrlfAt(m, q + st.length) {
      DataGoes(cb, st, m, q);
    } else {
      DataStops(cb, st, m, q);
    }
  }

  /** A size line that is no size of data: the zero chunk, or no chunk. */
  lemma LastFinishes(cb: Setting, st: State, m: bytes, p: nat, i: nat)
    requires p < |m| && CrlfFrom(m, p) == Some(i) && st.phase == ChunkSizePhase && st.scratch == [] && !st.done
    requires var size := cb.lines.size(m[p..i]); size.None? || size.value <= 0
    ensures Finished(Run(cb, st, m, p)) <==> TakeChunk(cb.lines, m, p).Some?
    ensures TakeChunk(cb.lines, m, p).Some? ==> TakeChunk(cb.lines, m, p).value == Last(Run(cb, st, m, p).n)
  {
    RunStep(cb, st, m, p);
    SizeFinishes(cb, st, m, p, i);
  }

  lemma OpenSize(cb: Setting, st: State, m: bytes, p: nat)
    requires p <= |m| && CrlfFrom(m, p).None? && st.phase == ChunkSizePhase && !st.done
    ensures !Finished(Run(cb, st, m, p)) && TakeChunk(cb.lines, m, p).None?
  {
    if p < |m| {
      RunStep(cb, st, m, p);
    }
  }

  lemma SizeGoes(cb: Setting, st: State, m: bytes, p: nat, i: nat, size: nat)
    requires p < |m| && CrlfFrom(m, p) == Some(i) && st.phase == ChunkSizePhase && st.scratch == []
        && cb.lines.size(m[p..i]) == Some(size) && 0 < size
    ensures Run(cb, st, m, p) == Run(cb, st.(phase := ChunkDataPhase, length := size), m, i + 2)
  {
    RunStep(cb, st, m, p);
    SizeFinishes(cb, st, m, p, i);
    assert st.(scratch := [], phase := ChunkDataPhase, length := size) == st.(phase := ChunkDataPhase, length := size);
  }

  /** A chunk of data, seen by both. */
  lemma DataChunkFinishes(cb: Setting, st: State, m: bytes, p: nat, i: nat, size: nat)
    requires p < |m| && CrlfFrom(m, p) == Some(i) && cb.lines.size(m[p..i]) == Some(size) && 0 < size
    requires st.phase == ChunkSizePhase && st.scratch == [] && !st.done
    ensures match TakeChunk(cb.lines, m, p)
            case None => !Finished(Run(cb, st, m, p))
            case Some(c) => c.Data? && Run(cb, st, m, p) == Run(cb, st.(length := 0), m, c.next)
  {
    SizeGoes(cb, st, m, p, i, size);
    DataFinishes(cb, st.(phase := ChunkDataPhase, length := size), m, i + 2);
    assert st.(phase := ChunkDataPhase, length := size).(phase := ChunkSizePhase, length := 0) == st.(length := 0);
  }

  /** The chunk at `p`, seen by both. */
  lemma ChunkFinishes(cb: Setting, st: State, m: bytes, p: nat)
    requires p <= |m| && st.phase == ChunkSizePhase && st.scratch == [] && !st.done
    ensures match TakeChunk(cb.lines, m, p)
            case None => !Finished(Run(cb, st, m, p))
            case Some(Last(next)) => Finished(Run(cb, st, m, p)) && Run(cb, st, m, p).n == next
            case Some(Data(_, next)) => Run(cb, st, m, p) == Run(cb, st.(length := 0), m, next)
  {
    if CrlfFrom(m, p).None? {
      OpenSize(cb, st, m, p);
    } else {
      var i := CrlfFrom(m, p).value;
      var size := cb.lines.size(m[p..i]);
      if size.Some? && 0 < size.value {
        DataChunkFinishes(cb, st, m, p, i, size.value);
      } else {
        LastFinishes(cb, st, m, p, i);
      }
    }
  }

  lemma {:induction false} ChunksFinish(cb: Setting, st: State, m: bytes, p: nat)
    requires p <= |m| && st.phase == ChunkSizePhase && st.scratch == [] && !st.done
    ensures Finished(Run(cb, st, m, p)) <==> ParseChunks(cb.lines, m, p).Some?
    ensures ParseChunks(cb.lines, m, p).Some? ==> Run(cb, st, m, p).n == ParseChunks(cb.lines, m, p).value.next
    decreases |m| - p
  {
    ChunkFinishes(cb, st, m, p);
    match TakeChunk(cb.lines, m, p)
    case Some(Data(_, next)) => ChunksFinish(cb, st.(length := 0), m, next);
    case _ =>
  }

  lemma LengthFinishes(cb: Setting, st: State, m: bytes, p: nat)
    requires p <= |m| && st.phase == BodyPhase && 0 < st.length && !st.done
    ensures Finished(Run(cb, st, m, p)) <==> p + st.length <= |m|
    ensures p + st.length <= |m| ==> Run(cb, st, m, p).n == p + st.length
  {
    if p < |m| {
      RunStep(cb, st, m, p);
    }
  }

  // ------------------------------------------------------------------------------ heads

  lemma HeadLineStep(cb: Setting, st: State, m: bytes, p: nat, i: nat)
    requires p < |m| && CrlfFrom(m, p) == Some(i) && st.phase == HeaderPhase && st.scratch == []
    ensures Step(cb, st, m, p) == if i == p then EndHeaders(st, i + 2, |m|) else TakeHeader(cb, st, m[p..i], i + 2)
  {
    EmptyAppend(m[p..i]);
    if i != p {
      assert m[p..i] != [];
    }
  }

  lemma OpenHead(cb: Setting, st: State, m: bytes, p: nat)
    requires p <= |m| && CrlfFrom(m, p).None? && st.phase == HeaderPhase && !st.done
    ensures !Finished(Run(cb, st, m, p))
  {
    if p < |m| {
      RunStep(cb, st, m, p);
    }
  }

  lemma EndFinishes(cb: Setting, st: State, meta: Meta, m: bytes, p: nat)
    requires CrlfAt(m, p) && st.phase == HeaderPhase && st.scratch == [] && !st.done && Tracks(st.facts, st.length, meta)
    ensures Finished(Run(cb, st, m, p)) <==> BodyArrived(cb.lines, meta, m, p + 2)
    ensures BodyArrived(cb.lines, meta, m, p + 2) ==> Run(cb, st, m, p).n == EndCount(cb.lines, meta, m, p + 2)
  {
    CrlfIs(m, p, p);
    HeadLineStep(cb, st, m, p, p);
    RunStep(cb, st, m, p);
    if meta.chunked {
      ChunksFinish(cb, st.(phase := ChunkSizePhase, scratch := []), m, p + 2);
    } else if st.length > 0 {
      LengthFinishes(cb, st.(phase := BodyPhase, scratch := []), m, p + 2);
    }
  }

  /** A header line, taken or refused. */
  lemma LineFinishes(cb: Setting, st: State, meta: Meta, m: bytes, p: nat, i: nat)
    requires p < i <= |m| && CrlfFrom(m, p) == Some(i) && st.phase == HeaderPhase && st.scratch == [] && st.told.value == 0 && !st.done
    requires Tracks(st.facts, st.length, meta)
    ensures var h := cb.lines.header(m[p..i]);
            if h.Some? && ApplyHeader(meta, h.value).Some? then
              NoteHeader(st.facts, st.length, h.value).Some? &&
              var (facts, length) := NoteHeader(st.facts, st.length, h.value).value;
              var st' := st.(facts := facts, length := length);
              Tracks(facts, length, ApplyHeader(meta, h.value).value) && Run(cb, st, m, p) == Run(cb, st', m, i + 2)
            else !Finished(Run(cb, st, m, p))
  {
    HeadLineStep(cb, st, m, p, i);
    RunStep(cb, st, m, p);
    if cb.lines.header(m[p..i]).Some? {
      var h := cb.lines.header(m[p..i]).value;
      if ApplyHeader(meta, h).Some? {
        NoteAsApplied(st.facts, st.length, meta, h);
      }
    }
  }

  /** The outcome for a header section that starts at `p`. */
  predicate HeadCompletes(g: LineGrammar, head: Head, m: bytes) {
    head.HeadDone? && head.next <= |m| && BodyArrived(g, head.meta, m, head.next)
  }

  function HeadCount(g: LineGrammar, head: Head, m: bytes): (n: int)
    requires HeadCompletes(g, head, m)
  {
    EndCount(g, head.meta, m, head.next)
  }

  /** What a header section completes, past its first line. */
  lemma LooseNext(g: LineGrammar, meta: Meta, m: bytes, p: nat, i: nat)
    requires p < i <= |m| && CrlfFrom(m, p) == Some(i)
    ensures var h := g.header(m[p..i]);
            HeadCompletes(g, LooseHead(g, meta, m, p), m)
            <==> h.Some? && ApplyHeader(meta, h.value).Some? && HeadCompletes(g, LooseHead(g, ApplyHeader(meta, h.value).value, m, i + 2), m)
    ensures HeadCompletes(g, LooseHead(g, meta, m, p), m) ==>
              HeadCount(g, LooseHead(g, meta, m, p), m) == HeadCount(g, LooseHead(g, ApplyHeader(meta, g.header(m[p..i]).value).value, m, i + 2), m)
  {
  }

  lemma LooseEnd(g: LineGrammar, meta: Meta, m: bytes, p: nat)
    requires p <= |m| && CrlfFrom(m, p) == Some(p)
    ensures HeadCompletes(g, LooseHead(g, meta, m, p), m) <==> BodyArrived(g, meta, m, p + 2)
    ensures BodyArrived(g, meta, m, p + 2) ==> HeadCount(g, LooseHead(g, meta, m, p), m) == EndCount(g, meta, m, p + 2)
  {
  }

  lemma {:induction false} HeadFinishes(cb: Setting, st: State, meta: Meta, m: bytes, p: nat)
    requires p <= |m| && st.phase == HeaderPhase && st.scratch == [] && st.told.value == 0 && !st.done && Tracks(st.facts, st.length, meta)
    ensures Finished(Run(cb, st, m, p)) <==> HeadCompletes(cb.lines, LooseHead(cb.lines, meta, m, p), m)
    ensures Finished(Run(cb, st, m, p)) ==> Run(cb, st, m, p).n == HeadCount(cb.lines, LooseHead(cb.lines, meta, m, p), m)
    decreases |m| - p
  {
    CrlfFound(m, p);
    if CrlfFrom(m, p).None? {
      OpenHead(cb, st, m, p);
    } else if CrlfFrom(m, p) == Some(p) {
      EndFinishes(cb, st, meta, m, p);
      LooseEnd(cb.lines, meta, m, p);
    } else {
      var i := CrlfFrom(m, p).value;
      var ok, st', meta' := LineTaken(cb, st, meta, m, p, i);
      if ok {
        HeadFinishes(cb, st', meta', m, i + 2);
      }
    }
  }

  lemma LineTaken(cb: Setting, st: State, meta: Meta, m: bytes, p: nat, i: nat) returns (ok: bool, st': State, meta': Meta)
    requires p < i <= |m| && CrlfFrom(m, p) == Some(i) && st.phase == HeaderPhase && st.scratch == [] && st.told.value == 0 && !st.done
    requires Tracks(st.facts, st.length, meta)
    ensures ok ==> st' == st.(facts := st'.facts, length := st'.length) && Tracks(st'.facts, st'.length, meta')
    ensures ok ==> Run(cb, st, m, p) == Run(cb, st', m, i + 2)
    ensures ok ==> (HeadCompletes(cb.lines, LooseHead(cb.lines, meta, m, p), m) <==> HeadCompletes(cb.lines, LooseHead(cb.lines, meta', m, i + 2), m))
    ensures ok && HeadCompletes(cb.lines, LooseHead(cb.lines, meta, m, p), m) ==>
              HeadCount(cb.lines, LooseHead(cb.lines, meta, m, p), m) == HeadCount(cb.lines, LooseHead(cb.lines, meta', m, i + 2), m)
    ensures !ok ==> !Finished(Run(cb, st, m, p)) && !HeadCompletes(cb.lines, LooseHead(cb.lines, meta, m, p), m)
  {
    LineFinishes(cb, st, meta, m, p, i);
    LooseNext(cb.lines, meta, m, p, i);
    var h := cb.lines.header(m[p..i]);
    ok := h.Some? && ApplyHeader(meta, h.value).Some?;
    st', meta' := st, meta;
    if ok {
      var (facts, length) := NoteHeader(st.facts, st.length, h.value).value;
      st', meta' := st.(facts := facts, length := length), ApplyHeader(meta, h.value).value;
    }
  }

  lemma FirstStep(cb: Setting, m: bytes)
    requires m != []
    ensures match CrlfFrom(m, 0)
            case None => !Finished(Run(cb, Start(FRESH), m, 0))
            case Some(i) =>
              match cb.lines.request(m[0..i])
              case None => !Finished(Run(cb, Start(FRESH), m, 0))
              case Some(l) =>
                var st := FRESH.(phase := HeaderPhase, facts := FRESH.facts.(verb := l.verb, version := l.version),
                                 told := Told(cb.begin, Passed(cb.url, l.target, 0), 0));
                Run(cb, Start(FRESH), m, 0) == Run(cb, st, m, i + 2)
  {
    RunStep(cb, Start(FRESH), m, 0);
    if CrlfFrom(m, 0).Some? {
      EmptyAppend(m[0..CrlfFrom(m, 0).value]);
    }
  }

  function CountOf(g: LineGrammar, m: bytes): (n: int)
    requires Completes(g, m)
  {
    var head := LooseHead(g, Meta(Request, 0, false, 0, false), m, CrlfFrom(m, 0).value + 2);
    EndCount(g, head.meta, m, head.next)
  }

  /** One call of the machine from a fresh parser completes a buffer exactly when a request line, a header
      section in its sense and the body are there; and what it returns then. */
  lemma CompletesExactly(cb: Setting, m: bytes)
    requires m != []
    ensures Finished(Run(cb, Start(FRESH), m, 0)) <==> Completes(cb.lines, m)
    ensures Completes(cb.lines, m) ==> Run(cb, Start(FRESH), m, 0).n == CountOf(cb.lines, m)
  {
    FirstStep(cb, m);
    if CrlfFrom(m, 0).Some? && cb.lines.request(m[0..CrlfFrom(m, 0).value]).Some? {
      var i := CrlfFrom(m, 0).value;
      var l := cb.lines.request(m[0..i]).value;
      var st := FRESH.(phase := HeaderPhase, facts := FRESH.facts.(verb := l.verb, version := l.version),
                       told := Told(cb.begin, Passed(cb.url, l.target, 0), 0));
      HeadFinishes(cb, st, Meta(Request, 0, false, 0, false), m, i + 2);
    }
  }

  // ------------------------------------------------------- against the one-shot parser

  /** No header line at `p` or behind it begins with a CR. */
  predicate NoCrLine(m: bytes, p: nat)
    requires p <= |m|
    decreases |m| - p
  {
    match CrlfFrom(m, p)
    case None => true
    case Some(i) => i == p || (m[p] != CR && NoCrLine(m, i + 2))
  }

  /** A head that both read alike: no header line begins with a CR, and the length is not negative. */
  predicate Regular(g: LineGrammar, m: bytes) {
    match CrlfFrom(m, 0)
    case None => true
    case Some(i) =>
      NoCrLine(m, i + 2) &&
      match LooseHead(g, Meta(Request, 0, false, 0, false), m, i + 2)
      case HeadDone(meta, _, _) => meta.chunked || !meta.hasLength || 0 <= meta.length
      case _ => true
  }

  /** Where no header line begins with a CR, both read the same finished head. */
  lemma {:induction false} HeadsAgree(g: LineGrammar, meta: Meta, m: bytes, p: nat)
    requires p <= |m|
    ensures LooseHead(g, meta, m, p).HeadDone? && NoCrLine(m, p) <==> ParseHeaders(g, meta, m, p).HeadDone?
    ensures ParseHeaders(g, meta, m, p).HeadDone? ==> ParseHeaders(g, meta, m, p) == LooseHead(g, meta, m, p)
    decreases |m| - p
  {
    CrlfFound(m, p);
    if CrlfFrom(m, p).Some? {
      var i := CrlfFrom(m, p).value;
      if i != p {
        var h := g.header(m[p..i]);
        if h.Some? && ApplyHeader(meta, h.value).Some? {
          HeadsAgree(g, ApplyHeader(meta, h.value).value, m, i + 2);
        }
        if m[p] == CR {
          assert !CrlfAt(m, p);
        }
      } else {
        assert CrlfAt(m, p);
      }
    }
  }

  /** The end of the body. */
  function BodyEnd(g: LineGrammar, meta: Meta, m: bytes, p: nat): (k: nat)
    requires p <= |m| && BodyArrived(g, meta, m, p) && (meta.chunked || !meta.hasLength || 0 <= meta.length)
    ensures p <= k <= |m|
  {
    if meta.chunked then ParseChunks(g, m, p).value.next else if meta.hasLength then p + meta.length else p
  }

  lemma {:induction false} ChunksUpTo(g: LineGrammar, m: bytes, p: nat, k: nat)
    requires p <= k <= |m| && ParseChunks(g, m, p).Some? && k == ParseChunks(g, m, p).value.next
    ensures ParseChunks(g, m[..k], p) == ParseChunks(g, m, p)
    decreases |m| - p
  {
    ChunkUpTo(g, m, p, k);
    if TakeChunk(g, m, p).value.Data? {
      ChunksUpTo(g, m, TakeChunk(g, m, p).value.next, k);
    }
  }

  lemma ChunkUpTo(g: LineGrammar, m: bytes, p: nat, k: nat)
    requires p <= k <= |m| && TakeChunk(g, m, p).Some? && TakeChunk(g, m, p).value.next <= k
    ensures TakeChunk(g, m[..k], p) == TakeChunk(g, m, p)
  {
    var i := CrlfFrom(m, p).value;
    CrlfPrefix(m, p, k);
    SliceOfPrefix(m, p, i, k);
    var size := g.size(m[p..i]).value;
    SliceOfPrefix(m, i + 2, i + 2 + size, k);
  }

  lemma BodyUpTo(g: LineGrammar, meta: Meta, m: bytes, p: nat)
    requires p <= |m| && BodyArrived(g, meta, m, p) && (meta.chunked || !meta.hasLength || 0 <= meta.length) && meta.kind == Request
    ensures var k := BodyEnd(g, meta, m, p); ParseBody(g, meta, m[..k], p).BodyDone? && ParseBody(g, meta, m[..k], p).next == k
  {
    if meta.chunked {
      ChunksUpTo(g, m, p, ParseChunks(g, m, p).value.next);
    }
  }

  lemma {:induction false} LooseKind(g: LineGrammar, meta: Meta, m: bytes, p: nat)
    requires p <= |m| && LooseHead(g, meta, m, p).HeadDone?
    ensures LooseHead(g, meta, m, p).meta.kind == meta.kind
    decreases |m| - p
  {
    var i := CrlfFrom(m, p).value;
    if i != p {
      LooseKind(g, ApplyHeader(meta, g.header(m[p..i]).value).value, m, i + 2);
    }
  }

  lemma AcceptedBy(g: LineGrammar, m: bytes, k: nat, i: nat, l: RequestLine, head: Head)
    requires k <= |m| && CrlfFrom(m, 0) == Some(i) && g.request(m[0..i]) == Some(l)
    requires head == ParseHeaders(g, Meta(Request, 0, false, 0, false), m, i + 2) && head.HeadDone? && head.next <= k
    requires ParseBody(g, head.meta, m[..k], head.next).BodyDone? && ParseBody(g, head.meta, m[..k], head.next).next == k
    ensures Accepts(g, Request, m[..k])
  {
    CrlfPrefix(m, 0, k);
    assert m[..k][..i] == m[0..i];
    HeadersPrefix(g, Meta(Request, 0, false, 0, false), m, i + 2, k);
  }

  /** A completed regular buffer begins with an accepted request. */
  lemma CompleteHasAccepted(g: LineGrammar, m: bytes)
    requires Completes(g, m) && Regular(g, m)
    ensures BeginsAccepted(g, m)
  {
    var i, start := CrlfFrom(m, 0).value, Meta(Request, 0, false, 0, false);
    var head := LooseHead(g, start, m, i + 2);
    HeadsAgree(g, start, m, i + 2);
    LooseKind(g, start, m, i + 2);
    BodyUpTo(g, head.meta, m, head.next);
    AcceptedBy(g, m, BodyEnd(g, head.meta, m, head.next), i, g.request(m[0..i]).value, head);
  }

  /** The one-shot parser accepts a beginning of the buffer. */
  ghost predicate BeginsAccepted(g: LineGrammar, m: bytes) {
    exists k :: 0 <= k <= |m| && Accepts(g, Request, m[..k])
  }

  lemma BodyStays(g: LineGrammar, meta: Meta, m: bytes, t: bytes, p: nat)
    requires p <= |m| && ParseBody(g, meta, m, p).BodyDone? && meta.kind == Request
    ensures BodyArrived(g, meta, m + t, p) && (meta.chunked || !meta.hasLength || 0 <= meta.length)
  {
    if meta.chunked {
      ChunksKept(g, m, t, p);
    }
  }

  /** A buffer that begins with an accepted request is regular and complete. */
  lemma AcceptedCompletes(g: LineGrammar, a: bytes, t: bytes)
    requires Accepts(g, Request, a)
    ensures Completes(g, a + t) && Regular(g, a + t)
  {
    var m, i, start := a + t, CrlfFrom(a, 0).value, Meta(Request, 0, false, 0, false);
    CrlfKept(a, t, 0);
    assert m[0..i] == a[..i];
    HeadersKept(g, start, a, t, i + 2);
    HeadsAgree(g, start, m, i + 2);
    LooseKind(g, start, m, i + 2);
    var head := ParseHeaders(g, start, a, i + 2);
    BodyStays(g, head.meta, a, t, head.next);
  }

  lemma BeginningCompletes(g: LineGrammar, m: bytes)
    requires BeginsAccepted(g, m)
    ensures Completes(g, m) && Regular(g, m)
  {
    var k :| 0 <= k <= |m| && Accepts(g, Request, m[..k]);
    AcceptedCompletes(g, m[..k], m[k..]);
    assert m[..k] + m[k..] == m;
  }

  /** The machine completes a buffer from a fresh parser, in a regular way, if and only if the one-shot
      parser accepts a beginning of it. What it completes besides has a header line that begins with a
      CR, or a negative length. */
  lemma CompletesExactlyWhenAccepted(cb: Setting, m: bytes)
    requires m != []
    ensures Finished(Run(cb, Start(FRESH), m, 0)) && Regular(cb.lines, m) <==> BeginsAccepted(cb.lines, m)
  {
    CompletesExactly(cb, m);
    if Completes(cb.lines, m) && Regular(cb.lines, m) {
      CompleteHasAccepted(cb.lines, m);
    } else if BeginsAccepted(cb.lines, m) {
      BeginningCompletes(cb.lines, m);
    }
  }

  /** The end of the message, seen with what follows it. */
  lemma CountWithMore(g: LineGrammar, a: bytes, t: bytes)
    requires Accepts(g, Request, a)
    ensures Completes(g, a + t)
    ensures CountOf(g, a + t) == if ParseMessage(g, Request, a).msg.mode == NoBody then |a + t| else |a|
  {
    var m, i, start := a + t, CrlfFrom(a, 0).value, Meta(Request, 0, false, 0, false);
    AcceptedCompletes(g, a, t);
    CrlfKept(a, t, 0);
    assert m[0..i] == a[..i];
    HeadersKept(g, start, a, t, i + 2);
    HeadsAgree(g, start, m, i + 2);
    LooseKind(g, start, m, i + 2);
    var head := ParseHeaders(g, start, a, i + 2);
    if head.meta.chunked {
      ChunksKept(g, a, t, head.next);
    }
  }

  /** What one call returns for a buffer that begins with an accepted request: the end of that request if and only if
      the request has a body or nothing follows it; bytes behind a request without a body are reported as taken. */
  lemma CountExactly(cb: Setting, a: bytes, t: bytes)
    requires Accepts(cb.lines, Request, a)
    ensures Finished(Run(cb, Start(FRESH), a + t, 0))
    ensures Run(cb, Start(FRESH), a + t, 0).n == |a| <==> t == [] || ParseMessage(cb.lines, Request, a).msg.mode != NoBody
    ensures Run(cb, Start(FRESH), a + t, 0).n in {|a|, |a + t|}
  {
    CompletesExactly(cb, a + t);
    CountWithMore(cb.lines, a, t);
  }

  // ------------------------------------------------------------------ negative lengths

  /** The head at the beginning of a buffer. */
  function HeadAt(g: LineGrammar, kind: Kind, buf: bytes): (h: Head) {
    match CrlfFrom(buf, 0)
    case None => HeadIncomplete
    case Some(i) =>
      match ParseStart(g, kind, buf[..i])
      case None => HeadIncomplete
      case Some(start) => ParseHeaders(g, StartMeta(start), buf, i + 2)
  }

  /** The value of the first Content-Length header. */
  function LengthText(hs: seq<Header>): (v: Option<bytes>)
    decreases |hs|
  {
    if hs == [] then None else if IsLength(hs[0]) then Some(hs[0].value) else LengthText(hs[1..])
  }

  lemma {:induction false} LengthIs(g: LineGrammar, meta: Meta, buf: bytes, p: nat)
    requires p <= |buf| && ParseHeaders(g, meta, buf, p).HeadDone?
    ensures var head := ParseHeaders(g, meta, buf, p);
            if meta.hasLength then head.meta.hasLength && head.meta.length == meta.length
            else (head.meta.hasLength <==> LengthText(head.headers).Some?)
                 && (head.meta.hasLength ==> ParseNumeral(10, LengthText(head.headers).value) == Some(head.meta.length))
    decreases |buf| - p
  {
    if buf[p] != CR {
      var i := CrlfFrom(buf, p).value;
      var h := g.header(buf[p..i]).value;
      var meta' := ApplyHeader(meta, h).value;
      LengthIs(g, meta', buf, i + 2);
      var tail := ParseHeaders(g, meta', buf, i + 2);
      assert ([h] + tail.headers)[1..] == tail.headers;
    }
  }

  lemma NegativeExactly(n: nat)
    ensures Int32(n) < 0 <==> 0x8000_0000 <= n % 0x1_0000_0000
  {
    var k := n / 0x1_0000_0000;
    assert n == n % 0x1_0000_0000 + 0x1_0000_0000 * k;
    Int32Period(n % 0x1_0000_0000, k);
  }

  /** The number that a Content-Length header denotes, taken modulo 2^32, is at least 2^31. */
  predicate WrapsNegative(hs: seq<Header>) {
    match LengthText(hs)
    case None => false
    case Some(v) => v != [] && Digits(10, v) && 0x8000_0000 <= Numeral(10, v) % 0x1_0000_0000
  }

  /** The one-shot parser panics exactly on a finished head without chunked framing whose Content-Length
      wraps to a negative int32. */
  lemma PanicsExactly(g: LineGrammar, kind: Kind, buf: bytes)
    ensures ParseMessage(g, kind, buf) == Panics
            <==> HeadAt(g, kind, buf).HeadDone? && !HeadAt(g, kind, buf).meta.chunked && WrapsNegative(HeadAt(g, kind, buf).headers)
  {
    if HeadAt(g, kind, buf).HeadDone? {
      var i := CrlfFrom(buf, 0).value;
      var start := ParseStart(g, kind, buf[..i]).value;
      LengthIs(g, StartMeta(start), buf, i + 2);
      var head := HeadAt(g, kind, buf);
      if head.meta.hasLength {
        NegativeExactly(Numeral(10, LengthText(head.headers).value));
      }
    }
  }

  /** On the same bytes the machine completes a request without a body, and takes all of the buffer. */
  lemma MachineTakesNoBody(cb: Setting, m: bytes)
    requires ParseMessage(cb.lines, Request, m) == Panics
    ensures Finished(Run(cb, Start(FRESH), m, 0)) && !Regular(cb.lines, m)
  {
    var i, start := CrlfFrom(m, 0).value, Meta(Request, 0, false, 0, false);
    assert m[..i] == m[0..i];
    HeadsAgree(cb.lines, start, m, i + 2);
    CompletesExactly(cb, m);
  }
}
