/** Which buffers one call of the resumable machine refuses, and with which error: a first mistake in the request line,
    in a header line, in the chunks, or a line that does not fit the scratch buffer. */
module Failures {
  import opened Bytes
  import opened Grammar
  import opened Reference
  import opened Machine
  import opened Incremental
  import opened Completion

  /** A line that has not ended fits, or does not. */
  function OpenMistake(size: int): (e: Option<Err>) {
    if size > 4096 then Some(ErrScratchOverflow) else None
  }

  /** The first mistake in chunks from `p` on: a size line that is no size, or a missing CRLF behind data or behind the
      zero line. A size of 2^31 or more is not modelled further. */
  function ChunkMistake(g: LineGrammar, m: bytes, p: nat): (e: Option<Err>)
    requires p <= |m|
    decreases |m| - p
  {
    match CrlfFrom(m, p)
    case None => OpenMistake(|m| - p)
    case Some(i) =>
      match g.size(m[p..i])
      case None => Some(ErrChunkSize)
      case Some(size) =>
        var q := i + 2 + size;
        if size < 0 then Some(Fault)
        else if |m| < q + 2 then None
        else if !CrlfAt(m, q) then Some(ErrChunkSize)
        else if size == 0 then None
        else ChunkMistake(g, m, q + 2)
  }

  /** The first mistake in the header lines from `p` on, or behind them: a line that is no header, a Content-Length that
      is repeated or no numeral, or a mistake in the chunks. */
  function HeadMistake(g: LineGrammar, meta: Meta, m: bytes, p: nat): (e: Option<Err>)
    requires p <= |m|
    decreases |m| - p
  {
    match CrlfFrom(m, p)
    case None => OpenMistake(|m| - p)
    case Some(i) =>
      if i == p then if meta.chunked then ChunkMistake(g, m, p + 2) else None
      else
        match g.header(m[p..i])
        case None => Some(ErrHeaderOverflow)
        case Some(h) =>
          match ApplyHeader(meta, h)
          case None => Some(if meta.hasLength then ErrDuplicateLength else ErrInvalidLength)
          case Some(meta') => HeadMistake(g, meta', m, i + 2)
  }

  function Mistake(g: LineGrammar, m: bytes, p: nat): (e: Option<Err>)
    requires p <= |m|
  {
    match CrlfFrom(m, p)
    case None => OpenMistake(|m| - p)
    case Some(i) =>
      match g.request(m[p..i])
      case None => Some(ErrReqMethod)
      case Some(_) => HeadMistake(g, Meta(Request, 0, false, 0, false), m, i + 2)
  }

  // ------------------------------------------------------------------------------ chunks

  lemma OpenFails(cb: Setting, st: State, m: bytes, p: nat)
    requires p <= |m| && CrlfFrom(m, p).None? && st.scratch == []
    requires st.phase == RequestLinePhase || st.phase == HeaderPhase || st.phase == ChunkSizePhase
    ensures Run(cb, st, m, p).err == OpenMistake(|m| - p)
  {
    if p < |m| {
      RunStep(cb, st, m, p);
    }
  }

  /** Data that have not all arrived, or are not followed by their CRLF. */
  lemma DataFails(cb: Setting, st: State, m: bytes, p: nat)
    requires p <= |m| && st.phase == ChunkDataPhase && 0 < st.length && st.scratch == [] && !CrlfAt(m, p + st.length)
    ensures Run(cb, st, m, p).err == if |m| < p + st.length + 2 then None else Some(ErrChunkSize)
  {
    if p < |m| {
      RunStep(cb, st, m, p);
    }
  }

  lemma SizeFails(cb: Setting, st: State, m: bytes, p: nat, i: nat)
    requires p < |m| && CrlfFrom(m, p) == Some(i) && st.phase == ChunkSizePhase && st.scratch == []
    requires cb.lines.size(m[p..i]).None? || cb.lines.size(m[p..i]).value <= 0
    ensures Run(cb, st, m, p).err == ChunkMistake(cb.lines, m, p)
  {
    RunStep(cb, st, m, p);
    SizeFinishes(cb, st, m, p, i);
  }

  lemma {:induction false} ChunksFail(cb: Setting, st: State, m: bytes, p: nat)
    requires p <= |m| && st.phase == ChunkSizePhase && st.scratch == []
    ensures Run(cb, st, m, p).err == ChunkMistake(cb.lines, m, p)
    decreases |m| - p
  {
    if CrlfFrom(m, p).None? {
      OpenFails(cb, st, m, p);
    } else {
      var i := CrlfFrom(m, p).value;
      var size := cb.lines.size(m[p..i]);
      if size.Some? && 0 < size.value {
        var st' := st.(phase := ChunkDataPhase, length := size.value);
        SizeGoes(cb, st, m, p, i, size.value);
        if CrlfAt(m, i + 2 + size.value) {
          DataGoes(cb, st', m, i + 2);
          ChunksFail(cb, st.(length := 0), m, i + 4 + size.value);
        } else {
          DataFails(cb, st', m, i + 2);
        }
      } else {
        SizeFails(cb, st, m, p, i);
      }
    }
  }

  // ------------------------------------------------------------------------------- heads

  lemma EndFails(cb: Setting, st: State, meta: Meta, m: bytes, p: nat)
    requires CrlfAt(m, p) && st.phase == HeaderPhase && st.scratch == [] && Tracks(st.facts, st.length, meta)
    ensures Run(cb, st, m, p).err == if meta.chunked then ChunkMistake(cb.lines, m, p + 2) else None
  {
    CrlfIs(m, p, p);
    HeadLineStep(cb, st, m, p, p);
    RunStep(cb, st, m, p);
    if meta.chunked {
      ChunksFail(cb, st.(phase := ChunkSizePhase, scratch := []), m, p + 2);
    } else if st.length > 0 {
      BodyNeverFails(cb, st.(phase := BodyPhase, scratch := []), m, p + 2);
    }
  }

  lemma BodyNeverFails(cb: Setting, st: State, m: bytes, p: nat)
    requires p <= |m| && st.phase == BodyPhase
    ensures Run(cb, st, m, p).err.None?
  {
    if p < |m| {
      RunStep(cb, st, m, p);
    }
  }

  lemma LineFails(cb: Setting, st: State, meta: Meta, m: bytes, p: nat, i: nat)
    requires p < i <= |m| && CrlfFrom(m, p) == Some(i) && st.phase == HeaderPhase && st.scratch == [] && Tracks(st.facts, st.length, meta)
    requires var h := cb.lines.header(m[p..i]); h.None? || ApplyHeader(meta, h.value).None?
    ensures Run(cb, st, m, p).err == HeadMistake(cb.lines, meta, m, p)
  {
    HeadLineStep(cb, st, m, p, i);
    RunStep(cb, st, m, p);
  }

  lemma {:induction false} HeadFails(cb: Setting, st: State, meta: Meta, m: bytes, p: nat)
    requires p <= |m| && st.phase == HeaderPhase && st.scratch == [] && st.told.value == 0 && !st.done && Tracks(st.facts, st.length, meta)
    ensures Run(cb, st, m, p).err == HeadMistake(cb.lines, meta, m, p)
    decreases |m| - p
  {
    CrlfFound(m, p);
    if CrlfFrom(m, p).None? {
      OpenFails(cb, st, m, p);
    } else if CrlfFrom(m, p) == Some(p) {
      EndFails(cb, st, meta, m, p);
    } else {
      var i := CrlfFrom(m, p).value;
      var h := cb.lines.header(m[p..i]);
      if h.Some? && ApplyHeader(meta, h.value).Some? {
        LineFinishes(cb, st, meta, m, p, i);
        var (facts, length) := NoteHeader(st.facts, st.length, h.value).value;
        HeadFails(cb, st.(facts := facts, length := length), ApplyHeader(meta, h.value).value, m, i + 2);
      } else {
        LineFails(cb, st, meta, m, p, i);
      }
    }
  }

  lemma BadRequestLine(cb: Setting, m: bytes, i: nat)
    requires m != [] && CrlfFrom(m, 0) == Some(i) && cb.lines.request(m[0..i]).None?
    ensures Run(cb, Start(FRESH), m, 0).err == Some(ErrReqMethod)
  {
    RunStep(cb, Start(FRESH), m, 0);
    EmptyAppend(m[0..i]);
  }

  /** One call of the machine from a fresh parser fails exactly on the first mistake of the buffer, with its error. */
  lemma FailsExactly(cb: Setting, m: bytes)
    requires m != []
    ensures Run(cb, Start(FRESH), m, 0).err == Mistake(cb.lines, m, 0)
  {
    if CrlfFrom(m, 0).None? {
      OpenFails(cb, Start(FRESH), m, 0);
    } else {
      var i := CrlfFrom(m, 0).value;
      if cb.lines.request(m[0..i]).None? {
        BadRequestLine(cb, m, i);
      } else {
        var l := cb.lines.request(m[0..i]).value;
        FirstStep(cb, m);
        var st := FRESH.(phase := HeaderPhase, facts := FRESH.facts.(verb := l.verb, version := l.version),
                         told := Told(cb.begin, Passed(cb.url, l.target, 0), 0));
        HeadFails(cb, st, Meta(Request, 0, false, 0, false), m, i + 2);
      }
    }
  }

  // ------------------------------------------------------------------- against the one-shot parser

  predicate OfLength(e: Err) { e == ErrDuplicateLength || e == ErrInvalidLength }

  lemma {:induction false} ChunksAreNoLength(g: LineGrammar, m: bytes, p: nat)
    requires p <= |m| && ChunkMistake(g, m, p).Some?
    ensures !OfLength(ChunkMistake(g, m, p).value)
    decreases |m| - p
  {
    if CrlfFrom(m, p).Some? {
      var i := CrlfFrom(m, p).value;
      var size := g.size(m[p..i]);
      if size.Some? && 0 < size.value && CrlfAt(m, i + 2 + size.value) {
        ChunksAreNoLength(g, m, i + 4 + size.value);
      }
    }
  }

  lemma {:induction false} HeadsReject(g: LineGrammar, meta: Meta, m: bytes, p: nat, e: Err)
    requires p <= |m| && NoCrLine(m, p) && OfLength(e)
    ensures HeadMistake(g, meta, m, p) == Some(e) <==> ParseHeaders(g, meta, m, p) == HeadRejected(e)
    decreases |m| - p
  {
    CrlfFound(m, p);
    if CrlfFrom(m, p).Some? {
      var i := CrlfFrom(m, p).value;
      if i == p {
        if meta.chunked && ChunkMistake(g, m, p + 2).Some? {
          ChunksAreNoLength(g, m, p + 2);
        }
      } else {
        var h := g.header(m[p..i]);
        if h.Some? && ApplyHeader(meta, h.value).Some? {
          HeadsReject(g, ApplyHeader(meta, h.value).value, m, i + 2, e);
        }
      }
    }
  }

  /** Where no header line begins with a CR, the machine and the one-shot parser refuse the same buffers for their
      Content-Length, with the same error. */
  lemma RejectsAlike(cb: Setting, m: bytes, e: Err)
    requires m != [] && OfLength(e) && (CrlfFrom(m, 0).Some? ==> NoCrLine(m, CrlfFrom(m, 0).value + 2))
    ensures Run(cb, Start(FRESH), m, 0).err == Some(e) <==> ParseMessage(cb.lines, Request, m) == Rejected(e)
  {
    FailsExactly(cb, m);
    if CrlfFrom(m, 0).Some? {
      var i := CrlfFrom(m, 0).value;
      assert m[..i] == m[0..i];
      HeadsReject(cb.lines, Meta(Request, 0, false, 0, false), m, i + 2, e);
    }
  }
}
