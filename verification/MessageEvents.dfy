/** The callbacks of tryFastSplitRequest for an accepted request: whatever the safe pieces it arrives in,
    they amount to its header names, the bytes of its values, its decoded body, and one HeadersDone and
    one Complete; and where no call tells a part of a value before its name, they come in the order of
    the message. */
module MessageEvents {
  import opened Bytes
  import opened Grammar
  import opened Reference
  import opened Events
  import opened Machine
  import opened Split
  import opened SplitEvents
  import opened Incremental

  /** The callbacks emitParsedMessage makes for the headers of a message. */
  function HeaderTrace(cb: Setting, hs: seq<Header>): (es: seq<Event>) {
    if hs == [] then []
    else When(cb.field, Field(hs[0].name)) + When(cb.value, Value(hs[0].value)) + HeaderTrace(cb, hs[1..])
  }

  function BodyTrace(cb: Setting, body: bytes): (es: seq<Event>) {
    When(cb.body, BodyPart(body)) + When(cb.complete, Complete)
  }

  /** The callbacks emitParsedMessage makes behind Begin and Url. */
  function Trace(cb: Setting, msg: Message): (es: seq<Event>) {
    HeaderTrace(cb, msg.headers) + (When(cb.headers, HeadersDone) + BodyTrace(cb, msg.body))
  }

  // --------------------------------------------------- single turns, scratch being empty

  ghost predicate TurnTells(cb: Setting, says: Teller, m: bytes, st: State, p: nat) {
    p < |m| && st.scratch == [] ==>
      && (st.phase == BodyPhase ==> says(st, m, p) == DataSays(cb, st, m, p) + When(cb.complete && st.length <= |m| - p, Complete))
      && (st.phase == ChunkDataPhase ==> says(st, m, p) == DataSays(cb, st, m, p))
      && (InLine(st) && CrlfFrom(m, p).Some? ==>
            var i := CrlfFrom(m, p).value; says(st, m, p) == LineSays(cb, st, m[p..i], m, i + 2))
  }

  ghost predicate TellsTurns(cb: Setting, says: Teller, m: bytes) {
    forall st: State, p: nat {:trigger TurnTells(cb, says, m, st, p)} :: TurnTells(cb, says, m, st, p)
  }

  lemma TurnTellsAt(cb: Setting, says: Teller, m: bytes, st: State, p: nat)
    requires TellsTurns(cb, says, m)
    ensures TurnTells(cb, says, m, st, p)
  {
  }

  lemma StepsTell(cb: Setting, m: bytes, st: State, p: nat)
    ensures TurnTells(cb, Tells(cb), m, st, p)
  {
    if p < |m| && st.scratch == [] && InLine(st) && CrlfFrom(m, p).Some? {
      EmptyAppend(m[p..CrlfFrom(m, p).value]);
    }
  }

  // ------------------------------------------------------------------------- bodies

  lemma BodyTale(cb: Setting, step: Stepper, says: Teller, st: State, m: bytes, p: nat)
    requires p < |m| && p + st.length == |m| && st.phase == BodyPhase && st.scratch == []
    requires BodyTurns(cb, step, m, st, p) && TurnTells(cb, says, m, st, p)
    ensures Tale(step, says, st, m, p) == BodyTrace(cb, m[p..p + st.length])
  {
    EmptyAppend(says(st, m, p));
  }

  lemma LastTale(cb: Setting, step: Stepper, says: Teller, st: State, m: bytes, p: nat)
    requires p < |m| && st.phase == ChunkSizePhase && st.scratch == [] && TakeChunk(cb.lines, m, p) == Some(Last(|m|))
    requires BodyTurns(cb, step, m, st, p) && TurnTells(cb, says, m, st, p)
    ensures Tale(step, says, st, m, p) == When(cb.complete, Complete)
  {
    EmptyAppend(says(st, m, p));
  }

  lemma SizeTale(cb: Setting, step: Stepper, says: Teller, st: State, m: bytes, p: nat, i: nat, n: nat)
    requires p < |m| && st.phase == ChunkSizePhase && st.scratch == [] && 0 < n
    requires CrlfFrom(m, p) == Some(i) && cb.lines.size(m[p..i]) == Some(n)
    requires BodyTurns(cb, step, m, st, p) && TurnTells(cb, says, m, st, p)
    ensures Tale(step, says, st, m, p) == Tale(step, says, st.(phase := ChunkDataPhase, length := n), m, i + 2)
  {
    EmptyAppend(Tale(step, says, st.(phase := ChunkDataPhase, length := n), m, i + 2));
  }

  lemma DataTale(cb: Setting, step: Stepper, says: Teller, st: State, m: bytes, q: nat)
    requires q < |m| && st.phase == ChunkDataPhase && st.scratch == [] && 0 < st.length && CrlfAt(m, q + st.length)
    requires BodyTurns(cb, step, m, st, q) && TurnTells(cb, says, m, st, q)
    ensures Tale(step, says, st, m, q) ==
            When(cb.body, BodyPart(m[q..q + st.length])) + Tale(step, says, st.(phase := ChunkSizePhase, length := 0), m, q + st.length + 2)
  {
  }

  lemma SizeTaleIn(cb: Setting, step: Stepper, says: Teller, st: State, m: bytes, p: nat, i: nat, n: nat)
    requires p < |m| && st.phase == ChunkSizePhase && st.scratch == [] && 0 < n
    requires CrlfFrom(m, p) == Some(i) && cb.lines.size(m[p..i]) == Some(n)
    requires ReadsBody(cb, step, m) && TellsTurns(cb, says, m)
    ensures Tale(step, says, st, m, p) == Tale(step, says, st.(phase := ChunkDataPhase, length := n), m, i + 2)
  {
    BodyTurnAt(cb, step, m, st, p);
    TurnTellsAt(cb, says, m, st, p);
    SizeTale(cb, step, says, st, m, p, i, n);
  }

  lemma DataTaleIn(cb: Setting, step: Stepper, says: Teller, st: State, m: bytes, q: nat)
    requires q < |m| && st.phase == ChunkDataPhase && st.scratch == [] && 0 < st.length && CrlfAt(m, q + st.length)
    requires ReadsBody(cb, step, m) && TellsTurns(cb, says, m)
    ensures Tale(step, says, st, m, q) ==
            When(cb.body, BodyPart(m[q..q + st.length])) + Tale(step, says, st.(phase := ChunkSizePhase, length := 0), m, q + st.length + 2)
  {
    BodyTurnAt(cb, step, m, st, q);
    TurnTellsAt(cb, says, m, st, q);
    DataTale(cb, step, says, st, m, q);
  }

  lemma ChunkFacts(g: LineGrammar, m: bytes, p: nat, data: bytes, next: nat) returns (i: nat)
    requires p <= |m| && TakeChunk(g, m, p) == Some(Data(data, next))
    ensures p <= i && i + 2 + |data| <= |m| && CrlfFrom(m, p) == Some(i) && g.size(m[p..i]) == Some(|data|)
    ensures 0 < |data| && CrlfAt(m, i + 2 + |data|) && m[i + 2..i + 2 + |data|] == data && next == i + 4 + |data|
  {
    i := CrlfFrom(m, p).value;
  }

  lemma ChunkTale(cb: Setting, step: Stepper, says: Teller, st: State, m: bytes, p: nat, data: bytes, next: nat)
    requires p < |m| && st.phase == ChunkSizePhase && st.scratch == [] && TakeChunk(cb.lines, m, p) == Some(Data(data, next))
    requires ReadsBody(cb, step, m) && TellsTurns(cb, says, m)
    ensures Tale(step, says, st, m, p) == When(cb.body, BodyPart(data)) + Tale(step, says, st.(length := 0), m, next)
  {
    var i := ChunkFacts(cb.lines, m, p, data, next);
    var st1 := st.(phase := ChunkDataPhase, length := |data|);
    SizeTaleIn(cb, step, says, st, m, p, i, |data|);
    DataTaleIn(cb, step, says, st1, m, i + 2);
    assert st1.(phase := ChunkSizePhase, length := 0) == st.(length := 0);
  }

  /** One more chunk in front of what the rest of a body amounts to. */
  lemma ChunkInFront(view: View, cb: Setting, data: bytes, rest: bytes, es: seq<Event>)
    requires Alike(view, es, BodyTrace(cb, rest))
    ensures Alike(view, When(cb.body, BodyPart(data)) + es, BodyTrace(cb, data + rest))
  {
    var x, y, e := When(cb.body, BodyPart(data)), When(cb.body, BodyPart(rest)), When(cb.complete, Complete);
    AlikeAppend(view, x, x, es, y + e);
    Assoc(x, y, e);
    BodyInTwo(view, cb.body, data, rest);
    AlikeAppend(view, x + y, When(cb.body, BodyPart(data + rest)), e, e);
  }

  lemma NoBodyAlike(view: View, cb: Setting)
    ensures Alike(view, When(cb.complete, Complete), BodyTrace(cb, []))
  {
    OneEvent(BodyPart([]));
    OneJoined(BodyPart([]));
    AlikeAppend(view, [], When(cb.body, BodyPart([])), When(cb.complete, Complete), When(cb.complete, Complete));
    EmptyAppend(When(cb.complete, Complete));
  }

  /** Chunked streaming equals decoding. */
  lemma {:induction false} ChunksTale(view: View, cb: Setting, step: Stepper, says: Teller, st: State, m: bytes, p: nat)
    requires p <= |m| && ParseChunks(cb.lines, m, p).Some? && ParseChunks(cb.lines, m, p).value.next == |m|
    requires ReadsBody(cb, step, m) && TellsTurns(cb, says, m)
    requires st.phase == ChunkSizePhase && st.scratch == []
    ensures Alike(view, Tale(step, says, st, m, p), BodyTrace(cb, Concat(ParseChunks(cb.lines, m, p).value.parts)))
    decreases |m| - p
  {
    match TakeChunk(cb.lines, m, p).value
    case Last(_) =>
      BodyTurnAt(cb, step, m, st, p);
    TurnTellsAt(cb, says, m, st, p);
      LastTale(cb, step, says, st, m, p);
      NoBodyAlike(view, cb);
    case Data(data, next) =>
      ChunkTale(cb, step, says, st, m, p, data, next);
      ChunksTale(view, cb, step, says, st.(length := 0), m, next);
      var rest := ParseChunks(cb.lines, m, next).value.parts;
      assert ([data] + rest)[1..] == rest;
      ChunkInFront(view, cb, data, Concat(rest), Tale(step, says, st.(length := 0), m, next));
  }

  // -------------------------------------------------------------------------- heads

  /** The callbacks for the body that starts at `p`. */
  function AfterHead(cb: Setting, step: Stepper, says: Teller, st: State, m: bytes, p: nat): (es: seq<Event>) {
    match EndHeaders(st, p, |m|)
    case Go(st', next) => Tale(step, says, st', m, next)
    case Stop(_) => When(cb.complete, Complete)
  }

  /** The turn of the empty line. */
  lemma EmptyLineTale(cb: Setting, step: Stepper, says: Teller, st: State, m: bytes, p: nat)
    requires CrlfAt(m, p) && HeadTurns(cb, step, m, st, p) && TurnTells(cb, says, m, st, p)
    requires st.phase == HeaderPhase && st.scratch == []
    ensures Tale(step, says, st, m, p) == When(cb.headers, HeadersDone) +
            AfterHead(cb, step, says, st, m, p + 2)
  {
    CrlfIs(m, p, p);
    assert m[p..p] == [];
    EmptyAppend(When(cb.headers, HeadersDone));
    EmptyAppend(says(st, m, p));
  }

  lemma LengthTale(cb: Setting, step: Stepper, says: Teller, st: State, m: bytes, p: nat)
    requires p < |m| && p + st.length == |m| && !st.facts.chunked && st.scratch == []
    requires ReadsBody(cb, step, m) && TellsTurns(cb, says, m)
    ensures AfterHead(cb, step, says, st, m, p) == BodyTrace(cb, m[p..p + st.length])
  {
    var st1 := st.(phase := BodyPhase);
    BodyTurnAt(cb, step, m, st1, p);
    TurnTellsAt(cb, says, m, st1, p);
    BodyTale(cb, step, says, st1, m, p);
    assert st.(phase := BodyPhase, scratch := []) == st1;
  }

  lemma NoBodyTale(view: View, cb: Setting, step: Stepper, says: Teller, st: State, m: bytes, p: nat)
    requires st.length <= 0 && !st.facts.chunked
    ensures Alike(view, AfterHead(cb, step, says, st, m, p), BodyTrace(cb, []))
  {
    NoBodyAlike(view, cb);
  }

  lemma ChunkedTale(view: View, cb: Setting, step: Stepper, says: Teller, st: State, m: bytes, p: nat)
    requires p <= |m| && ParseChunks(cb.lines, m, p).Some? && ParseChunks(cb.lines, m, p).value.next == |m|
    requires ReadsBody(cb, step, m) && TellsTurns(cb, says, m) && st.facts.chunked && st.scratch == []
    ensures Alike(view, AfterHead(cb, step, says, st, m, p), BodyTrace(cb, Concat(ParseChunks(cb.lines, m, p).value.parts)))
  {
    ChunksTale(view, cb, step, says, st.(phase := ChunkSizePhase), m, p);
    assert st.(phase := ChunkSizePhase, scratch := []) == st.(phase := ChunkSizePhase);
  }

  /** The body as the framing says, told from its beginning. */
  lemma FramedTale(view: View, cb: Setting, step: Stepper, says: Teller, st: State, meta: Meta, m: bytes, p: nat)
    requires p <= |m| && Tracks(st.facts, st.length, meta) && meta.kind == Request && st.scratch == []
    requires ParseBody(cb.lines, meta, m, p).BodyDone? && ParseBody(cb.lines, meta, m, p).next == |m|
    requires ReadsBody(cb, step, m) && TellsTurns(cb, says, m)
    ensures Alike(view, AfterHead(cb, step, says, st, m, p), BodyTrace(cb, ParseBody(cb.lines, meta, m, p).body))
  {
    if meta.chunked {
      ChunkedTale(view, cb, step, says, st, m, p);
    } else if 0 < st.length {
      LengthTale(cb, step, says, st, m, p);
    } else {
      NoBodyTale(view, cb, step, says, st, m, p);
    }
  }

  /** What remains to be told from the empty line on. */
  lemma HeadEndTale(view: View, cb: Setting, step: Stepper, says: Teller, st: State, meta: Meta, m: bytes, p: nat)
    requires CrlfAt(m, p) && Tracks(st.facts, st.length, meta) && meta.kind == Request
    requires ParseBody(cb.lines, meta, m, p + 2).BodyDone? && ParseBody(cb.lines, meta, m, p + 2).next == |m|
    requires HeadTurns(cb, step, m, st, p) && ReadsBody(cb, step, m) && TellsTurns(cb, says, m)
    requires st.phase == HeaderPhase && st.scratch == []
    ensures Alike(view, Tale(step, says, st, m, p), When(cb.headers, HeadersDone) + BodyTrace(cb, ParseBody(cb.lines, meta, m, p + 2).body))
  {
    var h := When(cb.headers, HeadersDone);
    var es := AfterHead(cb, step, says, st, m, p + 2);
    TurnTellsAt(cb, says, m, st, p);
    EmptyLineTale(cb, step, says, st, m, p);
    FramedTale(view, cb, step, says, st, meta, m, p + 2);
    AlikeAppend(view, h, h, es, BodyTrace(cb, ParseBody(cb.lines, meta, m, p + 2).body));
  }

  lemma ValueAlike(view: View, on: bool, v: bytes)
    ensures Alike(view, ValueRest(on, v, 0), When(on, Value(v)))
  {
    ValueParts(on, v, 0);
    OneEvent(Value(v));
    OneJoined(Value(v));
    assert v[0..] == v;
  }

  /** One header line in front of what the rest amounts to. */
  lemma HeaderInFront(view: View, cb: Setting, h: Header, hs: seq<Header>, rest: seq<Event>, es: seq<Event>)
    requires Alike(view, es, HeaderTrace(cb, hs) + rest)
    ensures Alike(view, When(cb.field, Field(h.name)) + ValueRest(cb.value, h.value, 0) + es, HeaderTrace(cb, [h] + hs) + rest)
  {
    var f, v, w := When(cb.field, Field(h.name)), ValueRest(cb.value, h.value, 0), When(cb.value, Value(h.value));
    ValueAlike(view, cb.value, h.value);
    AlikeAppend(view, f, f, v, w);
    AlikeAppend(view, f + v, f + w, es, HeaderTrace(cb, hs) + rest);
    assert ([h] + hs)[1..] == hs;
    Assoc(f + w, HeaderTrace(cb, hs), rest);
  }

  lemma HeaderTale(cb: Setting, step: Stepper, says: Teller, st: State, m: bytes, p: nat, i: nat, h: Header, facts: Facts, length: int)
    requires p < i && i + 2 <= |m| && CrlfFrom(m, p) == Some(i) && cb.lines.header(m[p..i]) == Some(h)
    requires NoteHeader(st.facts, st.length, h) == Some((facts, length))
    requires HeadTurns(cb, step, m, st, p) && TurnTells(cb, says, m, st, p)
    requires st.phase == HeaderPhase && st.scratch == [] && st.told.value == 0
    ensures Tale(step, says, st, m, p) ==
            When(cb.field, Field(h.name)) + ValueRest(cb.value, h.value, 0) + Tale(step, says, st.(facts := facts, length := length), m, i + 2)
  {
  }

  function HeadersOf(g: LineGrammar, meta: Meta, m: bytes, p: nat): (hs: seq<Header>)
    requires p <= |m|
  {
    match ParseHeaders(g, meta, m, p)
    case HeadDone(_, hs, _) => hs
    case _ => []
  }

  /** What is told behind the headers of a head at `p`. */
  function RestTrace(cb: Setting, meta: Meta, m: bytes, p: nat): (es: seq<Event>)
    requires p <= |m|
  {
    match ParseHeaders(cb.lines, meta, m, p)
    case HeadDone(meta', _, next) =>
      (match ParseBody(cb.lines, meta', m, next)
       case BodyDone(body, _) => When(cb.headers, HeadersDone) + BodyTrace(cb, body)
       case _ => [])
    case _ => []
  }

  lemma HeadEndRest(view: View, cb: Setting, step: Stepper, says: Teller, st: State, meta: Meta, m: bytes, p: nat)
    requires AtHeader(cb.lines, st, meta, m, p) && meta.kind == Request && CrlfAt(m, p)
    requires HeadTurns(cb, step, m, st, p) && ReadsBody(cb, step, m) && TellsTurns(cb, says, m)
    ensures Alike(view, Tale(step, says, st, m, p), HeaderTrace(cb, HeadersOf(cb.lines, meta, m, p)) + RestTrace(cb, meta, m, p))
  {
    HeadEndTale(view, cb, step, says, st, meta, m, p);
    EmptyAppend(RestTrace(cb, meta, m, p));
  }

  /** The header section from `p` on, and the body. */
  lemma {:induction false} HeadersTale(view: View, cb: Setting, step: Stepper, says: Teller, st: State, meta: Meta, m: bytes, p: nat)
    requires AtHeader(cb.lines, st, meta, m, p) && meta.kind == Request
    requires ReadsHead(cb, step, m) && ReadsBody(cb, step, m) && TellsTurns(cb, says, m)
    ensures Alike(view, Tale(step, says, st, m, p), HeaderTrace(cb, HeadersOf(cb.lines, meta, m, p)) + RestTrace(cb, meta, m, p))
    decreases |m| - p
  {
    HeadTurnAt(cb, step, m, st, p);
    TurnTellsAt(cb, says, m, st, p);
    if CrlfAt(m, p) {
      HeadEndRest(view, cb, step, says, st, meta, m, p);
    } else {
      var h, st', meta', next := HeaderStepped(cb, step, says, st, meta, m, p);
      HeadersTale(view, cb, step, says, st', meta', m, next);
      HeaderBehind(view, cb, h, HeadersOf(cb.lines, meta', m, next), HeadersOf(cb.lines, meta, m, p), RestTrace(cb, meta', m, next),
                   RestTrace(cb, meta, m, p), Tale(step, says, st', m, next), Tale(step, says, st, m, p));
    }
  }

  /** The header line at `p`, read and told. */
  lemma HeaderStepped(cb: Setting, step: Stepper, says: Teller, st: State, meta: Meta, m: bytes, p: nat)
      returns (h: Header, st': State, meta': Meta, next: nat)
    requires AtHeader(cb.lines, st, meta, m, p) && meta.kind == Request && !CrlfAt(m, p)
    requires HeadTurns(cb, step, m, st, p) && TurnTells(cb, says, m, st, p)
    ensures p < next <= |m| && AtHeader(cb.lines, st', meta', m, next) && meta'.kind == Request
    ensures Tale(step, says, st, m, p) == When(cb.field, Field(h.name)) + ValueRest(cb.value, h.value, 0) + Tale(step, says, st', m, next)
    ensures HeadersOf(cb.lines, meta, m, p) == [h] + HeadersOf(cb.lines, meta', m, next)
    ensures RestTrace(cb, meta, m, p) == RestTrace(cb, meta', m, next)
  {
    var i, h', facts, length, meta1 := HeaderNoted(cb.lines, st, meta, m, 0, p);
    h, st', meta', next := h', st.(facts := facts, length := length), meta1, i + 2;
    HeaderTale(cb, step, says, st, m, p, i, h, facts, length);
    RestSame(cb, meta, m, p, h, meta', next);
  }

  lemma HeaderBehind(view: View, cb: Setting, h: Header, hs: seq<Header>, all: seq<Header>, rest: seq<Event>, rest': seq<Event>,
                     es: seq<Event>, es': seq<Event>)
    requires Alike(view, es, HeaderTrace(cb, hs) + rest) && all == [h] + hs && rest' == rest
    requires es' == When(cb.field, Field(h.name)) + ValueRest(cb.value, h.value, 0) + es
    ensures Alike(view, es', HeaderTrace(cb, all) + rest')
  {
    HeaderInFront(view, cb, h, hs, rest, es);
  }

  /** The headers and what follows them, past the first header. */
  lemma RestSame(cb: Setting, meta: Meta, m: bytes, p: nat, h: Header, meta': Meta, next: nat)
    requires p <= |m| && next <= |m|
    requires var tail := ParseHeaders(cb.lines, meta', m, next);
             tail.HeadDone? && ParseHeaders(cb.lines, meta, m, p) == HeadDone(tail.meta, [h] + tail.headers, tail.next)
    ensures HeadersOf(cb.lines, meta, m, p) == [h] + HeadersOf(cb.lines, meta', m, next)
    ensures RestTrace(cb, meta, m, p) == RestTrace(cb, meta', m, next)
  {
  }

  // ------------------------------------------------------------------ whole messages

  lemma RequestLineTale(view: View, cb: Setting, m: bytes, i: nat, l: RequestLine)
    requires 0 < |m| && CrlfFrom(m, 0) == Some(i) && cb.lines.request(m[0..i]) == Some(l)
    ensures Steps(cb)(Start(FRESH), m, 0).Go? && Alike(view, Tells(cb)(Start(FRESH), m, 0), [])
  {
    RequestLineTurn(cb, m, i, l);
    StepsTell(cb, m, Start(FRESH), 0);
    StartsAlike(view, cb.begin, cb.url, l.target, 0);
  }

  lemma FirstTurn(like: Likeness, step: Stepper, says: Teller, st: State, m: bytes, st': State, next: nat, es: seq<Event>)
    requires Appends(like) && 0 < next <= |m| && step(st, m, 0) == Go(st', next)
    requires like(says(st, m, 0), []) && like(Tale(step, says, st', m, next), es)
    ensures like(Tale(step, says, st, m, 0), es)
  {
    assert AppendsAt(like, says(st, m, 0), [], Tale(step, says, st', m, next), es);
    EmptyAppend(es);
  }

  lemma TraceOf(cb: Setting, m: bytes, i: nat, meta: Meta)
    requires WholeRequest(cb.lines, m) && CrlfFrom(m, 0) == Some(i) && meta == Meta(Request, 0, false, 0, false)
    ensures Trace(cb, ParseMessage(cb.lines, Request, m).msg) == HeaderTrace(cb, HeadersOf(cb.lines, meta, m, i + 2)) + RestTrace(cb, meta, m, i + 2)
  {
  }

  /** One call of the machine on an accepted request makes the callbacks of emitParsedMessage, up to fragmentation. */
  lemma MessageTale(view: View, cb: Setting, m: bytes)
    requires WholeRequest(cb.lines, m)
    ensures Alike(view, Says(cb, Start(FRESH), m, 0), Trace(cb, ParseMessage(cb.lines, Request, m).msg))
  {
    var i, l, meta := HeadOf(cb.lines, m, 0);
    RequestLineTurn(cb, m, i, l);
    RequestLineTale(view, cb, m, i, l);
    CrlfFound(m, 0);
    var st := Steps(cb)(Start(FRESH), m, 0).st;
    forall st', p' ensures HeadTurns(cb, Steps(cb), m, st', p') { StepsHead(cb, m, st', p'); }
    forall st', p' ensures BodyTurns(cb, Steps(cb), m, st', p') { StepsBody(cb, m, st', p'); }
    forall st', p' ensures TurnTells(cb, Tells(cb), m, st', p') { StepsTell(cb, m, st', p'); }
    HeadersTale(view, cb, Steps(cb), Tells(cb), st, meta, m, i + 2);
    AlikeAppends(view);
    TraceOf(cb, m, i, meta);
    FirstTurn(LIKE(view), Steps(cb), Tells(cb), Start(FRESH), m, st, i + 2, Trace(cb, ParseMessage(cb.lines, Request, m).msg));
  }

  /** In safe pieces, the machine makes for an accepted request the callbacks of emitParsedMessage: in
      all (`Totals`), and, if every call has ended smoothly, one by one with fragments joined. */
  lemma PiecesTellTheMessage(view: View, cb: Setting, m: bytes, pieces: seq<bytes>)
    requires WholeRequest(cb.lines, m) && SafePieces(cb.lines, m, pieces) && PlainValues(cb.lines)
    requires forall i | 0 < i < |pieces| :: SmoothAfter(view, cb, FRESH, pieces, i)
    ensures Alike(view, SaysAll(cb, FRESH, pieces), Trace(cb, ParseMessage(cb.lines, Request, m).msg))
  {
    MessageTale(view, cb, m);
    SafePiecesUnbroken(cb, m, pieces);
    assert pieces[..|pieces|] == pieces && m[..|m|] == m;
    PrefixRun(cb, m, |m|);
    PiecesTellAsOne(view, cb, FRESH, pieces, |pieces|);
    AlikeTrans(view, SaysAll(cb, FRESH, pieces), Says(cb, Start(FRESH), m, 0), Trace(cb, ParseMessage(cb.lines, Request, m).msg));
  }

  // ------------------------------------------------------------------ single header lines

  /** A header line `line` and its CRLF, cut into pieces outside the CRLF. */
  ghost predicate LinePieces(line: bytes, pieces: seq<bytes>) {
    && line != [] && |line| <= SCRATCH && CrlfFrom(line + CRLF, 0) == Some(|line|)
    && Concat(pieces) == line + CRLF
    && (forall i | 0 <= i < |pieces| :: pieces[i] != [])
    && (forall i | 0 < i < |pieces| :: |Concat(pieces[..i])| != |line| + 1)
  }

  lemma LinePiecesUnbroken(cb: Setting, st: State, line: bytes, pieces: seq<bytes>)
    requires LinePieces(line, pieces) && st.phase == HeaderPhase && st.scratch == [] && st.told.value == 0 && !st.done
    ensures Unbroken(cb, st, pieces)
  {
    var m := line + CRLF;
    forall i: nat ensures RestsBefore(cb, st, pieces, i) {
      if 0 < i < |pieces| {
        var k := |Concat(pieces[..i])|;
        PieceCut(m, pieces, i);
        StepsOpen(cb, m[..k], st, 0);
        OpenRun(cb, Steps(cb), st, m, k, 0, |line|, st.facts);
        NextPieceRests(m, k, pieces[i], Run(cb, st, m[..k], 0));
      }
    }
    PartialValueNone();
  }

  lemma WholeHeaderLineIn(cb: Setting, step: Stepper, says: Teller, st: State, line: bytes, h: Header, facts: Facts, length: int)
    requires line != [] && CrlfFrom(line + CRLF, 0) == Some(|line|) && cb.lines.header(line) == Some(h)
    requires NoteHeader(st.facts, st.length, h) == Some((facts, length))
    requires st.phase == HeaderPhase && st.scratch == [] && st.told.value == 0
    requires HeadTurns(cb, step, line + CRLF, st, 0) && TurnTells(cb, says, line + CRLF, st, 0)
    ensures Loop(step, st, line + CRLF, 0) == Outcome(st.(facts := facts, length := length), |line| + 2, None, Clean)
    ensures Tale(step, says, st, line + CRLF, 0) == When(cb.field, Field(h.name)) + ValueRest(cb.value, h.value, 0)
  {
    var m := line + CRLF;
    assert m[0..|line|] == line && m[..|m|] == m;
    HeaderTale(cb, step, says, st, m, 0, |line|, h, facts, length);
    EmptyAppend(When(cb.field, Field(h.name)) + ValueRest(cb.value, h.value, 0));
    HeaderRun(cb, step, st, m, |m|, 0, |line|, h, facts, length);
  }

  lemma WholeHeaderLine(cb: Setting, st: State, line: bytes, h: Header, facts: Facts, length: int)
    requires line != [] && CrlfFrom(line + CRLF, 0) == Some(|line|) && cb.lines.header(line) == Some(h)
    requires NoteHeader(st.facts, st.length, h) == Some((facts, length))
    requires st.phase == HeaderPhase && st.scratch == [] && st.told.value == 0
    ensures Run(cb, st, line + CRLF, 0) == Outcome(st.(facts := facts, length := length), |line| + 2, None, Clean)
    ensures Says(cb, st, line + CRLF, 0) == When(cb.field, Field(h.name)) + ValueRest(cb.value, h.value, 0)
  {
    StepsHead(cb, line + CRLF, st, 0);
    StepsTell(cb, line + CRLF, st, 0);
    WholeHeaderLineIn(cb, Steps(cb), Tells(cb), st, line, h, facts, length);
  }

  lemma HeaderParts(cb: Setting, h: Header)
    ensures var es := When(cb.field, Field(h.name)) + ValueRest(cb.value, h.value, 0);
            Values(es) == (if cb.value then h.value else []) && Names(es) == if cb.field then [h.name] else []
  {
    var f, v := When(cb.field, Field(h.name)), ValueRest(cb.value, h.value, 0);
    OneEvent(Field(h.name));
    ValueParts(cb.value, h.value, 0);
    JoinedParts(f, v);
  }

  /** However a header line is cut outside its CRLF, its HeaderValue fragments join to the value of
      the line, its name is told once, and the next header starts with offset 0. The name comes with
      the last piece, behind the fragments of the others. */
  lemma HeaderValueReassembled(cb: Setting, st: State, line: bytes, pieces: seq<bytes>, h: Header)
    requires LinePieces(line, pieces) && PlainValues(cb.lines)
    requires st.phase == HeaderPhase && st.scratch == [] && st.told.value == 0 && !st.done
    requires cb.lines.header(line) == Some(h) && NoteHeader(st.facts, st.length, h).Some?
    ensures Values(SaysAll(cb, st, pieces)) == if cb.value then h.value else []
    ensures Names(SaysAll(cb, st, pieces)) == if cb.field then [h.name] else []
    ensures var o := After(cb, st, pieces); o.err.None? && o.st.phase == HeaderPhase && o.st.scratch == [] && o.st.told.value == 0
  {
    var (facts, length) := NoteHeader(st.facts, st.length, h).value;
    LinePiecesUnbroken(cb, st, line, pieces);
    WholeHeaderLine(cb, st, line, h, facts, length);
    assert pieces[..|pieces|] == pieces;
    PiecesAsOne(cb, st, pieces, |pieces|);
    PiecesTellAsOne(Totals, cb, st, pieces, |pieces|);
    HeaderParts(cb, h);
  }
}
