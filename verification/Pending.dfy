/** The accumulating path of executeClean (internal/parser/engine.go) for a parser that takes requests
    and responses: input is collected until the one-shot parser accepts all of it. Status callbacks are
    left aside. */
module Pending {
  import opened Bytes
  import opened Grammar
  import opened Reference
  import opened Events
  import opened Machine

  datatype Gathered = Gathered(pending: bytes, started: bool, kind: Kind, url: nat, value: nat, done: bool)

  const NEW := Gathered([], false, Both, 0, 0, false)

  predicate Eol(b: byte) { b == CR || b == LF }

  function FirstText(b: bytes, i: nat): (r: Option<byte>)
    requires i <= |b|
    decreases |b| - i
  {
    if i == |b| then None else if Eol(b[i]) then FirstText(b, i + 1) else Some(b[i])
  }

  /** inferMessageKind for a parser of both kinds. */
  function Infer(b: bytes): (r: Option<Kind>) {
    match FirstText(b, 0)
    case None => None
    case Some(x) =>
      if HttpAt(b, 0) then Some(Response)
      else if x != 72 || |b| >= 5 then Some(Request)
      else None
  }

  /** What a request line, or the beginning of one, shows of the target. */
  function TargetIn(line: bytes): (t: bytes) {
    match FindByte(line, SP)
    case None => []
    case Some(first) =>
      match ByteFrom(line, SP, first + 1)
      case Some(second) => line[first + 1..second]
      case None => line[first + 1..]
  }

  /** What has arrived of the request target. */
  function TargetSoFar(b: bytes): (t: bytes) {
    TargetIn(match CrlfFrom(b, 0) case Some(i) => b[..i] case None => b)
  }

  /** What stands behind the last CRLF. */
  function LastLine(b: bytes): (line: bytes)
    decreases |b|
  {
    match CrlfFrom(b, 0)
    case None => b
    case Some(i) => LastLine(b[i + 2..])
  }

  lemma {:induction false} LastLineFacts(b: bytes)
    ensures var line := LastLine(b);
            && |line| <= |b| && line == b[|b| - |line|..] && CrlfFrom(line, 0).None?
            && (|line| < |b| ==> |line| + 2 <= |b| && CrlfAt(b, |b| - |line| - 2))
    decreases |b|
  {
    if CrlfFrom(b, 0).Some? {
      var i := CrlfFrom(b, 0).value;
      LastLineFacts(b[i + 2..]);
      LastLineBehind(b, i, LastLine(b[i + 2..]));
    }
  }

  lemma LastLineBehind(b: bytes, i: nat, line: bytes)
    requires CrlfFrom(b, 0) == Some(i) && |line| <= |b| - (i + 2) && line == b[i + 2..][|b| - (i + 2) - |line|..]
    requires |line| < |b| - (i + 2) ==> |line| + 2 <= |b| - (i + 2) && CrlfAt(b[i + 2..], |b| - (i + 2) - |line| - 2)
    ensures line == b[|b| - |line|..] && CrlfAt(b, |b| - |line| - 2)
  {
    CrlfFound(b, 0);
    DropDrop(b, i + 2, |b| - (i + 2) - |line|);
    if |line| < |b| - (i + 2) {
      TakeDrop(b, i + 2);
      CrlfAcross(b[..i + 2], b[i + 2..], |b| - (i + 2) - |line| - 2);
    }
  }

  lemma TakeDrop(b: bytes, i: nat)
    requires i <= |b|
    ensures b == b[..i] + b[i..]
  {
  }

  /** The value that the last line shows, whichever line it is. */
  function ValueSoFar(b: bytes): (v: bytes) {
    PartialValue(LastLine(b))
  }

  /** The callbacks of emitParsedMessage, what was passed on of the target and of a value left out. */
  function ParsedEvents(cb: Setting, url: nat, value: nat, msg: Message): (es: seq<Event>) {
    (if msg.start.Req? then UrlRest(cb.url, msg.start.req.target, url) else [])
    + HeaderEvents(cb, value, msg.headers) + When(cb.headers, HeadersDone)
    + When(cb.body && msg.body != [], BodyPart(msg.body)) + When(cb.complete, Complete)
  }

  /** The value of a header, `offset` bytes of which count as passed on. */
  function ValueEvents(on: bool, v: bytes, offset: nat): (es: seq<Event>) {
    if offset == 0 then When(on, Value(v)) else ValueRest(on, v, offset)
  }

  /** The headers; the offset counts for the first one. */
  function HeaderEvents(cb: Setting, offset: nat, hs: seq<Header>): (es: seq<Event>)
    decreases |hs|
  {
    if hs == [] then []
    else When(cb.field, Field(hs[0].name)) + ValueEvents(cb.value, hs[0].value, offset) + HeaderEvents(cb, if cb.value then 0 else offset, hs[1..])
  }

  datatype Result = Result(st: Gathered, err: Option<Err>, es: seq<Event>)

  /** The state once the buffer is added and a first call has looked at the kind. */
  function Added(st: Gathered, buf: bytes): (r: Gathered) {
    var pending := st.pending + buf;
    st.(pending := pending, started := true,
        kind := if st.started then st.kind else (match Infer(pending) case Some(k) => k case None => st.kind))
  }

  /** emitPartialRequestFragments. */
  function Offset(cb: Setting, st: Gathered): (n: nat) {
    if st.kind == Request && cb.url && st.url < |TargetSoFar(st.pending)| then |TargetSoFar(st.pending)| else st.url
  }

  function Fragment(cb: Setting, st: Gathered): (es: seq<Event>) {
    if st.kind == Request then UrlRest(cb.url, TargetSoFar(st.pending), st.url) else []
  }

  /** emitPartialHeaderValue. */
  function ValueOffset(cb: Setting, st: Gathered): (n: nat) {
    Passed(cb.value, ValueSoFar(st.pending), st.value)
  }

  function ValueFragment(cb: Setting, st: Gathered): (es: seq<Event>) {
    ValueRest(cb.value, ValueSoFar(st.pending), st.value)
  }

  /** The end of a call: the collected input is parsed as a whole. */
  function Conclude(cb: Setting, st: Gathered, parsed: Parsed): (r: Result) {
    match parsed
    case Rejected(e) => Result(st, Some(e), [])
    case Accepted(msg) => Result(Gathered([], false, st.kind, 0, 0, true), None, ParsedEvents(cb, st.url, st.value, msg))
    case _ => Result(st, None, [])
  }

  type OneShot = (Kind, bytes) -> Parsed

  /** One call that no fast path takes. */
  function GatherWith(parse: OneShot, cb: Setting, st: Gathered, buf: bytes): (r: Result) {
    var st1 := Added(st, buf);
    var st2 := st1.(url := Offset(cb, st1), value := ValueOffset(cb, st1));
    var r := Conclude(cb, st2, parse(st2.kind, st2.pending));
    r.(es := When(cb.begin && !st.started, Begin) + Fragment(cb, st1) + ValueFragment(cb, st1) + r.es)
  }

  const PARSE: OneShot := (kind: Kind, buf: bytes) => ParseMessage(HTTP, kind, buf)

  // -------------------------------------------------------------------------- the object

  /** The parser object on this path. */
  class BothParser {
    var pending: bytes
    var messageStarted: bool
    var currentType: Kind
    var urlOffset: nat
    var headerValueOffset: nat
    var messageCompleteCalled: bool
    ghost var events: seq<Event>

    ghost function Abs(): (st: Gathered)
      reads this
    {
      Gathered(pending, messageStarted, currentType, urlOffset, headerValueOffset, messageCompleteCalled)
    }

    constructor ()
      ensures Abs() == NEW && events == []
    {
      pending, messageStarted, currentType, urlOffset, headerValueOffset, messageCompleteCalled := [], false, Both, 0, 0, false;
      events := [];
    }

    method EmitPartialRequestFragments(cb: Setting)
      requires currentType == Request
      modifies this`urlOffset, this`events
      ensures urlOffset == Offset(cb, old(Abs())) && events == old(events) + Fragment(cb, old(Abs()))
    {
      var end := CrlfFrom(pending, 0);
      var line := if end.Some? then pending[..end.value] else pending;
      var first := FindByte(line, SP);
      if first.None? {
        return;
      }
      var second := ByteFrom(line, SP, first.value + 1);
      var part := if second.Some? then line[first.value + 1..second.value] else line[first.value + 1..];
      if cb.url && urlOffset < |part| {
        events := events + [Url(part[urlOffset..])];
        urlOffset := |part|;
      }
    }

    method EmitPartialHeaderValue(cb: Setting)
      modifies this`headerValueOffset, this`events
      ensures headerValueOffset == ValueOffset(cb, old(Abs())) && events == old(events) + ValueFragment(cb, old(Abs()))
    {
      EmptyAppend(events);
      var value := ValueShown(pending);
      if cb.value && headerValueOffset < |value| {
        events := events + [Value(value[headerValueOffset..])];
        headerValueOffset := |value|;
      }
    }

    method EmitParsedMessage(cb: Setting, msg: Message)
      modifies this`events, this`messageCompleteCalled, this`headerValueOffset
      ensures messageCompleteCalled && events == old(events) + ParsedEvents(cb, urlOffset, old(headerValueOffset), msg)
    {
      ghost var start := events;
      ghost var u := if msg.start.Req? then UrlRest(cb.url, msg.start.req.target, urlOffset) else [];
      ghost var n := HeaderEvents(cb, headerValueOffset, msg.headers);
      EmptyAppend(events);
      if msg.start.Req? && cb.url && urlOffset < |msg.start.req.target| {
        events := events + [Url(msg.start.req.target[urlOffset..])];
      }
      EmitHeaders(cb, msg.headers);
      ghost var h, b, c := When(cb.headers, HeadersDone), When(cb.body && msg.body != [], BodyPart(msg.body)), When(cb.complete, Complete);
      events := events + When(cb.headers, HeadersDone);
      events := events + When(cb.body && msg.body != [], BodyPart(msg.body));
      messageCompleteCalled := true;
      events := events + When(cb.complete, Complete);
      FiveParts(start, u, n, h, b, c);
    }

    /** One header, and the offset reset once a value has been told. */
    method EmitHeader(cb: Setting, h: Header)
      modifies this`events, this`headerValueOffset
      ensures events == old(events) + (When(cb.field, Field(h.name)) + ValueEvents(cb.value, h.value, old(headerValueOffset)))
      ensures headerValueOffset == if cb.value then 0 else old(headerValueOffset)
    {
      ghost var f, v := When(cb.field, Field(h.name)), ValueEvents(cb.value, h.value, headerValueOffset);
      Assoc(events, f, v);
      events := events + When(cb.field, Field(h.name));
      EmptyAppend(events);
      if cb.value {
        if headerValueOffset > 0 {
          if headerValueOffset < |h.value| {
            events := events + [Value(h.value[headerValueOffset..])];
          }
          headerValueOffset := 0;
        } else {
          events := events + [Value(h.value)];
        }
      }
    }

    method EmitHeaders(cb: Setting, hs: seq<Header>)
      modifies this`events, this`headerValueOffset
      ensures events == old(events) + HeaderEvents(cb, old(headerValueOffset), hs)
    {
      assert hs[0..] == hs;
      for i := 0 to |hs|
        invariant old(events) + HeaderEvents(cb, old(headerValueOffset), hs) == events + HeaderEvents(cb, headerValueOffset, hs[i..])
      {
        assert hs[i..][1..] == hs[i + 1..];
        ghost var es, h := events, hs[i];
        ghost var f := When(cb.field, Field(h.name)) + ValueEvents(cb.value, h.value, headerValueOffset);
        EmitHeader(cb, hs[i]);
        Assoc(es, f, HeaderEvents(cb, headerValueOffset, hs[i + 1..]));
      }
      EmptyAppend(events);
    }

    /** The collected input is parsed as a whole. */
    method ParsePending(cb: Setting, parse: OneShot) returns (err: Option<Err>)
      modifies this
      ensures var r := Conclude(cb, old(Abs()), parse(old(currentType), old(pending))); Abs() == r.st && err == r.err && events == old(events) + r.es
    {
      var parsed := parse(currentType, pending);
      EmptyAppend(events);
      match parsed
      case Rejected(e) =>
        return Some(e);
      case Accepted(msg) =>
        EmitParsedMessage(cb, msg);
        pending, messageStarted, urlOffset, headerValueOffset := [], false, 0, 0;
        return None;
      case _ =>
        return None;
    }

    /** The buffer is added, and a first call looks at the kind and tells Begin. */
    method Collect(cb: Setting, buf: bytes)
      modifies this
      ensures Abs() == Added(old(Abs()), buf) && events == old(events) + When(cb.begin && !old(messageStarted), Begin)
    {
      EmptyAppend(events);
      pending := pending + buf;
      if !messageStarted {
        var kind := Infer(pending);
        if kind.Some? {
          currentType := kind.value;
        }
        messageStarted := true;
        events := events + When(cb.begin, Begin);
      }
    }

    /** The partial fragments of what has been collected. */
    method EmitPartial(cb: Setting)
      modifies this`urlOffset, this`headerValueOffset, this`events
      ensures Abs() == old(Abs()).(url := Offset(cb, old(Abs())), value := ValueOffset(cb, old(Abs())))
      ensures events == old(events) + Fragment(cb, old(Abs())) + ValueFragment(cb, old(Abs()))
    {
      EmptyAppend(events);
      if currentType == Request {
        EmitPartialRequestFragments(cb);
      }
      EmitPartialHeaderValue(cb);
    }

    /** executeClean from line 55 on, `parse` being parseMessageDetailed. */
    method ExecutePending(cb: Setting, buf: bytes, parse: OneShot) returns (err: Option<Err>)
      modifies this
      ensures var r := GatherWith(parse, cb, old(Abs()), buf); Abs() == r.st && err == r.err && events == old(events) + r.es
    {
      ghost var st, start := Abs(), events;
      Collect(cb, buf);
      ghost var st1 := Abs();
      EmitPartial(cb);
      ghost var st2 := Abs();
      err := ParsePending(cb, parse);
      FourParts(start, When(cb.begin && !st.started, Begin), Fragment(cb, st1), ValueFragment(cb, st1),
          Conclude(cb, st2, parse(st2.kind, st2.pending)).es);
    }
  }

  lemma FourParts(s: seq<Event>, a: seq<Event>, b: seq<Event>, c: seq<Event>, d: seq<Event>)
    ensures s + a + b + c + d == s + (a + b + c + d)
  {
    Assoc(s, a, b);
    Assoc(s, a + b, c);
    Assoc(s, a + b + c, d);
  }

  method ValueShown(b: bytes) returns (v: bytes)
    ensures v == ValueSoFar(b)
  {
    var line := LastLineOf(b);
    var sep := FindByte(line, COLON);
    if sep.None? {
      return [];
    }
    return line[SkipFrom(line, sep.value + 1)..];
  }

  /** The last line, from the last CRLF on. */
  method LastLineOf(b: bytes) returns (line: bytes)
    ensures line == LastLine(b)
  {
    var i := |b|;
    while 0 < i
      invariant i <= |b| && forall j | i <= j :: !CrlfAt(b, j)
    {
      i := i - 1;
      if i + 2 <= |b| && b[i] == CR && b[i + 1] == LF {
        LastLineIs(b, i + 2);
        return b[i + 2..];
      }
    }
    NoCrlf(b);
    return b;
  }

  lemma NoCrlf(b: bytes)
    requires forall j | 0 <= j :: !CrlfAt(b, j)
    ensures LastLine(b) == b
  {
    CrlfFound(b, 0);
  }

  lemma CrlfInside(b: bytes, n: nat, j: nat)
    requires n <= j && CrlfAt(b, j)
    ensures CrlfAt(b[n..], j - n)
  {
  }

  /** A line without CRLF behind the last CRLF begins right behind it. */
  lemma LineStart(b: bytes, line: bytes, n: nat, k: nat)
    requires 2 <= k <= |b| && CrlfAt(b, k - 2) && forall j | k - 1 <= j :: !CrlfAt(b, j)
    requires n <= |b| && line == b[n..] && CrlfFrom(line, 0).None? && (0 < n ==> 2 <= n && CrlfAt(b, n - 2))
    ensures n == k
  {
    if n <= k - 2 {
      CrlfInside(b, n, k - 2);
      CrlfFound(line, 0);
    }
  }

  lemma LastLineIs(b: bytes, k: nat)
    requires 2 <= k <= |b| && CrlfAt(b, k - 2) && forall j | k - 1 <= j :: !CrlfAt(b, j)
    ensures LastLine(b) == b[k..]
  {
    var line := LastLine(b);
    LastLineFacts(b);
    LineStart(b, line, |b| - |line|, k);
  }

  lemma FiveParts(s: seq<Event>, a: seq<Event>, b: seq<Event>, c: seq<Event>, d: seq<Event>, e: seq<Event>)
    ensures s + a + b + c + d + e == s + (a + b + c + d + e)
  {
    Assoc(s, a, b);
    Assoc(s, a + b, c);
    Assoc(s, a + b + c, d);
    Assoc(s, a + b + c + d, e);
  }
}
