/** An accepted message, collected in any pieces on the accumulating path of a parser of both kinds:
    Begin and Complete fire once, Complete on the last piece, the URL fragments join to the target, and
    the headers come as they are exactly when no call has shown a value. The fast paths in front of it
    are in `BothDispatch`. */
module PendingRuns {
  import opened Bytes
  import opened Grammar
  import opened Reference
  import opened Events
  import opened Machine
  import opened SplitEvents
  import opened MessageEvents
  import opened StartEvents
  import opened Consumers
  import opened UniqueFraming
  import opened Pending

  // --------------------------------------------------------------------- the target

  lemma ByteFromIs(s: bytes, i: nat, k: nat)
    requires i <= k < |s| && s[k] == SP && forall j | i <= j < k :: s[j] != SP
    ensures ByteFrom(s, SP, i) == Some(k)
  {
    var r := ByteFrom(s, SP, i);
    assert r.Some? && !(k < r.value);
  }

  /** More of a line shows at least as much of the target. */
  lemma TargetInGrows(a: bytes, x: bytes)
    ensures TargetIn(a) <= TargetIn(a + x)
  {
    if FindByte(a, SP).Some? {
      var first := FindByte(a, SP).value;
      ByteKept(a, x, SP);
      match ByteFrom(a, SP, first + 1)
      case Some(second) =>
        ByteFromIs(a + x, first + 1, second);
        SliceAppend(a, x, first + 1, second);
      case None => FirstPartKept(a, x, first + 1);
    }
  }

  lemma FirstPartKept(a: bytes, x: bytes, i: nat)
    requires i <= |a| && ByteFrom(a, SP, i).None?
    ensures match ByteFrom(a + x, SP, i)
            case Some(k) => |a| <= k && a[i..] <= (a + x)[i..k]
            case None => a[i..] <= (a + x)[i..]
  {
    assert forall j | i <= j < |a| :: (a + x)[j] == a[j] && a[j] != SP;
  }

  /** Behind the second space, more input does not change the target. */
  lemma TargetInKept(a: bytes, x: bytes)
    requires FindByte(a, SP).Some? && ByteFrom(a, SP, FindByte(a, SP).value + 1).Some?
    ensures TargetIn(a + x) == TargetIn(a)
  {
    var first := FindByte(a, SP).value;
    var second := ByteFrom(a, SP, first + 1).value;
    ByteKept(a, x, SP);
    ByteFromIs(a + x, first + 1, second);
    SliceAppend(a, x, first + 1, second);
  }

  lemma RequestLineShape(line: bytes, l: RequestLine)
    requires ParseRequestLine(line) == Some(l)
    ensures FindByte(line, SP).Some? && ByteFrom(line, SP, FindByte(line, SP).value + 1).Some? && TargetIn(line) == l.target
  {
  }

  lemma TargetInPrefix(m: bytes, k: nat, n: nat)
    requires k <= n <= |m|
    ensures TargetIn(m[..k]) <= TargetIn(m[..n])
  {
    assert m[..n] == m[..k] + m[k..n];
    TargetInGrows(m[..k], m[k..n]);
  }

  lemma ShownAt(m: bytes, i: nat, target: bytes, k: nat)
    requires CrlfFrom(m, 0) == Some(i) && k <= |m| && FindByte(m[..i], SP).Some?
    requires ByteFrom(m[..i], SP, FindByte(m[..i], SP).value + 1).Some? && TargetIn(m[..i]) == target
    ensures TargetSoFar(m[..k]) == if k <= i then TargetIn(m[..k]) else target
  {
    CrlfPrefix(m, 0, k);
    if i + 2 <= k {
      assert m[..k][..i] == m[..i];
    } else if k == i + 1 {
      assert m[..k] == m[..i] + [m[i]];
      TargetInKept(m[..i], [m[i]]);
    }
  }

  /** Prefixes of a request show more and more of its target, and all of it once the line has arrived. */
  lemma TargetGrows(m: bytes, i: nat, target: bytes, k: nat, n: nat)
    requires CrlfFrom(m, 0) == Some(i) && k <= n <= |m| && FindByte(m[..i], SP).Some?
    requires ByteFrom(m[..i], SP, FindByte(m[..i], SP).value + 1).Some? && TargetIn(m[..i]) == target
    ensures TargetSoFar(m[..k]) <= TargetSoFar(m[..n]) && (i < n ==> TargetSoFar(m[..n]) == target)
  {
    ShownAt(m, i, target, k);
    ShownAt(m, i, target, n);
    if k <= i {
      TargetInPrefix(m, k, if n <= i then n else i);
    }
  }

  // ------------------------------------------------------------------------------ calls

  /** What has happened after some calls. */
  datatype Total = Total(st: Gathered, err: Option<Err>, es: seq<Event>)

  function After(parse: OneShot, cb: Setting, t: Total, buf: bytes): (t': Total) {
    var r := GatherWith(parse, cb, t.st, buf);
    Total(r.st, r.err, t.es + r.es)
  }

  function Fed(parse: OneShot, cb: Setting, pieces: seq<bytes>): (t: Total)
    decreases |pieces|
  {
    if pieces == [] then Total(NEW, None, [])
    else After(parse, cb, Fed(parse, cb, pieces[..|pieces| - 1]), pieces[|pieces| - 1])
  }

  /** The value bytes passed on once `pending` has been looked at, `f` having been passed on before. */
  function EarlyAfter(on: bool, f: bytes, pending: bytes): (f': bytes) {
    var v := ValueSoFar(pending);
    if on && |f| < |v| then f + v[|f|..] else f
  }

  /** What the calls with these pieces pass on of values before the message is complete: whatever the
      last line shows, be it a header or not, beyond the bytes passed on already. */
  function Early(on: bool, pieces: seq<bytes>): (f: bytes)
    decreases |pieces|
  {
    if pieces == [] then [] else EarlyAfter(on, Early(on, pieces[..|pieces| - 1]), Concat(pieces))
  }

  /** Nothing is passed on exactly when at no cut, and not at the end, the last line shows a value. */
  lemma {:induction false} EarlyNone(pieces: seq<bytes>)
    ensures Early(true, pieces) == [] <==> forall j | 0 < j <= |pieces| :: ValueSoFar(Concat(pieces[..j])) == []
    decreases |pieces|
  {
    if pieces != [] {
      var n := |pieces| - 1;
      EarlyNone(pieces[..n]);
      assert pieces[..|pieces|] == pieces;
      forall j | 0 < j <= n ensures pieces[..n][..j] == pieces[..j] {
      }
      EmptyAppend(ValueSoFar(Concat(pieces)));
      if Early(true, pieces[..n]) == [] && ValueSoFar(Concat(pieces)) == [] {
        forall j | 0 < j <= |pieces| ensures ValueSoFar(Concat(pieces[..j])) == [] {
          if j <= n {
            assert ValueSoFar(Concat(pieces[..n][..j])) == [];
          }
        }
      } else if Early(true, pieces[..n]) != [] {
        var j :| 0 < j <= n && ValueSoFar(Concat(pieces[..n][..j])) != [];
        assert ValueSoFar(Concat(pieces[..j])) != [];
      }
    }
  }

  /** Callbacks that say nothing but where the message starts, and value bytes `f`. */
  ghost predicate StartOnly(cb: Setting, es: seq<Event>, url: bytes, f: bytes) {
    Count(es, Begin) == (if cb.begin then 1 else 0) && UrlOf(es) == url && Alike(Stream, es, ValueRest(true, f, 0))
  }

  /** Part `a` of a message has been collected, and `f` passed on of values. */
  ghost predicate Midway(cb: Setting, kind: Kind, a: bytes, f: bytes, t: Total) {
    && t.st == Gathered(a, true, kind, |Shown(cb, kind, a)|, |f|, false) && t.err.None?
    && StartOnly(cb, t.es, Shown(cb, kind, a), f)
  }

  /** Nothing, or a part of a message whose kind is known. */
  ghost predicate Ready(cb: Setting, kind: Kind, a: bytes, f: bytes, b: bytes, t: Total) {
    (a == [] && f == [] && t == Total(NEW, None, []) && Infer(b) == Some(kind)) || Midway(cb, kind, a, f, t)
  }

  lemma UrlTold(on: bool, v: bytes, offset: nat)
    ensures UrlOf(UrlRest(on, v, offset)) == (if on && offset < |v| then v[offset..] else [])
    ensures Count(UrlRest(on, v, offset), Begin) == 0 && Alike(Stream, UrlRest(on, v, offset), [])
  {
    if on && offset < |v| {
      OneEvent(Url(v[offset..]));
      OneJoined(Url(v[offset..]));
    }
  }

  lemma BeginTold(c: bool)
    ensures UrlOf(When(c, Begin)) == [] && Count(When(c, Begin), Begin) == (if c then 1 else 0) && Alike(Stream, When(c, Begin), [])
  {
    OneEvent(Begin);
    OneJoined(Begin);
  }

  lemma JoinsTarget(v: bytes, w: bytes)
    requires v <= w
    ensures v + (if |v| < |w| then w[|v|..] else []) == w
  {
  }

  lemma StartPair(c: bool, v: bytes, offset: nat)
    ensures var es := When(c, Begin) + UrlRest(true, v, offset);
            && UrlOf(es) == (if offset < |v| then v[offset..] else []) && Count(es, Begin) == (if c then 1 else 0)
            && Alike(Stream, es, [])
  {
    var x, y := When(c, Begin), UrlRest(true, v, offset);
    BeginTold(c);
    UrlTold(true, v, offset);
    AlikeAppend(Stream, x, [], y, []);
    JoinedParts(x, y);
  }

  lemma StartSum(x: seq<Event>, y: seq<Event>)
    ensures UrlOf(x + y) == UrlOf(x) + UrlOf(y) && Count(x + y, Begin) == Count(x, Begin) + Count(y, Begin)
  {
    JoinedParts(x, y);
  }

  /** Value bytes passed on in one more step. */
  lemma EarlyJoins(on: bool, f: bytes, v: bytes)
    ensures Alike(Stream, ValueRest(true, f, 0) + ValueRest(on, v, |f|), ValueRest(true, if on && |f| < |v| then f + v[|f|..] else f, 0))
  {
    var x, y := ValueRest(true, f, 0), ValueRest(on, v, |f|);
    EmptyAppend(x);
    EmptyAppend(y);
    assert f != [] ==> f[0..] == f;
    if on && |f| < |v| {
      var g := f + v[|f|..];
      assert g[0..] == g;
      if f != [] {
        assert x + y == [Value(f), Value(v[|f|..])];
        TwoJoined(f, v[|f|..]);
      }
    }
  }

  lemma QuietPart(x: seq<Event>, on: bool, v: bytes, offset: nat)
    ensures UrlOf(x + ValueRest(on, v, offset)) == UrlOf(x) && Count(x + ValueRest(on, v, offset), Begin) == Count(x, Begin)
  {
    QuietValue(on, v, offset);
    QuietBehind(x, ValueRest(on, v, offset));
  }

  /** Begin once, the target from where it stood, and one more step of values. */
  lemma StartJoined(cb: Setting, started: bool, es: seq<Event>, v: bytes, w: bytes, f: bytes, val: bytes)
    requires v <= w && if started then StartOnly(cb, es, v, f) else es == [] && v == [] && f == []
    ensures StartOnly(cb, es + (When(cb.begin && !started, Begin) + UrlRest(true, w, |v|) + ValueRest(cb.value, val, |f|)), w,
                      if cb.value && |f| < |val| then f + val[|f|..] else f)
  {
    var s, z := When(cb.begin && !started, Begin) + UrlRest(true, w, |v|), ValueRest(cb.value, val, |f|);
    StartPair(cb.begin && !started, w, |v|);
    JoinsTarget(v, w);
    StartSum(es, s + z);
    QuietPart(s, cb.value, val, |f|);
    AlikeAppend(Stream, s, [], z, z);
    EmptyAppend(z);
    AlikeAppend(Stream, es, ValueRest(true, f, 0), s + z, z);
    EarlyJoins(cb.value, f, val);
  }

  /** The part of the target that is reported. */
  function Shown(cb: Setting, kind: Kind, a: bytes): (t: bytes) {
    if cb.url && kind == Request then TargetSoFar(a) else []
  }

  lemma AddedIs(cb: Setting, kind: Kind, a: bytes, f: bytes, b: bytes, t: Total)
    requires Ready(cb, kind, a, f, b, t) && kind != Both && Shown(cb, kind, a) <= Shown(cb, kind, a + b)
    ensures var st := Added(t.st, b);
            && st == Gathered(a + b, true, kind, |Shown(cb, kind, a)|, |f|, false) && Offset(cb, st) == |Shown(cb, kind, a + b)|
            && Fragment(cb, st) == UrlRest(true, Shown(cb, kind, a + b), |Shown(cb, kind, a)|)
  {
    EmptyAppend(b);
    assert TargetSoFar([]) == [];
  }

  lemma ValueAdded(cb: Setting, st: Gathered, f: bytes)
    requires st.value == |f|
    ensures ValueOffset(cb, st) == |EarlyAfter(cb.value, f, st.pending)| && ValueFragment(cb, st) == ValueRest(cb.value, ValueSoFar(st.pending), |f|)
  {
  }

  /** What a call tells before it parses. */
  function Opening(cb: Setting, st: Gathered, b: bytes): (es: seq<Event>) {
    When(cb.begin && !st.started, Begin) + Fragment(cb, Added(st, b)) + ValueFragment(cb, Added(st, b))
  }

  lemma StartTold(cb: Setting, kind: Kind, a: bytes, f: bytes, b: bytes, t: Total)
    requires Ready(cb, kind, a, f, b, t) && kind != Both && Shown(cb, kind, a) <= Shown(cb, kind, a + b)
    ensures StartOnly(cb, t.es + Opening(cb, t.st, b), Shown(cb, kind, a + b), EarlyAfter(cb.value, f, a + b))
  {
    AddedIs(cb, kind, a, f, b, t);
    ValueAdded(cb, Added(t.st, b), f);
    assert TargetSoFar([]) == [];
    StartJoined(cb, t.st.started, t.es, Shown(cb, kind, a), Shown(cb, kind, a + b), f, ValueSoFar(a + b));
  }

  lemma CallMidway(parse: OneShot, cb: Setting, kind: Kind, a: bytes, f: bytes, b: bytes, t: Total)
    requires Ready(cb, kind, a, f, b, t) && kind != Both && Shown(cb, kind, a) <= Shown(cb, kind, a + b)
    requires parse(kind, a + b) == Incomplete
    ensures Midway(cb, kind, a + b, EarlyAfter(cb.value, f, a + b), After(parse, cb, t, b))
  {
    AddedIs(cb, kind, a, f, b, t);
    ValueAdded(cb, Added(t.st, b), f);
    StartTold(cb, kind, a, f, b, t);
    EmptyAppend(Opening(cb, t.st, b));
  }

  // ---------------------------------------------------------------------- the last call

  /** The callbacks of emitParsedMessage behind the target, `offset` bytes of values having been passed on. */
  function Tail(cb: Setting, offset: nat, msg: Message): (es: seq<Event>) {
    HeaderEvents(cb, offset, msg.headers) + When(cb.headers, HeadersDone) + When(cb.body && msg.body != [], BodyPart(msg.body))
        + When(cb.complete, Complete)
  }

  /** The parser waits for the next message, and no call has failed. */
  ghost predicate AtRest(t: Total) {
    t.st == Gathered([], false, t.st.kind, 0, 0, true) && t.err.None?
  }

  /** The callbacks for a whole message, with `f` passed on of values before. */
  ghost predicate WholeSaid(cb: Setting, msg: Message, f: bytes, es: seq<Event>) {
    && Count(es, Begin) == (if cb.begin then 1 else 0)
    && UrlOf(es) == (if cb.url && msg.start.Req? then msg.start.req.target else [])
    && Alike(Stream, es, ValueRest(true, f, 0) + Tail(cb, |f|, msg))
  }

  /** The message has been told once and as it is, Status aside. */
  ghost predicate WholeTold(cb: Setting, msg: Message, es: seq<Event>) {
    && Count(es, Begin) == (if cb.begin then 1 else 0)
    && UrlOf(es) == (if cb.url && msg.start.Req? then msg.start.req.target else [])
    && Alike(Stream, es, Trace(cb, msg))
  }

  lemma QuietValues(on: bool, v: bytes, offset: nat)
    ensures Quiet(ValueEvents(on, v, offset))
  {
    QuietWhen(on, Value(v));
    QuietValue(on, v, offset);
  }

  lemma {:induction false} QuietHeaderEvents(cb: Setting, offset: nat, hs: seq<Header>)
    ensures Quiet(HeaderEvents(cb, offset, hs))
    decreases |hs|
  {
    if hs != [] {
      var f, v := When(cb.field, Field(hs[0].name)), ValueEvents(cb.value, hs[0].value, offset);
      QuietWhen(cb.field, Field(hs[0].name));
      QuietValues(cb.value, hs[0].value, offset);
      QuietAppend(f, v);
      QuietHeaderEvents(cb, if cb.value then 0 else offset, hs[1..]);
      QuietAppend(f + v, HeaderEvents(cb, if cb.value then 0 else offset, hs[1..]));
    }
  }

  lemma QuietTail(cb: Setting, offset: nat, msg: Message)
    ensures Quiet(Tail(cb, offset, msg))
  {
    var n, h, b, c := HeaderEvents(cb, offset, msg.headers), When(cb.headers, HeadersDone),
        When(cb.body && msg.body != [], BodyPart(msg.body)), When(cb.complete, Complete);
    QuietHeaderEvents(cb, offset, msg.headers);
    QuietWhen(cb.headers, HeadersDone);
    QuietWhen(cb.body && msg.body != [], BodyPart(msg.body));
    QuietWhen(cb.complete, Complete);
    QuietAppend(n, h);
    QuietAppend(n + h, b);
    QuietAppend(n + h + b, c);
  }

  lemma ParsedEventsAre(cb: Setting, url: nat, offset: nat, msg: Message)
    requires msg.start.Req? && cb.url ==> |msg.start.req.target| <= url
    ensures ParsedEvents(cb, url, offset, msg) == Tail(cb, offset, msg)
  {
    EmptyAppend(HeaderEvents(cb, offset, msg.headers));
  }

  /** Start callbacks, then all the others. */
  lemma WholeJoined(cb: Setting, msg: Message, x: seq<Event>, f: bytes)
    requires StartOnly(cb, x, if cb.url && msg.start.Req? then msg.start.req.target else [], f)
    ensures WholeSaid(cb, msg, f, x + Tail(cb, |f|, msg))
  {
    var y := Tail(cb, |f|, msg);
    QuietTail(cb, |f|, msg);
    QuietBehind(x, y);
    AlikeAppend(Stream, x, ValueRest(true, f, 0), y, y);
  }

  lemma CallWhole(parse: OneShot, cb: Setting, kind: Kind, a: bytes, f: bytes, b: bytes, t: Total, msg: Message)
    requires Ready(cb, kind, a, f, b, t) && kind != Both && Shown(cb, kind, a) <= Shown(cb, kind, a + b)
    requires parse(kind, a + b) == Accepted(msg) && (msg.start.Req? <==> kind == Request)
    requires Shown(cb, kind, a + b) == if cb.url && msg.start.Req? then msg.start.req.target else []
    ensures AtRest(After(parse, cb, t, b)) && WholeSaid(cb, msg, EarlyAfter(cb.value, f, a + b), After(parse, cb, t, b).es)
  {
    var f' := EarlyAfter(cb.value, f, a + b);
    AddedIs(cb, kind, a, f, b, t);
    ValueAdded(cb, Added(t.st, b), f);
    StartTold(cb, kind, a, f, b, t);
    ParsedEventsAre(cb, |Shown(cb, kind, a + b)|, |f'|, msg);
    Assoc(t.es, Opening(cb, t.st, b), Tail(cb, |f'|, msg));
    WholeJoined(cb, msg, t.es + Opening(cb, t.st, b), f');
  }

  // ------------------------------------------------------------------------- all pieces

  /** What the calls rely on: `m` is accepted, its prefixes are not, and they show more and more of
      the target. */
  ghost predicate Grows(parse: OneShot, cb: Setting, kind: Kind, m: bytes, msg: Message) {
    && kind != Both && parse(kind, m) == Accepted(msg) && (msg.start.Req? <==> kind == Request)
    && (forall k | 0 <= k < |m| :: parse(kind, m[..k]) == Incomplete)
    && (forall k, n | 0 <= k <= n <= |m| :: Shown(cb, kind, m[..k]) <= Shown(cb, kind, m[..n]))
    && Shown(cb, kind, m) == if cb.url && msg.start.Req? then msg.start.req.target else []
  }

  ghost predicate Pieces(m: bytes, pieces: seq<bytes>) {
    Concat(pieces) == m && forall i | 0 <= i < |pieces| :: pieces[i] != []
  }

  lemma FedNext(parse: OneShot, cb: Setting, pieces: seq<bytes>, j: nat)
    requires j < |pieces|
    ensures Fed(parse, cb, pieces[..j + 1]) == After(parse, cb, Fed(parse, cb, pieces[..j]), pieces[j])
  {
    assert pieces[..j + 1][..j] == pieces[..j];
  }

  lemma PieceAt(m: bytes, pieces: seq<bytes>, j: nat)
    requires Pieces(m, pieces) && j < |pieces|
    ensures var a := Concat(pieces[..j]);
            && |a| + |pieces[j]| <= |m| && a == m[..|a|] && |a| < |m|
            && a + pieces[j] == Concat(pieces[..j + 1]) && a + pieces[j] == m[..|a| + |pieces[j]|]
            && (j + 1 < |pieces| ==> |a| + |pieces[j]| < |m|) && (j + 1 == |pieces| ==> a + pieces[j] == m)
  {
    PiecesUpTo(pieces, j);
    PiecesUpTo(pieces, j + 1);
    PiecesNext(pieces, j);
    assert pieces[..|pieces|] == pieces;
    if j + 1 < |pieces| {
      PiecesUpTo(pieces, j + 2);
      PiecesNext(pieces, j + 1);
    }
  }

  lemma EarlyNext(on: bool, pieces: seq<bytes>, j: nat)
    requires j < |pieces|
    ensures Early(on, pieces[..j + 1]) == EarlyAfter(on, Early(on, pieces[..j]), Concat(pieces[..j + 1]))
  {
    assert pieces[..j + 1][..j] == pieces[..j];
  }

  lemma {:induction false} PiecesMidway(parse: OneShot, cb: Setting, kind: Kind, m: bytes, msg: Message, pieces: seq<bytes>, j: nat)
    requires Grows(parse, cb, kind, m, msg) && Pieces(m, pieces) && 0 < j < |pieces| && Infer(pieces[0]) == Some(kind)
    ensures Midway(cb, kind, Concat(pieces[..j]), Early(cb.value, pieces[..j]), Fed(parse, cb, pieces[..j]))
    decreases j
  {
    var a := Concat(pieces[..j - 1]);
    PieceAt(m, pieces, j - 1);
    FedNext(parse, cb, pieces, j - 1);
    EarlyNext(cb.value, pieces, j - 1);
    if 1 < j {
      PiecesMidway(parse, cb, kind, m, msg, pieces, j - 1);
    }
    CallMidway(parse, cb, kind, a, Early(cb.value, pieces[..j - 1]), pieces[j - 1], Fed(parse, cb, pieces[..j - 1]));
  }

  lemma PiecesWhole(parse: OneShot, cb: Setting, kind: Kind, m: bytes, msg: Message, pieces: seq<bytes>)
    requires Grows(parse, cb, kind, m, msg) && Pieces(m, pieces) && pieces != [] && Infer(pieces[0]) == Some(kind)
    ensures AtRest(Fed(parse, cb, pieces)) && WholeSaid(cb, msg, Early(cb.value, pieces), Fed(parse, cb, pieces).es)
  {
    var n := |pieces| - 1;
    PieceAt(m, pieces, n);
    FedNext(parse, cb, pieces, n);
    EarlyNext(cb.value, pieces, n);
    assert pieces[..n + 1] == pieces;
    if 0 < n {
      PiecesMidway(parse, cb, kind, m, msg, pieces, n);
    }
    LastPiece(parse, cb, kind, m, msg, Concat(pieces[..n]), Early(cb.value, pieces[..n]), pieces[n], Fed(parse, cb, pieces[..n]));
  }

  lemma LastPiece(parse: OneShot, cb: Setting, kind: Kind, m: bytes, msg: Message, a: bytes, f: bytes, b: bytes, t: Total)
    requires Grows(parse, cb, kind, m, msg) && m == a + b && a == m[..|a|] && Ready(cb, kind, a, f, b, t)
    ensures AtRest(After(parse, cb, t, b)) && WholeSaid(cb, msg, EarlyAfter(cb.value, f, m), After(parse, cb, t, b).es)
  {
    assert m[..|m|] == m;
    CallWhole(parse, cb, kind, a, f, b, t, msg);
  }

  /** The one-shot parser is such a parser. */
  lemma AcceptedGrows(cb: Setting, kind: Kind, m: bytes)
    requires Accepts(HTTP, kind, m)
    ensures Grows(PARSE, cb, kind, m, ParseMessage(HTTP, kind, m).msg)
  {
    forall k | 0 <= k < |m| ensures PARSE(kind, m[..k]) == Incomplete {
      PrefixIncomplete(HTTP, kind, m, k);
    }
    if kind == Request {
      RequestShown(cb, m);
    }
  }

  lemma RequestShown(cb: Setting, m: bytes)
    requires Accepts(HTTP, Request, m)
    ensures forall k, n | 0 <= k <= n <= |m| :: Shown(cb, Request, m[..k]) <= Shown(cb, Request, m[..n])
    ensures Shown(cb, Request, m) == if cb.url then ParseMessage(HTTP, Request, m).msg.start.req.target else []
  {
    var i := CrlfFrom(m, 0).value;
    var l := ParseRequestLine(m[..i]).value;
    RequestLineShape(m[..i], l);
    forall k, n | 0 <= k <= n <= |m| ensures TargetSoFar(m[..k]) <= TargetSoFar(m[..n]) {
      TargetGrows(m, i, l.target, k, n);
    }
    TargetGrows(m, i, l.target, 0, |m|);
    assert m[..|m|] == m;
  }

  /** On the accumulating path, an accepted message in any pieces of which the first shows the kind: before
      the last piece nothing but Begin, parts of the target and value bytes are told; with the last piece
      the message is complete, Begin has fired once, the fragments of the target join, and the callbacks
      are those of the message with the value bytes in front of it and missing from its first value. */
  lemma BothModeDelivers(cb: Setting, kind: Kind, m: bytes, pieces: seq<bytes>)
    requires Accepts(HTTP, kind, m) && Pieces(m, pieces) && pieces != [] && Infer(pieces[0]) == Some(kind)
    ensures forall j | 0 < j < |pieces| :: Midway(cb, kind, Concat(pieces[..j]), Early(cb.value, pieces[..j]), Fed(PARSE, cb, pieces[..j]))
    ensures AtRest(Fed(PARSE, cb, pieces)) && WholeSaid(cb, ParseMessage(HTTP, kind, m).msg, Early(cb.value, pieces), Fed(PARSE, cb, pieces).es)
  {
    var msg := ParseMessage(HTTP, kind, m).msg;
    AcceptedGrows(cb, kind, m);
    forall j | 0 < j < |pieces| ensures Midway(cb, kind, Concat(pieces[..j]), Early(cb.value, pieces[..j]), Fed(PARSE, cb, pieces[..j])) {
      PiecesMidway(PARSE, cb, kind, m, msg, pieces, j);
    }
    PiecesWhole(PARSE, cb, kind, m, msg, pieces);
  }

  // ----------------------------------------------------------- values told too early

  function FirstValue(hs: seq<Header>): (v: bytes) {
    if hs == [] then [] else hs[0].value
  }

  /** Value bytes passed on early do no harm: there are none, or no names are told and they begin the
      first value. */
  predicate EarlyFits(cb: Setting, f: bytes, hs: seq<Header>) {
    if cb.field then f == [] else f <= FirstValue(hs)
  }

  lemma {:induction false} NoOffset(cb: Setting, hs: seq<Header>)
    ensures HeaderEvents(cb, 0, hs) == HeaderTrace(cb, hs)
    decreases |hs|
  {
    if hs != [] {
      NoOffset(cb, hs[1..]);
    }
  }

  lemma TailIsTrace(cb: Setting, msg: Message)
    ensures Alike(Stream, Tail(cb, 0, msg), Trace(cb, msg))
  {
    NoOffset(cb, msg.headers);
    RestIsTrace(cb, HeaderTrace(cb, msg.headers), msg);
  }

  /** The same headers, the same rest. */
  lemma RestIsTrace(cb: Setting, n: seq<Event>, msg: Message)
    ensures Alike(Stream, n + When(cb.headers, HeadersDone) + When(cb.body && msg.body != [], BodyPart(msg.body)) + When(cb.complete, Complete),
                  n + (When(cb.headers, HeadersDone) + BodyTrace(cb, msg.body)))
  {
    var h, b, b', c := When(cb.headers, HeadersDone), When(cb.body && msg.body != [], BodyPart(msg.body)),
        When(cb.body, BodyPart(msg.body)), When(cb.complete, Complete);
    OneJoined(BodyPart(msg.body));
    AlikeAppend(Stream, n + h, n + h, b, b');
    AlikeAppend(Stream, n + h + b, n + h + b', c, c);
    Assoc(n, h, b');
    Assoc(n, h + b', c);
    Assoc(h, b', c);
  }

  /** Names follow value bytes: a consumer keeps them as stray. */
  lemma EarlyIsHeard(cb: Setting, f: bytes, es: seq<Event>, msg: Message)
    requires f != [] && cb.field
    ensures !Alike(Stream, ValueRest(true, f, 0) + es, Trace(cb, msg))
  {
    var x := ValueRest(true, f, 0);
    assert f[0..] == f && [Value(f)][1..] == [];
    HearAppend(NOTHING, x, es);
    assert Hear(x) == HearFrom(Listen(NOTHING, Value(f)), []);
    HearGrows(Hear(x), es, 0);
    TraceStray(cb, msg);
    if Alike(Stream, x + es, Trace(cb, msg)) {
      StreamHeard(x + es, Trace(cb, msg));
    }
  }

  lemma {:induction false} HeadersStray(cb: Setting, h: Heard, hs: seq<Header>)
    requires h.stray == [] && (h.headers != [] || cb.field)
    ensures HearFrom(h, HeaderTrace(cb, hs)).stray == []
    decreases |hs|
  {
    if hs != [] {
      var f, v, rest := When(cb.field, Field(hs[0].name)), When(cb.value, Value(hs[0].value)), HeaderTrace(cb, hs[1..]);
      HearAppend(h, f + v, rest);
      HearAppend(h, f, v);
      OneHeard(h, cb.field, Field(hs[0].name));
      var h1 := HearFrom(h, f);
      OneHeard(h1, cb.value, Value(hs[0].value));
      HeadersStray(cb, HearFrom(h1, v), hs[1..]);
    }
  }

  lemma OneHeard(h: Heard, c: bool, e: Event)
    ensures HearFrom(h, When(c, e)) == if c then Listen(h, e) else h
  {
    assert [e][1..] == [];
  }

  lemma TraceStray(cb: Setting, msg: Message)
    requires cb.field
    ensures Hear(Trace(cb, msg)).stray == []
  {
    var n, h, b, c := HeaderTrace(cb, msg.headers), When(cb.headers, HeadersDone), When(cb.body, BodyPart(msg.body)), When(cb.complete, Complete);
    HeadersStray(cb, NOTHING, msg.headers);
    HearAppend(NOTHING, n, h + (b + c));
    var h1 := Hear(n);
    HearAppend(h1, h, b + c);
    HearAppend(h1, b, c);
    OneHeard(h1, cb.headers, HeadersDone);
    OneHeard(h1, cb.body, BodyPart(msg.body));
    OneHeard(h1, cb.complete, Complete);
  }

  /** Without names, bytes that begin the first value are its first fragment. */
  lemma EarlyIsFirst(cb: Setting, f: bytes, msg: Message)
    requires !cb.field && cb.value && f != [] && f <= FirstValue(msg.headers)
    ensures Alike(Stream, ValueRest(true, f, 0) + Tail(cb, |f|, msg), Trace(cb, msg))
  {
    var hs, v := msg.headers, msg.headers[0].value;
    var x, y, rest := ValueRest(true, f, 0), ValueRest(true, v, |f|), HeaderTrace(cb, hs[1..]);
    NoOffset(cb, hs[1..]);
    EarlyJoins(true, f, v);
    SuffixJoins(f, v);
    assert (if |f| < |v| then f + v[|f|..] else f) == v;
    EmptyAppend(y);
    EmptyAppend([Value(v)]);
    assert v[0..] == v;
    AlikeAppend(Stream, x + y, ValueRest(true, v, 0), rest, rest);
    Assoc(x, y, rest);
    RestIsTrace(cb, HeaderTrace(cb, hs), msg);
    TailBehind(cb, x, |f|, msg);
  }

  lemma TailBehind(cb: Setting, x: seq<Event>, offset: nat, msg: Message)
    requires Alike(Stream, x + HeaderEvents(cb, offset, msg.headers), HeaderTrace(cb, msg.headers))
    ensures Alike(Stream, x + Tail(cb, offset, msg), Trace(cb, msg))
  {
    var n, h, b, c := HeaderEvents(cb, offset, msg.headers), When(cb.headers, HeadersDone),
        When(cb.body && msg.body != [], BodyPart(msg.body)), When(cb.complete, Complete);
    var t := HeaderTrace(cb, msg.headers);
    AlikeAppend(Stream, x + n, t, h, h);
    AlikeAppend(Stream, x + n + h, t + h, b, b);
    AlikeAppend(Stream, x + n + h + b, t + h + b, c, c);
    FourParts(x, n, h, b, c);
    RestIsTrace(cb, t, msg);
  }

  function ValuesOf(hs: seq<Header>): (r: bytes)
    decreases |hs|
  {
    if hs == [] then [] else hs[0].value + ValuesOf(hs[1..])
  }

  lemma PartsOf(x: seq<Event>, y: seq<Event>)
    ensures Values(x + y) == Values(x) + Values(y)
  {
    JoinedParts(x, y);
  }

  lemma {:induction false} TraceValues(cb: Setting, hs: seq<Header>)
    requires cb.value
    ensures Values(HeaderTrace(cb, hs)) == ValuesOf(hs)
    decreases |hs|
  {
    if hs != [] {
      var f, v, rest := When(cb.field, Field(hs[0].name)), When(cb.value, Value(hs[0].value)), HeaderTrace(cb, hs[1..]);
      TraceValues(cb, hs[1..]);
      OneEvent(Field(hs[0].name));
      OneEvent(Value(hs[0].value));
      ValuesInThree(f, v, rest, [], hs[0].value, ValuesOf(hs[1..]));
      EmptyAppend(hs[0].value);
    }
  }

  lemma ValuesInThree(f: seq<Event>, v: seq<Event>, rest: seq<Event>, a: bytes, b: bytes, c: bytes)
    requires Values(f) == a && Values(v) == b && Values(rest) == c
    ensures Values(f + v + rest) == a + b + c
  {
    PartsOf(f, v);
    PartsOf(f + v, rest);
  }

  lemma RestHasNoValues(cb: Setting, body: bytes)
    ensures Values(When(cb.headers, HeadersDone)) == [] && Values(When(cb.body && body != [], BodyPart(body))) == []
    ensures Values(When(cb.body, BodyPart(body))) == [] && Values(When(cb.complete, Complete)) == []
  {
    OneEvent(HeadersDone);
    OneEvent(BodyPart(body));
    OneEvent(Complete);
  }

  lemma TailValues(cb: Setting, offset: nat, msg: Message)
    requires cb.value && 0 < offset
    ensures Values(Tail(cb, offset, msg)) ==
            if msg.headers == [] then []
            else (if offset < |msg.headers[0].value| then msg.headers[0].value[offset..] else []) + ValuesOf(msg.headers[1..])
  {
    var n, h, b, c := HeaderEvents(cb, offset, msg.headers), When(cb.headers, HeadersDone),
        When(cb.body && msg.body != [], BodyPart(msg.body)), When(cb.complete, Complete);
    RestHasNoValues(cb, msg.body);
    PartsOf(n + h + b, c);
    PartsOf(n + h, b);
    PartsOf(n, h);
    EmptyAppend(Values(n));
    if msg.headers != [] {
      ShortenedValues(cb, offset, msg.headers);
    }
  }

  lemma ShortenedValues(cb: Setting, offset: nat, hs: seq<Header>)
    requires cb.value && 0 < offset && hs != []
    ensures Values(HeaderEvents(cb, offset, hs)) == (if offset < |hs[0].value| then hs[0].value[offset..] else []) + ValuesOf(hs[1..])
  {
    var f, v, rest := When(cb.field, Field(hs[0].name)), ValueRest(cb.value, hs[0].value, offset), HeaderTrace(cb, hs[1..]);
    NoOffset(cb, hs[1..]);
    TraceValues(cb, hs[1..]);
    OneEvent(Field(hs[0].name));
    ValueParts(cb.value, hs[0].value, offset);
    ValuesInThree(f, v, rest, [], Values(v), ValuesOf(hs[1..]));
    EmptyAppend(Values(v));
  }

  lemma AllTraceValues(cb: Setting, msg: Message)
    requires cb.value
    ensures Values(Trace(cb, msg)) == ValuesOf(msg.headers)
  {
    var n, h, b, c := HeaderTrace(cb, msg.headers), When(cb.headers, HeadersDone), When(cb.body, BodyPart(msg.body)), When(cb.complete, Complete);
    RestHasNoValues(cb, msg.body);
    TraceValues(cb, msg.headers);
    PartsOf(b, c);
    PartsOf(h, b + c);
    PartsOf(n, h + (b + c));
    EmptyAppend(Values(n));
  }

  lemma PrefixJoins(f: bytes, v: bytes, rest: bytes)
    ensures f + ((if |f| < |v| then v[|f|..] else []) + rest) == v + rest <==> f <= v
  {
    var x := f + ((if |f| < |v| then v[|f|..] else []) + rest);
    if f <= v {
      assert f + v[|f|..] == v;
    } else if |f| <= |v| {
      assert x[..|f|] == f && (v + rest)[..|f|] == v[..|f|];
    }
  }

  /** Bytes that do not begin the first value change what is told. */
  lemma EarlyShows(cb: Setting, f: bytes, msg: Message)
    requires cb.value && f != [] && !(f <= FirstValue(msg.headers))
    ensures !Alike(Stream, ValueRest(true, f, 0) + Tail(cb, |f|, msg), Trace(cb, msg))
  {
    var x, y := ValueRest(true, f, 0), Tail(cb, |f|, msg);
    ValueParts(true, f, 0);
    assert f[0..] == f;
    PartsOf(x, y);
    TailValues(cb, |f|, msg);
    AllTraceValues(cb, msg);
    if msg.headers != [] {
      PrefixJoins(f, msg.headers[0].value, ValuesOf(msg.headers[1..]));
    }
    if Alike(Stream, x + y, Trace(cb, msg)) {
      StreamTotals(x + y, Trace(cb, msg));
    }
  }

  /** A message whose callbacks have all been made is told as it is exactly when early bytes do no harm. */
  lemma ToldExactly(cb: Setting, msg: Message, f: bytes, es: seq<Event>)
    requires WholeSaid(cb, msg, f, es) && (cb.value || f == [])
    ensures WholeTold(cb, msg, es) <==> EarlyFits(cb, f, msg.headers)
  {
    if f == [] {
      TailIsTrace(cb, msg);
      EmptyAppend(Tail(cb, 0, msg));
    } else if cb.field {
      EarlyIsHeard(cb, f, Tail(cb, |f|, msg), msg);
    } else if f <= FirstValue(msg.headers) {
      EarlyIsFirst(cb, f, msg);
    } else {
      EarlyShows(cb, f, msg);
    }
  }

  lemma {:induction false} NoEarly(pieces: seq<bytes>)
    ensures Early(false, pieces) == []
    decreases |pieces|
  {
    if pieces != [] {
      NoEarly(pieces[..|pieces| - 1]);
    }
  }

  // ------------------------------------------------------------ a kind that was not shown

  /** Collecting for ever. */
  ghost predicate Stuck(t: Total) {
    t.st.started && t.st.kind == Both && !t.st.done && t.err.None? && Count(t.es, Complete) == 0
  }

  lemma BothIsNeverAccepted(buf: bytes)
    ensures ParseMessage(HTTP, Both, buf) == Incomplete
  {
  }

  lemma OpeningNeverCompletes(cb: Setting, st: Gathered, b: bytes)
    requires Added(st, b).kind == Both
    ensures Count(Opening(cb, st, b) + [], Complete) == 0
  {
    var x, v := When(cb.begin && !st.started, Begin), ValueFragment(cb, Added(st, b));
    OneEvent(Begin);
    ValueParts(cb.value, ValueSoFar(Added(st, b).pending), Added(st, b).value);
    EmptyAppend(x);
    JoinedParts(x, v);
    EmptyAppend(x + v);
  }

  lemma StaysStuck(cb: Setting, t: Total, buf: bytes)
    requires Stuck(t) || (t == Total(NEW, None, []) && Infer(buf).None?)
    ensures Stuck(After(PARSE, cb, t, buf))
  {
    EmptyAppend(buf);
    BothIsNeverAccepted(Added(t.st, buf).pending);
    OpeningNeverCompletes(cb, t.st, buf);
    JoinedParts(t.es, Opening(cb, t.st, buf) + []);
  }

  /** If the first piece does not show the kind, this path never completes a message, whatever follows. */
  lemma {:induction false} UnknownKindNeverCompletes(cb: Setting, pieces: seq<bytes>)
    requires pieces != [] && Infer(pieces[0]).None?
    ensures Stuck(Fed(PARSE, cb, pieces))
    decreases |pieces|
  {
    var n := |pieces| - 1;
    if 0 < n {
      assert pieces[..n][0] == pieces[0];
      UnknownKindNeverCompletes(cb, pieces[..n]);
    } else {
      assert pieces[..n] == [];
    }
    StaysStuck(cb, Fed(PARSE, cb, pieces[..n]), pieces[n]);
  }

  // -------------------------------------------------------------- the exact condition

  /** Methods start with a letter and have no slash where "HTTP/" has one. */
  predicate MethodLike(t: string) {
    t != "" && 'a' <= t[0] <= 'z' && (|t| <= 4 || t[4] != '/')
  }

  lemma MethodsAreMethodLike(i: nat)
    requires i < |METHODS|
    ensures MethodLike(METHODS[i])
  {
  }

  lemma TokenShape(token: bytes, t: string)
    requires EqualFold(token, t) && MethodLike(t)
    ensures token != [] && !Eol(token[0]) && (|token| <= 4 || token[4] != SLASH)
  {
    assert Lower(token[0]) as int == t[0] as int;
    if |token| > 4 {
      assert Lower(token[4]) as int == t[4] as int;
    }
  }

  lemma MethodToken(token: bytes)
    requires MatchMethod(token).Some?
    ensures token != [] && !Eol(token[0]) && (|token| <= 4 || token[4] != SLASH)
  {
    var n := MatchMethod(token).value - 1;
    MethodsAreMethodLike(n);
    TokenShape(token, METHODS[n]);
  }

  lemma RequestStart(line: bytes, first: nat)
    requires FindByte(line, SP) == Some(first) && MatchMethod(line[..first]).Some?
    ensures line != [] && !HttpAt(line, 0) && !Eol(line[0])
  {
    var token := line[..first];
    MethodToken(token);
    assert token[0] == line[0];
    if |token| > 4 {
      assert token[4] == line[4];
    }
  }

  lemma RequestIsNotResponse(m: bytes)
    requires Accepts(HTTP, Request, m)
    ensures m != [] && !HttpAt(m, 0) && !Eol(m[0])
  {
    var i := CrlfFrom(m, 0).value;
    var line := m[..i];
    RequestStart(line, FindByte(line, SP).value);
    RequestLineShape(line, ParseRequestLine(line).value);
    assert 5 <= i && HttpAt(m, 0) ==> HttpAt(line, 0);
    CrlfFound(m, 0);
  }

  lemma ResponseStart(m: bytes)
    requires Accepts(HTTP, Response, m)
    ensures HttpAt(m, 0)
  {
    var i := CrlfFrom(m, 0).value;
    assert HttpAt(m[..i], 0);
  }

  /** A first piece shows the kind unless it is a beginning of "HTTP/" or "HEAD" that could be either. */
  predicate KindShows(a: bytes) {
    a != [] && !(a[0] == 72 && |a| < 5)
  }

  /** A first piece of an accepted message shows the right kind, or none, and none only if it begins with an H and has
      fewer than five bytes. */
  lemma InferIsRight(kind: Kind, m: bytes, a: bytes)
    requires Accepts(HTTP, kind, m) && a != [] && a <= m
    ensures Infer(a) == if KindShows(a) then Some(kind) else None
  {
    assert a[0] == m[0];
    if kind == Request {
      RequestIsNotResponse(m);
      assert !HttpAt(a, 0);
    } else {
      ResponseStart(m);
      assert 5 <= |a| ==> HttpAt(a, 0);
    }
  }

  /** Where no fast path steps in, an accepted message is delivered, and told as it is, if and only if its
      first piece shows the kind and no call has passed on value bytes that do harm. */
  lemma DeliversExactlyWhenKindShows(cb: Setting, kind: Kind, m: bytes, pieces: seq<bytes>)
    requires Accepts(HTTP, kind, m) && Pieces(m, pieces) && pieces != []
    ensures AtRest(Fed(PARSE, cb, pieces)) && WholeTold(cb, ParseMessage(HTTP, kind, m).msg, Fed(PARSE, cb, pieces).es)
            <==> KindShows(pieces[0]) && EarlyFits(cb, Early(cb.value, pieces), ParseMessage(HTTP, kind, m).msg.headers)
  {
    assert pieces[0] <= m;
    InferIsRight(kind, m, pieces[0]);
    if Infer(pieces[0]).Some? {
      BothModeDelivers(cb, kind, m, pieces);
      if !cb.value {
        NoEarly(pieces);
      }
      ToldExactly(cb, ParseMessage(HTTP, kind, m).msg, Early(cb.value, pieces), Fed(PARSE, cb, pieces).es);
    } else {
      UnknownKindNeverCompletes(cb, pieces);
    }
  }
}
