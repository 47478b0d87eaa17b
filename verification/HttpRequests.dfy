/** The results about requests, at the line grammar of internal/parser. */
module HttpRequests {
  import opened Bytes
  import opened Grammar
  import opened Reference
  import opened Machine
  import opened Split
  import opened SplitEvents
  import opened Incremental
  import opened StartEvents
  import opened Consumers
  import opened ValueCuts
  import opened RequestDispatch
  import opened RequestRuns
  import opened StartLines

  /** Values and targets lie where the callbacks look for them, and an empty size line is refused. */
  lemma HttpLines()
    ensures PlainValues(HTTP) && PlainTargets(HTTP) && HTTP.size([]).None?
  {
  }

  lemma HttpCutsHarmless(cb: Setting, st: State, a: bytes)
    requires cb.lines == HTTP && a != [] && Ready(cb, st) && st.phase != Idle
    requires Run(cb, st, a, 0).err.None? && Run(cb, st, a, 0).st.phase != Idle
    ensures Harmless(cb, st, a) <==> Run(cb, st, a, 0).seam == Clean
  {
    HttpLines();
    HarmlessExactlyWhenClean(cb, st, a);
  }

  /** Names and values come to a consumer as the message's headers exactly when no cut falls inside a
      header value. */
  lemma HttpHeardExactly(cb: Setting, m: bytes, pieces: seq<bytes>)
    requires cb.lines == HTTP && WholeRequest(HTTP, m) && SafePieces(HTTP, m, pieces) && cb.field && cb.value
    ensures Hear(SaysAll(cb, FRESH, pieces)) == Heard([], ParseMessage(HTTP, Request, m).msg.headers) <==> ValuesUncut(m, pieces)
  {
    HttpLines();
    HeardExactly(cb, m, pieces);
  }

  /** Through Execute, an HTTP request in safe pieces is told once and as it is if it comes in one piece or
      its pieces suit, and with MessageBegin or MessageComplete set only then. */
  lemma HttpToldOnceExactly(cb: Setting, m: bytes, pieces: seq<bytes>, msg: Message)
    requires cb.lines == HTTP && WholeRequest(HTTP, m) && SafePieces(HTTP, m, pieces)
    requires ParseMessage(HTTP, Request, m) == Accepted(msg)
    ensures pieces != [] && CrlfFrom(m, 0).Some? && msg.start.Req?
    ensures |pieces| == 1 || PiecesSuit(cb, m, pieces, msg.start.req.target) ==> ToldOnce(cb, msg, Executed(Calls(cb), pieces))
    ensures (cb.begin || cb.complete) && ToldOnce(cb, msg, Executed(Calls(cb), pieces)) ==>
              |pieces| == 1 || PiecesSuit(cb, m, pieces, msg.start.req.target)
  {
    HttpLines();
    ToldOnceExactly(cb, m, pieces, msg);
  }

  // ------------------------------------------------------------------------ unsafe cuts

  /** Where a request may be cut: the machine rests there, so that the second call goes on as one call would,
      exactly at the safe cuts. */
  lemma RestsExactlyAtSafeCuts(cb: Setting, m: bytes, k: nat)
    requires WholeRequest(cb.lines, m) && 0 < k < |m|
    ensures Rests(Run(cb, Start(FRESH), m[..k], 0), m[k..]) <==> SafeCut(cb.lines, m, k)
    ensures SafeCut(cb.lines, m, k) ==>
              Continues(cb, Run(cb, Start(FRESH), m, 0), Run(cb, Run(cb, Start(FRESH), m[..k], 0).st, m[k..], 0), k)
  {
    PrefixRun(cb, m, k);
    if SafeCut(cb.lines, m, k) {
      assert m[k..k + |m[k..]|] == m[k..];
      NextPieceRests(m, k, m[k..], Run(cb, Start(FRESH), m[..k], 0));
      assert m[..k] + m[k..] == m;
      PartialValueNone();
      SplitInvariance(cb, Start(FRESH), m[..k], m[k..]);
    }
  }

  /** More bytes behind a request line are no request line. */
  lemma LongerIsNoLine(line: bytes, x: bytes)
    requires ParseRequestLine(line).Some? && x != []
    ensures ParseRequestLine(line + x).None?
  {
    var first := FindByte(line, SP).value;
    var second := ByteFrom(line, SP, first + 1).value;
    ByteKept(line, x, SP);
    SecondKept(line, x, first + 1, second);
  }

  lemma SecondKept(line: bytes, x: bytes, i: nat, k: nat)
    requires i <= |line| && ByteFrom(line, SP, i) == Some(k)
    ensures ByteFrom(line + x, SP, i) == Some(k)
  {
    var r := ByteFrom(line + x, SP, i);
    assert (line + x)[k] == SP;
    assert r.Some? && !(k < r.value);
  }

  /** What a line that is kept with its CR becomes. */
  lemma TornCall(cb: Setting, st: State, b: bytes, j: nat, line: bytes)
    requires cb.lines == HTTP && st.phase == RequestLinePhase && st.scratch != [] && b != [] && CrlfFrom(b, 0) == Some(j)
    requires line == st.scratch + b[0..j] && ParseRequestLine(line).None?
    ensures Feed(cb, st, b).err == Some(ErrReqMethod) || Feed(cb, st, b).err == Some(ErrScratchOverflow)
  {
  }

  /** The machine keeps a line that ends in a CR. */
  lemma KeptWithCr(cb: Setting, m: bytes, k: nat)
    requires 0 < k <= |m| && k <= SCRATCH && CrlfFrom(m[..k], 0).None?
    ensures var st := Run(cb, Start(FRESH), m[..k], 0).st; st.phase == RequestLinePhase && st.scratch == m[..k]
  {
    StepsOpen(cb, m[..k], Start(FRESH), 0);
    assert m[..k][0..] == m[..k];
  }

  /** A cut between the CR and the LF of the request line makes the next call fail. */
  lemma TornRequestLineFails(cb: Setting, m: bytes, i: nat)
    requires cb.lines == HTTP && WholeRequest(HTTP, m) && CrlfFrom(m, 0) == Some(i) && i < SCRATCH
    ensures var o := Feed(cb, Run(cb, Start(FRESH), m[..i + 1], 0).st, m[i + 1..]);
            o.err == Some(ErrReqMethod) || o.err == Some(ErrScratchOverflow)
  {
    var i', l, meta := HeadOf(HTTP, m, 0);
    CrlfPrefix(m, 0, i + 1);
    KeptWithCr(cb, m, i + 1);
    var j := NextLine(m, i, meta);
    TornIsNoLine(m, i, j);
    TornCall(cb, Run(cb, Start(FRESH), m[..i + 1], 0).st, m[i + 1..], j, m[..i + 1] + m[i + 1..][0..j]);
  }

  lemma TornIsNoLine(m: bytes, i: nat, j: nat)
    requires i + 1 + j <= |m| && HTTP.request(m[0..i]).Some?
    ensures ParseRequestLine(m[..i + 1] + m[i + 1..][0..j]).None?
  {
    TornParts(m, i, j);
    LongerIsNoLine(m[0..i], m[i..i + 1 + j]);
  }

  lemma TornParts(m: bytes, i: nat, j: nat)
    requires i + 1 + j <= |m|
    ensures m[..i + 1] + m[i + 1..][0..j] == m[0..i] + m[i..i + 1 + j]
  {
  }

  /** Behind the request line of an accepted request there is another CRLF. */
  lemma NextLine(m: bytes, i: nat, meta: Meta) returns (j: nat)
    requires i + 2 <= |m| && CrlfFrom(m, 0) == Some(i) && RestAccepted(HTTP, meta, m, i + 2)
    ensures i + 1 + j <= |m| && 0 < |m[i + 1..]| && CrlfFrom(m[i + 1..], 0) == Some(j)
  {
    HeaderHere(HTTP, meta, m, i + 2);
    var q := CrlfFrom(m, i + 2).value;
    CrlfFound(m, 0);
    CrlfFound(m, i + 2);
    j := q - (i + 1);
    var b := m[i + 1..];
    forall n | 0 <= n < j ensures !CrlfAt(b, n) {
      assert CrlfAt(b, n) ==> CrlfAt(m, i + 1 + n);
      assert m[i + 1] == LF;
    }
    CrlfIs(b, 0, j);
  }

  /** What the whole message says about an upgrade: the method is CONNECT, or there are a Connection header that says
      upgrade and an Upgrade header. */
  lemma UpgradeMeans(msg: Message, token: bytes)
    requires msg.start.Req? && IsMethod(token, msg.start.req.verb)
    ensures var hs := msg.headers;
            MessageUpgrades(msg) <==>
            || SpeltAs(token, "CONNECT")
            || ((exists i :: 0 <= i < |hs| && StartLines.Says(hs[i], "connection", "upgrade"))
                && (exists i :: 0 <= i < |hs| && EqualFold(hs[i].name, "upgrade")))
  {
    FlagsSay(NO_FLAGS, msg.headers);
    ConnectIs(token, msg.start.req.verb);
  }

  lemma ConnectIs(token: bytes, n: nat)
    requires IsMethod(token, n)
    ensures n == CONNECT <==> SpeltAs(token, "CONNECT")
  {
    MethodExactly(token, n);
    MethodExactly(token, CONNECT);
  }
}
