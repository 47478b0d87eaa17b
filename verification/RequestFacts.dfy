/** What ReadRequest (internal/parser/request.go) makes of a request's headers: the header map, the host, and
    whether the connection is to be closed. */
module RequestFacts {
  import opened Bytes
  import opened Grammar
  import opened HeaderMap
  import KeepAlive

  // ---------------------------------------------------------------------------- tokens

  const COMMA: byte := 44

  /** The list elements of a value: the stretches between commas. */
  predicate Element(v: bytes, a: nat, b: nat) {
    a <= b <= |v| && (a == 0 || v[a - 1] == COMMA) && (b == |v| || v[b] == COMMA) && forall k | a <= k < b :: v[k] != COMMA
  }

  /** v[i..j] is v[a..b] without the spaces and tabs around it. */
  predicate Stripped(v: bytes, a: nat, b: nat, i: nat, j: nat)
    requires b <= |v|
  {
    && a <= i <= j <= b && (forall k | a <= k < i :: IsSpace(v[k])) && (forall k | j <= k < b :: IsSpace(v[k]))
    && (i < j ==> !IsSpace(v[i]) && !IsSpace(v[j - 1]))
  }

  /** An element, without the spaces around it, is the token up to case. */
  predicate TokenAt(v: bytes, a: nat, b: nat, i: nat, j: nat, token: string) {
    Element(v, a, b) && Stripped(v, a, b, i, j) && EqualFold(v[i..j], token)
  }

  /** The comma-separated list holds the token. */
  ghost predicate Lists(v: bytes, token: string) {
    exists a: nat, b: nat, i: nat, j: nat :: TokenAt(v, a, b, i, j, token)
  }

  /** Two descriptions of the element that ends at `b` agree. */
  lemma SameElement(v: bytes, a: nat, b: nat, a': nat)
    requires Element(v, a, b) && Element(v, a', b)
    ensures a == a'
  {
  }

  lemma SameStrip(v: bytes, a: nat, b: nat, i: nat, j: nat, i': nat, j': nat)
    requires b <= |v| && Stripped(v, a, b, i, j) && Stripped(v, a, b, i', j') && i' < j'
    ensures i == i' && j == j'
  {
    assert i <= i' && j' <= j;
    assert i < j;
  }

  /** The loop of headerValueHasTokenBytes. */
  method HeaderValueHasToken(v: bytes, token: string) returns (r: bool)
    requires token != ""
    ensures r <==> Lists(v, token)
  {
    var start: nat := 0;
    ghost var a: nat := 0;
    while start < |v|
      invariant start <= |v| + 1 && a == start && (start == 0 || start == |v| + 1 || v[start - 1] == COMMA)
      invariant forall a', b: nat, i, j | b < start :: !TokenAt(v, a', b, i, j, token)
    {
      start, a := SkipGap(v, start, token);
      var end := start;
      while end < |v| && v[end] != COMMA
        invariant start <= end <= |v| && forall k | start <= k < end :: v[k] != COMMA
      {
        end := end + 1;
      }
      var trimmed := end;
      while trimmed > start && IsSpace(v[trimmed - 1])
        invariant start <= trimmed <= end && forall k | trimmed <= k < end :: IsSpace(v[k])
      {
        trimmed := trimmed - 1;
      }
      assert Element(v, a, end) && Stripped(v, a, end, start, trimmed);
      if EqualFold(v[start..trimmed], token) {
        assert TokenAt(v, a, end, start, trimmed, token);
        return true;
      }
      NoOther(v, a, end, start, trimmed, token);
      start := end + 1;
      a := start;
    }
    NoneLeft(v, start, token);
    return false;
  }

  /** The inner loop: over spaces, tabs and commas to the next element with something in it, which begins at `a`. */
  method SkipGap(v: bytes, from: nat, token: string) returns (start: nat, ghost a: nat)
    requires from < |v| && token != "" && (from == 0 || v[from - 1] == COMMA)
    requires forall a', b: nat, i, j | b < from :: !TokenAt(v, a', b, i, j, token)
    ensures from <= start <= |v| && a <= start && (a == 0 || v[a - 1] == COMMA) && forall k | a <= k < start :: IsSpace(v[k])
    ensures start < |v| ==> !IsSpace(v[start]) && v[start] != COMMA
    ensures forall a', b: nat, i, j | b < start :: !TokenAt(v, a', b, i, j, token)
  {
    start, a := from, from;
    while start < |v| && (IsSpace(v[start]) || v[start] == COMMA)
      invariant from <= start <= |v| && a <= start && (a == 0 || v[a - 1] == COMMA) && forall k | a <= k < start :: IsSpace(v[k])
      invariant forall a', b: nat, i, j | b < start :: !TokenAt(v, a', b, i, j, token)
    {
      if v[start] == COMMA {
        BlankElement(v, a, start, token);
        a := start + 1;
      } else {
        NoElement(v, start, token);
      }
      start := start + 1;
    }
  }

  /** An element of spaces only is not the token. */
  lemma BlankElement(v: bytes, a: nat, b: nat, token: string)
    requires Element(v, a, b) && token != "" && forall k | a <= k < b :: IsSpace(v[k])
    ensures forall a', i, j :: !TokenAt(v, a', b, i, j, token)
  {
    forall a': nat, i: nat, j: nat ensures !TokenAt(v, a', b, i, j, token) {
      if TokenAt(v, a', b, i, j, token) {
        SameElement(v, a, b, a');
        assert false;
      }
    }
  }

  /** No element ends in front of a byte that is no comma. */
  lemma NoElement(v: bytes, b: nat, token: string)
    requires b < |v| && v[b] != COMMA
    ensures forall a', i, j :: !TokenAt(v, a', b, i, j, token)
  {
  }

  /** No element up to `end` is the token, if the one that ends there is not. */
  lemma NoOther(v: bytes, a: nat, end: nat, start: nat, trimmed: nat, token: string)
    requires Element(v, a, end) && Stripped(v, a, end, start, trimmed) && token != "" && !EqualFold(v[start..trimmed], token)
    requires forall a', b: nat, i, j | b < start :: !TokenAt(v, a', b, i, j, token)
    ensures forall a', b: nat, i, j | b < end + 1 :: !TokenAt(v, a', b, i, j, token)
  {
    forall a': nat, b: nat, i: nat, j: nat | b < end + 1 ensures !TokenAt(v, a', b, i, j, token) {
      if TokenAt(v, a', b, i, j, token) {
        assert i < j && start <= b;
        assert b == end;
        SameElement(v, a, end, a');
        SameStrip(v, a, end, start, trimmed, i, j);
        assert false;
      }
    }
  }

  lemma NoneLeft(v: bytes, start: nat, token: string)
    requires |v| <= start <= |v| + 1 && token != "" && (start == 0 || start == |v| + 1 || v[start - 1] == COMMA)
    requires forall a', b: nat, i, j | b < start :: !TokenAt(v, a', b, i, j, token)
    ensures !Lists(v, token)
  {
    if a: nat, b: nat, i: nat, j: nat :| TokenAt(v, a, b, i, j, token) {
      assert false;
    }
  }

  // --------------------------------------------------------------------------- closing

  ghost predicate SaysToken(h: Header, token: string) {
    EqualFold(h.name, "connection") && Lists(h.value, token)
  }

  ghost predicate AnySays(hs: seq<Header>, token: string) {
    exists i :: 0 <= i < |hs| && SaysToken(hs[i], token)
  }

  /** Whether a request asks for its connection to be closed: with version 1.0 unless a Connection header lists
      keep-alive, with any other version if one lists close. */
  ghost predicate Closes(version: Version, hs: seq<Header>) {
    if version == Version(1, 0) then !AnySays(hs, "keep-alive") else AnySays(hs, "close")
  }

  /** The first value of a Host header that is not empty. */
  function FirstHost(hs: seq<Header>): (v: bytes) {
    if hs == [] then [] else if IsHost(hs[0]) && hs[0].value != [] then hs[0].value else FirstHost(hs[1..])
  }

  lemma {:induction false} FirstHostIs(hs: seq<Header>)
    ensures FirstHost(hs) == [] <==> forall i | 0 <= i < |hs| :: !(IsHost(hs[i]) && hs[i].value != [])
    ensures FirstHost(hs) != [] ==> exists i :: 0 <= i < |hs| && IsHost(hs[i]) && hs[i].value == FirstHost(hs) &&
                                      forall j | 0 <= j < i :: !(IsHost(hs[j]) && hs[j].value != [])
  {
    if hs != [] {
      FirstHostIs(hs[1..]);
      assert forall i | 0 < i < |hs| :: hs[i] == hs[1..][i - 1];
      if !(IsHost(hs[0]) && hs[0].value != []) && FirstHost(hs) != [] {
        var i :| 0 <= i < |hs[1..]| && IsHost(hs[1..][i]) && hs[1..][i].value == FirstHost(hs) &&
          forall j | 0 <= j < i :: !(IsHost(hs[1..][j]) && hs[1..][j].value != []);
        assert IsHost(hs[i + 1]) && hs[i + 1].value == FirstHost(hs);
      }
    }
  }

  /** The pass of ReadRequest over the parsed headers: the pairs for the map, the host and the two facts about the
      connection. */
  method FirstPass(hs: seq<Header>, urlHost: bytes) returns (ps: seq<Field>, host: bytes, close: bool, keepAlive: bool)
    ensures ps == Pairs(hs) && forall k :: ValuesFor(ps, k) == Selected(hs, k)
    ensures host == if urlHost != [] then urlHost else FirstHost(hs)
    ensures close <==> AnySays(hs, "close")
    ensures keepAlive <==> AnySays(hs, "keep-alive")
  {
    ps, host, close, keepAlive := [], urlHost, false, false;
    assert hs[0..] == hs;
    for n := 0 to |hs|
      invariant Pairs(hs) == ps + Pairs(hs[n..])
      invariant (if urlHost != [] then urlHost else FirstHost(hs)) == if host != [] then host else FirstHost(hs[n..])
      invariant close <==> AnySays(hs[..n], "close")
      invariant keepAlive <==> AnySays(hs[..n], "keep-alive")
    {
      var h := hs[n];
      assert hs[n..][0] == h && hs[n..][1..] == hs[n + 1..];
      SaysOneMore(hs, n, "close");
      SaysOneMore(hs, n, "keep-alive");
      if EqualFold(h.name, "host") {
        if host == [] {
          host := h.value;
        }
        EmptyAppend(Pairs(hs[n + 1..]));
        continue;
      }
      if EqualFold(h.name, "connection") {
        var c := HeaderValueHasToken(h.value, "close");
        if c {
          close := true;
        }
        var k := HeaderValueHasToken(h.value, "keep-alive");
        if k {
          keepAlive := true;
        }
      }
      var key := CanonicalHeaderKey(h.name);
      var name: bytes;
      if key.Some? {
        name := key.value;
      } else {
        name := CanonicalHeaderKeyBytes(h.name);
      }
      Assoc(ps, [Pair(name, h.value)], Pairs(hs[n + 1..]));
      ps := ps + [Pair(name, h.value)];
    }
    assert hs[..|hs|] == hs;
    EmptyAppend(ps);
    forall k ensures ValuesFor(ps, k) == Selected(hs, k) { PairsSelect(hs, k); }
  }

  lemma SaysOneMore(hs: seq<Header>, n: nat, token: string)
    requires n < |hs|
    ensures AnySays(hs[..n + 1], token) <==> AnySays(hs[..n], token) || SaysToken(hs[n], token)
  {
    var s, t := hs[..n], hs[..n + 1];
    assert t[n] == hs[n] && forall i | 0 <= i < n :: t[i] == s[i];
    if AnySays(s, token) {
      var i :| 0 <= i < |s| && SaysToken(s[i], token);
      assert SaysToken(t[i], token);
    }
    if AnySays(t, token) {
      var i :| 0 <= i < |t| && SaysToken(t[i], token);
      assert i < n ==> SaysToken(s[i], token);
    }
  }

  /** The header map, the host and Close of the request that ReadRequest returns. */
  method Describe(hs: seq<Header>, urlHost: bytes, version: Version, grow: nat -> nat)
      returns (m: Slices<bytes, bytes>, host: bytes, closes: bool)
    requires forall n :: grow(n) > n
    ensures NoSharing(m) && forall k :: k in m <==> Selected(hs, k) != []
    ensures forall k | k in m :: Sound(m[k]) && Contents(m[k]) == Selected(hs, k)
    ensures host == if urlHost != [] then urlHost else FirstHost(hs)
    ensures closes <==> Closes(version, hs)
  {
    var ps, close, keepAlive;
    ps, host, close, keepAlive := FirstPass(hs, urlHost);
    forall k ensures k in PutAll(map[], ps) <==> Selected(hs, k) != []
      ensures k in PutAll(map[], ps) ==> PutAll(map[], ps)[k] == Selected(hs, k)
    {
      FoldSelects(hs, ps, k);
    }
    m := Group(ps, grow);
    if version.major == 1 && version.minor == 0 {
      closes := !keepAlive;
    } else {
      closes := close;
    }
  }

  /** The serve loop with this rule: with the body delivered, the next request is read, and where the body ends, if and
      only if the handler does not fail, what it leaves of the body is within the limit, and the request is of version
      1.0 and asks for keep-alive, or of another version and does not ask to close. */
  lemma ConnectionStaysExactly(env: KeepAlive.Env, s: bytes, req: KeepAlive.Incoming, plan: KeepAlive.Plan)
    requires req.next + KeepAlive.BodyLength(req.meta) <= |s| && env.closes(req.line, req.headers) == Closes(req.line.version, req.headers)
    ensures var length := KeepAlive.BodyLength(req.meta);
            KeepAlive.Next(env, s, req, plan) == Some(req.next + length) <==>
            && !plan.fails && (length > 0 ==> length - KeepAlive.Min(plan.wants, length) <= env.maxDrain)
            && if req.line.version == Version(1, 0) then AnySays(req.headers, "keep-alive") else !AnySays(req.headers, "close")
  {
    KeepAlive.DrainAligns(env, s, req, plan);
  }
}
