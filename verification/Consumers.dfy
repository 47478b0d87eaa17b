/** What a consumer collects from the callbacks when it adds every value to the header named last. */
module Consumers {
  import opened Bytes
  import opened Grammar
  import opened Events

  /** Value bytes told before any name, and the headers so far. */
  datatype Heard = Heard(stray: bytes, headers: seq<Header>)

  const NOTHING := Heard([], [])

  function Listen(h: Heard, e: Event): (r: Heard) {
    match e
    case Field(name) => h.(headers := h.headers + [Header(name, [])])
    case Value(part) =>
      if h.headers == [] then h.(stray := h.stray + part)
      else
        var n := |h.headers| - 1;
        h.(headers := h.headers[..n] + [h.headers[n].(value := h.headers[n].value + part)])
    case _ => h
  }

  function HearFrom(h: Heard, es: seq<Event>): (r: Heard)
    decreases |es|
  {
    if es == [] then h else HearFrom(Listen(h, es[0]), es[1..])
  }

  function Hear(es: seq<Event>): (r: Heard) {
    HearFrom(NOTHING, es)
  }

  lemma {:induction false} HearAppend(h: Heard, x: seq<Event>, y: seq<Event>)
    ensures HearFrom(h, x + y) == HearFrom(HearFrom(h, x), y)
    decreases |x|
  {
    if x == [] {
      EmptyAppend(y);
    } else {
      HearAppend(Listen(h, x[0]), x[1..], y);
      DropAppend(x, y, 1);
    }
  }

  // --------------------------------------------------------------- joining is not heard

  lemma ListenMute(h: Heard, e: Event)
    requires Mute(e)
    ensures Listen(h, e) == h
  {
    if e.Value? {
      EmptyAppend(h.stray);
      if h.headers != [] {
        var n := |h.headers| - 1;
        EmptyAppend(h.headers[n].value);
        assert h.headers == h.headers[..n] + [h.headers[n]];
      }
    }
  }

  lemma ListenTwice(h: Heard, x: bytes, y: bytes)
    ensures Listen(Listen(h, Value(x)), Value(y)) == Listen(h, Value(x + y))
  {
    if h.headers == [] {
      Assoc(h.stray, x, y);
    } else {
      var n := |h.headers| - 1;
      Assoc(h.headers[n].value, x, y);
      var hs := Listen(h, Value(x)).headers;
      assert hs[..n] == h.headers[..n] && hs[n].name == h.headers[n].name;
    }
  }

  lemma HearFront(h: Heard, e: Event, es: seq<Event>)
    ensures HearFrom(h, Front(e, es)) == HearFrom(Listen(h, e), es)
  {
    assert ([e] + es)[1..] == es;
    if Mute(e) {
      ListenMute(h, e);
    } else if e.Value? && es != [] && es[0].Value? {
      ListenTwice(h, e.part, es[0].part);
      assert Front(e, es)[1..] == es[1..];
    } else if e.BodyPart? && es != [] && es[0].BodyPart? {
      assert Front(e, es)[1..] == es[1..];
    }
  }

  lemma {:induction false} HearJoined(h: Heard, es: seq<Event>)
    ensures HearFrom(h, Joined(es)) == HearFrom(h, es)
    decreases |es|
  {
    if es != [] {
      HearFront(h, es[0], Joined(es[1..]));
      HearJoined(Listen(h, es[0]), es[1..]);
    }
  }

  /** Callbacks that are alike as a stream are heard alike. */
  lemma StreamHeard(x: seq<Event>, y: seq<Event>)
    requires Alike(Stream, x, y)
    ensures Hear(x) == Hear(y)
  {
    HearJoined(NOTHING, x);
    HearJoined(NOTHING, y);
  }

  // ------------------------------------------------------------------- told too early

  function Total(hs: seq<Header>): (n: nat) {
    if hs == [] then 0 else |hs[0].value| + Total(hs[1..])
  }

  lemma {:induction false} TotalAppend(a: seq<Header>, b: seq<Header>)
    ensures Total(a + b) == Total(a) + Total(b)
  {
    if a == [] {
      EmptyAppend(b);
    } else {
      TotalAppend(a[1..], b);
      DropAppend(a, b, 1);
    }
  }

  lemma TotalOne(h: Header)
    ensures Total([h]) == |h.value|
  {
    assert [h][1..] == [];
  }

  /** More value bytes than belong to the names told so far. */
  ghost predicate Overtold(es: seq<Event>, hs: seq<Header>) {
    |Names(es)| <= |hs| && |Values(es)| > Total(hs[..|Names(es)|])
  }

  lemma ListenCounts(h: Heard, e: Event)
    ensures var r := Listen(h, e);
            && |r.headers| == |h.headers| + (if e.Field? then 1 else 0)
            && |r.stray| + Total(r.headers) == |h.stray| + Total(h.headers) + if e.Value? then |e.part| else 0
  {
    var r := Listen(h, e);
    if e.Field? {
      TotalAppend(h.headers, [Header(e.name, [])]);
      TotalOne(Header(e.name, []));
    } else if e.Value? && h.headers != [] {
      var n := |h.headers| - 1;
      TotalAppend(h.headers[..n], [h.headers[n]]);
      TotalAppend(h.headers[..n], [r.headers[n]]);
      TotalOne(h.headers[n]);
      TotalOne(r.headers[n]);
      assert h.headers == h.headers[..n] + [h.headers[n]];
    }
  }

  lemma {:induction false} HearCounts(h: Heard, es: seq<Event>)
    ensures var r := HearFrom(h, es);
            |r.headers| == |h.headers| + |Names(es)| && |r.stray| + Total(r.headers) == |h.stray| + Total(h.headers) + |Values(es)|
    decreases |es|
  {
    if es != [] {
      ListenCounts(h, es[0]);
      HearCounts(Listen(h, es[0]), es[1..]);
    }
  }

  lemma ListenGrows(h: Heard, e: Event, n: nat)
    requires n <= |h.headers|
    ensures var r := Listen(h, e);
            n <= |r.headers| && |h.stray| <= |r.stray| && Total(h.headers[..n]) <= Total(r.headers[..n])
  {
    var r := Listen(h, e);
    if e.Field? {
      assert r.headers[..n] == h.headers[..n];
    } else if e.Value? && h.headers != [] {
      var k := |h.headers| - 1;
      if n <= k {
        assert r.headers[..n] == h.headers[..n];
      } else {
        assert h.headers[..n] == h.headers && r.headers[..n] == r.headers;
        ListenCounts(h, e);
      }
    }
  }

  lemma {:induction false} HearGrows(h: Heard, es: seq<Event>, n: nat)
    requires n <= |h.headers|
    ensures var r := HearFrom(h, es);
            n <= |r.headers| && |h.stray| <= |r.stray| && Total(h.headers[..n]) <= Total(r.headers[..n])
    decreases |es|
  {
    if es != [] {
      ListenGrows(h, es[0], n);
      HearGrows(Listen(h, es[0]), es[1..], n);
    }
  }

  /** What was told too early is heard behind another name, whatever follows. */
  lemma OvertoldShows(x: seq<Event>, y: seq<Event>, hs: seq<Header>)
    requires Overtold(x, hs)
    ensures Hear(x + y) != Heard([], hs)
  {
    var h := Hear(x);
    HearAppend(NOTHING, x, y);
    HearCounts(NOTHING, x);
    HearGrows(h, y, |h.headers|);
    assert h.headers[..|h.headers|] == h.headers;
  }
}
