/** Parser callbacks as events, and what a consumer that joins fragments makes of them. */
module Events {
  import opened Bytes

  datatype Event =
    | Begin
    | Url(part: bytes)
    | Field(name: bytes)
    | Value(part: bytes)
    | HeadersDone
    | BodyPart(part: bytes)
    | Complete

  function Names(es: seq<Event>): (r: seq<bytes>) {
    if es == [] then [] else (if es[0].Field? then [es[0].name] else []) + Names(es[1..])
  }

  function Values(es: seq<Event>): (r: bytes) {
    if es == [] then [] else (if es[0].Value? then es[0].part else []) + Values(es[1..])
  }

  function BodyOf(es: seq<Event>): (r: bytes) {
    if es == [] then [] else (if es[0].BodyPart? then es[0].part else []) + BodyOf(es[1..])
  }

  function UrlOf(es: seq<Event>): (r: bytes) {
    if es == [] then [] else (if es[0].Url? then es[0].part else []) + UrlOf(es[1..])
  }

  function Count(es: seq<Event>, e: Event): (r: nat) {
    if es == [] then 0 else (if es[0] == e then 1 else 0) + Count(es[1..], e)
  }

  lemma {:induction false} JoinedParts(a: seq<Event>, b: seq<Event>)
    ensures Names(a + b) == Names(a) + Names(b)
    ensures Values(a + b) == Values(a) + Values(b)
    ensures BodyOf(a + b) == BodyOf(a) + BodyOf(b)
    ensures UrlOf(a + b) == UrlOf(a) + UrlOf(b)
    ensures forall e :: Count(a + b, e) == Count(a, e) + Count(b, e)
  {
    if a == [] {
      EmptyAppend(b);
    } else {
      JoinedParts(a[1..], b);
      DropAppend(a, b, 1);
      Assoc(if a[0].Field? then [a[0].name] else [], Names(a[1..]), Names(b));
      Assoc(if a[0].Value? then a[0].part else [], Values(a[1..]), Values(b));
      Assoc(if a[0].BodyPart? then a[0].part else [], BodyOf(a[1..]), BodyOf(b));
      Assoc(if a[0].Url? then a[0].part else [], UrlOf(a[1..]), UrlOf(b));
    }
  }

  // ------------------------------------------------------------------- joined callbacks

  /** A callback that carries no news: Begin and Url, which are looked at separately, and empty parts. */
  predicate Mute(e: Event) {
    e.Begin? || e.Url? || (e.Value? && e.part == []) || (e.BodyPart? && e.part == [])
  }

  /** One callback in front of joined ones. */
  function Front(e: Event, es: seq<Event>): (r: seq<Event>) {
    if Mute(e) then es
    else if e.Value? && es != [] && es[0].Value? then [Value(e.part + es[0].part)] + es[1..]
    else if e.BodyPart? && es != [] && es[0].BodyPart? then [BodyPart(e.part + es[0].part)] + es[1..]
    else [e] + es
  }

  /** The callbacks `es` in front of joined ones. */
  function Onto(es: seq<Event>, rest: seq<Event>): (r: seq<Event>) {
    if es == [] then rest else Front(es[0], Onto(es[1..], rest))
  }

  /** The callbacks in their order, with fragments that follow each other joined, Begin and Url left out. */
  function Joined(es: seq<Event>): (r: seq<Event>) {
    Onto(es, [])
  }

  lemma {:induction false} OntoAppend(x: seq<Event>, y: seq<Event>, z: seq<Event>)
    ensures Onto(x + y, z) == Onto(x, Onto(y, z))
  {
    if x == [] {
      EmptyAppend(y);
    } else {
      OntoAppend(x[1..], y, z);
      DropAppend(x, y, 1);
    }
  }

  lemma FrontTwice(e: Event, f: Event, z: seq<Event>)
    ensures Front(e, Front(f, z)) == Onto(Front(e, [f]), z)
  {
    var es := Front(e, [f]);
    assert es[1..] == [f] || es[1..] == [];
    if Mute(e) {
    } else if (e.Value? && f.Value?) || (e.BodyPart? && f.BodyPart?) {
      if z != [] && !Mute(f) {
        Assoc(e.part, f.part, if z[0].Value? || z[0].BodyPart? then z[0].part else []);
      }
      EmptyAppend(e.part);
    }
  }

  /** Joining part of a sequence first changes nothing. */
  lemma {:induction false} OntoJoined(x: seq<Event>, z: seq<Event>)
    ensures Onto(Joined(x), z) == Onto(x, z)
  {
    if x != [] {
      OntoJoined(x[1..], z);
      FrontOnto(x[0], Joined(x[1..]), z);
    }
  }

  lemma FrontOnto(e: Event, y: seq<Event>, z: seq<Event>)
    ensures Onto(Front(e, y), z) == Front(e, Onto(y, z))
  {
    if y == [] {
      OneOnto(e, z);
    } else {
      var t := y[1..];
      FrontTwice(e, y[0], Onto(t, z));
      assert y == [y[0]] + t;
      FrontParts(e, y[0], t);
      OntoAppend(Front(e, [y[0]]), t, z);
    }
  }

  lemma OneOnto(e: Event, z: seq<Event>)
    ensures Onto(Front(e, []), z) == Front(e, z)
  {
    assert [e][1..] == [];
  }

  lemma FrontParts(e: Event, f: Event, t: seq<Event>)
    ensures Front(e, [f] + t) == Front(e, [f]) + t
  {
    assert ([f] + t)[1..] == t && [f][1..] == [];
    assert [e] + ([f] + t) == [e] + [f] + t;
  }

  /** How callbacks are compared. `Stream`: as they come, adjacent fragments joined. `Totals`: by what
      they amount to, whatever header a value is told behind: the names in order, all value bytes in
      order, all body bytes, HeadersDone and Complete equally often. */
  datatype View = Stream | Totals

  predicate Alike(view: View, x: seq<Event>, y: seq<Event>) {
    match view
    case Stream => Joined(x) == Joined(y)
    case Totals =>
      && Names(x) == Names(y)
      && Values(x) == Values(y)
      && BodyOf(x) == BodyOf(y)
      && Count(x, HeadersDone) == Count(y, HeadersDone)
      && Count(x, Complete) == Count(y, Complete)
  }

  lemma JoinedAppend(x: seq<Event>, x': seq<Event>, y: seq<Event>, y': seq<Event>)
    requires Joined(x) == Joined(x') && Joined(y) == Joined(y')
    ensures Joined(x + y) == Joined(x' + y')
  {
    OntoAppend(x, y, []);
    OntoAppend(x', y', []);
    OntoJoined(x, Joined(y));
    OntoJoined(x', Joined(y));
  }

  lemma FrontTotals(e: Event, es: seq<Event>)
    ensures Alike(Totals, Front(e, es), [e] + es)
  {
    assert ([e] + es)[1..] == es;
    var r := Front(e, es);
    if r != [e] + es && !Mute(e) {
      assert r[1..] == es[1..];
      Assoc(e.part, es[0].part, if e.Value? then Values(es[1..]) else BodyOf(es[1..]));
    }
  }

  lemma {:induction false} JoinedTotals(es: seq<Event>)
    ensures Alike(Totals, Joined(es), es)
  {
    if es != [] {
      JoinedTotals(es[1..]);
      FrontTotals(es[0], Joined(es[1..]));
      JoinedParts([es[0]], Joined(es[1..]));
      JoinedParts([es[0]], es[1..]);
      assert es == [es[0]] + es[1..];
    }
  }

  /** The same stream amounts to the same. */
  lemma StreamTotals(x: seq<Event>, y: seq<Event>)
    requires Alike(Stream, x, y)
    ensures Alike(Totals, x, y)
  {
    JoinedTotals(x);
    JoinedTotals(y);
  }

  lemma AlikeAppend(view: View, x: seq<Event>, x': seq<Event>, y: seq<Event>, y': seq<Event>)
    requires Alike(view, x, x') && Alike(view, y, y')
    ensures Alike(view, x + y, x' + y')
  {
    if view.Stream? {
      JoinedAppend(x, x', y, y');
    } else {
      JoinedParts(x, y);
      JoinedParts(x', y');
    }
  }

  /** A relation between event sequences that appending respects. */
  type Likeness = (seq<Event>, seq<Event>) -> bool

  ghost predicate AppendsAt(like: Likeness, x: seq<Event>, x': seq<Event>, y: seq<Event>, y': seq<Event>) {
    like(x, x') && like(y, y') ==> like(x + y, x' + y')
  }

  ghost predicate Appends(like: Likeness) {
    && (forall x: seq<Event> {:trigger like(x, x)} :: like(x, x))
    && (forall x: seq<Event>, x': seq<Event>, y: seq<Event>, y': seq<Event>
          {:trigger AppendsAt(like, x, x', y, y')} :: AppendsAt(like, x, x', y, y'))
  }

  function LIKE(view: View): (like: Likeness) {
    (x: seq<Event>, y: seq<Event>) => Alike(view, x, y)
  }

  lemma AlikeAppends(view: View)
    ensures Appends(LIKE(view))
  {
    forall x: seq<Event>, x': seq<Event>, y: seq<Event>, y': seq<Event> ensures AppendsAt(LIKE(view), x, x', y, y') {
      if Alike(view, x, x') && Alike(view, y, y') {
        AlikeAppend(view, x, x', y, y');
      }
    }
  }
}
