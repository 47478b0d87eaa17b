/** The reference count of a ConnectionState (engine/engine.go, server/server.go): many state objects,
    each living many times between its visits to the pool, each used by any number of activations. */
module References {
  import opened Bytes

  /** The connection's own reference: held from OnPrepare on, cancelled by OnDisconnect before it is
      dropped, and, if it was the last one, freeing the state. */
  datatype Own = Absent | Held | Cancelled | OwnFrees

  /** A state object. `inside` are the activations between Acquire and Release, waiting for Done
      included; `freeing` those whose Release brought the count to zero. */
  datatype Object = Object(
    live: bool,
    refs: int,
    own: Own,
    inside: set<nat>,
    freeing: set<nat>,
    closings: nat,
    frees: nat)

  type World = map<nat, Object>

  datatype Event =
    | Prepare(s: nat)          // NewConnectionState: from the pool, or new
    | Acquire(s: nat, a: nat)  // an activation enters ServeConn while the connection holds its reference
    | Release(s: nat, a: nat)  // its deferred decrement
    | Cancel(s: nat)           // OnDisconnect: Cancel
    | Drop(s: nat)             // OnDisconnect: the decrement
    | Free(s: nat, a: nat)     // Reset and Put by an activation
    | OwnFree(s: nat)          // Reset and Put by OnDisconnect

  const BORN := Object(true, 1, Held, {}, {}, 0, 0)

  function Freed(o: Object): (r: Object) {
    o.(live := false, refs := 0, frees := o.frees + 1)
  }

  /** What an event does to its object, where it can happen. */
  function Touch(o: Option<Object>, e: Event): (r: Option<Object>) {
    match (e, o)
    case (Prepare(_), None) => Some(BORN)
    case (Prepare(_), Some(x)) => if x.live then None else Some(BORN)
    case (Acquire(_, a), Some(x)) =>
      if x.live && (x.own == Held || x.own == Cancelled) && a !in x.inside + x.freeing
          then Some(x.(refs := x.refs + 1, inside := x.inside + {a})) else None
    case (Release(_, a), Some(x)) =>
      if x.live && a in x.inside then
        Some(x.(refs := x.refs - 1, inside := x.inside - {a}, freeing := if x.refs - 1 == 0 then x.freeing + {a} else x.freeing))
      else None
    case (Cancel(_), Some(x)) =>
      if x.live && x.own == Held then Some(x.(own := Cancelled, closings := if x.closings == 0 then 1 else x.closings)) else None
    case (Drop(_), Some(x)) =>
      if x.live && x.own == Cancelled then Some(x.(refs := x.refs - 1, own := if x.refs - 1 == 0 then OwnFrees else Absent)) else None
    case (Free(_, a), Some(x)) =>
      if a in x.freeing then Some(Freed(x).(freeing := x.freeing - {a})) else None
    case (OwnFree(_), Some(x)) =>
      if x.own == OwnFrees then Some(Freed(x).(own := Absent)) else None
    case _ => None
  }

  function Step(w: World, e: Event): (r: Option<World>) {
    match Touch(if e.s in w then Some(w[e.s]) else None, e)
    case None => None
    case Some(o) => Some(w[e.s := o])
  }

  function After(es: seq<Event>): (r: Option<World>)
    decreases |es|
  {
    if es == [] then Some(map[])
    else
      match After(es[..|es| - 1])
      case None => None
      case Some(w) => Step(w, es[|es| - 1])
  }

  function OwnCount(o: Object): (n: nat) { if o.own == Held || o.own == Cancelled then 1 else 0 }

  function Freers(o: Object): (n: nat) { |o.freeing| + if o.own == OwnFrees then 1 else 0 }

  ghost predicate Good(o: Object) {
    if o.live then
      && o.refs == |o.inside| + OwnCount(o) && o.frees == 0 && o.closings == (if o.own == Held then 0 else 1)
      && Freers(o) == (if o.refs == 0 then 1 else 0)
    else
      o.inside == {} && o.own == Absent && o.freeing == {} && o.frees == 1 && o.closings == 1
  }

  lemma AcquireKeeps(o: Object, s: nat, a: nat)
    requires Good(o) && Touch(Some(o), Acquire(s, a)).Some?
    ensures Good(Touch(Some(o), Acquire(s, a)).value)
  {
    assert |o.inside + {a}| == |o.inside| + 1;
  }

  lemma ReleaseKeeps(o: Object, s: nat, a: nat)
    requires Good(o) && Touch(Some(o), Release(s, a)).Some?
    ensures Good(Touch(Some(o), Release(s, a)).value)
  {
    assert |o.inside - {a}| == |o.inside| - 1;
    if o.refs == 1 {
      assert |o.freeing| == 0;
      assert o.freeing + {a} == {a};
    }
  }

  lemma TouchKeeps(o: Option<Object>, e: Event)
    requires (o.Some? ==> Good(o.value)) && Touch(o, e).Some?
    ensures Good(Touch(o, e).value)
  {
    match e
    case Acquire(s, a) => AcquireKeeps(o.value, s, a);
    case Release(s, a) => ReleaseKeeps(o.value, s, a);
    case Free(_, a) => OneFreer(o.value, a);
    case _ =>
  }

  /** The activation that frees is the only one to do so, and finds nobody inside. */
  lemma OneFreer(o: Object, a: nat)
    requires Good(o) && a in o.freeing
    ensures o.live && o.freeing == {a} && o.inside == {} && OwnCount(o) == 0
  {
    assert {a} <= o.freeing;
    if o.freeing != {a} {
      var b :| b in o.freeing && b != a;
      assert |{a, b}| <= |o.freeing| by { Subset({a, b}, o.freeing); }
    }
  }

  lemma Subset(x: set<nat>, y: set<nat>)
    requires x <= y
    ensures |x| <= |y|
  {
    if x != {} {
      var e :| e in x;
      Subset(x - {e}, y - {e});
    }
  }

  /** In every interleaving: the count is the own reference plus the activations inside; a state out
      of use was reset and pooled exactly once in that life and its Done was closed exactly once. */
  lemma {:induction false} CountIsExact(es: seq<Event>, s: nat)
    requires After(es).Some? && s in After(es).value
    ensures Good(After(es).value[s])
    decreases |es|
  {
    var before, e := After(es[..|es| - 1]).value, es[|es| - 1];
    if s in before {
      CountIsExact(es[..|es| - 1], s);
    }
    if e.s == s {
      TouchKeeps(if s in before then Some(before[s]) else None, e);
    }
  }

  /** A state is never reset while an activation, even one waiting for Done, is inside, nor while the
      connection holds its reference; and of the last to leave exactly one frees it. */
  lemma FreedOnlyWhenUnused(es: seq<Event>, s: nat)
    requires After(es).Some? && s in After(es).value
    ensures var o := After(es).value[s];
            && (forall a | a in o.freeing :: o.inside == {} && OwnCount(o) == 0 && o.freeing == {a} && o.own != OwnFrees)
            && (o.own == OwnFrees ==> o.inside == {} && o.freeing == {})
            && (o.live && o.inside == {} && OwnCount(o) == 0 ==> Freers(o) == 1)
  {
    CountIsExact(es, s);
    var o := After(es).value[s];
    forall a | a in o.freeing ensures o.inside == {} && OwnCount(o) == 0 && o.freeing == {a} && o.own != OwnFrees {
      OneFreer(o, a);
    }
  }

  lemma OneMore(es: seq<Event>, e: Event)
    requires After(es).Some?
    ensures After(es + [e]) == Step(After(es).value, e)
  {
    assert (es + [e])[..|es|] == es;
  }

  /** A state that nobody uses any more can be freed, by exactly the one who left last, and then serves another
      connection. */
  lemma UnusedIsFreed(es: seq<Event>, s: nat) returns (e: Event)
    requires After(es).Some? && s in After(es).value
    requires var o := After(es).value[s]; o.live && o.inside == {} && OwnCount(o) == 0
    ensures (e.Free? || e.OwnFree?) && e.s == s && After(es + [e]).Some?
    ensures var o := After(es + [e]).value[s]; !o.live && o.refs == 0 && o.frees == 1 && o.freeing == {} && o.own == Absent
    ensures After(es + [e] + [Prepare(s)]).Some? && After(es + [e] + [Prepare(s)]).value[s] == BORN
  {
    CountIsExact(es, s);
    var o := After(es).value[s];
    if o.own == OwnFrees {
      e := OwnFree(s);
    } else {
      var a :| a in o.freeing;
      OneFreer(o, a);
      e := Free(s, a);
    }
    OneMore(es, e);
    CountIsExact(es + [e], s);
    OneMore(es + [e], Prepare(s));
  }

  /** Until then everybody can go on: an activation inside can release, and the connection can cancel and drop. */
  lemma EverybodyLeaves(es: seq<Event>, s: nat, a: nat)
    requires After(es).Some? && s in After(es).value && After(es).value[s].live
    ensures var o := After(es).value[s];
            && (a in o.inside ==> After(es + [Release(s, a)]).Some? && a !in After(es + [Release(s, a)]).value[s].inside)
            && (o.own == Held ==> After(es + [Cancel(s)]).Some? && After(es + [Cancel(s)]).value[s].closings == 1)
            && (o.own == Cancelled ==> After(es + [Drop(s)]).Some? && OwnCount(After(es + [Drop(s)]).value[s]) == 0)
  {
    CountIsExact(es, s);
    OneMore(es, Release(s, a));
    OneMore(es, Cancel(s));
    OneMore(es, Drop(s));
  }
}
