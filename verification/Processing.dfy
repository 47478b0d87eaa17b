/** The Processing flag of a ConnectionState (engine/engine.go): activations of one connection that
    enter at any time, win or lose the compare-and-swap, serve requests, clear the flag and look again. */
module Processing {
  import opened Bytes

  /** Where an activation stands: before its compare-and-swap; serving with the flag won; about to
      leave because it saw no input (before it clears the flag); behind the flag's clearing; and
      behind its second look, with what that showed. */
  datatype Place = Entered | Serving | Quitting | Cleared | Looked(saw: bool)

  /** One connection: the flag, bytes not read from it and whether they hold the end of a head, bytes
      in its reader, notifications that have not led to an activation yet, and its activations. */
  datatype World = World(flag: bool, unread: nat, whole: bool, buffered: nat, notes: nat, acts: map<nat, Place>)

  datatype Event =
    | Arrive(n: nat, whole: bool)              // input arrives and is notified; a head may be whole now
    | Enter(a: nat)                            // a notification becomes an activation
    | Swap(a: nat)                             // CompareAndSwap on entry
    | Serve(a: nat, unread: nat, whole: bool, left: nat)  // a request is read and served
    | Clear(a: nat)                            // the keep-alive exit: Processing.Store(false)
    | Look(a: nat)                             // the second look for input
    | Retry(a: nat)                            // CompareAndSwap after a look that saw input
    | Leave(a: nat)                            // return after a look that saw none
    | Quit(a: nat)                             // the early exits: no input, or no whole head, seen
    | QuitClear(a: nat)                        // their Processing.Store(false) and return

  const START := World(false, 0, false, 0, 0, map[])

  function At(w: World, a: nat): (p: Option<Place>) {
    if a in w.acts then Some(w.acts[a]) else None
  }

  function Step(w: World, e: Event): (r: Option<World>) {
    match e
    case Arrive(n, whole) =>
      if n == 0 then None else Some(w.(unread := w.unread + n, whole := w.whole || whole, notes := w.notes + 1))
    case Enter(a) =>
      if w.notes == 0 || a in w.acts then None else Some(w.(notes := w.notes - 1, acts := w.acts[a := Entered]))
    case Swap(a) =>
      if At(w, a) != Some(Entered) then None
      else if w.flag then Some(w.(acts := w.acts - {a}))
      else Some(w.(flag := true, acts := w.acts[a := Serving]))
    case Serve(a, unread, whole, left) =>
      if At(w, a) != Some(Serving) || w.unread < unread || (whole && (!w.whole || unread == 0)) then None
      else Some(w.(unread := unread, whole := whole, buffered := left))
    case Clear(a) =>
      if At(w, a) != Some(Serving) || w.buffered != 0 then None else Some(w.(flag := false, acts := w.acts[a := Cleared]))
    case Look(a) =>
      if At(w, a) != Some(Cleared) then None else Some(w.(acts := w.acts[a := Looked(w.buffered > 0 || w.unread > 0)]))
    case Retry(a) =>
      if At(w, a) != Some(Looked(true)) then None
      else if w.flag then Some(w.(acts := w.acts - {a}))
      else Some(w.(flag := true, acts := w.acts[a := Serving]))
    case Leave(a) =>
      if At(w, a) != Some(Looked(false)) then None else Some(w.(acts := w.acts - {a}))
    case Quit(a) =>
      if At(w, a) != Some(Serving) || w.buffered != 0 || w.whole then None else Some(w.(acts := w.acts[a := Quitting]))
    case QuitClear(a) =>
      if At(w, a) != Some(Quitting) then None else Some(w.(flag := false, acts := w.acts - {a}))
  }

  function After(es: seq<Event>): (r: Option<World>)
    decreases |es|
  {
    if es == [] then Some(START)
    else
      match After(es[..|es| - 1])
      case None => None
      case Some(w) => Step(w, es[|es| - 1])
  }

  /** Between winning the swap and the matching store. */
  predicate Owns(w: World, a: nat) {
    At(w, a) == Some(Serving) || At(w, a) == Some(Quitting)
  }

  ghost predicate OneOwner(w: World) {
    && (w.flag ==> exists a :: Owns(w, a))
    && (forall a :: Owns(w, a) ==> w.flag)
    && (forall a, b :: Owns(w, a) && Owns(w, b) ==> a == b)
    && (!w.flag ==> w.buffered == 0)
    && (forall a :: At(w, a) == Some(Quitting) ==> w.buffered == 0)
    && (w.whole ==> w.unread > 0)
  }

  lemma OneOwnerKept(w: World, e: Event)
    requires OneOwner(w) && Step(w, e).Some?
    ensures OneOwner(Step(w, e).value)
  {
    var w' := Step(w, e).value;
    if e.Arrive? {
      forall a ensures At(w', a) == At(w, a) && Owns(w', a) == Owns(w, a) {}
      if w.flag {
        var b :| Owns(w, b);
        assert Owns(w', b);
      }
    } else {
      forall a | a != e.a ensures At(w', a) == At(w, a) && Owns(w', a) == Owns(w, a) {}
      assert Owns(w, e.a) ==> w.flag;
      OwnersKept(w, w', e.a, At(w', e.a));
    }
  }

  /** Only activation `c` has moved. */
  lemma OwnersKept(w: World, w': World, c: nat, p: Option<Place>)
    requires OneOwner(w) && At(w', c) == p && forall a | a != c :: At(w', a) == At(w, a) && Owns(w', a) == Owns(w, a)
    requires w'.flag == (if Owns(w', c) then true else if Owns(w, c) then false else w.flag)
    requires Owns(w', c) ==> Owns(w, c) || !w.flag
    requires !w'.flag || p == Some(Quitting) || !Owns(w', c) ==> w'.buffered == w.buffered
    requires p == Some(Quitting) || (Owns(w, c) && !Owns(w', c)) ==> w.buffered == 0
    requires w'.whole ==> w'.unread > 0
    ensures OneOwner(w')
  {
    if w'.flag {
      if Owns(w', c) {
      } else {
        var b :| Owns(w, b);
        assert Owns(w', b);
      }
    }
  }

  /** In every run, early exits included, at most one activation owns the flag, and the flag is set
      exactly while one does. */
  lemma {:induction false} FlagIsExclusive(es: seq<Event>)
    requires After(es).Some?
    ensures OneOwner(After(es).value)
    decreases |es|
  {
    if es != [] {
      FlagIsExclusive(es[..|es| - 1]);
      OneOwnerKept(After(es[..|es| - 1]).value, es[|es| - 1]);
    }
  }

  // ----------------------------------------------------------------------- wake-ups

  /** An activation that has yet to try the flag, or to learn whether it must. */
  predicate Due(p: Place) { p == Entered || p == Cleared || p == Looked(true) }

  ghost predicate SomeoneDue(w: World) {
    exists a :: a in w.acts && Due(w.acts[a])
  }

  /** What may wait to be noticed: any unread input, or a whole head. */
  datatype What = Input | WholeHead

  predicate Waiting(what: What, w: World) {
    match what
    case Input => w.unread > 0
    case WholeHead => w.whole
  }

  /** What waits will be noticed. */
  ghost predicate Awake(what: What, w: World) {
    Waiting(what, w) ==> w.flag || w.notes > 0 || SomeoneDue(w)
  }

  predicate Early(e: Event) { e.Quit? || e.QuitClear? }

  /** An early exit may clear the flag: nothing is waiting, or somebody else is still to notice it. */
  ghost predicate MayQuit(what: What, w: World) {
    !Waiting(what, w) || w.notes > 0 || SomeoneDue(w)
  }

  lemma StillDue(w: World, a: nat)
    requires a in w.acts && Due(w.acts[a])
    ensures SomeoneDue(w)
  {
  }

  lemma AwakeKept(what: What, w: World, e: Event)
    requires OneOwner(w) && Awake(what, w) && Step(w, e).Some? && (e.QuitClear? ==> MayQuit(what, w))
    ensures Awake(what, Step(w, e).value)
  {
    var w' := Step(w, e).value;
    if e.Serve? || e.Quit? {
      assert Owns(w, e.a);
    } else if !e.Arrive? && Waiting(what, w') && !w'.flag && w'.notes == 0 {
      if At(w', e.a).Some? && Due(At(w', e.a).value) {
        StillDue(w', e.a);
      } else {
        var b :| b in w.acts && Due(w.acts[b]);
        StillDue(w', b);
      }
    }
  }

  /** The exact condition: through a run unread input, or a whole head, is always noticed if and only if
      every early exit that clears the flag may do so. */
  lemma AwakeExactly(what: What, es: seq<Event>)
    requires After(es).Some?
    ensures (forall k | 0 <= k <= |es| :: AwakeAt(what, es, k)) <==> (forall k | 0 <= k < |es| :: QuitsWell(what, es, k))
  {
    if forall k | 0 <= k < |es| :: QuitsWell(what, es, k) {
      forall k | 0 <= k <= |es| ensures AwakeAt(what, es, k) {
        AwakeThrough(what, es, k);
      }
    } else {
      var k :| 0 <= k < |es| && !QuitsWell(what, es, k);
      PrefixRuns(es, k + 1);
      NextOf(es, k);
      QuitLeavesDue(what, After(es[..k]).value, es[k]);
      assert !AwakeAt(what, es, k + 1);
    }
  }

  ghost predicate AwakeAt(what: What, es: seq<Event>, k: nat)
    requires k <= |es|
  {
    After(es[..k]).Some? && Awake(what, After(es[..k]).value)
  }

  ghost predicate QuitsWell(what: What, es: seq<Event>, k: nat)
    requires k < |es|
  {
    After(es[..k]).Some? && (es[k].QuitClear? ==> MayQuit(what, After(es[..k]).value))
  }

  lemma NextOf(es: seq<Event>, k: nat)
    requires k < |es|
    ensures After(es[..k + 1]) == match After(es[..k]) case None => None case Some(w) => Step(w, es[k])
  {
    assert es[..k + 1][..k] == es[..k];
  }

  /** A prefix of a run is a run. */
  lemma {:induction false} PrefixRuns(es: seq<Event>, k: nat)
    requires After(es).Some? && k <= |es|
    ensures After(es[..k]).Some?
    decreases |es| - k
  {
    if k == |es| {
      assert es[..k] == es;
    } else {
      PrefixRuns(es, k + 1);
      NextOf(es, k);
    }
  }

  /** Clearing the flag early leaves everybody else where they are. */
  lemma QuitLeavesDue(what: What, w: World, e: Event)
    requires e.QuitClear? && Step(w, e).Some? && !MayQuit(what, w)
    ensures !Awake(what, Step(w, e).value)
  {
    var w' := Step(w, e).value;
    forall b | b in w'.acts ensures !Due(w'.acts[b]) {
      assert w'.acts[b] == w.acts[b];
    }
  }

  lemma {:induction false} AwakeThrough(what: What, es: seq<Event>, k: nat)
    requires After(es).Some? && k <= |es| && forall j | 0 <= j < |es| :: QuitsWell(what, es, j)
    ensures AwakeAt(what, es, k)
    decreases k
  {
    PrefixRuns(es, k);
    if 0 < k {
      AwakeThrough(what, es, k - 1);
      NextOf(es, k - 1);
      FlagIsExclusive(es[..k - 1]);
      assert QuitsWell(what, es, k - 1);
      AwakeKept(what, After(es[..k - 1]).value, es[k - 1]);
    }
  }

  /** No wake-up is lost while activations leave only through the keep-alive exit: in every such run,
      unread input implies an owner of the flag, an untried notification, or an activation that is still
      to look or to try again. */
  lemma NoLostWakeup(what: What, es: seq<Event>)
    requires After(es).Some? && forall i | 0 <= i < |es| :: !Early(es[i])
    ensures Awake(what, After(es).value)
  {
    forall k | 0 <= k < |es| ensures QuitsWell(what, es, k) {
      PrefixRuns(es, k);
    }
    AwakeExactly(what, es);
    assert AwakeAt(what, es, |es|) && es[..|es|] == es;
  }

  /** The early exits have no second look: input that arrives between the first look and the clearing
      of the flag, with its notification spent on a lost swap, wakes nobody, even with a whole head. */
  lemma EarlyExitLosesWakeup(what: What)
    ensures exists es: seq<Event> :: After(es).Some? && !Awake(what, After(es).value)
  {
    var es := FirstQuits();
    var w0 := World(true, 0, false, 0, 0, map[1 := Quitting]);
    var w1 := World(true, 1, true, 0, 1, map[1 := Quitting]);
    var w2 := World(true, 1, true, 0, 0, map[1 := Quitting, 2 := Entered]);
    var w3 := World(true, 1, true, 0, 0, map[1 := Quitting]);
    es := RunNext(es, w0, Arrive(1, true), w1);
    es := RunNext(es, w1, Enter(2), w2);
    assert w2.acts - {2} == w3.acts;
    es := RunNext(es, w2, Swap(2), w3);
    assert w3.acts - {1} == map[];
    es := RunNext(es, w3, QuitClear(1), World(false, 1, true, 0, 0, map[]));
    assert After(es) == Some(World(false, 1, true, 0, 0, map[]));
  }

  lemma RunNext(es: seq<Event>, w: World, e: Event, w': World) returns (es': seq<Event>)
    requires After(es) == Some(w) && Step(w, e) == Some(w')
    ensures After(es') == Some(w')
  {
    es' := es + [e];
    assert es'[..|es|] == es;
  }

  /** An activation serves a request and sees no more input. */
  lemma FirstQuits() returns (es: seq<Event>)
    ensures After(es) == Some(World(true, 0, false, 0, 0, map[1 := Quitting]))
  {
    var none: map<nat, Place> := map[];
    var w1 := World(false, 1, true, 0, 1, none);
    var w2 := World(false, 1, true, 0, 0, map[1 := Entered]);
    var w3 := World(true, 1, true, 0, 0, map[1 := Serving]);
    var w4 := World(true, 0, false, 0, 0, map[1 := Serving]);
    es := RunNext([], START, Arrive(1, true), w1);
    es := RunNext(es, w1, Enter(1), w2);
    assert map[1 := Entered][1 := Serving] == map[1 := Serving] && map[1 := Serving][1 := Quitting] == map[1 := Quitting];
    es := RunNext(es, w2, Swap(1), w3);
    es := RunNext(es, w3, Serve(1, 0, false, 0), w4);
    es := RunNext(es, w4, Quit(1), World(true, 0, false, 0, 0, map[1 := Quitting]));
  }

  // --------------------------------------------------------------------------- service

  lemma OneMore(es: seq<Event>, e: Event)
    requires After(es).Some?
    ensures After(es + [e]) == Step(After(es).value, e)
  {
    assert (es + [e])[..|es|] == es;
  }

  lemma {:induction false} Above(s: set<nat>) returns (n: nat)
    ensures forall x | x in s :: x < n
    decreases s
  {
    n := 0;
    if s != {} {
      var x :| x in s;
      var k := Above(s - {x});
      n := if k <= x then x + 1 else k;
      forall y | y in s ensures y < n { assert y == x || y in s - {x}; }
    }
  }

  /** Whoever is due wins the flag, if nobody has it and input waits: at once, or after looking. */
  lemma DueServes(es: seq<Event>, a: nat) returns (more: seq<Event>)
    requires After(es).Some? && !After(es).value.flag && After(es).value.unread > 0
    requires a in After(es).value.acts && Due(After(es).value.acts[a])
    ensures After(es + more).Some? && At(After(es + more).value, a) == Some(Serving) && After(es + more).value.unread == After(es).value.unread
  {
    match After(es).value.acts[a]
    case Entered =>
      OneMore(es, Swap(a));
      more := [Swap(a)];
    case Looked(_) =>
      OneMore(es, Retry(a));
      more := [Retry(a)];
    case Cleared =>
      OneMore(es, Look(a));
      OneMore(es + [Look(a)], Retry(a));
      more := [Look(a), Retry(a)];
      assert es + more == es + [Look(a)] + [Retry(a)];
  }

  /** Input that is going to be noticed can be served: if nobody has the flag, some activation can win it next, with all
      the input still there. */
  lemma NoticedIsServed(es: seq<Event>) returns (more: seq<Event>, a: nat)
    requires After(es).Some? && !After(es).value.flag && After(es).value.unread > 0 && Awake(Input, After(es).value)
    ensures After(es + more).Some? && At(After(es + more).value, a) == Some(Serving) && After(es + more).value.unread == After(es).value.unread
  {
    var w := After(es).value;
    if SomeoneDue(w) {
      a :| a in w.acts && Due(w.acts[a]);
      more := DueServes(es, a);
    } else {
      a := Above(w.acts.Keys);
      OneMore(es, Enter(a));
      var rest := DueServes(es + [Enter(a)], a);
      more := [Enter(a)] + rest;
      assert es + more == es + [Enter(a)] + rest;
    }
  }

  /** No activation is ever stuck. */
  lemma NobodyStuck(es: seq<Event>, a: nat) returns (e: Event)
    requires After(es).Some? && a in After(es).value.acts
    ensures !e.Arrive? && e.a == a && After(es + [e]).Some?
  {
    var w := After(es).value;
    FlagIsExclusive(es);
    e := match w.acts[a]
         case Entered => Swap(a)
         case Serving => Serve(a, w.unread, w.whole, 0)
         case Quitting => QuitClear(a)
         case Cleared => Look(a)
         case Looked(saw) => if saw then Retry(a) else Leave(a);
    OneMore(es, e);
  }
}
