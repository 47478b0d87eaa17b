/** Pooled readers and writers of engine/engine.go: many connections share a pool of buffers; a
    connection takes one when an activation starts to serve and gives it back when it stops. Readers
    and writers are two instances of this system. */
module Buffers {
  import opened Bytes

  /** A connection: which activation owns its Processing flag, its buffer, what each of its
      activations works with (those behind the flag's clearing included), which of them have looked
      again and seen no input, and whether it is open and at the end of its input. */
  datatype Conn = Conn(owner: Option<nat>, buffer: Option<nat>, using: map<nat, nat>, idle: set<nat>, open: bool, eof: bool)

  /** Why an activation stops with the flag in its hands: the connection is inactive; nothing is
      buffered and the connection has no whole head; a request failed, at the end of input or
      otherwise; the connection is to be closed. */
  datatype Why = Inactive | NoHead | Failed(eof: bool) | Closing

  /** `loaded` are buffers that hold unread bytes; `lost` that one was pooled while its connection
      was open and not at its end. */
  datatype World = World(conns: map<nat, Conn>, pool: set<nat>, made: nat, loaded: set<nat>, lost: bool)

  datatype Event =
    | Accept(c: nat)              // a connection
    | Begin(c: nat, a: nat, b: nat)  // an activation wins the flag; the pool would hand out `b`
    | Read(c: nat, a: nat, more: bool)  // it serves a request; bytes stay in the buffer or not
    | Close(c: nat)
    | End(c: nat)                 // end of input
    | Stop(c: nat, a: nat, why: Why)  // release, clear the flag, return
    | Clear(c: nat, a: nat)       // the keep-alive exit clears the flag
    | Look(c: nat, a: nat)        // looks again and sees nothing buffered
    | Again(c: nat, a: nat)       // or sees input and wins the flag back
    | Lose(c: nat, a: nat)        // or loses it and returns
    | Park(c: nat, a: nat)        // having seen no input: release and return
    | Discard(c: nat)             // the last reference is released

  const START := World(map[], {}, 0, {}, false)

  /** The buffer of a connection goes to the pool. */
  function Pooled(w: World, c: nat, x: Conn): (r: World) {
    if x.buffer.None? then w.(conns := w.conns[c := x])
    else
      var b := x.buffer.value;
      w.(conns := w.conns[c := x.(buffer := None)], pool := w.pool + {b}, loaded := w.loaded - {b},
         lost := w.lost || (x.open && !x.eof && b in w.loaded))
  }

  /** No other activation of the connection works with its buffer. */
  predicate Alone(x: Conn, a: nat) {
    forall t | t in x.using :: t == a
  }

  /** Whether the connection's buffer holds unread bytes. */
  predicate Loaded(w: World, x: Conn) {
    x.buffer.Some? && x.buffer.value in w.loaded
  }

  /** The connection as a stopping activation leaves it, if it can stop for this reason. */
  function Stopped(w: World, x: Conn, a: nat, why: Why): (r: Option<Conn>) {
    var y := x.(owner := None, using := x.using - {a});
    match why
    case Inactive => if x.open then None else Some(y)
    case NoHead => if Loaded(w, x) then None else Some(y)
    case Failed(eof) => if eof then Some(y.(eof := true)) else Some(y.(open := false))
    case Closing => Some(y.(open := false))
  }

  function Step(w: World, e: Event): (r: Option<World>) {
    if e.Accept? then
      if e.c in w.conns then None else Some(w.(conns := w.conns[e.c := Conn(None, None, map[], {}, true, false)]))
    else if e.c !in w.conns then None
    else
      var x := w.conns[e.c];
      match e
      case Begin(c, a, b) =>
        if x.owner.Some? || a in x.using then None
        else if x.buffer.Some? then Some(w.(conns := w.conns[c := x.(owner := Some(a), using := x.using[a := x.buffer.value])]))
        else if b in w.pool then
          Some(w.(pool := w.pool - {b}, conns := w.conns[c := x.(owner := Some(a), buffer := Some(b), using := x.using[a := b])]))
        else if b == w.made then
          Some(w.(made := w.made + 1, conns := w.conns[c := x.(owner := Some(a), buffer := Some(b), using := x.using[a := b])]))
        else None
      case Read(c, a, more) =>
        if x.owner != Some(a) || x.buffer.None? then None
        else Some(w.(loaded := if more then w.loaded + {x.buffer.value} else w.loaded - {x.buffer.value}))
      case Close(c) => Some(w.(conns := w.conns[c := x.(open := false)]))
      case End(c) => Some(w.(conns := w.conns[c := x.(eof := true)]))
      case Stop(c, a, why) =>
        if x.owner != Some(a) || Stopped(w, x, a, why).None? then None else Some(Pooled(w, c, Stopped(w, x, a, why).value))
      case Clear(c, a) =>
        if x.owner != Some(a) || x.buffer.None? || x.buffer.value in w.loaded then None
        else Some(w.(conns := w.conns[c := x.(owner := None)]))
      case Look(c, a) =>
        if x.owner == Some(a) || a !in x.using || Loaded(w, x) then None else Some(w.(conns := w.conns[c := x.(idle := x.idle + {a})]))
      case Again(c, a) =>
        if x.owner.Some? || a !in x.using || a in x.idle then None else Some(w.(conns := w.conns[c := x.(owner := Some(a))]))
      case Lose(c, a) =>
        if x.owner == Some(a) || a !in x.using || a in x.idle then None else Some(w.(conns := w.conns[c := x.(using := x.using - {a})]))
      case Park(c, a) =>
        if a !in x.idle then None else Some(Pooled(w, c, x.(using := x.using - {a}, idle := x.idle - {a})))
      case Discard(c) =>
        if x.using != map[] || x.open then None else Some(Pooled(w, c, x))
  }

  function After(es: seq<Event>): (r: Option<World>)
    decreases |es|
  {
    if es == [] then Some(START)
    else
      match After(es[..|es| - 1])
      case None => None
      case Some(w) => Step(w, es[|es| - 1])
  }

  // ------------------------------------------------------------------------- invariant

  /** What a connection says about its activations and its buffer. */
  ghost predicate Settled(x: Conn, loaded: set<nat>) {
    && (x.owner.Some? ==> x.owner.value in x.using && x.owner.value !in x.idle)
    && (forall t | t in x.using :: x.buffer == Some(x.using[t]))
    && (forall t | t in x.idle :: t in x.using)
    && (x.owner.None? && x.buffer.Some? ==> x.buffer.value !in loaded)
  }

  ghost predicate Inv(w: World) {
    && !w.lost
    && (forall b | b in w.pool :: b < w.made && b !in w.loaded)
    && (forall b | b in w.loaded :: b < w.made)
    && (forall c | c in w.conns :: Settled(w.conns[c], w.loaded))
    && (forall c | c in w.conns && w.conns[c].buffer.Some? :: w.conns[c].buffer.value < w.made && w.conns[c].buffer.value !in w.pool)
    && (forall c, d | c in w.conns && d in w.conns && w.conns[c].buffer.Some? && w.conns[c].buffer == w.conns[d].buffer :: c == d)
  }

  /** Unread bytes are given up only with their connection. */
  predicate Spent(w: World, x: Conn) {
    Loaded(w, x) ==> !x.open || x.eof
  }

  lemma PooledKeeps(w: World, c: nat, x: Conn)
    requires Inv(w) && c in w.conns && x.buffer == w.conns[c].buffer && x.using == map[] && x.idle == {} && x.owner.None?
    requires Spent(w, x)
    ensures Inv(Pooled(w, c, x))
  {
  }

  lemma ChangeKeeps(w: World, w': World, c: nat, x: Conn)
    requires Inv(w) && c in w.conns && Settled(x, w.loaded) && x.buffer == w.conns[c].buffer && w' == w.(conns := w.conns[c := x])
    ensures Inv(w')
  {
  }

  lemma TakeKeeps(w: World, w': World, c: nat, x: Conn, b: nat)
    requires Inv(w) && c in w.conns && w.conns[c].buffer.None? && Settled(x, w.loaded) && x.buffer == Some(b)
    requires (b in w.pool && w' == w.(pool := w.pool - {b}, conns := w.conns[c := x]))
             || (b == w.made && w' == w.(made := w.made + 1, conns := w.conns[c := x]))
    ensures Inv(w')
  {
  }

  lemma LoadKeeps(w: World, c: nat, more: bool)
    requires Inv(w) && c in w.conns && w.conns[c].buffer.Some? && w.conns[c].owner.Some?
    ensures var b := w.conns[c].buffer.value; Inv(w.(loaded := if more then w.loaded + {b} else w.loaded - {b}))
  {
  }

  lemma AcceptKeeps(w: World, c: nat)
    requires Inv(w) && c !in w.conns
    ensures Inv(w.(conns := w.conns[c := Conn(None, None, map[], {}, true, false)]))
  {
  }

  lemma OnlyUser(x: Conn, a: nat, loaded: set<nat>)
    requires Alone(x, a) && Settled(x, loaded)
    ensures x.using - {a} == map[] && x.idle - {a} == {} && (x.owner == Some(a) ==> x.idle == {})
  {
  }

  lemma NoUser(x: Conn, loaded: set<nat>)
    requires x.using == map[] && Settled(x, loaded)
    ensures x.idle == {} && x.owner.None?
  {
  }

  /** A step that gives a buffer to the pool is made by the only activation that works with it. */
  predicate PoolsAlone(w: World, e: Event) {
    (e.Stop? || e.Park?) && e.c in w.conns ==> Alone(w.conns[e.c], e.a)
  }

  lemma StopKeeps(w: World, c: nat, x: Conn, a: nat, why: Why)
    requires Inv(w) && c in w.conns && x == w.conns[c] && x.owner == Some(a) && Stopped(w, x, a, why).Some? && Alone(x, a)
    ensures Inv(Pooled(w, c, Stopped(w, x, a, why).value))
  {
    OnlyUser(x, a, w.loaded);
    PooledKeeps(w, c, Stopped(w, x, a, why).value);
  }

  lemma PoolingKeeps(w: World, e: Event)
    requires Inv(w) && Step(w, e).Some? && PoolsAlone(w, e) && (e.Stop? || e.Park? || e.Discard?)
    ensures Inv(Step(w, e).value)
  {
    var x := w.conns[e.c];
    assert Settled(x, w.loaded);
    match e
    case Stop(c, a, why) => StopKeeps(w, c, x, a, why);
    case Park(c, a) =>
      OnlyUser(x, a, w.loaded);
      PooledKeeps(w, c, x.(using := x.using - {a}, idle := x.idle - {a}));
    case Discard(c) =>
      NoUser(x, w.loaded);
      PooledKeeps(w, c, x);
  }

  lemma BeginKeeps(w: World, e: Event)
    requires Inv(w) && Step(w, e).Some? && e.Begin?
    ensures Inv(Step(w, e).value)
  {
    var x, w' := w.conns[e.c], Step(w, e).value;
    assert Settled(x, w.loaded);
    if x.buffer.Some? {
      ChangeKeeps(w, w', e.c, w'.conns[e.c]);
    } else {
      TakeKeeps(w, w', e.c, w'.conns[e.c], e.b);
    }
  }

  lemma StepKeeps(w: World, e: Event)
    requires Inv(w) && Step(w, e).Some? && PoolsAlone(w, e)
    ensures Inv(Step(w, e).value)
  {
    if e.Accept? {
      AcceptKeeps(w, e.c);
    } else if e.Begin? {
      BeginKeeps(w, e);
    } else if e.Stop? || e.Park? || e.Discard? {
      PoolingKeeps(w, e);
    } else {
      var x, w' := w.conns[e.c], Step(w, e).value;
      assert Settled(x, w.loaded);
      match e
      case Read(c, _, more) => LoadKeeps(w, c, more);
      case Close(c) => ChangeKeeps(w, w', c, x.(open := false));
      case End(c) => ChangeKeeps(w, w', c, x.(eof := true));
      case Clear(c, _) => ChangeKeeps(w, w', c, x.(owner := None));
      case Look(c, a) => ChangeKeeps(w, w', c, x.(idle := x.idle + {a}));
      case Again(c, a) => ChangeKeeps(w, w', c, x.(owner := Some(a)));
      case Lose(c, a) => ChangeKeeps(w, w', c, x.(using := x.using - {a}));
    }
  }

  // ---------------------------------------------------------------------------- whole runs

  ghost predicate UsesPooled(w: World) {
    exists c, t :: c in w.conns && t in w.conns[c].using && w.conns[c].using[t] in w.pool
  }

  /** Every buffer is in one place: no activation works with a pooled one, no connection has one that is
      pooled or another connection's, and none was pooled with unread bytes of an open connection. */
  ghost predicate Separate(w: World) {
    && !UsesPooled(w) && !w.lost
    && (forall c | c in w.conns && w.conns[c].buffer.Some? :: w.conns[c].buffer.value !in w.pool)
    && (forall c, d | c in w.conns && d in w.conns && w.conns[c].buffer.Some? && w.conns[c].buffer == w.conns[d].buffer :: c == d)
  }

  lemma InvSeparates(w: World)
    requires Inv(w)
    ensures Separate(w)
  {
    forall c, t | c in w.conns && t in w.conns[c].using ensures w.conns[c].using[t] !in w.pool {
      assert Settled(w.conns[c], w.loaded);
    }
  }

  /** Pooling a buffer with which another activation works shows at once. */
  lemma SharedShows(w: World, e: Event)
    requires Inv(w) && Step(w, e).Some? && !PoolsAlone(w, e)
    ensures UsesPooled(Step(w, e).value)
  {
    var x, w' := w.conns[e.c], Step(w, e).value;
    assert Settled(x, w.loaded);
    var t :| t in x.using && t != e.a;
    assert t in w'.conns[e.c].using && w'.conns[e.c].using[t] in w'.pool;
  }

  ghost predicate SeparateAt(es: seq<Event>, k: nat)
    requires k <= |es|
  {
    After(es[..k]).Some? && Separate(After(es[..k]).value)
  }

  ghost predicate AloneAt(es: seq<Event>, k: nat)
    requires k < |es|
  {
    After(es[..k]).Some? && PoolsAlone(After(es[..k]).value, es[k])
  }

  lemma NextOf(es: seq<Event>, k: nat)
    requires k < |es|
    ensures After(es[..k + 1]) == match After(es[..k]) case None => None case Some(w) => Step(w, es[k])
  {
    assert es[..k + 1][..k] == es[..k];
  }

  lemma {:induction false} PrefixRuns(es: seq<Event>, k: nat)
    requires After(es).Some? && k <= |es|
    ensures After(es[..k]).Some?
    decreases |es| - k
  {
    if k == |es| {
      assert es[..k] == es;
    } else {
      PrefixRuns(es, k + 1);
      NextOf(es, k);
    }
  }

  lemma {:induction false} InvThrough(es: seq<Event>, k: nat)
    requires After(es).Some? && k <= |es| && forall j | 0 <= j < k :: AloneAt(es, j)
    ensures After(es[..k]).Some? && Inv(After(es[..k]).value)
    decreases k
  {
    PrefixRuns(es, k);
    if 0 < k {
      InvThrough(es, k - 1);
      NextOf(es, k - 1);
      assert AloneAt(es, k - 1);
      StepKeeps(After(es[..k - 1]).value, es[k - 1]);
    }
  }

  /** The first step that pools a shared buffer shows. */
  lemma {:induction false} FirstShared(es: seq<Event>, k: nat)
    requires After(es).Some? && k < |es| && !AloneAt(es, k)
    ensures exists j :: 0 <= j <= |es| && !SeparateAt(es, j)
    decreases k
  {
    if j :| 0 <= j < k && !AloneAt(es, j) {
      FirstShared(es, j);
    } else {
      InvThrough(es, k);
      PrefixRuns(es, k + 1);
      NextOf(es, k);
      SharedShows(After(es[..k]).value, es[k]);
      assert !SeparateAt(es, k + 1);
    }
  }

  /** The exact condition: through a run every buffer is in one place if and only if no activation gives
      a buffer to the pool while another one works with it. */
  lemma SeparateExactly(es: seq<Event>)
    requires After(es).Some?
    ensures (forall k | 0 <= k <= |es| :: SeparateAt(es, k)) <==> (forall k | 0 <= k < |es| :: AloneAt(es, k))
  {
    if forall k | 0 <= k < |es| :: AloneAt(es, k) {
      forall k | 0 <= k <= |es| ensures SeparateAt(es, k) {
        InvThrough(es, k);
        InvSeparates(After(es[..k]).value);
      }
    } else {
      var k :| 0 <= k < |es| && !AloneAt(es, k);
      FirstShared(es, k);
    }
  }

  // ------------------------------------------------------------------------- serial runs

  /** An activation wins the flag only while no other is behind its clearing. */
  ghost predicate SerialAt(es: seq<Event>, k: nat)
    requires k < |es|
  {
    After(es[..k]).Some? && WinsAlone(After(es[..k]).value, es[k])
  }

  predicate WinsAlone(w: World, e: Event) {
    (e.Begin? || e.Again?) && e.c in w.conns ==> Alone(w.conns[e.c], e.a)
  }

  ghost predicate OneUser(w: World) {
    forall c, t, u | c in w.conns && t in w.conns[c].using && u in w.conns[c].using :: t == u
  }

  /** Only Begin adds to those who work with a connection's buffer. */
  lemma StepUsers(w: World, e: Event, c: nat, t: nat)
    requires Step(w, e).Some? && c in Step(w, e).value.conns && t in Step(w, e).value.conns[c].using
    ensures c in w.conns && (t in w.conns[c].using || (e.Begin? && e.c == c && t == e.a))
  {
  }

  lemma OneUserKept(w: World, e: Event)
    requires OneUser(w) && Step(w, e).Some? && WinsAlone(w, e)
    ensures OneUser(Step(w, e).value)
  {
    var w' := Step(w, e).value;
    forall c, t, u | c in w'.conns && t in w'.conns[c].using && u in w'.conns[c].using ensures t == u {
      StepUsers(w, e, c, t);
      StepUsers(w, e, c, u);
    }
  }

  lemma OneUserPools(w: World, e: Event)
    requires Inv(w) && OneUser(w) && Step(w, e).Some?
    ensures PoolsAlone(w, e)
  {
    if (e.Stop? || e.Park?) && e.c in w.conns {
      assert Settled(w.conns[e.c], w.loaded);
    }
  }

  lemma {:induction false} SerialThrough(es: seq<Event>, k: nat)
    requires After(es).Some? && k <= |es| && forall j | 0 <= j < |es| :: SerialAt(es, j)
    ensures After(es[..k]).Some? && OneUser(After(es[..k]).value) && Inv(After(es[..k]).value)
    decreases k
  {
    PrefixRuns(es, k);
    if 0 < k {
      SerialThrough(es, k - 1);
      NextOf(es, k - 1);
      assert SerialAt(es, k - 1);
      SerialStep(After(es[..k - 1]).value, es[k - 1]);
    }
  }

  lemma SerialStep(w: World, e: Event)
    requires OneUser(w) && Inv(w) && Step(w, e).Some? && WinsAlone(w, e)
    ensures OneUser(Step(w, e).value) && Inv(Step(w, e).value)
  {
    OneUserKept(w, e);
    OneUserPools(w, e);
    StepKeeps(w, e);
  }

  /** With the activations of a connection serialised to their return, not only to the clearing of the
      flag, every buffer is in one place through every run. */
  lemma BuffersHaveOnePlace(es: seq<Event>)
    requires After(es).Some? && forall k | 0 <= k < |es| :: SerialAt(es, k)
    ensures Separate(After(es).value)
  {
    SerialThrough(es, |es|);
    assert es[..|es|] == es;
    InvSeparates(After(es).value);
  }

  // ---------------------------------------------------------------- without serialisation

  lemma RunNext(es: seq<Event>, w: World, e: Event, w': World) returns (es': seq<Event>)
    requires After(es) == Some(w) && Step(w, e) == Some(w')
    ensures After(es') == Some(w')
  {
    es' := es + [e];
    assert es'[..|es|] == es;
  }

  /** One activation takes a buffer, clears the flag and sees no input. */
  lemma FirstLooks() returns (es: seq<Event>)
    ensures After(es) == Some(With(Conn(None, Some(0), map[1 := 0], {1}, true, false), {}, 1))
  {
    var x0 := Conn(None, None, map[], {}, true, false);
    var x1 := Conn(Some(1), Some(0), map[1 := 0], {}, true, false);
    var x2 := x1.(owner := None);
    es := RunNext([], START, Accept(0), With(x0, {}, 0));
    Replaced(x0, x1);
    es := RunNext(es, With(x0, {}, 0), Begin(0, 1, 0), With(x1, {}, 1));
    Replaced(x1, x2);
    es := RunNext(es, With(x1, {}, 1), Clear(0, 1), With(x2, {}, 1));
    Replaced(x2, x2.(idle := {1}));
    assert x2.idle + {1} == {1};
    es := RunNext(es, With(x2, {}, 1), Look(0, 1), With(x2.(idle := {1}), {}, 1));
  }

  /** Another one begins with the same buffer, which the first then pools. */
  lemma SecondBegins(es: seq<Event>) returns (es': seq<Event>)
    requires After(es) == Some(With(Conn(None, Some(0), map[1 := 0], {1}, true, false), {}, 1))
    ensures After(es') == Some(With(Conn(Some(2), None, map[2 := 0], {}, true, false), {0}, 1))
  {
    var x3 := Conn(None, Some(0), map[1 := 0], {1}, true, false);
    var x4 := Conn(Some(2), Some(0), map[1 := 0, 2 := 0], {1}, true, false);
    var x5 := Conn(Some(2), None, map[2 := 0], {}, true, false);
    Replaced(x3, x4);
    assert x3.using[2 := 0] == map[1 := 0, 2 := 0];
    es' := RunNext(es, With(x3, {}, 1), Begin(0, 2, 0), With(x4, {}, 1));
    Replaced(x4, x5);
    var none: set<nat> := {};
    assert x4.using - {1} == map[2 := 0] && x4.idle - {1} == none && none + {0} == {0} && none - {0} == none;
    es' := RunNext(es', With(x4, {}, 1), Park(0, 1), With(x5, {0}, 1));
  }

  /** Serialisation is needed: an activation that has cleared the flag and seen no input pools the
      buffer with which the next owner of the flag is already working. */
  lemma UnserialisedShares()
    ensures exists es: seq<Event> :: After(es).Some? && UsesPooled(After(es).value)
  {
    var es := FirstLooks();
    var es' := SecondBegins(es);
    var w := After(es').value;
    assert 0 in w.conns && 2 in w.conns[0].using && w.conns[0].using[2] in w.pool;
  }

  /** A world with one connection. */
  function With(x: Conn, pool: set<nat>, made: nat): (w: World) {
    World(map[0 := x], pool, made, {}, false)
  }

  lemma Replaced(x: Conn, y: Conn)
    ensures map[0 := x][0 := y] == map[0 := y]
  {
  }

  // ----------------------------------------------------------------------- conservation

  /** Somebody has the buffer: the pool, or a connection. */
  ghost predicate Kept(w: World, b: nat) {
    b in w.pool || exists c :: c in w.conns && w.conns[c].buffer == Some(b)
  }

  lemma PooledLosesNone(w: World, c: nat, x: Conn, b: nat)
    requires c in w.conns && x.buffer == w.conns[c].buffer && Kept(w, b)
    ensures Kept(Pooled(w, c, x), b)
  {
    var w' := Pooled(w, c, x);
    if b !in w.pool {
      var d :| d in w.conns && w.conns[d].buffer == Some(b);
      if d != c {
        assert w'.conns[d].buffer == Some(b);
      }
    }
  }

  /** A connection that keeps its buffer, or gets one. */
  lemma KeptByOthers(w: World, w': World, c: nat, b: nat)
    requires Kept(w, b) && c in w'.conns && w'.conns == w.conns[c := w'.conns[c]]
    requires c in w.conns && w.conns[c].buffer.Some? ==> w'.conns[c].buffer == w.conns[c].buffer
    requires b in w.pool && b !in w'.pool ==> w'.conns[c].buffer == Some(b)
    ensures Kept(w', b)
  {
    if b !in w.pool {
      var d :| d in w.conns && w.conns[d].buffer == Some(b);
      assert w'.conns[d].buffer == Some(b);
    }
  }

  lemma StepLosesNone(w: World, e: Event, b: nat)
    requires Step(w, e).Some? && (b < w.made ==> Kept(w, b)) && b < Step(w, e).value.made
    ensures Kept(Step(w, e).value, b)
  {
    var w' := Step(w, e).value;
    match e
    case Stop(c, a, why) => PooledLosesNone(w, c, Stopped(w, w.conns[c], a, why).value, b);
    case Park(c, a) => PooledLosesNone(w, c, w.conns[c].(using := w.conns[c].using - {a}, idle := w.conns[c].idle - {a}), b);
    case Discard(c) => PooledLosesNone(w, c, w.conns[c], b);
    case Begin(c, _, _) =>
      if b < w.made {
        KeptByOthers(w, w', c, b);
      } else {
        assert w'.conns[c].buffer == Some(b);
      }
    case _ => KeptByOthers(w, w', e.c, b);
  }

  /** No buffer is ever lost: in every run, each one made is in the pool or with a connection. */
  lemma {:induction false} NoneLost(es: seq<Event>, b: nat)
    requires After(es).Some? && b < After(es).value.made
    ensures Kept(After(es).value, b)
    decreases |es|
  {
    var before, e := After(es[..|es| - 1]).value, es[|es| - 1];
    if b < before.made {
      NoneLost(es[..|es| - 1], b);
    }
    StepLosesNone(before, e, b);
  }

  /** An activation that stops gives its connection's buffer back: the connection has none, and the pool has it. */
  lemma StopGivesBack(es: seq<Event>, c: nat, a: nat, why: Why)
    requires After(es + [Stop(c, a, why)]).Some? && After(es).Some?
    ensures var w, w' := After(es).value, After(es + [Stop(c, a, why)]).value;
            c in w.conns && w'.conns[c].buffer.None? && w'.conns[c].owner.None? && a !in w'.conns[c].using
            && (w.conns[c].buffer.Some? ==> w'.pool == w.pool + {w.conns[c].buffer.value})
  {
    assert (es + [Stop(c, a, why)])[..|es|] == es;
  }
}
