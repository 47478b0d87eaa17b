/** The connection limiter of server/server.go: one shared counter, incremented, compared and
    decremented in separate steps by any number of connections at once. */
module Admission {
  import opened Bytes

  /** `low` and `high` are connections between their increment and their test, by whether the value
      they got is within the limit; `turned` are between their failed test and their decrement;
      `stranded` were closed because setting the read timeout failed, without a decrement. */
  datatype World = World(
    limit: int,
    count: int,
    low: set<nat>,
    high: set<nat>,
    turned: set<nat>,
    admitted: set<nat>,
    stranded: set<nat>)

  datatype Event =
    | Count(c: nat)       // atomic.AddInt32(&connsCount, 1)
    | Test(c: nat)        // the comparison with maxConns
    | TurnAway(c: nat)    // atomic.AddInt32(&connsCount, -1) of a connection over the limit
    | Strand(c: nat)      // SetReadTimeout fails
    | Disconnect(c: nat)  // OnDisconnect of an admitted connection

  function Start(limit: int): (w: World) {
    World(limit, 0, {}, {}, {}, {}, {})
  }

  function Known(w: World): (s: set<nat>) {
    w.low + w.high + w.turned + w.admitted + w.stranded
  }

  /** What an event does, where it can happen. */
  function Step(w: World, e: Event): (r: Option<World>) {
    match e
    case Count(c) =>
      if c in Known(w) then None
      else if w.limit > 0 && w.count + 1 > w.limit then Some(w.(count := w.count + 1, high := w.high + {c}))
      else Some(w.(count := w.count + 1, low := w.low + {c}))
    case Test(c) =>
      if c in w.low then Some(w.(low := w.low - {c}, admitted := w.admitted + {c}))
      else if c in w.high then Some(w.(high := w.high - {c}, turned := w.turned + {c}))
      else None
    case TurnAway(c) =>
      if c in w.turned then Some(w.(count := w.count - 1, turned := w.turned - {c})) else None
    case Strand(c) =>
      if c in w.low then Some(w.(low := w.low - {c}, stranded := w.stranded + {c})) else None
    case Disconnect(c) =>
      if c in w.admitted then Some(w.(count := w.count - 1, admitted := w.admitted - {c})) else None
  }

  /** The world after a run, if the run can happen. */
  function After(w: World, es: seq<Event>): (r: Option<World>)
    decreases |es|
  {
    if es == [] then Some(w)
    else
      match After(w, es[..|es| - 1])
      case None => None
      case Some(w') => Step(w', es[|es| - 1])
  }

  ghost predicate Apart(w: World) {
    && w.low !! w.high && w.low !! w.turned && w.low !! w.admitted && w.low !! w.stranded
    && w.high !! w.turned && w.high !! w.admitted && w.high !! w.stranded
    && w.turned !! w.admitted && w.turned !! w.stranded && w.admitted !! w.stranded
  }

  /** The counter is the number of connections that count; those admitted or about to be are within
      the limit. */
  ghost predicate Inv(w: World) {
    && Apart(w)
    && w.count == |w.low| + |w.high| + |w.turned| + |w.admitted| + |w.stranded|
    && (w.limit > 0 ==> |w.low| + |w.admitted| <= w.limit)
  }

  function Weight(e: Event): (n: int) {
    match e
    case Count(_) => 1
    case TurnAway(_) => -1
    case Disconnect(_) => -1
    case _ => 0
  }

  /** How many connections were counted in a run and neither turned away nor disconnected. */
  function Live(es: seq<Event>): (n: int)
    decreases |es|
  {
    if es == [] then 0 else Live(es[..|es| - 1]) + Weight(es[|es| - 1])
  }

  lemma Joined(s: set<nat>, c: nat)
    requires c !in s
    ensures |s + {c}| == |s| + 1
  {
  }

  lemma Left(s: set<nat>, c: nat)
    requires c in s
    ensures |s - {c}| == |s| - 1
  {
  }

  lemma CountKeeps(w: World, c: nat)
    requires Inv(w) && Step(w, Count(c)).Some?
    ensures Inv(Step(w, Count(c)).value)
  {
    if w.limit > 0 && w.count + 1 > w.limit {
      Joined(w.high, c);
    } else {
      Joined(w.low, c);
    }
  }

  lemma TestKeeps(w: World, c: nat)
    requires Inv(w) && Step(w, Test(c)).Some?
    ensures Inv(Step(w, Test(c)).value)
  {
    if c in w.low {
      Left(w.low, c);
      Joined(w.admitted, c);
    } else {
      Left(w.high, c);
      Joined(w.turned, c);
    }
  }

  lemma StrandKeeps(w: World, c: nat)
    requires Inv(w) && Step(w, Strand(c)).Some?
    ensures Inv(Step(w, Strand(c)).value)
  {
    Left(w.low, c);
    Joined(w.stranded, c);
  }

  lemma StepKeeps(w: World, e: Event)
    requires Inv(w) && Step(w, e).Some?
    ensures Inv(Step(w, e).value) && Step(w, e).value.limit == w.limit && Step(w, e).value.count == w.count + Weight(e)
  {
    match e
    case Count(c) => CountKeeps(w, c);
    case Test(c) => TestKeeps(w, c);
    case Strand(c) => StrandKeeps(w, c);
    case TurnAway(c) => Left(w.turned, c);
    case Disconnect(c) => Left(w.admitted, c);
  }

  /** In every interleaving of any number of connections, the number admitted and not yet
      disconnected is within the limit, and the counter is the number of connections that have been
      counted and neither turned away nor disconnected. */
  lemma {:induction false} AdmissionBound(limit: int, es: seq<Event>)
    requires After(Start(limit), es).Some?
    ensures var w := After(Start(limit), es).value;
            && Inv(w) && w.limit == limit && w.count == Live(es)
            && (limit > 0 ==> |w.admitted| <= limit)
    decreases |es|
  {
    if es != [] {
      AdmissionBound(limit, es[..|es| - 1]);
      StepKeeps(After(Start(limit), es[..|es| - 1]).value, es[|es| - 1]);
    }
  }

  /** At its increment a connection found the limit used up. */
  predicate Full(limit: int, before: seq<Event>) {
    limit > 0 && Live(before) >= limit
  }

  lemma LastIsCount(limit: int, es: seq<Event>, c: nat)
    requires es != [] && es[|es| - 1] == Count(c) && After(Start(limit), es).Some?
    ensures var w := After(Start(limit), es).value; var full := Full(limit, es[..|es| - 1]); c in (if full then w.high else w.low)
  {
    AdmissionBound(limit, es[..|es| - 1]);
  }

  lemma StaysCounted(w: World, e: Event, c: nat)
    requires Inv(w) && Step(w, e).Some? && e != Test(c) && e != Strand(c) && (c in w.low || c in w.high)
    ensures var w' := Step(w, e).value; (c in w'.low <==> c in w.low) && (c in w'.high <==> c in w.high)
  {
  }

  /** Until its test, what a connection found at its increment decides. */
  lemma {:induction false} Undecided(limit: int, es: seq<Event>, i: nat, c: nat)
    requires After(Start(limit), es).Some? && i < |es| && es[i] == Count(c)
    requires forall j | i < j < |es| :: es[j] != Test(c) && es[j] != Strand(c)
    ensures var w := After(Start(limit), es).value; c in (if Full(limit, es[..i]) then w.high else w.low)
    decreases |es|
  {
    var before := es[..|es| - 1];
    if i == |es| - 1 {
      LastIsCount(limit, es, c);
    } else {
      Undecided(limit, before, i, c);
      assert before[..i] == es[..i];
      AdmissionBound(limit, before);
      StaysCounted(After(Start(limit), before).value, es[|es| - 1], c);
    }
  }

  /** Who is turned away: in every interleaving, a connection between its increment and its test can make the test,
      and is turned away if and only if there is a limit and, at its increment, at least that many connections were
      counted and neither turned away nor disconnected; otherwise it is admitted. */
  lemma TurnedAwayExactly(limit: int, es: seq<Event>, i: nat, c: nat)
    requires After(Start(limit), es).Some? && i < |es| && es[i] == Count(c)
    requires forall j | i < j < |es| :: es[j] != Test(c) && es[j] != Strand(c)
    ensures After(Start(limit), es + [Test(c)]).Some?
    ensures var w := After(Start(limit), es + [Test(c)]).value;
            && (c in w.turned <==> limit > 0 && Live(es[..i]) >= limit)
            && (c in w.admitted <==> !(limit > 0 && Live(es[..i]) >= limit))
  {
    Undecided(limit, es, i, c);
    AdmissionBound(limit, es);
    assert (es + [Test(c)])[..|es|] == es;
  }

  /** With fewer than the limit counted, a connection that arrives and is tested is admitted, whatever happens between. */
  lemma RoomAdmits(limit: int, es: seq<Event>, c: nat, between: seq<Event>)
    requires After(Start(limit), es + [Count(c)] + between).Some? && (limit <= 0 || Live(es) < limit)
    requires forall j | 0 <= j < |between| :: between[j] != Test(c) && between[j] != Strand(c)
    ensures After(Start(limit), es + [Count(c)] + between + [Test(c)]).Some?
    ensures c in After(Start(limit), es + [Count(c)] + between + [Test(c)]).value.admitted
  {
    var all := es + [Count(c)] + between;
    assert all[..|es|] == es;
    TurnedAwayExactly(limit, all, |es|, c);
  }

  lemma OneMore(limit: int, es: seq<Event>, e: Event)
    requires After(Start(limit), es).Some?
    ensures After(Start(limit), es + [e]) == Step(After(Start(limit), es).value, e)
  {
    assert (es + [e])[..|es|] == es;
  }

  /** Whoever is turned away or disconnected leaves the counter, and may come again. */
  lemma LeavesTheCounter(limit: int, es: seq<Event>, c: nat)
    requires After(Start(limit), es).Some?
    ensures var w := After(Start(limit), es).value;
            && (c in w.turned ==> Gone(w, After(Start(limit), es + [TurnAway(c)]), c))
            && (c in w.admitted ==> Gone(w, After(Start(limit), es + [Disconnect(c)]), c))
            && (c !in Known(w) ==> After(Start(limit), es + [Count(c)]).Some?)
  {
    AdmissionBound(limit, es);
    OneMore(limit, es, TurnAway(c));
    OneMore(limit, es, Disconnect(c));
    OneMore(limit, es, Count(c));
  }

  predicate Gone(w: World, r: Option<World>, c: nat) {
    r.Some? && r.value.count == w.count - 1 && Known(r.value) == Known(w) - {c}
  }

  /** At rest, with every connection admitted or gone, the counter is the number admitted exactly when
      no connection was stranded. */
  lemma CounterAtRest(limit: int, es: seq<Event>)
    requires After(Start(limit), es).Some?
    requires var w := After(Start(limit), es).value; w.low == {} && w.high == {} && w.turned == {}
    ensures var w := After(Start(limit), es).value; w.count == |w.admitted| <==> w.stranded == {}
  {
    AdmissionBound(limit, es);
  }
}
