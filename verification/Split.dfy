/** Cutting the input of the request machine at a clean point does not change the state it
    reaches; a cut inside a terminator shows for some continuation. */
module Split {
  import opened Bytes
  import opened Grammar
  import opened Machine

  /** The states the machine rests in between calls. */
  ghost predicate Ready(cb: Setting, st: State) {
    && (st.phase == HeaderPhase ==> st.told.value == if cb.value then |PartialValue(st.scratch)| else 0)
    && (st.phase != HeaderPhase ==> st.told.value == 0)
    && (st.phase == BodyPhase || st.phase == ChunkDataPhase ==> 0 < st.length && st.scratch == [])
  }

  predicate InLine(st: State) {
    st.phase == RequestLinePhase || st.phase == HeaderPhase || st.phase == ChunkSizePhase
  }

  /** Equal up to the URL offset, which only URL callbacks use. */
  ghost predicate Same(cb: Setting, a: State, b: State) {
    && a.phase == b.phase && a.scratch == b.scratch && a.length == b.length && a.facts == b.facts && a.done == b.done
    && a.upgrade == b.upgrade
    && a.told.started == b.told.started && a.told.value == b.told.value && (!cb.url ==> a.told.url == b.told.url)
  }

  /** The line left open by the first call fits the scratch buffer when its end arrives. */
  ghost predicate OpenLineFits(st: State, buf: bytes) {
    st.scratch != [] && CrlfFrom(buf, 0).Some? ==> |st.scratch| + CrlfFrom(buf, 0).value <= SCRATCH
  }

  /** Outcome `o` of one call is what outcome `p` is after a call that took `a` bytes. */
  ghost predicate Continues(cb: Setting, o: Outcome, p: Outcome, a: nat) {
    o.err == p.err &&
    (o.err.None? ==> Same(cb, o.st, p.st) && o.seam == p.seam && (!cb.value ==> o.n == a + p.n))
  }

  ghost predicate Later(cb: Setting, t: Turn, u: Turn, a: nat) {
    match (t, u)
    case (Go(st, next), Go(st', next')) => Same(cb, st, st') && next == a + next'
    case (Stop(o), Stop(p)) => Continues(cb, o, p, a)
    case _ => false
  }

  // ------------------------------------------------------------------ invariant

  lemma PartialValueNone()
    ensures PartialValue([]) == []
  {
  }

  lemma KeepLineReady(cb: Setting, st: State, buf: bytes, p: nat)
    requires p < |buf| && Ready(cb, st) && InLine(st)
    ensures var o := KeepLine(cb, st, buf, p).out;
            o.err.None? ==> Ready(cb, o.st) && o.st.phase == st.phase && o.st.scratch == st.scratch + buf[p..]
  {
    PartialValueGrows(st.scratch, buf[p..]);
  }

  lemma TakeLineReady(cb: Setting, st: State, line: bytes, buf: bytes, k: nat)
    requires k <= |buf| && InLine(st)
    requires st.phase != HeaderPhase || line == [] || !cb.value ==> st.told.value == 0
    ensures match TakeLine(cb, st, line, buf, k)
            case Go(st', _) => Ready(cb, st') && st'.phase != Idle && st'.scratch == []
            case Stop(o) => o.err.None? ==> Ready(cb, o.st)
  {
    PartialValueNone();
  }

  lemma LineTurnReady(cb: Setting, st: State, buf: bytes, p: nat)
    requires p < |buf| && Ready(cb, st) && InLine(st)
    ensures match LineTurn(cb, st, buf, p)
            case Go(st', _) => Ready(cb, st') && st'.phase != Idle
            case Stop(o) => o.err.None? ==> Ready(cb, o.st)
  {
    match CrlfFrom(buf, p)
    case None => KeepLineReady(cb, st, buf, p);
    case Some(i) =>
      PartialValueNone();
      TakeLineReady(cb, Holding(st, st.scratch + buf[p..i]), st.scratch + buf[p..i], buf, i + 2);
  }

  lemma StepReady(cb: Setting, st: State, buf: bytes, p: nat)
    requires p < |buf| && Ready(cb, st) && st.phase != Idle
    ensures match Step(cb, st, buf, p)
            case Go(st', _) => Ready(cb, st') && st'.phase != Idle
            case Stop(o) => o.err.None? ==> Ready(cb, o.st)
  {
    if InLine(st) {
      LineTurnReady(cb, st, buf, p);
    }
  }

  /** Every call leaves the machine ready for the next one. */
  lemma {:induction false} RunReady(cb: Setting, st: State, buf: bytes, p: nat)
    requires p <= |buf| && Ready(cb, st) && st.phase != Idle
    requires Run(cb, st, buf, p).err.None?
    ensures Ready(cb, Run(cb, st, buf, p).st)
    decreases |buf| - p
  {
    if p < |buf| {
      StepReady(cb, st, buf, p);
      match Step(cb, st, buf, p)
      case Stop(o) =>
      case Go(st', next) => RunReady(cb, st', buf, next);
    }
  }

  // ------------------------------------------- turns that end inside the first part

  lemma TakeLineKept(cb: Setting, st: State, line: bytes, a: bytes, b: bytes, k: nat)
    requires k <= |a| && TakeLine(cb, st, line, a, k).Go?
    ensures TakeLine(cb, st, line, a + b, k) == TakeLine(cb, st, line, a, k)
  {
  }

  lemma LineTurnKept(cb: Setting, st: State, a: bytes, b: bytes, p: nat)
    requires p < |a| && LineTurn(cb, st, a, p).Go?
    ensures LineTurn(cb, st, a + b, p) == LineTurn(cb, st, a, p)
  {
    var i := CrlfFrom(a, p).value;
    CrlfKept(a, b, p);
    SliceAppend(a, b, p, i);
    TakeLineKept(cb, Holding(st, st.scratch + a[p..i]), st.scratch + a[p..i], a, b, i + 2);
  }

  /** The data turn takes the rest of `a` and wants more. */
  predicate MidData(st: State, a: bytes, p: nat) {
    st.phase == ChunkDataPhase && |a| - p < st.length
  }

  /** A turn that goes on inside `a` is the same turn when more input follows. */
  lemma StepKept(cb: Setting, st: State, a: bytes, b: bytes, p: nat)
    requires p < |a| && Step(cb, st, a, p).Go? && !MidData(st, a, p)
    ensures Step(cb, st, a + b, p) == Step(cb, st, a, p)
  {
    if InLine(st) {
      LineTurnKept(cb, st, a, b, p);
    }
  }

  // --------------------------------------- turns that the first part leaves unfinished

  lemma ResumeBody(cb: Setting, st: State, a: bytes, b: bytes, p: nat)
    requires p < |a| && b != [] && |a| - p < st.length
    ensures Later(cb, BodyTurn(st, a + b, p), BodyTurn(st.(length := st.length - (|a| - p)), b, 0), |a|)
  {
  }

  lemma StrayAcross(a: bytes, b: bytes, k: nat)
    ensures CrlfAt(a + b, |a| + k) <==> CrlfAt(b, k)
    ensures Stray(a + b, |a| + k) == Stray(b, k)
  {
  }

  lemma ResumeData(cb: Setting, st: State, a: bytes, b: bytes, p: nat)
    requires p < |a| && b != [] && |a| - p < st.length && st.scratch == [] && st.phase == ChunkDataPhase
    ensures Later(cb, DataTurn(st, a + b, p), DataTurn(st.(length := st.length - (|a| - p)), b, 0), |a|)
  {
    StrayAcross(a, b, Least(|b|, st.length - (|a| - p)));
  }

  /** Before the end of a line arrives, only the scratch and the announcements change. */
  ghost predicate Opened(cb: Setting, st: State, st1: State) {
    && st1 == st.(scratch := st1.scratch, told := st1.told)
    && (st.phase != RequestLinePhase ==> st1.told.started == st.told.started)
    && (!cb.url ==> st1.told.url == st.told.url)
    && (st.phase != HeaderPhase || !cb.value ==> st1.told.value == st.told.value)
  }

  /** Position `n + k` of buffer `c` looks like position `k` of buffer `b`. */
  ghost predicate Shifted(c: bytes, b: bytes, n: nat, k: nat) {
    && |c| == n + |b| && k <= |b|
    && (CrlfAt(c, n + k) <==> CrlfAt(b, k)) && Stray(c, n + k) == Stray(b, k)
  }

  lemma ShiftedBy(a: bytes, b: bytes, k: nat)
    requires k <= |b|
    ensures Shifted(a + b, b, |a|, k)
  {
    StrayAcross(a, b, k);
  }

  lemma LaterSizeLine(cb: Setting, st: State, st1: State, line: bytes, c: bytes, b: bytes, n: nat, k: nat)
    requires Shifted(c, b, n, k) && st.phase == ChunkSizePhase && Opened(cb, st, st1)
    ensures Later(cb, TakeSizeLine(cb, st, line, c, n + k), TakeSizeLine(cb, st1, line, b, k), n)
  {
  }

  lemma LaterHeader(cb: Setting, st: State, st1: State, line: bytes, n: nat, k: nat)
    requires st.phase == HeaderPhase && Opened(cb, st, st1)
    ensures Later(cb, TakeHeader(cb, st, line, n + k), TakeHeader(cb, st1, line, k), n)
  {
  }

  /** A line finished by the second part is taken as if it had arrived at once. */
  lemma LaterTakeLine(cb: Setting, st: State, st1: State, line: bytes, c: bytes, b: bytes, n: nat, k: nat)
    requires Shifted(c, b, n, k) && InLine(st) && Opened(cb, st, st1)
    requires st.phase == HeaderPhase && line == [] ==> st1.told.value == st.told.value
    ensures Later(cb, TakeLine(cb, st, line, c, n + k), TakeLine(cb, st1, line, b, k), n)
  {
    match st.phase
    case ChunkSizePhase => LaterSizeLine(cb, st, st1, line, c, b, n, k);
    case HeaderPhase => LaterHeader(cb, st, st1, line, n, k);
    case _ =>
  }

  lemma ResumeKeepLine(cb: Setting, st: State, a: bytes, b: bytes, p: nat)
    requires p < |a| && b != [] && InLine(st) && Ready(cb, st) && KeepLine(cb, st, a, p).out.err.None?
    ensures Later(cb, KeepLine(cb, st, a + b, p), KeepLine(cb, KeepLine(cb, st, a, p).out.st, b, 0), |a|)
  {
    DropAppend(a, b, p);
    Assoc(st.scratch, a[p..], b);
    PartialValueGrows(st.scratch, a[p..]);
    PartialValueGrows(st.scratch + a[p..], b);
  }

  lemma LineInTwo(scratch: bytes, a: bytes, b: bytes, p: nat, j: nat)
    requires p <= |a| && j <= |b|
    ensures scratch + (a + b)[p..|a| + j] == scratch + a[p..] + b[0..j]
  {
  }

  /** The whole line, of which the end of the first part and what scratch held before are the beginning. */
  lemma ResumeWholeLine(cb: Setting, st: State, st1: State, c: bytes, b: bytes, n: nat, p: nat, j: nat, line: bytes)
    requires p < |c| && b != [] && InLine(st) && Opened(cb, st, st1) && st1.scratch != []
    requires CrlfFrom(b, 0) == Some(j) && CrlfFrom(c, p) == Some(n + j) && Shifted(c, b, n, j + 2)
    requires line == st1.scratch + b[0..j] && |line| <= SCRATCH
    requires st.scratch + c[p..n + j] == line
    ensures Later(cb, LineTurn(cb, st, c, p), LineTurn(cb, st1, b, 0), n)
  {
    assert |line| == |st.scratch| + n + j - p;
    LaterTakeLine(cb, Holding(st, line), Holding(st1, line), line, c, b, n, j + 2);
  }

  lemma ResumeLine(cb: Setting, st: State, a: bytes, b: bytes, p: nat)
    requires p < |a| && b != [] && InLine(st) && Ready(cb, st) && CrlfFrom(a, p).None?
    requires KeepLine(cb, st, a, p).out.err.None? && Whole(KeepLine(cb, st, a, p).out.seam, b)
    requires OpenLineFits(KeepLine(cb, st, a, p).out.st, b)
    ensures Later(cb, LineTurn(cb, st, a + b, p), LineTurn(cb, KeepLine(cb, st, a, p).out.st, b, 0), |a|)
  {
    CrlfBehind(a, b, p);
    match CrlfFrom(b, 0)
    case None => ResumeKeepLine(cb, st, a, b, p);
    case Some(j) =>
      LineInTwo(st.scratch, a, b, p, j);
      ShiftedBy(a, b, j + 2);
      ResumeWholeLine(cb, st, KeepLine(cb, st, a, p).out.st, a + b, b, |a|, p, j, st.scratch + a[p..] + b[0..j]);
  }

  // ------------------------------------------------ turns inside the second part

  lemma DropAcross(a: bytes, b: bytes, k: nat)
    requires k <= |b|
    ensures (a + b)[|a| + k..] == b[k..]
  {
  }

  lemma SliceAcross(a: bytes, b: bytes, m: nat, n: nat)
    requires m <= n <= |b|
    ensures (a + b)[|a| + m..|a| + n] == b[m..n]
  {
  }

  lemma KeepLineShift(cb: Setting, st: State, st1: State, c: bytes, b: bytes, n: nat, q: nat)
    requires q < |b| && |c| == n + |b| && c[n + q..] == b[q..] && c[|c| - 1] == b[|b| - 1]
    requires Same(cb, st, st1) && InLine(st)
    ensures Later(cb, KeepLine(cb, st, c, n + q), KeepLine(cb, st1, b, q), n)
  {
  }

  /** A line turn that finds its CRLF takes the line. */
  lemma LineTurnTakes(cb: Setting, st: State, c: bytes, p: nat, i: nat, line: bytes)
    requires p < |c| && CrlfFrom(c, p) == Some(i) && line == st.scratch + c[p..i] && (st.scratch == [] || |line| <= SCRATCH)
    ensures LineTurn(cb, st, c, p) == TakeLine(cb, Holding(st, line), line, c, i + 2)
  {
  }

  lemma TakenLineShift(cb: Setting, st: State, st1: State, c: bytes, b: bytes, n: nat, q: nat, j: nat)
    requires q < |b| && |c| == n + |b| && Same(cb, st, st1) && InLine(st)
    requires CrlfFrom(b, q) == Some(j) && CrlfFrom(c, n + q) == Some(n + j)
    requires Shifted(c, b, n, j + 2) && c[n + q..n + j] == b[q..j]
    ensures Later(cb, LineTurn(cb, st, c, n + q), LineTurn(cb, st1, b, q), n)
  {
    if st.scratch == [] || |st.scratch| + j - q <= SCRATCH {
      TakenShift(cb, st, st1, c, b, n, q, j, b[q..j], LineTurn(cb, st, c, n + q), LineTurn(cb, st1, b, q));
    } else {
      TooLong(cb, st, c, n + q, n + j);
      TooLong(cb, st1, b, q, j);
    }
  }

  lemma TakenShift(cb: Setting, st: State, st1: State, c: bytes, b: bytes, n: nat, q: nat, j: nat, segment: bytes, t: Turn, t1: Turn)
    requires q < |b| && |c| == n + |b| && Same(cb, st, st1) && InLine(st) && (st.scratch == [] || |st.scratch| + j - q <= SCRATCH)
    requires CrlfFrom(b, q) == Some(j) && CrlfFrom(c, n + q) == Some(n + j)
    requires Shifted(c, b, n, j + 2) && c[n + q..n + j] == segment && b[q..j] == segment
    requires t == LineTurn(cb, st, c, n + q) && t1 == LineTurn(cb, st1, b, q)
    ensures Later(cb, t, t1, n)
  {
    var line := st.scratch + segment;
    HoldingSame(cb, st, st1, line);
    LineTurnTakes(cb, st, c, n + q, n + j, line);
    LineTurnTakes(cb, st1, b, q, j, line);
    LaterTurns(cb, Holding(st, line), Holding(st1, line), line, c, b, n, j + 2, t, t1);
  }

  lemma HoldingSame(cb: Setting, st: State, st1: State, line: bytes)
    requires Same(cb, st, st1) && InLine(st)
    ensures var h, h1 := Holding(st, line), Holding(st1, line); InLine(h) && Opened(cb, h, h1) && h1.told.value == h.told.value
  {
  }

  lemma LaterTurns(cb: Setting, h: State, h1: State, line: bytes, c: bytes, b: bytes, n: nat, k: nat, t: Turn, t1: Turn)
    requires Shifted(c, b, n, k) && InLine(h) && Opened(cb, h, h1) && h1.told.value == h.told.value
    requires t == TakeLine(cb, h, line, c, n + k) && t1 == TakeLine(cb, h1, line, b, k)
    ensures Later(cb, t, t1, n)
  {
    LaterTakeLine(cb, h, h1, line, c, b, n, k);
  }

  lemma TooLong(cb: Setting, st: State, buf: bytes, p: nat, i: nat)
    requires p < |buf| && CrlfFrom(buf, p) == Some(i) && st.scratch != [] && |st.scratch| + i - p > SCRATCH
    ensures LineTurn(cb, st, buf, p) == Fail(st, ErrScratchOverflow)
  {
  }

  /** A turn does not depend on what precedes it in the buffer, nor on the URL offset. */
  lemma LineTurnShift(cb: Setting, st: State, st1: State, a: bytes, b: bytes, q: nat)
    requires q < |b| && Same(cb, st, st1) && InLine(st)
    ensures Later(cb, LineTurn(cb, st, a + b, |a| + q), LineTurn(cb, st1, b, q), |a|)
  {
    CrlfShift(a, b, q);
    match CrlfFrom(b, q)
    case None =>
      DropAcross(a, b, q);
      KeepLineShift(cb, st, st1, a + b, b, |a|, q);
    case Some(j) =>
      SliceAcross(a, b, q, j);
      ShiftedBy(a, b, j + 2);
      TakenLineShift(cb, st, st1, a + b, b, |a|, q, j);
  }

  lemma DataTurnShift(cb: Setting, st: State, st1: State, a: bytes, b: bytes, q: nat)
    requires q < |b| && Same(cb, st, st1) && st.phase == ChunkDataPhase
    ensures Later(cb, DataTurn(st, a + b, |a| + q), DataTurn(st1, b, q), |a|)
  {
    if 0 <= st.length {
      StrayAcross(a, b, q + Least(|b| - q, st.length));
    }
  }

  lemma StepShift(cb: Setting, st: State, st1: State, a: bytes, b: bytes, q: nat)
    requires q < |b| && Same(cb, st, st1)
    ensures Later(cb, Step(cb, st, a + b, |a| + q), Step(cb, st1, b, q), |a|)
  {
    if InLine(st) {
      LineTurnShift(cb, st, st1, a, b, q);
    } else if st.phase == ChunkDataPhase {
      DataTurnShift(cb, st, st1, a, b, q);
    } else {
      OtherTurnShift(cb, st, st1, a, b, q);
    }
  }

  lemma OtherTurnShift(cb: Setting, st: State, st1: State, a: bytes, b: bytes, q: nat)
    requires q < |b| && Same(cb, st, st1) && (st.phase == BodyPhase || st.phase == Idle)
    ensures Later(cb, Step(cb, st, a + b, |a| + q), Step(cb, st1, b, q), |a|)
  {
  }

  // ------------------------------------------------ runs, for any step function

  ghost predicate Advances(step: Stepper) {
    forall st: State, buf: bytes, p: nat ::
      step(st, buf, p).Go? ==> p < step(st, buf, p).next <= |buf|
  }

  /** Turns in a second part do not see the first one. */
  ghost predicate ShiftableAt(cb: Setting, step: Stepper, st: State, st1: State, a: bytes, b: bytes, q: nat) {
    q < |b| && Same(cb, st, st1) ==>
      Later(cb, step(st, a + b, |a| + q), step(st1, b, q), |a|)
  }

  ghost predicate Shiftable(cb: Setting, step: Stepper) {
    forall st: State, st1: State, a: bytes, b: bytes, q: nat :: ShiftableAt(cb, step, st, st1, a, b, q)
  }

  lemma {:induction false} LoopShift(cb: Setting, step: Stepper, st: State, st1: State, a: bytes, b: bytes, q: nat)
    requires Advances(step) && Shiftable(cb, step) && q <= |b| && Same(cb, st, st1)
    ensures Continues(cb, Loop(step, st, a + b, |a| + q), Loop(step, st1, b, q), |a|)
    decreases |b| - q
  {
    if q < |b| {
      var t, u := step(st, a + b, |a| + q), step(st1, b, q);
      assert ShiftableAt(cb, step, st, st1, a, b, q);
      if u.Go? {
        LoopShift(cb, step, t.st, u.st, a, b, u.next);
      }
    }
  }

  /** Turns that go on inside a first part do not see the second one. */
  ghost predicate KeepsAt(cb: Setting, step: Stepper, st: State, a: bytes, b: bytes, p: nat) {
    p < |a| && Ready(cb, st) && st.phase != Idle && step(st, a, p).Go? ==>
      var t := step(st, a, p);
      && Ready(cb, t.st) && t.st.phase != Idle
      && (!MidData(st, a, p) ==> step(st, a + b, p) == t)
  }

  ghost predicate Keeps(cb: Setting, step: Stepper) {
    forall st: State, a: bytes, b: bytes, p: nat :: KeepsAt(cb, step, st, a, b, p)
  }

  /** The input ended outside a terminator, `b` being what follows. */
  predicate Whole(seam: Seam, b: bytes) {
    seam == Clean || (seam == AfterCr && b != [] && b[0] != LF)
  }

  /** The call can be continued with `b`. */
  ghost predicate Rests(o: Outcome, b: bytes) {
    o.err.None? && Whole(o.seam, b) && o.st.phase != Idle && OpenLineFits(o.st, b)
  }

  /** The turn in which the first part ends is finished by the second. */
  ghost predicate ResumesAt(cb: Setting, step: Stepper, st: State, a: bytes, b: bytes, p: nat) {
    p < |a| && b != [] && Ready(cb, st) && st.phase != Idle && Rests(Loop(step, st, a, p), b)
    && (step(st, a, p).Stop? || MidData(st, a, p)) ==>
      Later(cb, step(st, a + b, p), step(Loop(step, st, a, p).st, b, 0), |a|)
  }

  ghost predicate Resumes(cb: Setting, step: Stepper) {
    forall st: State, a: bytes, b: bytes, p: nat :: ResumesAt(cb, step, st, a, b, p)
  }

  lemma {:induction false} LoopSplit(cb: Setting, step: Stepper, st: State, a: bytes, b: bytes, p: nat)
    requires Advances(step) && Shiftable(cb, step) && Keeps(cb, step) && Resumes(cb, step)
    requires p <= |a| && b != [] && Ready(cb, st) && st.phase != Idle
    requires Rests(Loop(step, st, a, p), b)
    ensures Continues(cb, Loop(step, st, a + b, p), Loop(step, Loop(step, st, a, p).st, b, 0), |a|)
    decreases |a| - p
  {
    if p == |a| {
      LoopShift(cb, step, st, st, a, b, 0);
    } else {
      var t := step(st, a, p);
      var w := step(st, a + b, p);
      assert KeepsAt(cb, step, st, a, b, p) && ResumesAt(cb, step, st, a, b, p);
      if t.Go? && !MidData(st, a, p) {
        LoopSplit(cb, step, t.st, a, b, t.next);
      } else {
        var st1 := Loop(step, st, a, p).st;
        var u := step(st1, b, 0);
        if u.Go? {
          LoopShift(cb, step, w.st, u.st, a, b, u.next);
        }
      }
    }
  }

  // -------------------------------------------------- the machine is such a step function

  lemma StepsAdvance(cb: Setting)
    ensures Advances(Steps(cb))
  {
  }

  lemma StepsAre(cb: Setting, st: State, buf: bytes, p: nat, t: Turn)
    requires Step(cb, st, buf, p) == t
    ensures Steps(cb)(st, buf, p) == t
  {
  }

  lemma ShiftableBy(cb: Setting, step: Stepper, st: State, st1: State, a: bytes, b: bytes, q: nat, t: Turn, u: Turn)
    requires step(st, a + b, |a| + q) == t && step(st1, b, q) == u && Later(cb, t, u, |a|)
    ensures ShiftableAt(cb, step, st, st1, a, b, q)
  {
  }

  lemma StepsShiftAt(cb: Setting, st: State, st1: State, a: bytes, b: bytes, q: nat)
    ensures ShiftableAt(cb, Steps(cb), st, st1, a, b, q)
  {
    if q < |b| && Same(cb, st, st1) {
      var t, u := Step(cb, st, a + b, |a| + q), Step(cb, st1, b, q);
      StepShift(cb, st, st1, a, b, q);
      StepsAre(cb, st, a + b, |a| + q, t);
      StepsAre(cb, st1, b, q, u);
      ShiftableBy(cb, Steps(cb), st, st1, a, b, q, t, u);
    }
  }

  lemma StepsShift(cb: Setting)
    ensures Shiftable(cb, Steps(cb))
  {
    forall st: State, st1: State, a: bytes, b: bytes, q: nat ensures ShiftableAt(cb, Steps(cb), st, st1, a, b, q) {
      StepsShiftAt(cb, st, st1, a, b, q);
    }
  }

  lemma StepsKeep(cb: Setting)
    ensures Keeps(cb, Steps(cb))
  {
    forall st: State, a: bytes, b: bytes, p: nat ensures KeepsAt(cb, Steps(cb), st, a, b, p) {
      if p < |a| && Ready(cb, st) && st.phase != Idle && Steps(cb)(st, a, p).Go? {
        StepReady(cb, st, a, p);
        if !MidData(st, a, p) {
          StepKept(cb, st, a, b, p);
        }
      }
    }
  }

  /** A line turn that ends the call cleanly without ending the message has met no CRLF. */
  lemma StopsOnlyOnOpenLine(cb: Setting, st: State, a: bytes, p: nat)
    requires p < |a| && InLine(st) && LineTurn(cb, st, a, p).Stop?
    requires var o := LineTurn(cb, st, a, p).out; o.err.None? && o.seam != Torn && o.st.phase != Idle
    ensures CrlfFrom(a, p).None?
  {
  }

  /** The state a call is left in by the turn in which its buffer ends. */
  lemma EndTurn(cb: Setting, st: State, a: bytes, p: nat)
    requires p < |a| && (Step(cb, st, a, p).Stop? || MidData(st, a, p)) && Ready(cb, st)
    ensures Step(cb, st, a, p).Stop? ==> Loop(Steps(cb), st, a, p) == Step(cb, st, a, p).out
    ensures MidData(st, a, p) ==> Loop(Steps(cb), st, a, p) == Outcome(st.(length := st.length - (|a| - p)), |a|, None, Clean)
  {
    if MidData(st, a, p) {
      assert Step(cb, st, a, p) == Go(st.(length := st.length - (|a| - p)), |a|);
    }
  }

  lemma ResumeStep(cb: Setting, st: State, a: bytes, b: bytes, p: nat, o: Outcome)
    requires p < |a| && b != [] && Ready(cb, st) && st.phase != Idle && Rests(o, b)
    requires if MidData(st, a, p) then o.st == st.(length := st.length - (|a| - p)) else Step(cb, st, a, p) == Stop(o)
    ensures Later(cb, Step(cb, st, a + b, p), Step(cb, o.st, b, 0), |a|)
  {
    match st.phase
    case BodyPhase => ResumeBody(cb, st, a, b, p);
    case ChunkDataPhase => ResumeData(cb, st, a, b, p);
    case _ =>
      StopsOnlyOnOpenLine(cb, st, a, p);
      ResumeLine(cb, st, a, b, p);
  }

  lemma StepsResume(cb: Setting)
    ensures Resumes(cb, Steps(cb))
  {
    forall st: State, a: bytes, b: bytes, p: nat ensures ResumesAt(cb, Steps(cb), st, a, b, p) {
      if p < |a| && b != [] && Ready(cb, st) && st.phase != Idle && Rests(Loop(Steps(cb), st, a, p), b)
         && (Steps(cb)(st, a, p).Stop? || MidData(st, a, p)) {
        EndTurn(cb, st, a, p);
        ResumeStep(cb, st, a, b, p, Loop(Steps(cb), st, a, p));
      }
    }
  }

  /** Split invariance: after a first call that ended cleanly inside a message, the second call
      ends as one call on the whole input would have ended. */
  lemma SplitInvariance(cb: Setting, st: State, a: bytes, b: bytes)
    requires a != [] && b != [] && Ready(cb, st) && st.phase != Idle
    requires Rests(Run(cb, st, a, 0), b)
    ensures Continues(cb, Run(cb, st, a + b, 0), Run(cb, Run(cb, st, a, 0).st, b, 0), |a|)
  {
    StepsAdvance(cb);
    StepsShift(cb);
    StepsKeep(cb);
    StepsResume(cb);
    LoopSplit(cb, Steps(cb), st, a, b, 0);
  }

  /** The URL offset, in which two states may differ, changes nothing else. */
  lemma SameRuns(cb: Setting, st: State, st1: State, b: bytes)
    requires Same(cb, st, st1)
    ensures Continues(cb, Run(cb, st, b, 0), Run(cb, st1, b, 0), 0)
  {
    StepsAdvance(cb);
    StepsShift(cb);
    LoopShift(cb, Steps(cb), st, st1, [], b, 0);
    EmptyAppend(b);
  }

  lemma ContinuesTwice(cb: Setting, o: Outcome, p: Outcome, q: Outcome, a: nat)
    requires Continues(cb, o, p, a) && Continues(cb, p, q, 0)
    ensures Continues(cb, o, q, a)
  {
  }

  // ------------------------------------------------------------------ any number of pieces

  type Feeder = (State, bytes) -> Outcome

  function Feeds(cb: Setting): (feed: Feeder) {
    (st: State, buf: bytes) => Feed(cb, st, buf)
  }

  /** The outcome of the last of a series of calls, one for each piece. */
  function Series(feed: Feeder, st: State, pieces: seq<bytes>): (o: Outcome)
    decreases |pieces|
  {
    if pieces == [] then Outcome(st, 0, None, Clean)
    else
      var n := |pieces| - 1;
      feed(Series(feed, st, pieces[..n]).st, pieces[n])
  }

  function After(cb: Setting, st: State, pieces: seq<bytes>): (o: Outcome) {
    Series(Feeds(cb), st, pieces)
  }

  lemma AfterNext(cb: Setting, st: State, pieces: seq<bytes>, j: nat)
    requires j < |pieces|
    ensures After(cb, st, pieces[..j + 1]) == Feed(cb, After(cb, st, pieces[..j]).st, pieces[j])
    ensures j == 0 ==> After(cb, st, pieces[..j]).st == st
  {
    assert pieces[..j + 1][..j] == pieces[..j];
  }

  /** Piece `i` finds the machine inside the message and outside every terminator. */
  ghost predicate RestsBefore(cb: Setting, st: State, pieces: seq<bytes>, i: nat) {
    0 < i < |pieces| ==> Rests(Run(cb, Start(st), Concat(pieces[..i]), 0), pieces[i])
  }

  /** No piece ends the message early or inside a terminator. */
  ghost predicate Unbroken(cb: Setting, st: State, pieces: seq<bytes>) {
    && Ready(cb, Start(st))
    && (forall i | 0 <= i < |pieces| :: pieces[i] != [])
    && (forall i: nat {:trigger RestsBefore(cb, st, pieces, i)} :: RestsBefore(cb, st, pieces, i))
  }

  /** Call by call, the pieces lead where one call on all of them leads. */
  lemma {:induction false} PiecesAsOne(cb: Setting, st: State, pieces: seq<bytes>, j: nat)
    requires Unbroken(cb, st, pieces) && 0 < j <= |pieces|
    ensures Continues(cb, Run(cb, Start(st), Concat(pieces[..j]), 0), After(cb, st, pieces[..j]), |Concat(pieces[..j - 1])|)
    decreases j
  {
    var a, b := Concat(pieces[..j - 1]), pieces[j - 1];
    PiecesNext(pieces, j - 1);
    AfterNext(cb, st, pieces, j - 1);
    if j == 1 {
      EmptyAppend(b);
    } else {
      var w, o := Run(cb, Start(st), a, 0), After(cb, st, pieces[..j - 1]);
      assert RestsBefore(cb, st, pieces, j - 1);
      PiecesAsOne(cb, st, pieces, j - 1);
      PieceCut(Concat(pieces), pieces, j - 1);
      SplitInvariance(cb, Start(st), a, b);
      SameRuns(cb, w.st, o.st, b);
      ContinuesTwice(cb, Run(cb, Start(st), a + b, 0), Run(cb, w.st, b, 0), Run(cb, o.st, b, 0), |a|);
    }
  }

  // ------------------------------------------------------- every other cut shows

  /** A continuation that tells a cut inside a terminator from no cut. */
  function Witness(scratch: bytes): (w: bytes)
    ensures w != []
  {
    if scratch == [] then CRLF else [LF]
  }

  lemma JoinCr(a: bytes, p: nat)
    requires p < |a| && CrlfFrom(a, p).None? && a[|a| - 1] == CR
    ensures CrlfFrom(a + [LF], p) == Some(|a| - 1)
  {
    CrlfFound(a, p);
    forall j | p <= j < |a| - 1 ensures !CrlfAt(a + [LF], j) { assert !CrlfAt(a, j); }
    CrlfIs(a + [LF], p, |a| - 1);
  }

  /** A line that ends the buffer leaves no scratch behind, or fails. */
  lemma TakenAtEnd(cb: Setting, st: State, c: bytes, p: nat)
    requires p < |c| && InLine(st) && CrlfFrom(c, p) == Some(|c| - 2) && |st.scratch| + |c| - 2 - p <= SCRATCH
    ensures var o := Loop(Steps(cb), st, c, p);
            o.err != Some(ErrScratchOverflow) && (o.err.None? ==> o.st.scratch == [])
  {
  }

  /** What a call on the single byte LF does to a line left open. */
  lemma LoneLf(cb: Setting, st: State)
    requires InLine(st)
    ensures var o := Loop(Steps(cb), st, [LF], 0);
            if |st.scratch| + 1 > SCRATCH then o.err == Some(ErrScratchOverflow)
            else o.err.None? && o.st.scratch != [] && o.st.phase == st.phase && o.st.done == st.done
  {
    assert CrlfFrom([LF], 0).None?;
    assert [LF][0..] == [LF];
  }

  lemma Differ(cb: Setting, o: Outcome, p: Outcome, a: nat)
    requires o.err != p.err || (o.err.None? && o.st.scratch != p.st.scratch)
    ensures !Continues(cb, o, p, a)
  {
  }

  lemma CrShows(cb: Setting, st: State, a: bytes, p: nat, o: Outcome)
    requires p < |a| && InLine(st) && CrlfFrom(a, p).None? && KeepLine(cb, st, a, p) == Stop(o)
    requires o.err.None? && o.seam == AfterCr
    ensures !Continues(cb, Loop(Steps(cb), st, a + [LF], p), Loop(Steps(cb), o.st, [LF], 0), |a|)
  {
    JoinCr(a, p);
    LoneLf(cb, o.st);
    TakenAtEnd(cb, st, a + [LF], p);
    Differ(cb, Loop(Steps(cb), st, a + [LF], p), Loop(Steps(cb), o.st, [LF], 0), |a|);
  }

  /** An empty size line is refused. */
  lemma EmptySizeLine(cb: Setting, st: State)
    requires st.phase == ChunkSizePhase && st.scratch == [] && cb.lines.size([]).None?
    ensures Loop(Steps(cb), st, CRLF, 0).err == Some(ErrChunkSize)
  {
    assert CrlfFrom(CRLF, 0) == Some(0);
    assert CRLF[0..0] == [];
  }

  /** The end of a chunk whose CRLF is cut off at `k`. */
  lemma TornWhole(cb: Setting, st: State, a: bytes, p: nat, k: nat)
    requires p < |a| && k <= |a| < k + 2 && Ready(cb, st)
    requires st.phase == ChunkDataPhase && st.length == k - p
    ensures var s := Stray(a, k);
            var o := Loop(Steps(cb), st, a + Witness(s), p);
            if s == [] || s == [CR] then o.err.None? && o.st.scratch == [] else o.err == Some(ErrChunkSize)
  {
    var c := a + Witness(Stray(a, k));
    assert Stray(a, k) == [] || Stray(a, k) == [CR] <==> CrlfAt(c, k);
  }

  /** The zero chunk whose final CRLF is cut off at `i + 2`. */
  lemma TornLast(cb: Setting, st: State, c: bytes, p: nat, i: nat)
    requires p < |c| && st.phase == ChunkSizePhase && CrlfFrom(c, p) == Some(i) && i + 4 <= |c|
    requires st.scratch != [] ==> |st.scratch| + i - p <= SCRATCH
    requires cb.lines.size(st.scratch + c[p..i]) == Some(0)
    ensures var o := Loop(Steps(cb), st, c, p);
            if CrlfAt(c, i + 2) then o.err.None? && o.st.phase == Idle && o.st.scratch == [] else o.err == Some(ErrChunkSize)
  {
  }

  lemma TornCrlf(a: bytes, k: nat)
    requires k <= |a| < k + 2
    ensures CrlfAt(a + Witness(Stray(a, k)), k) <==> Stray(a, k) == [] || Stray(a, k) == [CR]
  {
  }

  /** The continuation finds the machine in the middle of a size line. */
  lemma TornNext(cb: Setting, st: State)
    requires st.phase == ChunkSizePhase && |st.scratch| <= 1 && cb.lines.size([]).None?
    ensures var o := Loop(Steps(cb), st, Witness(st.scratch), 0);
            if st.scratch == [] then o.err == Some(ErrChunkSize) else o.err.None? && o.st.scratch != []
  {
    if st.scratch == [] {
      EmptySizeLine(cb, st);
    } else {
      LoneLf(cb, st);
    }
  }

  lemma TornDataShows(cb: Setting, st: State, a: bytes, p: nat, o: Outcome)
    requires p < |a| && Ready(cb, st) && DataTurn(st, a, p) == Stop(o) && o.seam == Torn && o.err.None?
    requires st.phase == ChunkDataPhase && cb.lines.size([]).None?
    ensures var w := Witness(o.st.scratch);
            !Continues(cb, Loop(Steps(cb), st, a + w, p), Loop(Steps(cb), o.st, w, 0), |a|)
  {
    EmptyAppend(Stray(a, p + st.length));
    TornNext(cb, o.st);
    TornWhole(cb, st, a, p, p + st.length);
  }

  lemma TornLineShows(cb: Setting, st: State, a: bytes, p: nat, o: Outcome)
    requires p < |a| && LineTurn(cb, st, a, p) == Stop(o) && o.seam == Torn && o.err.None?
    requires st.phase == ChunkSizePhase && cb.lines.size([]).None?
    ensures var w := Witness(o.st.scratch);
            !Continues(cb, Loop(Steps(cb), st, a + w, p), Loop(Steps(cb), o.st, w, 0), |a|)
  {
    var i, w := CrlfFrom(a, p).value, Witness(o.st.scratch);
    assert o.st.phase == ChunkSizePhase && o.st.scratch == Stray(a, i + 2);
    TornNext(cb, o.st);
    CrlfKept(a, w, p);
    SliceAppend(a, w, p, i);
    TornCrlf(a, i + 2);
    TornLast(cb, st, a + w, p, i);
  }

  lemma TornShows(cb: Setting, st: State, a: bytes, p: nat, o: Outcome)
    requires p < |a| && Ready(cb, st) && Step(cb, st, a, p) == Stop(o) && o.seam == Torn && o.err.None?
    requires cb.lines.size([]).None?
    ensures var w := Witness(o.st.scratch);
            !Continues(cb, Loop(Steps(cb), st, a + w, p), Loop(Steps(cb), o.st, w, 0), |a|)
  {
    if st.phase == ChunkDataPhase {
      TornDataShows(cb, st, a, p, o);
    } else {
      TornLineShows(cb, st, a, p, o);
    }
  }

  /** A cut behind a CR or inside a terminator changes what some continuation does, so a cut is
      harmless for every continuation exactly when the call ended cleanly. */
  lemma {:induction false} CutShows(cb: Setting, st: State, a: bytes, p: nat)
    requires p <= |a| && Ready(cb, st) && st.phase != Idle && cb.lines.size([]).None?
    requires Run(cb, st, a, p).err.None? && Run(cb, st, a, p).seam != Clean
    ensures var o := Run(cb, st, a, p);
            var w := if o.seam == AfterCr then [LF] else Witness(o.st.scratch);
            !Continues(cb, Run(cb, st, a + w, p), Run(cb, o.st, w, 0), |a|)
    decreases |a| - p
  {
    var o := Run(cb, st, a, p);
    var w := if o.seam == AfterCr then [LF] else Witness(o.st.scratch);
    match Step(cb, st, a, p)
    case Stop(_) =>
      if o.seam == Torn {
        TornShows(cb, st, a, p, o);
      } else {
        CrShows(cb, st, a, p, o);
      }
    case Go(st', next) =>
      StepReady(cb, st, a, p);
      if MidData(st, a, p) {
        EndTurn(cb, st, a, p);
      } else {
        StepKept(cb, st, a, w, p);
        CutShows(cb, st', a, next);
      }
  }

  /** Whatever follows, two calls end as one call would. */
  ghost predicate Harmless(cb: Setting, st: State, a: bytes) {
    var o := Run(cb, st, a, 0);
    forall b: bytes | b != [] && OpenLineFits(o.st, b) ::
      Continues(cb, Run(cb, st, a + b, 0), Run(cb, o.st, b, 0), |a|)
  }

  lemma HarmlessExactlyWhenClean(cb: Setting, st: State, a: bytes)
    requires a != [] && Ready(cb, st) && st.phase != Idle && cb.lines.size([]).None?
    requires Run(cb, st, a, 0).err.None? && Run(cb, st, a, 0).st.phase != Idle
    ensures Harmless(cb, st, a) <==> Run(cb, st, a, 0).seam == Clean
  {
    var o := Run(cb, st, a, 0);
    if o.seam == Clean {
      forall b: bytes | b != [] && OpenLineFits(o.st, b)
        ensures Continues(cb, Run(cb, st, a + b, 0), Run(cb, o.st, b, 0), |a|)
      {
        SplitInvariance(cb, st, a, b);
      }
    } else {
      var w := if o.seam == AfterCr then [LF] else Witness(o.st.scratch);
      CutShows(cb, st, a, 0);
      assert OpenLineFits(o.st, w);
    }
  }
}
