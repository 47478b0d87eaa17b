/** Cutting the input at a clean point changes the callbacks only in how values and body data are
    cut into fragments. */
module SplitEvents {
  import opened Bytes
  import opened Grammar
  import opened Events
  import opened Machine
  import opened Split

  /** Header values are what follows the colon and the spaces behind it, as in internal/parser. */
  ghost predicate PlainValues(g: LineGrammar) {
    forall l: bytes :: g.header(l).Some? ==> g.header(l).value.value == PartialValue(l)
  }

  /** A call that ends in this state has not told a part of a value before the name of its header, or
      the callbacks are compared in a way that does not see it. */
  ghost predicate Smooth(view: View, cb: Setting, st: State) {
    view == Totals || !cb.field || !cb.value || st.phase != HeaderPhase || PartialValue(st.scratch) == []
  }

  /** While a line is taken, scratch does not matter to what is told. */
  lemma SaysHolds(cb: Setting, st: State, line: bytes, buf: bytes, k: nat)
    ensures LineSays(cb, Holding(st, line), line, buf, k) == LineSays(cb, st, line, buf, k)
  {
  }

  // ------------------------------- runs, for any step function and any likeness of callbacks

  ghost predicate TellsShiftAt(cb: Setting, like: Likeness, says: Teller, st: State, st1: State, a: bytes, b: bytes, q: nat) {
    q < |b| && Same(cb, st, st1) ==> like(says(st, a + b, |a| + q), says(st1, b, q))
  }

  ghost predicate TellsShift(cb: Setting, like: Likeness, says: Teller) {
    forall st: State, st1: State, a: bytes, b: bytes, q: nat :: TellsShiftAt(cb, like, says, st, st1, a, b, q)
  }

  lemma {:induction false} TaleShift(cb: Setting, like: Likeness, step: Stepper, says: Teller, st: State, st1: State, a: bytes, b: bytes, q: nat)
    requires Appends(like) && Advances(step) && Shiftable(cb, step) && TellsShift(cb, like, says) && q <= |b| && Same(cb, st, st1)
    ensures like(Tale(step, says, st, a + b, |a| + q), Tale(step, says, st1, b, q))
    decreases |b| - q
  {
    if q < |b| {
      var t, u := step(st, a + b, |a| + q), step(st1, b, q);
      var x, y := says(st, a + b, |a| + q), says(st1, b, q);
      assert ShiftableAt(cb, step, st, st1, a, b, q) && TellsShiftAt(cb, like, says, st, st1, a, b, q);
      if u.Go? {
        TaleShift(cb, like, step, says, t.st, u.st, a, b, u.next);
        assert AppendsAt(like, x, y, Tale(step, says, t.st, a + b, t.next), Tale(step, says, u.st, b, u.next));
      } else {
        EmptyAppend(x);
        EmptyAppend(y);
      }
    }
  }

  ghost predicate TellsKeepAt(step: Stepper, says: Teller, st: State, a: bytes, b: bytes, p: nat) {
    p < |a| && step(st, a, p).Go? && !MidData(st, a, p) ==> says(st, a + b, p) == says(st, a, p)
  }

  ghost predicate TellsKeep(step: Stepper, says: Teller) {
    forall st: State, a: bytes, b: bytes, p: nat :: TellsKeepAt(step, says, st, a, b, p)
  }

  /** The turn in which the first part ends tells its share, and the second part the rest. */
  ghost predicate TellsResumeAt(view: View, cb: Setting, like: Likeness, step: Stepper, says: Teller, st: State, a: bytes, b: bytes, p: nat) {
    p < |a| && b != [] && Ready(cb, st) && st.phase != Idle && Rests(Loop(step, st, a, p), b)
    && (step(st, a, p).Stop? || MidData(st, a, p)) && (step(st, a + b, p).Stop? ==> step(st, a + b, p).out.err.None?)
    && Smooth(view, cb, Loop(step, st, a, p).st) ==>
      like(says(st, a + b, p), says(st, a, p) + says(Loop(step, st, a, p).st, b, 0))
  }

  ghost predicate TellsResume(view: View, cb: Setting, like: Likeness, step: Stepper, says: Teller) {
    forall st: State, a: bytes, b: bytes, p: nat :: TellsResumeAt(view, cb, like, step, says, st, a, b, p)
  }

  /** A data turn that wants more takes all there is. */
  ghost predicate TakesAllAt(step: Stepper, st: State, a: bytes, p: nat) {
    p < |a| && MidData(st, a, p) && step(st, a, p).Go? ==> step(st, a, p).next == |a|
  }

  ghost predicate TakesAll(step: Stepper) {
    forall st: State, a: bytes, p: nat :: TakesAllAt(step, st, a, p)
  }

  /** From the turn in which the first part ends. */
  lemma TaleResumes(view: View, cb: Setting, like: Likeness, step: Stepper, says: Teller, st: State, a: bytes, b: bytes, p: nat)
    requires Appends(like) && Advances(step) && Shiftable(cb, step) && Resumes(cb, step) && TakesAll(step)
    requires TellsShift(cb, like, says) && TellsResume(view, cb, like, step, says)
    requires p < |a| && b != [] && Ready(cb, st) && st.phase != Idle && Rests(Loop(step, st, a, p), b)
    requires step(st, a, p).Stop? || MidData(st, a, p)
    requires Loop(step, st, a + b, p).err.None? && Smooth(view, cb, Loop(step, st, a, p).st)
    ensures like(Tale(step, says, st, a + b, p), Tale(step, says, st, a, p) + Tale(step, says, Loop(step, st, a, p).st, b, 0))
  {
    var st1 := Loop(step, st, a, p).st;
    var w, u := step(st, a + b, p), step(st1, b, 0);
    assert ResumesAt(cb, step, st, a, b, p) && TellsResumeAt(view, cb, like, step, says, st, a, b, p) && TakesAllAt(step, st, a, p);
    var x, y, z := says(st, a + b, p), says(st, a, p), says(st1, b, 0);
    EmptyAppend(x);
    EmptyAppend(y);
    EmptyAppend(z);
    if u.Go? {
      var tail, tail1 := Tale(step, says, w.st, a + b, w.next), Tale(step, says, u.st, b, u.next);
      TaleShift(cb, like, step, says, w.st, u.st, a, b, u.next);
      assert AppendsAt(like, x, y + z, tail, tail1);
      Assoc(y, z, tail1);
    }
  }

  lemma {:induction false} TaleSplit(view: View, cb: Setting, like: Likeness, step: Stepper, says: Teller, st: State, a: bytes, b: bytes, p: nat)
    requires Appends(like) && Advances(step) && Shiftable(cb, step) && Keeps(cb, step) && Resumes(cb, step) && TakesAll(step)
    requires TellsShift(cb, like, says) && TellsKeep(step, says) && TellsResume(view, cb, like, step, says)
    requires p <= |a| && b != [] && Ready(cb, st) && st.phase != Idle && Rests(Loop(step, st, a, p), b)
    requires Loop(step, st, a + b, p).err.None? && Smooth(view, cb, Loop(step, st, a, p).st)
    ensures like(Tale(step, says, st, a + b, p), Tale(step, says, st, a, p) + Tale(step, says, Loop(step, st, a, p).st, b, 0))
    decreases |a| - p
  {
    var z := Tale(step, says, Loop(step, st, a, p).st, b, 0);
    if p == |a| {
      TaleShift(cb, like, step, says, st, st, a, b, 0);
      EmptyAppend(z);
    } else {
      var t := step(st, a, p);
      if t.Go? && !MidData(st, a, p) {
        assert KeepsAt(cb, step, st, a, b, p) && TellsKeepAt(step, says, st, a, b, p);
        TaleSplit(view, cb, like, step, says, t.st, a, b, t.next);
        var e, x, y := says(st, a, p), Tale(step, says, t.st, a + b, t.next), Tale(step, says, t.st, a, t.next);
        assert like(e, e) && AppendsAt(like, e, e, x, y + z);
        Assoc(e, y, z);
      } else {
        TaleResumes(view, cb, like, step, says, st, a, b, p);
      }
    }
  }

  // ----------------------------------------------------------------- single turns

  lemma OneEvent(e: Event)
    ensures Names([e]) == (if e.Field? then [e.name] else [])
    ensures Values([e]) == (if e.Value? then e.part else [])
    ensures BodyOf([e]) == (if e.BodyPart? then e.part else [])
    ensures UrlOf([e]) == (if e.Url? then e.part else [])
    ensures forall f :: Count([e], f) == if e == f then 1 else 0
  {
    assert [e][1..] == [];
  }

  lemma OneJoined(e: Event)
    ensures Joined([e]) == if Mute(e) then [] else [e]
  {
    assert [e][1..] == [] && Onto([e][1..], []) == [];
    EmptyAppend([e]);
  }

  /** Two fragments that follow each other are one. */
  lemma TwoJoined(x: bytes, y: bytes)
    ensures Joined([Value(x), Value(y)]) == Joined([Value(x + y)])
    ensures Joined([BodyPart(x), BodyPart(y)]) == Joined([BodyPart(x + y)])
  {
    OneJoined(Value(x + y));
    OneJoined(BodyPart(x + y));
    OneJoined(Value(y));
    OneJoined(BodyPart(y));
    assert [Value(x), Value(y)][1..] == [Value(y)] && [BodyPart(x), BodyPart(y)][1..] == [BodyPart(y)];
    EmptyAppend(x);
    EmptyAppend(y);
  }

  /** Begin and Url callbacks do not matter to `Alike`. */
  lemma StartsAlike(view: View, c: bool, on: bool, v: bytes, offset: nat)
    ensures Alike(view, When(c, Begin) + UrlRest(on, v, offset), [])
  {
    JoinedParts(When(c, Begin), UrlRest(on, v, offset));
    OntoAppend(When(c, Begin), UrlRest(on, v, offset), []);
    OneEvent(Begin);
    OneJoined(Begin);
    if on && offset < |v| {
      OneEvent(Url(v[offset..]));
      OneJoined(Url(v[offset..]));
    }
  }

  lemma TakenLineKept(cb: Setting, st: State, line: bytes, a: bytes, b: bytes, k: nat)
    requires k <= |a| && TakeLine(cb, st, line, a, k).Go?
    ensures LineSays(cb, st, line, a + b, k) == LineSays(cb, st, line, a, k)
  {
  }

  lemma TellKept(cb: Setting, st: State, a: bytes, b: bytes, p: nat)
    requires p < |a| && Step(cb, st, a, p).Go? && !MidData(st, a, p)
    ensures StepSays(cb, st, a + b, p) == StepSays(cb, st, a, p)
  {
    if InLine(st) {
      var i := CrlfFrom(a, p).value;
      CrlfKept(a, b, p);
      SliceAppend(a, b, p, i);
      var line := st.scratch + a[p..i];
      TakenLineKept(cb, Holding(st, line), line, a, b, i + 2);
      assert LineSays(cb, Holding(st, line), line, a, i + 2) == LineSays(cb, st, line, a, i + 2);
      assert LineSays(cb, Holding(st, line), line, a + b, i + 2) == LineSays(cb, st, line, a + b, i + 2);
    } else if 0 < st.length {
      SliceAppend(a, b, p, p + st.length);
    }
  }

  /** Callbacks for a finished line, in two buffers that look alike behind it. */
  lemma LineShift(view: View, cb: Setting, st: State, st1: State, line: bytes, c: bytes, b: bytes, n: nat, k: nat)
    requires Shifted(c, b, n, k) && InLine(st) && Same(cb, st, st1)
    ensures Alike(view, LineSays(cb, st, line, c, n + k), LineSays(cb, st1, line, b, k))
  {
    if st.phase == RequestLinePhase && cb.lines.request(line).Some? {
      var v := cb.lines.request(line).value.target;
      StartsAlike(view, cb.begin, cb.url, v, st.told.url);
      StartsAlike(view, cb.begin, cb.url, v, st1.told.url);
    }
  }

  lemma OpenLineShift(view: View, cb: Setting, st: State, st1: State, line: bytes)
    requires Same(cb, st, st1)
    ensures Alike(view, OpenLineSays(cb, st.phase, st.told, line), OpenLineSays(cb, st1.phase, st1.told, line))
  {
    if st.phase == RequestLinePhase {
      StartsAlike(view, cb.begin && !st.told.started, cb.url, AfterSpace(line), st.told.url);
      StartsAlike(view, cb.begin && !st.told.started, cb.url, AfterSpace(line), st1.told.url);
    }
  }

  /** What is to be shown about the line at `q` of `b`. */
  ghost predicate LineToldAlike(cb: Setting, like: Likeness, st: State, st1: State, c: bytes, b: bytes, n: nat, q: nat)
    requires q < |b|
  {
    match CrlfFrom(b, q)
    case None => like(OpenLineSays(cb, st.phase, st.told, st.scratch + b[q..]), OpenLineSays(cb, st1.phase, st1.told, st.scratch + b[q..]))
    case Some(j) => like(LineSays(cb, st, st.scratch + b[q..j], c, n + j + 2), LineSays(cb, st1, st.scratch + b[q..j], b, j + 2))
  }

  lemma LineToldBy(cb: Setting, like: Likeness, st: State, st1: State, c: bytes, b: bytes, n: nat, q: nat, line: bytes)
    requires q < |b|
    requires CrlfFrom(b, q).None? ==>
               line == st.scratch + b[q..] && like(OpenLineSays(cb, st.phase, st.told, line), OpenLineSays(cb, st1.phase, st1.told, line))
    requires CrlfFrom(b, q).Some? ==>
               var j := CrlfFrom(b, q).value;
               line == st.scratch + b[q..j] && like(LineSays(cb, st, line, c, n + j + 2), LineSays(cb, st1, line, b, j + 2))
    ensures LineToldAlike(cb, like, st, st1, c, b, n, q)
  {
  }

  lemma OpenLineTold(view: View, cb: Setting, st: State, st1: State, c: bytes, b: bytes, n: nat, q: nat)
    requires q < |b| && Same(cb, st, st1) && CrlfFrom(b, q).None?
    ensures LineToldAlike(cb, LIKE(view), st, st1, c, b, n, q)
  {
    OpenLineShift(view, cb, st, st1, st.scratch + b[q..]);
    LineToldBy(cb, LIKE(view), st, st1, c, b, n, q, st.scratch + b[q..]);
  }

  lemma TakenLineTold(view: View, cb: Setting, st: State, st1: State, c: bytes, b: bytes, n: nat, q: nat, j: nat)
    requires q < |b| && Same(cb, st, st1) && InLine(st) && CrlfFrom(b, q) == Some(j) && Shifted(c, b, n, j + 2)
    ensures LineToldAlike(cb, LIKE(view), st, st1, c, b, n, q)
  {
    LineShift(view, cb, st, st1, st.scratch + b[q..j], c, b, n, j + 2);
    LineToldBy(cb, LIKE(view), st, st1, c, b, n, q, st.scratch + b[q..j]);
  }

  lemma OpenTellShift(cb: Setting, like: Likeness, st: State, st1: State, c: bytes, b: bytes, n: nat, q: nat)
    requires q < |b| && |c| == n + |b| && Same(cb, st, st1) && like([], []) && LineToldAlike(cb, like, st, st1, c, b, n, q)
    requires CrlfFrom(b, q).None? && CrlfFrom(c, n + q).None? && c[n + q..] == b[q..]
    ensures like(LineTurnSays(cb, st, c, n + q), LineTurnSays(cb, st1, b, q))
  {
  }

  lemma TakenTellShift(cb: Setting, like: Likeness, st: State, st1: State, c: bytes, b: bytes, n: nat, q: nat, j: nat)
    requires q < |b| && |c| == n + |b| && Same(cb, st, st1) && like([], []) && LineToldAlike(cb, like, st, st1, c, b, n, q)
    requires CrlfFrom(b, q) == Some(j) && CrlfFrom(c, n + q) == Some(n + j) && c[n + q..n + j] == b[q..j]
    ensures like(LineTurnSays(cb, st, c, n + q), LineTurnSays(cb, st1, b, q))
  {
  }

  lemma OpenTurnTellShift(view: View, cb: Setting, st: State, st1: State, c: bytes, b: bytes, n: nat, q: nat)
    requires q < |b| && |c| == n + |b| && Same(cb, st, st1)
    requires CrlfFrom(b, q).None? && CrlfFrom(c, n + q).None? && c[n + q..] == b[q..]
    ensures LIKE(view)(LineTurnSays(cb, st, c, n + q), LineTurnSays(cb, st1, b, q))
  {
    OpenLineTold(view, cb, st, st1, c, b, n, q);
    OpenTellShift(cb, LIKE(view), st, st1, c, b, n, q);
  }

  lemma TakenTurnTellShift(view: View, cb: Setting, st: State, st1: State, c: bytes, b: bytes, n: nat, q: nat, j: nat)
    requires q < |b| && |c| == n + |b| && Same(cb, st, st1) && InLine(st) && Shifted(c, b, n, j + 2)
    requires CrlfFrom(b, q) == Some(j) && CrlfFrom(c, n + q) == Some(n + j) && c[n + q..n + j] == b[q..j]
    ensures LIKE(view)(LineTurnSays(cb, st, c, n + q), LineTurnSays(cb, st1, b, q))
  {
    TakenLineTold(view, cb, st, st1, c, b, n, q, j);
    TakenTellShift(cb, LIKE(view), st, st1, c, b, n, q, j);
  }

  lemma LineTurnTellShift(view: View, cb: Setting, st: State, st1: State, a: bytes, b: bytes, q: nat)
    requires q < |b| && Same(cb, st, st1) && InLine(st)
    ensures LIKE(view)(LineTurnSays(cb, st, a + b, |a| + q), LineTurnSays(cb, st1, b, q))
  {
    CrlfShift(a, b, q);
    if CrlfFrom(b, q).None? {
      DropAcross(a, b, q);
      OpenTurnTellShift(view, cb, st, st1, a + b, b, |a|, q);
    } else {
      ShiftedBy(a, b, CrlfFrom(b, q).value + 2);
      SliceAcross(a, b, q, CrlfFrom(b, q).value);
      TakenTurnTellShift(view, cb, st, st1, a + b, b, |a|, q, CrlfFrom(b, q).value);
    }
  }

  lemma DataTellShift(cb: Setting, st: State, st1: State, a: bytes, b: bytes, q: nat)
    requires q < |b| && Same(cb, st, st1)
    ensures DataSays(cb, st, a + b, |a| + q) == DataSays(cb, st1, b, q)
  {
    if 0 < st.length {
      SliceAcross(a, b, q, q + Least(|b| - q, st.length));
    }
  }

  lemma StepTellShift(cb: Setting, like: Likeness, st: State, st1: State, a: bytes, b: bytes, q: nat)
    requires q < |b| && Same(cb, st, st1) && Appends(like)
    requires InLine(st) ==> like(LineTurnSays(cb, st, a + b, |a| + q), LineTurnSays(cb, st1, b, q))
    ensures like(StepSays(cb, st, a + b, |a| + q), StepSays(cb, st1, b, q))
  {
    DataTellShift(cb, st, st1, a, b, q);
  }

  lemma TellShift(view: View, cb: Setting, st: State, st1: State, a: bytes, b: bytes, q: nat)
    requires q < |b| && Same(cb, st, st1)
    ensures LIKE(view)(StepSays(cb, st, a + b, |a| + q), StepSays(cb, st1, b, q))
  {
    AlikeAppends(view);
    if InLine(st) {
      LineTurnTellShift(view, cb, st, st1, a, b, q);
    }
    StepTellShift(cb, LIKE(view), st, st1, a, b, q);
  }

  // -------------------------------------------- turns that the first part leaves unfinished

  lemma ValueParts(on: bool, v: bytes, offset: nat)
    ensures var es := ValueRest(on, v, offset);
            && Values(es) == (if on && offset < |v| then v[offset..] else [])
            && Names(es) == [] && BodyOf(es) == [] && Count(es, HeadersDone) == 0 && Count(es, Complete) == 0
  {
    if on && offset < |v| {
      OneEvent(Value(v[offset..]));
    }
  }

  lemma SuffixInTwo(v: bytes, w: bytes, offset: nat)
    requires v <= w && offset <= |v|
    ensures w[offset..] == v[offset..] + w[|v|..]
  {
  }

  /** A value passed on in two steps is the value passed on at once. */
  lemma ValueInTwo(view: View, on: bool, v: bytes, w: bytes, offset: nat)
    requires v <= w && offset <= |v|
    ensures Alike(view, ValueRest(on, w, offset), ValueRest(on, v, offset) + ValueRest(on, w, Passed(on, v, offset)))
  {
    var x, y := ValueRest(on, v, offset), ValueRest(on, w, Passed(on, v, offset));
    JoinedParts(x, y);
    EmptyAppend(x);
    EmptyAppend(y);
    if x != [] && y != [] {
      assert x + y == [Value(v[offset..]), Value(w[|v|..])];
      TwoJoined(v[offset..], w[|v|..]);
    }
    ValueParts(on, w, offset);
    ValueParts(on, v, offset);
    ValueParts(on, w, Passed(on, v, offset));
    SuffixInTwo(v, w, offset);
  }

  lemma FieldSwap(c: bool, name: bytes, y: seq<Event>)
    requires Names(y) == []
    ensures Alike(Totals, When(c, Field(name)) + y, y + When(c, Field(name)))
  {
    OneEvent(Field(name));
    JoinedParts(When(c, Field(name)), y);
    JoinedParts(y, When(c, Field(name)));
  }

  lemma AlikeTrans(view: View, x: seq<Event>, y: seq<Event>, z: seq<Event>)
    requires Alike(view, x, y) && Alike(view, y, z)
    ensures Alike(view, x, z)
  {
  }

  lemma FieldLater(c: bool, name: bytes, x: seq<Event>, y: seq<Event>, z: seq<Event>)
    requires Alike(Totals, x, y + z) && Names(y) == []
    ensures Alike(Totals, When(c, Field(name)) + x, y + (When(c, Field(name)) + z))
  {
    var f := When(c, Field(name));
    AlikeAppend(Totals, f, f, x, y + z);
    Assoc(f, y, z);
    FieldSwap(c, name, y);
    AlikeAppend(Totals, f + y, y + f, z, z);
    Assoc(y, f, z);
    AlikeTrans(Totals, f + x, f + y + z, y + f + z);
  }

  /** A header line finished by the second part. */
  lemma HeaderInTwo(view: View, cb: Setting, line1: bytes, line: bytes, h: Header, offset: nat)
    requires line1 <= line && h.value == PartialValue(line) && offset <= |PartialValue(line1)|
    requires view == Totals || !cb.field || !cb.value || PartialValue(line1) == []
    ensures var v := PartialValue(line1);
            Alike(view, When(cb.field, Field(h.name)) + ValueRest(cb.value, h.value, offset),
                  ValueRest(cb.value, v, offset) + (When(cb.field, Field(h.name)) + ValueRest(cb.value, h.value, Passed(cb.value, v, offset))))
  {
    var v := PartialValue(line1);
    PartialValueGrows(line1, line[|line1|..]);
    assert line == line1 + line[|line1|..];
    ValueInTwo(view, cb.value, v, h.value, offset);
    ValueParts(cb.value, v, offset);
    var x, y, z := ValueRest(cb.value, h.value, offset), ValueRest(cb.value, v, offset), ValueRest(cb.value, h.value, Passed(cb.value, v, offset));
    if view == Totals {
      FieldLater(cb.field, h.name, x, y, z);
    } else if !cb.field {
      EmptyAppend(x);
      EmptyAppend(z);
    } else {
      EmptyAppend(When(cb.field, Field(h.name)) + z);
    }
  }

  lemma StartsTwiceAlike(view: View, x: seq<Event>, y: seq<Event>, z: seq<Event>)
    requires Alike(view, x, []) && Alike(view, y, []) && Alike(view, z, [])
    ensures Alike(view, x, y + z)
  {
    AlikeAppend(view, y, [], z, []);
  }

  /** A line that both parts leave unfinished. */
  lemma OpenInTwo(view: View, cb: Setting, phase: Phase, told: Told, line1: bytes, line: bytes)
    requires line1 <= line && (phase == HeaderPhase ==> told.value <= |PartialValue(line1)|)
    ensures Alike(view, OpenLineSays(cb, phase, told, line),
                  OpenLineSays(cb, phase, told, line1) + OpenLineSays(cb, phase, Announced(cb, phase, told, line1), line))
  {
    match phase
    case RequestLinePhase =>
      var told1 := Announced(cb, phase, told, line1);
      StartsAlike(view, cb.begin && !told.started, cb.url, AfterSpace(line), told.url);
      StartsAlike(view, cb.begin && !told.started, cb.url, AfterSpace(line1), told.url);
      StartsAlike(view, cb.begin && !told1.started, cb.url, AfterSpace(line), told1.url);
      StartsTwiceAlike(view, OpenLineSays(cb, phase, told, line), OpenLineSays(cb, phase, told, line1), OpenLineSays(cb, phase, told1, line));
    case HeaderPhase =>
      PartialValueGrows(line1, line[|line1|..]);
      assert line == line1 + line[|line1|..];
      ValueInTwo(view, cb.value, PartialValue(line1), PartialValue(line), told.value);
    case _ =>
  }

  /** The request line, finished by the second part, tells only Begin and Url. */
  lemma RequestLineInTwo(view: View, cb: Setting, st: State, st1: State, line1: bytes, line: bytes, c: bytes, b: bytes, n: nat, k: nat)
    requires st.phase == RequestLinePhase && st1.phase == st.phase
    ensures Alike(view, LineSays(cb, st, line, c, n + k), OpenLineSays(cb, st.phase, st.told, line1) + LineSays(cb, st1, line, b, k))
  {
    StartsAlike(view, cb.begin && !st.told.started, cb.url, AfterSpace(line1), st.told.url);
    if cb.lines.request(line).Some? {
      var v := cb.lines.request(line).value.target;
      StartsAlike(view, cb.begin, cb.url, v, st.told.url);
      StartsAlike(view, cb.begin, cb.url, v, st1.told.url);
    }
    StartsTwiceAlike(view, LineSays(cb, st, line, c, n + k), OpenLineSays(cb, st.phase, st.told, line1), LineSays(cb, st1, line, b, k));
  }

  /** A line that the second part finishes. */
  lemma TakenInTwo(view: View, cb: Setting, st: State, st1: State, line1: bytes, line: bytes, c: bytes, b: bytes, n: nat, k: nat)
    requires line1 <= line && line != [] && InLine(st) && Shifted(c, b, n, k) && PlainValues(cb.lines)
    requires st.phase == HeaderPhase ==> st.told.value <= |PartialValue(line1)|
    requires Smooth(view, cb, st.(scratch := line1))
    requires st1.phase == st.phase && st1.facts == st.facts && st1.length == st.length && st1.told == Announced(cb, st.phase, st.told, line1)
    requires st.phase == HeaderPhase ==> cb.lines.header(line).Some? && NoteHeader(st.facts, st.length, cb.lines.header(line).value).Some?
    ensures Alike(view, LineSays(cb, st, line, c, n + k), OpenLineSays(cb, st.phase, st.told, line1) + LineSays(cb, st1, line, b, k))
  {
    match st.phase
    case RequestLinePhase => RequestLineInTwo(view, cb, st, st1, line1, line, c, b, n, k);
    case HeaderPhase => HeaderInTwo(view, cb, line1, line, cb.lines.header(line).value, st.told.value);
    case _ => EmptyAppend(LineSays(cb, st1, line, b, k));
  }

  lemma BodyInTwo(view: View, c: bool, x: bytes, y: bytes)
    ensures Alike(view, When(c, BodyPart(x + y)), When(c, BodyPart(x)) + When(c, BodyPart(y)))
  {
    OneEvent(BodyPart(x + y));
    OneEvent(BodyPart(x));
    OneEvent(BodyPart(y));
    JoinedParts(When(c, BodyPart(x)), When(c, BodyPart(y)));
    TwoJoined(x, y);
    assert [BodyPart(x)] + [BodyPart(y)] == [BodyPart(x), BodyPart(y)];
  }

  lemma DataJoin(a: bytes, b: bytes, p: nat, k: nat)
    requires p <= |a| && k <= |b|
    ensures (a + b)[p..|a| + k] == a[p..|a|] + b[0..k]
  {
  }

  lemma DataInTwo(view: View, cb: Setting, st: State, a: bytes, b: bytes, p: nat)
    requires p < |a| && b != [] && |a| - p < st.length
    ensures LIKE(view)(DataSays(cb, st, a + b, p), DataSays(cb, st, a, p) + DataSays(cb, st.(length := st.length - (|a| - p)), b, 0))
  {
    var k := Least(|b|, st.length - (|a| - p));
    DataJoin(a, b, p, k);
    BodyInTwo(view, cb.body, a[p..|a|], b[0..k]);
    assert DataSays(cb, st, a + b, p) == When(cb.body, BodyPart((a + b)[p..|a| + k]));
  }

  // ------------------------------------------------------------------ the unfinished turn

  /** What a turn left unfinished by `a` tells in all, told in two calls. */
  ghost predicate InTwo(cb: Setting, like: Likeness, st: State, st1: State, a: bytes, b: bytes, p: nat) {
    like(StepSays(cb, st, a + b, p), StepSays(cb, st, a, p) + StepSays(cb, st1, b, 0))
  }

  lemma BodyTurnInTwo(cb: Setting, like: Likeness, st: State, a: bytes, b: bytes, p: nat)
    requires p < |a| && b != [] && |a| - p < st.length && st.phase == BodyPhase && Appends(like)
    requires like(DataSays(cb, st, a + b, p), DataSays(cb, st, a, p) + DataSays(cb, st.(length := st.length - (|a| - p)), b, 0))
    ensures InTwo(cb, like, st, st.(length := st.length - (|a| - p)), a, b, p)
  {
    var st1 := st.(length := st.length - (|a| - p));
    var x, y, z := DataSays(cb, st, a + b, p), DataSays(cb, st, a, p), DataSays(cb, st1, b, 0);
    var e := When(cb.complete && st1.length <= |b|, Complete);
    assert like(e, e) && AppendsAt(like, x, y + z, e, e);
    Assoc(y, z, e);
    EmptyAppend(y);
  }

  lemma OpenSays(cb: Setting, st: State, c: bytes, p: nat, line: bytes)
    requires p < |c| && InLine(st) && CrlfFrom(c, p).None? && line == st.scratch + c[p..] && |line| <= SCRATCH
    ensures StepSays(cb, st, c, p) == OpenLineSays(cb, st.phase, st.told, line)
  {
  }

  lemma TakenSays(cb: Setting, st: State, c: bytes, p: nat, i: nat, line: bytes)
    requires p < |c| && InLine(st) && CrlfFrom(c, p) == Some(i) && line == st.scratch + c[p..i] && |line| <= SCRATCH
    ensures StepSays(cb, st, c, p) == LineSays(cb, st, line, c, i + 2)
  {
  }

  lemma LikeBy(like: Likeness, x: seq<Event>, y: seq<Event>, z: seq<Event>, x': seq<Event>, y': seq<Event>, z': seq<Event>)
    requires like(x, y + z) && x == x' && y == y' && z == z'
    ensures like(x', y' + z')
  {
  }

  /** The line is left open by `a` with scratch `line1`; together with `b` it is `line`. */
  lemma OpenLineInTwo(view: View, cb: Setting, st: State, st1: State, a: bytes, b: bytes, p: nat, line1: bytes, line: bytes)
    requires p < |a| && b != [] && InLine(st) && |line| <= SCRATCH && CrlfFrom(a, p).None?
    requires line1 == st.scratch + a[p..] && line == line1 + b[0..] && line == st.scratch + (a + b)[p..]
    requires st1.phase == st.phase && st1.scratch == line1 && st1.told == Announced(cb, st.phase, st.told, line1)
    requires st.phase == HeaderPhase ==> st.told.value <= |PartialValue(line1)|
    requires CrlfFrom(b, 0).None? && CrlfFrom(a + b, p).None?
    ensures InTwo(cb, LIKE(view), st, st1, a, b, p)
  {
    OpenSays(cb, st, a, p, line1);
    OpenSays(cb, st1, b, 0, line);
    OpenSays(cb, st, a + b, p, line);
    OpenInTwo(view, cb, st.phase, st.told, line1, line);
    LikeBy(LIKE(view), OpenLineSays(cb, st.phase, st.told, line), OpenLineSays(cb, st.phase, st.told, line1),
        OpenLineSays(cb, st1.phase, st1.told, line),
           StepSays(cb, st, a + b, p), StepSays(cb, st, a, p), StepSays(cb, st1, b, 0));
  }

  lemma TakenLineLike(cb: Setting, like: Likeness, st: State, st1: State, a: bytes, b: bytes, c: bytes, p: nat, j: nat, line1: bytes, line: bytes)
    requires p < |a| && b != [] && InLine(st) && InLine(st1) && |line| <= SCRATCH && CrlfFrom(a, p).None? && p < |c|
    requires CrlfFrom(b, 0) == Some(j) && CrlfFrom(c, p) == Some(|a| + j) && st1.scratch == line1
    requires line1 == st.scratch + a[p..] && line == line1 + b[0..j] && line == st.scratch + c[p..|a| + j]
    requires like(LineSays(cb, st, line, c, |a| + j + 2), OpenLineSays(cb, st.phase, st.told, line1) + LineSays(cb, st1, line, b, j + 2))
    ensures like(StepSays(cb, st, c, p), StepSays(cb, st, a, p) + StepSays(cb, st1, b, 0))
  {
    OpenSays(cb, st, a, p, line1);
    TakenSays(cb, st1, b, 0, j, line);
    TakenSays(cb, st, c, p, |a| + j, line);
  }

  lemma TakenLineInTwo(view: View, cb: Setting, st: State, st1: State, a: bytes, b: bytes, p: nat, j: nat, line1: bytes, line: bytes)
    requires p < |a| && b != [] && InLine(st) && |line| <= SCRATCH && CrlfFrom(a, p).None? && PlainValues(cb.lines)
    requires CrlfFrom(b, 0) == Some(j) && CrlfFrom(a + b, p) == Some(|a| + j)
    requires line1 == st.scratch + a[p..] && line == line1 + b[0..j] && line == st.scratch + (a + b)[p..|a| + j]
    requires st1 == st.(scratch := line1, told := Announced(cb, st.phase, st.told, line1)) && Smooth(view, cb, st1)
    requires st.phase == HeaderPhase ==> st.told.value <= |PartialValue(line1)|
    requires st.phase == HeaderPhase ==> cb.lines.header(line).Some? && NoteHeader(st.facts, st.length, cb.lines.header(line).value).Some?
    ensures InTwo(cb, LIKE(view), st, st1, a, b, p)
  {
    ShiftedBy(a, b, j + 2);
    TakenInTwo(view, cb, st, st1, line1, line, a + b, b, |a|, j + 2);
    TakenLineLike(cb, LIKE(view), st, st1, a, b, a + b, p, j, line1, line);
  }

  /** A header line taken without error is a header. */
  lemma TakenHeader(cb: Setting, st: State, c: bytes, p: nat, i: nat, line: bytes)
    requires p < |c| && st.phase == HeaderPhase && CrlfFrom(c, p) == Some(i) && line == st.scratch + c[p..i] && line != []
    requires LineTurn(cb, st, c, p).Stop? ==> LineTurn(cb, st, c, p).out.err.None?
    ensures cb.lines.header(line).Some? && NoteHeader(st.facts, st.length, cb.lines.header(line).value).Some?
  {
  }

  lemma AnnouncedPlace(cb: Setting, st: State, x: bytes)
    requires Ready(cb, st) && st.phase == HeaderPhase
    ensures st.told.value <= |PartialValue(st.scratch + x)|
  {
    PartialValueGrows(st.scratch, x);
  }

  /** The state a line kept by `a` leaves behind. */
  ghost predicate Kept(cb: Setting, st: State, a: bytes, p: nat, st1: State) {
    && p < |a| && InLine(st) && Ready(cb, st) && CrlfFrom(a, p).None? && |st.scratch| + |a| - p <= SCRATCH
    && st1 == st.(scratch := st.scratch + a[p..], told := Announced(cb, st.phase, st.told, st.scratch + a[p..]))
  }

  lemma KeptByLine(cb: Setting, st: State, a: bytes, p: nat)
    requires p < |a| && InLine(st) && Ready(cb, st) && CrlfFrom(a, p).None? && KeepLine(cb, st, a, p).out.err.None?
    ensures Kept(cb, st, a, p, KeepLine(cb, st, a, p).out.st)
  {
  }

  lemma StillOpenInTwo(view: View, cb: Setting, st: State, a: bytes, b: bytes, p: nat, st1: State)
    requires Kept(cb, st, a, p, st1) && b != [] && CrlfFrom(b, 0).None? && CrlfFrom(a + b, p).None?
    requires |st.scratch| + |a| + |b| - p <= SCRATCH
    ensures InTwo(cb, LIKE(view), st, st1, a, b, p)
  {
    var line1 := st.scratch + a[p..];
    if st.phase == HeaderPhase {
      AnnouncedPlace(cb, st, a[p..]);
    }
    DropAppend(a, b, p);
    Assoc(st.scratch, a[p..], b);
    assert b[0..] == b;
    OpenLineInTwo(view, cb, st, st1, a, b, p, line1, line1 + b[0..]);
  }

  lemma FinishedInTwo(view: View, cb: Setting, st: State, a: bytes, b: bytes, p: nat, st1: State, j: nat)
    requires Kept(cb, st, a, p, st1) && b != [] && PlainValues(cb.lines) && |st.scratch| + |a| + j - p <= SCRATCH && Smooth(view, cb, st1)
    requires CrlfFrom(b, 0) == Some(j) && CrlfFrom(a + b, p) == Some(|a| + j)
    requires LineTurn(cb, st, a + b, p).Stop? ==> LineTurn(cb, st, a + b, p).out.err.None?
    ensures InTwo(cb, LIKE(view), st, st1, a, b, p)
  {
    var line1 := st.scratch + a[p..];
    LineInTwo(st.scratch, a, b, p, j);
    if st.phase == HeaderPhase {
      AnnouncedPlace(cb, st, a[p..]);
      TakenHeader(cb, st, a + b, p, |a| + j, line1 + b[0..j]);
    }
    TakenLineInTwo(view, cb, st, st1, a, b, p, j, line1, line1 + b[0..j]);
  }

  /** The whole line overflows the scratch buffer exactly when its second part does. */
  lemma OverflowShows(cb: Setting, st: State, a: bytes, b: bytes, p: nat)
    requires p < |a| && InLine(st) && CrlfFrom(a + b, p).None?
    requires LineTurn(cb, st, a + b, p).Stop? ==> LineTurn(cb, st, a + b, p).out.err.None?
    ensures |st.scratch| + |a| + |b| - p <= SCRATCH
  {
  }

  lemma LineInTwoCalls(view: View, cb: Setting, st: State, a: bytes, b: bytes, p: nat, st1: State)
    requires Kept(cb, st, a, p, st1) && b != [] && PlainValues(cb.lines) && OpenLineFits(st1, b) && (a[|a| - 1] == CR ==> b[0] != LF)
    requires Smooth(view, cb, st1)
    requires LineTurn(cb, st, a + b, p).Stop? ==> LineTurn(cb, st, a + b, p).out.err.None?
    ensures InTwo(cb, LIKE(view), st, st1, a, b, p)
  {
    CrlfBehind(a, b, p);
    if CrlfFrom(b, 0).None? {
      OverflowShows(cb, st, a, b, p);
      StillOpenInTwo(view, cb, st, a, b, p, st1);
    } else {
      FinishedInTwo(view, cb, st, a, b, p, st1, CrlfFrom(b, 0).value);
    }
  }

  // -------------------------------------------------- the machine tells such a tale

  lemma ResumeTells(view: View, cb: Setting, st: State, a: bytes, b: bytes, p: nat, o: Outcome)
    requires p < |a| && b != [] && Ready(cb, st) && st.phase != Idle && Rests(o, b) && PlainValues(cb.lines)
    requires Smooth(view, cb, o.st)
    requires if MidData(st, a, p) then o.st == st.(length := st.length - (|a| - p)) else Step(cb, st, a, p) == Stop(o)
    requires Step(cb, st, a + b, p).Stop? ==> Step(cb, st, a + b, p).out.err.None?
    ensures InTwo(cb, LIKE(view), st, o.st, a, b, p)
  {
    match st.phase
    case BodyPhase =>
      AlikeAppends(view);
      DataInTwo(view, cb, st, a, b, p);
      BodyTurnInTwo(cb, LIKE(view), st, a, b, p);
    case ChunkDataPhase => DataInTwo(view, cb, st, a, b, p);
    case _ =>
      StopsOnlyOnOpenLine(cb, st, a, p);
      KeptByLine(cb, st, a, p);
      LineInTwoCalls(view, cb, st, a, b, p, o.st);
  }

  lemma StepsTellResume(view: View, cb: Setting)
    requires PlainValues(cb.lines)
    ensures TellsResume(view, cb, LIKE(view), Steps(cb), Tells(cb))
  {
    forall st: State, a: bytes, b: bytes, p: nat ensures TellsResumeAt(view, cb, LIKE(view), Steps(cb), Tells(cb), st, a, b, p) {
      if p < |a| && b != [] && Ready(cb, st) && st.phase != Idle && Rests(Loop(Steps(cb), st, a, p), b)
         && (Steps(cb)(st, a, p).Stop? || MidData(st, a, p)) && (Steps(cb)(st, a + b, p).Stop? ==> Steps(cb)(st, a + b, p).out.err.None?)
         && Smooth(view, cb, Loop(Steps(cb), st, a, p).st) {
        EndTurn(cb, st, a, p);
        ResumeTells(view, cb, st, a, b, p, Loop(Steps(cb), st, a, p));
      }
    }
  }

  lemma TellsAre(cb: Setting, st: State, buf: bytes, p: nat, es: seq<Event>)
    requires StepSays(cb, st, buf, p) == es
    ensures Tells(cb)(st, buf, p) == es
  {
  }

  lemma StepsTellShiftAt(cb: Setting, like: Likeness, st: State, st1: State, a: bytes, b: bytes, q: nat)
    requires q < |b| && Same(cb, st, st1) ==> like(StepSays(cb, st, a + b, |a| + q), StepSays(cb, st1, b, q))
    ensures TellsShiftAt(cb, like, Tells(cb), st, st1, a, b, q)
  {
    TellsAre(cb, st, a + b, |a| + q, StepSays(cb, st, a + b, |a| + q));
    TellsAre(cb, st1, b, q, StepSays(cb, st1, b, q));
  }

  lemma StepsTellShift(view: View, cb: Setting)
    ensures TellsShift(cb, LIKE(view), Tells(cb))
  {
    forall st: State, st1: State, a: bytes, b: bytes, q: nat ensures TellsShiftAt(cb, LIKE(view), Tells(cb), st, st1, a, b, q) {
      if q < |b| && Same(cb, st, st1) {
        TellShift(view, cb, st, st1, a, b, q);
      }
      StepsTellShiftAt(cb, LIKE(view), st, st1, a, b, q);
    }
  }

  lemma StepsTellKeep(cb: Setting)
    ensures TellsKeep(Steps(cb), Tells(cb))
  {
    forall st: State, a: bytes, b: bytes, p: nat ensures TellsKeepAt(Steps(cb), Tells(cb), st, a, b, p) {
      if p < |a| && Step(cb, st, a, p).Go? && !MidData(st, a, p) {
        TellKept(cb, st, a, b, p);
      }
    }
  }

  lemma StepsTakeAll(cb: Setting)
    ensures TakesAll(Steps(cb))
  {
  }

  /** The callbacks of two calls are those of one call on the whole input, up to fragmentation. */
  lemma EventSplitInvariance(view: View, cb: Setting, st: State, a: bytes, b: bytes)
    requires a != [] && b != [] && Ready(cb, st) && st.phase != Idle && PlainValues(cb.lines)
    requires Rests(Run(cb, st, a, 0), b) && Run(cb, st, a + b, 0).err.None? && Smooth(view, cb, Run(cb, st, a, 0).st)
    ensures Alike(view, Says(cb, st, a + b, 0), Says(cb, st, a, 0) + Says(cb, Run(cb, st, a, 0).st, b, 0))
  {
    AlikeAppends(view);
    StepsAdvance(cb);
    StepsShift(cb);
    StepsKeep(cb);
    StepsResume(cb);
    StepsTakeAll(cb);
    StepsTellShift(view, cb);
    StepsTellKeep(cb);
    StepsTellResume(view, cb);
    TaleSplit(view, cb, LIKE(view), Steps(cb), Tells(cb), st, a, b, 0);
  }

  /** The URL offset, in which two states may differ, changes only URL callbacks. */
  lemma SameTales(view: View, cb: Setting, st: State, st1: State, b: bytes)
    requires Same(cb, st, st1)
    ensures Alike(view, Says(cb, st, b, 0), Says(cb, st1, b, 0))
  {
    AlikeAppends(view);
    StepsAdvance(cb);
    StepsShift(cb);
    StepsTellShift(view, cb);
    TaleShift(cb, LIKE(view), Steps(cb), Tells(cb), st, st1, [], b, 0);
    EmptyAppend(b);
  }

  // ------------------------------------------------------------------ any number of pieces

  type Speaker = (State, bytes) -> seq<Event>

  function Speaks(cb: Setting): (tell: Speaker) {
    (st: State, buf: bytes) => FeedSays(cb, st, buf)
  }

  /** The callbacks of a series of calls, one for each piece. */
  function Chronicle(feed: Feeder, tell: Speaker, st: State, pieces: seq<bytes>): (es: seq<Event>)
    decreases |pieces|
  {
    if pieces == [] then []
    else
      var n := |pieces| - 1;
      Chronicle(feed, tell, st, pieces[..n]) + tell(Series(feed, st, pieces[..n]).st, pieces[n])
  }

  function SaysAll(cb: Setting, st: State, pieces: seq<bytes>): (es: seq<Event>) {
    Chronicle(Feeds(cb), Speaks(cb), st, pieces)
  }

  /** The calls up to and with piece `j`. */
  lemma NextCall(feed: Feeder, tell: Speaker, st: State, pieces: seq<bytes>, j: nat)
    requires j < |pieces|
    ensures Series(feed, st, pieces[..j + 1]) == feed(Series(feed, st, pieces[..j]).st, pieces[j])
    ensures Chronicle(feed, tell, st, pieces[..j + 1]) == Chronicle(feed, tell, st, pieces[..j]) + tell(Series(feed, st, pieces[..j]).st, pieces[j])
  {
    assert pieces[..j + 1][..j] == pieces[..j];
  }

  lemma AlikeInTwo(view: View, x: seq<Event>, y: seq<Event>, z: seq<Event>, y': seq<Event>, z': seq<Event>)
    requires Alike(view, x, y + z) && Alike(view, y, y') && Alike(view, z, z')
    ensures Alike(view, x, y' + z')
  {
    AlikeAppend(view, y, y', z, z');
  }

  lemma SaysNext(cb: Setting, st: State, pieces: seq<bytes>, j: nat)
    requires j < |pieces|
    ensures SaysAll(cb, st, pieces[..j + 1]) == SaysAll(cb, st, pieces[..j]) + FeedSays(cb, After(cb, st, pieces[..j]).st, pieces[j])
    ensures j == 0 ==> SaysAll(cb, st, pieces[..j]) == [] && After(cb, st, pieces[..j]).st == st
  {
    assert pieces[..j + 1][..j] == pieces[..j];
  }

  /** The second of two calls, in a state that agrees with the one-call state. */
  lemma TellOneMore(view: View, cb: Setting, st: State, a: bytes, b: bytes, st1: State, es: seq<Event>)
    requires a != [] && b != [] && Ready(cb, st) && st.phase != Idle && PlainValues(cb.lines)
    requires Rests(Run(cb, st, a, 0), b) && Run(cb, st, a + b, 0).err.None? && Same(cb, Run(cb, st, a, 0).st, st1)
    requires Smooth(view, cb, Run(cb, st, a, 0).st)
    requires Alike(view, Says(cb, st, a, 0), es)
    ensures Alike(view, Says(cb, st, a + b, 0), es + FeedSays(cb, st1, b))
  {
    var w := Run(cb, st, a, 0);
    EventSplitInvariance(view, cb, st, a, b);
    SameTales(view, cb, w.st, st1, b);
    AlikeInTwo(view, Says(cb, st, a + b, 0), Says(cb, st, a, 0), Says(cb, w.st, b, 0), es, Says(cb, st1, b, 0));
  }

  /** After `i` pieces no value has been told before its name. */
  ghost predicate SmoothAfter(view: View, cb: Setting, st: State, pieces: seq<bytes>, i: nat)
    requires i <= |pieces|
  {
    Smooth(view, cb, Run(cb, Start(st), Concat(pieces[..i]), 0).st)
  }

  /** The callbacks of all calls are those of one call on the whole input, up to fragmentation. */
  lemma {:induction false} PiecesTellAsOne(view: View, cb: Setting, st: State, pieces: seq<bytes>, j: nat)
    requires Unbroken(cb, st, pieces) && 0 < j <= |pieces| && PlainValues(cb.lines)
    requires forall i | 0 < i < j :: SmoothAfter(view, cb, st, pieces, i)
    requires Run(cb, Start(st), Concat(pieces[..j]), 0).err.None?
    ensures Alike(view, Says(cb, Start(st), Concat(pieces[..j]), 0), SaysAll(cb, st, pieces[..j]))
    decreases j
  {
    var a, b := Concat(pieces[..j - 1]), pieces[j - 1];
    PiecesNext(pieces, j - 1);
    SaysNext(cb, st, pieces, j - 1);
    if j == 1 {
      EmptyAppend(b);
      EmptyAppend(FeedSays(cb, st, b));
    } else {
      assert RestsBefore(cb, st, pieces, j - 1) && SmoothAfter(view, cb, st, pieces, j - 1);
      PiecesAsOne(cb, st, pieces, j - 1);
      PiecesTellAsOne(view, cb, st, pieces, j - 1);
      PieceCut(Concat(pieces), pieces, j - 1);
      TellOneMore(view, cb, Start(st), a, b, After(cb, st, pieces[..j - 1]).st, SaysAll(cb, st, pieces[..j - 1]));
    }
  }
}
