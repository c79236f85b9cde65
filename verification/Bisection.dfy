/** Finding the offset changes of a time zone by bisection.

    A time zone is a function from naive local times to UTC offsets; both are integers
    counting microseconds.
  */
module Bisection {
  import opened Options
  import opened TimeUnits

  const WINDOW: int := 30 * DAY

  /** An offset is strictly between minus one day and one day. */
  type Offset = x: int | -DAY < x < DAY

  /** `utcoffset`, `dst` and `tzname` of a zone, on naive local times. */
  datatype Zone = Zone(utcoffset: int -> Offset, dst: int -> bool, tzname: int -> string)

  /** What a part says apart from its RDATEs. */
  datatype Transition = Transition(
    isDaylight: bool,
    tzoffsetfrom: int,
    tzoffsetto: int,
    dtstart: int,
    tzname: string)

  // ------------------------------------------------------------ bisection

  /** Dividing a timedelta by two rounds half to even. */
  function HalfDelta(width: nat): nat {
    var q := width / 2;
    if width % 2 == 0 || q % 2 == 0 then q else q + 1
  }

  /** replace(minute=0, second=0, microsecond=0) */
  function FloorHour(t: int): int {
    t - t % HOUR
  }

  function BisectTransition(z: Zone, d1: int, d2: int): Option<Transition>
    requires d1 <= d2
    decreases d2 - d1
  {
    var offset1 := z.utcoffset(d1);
    var offset2 := z.utcoffset(d2);
    if offset1 == offset2 then
      None
    else
      var delta := HalfDelta(d2 - d1);
      if delta < 30 * MINUTE then
        Some(Transition(z.dst(d2), offset1, offset2, FloorHour(if offset1 < offset2 then d1 else d2), z.tzname(d2)))
      else
        var d3 := d1 + delta;
        if z.utcoffset(d3) == offset1 then
          BisectTransition(z, d3, d2)
        else
          BisectTransition(z, d1, d3)
  }

  /** `tr` describes the change between two instants less than an hour apart. */
  ghost predicate Brackets(z: Zone, e1: int, e2: int, tr: Transition) {
    && e1 < e2 < e1 + HOUR
    && z.utcoffset(e1) == tr.tzoffsetfrom
    && z.utcoffset(e2) == tr.tzoffsetto
    && tr.tzoffsetfrom != tr.tzoffsetto
    && tr.isDaylight == z.dst(e2)
    && tr.tzname == z.tzname(e2)
    && tr.dtstart == FloorHour(if tr.tzoffsetfrom < tr.tzoffsetto then e1 else e2)
  }

  /** For any zone at all: the bisection answers None exactly when both ends agree, and
      otherwise the change it reports is real, lies inside the window and starts from the
      offset of the window's left end. */
  lemma {:induction false} BisectTransitionBrackets(z: Zone, d1: int, d2: int) returns (e1: int, e2: int)
    requires d1 <= d2
    ensures BisectTransition(z, d1, d2).None? <==> z.utcoffset(d1) == z.utcoffset(d2)
    ensures BisectTransition(z, d1, d2).Some? ==>
              && d1 <= e1 && e2 <= d2
              && z.utcoffset(e1) == z.utcoffset(d1)
              && Brackets(z, e1, e2, BisectTransition(z, d1, d2).value)
    decreases d2 - d1
  {
    e1, e2 := d1, d2;
    var delta := HalfDelta(d2 - d1);
    if z.utcoffset(d1) != z.utcoffset(d2) && delta >= 30 * MINUTE {
      var d3 := d1 + delta;
      if z.utcoffset(d3) == z.utcoffset(d1) {
        e1, e2 := BisectTransitionBrackets(z, d3, d2);
      } else {
        e1, e2 := BisectTransitionBrackets(z, d1, d3);
      }
    }
  }

  // ------------------------------------------------------------ steps of a zone

  /** The offset in force changes at the local time `t`. */
  ghost predicate Step(z: Zone, t: int) {
    z.utcoffset(t - 1) != z.utcoffset(t)
  }

  function Jump(z: Zone, t: int): (jump: int)
    ensures -2 * DAY < jump < 2 * DAY
  {
    z.utcoffset(t) - z.utcoffset(t - 1)
  }

  /** The local time, told with the offset in force before it, at which the change at `t`
      takes effect. When clocks go forward the local times of the jump do not exist and
      `utcoffset` still gives them the offset before, so the change took effect at the
      start of the gap. */
  ghost function Onset(z: Zone, t: int): int {
    if Jump(z, t) > 0 then t - Jump(z, t) else t
  }

  ghost function TransitionAt(z: Zone, t: int): Transition {
    Transition(z.dst(t), z.utcoffset(t - 1), z.utcoffset(t), Onset(z, t), z.tzname(t))
  }

  ghost predicate NoStepIn(z: Zone, a: int, b: int) {
    forall s :: Step(z, s) ==> !(a < s <= b)
  }

  ghost predicate OnlyStepIn(z: Zone, a: int, b: int, t: int) {
    && Step(z, t)
    && a < t <= b
    && forall s :: Step(z, s) && a < s <= b ==> s == t
  }

  ghost predicate SameLabels(z: Zone, s: int, t: int) {
    z.dst(s) == z.dst(t) && z.tzname(s) == z.tzname(t)
  }

  lemma {:induction false} ConstantBetween(z: Zone, a: int, b: int)
    requires a <= b
    requires NoStepIn(z, a, b)
    ensures z.utcoffset(a) == z.utcoffset(b)
    decreases b - a
  {
    if a < b {
      ConstantBetween(z, a, b - 1);
      assert !Step(z, b);
    }
  }

  lemma OffsetsAroundOnlyStep(z: Zone, a: int, b: int, t: int, d: int)
    requires OnlyStepIn(z, a, b, t)
    requires a <= d <= b
    ensures z.utcoffset(d) == if d < t then z.utcoffset(t - 1) else z.utcoffset(t)
  {
    if d < t {
      ConstantBetween(z, d, t - 1);
    } else {
      ConstantBetween(z, t, d);
    }
  }

  // ------------------------------------------------------------ what one window tells

  /** A window after ten halvings, the widest interval that the bisection does not halve. */
  const BRACKET: int := 2_531_250_000

  /** The last bracket of the window after `a` goes from the latest point of this grid that
      is before the step, to the next point. */
  function GridBefore(a: int, t: int): (e: int)
    ensures e < t <= e + BRACKET
  {
    a + (t - 1 - a) / BRACKET * BRACKET
  }

  /** What is told about the step at `t` by a bracket from `e1`. */
  function EmittedFrom(z: Zone, e1: int, t: int): Transition {
    var e2 := e1 + BRACKET;
    var start := FloorHour(if Jump(z, t) > 0 then e1 else e2);
    Transition(z.dst(e2), z.utcoffset(t - 1), z.utcoffset(t), start, z.tzname(e2))
  }

  /** What the window after `a` tells about its only step. */
  function Emitted(z: Zone, a: int, t: int): Transition {
    EmittedFrom(z, GridBefore(a, t), t)
  }

  /** A bracket, doubled `m` times. */
  function Width(m: nat): (w: int)
    ensures w >= BRACKET
  {
    if m == 0 then BRACKET else Width(m - 1) + Width(m - 1)
  }

  /** One halving of a window around one step. */
  lemma BisectHalf(z: Zone, d1: int, d3: int, d2: int, t: int)
    requires d3 - d1 == d2 - d3 >= BRACKET
    requires OnlyStepIn(z, d1, d2, t)
    ensures BisectTransition(z, d1, d2) == if d3 < t then BisectTransition(z, d3, d2) else BisectTransition(z, d1, d3)
    ensures if d3 < t then OnlyStepIn(z, d3, d2, t) else OnlyStepIn(z, d1, d3, t)
  {
    assert HalfDelta(d2 - d1) == d3 - d1;
    OffsetsAroundOnlyStep(z, d1, d2, t, d1);
    OffsetsAroundOnlyStep(z, d1, d2, t, d2);
    OffsetsAroundOnlyStep(z, d1, d2, t, d3);
  }

  lemma BisectBracket(z: Zone, d1: int, t: int)
    requires OnlyStepIn(z, d1, d1 + BRACKET, t)
    ensures BisectTransition(z, d1, d1 + BRACKET) == Some(EmittedFrom(z, d1, t))
  {
    OffsetsAroundOnlyStep(z, d1, d1 + BRACKET, t, d1);
    OffsetsAroundOnlyStep(z, d1, d1 + BRACKET, t, d1 + BRACKET);
    assert HalfDelta(BRACKET) < 30 * MINUTE;
  }

  /** The bracket from `e1` is one of those of the window of width `m` after `d1`. */
  ghost predicate IsBracket(d1: int, m: nat, e1: int)
    decreases m
  {
    if m == 0 then e1 == d1 else IsBracket(d1, m - 1, e1) || IsBracket(d1 + Width(m - 1), m - 1, e1)
  }

  lemma {:induction false} BracketIsInside(d1: int, m: nat, e1: int)
    requires IsBracket(d1, m, e1)
    ensures d1 <= e1 && e1 + BRACKET <= d1 + Width(m)
    decreases m
  {
    if m > 0 {
      if IsBracket(d1, m - 1, e1) {
        BracketIsInside(d1, m - 1, e1);
      } else {
        BracketIsInside(d1 + Width(m - 1), m - 1, e1);
      }
    }
  }

  lemma {:induction false} WidthInBrackets(m: nat)
    ensures Width(m) % BRACKET == 0
  {
    if m > 0 {
      WidthInBrackets(m - 1);
    }
  }

  lemma NextMultiple(x: int, w: int)
    requires x % BRACKET == 0 && w % BRACKET == 0 && x < w
    ensures x + BRACKET <= w && (w - x) % BRACKET == 0
  {
    var i, n := x / BRACKET, w / BRACKET;
    assert x == i * BRACKET && w == n * BRACKET;
    assert (w - x) == (n - i) * BRACKET;
  }

  /** The points of the grid are the starts of the brackets. */
  lemma {:induction false} GridIsBrackets(d1: int, m: nat, e1: int)
    requires d1 <= e1 < d1 + Width(m) && (e1 - d1) % BRACKET == 0
    ensures IsBracket(d1, m, e1)
    decreases m
  {
    if m == 0 {
      assert e1 - d1 == 0;
    } else {
      var w := Width(m - 1);
      WidthInBrackets(m - 1);
      if e1 < d1 + w {
        GridIsBrackets(d1, m - 1, e1);
      } else {
        if e1 > d1 + w {
          NextMultiple(w, e1 - d1);
        }
        GridIsBrackets(d1 + w, m - 1, e1);
      }
    }
  }

  lemma BracketOfHalf(d1: int, m: nat, e1: int, t: int)
    requires m > 0 && IsBracket(d1, m, e1) && e1 < t <= e1 + BRACKET
    ensures if d1 + Width(m - 1) < t then IsBracket(d1 + Width(m - 1), m - 1, e1) else IsBracket(d1, m - 1, e1)
  {
    if IsBracket(d1, m - 1, e1) {
      BracketIsInside(d1, m - 1, e1);
    } else {
      BracketIsInside(d1 + Width(m - 1), m - 1, e1);
    }
  }

  /** A function of windows that halves one as the bisection does, when the only step of the
      window is at `t`. */
  ghost predicate Halves(f: (int, int) -> Option<Transition>, z: Zone, d1: int, d3: int, d2: int, t: int) {
    d3 - d1 == d2 - d3 >= BRACKET && OnlyStepIn(z, d1, d2, t) ==>
      && f(d1, d2) == (if d3 < t then f(d3, d2) else f(d1, d3))
      && if d3 < t then OnlyStepIn(z, d3, d2, t) else OnlyStepIn(z, d1, d3, t)
  }

  lemma {:induction false} HalvesOnGrid(f: (int, int) -> Option<Transition>, z: Zone, d1: int, d2: int, m: nat, e1: int,
      t: int)
    requires forall d1, d3, d2 :: Halves(f, z, d1, d3, d2, t)
    requires d2 == d1 + Width(m) && OnlyStepIn(z, d1, d2, t)
    requires IsBracket(d1, m, e1) && e1 < t <= e1 + BRACKET
    ensures f(d1, d2) == f(e1, e1 + BRACKET) && OnlyStepIn(z, e1, e1 + BRACKET, t)
    decreases m
  {
    if m > 0 {
      var d3 := d1 + Width(m - 1);
      BracketOfHalf(d1, m, e1, t);
      assert Halves(f, z, d1, d3, d2, t);
      if d3 < t {
        HalvesOnGrid(f, z, d3, d2, m - 1, e1, t);
      } else {
        HalvesOnGrid(f, z, d1, d3, m - 1, e1, t);
      }
    }
  }

  lemma WindowIsDoubledTenTimes()
    ensures Width(10) == WINDOW
  {
    assert Width(3) == 8 * BRACKET;
    assert Width(6) == 64 * BRACKET;
    assert Width(9) == 512 * BRACKET;
  }

  function Answers(z: Zone): (int, int) -> Option<Transition> {
    (d1, d2) => if d1 <= d2 then BisectTransition(z, d1, d2) else None
  }

  lemma AnswersHalve(z: Zone, t: int)
    ensures forall d1, d3, d2 :: Halves(Answers(z), z, d1, d3, d2, t)
  {
    forall d1, d3, d2
      ensures Halves(Answers(z), z, d1, d3, d2, t)
    {
      if d3 - d1 == d2 - d3 >= BRACKET && OnlyStepIn(z, d1, d2, t) {
        BisectHalf(z, d1, d3, d2, t);
      }
    }
  }

  lemma AnswerOfBracket(z: Zone, e1: int, t: int)
    requires OnlyStepIn(z, e1, e1 + BRACKET, t)
    ensures Answers(z)(e1, e1 + BRACKET) == Some(EmittedFrom(z, e1, t))
  {
    BisectBracket(z, e1, t);
  }

  lemma GridTells(z: Zone, a: int, b: int, t: int)
    requires b == a + WINDOW && OnlyStepIn(z, a, b, t)
    ensures Answers(z)(a, b) == Some(Emitted(z, a, t))
  {
    var e1 := GridBefore(a, t);
    AnswersHalve(z, t);
    WindowIsDoubledTenTimes();
    GridIsBrackets(a, 10, e1);
    HalvesOnGrid(Answers(z), z, a, b, 10, e1, t);
    AnswerOfBracket(z, e1, t);
  }

  /** A window around one step, of any zone, tells the offsets around the step, and a start and
      labels that depend on where the window lies. */
  lemma BisectTransitionExact(z: Zone, a: int, t: int)
    requires OnlyStepIn(z, a, a + WINDOW, t)
    ensures BisectTransition(z, a, a + WINDOW) == Some(Emitted(z, a, t))
  {
    GridTells(z, a, a + WINDOW, t);
    assert Answers(z)(a, a + WINDOW) == BisectTransition(z, a, a + WINDOW);
  }

  /** The start is right: clocks go back on a whole hour, or they go forward at an onset on a
      whole hour and the last bracket starts in the hour of the onset. */
  predicate StartsWell(z: Zone, a: int, t: int) {
    if Jump(z, t) > 0 then
      var onset := t - Jump(z, t);
      onset % HOUR == 0 && onset <= GridBefore(a, t) < onset + HOUR
    else
      t % HOUR == 0
  }

  lemma FloorHourIs(t: int, h: int)
    ensures FloorHour(t) == h <==> h % HOUR == 0 && h <= t < h + HOUR
  {
    if h % HOUR == 0 && h <= t < h + HOUR {
      assert (t - h) % HOUR == t - h;
    }
  }

  /** The start that is emitted is the local time at which the change takes effect if and only
      if the step starts well in its window. */
  lemma EmittedStartIsOnset(z: Zone, a: int, t: int)
    requires Step(z, t)
    ensures Emitted(z, a, t).dtstart == Onset(z, t) <==> StartsWell(z, a, t)
  {
    var e1 := GridBefore(a, t);
    FloorHourIs(if Jump(z, t) > 0 then e1 else e1 + BRACKET, Onset(z, t));
  }

  /** When clocks go back, or forward by one hour, only the step itself counts and not the
      window: it has to be on a whole hour. */
  lemma StartOfOneHourStep(z: Zone, a: int, t: int)
    requires Jump(z, t) < 0 || Jump(z, t) == HOUR
    ensures StartsWell(z, a, t) <==> t % HOUR == 0
  {
  }

  ghost predicate AtMostOneStep(z: Zone, a: int) {
    forall s, t :: Step(z, s) && Step(z, t) && a < s <= a + WINDOW && a < t <= a + WINDOW ==> s == t
  }

  /** The window after `a` has one step at most, which starts well and has its labels still at
      the end of the last bracket. */
  ghost predicate Exact(z: Zone, a: int) {
    && AtMostOneStep(z, a)
    && forall t :: Step(z, t) && a < t <= a + WINDOW ==>
         StartsWell(z, a, t) && SameLabels(z, t, GridBefore(a, t) + BRACKET)
  }

  /** The window after `a` tells each of its steps as it is. */
  ghost predicate TellsItsSteps(z: Zone, a: int) {
    forall t :: Step(z, t) && a < t <= a + WINDOW ==> BisectTransition(z, a, a + WINDOW) == Some(TransitionAt(z, t))
  }

  lemma DifferentSteps(z: Zone, s: int, t: int)
    requires s != t
    ensures TransitionAt(z, s) != TransitionAt(z, t)
  {
    assert Jump(z, s) == Jump(z, t) ==> Onset(z, s) - Onset(z, t) == s - t;
  }

  /** For any zone at all: a window tells each of its steps as it is if and only if it is
      exact. In particular two steps in one window are never both told. */
  lemma WindowTellsItsSteps(z: Zone, a: int)
    ensures TellsItsSteps(z, a) <==> Exact(z, a)
  {
    if t :| Step(z, t) && a < t <= a + WINDOW {
      if s :| Step(z, s) && a < s <= a + WINDOW && s != t {
        DifferentSteps(z, s, t);
      } else {
        assert OnlyStepIn(z, a, a + WINDOW, t);
        BisectTransitionExact(z, a, t);
        EmittedStartIsOnset(z, a, t);
      }
    }
  }

  /** What is told about an exact window, and when. */
  lemma ExactWindowYields(z: Zone, a: int) returns (t: int)
    requires Exact(z, a)
    ensures var r := BisectTransition(z, a, a + WINDOW);
            && (r.None? <==> NoStepIn(z, a, a + WINDOW))
            && (r.Some? ==> OnlyStepIn(z, a, a + WINDOW, t) && r.value == TransitionAt(z, t))
  {
    t := 0;
    WindowTellsItsSteps(z, a);
    if s :| Step(z, s) && a < s <= a + WINDOW {
      t := s;
    } else {
      ConstantBetween(z, a, a + WINDOW);
    }
  }

  /** The usual steps: on a whole hour, back or forward by one hour, with labels that hold for
      an hour. They are told as they are by every window that has no other step. */
  ghost predicate Usual(z: Zone, t: int) {
    && t % HOUR == 0
    && (Jump(z, t) > 0 ==> Jump(z, t) == HOUR)
    && forall u :: t <= u < t + HOUR ==> SameLabels(z, t, u)
  }

  lemma UsualIsExact(z: Zone, a: int)
    requires AtMostOneStep(z, a)
    requires forall t :: Step(z, t) && a < t <= a + WINDOW ==> Usual(z, t)
    ensures Exact(z, a)
  {
    forall t | Step(z, t) && a < t <= a + WINDOW
      ensures StartsWell(z, a, t) && SameLabels(z, t, GridBefore(a, t) + BRACKET)
    {
      StartOfOneHourStep(z, a, t);
    }
  }

  // ------------------------------------------------------------ unusual steps

  /** Clocks go forward by half an hour at two, as on Lord Howe Island. */
  const HALF_HOUR: Zone := Zone(
    t => if t < 150 * MINUTE then 10 * HOUR + 30 * MINUTE else 11 * HOUR,
    t => t >= 150 * MINUTE,
    t => if t >= 150 * MINUTE then "+11" else "+1030")

  /** The same step is told with the right start by a window that ends in a bracket from 2:20,
      and one hour early by a window that ends in a bracket from 1:50. */
  lemma HalfHourDependsOnWindow()
    ensures var a := 140 * MINUTE - 9 * BRACKET;
            && OnlyStepIn(HALF_HOUR, a, a + WINDOW, 150 * MINUTE)
            && BisectTransition(HALF_HOUR, a, a + WINDOW) == Some(TransitionAt(HALF_HOUR, 150 * MINUTE))
    ensures var a := 110 * MINUTE - 9 * BRACKET;
            && OnlyStepIn(HALF_HOUR, a, a + WINDOW, 150 * MINUTE)
            && BisectTransition(HALF_HOUR, a, a + WINDOW).Some?
            && BisectTransition(HALF_HOUR, a, a + WINDOW).value.dtstart == Onset(HALF_HOUR, 150 * MINUTE) - HOUR
  {
    HalfHourFrom(140 * MINUTE);
    HalfHourFrom(110 * MINUTE);
    FloorHourIs(140 * MINUTE, 120 * MINUTE);
    FloorHourIs(110 * MINUTE, 60 * MINUTE);
  }

  lemma HalfHourFrom(e: int)
    requires 150 * MINUTE - BRACKET <= e < 150 * MINUTE
    ensures var a := e - 9 * BRACKET;
            && OnlyStepIn(HALF_HOUR, a, a + WINDOW, 150 * MINUTE)
            && BisectTransition(HALF_HOUR, a, a + WINDOW) == Some(EmittedFrom(HALF_HOUR, e, 150 * MINUTE))
  {
    var a := e - 9 * BRACKET;
    assert GridBefore(a, 150 * MINUTE) == e;
    BisectTransitionExact(HALF_HOUR, a, 150 * MINUTE);
  }
}
