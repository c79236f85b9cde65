/** Scanning a zone for its transitions through windows of 30 days, backward from the start of
    a range of dates and then forward past its end. */
module TransitionScan {
  import opened Options
  import opened TimeUnits
  import opened Bisection
  import opened Sequences

  // ------------------------------------------------------------ what the scan must find

  ghost predicate LastStepBy(z: Zone, date: int, t: int) {
    && Step(z, t)
    && t <= date
    && forall s :: Step(z, s) && s <= date ==> s <= t
  }

  /** `steps` is the last step at or before `dateFrom`, then every later step whose onset is
      not after `dateTo`, once each, in order. */
  ghost predicate IsScan(z: Zone, dateFrom: int, dateTo: int, steps: seq<int>) {
    && steps != []
    && LastStepBy(z, dateFrom, steps[0])
    && Increasing(steps)
    && (forall i :: 1 <= i < |steps| ==> Step(z, steps[i]) && dateFrom < steps[i] && Onset(z, steps[i]) <= dateTo)
    && (forall s :: Step(z, s) && dateFrom < s && Onset(z, s) <= dateTo ==> s in steps)
  }

  ghost function TransitionsAt(z: Zone, steps: seq<int>): (trs: seq<Transition>)
    ensures |trs| == |steps|
    ensures forall i :: 0 <= i < |steps| ==> trs[i] == TransitionAt(z, steps[i])
  {
    seq(|steps|, i requires 0 <= i < |steps| => TransitionAt(z, steps[i]))
  }

  /** The raw parts that a range of dates must give. */
  ghost predicate Scanned(z: Zone, dateFrom: int, dateTo: int, trs: seq<Transition>) {
    exists steps :: IsScan(z, dateFrom, dateTo, steps) && trs == TransitionsAt(z, steps)
  }

  /** A range of dates leaves only one possible scan. */
  lemma ScanIsUnique(z: Zone, dateFrom: int, dateTo: int, trs: seq<Transition>, trs': seq<Transition>)
    requires Scanned(z, dateFrom, dateTo, trs)
    requires Scanned(z, dateFrom, dateTo, trs')
    ensures trs == trs'
  {
    var steps :| IsScan(z, dateFrom, dateTo, steps) && trs == TransitionsAt(z, steps);
    var steps' :| IsScan(z, dateFrom, dateTo, steps') && trs' == TransitionsAt(z, steps');
    assert steps[0] == steps'[0];
    SameElementsSameOrder(steps, steps');
  }

  // ------------------------------------------------------------ what the scan needs

  /** A window that the scan from `dateFrom` may look through. */
  predicate Aligned(dateFrom: int, a: int) {
    (a - dateFrom) % WINDOW == 0
  }

  /** No step lies in the local times that the clocks jump over at another one. */
  ghost predicate NoStepInJump(z: Zone, lo: int, hi: int) {
    forall s, t :: Step(z, s) && Step(z, t) && lo < s < t <= hi ==> s < Onset(z, t)
  }

  ghost predicate ExactWindows(z: Zone, dateFrom: int, lo: int, hi: int) {
    forall a :: Aligned(dateFrom, a) && lo <= a && a + WINDOW <= hi ==> Exact(z, a)
  }

  /** The zone is fit for a scan of the range. There is a step `s` at or before its start and a
      step `beyond` with its onset after its end; from a window before the one to a window
      after the other, each window that may be looked through is exact, and no step lies in the
      jump of another. What the zone did earlier, or will do later, does not matter. */
  ghost predicate Scannable(z: Zone, dateFrom: int, dateTo: int, s: int, beyond: int) {
    && dateFrom <= dateTo
    && Step(z, s) && s <= dateFrom
    && Step(z, beyond) && dateTo < Onset(z, beyond)
    && NoStepInJump(z, s - WINDOW, beyond + WINDOW)
    && ExactWindows(z, dateFrom, s - WINDOW, beyond + WINDOW)
  }

  /** Usual steps a window apart make a zone fit, wherever the windows lie. */
  lemma UsualIsScannable(z: Zone, dateFrom: int, dateTo: int, s: int, beyond: int)
    requires dateFrom <= dateTo
    requires Step(z, s) && s <= dateFrom
    requires Step(z, beyond) && dateTo < Onset(z, beyond)
    requires forall t :: Step(z, t) && s - WINDOW < t <= beyond + WINDOW ==> Usual(z, t)
    requires forall t, u :: Step(z, t) && Step(z, u) && s - WINDOW < t < u <= beyond + WINDOW ==> t + WINDOW <= u
    ensures Scannable(z, dateFrom, dateTo, s, beyond)
  {
    forall a | Aligned(dateFrom, a) && s - WINDOW <= a && a + WINDOW <= beyond + WINDOW
      ensures Exact(z, a)
    {
      UsualIsExact(z, a);
    }
  }

  /** Onsets come in the order of the steps. */
  lemma OnsetsIncrease(z: Zone, s: int, t: int)
    requires s < Onset(z, t)
    ensures s < t && Onset(z, s) < Onset(z, t)
  {
  }

  /** A step with an onset in the range, or before it, is not farther than `beyond`. */
  lemma OnsetInRange(z: Zone, dateFrom: int, dateTo: int, s: int, beyond: int, t: int)
    requires Scannable(z, dateFrom, dateTo, s, beyond)
    requires Onset(z, t) <= dateTo
    ensures t < beyond + 2 * DAY
  {
  }

  // ------------------------------------------------------------ backward

  /** What the window of 30 days after `a` yields. */
  method YieldTransition(z: Zone, a: int) returns (r: Option<Transition>, ghost step: int)
    requires Exact(z, a)
    ensures r == BisectTransition(z, a, a + WINDOW)
    ensures r.None? <==> NoStepIn(z, a, a + WINDOW)
    ensures r.Some? ==> OnlyStepIn(z, a, a + WINDOW, step) && r.value == TransitionAt(z, step)
  {
    step := ExactWindowYields(z, a);
    r := BisectTransition(z, a, a + WINDOW);
  }

  /** The first transition that the backward windows yield. */
  method LastTransitionBy(z: Zone, dateFrom: int, dateTo: int, ghost s: int, ghost beyond: int)
    returns (tr: Transition)
    requires Scannable(z, dateFrom, dateTo, s, beyond)
    ensures exists step :: LastStepBy(z, dateFrom, step) && tr == TransitionAt(z, step)
  {
    var start := dateFrom;
    while true
      invariant s <= start <= dateFrom && Aligned(dateFrom, start)
      invariant NoStepIn(z, start, dateFrom)
      decreases start - s
    {
      var end := start - WINDOW;
      assert Aligned(dateFrom, end);
      var r, step := YieldTransition(z, end);
      if r.Some? {
        LastOfWindow(z, dateFrom, start, step);
        return r.value;
      }
      start := end;
    }
  }

  lemma LastOfWindow(z: Zone, dateFrom: int, start: int, step: int)
    requires start <= dateFrom && NoStepIn(z, start, dateFrom)
    requires OnlyStepIn(z, start - WINDOW, start, step)
    ensures LastStepBy(z, dateFrom, step)
  {
  }

  // ------------------------------------------------------------ forward

  /** The steps found so far: all of them up to `start`. */
  ghost predicate ScannedUpTo(z: Zone, dateFrom: int, dateTo: int, start: int, steps: seq<int>) {
    && steps != []
    && LastStepBy(z, dateFrom, steps[0])
    && Increasing(steps)
    && (forall i :: 1 <= i < |steps| ==> Step(z, steps[i]) && dateFrom < steps[i] && Onset(z, steps[i]) <= dateTo)
    && (forall s :: s in steps ==> s <= start)
    && (forall s :: Step(z, s) && dateFrom < s <= start ==> s in steps)
  }

  lemma WindowScanned(z: Zone, dateFrom: int, dateTo: int, start: int, steps: seq<int>, step: int)
    requires ScannedUpTo(z, dateFrom, dateTo, start, steps)
    requires dateFrom <= start
    requires OnlyStepIn(z, start, start + WINDOW, step)
    requires Onset(z, step) <= dateTo
    ensures ScannedUpTo(z, dateFrom, dateTo, start + WINDOW, steps + [step])
  {
    var longer := steps + [step];
    assert forall i :: 0 <= i < |steps| ==> steps[i] in steps;
    forall s | Step(z, s) && dateFrom < s <= start + WINDOW
      ensures s in longer
    {
      assert s <= start ==> s in steps;
    }
  }

  lemma EmptyWindowScanned(z: Zone, dateFrom: int, dateTo: int, start: int, steps: seq<int>)
    requires ScannedUpTo(z, dateFrom, dateTo, start, steps)
    requires NoStepIn(z, start, start + WINDOW)
    ensures ScannedUpTo(z, dateFrom, dateTo, start + WINDOW, steps)
  {
  }

  lemma ScanIsComplete(z: Zone, dateFrom: int, dateTo: int, s: int, beyond: int, start: int, steps: seq<int>, step: int)
    requires Scannable(z, dateFrom, dateTo, s, beyond)
    requires dateFrom <= start < beyond
    requires ScannedUpTo(z, dateFrom, dateTo, start, steps)
    requires OnlyStepIn(z, start, start + WINDOW, step)
    requires dateTo < Onset(z, step)
    ensures IsScan(z, dateFrom, dateTo, steps)
  {
    forall t | Step(z, t) && dateFrom < t && Onset(z, t) <= dateTo
      ensures t in steps
    {
      OnsetInRange(z, dateFrom, dateTo, s, beyond, t);
      if t > step {
        OnsetsIncrease(z, step, t);
      }
    }
  }

  lemma BeyondIsAhead(z: Zone, dateFrom: int, dateTo: int, start: int, steps: seq<int>, beyond: int)
    requires ScannedUpTo(z, dateFrom, dateTo, start, steps)
    requires dateFrom <= dateTo < Onset(z, beyond) && Step(z, beyond)
    ensures start < beyond
  {
    assert dateFrom < beyond <= start ==> beyond in steps;
  }

  lemma TransitionsAtAppend(z: Zone, steps: seq<int>, step: int)
    ensures TransitionsAt(z, steps + [step]) == TransitionsAt(z, steps) + [TransitionAt(z, step)]
  {
  }

  /** What the yield of one forward window means for the scan. */
  lemma ForwardWindow(z: Zone, dateFrom: int, dateTo: int, s: int, beyond: int, start: int, steps: seq<int>,
      r: Option<Transition>, step: int)
    requires Scannable(z, dateFrom, dateTo, s, beyond)
    requires dateFrom <= start < beyond
    requires ScannedUpTo(z, dateFrom, dateTo, start, steps)
    requires r.None? ==> NoStepIn(z, start, start + WINDOW)
    requires r.Some? ==> OnlyStepIn(z, start, start + WINDOW, step) && r.value == TransitionAt(z, step)
    ensures r.None? ==> ScannedUpTo(z, dateFrom, dateTo, start + WINDOW, steps)
    ensures r.Some? && r.value.dtstart > dateTo ==> IsScan(z, dateFrom, dateTo, steps)
    ensures r.Some? && r.value.dtstart <= dateTo ==>
              && ScannedUpTo(z, dateFrom, dateTo, start + WINDOW, steps + [step])
              && TransitionsAt(z, steps + [step]) == TransitionsAt(z, steps) + [r.value]
  {
    if r.None? {
      EmptyWindowScanned(z, dateFrom, dateTo, start, steps);
    } else if r.value.dtstart > dateTo {
      ScanIsComplete(z, dateFrom, dateTo, s, beyond, start, steps, step);
    } else {
      WindowScanned(z, dateFrom, dateTo, start, steps, step);
      TransitionsAtAppend(z, steps, step);
    }
  }

  /** The scan is over, or all is found up to `start`. */
  ghost predicate InProgress(z: Zone, dateFrom: int, dateTo: int, start: int, over: bool,
      trs: seq<Transition>, steps: seq<int>)
  {
    && dateFrom <= start && Aligned(dateFrom, start)
    && trs == TransitionsAt(z, steps)
    && if over then IsScan(z, dateFrom, dateTo, steps) else ScannedUpTo(z, dateFrom, dateTo, start, steps)
  }

  /** One forward window: the transitions so far, and whether the scan is over. */
  method AddWindow(z: Zone, dateFrom: int, dateTo: int, ghost s: int, ghost beyond: int, start: int,
      trs: seq<Transition>, ghost steps: seq<int>)
    returns (over: bool, trs': seq<Transition>, ghost steps': seq<int>)
    requires Scannable(z, dateFrom, dateTo, s, beyond)
    requires InProgress(z, dateFrom, dateTo, start, false, trs, steps)
    ensures InProgress(z, dateFrom, dateTo, start + WINDOW, over, trs', steps')
    ensures !over ==> start + WINDOW < beyond
  {
    over, trs', steps' := false, trs, steps;
    BeyondIsAhead(z, dateFrom, dateTo, start, steps, beyond);
    var r, step := YieldTransition(z, start);
    ForwardWindow(z, dateFrom, dateTo, s, beyond, start, steps, r, step);
    if r.Some? {
      if r.value.dtstart > dateTo {
        over := true;
        return;
      }
      trs', steps' := trs + [r.value], steps + [step];
    }
    BeyondIsAhead(z, dateFrom, dateTo, start + WINDOW, steps', beyond);
  }

  lemma ScanStarts(z: Zone, dateFrom: int, dateTo: int, step: int, first: Transition)
    requires LastStepBy(z, dateFrom, step) && first == TransitionAt(z, step)
    ensures ScannedUpTo(z, dateFrom, dateTo, dateFrom, [step]) && [first] == TransitionsAt(z, [step])
  {
  }

  lemma ScanEnds(z: Zone, dateFrom: int, dateTo: int, steps: seq<int>, trs: seq<Transition>)
    requires IsScan(z, dateFrom, dateTo, steps) && trs == TransitionsAt(z, steps)
    ensures Scanned(z, dateFrom, dateTo, trs)
  {
  }

  /** The first transition, and those that the forward windows yield until one is too late. */
  method WithLaterTransitions(z: Zone, dateFrom: int, dateTo: int, ghost s: int, ghost beyond: int,
      first: Transition, ghost step: int)
    returns (trs: seq<Transition>)
    requires Scannable(z, dateFrom, dateTo, s, beyond)
    requires LastStepBy(z, dateFrom, step) && first == TransitionAt(z, step)
    ensures Scanned(z, dateFrom, dateTo, trs)
  {
    ghost var steps := [step];
    trs := [first];
    ScanStarts(z, dateFrom, dateTo, step, first);
    var start, over := dateFrom, false;
    while !over
      invariant InProgress(z, dateFrom, dateTo, start, over, trs, steps)
      decreases !over, beyond - start
    {
      over, trs, steps := AddWindow(z, dateFrom, dateTo, s, beyond, start, trs, steps);
      start := start + WINDOW;
    }
    ScanEnds(z, dateFrom, dateTo, steps, trs);
  }

  /** All the transitions, before merging. */
  method ScanTransitions(z: Zone, dateFrom: int, dateTo: int, ghost s: int, ghost beyond: int)
    returns (trs: seq<Transition>)
    requires Scannable(z, dateFrom, dateTo, s, beyond)
    ensures Scanned(z, dateFrom, dateTo, trs)
  {
    var first := LastTransitionBy(z, dateFrom, dateTo, s, beyond);
    ghost var step :| LastStepBy(z, dateFrom, step) && first == TransitionAt(z, step);
    trs := WithLaterTransitions(z, dateFrom, dateTo, s, beyond, first, step);
  }

  // ------------------------------------------------------------ when the scans stop

  /** The start of a window; negative numbers count backward. */
  function WindowStart(dateFrom: int, k: int): int {
    dateFrom + k * WINDOW
  }

  ghost predicate Yields(z: Zone, a: int) {
    BisectTransition(z, a, a + WINDOW).Some?
  }

  ghost predicate YieldsAfter(z: Zone, a: int, dateTo: int) {
    Yields(z, a) && BisectTransition(z, a, a + WINDOW).value.dtstart > dateTo
  }

  lemma YieldsAtChange(z: Zone, a: int)
    ensures Yields(z, a) <==> z.utcoffset(a) != z.utcoffset(a + WINDOW)
    ensures Yields(z, a) ==> exists s :: Step(z, s) && a < s <= a + WINDOW
  {
    var _, _ := BisectTransitionBrackets(z, a, a + WINDOW);
    if forall s :: !(Step(z, s) && a < s <= a + WINDOW) {
      ConstantBetween(z, a, a + WINDOW);
    }
  }

  lemma WindowAround(dateFrom: int, s: int) returns (k: int)
    ensures WindowStart(dateFrom, k) < s <= WindowStart(dateFrom, k) + WINDOW
    ensures s <= dateFrom <==> k < 0
  {
    k := (s - 1 - dateFrom) / WINDOW;
  }

  /** For any zone at all: no backward window yields as long as the offset, looked at every 30
      days, is the one at the start of the range. */
  lemma {:induction false} NoYieldBackward(z: Zone, dateFrom: int, n: nat)
    requires forall k :: 0 - n <= k < 0 ==> !Yields(z, WindowStart(dateFrom, k))
    ensures z.utcoffset(WindowStart(dateFrom, 0 - n)) == z.utcoffset(dateFrom)
  {
    if n > 0 {
      NoYieldBackward(z, dateFrom, n - 1);
      YieldsAtChange(z, WindowStart(dateFrom, 0 - n));
      assert WindowStart(dateFrom, 0 - n) + WINDOW == WindowStart(dateFrom, 0 - (n - 1));
    }
  }

  /** For any zone at all: some backward window yields exactly when the offset, looked at every
      30 days, was once another one than at the start of the range. */
  lemma BackwardScanStops(z: Zone, dateFrom: int)
    ensures (exists k :: k < 0 && Yields(z, WindowStart(dateFrom, k)))
       <==> exists k :: k < 0 && z.utcoffset(WindowStart(dateFrom, k)) != z.utcoffset(dateFrom)
  {
    if k :| k < 0 && z.utcoffset(WindowStart(dateFrom, k)) != z.utcoffset(dateFrom) {
      if forall j :: j < 0 ==> !Yields(z, WindowStart(dateFrom, j)) {
        NoYieldBackward(z, dateFrom, -k);
      }
    }
    if k :| k < 0 && Yields(z, WindowStart(dateFrom, k)) {
      YieldsAtChange(z, WindowStart(dateFrom, k));
      assert WindowStart(dateFrom, k + 1) == WindowStart(dateFrom, k) + WINDOW;
      assert WindowStart(dateFrom, 0) == dateFrom;
      assert k + 1 < 0 || k + 1 == 0;
    }
  }

  /** With one step a window at most, some backward window yields exactly when there is a step
      at or before the start of the range. */
  lemma BackwardScanStopsAtStep(z: Zone, dateFrom: int)
    requires forall k :: k < 0 ==> AtMostOneStep(z, WindowStart(dateFrom, k))
    ensures (exists k :: k < 0 && Yields(z, WindowStart(dateFrom, k))) <==> exists s :: Step(z, s) && s <= dateFrom
  {
    if s :| Step(z, s) && s <= dateFrom {
      var k := WindowAround(dateFrom, s);
      var a := WindowStart(dateFrom, k);
      assert OnlyStepIn(z, a, a + WINDOW, s);
      BisectTransitionExact(z, a, s);
      assert Yields(z, a);
    }
    if k :| k < 0 && Yields(z, WindowStart(dateFrom, k)) {
      YieldsAtChange(z, WindowStart(dateFrom, k));
      var s :| Step(z, s) && WindowStart(dateFrom, k) < s <= WindowStart(dateFrom, k) + WINDOW;
    }
  }

  /** With exact windows, some forward window yields a transition after the range exactly when
      some step has its onset there. */
  lemma ForwardScanStopsAtStep(z: Zone, dateFrom: int, dateTo: int)
    requires dateFrom <= dateTo
    requires forall k :: 0 <= k ==> Exact(z, WindowStart(dateFrom, k))
    ensures (exists k :: 0 <= k && YieldsAfter(z, WindowStart(dateFrom, k), dateTo))
       <==> exists s :: Step(z, s) && dateTo < Onset(z, s)
  {
    if s :| Step(z, s) && dateTo < Onset(z, s) {
      var k := WindowAround(dateFrom, s);
      var a := WindowStart(dateFrom, k);
      WindowTellsItsSteps(z, a);
      assert YieldsAfter(z, a, dateTo);
    }
    if k :| 0 <= k && YieldsAfter(z, WindowStart(dateFrom, k), dateTo) {
      var s := ExactWindowYields(z, WindowStart(dateFrom, k));
    }
  }

  /** Ten days of summer time inside the window that starts at 0. */
  const SHORT_SUMMER: Zone := Zone(
    t => if 10 * DAY <= t < 20 * DAY then HOUR else 0,
    t => 10 * DAY <= t < 20 * DAY,
    t => if 10 * DAY <= t < 20 * DAY then "BST" else "GMT")

  /** Two steps that cancel out in a window are both missed, and a scan of a zone with no other
      step never stops, in either direction. */
  lemma CancellingStepsAreMissed(k: int)
    ensures Step(SHORT_SUMMER, 10 * DAY) && Step(SHORT_SUMMER, 20 * DAY)
    ensures !Yields(SHORT_SUMMER, WindowStart(0, k))
  {
    YieldsAtChange(SHORT_SUMMER, WindowStart(0, k));
  }
}
