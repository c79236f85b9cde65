/** Two cities whose tables for 2010 the repository's own tests spell out: the zones are fit
    for the scan, and the tables are those. */
module SummerTime {
  import opened Options
  import opened TimeUnits
  import opened Bisection
  import opened PartTable
  import opened Sequences
  import opened TransitionScan
  import opened VTimezone

  /** Day 0 is the 25th of October 2009. */
  const JANUARY_2010: int := 68 * DAY
  const DECEMBER_2010: int := 432 * DAY

  /** 75 seconds past midnight on the 1st of December 1847. */
  const MEAN_TIME_END: int := -59133 * DAY + 75 * SECOND

  type StandardOffset = x: int | 0 <= x <= HOUR

  /** A city that tells some mean time until 1847, then standard time, and from March 2009 on
      has summer time; clocks show `hour` when they go back and after they went forward. */
  datatype City = City(
    meanTime: Offset,
    standard: StandardOffset,
    hour: int,
    name: string,
    summerName: string)
  {
    ghost predicate Valid() {
      0 <= hour <= 3 * HOUR && hour % HOUR == 0
    }

    predicate Summer(t: int) {
      || -210 * DAY + hour <= t < hour
      || 154 * DAY + hour <= t < 371 * DAY + hour
      || 518 * DAY + hour <= t
    }

    function OffsetAt(t: int): Offset {
      if t < MEAN_TIME_END then meanTime else if Summer(t) then standard + HOUR else standard
    }

    function NameAt(t: int): string {
      if Summer(t) then summerName else name
    }

    function AsZone(): Zone {
      Zone(OffsetAt, Summer, NameAt)
    }

    function Steps(): seq<int> {
      [hour, 154 * DAY + hour, 371 * DAY + hour]
    }

    function LastStep(): int {
      518 * DAY + hour
    }
  }

  /** The steps of the city's zone, but for a change from its mean time. */
  lemma StepsOf(c: City, t: int)
    requires c.Valid() && MEAN_TIME_END < t
    ensures Step(c.AsZone(), t)
       <==> t == -210 * DAY + c.hour || t == c.hour || t == 154 * DAY + c.hour || t == 371 * DAY + c.hour
            || t == c.LastStep()
  {
    assert c.AsZone().utcoffset(t) == c.OffsetAt(t) && c.AsZone().utcoffset(t - 1) == c.OffsetAt(t - 1);
  }

  lemma StepsAreUsual(c: City, t: int)
    requires c.Valid() && MEAN_TIME_END < t
    requires Step(c.AsZone(), t)
    ensures Usual(c.AsZone(), t)
  {
    StepsOf(c, t);
    forall u | t <= u < t + HOUR
      ensures SameLabels(c.AsZone(), t, u)
    {
      assert c.Summer(t) == c.Summer(u);
    }
  }

  lemma CityIsScannable(c: City)
    requires c.Valid()
    ensures Scannable(c.AsZone(), JANUARY_2010, DECEMBER_2010, c.hour, c.LastStep())
  {
    var z, s, beyond := c.AsZone(), c.hour, c.LastStep();
    StepsOf(c, s);
    StepsOf(c, beyond);
    forall t | Step(z, t) && s - WINDOW < t <= beyond + WINDOW
      ensures Usual(z, t)
    {
      StepsAreUsual(c, t);
    }
    forall t, u | Step(z, t) && Step(z, u) && s - WINDOW < t < u <= beyond + WINDOW
      ensures t + WINDOW <= u
    {
      StepsOf(c, t);
      StepsOf(c, u);
    }
    UsualIsScannable(z, JANUARY_2010, DECEMBER_2010, s, beyond);
  }

  lemma CityScan(c: City)
    requires c.Valid()
    ensures IsScan(c.AsZone(), JANUARY_2010, DECEMBER_2010, c.Steps())
  {
    var z := c.AsZone();
    forall t | MEAN_TIME_END < t
      ensures Step(z, t)
         <==> t == -210 * DAY + c.hour || t == c.hour || t == 154 * DAY + c.hour || t == 371 * DAY + c.hour
              || t == c.LastStep()
    {
      StepsOf(c, t);
    }
    forall t | Step(z, t) && JANUARY_2010 < t && Onset(z, t) <= DECEMBER_2010
      ensures t in c.Steps()
    {
      assert t == c.Steps()[1] || t == c.Steps()[2];
    }
  }

  lemma CityTransitions(c: City)
    requires c.Valid()
    ensures TransitionsAt(c.AsZone(), c.Steps()) == [
              Transition(false, c.standard + HOUR, c.standard, c.hour, c.name),
              Transition(true, c.standard, c.standard + HOUR, 154 * DAY + c.hour - HOUR, c.summerName),
              Transition(false, c.standard + HOUR, c.standard, 371 * DAY + c.hour, c.name)]
  {
  }

  /** A kind that comes back with the same offsets and name joins its first part. */
  lemma MergedOfThree(a: Transition, b: Transition, c: Transition)
    requires a.isDaylight != b.isDaylight && PartOf(a).Accepts(c)
    ensures Merged([a, b, c]).parts == [PartOf(a).(rdatelist := [c.dtstart]), PartOf(b)]
  {
    var one, two, three := [a], [a, b], [a, b, c];
    assert one[..0] == [] && two[..1] == one && three[..2] == two;
    var h0 := Merged([]);
    var h1 := h0.Open(a);
    var h2 := h1.Open(b);
    assert Merged(one) == h1;
    assert Merged(two) == h2;
    assert h2.parts == [PartOf(a), PartOf(b)];
    assert h2.Previous(c.isDaylight) == Some(0);
    assert Merged(three) == h2.Add(c);
    var grown := PartOf(a).(rdatelist := [c.dtstart]);
    assert PartOf(a).rdatelist + [c.dtstart] == grown.rdatelist;
    assert h2.Add(c).parts == h2.parts[0 := grown];
  }

  /** Every such city is fit for the scan of 2010, and its table has two parts: standard time
      since October 2009 and again in October 2010, and summer time since March 2010. */
  lemma CityIn2010(c: City) returns (trs: seq<Transition>)
    requires c.Valid()
    ensures Scannable(c.AsZone(), JANUARY_2010, DECEMBER_2010, c.hour, c.LastStep())
    ensures Scanned(c.AsZone(), JANUARY_2010, DECEMBER_2010, trs)
    ensures Merged(trs).parts == [
              PartData(false, c.standard + HOUR, c.standard, c.hour, [371 * DAY + c.hour], c.name),
              PartData(true, c.standard, c.standard + HOUR, 154 * DAY + c.hour - HOUR, [], c.summerName)]
  {
    CityIsScannable(c);
    CityScan(c);
    CityTransitions(c);
    trs := TransitionsAt(c.AsZone(), c.Steps());
    MergedOfThree(trs[0], trs[1], trs[2]);
  }

  const PARIS: City := City(HOUR, HOUR, 3 * HOUR, "CET", "CEST")

  /** Winter time from three o'clock, summer time from two. */
  lemma ParisIn2010() returns (trs: seq<Transition>)
    ensures Scannable(PARIS.AsZone(), JANUARY_2010, DECEMBER_2010, PARIS.hour, PARIS.LastStep())
    ensures Scanned(PARIS.AsZone(), JANUARY_2010, DECEMBER_2010, trs)
    ensures Merged(trs).parts == [
              PartData(false, 2 * HOUR, HOUR, 3 * HOUR, [371 * DAY + 3 * HOUR], "CET"),
              PartData(true, HOUR, 2 * HOUR, 154 * DAY + 2 * HOUR, [], "CEST")]
  {
    trs := CityIn2010(PARIS);
  }

  const LONDON: City := City(-75 * SECOND, 0, 2 * HOUR, "GMT", "BST")

  /** The mean time of London ended with a step that is told rightly only by a window whose
      last bracket starts in the 75 seconds of the jump. */
  lemma LondonMeanTime(a: int)
    ensures Step(LONDON.AsZone(), MEAN_TIME_END) && !Usual(LONDON.AsZone(), MEAN_TIME_END)
    ensures StartsWell(LONDON.AsZone(), a, MEAN_TIME_END)
       <==> MEAN_TIME_END - 75 * SECOND <= GridBefore(a, MEAN_TIME_END)
  {
    assert Jump(LONDON.AsZone(), MEAN_TIME_END) == 75 * SECOND;
    assert (MEAN_TIME_END - 75 * SECOND) % HOUR == 0;
  }

  /** The table of 2010 is right all the same: winter time from two o'clock, summer time from
      one. */
  lemma LondonIn2010() returns (trs: seq<Transition>)
    ensures Scannable(LONDON.AsZone(), JANUARY_2010, DECEMBER_2010, LONDON.hour, LONDON.LastStep())
    ensures Scanned(LONDON.AsZone(), JANUARY_2010, DECEMBER_2010, trs)
    ensures Merged(trs).parts == [
              PartData(false, HOUR, 0, 2 * HOUR, [371 * DAY + 2 * HOUR], "GMT"),
              PartData(true, 0, HOUR, 154 * DAY + HOUR, [], "BST")]
  {
    trs := CityIn2010(LONDON);
  }
}
