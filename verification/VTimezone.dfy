/** The VTIMEZONE generator of the iCalendar export (section 3.6.5 of RFC 5545): scan
    30-day windows backward, then forward, and merge the transitions into a table. */
module VTimezone {
  import opened Options
  import opened TimeUnits
  import opened Bisection
  import opened PartTable
  import opened Sequences
  import opened TransitionScan

  // ------------------------------------------------------------ what a reader of the table sees

  /** Among the dates of the table that are not after `t`, `date` is the latest, and part `i`
      has it: its TZOFFSETTO is the offset a reader uses at the local time `t`. */
  ghost predicate Governs(parts: seq<PartData>, i: int, date: int, t: int) {
    && 0 <= i < |parts|
    && date in parts[i].Dates()
    && date <= t
    && forall j, d :: 0 <= j < |parts| && d in parts[j].Dates() && d <= t ==> d <= date
  }

  /** A local time that the clocks jumped over. */
  ghost predicate Skipped(z: Zone, t: int) {
    exists s :: Step(z, s) && Onset(z, s) <= t < s
  }

  lemma ListedMeansScanned(z: Zone, steps: seq<int>, parts: seq<PartData>, i: int, date: int) returns (k: int)
    requires parts == Merged(TransitionsAt(z, steps)).parts
    requires 0 <= i < |parts| && date in parts[i].Dates()
    ensures 0 <= k < |steps| && TransitionAt(z, steps[k]) == parts[i].At(date)
  {
    var trs := TransitionsAt(z, steps);
    var tr := parts[i].At(date);
    assert Listed(parts, tr);
    ListedInExpansion(parts, tr);
    MergeIsLossless(trs);
    assert tr in trs;
    k :| 0 <= k < |trs| && trs[k] == tr;
  }

  lemma ScannedMeansListed(z: Zone, steps: seq<int>, parts: seq<PartData>, k: int) returns (i: int)
    requires parts == Merged(TransitionsAt(z, steps)).parts
    requires 0 <= k < |steps|
    ensures 0 <= i < |parts| && Onset(z, steps[k]) in parts[i].Dates()
    ensures parts[i].At(Onset(z, steps[k])) == TransitionAt(z, steps[k])
  {
    var trs := TransitionsAt(z, steps);
    MergeIsLossless(trs);
    assert trs[k] in multiset(trs);
    ListedInExpansion(parts, trs[k]);
    i :| 0 <= i < |parts| && parts[i].Accepts(trs[k]) && trs[k].dtstart in parts[i].Dates();
  }

  /** What was scanned lies in the part of the zone that is fit for the scan. */
  lemma ScannedIsNear(z: Zone, dateFrom: int, dateTo: int, s: int, beyond: int, steps: seq<int>, i: nat)
    requires Scannable(z, dateFrom, dateTo, s, beyond)
    requires IsScan(z, dateFrom, dateTo, steps)
    requires i < |steps|
    ensures Step(z, steps[i]) && s <= steps[i] < beyond + 2 * DAY
  {
    if i > 0 {
      OnsetInRange(z, dateFrom, dateTo, s, beyond, steps[i]);
    }
  }

  lemma ScannedOnsetsIncrease(z: Zone, dateFrom: int, dateTo: int, s: int, beyond: int, steps: seq<int>)
    requires Scannable(z, dateFrom, dateTo, s, beyond)
    requires IsScan(z, dateFrom, dateTo, steps)
    ensures InOrder(TransitionsAt(z, steps))
  {
    var trs := TransitionsAt(z, steps);
    forall i, j | 0 <= i < j < |trs|
      ensures trs[i].dtstart < trs[j].dtstart
    {
      ScannedIsNear(z, dateFrom, dateTo, s, beyond, steps, i);
      ScannedIsNear(z, dateFrom, dateTo, s, beyond, steps, j);
      OnsetsIncrease(z, steps[i], steps[j]);
    }
  }

  /** The step that governs `t`: the last one scanned whose onset is not after `t`. */
  lemma {:induction false} LastOnsetBy(z: Zone, steps: seq<int>, t: int, n: int) returns (k: int)
    requires 0 < n <= |steps|
    requires Onset(z, steps[0]) <= t
    ensures 0 <= k < n && Onset(z, steps[k]) <= t
    ensures forall j :: k < j < n ==> t < Onset(z, steps[j])
  {
    if Onset(z, steps[n - 1]) <= t {
      k := n - 1;
    } else {
      k := LastOnsetBy(z, steps, t, n - 1);
    }
  }

  /** No onset lies between the latest scanned onset and `t`. */
  lemma NoOnsetAfterLatest(z: Zone, dateFrom: int, dateTo: int, steps: seq<int>, k: int, t: int, s: int)
    requires IsScan(z, dateFrom, dateTo, steps)
    requires 0 <= k < |steps| && t <= dateTo
    requires forall j :: k < j < |steps| ==> t < Onset(z, steps[j])
    requires Step(z, s) && steps[k] < s
    ensures t < Onset(z, s)
  {
    assert LastStepBy(z, dateFrom, steps[0]);
    assert dateFrom < s && Onset(z, s) <= dateTo ==> s in steps;
  }

  /** Between the onset of a forward jump and the jump itself the offset is the one before. */
  lemma OffsetInGap(z: Zone, t: int, s: int)
    requires Step(z, s) && Onset(z, s) <= t < s
    requires forall s' :: Step(z, s') && t < s' < s ==> s' < Onset(z, s)
    ensures z.utcoffset(t) == z.utcoffset(s - 1) != z.utcoffset(s)
    ensures Skipped(z, t)
  {
    forall s' | Step(z, s')
      ensures !(t < s' <= s - 1)
    {
    }
    ConstantBetween(z, t, s - 1);
  }

  /** After the last onset by `t` nothing more happens up to `t`. */
  lemma OffsetAfterLastOnset(z: Zone, s: int, t: int)
    requires Step(z, s) && s <= t
    requires forall s' :: Step(z, s') && s < s' ==> t < Onset(z, s')
    ensures z.utcoffset(s) == z.utcoffset(t) && !Skipped(z, t)
  {
    forall s' | Step(z, s')
      ensures !(s < s' <= t)
    {
      assert Onset(z, s') <= s';
    }
    ConstantBetween(z, s, t);
  }

  /** The offset of the zone in terms of the latest onset: the offset after that step, unless
      `t` is a local time the clocks jump over at that very step. */
  lemma OffsetAfterLatestOnset(z: Zone, dateFrom: int, dateTo: int, s: int, beyond: int, steps: seq<int>, k: int,
      t: int)
    requires Scannable(z, dateFrom, dateTo, s, beyond)
    requires IsScan(z, dateFrom, dateTo, steps)
    requires 0 <= k < |steps| && dateFrom <= t <= dateTo
    requires Onset(z, steps[k]) <= t
    requires forall j :: k < j < |steps| ==> t < Onset(z, steps[j])
    ensures z.utcoffset(steps[k]) == z.utcoffset(t) <==> !Skipped(z, t)
  {
    ScannedIsNear(z, dateFrom, dateTo, s, beyond, steps, k);
    if t < steps[k] {
      OffsetInGap(z, t, steps[k]);
    } else {
      forall s' | Step(z, s') && steps[k] < s'
        ensures t < Onset(z, s')
      {
        NoOnsetAfterLatest(z, dateFrom, dateTo, steps, k, t, s');
      }
      OffsetAfterLastOnset(z, steps[k], t);
    }
  }

  /** A date of the table that is not after `t` is not after the latest onset either. */
  lemma DateIsUpToLatestOnset(z: Zone, steps: seq<int>, parts: seq<PartData>, k: int, t: int, j: int, date: int)
    requires InOrder(TransitionsAt(z, steps))
    requires parts == Merged(TransitionsAt(z, steps)).parts
    requires 0 <= k < |steps|
    requires forall m :: k < m < |steps| ==> t < Onset(z, steps[m])
    requires 0 <= j < |parts| && date in parts[j].Dates() && date <= t
    ensures date <= Onset(z, steps[k])
    ensures date == Onset(z, steps[k]) ==> parts[j].tzoffsetto == z.utcoffset(steps[k])
  {
    var m := ListedMeansScanned(z, steps, parts, j, date);
    var trs := TransitionsAt(z, steps);
    assert trs[m].dtstart == date && trs[k].dtstart == Onset(z, steps[k]);
  }

  /** The part that lists the latest onset governs, and so does no other offset. */
  lemma LatestOnsetGoverns(z: Zone, steps: seq<int>, parts: seq<PartData>, k: int, t: int)
    requires InOrder(TransitionsAt(z, steps))
    requires parts == Merged(TransitionsAt(z, steps)).parts
    requires 0 <= k < |steps| && Onset(z, steps[k]) <= t
    requires forall j :: k < j < |steps| ==> t < Onset(z, steps[j])
    ensures exists i, date :: Governs(parts, i, date, t)
    ensures forall i, date :: Governs(parts, i, date, t) ==> parts[i].tzoffsetto == z.utcoffset(steps[k])
  {
    var onset := Onset(z, steps[k]);
    forall j, d | 0 <= j < |parts| && d in parts[j].Dates() && d <= t
      ensures d <= onset && (d == onset ==> parts[j].tzoffsetto == z.utcoffset(steps[k]))
    {
      DateIsUpToLatestOnset(z, steps, parts, k, t, j, d);
    }
    var i := ScannedMeansListed(z, steps, parts, k);
    assert Governs(parts, i, onset, t);
  }

  /** A reader of the table uses the zone's own offset at `t`, jumped-over times apart. */
  ghost predicate Faithful(z: Zone, parts: seq<PartData>, t: int) {
    && (exists i, date :: Governs(parts, i, date, t))
    && forall i, date :: Governs(parts, i, date, t) ==> (parts[i].tzoffsetto == z.utcoffset(t) <==> !Skipped(z, t))
  }

  /** Meaning preservation. For every local time of the range, the table has a governing
      date, and whichever part governs, its TZOFFSETTO is the zone's offset exactly when the
      time is not one that the clocks jump over. */
  lemma TableMeansZone(z: Zone, dateFrom: int, dateTo: int, s: int, beyond: int, trs: seq<Transition>, t: int)
    requires Scannable(z, dateFrom, dateTo, s, beyond)
    requires Scanned(z, dateFrom, dateTo, trs)
    requires dateFrom <= t <= dateTo
    ensures Faithful(z, Merged(trs).parts, t)
  {
    var steps :| IsScan(z, dateFrom, dateTo, steps) && trs == TransitionsAt(z, steps);
    var k := LastOnsetBy(z, steps, t, |steps|);
    ScannedOnsetsIncrease(z, dateFrom, dateTo, s, beyond, steps);
    LatestOnsetGoverns(z, steps, Merged(trs).parts, k, t);
    OffsetAfterLatestOnset(z, dateFrom, dateTo, s, beyond, steps, k, t);
  }

  // ------------------------------------------------------------ the merge, in place

  /** A part is immutable but for the list of its RDATEs. */
  class Part {
    const isDaylight: bool
    const tzoffsetfrom: int
    const tzoffsetto: int
    const dtstart: int
    const tzname: string
    var rdatelist: seq<int>

    constructor (tr: Transition)
      ensures Data() == PartOf(tr)
    {
      isDaylight, tzoffsetfrom, tzoffsetto := tr.isDaylight, tr.tzoffsetfrom, tr.tzoffsetto;
      dtstart, tzname, rdatelist := tr.dtstart, tr.tzname, [];
    }

    function Data(): PartData
      reads this
    {
      PartData(isDaylight, tzoffsetfrom, tzoffsetto, dtstart, rdatelist, tzname)
    }
  }

  /** The objects of `parts` are all different and have the values `data`. */
  ghost predicate HoldData(parts: seq<Part>, data: seq<PartData>)
    reads parts
  {
    && |parts| == |data|
    && (forall i, j :: 0 <= i < j < |parts| ==> parts[i] != parts[j])
    && forall i :: 0 <= i < |parts| ==> parts[i].Data() == data[i]
  }

  /** `part` is the part that may still grow, if there is one. */
  ghost predicate GrowsAt(parts: seq<Part>, part: Part?, k: Option<nat>) {
    match k
    case None => part == null
    case Some(i) => i < |parts| && part == parts[i]
  }

  /** Merges `part` into `ppart`, the latest part of its kind, or starts a new history. The
      RDATE list of `ppart` grows while `ppart` already stands in `merged`. */
  method MergePart(merged: seq<Part>, ppart: Part?, part: Part, ghost h: History, ghost tr: Transition)
    returns (grown: seq<Part>, latest: Part)
    requires h.Valid() && HoldData(merged, h.parts)
    requires part !in merged && part.Data() == PartOf(tr)
    requires GrowsAt(merged, ppart, h.Previous(part.isDaylight))
    modifies merged
    ensures grown == merged || grown == merged + [part]
    ensures HoldData(grown, h.Add(tr).parts)
    ensures GrowsAt(grown, latest, h.Add(tr).Previous(part.isDaylight))
  {
    ghost var k := h.Previous(part.isDaylight);
    if && ppart != null
       && ppart.isDaylight == part.isDaylight
       && ppart.tzoffsetfrom == part.tzoffsetfrom
       && ppart.tzname == part.tzname
       && ppart.tzoffsetto == part.tzoffsetto {
      assert merged[k.value] == ppart && h.parts[k.value].Accepts(tr);
      ppart.rdatelist := ppart.rdatelist + [part.dtstart];
      grown, latest := merged, ppart;
    } else {
      assert h.Add(tr) == h.Open(tr);
      grown, latest := merged + [part], part;
    }
  }

  /** The objects hold the history, and each kind is known where it may still grow. */
  ghost predicate HoldHistory(merged: seq<Part>, previous: seq<Part?>, h: History)
    reads merged
  {
    && HoldData(merged, h.parts)
    && |previous| == 2
    && GrowsAt(merged, previous[0], h.standard)
    && GrowsAt(merged, previous[1], h.daylight)
  }

  lemma MergedOneMore(trs: seq<Transition>, n: nat)
    requires n < |trs|
    ensures Merged(trs[..n + 1]) == Merged(trs[..n]).Add(trs[n])
  {
    assert trs[..n + 1][..n] == trs[..n];
  }

  /** One transition becomes an object, which is merged. */
  method MergeNext(merged: seq<Part>, previous: seq<Part?>, tr: Transition, ghost h: History)
    returns (grown: seq<Part>, latest: seq<Part?>)
    requires h.Valid() && HoldHistory(merged, previous, h)
    modifies merged
    ensures forall i :: 0 <= i < |grown| ==> (i < |merged| && grown[i] == merged[i]) || fresh(grown[i])
    ensures HoldHistory(grown, latest, h.Add(tr))
  {
    var part := new Part(tr);
    var kind := if part.isDaylight then 1 else 0;
    var ppart;
    grown, ppart := MergePart(merged, previous[kind], part, h, tr);
    latest := previous[kind := ppart];
  }

  /** Merges parts that agree on all but their dates. */
  method MergeParts(trs: seq<Transition>) returns (merged: seq<Part>)
    ensures forall i :: 0 <= i < |merged| ==> fresh(merged[i])
    ensures HoldData(merged, Merged(trs).parts)
  {
    merged := [];
    var previous: seq<Part?> := [null, null];  // non-dst and dst
    ghost var h := Merged([]);
    for n := 0 to |trs|
      invariant forall i :: 0 <= i < |merged| ==> fresh(merged[i])
      invariant h.Valid() && h == Merged(trs[..n])
      invariant HoldHistory(merged, previous, h)
    {
      MergedOneMore(trs, n);
      merged, previous := MergeNext(merged, previous, trs[n], h);
      h := h.Add(trs[n]);
    }
    assert trs[..|trs|] == trs;
  }

  /** `parts` are objects that hold the table of a range of dates, and mean the zone there. */
  ghost predicate IsTable(z: Zone, dateFrom: int, dateTo: int, parts: seq<Part>, trs: seq<Transition>)
    reads parts
  {
    && Scanned(z, dateFrom, dateTo, trs)
    && HoldData(parts, Merged(trs).parts)
    && forall t :: dateFrom <= t <= dateTo ==> Faithful(z, Merged(trs).parts, t)
  }

  /** The table for a range of dates, or None when the range is empty the wrong way round. */
  method GenerateParts(z: Zone, dateFrom: int, dateTo: int) returns (r: Option<seq<Part>>)
    requires dateFrom <= dateTo ==> exists s, beyond :: Scannable(z, dateFrom, dateTo, s, beyond)
    ensures r.None? <==> dateFrom > dateTo
    ensures r.Some? ==> forall i :: 0 <= i < |r.value| ==> fresh(r.value[i])
    ensures r.Some? ==> exists trs :: IsTable(z, dateFrom, dateTo, r.value, trs)
  {
    if dateFrom > dateTo {
      return None;
    }
    ghost var s, beyond :| Scannable(z, dateFrom, dateTo, s, beyond);
    var trs := ScanTransitions(z, dateFrom, dateTo, s, beyond);
    var merged := MergeParts(trs);
    forall t | dateFrom <= t <= dateTo
      ensures Faithful(z, Merged(trs).parts, t)
    {
      TableMeansZone(z, dateFrom, dateTo, s, beyond, trs, t);
    }
    assert IsTable(z, dateFrom, dateTo, merged, trs);
    r := Some(merged);
  }
}
