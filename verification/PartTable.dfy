/** The parts of a VTIMEZONE, and the compression of transitions into parts.

    Parts that agree on everything but their dates are merged by appending to the RDATE
    list of an earlier part, in place, while that part already sits in the result.
  */
module PartTable {
  import opened Options
  import opened Bisection
  import opened Sequences

  /** The value of a part at some moment. */
  datatype PartData = PartData(
    isDaylight: bool,
    tzoffsetfrom: int,
    tzoffsetto: int,
    dtstart: int,
    rdatelist: seq<int>,
    tzname: string)
  {
    function Dates(): seq<int> {
      [dtstart] + rdatelist
    }

    /** The transition this part stands for at one of its dates. */
    function At(date: int): Transition {
      Transition(isDaylight, tzoffsetfrom, tzoffsetto, date, tzname)
    }

    predicate Accepts(tr: Transition) {
      && isDaylight == tr.isDaylight
      && tzoffsetfrom == tr.tzoffsetfrom
      && tzname == tr.tzname
      && tzoffsetto == tr.tzoffsetto
    }
  }

  function PartOf(tr: Transition): PartData {
    PartData(tr.isDaylight, tr.tzoffsetfrom, tr.tzoffsetto, tr.dtstart, [], tr.tzname)
  }

  function Grown(p: PartData, tr: Transition): PartData {
    p.(rdatelist := p.rdatelist + [tr.dtstart])
  }

  // ------------------------------------------------------------ specification of the merge

  /** The merged parts so far, and for each kind the index of the part that may still grow. */
  datatype History = History(parts: seq<PartData>, standard: Option<nat>, daylight: Option<nat>) {
    function Previous(isDaylight: bool): Option<nat> {
      if isDaylight then daylight else standard
    }

    /** A kind grows at its latest part. */
    ghost predicate GrowsAtLatest(isDaylight: bool) {
      match Previous(isDaylight)
      case None => forall i :: 0 <= i < |parts| ==> parts[i].isDaylight != isDaylight
      case Some(k) =>
        && k < |parts|
        && parts[k].isDaylight == isDaylight
        && forall i :: k < i < |parts| ==> parts[i].isDaylight != isDaylight
    }

    ghost predicate Valid() {
      GrowsAtLatest(false) && GrowsAtLatest(true)
    }

    function Open(tr: Transition): (h: History)
      requires Valid()
      ensures h.Valid()
    {
      var k: Option<nat> := Some(|parts|);
      if tr.isDaylight then
        History(parts + [PartOf(tr)], standard, k)
      else
        History(parts + [PartOf(tr)], k, daylight)
    }

    function Add(tr: Transition): (h: History)
      requires Valid()
      ensures h.Valid()
    {
      match Previous(tr.isDaylight)
      case None => Open(tr)
      case Some(k) =>
        if parts[k].Accepts(tr) then
          this.(parts := parts[k := Grown(parts[k], tr)])
        else
          Open(tr)
    }
  }

  function Merged(trs: seq<Transition>): (h: History)
    ensures h.Valid()
  {
    if trs == [] then History([], None, None) else Merged(trs[..|trs| - 1]).Add(trs[|trs| - 1])
  }

  // ------------------------------------------------------------ the merge loses nothing

  function Expand(p: PartData): seq<Transition> {
    seq(|p.Dates()|, i requires 0 <= i < |p.Dates()| => p.At(p.Dates()[i]))
  }

  ghost function Expansion(parts: seq<PartData>): multiset<Transition> {
    if parts == [] then multiset{} else Expansion(parts[..|parts| - 1]) + multiset(Expand(parts[|parts| - 1]))
  }

  lemma ExpansionAppend(parts: seq<PartData>, p: PartData)
    ensures Expansion(parts + [p]) == Expansion(parts) + multiset(Expand(p))
  {
    assert (parts + [p])[..|parts|] == parts;
  }

  lemma ExpandGrown(p: PartData, tr: Transition)
    requires p.Accepts(tr)
    ensures Expand(Grown(p, tr)) == Expand(p) + [tr]
  {
    assert Grown(p, tr).Dates() == p.Dates() + [tr.dtstart];
  }

  lemma GrownExpands(p: PartData, tr: Transition)
    requires p.Accepts(tr)
    ensures multiset(Expand(Grown(p, tr))) == multiset(Expand(p)) + multiset{tr}
  {
    ExpandGrown(p, tr);
  }

  lemma ExpansionSplit(parts: seq<PartData>)
    requires parts != []
    ensures Expansion(parts) == Expansion(parts[..|parts| - 1]) + multiset(Expand(parts[|parts| - 1]))
  {
  }

  lemma SumsExchange<T>(a: multiset<T>, b: multiset<T>, c: multiset<T>)
    ensures a + b + c == a + c + b
  {
  }

  lemma {:induction false} ExpansionUpdate(parts: seq<PartData>, k: nat, tr: Transition, after: seq<PartData>)
    requires k < |parts| && parts[k].Accepts(tr)
    requires after == parts[k := Grown(parts[k], tr)]
    ensures Expansion(after) == Expansion(parts) + multiset{tr}
    decreases |parts|
  {
    var n := |parts| - 1;
    ExpansionSplit(parts);
    ExpansionSplit(after);
    if k == n {
      assert after[..n] == parts[..n];
      GrownExpands(parts[n], tr);
    } else {
      assert after[..n] == parts[..n][k := Grown(parts[..n][k], tr)];
      ExpansionUpdate(parts[..n], k, tr, after[..n]);
      SumsExchange(Expansion(parts[..n]), multiset{tr}, multiset(Expand(parts[n])));
    }
  }

  lemma AddExpands(h: History, tr: Transition)
    requires h.Valid()
    ensures Expansion(h.Add(tr).parts) == Expansion(h.parts) + multiset{tr}
  {
    var k := h.Previous(tr.isDaylight);
    if k.Some? && h.parts[k.value].Accepts(tr) {
      ExpansionUpdate(h.parts, k.value, tr, h.Add(tr).parts);
    } else {
      ExpansionAppend(h.parts, PartOf(tr));
      assert Expand(PartOf(tr)) == [tr];
    }
  }

  lemma LastCounts<T>(s: seq<T>)
    requires s != []
    ensures multiset(s) == multiset(s[..|s| - 1]) + multiset{s[|s| - 1]}
  {
    assert s == s[..|s| - 1] + [s[|s| - 1]];
  }

  /** Expanding every merged part back, with its own offsets, name and kind, gives exactly
      the transitions that went in, each as often as it went in. */
  lemma {:induction false} MergeIsLossless(trs: seq<Transition>)
    ensures Expansion(Merged(trs).parts) == multiset(trs)
  {
    if trs != [] {
      var n := |trs| - 1;
      MergeIsLossless(trs[..n]);
      AddExpands(Merged(trs[..n]), trs[n]);
      LastCounts(trs);
    }
  }

  ghost predicate Listed(parts: seq<PartData>, tr: Transition) {
    exists i :: 0 <= i < |parts| && parts[i].Accepts(tr) && tr.dtstart in parts[i].Dates()
  }

  lemma ListedInExpand(p: PartData, tr: Transition)
    ensures tr in Expand(p) <==> p.Accepts(tr) && tr.dtstart in p.Dates()
  {
    if p.Accepts(tr) && tr.dtstart in p.Dates() {
      var j :| 0 <= j < |p.Dates()| && p.Dates()[j] == tr.dtstart;
      assert Expand(p)[j] == tr;
    }
  }

  lemma {:induction false} ListedInExpansion(parts: seq<PartData>, tr: Transition)
    ensures Listed(parts, tr) <==> tr in Expansion(parts)
  {
    if parts != [] {
      var n := |parts| - 1;
      ListedInExpansion(parts[..n], tr);
      ListedInExpand(parts[n], tr);
      if Listed(parts[..n], tr) {
        var i :| 0 <= i < n && parts[..n][i].Accepts(tr) && tr.dtstart in parts[..n][i].Dates();
        assert parts[i].Accepts(tr) && tr.dtstart in parts[i].Dates();
      } else if Listed(parts, tr) {
        var i :| 0 <= i < |parts| && parts[i].Accepts(tr) && tr.dtstart in parts[i].Dates();
        assert i == n || parts[..n][i].Accepts(tr);
      }
    }
  }

  // ------------------------------------------------------------ shape of the table

  ghost predicate InOrder(trs: seq<Transition>) {
    forall i, j :: 0 <= i < j < |trs| ==> trs[i].dtstart < trs[j].dtstart
  }

  ghost predicate SameKey(p: PartData, q: PartData) {
    && p.isDaylight == q.isDaylight && p.tzname == q.tzname
    && p.tzoffsetfrom == q.tzoffsetfrom && p.tzoffsetto == q.tzoffsetto
  }

  /** No part of the same kind stands between the parts `i` and `j`. */
  ghost predicate Neighbours(parts: seq<PartData>, i: int, j: int) {
    && 0 <= i < j < |parts|
    && parts[i].isDaylight == parts[j].isDaylight
    && forall k :: i < k < j ==> parts[k].isDaylight != parts[i].isDaylight
  }

  ghost predicate Compressed(parts: seq<PartData>) {
    forall i, j :: Neighbours(parts, i, j) ==> !SameKey(parts[i], parts[j])
  }

  /** The dates of every part rise up to `last`, and so do the DTSTARTs from part to part. */
  ghost predicate Dated(parts: seq<PartData>, last: int) {
    && (forall i :: 0 <= i < |parts| ==> Increasing(parts[i].Dates()))
    && (forall i, d :: 0 <= i < |parts| && d in parts[i].Dates() ==> d <= last)
    && (forall i, j :: 0 <= i < j < |parts| ==> parts[i].dtstart < parts[j].dtstart)
  }

  lemma DatesGrow(dates: seq<int>, last: int, date: int)
    requires Increasing(dates) && (forall d :: d in dates ==> d <= last) && last < date
    ensures Increasing(dates + [date]) && forall d :: d in dates + [date] ==> d <= date
  {
    assert forall i :: 0 <= i < |dates| ==> dates[i] in dates;
  }

  lemma AddKeepsDated(h: History, last: int, tr: Transition)
    requires h.Valid()
    requires Dated(h.parts, last)
    requires last < tr.dtstart
    ensures Dated(h.Add(tr).parts, tr.dtstart)
  {
    var parts := h.Add(tr).parts;
    forall i | 0 <= i < |h.parts|
      ensures h.parts[i].dtstart <= last && parts[i].dtstart == h.parts[i].dtstart
    {
      assert h.parts[i].dtstart in h.parts[i].Dates();
    }
    forall i | 0 <= i < |parts|
      ensures Increasing(parts[i].Dates()) && forall d :: d in parts[i].Dates() ==> d <= tr.dtstart
    {
      if i < |h.parts| {
        var dates := h.parts[i].Dates();
        DatesGrow(dates, last, tr.dtstart);
        assert parts[i].Dates() == dates || parts[i].Dates() == dates + [tr.dtstart];
      }
    }
  }

  lemma {:induction false} MergedDatesIncrease(trs: seq<Transition>)
    requires InOrder(trs)
    ensures Merged(trs).parts == [] <==> trs == []
    ensures trs != [] ==> Dated(Merged(trs).parts, trs[|trs| - 1].dtstart)
  {
    if trs != [] {
      var n := |trs| - 1;
      MergedDatesIncrease(trs[..n]);
      AddKeepsDated(Merged(trs[..n]), if n == 0 then trs[n].dtstart - 1 else trs[n - 1].dtstart, trs[n]);
    }
  }

  lemma GrownKeepsCompressed(parts: seq<PartData>, k: nat, tr: Transition)
    requires k < |parts| && Compressed(parts)
    ensures Compressed(parts[k := Grown(parts[k], tr)])
  {
    var after := parts[k := Grown(parts[k], tr)];
    assert forall i :: 0 <= i < |parts| ==> SameKey(after[i], parts[i]);
    forall i, j | Neighbours(after, i, j)
      ensures !SameKey(after[i], after[j])
    {
      assert Neighbours(parts, i, j);
    }
  }

  lemma OpenKeepsCompressed(h: History, tr: Transition)
    requires h.Valid() && Compressed(h.parts)
    requires h.Previous(tr.isDaylight).Some? ==> !h.parts[h.Previous(tr.isDaylight).value].Accepts(tr)
    ensures Compressed(h.parts + [PartOf(tr)])
  {
    var after := h.parts + [PartOf(tr)];
    assert forall i :: 0 <= i < |h.parts| ==> after[i] == h.parts[i];
    forall i, j | Neighbours(after, i, j)
      ensures !SameKey(after[i], after[j])
    {
      if j < |h.parts| {
        assert Neighbours(h.parts, i, j);
      } else {
        assert h.GrowsAtLatest(tr.isDaylight) && after[j] == PartOf(tr);
        assert h.parts[i].isDaylight == tr.isDaylight;
        assert h.Previous(tr.isDaylight) == Some(i);
      }
    }
  }

  /** No two consecutive parts of a kind could still have been merged. */
  lemma {:induction false} MergedIsCompressed(trs: seq<Transition>)
    ensures Compressed(Merged(trs).parts)
  {
    if trs != [] {
      var h, tr := Merged(trs[..|trs| - 1]), trs[|trs| - 1];
      var k := h.Previous(tr.isDaylight);
      MergedIsCompressed(trs[..|trs| - 1]);
      if k.Some? && h.parts[k.value].Accepts(tr) {
        GrownKeepsCompressed(h.parts, k.value, tr);
      } else {
        OpenKeepsCompressed(h, tr);
      }
    }
  }
}
