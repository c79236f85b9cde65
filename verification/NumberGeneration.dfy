/** Numbering of billing documents: a stored counter that is reset by month, by year or
    never, printed with a format. */
module NumberGeneration {
  import opened Options
  import opened DecimalText

  datatype Date = Date(year: nat, month: nat, day: nat)

  datatype ResetType = Never | Monthly | Yearly

  /** A format string, cut at its replacement fields. `Unknown` is a field that
      str.format() cannot fill. */
  datatype Field = Text(text: string) | Counter(width: nat) | Year | Month | Code | Unknown

  type Format = seq<Field>

  /** The text stored as date of the last generation: missing, readable or not. */
  datatype StoredDate = NoDate | On(date: Date) | Malformed

  /** The data of a generator item. */
  datatype Data = Data(format: Format, reset: ResetType, counter: Option<nat>, date: StoredDate)

  datatype Context = Context(counter: nat, year: nat, month: string, code: string)

  // ------------------------------------------------------------ one generation

  /** The counter starts again when `today` is in another period than `previous`. */
  predicate SamePeriod(reset: ResetType, previous: Date, today: Date) {
    match reset
    case Never => true
    case Yearly => previous.year == today.year
    case Monthly => previous.month == today.month && previous.year == today.year
  }

  function NextCounter(data: Data, today: Date): nat {
    var counter := if data.counter.Some? then data.counter.value else 1;
    if data.date.On? && !SamePeriod(data.reset, data.date.date, today) then 1 else counter
  }

  function Advance(data: Data, today: Date): Data {
    data.(counter := Some(NextCounter(data, today) + 1), date := On(today))
  }

  function ContextOf(data: Data, today: Date, code: string): Context {
    Context(NextCounter(data, today), today.year, Padded(today.month, 2), code)
  }

  function FieldText(field: Field, context: Context): Option<string> {
    match field
    case Text(text) => Some(text)
    case Counter(width) => Some(Padded(context.counter, width))
    case Year => Some(Digits(context.year))
    case Month => Some(context.month)
    case Code => Some(context.code)
    case Unknown => None
  }

  function Render(format: Format, context: Context): Option<string> {
    if format == [] then
      Some("")
    else
      match (FieldText(format[0], context), Render(format[1..], context))
      case (Some(head), Some(tail)) => Some(head + tail)
      case _ => None
  }

  /** A generator item: its row in the database and the instance in memory. */
  class Item {
    const code: string
    var data: Data
    var row: Data

    constructor (row: Data, code: string)
      ensures this.data == this.row == row && this.code == code
    {
      this.data, this.row, this.code := row, row, code;
    }

    /** Updates the data in memory only; None stands for an unreadable stored date. */
    method BuildContext(today: Date) returns (r: Option<Context>)
      modifies this`data
      ensures r.None? <==> old(data).date.Malformed?
      ensures r.Some? ==> r.value == ContextOf(old(data), today, code) && data == Advance(old(data), today)
      ensures r.None? ==> data == old(data)
    {
      var counter := if data.counter.Some? then data.counter.value else 1;
      match data.date {
        case NoDate =>
        case Malformed =>
          return None;
        case On(previous) =>
          if data.reset == Yearly {
            if previous.year != today.year {
              counter := 1;
            }
          } else if data.reset == Monthly {
            if previous.month != today.month || previous.year != today.year {
              counter := 1;
            }
          }
      }
      data := data.(counter := Some(counter + 1), date := On(today));
      r := Some(Context(counter, today.year, Padded(today.month, 2), code));
    }

    /** Generates a number; None stands for the conflict error. A failed call leaves the row
        as it was, although the instance in memory may already have counted. */
    method Perform(today: Date) returns (r: Option<string>)
      modifies this
      ensures r == if old(data).date.Malformed? then None
                   else Render(old(data).format, ContextOf(old(data), today, code))
      ensures r.Some? ==> row == data == Advance(old(data), today)
      ensures r.None? ==> row == old(row)
      ensures r.None? ==> data == if old(data).date.Malformed? then old(data) else Advance(old(data), today)
    {
      var format := data.format;
      var context := BuildContext(today);
      if context.None? {
        return None;
      }
      r := Render(format, context.value);
      if r.Some? {
        row := data;
      }
    }
  }

  /** A call fails exactly when the stored date is unreadable or the format has a field that
      cannot be filled; the counter and the date have no part in it. */
  lemma {:induction false} RenderFails(format: Format, context: Context)
    ensures Render(format, context).None? <==> Unknown in format
  {
    if format != [] {
      RenderFails(format[1..], context);
      assert Unknown in format <==> format[0] == Unknown || Unknown in format[1..];
    }
  }

  /** One more field at the end of a format prints its own text after the others. */
  lemma {:induction false} RenderOneMore(format: Format, field: Field, context: Context)
    ensures Render(format + [field], context)
         == match (Render(format, context), field)
            case (None, _) => None
            case (Some(before), Text(text)) => Some(before + text)
            case (Some(before), Counter(width)) => Some(before + Padded(context.counter, width))
            case (Some(before), Year) => Some(before + Digits(context.year))
            case (Some(before), Month) => Some(before + context.month)
            case (Some(before), Code) => Some(before + context.code)
            case (Some(before), Unknown) => None
  {
    if format == [] {
      assert [field][1..] == [] && [] + [field] == [field];
      assert forall text: string :: text + "" == text && "" + text == text;
    } else {
      assert (format + [field])[1..] == format[1..] + [field];
      RenderOneMore(format[1..], field, context);
      assert forall a: string, b: string, c: string :: a + (b + c) == (a + b) + c;
    }
  }

  // ------------------------------------------------------------ whole runs

  /** The data before call number `k` of a run of generations on the given dates. */
  function DataAt(data: Data, dates: seq<Date>, k: nat): Data
    requires k <= |dates|
  {
    if k == 0 then data else Advance(DataAt(data, dates, k - 1), dates[k - 1])
  }

  /** What call number `k` of a run prints. */
  function NumberAt(data: Data, dates: seq<Date>, k: nat, code: string): Option<string>
    requires k < |dates|
  {
    var before := DataAt(data, dates, k);
    if before.date.Malformed? then None else Render(before.format, ContextOf(before, dates[k], code))
  }

  function CounterAt(data: Data, dates: seq<Date>, k: nat): nat
    requires k < |dates|
  {
    NextCounter(DataAt(data, dates, k), dates[k])
  }

  predicate NotAfter(d: Date, e: Date) {
    d.year < e.year || (d.year == e.year && (d.month < e.month || (d.month == e.month && d.day <= e.day)))
  }

  /** The clock does not run backward; a counter that is never reset does not care. */
  ghost predicate InOrder(reset: ResetType, dates: seq<Date>) {
    reset == Never || forall i, j :: 0 <= i < j < |dates| ==> NotAfter(dates[i], dates[j])
  }

  lemma {:induction false} DataAtKeeps(data: Data, dates: seq<Date>, k: nat)
    requires k <= |dates|
    ensures DataAt(data, dates, k).format == data.format && DataAt(data, dates, k).reset == data.reset
  {
    if k > 0 {
      DataAtKeeps(data, dates, k - 1);
    }
  }

  /** The first number of an item: the stored counter goes on, one when there is none, unless
      the stored date is of another year, or month, and the counter is reset by it. */
  lemma FirstCounterIs(data: Data, dates: seq<Date>)
    requires dates != [] && !data.date.Malformed?
    ensures CounterAt(data, dates, 0)
         == match data.date
            case NoDate => if data.counter.Some? then data.counter.value else 1
            case On(d) =>
              if || (data.reset == Yearly && d.year != dates[0].year)
                 || (data.reset == Monthly && (d.year != dates[0].year || d.month != dates[0].month))
              then 1
              else if data.counter.Some? then data.counter.value else 1
  {
  }

  /** From call to call the counter goes on by one, or starts again with a new year or month. */
  lemma NextCounterIs(data: Data, dates: seq<Date>, k: nat)
    requires k + 1 < |dates|
    ensures CounterAt(data, dates, k + 1)
         == if || (data.reset == Yearly && dates[k].year != dates[k + 1].year)
               || (data.reset == Monthly
                   && (dates[k].year != dates[k + 1].year || dates[k].month != dates[k + 1].month))
            then 1
            else CounterAt(data, dates, k) + 1
  {
    DataAtKeeps(data, dates, k);
  }

  /** Counters are consecutive without a reset, within a year when it is yearly, and within a
      month when it is monthly. */
  lemma {:induction false} CountersAreConsecutive(data: Data, dates: seq<Date>, i: nat, j: nat)
    requires i <= j < |dates|
    requires InOrder(data.reset, dates)
    requires data.reset != Never ==> dates[i].year == dates[j].year
    requires data.reset == Monthly ==> dates[i].month == dates[j].month
    ensures CounterAt(data, dates, j) == CounterAt(data, dates, i) + (j - i)
  {
    if i < j {
      CountersAreConsecutive(data, dates, i, j - 1);
      NextCounterIs(data, dates, j - 1);
    }
  }

  /** A new year, or a new month, starts at one. */
  lemma NewPeriodStartsAtOne(data: Data, dates: seq<Date>, k: nat)
    requires 0 < k < |dates|
    requires match data.reset
             case Never => false
             case Yearly => dates[k].year != dates[k - 1].year
             case Monthly => (dates[k].year, dates[k].month) != (dates[k - 1].year, dates[k - 1].month)
    ensures CounterAt(data, dates, k) == 1
  {
    DataAtKeeps(data, dates, k - 1);
  }

  /** Year, month and counter together never come twice. */
  lemma KeysNeverRepeat(data: Data, dates: seq<Date>, i: nat, j: nat)
    requires i < j < |dates|
    requires InOrder(data.reset, dates)
    ensures (dates[i].year, dates[i].month, CounterAt(data, dates, i))
         != (dates[j].year, dates[j].month, CounterAt(data, dates, j))
  {
    if dates[i].year == dates[j].year && dates[i].month == dates[j].month {
      CountersAreConsecutive(data, dates, i, j);
    }
  }

  // ------------------------------------------------------------ the printed text

  /** PREFIX-{year}-{month}-{counter:04} */
  function DatedFormat(prefix: string): Format {
    [Text(prefix + "-"), Year, Text("-"), Month, Text("-"), Counter(4)]
  }

  function DatedText(prefix: string, year: nat, month: nat, counter: nat): string {
    prefix + "-" + (Digits(year) + ("-" + (Padded(month, 2) + ("-" + Padded(counter, 4)))))
  }

  lemma RenderDated(prefix: string, context: Context)
    ensures Render(DatedFormat(prefix), context)
         == Some(prefix + "-" + (Digits(context.year) + ("-" + (context.month + ("-" + Padded(context.counter, 4))))))
  {
    var f := DatedFormat(prefix);
    var counter := Padded(context.counter, 4);
    assert f[5..] == [Counter(4)] && f[5..][1..] == [];
    assert Render(f[5..], context) == Some(counter + "");
    assert counter + "" == counter;
    assert f[4..][1..] == f[5..] && f[3..][1..] == f[4..] && f[2..][1..] == f[3..] && f[1..][1..] == f[2..];
    assert Render(f[4..], context) == Some("-" + counter);
    assert Render(f[3..], context) == Some(context.month + ("-" + counter));
    assert Render(f[2..], context) == Some("-" + (context.month + ("-" + counter)));
    assert Render(f[1..], context) == Some(Digits(context.year) + ("-" + (context.month + ("-" + counter))));
  }

  /** The longest run of digits that `s` starts with. */
  function LeadingDigits(s: string): (n: nat)
    ensures n <= |s|
    ensures forall i :: 0 <= i < n ==> IsDigit(s[i])
  {
    if s == [] || !IsDigit(s[0]) then 0 else 1 + LeadingDigits(s[1..])
  }

  lemma {:induction false} LeadingDigitsStop(digits: string, rest: string)
    requires forall i :: 0 <= i < |digits| ==> IsDigit(digits[i])
    requires rest != [] ==> !IsDigit(rest[0])
    ensures LeadingDigits(digits + rest) == |digits|
  {
    if digits == [] {
      assert digits + rest == rest;
    } else {
      assert (digits + rest)[1..] == digits[1..] + rest;
      LeadingDigitsStop(digits[1..], rest);
    }
  }

  /** Reads a number and what follows the separator after it. */
  function ReadNumber(s: string): (nat, string) {
    var n := LeadingDigits(s);
    (Value(s[..n]), if n < |s| then s[n + 1..] else "")
  }

  lemma CutAt(digits: string, rest: string)
    ensures var s := digits + ("-" + rest);
            s[..|digits|] == digits && |digits| < |s| && s[|digits| + 1..] == rest
  {
  }

  lemma ReadNumberBack(digits: string, rest: string)
    requires forall i :: 0 <= i < |digits| ==> IsDigit(digits[i])
    ensures ReadNumber(digits + ("-" + rest)) == (Value(digits), rest)
  {
    CutAt(digits, rest);
    LeadingDigitsStop(digits, "-" + rest);
  }

  lemma ReadLastNumber(digits: string)
    requires forall i :: 0 <= i < |digits| ==> IsDigit(digits[i])
    ensures ReadNumber(digits) == (Value(digits), "")
  {
    LeadingDigitsStop(digits, "");
    assert digits + "" == digits && digits[..|digits|] == digits;
  }

  /** Reads year, month and counter from a dated number. */
  function Parse(prefix: string, s: string): (nat, nat, nat)
    requires |prefix| < |s|
  {
    var (year, afterYear) := ReadNumber(s[|prefix| + 1..]);
    var (month, afterMonth) := ReadNumber(afterYear);
    (year, month, ReadNumber(afterMonth).0)
  }

  /** The printed text parses back to the year, the month and the counter, even when the
      counter has outgrown its four digits and whatever dashes or digits the prefix has. */
  lemma ParseBack(prefix: string, year: nat, month: nat, counter: nat)
    ensures Parse(prefix, DatedText(prefix, year, month, counter)) == (year, month, counter)
  {
    var afterMonth := Padded(counter, 4);
    var afterYear := Padded(month, 2) + ("-" + afterMonth);
    var s := Digits(year) + ("-" + afterYear);
    assert DatedText(prefix, year, month, counter)[|prefix| + 1..] == s;
    ValueOfDigits(year);
    ValueOfPadded(month, 2);
    ValueOfPadded(counter, 4);
    ReadNumberBack(Digits(year), afterYear);
    ReadNumberBack(Padded(month, 2), afterMonth);
    ReadLastNumber(afterMonth);
  }

  /** Along any run with a default format, no number is printed twice. */
  lemma NumbersNeverRepeat(prefix: string, data: Data, dates: seq<Date>, i: nat, j: nat, code: string)
    requires data.format == DatedFormat(prefix) && !data.date.Malformed?
    requires InOrder(data.reset, dates)
    requires i < j < |dates|
    ensures NumberAt(data, dates, i, code).Some? && NumberAt(data, dates, j, code).Some?
    ensures NumberAt(data, dates, i, code) != NumberAt(data, dates, j, code)
  {
    KeysNeverRepeat(data, dates, i, j);
    DatedNumberAt(prefix, data, dates, i, code);
    DatedNumberAt(prefix, data, dates, j, code);
    ParseBack(prefix, dates[i].year, dates[i].month, CounterAt(data, dates, i));
    ParseBack(prefix, dates[j].year, dates[j].month, CounterAt(data, dates, j));
  }

  lemma DatedNumberAt(prefix: string, data: Data, dates: seq<Date>, k: nat, code: string)
    requires data.format == DatedFormat(prefix) && !data.date.Malformed?
    requires k < |dates|
    ensures NumberAt(data, dates, k, code)
         == Some(DatedText(prefix, dates[k].year, dates[k].month, CounterAt(data, dates, k)))
  {
    DataAtKeeps(data, dates, k);
    assert !DataAt(data, dates, k).date.Malformed?;
    RenderDated(prefix, ContextOf(DataAt(data, dates, k), dates[k], code));
  }

  lemma BareNumberAt(data: Data, dates: seq<Date>, k: nat, code: string)
    requires data.format == [Counter(4)] && !data.date.Malformed?
    requires k < |dates|
    ensures NumberAt(data, dates, k, code) == Some(Padded(CounterAt(data, dates, k), 4))
  {
    DataAtKeeps(data, dates, k);
    assert !DataAt(data, dates, k).date.Malformed?;
    var context := ContextOf(DataAt(data, dates, k), dates[k], code);
    assert data.format[1..] == [];
    assert Render(data.format, context) == Some(Padded(context.counter, 4) + "");
    assert Padded(context.counter, 4) + "" == Padded(context.counter, 4);
  }

  // ------------------------------------------------------------ when bare numbers repeat

  /** Call number `k` falls in another period than the one before it. */
  predicate ResetsAt(reset: ResetType, dates: seq<Date>, k: nat) {
    && 0 < k < |dates|
    && match reset
       case Never => false
       case Yearly => dates[k - 1].year != dates[k].year
       case Monthly => dates[k - 1].year != dates[k].year || dates[k - 1].month != dates[k].month
  }

  /** The first call of the period that call number `k` falls in. */
  function PeriodStart(reset: ResetType, dates: seq<Date>, k: nat): (p: nat)
    requires k < |dates|
    ensures p <= k && (p == 0 || ResetsAt(reset, dates, p))
    ensures forall m :: p < m <= k ==> !ResetsAt(reset, dates, m)
  {
    if k == 0 || ResetsAt(reset, dates, k) then k else PeriodStart(reset, dates, k - 1)
  }

  /** The counter of the first call of all; later periods start at one. */
  function FirstCounter(data: Data, dates: seq<Date>, p: nat): nat
    requires p < |dates|
  {
    if p == 0 then NextCounter(data, dates[0]) else 1
  }

  lemma {:induction false} CounterInPeriod(data: Data, dates: seq<Date>, k: nat)
    requires k < |dates|
    ensures var p := PeriodStart(data.reset, dates, k);
            CounterAt(data, dates, k) == FirstCounter(data, dates, p) + (k - p)
  {
    if k > 0 {
      CounterInPeriod(data, dates, k - 1);
      NextCounterIs(data, dates, k - 1);
    }
  }

  /** A reset brings a counter back: it is followed by another reset, or by at least as many
      calls as the first counter says. */
  ghost predicate CounterComesBack(data: Data, dates: seq<Date>) {
    exists m :: ResetsAt(data.reset, dates, m) && ResetRepeats(data, dates, m)
  }

  ghost predicate ResetRepeats(data: Data, dates: seq<Date>, m: nat)
    requires m < |dates|
  {
    var first := NextCounter(data, dates[0]);
    || (exists m' :: m < m' && ResetsAt(data.reset, dates, m'))
    || (first <= |dates| - m && (first > 0 || m > 1))
  }

  lemma RepeatAfterReset(data: Data, dates: seq<Date>, m: nat) returns (i: nat, j: nat)
    requires ResetsAt(data.reset, dates, m) && ResetRepeats(data, dates, m)
    ensures i < j < |dates| && CounterAt(data, dates, i) == CounterAt(data, dates, j)
  {
    var first := NextCounter(data, dates[0]);
    if m': nat :| m' != m && ResetsAt(data.reset, dates, m') {
      i, j := if m < m' then m else m', if m < m' then m' else m;
    } else if first > 0 {
      i, j := 0, m + first - 1;
    } else {
      i, j := 1, m;
    }
    CounterInPeriod(data, dates, i);
    CounterInPeriod(data, dates, j);
  }

  lemma ResetBeforeRepeat(data: Data, dates: seq<Date>, i: nat, j: nat)
    requires i < j < |dates| && CounterAt(data, dates, i) == CounterAt(data, dates, j)
    ensures CounterComesBack(data, dates)
  {
    CounterInPeriod(data, dates, i);
    CounterInPeriod(data, dates, j);
    var p, m := PeriodStart(data.reset, dates, i), PeriodStart(data.reset, dates, j);
    assert m <= i ==> p == m;
    assert i < m;
    assert p > 0 ==> ResetRepeats(data, dates, p);
    assert p == 0 ==> ResetRepeats(data, dates, m);
  }

  /** The bare "{counter:04}" of the base class prints some number again along a run if and
      only if a reset is followed by another one, or by at least as many calls as the counter
      that the run started with. */
  lemma BareNumbersRepeat(data: Data, dates: seq<Date>, code: string)
    requires data.format == [Counter(4)] && !data.date.Malformed?
    ensures (exists i, j :: 0 <= i < j < |dates| && NumberAt(data, dates, i, code) == NumberAt(data, dates, j, code))
       <==> CounterComesBack(data, dates)
  {
    if i, j :| 0 <= i < j < |dates| && NumberAt(data, dates, i, code) == NumberAt(data, dates, j, code) {
      BareNumbersAre(data, dates, i, j, code);
      ResetBeforeRepeat(data, dates, i, j);
    }
    if m :| ResetsAt(data.reset, dates, m) && ResetRepeats(data, dates, m) {
      var i, j := RepeatAfterReset(data, dates, m);
      BareNumbersAre(data, dates, i, j, code);
    }
  }

  lemma BareNumbersAre(data: Data, dates: seq<Date>, i: nat, j: nat, code: string)
    requires data.format == [Counter(4)] && !data.date.Malformed?
    requires i < |dates| && j < |dates|
    ensures NumberAt(data, dates, i, code) == NumberAt(data, dates, j, code)
       <==> CounterAt(data, dates, i) == CounterAt(data, dates, j)
  {
    BareNumberAt(data, dates, i, code);
    BareNumberAt(data, dates, j, code);
    ValueOfPadded(CounterAt(data, dates, i), 4);
    ValueOfPadded(CounterAt(data, dates, j), 4);
  }

  /** Without resets, or within one period, bare numbers do not repeat. */
  lemma BareNumbersOfOnePeriod(data: Data, dates: seq<Date>, i: nat, j: nat, code: string)
    requires data.format == [Counter(4)] && !data.date.Malformed?
    requires data.reset != Never ==> forall k :: 0 <= k < |dates| ==> dates[k].year == dates[0].year
    requires data.reset == Monthly ==> forall k :: 0 <= k < |dates| ==> dates[k].month == dates[0].month
    requires i < j < |dates|
    ensures NumberAt(data, dates, i, code) != NumberAt(data, dates, j, code)
  {
    assert forall m :: !ResetsAt(data.reset, dates, m);
    BareNumbersRepeat(data, dates, code);
  }

  /** A new generator item that counts by month prints "0001" in January and again in
      February. */
  lemma BareNumberTwice(code: string)
    ensures var data := Data([Counter(4)], Monthly, None, NoDate);
            var dates := [Date(2025, 1, 31), Date(2025, 2, 1)];
            && InOrder(data.reset, dates)
            && NumberAt(data, dates, 0, code) == NumberAt(data, dates, 1, code) == Some("0001")
  {
    var data, dates := Data([Counter(4)], Monthly, None, NoDate), [Date(2025, 1, 31), Date(2025, 2, 1)];
    assert DataAt(data, dates, 0) == data && DataAt(data, dates, 1) == Advance(data, dates[0]);
    BareNumberAt(data, dates, 0, code);
    BareNumberAt(data, dates, 1, code);
    assert Padded(1, 4) == "0001";
  }

  /** A yearly item goes on in February and starts again in the next year. */
  lemma YearlyGoesOn(code: string)
    ensures var data := Data(DatedFormat("INV"), Yearly, Some(1), NoDate);
            var dates := [Date(2025, 1, 31), Date(2025, 2, 1), Date(2026, 1, 2)];
            && NumberAt(data, dates, 0, code) == Some("INV-2025-01-0001")
            && NumberAt(data, dates, 1, code) == Some("INV-2025-02-0002")
            && NumberAt(data, dates, 2, code) == Some("INV-2026-01-0001")
  {
    var data := Data(DatedFormat("INV"), Yearly, Some(1), NoDate);
    var dates := [Date(2025, 1, 31), Date(2025, 2, 1), Date(2026, 1, 2)];
    FirstCounterIs(data, dates);
    NextCounterIs(data, dates, 0);
    NextCounterIs(data, dates, 1);
    DatedNumberAt("INV", data, dates, 0, code);
    DatedNumberAt("INV", data, dates, 1, code);
    DatedNumberAt("INV", data, dates, 2, code);
    InvoiceTexts();
  }

  lemma InvoiceTexts()
    ensures DatedText("INV", 2025, 1, 1) == "INV-2025-01-0001"
    ensures DatedText("INV", 2025, 2, 2) == "INV-2025-02-0002"
    ensures DatedText("INV", 2026, 1, 1) == "INV-2026-01-0001"
  {
    InvoiceText(2025, 1);
    InvoiceText(2025, 2);
    InvoiceText(2026, 1);
  }

  lemma InvoiceText(year: nat, n: nat)
    requires 2020 <= year < 2030 && 0 < n < 10
    ensures var y, d := DIGITS[year % 10], DIGITS[n];
            DatedText("INV", year, n, n)
            == ['I', 'N', 'V', '-', '2', '0', '2', y, '-', '0', d, '-', '0', '0', '0', d]
  {
    var y, d := DIGITS[year % 10], DIGITS[n];
    YearText(year);
    assert Padded(n, 2) == ['0', d] && Padded(n, 4) == ['0', '0', '0', d];
    var monthOn := ['0', d] + ("-" + ['0', '0', '0', d]);
    assert monthOn == ['0', d, '-', '0', '0', '0', d];
    YearOn(Digits(year), monthOn, y, d);
  }

  lemma YearOn(yearText: string, monthOn: string, y: char, d: char)
    requires yearText == "202" + [y] && monthOn == ['0', d, '-', '0', '0', '0', d]
    ensures "INV" + "-" + (yearText + ("-" + monthOn))
         == ['I', 'N', 'V', '-', '2', '0', '2', y, '-', '0', d, '-', '0', '0', '0', d]
  {
    assert yearText + ("-" + monthOn) == ['2', '0', '2', y, '-', '0', d, '-', '0', '0', '0', d];
  }

  lemma YearText(year: nat)
    requires 2020 <= year < 2030
    ensures Digits(year) == "202" + [DIGITS[year % 10]]
  {
    assert Digits(2) == "2";
    assert Digits(20) == "20";
    assert Digits(202) == "202";
    assert Digits(year) == Digits(202) + [DIGITS[year % 10]];
  }
}
