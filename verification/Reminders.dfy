/** When the reminder job must wake up for todos and alerts, against the filters and the
    minimum-hour gate that decide what it then does.

    Instants are microseconds; local time is at a fixed distance from them. */
module Reminders {
  import opened Options
  import opened TimeUnits

  const TODO_REMINDER_DELTA: int := DAY

  datatype ToDo = ToDo(deadline: Option<int>, isOk: bool, reminded: bool)

  datatype Alert = Alert(triggerDate: Option<int>, isValidated: bool, reminded: bool)

  /** The hour setting of the todo reminder; its form admits 0 to 23. */
  type HourOfDay = h: int | 0 <= h < 24

  function LocalHour(zone: int, t: int): HourOfDay {
    (t + zone) % DAY / HOUR
  }

  /** localtime(t).replace(hour=hour) */
  function ReplaceHour(zone: int, t: int, hour: HourOfDay): int {
    t + (hour - LocalHour(zone, t)) * HOUR
  }

  /** order_by(...).first() on the dates that are not null */
  function Earliest(dates: seq<int>): (first: Option<int>)
    ensures first.None? <==> dates == []
    ensures first.Some? ==> first.value in dates && forall d :: d in dates ==> first.value <= d
  {
    if dates == [] then
      None
    else
      assert dates == [dates[0]] + dates[1..];
      match Earliest(dates[1..])
      case None => Some(dates[0])
      case Some(d) => Some(if dates[0] <= d then dates[0] else d)
  }

  // ------------------------------------------------------------ todos

  predicate Pending(todo: ToDo) {
    !todo.isOk && !todo.reminded && todo.deadline.Some?
  }

  function PendingDeadlines(todos: seq<ToDo>): (deadlines: seq<int>)
    ensures forall d :: d in deadlines <==> exists todo :: todo in todos && Pending(todo) && todo.deadline == Some(d)
  {
    if todos == [] then
      []
    else
      var rest := PendingDeadlines(todos[1..]);
      if Pending(todos[0]) then [todos[0].deadline.value] + rest else rest
  }

  function NextWakeup(todos: seq<ToDo>, now: int, minHour: HourOfDay, zone: int): Option<int> {
    match Earliest(PendingDeadlines(todos))
    case None => None
    case Some(deadline) =>
      var wakeup := deadline - TODO_REMINDER_DELTA;
      Some(
        if LocalHour(zone, wakeup) < minHour then
          ReplaceHour(zone, if wakeup < now then now else wakeup, minHour)
        else
          wakeup)
  }

  /** The todos the job reminds of: get_Q_filter(), less those already reminded. */
  predicate Selected(todo: ToDo, now: int) {
    !todo.isOk && !todo.reminded && todo.deadline.Some? && todo.deadline.value <= now + TODO_REMINDER_DELTA
  }

  predicate OkForContinue(now: int, minHour: HourOfDay, zone: int) {
    LocalHour(zone, now) >= minHour
  }

  /** Executing the reminder at `now` reminds of something. */
  ghost predicate Due(todos: seq<ToDo>, now: int, minHour: HourOfDay, zone: int) {
    OkForContinue(now, minHour, zone) && exists todo :: todo in todos && Selected(todo, now)
  }

  // ------------------------------------------------------------ arithmetic of a day

  lemma InHour(zone: int, t: int) returns (day: int, rest: int)
    ensures t + zone == day * DAY + LocalHour(zone, t) * HOUR + rest
    ensures 0 <= rest < HOUR
  {
    day, rest := (t + zone) / DAY, (t + zone) % DAY % HOUR;
  }

  lemma HourIs(zone: int, t: int, day: int, hour: HourOfDay, rest: int)
    requires t + zone == day * DAY + hour * HOUR + rest && 0 <= rest < HOUR
    ensures LocalHour(zone, t) == hour
  {
    var inDay := hour * HOUR + rest;
    assert 0 <= inDay < DAY;
    assert (t + zone) % DAY == inDay by {
      assert (t + zone) - inDay == day * DAY;
    }
  }

  lemma ReplacedHour(zone: int, t: int, hour: HourOfDay)
    ensures LocalHour(zone, ReplaceHour(zone, t, hour)) == hour
    ensures ReplaceHour(zone, t, hour) <= t <==> hour <= LocalHour(zone, t)
  {
    var day, rest := InHour(zone, t);
    HourIs(zone, ReplaceHour(zone, t, hour), day, hour, rest);
  }

  /** From `t` on, the gate opens less than an hour before the replaced time. */
  lemma GateOpensInTime(zone: int, t: int, e: int, hour: HourOfDay)
    requires t <= e && LocalHour(zone, e) >= hour
    ensures ReplaceHour(zone, t, hour) < e + HOUR
  {
    var day, rest := InHour(zone, t);
    var day', rest' := InHour(zone, e);
    assert day <= day' by {
      assert day' * DAY + DAY > e + zone >= t + zone >= day * DAY;
    }
    assert day * DAY <= day' * DAY;
  }

  // ------------------------------------------------------------ wake-up against filter and gate

  lemma SelectedMeansEarliest(todos: seq<ToDo>, at: int)
    ensures (exists todo :: todo in todos && Selected(todo, at))
       <==> && Earliest(PendingDeadlines(todos)).Some?
            && Earliest(PendingDeadlines(todos)).value <= at + TODO_REMINDER_DELTA
  {
    var deadlines := PendingDeadlines(todos);
    if todo :| todo in todos && Selected(todo, at) {
      assert Pending(todo);
      assert todo.deadline.value in deadlines;
    }
  }

  /** A wake-up exists exactly when a todo is pending, and at that instant the gate is open
      and the filter finds a todo. */
  lemma WakeupIsDue(todos: seq<ToDo>, now: int, minHour: HourOfDay, zone: int)
    ensures NextWakeup(todos, now, minHour, zone).Some? <==> exists todo :: todo in todos && Pending(todo)
    ensures var wakeup := NextWakeup(todos, now, minHour, zone);
            wakeup.Some? ==> Due(todos, wakeup.value, minHour, zone)
  {
    var deadlines := PendingDeadlines(todos);
    assert forall todo :: todo in todos && Pending(todo) ==> todo.deadline.value in deadlines;
    var wakeup := NextWakeup(todos, now, minHour, zone);
    if wakeup.Some? {
      assert Earliest(deadlines).value in deadlines;
      var start := Earliest(deadlines).value - TODO_REMINDER_DELTA;
      ReplacedHour(zone, start, minHour);
      ReplacedHour(zone, now, minHour);
      if LocalHour(zone, start) < minHour && start < now {
        GateStaysBehind(zone, start, now, minHour);
      }
      SelectedMeansEarliest(todos, wakeup.value);
    }
  }

  /** An instant before the gate opens stays before every later day's replaced time. */
  lemma GateStaysBehind(zone: int, start: int, now: int, hour: HourOfDay)
    requires LocalHour(zone, start) < hour && start <= now
    ensures start <= ReplaceHour(zone, now, hour)
  {
    var day, rest := InHour(zone, start);
    var day', rest' := InHour(zone, now);
    assert day <= day' by {
      assert day' * DAY + DAY > now + zone >= start + zone >= day * DAY;
    }
    assert day * DAY <= day' * DAY;
  }

  /** The wake-up comes less than an hour after any instant from now on at which the
      reminder would have had something to do. */
  lemma WakeupIsPrompt(todos: seq<ToDo>, now: int, minHour: HourOfDay, zone: int, e: int)
    requires now <= e && Due(todos, e, minHour, zone)
    ensures NextWakeup(todos, now, minHour, zone).Some?
    ensures NextWakeup(todos, now, minHour, zone).value < e + HOUR
  {
    SelectedMeansEarliest(todos, e);
    var start := Earliest(PendingDeadlines(todos)).value - TODO_REMINDER_DELTA;
    GateOpensInTime(zone, if start < now then now else start, e, minHour);
  }

  /** A wake-up in the past makes the job run at once. The run at the wake-up, or at once,
      reminds of something unless the first reminder became due in the past, at an hour at
      which the gate was open, and the gate is shut now: such a run comes too early. */
  lemma RunIsUseful(todos: seq<ToDo>, now: int, minHour: HourOfDay, zone: int)
    requires NextWakeup(todos, now, minHour, zone).Some?
    ensures var wakeup := NextWakeup(todos, now, minHour, zone).value;
            var start := Earliest(PendingDeadlines(todos)).value - TODO_REMINDER_DELTA;
            Due(todos, if wakeup < now then now else wakeup, minHour, zone)
            <==> !(start < now && LocalHour(zone, start) >= minHour && LocalHour(zone, now) < minHour)
  {
    var wakeup := NextWakeup(todos, now, minHour, zone).value;
    var start := Earliest(PendingDeadlines(todos)).value - TODO_REMINDER_DELTA;
    WakeupIsDue(todos, now, minHour, zone);
    SelectedMeansEarliest(todos, now);
    ReplacedHour(zone, start, minHour);
    ReplacedHour(zone, now, minHour);
  }

  /** It does fire too early: a reminder missed yesterday afternoon makes the job run at
      three in the morning, when the gate of nine o'clock is shut. */
  lemma RunCanBeUseless() returns (todos: seq<ToDo>, now: int)
    ensures NextWakeup(todos, now, 9, 0).Some? && NextWakeup(todos, now, 9, 0).value < now
    ensures !Due(todos, now, 9, 0)
  {
    now := 10 * DAY + 3 * HOUR;
    todos := [ToDo(Some(10 * DAY + 15 * HOUR), false, false)];
    HourIs(0, now, 10, 3, 0);
    HourIs(0, 9 * DAY + 15 * HOUR, 9, 15, 0);
    assert todos[0] in todos && Pending(todos[0]);
    WakeupIsDue(todos, now, 9, 0);
    assert forall d :: d in PendingDeadlines(todos) ==> d == 10 * DAY + 15 * HOUR;
  }

  /** A todo counts when it is not done, not reminded of and has a deadline. */
  lemma PendingDeadlinesWith(todo: ToDo, rest: seq<ToDo>)
    ensures PendingDeadlines([todo] + rest)
         == (if !todo.isOk && !todo.reminded && todo.deadline.Some? then [todo.deadline.value] else [])
            + PendingDeadlines(rest)
  {
    assert ([todo] + rest)[1..] == rest;
    assert [] + PendingDeadlines(rest) == PendingDeadlines(rest);
  }

  /** The wake-up for one todo at three in the morning of day 10, with the gate opening at nine:
      one day before the deadline, but not before nine of that day, or of today when that day
      is past. */
  lemma WakeupExamples()
    ensures WakeupFor(11 * DAY + 15 * HOUR) == Some(10 * DAY + 15 * HOUR)
    ensures WakeupFor(12 * DAY + 5 * HOUR) == Some(11 * DAY + 9 * HOUR)
    ensures WakeupFor(9 * DAY + 5 * HOUR) == Some(10 * DAY + 9 * HOUR)
  {
    WakeupOfOne(11 * DAY + 15 * HOUR, 10, 15);
    WakeupOfOne(12 * DAY + 5 * HOUR, 11, 5);
    WakeupOfOne(9 * DAY + 5 * HOUR, 8, 5);
  }

  function WakeupFor(deadline: int): Option<int> {
    NextWakeup([ToDo(Some(deadline), false, false)], 10 * DAY + 3 * HOUR, 9, 0)
  }

  lemma WakeupOfOne(deadline: int, day: int, hour: HourOfDay)
    requires deadline == (day + 1) * DAY + hour * HOUR
    ensures WakeupFor(deadline)
         == Some(if hour >= 9 then day * DAY + hour * HOUR
                 else if day * DAY + hour * HOUR < 10 * DAY + 3 * HOUR then 10 * DAY + 9 * HOUR
                 else day * DAY + 9 * HOUR)
  {
    OneTodo(deadline);
    HourIs(0, 10 * DAY + 3 * HOUR, 10, 3, 0);
    HourIs(0, day * DAY + hour * HOUR, day, hour, 0);
    assert deadline - DAY == day * DAY + hour * HOUR;
  }

  lemma OneTodo(deadline: int)
    ensures Earliest(PendingDeadlines([ToDo(Some(deadline), false, false)])) == Some(deadline)
  {
    assert PendingDeadlines([ToDo(Some(deadline), false, false)]) == [deadline];
  }

  // ------------------------------------------------------------ alerts and the whole job

  predicate AlertPending(alert: Alert) {
    !alert.isValidated && !alert.reminded && alert.triggerDate.Some?
  }

  function AlertDates(alerts: seq<Alert>): (dates: seq<int>)
    ensures forall d :: d in dates <==>
              exists alert :: alert in alerts && AlertPending(alert) && alert.triggerDate == Some(d)
  {
    if alerts == [] then
      []
    else
      var rest := AlertDates(alerts[1..]);
      var alert := alerts[0];
      if AlertPending(alert) then [alert.triggerDate.value] + rest else rest
  }

  function NextAlertWakeup(alerts: seq<Alert>, delta: int): Option<int> {
    match Earliest(AlertDates(alerts))
    case None => None
    case Some(date) => Some(date - delta)
  }

  predicate AlertSelected(alert: Alert, now: int, delta: int) {
    !alert.isValidated && !alert.reminded && alert.triggerDate.Some? && alert.triggerDate.value <= now + delta
  }

  ghost predicate AlertDue(alerts: seq<Alert>, now: int, delta: int) {
    exists alert :: alert in alerts && AlertSelected(alert, now, delta)
  }

  /** Alerts have no gate: the filter finds one from the wake-up on, and not before. */
  lemma AlertWakeupIsExact(alerts: seq<Alert>, delta: int, at: int)
    ensures AlertDue(alerts, at, delta)
       <==> NextAlertWakeup(alerts, delta).Some? && NextAlertWakeup(alerts, delta).value <= at
  {
    var dates := AlertDates(alerts);
    if alert :| alert in alerts && AlertSelected(alert, at, delta) {
      assert AlertPending(alert) && alert.triggerDate.value in dates;
    }
    if Earliest(dates).Some? && Earliest(dates).value <= at + delta {
      var alert :| alert in alerts && AlertPending(alert) && alert.triggerDate == Some(Earliest(dates).value);
      assert AlertSelected(alert, at, delta);
    }
  }

  /** An alert counts when it is not validated, not reminded of and has a date. */
  lemma AlertDatesWith(alert: Alert, rest: seq<Alert>)
    ensures AlertDates([alert] + rest)
         == (if !alert.isValidated && !alert.reminded && alert.triggerDate.Some? then [alert.triggerDate.value] else [])
            + AlertDates(rest)
  {
    assert ([alert] + rest)[1..] == rest;
    assert [] + AlertDates(rest) == AlertDates(rest);
  }

  function FirstOf(a: Option<int>, b: Option<int>): Option<int> {
    if a.None? then b else if b.None? then a else Some(if b.value < a.value then b.value else a.value)
  }

  /** The job wakes up for the first of its reminders. */
  method JobWakeup(wakeups: seq<Option<int>>) returns (total: Option<int>)
    ensures total.None? <==> forall w :: w in wakeups ==> w.None?
    ensures total.Some? ==> total in wakeups && forall w :: w in wakeups && w.Some? ==> total.value <= w.value
  {
    total := None;
    for n := 0 to |wakeups|
      invariant total.None? <==> forall i :: 0 <= i < n ==> wakeups[i].None?
      invariant total.Some? ==>
                  && total in wakeups[..n]
                  && forall i :: 0 <= i < n && wakeups[i].Some? ==> total.value <= wakeups[i].value
    {
      var wakeup := wakeups[n];
      if wakeup.Some? {
        total := FirstOf(total, wakeup);
      }
    }
  }

  /** Whatever the job has to do from now on, for todos or alerts, it wakes up for it less
      than an hour later, and at the instant it wakes up there is something to do. */
  lemma JobWakeupIsRight(todos: seq<ToDo>, alerts: seq<Alert>, delta: int, now: int, minHour: HourOfDay, zone: int)
    ensures var alert, todo := NextAlertWakeup(alerts, delta), NextWakeup(todos, now, minHour, zone);
            match FirstOf(alert, todo)
            case None => forall e :: now <= e ==> !Due(todos, e, minHour, zone) && !AlertDue(alerts, e, delta)
            case Some(total) =>
              && (Due(todos, total, minHour, zone) || AlertDue(alerts, total, delta))
              && forall e :: now <= e && (Due(todos, e, minHour, zone) || AlertDue(alerts, e, delta)) ==>
                  total < e + HOUR
  {
    var total := FirstOf(NextAlertWakeup(alerts, delta), NextWakeup(todos, now, minHour, zone));
    WakeupIsDue(todos, now, minHour, zone);
    if total.Some? {
      AlertWakeupIsExact(alerts, delta, total.value);
    }
    forall e | now <= e && (Due(todos, e, minHour, zone) || AlertDue(alerts, e, delta))
      ensures total.Some? && total.value < e + HOUR
    {
      AlertWakeupIsExact(alerts, delta, e);
      if Due(todos, e, minHour, zone) {
        WakeupIsPrompt(todos, now, minHour, zone, e);
      }
    }
  }
}
