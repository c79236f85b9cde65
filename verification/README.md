# Creme CRM: verified models of its algorithms

Creme is a customer relationship manager built on Django. Most of it is configuration and
screens; a dozen places hold real algorithms. This project models those places in Dafny and
proves what they promise.

| file | what it models |
|---|---|
| `Bisection.dfy`, `TransitionScan.dfy`, `PartTable.dfy`, `VTimezone.dfy`, `SummerTime.dfy` | the VTIMEZONE generator of the iCalendar export: bisection of 30-day windows, the scan, the in-place merge, the meaning of the resulting table (section 3.6.5 of RFC 5545), and the tables of Paris and London |
| `Collisions.dfy` | the collision check of activities and the calendar that its callers keep with it |
| `NumberGeneration.dfy`, `DecimalText.dfy` | numbering of billing documents with monthly, yearly or no reset |
| `AppStartup.dfy` | the once-only start-up hook, over all interleavings of threads |
| `Reminders.dfy` | the wake-up of the reminder job against its own filters and gate |
| `ComponentTree.dfy` | the indented list of a component tree |
| `GlobalInfo.dfy`, `ThreadView.dfy` | the store that all threads share for their global values and per-request caches, and what one thread alone would see, with nested calls |
| `BillTotals.dfy` | totals of received bills, one by one, batched and cached |
| `PortableKeys.dfy` | the recursive system check on portable keys |
| `TitleCaches.dfy` | the cached columns of alert, memo and todo titles |
| `CreationGrid.dfy` | packing menu groups in a square |
| `TypePopulation.dfy` | re-runnable creation of activity types |
| `OrganisationMerge.dfy` | de-duplication of number configurations when organisations merge |

Check everything with `dafny verify dfyconfig.toml`.

## Main results

**The time zone table means the zone.** `VTimezone.GenerateParts` terminates and returns a
table in which, for every local time of the range, the part with the latest date not after
that time has the zone's own offset if and only if the time is not one the clocks jumped over.
It asks something of the zone only where the scan looks: `Scannable` speaks of the windows
from one before the last step that the range needs to one after the first step beyond it. The
way there: the bisection is characterised for every zone (`BisectTransitionBrackets`,
`BisectTransitionExact`), the scan finds one list of steps and no other could be right
(`ScanIsUnique`), and the merge, done through references while the parts already stand in the
result, loses nothing and cannot be compressed further (`MergeIsLossless`,
`MergedDatesIncrease`, `MergedIsCompressed`). `ParisIn2010` and `LondonIn2010` are instances;
London's odd step of 1847 is out of sight and does no harm.

**Threads are isolated although they share one store.** All entries and all cache dictionaries
are within reach of every method of `GlobalInfo.Module`; that no dictionary is ever within
reach of two threads is an invariant, and from it each thread sees what it would see alone
(`OwnChangeIsUnseen`, `ThreadsAreIsolated`, `Module.Interleave`).

**Where the code does less than one may expect**, the exact condition is proved:

- a window of 30 days tells each of its steps as it is if and only if it has one step at most,
  which starts well and keeps its labels to the end of the last bracket (`WindowTellsItsSteps`).
  A step starts well when clocks go back on a whole hour, or go forward at an onset on a whole
  hour with the last bracket starting in that hour (`EmittedStartIsOnset`). Steps back or
  forward by one hour only have to be on a whole hour (`StartOfOneHourStep`); for a jump of half
  an hour it depends on where the window lies (`HalfHourDependsOnWindow`). Two steps that cancel
  out in a window are missed (`CancellingStepsAreMissed`);
- the backward scan stops if and only if the offset, looked at every 30 days, was once another
  one than at the start of the range (`BackwardScanStops`), which with one step a window means
  that there is an earlier step (`BackwardScanStopsAtStep`); with exact windows, the forward
  scan stops if and only if a step has its onset after the range (`ForwardScanStopsAtStep`);
- a form that asks the collision check about some participants only, or writes without asking,
  makes a conflict if and only if the check would have found one for the others
  (`HandleKeepsConflictFree`). Such are the form of a project task, the replacement of a task's
  resource and the mass import (`TaskFormCanMakeConflict`);
- a call of the hooked `populate` can come back before the hooks have run, exactly when it
  finds the registry ready while hooks are missing (`EarlyReturn`, `EarlyReturnHappens`);
- a wake-up of the todo reminder that lies in the past runs the job at once, and that run is in
  vain exactly when the first todo fell due in the past at an hour with the gate open while the
  gate is shut now (`RunIsUseful`, `RunCanBeUseless`);
- the single and the batched totals of an entity differ exactly when `Excess` is not zero, which
  is the sum of the totals of its bills, each times its managed issuers beyond the first
  (`BatchedRefinesSingle`, `TwoIssuersCountTwice`); populating a column keeps its cache right
  under exactly that condition (`TotalField.PopulateEntities`);
- between two clears a cached function completes at most once if and only if it does not
  re-enter itself (`CompletesAtMostOnce`, `ReentrantCompletesTwice`);
- the bare `{counter:04}` format prints some number twice along a run if and only if a reset is
  followed by another reset, or by at least as many calls as the counter that the run started
  with, when that is at least 1 as the form requires (`BareNumbersRepeat`, `BareNumberTwice`);
- the check on portable keys is exact when what it walks through without being installed is
  sound (`ReportIsExact`), and whatever the depth bound when related models are installed
  (`ClosedReportIsExact`); otherwise its report lies between two bounds (`ReportIsBetween`) and
  can depend on the order of the installed models (`OrderMatters`).

## Assumptions

- Times are integers counting microseconds. A zone is the function `utcoffset` on naive local
  times (with fold 0), with `dst` and `tzname`; an offset is strictly between minus one day and
  one day.
- Tables are sequences or maps. `EntityCredentials.filter` is an arbitrary set of visible
  bills. A relation exists once (a constraint of its table). Sorted queries keep the table's
  order among equal keys.
- Django's own `populate` is one step that takes the lock unless the registry is ready
  already. Hooks raise no exception.
- Local time in reminders is at a fixed distance from UTC, and the minimum hour is between 0
  and 23, as its form requires.
- Dates do not decrease when the counter is reset by month or year, where a lemma says so.
- A created activity has a new primary key, and an activity is not taken out of the trash.
- The titles of a field are asked for by one user. Data do not change while a cache is in use.

## Model

| member | source | states |
|---|---|---|
| Bisection.BisectTransitionBrackets | creme/activities/utils.py:316-345 | For any zone, the bisection answers nothing exactly when both ends have the same offset; otherwise it reports a real change inside the window, found between two instants less than an hour apart, whose offset before is that of the original left end. |
| Bisection.BisectTransitionExact | creme/activities/utils.py:316-345 | Around a single step of any zone, a 30-day window tells both offsets around the step, and a start and labels read at the ends of the bracket that ten halvings of the window leave around it. |
| Bisection.EmittedStartIsOnset | creme/activities/utils.py:325-337 | For any step, the emitted start is the local onset if and only if clocks go back on a whole hour, or forward at an onset on a whole hour with the last bracket starting in that hour. |
| Bisection.StartOfOneHourStep | creme/activities/utils.py:325-337 | For a step back, or forward by one hour, the window does not matter: the start is right if and only if the step is on a whole hour. |
| Bisection.WindowTellsItsSteps | creme/activities/utils.py:361-365 | For any zone, a window tells each of its steps as it is if and only if it has one step at most, which starts well and keeps its labels to the end of the last bracket. |
| Bisection.HalfHourDependsOnWindow | creme/activities/utils.py:323-332 | One and the same half-hour jump is told with the right start by one window and an hour early by another. |
| TransitionScan.UsualIsScannable | creme/activities/utils.py:316-375 | Steps on whole hours, a window apart, back or forward by one hour make a zone fit for the scan wherever the windows lie. |
| TransitionScan.LastTransitionBy | creme/activities/utils.py:354-368 | The backward windows stop, and yield the last step at or before the date. |
| TransitionScan.WithLaterTransitions | creme/activities/utils.py:347-375 | The forward windows stop; after the first transition they add every later one whose onset is not after the end, once each and in order. |
| TransitionScan.ScanTransitions | creme/activities/utils.py:347-375 | Both scans stop; the raw list is the transition of the last step at or before the start, then of every later step with onset not after the end, once each and in order. |
| TransitionScan.ScanIsUnique | creme/activities/utils.py:367-375 | A range of dates admits only one raw list of transitions. |
| TransitionScan.BackwardScanStops | creme/activities/utils.py:354-368 | For any zone, some backward window yields exactly when the offset at some whole number of windows before the start differs from the one at the start. |
| TransitionScan.BackwardScanStopsAtStep | creme/activities/utils.py:354-368 | With one step a window at most, some backward window yields exactly when there is a step at or before the start. |
| TransitionScan.ForwardScanStopsAtStep | creme/activities/utils.py:347-373 | With exact windows, some forward window yields a transition that ends the scan exactly when some step has its onset after the end. |
| TransitionScan.CancellingStepsAreMissed | creme/activities/utils.py:317-321 | A zone with two steps of which no window tells any, so that neither scan of it ever stops. |
| PartTable.MergeIsLossless | creme/activities/utils.py:377-401 | Expanding every merged part into its dates, with its own offsets, name and kind, gives back exactly the original parts, as a multiset. |
| PartTable.MergedDatesIncrease | creme/activities/utils.py:377-401 | From parts in order: the dates of each merged part strictly increase, and so do the starts from part to part. |
| PartTable.MergedIsCompressed | creme/activities/utils.py:390-401 | No two consecutive merged parts of one kind agree on offsets and name. |
| VTimezone.MergePart | creme/activities/utils.py:386-401 | Appending to the list of the part kept as previous changes that part in the result and no other, or starts a new part. |
| VTimezone.MergeParts | creme/activities/utils.py:377-403 | The merged objects are all different and hold the specified table, although they are changed through another reference while they stand in it. |
| VTimezone.TableMeansZone | creme/activities/utils.py:242-261 | For every local time of the range some date governs, and whatever part governs has the zone's offset exactly when the clocks did not jump over that time. |
| VTimezone.GenerateParts | creme/activities/utils.py:301-403 | None exactly for a reversed range; otherwise new objects that hold the merged table of the one scan, faithful to the zone at every time of the range. |
| SummerTime.CityIn2010 | creme/activities/utils.py:301-403 | A city with standard and summer time is fit for the scan of 2010, whatever mean time it had before 1847, and its table has two parts with the dates of its clock changes. |
| SummerTime.ParisIn2010 | creme/activities/tests/test_utils.py:265-290 | The table of Paris for 2010 is the one of the repository's own test. |
| SummerTime.LondonMeanTime | creme/activities/utils.py:325-337 | The end of London's mean time is told rightly only by a window whose last bracket starts in the 75 seconds of the jump. |
| SummerTime.LondonIn2010 | creme/activities/tests/test_utils.py:316-342 | The table of London for 2010 is the one of the repository's own test, in spite of that step. |
| Collisions.CheckActivityCollisions | creme/activities/utils.py:60-125 | No answer without a start; otherwise one collision per hindered participant, in order, each naming one of that participant's colliding activities. |
| Collisions.CollidesMeans | creme/activities/utils.py:69-103 | The tests that find an activity for a participant, written out: participation, not excluded, overlap, not in the trash, not floating, one of the two busy. |
| Collisions.HinderedAt | creme/activities/utils.py:72-123 | Those who are reported are exactly the participants with a colliding activity, in the order of the list and as often as they stand there. |
| Collisions.CheckIsExact | creme/activities/utils.py:69-103 | The check is empty exactly when no participant takes part in another live, dated activity that overlaps, one of the two being busy. |
| Collisions.WriteIsSafe | creme/activities/utils.py:69-103 | Giving an activity a row and participants leaves a conflict-free calendar so if and only if none of these participants has another activity that conflicts with the row. |
| Collisions.HandlesWhatIsAsked | creme/activities/views/calendar.py:413-435 | What comes of every request, told apart from its handling: the dates, flags and participants asked for, all else unchanged; carried out exactly when the calendar asked for is free of conflicts, when the resource of a task is free, or in any case, as the request goes. |
| Collisions.HandlesNothingElse | creme/activities/forms/activity.py:473-485 | A request that does not fit the calendar changes nothing. |
| Collisions.MoveIsRefused | creme/activities/views/calendar.py:413-435 | An activity that cannot be moved onto another one of the same participant, and can be moved behind it. |
| Collisions.HandleKeepsConflictFree | creme/activities/views/calendar.py:413-435 | A request that is carried out leaves nobody with a conflict if and only if the check would have passed for those it was not asked about; this covers creating, editing, moving, adding, removing, trashing, project tasks and mass import. |
| Collisions.HandlesExactly | creme/activities/forms/activity.py:473-485 | On a conflict-free calendar, the activities' own views carry out a request exactly when the calendar it asks for is free of conflicts, and otherwise change nothing. |
| Collisions.TaskFormIsSafeAlone | creme/projects/forms/task.py:173-188 | The form of a project task, which asks about the resource alone, makes no conflict when nobody else takes part. |
| Collisions.TaskFormCanMakeConflict | creme/projects/forms/task.py:173-188 | A conflict-free calendar in which that form makes a conflict for another participant. |
| Collisions.RunsStayConflictFree | creme/activities/utils.py:60-125 | Along a run of requests no schedule ever gets a conflict if and only if every request that is carried out is harmless to those not asked about. |
| Collisions.OwnViewsStayConflictFree | creme/activities/forms/bricks.py:119-146 | Along every run of requests of the activities' own views no schedule ever gets a conflict. |
| NumberGeneration.Item.BuildContext | creme/billing/number_generators.py:53-84 | The counter printed, and the counter and date kept in memory, for each kind of reset; an unreadable stored date changes nothing. |
| NumberGeneration.Item.Perform | creme/billing/number_generators.py:86-98 | A number is the format filled with that context and saves the row; a failed call leaves the row unchanged, though the instance may have counted. |
| NumberGeneration.RenderFails | creme/billing/number_generators.py:89-94 | Filling a format fails exactly when it has an unknown field. |
| NumberGeneration.RenderOneMore | creme/billing/number_generators.py:79-91 | Each field of a format prints its own text after the others: literal text, padded counter, year, two-digit month, code. |
| NumberGeneration.FirstCounterIs | creme/billing/number_generators.py:53-75 | The first number of an item: the stored counter, or one, goes on unless a yearly or monthly reset comes with another year or month than that of the stored date. |
| NumberGeneration.NextCounterIs | creme/billing/number_generators.py:61-76 | From call to call the counter goes on by one, or starts at one with another year when it is yearly, and with another year or month when it is monthly. |
| NumberGeneration.CountersAreConsecutive | creme/billing/number_generators.py:61-75 | Along a run in date order, counters are consecutive without a reset, within a year when it is yearly, and within a month when it is monthly. |
| NumberGeneration.NewPeriodStartsAtOne | creme/billing/number_generators.py:66-71 | The first call of a new period gets counter one. |
| NumberGeneration.KeysNeverRepeat | creme/billing/number_generators.py:53-84 | Year, month and counter together never come twice in a run, under any reset. |
| NumberGeneration.ParseBack | creme/billing/number_generators.py:113-134 | A printed number parses back to its year, month and counter, whatever its prefix and however large its counter. |
| NumberGeneration.NumbersNeverRepeat | creme/billing/number_generators.py:86-134 | With a PREFIX-year-month-counter format no run prints a number twice. |
| NumberGeneration.YearlyGoesOn | creme/billing/number_generators.py:61-69 | Three literal numbers of a yearly item: it goes on in February and starts again in the next year. |
| DecimalText.PaddedIs | creme/billing/number_generators.py:82-82 | Padding fills up to the width exactly, with zeros on the left, and cuts nothing. |
| NumberGeneration.CounterInPeriod | creme/billing/number_generators.py:53-84 | The counter of every call in closed form: calls since the period began, from the first counter or from one. |
| NumberGeneration.BareNumbersRepeat | creme/billing/number_generators.py:49-51 | Along any run, the bare counter format prints some number twice if and only if a reset is followed by another one, or by at least as many calls as the first counter. |
| NumberGeneration.BareNumbersOfOnePeriod | creme/billing/number_generators.py:53-84 | Without resets, or within one period, bare numbers do not repeat. |
| NumberGeneration.BareNumberTwice | creme/billing/number_generators.py:49-75 | A new monthly item prints "0001" in January and again in February. |
| AppStartup.HooksRunOnce | creme/__init__.py:26-42 | In every interleaving each hook runs at most once, in order, after the original populate; the flag, and a return by the flag or the lock, mean that all have run. |
| AppStartup.MutualExclusion | creme/__init__.py:35-42 | At most one thread is in the locked block. |
| AppStartup.EarlyReturn | creme/__init__.py:27-31 | A call returns before all hooks have run exactly when its first guard finds the registry ready with hooks missing. |
| AppStartup.EarlyReturnHappens | creme/__init__.py:27-33 | A run of two threads in which this happens. |
| AppStartup.GuardsReturn | creme/__init__.py:27-31 | A call whose guard holds returns at once and touches nothing. |
| AppStartup.ReadyTurnsOutsideLock | creme/__init__.py:33-35 | The registry becomes ready only while nobody is in the locked block, and stays so. |
| AppStartup.LoneCall | creme/__init__.py:26-42 | A call alone, state by state: it populates, runs the hook under the lock, sets the flag and releases the lock. |
| AppStartup.NoDeadlock | creme/__init__.py:26-42 | While a call is under way some thread in a call can step. |
| AppStartup.StepsRunOut | creme/__init__.py:26-42 | Every step inside a call decreases a measure of all calls together, so that without new calls every schedule ends. |
| Reminders.WakeupIsDue | creme/assistants/reminders.py:78-101 | A wake-up exists exactly when a todo is pending, and at that instant the gate is open and the filter finds a todo. |
| Reminders.WakeupIsPrompt | creme/assistants/reminders.py:85-101 | The wake-up is less than an hour after any instant from now on at which the reminder has something to do. |
| Reminders.PendingDeadlinesWith | creme/assistants/reminders.py:87-89 | A todo counts when it is not done, not reminded of and has a deadline. |
| Reminders.WakeupExamples | creme/assistants/reminders.py:85-101 | Three literal wake-ups: in the opening hours, before them, and before them on a day that is past. |
| Reminders.RunIsUseful | creme/assistants/reminders.py:82-101 | Run at the wake-up, or at once when it is past, the job finds something except exactly when the first todo fell due in the past at an hour with the gate open while the gate is shut now. |
| Reminders.RunCanBeUseless | creme/assistants/reminders.py:82-101 | A concrete wake-up in the past that fires while the gate is shut. |
| Reminders.AlertWakeupIsExact | creme/assistants/reminders.py:51-62 | The alert filter finds an alert from the wake-up on and not before. |
| Reminders.AlertDatesWith | creme/assistants/reminders.py:57-60 | An alert counts when it is not validated, not reminded of and has a date. |
| Reminders.JobWakeup | creme/creme_core/creme_jobs/reminder.py:51-60 | The job wakes up for the earliest of its reminders, or not at all. |
| Reminders.JobWakeupIsRight | creme/creme_core/creme_jobs/reminder.py:51-60 | There is no wake-up exactly when nothing can be due; otherwise a todo or an alert is due at that instant, which is less than an hour after any instant from now on at which one is. |
| ComponentTree.Brick.ExploreTree | creme/commercial/bricks.py:322-326 | The nested recursive loop leaves the list and the depths of the specified walk. |
| ComponentTree.Brick.GetFlattenedTree | creme/commercial/bricks.py:319-330 | When no component comes twice, the list read with the depths written is the flattened forest. |
| ComponentTree.WalkMeansFlatten | creme/commercial/bricks.py:322-328 | The walk appends the components in preorder and writes their depths in that order. |
| ComponentTree.FlattenedExample | creme/commercial/bricks.py:319-330 | A component with two children and one beside it, as the list shows them. |
| ComponentTree.RebuildFlattened | creme/commercial/bricks.py:319-330 | Rebuilding a forest from its flattened list gives the forest back. |
| ComponentTree.FlattenRebuilt | creme/commercial/bricks.py:319-330 | Flattening what was rebuilt from any list gives the list back, up to the part not taken. |
| ComponentTree.ListsAndForestsCorrespond | creme/commercial/bricks.py:319-330 | A list comes from a forest exactly when its depths start at zero and rise by at most one, and then from one forest only. |
| GlobalInfo.OwnChangeIsUnseen | creme/creme_core/global_info.py:33-71 | A change of one thread's entry, stack and reachable dictionaries is seen by no other thread, because no dictionary is within reach of two. |
| GlobalInfo.ThreadsAreIsolated | creme/creme_core/global_info.py:33-71 | Under every interleaving on the shared store each thread sees exactly what it would see running alone. |
| GlobalInfo.Module.Interleave | creme/creme_core/global_info.py:36-94 | So it is for any interleaving of calls of the methods below. |
| GlobalInfo.Module.GetGlobalInfo | creme/creme_core/global_info.py:36-44 | The calling thread hears its own value, or nothing, and nothing changes. |
| GlobalInfo.Module.SetGlobalInfo | creme/creme_core/global_info.py:47-52 | The calling thread's values are updated; its cache and all that other threads see are not. |
| GlobalInfo.Module.ClearGlobalInfo | creme/creme_core/global_info.py:55-57 | The calling thread loses its values and its cache, and started calls are cut off from it; other threads see nothing of it. |
| GlobalInfo.Module.GetPerRequestCache | creme/creme_core/global_info.py:60-71 | The calling thread's own dictionary, which is new and out of every other thread's reach when there was none. |
| GlobalInfo.Module.BeginCached | creme/creme_core/global_info.py:82-88 | Answers from the calling thread's dictionary, or starts the function, unseen by others. |
| GlobalInfo.Module.EndCached | creme/creme_core/global_info.py:85-90 | The result goes into the dictionary that was looked in, which the thread sees exactly when it has not cleared it since; unseen by others. |
| ThreadView.SetThenGot | creme/creme_core/global_info.py:36-57 | A value that was set is found until it is set again or cleared. |
| ThreadView.NothingIsGot | creme/creme_core/global_info.py:36-57 | A thread finds nothing for a key exactly when it has not set it since it last cleared, or ever. |
| ThreadView.FirstCallStarts | creme/creme_core/global_info.py:60-88 | The first call for a key after a clear, or ever, starts the function. |
| ThreadView.ResultIsRemembered | creme/creme_core/global_info.py:82-90 | A result that was computed once is the answer to every later call until a clear. |
| ThreadView.SettledAnswers | creme/creme_core/global_info.py:82-90 | Once a key is settled, every later call until a clear returns that value without running the function. |
| ThreadView.CompletionSettles | creme/creme_core/global_info.py:85-88 | A completion settles its key exactly when no outer call for the same key is under way. |
| ThreadView.CompletesAtMostOnce | creme/creme_core/global_info.py:82-90 | Between two clears, when all calls have finished, a function completes at most once if and only if it did not re-enter itself. |
| ThreadView.ReentrantCompletesTwice | creme/creme_core/global_info.py:82-90 | A re-entrant one completes twice, and the outer result replaces the inner. |
| BillTotals.SingleCountsIssuers | creme/billing/function_fields.py:96-115 | The single total counts every bill once for each managed organisation that issued it. |
| BillTotals.SumTotalsNoVatMulti | creme/billing/function_fields.py:118-154 | The batched totals, for each entity of the list, count every issued bill once. |
| BillTotals.NothingReceived | creme/billing/function_fields.py:96-154 | Without received bills both totals are zero. |
| BillTotals.ReceivedBillAdds | creme/billing/function_fields.py:96-154 | What one more received bill adds to both totals: nothing unless it exists, is not deleted, has a total, passes the filters and may be seen by the user; else its total, once for every managed issuer in the single form, and once in the batched form when there is one. |
| BillTotals.ExcludedBillAddsNothing | creme/billing/function_fields.py:97-108 | Both totals are the same when the received rows of a deleted, unpriced, filtered or invisible bill are taken out. |
| BillTotals.FormsDifferByExcess | creme/billing/function_fields.py:96-154 | The two forms differ by every bill's total times its managed issuers beyond the first. |
| BillTotals.BatchedRefinesSingle | creme/billing/function_fields.py:96-154 | They agree exactly when that difference is zero; so when no bill of the entity has two managed issuers and, among positive totals, only then. |
| BillTotals.TwoIssuersCountTwice | creme/billing/function_fields.py:96-154 | One bill with two managed issuers, which the single form counts twice and the batched form once. |
| BillTotals.TotalField.Call | creme/billing/function_fields.py:220-231 | Returns and keeps what is cached, or else the single total; with a right cache, always the uncached single total. |
| BillTotals.TotalField.PopulateEntities | creme/billing/function_fields.py:233-239 | The batched totals of the entities replace what was cached for them and nothing else; a right cache stays right exactly when the two forms agree on all of them. |
| PortableKeys.Checker.CheckModel | creme/creme_core/checks.py:266-331 | The recursive loops leave the errors of the specified walk. |
| PortableKeys.Checker.CheckPortableKeys | creme/creme_core/checks.py:252-337 | The check returns the report that the lemmas below are about. |
| PortableKeys.ReportIsBetween | creme/creme_core/checks.py:252-337 | For every project and depth bound: one error at most for each model, with its fault, on faulty models reachable within the bound only, and none is missed that is reachable through sound models. |
| PortableKeys.ReportIsExact | creme/creme_core/checks.py:252-337 | When models walked through without being installed are sound, exactly the faulty models reachable within the bound are reported. |
| PortableKeys.ClosedReportIsExact | creme/creme_core/checks.py:252-337 | When related models are installed, exactly the faulty models that an installed entity model links to are reported, whatever the bound. |
| PortableKeys.OrderMatters | creme/creme_core/checks.py:280-331 | A project whose report depends on the order of its models: one that was warned about at the bottom of a walk is never walked through. |
| PortableKeys.ErrorsTell | creme/creme_core/checks.py:274-327 | Each error is on a model that a viewable, enumerable foreign key or many-to-many field of a non-fake entity model leads to, and tells what is missing first. |
| PortableKeys.LinksAreReported | creme/creme_core/checks.py:274-327 | Such a link from an installed model to a model that lacks something is never missed. |
| TitleCaches.SortThenOf | creme/assistants/function_fields.py:95-99 | Taking one entity's rows from the sorted rows of all is sorting that entity's rows alone. |
| TitleCaches.SortSorts | creme/assistants/function_fields.py:81-84 | The ordered query is sorted and has the same rows. |
| TitleCaches.SortIsStable | creme/assistants/function_fields.py:81-84 | Rows of equal rank stay in the order of the table. |
| TitleCaches.ShownTitles | creme/assistants/function_fields.py:79-85 | A user without access to the app is told so, whatever the rows; any other one is shown the titles of the entity's active rows, each as often as it stands there, in order. |
| TitleCaches.SplitGivesOwnTitles | creme/assistants/function_fields.py:91-99 | Splitting the sorted rows of several entities gives each its own ordered titles. |
| TitleCaches.TitlesField.Call | creme/assistants/function_fields.py:74-89 | A call returns exactly the entity's own ordered titles, or "Forbidden app" without access, whatever the cache has been through. |
| TitleCaches.TitlesField.PopulateEntities | creme/assistants/function_fields.py:91-99 | Populating, repeats and overlaps included, keeps cached lists as they are and adds right ones for the others that have rows. |
| CreationGrid.RowLengthsFit | creme/creme_core/menu.py:223-244 | For every number of groups the rows in closed form hold all of them, leave no hole, are not negative, never get shorter, and differ by one cell at most. |
| CreationGrid.PackRows | creme/creme_core/menu.py:228-256 | The loop makes exactly these rows, with all groups once and in order, and never exhausts the iterator. |
| CreationGrid.AsGrid | creme/creme_core/menu.py:214-256 | The same from the groups alone, with as many rows as the ceiling of the square root. |
| TypePopulation.Database.PopulateActivityTypes | creme/activities/populate.py:412-445 | The loops leave the specified tables and never save a row that exists already. |
| TypePopulation.PhaseIsExact | creme/activities/populate.py:412-445 | The exact rows after a phase: those before, unchanged, and the types of its kind and the sub-types it wants, each with the row of its definition and under its own type. |
| TypePopulation.PopulationIsSafe | creme/activities/populate.py:412-445 | No row is changed or lost; every mandatory type and mandatory sub-type exists afterwards, new ones with the rows of their definitions, and sub-types keep standing under their own types. |
| TypePopulation.FirstRunCreatesAll | creme/activities/populate.py:412-445 | The first population of an empty database creates every type and sub-type, custom ones as well, with the rows of their definitions. |
| TypePopulation.NoCustomTypeLater | creme/activities/populate.py:436-445 | Later populations create no custom type. |
| TypePopulation.DeletedStaysDeleted | creme/activities/populate.py:426-434 | A custom sub-type deleted from a mandatory type that is still there is not created again. |
| TypePopulation.SecondRunChangesNothing | creme/activities/populate.py:412-445 | A second, already-populated run changes nothing. |
| OrganisationMerge.HandleMergeOrganisations | creme/billing/signals.py:107-130 | Deletes exactly the other organisation's items for the types both have. |
| OrganisationMerge.MergeKeepsOneEach | creme/billing/signals.py:107-130 | After the remaining items change hands, every type either organisation had has exactly one item, the kept one's own when it had one, and other organisations' items are unchanged. |

## Left out

- VTimezone.GenerateParts: zones that are not fit for the scan of the range, that is with a window that is not exact, a step in the jump of another, or no step on one side. What such a window tells, and when the scans stop, is in the lemmas of `Bisection` and `TransitionScan`.
- SummerTime.CityIn2010: the clock changes of other years and of wars; the cities are told by their mean time and the changes from 2009 to 2011.
- VTimezone.MergeParts: makes the objects as it goes, while the original makes them during the scan; nothing else refers to the raw list.
- Bisection.BisectTransition: overflow of dates at the ends of the calendar.
- The printed VTIMEZONE text and the rest of the iCalendar file.
- Collisions.CheckActivityCollisions: which of several colliding activities is named, and the message texts.
- Collisions.HandlesExactly: requests about an activity in the trash, which the check may refuse without a conflict; taking one out of the trash is not checked by the code and can create a conflict.
- Collisions.RunsStayConflictFree: deleting an activity for good, which only removes rows.
- NumberGeneration.Item.Perform: parsing of format strings, their alignment options beyond zero padding, and the ISO 8601 text of the stored date; formats are sequences of fields and dates are values or unreadable.
- NumberGeneration.NumbersNeverRepeat: a clock set back, or a counter edited by hand, can repeat a number.
- AppStartup.HooksRunOnce: exceptions in hooks and re-entrant calls of the original populate.
- Reminders.WakeupIsPrompt: real daylight-saving changes between UTC and local time.
- ComponentTree.Brick.ExploreTree: components are their ids and the attribute `deep` is one map from ids, so object identity of components is not modelled; the building of the tree from parent references is not either.
- GlobalInfo.Module.SetGlobalInfo: called without any value, after which reading gives an empty dictionary; reading or overwriting the cache entry by hand; exceptions raised by cached functions.
- BillTotals.TotalField.Call: the message shown when the acceptation date is hidden, and the choice of result class by type.
- PortableKeys.Checker.CheckPortableKeys: the hints and texts of the errors.
- TitleCaches.TitlesField.Call: several users of one field, whose lists would be shared.
- CreationGrid.AsGrid: the contents of a cell (label and links), and the rounding of the floating-point square root.
- TypePopulation.Database.PopulateActivityTypes: the fields of types other than name and custom flag, and statuses and calendar configuration.
- Screens, permissions, forms, notifications, cloners and converters, which would only add easy members.
