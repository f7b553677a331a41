# Ragra, verified

Ragra watches a student's Google Classroom, keeps the tasks it finds in a small store, reminds the student before each
deadline, mirrors the tasks into a calendar, reads the weekly class timetable from a spreadsheet, and announces classes
shortly before they start. This project models the parts of it that decide things and proves what they keep.

The code that changes rows in place is modelled by classes whose methods change fields (`Stores.Store`,
`CalendarMirror.CalendarSync`, `TimetableSync.TimetableEvents`, `Nags.ChatThread`, `ClassReminders.ClassReminderTable`,
`Health.HealthTables`) and by methods with loops (the grid scanner, the twelve-hour reader, the occurrence expansion, the
enrollment parser and printer, the reminder plan). Every such method is proved to take its state to the one a
specification function gives; the theorems are lemmas about those functions and about whole runs of them. Everything that
comes from outside - listings, provider answers, calendar failures, sheet contents, the clock - is a parameter, so each
theorem holds whatever it is.

Files, from the bottom up: `Text` (digits, code-point order, strip, split, join), `Instants` (UTC text), `Sorting`;
`ReminderPlan`, `Records`, `Repo`, `Classroom`, `Resync`, `Outcome`, `Countdown`, `SyncCountdown`, `SyncRows`,
`SyncCourses`, `SyncCounts`, `Dispatch`, `Pipeline`, `Pings`, `UserActions`, `DeadlineLoss`, `MidSync`, `Store` (the
reminder pipeline); `WallClock`, `Schedule`, `TwelveHour`, `Grid`, `TimetableSync`, `TimetableRows`, `TimetableCounts`
(the timetable); `Enrollment` (the text area); `CalendarMirror`, `Nags`, `ClassReminders`, `ClassCounts`, `Health`.

## What the proofs found

- The clause of `due_pending_reminders` that lets a DEADLINE_REACHED reminder of a MISSED task through
  (`ragra/db/repo.py:1249-1252`) selects nothing once a sync has finished, because the sync withdraws those rows first.
  `Pipeline.DeadlineReachedWindow` and `Pipeline.DeadlineReachedIsSent` give the exact conditions under which the
  reminder is due, and is sent, after a sync; `DeadlineLoss.DeadlineReachedLossExample` is a run of two syncs from the
  empty store that loses it although its half hour of grace has not passed.
- A deadline that moves away and back (A, B, A) gets back only part of its countdown: a key that was used is never used
  again, so the return pends exactly the reminders wanted now of the kinds that were not wanted when the task was found
  (`Countdown.BackFillsTheRest`), and none exactly when there is no such kind (`Countdown.BackIsSilentExactly`). Found ten
  days ahead and back nine days ahead there is none (`Countdown.BackEarlyIsSilent`); back thirty hours ahead there is one
  (`Countdown.BackLateIsNot`). The plan is complete for a deadline the task never held (`Outcome.FirstMoveGetsItsPlan`,
  `SyncCountdown.FreshCountdownAfterSync`); `SyncCountdown.CountdownAfterSync` says what every task has.
- A task already marked MISSED stays MISSED when its deadline is extended (`Outcome.SyncDecidesStatus`). In the middle of
  a sync such a move can leave a closed task with pending reminders, which the end of the sync withdraws:
  `MidSync.StepQuietExactly` says which operations do, exactly those that move the deadline of a closed task to one whose
  change alert, or an entry of whose plan, has a free key, and `MidSync.QuietBreaksExample` is a run from the empty store
  that meets it.
- `local_day_bounds` fails at a midnight the clock jumps over or at: `WallClock.DaysTile` and
  `WallClock.BoundsContainInstant` state exactly when days meet and when they contain their instant;
  `WallClock.JumpAtMidnightOverlaps`, `WallClock.FirstHalfHourIsOutside` and `WallClock.SecondHalfHourIsOutside` are
  clocks for which they do not.
- The day loop of `expand_occurrences` can miss a meeting inside its window: one the gap shifts past midnight, or one
  before a clock falls back across a midnight. `Schedule.Overlooked` is the exact condition
  (`Schedule.ExpansionIsComplete`), `Schedule.OverlookedExample` an instance, and `Schedule.NothingOverlooked` shows there
  is none when the clock jumps far from midnight. The meetings of a local day are wrong exactly for `Schedule.Misfiled`
  times (`Schedule.TodayIsTheLocalDay`, `Schedule.MisfiledExample`).
- The twelve-hour reader undoes the writing exactly when the first afternoon hour is written smaller than the hour before
  it (`TwelveHour.RoundTripExactly`), which includes every half day that starts at noon or earlier; a day that starts at
  one in the afternoon is misread (`TwelveHour.AfternoonAloneIsMisread`).
- The documentation of the grid scanner says a header row "resets which columns carry a time slot"; the code never clears
  a column. The model follows the code, `Grid.LastHeaderSuffices` states exactly when the two readings agree, and
  `Grid.OldColumnSurvives` is a sheet on which they do not.
- "A cancelled class must never produce a reminder" (`ragra/reminders/class_reminders.py:63`) does not hold: only claiming
  looks at the cancellation. A pass delivers a reminder of a class its timetable calls cancelled exactly when one is
  pending, ahead, and taken by a provider (`ClassReminders.CancelledIsDelivered`), and every meeting claimed before its
  class was cancelled is announced by the next pass before its start (`ClassReminders.CancelledClassIsAnnounced`, with
  `ClassReminders.CancelledClassExample`).

## Model

| member | source | states |
|---|---|---|
| Instants.TextOrderIsTimeOrder | ragra/tz.py:78-83 | the stored text of one instant sorts below another's exactly when the instant is earlier, although the fraction is dropped at zero microseconds |
| Instants.UtcIsoInjective | ragra/tz.py:78-83 | different instants have different texts |
| Instants.ParseReadsUtcIso | ragra/tz.py:86-96 | reading back the stored text, with blanks around it or with Z for its offset, gives the same instant |
| Instants.ParseReadsOffset | ragra/tz.py:86-96 | a wall time written with any offset is read as the instant it names |
| Instants.FieldsReadBack | ragra/tz.py:78-96 | an instant made from a date and a clock time has that date and time again |
| ReminderPlan.ComputeReminderPlan | ragra/reminders/engine.py:21-78 | the appending method yields the plan: the reminders wanted for the lead time, in order |
| ReminderPlan.PlanHoldsWanted | ragra/reminders/engine.py:21-83 | a reminder is planned exactly when the table of lead times asks for it and its time is still to come |
| ReminderPlan.PlanShape | ragra/reminders/engine.py:21-78 | the plan is empty exactly when the deadline is not after discovery; otherwise it starts with NEW_ASSIGNMENT at discovery, ends with DEADLINE_REACHED at the deadline, and holds two to seven distinct types with all others inside |
| ReminderPlan.PlannedKinds | ragra/reminders/engine.py:21-78 | a plan never holds a change alert, an announcement or a material; DEADLINE_REACHED fires at the deadline |
| ReminderPlan.MidpointExactly | ragra/reminders/engine.py:62-74 | MIDPOINT is planned exactly when less than a day is left and its half is more than five minutes, at that half, rounded as Python rounds |
| ReminderPlan.DueTodayExactly | ragra/reminders/engine.py:21-83 | DUE_TODAY is planned exactly when two days or more are left and eight in the morning of the deadline's day is before the deadline, at that time |
| Records.KeyTextInjective | ragra/sync/classroom_sync.py:447-450 | two reminders share the text in the unique column only if they are the same task, type and deadline |
| Repo.InsertPlanAdds | ragra/sync/classroom_sync.py:405-434 | scheduling a plan keeps old rows and adds a fresh pending row for each entry whose key was free |
| Repo.MoveKeepsSound | ragra/db/repo.py:412-499 | rewriting a deadline keeps the table invariants when the old countdown is withdrawn with it |
| Repo.CloseAllKeepsSound | ragra/db/repo.py:860-940 | closing tasks, with their history rows and withdrawn reminders, keeps the table invariants |
| Classroom.StepKeepsSound | ragra/sync/classroom_sync.py:258-365 | every operation of a sync - course, item, cancellation - keeps unique rows, keys anchored to the current deadline and the delivery accounts |
| Classroom.SyncKeepsSound | ragra/sync/classroom_sync.py:129-255 | so does a whole sync |
| Resync.StepSettles | ragra/sync/classroom_sync.py:258-365 | after an operation there is nothing left for the same operation to do |
| Resync.ApplyItemWrites | ragra/sync/classroom_sync.py:258-365 | an item writes its own row and no other |
| Resync.SyncIsIdempotent | ragra/sync/classroom_sync.py:150-243 | a second sync of the same listings at the same instant changes no course, task, status, reminder or history row |
| Resync.SyncQuietens | ragra/sync/classroom_sync.py:233-243 | after a finished sync no completed, cancelled or missed task has a pending reminder and no open task is past its deadline |
| Resync.FinishRows | ragra/db/repo.py:860-883 | the closing passes rewrite exactly the overdue open tasks, to MISSED |
| Outcome.SyncDecidesStatus | ragra/sync/classroom_sync.py:213-243 | the status of every task stored before a sync, after it: completed and cancelled ones keep it, one missing from a readable source of its live course is cancelled, an overdue one is missed, any other keeps it; a source that failed cancels nothing |
| SyncCountdown.SyncDecidesNewStatus | ragra/sync/classroom_sync.py:213-243 | a task the sync itself creates ends it MISSED if its deadline had passed and otherwise as it was found; it is never cancelled in the same sync |
| SyncCountdown.UnlistedIsClosed | ragra/db/repo.py:915-940 | after a sync every task, old or new, that a readable source of a live course does not list is COMPLETED or CANCELLED |
| Outcome.OneRowPerListedItem | ragra/db/repo.py:412-499 | after a sync every listed item of a live course has exactly one row; SyncRows.ListedRowsAgree says what it holds |
| Outcome.MovePends | ragra/sync/classroom_sync.py:334-365 | which reminders of a task are pending right after its deadline moved |
| Outcome.FirstMoveGetsItsPlan | ragra/sync/classroom_sync.py:334-365 | a task that moves to a deadline it never held has exactly that deadline's plan pending |
| Outcome.MoveBackIsSilent | ragra/db/repo.py:1208-1215 | a move to a deadline all of whose countdown keys are taken leaves no countdown pending |
| Countdown.SilentExactly | ragra/db/repo.py:1205-1215 | a move leaves no countdown pending exactly when every countdown key of the new deadline's plan is taken, in whatever state |
| Countdown.MoveFillsFreeKeys | ragra/sync/classroom_sync.py:334-365 | after a move exactly those entries of the new plan are pending whose key was free |
| Countdown.DiscoveryGetsItsPlan | ragra/sync/classroom_sync.py:295-329 | a newly found task has exactly the countdown planned for its deadline at that moment |
| Countdown.FeedAlertExactly | ragra/sync/classroom_sync.py:295-300 | a newly found announcement or material gets its alert exactly if it was posted at most three days ago |
| Countdown.BackFillsTheRest | ragra/sync/classroom_sync.py:334-365 | after A, B, A exactly the reminders are pending that A would get now and did not get when the task was found |
| Countdown.BackIsSilentExactly | ragra/sync/classroom_sync.py:334-365 | that return is silent exactly when no kind is wanted now that was not wanted when the task was found |
| Countdown.BackEarlyIsSilent | ragra/reminders/engine.py:21-78 | found ten days ahead and back nine days ahead, the task has no countdown although one is planned |
| Countdown.BackLateIsNot | ragra/reminders/engine.py:21-78 | back thirty hours ahead it gets the reminder three hours before |
| Countdown.AwayAndBackExample | ragra/sync/classroom_sync.py:334-365 | an assignment listed three times with three update times, due on a day of March 2025, a week later, and on the first day again, is such a case |
| SyncCountdown.CountdownAfterSync | ragra/sync/classroom_sync.py:129-255 | the countdown of every task at the end of a sync: nothing if it is closed or was found past its deadline; otherwise, if the sync found it or changed its deadline, the entries of that plan whose key was free before, and if not, what it had |
| SyncCountdown.FreshCountdownAfterSync | ragra/sync/classroom_sync.py:129-255 | so a task found, or moved to a deadline never held, has that plan's whole countdown |
| SyncRows.ListedRowsAgree | ragra/db/repo.py:412-499 | after a sync the row of every listed item has the listing's title (its text cut at 120 characters where it has none), description, link, update time and deadline - the listed date at the listed time, 23:59 where it gives none - unless the listing carries the update time stored before; and it is judged as the sync judged the item |
| SyncRows.SyncHistoryIsTheDifference | ragra/db/repo.py:412-499 | a sync adds to the task history exactly one row, with old and new value, for every task it created, retitled, redescribed, relinked, moved, judged anew, cancelled or marked missed, and no other row |
| SyncCourses.CoursesFollow | ragra/db/repo.py:333-399 | after a sync a listed course that is live has a row named and stated as listed, a known one that is not live only its state changed, every other row is as before and none is lost |
| Outcome.DiscoveryPingExists | ragra/sync/classroom_sync.py:295-329 | a task created with or moved to a deadline still ahead has exactly one NEW_ASSIGNMENT row |
| Pings.PingAfterSync | ragra/sync/classroom_sync.py:295-329 | at the end of a sync every task it found with, or moved to, a deadline still ahead has exactly one NEW_ASSIGNMENT row |
| Pings.EveryRunKeepsItsPings | ragra/sync/classroom_sync.py:295-329 | and so it has after any further run, also where that sync broke off |
| Outcome.OnePendingChangeAlert | ragra/sync/classroom_sync.py:346-360 | a task has at most one pending change alert, and it announces the current deadline |
| Outcome.TakenWasHeld | ragra/sync/classroom_sync.py:447-450 | whatever is keyed to a deadline belongs to one the task held |
| Dispatch.TextSelectsSameRows | ragra/db/repo.py:1227-1258 | comparing the stored texts selects the same rows as comparing the instants |
| Dispatch.DispatchKeepsSound | ragra/reminders/dispatch.py:100-164 | a delivery pass keeps every invariant, the delivery accounts included |
| Dispatch.DispatchRow | ragra/reminders/dispatch.py:100-164 | a pass changes exactly the due rows, each by its own round; Dispatch.RoundExactly writes out which and how |
| Dispatch.RoundExactly | ragra/reminders/dispatch.py:100-164 | with a provider a reminder gets a round exactly if it is pending, its time has come, it awaits no retry, its task is open (or it is the DEADLINE_REACHED of a missed one), that type is at most thirty minutes late, the course is ACTIVE or PROVISIONED and the task not judged another section's; one that gets none is unchanged; a round makes it SENT if a provider accepted, FAILED at the third failure, else pending for a quarter of an hour later |
| Dispatch.SummaryCounts | ragra/reminders/dispatch.py:64-76 | sent, failed and retrying are the numbers of reminders the pass turned SENT, turned FAILED and left for another try; skipped the number due without a provider |
| Dispatch.TallyAddsUp | ragra/reminders/dispatch.py:64-76 | sent, retrying, failed and skipped add up to the due count |
| Dispatch.NoProvidersNoChange | ragra/reminders/dispatch.py:119-127 | a pass without providers uses no attempt and changes nothing |
| Dispatch.MissedClauseSelectsNothing | ragra/db/repo.py:1249-1252 | while closed tasks have nothing pending, the clause for missed tasks selects no row |
| Pipeline.EveryRunIsSound | ragra/cli.py:451-458 | every state reachable by syncs, broken-off syncs, dispatches, completions, cancellations, archivings and edits is sound |
| Pipeline.EveryRunIsQuiet | ragra/web/app.py:1119-1125 | between steps no completed, cancelled or missed task has a pending reminder, in every run whose last broken-off sync was followed by a finished one |
| MidSync.StepQuietExactly | ragra/sync/classroom_sync.py:334-365 | from a state without such reminders, an operation of a sync leaves a closed task with a pending one exactly if it lists an item that moves its deadline and a key of the change alert or of the new plan is free |
| MidSync.QuietBreaksExample | ragra/sync/classroom_sync.py:334-365 | a run from the empty store that meets the condition: found, missed, then listed at a later deadline by a sync that breaks off |
| Pipeline.FinalRowsStay | ragra/db/repo.py:1261-1312 | no action changes a SENT, FAILED or CANCELLED reminder |
| Pings.FinalRowsStayInEveryRun | ragra/db/repo.py:1261-1312 | over every run such a row stays as it is in every column |
| UserActions.EndedStaysEnded | ragra/db/repo.py:915-940 | over every run a completed or cancelled task keeps its status and its times, whatever syncs and dispatches come, until the user acts on it |
| UserActions.CompletedForGood | ragra/web/app.py:1119-1125 | a task the user completed is COMPLETED at that time in every later state in which the user did not act on it again, and what it had pending is never sent |
| UserActions.SyncDatesItsClosings | ragra/db/repo.py:860-940 | a sync sets the cancellation or missed time of exactly the tasks it newly cancels or finds missed, to its own time, and no completion time |
| UserActions.ClosingByUser | ragra/db/repo.py:823-912 | what completing and cancelling change in the task, its history and its reminders; nothing else, and nothing at all when a task from Classroom is to be cancelled |
| UserActions.ArchiveAndTarget | ragra/db/repo.py:795-820 | what archiving and a target of one's own change; neither touches a reminder |
| UserActions.EditByUser | ragra/db/repo.py:591-643 | a manual task is edited field by field, with a history row for each field that differs; a blank title or a task from Classroom changes nothing |
| UserActions.NewByUser | ragra/db/repo.py:542-588 | the row of a new manual task, in the one course of such tasks; a blank title adds nothing |
| Pipeline.DeliveryIsBounded | ragra/reminders/dispatch.py:100-164 | over every run each reminder is delivered at most once, never before its time, and tried at most three times, rounds at least a quarter of an hour apart, and a pending one has tries left |
| Pipeline.DeadlineReachedWindow | ragra/db/repo.py:1249-1252 | exactly when a DEADLINE_REACHED reminder is due at a dispatch after a finished sync |
| Pipeline.DeadlineReachedIsSent | ragra/db/repo.py:1249-1252 | exactly when that dispatch sends a pending one: in that window, and some provider takes it |
| Pipeline.DeadlineReachedIsLost | ragra/db/repo.py:1166-1191 | one whose deadline passed before the sync is no longer pending |
| DeadlineLoss.DeadlineReachedLossExample | ragra/db/repo.py:1249-1252 | a run from the empty store: found by one sync and due half an hour later at most, the reminder is cancelled and its task MISSED by the next |
| DeadlineLoss.PlainAssignmentExample | ragra/sync/classroom_sync.py:258-293 | such assignments: due on a day of March 2025 at noon |
| Stores.SameKeyText | ragra/db/repo.py:1205-1215 | comparing key texts is comparing keys |
| Stores.Store.InsertReminderIfAbsent | ragra/db/repo.py:1194-1215 | inserts exactly when no row has the key |
| Stores.Store.CancelPendingReminders | ragra/db/repo.py:1078-1110 | the task's pending rows except the spared types become CANCELLED, in place; no other row and no other column changes |
| Stores.Store.HasReminderOfType | ragra/db/repo.py:1113-1129 | finds a row of the task and type in any state; not found means no key of that task and type is taken, whatever its anchor |
| Stores.Store.ScheduleReminders | ragra/sync/classroom_sync.py:405-434 | inserts the plan for the deadline and returns its types |
| Stores.Store.SetTaskRelevance | ragra/db/repo.py:752-792 | records a changed decision and writes nothing for an equal one |
| Stores.Store.UpsertTaskFromSource | ragra/db/repo.py:412-499 | inserts, skips or rewrites one task, with a history row per changed field; SyncRows states the fields one by one |
| Stores.Store.ApplyUpsert | ragra/sync/classroom_sync.py:258-365 | one item with its alert, its withdrawn countdown and its new plan |
| Stores.Store.CancelTasksMissingFromSource | ragra/db/repo.py:915-940 | cancels exactly the open tasks the source no longer lists |
| Stores.Store.MarkOverdueTasksAsMissed | ragra/db/repo.py:860-883 | marks exactly the overdue open tasks |
| Stores.Store.CancelBacklogReminders | ragra/db/repo.py:1132-1163 | withdraws the reminders of tasks discovered after their deadline |
| Stores.Store.CancelStrayReminders | ragra/db/repo.py:1166-1191 | withdraws what closed tasks still had pending, and counts it |
| Stores.Store.UpsertOrUpdateCourse | ragra/db/repo.py:333-399 | a live course is inserted or updated, another only updated if known |
| Stores.Store.SyncCourse | ragra/sync/classroom_sync.py:151-231 | one course: three isolated sources, then the cancellations of the readable ones; the failed sources and the number cancelled are returned, and no discovery ping is missing |
| Stores.Store.SyncClassroom | ragra/sync/classroom_sync.py:129-255 | the whole loop takes the store to the state the specification gives; the summary counts the live courses, the tasks added, those newly CANCELLED, those newly MISSED and the reminders dropped as backlog, and lists the sources that failed |
| SyncCounts.LiveAreCounted | ragra/sync/classroom_sync.py:151-165 | the number of courses reported is that of the ACTIVE and PROVISIONED ones |
| SyncCounts.CancelledAreCounted | ragra/sync/classroom_sync.py:213-231 | the sizes of the sweeps add up to the number of tasks that end CANCELLED and did not start so |
| SyncCounts.MissedAreCounted | ragra/sync/classroom_sync.py:233-243 | the overdue tasks are as many as those that end MISSED and did not start so |
| SyncCounts.FailedAre | ragra/sync/classroom_sync.py:166-212 | a source is reported as failed exactly when a live course of that name has it unread |
| Stores.Store.PreviewDueReminders | ragra/reminders/dispatch.py:79-97 | lists a row exactly when a dispatch at this moment would try it, each once, in order of its time, with its id, type, time and attempts, and changes nothing |
| Stores.Store.SendOne | ragra/reminders/dispatch.py:119-162 | one round: every provider tried, the row marked by the answers |
| Stores.Store.DispatchDueReminders | ragra/reminders/dispatch.py:100-164 | every due row once, with the counts of the summary |
| Stores.Store.Complete | ragra/web/app.py:1119-1125 | completes the task and withdraws its reminders |
| Stores.Store.Cancel | ragra/web/app.py:1203-1212 | refuses a task from Classroom, else cancels it and withdraws its reminders |
| Stores.Store.Archive | ragra/db/repo.py:676-697 | archives a task once, with one history row, and leaves its reminders alone |
| WallClock.NonexistentIsUnreal | ragra/tz.py:112-115 | the round-trip test finds exactly the wall times no instant shows: the gap |
| WallClock.CombineLocalIsReal | ragra/tz.py:118-138 | a combined wall time always exists; a real one is kept and means its earliest instant, one in the gap moves by exactly the gap |
| WallClock.DaysTile | ragra/tz.py:141-156 | a day ends where the next begins exactly when no jump touches the midnight between |
| WallClock.JumpAtMidnightOverlaps | ragra/tz.py:141-156 | a clock that goes forward at midnight: two days overlap by an hour |
| WallClock.BoundsContainInstant | ragra/tz.py:141-156 | the bounds contain their instant exactly outside two named cases |
| WallClock.FirstHalfHourIsOutside | ragra/tz.py:141-156 | a clock that jumps over midnight: the first half hour of the new day is before its bounds |
| WallClock.SecondHalfHourIsOutside | ragra/tz.py:141-156 | a clock that falls back over midnight: an instant of the day before is after its bounds |
| WallClock.DaysPartitionTime | ragra/tz.py:141-156 | unless a gap or overlap reaches a midnight, every instant lies in exactly its own day's bounds and each day ends where the next begins |
| Schedule.ExpandOccurrences | ragra/timetable/schedule.py:100-167 | the loops yield the meetings by ascending start and then course name, or the first unreadable class, or the refused window |
| Schedule.MeetingsAreExact | ragra/timetable/schedule.py:124-163 | the day loop finds exactly the matching days of its range whose start is in the window, each once and in order |
| Schedule.ExpansionIsComplete | ragra/timetable/schedule.py:118-163 | over all days, in any zone, exactly the meetings inside the window - on the weekday, from the instant the start stands for to the instant the end stands for - are found but for the overlooked ones |
| Schedule.NothingOverlooked | ragra/timetable/schedule.py:118-163 | with a fixed offset or a clock that jumps far from midnight none is overlooked |
| Schedule.OverlookedExample | ragra/timetable/schedule.py:118-123 | a clock and a window that overlook one |
| Schedule.AllMeetingsAreExact | ragra/timetable/schedule.py:100-167 | each meeting is returned as often as there are classes hosting it, in any zone |
| Schedule.MeetingLength | ragra/timetable/schedule.py:142-146 | a meeting lasts its length on the clock less the jump it spans; it ends after its start and within a day exactly if that does, with a fixed offset always |
| Schedule.TodayIsTheLocalDay | ragra/timetable/schedule.py:170-188 | within a local day's bounds a class meets on that day and no other, exactly but for the misfiled times; so always unless the clock jumps forward |
| Schedule.MisfiledExample | ragra/timetable/schedule.py:170-188 | a clock, a class and a day it is left out of |
| TwelveHour.Resolve24hTimeSequence | ragra/timetable/normalize.py:92-124 | the one-flag pass reads each hour twelve later once the row has wrapped, except twelve |
| TwelveHour.RoundTripExactly | ragra/timetable/normalize.py:92-124 | reading undoes writing exactly when the first afternoon hour is written smaller than the hour before |
| TwelveHour.AfternoonAloneIsMisread | ragra/timetable/normalize.py:92-124 | a day starting at one in the afternoon is read as morning |
| TwelveHour.HalfDayRoundTrips | ragra/timetable/normalize.py:92-105 | so it does for hours starting at noon or before and ending less than twelve hours later |
| TwelveHour.ResolvedInDay | ragra/timetable/normalize.py:111-116 | hours from 0 to 12 are read as hours of the day |
| Grid.RankInRange | ragra/adapters/fast_timetable.py:197-230 | indexing the resolved slots by the count of time cells never runs off the list and hits the cell's own slot |
| Grid.RoomLabel | ragra/adapters/fast_timetable.py:221-232 | the room column is the last label left of the time cell, else column 0 |
| Grid.ReadHeader | ragra/adapters/fast_timetable.py:209-232 | the entry loop stamps slot and room column on exactly the columns each time cell spans |
| Grid.ColumnsAreMostRecent | ragra/adapters/fast_timetable.py:191-232 | a column's time and room column come from the most recent header row spanning it |
| Grid.LastHeaderSuffices | ragra/adapters/fast_timetable.py:179-183 | reading by the last header row alone agrees exactly when it spans every column spanned before |
| Grid.OldColumnSurvives | ragra/adapters/fast_timetable.py:179-183 | a shorter second header leaves the slot of the first on the column it does not span |
| Grid.ReadRow | ragra/adapters/fast_timetable.py:235-267 | the cells of a data row, left to right |
| Grid.ExtractClassesFromGrid | ragra/adapters/fast_timetable.py:167-269 | the whole scan yields the meetings of the specification |
| Grid.ScanFollowsTheSheet | ragra/adapters/fast_timetable.py:167-269 | one class for each place that holds one, row by row and left to right, as the sheet says there; no place left out or read twice |
| Grid.ScanMeetsTheSheet | ragra/adapters/fast_timetable.py:167-269 | a class is found exactly where a course cell stands below a time span, with the text of the cell, the room named there, and the time of the span or the one the cell writes, read in the half day of the span |
| Grid.FoundInDay | ragra/adapters/fast_timetable.py:146-164 | when every time on the sheet is written with hours 0 to 12, every class found starts and ends at hours of a day |
| Grid.OverrideExample | ragra/adapters/fast_timetable.py:241-253 | a sheet with "02:30-04:20" below 14:30-15:50: the class is found at 14:30-16:20 |
| Grid.HeaderTellsTrueTimes | ragra/adapters/fast_timetable.py:209-230 | a header written in twelve-hour form from true times gives each column its true time |
| Enrollment.ParseEnrollmentText | ragra/web/app.py:1647-1690 | the line loop yields the courses or the first bad line |
| Enrollment.RefusedAtFirstBadLine | ragra/web/app.py:1660-1690 | a text is refused at line k with an error exactly when line k is its first bad line |
| Enrollment.LineRefused | ragra/web/app.py:1664-1684 | a line is passed over exactly if it is blank; refused for too few parts exactly with fewer than two bars, for a missing name or section exactly if that field is blank, and for its type exactly if that is neither word |
| Enrollment.LineAccepted | ragra/web/app.py:1664-1690 | what an accepted line says, field by field |
| Enrollment.EnrollmentToText | ragra/web/app.py:1693-1704 | the printing loop |
| Enrollment.ParseIsWellFormed | ragra/web/app.py:1664-1690 | whatever the text, the courses parsed are well-formed |
| Enrollment.ParseUndoesPrint | ragra/web/app.py:1693-1704 | parsing undoes printing exactly for well-formed courses, with an absent batch year beside aliases included |
| Enrollment.PrintKeepsParse | ragra/web/app.py:1693-1704 | what a text parses to, printed and parsed again, is the same |
| Enrollment.LinesRoundTrip | ragra/web/app.py:1664 | plain lines joined by line feeds, carriage returns or both are split back into themselves |
| Enrollment.SentBackParses | ragra/web/app.py:1664-1704 | well-formed courses printed, sent back by a form with whatever line ends, and parsed are the same |
| Enrollment.KindIgnoresCase | ragra/web/app.py:1673 | a type is accepted exactly if it is REGULAR or REPEAT in letters of either case |
| CalendarMirror.CalendarSync.RecordCalendarEvent | ragra/db/repo.py:1466-1481 | a known event id adds no row |
| CalendarMirror.CalendarSync.SyncTaskEvent | ragra/sync/calendar_sync.py:39-93 | one task: created, updated, removed, skipped, or aborted by a failed call that changed nothing |
| CalendarMirror.CalendarSync.SyncAllTaskEvents | ragra/sync/calendar_sync.py:96-122 | a pass over the computed union, its counts, and where a failed call ends it |
| CalendarMirror.EveryRunIsMirrored | ragra/sync/calendar_sync.py:39-122 | over every run tasks and events stay one to one and the rows name exactly the events on the calendar |
| CalendarMirror.PassMirrorsTasks | ragra/sync/calendar_sync.py:64-93 | after a pass exactly the tasks with a deadline that are not completed or cancelled have an event, each with its present body |
| CalendarMirror.MirroredExactly | ragra/sync/calendar_sync.py:30-41 | that event ends at the deadline, starts a quarter of an hour before and is headed by course and title; a missed or archived task keeps its own |
| CalendarMirror.UnionIsEnough | ragra/sync/calendar_sync.py:99-113 | visiting the union does what visiting every task does, failures included |
| CalendarMirror.SecondPassIsQuiet | ragra/sync/calendar_sync.py:1-8 | a second pass creates and removes nothing and changes nothing |
| CalendarMirror.PassCounts | ragra/sync/calendar_sync.py:96-122 | created and removed are the tasks that gained and lost their event, also when the pass broke off; after a finished one updated are those that kept theirs and skipped those without one before and after |
| TimetableSync.MatchIsUnambiguous | ragra/timetable/match.py:38-76 | a cell is matched exactly when one enrollment row alone fits it, left out when none does |
| TimetableSync.StartTextOrder | ragra/sync/timetable_sync.py:135 | sorting "HH:MM" texts sorts times |
| TimetableSync.ExternalIdInjective | ragra/sync/timetable_sync.py:51-56 | without colons in the parts, equal ids mean equal course, section and index |
| TimetableSync.WantedIdsDistinct | ragra/sync/timetable_sync.py:132-145 | the ids a scrape calls for are pairwise distinct |
| TimetableSync.SyncConverges | ragra/db/repo.py:1561-1661 | whatever was stored, a sound scrape's rows are stored as called for, all others are kept but cancelled, and none appears besides |
| TimetableSync.RepeatIsUnchanged | ragra/db/repo.py:1583-1625 | a repeat reports only unchanged classes and keeps every row |
| TimetableSync.OrderDoesNotMatter | ragra/sync/timetable_sync.py:104-136 | which meeting gets which id does not depend on scrape order when a course's starts are distinct |
| TimetableSync.SheetsDecideTimetable | ragra/sync/timetable_sync.py:69-184 | from the sheets: the scheduled rows are exactly the scrape's scheduled classes, and a repeat changes nothing; TimetableRows says what these rows hold |
| TimetableRows.TimetableShowsTheSheets | ragra/sync/timetable_sync.py:104-184 | after a sound sync, for any day, time, room, course, section, batch, type, program and sheet, there are as many SCHEDULED rows saying so as cells on the sheets that say so, fit one enrollment row alone and are not cancelled; and at least as many CANCELLED ones as cancelled cells |
| TimetableRows.CellsHaveRows | ragra/sync/timetable_sync.py:104-184 | so every cell that one enrollment row alone fits has its row, SCHEDULED or CANCELLED as the cell is, and every SCHEDULED row such a cell |
| TimetableRows.IdsAreMade | ragra/sync/timetable_sync.py:51-56 | the id of a scheduled row is made of program, batch or REPEAT, section, course and its number |
| TimetableRows.NumberedThroughTheWeek | ragra/sync/timetable_sync.py:132-145 | the rows of a course are numbered by day and then start |
| TimetableCounts.SyncReportCounts | ragra/sync/timetable_sync.py:107-184 | the numbers of the summary: found the cells one enrollment row alone fits, ambiguous those several fit; of the found, created those with a new id, same those stored with the same day, time, room, section and status, updated the rest; cancelled the scheduled rows the scrape has no class for |
| TimetableSync.ReadTabs | ragra/sync/timetable_sync.py:86-102 | the scrape is used only if tabs were found and every one could be read |
| TimetableSync.GroupMatches | ragra/sync/timetable_sync.py:107-130 | the dictionary holds the matched entries by course in first-seen order, ambiguous cells counted apart |
| TimetableSync.TimetableEvents.UpsertTimetableEvent | ragra/db/repo.py:1561-1633 | inserts or rewrites the row with that id, and says whether a tracked field changed |
| TimetableSync.TimetableEvents.CancelMissingFromSource | ragra/db/repo.py:1636-1661 | cancels and counts exactly the scheduled rows not seen |
| TimetableSync.TimetableEvents.SyncTimetable | ragra/sync/timetable_sync.py:69-184 | an unsound scrape changes no row; a sound one takes the rows to the reconciled ones with the counts of the summary |
| Nags.EveryRunIsSound | ragra/db/repo.py:1858-1881 | over every run the thread is the newest 200 messages since the last clear, every repeat names an alert that is no repeat and carries no clock, and repeats of one alert are at least the interval apart |
| Nags.ReceivedEndsTheChain | ragra/db/repo.py:1901-1927 | after Received on any member, on all, or a clear, no later step repeats the chain |
| Nags.ClockRunsOn | ragra/db/repo.py:1930-1944 | a running clock ends only by Received, by a clear, or by 200 newer messages |
| Nags.FetchedAreReady | ragra/db/repo.py:1930-1936 | the rows a pass fetches are distinct roots whose last repeat is an interval ago |
| Nags.PassRepeatsExactly | ragra/reminders/nags.py:27-45 | a pass repeats once each alert that is unacknowledged, has a clock not after now, and is among the twenty of lowest id of these, and no other |
| Nags.PassPostsRepeats | ragra/reminders/nags.py:27-45 | it posts as many messages, each an alert of that moment that quotes its root, and moves the clock of each repeated alert still there five minutes on |
| Nags.ReceivedAcknowledges | ragra/db/repo.py:1901-1917 | Received acknowledges and stops every message of the chain of that alert and no other |
| Nags.OtherStepsAre | ragra/db/repo.py:1858-1927 | Received on all acknowledges every alert and nothing else, a clear takes every message and gives no id out again, a reminder is a new alert whose clock runs five minutes |
| Nags.ChatThread.AddChatMessage | ragra/db/repo.py:1858-1881 | appends and trims to the newest 200 |
| Nags.ChatThread.AckChatMessage | ragra/db/repo.py:1901-1917 | acknowledges the whole chain, and says whether anything changed |
| Nags.ChatThread.AckAllChatAlerts | ragra/db/repo.py:1920-1927 | acknowledges every alert and returns how many were open |
| Nags.ChatThread.BumpNag | ragra/db/repo.py:1939-1944 | moves one clock, or nothing when the row is gone |
| Nags.ChatThread.ClearChat | ragra/db/repo.py:1896-1898 | empties the thread without giving ids out again |
| Nags.ChatThread.RunNags | ragra/reminders/nags.py:27-45 | fetches the due alerts first, then repeats and bumps each; it returns twenty or the number that wait, whichever is less |
| ClassReminders.KeyTextInjective | ragra/db/repo.py:1390 | two meetings share the text in the unique column only if they are the same class on the same day |
| ClassReminders.ClaimsAreExact | ragra/db/repo.py:1375-1399 | claiming adds exactly the meetings not cancelled and not claimed, each once |
| ClassReminders.PassClaimsExactly | ragra/reminders/class_reminders.py:49-77 | a pass claims a meeting exactly when it starts within the lookahead, is not cancelled and was not claimed |
| ClassReminders.DispatchRow | ragra/reminders/class_reminders.py:92-153 | delivery gives every pending row the attempt its start and the providers decide and leaves the others alone |
| ClassReminders.PassRow | ragra/reminders/class_reminders.py:156-179 | after a pass a row that was there is SENT exactly if it was, or it was pending, ahead and taken by a provider in a pass whose timetable is readable, and FAILED exactly if it was, or it was pending and its class had started; a row the pass claimed is a meeting of the lookahead not cancelled, SENT exactly if ahead and taken, FAILED exactly if it starts at that moment |
| ClassReminders.CancelledIsDelivered | ragra/reminders/class_reminders.py:63-67 | a pass delivers a reminder of a class its timetable calls cancelled exactly when such a row is pending, ahead and taken by a provider |
| ClassReminders.CancelledClassIsAnnounced | ragra/reminders/class_reminders.py:63-67 | a meeting claimed, then cancelled, then passed over once more before its start is announced |
| ClassReminders.CancelledClassExample | ragra/reminders/class_reminders.py:63-67 | a class and a moment for which this happens |
| ClassReminders.OnlyStartingNowExpires | ragra/reminders/class_reminders.py:105-113 | within one pass the delivery stage expires only rows starting exactly at now |
| ClassReminders.EveryRunIsSound | ragra/reminders/class_reminders.py:92-179 | over every run each meeting is claimed at most once, delivered at most once and never at or after its recorded start |
| ClassReminders.TallyAddsUp | ragra/reminders/class_reminders.py:92-153 | every pending row is counted once |
| ClassCounts.ReportCounts | ragra/reminders/class_reminders.py:156-179 | the numbers of the summary: the rows the pass claimed, turned SENT, turned FAILED, and left pending after one more try and without one |
| ClassReminders.ClassReminderTable.ExpireStale | ragra/db/repo.py:1444-1454 | fails exactly the pending rows whose class has started |
| ClassReminders.ClassReminderTable.InsertIfAbsent | ragra/db/repo.py:1375-1399 | claims exactly when no row has the meeting |
| ClassReminders.ClassReminderTable.ScheduleClassReminders | ragra/reminders/class_reminders.py:49-77 | claims the upcoming meetings in order, or nothing when a class time cannot be read |
| ClassReminders.ClassReminderTable.SendRow | ragra/reminders/class_reminders.py:104-151 | expired, skipped, delivered or kept for a retry |
| ClassReminders.ClassReminderTable.DispatchClassReminders | ragra/reminders/class_reminders.py:92-153 | every pending row once, with the counts of the summary |
| ClassReminders.ClassReminderTable.RunClassReminders | ragra/reminders/class_reminders.py:156-179 | expire, claim, deliver, with the summary of all three |
| Health.FailuresAreTrailing | ragra/health.py:34-78 | the stored count is the length of the trailing failure run |
| Health.MarkIsAlertOfRun | ragra/health.py:81-129 | the alert mark is set exactly when an alert was delivered within the present run, to its time, and no run is alerted twice |
| Health.AlertsExactlyOnce | ragra/health.py:81-129 | a delivered check names a component exactly when its run reached the threshold and was not alerted before |
| Health.CredentialIsFold | ragra/db/repo.py:193-250 | first_failure_at is when the present outage began, last_success_at when the credential last worked |
| Health.HealthTables.RecordResult | ragra/health.py:34-78 | resets or lengthens the streak and returns it |
| Health.HealthTables.CheckAndAlert | ragra/health.py:81-129 | marks and returns exactly the components named by a delivered alert |
| Health.HealthTables.RecordCredentialAttempt | ragra/db/repo.py:193-250 | one attempt, worked, failed or nothing to try |

## Left out

- Users: one account is modelled; every query is scoped to it.
- The database itself: tables are sequences, an id is a position, and the unique columns and increasing ids are taken from
  the schema.
- The clock within one pass: a sync, dispatch or class pass sees one instant; the program reads the clock again per row.
- Crashes between an outside call and the write that records it.
- Arithmetic beyond year 9999 or before year 1: retry times, lead times and offsets are unbounded integers.
- Instants.ParseReadsUtcIso: reads the extended form with seconds and an offset, the only one the program stores; other
  forms `datetime.fromisoformat` accepts are not modelled.
- Naive or date-only deadlines typed for manual tasks, which never get reminders.
- The relevance engine: its verdict is a parameter of each item.
- The regular expressions of the timetable (the bare time range and the course cell) and the two text normalisations: given
  functions.
- TimetableSync.TimetableEvents.SyncTimetable: a row's spreadsheet id, sheet id, instructor and sync times are not columns
  of the model, and tabs come in day order.
- Schedule.ExpandOccurrences: takes times of day as numbers; reading "HH:MM" is a readable-or-not flag.
- WallClock.CombineLocalIsReal: a zone has one offset transition; the zone database is not modelled.
- Turning an announcement into a task, and texts for display: reminder messages, briefs, errors, link paths.
- CalendarMirror.EveryRunIsMirrored: edits the person makes in Google Calendar are not modelled.
- ClassReminders.ClassReminderTable.InsertIfAbsent: compares class and day, not the text joined from them, which
  ClassReminders.KeyTextInjective shows to be the same for the days of years 1 to 9999.
- Nags.EveryRunIsSound: the alert that a delivered reminder adds to the thread is a step of its own, not tied to dispatch.
- Health: classifying a credential error and the text of the alert.
- Google, email, WhatsApp, Telegram and web push: a provider answers yes or no, a calendar call works or fails.
