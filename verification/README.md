# BPark core in Dafny

A model of the logic at the heart of BPark, a client/server parking system. The JavaFX screens, the iText PDF writer, the database and the sockets are stripped away. What is left is sequential logic over dates, minute-of-day times, short strings and small records. The model is written as immutable datatypes and pure functions. Where an operation has a natural partner, a lemma relates the two: an inverse, an invariant it keeps, or an independent reference definition. Operations that only lay out or compute a value state what that value means, field by field.

Modules, one per component of the system:

- `Wrappers`: `Option` for Java's nullable references; `Result` for thrown exceptions and early error returns.
- `Text`: Java's regex character classes (`\d`, `\w`, `\s`) written as predicates, plus `trim`, digit strings, `Integer.parseInt` and `String.valueOf`.
- `Calendar`: the proleptic Gregorian calendar of `java.time`, with the leap rule, month lengths, day ordinals and the `Month` enum's names. An instant is `ordinal * 1440 + minuteOfDay`, so "24 hours later" is `+ 1440` and "7 days later" is `+ 10080`.
- `Counting`: zero-filled tallies keyed in ascending order, the common shape of every chart (a `TreeMap`, an ordered `LinkedHashMap` or an `int[]` of buckets).
- `Reservations`: the reservation record, whose null start time is the cancellation tombstone, and its setters.
- `Entities`: the parking session, spot and subscriber records the reports read.
- `Expiry`: the nightly pass that tombstones reservations dated before today (`cancelOldReservation`).
- `Scheduler`: the monthly report loop (`MonthlyTaskRunner`) as a state machine over a sequence of wake-ups.
- `MonthlyReport`: the server's monthly report, with the period filters, the four chart aggregates and the section layout as abstract values.
- `Views`: the active-sessions list filtered by day, and the subscriber list filtered by role with each subscriber's history filtered by year.
- `ClientCharts`: the three client report screens, counting per day, per month and per hour, and the export file names.
- `ReservationForm`: the subscriber's reservation screen, with the HH:MM formatter, the creation validator and the reserve, load and delete actions.
- `SubscriberForms`: registration and the details update, with the live field filters, the phone formatter and the ordered field checks.
- `Csv`: the CSV export of a table, the server's CSV reader and the early exits of the PDF generator.

The clock, the server's replies, the store, user confirmations and file existence are all parameters. What a screen sends to the server is returned as a list of requests.

Two behaviours of the code are reproduced as written, though they look unintended.

- The reserve action builds `new Reservation(0, sub.getId(), …)` against a constructor whose first two parameters are `(subscriber_id, spotId)`. So the subscriber's id lands in `spotId` and `subscriberId` is 0 (`ReservationForm.OnReserve`). It is not claimed as a defect because the server code that receives the record is not part of this model.
- The update form does not trim its fields, so a name of blanks passes it although registration refuses it (`SubscriberForms.BlankNameOnlyUpdates`).

Where the source's comments and its code disagree, the model follows the code:

- The scheduler's Javadoc promises a 24-hour sleep, but the loop sleeps one hour.
- The expiry pass runs in the first minute of every day, not only on the first of the month.

## Model

| member | source | states |
|---|---|---|
| Reservations.NewReservation | bpark/src/logic/Reservation.java:32-39 | the six-argument constructor stores subscriber, spot, date, start, end and code as given (subscriber before spot) and leaves the id at its default 0 |
| Reservations.Apply | bpark/src/logic/Reservation.java:111-140 | each setter changes only its own field; the three final fields (subscriber, spot, date) never change |
| Reservations.FinalFieldsNeverChange | bpark/src/logic/Reservation.java:14-16 | after any sequence of setter calls the subscriber, spot and date are those the reservation was built with |
| Reservations.LastStartTimeWins | bpark/src/logic/Reservation.java:129-131 | after a sequence of setter calls ending in `setStartTime(v)` the start time is `v`, whatever came before (clearing it to null is how a reservation is canceled) |
| Calendar.DaysInMonth | server/src/serverControllers/MonthlyReport.java:359-360 | a month has 28 to 31 days, and February has 29 exactly in leap years |
| Calendar.OrdinalOrder | server/src/serverControllers/cancelOldReservation.java:41 | `isBefore` on dates agrees with the order of their day numbers, and two dates are equal exactly when their day numbers are |
| Calendar.PreviousMonth | server/src/serverControllers/MonthlyTaskRunner.java:45-47 | the month before a year and month is a valid month exactly one month earlier, January going back to December of the year before |
| Calendar.MonthName | Client/src/clientControllers/ReportSubscriberController.java:161 | `Month.name()` is three to nine capital letters; which month each names is stated by `Calendar.MonthNameRoundTrip` |
| Calendar.MonthNameInjective | server/src/serverControllers/MonthlyTaskRunner.java:55 | different months have different names |
| Calendar.MonthNameRoundTrip | server/src/serverControllers/MonthlyTaskRunner.java:46 | a month's name reads back as the same month |
| Scheduler.Step | server/src/serverControllers/MonthlyTaskRunner.java:43-59 | one iteration generates exactly when the process has just started or it is the 1st of the month before 00:59; the report period is the month before `now`; the start-up flag is cleared afterwards |
| Scheduler.Run | server/src/serverControllers/MonthlyTaskRunner.java:40-69 | no more reports than wake-ups; every report is for the month before its generation time; every report but a start-up one falls inside the window |
| Scheduler.WindowWakeGenerates | server/src/serverControllers/MonthlyTaskRunner.java:41-62 | every wake-up inside the window that the loop reaches (no interrupt before it) generates the report for the month before it |
| Scheduler.GenerationsAreWakes | server/src/serverControllers/MonthlyTaskRunner.java:41-62 | every report comes from a wake-up the loop reached at that time, which was inside the window or was the first wake-up of a process just started |
| Scheduler.FirstWakeGenerates | server/src/serverControllers/MonthlyTaskRunner.java:21 | the first wake-up of a process generates a report whatever the date, because `startUp` starts true |
| Scheduler.InterruptEnds | server/src/serverControllers/MonthlyTaskRunner.java:64-67 | an interrupt ends the loop: nothing after it changes what is generated |
| Scheduler.WindowLaterMonth | server/src/serverControllers/MonthlyTaskRunner.java:49 | a window wake-up an hour or more after another instant lies in a later calendar month |
| Scheduler.DistinctMonths | server/src/serverControllers/MonthlyTaskRunner.java:49-62 | with wake-ups at least an hour apart, no two reports of one process are generated in the same calendar month |
| Scheduler.DistinctPeriods | server/src/serverControllers/MonthlyTaskRunner.java:45-56 | with wake-ups at least an hour apart, one process never generates two reports for the same period |
| Scheduler.PeriodDeterminesMonth | server/src/serverControllers/MonthlyTaskRunner.java:45-47 | two reports for the same period were generated in the same calendar month |
| Scheduler.RestartRegenerates | server/src/serverControllers/MonthlyTaskRunner.java:21 | two process starts in the same month each generate the same month's report again |
| Scheduler.DriftSkipsWindow | server/src/serverControllers/MonthlyTaskRunner.java:59-62 | hourly wake-ups at 23:59 on 31 January and 00:59 on 1 February generate nothing, so that month's report is missed |
| Scheduler.ReportFileName | server/src/serverControllers/MonthlyTaskRunner.java:55 | the file name is `MonthlyReport_`, the month's enum name, `_`, the year in decimal and `.pdf`, each field at its own position |
| Scheduler.ReportFileNameInjective | server/src/serverControllers/MonthlyTaskRunner.java:55 | different periods get different file names, so one period's report never overwrites another's |
| Scheduler.ReportPath | server/src/serverControllers/MonthlyTaskRunner.java:50-55 | the report is written under the `reports/` directory with the report file name |
| Scheduler.FileNameShape | server/src/serverControllers/MonthlyTaskRunner.java:55 | the file name is the prefix followed by the month name, `_`, the year and the suffix, grouped as the injectivity proof needs |
| Scheduler.AdminFindsReport | Client/src/clientControllers/AdminScreenController.java:116-120 | the file the admin screen opens for a picked month and year is the one the scheduler wrote for a period exactly when the picks are that period |
| Expiry.ExpireOne | server/src/serverControllers/cancelOldReservation.java:41-42 | a live reservation dated before today has its start time cleared; any other reservation is left as it was; no other field changes, and the result is never eligible again |
| Expiry.Writes | server/src/serverControllers/cancelOldReservation.java:40-49 | one update per eligible reservation (live and dated before today), as many as there are eligible reservations, each the eligible record tombstoned; already canceled records are not written; none exactly when no reservation is eligible |
| Expiry.WritesAreFilteredExpired | server/src/serverControllers/cancelOldReservation.java:40-49 | the updates are exactly the eligible reservations, in list order, each with its start time cleared |
| Expiry.Expire | server/src/serverControllers/cancelOldReservation.java:40-42 | the fetched list after the loop holds every reservation, in place, as the pass leaves it, whether or not its update reached the store |
| Expiry.StoreAfter | server/src/serverControllers/cancelOldReservation.java:40-49 | a stored reservation changes only when it was eligible and its update succeeded, and then only its start time is cleared; it stays eligible exactly when its update failed |
| Expiry.Run | server/src/serverControllers/cancelOldReservation.java:27-61 | outside the first minute of the day nothing is read and the pass sleeps an hour; a failed fetch returns at once with nothing written; otherwise the updates are `Expiry.Writes` of the store and the pass sleeps a day; a reservation whose update failed or that is not eligible is untouched; every eligible one whose update succeeded is canceled; no identity field changes |
| Expiry.ExpireIdempotent | server/src/serverControllers/cancelOldReservation.java:41 | a second pass over the list the first one left behind writes nothing and changes nothing |
| Expiry.SecondPassRetriesFailures | server/src/serverControllers/cancelOldReservation.java:43-48 | a second pass over the store writes one update per eligible reservation whose first update failed, and nothing when every update succeeded |
| Expiry.FailureIsolated | server/src/serverControllers/cancelOldReservation.java:43-48 | a reservation's outcome depends only on its own update: another reservation's failure changes nothing about it |
| Counting.Histogram | server/src/serverControllers/MonthlyReport.java:363-372 | a zero-filled tally over a fixed key list: one count per key, equal to the number of items with that key |
| Counting.SumHistogram | server/src/serverControllers/MonthlyReport.java:367-372 | the counts of distinct keys add up to the number of items that hit some key; items with no key are not counted |
| Counting.SumHistogramCovering | server/src/serverControllers/MonthlyReport.java:363-372 | when every item has a key, the counts add up to the number of items |
| Counting.Insert | server/src/serverControllers/MonthlyReport.java:444-454 | putting a key into a `TreeMap` keeps the keys strictly ascending and adds exactly that key |
| Counting.SortedKeys | server/src/serverControllers/MonthlyReport.java:444-454 | the key set of a `TreeMap` built from a list is strictly ascending and holds exactly the list's elements |
| Counting.Tally | server/src/serverControllers/MonthlyReport.java:444-460 | the `TreeMap` tally: the keys are the reference ids and the seen items, strictly ascending; each count is the number of occurrences (0 for a reference id never seen); the counts add up to the number of items |
| Counting.Filter | server/src/serverControllers/MonthlyReport.java:116-123 | `stream().filter` keeps exactly the elements that pass, no more of them than there were |
| Counting.FilterAppend | server/src/serverControllers/MonthlyReport.java:116-123 | filtering a concatenation is concatenating the filtered parts, so the original order is kept |
| Counting.FilterAll | server/src/serverControllers/MonthlyReport.java:116-123 | filtering keeps the whole sequence exactly when every element passes |
| Counting.FilterNone | server/src/serverControllers/MonthlyReport.java:200-201 | filtering keeps nothing when no element passes |
| Counting.FilterDropsMiddle | server/src/serverControllers/MonthlyReport.java:200-201 | filtering removes a block of failing elements and keeps the passing blocks around it in order |
| Counting.FilterThen | Client/src/clientControllers/ReportReservationController.java:139-143 | two filters in a row keep what one filter by their conjunction keeps |
| Counting.FilterPartition | Client/src/clientControllers/ReportReservationController.java:143-149 | a predicate and its negation split a sequence between them |
| Counting.FilterMonotone | Client/src/clientControllers/ReportReservationController.java:146-149 | a stronger predicate keeps no more elements, and as many exactly when it agrees with the weaker one on the whole sequence |
| MonthlyReport.SessionsOfPeriod | server/src/serverControllers/MonthlyReport.java:116-119 | the kept sessions are exactly those that entered in the report's year and month |
| MonthlyReport.ReservationsOfPeriod | server/src/serverControllers/MonthlyReport.java:121-123 | the kept reservations are exactly those dated in the report's year and month |
| MonthlyReport.SessionsPerDay | server/src/serverControllers/MonthlyReport.java:358-373 | the days are 1 to the month's length, each with the number of the period's sessions that entered on it; the counts add up to the number of sessions of the period |
| MonthlyReport.DaysOfPeriodCovered | server/src/serverControllers/MonthlyReport.java:363-372 | every session of the period entered on a day of the month, so none is lost from the per-day counts |
| MonthlyReport.UsedCanceled | server/src/serverControllers/MonthlyReport.java:386-397 | a reservation with a null start time counts as canceled and any other as used; used plus canceled is the number of reservations; none used exactly when all are canceled, and the other way round |
| MonthlyReport.SessionsPerSpot | server/src/serverControllers/MonthlyReport.java:442-460 | every known spot and every spot of a session of the period, ascending, each with its number of sessions (0 when unused); the counts add up to the number of sessions of the period |
| MonthlyReport.LatePerSubscriber | server/src/serverControllers/MonthlyReport.java:410-428 | every subscriber and every subscriber with a late session of the period, ascending, each with its number of late sessions; sessions not flagged late never count |
| MonthlyReport.Columns | server/src/serverControllers/MonthlyReport.java:181-204 | the columns are the first record's declared fields; for subscribers every field except `history` and `loggedIn` (compared ignoring case) is kept and those two are not |
| MonthlyReport.SubscriberColumns | server/src/serverControllers/MonthlyReport.java:198-202 | a subscriber table has exactly the columns id, name, phone, email, role, tag, code, in that order |
| MonthlyReport.Row | server/src/serverControllers/MonthlyReport.java:214-232 | a row has one value per column, and a cell is "N/A" exactly when the record's type does not declare that column |
| MonthlyReport.FieldAvailable | server/src/serverControllers/MonthlyReport.java:218-229 | a field reads as "N/A" exactly when the record's type does not declare it |
| MonthlyReport.ReservationRow | server/src/serverControllers/MonthlyReport.java:214-232 | a reservation row is its id, subscriber id, spot id, date, start time, end time and code, in declaration order |
| MonthlyReport.SessionRow | server/src/serverControllers/MonthlyReport.java:214-232 | a session row is its nine fields in declaration order, an open session's null exit time printing as null |
| MonthlyReport.SpotRow | server/src/serverControllers/MonthlyReport.java:214-232 | a spot row is its id and status |
| MonthlyReport.SubscriberRow | server/src/serverControllers/MonthlyReport.java:198-232 | a subscriber row is id, name, phone, email, role, tag and code, without the history and logged-in flag |
| MonthlyReport.SameKindRowsComplete | server/src/serverControllers/MonthlyReport.java:181-232 | a section whose records are all of one type has no "N/A" cell |
| MonthlyReport.LayoutComplete | server/src/serverControllers/MonthlyReport.java:167-232 | a layout of sections that each list records of one type has no "N/A" cell |
| MonthlyReport.AddSection | server/src/serverControllers/MonthlyReport.java:167-243 | an empty list gets the no-data note and neither table nor chart; otherwise the table has the first record's columns and one row per record, and the chart follows |
| MonthlyReport.Layout | server/src/serverControllers/MonthlyReport.java:168-171 | sections appear in call order, and every section except the first starts on a new page |
| MonthlyReport.GetPDF | server/src/serverControllers/MonthlyReport.java:95-154 | a failed fetch gives no document; otherwise the title names the month and year, and the four sections are sessions (per-day chart), reservations (used/canceled chart), spots (per-spot chart) and subscribers (late chart), with sessions and reservations restricted to the period |
| MonthlyReport.ReportInputs | server/src/serverControllers/MonthlyReport.java:116-146 | the report has four record lists, each of a single record type |
| MonthlyReport.ReportHasNoMissingCells | server/src/serverControllers/MonthlyReport.java:143-232 | no table of a monthly report holds an "N/A" cell |
| MonthlyReport.ReportTotals | server/src/serverControllers/MonthlyReport.java:137-141 | used plus canceled is the number of reservations of the period, and the per-day and per-spot counts each add up to the number of sessions of the period |
| MonthlyReport.FilterIdempotentPeriod | server/src/serverControllers/MonthlyReport.java:116-119 | restricting sessions to the period twice is the same as doing it once, which is why the chart's second test of the period changes nothing |
| MonthlyReport.PreviousMonthBefore | server/src/serverControllers/MonthlyTaskRunner.java:45-47 | every date of the report's month is before the first day of the month the report is generated in |
| MonthlyReport.ExpiryEmptiesPreviousMonth | server/src/serverControllers/cancelOldReservation.java:40-50 | after the midnight expiry pass of the 1st succeeds for every record, the previous month's report counts no used reservation: its pie chart is all canceled |
| MonthlyReport.PreviousMonthAllCanceled | server/src/serverControllers/cancelOldReservation.java:41-42 | after a fully successful expiry pass on the 1st, every reservation of the previous month is canceled |
| ClientCharts.DaysCovered | Client/src/clientControllers/ReportReservationController.java:132-150 | every reservation of the month falls on one of the zero-filled days, so the per-day counts lose none of them |
| ClientCharts.CountDays | Client/src/clientControllers/ReportReservationController.java:123-152 | days 1 to the month's length in order, each with the number of the month's reservations on it that have both times (used) and a null start time (canceled); each series adds up to the number of such reservations |
| ClientCharts.AgreesWithServerReport | Client/src/clientControllers/ReportReservationController.java:143-149 | against the server's pie chart for the same month the canceled totals agree, the client's used total is at most the server's, and the two agree exactly when every live reservation of the month has an end time |
| ClientCharts.CountsWithinMonth | Client/src/clientControllers/ReportReservationController.java:139-151 | the used and canceled bars together never exceed the month's reservations |
| ClientCharts.ReservationChart | Client/src/clientControllers/ReportReservationController.java:112-178 | with no month or year selected there is no series and the hint title; otherwise the title names month and year and there are two series, used then canceled, with one point per day of the month labelled by its number |
| ClientCharts.DailyChart | Client/src/clientControllers/ReportReservationController.java:154-171 | the used series comes first and the canceled one second, and both have one point per day, labelled by the day number, with that day's count |
| ClientCharts.ExportFiles | Client/src/clientControllers/ReportReservationController.java:53-60 | the export writes two different files under `reports/`, one ending in `.csv` and one in `.png`, each carrying the month-and-year tag just before its extension |
| ClientCharts.PdfRequest | Client/src/clientControllers/ReportReservationController.java:74-91 | the PDF request is sent exactly when both exported files of the selection exist, and it carries the month-and-year tag |
| ClientCharts.ExportThenPdf | Client/src/clientControllers/ReportReservationController.java:53-91 | after exporting a selection, asking for its PDF sends the request; with nothing exported, nothing is sent |
| ClientCharts.MarchFifthScenario | Client/src/clientControllers/ReportReservationController.java:132-166 | one used and one canceled reservation on 5 March 2024 give one and one on day 5 and zero on every other of the 31 days, and the server's pie chart agrees |
| ClientCharts.MonthlyBuckets | Client/src/clientControllers/ReportSubscriberController.java:148-156 | bucket `i` counts the sessions of the selected year that entered in month `i + 1`; the twelve buckets add up to the number of sessions of that year |
| ClientCharts.SubscriberChart | Client/src/clientControllers/ReportSubscriberController.java:158-164 | the chart holds exactly one series, named after the subscriber id, with twelve points labelled JANUARY to DECEMBER carrying the month buckets |
| ClientCharts.MonthPoints | Client/src/clientControllers/ReportSubscriberController.java:160-162 | twelve points, labelled with the month names in calendar order |
| ClientCharts.SessionLandsInItsMonth | Client/src/clientControllers/ReportSubscriberController.java:151-155 | adding a session of the selected year adds one to its month's bucket and nothing to any other |
| ClientCharts.OtherYearIgnored | Client/src/clientControllers/ReportSubscriberController.java:153 | adding a session of another year changes no bucket |
| ClientCharts.HourlyCounts | Client/src/clientControllers/ReportActiveSessionsController.java:103-111 | bucket `h` counts the active sessions that entered during hour `h`; inactive sessions never count; the buckets add up to the number of active sessions |
| ClientCharts.ActiveChart | Client/src/clientControllers/ReportActiveSessionsController.java:113-126 | one series named "Active Sessions by Hour" with 24 points, hours 0 to 23 in order, on an axis fixed to 0..23 with unit 1 |
| ClientCharts.ReportSetSessions | Client/src/clientControllers/ReportActiveSessionsController.java:93-98 | a new session list refilters the inherited view and redraws the chart from the full list |
| ClientCharts.ReportRefresh | Client/src/clientControllers/ViewActiveSessionsController.java:107-120 | picking a date refilters the table and leaves the chart as it was |
| ClientCharts.ChartIgnoresDate | Client/src/clientControllers/ReportActiveSessionsController.java:103-111 | the chart counts the full list, not the rows of the picked day: whatever dates are picked afterwards, two screens given the same list show the same chart |
| ClientCharts.RefreshKeepsChart | Client/src/clientControllers/ViewActiveSessionsController.java:107-120 | any sequence of date picks leaves the chart unchanged |
| ClientCharts.ActiveSessionLandsInItsHour | Client/src/clientControllers/ReportActiveSessionsController.java:105-110 | an active session adds one to the bucket of its entry hour and nothing elsewhere; an inactive one changes nothing |
| Views.FilterByDate | Client/src/clientControllers/ViewActiveSessionsController.java:122-132 | the rows are exactly the sessions that entered on the selected date, in list order, and none when the list or the date is null |
| Views.SetSessions | Client/src/clientControllers/ViewActiveSessionsController.java:102-105 | the list is replaced, the date kept, and the rows are the new list filtered by that date |
| Views.Refresh | Client/src/clientControllers/ViewActiveSessionsController.java:107-120 | a pick after today raises the error and changes nothing; today or earlier becomes the date and the rows are refiltered; a cleared picker clears the date and leaves the rows as they were |
| Views.PickTodayShowsToday | Client/src/clientControllers/ViewActiveSessionsController.java:107-113 | after a list is loaded, picking today shows exactly today's sessions, without error |
| Views.ClearedPickerKeepsRows | Client/src/clientControllers/ViewActiveSessionsController.java:117-119 | clearing the picker after a day was shown leaves that day's rows on screen while the date is null |
| Views.FutureDateNeverSelected | Client/src/clientControllers/ViewActiveSessionsController.java:109-116 | from a state with no future date, any series of future picks leaves the state unchanged |
| Views.FilterSubscribers | Client/src/clientControllers/ViewSubscriberController.java:190-200 | a null or "All" selection shows everybody; any other shows exactly the subscribers whose role name equals it, in list order |
| Views.RoleFiltersPartition | Client/src/clientControllers/ViewSubscriberController.java:66 | the three role entries split the list: their row counts add up to the number of subscribers |
| Views.UnknownRoleShowsNobody | Client/src/clientControllers/ViewSubscriberController.java:196 | a selection that is not one of the combo box's entries shows nobody |
| Views.RoleNamesAreChoices | Client/src/clientControllers/ViewSubscriberController.java:66 | every role's name is one of the combo box's entries |
| Views.SetSubscribers | Client/src/clientControllers/ViewSubscriberController.java:190-220 | the list is replaced and refiltered by the current selection: a null or "All" selection shows the whole list; any other selection shows only subscribers whose role name is the selection, and every such subscriber |
| Views.HistoryOfYear | Client/src/clientControllers/ViewSubscriberController.java:171-183 | the history rows are exactly the sessions that entered in the selected year, in list order |
| Views.HistoryOfYearSplits | Client/src/clientControllers/ViewSubscriberController.java:174-179 | the year filter of two histories put together is the year filter of each, in order |
| Views.SetHistorySessions | Client/src/clientControllers/ViewSubscriberController.java:227-234 | a null history stores an empty list but then fails with the table left as it was; any other history is stored and its rows of the selected year are shown |
| Views.OnHistoryMessage | Client/src/clientControllers/ViewSubscriberController.java:255-265 | the message handler never passes null, so it never fails, and an empty list empties both the stored history and the table |
| Views.IdFieldEdit | Client/src/clientControllers/ViewSubscriberController.java:137-141 | an all-digit edit is taken as is, any other edit puts the previous text back, so the field stays all digits |
| Views.IdFieldAfter | Client/src/clientControllers/ViewSubscriberController.java:137-141 | after any sequence of edits from an empty field the text is all digits, and it is the last edit when that one was all digits |
| Views.FetchHistory | Client/src/clientControllers/ViewSubscriberController.java:151-164 | an empty field is refused; otherwise the id is the digits' value when it fits in `int`, and a value beyond `int`'s range is the number error |
| Views.ShortIdsParse | Client/src/clientControllers/ViewSubscriberController.java:158-160 | one to nine digits always give an id |
| Views.YearChoices | Client/src/clientControllers/ViewSubscriberController.java:102-108 | ten years, the current one first, strictly decreasing, exactly the ten years up to the current one |
| Text.Trim | Client/src/clientControllers/RegistrationController.java:168-171 | `String.trim()`: the result is empty exactly when the text is blank, otherwise it starts and ends with a character above U+0020; an all-digit text is unchanged; it is an infix of the text with only characters up to U+0020 before and after it |
| Text.TrimUntouched | Client/src/clientControllers/RegistrationController.java:171 | a text that neither starts nor ends with a trimmable character is unchanged by trimming |
| Text.Digits | Client/src/clientControllers/RegistrationController.java:94 | removing every non-digit leaves digits only, no more characters than before, leaves an all-digit text as it is and empties a text without digits |
| Text.DigitsKeepsExactlyDigits | Client/src/clientControllers/RegistrationController.java:94 | every digit of the text survives the removal, and a character is in the result exactly when it is a digit of the text |
| Text.DigitsAppend | Client/src/clientControllers/RegistrationController.java:94 | the digits of two texts put together are the digits of each, in order |
| Text.Take | Client/src/clientControllers/RegistrationController.java:97-99 | `substring(0, n)` after the length check: the first `n` characters, or all of them when there are fewer |
| Text.CountChar | Client/src/clientControllers/RegistrationController.java:138 | a count no larger than the text, zero exactly when the character does not occur |
| Text.CountCharAppend | Client/src/clientControllers/RegistrationController.java:138 | the count over two texts put together is the sum of the counts |
| Text.NatToString | server/src/serverControllers/MonthlyReport.java:364 | `String.valueOf` of a natural number is a non-empty digit string with no leading zero |
| Text.ParseNatToString | Client/src/clientControllers/RegistrationController.java:184 | `Integer.parseInt` reads back the number `String.valueOf` wrote |
| Text.SignOfString | server/src/serverControllers/MonthlyTaskRunner.java:55 | a number's decimal text starts with '-' exactly when it is negative |
| Text.IntToStringInjective | server/src/serverControllers/MonthlyTaskRunner.java:55 | two numbers with the same decimal text are equal |
| Text.NatToStringInjective | server/src/serverControllers/MonthlyTaskRunner.java:55 | two natural numbers with the same decimal text are equal |
| Text.ParseDigitsBound | Client/src/clientControllers/ViewSubscriberController.java:159 | a string of `n` digits denotes a number below 10^n |
| Text.LiveFilter | Client/src/clientControllers/RegistrationController.java:47-57 | a text listener keeps the edited text exactly when it passes the pattern (or nothing changed) and otherwise puts the previous text back, so a field that passed keeps passing |
| SubscriberForms.IndexOf | Client/src/clientControllers/RegistrationController.java:197 | no position exactly when the character is absent; otherwise the position of its first occurrence |
| SubscriberForms.LastIndexOf | Client/src/clientControllers/RegistrationController.java:197 | no position exactly when the character is absent; otherwise the position of its last occurrence |
| SubscriberForms.CheckEmailMeaning | Client/src/clientControllers/RegistrationController.java:197 | the search-free check (split at the first '@' and the last '.') accepts exactly the texts the submit pattern `[\w.-]+@[\w.-]+\.[a-zA-Z]{2,}` matches |
| SubscriberForms.FirstAt | Client/src/clientControllers/RegistrationController.java:197 | in a text the submit pattern matches, the pattern's '@' is the first '@' |
| SubscriberForms.LastDot | Client/src/clientControllers/RegistrationController.java:197 | in a text the submit pattern matches, the pattern's '.' is the last '.' |
| SubscriberForms.EmailDraftMeaning | Client/src/clientControllers/RegistrationController.java:137-147 | the live email pattern `[\w.-]*@?[\w.-]*\.?[a-zA-Z]*` accepts exactly the texts made of address characters and '@' with at most one '@' |
| SubscriberForms.NoSecondAt | Client/src/clientControllers/RegistrationController.java:138 | with at most one '@', nothing after the first '@' is an '@' |
| SubscriberForms.DraftSplitChars | Client/src/clientControllers/RegistrationController.java:138 | every character of a text the live pattern matches is an address character or '@' |
| SubscriberForms.DraftSplitCount | Client/src/clientControllers/RegistrationController.java:138 | a text the live pattern matches holds at most one '@' |
| SubscriberForms.TypeChars | Client/src/clientControllers/RegistrationController.java:47-57 | typing into an empty field through a live filter whose pattern accepts the empty text always leaves a text the pattern accepts |
| SubscriberForms.TypingAcceptedPrefixes | Client/src/clientControllers/RegistrationController.java:47-57 | when every prefix of a text passes the live filter, typing it character by character gives the whole text |
| SubscriberForms.IdTypedInFull | Client/src/clientControllers/RegistrationController.java:47-57 | a nine-digit id can be typed in full through the id field's filter |
| SubscriberForms.NameTypedInFull | Client/src/clientControllers/RegistrationController.java:69-79 | a valid name can be typed in full through the name field's filter |
| SubscriberForms.EmailTypedInFull | Client/src/clientControllers/RegistrationController.java:137-147 | an address the submit pattern accepts can be typed in full through the email field's live filter |
| SubscriberForms.EmailChars | Client/src/clientControllers/RegistrationController.java:197 | an address the submit pattern accepts passes the live pattern and holds exactly one '@' |
| SubscriberForms.LayOutPhoneLoop | Client/src/clientControllers/RegistrationController.java:102-108 | the loop appends each digit with a dash in front of the fourth and the seventh, producing the three-three-rest layout |
| SubscriberForms.LayOutPhoneStep | Client/src/clientControllers/RegistrationController.java:103-107 | one more digit adds a dash first when it is the fourth or the seventh, then the digit |
| SubscriberForms.FormatPhone | Client/src/clientControllers/RegistrationController.java:92-114 | the formatted text has the first ten digits of the input, dashes exactly at positions 3 and 7 and digits everywhere else, and is exactly as long as those digits plus one dash after three and a second after six, so it never ends in a dash |
| SubscriberForms.LayOutPhoneDigits | Client/src/clientControllers/RegistrationController.java:102-108 | laying out up to ten digits keeps exactly those digits, adds one dash after three digits and a second after six, at positions 3 and 7 |
| SubscriberForms.FormatPhoneIdempotent | Client/src/clientControllers/RegistrationController.java:110-114 | formatting the formatted text changes nothing, so the `setText` that re-fires the listener ends there |
| SubscriberForms.FormatPhoneComplete | Client/src/clientControllers/RegistrationController.java:192 | the formatted text passes the submit pattern `\d{3}-\d{3}-\d{4}` exactly when at least ten digits were entered |
| SubscriberForms.PhoneTextIsFixedPoint | Client/src/clientControllers/UpdateUserDetailsController.java:174-177 | a phone already in the submit format is left as it is by the listener, so loading a stored phone into the field keeps it |
| SubscriberForms.PhoneTextDigits | Client/src/clientControllers/RegistrationController.java:192 | the digits of a submit-format phone are its three digit groups in order |
| SubscriberForms.PhoneTextLayout | Client/src/clientControllers/RegistrationController.java:102-108 | laying out the digits of a submit-format phone gives the phone back |
| SubscriberForms.OnPhoneEdited | Client/src/clientControllers/RegistrationController.java:116-124 | the warning shows exactly when fewer than ten digits were entered, which is exactly when the field's text does not pass the submit pattern |
| SubscriberForms.OnPhoneEditedSettles | Client/src/clientControllers/RegistrationController.java:110-114 | the listener run again on its own output leaves both the text and the warning as they were |
| SubscriberForms.FormattedPhoneRegisters | Client/src/clientControllers/RegistrationController.java:171-195 | a complete formatted phone is unchanged by trimming and passes the submit check |
| SubscriberForms.CheckContact | Client/src/clientControllers/UpdateUserDetailsController.java:141-161 | name, then phone, then email: no error exactly when all three are valid, and otherwise the error of the first invalid field |
| SubscriberForms.NewSubscriber | Client/src/clientControllers/RegistrationController.java:166-220 | fields are trimmed; the empty-field error exactly when one of the four is blank; then the id error exactly when the id is not nine digits; then the contact errors in order; on success a new subscriber with the parsed id (within `int`), the trimmed fields, role SUBSCRIBER, logged out, null history, empty tag and code 0 |
| SubscriberForms.NineDigitsFit | Client/src/clientControllers/RegistrationController.java:184 | `Integer.parseInt` of nine digits cannot overflow |
| SubscriberForms.RegisteredIdsDistinct | Client/src/clientControllers/RegistrationController.java:179-184 | different nine-digit id texts give different ids |
| SubscriberForms.ParseDigitsInjective | Client/src/clientControllers/RegistrationController.java:184 | two digit strings of the same length with the same value are the same string |
| SubscriberForms.Register | Client/src/clientControllers/RegistrationController.java:166-240 | an error alert exactly when the form is refused; the subscriber is sent, once, exactly when the form is accepted and the dialog confirmed; the fields are cleared exactly when it was sent |
| SubscriberForms.Update | Client/src/clientControllers/UpdateUserDetailsController.java:134-167 | the fields are taken untrimmed; the empty-field error exactly when one of them is empty; otherwise the contact errors in order; success exactly when all three are valid, and then email, name and phone are replaced and the subscriber is sent; on an error nothing changes and nothing is sent |
| SubscriberForms.UpdateKeepsIdentity | Client/src/clientControllers/UpdateUserDetailsController.java:162-165 | an update never changes the id, role, login state, history, tag or code |
| SubscriberForms.UpdateIdempotent | Client/src/clientControllers/UpdateUserDetailsController.java:162-164 | pressing Update twice with the same fields leaves the subscriber as once did |
| SubscriberForms.BlankNameOnlyUpdates | Client/src/clientControllers/UpdateUserDetailsController.java:138-141 | a name of two spaces passes the update form, which does not trim, while registration refuses it as an empty field |
| SubscriberForms.RegisteredPassesUpdate | Client/src/clientControllers/UpdateUserDetailsController.java:134-165 | a subscriber registration accepted passes the update form with its own fields and comes out unchanged |
| SubscriberForms.UpdateResponse | Client/src/clientControllers/UpdateUserDetailsController.java:199-210 | an alert exactly for a "Subscriber" reply, showing the reply text, as a success exactly when it is "updated successfully" |
| SubscriberForms.RegistrationResponse | Client/src/clientControllers/RegistrationController.java:262-282 | a success alert exactly for a "Subscriber created" reply with code and tag, showing both; any other subject gives an "Unexpected message type received: " error naming it; a plain text reply is shown as an error; a "Subscriber created" reply without code and tag, or a message of another kind, shows nothing |
| ReservationForm.FormatTime | Client/src/clientControllers/ReservationController.java:105-125 | the formatted time has the first four digits typed, a colon exactly at position 2 and digits everywhere else, and is one longer than those digits only when there are more than two, so it never ends in a colon |
| ReservationForm.LayOutTime | Client/src/clientControllers/ReservationController.java:114-118 | two digits or fewer are kept as they are; three or four become the first two, a colon and the rest |
| ReservationForm.LayOutTimeDigits | Client/src/clientControllers/ReservationController.java:114-118 | laying out up to four digits only adds the colon: the digits read back unchanged |
| ReservationForm.FormatTimeIdempotent | Client/src/clientControllers/ReservationController.java:120-124 | formatting the formatted text changes nothing, so the listener's own `setText` ends there |
| ReservationForm.IsTimeTextMeaning | Client/src/clientControllers/ReservationController.java:131 | the pattern `([01]\d\|2[0-3]):[0-5]\d` accepts exactly two digits, a colon and two digits with the hour at most 23 and the minute at most 59 |
| ReservationForm.ParseTime | Client/src/clientControllers/ReservationController.java:164-171 | a time parses exactly when it is a valid `HH:MM` text |
| ReservationForm.TimeTextRoundTrip | Client/src/clientControllers/ReservationController.java:166-167 | printing a time and parsing it gives it back, and every accepted text is the printed form of what it parses to |
| ReservationForm.Validate | Client/src/clientControllers/ReservationController.java:153-196 | accepted exactly when a date and two valid times are given, start before end, and the start lies between 24 hours and 7 days from now; each error exactly when the earlier checks pass and its own fails: missing field (no date or a blank time), bad format (a trimmed time does not parse), start not before end, too soon (before now plus 24 hours, a minute later when now is past the minute mark), too far (after now plus 7 days) |
| ReservationForm.WindowReasons | Client/src/clientControllers/ReservationController.java:180-194 | with the fields filled, parsed and ordered, an error is given exactly when the start lies outside the window; too soon below it, too far above it |
| ReservationForm.ValidateBoundaries | Client/src/clientControllers/ReservationController.java:184-193 | a start exactly 24 hours or exactly 7 days ahead is accepted; a minute sooner is too soon and a minute later too far; exactly 24 hours is too soon when the clock is past the minute mark |
| ReservationForm.TrimTimeText | Client/src/clientControllers/ReservationController.java:155-156 | a printed time is unchanged by trimming |
| ReservationForm.ValidateRejectsEqualTimes | Client/src/clientControllers/ReservationController.java:173-177 | equal start and end times are always refused, as start-not-before-end when the text is a valid time |
| ReservationForm.OnReserve | Client/src/clientControllers/ReservationController.java:207-227 | nothing is sent unless the form validates and the dialog is confirmed; then the new reservation (subscriber 0 and the logged-in id in the spot field, as the constructor call passes them, with the trimmed times) and the list request are sent, in that order |
| ReservationForm.LoadReservation | Client/src/clientControllers/ReservationController.java:347-358 | a received reservation is selected exactly when it exists, belongs to the logged-in subscriber and is not canceled |
| ReservationForm.Delete | Client/src/clientControllers/ReservationController.java:292-314 | an error alert shows exactly when nothing is selected, and then it is "You must choose a valid reservation id" and nothing is sent; without confirmation nothing changes; otherwise the selection, with its start time cleared, is sent as an update under its own id, the list is re-requested and the selection cleared |
| ReservationForm.LoadThenDelete | Client/src/clientControllers/ReservationController.java:292-358 | loading then deleting sends an update only for a live reservation of the logged-in subscriber, and the update is that reservation with only its start time cleared |
| ReservationForm.OnLoad | Client/src/clientControllers/ReservationController.java:269-286 | the warning exactly when the trimmed field is empty or holds a non-digit; a load request exactly when it is digits whose value fits in `int`, carrying that value; more digits than that make `parseInt` throw and nothing is sent |
| ReservationForm.LoadRequestsTypedId | Client/src/clientControllers/ReservationController.java:273-281 | the decimal text of any id up to `int`'s maximum requests exactly that reservation |
| Csv.DoubleQuotes | Client/src/clientControllers/Util.java:72 | every double quote is doubled: the result has twice as many quotes, the same set of characters, and is the text itself when there was no quote |
| Csv.EscapeCell | Client/src/clientControllers/Util.java:63-74 | a null cell exports as the empty text; a text holding a comma or a quote is wrapped in quotes with its quotes doubled, any other text is written as it is; either way the result is well quoted (an even number of quotes, and an odd number after each comma) |
| Csv.ExportLines | Client/src/clientControllers/Util.java:48-81 | the file has one line more than the table has rows: the header first, then row k's escaped cells on line k + 1 |
| Csv.LineEnd | server/src/serverControllers/PDFReport.java:119 | the first line of a text runs up to, not including, the first "\n" or "\r", and holds no line break |
| Csv.ReadLines | server/src/serverControllers/PDFReport.java:117-119 | no line read from a text holds a line break, and there are no more lines than characters |
| Csv.StripQuotes | server/src/serverControllers/PDFReport.java:130-132 | at most one leading and one trailing quote are removed, and only when present; a trailing quote counts also when only a final U+0085, U+2028 or U+2029 follows it, which stays; the rest of the field is kept unchanged and in place |
| Csv.StripBeforeTerminator | server/src/serverControllers/PDFReport.java:131 | a quote just before a final U+2028 is removed and the U+2028 kept |
| Csv.ReadRows | server/src/serverControllers/PDFReport.java:119-138 | lines blank after trimming are skipped; the result is empty exactly when every line is blank |
| Csv.ReadCsv | server/src/serverControllers/PDFReport.java:108-145 | a readable file gives at most one row per line, and no row exactly when every line is blank after trimming |
| Csv.ReadNonBlank | server/src/serverControllers/PDFReport.java:119-133 | when no line is blank, every line becomes one row, parsed, in file order |
| Csv.EscapedIsWellQuoted | Client/src/clientControllers/Util.java:72-74 | every exported cell is well quoted, so no comma inside a cell is followed by an even number of quotes |
| Csv.DoubledEven | Client/src/clientControllers/Util.java:72 | a text with its quotes doubled holds an even number of quotes |
| Csv.SplitJoined | server/src/serverControllers/PDFReport.java:128 | splitting well-quoted fields joined with commas gives back exactly those fields: the lookahead regex never cuts inside an exported cell |
| Csv.SplitRejoin | server/src/serverControllers/PDFReport.java:128 | with `Csv.SplitJoined`, the contract of `Csv.SplitFields`: the split only ever cuts at commas and keeps empty fields: joining the pieces with commas gives back the line |
| Csv.StripEscaped | Client/src/clientControllers/Util.java:63-74 | a cell with no quote in it survives export and quote stripping unchanged |
| Csv.DataLineRoundTrip | server/src/serverControllers/PDFReport.java:128-132 | as written, a data line whose cells hold no quote is read back as the cells' texts, one field per column |
| Csv.QuotedCellComesBackDoubled | server/src/serverControllers/PDFReport.java:131 | as written, a cell `a"b` is exported as `"a""b"` and read back as `a""b`: the reader never un-doubles the quotes |
| Csv.UndoubleDouble | Client/src/clientControllers/Util.java:72 | un-doubling quotes is the inverse of doubling them, for every text |
| Csv.UnescapeEscaped | Client/src/clientControllers/Util.java:63-74 | with quotes un-doubled, every exported cell, null included, reads back as its text |
| Csv.DataLineRoundTripCorrected | Client/src/clientControllers/Util.java:58-80 | with quotes un-doubled, every data line reads back as its cells' texts, whatever they hold |
| Csv.HeaderRoundTrip | Client/src/clientControllers/Util.java:49-55 | a header whose titles hold no comma or quote reads back as the titles, by either reader |
| Csv.HeaderCommaSplits | Client/src/clientControllers/Util.java:49-55 | titles are written unescaped, so a title `a,b` reads back as two columns |
| Csv.LinesRoundTrip | server/src/serverControllers/PDFReport.java:117-119 | lines without line breaks, written each followed by "\n", are read back as the same lines |
| Csv.ExportLinesUnbroken | Client/src/clientControllers/Util.java:44-83 | when no title or cell holds a line break, no exported line does |
| Csv.ExportRoundTripCorrected | server/src/serverControllers/PDFReport.java:108-145 | with quotes un-doubled, reading back an exported table whose lines are not blank gives the titles followed by every row's cell texts, in order |
| Csv.SameShape | server/src/serverControllers/PDFReport.java:56-69 | the reader as written and the corrected one give the same number of rows of the same lengths, so the empty check and the column count do not depend on the un-doubling |
| Csv.GeneratePdfReport | server/src/serverControllers/PDFReport.java:28-104 | as written: a missing or empty file, or one with only blank lines, gives no document; otherwise the document has the report name and extra text, as many columns as the first row read, every cell read in row order, and the usable images only, in order |
| Csv.GeneratePdfReportCorrected | server/src/serverControllers/PDFReport.java:28-104 | the same document built from the reader that un-doubles quotes |
| Csv.CorrectionKeepsLayout | server/src/serverControllers/PDFReport.java:56-69 | the correction changes only cell texts: both give a document or neither, with the same title, text, column count, cell count and images |
| Csv.PdfKeepsDoubledQuotes | server/src/serverControllers/PDFReport.java:128-131 | as written, the one-cell file `"a""b"` gives a document whose cell is `a""b`; corrected, `a"b` |
| Csv.ExportedFileHasDocument | server/src/serverControllers/PDFReport.java:56-69 | a file exported from a table whose lines are not blank always yields a document whose column count is the number of titles |

## Left out

- Rendering: the JavaFX charts and their snapshots, and the iText document, fonts, images and page breaks. A chart is its list of series. A PDF is a title with a list of abstract sections, or, for the CSV report, a column count, the cells in order and the image paths.
- Reflection in `addSection`: the columns come from an explicit per-type field list, superclass fields first. `Parkingsession`, `ParkingSpot`, `subscriber` and `Role` are not part of this model; their fields follow the system's data model and the nine-argument constructor call in RegistrationController.java:220.
- Sockets, the database and the file system: the server's replies are inputs; a fetch or an update is a success flag; a file is only its name, or its text for the CSV reader. `waitForServerResponse`, `sendReportFileToServer`, `saveChartAsImage`, directory creation and `Util.getPDF` are not modelled.
- Threads and clocks: `Thread.sleep`, interrupts and `LocalDateTime.now()` become a given sequence of wake-up events and an explicit `now`. `Platform.runLater` and the latch hand-off of the chart rendering are not modelled.
- Time zones: a session's `inTime` is taken as a local date-time, after the `Date` to `LocalDate` conversion the controllers perform. `SimpleDateFormat` output is part of the cell text given to the CSV export.
- `LocalTime.parse` also accepts `HH:MM:SS` and fractional seconds. The field formatter caps the text at five characters, so only `HH:MM` reaches the parser, and only that form is modelled.
- Focus-lost listeners that only hide or show a label, the table sort buttons, and screen navigation.
- `ViewReservationController`, the parent of the reservation report screen, is not part of this model. Its month selection is modelled as "all months" or one month, and its filtered list is an input.
- Exceptions on the UI thread (a `ClassCastException` on an unexpected reply, a `NumberFormatException` on an over-long id) are modelled as "nothing happens": no request, no alert, no state change.
- The report screen for subscribers declares its own `yearComboBox` beside the inherited one. Which of the two the FXML loader fills is not modelled; both build the same list (`Views.YearChoices`).
- `equalsIgnoreCase` is modelled with ASCII case folding only; the names it compares are field names.
- The client's per-day counts and the server's totals count "used" differently: the client also requires an end time. Both are modelled as written, and `ClientCharts.AgreesWithServerReport` states how far they agree.
- Scheduler.Run: wake-ups are whole minutes. The model proves at most one generation per month only under the assumption that the wake-ups, as readings of the local wall clock (`LocalDateTime.now()`), are at least 60 minutes apart (`WellSpaced`). The one-hour sleep gives an hour of elapsed time, not of wall-clock time: a daylight-saving fall-back or a clock set back during the window on the first of a month can bring two window wake-ups closer, and then the report for the same month is generated twice; that case is not modelled. It proves that every reached wake-up inside the window generates (`Scheduler.WindowWakeGenerates`), but not that the loop reaches the window in every month. A wake-up that drifts past 00:58 on the first skips that month (`Scheduler.DriftSkipsWindow`). A process restart fires again, so two reports for the same month are possible across restarts (`Scheduler.RestartRegenerates`).
- A fetched list that is null is assumed not to occur. The month filters of server/src/serverControllers/MonthlyReport.java:115-122 and the loop of server/src/serverControllers/cancelOldReservation.java:40 run outside any `try`, so a null list would throw a `NullPointerException` that `MonthlyTaskRunner.run` does not catch (it catches only `InterruptedException`), ending the scheduler thread. The model takes every fetched list to be a sequence.
- SubscriberForms.RegistrationResponse: the error text for an unexpected subject omits the `" " + obj` suffix of RegistrationController.java:272, because the payload's `toString` is not modelled.

## Findings

| source | as written | input that shows it | evidently intended | confidence | as-written member | corrected member |
|---|---|---|---|---|---|---|
| server/src/serverControllers/PDFReport.java:131 | the reader strips one wrapping quote at each end of a field but never turns the `""` written by Client/src/clientControllers/Util.java:72 back into `"` | a cell `a"b` is exported as `"a""b"` and read back as `a""b` | every exported cell reads back as its text | not executed | Csv.QuotedCellComesBackDoubled | Csv.DataLineRoundTripCorrected |

`Csv.GeneratePdfReport` is the generator as written, built on the reader as written. `Csv.PdfKeepsDoubledQuotes` shows the doubled quote reaching the document. `Csv.GeneratePdfReportCorrected` is built on the corrected reader (`Csv.ParseLineCorrected`, which un-doubles the quotes of a wrapped field). With that reader, `Csv.ExportRoundTripCorrected` reads back every exported table, and `Csv.ExportedFileHasDocument` gives the exported titles and cells as the document's cells. `Csv.SameShape` and `Csv.CorrectionKeepsLayout` show that the correction changes only cell contents, never the number of rows, columns or cells.
