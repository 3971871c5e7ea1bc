# Time-tracking front end: timers, formatters and lookups in Dafny

This project models the client-side core of a Next.js time-tracking front end. The front end has time-keeping pages, a task board, an invoice page, text pages and API handlers.

- **Pause-list timer.** timeKeeper2.tsx (the live page) and its drafts timeKeeper4.tsx and timeKeeper3.tsx recompute the elapsed time from a start instant and two parallel lists, the pause instants and the resume instants. Submit creates a time entry or updates the one already created.
- **Offset timer.** timeKeeper.tsx and timeTracking.tsx keep the count at the last stop. On every start they move an effective start instant back by that count. Submit sends the count cut to whole seconds.
- **Formatters:**
  - `formatMilliseconds` of time.tsx (HH:MM:SS, hours wrapped at 24);
  - the unbounded-hours clock of timeKeeper3.tsx;
  - `formatTimeFromMilliseconds` of timeKeeper2.tsx and timeKeeper4.tsx (days, hours and minutes);
  - `formatTimeFromISOString` of timeUtils.ts.
- **Task board** (issues2.tsx): distinct teams, the team filter, and grouping by workflow state.
- **Invoice page** (invoice.tsx): the team-id to name dictionary and the projects labelled with their team's name.
- **Greedy word wrap** `formatText` of about.tsx and services.tsx (the same code).
- **Role icons** of people.tsx.
- **Bearer token** taken from the Authorization header by the API handlers organization.ts, fetchTeamsFromLinear.ts and profile.ts.

How the source is modelled:

- Instants are integer milliseconds. The current instant is passed to every handler as `now`.
- Every React handler is one atomic transition of a `class`. It reads the state as it was when clicked, because React batches the `setState` calls.
- Each interval firing is an explicit `Tick` or `UpdateDisplay` call.
- The network is a parameter: Submit returns the request it would send and takes the endpoint's answer (`TimeEntry.Reply`).
- JavaScript arithmetic is written out in `JsNumber`:
  - date-fns `differenceInSeconds` truncates toward zero;
  - `%` keeps the sign of the dividend;
  - `Math.floor(a / k)` for k > 0 is Dafny's `/`.
- JavaScript string operations are in `JsString`: `split`, `join`, `trim`, `padStart` and `toString`. Strings are sequences of Unicode characters, not UTF-16 code units.

Modules and files:

| module | file | models |
|---|---|---|
| `Wrappers` | wrappers.dfy | `Option` |
| `JsNumber` | js_number.dfy | truncating division, `%`, `Math.max` |
| `JsString` | js_string.dfy | split/join, decimal text, `padStart`, `trim` |
| `PauseList` | pause_list.dfy | the elapsed-time sums shared by the pause-list timers |
| `TimeEntry` | time_entry.dfy | the create/update mutation and its outcome |
| `Time` | time_format.dfy | time.tsx |
| `TimeKeeper2` | time_keeper2.dfy | timeKeeper2.tsx |
| `TimeKeeper4` | time_keeper4.dfy | timeKeeper4.tsx |
| `TimeKeeper3` | time_keeper3.dfy | timeKeeper3.tsx |
| `TimeKeeper` | time_keeper.dfy | timeKeeper.tsx |
| `TimeTracking` | time_tracking.dfy | timeTracking.tsx |
| `TimeUtils` | time_utils.dfy | src/utils/timeUtils.ts |
| `Issues` | issues.dfy | issues2.tsx |
| `Invoice` | invoice.dfy | invoice.tsx |
| `WordWrap` | word_wrap.dfy | about.tsx, services.tsx |
| `People` | people.dfy | people.tsx |
| `Bearer` | bearer.dfy | the three API handlers |

Where the code and its documentation differ, the model follows the code:

- timeKeeper2.tsx and timeKeeper4.tsx accept a date change while the timer runs, and it moves the start.
- Their clocks wrap at 24 hours, because they format a time of day.
- timeKeeper4.tsx's Reset leaves the calendar date alone.

## Model

| member | source | states |
|---|---|---|
| PauseList.DiffSeconds | src/pages/timeKeeper2.tsx:232-238 | the whole seconds between two instants, truncated toward zero in both directions |
| PauseList.ElapsedSeconds | src/pages/timeKeeper2.tsx:226-240 | 0 without a start; otherwise never negative, and whenever the seconds since the start minus each pause's seconds (an open pause measured to `now`) are not negative, exactly that count |
| PauseList.CalculateElapsedTime | src/pages/timeKeeper2.tsx:226-240 | the `forEach` loop that subtracts the pauses one by one, then clamps, computes `ElapsedSeconds` |
| PauseList.SubmittedTotal | src/pages/timeKeeper2.tsx:348-354 | Submit's unclamped millisecond total; its meaning is stated by `SubmittedTotalIsRunningTime` |
| PauseList.SubmittedTotalIsRunningTime | src/pages/timeKeeper2.tsx:348-354 | with at most one open pause, Submit's total (end minus start minus the pauses) equals the sum of the spans in which the timer actually ran |
| PauseList.SubmittedTotalNonNegativeInOrder | src/pages/timeKeeper2.tsx:348-354 | when the instants follow each other in time, the unclamped Submit total is never negative |
| PauseList.BackDatedStartGoesNegative | src/pages/timeKeeper2.tsx:306-319 | a start back-dated to after a recorded pause makes Submit's total negative (-5000 ms) while the display clamps to 0 |
| PauseList.SubmittedTotalFrozenWhilePaused | src/pages/timeKeeper2.tsx:348-354 | while the last pause is open, Submit's total does not depend on the submission instant |
| PauseList.PausedSecondsBounds | src/pages/timeKeeper2.tsx:232-238 | measuring each pause in whole seconds never overstates it and loses under a second per pause |
| PauseList.DisplayTracksSubmittedTotal | src/pages/timeKeeper2.tsx:226-240 | the displayed seconds are at most one second below Submit's millisecond total and at most one second per pause above it |
| PauseList.OpenPausesGrow | src/pages/timeKeeper3.tsx:174-178 | between two instants the paused time grows by the elapsed span once per pause that has no resume |
| PauseList.WorkedExample | src/pages/timeKeeper2.tsx:226-240 | paused from 5 s to 8 s and submitted at 10 s: 7000 ms submitted and 7 s displayed |
| TimeEntry.ChooseRequest | src/pages/timeKeeper2.tsx:362-382 | an update of the remembered entry exactly when `currentEntryId` is truthy (present and not 0), otherwise a create from the session's start; both carry the end instant and the total |
| TimeEntry.EntryIdAfter | src/pages/timeKeeper2.tsx:385 | only a create that the endpoint saved records the new id; anything else keeps the remembered id |
| TimeEntry.SubmissionErrorText | src/pages/timeKeeper2.tsx:388-401 | empty exactly after a success; "Error with time entry: " plus the message for a thrown `Error` |
| TimeEntry.CreateThenUpdate | src/pages/timeKeeper2.tsx:362-386 | after a create saved with a non-zero id, the next Submit updates that entry |
| TimeEntry.ZeroIdCreatesAgain | src/pages/timeKeeper2.tsx:362 | an entry saved with id 0 is falsy, so the next Submit creates a second entry |
| TimeEntry.FailureKeepsEntry | src/pages/timeKeeper2.tsx:394-401 | a failed Submit leaves the remembered entry unchanged |
| Time.FieldsOfNonNegative | src/pages/time.tsx:131-133 | for ms >= 0: seconds = (ms div 1000) mod 60, minutes = (ms div 60000) mod 60, hours = (ms div 3600000) mod 24 |
| Time.FormatMilliseconds | src/pages/time.tsx:130-138 | `formatMilliseconds`; its shape and read-back are stated by `FormatMillisecondsShape`, `FormatWrapsAtOneDay` and `FormatZero` |
| Time.Pad2 | src/pages/time.tsx:135-137 | `String(n).padStart(2, "0")`; stated by `Pad2ReadsBack` |
| Time.FormatMillisecondsShape | src/pages/time.tsx:130-138 | for ms >= 0 the text is always the eight characters "HH:MM:SS", and its digits read back as the hour of the day, the minute and the second |
| Time.Pad2ReadsBack | src/pages/time.tsx:135-137 | `padStart(2, "0")` of a non-negative field gives at least two digits (exactly two below 100) that read back as the field |
| Time.FormatWrapsAtOneDay | src/pages/time.tsx:133 | ms and ms + 86 400 000 format identically |
| Time.FormatZero | src/pages/time.tsx:130-138 | 0 ms formats as "00:00:00" |
| Time.TotalTimeFetchSkipped | src/pages/time.tsx:75 | the total-time fetch runs exactly when both a user and a project are selected (timeKeeper4.tsx:352 skips its query on the same condition) |
| TimeUtils.ZeroPadBelowTenIsPadStart | src/utils/timeUtils.ts:19-21 | on 0..59 the conditional leading "0" is two-digit padding: exactly two digits that read back as the field |
| TimeUtils.ZeroPadBelowTen | src/utils/timeUtils.ts:19-21 | a leading "0" below 10; stated by `ZeroPadBelowTenIsPadStart` |
| TimeUtils.FormatTimeFromISOString | src/utils/timeUtils.ts:13-22 | the H:MM:SS text of a time of day; stated by `FormatTimeFromISOStringReadsBack` |
| TimeUtils.FormatTimeFromISOStringReadsBack | src/utils/timeUtils.ts:13-22 | for a valid time of day the text splits at ':' into unpadded hours and two-digit minutes and seconds, which read back as the three fields; the hours take one character exactly when below 10 |
| TimeKeeper2.ClockFaceShowsTimeOfDay | src/pages/timeKeeper2.tsx:242-249 | the clock is "HH:MM:SS" with the hours of the elapsed count within the day, its minutes and its seconds |
| TimeKeeper2.ClockFace | src/pages/timeKeeper2.tsx:242-249 | the clock text of the elapsed seconds; stated by `ClockFaceShowsTimeOfDay` |
| TimeKeeper2.DurationOf | src/pages/timeKeeper2.tsx:322-329 | days, hours and minutes of a millisecond total; stated by `DurationOfBounds` |
| TimeKeeper2.DurationOfBounds | src/pages/timeKeeper2.tsx:322-329 | for a non-negative total, hours < 24 and minutes < 60, and days, hours and minutes add up to the total's whole minutes |
| TimeKeeper2.StartDisabled | src/pages/timeKeeper2.tsx:499 | Start/Pause is enabled exactly when a project and a rate are selected |
| TimeKeeper2.Timer.constructor | src/pages/timeKeeper2.tsx:126-143 | the initial state: stopped, no start, empty lists, "00:00:00", no entry id, today as the calendar date |
| TimeKeeper2.Timer.ResetDisabled | src/pages/timeKeeper2.tsx:507 | Reset is disabled exactly without a start instant |
| TimeKeeper2.Timer.SubmitDisabled | src/pages/timeKeeper2.tsx:514 | Submit is disabled while running or without a start; `HandleStartStop` leaves it enabled after every Pause |
| TimeKeeper2.Timer.CalculateElapsedTime | src/pages/timeKeeper2.tsx:226-240 | the elapsed seconds of the current state at `now`: 0 without a start; with one, the seconds since the start minus each pause's seconds when that is not negative, and 0 when it is |
| TimeKeeper2.Timer.UpdateDisplay | src/pages/timeKeeper2.tsx:242-249 | the clock becomes the time-of-day text of the elapsed seconds |
| TimeKeeper2.Timer.HandleStartStop | src/pages/timeKeeper2.tsx:269-290 | toggles running. Pausing appends `now` to the pauses. Starting keeps a picked start, otherwise takes `now`, and appends a resume only when a pause is open. At most one pause stays open, and none while running; nothing else changes |
| TimeKeeper2.Timer.HandleReset | src/pages/timeKeeper2.tsx:292-304 | stopped, no start, empty lists, "00:00:00", accumulated 0, no entry id, the reset message on and the calendar back to `now` |
| TimeKeeper2.Timer.HandleDateChange | src/pages/timeKeeper2.tsx:306-319 | a future date only sets the alert message; any other date becomes both calendar date and start, running or not; a cleared picker resets the calendar to `now` |
| TimeKeeper2.Timer.HandleSubmit | src/pages/timeKeeper2.tsx:332-403 | without a start nothing is sent and nothing changes. Otherwise the request carries the unclamped running time in ms and is an update or a create (`ChooseRequest`). A saved create records its id, success sets the success flag, and the error text follows the outcome |
| TimeKeeper4.StartDisabled | src/pages/timeKeeper4.tsx:495 | Start/Pause is enabled exactly when a user, a project and a rate are selected |
| TimeKeeper4.Timer.constructor | src/pages/timeKeeper4.tsx:134-147 | the initial state: stopped, no start, empty lists, "00:00:00", no entry id, today as the calendar date |
| TimeKeeper4.Timer.ResetDisabled | src/pages/timeKeeper4.tsx:503 | Reset is disabled exactly without a start instant |
| TimeKeeper4.Timer.SubmitDisabled | src/pages/timeKeeper4.tsx:510 | Submit is disabled while running or without a start; `HandleStartStop` leaves it enabled after every Pause |
| TimeKeeper4.Timer.CalculateElapsedTime | src/pages/timeKeeper4.tsx:172-190 | the elapsed seconds at `now`, as in timeKeeper2.tsx: 0 without a start; with one, the seconds since the start minus each pause's seconds when that is not negative, and 0 when it is |
| TimeKeeper4.Timer.UpdateDisplay | src/pages/timeKeeper4.tsx:192-199 | the clock becomes the time-of-day text of the elapsed seconds |
| TimeKeeper4.Timer.HandleStartStop | src/pages/timeKeeper4.tsx:217-238 | the same transitions as timeKeeper2.tsx: a pause appended on Pause, a resume only when a pause is open, at most one open pause, none while running |
| TimeKeeper4.Timer.HandleReset | src/pages/timeKeeper4.tsx:241-251 | stopped, no start, empty lists, "00:00:00", accumulated 0, no entry id, reset message on; the calendar date is kept |
| TimeKeeper4.Timer.HandleDateChange | src/pages/timeKeeper4.tsx:329-341 | the alert is raised exactly for a future date, which changes nothing; any other date sets calendar date and start; a cleared picker resets the calendar to `now` |
| TimeKeeper4.Timer.HandleSubmit | src/pages/timeKeeper4.tsx:256-327 | as in timeKeeper2.tsx: nothing without a start, otherwise the unclamped total in an update or a create, the id of a saved create recorded, the outcome reported |
| TimeKeeper3.DisplayedMillis | src/pages/timeKeeper3.tsx:169-189 | the displayed milliseconds are never negative and equal now - start - pauses whenever that is not negative |
| TimeKeeper3.ElapsedMillis | src/pages/timeKeeper3.tsx:169-189 | the `for` loop subtracting the pauses and the clamp compute `DisplayedMillis` |
| TimeKeeper3.RawMillis | src/pages/timeKeeper3.tsx:169-189 | the unclamped milliseconds since the start minus every pause; its rate is stated by `ClockRate` |
| TimeKeeper3.FormatElapsed | src/pages/timeKeeper3.tsx:192-200 | the unbounded HH:MM:SS clock; stated by `FormatElapsedReadsBack` and its neighbours |
| TimeKeeper3.FormatElapsedReadsBack | src/pages/timeKeeper3.tsx:192-200 | the clock splits at ':' into three digit fields. Minutes and seconds are two digits below 60, and the hours are at least two digits and not wrapped. hours*3600 + minutes*60 + seconds is the count of whole seconds |
| TimeKeeper3.FormatElapsedShortForm | src/pages/timeKeeper3.tsx:192-200 | below 100 hours the clock is eight characters |
| TimeKeeper3.FormatElapsedZero | src/pages/timeKeeper3.tsx:192-200 | 0 ms shows "00:00:00" |
| TimeKeeper3.FormatElapsedPastOneDay | src/pages/timeKeeper3.tsx:192-200 | 30.5 hours shows "30:30:00": no wrap at a day |
| TimeKeeper3.ClockRate | src/pages/timeKeeper3.tsx:174-178 | the unclamped clock advances at rate 1 minus the number of open pauses |
| TimeKeeper3.StalePauseFreezesClock | src/pages/timeKeeper3.tsx:174-178 | with one pause open and no resume, the unclamped clock is the same at every instant |
| TimeKeeper3.PickDateWhilePaused | src/pages/timeKeeper3.tsx:342-358 | from a paused timer, a date pick clears the start and the next Start (timeKeeper3.tsx:236-266) takes the picked date (or `now` if earlier) without a resume: the pauses and resumes are unchanged, a pause stays open, the running clock never advances, and with one pause open it stands still |
| TimeKeeper3.Timer.constructor | src/pages/timeKeeper3.tsx:127-140 | the initial state: stopped, no start, empty lists, "00:00:00", no entry id, today as the calendar date |
| TimeKeeper3.Timer.ResetDisabled | src/pages/timeKeeper3.tsx:433 | Reset is disabled exactly without a start instant |
| TimeKeeper3.Timer.SubmitDisabled | src/pages/timeKeeper3.tsx:440 | Submit is disabled while running or without a start |
| TimeKeeper3.Timer.UpdateDisplay | src/pages/timeKeeper3.tsx:167-203 | the clock becomes the unbounded HH:MM:SS text of the clamped elapsed milliseconds |
| TimeKeeper3.Timer.HandleStartStop | src/pages/timeKeeper3.tsx:236-266 | Pause always appends a pause. The first Start takes the earlier of the calendar date and `now`, never a future instant. A later Start appends a resume. Resumes never outnumber pauses |
| TimeKeeper3.Timer.HandleReset | src/pages/timeKeeper3.tsx:269-277 | stopped, no start, empty lists, "00:00:00", accumulated 0, no entry id |
| TimeKeeper3.Timer.HandleDateChange | src/pages/timeKeeper3.tsx:342-358 | the alert is raised exactly for a future date, which changes nothing; any other date becomes the calendar date and clears the start; a cleared picker resets the calendar to `now` |
| TimeKeeper3.Timer.HandleSubmit | src/pages/timeKeeper3.tsx:279-340 | nothing without a start; otherwise the unclamped total in an update or a create, and the id of a saved create recorded |
| TimeKeeper.TruncateToSeconds | src/pages/timeKeeper.tsx:222-223 | the submitted total is a multiple of 1000, at most the elapsed time and less than 1000 below it |
| TimeKeeper.TruncateToSecondsIdempotent | src/pages/timeKeeper.tsx:222-223 | truncating twice is truncating once |
| TimeKeeper.Timer.constructor | src/pages/timeKeeper.tsx:155-160 | stopped, not yet started, nothing counted, no effective start |
| TimeKeeper.Timer.StartDisabled | src/pages/timeKeeper.tsx:295 | Start/Stop is disabled until a user, a project and a rate are selected (timeKeeper3.tsx:425 tests the same) |
| TimeKeeper.Timer.SubmitDisabled | src/pages/timeKeeper.tsx:309 | Submit is disabled while running or while nothing is counted; `HandleSubmit` sends whenever it is enabled |
| TimeKeeper.Timer.HandleStartStop | src/pages/timeKeeper.tsx:162-205 | toggles running. Starting takes `now` as the start only the first time and sets the effective start to `now - pausedTime`. Stopping stores the count in `pausedTime`. Invariant: while running the effective start is the last Start moved back by the count at the last stop |
| TimeKeeper.Timer.Tick | src/pages/timeKeeper.tsx:175-182 | the count becomes `now` minus the effective start, which is the count at the last stop plus the time since the last Start |
| TimeKeeper.Timer.HandleReset | src/pages/timeKeeper.tsx:207-217 | stopped, counts 0, no effective start, selections "", not started, no start |
| TimeKeeper.Timer.HandleSubmit | src/pages/timeKeeper.tsx:219-250 | sends exactly when there is a start: the start instant, an end instant `elapsedTime` later, and the count cut to whole seconds; an enabled Submit always sends |
| TimeTracking.TotalOvercounts | src/pages/timeTracking.tsx:197-205 | after two ticks that counted something, the sum of the ticks' counts (the running total) exceeds the last count (the count shown) |
| TimeTracking.EndTimeAsWritten | src/pages/timeTracking.tsx:306-307 | the end instant the request carries: the start plus the running total |
| TimeTracking.EndTime | src/pages/timeTracking.tsx:268-272 | the end instant the page logs: the start plus the count |
| TimeTracking.TotalOfCounts | src/pages/timeTracking.tsx:197-205 | the running total as the sum of the ticks' counts; stated by `TotalOvercounts` |
| TimeTracking.LastCount | src/pages/timeTracking.tsx:203 | the count shown: the last tick's count, 0 before any |
| TimeTracking.FormatSubmittedTotal | src/pages/timeTracking.tsx:249-254 | the H:MM:SS text of the whole-second count; stated by `FormatSubmittedTotalIsClockText` |
| TimeTracking.TwoTicksOvershoot | src/pages/timeTracking.tsx:306-309 | started at 0 and ticked at 1000 and 2000 ms, the count is 2000 ms; Submit sends end 3000 and total 2000, the corrected Submit end 2000 and total 2000 |
| TimeTracking.FormatSubmittedTotalIsClockText | src/pages/timeTracking.tsx:249-254 | for a non-negative count the H:MM:SS text of the total is the unbounded clock text of timeKeeper3.tsx |
| TimeTracking.Tracker.constructor | src/pages/timeTracking.tsx:30-42 | stopped, no start, all counts 0, no selections |
| TimeTracking.Tracker.SubmitDisabled | src/pages/timeTracking.tsx:459 | Submit is disabled only while nothing is counted; both Submit handlers send whenever it is enabled |
| TimeTracking.Tracker.HandleStartStop | src/pages/timeTracking.tsx:188-233 | toggles running. Every Start overwrites the start with `now` and sets the effective start to `now - pausedTime`. Stop stores the count in `pausedTime`. The running total is untouched |
| TimeTracking.Tracker.Tick | src/pages/timeTracking.tsx:197-205 | the count becomes the time since the effective start and is added, whole, to the running total; the tick's count joins the tick history, whose sum the running total always is |
| TimeTracking.Tracker.HandleReset | src/pages/timeTracking.tsx:355-365 | stopped, elapsed, total and paused 0, no effective start, no ticks counted, selections ""; the start is kept |
| TimeTracking.Tracker.HandleSubmit | src/pages/timeTracking.tsx:239-354 | sends exactly when there is a start: the start, an end `totalElapsedTime` after it (the sum of every tick's count), and the count cut to whole seconds; after two ticks that counted something the span sent is longer than the count; enabled (count not 0) means it sends |
| TimeTracking.Tracker.HandleSubmitCorrected | src/pages/timeTracking.tsx:268-272 | with the end the page logs (start + count), the span sent is the count and the total sent is that span cut to whole seconds, under a second shorter |
| Issues.FirstOccurrences | src/pages/issues2.tsx:72-76 | holds exactly the values of the input |
| Issues.TeamNames | src/pages/issues2.tsx:73-74 | the team name of every issue, in order |
| Issues.FirstOccurrencesOrdered | src/pages/issues2.tsx:72-76 | no duplicates, in the order of first occurrence |
| Issues.UniqueTeams | src/pages/issues2.tsx:72-76 | the `Set`-filling loop yields the distinct team names in first-occurrence order; no data gives none |
| Issues.OfTeam | src/pages/issues2.tsx:80-84 | holds exactly the issues of the team, never more than the input |
| Issues.OfTeamAppend | src/pages/issues2.tsx:80-84 | filtering keeps the original order: it distributes over concatenation |
| Issues.OfTeamIdempotent | src/pages/issues2.tsx:80-84 | filtering twice is filtering once |
| Issues.FilteredIssues | src/pages/issues2.tsx:78-85 | every issue when no (non-empty) team is selected, otherwise exactly the selected team's issues |
| Issues.States | src/pages/issues2.tsx:87-96 | the state of every issue, in order |
| Issues.InState | src/pages/issues2.tsx:87-96 | the issues of one state, in order; stated by `InStateMembers` |
| Issues.GroupedIssues | src/pages/issues2.tsx:87-96 | the keys are the occurring states in creation order, each group holds exactly that state's issues in order, and no group is empty or for a state that does not occur |
| Issues.InStateMembers | src/pages/issues2.tsx:87-96 | a group holds exactly the issues in its state |
| Issues.GroupedIssuesPartition | src/pages/issues2.tsx:87-96 | the group sizes add up to the number of shown issues: each lands in exactly one group |
| Issues.VisibleGroups | src/pages/issues2.tsx:151-158 | the shown keys are among the group keys and never more of them; which ones and in what order is stated by `VisibleGroupsMembers` and `VisibleGroupsAppend` |
| Issues.VisibleGroupsMembers | src/pages/issues2.tsx:151-158 | a key is shown exactly when it is a group key and no team is selected or some issue of its group is the selected team's |
| Issues.VisibleGroupsAppend | src/pages/issues2.tsx:151-158 | the filter keeps the keys' order: it distributes over concatenation |
| Issues.VisibleGroupsKeepsAll | src/pages/issues2.tsx:151-158 | with groups built from the filtered issues, the group filter keeps every group |
| Issues.GroupOfFilteredShown | src/pages/issues2.tsx:151-158 | a non-empty group of the filtered issues passes the `some` test |
| Issues.GroupShown | src/pages/issues2.tsx:151-158 | a group is shown when no team is selected or some issue of it is the selected team's |
| Issues.Board.constructor | src/pages/issues2.tsx:64 | no team selected |
| Issues.Board.SelectTeam | src/pages/issues2.tsx:66-68 | the team becomes the selection |
| Issues.Board.ClearTeamFilter | src/pages/issues2.tsx:69-71 | no selection, so every issue is shown |
| Invoice.TeamIdToNameMap | src/pages/invoice.tsx:87-93 | the keys are exactly the team ids, and each maps to the name of the last team with that id |
| Invoice.TeamDictionary | src/pages/invoice.tsx:87-93 | no dictionary before the teams load; afterwards the dictionary of `TeamIdToNameMap` |
| Invoice.FindTeamId | src/pages/invoice.tsx:95-97 | the team id of the first project with the invoice's project id; nothing exactly when none matches |
| Invoice.ProjectTeamName | src/pages/invoice.tsx:95-97 | nothing while the projects or the invoice are missing; otherwise `FindTeamId` |
| Invoice.TeamNameOf | src/pages/invoice.tsx:98-100 | "Unknown Team" only without a dictionary; with one, a name exactly when the key (or "undefined") is present |
| Invoice.ProjectsWithTeamNames | src/pages/invoice.tsx:102-107 | same length and order, the project's fields kept, each labelled with its team's name |
| Invoice.LabelIsLastTeamName | src/pages/invoice.tsx:87-107 | once the teams have loaded, a project is labelled exactly when some team has its team id, and with the last such team's name |
| Invoice.LastNameIgnoresOtherTeams | src/pages/invoice.tsx:87-93 | appending a team with another id keeps the name an id maps to |
| Invoice.LaterTeamWins | src/pages/invoice.tsx:87-93 | a team appended last is the one whose name its id maps to |
| Invoice.LastNameUnique | src/pages/invoice.tsx:87-93 | an id has at most one last name |
| Invoice.RefetchIffNotSkipped | src/pages/invoice.tsx:72-84 | the effects refetch exactly when the invoice query is not skipped: project, start and end date all chosen |
| WordWrap.Render | src/pages/about.tsx:50-55 | each flushed line is rendered, in order, with a line break |
| WordWrap.FormatText | src/pages/about.tsx:43-68 | the loop emits the flushed lines of the greedy fold, then always a last line without a break, keyed by the word count (services.tsx:89-114 is the same code) |
| WordWrap.WrapKeepsWords | src/pages/about.tsx:44-65 | the words of the lines, in order, are exactly the words of the text |
| WordWrap.WrapLinesFit | src/pages/about.tsx:49-59 | every line of two or more words fits within the limit before its trailing space |
| WordWrap.LongLineIsOneWord | src/pages/about.tsx:49-58 | an emitted line longer than the limit once trimmed holds at most one word |
| WordWrap.OnlyFirstLineEmpty | src/pages/about.tsx:49-65 | every flushed line but the first holds a word, and the last line is never empty |
| WordWrap.FirstWordTooLong | src/pages/about.tsx:49-56 | a first word over the limit flushes an empty first line |
| WordWrap.WrapKeys | src/pages/about.tsx:48-51 | each flushed line's key is the number of words up to and including it |
| People.GetIconPath | src/pages/people.tsx:86-88 | always under "/icons/"; a mapped role gives its own file, and exactly the unmapped roles give the default icon |
| People.CeoIcon | src/pages/people.tsx:76-88 | "CEO" gives "/icons/ceo.svg" |
| People.LowerCaseRoleUnmapped | src/pages/people.tsx:76-88 | the lookup is case sensitive: "ceo" gets the default icon |
| People.MappedIconsDistinct | src/pages/people.tsx:76-83 | two mapped roles never share an icon |
| Bearer.ExtractToken | src/pages/api/organization.ts:7 | the token holds no space; no header or a header without a space gives "" |
| Bearer.ForwardedHeader | src/pages/api/organization.ts:50 | the forwarded header is "Bearer " followed by the token |
| Bearer.TokenIsSecondField | src/pages/api/fetchTeamsFromLinear.ts:7 | whatever the scheme, the token is the second space-separated field |
| Bearer.LaterFieldsIgnored | src/pages/api/profile.ts:8 | fields after the second are dropped |
| Bearer.ForwardedTokenRoundTrip | src/pages/api/fetchTeamsFromLinear.ts:32 | extracting from the forwarded header gives back the same token |
| Bearer.BearerExample | src/pages/api/organization.ts:7 | "Bearer abc" gives "abc" |
| Bearer.OtherSchemeExample | src/pages/api/profile.ts:8 | "Basic xyz" gives "xyz": the scheme is not checked |
| Bearer.ThirdFieldIgnoredExample | src/pages/api/organization.ts:7 | "Bearer a b" gives "a" |
| Bearer.EmptySecondFieldExample | src/pages/api/profile.ts:8 | "Bearer " gives "" |

## Left out

- Network and storage: GraphQL queries and mutations, `fetch`, `localStorage`, and the upstream forwarding in the API handlers. Submit is modelled up to the request it builds. The endpoint's answer is a parameter.
- Payload fields that are passed through unchanged: user, project and rate ids (including `parseFloat`), and `loggedInUser`.
- Scheduling: `setInterval`/`clearInterval`, effect cleanup, and the `setTimeout` calls that clear the success and reset messages. Ticks are explicit calls.
- date-fns and `Date`: `format`, `formatISO`, `parseISO`, `isValid`, and `toISOString().substr(11, 8)`. The elapsed display of timeKeeper.tsx and timeTracking.tsx is not modelled.
- TimeKeeper2.ClockFace: assumes date-fns `format(new Date(0, 0, 0, 0, 0, s), "HH:mm:ss")` is the time of day `s` seconds after midnight. This assumption ignores daylight-saving transitions.
- Time zones and locale: the `getTimezoneOffset` shifts of timeKeeper.tsx and timeTracking.tsx, and `formatDateForDisplay`.
- TimeUtils.FormatTimeFromISOString: takes the `getHours`/`getMinutes`/`getSeconds` fields as parameters. Parsing the ISO string in the local time zone is not modelled.
- Floating point and Intl formatting in invoice.tsx: hours, costs, `toFixed` and `formatCurrency`.
- Browser `alert()` in timeKeeper4.tsx and timeKeeper3.tsx: only the fact that it was raised is returned.
- Console logging everywhere, including timeKeeper3.tsx's error reporting. The rendered markup is left out except for the `disabled` conditions and the issue-group filter.
- The total-time queries of timeKeeper2.tsx and timeKeeper4.tsx: only the skip condition is modelled, and their results are only displayed.
- JavaScript object keys:
  - inherited `Object.prototype` keys ("toString", "constructor") are not modelled in the lookups of people.tsx, issues2.tsx and invoice.tsx;
  - `Object.entries` lists integer-like keys first in ascending order, and the model lists groups in creation order instead.
- WordWrap.FormatText: a string's length counts Unicode characters, while JavaScript's `.length` counts UTF-16 code units, so a text with characters outside the Basic Multilingual Plane (emoji, for instance) may wrap differently; `FirstWordTooLong`, `WrapLinesFit` and `LongLineIsOneWord` hold for the character count.
- Issues.FilteredIssues: states membership but not order. Order is stated by Issues.OfTeamAppend.
- The Board's data loading and the invoice page's project and date pickers are left out. They are plain field assignments with nothing to prove.

## Findings

| source | as written | input that shows it | evidently intended | confidence | as-written member | corrected member |
|---|---|---|---|---|---|---|
| src/pages/timeTracking.tsx:307 | the end instant sent is the start plus `totalElapsedTime`, a running total that adds the whole current count on every tick | started at 0, ticks at 1000 and 2000 ms: the count is 2000 but the total 3000, so the end sent is 1 s past the span while the total sent is 2000 | the end is the start plus `elapsedTime`, as the logged end time at line 272 and timeKeeper.tsx:229 compute it | not executed | TimeTracking.Tracker.HandleSubmit | TimeTracking.Tracker.HandleSubmitCorrected |
