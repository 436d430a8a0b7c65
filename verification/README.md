# stay-productive: a verified model of the routine, progress and pipeline logic

stay-productive is a personal productivity workspace:

- **Today view.** A daily routine of tasks is generated from a weekday template. Unfinished tasks carry over from yesterday. Sub-tasks sit beside the main tasks.
- **DevOps learning path.** Ten videos with cumulative watched minutes.
- **Task-chain tracker.** Today's tasks and notes are classified into three pipelines: Authority, Asset and Revenue.
- **Projects.** Each project has a commit streak and a deployment checklist that gates publishing.
- **Accounts.** Social, professional and job-board accounts with post, proposal and application counters.
- **Month calendar.**
- **Notes.**
- **Legacy app.** An older single-page app with goals, actions, a three-goal daily focus and a daily log of completed actions.

This project models the pure logic underneath those views in Dafny and proves what it promises. The store is an in-memory sequence of immutable records.

The following are passed in as parameters:

- the current date, which is always a valid proleptic-Gregorian `Dates.Date`;
- yesterday's date;
- the current instant;
- the weekday template, for the functions that take it as `template`; `Routine.TodaysTasks`, `Routine.LoadToday`, `Routine.SyncTodaysTemplate` and `Calendar.DayItems` look it up from the date, as the program does;
- a supply of fresh identifiers (`newId: nat -> string`).

Percentages are `Math.round(100 * a / b)` on non-negative integers. They are modelled exactly as `(200a + b) / (2b)`, and are 0 when `b` is 0.

Modules follow the program's structure:

| module | models |
|---|---|
| `Wrappers`, `Seqs`, `Text`, `Percent`, `Dates` | Option/Result, filtering and counting, case-insensitive search and trimming, rounding, calendar dates |
| `Models` | the task, note, video and template records; the learning path; the weekly template |
| `Routine` | today's routine: generation in the store and in the workspace hook, and the manual template sync |
| `Dashboard` | the today page: the main/sub split, routine completion, progress, the sub-task form |
| `Learning` | video progress, the two minute-logging writers, next video, statistics |
| `Chains` | the Authority, Asset and Revenue pipelines and the 7-day rollup |
| `Projects` | commit streaks, status changes and the checklist, in the store and in the page |
| `Accounts` | counters, search, sections and tabs, the account form |
| `Calendar` | month navigation, the day grid, date strings, stored and planned tasks, ratios |
| `Notes` | search, tabs, newest-first order, counts, the note form |
| `LegacyModels`, `LegacyStorage` | the legacy goal, action, daily-focus and daily-log records and their store |

Several places in the program hold two writers for the same record, and they do not always agree. The model keeps both variants and proves where they coincide and where they differ:

- **Routine generation.** The store (`getTodaysTasks`) adds the template plus yesterday's unfinished tasks. The workspace hook (`loadAll`) adds the template only. They write the same tasks exactly when each of yesterday's unfinished tasks has a template title.
- **Logged minutes.** The store leaves the completed flag as it was below the duration. The log-minutes form recomputes the flag. They agree on every record whose flag is consistent with its minutes, and they differ on a stale flag.
- **Commit streaks.** The store restarts the streak at 1 after a gap. The projects page always adds 1.
- **Checklist toggle.** The store toggles the first item with the id. The page toggles every item with the id. They agree when item ids are unique.
- **Status change.** The store installs six checklist items on entering Deployment Ready and refuses Published while any item is unchecked. The page installs five items, and only into an absent or empty checklist, with no gate. For every other change the two write the same project.
- **Legacy action update.** The legacy store's `updateAction` merges the fields directly. An update without a status therefore clears `completedAt` even on a completed action. `Action.update` leaves it alone.

## Model

| member | source | states |
|---|---|---|
| Routine.FromTemplate | lib/storage.ts:72-83 | one task per template entry, in order: dated today, not completed, not a sub-task, with the entry's title, description, category and priority, and a fresh id |
| Routine.FromTemplateTitles | lib/storage.ts:72-83 | a generated task has a given title exactly when the template holds an entry with that title |
| Routine.CarryOver | lib/storage.ts:86-95 | each carried task is the original task with only its id and date replaced |
| Routine.Generated | lib/storage.ts:72-97 | the new routine begins with the template tasks in template order, all dated today |
| Routine.GeneratedCarriedSound | lib/storage.ts:85-97 | every task after the template part is a copy of one of yesterday's unfinished tasks whose title is not in the template |
| Routine.GeneratedCarriedComplete | lib/storage.ts:85-97 | every one of yesterday's unfinished tasks with a non-template title is carried into the new routine |
| Routine.GeneratedNoDuplicateTitles | lib/storage.ts:85-97 | no carried task repeats a template title, so a title in both lists appears once, as the template task |
| Routine.GeneratedIds | lib/storage.ts:73-95 | the generated tasks take the fresh ids in sequence, template tasks first |
| Routine.GetTodaysTasks | lib/storage.ts:55-107 | when anything is dated today, the store is unchanged and those tasks are returned with their note counts; otherwise the generated routine is appended to the store and shown with zero note counts |
| Routine.WithNoteCounts | lib/storage.ts:63-68 | each task keeps its identity and gains the number of notes attached to it |
| Routine.GetTodaysTasksIdempotent | lib/storage.ts:61-69 | loading a second time neither writes nor changes the day's list |
| Routine.GetTodaysTasksFreshIds | lib/storage.ts:73-95 | with distinct fresh ids, today's new tasks have pairwise distinct ids that clash with no stored task |
| Routine.LoadAll | hooks/useVibeCode.ts:48-73 | the fetched tasks come first and unchanged; nothing is added when something is dated today; afterwards something is dated today unless the template is empty |
| Routine.LoadAllTemplateOnly | hooks/useVibeCode.ts:49-72 | with nothing dated today, exactly one task per template entry is appended, in order, with no carry-over |
| Routine.LoadAllIdempotent | hooks/useVibeCode.ts:48-73 | loading the result again changes nothing |
| Routine.SyncTemplate | app/page.tsx:76-102 | an unconfirmed sync leaves the tasks untouched |
| Routine.SyncTodaysTemplate | app/page.tsx:76-102 | with the weekday's template: a confirmed sync leaves that template's tasks, never none, as today's main tasks and keeps every other task in order; an unconfirmed one changes nothing |
| Routine.TodaysTasks | lib/storage.ts:55-107 | with the weekday's template: on a day with nothing dated, the shown routine starts with that template's tasks, never none; afterwards something is dated today |
| Routine.LoadToday | hooks/useVibeCode.ts:48-73 | with the weekday's template, something is dated today after loading |
| Routine.GetTodaysTasksVersusLoadAll | lib/storage.ts:55-107 | the store's and the hook's routine agree on a day that has tasks; on an empty day the store's is never shorter, and equal exactly when each of yesterday's unfinished tasks has a template title |
| Routine.SyncTemplateReplacesTodaysMain | app/page.tsx:80-99 | after a confirmed sync, today's main tasks are exactly the template tasks; sub-tasks and other days' tasks are kept, in order |
| Dashboard.Split | app/page.tsx:47-54 | each of the four lists holds only today's tasks of its own kind (main or sub, open or done) |
| Dashboard.SplitPartitionsToday | app/page.tsx:47-54 | the four lists together hold exactly today's tasks, each as often as it is stored |
| Dashboard.IsRoutineCompleteIff | app/page.tsx:56-58 | the routine is complete exactly when every open main task of today is excused by freelance mode with a Freelancing or Lead category |
| Dashboard.DayProgress | hooks/useVibeCode.ts:124-135 | completed counts today's completed tasks and total counts today's tasks; the percentage is the rounded share of the two, at most 100, and 0 when there are no tasks |
| Dashboard.DayProgressFullIff | hooks/useVibeCode.ts:124-135 | with fewer than 200 tasks today, the percentage is 100 exactly when all are completed |
| Dashboard.IsDevOpsVideoIff | app/page.tsx:397 | a card counts as a DevOps video exactly when its category is DevOps and its lower-cased title contains "video" |
| Dashboard.TemplateVideoTaskRecognised | app/page.tsx:397 | the template's "DevOps video" tasks are recognised as videos |
| Dashboard.SubmitSubTask | app/page.tsx:832-842 | a blank title is refused; otherwise the new task is a trimmed-title, low-priority, open sub-task dated today |
| Learning.FindVideo | lib/storage.ts:586-588 | the lookup fails exactly when no path video has the id; a found video is in the path |
| Learning.FindProgress | lib/storage.ts:589 | the lookup yields the first record for the video, and fails exactly when there is none |
| Learning.LogVideoMinutes | lib/storage.ts:584-613 | an id outside the path is an error; otherwise the saved minutes never exceed the duration, a new record is appended and an existing one is replaced in place |
| Learning.LogVideoMinutesFirst | lib/storage.ts:601-609 | a first record holds the minutes clamped to the duration, and is completed exactly when the minutes reach it |
| Learning.LogVideoMinutesAgain | lib/storage.ts:592-600 | a later log adds the minutes; reaching the duration clamps and completes, and below it the completed flag is left as it was |
| Learning.StoreLogsCappedSum | lib/storage.ts:592-609 | on a record consistent with its flag, or none, the store logs the capped sum, completed exactly at the duration |
| Learning.LogVideoMinutesKeepsClamp | lib/storage.ts:592-609 | if no record exceeds its video's duration before a log, none does after |
| Learning.LogVideoMinutesKeepsConsistent | lib/storage.ts:592-609 | a record whose flag matches its minutes still matches after a log |
| Learning.Upsert | lib/db.ts:154-157 | after saving, the record is the one found for its video, and every record of another video is kept |
| Learning.SubmitLogMinutes | app/page.tsx:753-776 | the form saves nothing for a missing or non-positive minute count or an unknown video |
| Learning.SubmitLogMinutesValue | app/page.tsx:755-772 | the form saves the upsert of one record: the current minutes plus the new ones, clamped to the duration, completed exactly at the duration |
| Learning.SubmitLogMinutesSaves | app/page.tsx:755-772 | the saved record holds the new total clamped to the duration, and is completed exactly when the total reaches the duration |
| Learning.WritersAgreeWhenConsistent | lib/storage.ts:584-613 | when the stored flag matches the stored minutes, the store and the form produce the same records |
| Learning.WritersDisagreeOnStaleFlag | app/page.tsx:762-765 | with a stale completed flag and a total below the duration, the store keeps the video completed while the form marks it incomplete |
| Learning.NextVideo | hooks/useVibeCode.ts:113-121 | the first path video without a completed record, and none exactly when every path video is completed |
| Learning.CompletedVideos | hooks/useVibeCode.ts:90-107 | no more completed videos than the path holds |
| Learning.CompletedVideosAll | hooks/useVibeCode.ts:90-107 | every path video is counted as completed exactly when each has a completed record |
| Learning.NextVideoNoneIffAllCompleted | hooks/useVibeCode.ts:90-121 | there is no next video exactly when the completed count equals the number of videos |
| Learning.VideoStats | hooks/useVibeCode.ts:90-111 | the total counts the path's videos and minutes; the watched minutes and completed videos are summed over the path's first records; the percentage is the rounded share of watched minutes, and 0 when the path has no minutes |
| Learning.VideoStatsOfLearningPath | lib/models.ts:228-239 | for the DevOps learning path the statistics count 10 videos and 1870 minutes |
| Learning.WatchedMinutesBounds | hooks/useVibeCode.ts:96-102 | with every record clamped, the watched minutes lie between 0 and the path's total |
| Learning.VideoStatsPercentageBounds | hooks/useVibeCode.ts:109 | with clamped records and distinct video ids, the percentage lies between 0 and 100 |
| Learning.LearningPathPercentageBounds | hooks/useVibeCode.ts:109 | for the DevOps learning path the percentage lies between 0 and 100 |
| Chains.AuthorityChain | app/task-chains/tracking/page.tsx:122-131 | total counts today's Authority tasks and done the completed ones; the percentage is their rounded share, at most 100, and 0 without Authority tasks |
| Chains.AuthorityFullIff | app/task-chains/tracking/page.tsx:122-124 | with fewer than 200 Authority tasks, the pipeline is full exactly when one exists and all are completed |
| Chains.AuthoritySteps | app/task-chains/tracking/page.tsx:127-130 | steps 1 and 4 are idle without AINews or OnlinePresence tasks, partial when none is completed, and done otherwise; steps 2 and 3 are equal, never partial, and done exactly when an AINews task is completed |
| Chains.AuthorityStep5 | app/task-chains/tracking/page.tsx:131 | step 5 is done at two or more completed OnlinePresence tasks, partial at one and idle at none |
| Chains.AssetChain | app/task-chains/tracking/page.tsx:134-148 | four flags; the percentage is 25 per flag set, so at most 100 |
| Chains.AssetFlags | app/task-chains/tracking/page.tsx:137-141 | the flags mean: a DevOps task completed; a DevOps note written; a DevOps note holding "summary:"; a completed DevOps practice task or two completed DevOps tasks |
| Chains.AssetSteps | app/task-chains/tracking/page.tsx:143-148 | step i is done exactly when flag i is set; only step 0, the first, can be partial, exactly when DevOps tasks exist and none is completed |
| Chains.RevenueChain | app/task-chains/tracking/page.tsx:151-161 | the percentage is the rounded share of completed Revenue tasks, at most 100, and 0 without Revenue tasks; leads added counts today's Lead tasks, and proposals and follow-ups count the completed Revenue tasks of each kind; the pipeline is active exactly when a Freelancing or Lead task is completed |
| Chains.RevenueFullIff | app/task-chains/tracking/page.tsx:151-161 | with fewer than 200 Revenue tasks, the pipeline is full exactly when one exists and all are completed |
| Chains.RevStep | app/task-chains/tracking/page.tsx:151-161 | done exactly when a matching task is completed, idle exactly when nothing matches, partial otherwise |
| Chains.RevenueSteps | app/task-chains/tracking/page.tsx:305-317 | the revenue pipeline shows four steps |
| Chains.RevenueStepsPlain | app/task-chains/tracking/page.tsx:305-313 | step 1 follows the Lead tasks and step 3 follows the Freelancing "follow" tasks, so an open follow-up alone makes step 3 partial |
| Chains.RevenueStep2 | app/task-chains/tracking/page.tsx:309 | step 2 follows "proposal" tasks, falling back to "send" tasks only when there is no proposal |
| Chains.RevenueStep4 | app/task-chains/tracking/page.tsx:317 | step 4 follows "close" tasks, falling back to the Lead tasks only when there is no close task |
| Chains.ActivityOnIff | app/task-chains/tracking/page.tsx:164-176 | a day's Authority mark needs some Authority task with all completed; its Asset mark needs a DevOps task and a DevOps note of that day; its Revenue mark needs a completed Revenue task |
| Chains.Week | app/task-chains/tracking/page.tsx:164-176 | seven days, oldest first, the last of which is today and the only one marked as today |
| Chains.WeekTodayAgrees | app/task-chains/tracking/page.tsx:122-176 | today's cell of the rollup agrees with today's pipeline figures |
| Chains.AllDoneIff | app/task-chains/tracking/page.tsx:178 | all pipelines are at 100 exactly when every Authority and Revenue task is completed (with at least one of each) and all four Asset flags are set |
| Dates.DaysInMonth | app/calendar/page.tsx:32 | between 28 and 31 days, 29 exactly for February of a leap year |
| Dates.Next | app/task-chains/tracking/page.tsx:11-17 | the following calendar day is a valid date |
| Dates.PrevNext | lib/storage.ts:49-53 | yesterday and tomorrow are inverse steps |
| Dates.DayNumberNext | app/task-chains/tracking/page.tsx:11-17 | the next day is one day later |
| Dates.DayNumberPrev | lib/storage.ts:49-53 | yesterday is one day earlier |
| Dates.WeekdayNext | lib/models.ts:495-498 | the weekday advances by one, modulo 7, from one day to the next |
| Dates.Last7Days | app/task-chains/tracking/page.tsx:11-17 | seven valid dates, six days ago through today |
| Dates.Last7DaysConsecutive | app/task-chains/tracking/page.tsx:11-17 | each date is the day after the one before it, and all seven are distinct |
| Dates.TimeOrdersDays | app/notes/page.tsx:40 | an instant on an earlier day has an earlier time |
| Dates.WeekNumber | lib/models.ts:510-515 | the week number lies between 0 and 52 |
| Dates.WeekNumberMonotone | lib/models.ts:510-515 | within one year, a later instant never has a smaller week number |
| Models.CurrentWeekday | lib/models.ts:495-498 | the weekday name is one of the seven names |
| Models.CurrentWeekdayKnownDays | lib/models.ts:495-498 | 1970-01-01 is a Thursday and 2024-01-01 a Monday |
| Models.WeeklyTemplate | lib/models.ts:242-461 | a name outside the seven weekdays has no entries |
| Models.TemplateEveryWeekday | lib/models.ts:242-461 | every weekday the clock can produce has a non-empty template |
| Models.LearningPathShape | lib/models.ts:228-239 | ten videos with positive durations, distinct ids and order equal to position plus one |
| Models.LearningPathTotal | lib/models.ts:228-239 | the path's durations sum to 1870 minutes |
| Percent.RoundPercent | hooks/useVibeCode.ts:109 | the result is the nearest integer to 100a/b with halves rounded up, and 0 when b is 0 |
| Percent.RoundPercentMonotone | hooks/useVibeCode.ts:134 | more done never gives a smaller percentage |
| Percent.RoundPercentAtMost100 | hooks/useVibeCode.ts:134 | a part of a whole is at most 100 percent |
| Percent.RoundPercentOfWhole | hooks/useVibeCode.ts:134 | the whole is exactly 100 percent |
| Percent.RoundPercentFullIff | app/task-chains/tracking/page.tsx:124 | the percentage reaches 100 exactly when at most half a two-hundredth of the whole is missing |
| Percent.RoundPercentFullSmall | app/task-chains/tracking/page.tsx:124 | below 200 items, the percentage reaches 100 exactly when everything is done |
| Percent.RoundPercentRoundsUpTo100 | app/task-chains/tracking/page.tsx:124 | 199 of 200 done already rounds to 100 |
| Projects.LogProjectCommit | lib/storage.ts:377-398 | an unknown project or a second commit on the same day changes nothing; a commit the day after the last one extends the streak, any other restarts it at 1; the last commit date becomes today and nothing else changes |
| Projects.LogProjectCommitIdempotent | lib/storage.ts:386 | logging twice on the same day is logging once |
| Projects.LogProjectCommitDaily | lib/storage.ts:377-398 | committing on n consecutive days after a gap leaves a streak of n, last committed on the final day |
| Projects.CommitRunExtends | lib/storage.ts:377-398 | a run of commits, each on a different day from the one before it and with that day as yesterday, adds one to the streak per day, keeps the project's position and the store's size, and leaves the last day as the last commit date |
| Projects.Unchecked | lib/storage.ts:409-416 | one unchecked item per caption, in order |
| Projects.UpdateProjectStatus | lib/storage.ts:400-426 | entering Deployment Ready installs the six unchecked store items; Published is refused while the checklist has an unchecked item; other projects and the other fields are unchanged |
| Projects.PublishGate | lib/storage.ts:418-421 | a project only becomes Published with a finished checklist |
| Projects.ToggleProjectChecklistItem | lib/storage.ts:428-441 | only the first item with the id flips; length, order and the other items are kept; without a checklist nothing changes |
| Projects.PageLogCommit | app/projects/page.tsx:72-84 | a second commit on the same day is ignored; otherwise the streak grows by one whatever the gap |
| Projects.CommitWritersCompare | app/projects/page.tsx:72-84 | after yesterday's commit the store and the page agree; after a gap the store restarts at 1 while the page keeps counting |
| Projects.PageStatusChangeTwice | app/projects/page.tsx:54-70 | repeating a status change only moves the update time |
| Projects.StatusWritersCompare | app/projects/page.tsx:54-70 | the page and the store write the same project except when publishing over an unticked item, which only the store refuses, and when entering Deployment Ready, where each installs its own checklist |
| Projects.PageStatusChange | app/projects/page.tsx:54-70 | only the status, the update time and the checklist change; the page's five unchecked items are installed only for Deployment Ready over an absent or empty checklist; otherwise the checklist is kept |
| Projects.PageToggleChecklistItem | app/projects/page.tsx:86-96 | every item with the id flips, the rest are kept in order; without a checklist nothing is saved |
| Projects.PageToggleTwice | app/projects/page.tsx:86-96 | toggling the same item twice restores the checklist |
| Projects.TogglesAgreeOnUniqueIds | app/projects/page.tsx:86-96 | with unique item ids, the store's toggle and the page's toggle give the same checklist |
| Projects.FilterByStatus | app/projects/page.tsx:17-19 | "All" keeps every project; a status keeps only projects with that status |
| Projects.FilterByStatusExact | app/projects/page.tsx:17-19 | a project is listed exactly when it is stored and has the chosen status |
| Accounts.SetCount | lib/storage.ts:815-834 | the chosen counter takes the new value and the other counters are kept |
| Accounts.Increment | lib/storage.ts:815-822 | the counter grows by one only on an account of the counter's type; every other account is unchanged |
| Accounts.Decrement | lib/storage.ts:824-834 | the counter shrinks by one only on an account of the counter's type whose count is positive; every other account is unchanged |
| Accounts.StoreCountsStayNonNegative | lib/storage.ts:815-876 | counts that are never negative stay so under increment and decrement |
| Accounts.DecrementUndoesIncrement | lib/storage.ts:815-834 | an increment followed by a decrement restores every count |
| Accounts.PageUpdateCount | app/accounts/page.tsx:23-32 | an unknown id saves nothing; otherwise the count becomes the current count plus the change, floored at 0, with a missing count read as 0 |
| Accounts.CounterWritersAgree | app/accounts/page.tsx:23-32 | on an account of the right type, the page's +1 and -1 give the store's increment and decrement |
| Accounts.Search | app/accounts/page.tsx:63-66 | every listed account matches the term in its name or username, ignoring case |
| Accounts.SearchEmptyTerm | app/accounts/page.tsx:63-66 | the empty term keeps every account |
| Accounts.Section | app/accounts/page.tsx:127 | a section lists only accounts of its own type |
| Accounts.SectionExact | app/accounts/page.tsx:63-66 | an account appears in a section exactly when it is stored, matches the search and has the section's type |
| Accounts.JobBoardTabExact | app/accounts/page.tsx:138 | a job board appears under a tab exactly when its category is that tab, a missing category counting as Remote |
| Accounts.ProfessionalTabExact | app/accounts/page.tsx:226 | a professional account appears under a tab exactly when its category is that tab, a missing category counting as Global |
| Accounts.SubmitAccount | app/accounts/page.tsx:640-682 | an empty name, username or url is refused; an edit keeps the account's own type, its id and its counters; the platform is the one picked for the type, and each category is set only for its own account type |
| Accounts.SubmitAccountResubmit | app/accounts/page.tsx:640-682 | submitting the same form over the account it produced gives that account back unchanged |
| Calendar.PrevMonth | app/calendar/page.tsx:37 | the month before, wrapping from January to December of the previous year |
| Calendar.NextMonth | app/calendar/page.tsx:38 | the month after, wrapping from December to January of the next year |
| Calendar.PrevNextMonth | app/calendar/page.tsx:37-38 | the two buttons undo each other |
| Calendar.MonthCells | app/calendar/page.tsx:40-48 | the grid holds as many blanks as the first weekday, then days 1 to the month's length in order |
| Calendar.MonthGrid | app/calendar/page.tsx:32-48 | every day of the month appears; each day sits in the column of its weekday; blanks only occupy the first row |
| Calendar.ColumnIsWeekday | app/calendar/page.tsx:33 | a day's weekday is the first day's weekday advanced by the day's offset |
| Calendar.DateString | app/calendar/page.tsx:96 | the year, a dash, the two-digit month, a dash and the two-digit day; ten characters for four-digit years |
| Calendar.ParseDateStringRoundTrip | app/calendar/page.tsx:96 | reading a cell's date string gives back the date |
| Calendar.DateStringInjective | app/calendar/page.tsx:96-97 | two valid dates have the same string exactly when they are equal |
| Calendar.Planned | app/calendar/page.tsx:104-112 | one open, planned item per template entry, with the entry's fields and the id "planned-" date "-" title |
| Calendar.DayItems | app/calendar/page.tsx:97-112 | with the template of the cell's weekday, every cell shows something: the day's stored tasks, or else that template as a plan |
| Calendar.DayItemsFrom | app/calendar/page.tsx:97-112 | a day with stored tasks shows exactly those; an empty day shows the planned template |
| Calendar.PlannedMatchesLoader | app/calendar/page.tsx:104-112 | a planned day shows the same tasks, apart from ids, that loading the routine on that day would create |
| Calendar.PlannedIdsDistinct | app/calendar/page.tsx:107 | entries with different titles get different planned ids |
| Calendar.CellRatio | app/calendar/page.tsx:156-166 | a ratio is shown exactly for non-empty days; done counts the finished items of the day, and the percentage is the rounded share of the total, at most 100 |
| Calendar.PlannedCellRatio | app/calendar/page.tsx:156-166 | a planned day shows 0 of its entries done and 0 percent |
| Calendar.Efficiency | app/calendar/page.tsx:197-206 | done counts the completed stored tasks of every day; the percentage is their rounded share, at most 100, and 0 without tasks |
| Calendar.EfficiencyFullIff | app/calendar/page.tsx:197-206 | with fewer than 200 tasks, the efficiency is 100 exactly when every task is completed |
| Notes.MatchesSearchIff | app/notes/page.tsx:35-36 | a note matches exactly when the lower-cased term occurs in its lower-cased content, or in its lower-cased video name when it has one |
| Notes.EmptySearchShowsTab | app/notes/page.tsx:35-39 | with the empty search, a note is shown exactly when it matches the tab |
| Notes.SortNewestFirst | app/notes/page.tsx:40 | the same notes, ordered from newest to oldest creation time |
| Notes.Matching | app/notes/page.tsx:35-39 | every kept note matches both the search and the tab |
| Notes.Visible | app/notes/page.tsx:35-40 | the matching notes, each as often as stored, newest first |
| Notes.VisibleExact | app/notes/page.tsx:35-40 | a note is listed exactly when it is stored and matches the search and the tab |
| Notes.EmptySearchAllNotes | app/notes/page.tsx:35-40 | the empty search on "All" lists every stored note |
| Notes.TabCount | app/notes/page.tsx:98 | a tab's count never exceeds the number of notes, and "All" counts every note |
| Notes.TypeCountsSum | app/notes/page.tsx:98-111 | the seven type counts add up to the "All" count |
| Notes.SubmitNote | app/notes/page.tsx:236-250 | blank content is refused; otherwise the note holds the trimmed content, and a video name and timestamp exactly when it is a DevOps note |
| Notes.SubmittedNoteListed | app/notes/page.tsx:236-250 | a new note is listed under its own tab and under "All" for any term its content contains |
| Text.Trim | app/page.tsx:833 | the result is a contiguous piece of the input with only whitespace cut from both ends, and neither end of it is whitespace |
| Text.TrimEmptyIffBlank | app/page.tsx:833 | trimming leaves nothing exactly when the input is all whitespace |
| Text.ContainsIff | app/notes/page.tsx:36-37 | the substring test holds exactly when the term occurs at some position |
| Text.EmptyTermMatches | app/notes/page.tsx:36-37 | the empty term is contained in every text |
| Text.Pad2 | app/calendar/page.tsx:96 | two digits for numbers below 100, reading back as the number |
| Text.ParseNatToString | app/calendar/page.tsx:96 | the decimal string of a number reads back as the number |
| LegacyModels.UpdateGoal | js/models.js:18-23 | each given field is written, each absent field kept, and the update time stamped |
| LegacyModels.UpdateGoalPartial | js/models.js:18-23 | an update giving no field only stamps the time; applying the same changes twice is applying them once |
| LegacyModels.UpdateGoalOverwrites | js/models.js:18-23 | an update giving every field does not depend on the goal's old title, category or status |
| LegacyModels.UpdateAction | js/models.js:41-52 | Completed keeps an existing completion time or stamps now; any other given status clears it; without a status both are kept; other fields change only when given |
| LegacyModels.MarkCompleted | js/models.js:54-57 | the action becomes Completed at now, and nothing else changes |
| LegacyModels.MarkIncomplete | js/models.js:59-62 | the action becomes In Progress with no completion time, and nothing else changes |
| LegacyModels.ActionChangesKeepCoherent | js/models.js:41-62 | a completion time is recorded exactly for completed actions, before and after any of the three changes |
| LegacyModels.CompletingTwiceKeepsFirstTime | js/models.js:44-47 | completing an already completed action keeps its first completion time |
| LegacyModels.SetGoals | js/models.js:71-76 | more than three ids fail; otherwise the ids replace the list |
| LegacyModels.AddGoal | js/models.js:78-85 | a focus already holding three goals fails; otherwise the id is present afterwards, appended only when new |
| LegacyModels.RemoveGoal | js/models.js:87-89 | the id is gone afterwards |
| LegacyModels.RemoveGoalKeepsOthers | js/models.js:87-93 | every other id is held afterwards exactly when it was held before |
| LegacyModels.FocusOperationsKeepValid | js/models.js:71-89 | adding and removing keep a focus of at most three distinct goals; setting keeps the cap |
| LegacyModels.AddCompletedAction | js/models.js:111-116 | the id is present afterwards; a present id changes nothing; a new one is appended and the update time stamped |
| LegacyModels.AddCompletedActionIdempotent | js/models.js:111-116 | adding an action twice is adding it once |
| LegacyModels.AddCompletedActionDistinct | js/models.js:111-116 | the log never holds an id twice |
| LegacyStorage.DeleteGoal | js/storage.js:89-99 | no goal with the id and no action of that goal remain; focus and logs are kept |
| LegacyStorage.DeleteGoalKeepsOthers | js/storage.js:89-99 | a goal or action survives exactly when it does not belong to the deleted goal |
| LegacyStorage.GetDailyFocus | js/storage.js:163-167 | the stored focus for the date, or an empty focus for that date when none is stored |
| LegacyStorage.SaveDailyFocus | js/storage.js:169-180 | the saved focus is present, every focus of another date is kept, and nothing else is added |
| LegacyStorage.SaveDailyFocusUpsert | js/storage.js:169-180 | at most one focus per date is kept, and reading the saved date gives the saved focus |
| LegacyStorage.GetDailyLog | js/storage.js:193-197 | the stored log for the date, or an empty log for that date |
| LegacyStorage.SaveDailyLog | js/storage.js:199-215 | every kept log is at most 90 days old |
| LegacyStorage.SaveDailyLogUpsert | js/storage.js:199-215 | at most one log per date; the saved log and every recent log of another date are kept |
| LegacyStorage.AddCompletedActionToLog | js/storage.js:217-223 | an id already in today's log changes nothing; otherwise today's log with the id appended is saved, and only recent logs are kept |
| LegacyStorage.AddCompletedActionToLogOnce | js/storage.js:217-223 | after adding, today's log holds the id, and never twice |
| LegacyStorage.StoreUpdateAction | js/storage.js:126-145 | an unknown id is reported and changes nothing; a first completion stamps now and logs the id; any update without the Completed status clears the completion time |
| LegacyStorage.StoreUpdateDiffersWithoutStatus | js/storage.js:126-145 | with a status the store's update is the action's own update; without one it also clears the completion time |
| LegacyStorage.ToggleActionComplete | js/storage.js:153-160 | an unknown id is reported; Completed becomes In Progress and any other status becomes Completed |
| LegacyStorage.ToggleKeepsCoherent | js/storage.js:153-160 | toggling keeps the completion time in step with the status |
| LegacyStorage.GoalActions | js/storage.js:115-118 | only actions of the goal are returned |
| LegacyStorage.GetGoalStats | js/storage.js:263-277 | each status count counts the goal's actions in that status, at most the goal's action count; the rate is the rounded share of completed actions, at most 100, and 0 without actions |
| LegacyStorage.GoalStatsPartition | js/storage.js:263-277 | the three status counts add up to the total; below 200 actions the rate is 100 exactly when all are completed |
| LegacyStorage.GetWeeklyProgress | js/storage.js:279-300 | seven entries, six days ago through today, with 0 for a day without a log |
| LegacyStorage.WeeklyProgressCounts | js/storage.js:279-300 | a day with a log counts that log's completed actions |

## Left out

- Persistence is left out. This covers the Supabase client, localStorage, JSON parsing and the data migration. The store is an in-memory sequence, and the database upsert on a video id is modelled as `Learning.Upsert`.
- Clocks are parameters. The current date, yesterday and the current instant are passed in, and yesterday is the calendar day before today.
- Time zones and daylight saving are not modelled. Dates and instants are UTC, and an instant is a valid date plus milliseconds within that day.
- Identifier generation is not modelled. `crypto.randomUUID` and `generateId` become the parameter `newId`, and distinctness of fresh ids is a precondition where it matters.
- Parallel writes and React state timing are not modelled, because the model is sequential.
- Floating point is not modelled. Every `Math.round(a / b * 100)` is exact integer rounding with halves rounded up. With non-negative operands this agrees with the program except where float error would tip a tie.
- `Routine.GetTodaysTasks`, `Routine.LoadAll`, `Routine.SyncTemplate` and `Calendar.DayItemsFrom` take the template as a parameter, so their contracts hold for any template. The program always passes `WEEKLY_TEMPLATE[weekday] || []`; `Routine.TodaysTasks`, `Routine.LoadToday`, `Routine.SyncTodaysTemplate` and `Calendar.DayItems` apply them to that lookup, `Models.WeeklyTemplate(Models.CurrentWeekday(d))`.
- `Routine.SyncTemplate`: for any template; `Routine.SyncTodaysTemplate` states the sync with the weekday's template.
- `Calendar.DayItemsFrom`: for any template; `Calendar.DayItems` states the cell with the template of the cell's weekday.
- Lower-casing covers ASCII letters only. Unicode case mapping is not modelled.
- Whitespace for trimming is the ECMAScript whitespace and line-terminator set. The characters are listed in `Text.IsWhite`.
- `Calendar.DateString`: the year is written as `String(year)`. This matches the ISO form used for stored dates only for years 1000 to 9999, which `Calendar.DateString` states as a 10-character result.
- Parsing of user input (`parseInt`, form fields) is not modelled. The log-minutes form receives the already parsed minutes as an `Option<int>`.
- `Notes.SortNewestFirst`: the order among notes created at the same instant is not stated, because the program relies on the engine's sort.
- Notes are compared on valid creation instants (`Notes.Stamped`), because a malformed timestamp makes the program's comparison `NaN`.
- `LegacyStorage.SaveDailyLog`: the 90-day cutoff compares the log date's midnight with now minus 90 days, in whole milliseconds.
- Reporting and seeding are left out: `generateWeeklyReflection`, `cleanupOldData`, the intelligence-source weekly reset and default-account seeding. They are bulk reference data, locale formatting or wall-clock arithmetic.
- The generic object-merge updates (`updateGoal`, `updateProject`, `updateAccount`), `DailyLog.update`, the legacy `Project` class and import/export are left out. They copy fields without logic of their own.
- Step statuses are stated through the ghost predicate `Chains.Detects`: idle without candidates, partial when none is completed, done otherwise.
- The following are rendering only and are left out:
  - the chart bar heights;
  - the tutorial, login, signup, documents and AI-intelligence pages;
  - the sidebar, theme toggle, layout and the legacy HTML components.
