# Study Buddy, modelled in Dafny

Study Buddy is a Next.js study planner. A pasted syllabus goes to a language
model, which turns it into quizzes, assignments and exams. Those tasks are
saved to a Supabase table, shown on a drag-and-drop board and on dashboard
cards, and synced to Google Calendar. The app also has a focus timer and a
site blocker.

This project models the logic of that app and proves what it promises:

- the calendar-sync library: event mapping, `addOneDay`, the reminder
  setting, the retrying dispatcher and the worker pool of the batch;
- the task board: deriving a task's status from its row, the optimistic
  status change and edit with restore on failure, the drag-end guards,
  selection, filter/sort/group, bulk delete and the sync input;
- the smaller helpers: the reminder-preference store, JSON extraction and
  schema rules for the model's reply, the completion streak and dashboard
  counts, the block-list state machine, the focus timer, the save-error
  classifier, the manual add dialog, the per-day views, the relative-date
  labels and the greeting.

## How the model is built

Network calls are not performed. Each call to Supabase, OpenAI or Google is
a parameter holding what that call returned:

- `DbResult` for a write;
- `QueryResult` for a select;
- a `FetchStep` script for the calendar service;
- an `LlmReply` for the model.

Likewise:

- the clock is a parameter (`today` as a `Dates.Date`, `now` in
  milliseconds);
- the relative-date helpers take the whole-day difference as an integer;
- `JSON.parse` and `new URL(...).origin` are function parameters.

Components that change their state in place are classes with `modifies`
clauses:

- `TaskBoard.Board`;
- `AddTask.Dialog`;
- `SyllabusParser.Panel`;
- `FocusBlocker.Blocker`;
- `FocusTimer.Timer`;
- `ReminderPrefs.ReminderStore`;
- `GoogleCalendar.WorkerPool`, whose `results` and worker states are arrays.

Loops of the source are methods with loop invariants:

- `fetchWithRetry`;
- `computeStreak`;
- `byDate`;
- `grouped`.

Pure helpers are functions, with lemmas stating their properties.

The shared modules are:

- `Common`: `Option`, the shapes a thrown value can take (`JsError`), `Filter`;
- `Text`: trim, case mapping, `indexOf`, `String(n)` and the JavaScript
  string order;
- `Dates`: Gregorian calendar arithmetic and the `YYYY-MM-DD` day key;
- `Week`: the seven-day view and the generic `byDate` grouping used by two
  cards.

## Model

| member | source | states |
|---|---|---|
| `Common.RoundDiv` | src/components/FocusTimer.tsx:28 | `Math.round(n / d)` for an even divisor is the integer nearest to n/d, halves rounded up |
| `Text.Trim` | src/components/TasksBoard.tsx:647 | `trim()` gives a result that is empty exactly when the text is all white space, and otherwise starts and ends with a non-space |
| `Text.TrimIsSlice` | src/components/TasksBoard.tsx:647 | what `trim()` keeps is a slice of the text, with only white space cut off before and after it |
| `Text.ToLower` | src/components/TasksBoard.tsx:94 | `toLowerCase()` keeps the length and lowers each character (ASCII letters) |
| `Text.ToUpper` | src/lib/googleCalendar.ts:96 | `toUpperCase()` keeps the length and raises each character (ASCII letters) |
| `Text.IndexOf` | src/app/actions/parseSyllabus.ts:25 | `indexOf(c)` is -1 exactly when `c` is absent, else the first position holding `c` |
| `Text.LastIndexOf` | src/app/actions/parseSyllabus.ts:26 | `lastIndexOf(c)` is -1 exactly when `c` is absent, else the last position holding `c` |
| `Text.IntValueOfIntToString` | src/lib/reminderPrefs.ts:31 | `Number(String(i))` gives back `i` for every integer |
| `Text.Pad2Digits` | src/components/DashboardKpis.tsx:16-17 | `padStart(2, "0")` of a number below 100 is two digits that read back as the number |
| `Text.LexLessDigits` | src/components/TasksBoard.tsx:385 | on digit strings of equal length the string order is the numeric order |
| `Dates.NextDay` | src/lib/googleCalendar.ts:85 | the day after a real date is a real date after it |
| `Dates.NextDayIsImmediate` | src/lib/googleCalendar.ts:85 | no real date lies strictly between a date and its next day |
| `Dates.PrevDay` | src/components/DashboardKpis.tsx:33 | the day before a real date is a real date before it |
| `Dates.PrevDayIsImmediate` | src/components/DashboardKpis.tsx:33 | no real date lies strictly between a date and its previous day |
| `Dates.NextThenPrev` | src/components/DashboardKpis.tsx:33 | stepping forward one day and back again returns to the date |
| `Dates.PrevThenNext` | src/components/DashboardKpis.tsx:33 | stepping back one day and forward again returns to the date |
| `Dates.AddDays` | src/components/GoogleCalendarCard.tsx:28-32 | `addDays` of a real date is a real date |
| `Dates.AddDaysIncreasing` | src/components/GoogleCalendarCard.tsx:28-32 | more days added gives a strictly later date |
| `Dates.DaysBack` | src/components/DashboardKpis.tsx:33 | `n` steps back from a real date give a real date |
| `Dates.DaysBackDecreasing` | src/components/DashboardKpis.tsx:33 | more steps back give a strictly earlier date |
| `Dates.AddDaysAfterDaysBack` | src/components/DashboardKpis.tsx:152 | going `n` days back and `n` days forward returns to the start |
| `Dates.AddDaysShift` | src/components/GoogleCalendarCard.tsx:28-32 | `n + 1` days from a date are `n` days from its next day |
| `Dates.AddDaysWithinMonth` | src/lib/googleCalendar.ts:84 | `k` days after the first of a month is day `k + 1`, while that day exists |
| `Dates.FormatParts` | src/components/GoogleCalendarCard.tsx:21-26 | `formatDateLocal` ends in `-MM-DD`, both fields two digits reading back as month and day, after the written year |
| `Dates.ParseFormat` | src/components/GoogleCalendarCard.tsx:21-26 | every day key reads back as the date it came from |
| `Dates.FormatInjective` | src/components/GoogleCalendarCard.tsx:21-26 | different dates have different day keys |
| `Dates.FormatFourDigitYear` | src/components/DashboardKpis.tsx:14-19 | for a four-digit year the key is exactly `YYYY-MM-DD`, ten characters with dashes at 4 and 7 |
| `Dates.FormatOrder` | src/components/DashboardKpis.tsx:157 | for four-digit years, `<` on day keys is chronological order of the dates |
| `Dates.FormatOrderOrSame` | src/components/DashboardKpis.tsx:157 | for four-digit years, `<=` on day keys is on-or-before on the dates |
| `Week.WeekDays` | src/components/GoogleCalendarCard.tsx:73-75 | seven real dates, the first today, the i-th `i` days later |
| `Week.WeekDaysConsecutive` | src/components/WeeklySchedule.tsx:64-73 | each day is the next day of the one before, the seven keys are pairwise different, and each reads back as its date |
| `Week.SumSizesFrame` | src/components/WeeklySchedule.tsx:75-83 | changing a bucket whose key is not listed leaves the total bucket size unchanged |
| `Week.SumSizesUpdate` | src/components/WeeklySchedule.tsx:75-83 | changing a listed bucket changes the total by its change in size |
| `Week.BucketSnoc` | src/components/WeeklySchedule.tsx:80 | a new row joins the end of exactly the bucket of its non-empty due date |
| `Week.GroupedSkip` | src/components/WeeklySchedule.tsx:78-79 | a row with no or an empty due date leaves the grouping as it is |
| `Week.BucketsAfterAdd` | src/components/WeeklySchedule.tsx:80 | appending to a row's bucket changes that bucket and no other |
| `Week.DistinctSnoc` | src/components/WeeklySchedule.tsx:80 | a key not yet in the map goes last in iteration order, and keys stay unique |
| `Week.GroupedAdd` | src/components/GoogleCalendarCard.tsx:89-91 | a dated row goes to the end of its date's bucket and the grouping invariant holds for one more row |
| `Week.CountAfterAdd` | src/components/WeeklySchedule.tsx:80 | adding a dated row adds one to the total bucket size |
| `Week.GroupedNext` | src/components/GoogleCalendarCard.tsx:88-92 | one pass of the loop, skip or append, keeps the grouping invariant |
| `Week.ByDate` | src/components/GoogleCalendarCard.tsx:86-94 | `byDate`: each bucket is exactly the rows due that day in input order; the empty key has none; keys are listed once in insertion order; bucket sizes add up to the number of dated rows |
| `CalendarCard.Days` | src/components/GoogleCalendarCard.tsx:73-84 | seven cells keyed by the day keys of today and the six following days, with day numbers, only the first marked today |
| `CalendarCard.DaysAreTheWeek` | src/components/GoogleCalendarCard.tsx:73-84 | the first cell is today's key, keys are pairwise different, and each cell is the next day of the one before |
| `CalendarCard.Shown` | src/components/GoogleCalendarCard.tsx:156 | `slice(0, 3)`: the first `min(3, n)` items |
| `CalendarCard.MoreLabel` | src/components/GoogleCalendarCard.tsx:179-186 | the "+N more" line appears exactly when more than 3 are due, with N the count minus 3 |
| `CalendarCard.ItemViews` | src/components/GoogleCalendarCard.tsx:157 | each item keeps its title and is struck through exactly when `completed_at` is truthy |
| `CalendarCard.DayViewOf` | src/components/GoogleCalendarCard.tsx:146-188 | "No tasks" exactly for an empty bucket; at most 3 items, the bucket's first ones; the overflow line exactly above 3 |
| `CalendarCard.DayViewAccounts` | src/components/GoogleCalendarCard.tsx:156-186 | every task due that day is either listed or counted by "+N more" |
| `CalendarCard.Render` | src/components/GoogleCalendarCard.tsx:86-192 | the i-th day view is the view of the i-th day from exactly the rows due that day |
| `WeeklySchedule.DayLabel` | src/components/WeeklySchedule.tsx:108 | "No events" for none, else `N due` where the digits read back as the count |
| `WeeklySchedule.Labels` | src/components/WeeklySchedule.tsx:64-112 | seven keys of today and the six following days, each labelled with the number of rows due that day |
| `DashboardGreeting.Greeting` | src/components/DashboardGreeting.tsx:13-18 | morning below hour 12, afternoon from 12 to 16, evening from 17 |
| `DashboardGreeting.BeforeSpace` | src/components/DashboardGreeting.tsx:38 | `split(" ")[0]` is a space-free prefix, the whole text when there is no space, else the text up to the first space |
| `DashboardGreeting.NameSource` | src/components/DashboardGreeting.tsx:35-37 | `full_name ?? name`: `name` only when `full_name` is not a string |
| `DashboardGreeting.FirstNameAfterLoad` | src/components/DashboardGreeting.tsx:33-39 | with a user and a non-empty name the first name is its first word, otherwise the previous value stays |
| `DashboardGreeting.NameSuffix` | src/components/DashboardGreeting.tsx:66 | `, Name` exactly when the first name is non-empty |
| `DashboardGreeting.SuffixAfterLoad` | src/components/DashboardGreeting.tsx:38-66 | after a load the suffix is empty exactly when the name starts with a space, else it shows the first word |
| `DashboardGreeting.Subtitle` | src/components/DashboardGreeting.tsx:68-72 | loading line while unknown, all-clear for 0, singular for 1, else the count sentence |
| `DashboardGreeting.ManyTasksLineCount` | src/components/DashboardGreeting.tsx:72 | the count sentence reads back as its count |
| `DashboardGreeting.SubtitleInjective` | src/components/DashboardGreeting.tsx:68-72 | different counts give different subtitles |
| `DashboardGreeting.SubtitleBand` | src/components/DashboardGreeting.tsx:68-72 | the four kinds of subtitle differ in length or shape |
| `DashboardGreeting.DueTodayAfterLoad` | src/components/DashboardGreeting.tsx:49 | a failed count keeps the previous value, otherwise the count, 0 when absent |
| `UpcomingTasks.RelativeLabel` | src/components/UpcomingTasks.tsx:28-46 | overdue tone exactly for a negative difference, soon for 0 and 1, week for 2 to 7, the date itself beyond 7 or when unparsable |
| `UpcomingTasks.RelativeLabelDays` | src/components/UpcomingTasks.tsx:35-45 | `Overdue by Nd` and `Due in Nd` carry the distance in days; 0 and 1 give "Due today" and "Due tomorrow" |
| `UpcomingTasks.TaskLabel` | src/components/UpcomingTasks.tsx:123-125 | "No date" exactly when the due date is missing or empty |
| `UpcomingTasks.BadgeLetter` | src/components/UpcomingTasks.tsx:135 | Q, A and E for the three kinds, and `?` exactly for any other |
| `DashboardKpis.DaysBackKeysDistinct` | src/components/DashboardKpis.tsx:30-33 | the cursor's keys on different days back differ |
| `DashboardKpis.ImageCard` | src/components/DashboardKpis.tsx:26 | pairwise different values give a set of that many |
| `DashboardKpis.KeysBackCard` | src/components/DashboardKpis.tsx:29-37 | the keys of the `n` days ending today are `n` distinct keys |
| `DashboardKpis.StreakDays` | src/components/DashboardKpis.tsx:29-37 | a run of `n` means each of the `n` days ending today has a completion |
| `DashboardKpis.StreakExtends` | src/components/DashboardKpis.tsx:31-33 | a completion on the next day back extends the run by one |
| `DashboardKpis.StreakBound` | src/components/DashboardKpis.tsx:26 | a run is never longer than the number of distinct dates |
| `DashboardKpis.ComputeStreak` | src/components/DashboardKpis.tsx:25-39 | `computeStreak` returns `k` with the `k` days ending today completed and the day before not; at most the number of distinct dates; 0 exactly when today has none |
| `DashboardKpis.StreakUnique` | src/components/DashboardKpis.tsx:26 | the streak depends only on the set of dates, so repeats and order do not matter |
| `DashboardKpis.DueToday` | src/components/DashboardKpis.tsx:138-140 | the count of rows due today and not completed is at most the number of rows |
| `DashboardKpis.DueTodayCounts` | src/components/DashboardKpis.tsx:139 | the count adds up over any split of the rows, and a row counts exactly when it is due today with no completion |
| `DashboardKpis.WindowIsSevenDays` | src/components/DashboardKpis.tsx:150-157 | for four-digit years a key is in the string window exactly when its date lies among the seven days ending today |
| `DashboardKpis.WindowHoldsWeek` | src/components/DashboardKpis.tsx:150-157 | each of the seven days ending today is in the window |
| `DashboardKpis.Weekly` | src/components/DashboardKpis.tsx:159-162 | the due and done counts of the window are at most the number of rows |
| `DashboardKpis.Ratio` | src/components/DashboardKpis.tsx:164 | the ratio is 0 with nothing due, never above 1, and done over due when done does not exceed due |
| `GoogleCalendar.DateOf` | src/lib/googleCalendar.ts:83 | the three numbers of a `YYYY-MM-DD` value are non-negative |
| `GoogleCalendar.MonthStart` | src/lib/googleCalendar.ts:84 | the first of a month, with months outside 1 to 12 carried into the year, is a real date |
| `GoogleCalendar.UtcDayAfter` | src/lib/googleCalendar.ts:84-85 | the day after `Date.UTC(y, m - 1, d)`, day overflow rolled into later months, is a real date |
| `GoogleCalendar.AddDaysFromMonthStart` | src/lib/googleCalendar.ts:84-85 | `d` days from the first of the month of a real date is its next day |
| `GoogleCalendar.AddOneDayIsNextDay` | src/lib/googleCalendar.ts:82-90 | on a real date the corrected `addOneDay` gives the key of the next calendar day, across month ends, year ends and 29 February |
| `GoogleCalendar.AddOneDayAsWrittenFromYear100` | src/lib/googleCalendar.ts:82-90 | from year 100 on, the code as written and the corrected function agree |
| `GoogleCalendar.ShiftedValid` | src/lib/googleCalendar.ts:84 | a date of year 0 to 99 other than 0000-02-29 also exists 1900 years later |
| `GoogleCalendar.UtcDayAfterTwoDigitYear` | src/lib/googleCalendar.ts:84 | a year 0 to 99 is read as 1900 to 1999, so the result is the day after the shifted date |
| `GoogleCalendar.NoLeapDay` | src/lib/googleCalendar.ts:84-85 | in a year without 29 February, 29 days after 1 February is 2 March |
| `GoogleCalendar.ShiftedDayAfter` | src/lib/googleCalendar.ts:84-85 | for other dates of years 0 to 99 the result is the next day of the date 1900 years later |
| `GoogleCalendar.AddOneDayAsWrittenTwoDigitYear` | src/lib/googleCalendar.ts:82-90 | for years 0000 to 0099 the code as written does not give the next day; it gives the day after the same date in 1900 to 1999 |
| `GoogleCalendar.DateOfFormat` | src/lib/googleCalendar.ts:78-80 | a day key of a four-digit year is date-only and names that date |
| `GoogleCalendar.SummaryRoundTrip` | src/lib/googleCalendar.ts:96 | kind and title are recovered from `TYPE: title` for the three syllabus kinds |
| `GoogleCalendar.MapEvent` | src/lib/googleCalendar.ts:92-114 | the summary and description of the task and no reminders; a due day gives an all-day event starting on it and, for a real date, ending on the next calendar day; any other due value gives a timed event of no length in the given zone |
| `GoogleCalendar.MapEventAllDay` | src/lib/googleCalendar.ts:98-105 | a task due on a day becomes an all-day event from that day to the next, with the summary and no time zone |
| `GoogleCalendar.MapEventTimed` | src/lib/googleCalendar.ts:108-113 | any other value becomes a zero-length timed event in the given zone |
| `GoogleCalendar.WithReminder` | src/lib/googleCalendar.ts:130-146 | the reminder step changes only the reminders field |
| `GoogleCalendar.ReminderTriState` | src/lib/googleCalendar.ts:132-145 | undefined leaves no reminders field, null gives no default and no overrides, a number gives one popup override of that many minutes, and the three settings differ |
| `GoogleCalendar.MapAll` | src/lib/googleCalendar.ts:130-146 | one payload per event, in order, each mapped and given the reminder |
| `GoogleCalendar.RateLimitReasons` | src/lib/googleCalendar.ts:23-33 | true exactly when the body parses and its first error reason is `rateLimitExceeded` or `userRateLimitExceeded` |
| `GoogleCalendar.RetrySpec` | src/lib/googleCalendar.ts:54-75 | the loop from a given attempt ends within the budget, with at most `maxRetries` sleeps |
| `GoogleCalendar.RetryShape` | src/lib/googleCalendar.ts:55-74 | every fetch before the last was retryable; the last is ok, a rejection, fatal or over budget; an ok response is returned as is and a failure carries status and body verbatim |
| `GoogleCalendar.RetryExhausted` | src/lib/googleCalendar.ts:65-69 | only retryable failures means exactly `maxRetries` sleeps and then the last response's status and body in the error |
| `GoogleCalendar.FirstOk` | src/lib/googleCalendar.ts:57 | an ok first response comes back after one fetch and no sleep |
| `GoogleCalendar.TwoRateLimitsThenOk` | src/lib/googleCalendar.ts:60-74 | two 429 responses then an ok one: two sleeps, then success |
| `GoogleCalendar.FetchWithRetry` | src/lib/googleCalendar.ts:43-76 | the loop settles as the retry specification says; the backoff exponents are 0, 1, 2 and so on; at most `maxRetries` sleeps; one more fetch than sleeps |
| `GoogleCalendar.PoolOkExit` | src/lib/googleCalendar.ts:161-163 | a worker finding the cursor past the end returns, and the pool invariant holds |
| `GoogleCalendar.PoolOkAdvance` | src/lib/googleCalendar.ts:161-178 | a worker taking the cursor's index posts that event, writes its slot or throws, and the pool invariant holds |
| `GoogleCalendar.WorkerPool.constructor` | src/lib/googleCalendar.ts:156-157 | `min(3, n)` workers, cursor 0, no slot written, nothing sent |
| `GoogleCalendar.WorkerPool.Resume` | src/lib/googleCalendar.ts:160-179 | one pass of a worker's loop: the cursor advances by one; past the end the worker returns; otherwise it runs on exactly when its item succeeded; other workers are untouched; the first error stays |
| `GoogleCalendar.WorkerPool.Exit` | src/lib/googleCalendar.ts:163 | past the end the worker returns and the recorded error is unchanged |
| `GoogleCalendar.WorkerPool.Advance` | src/lib/googleCalendar.ts:161-178 | index `cursor` is handed out, posted, its slot written on success or the worker throws |
| `GoogleCalendar.WorkerPool.Dispatch` | src/lib/googleCalendar.ts:166-177 | the dispatcher's answer for an item is the outcome of the retry loop over that item's responses |
| `GoogleCalendar.WorkerPool.RunSchedule` | src/lib/googleCalendar.ts:182-185 | any order of worker resumptions keeps the pool invariant |
| `GoogleCalendar.WorkerPool.RunToEnd` | src/lib/googleCalendar.ts:185 | every worker has returned or thrown |
| `GoogleCalendar.WorkerPool.Collect` | src/lib/googleCalendar.ts:185-187 | with no error, every index was handed out and every slot holds its item's response, in item order |
| `GoogleCalendar.BatchCreate` | src/lib/googleCalendar.ts:116-188 | at most 3 workers; the cursor hands out 0, 1, 2 and so on, each once; the payload posted for index `i` is the i-th mapped event; success exactly when every item succeeds, with `results[i]` the response for item `i`; on failure the error is one of a dispatched item |
| `TaskRules.ParseStatusExact` | src/components/TasksBoard.tsx:62-64 | `isTaskStatus` accepts exactly the three status names, each as its own status |
| `TaskRules.ParseStatusName` | src/components/TasksBoard.tsx:62-64 | every status's name is accepted as that status |
| `TaskRules.ToErrorMessage` | src/components/TasksBoard.tsx:66-71 | an Error gives its message, a string itself, a primitive its rendering, anything else "Unknown error" |
| `TaskRules.PlainObjectMessage` | src/components/TasksBoard.tsx:72-81 | for an object: its string `message`, else its string `error`, else its JSON, else "Unknown error" |
| `TaskRules.OrElse` | src/components/TasksBoard.tsx:566 | `x || fallback` is non-empty when the fallback is |
| `TaskRules.MissingColumnCaseInsensitive` | src/components/TasksBoard.tsx:94 | the classifier sees the message only lower-cased |
| `TaskRules.MissingColumnNeedsObject` | src/components/TasksBoard.tsx:86 | a non-object never counts as a missing column |
| `TaskRules.MissingColumnByCode` | src/components/TasksBoard.tsx:91-93 | code 42703 or PGRST204 is enough, whatever the message |
| `TaskRules.FormatRelativeDate` | src/components/TasksBoard.tsx:115-136 | overdue exactly for a negative difference; urgent exactly up to 7 days; otherwise the date itself |
| `TaskRules.RelativeDateTexts` | src/components/TasksBoard.tsx:122-135 | the text of each band, with singular "day" for 1 and plural otherwise |
| `TaskRules.CardDateLabel` | src/components/TasksBoard.tsx:239-255 | the card shows the relative text unless the task is completed and overdue |
| `TaskRules.RowStatusRules` | src/components/TasksBoard.tsx:379-389 | a completion time wins, then a valid stored status, then past-due as in progress; a null due date becomes today and reads as upcoming |
| `TaskRules.RowInProgressMeansPastDue` | src/components/TasksBoard.tsx:385 | for four-digit years, a row with neither completion nor stored status is in progress exactly when its due date is before today |
| `TaskRules.MapRows` | src/components/TasksBoard.tsx:379-399 | one task per row, in order, by the row mapping |
| `TaskRules.FilterTasksSpec` | src/components/TasksBoard.tsx:445-464 | a task is shown exactly when it passes the filters, and filtering keeps relative order |
| `TaskRules.FilterAllKept` | src/components/TasksBoard.tsx:451-463 | with both filters off every task is shown |
| `TaskRules.InsertByDate` | src/components/TasksBoard.tsx:470 | insertion adds exactly one element |
| `TaskRules.InsertByDateSorted` | src/components/TasksBoard.tsx:470 | inserting into a date-sorted list keeps it sorted |
| `TaskRules.SortByDate` | src/components/TasksBoard.tsx:470 | the sort is a permutation |
| `TaskRules.SortByDateSorted` | src/components/TasksBoard.tsx:470 | the sort's output is ordered by date string |
| `TaskRules.SortByDateStable` | src/components/TasksBoard.tsx:470 | the sort is stable: the tasks due on any one date come out in their loaded order |
| `TaskRules.SortTasksStable` | src/components/TasksBoard.tsx:467-474 | in either order the tasks due on any one date keep their loaded order |
| `TaskRules.SortTasks` | src/components/TasksBoard.tsx:467-474 | a permutation, sorted by date for "due", the loaded order for "added" |
| `TaskRules.ColumnsCount` | src/components/TasksBoard.tsx:476-484 | the three columns together hold every task once |
| `TaskRules.ColumnMembership` | src/components/TasksBoard.tsx:482 | a task is in exactly the column of its status |
| `TaskRules.ColumnSorted` | src/components/TasksBoard.tsx:482 | a column of a sorted list is sorted |
| `TaskRules.PrunedSelection` | src/components/TasksBoard.tsx:425-433 | the pruned selection is the ids that are on and belong to a present task, each stored as on |
| `TaskRules.UniqueIdsCount` | src/components/TasksBoard.tsx:492-495 | distinct ids give as many ids as tasks |
| `TaskRules.AllSelectedMeansEveryTask` | src/components/TasksBoard.tsx:492-495 | with distinct ids and a pruned selection, the count test holds exactly when there are tasks and every one is selected |
| `TaskRules.SelectAll` | src/components/TasksBoard.tsx:816-818 | select-all selects exactly the task ids |
| `TaskRules.Find` | src/components/TasksBoard.tsx:607 | `find` is absent exactly for an unknown id, else the first task in the list with that id |
| `TaskRules.SetStatus` | src/components/TasksBoard.tsx:540 | the optimistic change alters only the status of the tasks with the id |
| `TaskRules.ApplyEdit` | src/components/TasksBoard.tsx:658-670 | the edited task gets the title, kind, detail and the new date unless it is empty; other tasks are unchanged |
| `TaskRules.RemoveIdsSpec` | src/components/TasksBoard.tsx:582 | a task remains exactly when its id was not deleted |
| `TaskRules.EditKind` | src/components/TasksBoard.tsx:633 | the dialog never starts from "lecture" and keeps any other kind |
| `TaskRules.StatusWriteOutcomeSpec` | src/components/TasksBoard.tsx:546-566 | the change persists exactly when the first write succeeds; the notice is shown exactly after a column-missing retry that succeeds; a failure always has a message; the retry matters only after a missing column |
| `TaskRules.StatusWrites` | src/components/TasksBoard.tsx:544-556 | one or two writes, two exactly on a missing column; `completed_at` is written exactly for "completed" |
| `TaskRules.SetStatusMoves` | src/components/TasksBoard.tsx:540 | a status change keeps every id and puts the task in its new column |
| `TaskRules.KindCount` | src/components/TasksBoard.tsx:436-442 | each kind count is at most the number of tasks |
| `TaskRules.KindCountsBound` | src/components/TasksBoard.tsx:436-442 | the three counts together are at most the number of tasks |
| `TaskRules.ToSyncEvent` | src/components/TasksBoard.tsx:521-526 | a synced event is never a lecture |
| `TaskRules.SyncEvents` | src/components/TasksBoard.tsx:519-526 | at most one event per task, none a lecture |
| `TaskRules.SyncEventsOf` | src/components/TasksBoard.tsx:521-526 | one event per task, in order |
| `TaskRules.SyncEventsSpec` | src/components/TasksBoard.tsx:519-526 | the sync list is exactly the events of the tasks that are not completed, in order |
| `TaskRules.SyncEventsExcludeCompleted` | src/components/TasksBoard.tsx:519-520 | every open task's event is among those sent |
| `TaskBoard.LoadErrorMessage` | src/components/TasksBoard.tsx:403 | an Error's message, or "Failed to load tasks." for anything else |
| `TaskBoard.EditPayloadOf` | src/components/TasksBoard.tsx:674-679 | the trimmed title; due date null exactly when empty; description null exactly when blank, else trimmed |
| `TaskBoard.ReminderSettingOf` | src/components/TasksBoard.tsx:528 | the board always passes a reminder setting: null is no reminder |
| `TaskBoard.GroupByStatus` | src/components/TasksBoard.tsx:476-484 | `grouped`: each column is exactly the sorted tasks of that status, in order |
| `TaskBoard.Board.constructor` | src/components/TasksBoard.tsx:317-340 | the initial state: no tasks, loading, reminder 1440, dialog closed |
| `TaskBoard.Board.LoadTasks` | src/components/TasksBoard.tsx:348-407 | a second query exactly after a missing column; on success the rows become the tasks; on failure the list stays and the notice says why |
| `TaskBoard.Board.PruneSelection` | src/components/TasksBoard.tsx:423-434 | the selection becomes the pruned one and nothing else changes |
| `TaskBoard.Board.ToggleSelected` | src/components/TasksBoard.tsx:884-890 | on adds the id, off removes it; nothing else changes |
| `TaskBoard.Board.ToggleSelectAll` | src/components/TasksBoard.tsx:811-819 | a full selection is cleared, otherwise every task is selected; nothing else changes |
| `TaskBoard.Board.ToggleExpanded` | src/components/TasksBoard.tsx:878-883 | flips one card's open state; nothing else changes |
| `TaskBoard.Board.UpdateStatus` | src/components/TasksBoard.tsx:537-568 | on a failed write the list is the exact snapshot and the notice is the error; after a missing column and a successful retry the change is kept with the migration notice; on success the change is kept |
| `TaskBoard.Board.HandleDragEnd` | src/components/TasksBoard.tsx:599-612 | the drag ends in every case; nothing happens without a target, with a non-status target, an unknown task or the same status; otherwise the status change runs with its rollback and its notice; nothing else changes |
| `TaskBoard.Board.DeleteSelected` | src/components/TasksBoard.tsx:570-593 | no request without a selection or confirmation; the list changes only after the delete succeeds, and then the selection is emptied and the open state forgotten; a failure only shows the error; the dialog, flags, reminder and drag stay |
| `TaskBoard.Board.OpenEdit` | src/components/TasksBoard.tsx:628-637 | an unknown id does nothing; otherwise the dialog holds the task's fields, a lecture as an assignment; nothing else changes |
| `TaskBoard.Board.CloseEdit` | src/components/TasksBoard.tsx:639-643 | closes the dialog unless a save is in flight; nothing else changes |
| `TaskBoard.Board.SaveEdit` | src/components/TasksBoard.tsx:645-692 | no dialog: nothing; a blank title: "Title is required." and no change; otherwise the payload is sent, success keeps the edit and closes, failure restores the snapshot and shows the error; the selection, open state, flags, reminder and drag stay |
| `TaskBoard.Board.CommitEdit` | src/components/TasksBoard.tsx:653-691 | the optimistic edit, then kept on success or the exact snapshot restored on failure; the selection, open state, flags, reminder and drag stay |
| `TaskBoard.Board.LoadReminder` | src/components/TasksBoard.tsx:413-415 | the board's reminder becomes the stored one; nothing else changes |
| `TaskBoard.Board.OnSyncAll` | src/components/TasksBoard.tsx:497-535 | ignored while running; without a token the sign-in notice and nothing sent; otherwise the open tasks are sent and the notice is the count on success or one item's error; the tasks, selection, open state, dialog, reminder, loading flag and drag stay |
| `TaskBoard.SelectAllThenAllSelected` | src/components/TasksBoard.tsx:492-495 | after select-all on distinct ids the board counts as all selected |
| `TaskBoard.EditPayloadTitle` | src/components/TasksBoard.tsx:647-679 | a saved title is never blank and a saved description never empty |
| `AddTask.NarrowerThanBoard` | src/components/TasksAddTaskButton.tsx:10-19 | whatever the dialog's classifier accepts the board's accepts, but not the reverse: PGRST204 alone is not enough for the dialog |
| `AddTask.OrNull` | src/components/TasksAddTaskButton.tsx:57 | `x || null` is null exactly for the empty string |
| `AddTask.FirstInsert` | src/components/TasksAddTaskButton.tsx:49-60 | the trimmed title; `completed_at` exactly for "completed"; due date null exactly when empty; description null exactly when blank, else trimmed |
| `AddTask.FallbackInsert` | src/components/TasksAddTaskButton.tsx:63-70 | the retry is the same row without `status` |
| `AddTask.CaughtMessage` | src/components/TasksAddTaskButton.tsx:86 | an Error's message, else "Failed to add task." |
| `AddTask.Plan` | src/components/TasksAddTaskButton.tsx:37-86 | a failed lookup shows its error; no user: "Sign in to add tasks." and no insert; the form resets exactly when an insert went through |
| `AddTask.RetryOnlyOnMissingColumn` | src/components/TasksAddTaskButton.tsx:62-75 | two inserts exactly after a missing-column failure of the first |
| `AddTask.Dialog.constructor` | src/components/TasksAddTaskButton.tsx:22-29 | the dialog's initial fields |
| `AddTask.Dialog.OnCreate` | src/components/TasksAddTaskButton.tsx:31-90 | a blank title changes nothing; otherwise the plan's inserts are made and the form ends as the plan says |
| `AddTask.Dialog.Finish` | src/components/TasksAddTaskButton.tsx:78-88 | the notice is set, saving cleared, and the form reset to its defaults exactly when the plan says |
| `SyllabusParser.RawText` | src/components/SyllabusParser.tsx:10 | an Error's message, `[object Object]` for a plain object, a string itself |
| `SyllabusParser.ToFriendlySaveError` | src/components/SyllabusParser.tsx:9-22 | session problems first, then the configuration hint, then the raw text or "Save failed."; never empty |
| `SyllabusParser.SessionPatternSubsumed` | src/components/SyllabusParser.tsx:13 | the session test is just "jwt" or "session" |
| `SyllabusParser.PlainObjectShownAsObjectText` | src/components/SyllabusParser.tsx:10-21 | a plain error object reaches the user as `[object Object]` |
| `SyllabusParser.DueDatePart` | src/components/SyllabusParser.tsx:125 | the part before the first `T`, or the whole date without one |
| `SyllabusParser.DueDatePartIdempotent` | src/components/SyllabusParser.tsx:125 | truncating twice is truncating once |
| `SyllabusParser.SavePayload` | src/components/SyllabusParser.tsx:122-129 | one row per event, in order |
| `SyllabusParser.SavePayloadRows` | src/components/SyllabusParser.tsx:122-129 | each row keeps title, kind and description, has the truncated date, source "syllabus" and the user id |
| `SyllabusParser.Panel.constructor` | src/components/SyllabusParser.tsx:27-30 | no result and no notices |
| `SyllabusParser.Panel.OnParse` | src/components/SyllabusParser.tsx:48-65 | notices cleared; success stores the data, failure clears it and shows the error |
| `SyllabusParser.Panel.OnSync` | src/components/SyllabusParser.tsx:67-103 | no events or no token: the notice and nothing sent; otherwise all events go out with default reminders and the notice is the count or the error |
| `SyllabusParser.Panel.OnSave` | src/components/SyllabusParser.tsx:105-140 | no events, a failed lookup or no user: the notice and no insert; otherwise the payload is inserted and the notice is the count or the friendly error |
| `ParseSyllabus.ExtractJson` | src/app/actions/parseSyllabus.ts:23-31 | never longer than the input |
| `ParseSyllabus.ExtractJsonSlice` | src/app/actions/parseSyllabus.ts:25-29 | with a `}` after the first `{`, the slice from the first `{` to the last `}`, starting and ending with them |
| `ParseSyllabus.ExtractJsonNoBraces` | src/app/actions/parseSyllabus.ts:30 | otherwise the input unchanged |
| `ParseSyllabus.ExtractJsonIdempotent` | src/app/actions/parseSyllabus.ts:23-31 | extracting twice is extracting once |
| `ParseSyllabus.ValidateEvent` | src/app/actions/parseSyllabus.ts:5-10 | an accepted event has a non-empty title and date and one of the three kinds |
| `ParseSyllabus.ValidateEvents` | src/app/actions/parseSyllabus.ts:18 | an accepted array keeps every item |
| `ParseSyllabus.ValidateEventsGood` | src/app/actions/parseSyllabus.ts:18 | every accepted event meets the event schema |
| `ParseSyllabus.ValidateSyllabusGood` | src/app/actions/parseSyllabus.ts:12-19 | an accepted syllabus meets the schema, counts being non-negative integers |
| `ParseSyllabus.ValidateEventJson` | src/app/actions/parseSyllabus.ts:5-10 | every well-formed event written as JSON validates to itself |
| `ParseSyllabus.DescriptionDefault` | src/app/actions/parseSyllabus.ts:9 | a missing description becomes `""`, a non-string one is rejected |
| `ParseSyllabus.ValidateEventsJson` | src/app/actions/parseSyllabus.ts:18 | a list of well-formed events written as JSON validates to itself |
| `ParseSyllabus.ValidateSyllabusJson` | src/app/actions/parseSyllabus.ts:12-19 | a well-formed syllabus written as JSON validates to itself |
| `ParseSyllabus.Action` | src/app/actions/parseSyllabus.ts:33-107 | a success always carries a syllabus meeting the schema |
| `ParseSyllabus.ContentCases` | src/app/actions/parseSyllabus.ts:86-95 | after an ok reply, falsy content gives "LLM returned empty output."; content that is not a string, or text the parser rejects, gives "LLM returned invalid JSON." |
| `ParseSyllabus.BlankInputShortCircuits` | src/app/actions/parseSyllabus.ts:34-37 | blank input gives "Paste your syllabus first." whatever the key, the reply or the parser |
| `ParseSyllabus.NoCallNoReply` | src/app/actions/parseSyllabus.ts:34-46 | without a model call the reply has no effect and the result is an error |
| `ParseSyllabus.ActionOkMeansValidated` | src/app/actions/parseSyllabus.ts:74-106 | a success needs the model call, an ok reply with content, and carries what the schema made of the extracted JSON |
| `ParseSyllabus.ActionAcceptsWellFormedReply` | src/app/actions/parseSyllabus.ts:86-106 | a reply holding a well-formed syllabus is accepted as exactly that syllabus |
| `ReminderPrefs.Decode` | src/lib/reminderPrefs.ts:16-21 | a loaded value is no reminder or a non-negative number |
| `ReminderPrefs.DecodeEncode` | src/lib/reminderPrefs.ts:13-35 | loading after saving gives back no reminder or any non-negative number of minutes |
| `ReminderPrefs.DecodeCases` | src/lib/reminderPrefs.ts:17-20 | missing or empty loads as 1440, `"none"` as no reminder, a negative number as 1440 |
| `ReminderPrefs.OptionsCoverDefault` | src/lib/reminderPrefs.ts:4-11 | the offered values are exactly none, 0, 60 and 1440; the default is one of them; each survives save and load |
| `ReminderPrefs.ReminderStore.constructor` | src/lib/reminderPrefs.ts:14-16 | the store holds the given cell |
| `ReminderPrefs.ReminderStore.Load` | src/lib/reminderPrefs.ts:13-25 | the decoded cell, or the default without storage |
| `ReminderPrefs.ReminderStore.Save` | src/lib/reminderPrefs.ts:27-35 | the cell holds the encoding, or is untouched without storage |
| `ReminderPrefs.SaveThenLoad` | src/lib/reminderPrefs.ts:27-35 | a save followed by a load returns the saved value |
| `FocusBlocker.UrlCandidate` | src/components/FocusBlocker.tsx:19 | input starting with `http` is used as is, else `https://` is put before it |
| `FocusBlocker.FilterKeepsUnique` | src/components/FocusBlocker.tsx:77 | removing items keeps the sites unique |
| `FocusBlocker.TimeLeft` | src/components/FocusBlocker.tsx:56-59 | the minutes left are never negative |
| `FocusBlocker.TimeLeftSpec` | src/components/FocusBlocker.tsx:51-59 | read at the clock of the moment, as the banner and the guard intend: nothing is left once the end has passed; while active, the remaining time to the nearest minute |
| `FocusBlocker.Blocker.constructor` | src/components/FocusBlocker.tsx:27-32 | empty list, 50 minutes, no end time, blocking off |
| `FocusBlocker.Blocker.SetEndAt` | src/components/FocusBlocker.tsx:51-59 | a changed end time recomputes the memoised `active` and `timeLeft` at that moment, an unchanged one keeps them; nothing else changes |
| `FocusBlocker.Blocker.AddItem` | src/components/FocusBlocker.tsx:61-74 | an invalid site or one already listed sets its notice and leaves the list; otherwise the site goes first and the input is cleared; sites stay unique |
| `FocusBlocker.Blocker.RemoveItem` | src/components/FocusBlocker.tsx:76-78 | removes exactly the items with the id, keeping the others' order; nothing else changes |
| `FocusBlocker.Blocker.StartBlock` | src/components/FocusBlocker.tsx:80-88 | an empty list sets the notice and changes nothing else; otherwise the block ends `minutes` minutes from now, and a changed end time recomputes `active` and `timeLeft` at this moment; the list, input, minutes and overlay stay |
| `FocusBlocker.Blocker.StopBlock` | src/components/FocusBlocker.tsx:90-92 | no end time, not active, nothing left; nothing else changes |
| `FocusBlocker.Blocker.OnOpen` | src/components/FocusBlocker.tsx:94-98 | a link is stopped exactly while the stored `active` is on, and then the overlay names it; nothing else changes |
| `FocusBlocker.StaleBlockAfterEnd` | src/components/FocusBlocker.tsx:51-98 | a 50-minute block started at clock 0 still stops a link opened after its end, and the banner still reads 50 minutes, where `Active` and `TimeLeft` at that clock say it is over |
| `FocusTimer.FormatSecondsParts` | src/components/FocusTimer.tsx:5-9 | the label is the minutes, a colon and two digits of seconds, reading back as the whole minutes and the remainder |
| `FocusTimer.AppliedSeconds` | src/components/FocusTimer.tsx:118 | the minutes clamped to 5 to 120, in seconds |
| `FocusTimer.Remaining` | src/components/FocusTimer.tsx:52 | never negative, 0 once the end has passed |
| `FocusTimer.Timer.constructor` | src/components/FocusTimer.tsx:12-15 | 25 minutes, stopped |
| `FocusTimer.Timer.Restore` | src/components/FocusTimer.tsx:18-40 | a stored length replaces the default; a stored end still ahead resumes the countdown with the remaining seconds |
| `FocusTimer.Timer.Toggle` | src/components/FocusTimer.tsx:83 | Start/Pause flips running and nothing else |
| `FocusTimer.Timer.BeginRun` | src/components/FocusTimer.tsx:42-49 | the end time is now plus the seconds left, and it is stored; nothing else changes |
| `FocusTimer.Timer.Tick` | src/components/FocusTimer.tsx:51-54 | the seconds left become the non-negative remaining time; nothing else changes |
| `FocusTimer.Timer.ZeroStop` | src/components/FocusTimer.tsx:59-67 | runs only when the seconds left changed since the render before: a change to zero stops the countdown and clears the stored end; otherwise nothing changes |
| `FocusTimer.Timer.Reset` | src/components/FocusTimer.tsx:90-97 | stopped, back to the full length |
| `FocusTimer.Timer.Apply` | src/components/FocusTimer.tsx:116-125 | the clamped length becomes the default and the time left, and the countdown stops |
| `FocusTimer.TickToEnd` | src/components/FocusTimer.tsx:51-67 | from a countdown not at zero, a tick at or after the end reaches zero and the zero-stop then stops the countdown |
| `FocusTimer.RestartAtZeroStaysRunning` | src/components/FocusTimer.tsx:42-67 | after a sprint has run out, Start leaves the countdown running at 00:00 |

## Left out

- Network, authentication and storage I/O: each call is a parameter holding its result. OAuth, the Supabase client factory and `window` events are not modelled.
- The `study-buddy:tasks-changed` event bus, `useEffect` lifecycles, the `mounted` flags and the loading spinners, apart from the board's `loading` flag.
- Real concurrency: the worker pool runs its workers one pass at a time in any order a `schedule` gives. A pass does await (`fetch`, `res.text()`, `sleep`, `res.json()`), so passes of different workers do interleave in the program. That interleaving is not modelled: the workers share only the cursor, which a pass advances before its first `await`, and each writes only its own `results[i]`.
- `GoogleCalendar.BatchCreate`: on failure the model reports the failing index its schedule reaches first. `Promise.all` rejects with the failure that comes first in time, which the model does not order.
- Jitter, floating-point delays and `sleep`: `FetchWithRetry` only records the exponent of each backoff.
- `res.json()` and the JavaScript `results` array: a slot holds the response itself. The `results` array is pre-sized to the number of events.
- `GoogleCalendar.FetchWithRetry` needs a response script at least `maxRetries + 1` long (`ScriptsFit` in the batch). This is how the model supplies responses. It limits nothing the loop can do.
- The "Sync failed." branch for a thrown non-Error, because `batchCreateGoogleCalendarEvents` only throws `Error` values.
- Clock and time zones: today, now and the whole-day difference of the relative-date helpers are parameters. `Math.round` of a millisecond difference and daylight-saving shifts are not modelled. The board's `todayKey` (UTC) and the cards' local keys are the same kind of parameter.
- `JSON.parse`, zod's `safeParse` beyond the schema rules, `new URL(...).origin` and the `/^\d{4}-\d{2}-\d{2}$/` engine are abstracted. `isDateOnly` is modelled as ten characters in the digit-dash pattern.
- Storage parsing of the blocker's and timer's JSON records: the timer's stored record is a parameter of its constructor, and the blocker starts empty.
- `Text.ToLower` and `Text.ToUpper`: only ASCII letters are case-mapped; other Unicode case mappings are not modelled.
- `TaskRules.SortByDate`: `localeCompare` is modelled as code-unit order.
- `ReminderPrefs.Decode`: `Number(raw)` is modelled on optionally signed decimal integers only. Other strings, such as `"1e3"`, `" 5"` or `"1.5"`, load as the default rather than as the number JavaScript reads. Fractional minutes and `NaN` are not modelled.
- Subtasks of a task are carried through unchanged by the source and are not part of the model.
- The percentage label of the weekly ring, the SVG geometry, the timer's progress bar and the parser panel's `summaryLine` text.
- Locale-dependent weekday and month names on the calendar card and the weekly schedule.
- The board's `badgeLetters`, a four-entry lookup with no fallback; the dashboard's badge fallback is `UpcomingTasks.BadgeLetter`.
- `SyllabusParser.Panel.OnParse`: an action that rejects is modelled as leaving the result as it was, with no notice.
- `TaskRules.PlainObjectMessage`: `JSON.stringify` of the object is a parameter (`None` when it throws).
- `GoogleCalendar.MapEvent`: for a date-only due value of a year from 0 to 99 it sends the end date of the corrected `addOneDay`, the next day of that year, where the program sends a day of the year 1900 + y (see Findings). `GoogleCalendar.BatchCreate`, `TaskBoard.Board.OnSyncAll` and `SyllabusParser.Panel.OnSync` inherit this.
- `ParseSyllabus.Action`: a non-empty array as `content` gives "LLM returned invalid JSON." in the model. In the program `indexOf` and `lastIndexOf` search the array's elements and `JSON.parse` reads the comma-joined elements, which can parse.
- `FocusBlocker.Blocker.SetEndAt`: the clock of the render that recomputes the memoised values is taken to be the clock of the handler that changed `endAt`.
- `TaskBoard.Board.CommitEdit`: the optimistic detail is the description as typed, untrimmed, as in the source. Only the payload trims it.

## Findings

| source | as written | input that shows it | evidently intended | confidence | as-written member | corrected member |
|---|---|---|---|---|---|---|
| src/lib/googleCalendar.ts:84 | `Date.UTC(y, m - 1, d)` reads a year from 0 to 99 as 1900 to 1999, so `addOneDay` of a year below 100 returns a date in the twentieth century | `addOneDay("0024-03-01")` gives `"1924-03-02"`, not `"24-03-02"` | the next calendar day of the date as written | not executed; low, because years below 100 are unlikely in practice | `GoogleCalendar.AddOneDayAsWrittenTwoDigitYear` | `GoogleCalendar.AddOneDayIsNextDay` |
| src/components/FocusBlocker.tsx:51-59 | `active` and `timeLeft` are memoised on `[endAt]` alone, so they are computed when a block starts or stops and never again in between; `onOpen` reads the stored `active` | a 50-minute block started at clock 0, then a listed link opened at clock 3 600 000 | blocking ends at the end time: the link opens and the banner shows nothing left | not executed; high, since a memo with only `endAt` as dependency is not recomputed as the clock advances | `FocusBlocker.StaleBlockAfterEnd` | `FocusBlocker.TimeLeftSpec` |

`GoogleCalendar.AddOneDayAsWritten` models the code as written, and
`GoogleCalendar.AddOneDay` the corrected function. Event mapping uses the
corrected function, so for years below 100 the model's events differ from the
program's (see `GoogleCalendar.MapEvent` under Left out).
`GoogleCalendar.AddOneDayAsWrittenFromYear100` shows the two agree from year
100 on.

The blocker's class keeps the memoised values as the program does, and
`FocusBlocker.StaleBlockAfterEnd` shows the stale block. `FocusBlocker.Active`
and `FocusBlocker.TimeLeft` read at the clock of the moment are the intended
definitions, and `FocusBlocker.TimeLeftSpec` states what they give.

The focus timer has a related behaviour of its effects. The zero-stop effect
runs only when `secondsLeft` changes. After a sprint has run out, pressing
Start again leaves the countdown running at 00:00, with the button reading
"Pause". `FocusTimer.RestartAtZeroStaysRunning` shows this, and the model
keeps it.

A second discrepancy is not a bug. The add-task dialog's missing-column
classifier is narrower than the board's: it does not accept `PGRST204` or the
schema-cache message. `AddTask.NarrowerThanBoard` states this.
