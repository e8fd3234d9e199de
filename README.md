# Period tracker client, modelled in Dafny

This project models the browser client of a period-tracking app and proves properties of that model. The client is a small React application with these parts:

- **Insights page.** It groups symptom logs by calendar day. It sorts the days newest first, with undated logs last. It counts logs per severity and per symptom, names the most logged symptom, and draws a severity breakdown and a per-day list.
- **Calendar page.** It highlights the six days that start each predicted period. It lays out a month grid and moves between months.
- **Onboarding flow.** A welcome screen leads to a cycle set-up form. The form checks the cycle length range and saves the profile. A `localStorage` flag then records that onboarding is done, and the application shell stops showing onboarding.
- **User token.** It is kept in `localStorage` and mirrored in a context provider, with `setToken`, `logout` and the token-based new-user test.
- **Form pages.**
  - The log page: period-started button and symptom form.
  - The 'Me' page: assistant chat transcript and PDF report download.
  - The home page's once-per-session trend popup.

The JavaScript built-ins the client relies on are modelled as far as it uses them:

- `new Date(y, m, d)`: the two-digit-year rule, month and day roll-over, and the time-value range as a host on UTC sees it. A `Date` object is its time value. The `new Date(y, m, d)` objects of the calendar are local midnights, so the model keeps their day number and reads the calendar date back from it in the getters. The calendar's `new Date()` for today and for the first view is a current instant, but only its year, month and day are read, so it enters as a date; the set-up form's default last-period date is the ISO day string of two weeks before now, given as a parameter; dates parsed from log text keep their time value through the `DateParser` parameter.
- `getDay`.
- `toISOString` for a given time value.
- `Number(string)`, on exact reals.
- `String.prototype.split`, `trim` and `padStart`.
- `Array.prototype.sort`, as a stable sort with the page's comparators.
- `localeCompare` and `<` on strings, as code-point order.
- The own-key order of `Object.keys` and `Object.entries` (array indices first, then creation order, as in ECMA-262 section 10.1.11.1).

These are modelled as values passed to each call:

- Whether a storage call throws.
- How a network request ends.
- What the host's date parser makes of a string.
- Today's date.

## Modules

| file | module | models |
|---|---|---|
| wrappers.dfy | Wrappers | `Option`, `Result`, and `??` as `Coalesce` |
| strings.dfy | Strings | digits, decimal strings, `padStart`, `split`, `trim`, code-point order, `localeCompare` |
| numbers.dfy | Numbers | `Number(string)`, comparisons with NaN, truncation |
| civil_dates.dfy | CivilDates | proleptic Gregorian dates as day numbers, weekdays |
| js_dates.dfy | JsDates | `new Date(y, m, d)`, getters, `toISOString` |
| sorting.dfy | Sorting | stable comparator sort, first maximum |
| js_objects.dfy | JsObjects | `Object.keys` order |
| storage.dfy | Storage | `localStorage` / `sessionStorage` with throwing calls |
| api.dfy | Api | request outcomes and the client's error-text rule |
| calendar.dfy | Calendar | `dateKey`, `getPredictedDateSet`, the month grid, month navigation |
| calendar_data.dfy | CalendarData | the placeholder predictions |
| insights.dfy | Insights | grouping, counting, sorting and the page summary |
| onboarding.dfy | Onboarding | the onboarding flag and 'Get started' |
| auth.dfy | Auth | the token provider |
| setup.dfy | Setup | the set-up form |
| app.dfy | App | the shell's two state fields, screen choice and routes |
| log_page.dfy | LogPage | the log page handlers |
| settings.dfy | Settings | chat transcript and PDF download flags |
| home.dfy | Home | the trend popup |

## Model

| member | source | states |
|---|---|---|
| Calendar.DateKeyRoundTrip | src/pages/Calendar.jsx:3-8 | the key of a valid date is its full year, then the month and day padded to two digits, joined by '-', and it reads back to that date; the invalid date's key "NaN-NaN-NaN" reads back to nothing |
| Calendar.DateKeyOn | src/pages/Calendar.jsx:3-8 | the key of a valid date's `Date` object is written from that date's own year, month and day |
| Calendar.DateKeyInjective | src/pages/Calendar.jsx:3-8 | different dates have different keys |
| Calendar.GetPredictedDateSet | src/pages/Calendar.jsx:20-36 | the loop over the records builds exactly the union of every record's window keys, and the empty set for a value that is not an array |
| Calendar.AddWindow | src/pages/Calendar.jsx:28-33 | one record adds the key of its start date and the keys of the five days after it |
| Calendar.RecordWithoutStart | src/pages/Calendar.jsx:24-25 | a null record, or one whose start (including the misspelled fallback field) is missing or empty, adds nothing; the end date is never read |
| Calendar.ComponentsNonNegative | src/pages/Calendar.jsx:26 | the pieces of a start string split at '-' never convert to negative numbers |
| Calendar.RecordStartOfDateKey | src/pages/Calendar.jsx:26-28 | a record whose start is the key of a date from the year 100 on starts its window on that very date |
| Calendar.WindowDayIsOffset | src/pages/Calendar.jsx:28-31 | with finite components, `new Date(y, m - 1, d + i)` is the date i days after the window's start |
| Calendar.WindowConsecutive | src/pages/Calendar.jsx:30-33 | the six days of a window are consecutive, each the day after the one before |
| Calendar.WindowKeysCount | src/pages/Calendar.jsx:30-33 | within the time-value range a finite window has six different keys |
| Calendar.RecordWindow | src/pages/Calendar.jsx:26-33 | a record with finite components adds exactly the keys of six consecutive days from its start, across month and year ends |
| Calendar.RecordWithInfiniteComponent | src/pages/Calendar.jsx:26-33 | a record with an infinite component marks only the invalid date's key |
| Calendar.RecordMarks | src/pages/Calendar.jsx:28-33 | a valid date's key is in a record's window exactly when the date lies 0 to 5 days after its start |
| Calendar.PredictedDatesMember | src/pages/Calendar.jsx:23-34 | a key is in the set exactly when some record's window holds it |
| Calendar.PredictedDatesOrderFree | src/pages/Calendar.jsx:23-34 | the set depends only on which records occur, not their order or repeats |
| Calendar.MarkedIffInSomeWindow | src/pages/Calendar.jsx:20-36 | a valid date is highlighted exactly when some record's start lies 0 to 5 days before it; a non-array highlights nothing |
| Calendar.CalendarDays | src/pages/Calendar.jsx:59-66 | the two push loops build the blanks followed by one cell per day of the month |
| Calendar.BlankCells | src/pages/Calendar.jsx:60-62 | the first loop pushes one blank per weekday before the first of the month |
| Calendar.AppendDayCells | src/pages/Calendar.jsx:63-66 | the second loop appends the cell of each day 1 to the month length, in order |
| Calendar.GridAt | src/pages/Calendar.jsx:49-66 | the grid's length is the blanks plus the month length, and each position holds a blank or the cell of its day |
| Calendar.MonthEnd | src/pages/Calendar.jsx:50 | day 0 of the next month is the last day of this month |
| Calendar.DaysOfMonth | src/pages/Calendar.jsx:49-52 | every day of a month in range is found by `new Date(year, month, d)`, and day 0 of the next month is its last day |
| Calendar.MonthOutline | src/pages/Calendar.jsx:49-52 | for a month in range, `getDay()` of the first is the Gregorian weekday of the first and `getDate()` of day 0 of the next month is the month's number of days |
| Calendar.GridOfMonth | src/pages/Calendar.jsx:49-66 | for a month in range, the grid starts with as many blanks as the weekday of the first, then holds the cell of every day of the Gregorian month, in order |
| Calendar.February2025 | src/pages/Calendar.jsx:49-52 | February 2025 starts on a Saturday and has 28 days |
| Calendar.TwoDigitYearGrid | src/pages/Calendar.jsx:49-64 | a two-digit year shows the grid of the same month 1900 years later |
| Calendar.TilesOf | src/pages/Calendar.jsx:104-122 | one tile per cell, in order |
| Calendar.CalendarView.constructor | src/pages/Calendar.jsx:42 | the page starts on today's date |
| Calendar.CalendarView.PrevMonth | src/pages/Calendar.jsx:54 | the view moves to `new Date(year, month - 1, 1)` |
| Calendar.CalendarView.NextMonth | src/pages/Calendar.jsx:55 | the view moves to `new Date(year, month + 1, 1)` |
| Calendar.CalendarView.Render | src/pages/Calendar.jsx:43-122 | the tiles drawn are those of the viewed month's grid with the predicted set and today's key |
| Calendar.TileOfDay | src/pages/Calendar.jsx:104-116 | in a month in range, day d's tile is highlighted exactly when a record's window covers that date, and ringed exactly when it is today |
| Calendar.GridDay | src/pages/Calendar.jsx:59-66 | day d sits at position weekday-of-the-first + d - 1, with the `Date` object and key of that very date |
| Calendar.ViewGridOn | src/pages/Calendar.jsx:45-66 | the grid drawn for a valid view date is the grid of that date's month |
| Calendar.PrevMonthOn | src/pages/Calendar.jsx:45-54 | the previous month is built from the viewed date's own year and month |
| Calendar.NextMonthOn | src/pages/Calendar.jsx:45-55 | the next month likewise |
| Calendar.PrevMonthRollover | src/pages/Calendar.jsx:54 | outside two-digit years, the previous month is the first of the month before, rolling January back into December |
| Calendar.NextMonthRollover | src/pages/Calendar.jsx:55 | the next month is the first of the month after, rolling December into January |
| Calendar.PrevThenNext | src/pages/Calendar.jsx:54-55 | back then forward returns to the first of the month |
| Calendar.CenturyBack | src/pages/Calendar.jsx:54 | back from January of year 100 gives December of year 99 |
| Calendar.TwoDigitYearNavigation | src/pages/Calendar.jsx:55 | forward from December of a two-digit year y gives January of 1901 + y, so from December 99 the calendar jumps to January 2000 |
| CalendarData.PlaceholderFirstWindow | src/pages/Calendar.jsx:11-18 | the first placeholder record starts its window on 4 February 2025 |
| CivilDates.FromOrdinal | src/pages/Calendar.jsx:28 | every day number is the number of exactly one valid date |
| CivilDates.OrdinalInjective | src/pages/Calendar.jsx:28 | different valid dates have different day numbers |
| CivilDates.Weekday | src/pages/Calendar.jsx:51 | the weekday is 0..6 |
| CivilDates.WeekdayOfNextDay | src/pages/Calendar.jsx:51 | the next day's weekday is one on, Saturday wrapping to Sunday |
| JsDates.CalendarDate | src/pages/Calendar.jsx:4-6 | the getters of a valid `Date` object read the calendar date whose day number it holds |
| JsDates.CalendarDateOn | src/pages/Calendar.jsx:4-6 | the getters of the `Date` object for a valid date read back that date |
| JsDates.NewDateShift | src/pages/Calendar.jsx:31 | adding i to the day argument moves the date i days on |
| JsDates.NewDateTwoDigitYear | src/pages/Calendar.jsx:28 | years 0..99 are read as 1900..1999 |
| JsDates.NewDateOfComponents | src/pages/Calendar.jsx:64 | a valid date is found again from its own year, month index and day |
| JsDates.IsoDayOfIsoString | src/pages/Insights.jsx:34 | `toISOString().split('T')[0]` is the UTC calendar part |
| JsDates.IsoDayInjective | src/pages/Insights.jsx:34 | two time values have the same calendar part exactly when they fall on the same UTC day |
| JsDates.IsoDateInjective | src/pages/Insights.jsx:34 | different dates are written differently |
| Numbers.StringToNumberOfDigits | src/pages/Calendar.jsx:26 | a non-empty run of decimal digits converts to its value |
| Numbers.StringToNumberOfEmpty | src/pages/Setup.jsx:26 | the empty string converts to 0 |
| Numbers.StringToNumberWithoutMinus | src/pages/Calendar.jsx:26 | a string without '-' never converts to a negative number |
| Numbers.Trunc | src/pages/Calendar.jsx:28 | truncation toward zero |
| Strings.ZeroPad | src/pages/Calendar.jsx:5-6 | the padded decimal form has the requested width and the number's value; the same padding writes the ISO fields at src/pages/Insights.jsx:34 |
| Strings.SplitAfterPiece | src/pages/Insights.jsx:34 | the first piece of a split is the text before the first separator |
| Strings.JoinSplit | src/pages/Calendar.jsx:26 | joining the pieces of a split at a character gives the string back |
| Strings.SplitJoin | src/pages/Calendar.jsx:26 | splitting a joined list at the joining character gives its parts back when no part holds it |
| Strings.TrimFacts | src/pages/Settings.jsx:19 | the trimmed text is empty exactly when the message holds only white space |
| Strings.LocaleCompare | src/pages/Insights.jsx:47 | negative, zero or positive exactly when the first string is before, equal to or after the second |
| Strings.LexLessTransitive | src/pages/Insights.jsx:47 | the string order is transitive |
| Strings.LexLessTotal | src/pages/Insights.jsx:47 | of two different strings one comes first |
| Sorting.Sort | src/pages/Insights.jsx:47 | sorting keeps the elements, each as often |
| Sorting.SortSorted | src/pages/Insights.jsx:47 | with a consistent comparator, distinct elements come out in comparator order |
| Sorting.FirstMaxIndex | src/pages/Insights.jsx:61 | the first position holding the greatest key |
| Sorting.SortDescendingHead | src/pages/Insights.jsx:61 | sorted by descending count, the head is the first entry with the greatest count |
| JsObjects.OwnKeysPermutation | src/pages/Insights.jsx:47 | `Object.keys` lists the created keys, each once per creation |
| JsObjects.OwnKeysOrder | src/pages/Insights.jsx:61 | array-index keys come first in ascending order, and without such keys the keys keep creation order |
| Insights.DateSource | src/pages/Insights.jsx:41 | `created_at ?? date ?? logged_at` is present exactly when one of them is |
| Insights.DayKeyOfTime | src/pages/Insights.jsx:30-35 | a log whose date the host reads is filed under the UTC day of that time |
| Insights.SameDayKey | src/pages/Insights.jsx:30-45 | two such logs share a group exactly when their times fall on the same UTC day |
| Insights.NoDateKey | src/pages/Insights.jsx:41 | a log is filed under 'no-date' exactly when it has no date, an empty one, or the unreadable literal 'no-date' |
| Insights.MatchingMembers | src/pages/Insights.jsx:40-45 | a group holds only logs of the input with that key |
| Insights.KeysInOrderFacts | src/pages/Insights.jsx:40-45 | the group keys are distinct, and a key occurs exactly when some log has it |
| Insights.InOwnGroup | src/pages/Insights.jsx:40-45 | every log is in the group of its own key |
| Insights.GroupBy | src/pages/Insights.jsx:40-45 | the reduce creates one group per key in first-occurrence order, each holding exactly that key's logs in log order |
| Insights.Tally | src/pages/Insights.jsx:49-59 | the counting reduces give every key the number of logs with that key |
| Insights.GroupSizesSum | src/pages/Insights.jsx:40-45 | the group sizes add up to the number of logs |
| Insights.TallyEntriesSum | src/pages/Insights.jsx:49-59 | the counts add up to the number of logs |
| Insights.SortedDatesOrder | src/pages/Insights.jsx:47 | the sorted dates are the group keys, each once, with 'no-date' last and the other keys in strictly descending string order |
| Insights.Entries | src/pages/Insights.jsx:61 | `Object.entries` pairs each key with its count |
| Insights.MostLogged | src/pages/Insights.jsx:61 | there is no top symptom exactly when there are no logs; otherwise its count is that symptom's number of logs, no other symptom's count exceeds it, and ties go to the first entry listed |
| Insights.TallyEntriesEmpty | src/pages/Insights.jsx:55-61 | there are no entries exactly when there are no logs |
| Insights.LabelRows | src/pages/Insights.jsx:104 | a severity is labelled by its name, or 'Level ' and the value |
| Insights.SeverityBreakdown | src/pages/Insights.jsx:94-114 | one row per severity, counts non-increasing, summing to the number of logs |
| Insights.CountsDescending | src/pages/Insights.jsx:99-100 | sorted by `b[1] - a[1]`, the counts do not increase |
| Insights.DayRows | src/pages/Insights.jsx:130-137 | each row shows the symptom name or '—', and the severity's label, else its raw value |
| Insights.DayLists | src/pages/Insights.jsx:124-139 | one list per sorted date, holding that date's group |
| Insights.Summarize | src/pages/Insights.jsx:37-61 | the page's total, sorted dates, per-day lists, severity rows and top symptom are those of the specification `SummaryOf` |
| Insights.DayListsCoverLogs | src/pages/Insights.jsx:124-139 | every log's row is in the list whose sorted date is that log's day key, and the lists hold as many rows in total as there are logs |
| Storage.KeyValueStore.GetItem | src/pages/Onboarding.jsx:13 | a read that does not throw returns the stored value or null |
| Storage.KeyValueStore.SetItem | src/pages/Onboarding.jsx:7 | a write that does not throw stores the value; a throwing one changes nothing |
| Storage.KeyValueStore.RemoveItem | src/context/AuthContext.jsx:21 | a removal that does not throw deletes the key |
| Api.ErrorText | src/pages/Setup.jsx:45 | the server's error, else the error's message, else the page's default |
| Onboarding.SetOnboardingComplete | src/pages/Onboarding.jsx:5-9 | 'true' is stored under the flag; a throwing write is swallowed |
| Onboarding.IsNewUser | src/pages/Onboarding.jsx:11-17 | new unless a working read finds exactly 'true'; a throwing read counts as new |
| Onboarding.CompletedIsNotNew | src/pages/Onboarding.jsx:5-17 | after the flag is written a working read says not new; writing again changes nothing; no other key is touched |
| Onboarding.OnlyTrueCompletes | src/pages/Onboarding.jsx:13 | any stored value other than exactly 'true' leaves the user new |
| Onboarding.HandleGetStarted | src/pages/Onboarding.jsx:22-26 | the flag is written first; then `onComplete` runs if given, else the app navigates to /setup, replacing history |
| Auth.StoredToken | src/context/AuthContext.jsx:46-52 | the stored token, or null when the read throws |
| Auth.GetStoredToken | src/context/AuthContext.jsx:46-52 | the method returns `StoredToken` |
| Auth.IsNewUser | src/context/AuthContext.jsx:54-56 | new exactly when the read throws or the token is missing or empty |
| Auth.UseAuth | src/context/AuthContext.jsx:40-43 | the context value, or the error 'useAuth must be used within AuthProvider' outside a provider |
| Auth.AuthProvider.constructor | src/context/AuthContext.jsx:8-14 | the initial token is the stored value, or null when the read throws |
| Auth.AuthProvider.SetToken | src/context/AuthContext.jsx:16-27 | a truthy value is stored and becomes the token; any other value removes the key and becomes the token; a throwing call leaves the token null; a truthy token always matches storage |
| Auth.AuthProvider.Logout | src/context/AuthContext.jsx:29-31 | the token is null and, with working storage, the key is gone |
| Auth.SetTokenReadBack | src/context/AuthContext.jsx:16-27 | with working storage, setting a truthy token makes the read return it and the token-based check say not new; any other value makes the check say new |
| Auth.SetTokenThrows | src/context/AuthContext.jsx:24-26 | a throwing call leaves the token null and storage as it was |
| Auth.LogoutIdempotent | src/context/AuthContext.jsx:29-31 | logging out twice is logging out once |
| Auth.LogoutMakesNew | src/context/AuthContext.jsx:29-31 | after a working logout the key is absent and the user counts as new |
| Setup.SetupForm.constructor | src/pages/Setup.jsx:15-19 | the form starts with the default date, length 28, no messages and not saving |
| Setup.SetupForm.HandleSubmit | src/pages/Setup.jsx:21-50 | an out-of-range length shows the range error and sends nothing; otherwise the profile is sent with the numeric length; a success shows 'Saved.', writes the flag and then calls `onComplete` or navigates home; a failure shows the error text with default 'Could not save.' and writes nothing; saving is false afterwards |
| Setup.FiniteRange | src/pages/Setup.jsx:27 | a finite length passes exactly when it lies in 21..45 |
| Setup.NaNPasses | src/pages/Setup.jsx:27 | NaN passes the check, the infinities do not |
| Setup.EmptyInputRefused | src/pages/Setup.jsx:26-27 | an emptied input converts to 0 and is refused |
| Setup.TypedDigits | src/pages/Setup.jsx:26-27 | typed digits pass exactly when their value is in range, and are sent as that value |
| Setup.PicksPass | src/pages/Setup.jsx:93-96 | the initial length and every quick pick pass the check |
| App.Route | src/App.jsx:37-50 | the seven route paths show their pages, 'settings' a placeholder, the onboarding pages without `onComplete`; any other path shows nothing |
| App.Render | src/App.jsx:25-50 | in onboarding the step alone picks the screen, both with `onComplete`; otherwise the route does |
| App.AppState.constructor | src/App.jsx:22-23 | the app starts in onboarding exactly when the onboarding flag says new, at the welcome step |
| App.AppState.WelcomeComplete | src/App.jsx:29 | only the step changes, to set-up |
| App.AppState.SetupComplete | src/App.jsx:31 | onboarding ends |
| App.AppState.GetStarted | src/App.jsx:28-29 | the flag is written before the step moves to set-up; the stage only advances |
| App.AppState.SaveSetup | src/App.jsx:31 | onboarding ends exactly when the profile was sent and saved; the onboarding flag is written exactly when the save succeeded and the write did not throw, and storage is otherwise unchanged; the form is not saving afterwards; the stage never goes back |
| App.RenderModes | src/App.jsx:25-50 | in onboarding the path plays no part; afterwards the route decides, and unknown paths show nothing |
| App.NavigationTargets | src/App.jsx:41-44 | the paths the pages navigate to, '/' and '/setup', are routes of the main app |
| App.NewUserChecksDiffer | src/App.jsx:10 | the shell uses the flag-based check, which disagrees with the token-based one both ways |
| LogPage.LogForm.constructor | src/pages/Log.jsx:29-34 | no messages and empty choices |
| LogPage.LogForm.HandlePeriodClick | src/pages/Log.jsx:36-45 | the reply's message or 'Cycle updated.' on success, the error text or 'Failed to update.' on failure, exactly one of them set, the symptom form untouched |
| LogPage.LogForm.HandleSymptomSubmit | src/pages/Log.jsx:47-67 | nothing is sent exactly when a choice is missing, and then the missing-choice error is set and the choices stay; a success sets 'Logged successfully.' and resets both choices; a failure sets the error text and keeps them; exactly one message is set |
| LogPage.SeverityLabelsAgree | src/pages/Log.jsx:20-26 | every severity the form offers has the same label on the insights page |
| LogPage.SubmittedEntryShows | src/pages/Log.jsx:56-59 | a submitted entry, read back with the same fields, is counted under its symptom and severity and shown with the caption the form offered |
| Settings.AnswerText | src/pages/Settings.jsx:26-32 | the reply, 'No reply.' without one, or 'Error: ' and the error text |
| Settings.SettingsPage.constructor | src/pages/Settings.jsx:7-11 | empty transcript and input, nothing loading, no errors |
| Settings.SettingsPage.Send | src/pages/Settings.jsx:17-24 | a blank message or a send while loading changes nothing; otherwise the trimmed text is appended once as a user message, the input cleared, loading set and the error cleared; the transcript keeps alternating |
| Settings.SettingsPage.SettleSend | src/pages/Settings.jsx:25-35 | one assistant message is appended at the end, the error set on failure, loading ends |
| Settings.ExchangeGrows | src/pages/Settings.jsx:22-32 | a full exchange keeps the earlier transcript as a prefix and adds two messages |
| Settings.DownloadRejection | src/utils/pdfExport.js:1-10 | a missing or empty token rejects with the not-authenticated message; otherwise the download fails exactly when the file did not arrive, with the body or the 404 or other default |
| Settings.ShownPdfError | src/pages/Settings.jsx:44 | the rejection's message when it is non-empty, and 'Download failed' when it is empty |
| Settings.SettingsPage.HandlePdfClick | src/pages/Settings.jsx:40-46 | the flags after the click as written, given by `PdfAfterClick` |
| Settings.SettingsPage.HandlePdfClickHandled | src/pages/Settings.jsx:40-46 | with the read's throw handled, loading always ends |
| Settings.PdfStuckAfterThrowingRead | src/pages/Settings.jsx:40-46 | a throwing token read leaves loading on and no error shown |
| Settings.PdfHandledSettles | src/pages/Settings.jsx:40-46 | with the throw handled, loading ends and no error shows exactly when the file arrived |
| Settings.LogoutBlocksDownload | src/utils/pdfExport.js:2-3 | after a working logout the download is refused as unauthenticated |
| Home.HomePage.constructor | src/pages/Home.jsx:6-12 | the popup shows unless a working read finds exactly 'true'; a throwing read shows it |
| Home.HomePage.CloseTrendPopup | src/pages/Home.jsx:14-19 | the flag is written, a throw being ignored, and the popup hidden either way |
| Home.CloseThenRemount | src/pages/Home.jsx:6-19 | after closing with working storage, a remount in the session does not show the popup |

## Left out

- Rendering, styling, icons, the layout and its navigation bar, the background component, `api.js` and the dev-server configuration are presentational or wiring.
- Network calls are not made. Each page method takes the request's outcome as a parameter: success with the reply's fields, or failure with an optional server error and message.
- A pending request is not modelled as a state of its own for `Setup.SetupForm.HandleSubmit`, `LogPage.LogForm.HandleSymptomSubmit` and the PDF click. These run from the click to the settled result in one step. The chat is split into `Send` and `SettleSend` so the loading guard can be stated.
- Overlapping requests and unmounting during a request are not modelled, because they depend on timing.
- The host's date parser (`new Date(str)`) depends on the time zone, so it is the `DateParser` parameter of the insights functions.
- `formatDate` and `toLocaleDateString`, which give the per-day headings, depend on the locale and are left out.
- `new Date()` for today and the default last-period date depend on the clock, so they are parameters.
- `localeCompare` is modelled as code-point order; locale collation is not modelled. JavaScript's `<` compares UTF-16 code units, which puts a character above U+FFFF before one in U+E000..U+FFFF; the model orders them the other way. The day keys that the page's constant logs give are ASCII, and there the two orders agree.
- The range check of `new Date(y, m, d)` runs on the local day number as if the host were on UTC. The shift of the 8.64e15 ms boundary by the zone offset is not modelled, and neither are local days with no midnight because the zone skipped them (a date built on such a day reads back a different day).
- Numbers are exact reals: the rounding of doubles is not modelled, and neither are the floating-point severity bar widths and the CSS `capitalize` transform.
- Insights fields and the calendar records' start and end fields are modelled as strings when present. Non-string values are not modelled: a truthy non-string start would make `split` throw and the calendar page fail. A null log list (`logs || []`) is not modelled either. Both pages' data are constant lists of records with string fields; the insights list itself is not restated.
- Keys that `Object.prototype` already owns (`__proto__`, `constructor`) are not modelled; such a key would misbehave in the page's dictionaries.
- Calendar.RecordStartOfDateKey: holds for dates from the year 100 on, because `new Date` reads two-digit years as 1900..1999.
- Calendar.GridOfMonth, Calendar.PrevMonthRollover, Calendar.NextMonthRollover and Calendar.PrevThenNext are stated for years outside 0..99 and within the time-value range; Calendar.TwoDigitYearGrid, Calendar.CenturyBack and Calendar.TwoDigitYearNavigation state what happens in two-digit years.
- Route matching is exact. React Router also matches paths case-insensitively and with a trailing slash; that is not modelled.
- The browser's own validation of the number input (its `min` and `max`) is not modelled: the set-up form takes any typed text.
- LogPage.LogForm.HandlePeriodClick and LogPage.LogForm.HandleSymptomSubmit state which message is set. An empty reply message or empty error text is set but renders nothing, because the page shows a message only when its text is non-empty.
- The quick-pick buttons and the input's change handler are plain field assignments; the model sets the fields directly.
- `downloadSymptomPdf` is modelled by the message it rejects with:
  - Fetch, Blob, object URLs and the anchor click are I/O and are left out.
  - A failed fetch or file step is a rejection with a given message.
- The 'Me' page (`Settings.jsx`) is modelled, but the shell routes 'settings' to a placeholder, so no path reaches it.

## Findings

| source | as written | input that shows it | evidently intended | confidence | as-written member | corrected member |
|---|---|---|---|---|---|---|
| src/pages/Settings.jsx:40-46 | `downloadSymptomPdf` reads the token from `localStorage` before it returns a promise, so a throwing read escapes `handlePdfClick` before `.catch` and `.finally` are attached | storage that throws on `getItem` (for example disabled storage), then a click on the download button | `pdfLoading` ends after every outcome and the failure is shown | not executed | Settings.PdfStuckAfterThrowingRead | Settings.PdfHandledSettles |
