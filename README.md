# Daikyujo results site: a verified Dafny model of its data layer

The daikyujo-next site publishes the monthly ranking results (成績, *seiseki*) and the
yearly tournament results (大会, *taikai*) of a Japanese archery range. Each month and
each tournament is one JSON record on disk, and an index file lists them newest
first. Admins edit the records through two forms and two API routes. A set of
maintenance scripts gives every ranked person a stable `person_NNN` id in a person
registry, then checks that registry and prints it.

This project models that logic in Dafny and proves what it promises. It covers:

- the two stores (`lib/seiseki.ts`, `lib/taikai.ts`). Each is a class holding a map of
  records and an index sequence that every save and delete keeps at one line per
  period, sorted newest first;
- the reconstruction of a person's monthly history. It scans the index oldest first,
  then walks every calendar month from the first appearance to the last and fills
  gaps. The per-name tournament history has no gaps;
- the target-size parser (`lib/utils.ts`), whose result is counted in tenths of a 寸
  (*sun*);
- the two server-side validators with their authorisation and validation gating;
- the admin editing rules: the date parts, the entry and participant lists, score
  totals, and score-input clamping;
- the display-side list shaping: padding to ten, the desktop interleave, carousel
  navigation and short dates;
- the registry scripts: id assignment, registry aggregation, the consistency checker,
  the Markdown writer, and the importer's helpers.

One Dafny module stands for each source file, named after it (`SeisekiStore`,
`TaikaiRoute`, `AddPersonIds`, ...). `Types` holds the records of `types/seiseki.ts`
and `types/taikai.ts` plus the registry records of the scripts. `Common` holds the
JavaScript built-ins the code relies on: `parseInt`, `padStart`, `trim`, `Math.max`,
`filter`, `reverse`, and UTF-16 `length`. `Sorting` holds the stable
`Array.prototype.sort`. `DataFiles` holds the data-file listing that three scripts
share; a flag selects the one copy that calls `parseInt` without a radix.

How the model represents the source:

- **State.** Code that updates state step by step is a `class` or a `method` with
  loops. Each is proved against a function of the inputs and the old state. The
  properties are then lemmas about those functions.
- **Environment.** Files become maps. The clock (`now`), fresh UUIDs, the login
  session and directory listings become parameters.
- **Numbers.** JavaScript numbers are integers. `NaN` and `null` become `Option`
  values.
- **Errors.** Thrown errors and API error responses become an `Outcome` (`Pass` or
  `Fail(message)`), with the source's messages.


## Model

| member | source | states |
|---|---|---|
| Common.NatToString | scripts/add-person-ids.ts:140 | `String(n)` is a non-empty digit string whose value is n, with no leading zero unless n is 0 |
| Common.PadStart | scripts/add-person-ids.ts:140 | `padStart(width, c)` leaves the string as its suffix, fills the front with c only, and gives length max(length, width) |
| Common.PaddedNumber | scripts/generate-persons-md.ts:31 | `String(n).padStart(width, "0")` is a digit string of value n at least `width` long |
| Common.PaddedNumberIsPadStart | scripts/generate-persons-md.ts:31 | zero-padding a number is exactly `padStart` with "0" on its decimal digits |
| Common.PaddedNumberInjective | scripts/add-person-ids.ts:140 | two numbers with the same zero-padded text are equal, so padded ids never collide |
| Common.PaddedFourFrom1000 | scripts/add-person-ids.ts:140 | from 1000 on, padding changes nothing |
| Common.LeadingZerosValue | components/admin/DateInput.tsx:29-31 | leading zeros do not change the value of a digit string |
| Common.NatToStringLength | scripts/validate-person-ids.ts:113-122 | numbers below 10, 100, 1000 and 10000 print with 1, 2, 3 and 4 characters |
| Common.NatToStringLongAbove | scripts/validate-person-ids.ts:113-122 | numbers from 10000 on print with at least five characters |
| Common.JsLength | app/api/admin/seiseki/route.ts:63-68 | the JavaScript length of a string (UTF-16 units) is never below its number of characters |
| Common.Tagged | app/api/admin/seiseki/route.ts:32-38 | a message built as tag followed by text starts with the tag and carries the text after it |
| Common.TrimStartSpec | app/api/admin/taikai/route.ts:20-23 | `trimStart` removes only white space and keeps a suffix that does not begin with white space |
| Common.TrimEndSpec | app/api/admin/taikai/route.ts:20-23 | `trimEnd` removes only white space and keeps a prefix that does not end with white space |
| Common.TrimEmptyIffBlank | app/api/admin/taikai/route.ts:20-23 | `trim()` is empty exactly when the string is all white space |
| Common.DigitPrefix | scripts/import-seiseki.ts:165 | the longest leading run of decimal digits |
| Common.ParseIntOfNatToString | scripts/validate-person-ids.ts:126 | `parseInt(String(n))` gives n back |
| Common.ParseIntOfDigits | lib/utils.ts:17-18 | `parseInt` of a non-empty digit string is its decimal value |
| Common.RemoveFirst | scripts/validate-person-ids.ts:126 | `replace(pattern, "")` with a string pattern at the front drops exactly that prefix |
| Common.Reverse | lib/seiseki.ts:240 | element i of the reversed sequence is element n-1-i of the original |
| Common.Filter | lib/seiseki.ts:176-178 | `filter` keeps only accepted elements |
| Common.FilterContents | lib/seiseki.ts:176-178 | every kept element comes from the input and every accepted input element is kept |
| Common.FilterSubsequence | lib/taikai.ts:154 | `filter` keeps the relative order of what it keeps |
| Common.FilterKeepsAll | lib/taikai.ts:154 | filtering with a predicate every element meets changes nothing |
| Common.MathMaxMeaning | scripts/validate-person-ids.ts:125-127 | `Math.max(...xs)` is -Infinity exactly for no arguments, NaN exactly when an argument is NaN, and otherwise the largest argument |
| Common.DaysInMonth | components/admin/DateInput.tsx:34-43 | every month has 28 to 31 days, and February has 29 exactly in Gregorian leap years |
| Sorting.Insert | lib/seiseki.ts:155-158 | inserting adds exactly one element, as a multiset |
| Sorting.Sort | lib/seiseki.ts:155-158 | the sorted copy is a permutation of the input |
| Sorting.SortSorted | lib/seiseki.ts:155-158 | for a comparator that is a total preorder on the elements, the result is sorted by it |
| Sorting.InsertSorted | lib/seiseki.ts:155-158 | inserting into a sorted sequence keeps it sorted |
| Sorting.SortMembers | lib/taikai.ts:136 | sorting neither adds nor loses a member |
| Sorting.SortKeysDistinct | lib/taikai.ts:136 | sorting keeps distinct keys distinct |
| Types.PersonKeyNote | scripts/migrate-persons.ts:145-151 | a person gets a note exactly when they have a personKey |
| Types.FromOrdinal | lib/seiseki.ts:302-307 | the month at a given count of months since year 0 has a month number in 1..12 and is the inverse of that count |
| Types.OrdinalRoundTrip | lib/seiseki.ts:302-307 | counting months and converting back gives the same (year, month) |
| Types.OrdinalOrder | lib/seiseki.ts:271-274 | calendar order of two months is the order of their month counts |
| Types.NextMonthOrdinal | lib/seiseki.ts:302-307 | stepping to the next month, with December rolling to January, adds one to the month count |
| TargetSize.RunEnd | lib/utils.ts:15 | the end of a digit run: everything before it is a digit and the character at it is not |
| TargetSize.RunEndUnique | lib/utils.ts:15 | a digit run followed by a non-digit is the one that `RunEnd` finds |
| TargetSize.CombinedAtExact | lib/utils.ts:15-18 | every match of `(\d+)寸(\d+)分` at a position is the one found there, with its two group values |
| TargetSize.CombinedAtSound | lib/utils.ts:15-18 | what is found at a position is a real match of the combined pattern |
| TargetSize.SunAtExact | lib/utils.ts:23-25 | every match of `(\d+)寸` at a position is the one found there |
| TargetSize.SunAtSound | lib/utils.ts:23-25 | what is found is a real match of the 寸 pattern |
| TargetSize.FirstCombinedNone | lib/utils.ts:15 | the left-to-right scan finds no combined match exactly when none starts at any position |
| TargetSize.FirstSunNone | lib/utils.ts:23 | the scan finds no 寸 match exactly when none starts at any position |
| TargetSize.FirstCombinedIs | lib/utils.ts:15 | the scan returns the leftmost combined match |
| TargetSize.FirstSunIs | lib/utils.ts:23 | the scan returns the leftmost 寸 match |
| TargetSize.CombinedWins | lib/utils.ts:15-20 | the leftmost N寸M分 anywhere in the string gives N*10+M tenths, whatever else the string holds |
| TargetSize.SunWins | lib/utils.ts:22-26 | with no N寸M分, the leftmost N寸 gives N*10 tenths |
| TargetSize.NoCombined | lib/utils.ts:15-16 | when the combined pattern matches nowhere, the first branch is not taken |
| TargetSize.BuOnlyLast | lib/utils.ts:28-34 | with neither earlier pattern matching, a result exists exactly when the whole string is digits then 分, and it is those digits in tenths; otherwise null |
| TargetSize.SunOnlyIsWhole | lib/utils.ts:23-26 | a size given in 寸 alone is a whole number of 寸 |
| TargetSize.ExampleCombined | lib/utils.ts:7-8 | "1寸2分" is 12 tenths and "2寸4分" is 24 |
| TargetSize.ExampleCombinedAt | lib/utils.ts:15-20 | any four-character "d寸d分" gives first digit * 10 + second digit |
| TargetSize.ExampleSunOnly | lib/utils.ts:9 | "1寸" is 10 tenths |
| TargetSize.ExampleBuOnly | lib/utils.ts:10-11 | "8分" is 8 tenths and "-" is null |
| SeisekiStore.ValidateYearMonth | lib/seiseki.ts:12-19 | passes exactly for years 2000..2100 and months 1..12; the year is checked first ("Invalid year"), then the month ("Invalid month") |
| SeisekiStore.LoadPeriod | lib/seiseki.ts:50-62 | a record is returned exactly when the month is valid and its file exists, and it is that file's record; otherwise null, never an error |
| SeisekiStore.SavedRecordStamps | lib/seiseki.ts:86-97 | the saved record has the given year, month and entries and updatedAt = now; publishedAt is the existing record's when that one is non-empty, else now |
| SeisekiStore.SaveKeepsWellFormed | lib/seiseki.ts:91-101 | writing a record at its own valid month keeps every stored record at its own valid month |
| SeisekiStore.SaveCheck | lib/seiseki.ts:67-76 | a save goes ahead exactly for a valid month and an array of entries; an invalid month fails with validateYearMonth's error |
| SeisekiStore.PeriodDescMeaning | lib/seiseki.ts:155-158 | the index comparator puts a before b exactly when a is not older, and ties exactly on the same month |
| SeisekiStore.PeriodDescLawful | lib/seiseki.ts:155-158 | the index comparator is a total preorder, so sorting by it gives a sorted index |
| SeisekiStore.FindPeriod | lib/seiseki.ts:129-131 | `findIndex` returns the first line of that month, or -1 exactly when there is none |
| SeisekiStore.SavedIndexSorted | lib/seiseki.ts:146-158 | after a save the index is newest first |
| SeisekiStore.UpsertContents | lib/seiseki.ts:139-152 | replacing or appending the month's line keeps one line per month, contains the new metadata and leaves other months' lines as they were |
| SeisekiStore.SavedIndexContents | lib/seiseki.ts:139-158 | with one line per month before a save, there is one after it; the saved month's only line is the new metadata (entryCount, publishedAt), and other months' lines are unchanged |
| SeisekiStore.SavedIndexStrictlyDescending | lib/seiseki.ts:155-158 | with one line per month, the saved index strictly decreases by (year, month) |
| SeisekiStore.RemovePeriodContents | lib/seiseki.ts:173-178 | after a delete, no line of that month remains, every other line stays, and their relative order is kept |
| SeisekiStore.RemovePeriodKeepsSorted | lib/seiseki.ts:176-178 | removing lines keeps a newest-first index sorted |
| SeisekiStore.RemovePeriodKeepsKeysDistinct | lib/seiseki.ts:173-178 | a delete keeps the index at one line per month |
| SeisekiStore.RemovePeriodKeepsStrictOrder | lib/seiseki.ts:173-178 | a delete keeps a strictly newest-first index strictly newest first |
| SeisekiStore.StrictOrderIff | lib/seiseki.ts:154-158 | an index is strictly newest first exactly when it is sorted newest first and has one line per month |
| SeisekiStore.LatestRecordIsNewest | lib/seiseki.ts:188-197 | with a sorted index, the latest record is at least as new as every indexed month |
| SeisekiStore.YearMonthsProperties | lib/seiseki.ts:202-214 | getYearSeisekiData lists only non-empty records of that year, with strictly decreasing months, and misses none |
| SeisekiStore.YearMonthsShape | lib/seiseki.ts:206-211 | every listed record is a non-empty month of that year |
| SeisekiStore.YearMonthsDescending | lib/seiseki.ts:206 | the months run from December down |
| SeisekiStore.YearMonthsComplete | lib/seiseki.ts:207-210 | every non-empty record of the year is listed |
| SeisekiStore.DistinctYears | lib/seiseki.ts:221 | the spread of the Set of years has each year once and holds exactly the indexed years |
| SeisekiStore.AvailableYearsProperties | lib/seiseki.ts:219-223 | getAvailableYears holds exactly the indexed years, each once, strictly descending |
| SeisekiStore.FindEntry | lib/seiseki.ts:247 | `find` returns only an entry of the month that carries exactly that personId |
| SeisekiStore.FindEntryFirst | lib/seiseki.ts:247 | `find` gives nothing exactly when no entry has the personId, and otherwise the first one that does |
| SeisekiStore.PointAt | lib/seiseki.ts:243-251 | an index line gives at most one data point, at its own valid month |
| SeisekiStore.Points | lib/seiseki.ts:240-253 | every collected data point is at a valid month |
| SeisekiStore.PointFor | lib/seiseki.ts:276-278 | the month's lookup among the data points finds nothing exactly when no point is at that month, and otherwise the first one that is |
| SeisekiStore.GapRecord | lib/seiseki.ts:292-299 | a gap record is at the given month |
| SeisekiStore.HistoryRecord | lib/seiseki.ts:276-300 | the record of a month is at that month |
| SeisekiStore.MonthRecordsNext | lib/seiseki.ts:271-307 | one more step of the walk appends the record of the next month |
| SeisekiStore.WalkAt | lib/seiseki.ts:268-307 | the k-th record of the walk is the record of the k-th month after the first data point |
| SeisekiStore.CollectReverse | lib/seiseki.ts:240-253 | scanning the reversed index collects the data points oldest first |
| SeisekiStore.PointsEmptyIff | lib/seiseki.ts:243-258 | no data point is found exactly when no index line's record loads and holds the personId |
| SeisekiStore.PersonHistoryNullIff | lib/seiseki.ts:256-260 | getPersonHistory is null exactly when, for every index line, the record is missing or has no entry with that personId |
| SeisekiStore.PointsLast | lib/seiseki.ts:240-251 | the last point found comes from the first matching index line, the newest one in a sorted index |
| SeisekiStore.PointsFirst | lib/seiseki.ts:240-251 | the first point found comes from the last matching index line |
| SeisekiStore.PersonNameFromNewestMatch | lib/seiseki.ts:249 | the name returned is that of the entry on the first matching index line, the last match in the oldest-first scan |
| SeisekiStore.PointFromLine | lib/seiseki.ts:243-251 | every data point is the month of some index line |
| SeisekiStore.PointsAscending | lib/seiseki.ts:240 | with the index newest first, the reversed scan meets months strictly oldest first |
| SeisekiStore.WalkSteps | lib/seiseki.ts:302-307 | each record of the walk is the calendar month after the previous one |
| SeisekiStore.WalkContiguous | lib/seiseki.ts:263-308 | with chronological points, the walk starts at the first point's month, ends at the last's, and steps one calendar month at a time |
| SeisekiStore.HistoryContiguous | lib/seiseki.ts:263-308 | for a sorted index, the history has 12 * (years apart) + (months apart) + 1 records, from the first match's month to the last's, consecutive months with December rolling to January |
| SeisekiStore.HistoryRecords | lib/seiseki.ts:276-300 | a record has a rank exactly when a data point is at its month, and exactly when it has a numeric size; it copies rank, size and title from the first such point, with an unreadable size counted as 0; every other record is the gap (null rank, "-", null size, "") |
| SeisekiStore.HistoryCoversPoints | lib/seiseki.ts:263-300 | for a sorted index, every month where the person appears is in the history with a rank |
| SeisekiStore.EmptyPersonIdMatches | lib/seiseki.ts:247 | the empty personId is not rejected: it finds the months holding editor-saved entries, whose personId is "" |
| SeisekiStore.AscendingIndexLosesHistory | lib/seiseki.ts:240-274 | with an index listing January before February, a person present in both months gets a history object with no months at all |
| SeisekiStore.Store.constructor | lib/seiseki.ts:34-38 | an empty store: no records, no index lines |
| SeisekiStore.Store.SaveSeisekiData | lib/seiseki.ts:67-168 | the outcome is the save's checks; on failure nothing changes; on success the month's record is the saved record, the index is the upserted and sorted one, lastUpdated is now, and stored records stay at their own valid months |
| SeisekiStore.Store.DeleteSeisekiData | lib/seiseki.ts:110-120 | the outcome is validateYearMonth's; on success the month's record and index lines are gone, the rest is kept in order, and lastUpdated is now |
| SeisekiStore.Store.GetYearSeisekiData | lib/seiseki.ts:202-214 | the loop from December down to January returns the year's non-empty records |
| SeisekiStore.Store.GetPersonHistory | lib/seiseki.ts:230-315 | the result is the person-history function of the current records and index |
| SeisekiStore.Store.ScanIndex | lib/seiseki.ts:236-253 | the loop over the reversed index collects exactly the data points of the oldest-first scan, and personName is the last one's name |
| SeisekiStore.WalkMonths | lib/seiseki.ts:263-308 | the while loop with month rollover builds exactly the walk from the first point's month to the last's |
| TaikaiStore.ValidateYear | lib/taikai.ts:11-15 | passes exactly for years 1900..2100, otherwise "Invalid year" |
| TaikaiStore.LoadYear | lib/taikai.ts:44-56 | a record is returned exactly when the year is valid and its file exists; otherwise null |
| TaikaiStore.SavedTaikaiStamps | lib/taikai.ts:71-81 | the saved record is the submitted data with year forced to the argument and updatedAt = now; publishedAt is kept when non-empty, else now |
| TaikaiStore.SaveTaikaiKeepsWellFormed | lib/taikai.ts:76-83 | writing a record under its own valid year keeps every record at its own valid year |
| TaikaiStore.SaveTaikaiCheck | lib/taikai.ts:61-62 | a save completes exactly for a valid year and an array of participants; an invalid year fails with validateYear's error |
| TaikaiStore.YearDescendingLawful | lib/taikai.ts:136 | `b.year - a.year` is a total preorder |
| TaikaiStore.FindYear | lib/taikai.ts:111 | `findIndex` returns the first line of that year, or -1 exactly when there is none |
| TaikaiStore.SavedTaikaiIndexSorted | lib/taikai.ts:127-136 | after a save the index years are non-increasing |
| TaikaiStore.UpsertYearContents | lib/taikai.ts:119-133 | replacing or appending the year's line keeps one line per year, contains the new metadata and leaves other years' lines as they were |
| TaikaiStore.SavedTaikaiIndexContents | lib/taikai.ts:119-136 | with one line per year before a save, there is one after it; the year's only line is the new metadata (name, participant count, date, publishedAt), and other years' lines are unchanged |
| TaikaiStore.SavedTaikaiIndexStrictlyDescending | lib/taikai.ts:136 | with one line per year, the saved index has strictly decreasing years |
| TaikaiStore.RemoveYearContents | lib/taikai.ts:151-154 | after a delete, no line of that year remains, and every other line stays in order |
| TaikaiStore.RemoveYearKeepsSorted | lib/taikai.ts:151-154 | a delete keeps an index sorted by descending year sorted |
| TaikaiStore.RemoveYearKeepsKeysDistinct | lib/taikai.ts:151-154 | a delete keeps the index at one line per year |
| TaikaiStore.RemoveYearKeepsStrictOrder | lib/taikai.ts:151-154 | a delete keeps strictly descending years strictly descending |
| TaikaiStore.LatestTaikai | lib/taikai.ts:164-173 | null for an empty index, otherwise the record of the first line's year |
| TaikaiStore.LatestTaikaiIsNewest | lib/taikai.ts:164-173 | with a sorted index, the latest record's year is the largest indexed year |
| TaikaiStore.FindParticipant | lib/taikai.ts:190-192 | `find` gives nothing exactly when no participant has exactly that name, and otherwise the first one that does |
| TaikaiStore.LineAt | lib/taikai.ts:185-204 | an index line gives at most one history line |
| TaikaiStore.HistoryLinesEmptyIff | lib/taikai.ts:185-210 | the history has no lines exactly when no indexed year's record lists the name |
| TaikaiStore.PersonTaikaiHistoryNullIff | lib/taikai.ts:207-215 | getPersonTaikaiHistory is null exactly when no indexed year's record lists the name; otherwise it carries that name |
| TaikaiStore.HistoryLinesFromIndex | lib/taikai.ts:185-205 | one line per attended index line and no gap lines; the line of attended line i has its year and tournament name and the first participant's rank, scores and title |
| TaikaiStore.HistoryLinesCount | lib/taikai.ts:185-205 | the number of lines is the number of attended index lines |
| TaikaiStore.HistoryLineAt | lib/taikai.ts:194-204 | the line of attended index line i comes after the lines of the attended lines before it and is built from line i |
| TaikaiStore.HistoryLineSource | lib/taikai.ts:195-197 | every history line has the year and tournament name of an attended index line |
| TaikaiStore.HistoryLinesDescending | lib/taikai.ts:214 | with the index newest first, the history is newest first |
| TaikaiStore.Store.constructor | lib/taikai.ts:28-32 | an empty store: no records, no index lines |
| TaikaiStore.Store.SaveTaikaiData | lib/taikai.ts:61-146 | the outcome is the save's checks; an invalid year changes nothing; otherwise the record is written; when participants is not an array, the index is left alone; on success the index is the upserted and sorted one and lastUpdated is now |
| TaikaiStore.Store.DeleteTaikaiData | lib/taikai.ts:92-102 | the outcome is validateYear's; on success the year's record and index lines are gone and the rest is kept in order |
| TaikaiStore.Store.GetPersonTaikaiHistory | lib/taikai.ts:180-216 | the loop over the index returns the per-name history function of the current records and index |
| SeisekiRoute.DayTailShaped | app/api/admin/seiseki/route.ts:91 | the day part of the date pattern is exactly one or two digits followed by 日 and nothing after |
| SeisekiRoute.MonthDayTailShaped | app/api/admin/seiseki/route.ts:91 | the month-and-day part is exactly one or two digits, 月, one or two digits, 日 |
| SeisekiRoute.DateSplit | app/api/admin/seiseki/route.ts:91-105 | a date the pattern accepts splits into four digits, 年, one or two digits, 月, one or two digits, 日 |
| SeisekiRoute.DateJoin | app/api/admin/seiseki/route.ts:91-105 | every string of that shape is accepted |
| SeisekiRoute.IsJapaneseDateIff | app/api/admin/seiseki/route.ts:91-105 | the left-to-right recogniser accepts exactly the language of the anchored pattern (both directions) |
| SeisekiRoute.CheckEntry | app/api/admin/seiseki/route.ts:30-105 | one iteration passes exactly when the id, rank 1..10, name (1..50 UTF-16 units), title (up to 20), target size (1..20) and both dates are valid and the rank is unseen; a failure message starts "Entry n: " with n counted from 1 |
| SeisekiRoute.RanksOf | app/api/admin/seiseki/route.ts:48-54 | the rank set holds exactly the ranks of the entries seen |
| SeisekiRoute.RestStep | app/api/admin/seiseki/route.ts:30-106 | the remaining entries are valid and distinct exactly when this entry is valid with an unseen rank and the rest are valid given its rank |
| SeisekiRoute.CheckEntriesFromPass | app/api/admin/seiseki/route.ts:30-106 | the loop from an index passes exactly when every remaining entry is valid, has an unseen rank, and the remaining ranks are pairwise distinct |
| SeisekiRoute.ValidateSeisekiIff | app/api/admin/seiseki/route.ts:6-109 | valid exactly when year is 2000..2100, month 1..12, there are 1..10 entries, every entry's fields are valid and ranks are pairwise distinct |
| SeisekiRoute.FirstFailureFrom | app/api/admin/seiseki/route.ts:30-106 | a failing loop fails at an entry all of whose predecessors pass, with that entry's own error |
| SeisekiRoute.FirstFailingEntryReported | app/api/admin/seiseki/route.ts:30-106 | when the header checks pass and validation fails, the error is the first failing entry's, and it names that entry's 1-based number |
| SeisekiRoute.ValidSubmissionIsSaved | app/api/admin/seiseki/route.ts:125-131 | a submission the route accepts always passes the library's own save checks |
| SeisekiRoute.ValidateSeisekiData | app/api/admin/seiseki/route.ts:6-109 | the method with its early returns and its mutable rank set returns the validation outcome |
| SeisekiRoute.ValidateEntry | app/api/admin/seiseki/route.ts:31-105 | one loop iteration's checks, in source order, return the per-entry outcome |
| SeisekiRoute.PostSeiseki | app/api/admin/seiseki/route.ts:111-136 | with no session the response is 401; an invalid body gives 400 with the validation error; neither changes the store; otherwise the store is saved and the response is 200 with the success message |
| TaikaiRoute.IsYearLabelIff | app/api/admin/taikai/route.ts:29-35 | the event date is accepted exactly when it is four digits followed by 年 |
| TaikaiRoute.CheckParticipant | app/api/admin/taikai/route.ts:44-118 | one iteration passes exactly when id is non-empty, rank a positive integer and unseen, name 1..50 UTF-16 units, title up to 20, scores non-negative numbers, and total = score1 + score2; a failure starts "Participant n: " |
| TaikaiRoute.RanksOf | app/api/admin/taikai/route.ts:62-68 | the rank set holds exactly the ranks of the participants seen |
| TaikaiRoute.RestStep | app/api/admin/taikai/route.ts:44-119 | the remaining participants are valid and distinct exactly when this one is valid with an unseen rank and the rest are valid given its rank |
| TaikaiRoute.CheckParticipantsFromPass | app/api/admin/taikai/route.ts:44-119 | the loop from an index passes exactly when every remaining participant is valid with an unseen rank and the remaining ranks are pairwise distinct |
| TaikaiRoute.ValidateTaikaiIff | app/api/admin/taikai/route.ts:6-122 | valid exactly when year is 2000..2100, the name is non-blank after trim and at most 50 long, eventDate is "YYYY年", there is at least one participant (no upper bound), each is valid and ranks are pairwise distinct |
| TaikaiRoute.FirstFailureFrom | app/api/admin/taikai/route.ts:44-119 | a failing loop fails at a participant all of whose predecessors pass, with that participant's own error |
| TaikaiRoute.FirstFailingParticipantReported | app/api/admin/taikai/route.ts:44-119 | when the header checks pass and validation fails, the error is the first failing participant's and names its 1-based number |
| TaikaiRoute.RouteYearsWithinLibrary | app/api/admin/taikai/route.ts:15-17 | every year the route accepts is one the library accepts |
| TaikaiRoute.LibraryAcceptsEarlierYears | lib/taikai.ts:12 | the layers disagree: the library accepts 1950, which the route rejects with "Year must be between 2000 and 2100" |
| TaikaiRoute.ValidateTaikaiData | app/api/admin/taikai/route.ts:6-122 | the method with its early returns and mutable rank set returns the validation outcome |
| TaikaiRoute.ValidateParticipant | app/api/admin/taikai/route.ts:45-118 | one loop iteration's checks, in source order, return the per-participant outcome |
| TaikaiRoute.PostTaikai | app/api/admin/taikai/route.ts:124-162 | with no session the response is 401; an invalid body gives 400 with the validation error; neither changes the store; otherwise the submitted record (with empty stamps) is saved and the response is 200 |
| DateInput.DigitsThen | components/admin/DateInput.tsx:23 | `\d{1,2}` followed by the marker: the position of the marker after one or two digits, and none exactly when no such run exists |
| DateInput.DateMatchFromMarks | components/admin/DateInput.tsx:23 | four digits, 年, one or two digits, 月, one or two digits, 日 at a position are a match of the date pattern there |
| DateInput.DateMatchAtSound | components/admin/DateInput.tsx:23 | what the matcher finds at a position is a real match with those groups |
| DateInput.DateMatchAtComplete | components/admin/DateInput.tsx:23 | every match at a position is the one the matcher finds |
| DateInput.DateMatchAtExact | components/admin/DateInput.tsx:23 | the matcher returns groups (y, m, d) at a position exactly when the pattern matches there with those groups |
| DateInput.FirstDateMatch | components/admin/DateInput.tsx:23-26 | `match` finds nothing exactly when no position matches, and otherwise the leftmost match |
| DateInput.ParseJapaneseDate | components/admin/DateInput.tsx:22-32 | the three parts are digit strings |
| DateInput.ParseJapaneseDateShape | components/admin/DateInput.tsx:22-32 | with no match, three empty strings; otherwise the 4-digit year and the month and day of the leftmost match, each padded to 2 |
| DateInput.CheckDateMeaning | components/admin/DateInput.tsx:73-107 | an empty part hands back ""; otherwise a date is handed back exactly when the month is 1..12 and the day is within that month of that year, written "{y}年{m}月{d}日" without padding |
| DateInput.FormatParseRoundTrip | components/admin/DateInput.tsx:22-32 | for a four-digit year, parsing the handed-back string gives the same year and the month and day padded to two, and the results endpoint accepts it |
| DateInput.FormatParseValues | components/admin/DateInput.tsx:22-32 | the parsed parts have the values that were written |
| DateInput.LeadingZeroYearLost | components/admin/DateInput.tsx:81-106 | a year typed as "0999" is handed back as "999年1月1日", which parseJapaneseDate cannot read and the results endpoint rejects |
| DateInput.KeepDigits | components/admin/DateInput.tsx:111 | `replace(/[^0-9]/g, "")` keeps exactly the digits, in order, and changes a digit string not at all |
| DateInput.BoxText | components/admin/DateInput.tsx:110-134 | the box holds the first `width` kept digits, all of them when there are at most `width` |
| DateInput.DateField.constructor | components/admin/DateInput.tsx:51-56 | the three boxes start as the parsed value and the error is empty |
| DateInput.DateField.SyncValue | components/admin/DateInput.tsx:62-71 | a new value re-parses into the three boxes |
| DateInput.DateField.ValidateAndUpdate | components/admin/DateInput.tsx:73-108 | when the date check hands a date back, it is emitted and the error is cleared; otherwise nothing is emitted and the error is the check's message |
| DateInput.DateField.HandleYearChange | components/admin/DateInput.tsx:110-118 | the year box becomes the first four digits typed, the other boxes are unchanged, and the date check runs on the new boxes |
| DateInput.DateField.HandleMonthChange | components/admin/DateInput.tsx:120-128 | the month box becomes the first two digits typed, and the date check runs |
| DateInput.DateField.HandleDayChange | components/admin/DateInput.tsx:130-134 | the day box becomes the first two digits typed, and the date check runs |
| SeisekiEditor.Renumber | app/admin/seiseki/page.tsx:85-88 | the ranks become 1..n down the list, and nothing but the rank changes |
| SeisekiEditor.WithoutId | app/admin/seiseki/page.tsx:84 | exactly the entries with other ids remain, in their order |
| SeisekiEditor.SetField | app/admin/seiseki/page.tsx:94 | the named field takes the value and every other field is unchanged |
| SeisekiEditor.UpdateWhere | app/admin/seiseki/page.tsx:94 | entries with that id get the field set; every other entry is unchanged |
| SeisekiEditor.RemoveRenumbers | app/admin/seiseki/page.tsx:82-91 | after a remove, ranks are 1..n, the id is gone, and every other entry is kept except for its rank |
| SeisekiEditor.AppendKeepsRanks | app/admin/seiseki/page.tsx:68-79 | appending the blank entry with rank n+1 keeps ranks 1..n+1 |
| SeisekiEditor.UpdateKeepsRanks | app/admin/seiseki/page.tsx:93-95 | a field update keeps ranks 1..n |
| SeisekiEditor.ConsecutiveRanksDistinct | app/admin/seiseki/page.tsx:60-70 | ranks 1..n for at most ten entries are in 1..10 and pairwise distinct, as the results endpoint requires |
| SeisekiEditor.Editor.constructor | app/admin/seiseki/page.tsx:11-18 | the page starts at 2025/1 with no entries and no message |
| SeisekiEditor.Editor.CreateNew | app/admin/seiseki/page.tsx:51-57 | the list is emptied and the success message names the period |
| SeisekiEditor.Editor.AddEntry | app/admin/seiseki/page.tsx:59-80 | with ten entries, the list is unchanged and the cap error is set; otherwise exactly one blank entry (personId "") with rank n+1 is appended; ranks 1..n and the cap of ten are kept |
| SeisekiEditor.Editor.RemoveEntry | app/admin/seiseki/page.tsx:82-91 | the list becomes the renumbered list without that id |
| SeisekiEditor.Editor.UpdateEntry | app/admin/seiseki/page.tsx:93-95 | only the named field of entries with that id changes; ranks 1..n are kept |
| SeisekiEditor.Editor.HandleSave | app/admin/seiseki/page.tsx:97-109 | with no entries, no request is sent and the error is set; otherwise the request carries the year, month and entries |
| TaikaiEditor.BlankParticipant | app/admin/taikai/page.tsx:61-69 | the new participant, with both scores "" and total 0, has a consistent total |
| TaikaiEditor.Renumber | app/admin/taikai/page.tsx:77-80 | the ranks become 1..n down the list, and nothing but the rank changes |
| TaikaiEditor.WithoutId | app/admin/taikai/page.tsx:76 | exactly the participants with other ids remain, in their order |
| TaikaiEditor.Apply | app/admin/taikai/page.tsx:92-104 | the field takes the value and id and rank are kept; a score update sets the total to coerce(score1) + coerce(score2), with "" counting as 0; other fields leave the total alone, and a consistent total stays consistent |
| TaikaiEditor.UpdateWhere | app/admin/taikai/page.tsx:90-106 | participants with that id get the update; every other participant is unchanged |
| TaikaiEditor.ForSaving | app/admin/taikai/page.tsx:134-138 | a posted participant has each "" score replaced by 0 and is otherwise unchanged |
| TaikaiEditor.SavePayload | app/admin/taikai/page.tsx:134-138 | the payload is the list with each participant converted for saving |
| TaikaiEditor.AddKeepsTotals | app/admin/taikai/page.tsx:60-72 | adding a participant keeps every total equal to the sum of its coerced scores |
| TaikaiEditor.RemoveKeepsTotals | app/admin/taikai/page.tsx:74-83 | removing a participant keeps every total consistent |
| TaikaiEditor.UpdateKeepsTotals | app/admin/taikai/page.tsx:85-107 | any update keeps every total consistent |
| TaikaiEditor.EditsKeepRanks | app/admin/taikai/page.tsx:60-107 | add, remove and update all keep ranks 1..n |
| TaikaiEditor.PayloadPassesScoreChecks | app/admin/taikai/page.tsx:134-138 | for consistent, non-negative lists, every posted participant passes the route's score and total checks |
| TaikaiEditor.EventDateIsYearLabel | app/admin/taikai/page.tsx:141 | the derived eventDate "{year}年" passes the route's check exactly for four-digit years |
| TaikaiEditor.Editor.constructor | app/admin/taikai/page.tsx:11-18 | the page opens on 2025 with no name, no participants and no message |
| TaikaiEditor.Editor.CreateNew | app/admin/taikai/page.tsx:51-58 | the name and list are emptied and the success message names the year |
| TaikaiEditor.Editor.AddParticipant | app/admin/taikai/page.tsx:60-72 | exactly one blank participant with rank n+1 is appended, with no cap; consistent totals and ranks 1..n are kept |
| TaikaiEditor.Editor.RemoveParticipant | app/admin/taikai/page.tsx:74-83 | the list becomes the renumbered list without that id; totals stay consistent |
| TaikaiEditor.Editor.UpdateParticipant | app/admin/taikai/page.tsx:85-107 | the list becomes the updated list; consistent totals and ranks are kept |
| TaikaiEditor.Editor.HandleSave | app/admin/taikai/page.tsx:109-158 | a blank (trimmed) name or an empty list sends nothing and sets that error; otherwise the request carries the year, the name, "{year}年" and the converted list |
| ParticipantForm.Clamp | components/admin/ParticipantForm.tsx:44 | the clamp lands in 0..999 and is the identity there |
| ParticipantForm.HandleScoreChange | components/admin/ParticipantForm.tsx:31-47 | an empty input forwards ""; input that is not 1-3 ASCII digits forwards nothing; otherwise the parsed digits go to the given participant and score field |
| ParticipantForm.ThreeDigitsBound | components/admin/ParticipantForm.tsx:39-44 | at most three digits have a value below 10^length, so the clamp never changes an accepted input |
| ParticipantForm.ForwardedScoreInRange | components/admin/ParticipantForm.tsx:31-47 | every forwarded update targets the component's own participant and the given score field, with a score in 0..999 |
| ParticipantForm.KeystrokeKeepsTotals | components/admin/ParticipantForm.tsx:46 | a keystroke's update applied by the page keeps every total consistent and every score non-negative |
| SeisekiTab.EmptyEntry | components/seiseki/SeisekiTabContent.tsx:17-29 | the placeholder is empty, has the given rank, personId "", name "該当なし", target size "-" and id "empty-{rank}" |
| SeisekiTab.Padded | components/seiseki/SeisekiTabContent.tsx:32-40 | always ten entries; with ten or more inputs the first ten unchanged; otherwise the inputs as a prefix, then placeholders ranked n+1..10 |
| SeisekiTab.PadEntriesToTen | components/seiseki/SeisekiTabContent.tsx:32-40 | the loop that pushes placeholders builds exactly the padded list |
| SeisekiTab.PaddedRanks | components/seiseki/SeisekiTabContent.tsx:35-39 | padding a list ranked 1..n gives ranks 1..10, and a card is empty exactly when it is a placeholder or an empty entry |
| SeisekiTab.Zip | components/seiseki/SeisekiTabContent.tsx:47-50 | alternating two lists of equal length gives twice as many elements |
| SeisekiTab.ZipAt | components/seiseki/SeisekiTabContent.tsx:47-50 | position 2i holds a[i] and position 2i+1 holds b[i] |
| SeisekiTab.ZipMultiset | components/seiseki/SeisekiTabContent.tsx:47-50 | the alternation holds exactly the elements of both lists |
| SeisekiTab.Interleaved | components/seiseki/SeisekiTabContent.tsx:43-52 | a permutation of the input; unchanged unless there are exactly ten; for ten, out[2i] = in[i] and out[2i+1] = in[i+5] |
| SeisekiTab.ReorderEntriesForDesktop | components/seiseki/SeisekiTabContent.tsx:43-52 | the loop pushing two entries per step builds exactly the interleaved list |
| SeisekiTab.AtMostOneLatest | components/seiseki/SeisekiTabContent.tsx:119-121 | among the months of a year, at most one is marked latest |
| SeisekiTab.InitialYear | components/seiseki/SeisekiTabContent.tsx:56 | there is an initial year exactly when some year is available |
| SeisekiTab.InitialYearIsNewest | components/seiseki/SeisekiTabContent.tsx:56 | the initial year is the newest indexed year, and there is none exactly when the index is empty |
| MonthCarousel.Direction | components/seiseki/MonthCarousel.tsx:83 | the direction is 1 exactly for a later month, otherwise -1 |
| MonthCarousel.SwipeTarget | components/seiseki/MonthCarousel.tsx:104-118 | a swipe moves at most one month |
| MonthCarousel.SwipeMeaning | components/seiseki/MonthCarousel.tsx:104-118 | a missing or zero coordinate, or a running animation, does nothing; a left swipe (distance > 50) moves forward exactly when there is a next month; a right swipe (distance < -50) moves back exactly when there is a previous one; a distance within 50 does nothing |
| MonthCarousel.SwipeStaysInRange | components/seiseki/MonthCarousel.tsx:111-117 | a swipe never leaves the months shown |
| MonthCarousel.ArrowsMatchBounds | components/seiseki/MonthCarousel.tsx:143-144 | hasPrev and hasNext hold exactly when the previous or next index is a month shown |
| MonthCarousel.Carousel.constructor | components/seiseki/MonthCarousel.tsx:66-69 | no touches recorded, not animating, direction 0 |
| MonthCarousel.Carousel.HandleMonthChange | components/seiseki/MonthCarousel.tsx:80-90 | while animating or for the current index nothing happens; otherwise the change is requested, the animation starts, and the direction is the sign of the move |
| MonthCarousel.Carousel.AnimationFinished | components/seiseki/MonthCarousel.tsx:87-89 | the timer ends the animation |
| MonthCarousel.Carousel.OnTouchStart | components/seiseki/MonthCarousel.tsx:93-97 | unless animating, the start is recorded and the end cleared |
| MonthCarousel.Carousel.OnTouchMove | components/seiseki/MonthCarousel.tsx:99-102 | unless animating, the end is recorded |
| MonthCarousel.Carousel.OnTouchEnd | components/seiseki/MonthCarousel.tsx:104-118 | the request is the swipe's target; when there is one, the animation starts in its direction |
| MonthCarousel.Carousel.PrevClick | components/seiseki/MonthCarousel.tsx:149-153 | the left arrow asks for the previous month with direction -1 unless animating |
| MonthCarousel.Carousel.NextClick | components/seiseki/MonthCarousel.tsx:162-166 | the right arrow asks for the next month with direction 1 unless animating |
| SeisekiCard.FormatShortDate | components/seiseki/SeisekiCard.tsx:15-25 | "" stays ""; "YYYY-MM-DD" becomes "M/D" without leading zeros; any other string is returned unchanged |
| SeisekiCard.IsoDateFields | components/seiseki/SeisekiCard.tsx:18 | a date written "YYYY-MM-DD" has the shape the pattern accepts, with the padded fields in place |
| SeisekiCard.DateTextFields | components/seiseki/SeisekiCard.tsx:18 | four digits, "-", two digits, "-", two digits have that shape, with the fields at positions 0, 5 and 8 |
| SeisekiCard.FormatIsoDate | components/seiseki/SeisekiCard.tsx:18-22 | a date written "YYYY-MM-DD" is shown as month/day without padding |
| SeisekiCard.GetRankColor | components/seiseki/SeisekiCard.tsx:29-34 | gold exactly for rank 1, silver exactly for 2, bronze exactly for 3, and the accent colour for every other rank |
| SeisekiCard.Activate | components/seiseki/SeisekiCard.tsx:37-49 | an activation passes on only a non-empty personId, and only from a clickable card |
| SeisekiCard.ActivateMeaning | components/seiseki/SeisekiCard.tsx:37-52 | onClick(personId) is called exactly for a click, Enter or Space on a non-empty card with a handler and a non-empty personId; a card that looks clickable with an empty personId does nothing |
| SeisekiCard.PlaceholderInert | components/seiseki/SeisekiTabContent.tsx:17-29 | a padding placeholder never calls onClick, whatever its isEmpty flag |
| ImportSeiseki.CheckOptions | scripts/import-seiseki.ts:66-79 | the options are accepted exactly when year and month are set and not 0 and either --fetch or --file was given; a missing year or month gives the period error before the source is checked |
| ImportSeiseki.ParseArgs | scripts/import-seiseki.ts:45-80 | the loop, where an option with a value consumes the next argument, gives exactly the checked result of the recursive reading of the arguments |
| ImportSeiseki.FetchOnlyFromFlag | scripts/import-seiseki.ts:54-64 | fetch is on after parsing only if some argument is "--fetch", and it is never switched off |
| ImportSeiseki.UsageLinesAccepted | scripts/import-seiseki.ts:5-10 | both documented command lines are accepted for any year and month written in digits and not 0, and give exactly the options written |
| ImportSeiseki.TrailingFlagIgnored | scripts/import-seiseki.ts:59 | a "--year" with nothing after it is ignored, so the command is refused for a missing period |
| ImportSeiseki.PreviousMonth | scripts/import-seiseki.ts:199-200 | for a month in 1..12 the result is again in 1..12 and is exactly one month earlier |
| ImportSeiseki.UpdatedDateIsIso | scripts/import-seiseki.ts:197-203 | for years 1001..9999 the updated date is the ISO date of the 24th of the month before |
| ImportSeiseki.UpdatedDateShown | scripts/import-seiseki.ts:197-203 | the cards show that date as "M/24", M the month before |
| ImportSeiseki.FirstOfMonthIso | scripts/import-seiseki.ts:214-218 | from year 1000 on, the first of a month is written as its ISO date |
| ImportSeiseki.ExpiryOfParts | scripts/import-seiseki.ts:209-219 | an ISO date naming an existing day expires on the first of the month its setMonth lands in; any other ISO-shaped text gives "NaN-NaN-NaN" |
| ImportSeiseki.ShiftedMonthCases | scripts/import-seiseki.ts:211 | setMonth three months on lands in that month when it has the day, and in the month after when the day is past its end; days up to 28 never roll over |
| ImportSeiseki.ExpiryOfIsoDate | scripts/import-seiseki.ts:209-219 | the expiry of an existing day is the first of the month three months later, or of the month after that when the day is past that month's end (the 29th to 31st) |
| ImportSeiseki.ExpiryOfMissingDay | scripts/import-seiseki.ts:209-219 | a month outside 1..12, day 0 or a day the month does not have gives "NaN-NaN-NaN" |
| ImportSeiseki.ExpiryRollsOver | scripts/import-seiseki.ts:209-213 | 30 November 2025 expires on the first of March 2026, not February, because 30 February rolls over into March |
| ImportSeiseki.FirstOfMarchText | scripts/import-seiseki.ts:214-218 | the first of March 2026 is written "2026-03-01" |
| ImportSeiseki.ExpiryTwoMonthsAfterImport | scripts/import-seiseki.ts:169-170 | an imported entry expires on the first of the month two months after the imported month |
| ImportSeiseki.RowEntry | scripts/import-seiseki.ts:157-181 | a row taken gives an entry with a positive rank, a name, the fresh id and no personId |
| ImportSeiseki.RowEntryMeaning | scripts/import-seiseki.ts:157-181 | a row is taken exactly when it has four cells, the digits of its rank cell give a number other than 0 and its trimmed name is not empty; the entry then holds the number and the four trimmed cells and the two dates |
| ImportSeiseki.RowEntries | scripts/import-seiseki.ts:151-183 | fewer entries than rows, all imported entries, with the header row skipped |
| ImportSeiseki.ParseRows | scripts/import-seiseki.ts:121-191 | the loop over the data rows builds exactly the row-by-row entries, in table order, each with a positive rank, a name and no personId |
| ImportSeiseki.LastDay | scripts/import-seiseki.ts:298 | the last day of the month counted by the Date constructor is between 28 and 31 |
| ImportSeiseki.LastDayOfMonth | scripts/import-seiseki.ts:298 | for months 1..12 of a year outside 0..99 it is the month's length |
| ImportSeiseki.Reindexed | scripts/import-seiseki.ts:292-305 | the month's new line comes first; no other line is for that month; the rest keeps the old lines in order, and every old line of another month is kept |
| ImportSeiseki.NewestImportKeepsOrder | scripts/import-seiseki.ts:292-305 | importing a month newer than every indexed one only prepends its line, so a newest-first index stays newest first |
| ImportSeiseki.ImportCanUnsortIndex | scripts/import-seiseki.ts:300-305 | importing an older month puts its line first anyway, and the index is no longer newest first |
| ImportSeiseki.IndexFile.constructor | scripts/import-seiseki.ts:285-290 | a missing index file reads as no lines and a null lastUpdated |
| ImportSeiseki.IndexFile.UpdateIndex | scripts/import-seiseki.ts:277-313 | the lines become the reindexed lines and lastUpdated becomes the new line's publishedAt |
| DataFiles.YearValues | scripts/add-person-ids.ts:80-83 | no more years than names in the data directory |
| DataFiles.YearValuesMembers | scripts/add-person-ids.ts:80-83 | a number is among the years exactly when some name without ".json" in it is that number |
| DataFiles.MonthValues | scripts/add-person-ids.ts:90-93 | no more months than names in the year directory |
| DataFiles.MonthValuesMembers | scripts/add-person-ids.ts:90-93 | a month is listed exactly when some ".json" name in the year directory parses to it, with or without radix 10 |
| ValidatePersonIds.MonthValueRadix | scripts/validate-person-ids.ts:67 | without a radix, "0x1.json" is month 1; with radix 10, as in scripts/add-person-ids.ts:93, it is month 0 |
| ValidatePersonIds.ParseIntOfHexText | scripts/validate-person-ids.ts:67 | parseInt("0x1", 10) is 0 and parseInt("0x1") is 1 |
| DataFiles.MonthValueDecimal | scripts/add-person-ids.ts:93 | on a month name written as decimal digits, both copies read the same month |
| DataFiles.MonthFiles | scripts/add-person-ids.ts:96-98 | one file per month |
| DataFiles.MonthFilesIndex | scripts/add-person-ids.ts:96-98 | the k-th file is in the year and has the k-th month |
| DataFiles.PushMonths | scripts/add-person-ids.ts:96-98 | the inner loop appends the paths of the year's month files, in month order, after the files already listed |
| DataFiles.GetAllDataFiles | scripts/add-person-ids.ts:78-102 | the nested loops list exactly the paths of the listing: year by year in sorted order, a year whose directory is missing skipped |
| DataFiles.BlocksMembers | scripts/add-person-ids.ts:86-99 | a file is listed exactly when its year is among the years and it is among that year's files |
| DataFiles.ListingMembers | scripts/add-person-ids.ts:78-102 | a file is listed exactly when its year has a directory named by a number, that directory exists under the year's decimal name, and a ".json" name in it parses to its month |
| DataFiles.BlockAscending | scripts/add-person-ids.ts:90-98 | when every month file name parses, a year's files are all in that year and in ascending month order |
| DataFiles.AscendingConcat | scripts/add-person-ids.ts:86-99 | two ascending runs, the first in earlier years, make an ascending run |
| DataFiles.BlocksAscending | scripts/add-person-ids.ts:84-99 | over increasing years the blocks are in ascending order |
| DataFiles.ListingAscending | scripts/add-person-ids.ts:78-102 | when month names parse and no two year directories have the same number, the files come oldest first: by year, then by month |
| AddPersonIds.UniqueKeySeparatesNamesakes | scripts/add-person-ids.ts:63-65 | two people of the same name get the same unique key exactly when their personKeys are equal |
| AddPersonIds.BuildNameToPersonIdMap | scripts/add-person-ids.ts:68-75 | the loop builds exactly the key-to-id map of the registry |
| AddPersonIds.NameMapLookup | scripts/add-person-ids.ts:68-75 | a key is in the map exactly when some registry record has it, and its id is that of the last such record |
| AddPersonIds.NameMapValues | scripts/add-person-ids.ts:68-75 | a registry without empty personIds gives a map without empty ids |
| AddPersonIds.NewPersonIdInjective | scripts/add-person-ids.ts:140 | two non-negative counter values give the same "person_NNN" id exactly when they are equal |
| AddPersonIds.NewPersonIdsDiffer | scripts/add-person-ids.ts:140 | different non-negative counter values give different ids |
| AddPersonIds.StepEntries | scripts/add-person-ids.ts:130-166 | the visit of a file keeps its number of entries |
| AddPersonIds.AssignEntry | scripts/add-person-ids.ts:135-165 | an entry that needs an id moves the run on by one step and receives the id of its key, a new person created first when the key is new |
| AddPersonIds.AssignInFile | scripts/add-person-ids.ts:129-166 | the loop over a file's entries gives exactly the visit of the file, and the file is marked modified exactly when some entry needed an id |
| AddPersonIds.StepFiles | scripts/add-person-ids.ts:124-177 | one result file and one written flag per file visited |
| AddPersonIds.AssignPersonIds | scripts/add-person-ids.ts:104-193 | main, with its loop over the files, computes exactly the whole run: the files, which of them were rewritten, and the registry |
| AddPersonIds.StepRunFacts | scripts/add-person-ids.ts:135-160 | meeting an entry keeps every known key's id, only appends persons, advances the counter by the number appended, and leaves the entry's key known when it needed an id |
| AddPersonIds.StepEntriesFacts | scripts/add-person-ids.ts:130-166 | visiting a file extends the run, every person it creates is dated with the file's month with counter values in order, and every entry that needed an id gets its key's final id while the others are unchanged |
| AddPersonIds.StepFileFacts | scripts/add-person-ids.ts:124-176 | one file visit extends the run, and the file is rewritten, with its updatedAt stamped, exactly when an entry needed an id |
| AddPersonIds.StepFilesFacts | scripts/add-person-ids.ts:124-177 | the whole walk extends the run, every created person comes from some readable file, and every file is updated against the final map |
| AddPersonIds.NewPersonsAppended | scripts/add-person-ids.ts:184-193 | the registry is rewritten exactly when it grew; otherwise it is unchanged; old records are kept in front, and nextPersonId rises by the number of persons added |
| AddPersonIds.NewPersonsCreated | scripts/add-person-ids.ts:139-159 | every added person was created from some readable file, has first and last appearance in its month, count 1, and the id of its counter value |
| AddPersonIds.AssignAllPersons | scripts/add-person-ids.ts:186 | the registry's persons after the run are the old ones followed by the new ones |
| AddPersonIds.NewIdsNumbered | scripts/add-person-ids.ts:140-159 | the i-th added person has the id of counter nextPersonId + i |
| AddPersonIds.NewIdsDistinct | scripts/add-person-ids.ts:140-159 | no added person shares an id with a later record |
| AddPersonIds.NewIdsFresh | scripts/add-person-ids.ts:140-159 | added ids are distinct, and they differ from every old record's id when the old ids were all numbered below nextPersonId |
| AddPersonIds.NewIdsAvoidExisting | scripts/add-person-ids.ts:116-159 | when every old record's id was numbered below nextPersonId, no new id equals an old one |
| AddPersonIds.OnlyMissingIdsChange | scripts/add-person-ids.ts:129-176 | a file is rewritten exactly when it was read and some entry needed an id; other files are unchanged; a rewritten file keeps its path and every entry that did not need an id |
| AddPersonIds.EveryEntryHasId | scripts/add-person-ids.ts:130-165 | afterwards every non-empty entry of every readable file has a non-empty personId, provided the registry has no empty personId |
| AddPersonIds.SameKeySameId | scripts/add-person-ids.ts:136-162 | two entries that needed an id and share a unique key end with the same personId, wherever they are |
| MigratePersons.IndexOf | scripts/migrate-persons.ts:91 | the position found holds the personId, and no position holds it when none is found |
| MigratePersons.RecordEntry | scripts/migrate-persons.ts:91-115 | meeting a counted entry records its sighting in the person map |
| MigratePersons.ScanFile | scripts/migrate-persons.ts:87-116 | the loop over a file's entries adds exactly the file's sightings to the map, skipping empty entries and entries without a personId |
| MigratePersons.ScanFiles | scripts/migrate-persons.ts:82-120 | the map after the loop over the files is the aggregate of every sighting of every readable file, in file order |
| MigratePersons.FirstSeen | scripts/migrate-persons.ts:91-102 | the first sighting of a person seen, with no earlier sighting of the same personId |
| MigratePersons.RecordLength | scripts/migrate-persons.ts:91-102 | a sighting of a new personId appends a record with its name, personKey, month as first and last appearance, count 1 and empty note; a known one adds no record |
| MigratePersons.RecordKeeps | scripts/migrate-persons.ts:103-115 | a sighting leaves every other record unchanged; for its own it adds 1 to the count and moves the last appearance only to a strictly later month |
| MigratePersons.AggregateDistinct | scripts/migrate-persons.ts:91-93 | the map holds at most one record per personId |
| MigratePersons.ListedSeen | scripts/migrate-persons.ts:91-93 | every record comes from some sighting |
| MigratePersons.SeenListed | scripts/migrate-persons.ts:91-93 | every personId sighted has a record |
| MigratePersons.AggregateListed | scripts/migrate-persons.ts:87-116 | a personId has a record exactly when it was sighted |
| MigratePersons.CountUnseen | scripts/migrate-persons.ts:99 | a personId never sighted has count 0 |
| MigratePersons.AggregateCount | scripts/migrate-persons.ts:99-106 | a record's appearanceCount is the number of its sightings |
| MigratePersons.AggregateFirst | scripts/migrate-persons.ts:93-102 | a record's name, personKey and first appearance come from its first sighting, and it is stamped with the run's time and an empty note |
| MigratePersons.AggregateLatest | scripts/migrate-persons.ts:108-114 | a record's last appearance is the month of one of its sightings, and no sighting is later |
| MigratePersons.FirstIsEarliest | scripts/migrate-persons.ts:76-102 | when the files come oldest first, a record's first appearance is no later than any of its sightings |
| MigratePersons.IdNumbers | scripts/migrate-persons.ts:126-128 | one parsed number per record, that of its personId |
| MigratePersons.MaxNumber | scripts/migrate-persons.ts:125-133 | at least 0, no smaller than any parsed number, and either 0 or one of the numbers |
| MigratePersons.MaxPersonIdNumber | scripts/migrate-persons.ts:124-133 | the loop finds exactly the largest number after "person_", or 0 |
| MigratePersons.IdOrderLawful | scripts/migrate-persons.ts:140-144 | on records whose ids all parse, the comparator is a total preorder |
| MigratePersons.AllNoted | scripts/migrate-persons.ts:147-152 | every record noted, one for one |
| MigratePersons.AddNotes | scripts/migrate-persons.ts:147-152 | the loop gives every record with a personKey the note naming it and leaves the others unchanged |
| MigratePersons.Migrate | scripts/migrate-persons.ts:73-155 | main computes exactly the migrated registry: version "1.0.0", stamped now, nextPersonId one above the largest id number, and the records sorted and noted |
| MigratePersons.EntrySightingsMembers | scripts/migrate-persons.ts:87-89 | a sighting comes from a file exactly when some counted entry of it gives it |
| MigratePersons.SightingsMembers | scripts/migrate-persons.ts:82-120 | a sighting is collected exactly when some counted entry of some readable file gives it |
| MigratePersons.FromMap | scripts/migrate-persons.ts:140-152 | every registry record is the noted form of a record of the map |
| MigratePersons.ToMap | scripts/migrate-persons.ts:140-152 | every record of the map appears, noted, in the registry |
| MigratePersons.MigratedDistinct | scripts/migrate-persons.ts:136-145 | the registry has one record per personId |
| MigratePersons.MigratedListed | scripts/migrate-persons.ts:82-145 | a personId is in the registry exactly when some non-empty entry carries it |
| MigratePersons.MigratedRecord | scripts/migrate-persons.ts:87-152 | each registry record counts its sightings, takes its name, personKey and first appearance from the first, has the latest month as last appearance, is stamped now, and has the personKey note |
| MigratePersons.MapNumeric | scripts/migrate-persons.ts:91-102 | when every sighted id parses, every record's id does |
| MigratePersons.NotesKeepOrder | scripts/migrate-persons.ts:147-152 | adding notes keeps the records sorted |
| MigratePersons.MigratedSorted | scripts/migrate-persons.ts:140-144 | when every id parses, the records are sorted by id number |
| MigratePersons.MigratedNextIdAbove | scripts/migrate-persons.ts:124-139 | nextPersonId is at least 1 and above every record's id number |
| MigratePersons.LargestIdRecord | scripts/migrate-persons.ts:124-139 | a nextPersonId other than 1 is one above the id number of some record |
| MigratePersons.MigratedNextIdTight | scripts/migrate-persons.ts:124-139 | nextPersonId is 1 or one above the id number of some record |
| ValidatePersonIds.CheckDuplicates | scripts/validate-person-ids.ts:98-110 | the loop with its set of ids seen reports exactly the duplicate findings |
| ValidatePersonIds.DuplicateFindingsIff | scripts/validate-person-ids.ts:98-110 | a personId is reported as duplicate exactly when two registry records carry it |
| ValidatePersonIds.NoDuplicatesIff | scripts/validate-person-ids.ts:98-110 | no duplicate finding exactly when the personIds are distinct |
| ValidatePersonIds.DuplicateFindingsKind | scripts/validate-person-ids.ts:102-107 | every duplicate finding is an error of that kind |
| ValidatePersonIds.CheckFormats | scripts/validate-person-ids.ts:112-122 | the loop reports exactly the format findings |
| ValidatePersonIds.FormatFindingsIff | scripts/validate-person-ids.ts:112-122 | a format error is reported for a personId exactly when some record has it and it is not "person_" followed by three digits |
| ValidatePersonIds.NewPersonIdFormat | scripts/validate-person-ids.ts:114 | an id the assignment script creates passes the format check exactly when its counter is below 1000 |
| ValidatePersonIds.ParsedIds | scripts/validate-person-ids.ts:126 | one parsed number per record, that of its personId with "person_" removed |
| ValidatePersonIds.NextIdFindingsIff | scripts/validate-person-ids.ts:124-135 | the nextPersonId check passes exactly when the registry is empty, some id does not parse, or every parsed number is below nextPersonId |
| ValidatePersonIds.FindPerson | scripts/validate-person-ids.ts:159 | a record is found exactly when the personId is listed, and it is the first record with it |
| ValidatePersonIds.CheckEntry | scripts/validate-person-ids.ts:153-194 | one counted entry adds its findings (missing from the registry, or a name mismatch), marks its id as used and counts it when listed |
| ValidatePersonIds.CheckEntries | scripts/validate-person-ids.ts:153-195 | the loop over a file's entries adds exactly the findings of its sightings, and keeps the used set and the counts those of all sightings so far |
| ValidatePersonIds.CheckFiles | scripts/validate-person-ids.ts:144-204 | the loop over the files gives exactly the file findings, with a read error for an unreadable file, the ids used and the actual counts |
| ValidatePersonIds.SightingsErrors | scripts/validate-person-ids.ts:158-187 | the sightings give an error exactly when some sighted id is missing from the registry |
| ValidatePersonIds.SightingError | scripts/validate-person-ids.ts:158-187 | one sighting gives an error exactly when its id is not listed; a name mismatch is only a warning |
| ValidatePersonIds.FileErrors | scripts/validate-person-ids.ts:148-204 | the file check reports an error exactly when some file is unreadable or some sighted id is missing from the registry |
| ValidatePersonIds.CountsMeaning | scripts/validate-person-ids.ts:189-193 | an id is counted exactly when it is listed and sighted, and its count is its number of sightings |
| ValidatePersonIds.UsedIdsMeaning | scripts/validate-person-ids.ts:156 | an id is used exactly when some entry was sighted with it |
| ValidatePersonIds.CheckUnused | scripts/validate-person-ids.ts:212-225 | the loop reports exactly the unused findings |
| ValidatePersonIds.UnusedFindingsIff | scripts/validate-person-ids.ts:212-225 | an unused warning is reported for an id exactly when some record has it and no entry uses it |
| ValidatePersonIds.CheckCounts | scripts/validate-person-ids.ts:232-247 | the loop reports exactly the count findings |
| ValidatePersonIds.CountFindingsIff | scripts/validate-person-ids.ts:232-247 | a count warning is reported for an id exactly when some record with it has an appearanceCount other than the actual count, 0 when uncounted |
| ValidatePersonIds.GroupIndex | scripts/validate-person-ids.ts:256 | the position found holds a group of that name, and no group has it when none is found |
| ValidatePersonIds.GroupsMeaning | scripts/validate-person-ids.ts:254-260 | one group per name, each holding exactly the records of that name in registry order, and a group exists exactly for the names used |
| ValidatePersonIds.NamedMembers | scripts/validate-person-ids.ts:254-260 | a record is in a name's group exactly when it is in the registry with that name |
| ValidatePersonIds.NamedTwice | scripts/validate-person-ids.ts:262-263 | a name's group is non-empty exactly when a record has the name, and has more than one member exactly when two records have it |
| ValidatePersonIds.BuildNameGroups | scripts/validate-person-ids.ts:254-260 | the loop builds exactly the name groups |
| ValidatePersonIds.CheckPersonKeys | scripts/validate-person-ids.ts:262-280 | the loop over the groups reports exactly the key findings |
| ValidatePersonIds.KeyFindingsMembers | scripts/validate-person-ids.ts:262-280 | a key warning is reported for a name exactly when its group has several members and one without a personKey |
| ValidatePersonIds.NamedWithoutKey | scripts/validate-person-ids.ts:265 | a name's group has a member without a personKey exactly when some record of that name has none |
| ValidatePersonIds.KeyFindingsIff | scripts/validate-person-ids.ts:254-280 | a key warning is reported for a name exactly when two records share it and one of them has no personKey |
| ValidatePersonIds.Validate | scripts/validate-person-ids.ts:79-330 | main gives exactly the findings of the seven checks in order, and exit code 1 exactly when one of them is an error |
| ValidatePersonIds.WarningsOnly | scripts/validate-person-ids.ts:294-329 | findings that are all warnings do not fail the run |
| ValidatePersonIds.DuplicateErrors | scripts/validate-person-ids.ts:98-110 | the duplicate check fails the run exactly when the personIds are not distinct |
| ValidatePersonIds.FormatErrors | scripts/validate-person-ids.ts:112-122 | the format check fails the run exactly when some personId is malformed |
| ValidatePersonIds.LaterChecksWarn | scripts/validate-person-ids.ts:209-280 | the unused, count and personKey checks never fail the run |
| ValidatePersonIds.ExitCodeIff | scripts/validate-person-ids.ts:294-329 | the run fails exactly for duplicate ids, a malformed id, a failed nextPersonId check, an unreadable file, or a sighted id missing from the registry |
| ValidatePersonIds.UnusedNone | scripts/validate-person-ids.ts:212-225 | no unused warning when every record's id is used |
| ValidatePersonIds.CountNone | scripts/validate-person-ids.ts:232-247 | no count warning when every record's count is the actual one |
| ValidatePersonIds.MigratedRegistryValidates | scripts/migrate-persons.ts:73-155 | a registry freshly built by the migration from the same files has no duplicate, no missing, no unused and no count finding |
| GeneratePersonsMd.FirstIndexOf | scripts/generate-persons-md.ts:30-32 | the first position of the character, or none when it does not occur |
| GeneratePersonsMd.FormatYearMonthRoundTrip | scripts/generate-persons-md.ts:30-32 | the year and the month read back from "year/MM", negative numbers included |
| GeneratePersonsMd.FormatYearMonthWidth | scripts/generate-persons-md.ts:30-32 | a month from 0 to 99 always takes two characters after the "/" |
| GeneratePersonsMd.WithPersonKeyMeaning | scripts/generate-persons-md.ts:50 | the personKey count is at most the number of persons, 0 exactly when nobody has a personKey, and all of them exactly when everybody has one |
| GeneratePersonsMd.TotalConcat | scripts/generate-persons-md.ts:51 | the total of two lists of persons is the sum of their totals |
| GeneratePersonsMd.TotalAtLeastEach | scripts/generate-persons-md.ts:51 | with non-negative counts, the total is at least each person's count |
| GeneratePersonsMd.TotalNonNegative | scripts/generate-persons-md.ts:51 | with non-negative counts, the total is not negative |
| GeneratePersonsMd.TotalUpdate | scripts/generate-persons-md.ts:51 | replacing one record changes the total by the difference of the two counts |
| GeneratePersonsMd.TotalPermutation | scripts/generate-persons-md.ts:51 | the total does not depend on the order of the records |
| GeneratePersonsMd.RecordTotal | scripts/migrate-persons.ts:91-115 | each sighting recorded by the migration adds exactly 1 to the total |
| GeneratePersonsMd.AggregateTotal | scripts/migrate-persons.ts:82-120 | the total of the migration's map is the number of sightings |
| GeneratePersonsMd.MigratedTotal | scripts/migrate-persons.ts:136-152 | the total appearances of a migrated registry is the number of non-empty entries with a personId in the files |
| GeneratePersonsMd.Counts | scripts/generate-persons-md.ts:52 | one count per person, that person's |
| GeneratePersonsMd.FirstWithCount | scripts/generate-persons-md.ts:53 | the first position with that count, or none when no person has it |
| GeneratePersonsMd.TopPersonMeaning | scripts/generate-persons-md.ts:52-53 | an empty registry has maximum -Infinity and no top person; otherwise the top person is the first one with the largest count, and the maximum is that count |
| GeneratePersonsMd.KeyCell | scripts/generate-persons-md.ts:76 | never empty, and "-" exactly when there is no personKey (or the personKey is "-") |
| GeneratePersonsMd.RenderEach | scripts/generate-persons-md.ts:75-84 | one line per element, the element rendered |
| GeneratePersonsMd.PushHeader | scripts/generate-persons-md.ts:58-67 | the header pushes exactly the header lines |
| GeneratePersonsMd.PushTable | scripts/generate-persons-md.ts:69-86 | the table loop appends exactly the table lines, one row per person in registry order |
| GeneratePersonsMd.PushStats | scripts/generate-persons-md.ts:88-95 | appends exactly the statistics lines |
| GeneratePersonsMd.PushKeySection | scripts/generate-persons-md.ts:97-111 | appends exactly the personKey section, which is empty when nobody has a personKey |
| GeneratePersonsMd.PushFooter | scripts/generate-persons-md.ts:113-117 | appends exactly the footer lines |
| GeneratePersonsMd.Generate | scripts/generate-persons-md.ts:34-121 | main produces exactly the report: the lines joined with newlines |
| GeneratePersonsMd.LineCount | scripts/generate-persons-md.ts:56-117 | the header has 9 lines, the table 5 plus one per person, the statistics 7, the personKey section 7 plus one per keyed person or none, the footer 4 |
| GeneratePersonsMd.HeaderFacts | scripts/generate-persons-md.ts:64-66 | the header shows the last update, the next id as "person_" with at least three digits, and the number of persons |
| GeneratePersonsMd.NextIdPadded | scripts/generate-persons-md.ts:65 | the next id shown is "person_" and the counter padded to three digits |
| GeneratePersonsMd.RowLine | scripts/generate-persons-md.ts:75-84 | table line 4 + i is the row of person i |
| GeneratePersonsMd.TopLine | scripts/generate-persons-md.ts:94 | for an empty registry the top line reads "undefined (-Infinity回)"; otherwise it names the first person with the largest count and that count |
| GeneratePersonsMd.KeySectionFacts | scripts/generate-persons-md.ts:97-111 | the personKey section exists exactly when someone has a personKey; its rows are those persons in registry order, and every one of them has a row |

## Left out

- File system and JSON: reads, writes, `mkdir`, `existsSync`, `JSON.parse` and `JSON.stringify`. Record files and index files are map entries and sequences. A file that is missing or fails to parse is a missing key, or a `LoadedFile` with no data. A read of the index that fails reads as an empty index.
- Directory listings: `getAllDataFiles` takes the directory names as inputs and returns paths relative to the data directory, not absolute paths.
- Clock and identifiers: the current time is a `now` parameter, and both clock reads inside one save are the same `now`. Fresh UUIDs (`crypto.randomUUID`, `uuidv4`) are parameters.
- Authentication: next-auth is out. The POST handlers take "a session is present" as a boolean.
- Locale formatting: `formatDate` in scripts/generate-persons-md.ts:25-28 (`toLocaleString` with the Asia/Tokyo zone) is out. The report takes the two formatted timestamps as text parameters.
- Floating point: a target size is an integer count of tenths of a 寸, not the float `N + M/10`. Scores and counts are integers. Non-integer numbers, and the `typeof` and `Number.isInteger` tests on values that are not numbers, fall outside the typed model of the request bodies. A `NaN` is `None`.
- Network and scraping: the three scrape scripts, `fetchHTML`, the cheerio parsing of the page, and the `execSync` calls to the other scripts in scripts/import-seiseki.ts:85-113 and 238-272 are out. The importer receives the table rows as the texts of their cells. The choice of the largest table, the debug dump, and the building and saving of the month record in `main` (scripts/import-seiseki.ts:318-414) are out too.
- Console output: progress lines, the statistics printed by scripts/migrate-persons.ts:157-170, and the detailed error listing of scripts/validate-person-ids.ts:284-322 are out. The validator's findings keep each kind, severity and subject, but not the message text or the details object.
- Rendering and animation: JSX, charts and framer-motion are out. The `setTimeout` that ends the carousel's slide animation is the separate `AnimationFinished` step. The page-dot buttons of the carousel call the same `HandleMonthChange`.
- Page glue: the `loadData` fetches of the two admin pages, the POST request that `handleSave` sends, and the public pages that fetch the data are out. `HandleSave` returns the payload it would send.
- Regular expressions: no regex engine is modelled. Each pattern the code uses is a hand-written recogniser with proved soundness and completeness (target sizes, the Japanese dates, `YYYY-MM-DD`, `person_NNN`, and the digit filters).
- Duplicated helpers: the `padEntriesToTen` and `_reorderEntriesForDesktop` copies in components/seiseki/MonthCarousel.tsx:19-54 are word-for-word copies of the ones in SeisekiTabContent.tsx. They are modelled once, in `SeisekiTab`. `getAllDataFiles` appears in three scripts and is modelled once, in `DataFiles`. The copies differ in one place: scripts/validate-person-ids.ts:67 calls `parseInt` without a radix, and the other two pass radix 10. The `decimalOnly` flag models that difference.
- Concurrency and crashes: simultaneous admin saves (the last writer wins) are out, and so is a crash between writing a record and writing the index. Each operation is atomic in the model.
- Successive pushes: runs of fixed `lines.push` calls in scripts/generate-persons-md.ts are one append of the same lines. Only the loops over persons are loops.
- DataFiles.NumberOf: a directory name counts as a year only when it is plain decimal digits. `Number()` also accepts names such as "0x10", "1e3" or " 12 ". The data directory has no such names.
- TaikaiEditor.Editor.UpdateParticipant: only the four fields that the participant form edits can be updated: the name, the rank title and the two scores. `updateParticipant` (app/admin/taikai/page.tsx:85-88) accepts any `keyof TaikaiParticipant`, so the id, rank and totalScore could also be set, but its only caller, components/admin/ParticipantForm.tsx:34-81, passes just those four.
- SeisekiEditor.Editor.UpdateEntry: only the five text fields that the entry form edits can be updated. The source's `keyof SeisekiEntry` signature also allows the id, rank and personId, but no caller passes them.
- ImportSeiseki.CalculateExpiryDate: the date is read as the local date it names, which holds in time zones at or east of UTC. West of UTC a date-only string is the previous evening locally, which can change the result (the 1st of a month, for one); the script only passes the 24th, where it cannot. A day past the end of its month (such as "2025-02-30") is taken as an invalid Date, as the ECMAScript date-string format prescribes, although some engines roll it over instead. The model does not follow `Date`'s parsing of text not shaped `YYYY-MM-DD`, which the script never produces. The lemmas about dates cover the years 1001 to 9999.
- ImportSeiseki.ParseRows: every entry gets the dates computed once from the year and month. The script recomputes them for every row from the same arguments, which gives the same strings.
- MigratePersons.MigratedSorted: sortedness by id number is proved when every id parses. With an id that does not parse, the comparator returns `NaN`, `Array.prototype.sort` treats that as "equal", and the order is whatever the stable sort leaves.
