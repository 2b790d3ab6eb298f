# TaskBot scheduling core in Dafny

TaskBot schedules robots over a 30-day month. A record names a robot and gives:

- a start and an end time ("HH:MM");
- a colour;
- a manual flag;
- a day of the month;
- optionally, a daily flag and a description.

The records live behind one HTTP endpoint, `/api/robots`. Three screens work on them:

- **Weekly planner.** Groups identical robots across the days of a week. It refuses to add a robot whose interval overlaps an existing one. Descriptions are limited to 120 characters.
- **Day timeline.** Draws the robots of one day on an hour grid, lists them by start time and totals a robot's minutes over the month. It only warns about overlaps. Descriptions are limited to 80 characters.
- **Dark-mode timeline.** The same logic as the day timeline, with an add form that has no description.

The model has eight modules:

- `Time`: reading "HH:MM" the way the screens' `Date` and `parseInt` calls read it. It shows that text order equals time order on readable times.
- `Schedule`: the record, the interval-overlap test, create payloads and the list updates made after a request.
- `Conflict`: both variants of `hasTimeConflict`. The planner compares against records of the day or flagged daily; the timelines compare against records of the day only.
- `Grouping`: the planner's `groupRobots`. An imperative method (`GroupRobots`) is proved equal to a fold, `Grouped`. Lemmas about the fold state what a group holds.
- `Planner`: week banding, the week view, add, toggle, remove, the description dialog and the card preview.
- `Timeline`: the day list, the monthly total (a loop method proved against a fold), block height and placement, add, toggle, remove and descriptions.
- `DarkMode`: the dark-mode add form and its daily add.
- `Api`: the request handler. A pure `Respond` gives the reply and the new table for every method and body. The class `RobotTable` holds the records in a `map` field; its `Handle` method changes them in place and is proved to agree with `Respond`.

Server requests made by the screens appear as a `serverOk` flag, or as the list of create payloads a screen would send. The model captures what each screen does to its own list when a request succeeds and when it fails.

## Model

| member | source | states |
|---|---|---|
| Time.ParseTime | src/pages/planner/index.tsx:133-139 | a readable time is HH:MM with HH and MM the hour and minute of a minute of the day in 0..1440 (24:00 is end of day); anything else reads as an invalid date |
| Time.ParseFormatTime | src/pages/planner/index.tsx:133-139 | reading the HH:MM text of a minute before midnight gives that minute back |
| Time.FormatParseTime | src/pages/planner/index.tsx:133-139 | every readable time other than 24:00 is the HH:MM text of its minute |
| Time.ParseLeadingInt | src/pages/robots/index.tsx:342 | parseInt yields NaN exactly when the text does not start with a digit |
| Time.FieldsAgreeWithParse | src/pages/robots/index.tsx:342-350 | on a readable time, parseInt of the two colon fields gives the hour and the minute that Date reads |
| Time.TextOrderIsTimeOrder | src/pages/robots/index.tsx:449-451 | on readable times, character order of the texts is the order of the times |
| Time.TextLeTotal | src/pages/robots/index.tsx:449-451 | any two texts compare one way or the other |
| Time.TextLeTransitive | src/pages/robots/index.tsx:449-451 | text order is transitive |
| Schedule.Filter | src/pages/robots/index.tsx:157-159 | the filter keeps exactly the elements satisfying the predicate, each as often as in the input |
| Schedule.FilterAppend | src/pages/robots/index.tsx:157-159 | filtering keeps list order: the kept elements of a + b are those of a followed by those of b |
| Schedule.AnyOverlap | src/pages/planner/index.tsx:136-141 | `some` over the overlap test is true iff one candidate overlaps the new interval |
| Schedule.ExpandPayloads | src/pages/planner/index.tsx:162-169 | a daily form yields 30 payloads for days 1..30, otherwise one for the chosen day; each copies the form with isDaily false |
| Schedule.DailyPayloadsCoverMonth | src/pages/planner/index.tsx:71 | the daily payloads cover each day of the month exactly once |
| Schedule.RemoveRobots | src/pages/planner/index.tsx:189-197 | after a successful delete, exactly the records whose id was deleted are gone, each other kept as often as before; a failure keeps the list |
| Schedule.SetDescription | src/pages/planner/index.tsx:239-243 | on success only the records with the edited id get the new text; a failure keeps the list |
| Schedule.AcceptEdit | src/pages/planner/index.tsx:606-610 | a keystroke is taken iff the new text fits the limit, otherwise the old text stays |
| Schedule.EditSession | src/pages/planner/index.tsx:654-660 | after any run of keystrokes the text is the start or one of the inputs, and within the limit if it changed or started within it |
| Conflict.DayConflict | src/pages/planner/index.tsx:150-151 | a day has a conflict iff some candidate record of that day overlaps |
| Conflict.SomeDayFrom | src/pages/planner/index.tsx:143-148 | `days.some` is true iff some day from the start to 30 has a conflict |
| Conflict.HasTimeConflict | src/pages/planner/index.tsx:132-152 | for a one-day form: some candidate of that day overlaps; for a daily form: some day 1..30 has an overlapping candidate; the same holds at src/pages/robots/index.tsx:162-182; the same holds at src/pages/robots/darkmode.tsx:143-163 |
| Conflict.PlannerConflictCharacterized | src/pages/planner/index.tsx:132-152 | the planner reports a conflict iff some record that is on the day (or any day, when daily) or flagged daily, other than the excluded id, overlaps |
| Conflict.TimelineConflictCharacterized | src/pages/robots/index.tsx:162-182 | the timeline reports a conflict iff some record on the day (any day 1..30 when daily), other than the excluded id, overlaps; the same holds at src/pages/robots/darkmode.tsx:143-163 |
| Conflict.TouchingIsNoOverlap | src/pages/planner/index.tsx:140 | intervals that only touch at an end do not conflict |
| Conflict.StartInsideOverlaps | src/pages/planner/index.tsx:140 | a start strictly inside an existing interval, with start before end, is a conflict |
| Conflict.UnreadableTimeNeverConflicts | src/pages/planner/index.tsx:133-140 | an empty or unreadable start or end never conflicts, because every comparison with an invalid date is false |
| Conflict.DailyIgnoresDay | src/pages/planner/index.tsx:143-148 | for a daily form the day argument does not matter |
| Conflict.ExcludedRecordIgnored | src/pages/planner/index.tsx:145-150 | the record with the excluded id never affects the result |
| Conflict.TimelineConflictIsPlannerConflict | src/pages/robots/index.tsx:175-180 | every timeline conflict is a planner conflict |
| Conflict.DailyRecordOnlyCountsInPlanner | src/pages/planner/index.tsx:150 | a record flagged daily on another day clashes in the planner but not in the timeline |
| Grouping.Collect | src/pages/planner/index.tsx:96-117 | the map and its insertion-ordered key list have the same keys, none repeated |
| Grouping.FirstWith | src/pages/planner/index.tsx:105 | the first record with a given key, which creates that key's group |
| Grouping.InsertInt | src/pages/planner/index.tsx:120 | insertion into an ascending list keeps it ascending and adds exactly the element |
| Grouping.SortInts | src/pages/planner/index.tsx:120 | the numeric sort returns an ascending permutation of the days |
| Grouping.SortIntsStrict | src/pages/planner/index.tsx:100-103 | sorting days that are pairwise distinct gives a strictly ascending list |
| Grouping.Finish | src/pages/planner/index.tsx:118-121 | one group per key, in key order |
| Grouping.FileRecord | src/pages/planner/index.tsx:97-116 | the forEach body: the table after filing one record is the fold step applied to it |
| Grouping.SortGroups | src/pages/planner/index.tsx:118-121 | the final map returns the groups in insertion order with sorted days |
| Grouping.GroupRobots | src/pages/planner/index.tsx:94-122 | the imperative grouping returns exactly the groups of the specification fold |
| Grouping.CollectStep | src/pages/planner/index.tsx:96-117 | filing records one by one equals the fold over the prefix |
| Grouping.CollectByKey | src/pages/planner/index.tsx:98-116 | each key's group is the fold over that key's records alone |
| Grouping.KeyGroupPresent | src/pages/planner/index.tsx:98-116 | a key has a group iff some record has that key |
| Grouping.KeyGroupShape | src/pages/planner/index.tsx:100-103 | a group's days and ids have equal length and its days are distinct |
| Grouping.KeyGroupFirst | src/pages/planner/index.tsx:104-115 | a group's name, times, colour, manual flag, description and daily flag are those of the first record with its key |
| Grouping.KeyGroupCovers | src/pages/planner/index.tsx:99-103 | every record's day appears in its key's group |
| Grouping.KeyGroupFrom | src/pages/planner/index.tsx:99-103 | each day and id pair of a group comes from one record with that key |
| Grouping.CollectKeyOrder | src/pages/planner/index.tsx:105 | keys are listed in the order their first records appear |
| Grouping.KeyOfShared | src/pages/planner/index.tsx:97 | a group and a record with the same fields have the same key |
| Grouping.GroupedAt | src/pages/planner/index.tsx:118-121 | the i-th output group is the i-th key's group with its days sorted |
| Grouping.GroupedDaysSorted | src/pages/planner/index.tsx:100-103 | every output group's days are strictly ascending and as many as its ids |
| Grouping.GroupedCoversKeys | src/pages/planner/index.tsx:96-116 | every record lands in a group with its key that lists its day |
| Grouping.GroupedSharedFields | src/pages/planner/index.tsx:104-115 | every output group carries the fields of the first record of its key |
| Grouping.GroupedInFirstOccurrenceOrder | src/pages/planner/index.tsx:105 | groups come out in the order their first records appear, each key once |
| Grouping.GroupedListsDay | src/pages/planner/index.tsx:99-103 | a record's day is listed in the output group with its key |
| Grouping.GroupedIdFrom | src/pages/planner/index.tsx:99-103 | every id listed in a group is the id of a record with that group's key |
| Grouping.RepeatedDayDropsId | src/pages/planner/index.tsx:100-103 | a second record with the same key and day is not listed: its id is dropped from the group |
| Grouping.IdsStayInInsertionOrder | src/pages/planner/index.tsx:101-102 | only days are sorted, so after sorting the ids no longer line up with the days |
| Planner.CalculateWeek | src/pages/planner/index.tsx:35-41 | days 1..28 fall in weeks of seven days numbered 1..4; any other day counts as week 1 |
| Planner.WeekBands | src/pages/planner/index.tsx:35-41 | a day of 1..28 is in week w iff it lies in days 7(w-1)+1..7w; days 29 and 30 are week 1 |
| Planner.WeekRecords | src/pages/planner/index.tsx:125 | the week's records are those whose day lies in the week, or that are flagged daily |
| Planner.GetWeekRobots | src/pages/planner/index.tsx:124-127 | the week view is the grouping of the week's records |
| Planner.WeekShowsItsRecords | src/pages/planner/index.tsx:124-127 | every record of the week shows up in a group with its key that lists its day |
| Planner.WeekShowsOnlyItsRecords | src/pages/planner/index.tsx:124-127 | every id in the week view belongs to a record of that week or flagged daily |
| Planner.AddRobot | src/pages/planner/index.tsx:154-169 | nothing happens unless name, start and end are filled; an alert iff filled and conflicting; otherwise the expanded payloads are posted |
| Planner.AddRobotBooksFreeSlots | src/pages/planner/index.tsx:154-169 | a posted robot overlaps no record of its day and no daily-flagged record |
| Planner.FirstIn | src/pages/planner/index.tsx:201 | `find` yields the first record whose id is in the group |
| Planner.ToggleManual | src/pages/planner/index.tsx:199-221 | on success every group record gets the negation of the first record's flag; on failure each group record's own flag is negated; other records and other fields are kept |
| Planner.ToggleMakesGroupUniform | src/pages/planner/index.tsx:201-209 | after a successful toggle the whole group has one flag, the opposite of the first record's |
| Planner.ToggleUniformGroup | src/pages/planner/index.tsx:199-221 | on a group with one flag, success and failure agree and toggling twice restores the list |
| Planner.FirstInSameIds | src/pages/planner/index.tsx:201 | `find` depends only on the ids |
| Planner.ToggleMixedGroup | src/pages/planner/index.tsx:206-216 | on a group with mixed flags, success and failure leave different lists |
| Planner.RemoveGroup | src/pages/planner/index.tsx:189-193 | a remove keeps exactly the records whose id is not in the group; kept and removed add up to the list |
| Planner.RemoveSplitsList | src/pages/planner/index.tsx:192 | the records kept and the records dropped add up to the whole list |
| Planner.OpenDescription | src/pages/planner/index.tsx:223-230 | the dialog opens on the record with the group's first id, holding its description or empty; it does not open when no such record exists |
| Planner.SaveDescription | src/pages/planner/index.tsx:232-253 | without an open dialog or on failure nothing changes; otherwise only records with the edited id get the text |
| Planner.OpenThenSaveKeepsText | src/pages/planner/index.tsx:223-253 | opening and saving without typing leaves every description's text as it was |
| Planner.DescriptionWithinLimit | src/pages/planner/index.tsx:606-608 | a text box that opens on a text of at most 120 characters never holds more than 120, whatever is typed; the same holds for the description dialog at src/pages/planner/index.tsx:656-658 |
| Planner.Preview | src/pages/planner/index.tsx:422-427 | no preview for a missing or empty description; up to 60 characters are shown whole; a longer text shows its first 60 characters plus "..." |
| Planner.PreviewCanLookUncut | src/pages/planner/index.tsx:424-426 | a 63-character text ending in "..." previews like a cut one |
| Timeline.DayRobots | src/pages/robots/index.tsx:157-159 | exactly the records of the day, each as often as in the list; the same holds at src/pages/robots/darkmode.tsx:138-140 |
| Timeline.InsertByStart | src/pages/robots/index.tsx:449-451 | insertion adds exactly one element |
| Timeline.SortByStart | src/pages/robots/index.tsx:449-451 | the sort returns a permutation of the day's records |
| Timeline.InsertByStartSorted | src/pages/robots/index.tsx:449-451 | insertion keeps a list sorted by start text |
| Timeline.SortByStartSorted | src/pages/robots/index.tsx:449-451 | the sort output is ordered by start text |
| Timeline.DayListSorted | src/pages/robots/index.tsx:449-451 | the day list is a permutation of the day's records, ordered by start text, and by start time when all times are readable; the same holds at src/pages/robots/darkmode.tsx:425-426 |
| Timeline.Duration | src/pages/robots/index.tsx:74-76 | the duration is NaN iff a time is unreadable, otherwise within a day either way |
| Timeline.SumDurationsNaN | src/pages/robots/index.tsx:73-78 | the monthly total is NaN iff some schedule has an unreadable time |
| Timeline.SumDurationsAppend | src/pages/robots/index.tsx:73-78 | accumulating two lists in turn adds their totals |
| Timeline.SumDurationsNonNegative | src/pages/robots/index.tsx:73-78 | with every end no earlier than its start, the total is a non-negative number |
| Timeline.MonthlyMinutes | src/pages/robots/index.tsx:69-78 | the loop's total is the sum of the durations of the robot's schedules; the same holds at src/pages/robots/darkmode.tsx:61-70 |
| Timeline.NatText | src/pages/robots/index.tsx:82 | a number prints as digits, without a leading zero, that read back as that number |
| Timeline.JsRemainder | src/pages/robots/index.tsx:81 | `%` agrees with the mathematical remainder on non-negative totals and lies in (-60, 0] on negative ones |
| Timeline.MonthlyTimeDecomposes | src/pages/robots/index.tsx:80-82 | for a non-negative total the text is "Hh Mm" with H*60+M the total and M below 60; the same holds at src/pages/robots/darkmode.tsx:72-74 |
| Timeline.MonthlyTimeNegative | src/pages/robots/index.tsx:80-82 | a total of -30 minutes prints as "-1h -30m", whose parts do not add up |
| Timeline.RobotHeight | src/pages/robots/index.tsx:185-190 | the height is NaN iff a time is unreadable; otherwise at least 30, equal to the duration iff that is at least 30, and 30 below; the same holds at src/pages/robots/darkmode.tsx:166-171 |
| Timeline.HourLabel | src/pages/robots/index.tsx:332 | each hour label has five characters |
| Timeline.HourLabelNamesRow | src/pages/robots/index.tsx:327-332 | each hour label reads as the minute at which its row starts |
| Timeline.RowRobots | src/pages/robots/index.tsx:341-342 | a row shows exactly the day's records whose parsed start hour is the row's hour |
| Timeline.PlacementFollowsStart | src/pages/robots/index.tsx:341-350 | a readable start before 24:00 is drawn in exactly one row, at a top offset plus row top equal to its minute; the same holds at src/pages/robots/darkmode.tsx:336-345 |
| Timeline.MidnightEndIsNotDrawn | src/pages/robots/index.tsx:342 | a record starting at 24:00 appears in no row |
| Timeline.AddRobot | src/pages/robots/index.tsx:89-101 | nothing is sent unless name, start and end are filled; otherwise the expanded payloads, with no conflict check |
| Timeline.AddDespiteWarning | src/pages/robots/index.tsx:568 | the conflict warning can show while the add still goes through |
| Timeline.ToggleManual | src/pages/robots/index.tsx:131-147 | exactly the records with that id have their flag negated, on success and on failure; nothing else changes; the same holds at src/pages/robots/darkmode.tsx:120-135 |
| Timeline.ToggleTwice | src/pages/robots/index.tsx:131-147 | toggling twice restores the list |
| Timeline.RemoveOnlyThatId | src/pages/robots/index.tsx:121-128 | a delete removes every record with that id and keeps the rest as often as before; a failure keeps the list; the same holds at src/pages/robots/darkmode.tsx:110-117 |
| Timeline.OpenDescription | src/pages/robots/index.tsx:150-154 | the dialog holds the record's description, or empty when it has none |
| Timeline.SaveDescription | src/pages/robots/index.tsx:642-654 | only the records with the edited id change, and only on success, and they get the text |
| Timeline.DescriptionWithinLimit | src/pages/robots/index.tsx:579-583 | starting within 80 characters, the add form's text box stays within 80; the same holds at src/pages/robots/index.tsx:622-626 |
| Timeline.LongTextCannotBeTrimmed | src/pages/robots/index.tsx:622-626 | a 100-character description, allowed by the planner, cannot be shortened by deleting one character |
| DarkMode.AddRobot | src/pages/robots/darkmode.tsx:81-90 | nothing is sent unless name, start and end are filled; otherwise 30 payloads for days 1..30 (daily) or one for the selected day, copying the form, never with a description |
| DarkMode.DailyAddExceedsLabel | src/pages/robots/darkmode.tsx:554 | a daily add books days 1..30, two more than the 28 days the checkbox label announces |
| Api.CreateData | src/pages/api/robots.ts:18-20 | a create writes exactly those of name, startTime, endTime, color, manual and day that the body has, with the body's values |
| Api.UpdateData | src/pages/api/robots.ts:26 | an update writes every field of the body but the id |
| Api.StoredId | src/pages/api/robots.ts:32-35 | `where: { id }` finds a record only for a numeric id that is stored |
| Api.Respond | src/pages/api/robots.ts:4-57 | status is always 200/201/204/400/405/500; GET lists the table; 400 iff a POST body fails validation or a PUT/DELETE id is falsy; 405 iff the method is not one of the four, with the Allow list; 500 iff the body is missing or a truthy id names no record; 201 iff a valid POST; 204 iff a DELETE of a stored id; the table is unchanged on 400, 405 and 500 |
| Api.PostAddsOneRecord | src/pages/api/robots.ts:11-22 | a valid POST adds exactly one record under the fresh id, holding the body's create fields, and keeps all others |
| Api.PutOverwritesGivenFields | src/pages/api/robots.ts:25-37 | a PUT of a stored id overwrites the given fields, keeps the record's other fields and every other record |
| Api.DeleteRemovesOnlyThat | src/pages/api/robots.ts:40-48 | a DELETE of a stored id removes that record and keeps every other one |
| Api.ZeroIdRefused | src/pages/api/robots.ts:28-30 | an id of 0 is refused with 400, even if a record 0 were stored |
| Api.RobotTable.Handle | src/pages/api/robots.ts:4-57 | the handler's reply and the table afterwards are those of `Respond`; the next id advances only on a create |
| Api.PayloadCreated | src/pages/api/robots.ts:14-20 | a screen's payload is created iff its name, times and colour are non-empty, and the record then holds the six create fields without the payload's description or daily flag |

## Left out

- Time.ParseTime: only "HH:MM" (and "24:00") is read. Other forms that `Date` accepts after the date prefix, such as seconds, fractions or a zone suffix, read as unreadable.
- Planner.DescriptionWithinLimit: a stored description longer than 120 characters can exist, since the update handler does not check length; the dialog then opens on it and the bound is not promised for that session (as Timeline.LongTextCannotBeTrimmed shows for the 80-character guard).
- Time.ParseLeadingInt: parseInt's leading whitespace and sign are not modelled; the screens' times never have them.
- Timeline.SortByStart: `localeCompare` is modelled as character-code order. Locale collation is not modelled. The proofs cover permutation and order, not the stability of the sort.
- Timeline.RobotHeight: the source divides the millisecond difference into hours and multiplies back by 60 in floating point. The model gives the exact height in whole minutes; the source's value differs from it by rounding in the last bit for some durations (a 31-minute block comes out just above 31, a 123-minute block just below 123).
- Timeline.Duration: values are whole minutes; fractional minutes from times with seconds are not modelled.
- Timeline.JsRemainder: for a negative total only the range (-60, 0] of the remainder is stated, not its exact value; MonthlyTimeNegative shows one exact case.
- Api.Respond: JSON numbers are integers. Fractional numbers and NaN (which pass `typeof day === 'number'`) are not modelled.
- Api.Respond: Prisma's schema checks (unknown fields, wrong value types, required columns) and its column defaults are not modelled. A create stores only the fields given, and an update stores whatever the body holds.
- Api.Respond: the reply to a create or update carries the fields written, not the full record with defaults that the database returns.
- Api.RobotTable.Handle: ids come from a counter, like an autoincrement column. Database failures other than a missing record, and concurrent requests, are not modelled.
- The screens' HTTP calls (axios), `Promise.all` and its partial failures, the reload after an add, and `localStorage` are not modelled. A request's outcome is a success flag, or the payloads a screen would send.
- Counts and lists used only for display (`getTotalRobots`, `getActiveRobots`, `uniqueRobots`), the colour palette, and all JSX and CSS layout other than row and block placement are not modelled.
- Lengths are counted in characters rather than UTF-16 code units.
- The landing page, `_app`, `lib/api` and `lib/prisma` are not part of this model.
