# Schedule generator — a verified Dafny model

The schedule generator reads a university course catalog. Each catalog row is one section of a
course, with a "Days and times" string such as `MoWeTh 12:10PM - 1:00PM`. From the catalog it
builds every weekly timetable that fits a window of credits. It then:

- drops the timetables that have a conflict, a Saturday class, or a "sleepless night" (a class
  ending at or after 5 PM followed by one starting at or before 9 AM the next day);
- ranks the rest by the share of the week's time spent in class;
- chooses up to ten timetables with distinct layouts from the top of the ranking and up to ten
  from the bottom.

Rows are grouped in two stages:

- A row marked `c` in "Corequisites?" opens a **course**. Every row after it, up to the next
  mark, belongs to that course.
- Within a course, consecutive rows with the same course code form a **corequisite group**.

A timetable takes exactly one section from each group of each required course, and from each
group of the flexible courses it chooses to include.

The model has one module per concern:

- **Clock** — minutes of the day, weekday tokens, and the `%I:%M%p` time format.
- **Blocks** — one weekly meeting and the source's collision test.
- **Sections** — parsing a section's meeting string into blocks.
- **Courses** — corequisite groups and courses.
- **Catalog** — grouping the rows into courses and splitting them into required and flexible.
- **Enumeration** — `itertools.combinations`, `itertools.product`, and the candidate timetables.
- **Schedules** — the `Schedule` class: its metrics, conflicts, and layout matching.
- **Ranking** — the stable descending sort by ratio, and the distinct-layout selection.
- **Generator** — the `ScheduleGenerator` class and a whole run.

Two helper modules carry no behaviour of their own: **Errors** (the exceptions that end a run, and
"stop at the first failure") and **Lists** (flatten, map, filter, reverse).

The source's in-place code is imperative Dafny:

- `ScheduleGenerator` and `Schedule` are classes, and their methods update fields under
  `modifies`.
- Every loop of the source is a `while` or `for` loop with invariants, proved equal to a
  specification function.
- The properties are proved about those functions.

Some modelling conventions:

- Times are minutes since midnight (0..1439), and weekdays are 1 (Monday) to 7 (Sunday). The
  source builds datetimes whose day of the month is the weekday, so comparing datetimes compares
  (weekday, minute).
- Credits are integers in tenths of a credit. The credit window is a pair of parameters; the
  source hard-codes it as 16..16.
- Each exception that ends a run is an `Error` value.

## Model

| member | source | states |
|---|---|---|
| Clock.DayNumberMeaning | schedule_generator.py:75 | the weekday lookup succeeds exactly on the seven tokens Mo..Su and gives the token's position plus one; any other two-character slice fails (the `index` ValueError) |
| Clock.DayNumberOfToken | schedule_generator.py:75 | every weekday's token reads back as that weekday |
| Clock.ParseHour12 | schedule_generator.py:77-78 | an hour read by `%I` lies in 1..12 |
| Clock.ParseMinuteField | schedule_generator.py:77-78 | a minute read by `%M` lies in 0..59 |
| Clock.To24Hour | schedule_generator.py:77-78 | `%I` with `%p` gives a 24-hour hour: PM exactly when the hour is 12 or later, and the hour agrees with the 12-hour reading modulo 12 (12 AM is 0) |
| Clock.ParseClockFields | schedule_generator.py:77-78 | a time string is cut at its first colon and read as `%I`, `%M` and a two-letter `%p`; it fails when any field fails |
| Clock.ParseFormatRoundTrip | schedule_generator.py:77-78 | every minute of the day, written as the catalog writes times, reads back as the same minute |
| Errors.CollectMeaning | schedule_generator.py:100-101 | building one object per row succeeds exactly when every row succeeds, and then gives the results in row order; otherwise the run fails with the error of the first failing row |
| Blocks.Duration | schedule_generator.py:36 | a block's duration is below one day, and for a block that ends after it starts it is exactly end minus start, so it is positive |
| Blocks.CollidesMeaning | schedule_generator.py:39-48 | for a block that does not end before it starts, a collides with b exactly when they are on the same weekday and their closed intervals overlap, except when a strictly encloses b (then neither of a's endpoints lies in b) |
| Blocks.TouchingBlocksCollide | schedule_generator.py:44-45 | the bounds are inclusive: a block that ends exactly when another starts collides with it |
| Blocks.CollidesNotSymmetric | schedule_generator.py:39-48 | the collision test is not symmetric: a block strictly inside another collides with it, but not the other way round |
| Blocks.CollidesEitherWay | schedule_generator.py:273-277 | trying both orders, as the conflict check does, gives the ordinary intersection of two closed intervals on the same weekday |
| Blocks.SortByStart | schedule_generator.py:295 | `blocks.sort()` with `Block.__gt__` returns a permutation of the blocks, ordered by start datetime |
| Blocks.SortByStartStable | schedule_generator.py:295 | `list.sort` is stable: for every start datetime, the blocks that start then come out in the order they went in |
| Blocks.InsertByStartSorted | schedule_generator.py:295 | inserting a block into a start-ordered list keeps the list ordered |
| Blocks.InsertByStartPermutes | schedule_generator.py:295 | inserting a block adds it to the list and removes nothing |
| Blocks.InsertByStartStable | schedule_generator.py:295 | inserting into a start-ordered list puts the block after every block with the same start, keeping the others' order |
| Sections.JoinSplit | schedule_generator.py:71 | `split(' ')` loses nothing: joining the fields with the separator gives the string back |
| Sections.SplitJoin | schedule_generator.py:71 | splitting a join of separator-free fields gives back exactly those fields |
| Sections.ParseSection | schedule_generator.py:56-81 | `Section.__init__` copies the row's section id, the credits, the code and the name, and builds the blocks `SectionOf` specifies (the meaning is given by SectionBlocksValid and MeetingBlocksOutcomes) |
| Sections.BuildBlocks | schedule_generator.py:73-81 | the loop over the two-character weekday tokens builds the block list, or the first error, that `TokenBlocks` specifies |
| Sections.TokenBlocksSucceed | schedule_generator.py:73-80 | the token loop succeeds exactly when every token names a weekday and, if there is any token, both times read and the end is after the start |
| Sections.TokenBlocksShape | schedule_generator.py:73-81 | on success there is one block per token, in token order; each has the weekday its token names, the parsed start and end, and the course code, and ends after it starts |
| Sections.TokenBlocksErrorStays | schedule_generator.py:73-81 | the first failing token ends the loop: later tokens do not change the error |
| Sections.MeetingBlocksOutcomes | schedule_generator.py:71-81 | parsing a meeting string fails with FieldCount exactly when it does not split into four fields. With four fields, it succeeds exactly when all tokens are weekdays and the two times read in order. A success holds one block per token with that weekday, the two times, the code and a positive duration |
| Sections.SectionBlocksValid | schedule_generator.py:57-81 | a parsed section keeps the row's section id, credits and code, and every block ends after it starts and carries the course code |
| Courses.NewCoreq | schedule_generator.py:93-101 | `Coreq.__init__` computes the group `CoreqOf` specifies |
| Courses.CoreqOfMeaning | schedule_generator.py:93-101 | a group is built exactly when there is a first row, its credits parse, and every row's section parses. The group then takes its code, name and credits from the first row, and holds one section per row, in order, each carrying the group's code and credits |
| Courses.CodeRunsMeaning | schedule_generator.py:114-121 | grouping by course code fails (the `temp[-1]` IndexError) exactly when the first row's code is empty. Otherwise the groups are the maximal runs of equal code: non-empty, and concatenating to the rows |
| Courses.GroupByCode | schedule_generator.py:114-121 | the grouping loop computes `CodeRuns` |
| Courses.BuildCoreqs | schedule_generator.py:122-124 | the second loop of `Course.__init__` builds the groups as `Collect(CoreqOf)`, and on success its total is the sum of the groups' credits |
| Courses.NewCourse | schedule_generator.py:106-124 | `Course.__init__` computes `CourseOf`; on success there is a first row, and the course is required exactly when that row's "Required?" cell is `r` |
| Courses.CourseOfSucceeds | schedule_generator.py:106-124 | a course is built exactly when the rows are non-empty, the grouping succeeds, and every group can be built |
| Courses.CourseOfMeaning | schedule_generator.py:106-124 | a built course has one group per code run, in order, each the group that run builds with its first row's credits. It is required exactly when the first row is marked `r`, and its total credits are the sum of each run's first-row credits |
| Courses.CollectedCoreqs | schedule_generator.py:122-123 | successfully built groups correspond one to one with the runs, and each takes its credits from its run's first row |
| Courses.CreditSumOfRuns | schedule_generator.py:124 | summing the groups' credits equals summing the first-row credits of each run, which is what line 124 reads again |
| Catalog.MarkerRunsMeaning | schedule_generator.py:134-139 | grouping by the `c` marks fails (the `temp[-1]` IndexError) exactly when the first row is unmarked. Otherwise it cuts the rows at the marks: each run starts with a marked row, holds no other, and the runs concatenate to the rows |
| Catalog.GroupByMarker | schedule_generator.py:134-139 | the grouping loop computes `MarkerRuns` |
| Catalog.SortCourses | schedule_generator.py:140-144 | the second loop builds every course, in row order, and appends it to the required or the flexible list; the first failure stops it |
| Catalog.ReadCatalog | schedule_generator.py:129-144 | `ScheduleGenerator.__init__` computes `CatalogOf` |
| Catalog.CatalogOfMeaning | schedule_generator.py:129-144 | the catalog is built exactly when the mark grouping and every course succeed. It then holds one course per marked run, required ones and flexible ones apart, each in row order, and each course is required exactly when its first row is marked `r` |
| Catalog.CourseRequired | schedule_generator.py:111-112 | a built course is required exactly when its first row's "Required?" cell is `r` |
| Catalog.RequiredFlexibleMarks | schedule_generator.py:140-144 | the required list holds only required courses, and the flexible list only non-required ones |
| Catalog.RequiredFlexibleSplit | schedule_generator.py:140-144 | every course lands in exactly one of the two lists: together they are a permutation of the courses |
| Enumeration.CombinationsSound | schedule_generator.py:150 | every combination of size k is a strictly increasing list of k positions in range |
| Enumeration.CombinationsComplete | schedule_generator.py:150 | every strictly increasing list of k positions in range is a combination |
| Enumeration.CombinationsDistinct | schedule_generator.py:150 | no combination is produced twice |
| Enumeration.CombinationsCount | schedule_generator.py:150 | there are binomial(m, k) combinations of size k |
| Enumeration.CombinationsLength | schedule_generator.py:150 | every combination of size k has k elements |
| Enumeration.SubsetsSound | schedule_generator.py:149-150 | each subset visited for sizes 0..m is a strictly increasing list of flexible-course positions |
| Enumeration.SubsetsCover | schedule_generator.py:149-150 | every strictly increasing list of flexible-course positions is visited |
| Enumeration.SubsetsDistinct | schedule_generator.py:149-150 | no subset is visited twice |
| Enumeration.ProductMeaning | schedule_generator.py:161 | `itertools.product` yields as many tuples as the list lengths multiplied, and a tuple is produced exactly when it picks, in order, one element of each list |
| Enumeration.SubsetCandidatesMeaning | schedule_generator.py:151-163 | a subset contributes schedules only when its credit sum lies in the closed window, and then one per way of choosing a section from each of its groups. Each holds, in group order, a section of each group, tagged with the subset's credits |
| Enumeration.CandidatesMeaning | schedule_generator.py:149-163 | a schedule is created exactly when some subset of the flexible courses contributes it |
| Schedules.SectionsClash | schedule_generator.py:83-88 | `Section.__eq__` is true exactly when some block of the first section collides with some block of the second |
| Schedules.Schedule.constructor | schedule_generator.py:236-251 | a new schedule holds its sections, zero credits and all metrics zero or false |
| Schedules.Schedule.HasConflict | schedule_generator.py:271-278 | `contains_conflict` is the `ContainsConflict` predicate (its meaning is given by ContainsConflictMeaning) |
| Schedules.ContainsConflictMeaning | schedule_generator.py:271-278 | for sections whose blocks all end after they start, a schedule has a conflict exactly when two sections of different course codes have blocks on the same weekday whose closed intervals intersect |
| Schedules.Schedule.Matches | schedule_generator.py:256-269 | `Schedule.__eq__` is the `SameLayout` predicate (its meaning is given by SameLayoutMeaning) |
| Schedules.SameLayoutMeaning | schedule_generator.py:256-269 | a schedule matches another exactly when every block of the first, with its code, weekday, start and end, is also a block of the second |
| Schedules.SameLayoutPreorder | schedule_generator.py:256-269 | matching is reflexive and transitive |
| Schedules.SameLayoutNotSymmetric | schedule_generator.py:256-269 | matching is not symmetric: a schedule with no blocks matches every schedule, but not the reverse |
| Schedules.Schedule.Calculate | schedule_generator.py:290-329 | `calculate` adds to the metrics. The Saturday flag is set when Saturday holds a block. Travel, class and total time grow by the week's figures. The early-morning and late-night counts become the number of flagged days, and `sleepless` grows by the sleepless nights Monday to Saturday. The credits stay unchanged, and a fresh schedule becomes measured |
| Schedules.Schedule.AddTimes | schedule_generator.py:300-309 | the per-day loop adds the week's travel, class and total time, and changes nothing else |
| Schedules.Schedule.AddDayFlags | schedule_generator.py:311-329 | the flag loops set the early and late counts, add the sleepless nights, and change nothing else |
| Schedules.BucketByDay | schedule_generator.py:292-297 | the blocks are sorted and dealt into the seven day lists, as `DaysOf` specifies |
| Schedules.AddDurations | schedule_generator.py:304-306 | the block loop adds up the day's durations |
| Schedules.AddBreaks | schedule_generator.py:307-309 | the break loop adds up the gaps between consecutive blocks of a day |
| Schedules.DayFlags | schedule_generator.py:320-324 | a day is flagged early exactly when one of its blocks collides with that day's morning window, and late exactly when one collides with its night window |
| Schedules.FlagDays | schedule_generator.py:311-324 | the loop over the seven days computes both flag lists |
| Schedules.Gap | schedule_generator.py:308 | `(next.start - prev.end).seconds / 60`: a break is below one day; it is next start minus previous end when that is not negative, and wraps round to one day plus that difference when the blocks overlap (a class starting before the previous one ends adds almost a whole day) |
| Schedules.MorningTimes | schedule_generator.py:314-316 | the morning window read from `12:00AM` and `09:00AM` is minutes 0..540 |
| Schedules.NightTimes | schedule_generator.py:317-319 | the night window read from `05:00PM` and `11:59PM` is minutes 1020..1439 |
| Schedules.DayMembers | schedule_generator.py:292-297 | day n holds exactly the schedule's blocks dated n+1 |
| Schedules.SaturdayMeaning | schedule_generator.py:298-299 | the Saturday list is non-empty exactly when some block of the schedule falls on weekday 6 |
| Schedules.TravelTimeMeaning | schedule_generator.py:300-302 | travel time is 120 minutes for each distinct weekday with a class |
| Schedules.ClassTimeMeaning | schedule_generator.py:304-305 | class time is the sum of the durations of all the schedule's blocks |
| Schedules.DurationSumSorted | schedule_generator.py:295 | sorting the blocks does not change the sum of their durations |
| Schedules.TotalTimeMeaning | schedule_generator.py:300-309 | total time is travel plus class plus break time. It is zero exactly when the schedule has no blocks, and otherwise exceeds the class time |
| Schedules.WindowCollisions | schedule_generator.py:311-324 | a block that ends after it starts collides with its day's morning window exactly when it starts at or before 9:00 AM, and with the night window exactly when it ends at or after 5:00 PM |
| Schedules.DayFlagsMeaning | schedule_generator.py:311-324 | day n is flagged early exactly when some block on weekday n+1 starts at or before 9:00 AM, and late exactly when one ends at or after 5:00 PM |
| Schedules.SleeplessNightsZero | schedule_generator.py:327-329 | there is no sleepless night exactly when no late day is followed by an early next day, and there are at most as many as nights counted |
| Schedules.SleeplessIgnoresSundayNight | schedule_generator.py:327-329 | Sunday's late flag and Monday's early flag never change the count |
| Ranking.RatioAboveMeaning | schedule_generator.py:187 | with positive totals, comparing by cross-multiplication is comparing the ratios `class_time / total_time` |
| Ranking.RankOrderMeaning | schedule_generator.py:187 | the stable descending sort visits every position exactly once. No later schedule has a strictly higher ratio than an earlier one, and schedules with equal ratios keep their input order |
| Ranking.RankedPermutes | schedule_generator.py:187 | the ranking is a permutation of the schedules |
| Ranking.RankByKey | schedule_generator.py:187 | sorting by a key with positive totals gives a permutation ordered by non-increasing ratio |
| Ranking.ChosenMeaning | schedule_generator.py:211-221 | from the top, the best schedule is always chosen, and at most ten are chosen, in ranking order. None matches one chosen before it. A schedule is skipped only because it matches an earlier chosen one, unless the limit was reached before the walk came to it: the chosen are the first ten non-matching schedules in ranking order |
| Ranking.ChosenFromBottom | schedule_generator.py:223-233 | from the bottom (`schedules[-x-1]`), the worst schedule is always chosen and at most ten are chosen; none matches one chosen before it from that end |
| Ranking.ChosenFromBottomSkips | schedule_generator.py:223-233 | from the bottom, a schedule is skipped only because it matches one chosen before it from that end, unless ten were already chosen when the walk came to it |
| Ranking.ChosenFull | schedule_generator.py:213 | once ten are chosen, later schedules change nothing |
| Ranking.ChosenSkipsBeforeLast | schedule_generator.py:211-221 | a schedule that is not chosen, and comes before the last one chosen or the walk never reaches ten, matches a schedule chosen earlier in the walk |
| Generator.AddSchedule | schedule_generator.py:162-163 | appending one new schedule with its credits extends the created list by exactly that candidate |
| Generator.AddSchedules | schedule_generator.py:151-163 | one subset's loop appends exactly that subset's candidates, as fresh distinct objects |
| Generator.AddSubsets | schedule_generator.py:149-163 | the loop over subsets appends, in order, the candidates of each subset |
| Generator.BuildSchedules | schedule_generator.py:147-163 | the enumeration creates one fresh, distinct, unmeasured schedule per candidate, in creation order |
| Generator.DropConflicts | schedule_generator.py:166 | the first filter keeps, in order, exactly the schedules without a conflict |
| Generator.CalculateAll | schedule_generator.py:169-170 | after the loop, every surviving schedule is measured and keeps its credits |
| Generator.DropSaturdays | schedule_generator.py:173 | the second filter keeps, in order, exactly the schedules without a Saturday class |
| Generator.DropSleepless | schedule_generator.py:183 | the third filter keeps, in order, exactly the schedules without a sleepless night |
| Generator.Survive | schedule_generator.py:165-183 | the three filters, with the metrics computed in between, leave the layouts `Survivors` names. Every schedule left is measured and carries the credits of the candidate it was created from |
| Generator.SurvivorsMeaning | schedule_generator.py:165-183 | a layout survives exactly when it was created and has no conflict, no Saturday class and no sleepless night |
| Generator.ZeroTotal | schedule_generator.py:187 | a schedule with a total time of zero makes the ranking key undefined |
| Generator.Rank | schedule_generator.py:187 | sorting fails with ZeroTotalTime when some total time is zero, and otherwise gives the stable descending ranking |
| Generator.MeasuredPermute | schedule_generator.py:187 | sorting only reorders the schedule objects, so measured schedules carrying candidates' credits stay so |
| Generator.MatchesAny | schedule_generator.py:214-217 | the inner loop finds a match exactly when the candidate matches some schedule already printed |
| Generator.SelectStep | schedule_generator.py:213-221 | one pass of the selection loop extends the saved positions as `Chosen` specifies |
| Generator.ChoosePreferred | schedule_generator.py:211-221 | the first loop saves the positions `Chosen` picks from the top of the ranking |
| Generator.ChooseUndesirable | schedule_generator.py:223-233 | the second loop saves the positions `Chosen` picks from the reversed ranking |
| Generator.NewGenerator | schedule_generator.py:129-144 | building a generator succeeds exactly when the catalog can be built, and then holds its required and flexible courses and no schedules; otherwise it fails with the catalog's error |
| Generator.ScheduleGenerator.constructor | schedule_generator.py:130-132 | a generator starts with the given courses and no schedules |
| Generator.ScheduleGenerator.GenerateSchedules | schedule_generator.py:146-233 | a run leaves the survivors, ranked, in `schedules`, and returns the positions chosen from each end. If some survivor's total time is zero, it returns ZeroTotalTime and leaves the survivors unranked. Either way every schedule left is measured and carries the credit total of an enumerated candidate with its sections |
| Generator.GeneratedFails | schedule_generator.py:187 | a run fails exactly when some surviving schedule has no blocks. It then fails with ZeroTotalTime and keeps the survivors in filter order |
| Generator.GeneratedRanking | schedule_generator.py:187 | a successful run's schedules are a permutation of the survivors, ordered by non-increasing ratio of class time to total time |

## Left out

- Images: `save_image` and `datetime_to_coords` (source lines 334-433) draw PNG files. The model
  records the positions whose image would be saved (`Selection`), not the files or their names.
- Weights: `gaussian` and the `weight` sum (lines 280-288 and 331-332) are floating-point, and no
  ranking or filter reads them.
- Reading the file: `read_csv` and the script at the end of the file (lines 435-459) read a file
  and use the clock. The model starts from the list of rows; a missing column (a KeyError) is not
  modelled, because every row has every field.
- Credits: `float()` of the "Credits" cell is an integer number of tenths, or a failure
  (BadCredits). Python's floating-point rounding of credit sums is not modelled.
- The credit window: MIN_CREDITS and MAX_CREDITS (lines 27-28) are parameters of the run.
- The ranking key: `class_time / total_time` is compared exactly by cross-multiplication, not in
  floating point.
- The unused filters: the `no_mornings` and `no_nights` lists (lines 177-179) are built and never
  used, and the commented-out report (lines 198-204) prints nothing. Neither affects a run, so
  neither is modelled.
- Failed asserts: the message of the assert on line 72 concatenates a dict to a string, so Python
  raises TypeError instead of AssertionError. Both stop the run; the model reports FieldCount.
- `strptime`: only ASCII digits are modelled. The year and month of the datetimes are not
  modelled, because they are equal for every block.
- Pick: it skips subset positions past the end of the flexible list. The enumeration never
  produces such a position.
- Blocks.CollidesMeaning: stated for blocks that do not end before they start. Every parsed block
  and both flag windows are such blocks; `Collides` itself is defined for all blocks.
