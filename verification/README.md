# Habit protocol scoring — a Dafny model

This project models the core of a habit-tracking application: a user's
*protocol* is a list of habits drawn from a fixed habit library. Each habit
has a category, a Daily or Weekly frequency, a target count, a unit (`bool` for a check,
`x` for a count, or the limit unit `max_x`), a time of day and a weight of 1 (low),
2 (medium) or 3 (high). The daily log maps dates to records of habit id →
value, with an optional `mood` entry.

What the model covers:

- **The scores computed from the log.**
  - The shared weekly average and the activity streak (`utils/scoreCalculations.ts`).
  - The dashboard's uncapped daily score and its weekly counts, card kinds, progress bar and time-of-day sections (`components/Dashboard.tsx`).
  - The capped variant and its four worked cases (`test-score-logic.ts`).
  - The analytics view: seven-day bars, consistency, perfect days, the category radar, the mood chart and the 28-day contribution grid (`components/Analytics.tsx`).
  - How these variants relate to one another.
- **The log toggle** (`App.tsx`).
- **The habit editor** (`components/HabitManager.tsx`): inline field edits, the priority and time badges, the frequency toggle, the target stepper, delete, add-from-library, custom habits and the library search.
- **The protocol generated at the end of onboarding** (`components/Onboarding.tsx`).
- **The library migrations** (`services/migration.ts`) and the one-off text-migration script (`scripts/migrate-habits-example.js`).
- **The habit library itself** (`constants.ts`) and the data model (`types.ts`).

## Modelling decisions

- **Dates are day numbers.** Days count from 1970-01-01, which was a Thursday. `Calendar.Weekday` is `Date.getDay` (0 = Sunday). The "current date" every screen reads from the clock is a parameter.
- **Values.** A logged value is a check mark or a number: `Types.Value`, `Bool | Num`. JavaScript truthiness is written out (`Types.Truthy`), and so is the streak's looser "activity" test, under which any number counts, 0 included.
- **Weights.** `h.weight || 2` is `Types.EffWeight`.
- **Exact arithmetic.** Ratios are exact. `Math.round(a / b * 100)` is `Rounding.RoundPercent`, with `Math.round` taken as rounding halves up. The analytics radar and progress bar use `real`.
- **The library is a parameter.** Every operation that looks up the library takes it as a parameter `lib`; the application passes `Catalog.Library`, the 25 entries of `constants.ts`. Facts about the actual library are proved for each id, via `Catalog.Found`.
- **What the code does, not what one might expect.** Three choices of the code are easy to miss, and the model makes them too:
  - every score counts disabled habits as well (no filter on `enabled`);
  - the dashboard's score is not capped at 100, and a logged Weekly habit can push it above 100;
  - the analytics window and grid name their days in UTC (`toISOString`), while the other screens use local dates. With dates as day numbers this difference disappears (see Left out).
- **Dead branches, modelled as written.**
  - The weekly average's over-100 warning can never fire: it compares an average of capped day scores.
  - The onboarding rules for `limit_alcohol` and `limit_shorts` ask for ids the library does not contain, so they never add anything.
- **The migration script agrees with the service.** The script's texts are the library's current ones, so the script does exactly what the service's abstinence migration does.
- **Sync discards edits.** A library sync throws away every editor change to a library habit (weight, frequency, target, time, title), and the weight the onboarding rules chose.

## Model

| member | source | states |
|---|---|---|
| Types.DayOf | types.ts:76-81 | a date without a record reads as the empty record, the same as a present empty one |
| Types.EffWeight | utils/scoreCalculations.ts:42 | a missing (zero) weight counts as medium, 2; any other weight is used as given, and the result is never zero |
| Types.FromTemplate | constants.ts:5 | a library entry becomes a user habit by keeping every library field and adding `enabled`, `streak` and `whyChosen` |
| Types.CategoriesDistinct | types.ts:2-8 | there are exactly five categories, listed once each in declaration order |
| Types.TimesDistinct | types.ts:15 | the four declared times of day are distinct and are exactly the declared ones |
| Calendar.Weekday | utils/scoreCalculations.ts:11 | the day of the week is in 0..6 |
| Calendar.WeekStart | utils/scoreCalculations.ts:10-14 | the week's Sunday lies at most six days before the day and is a Sunday |
| Calendar.WeekStartSameWeek | components/Dashboard.tsx:48-57 | every day of a week finds the same Sunday |
| Rounding.RoundReal | components/Analytics.tsx:149 | `Math.round` on a real is the integer within half a unit, halves up |
| Rounding.RoundDivNearest | utils/scoreCalculations.ts:75 | the rounded quotient is the nearest integer to the exact ratio, halves up |
| Rounding.RoundPercentSign | components/Dashboard.tsx:105 | the percentage of a negative denominator is the percentage of both negated |
| Rounding.RoundDivMonotone | utils/scoreCalculations.ts:75 | rounding a quotient keeps the order of numerators |
| Rounding.RoundPercentBounds | utils/scoreCalculations.ts:61 | a ratio in [0, 1] rounds to a percentage in [0, 100]; it is 100 exactly when the ratio is at least 0.995, and 0 for a zero numerator |
| Rounding.RoundRealBounds | components/Analytics.tsx:149 | a real percentage rounds into 0..100 |
| Rounding.RoundDivBounds | utils/scoreCalculations.ts:75 | the rounded mean of values in 0..100 is in 0..100 |
| Scoring.CountDaily | utils/scoreCalculations.ts:32 | the Daily habits are at most all the habits |
| Scoring.CountDone | components/Dashboard.tsx:58-66 | a habit is logged on at most as many days as the range has |
| Scoring.CountDoneIsDoneDays | components/Dashboard.tsx:58-66 | the weekly count is the number of distinct days of the range on which the habit is logged truthy |
| Scoring.DailyTotalSign | utils/scoreCalculations.ts:41-43 | with non-negative weights the Daily weight is at least the number of Daily habits, and is zero exactly when there is none |
| Scoring.NoDailyNoTotal | utils/scoreCalculations.ts:32-36 | without Daily habits the denominator is zero |
| Scoring.DailyDoneBounds | components/Dashboard.tsx:82-92 | the logged Daily weight is between 0 and the Daily total, and equals the total exactly when every Daily habit is logged |
| Scoring.DailyPolarBounds | utils/scoreCalculations.ts:41-57 | the successful Daily weight (a limit succeeds when not logged) is between 0 and the total, and equals it exactly when every Daily habit succeeds |
| Scoring.WeeklyBonusBounds | components/Dashboard.tsx:96-102 | the Weekly bonus is non-negative, and zero exactly when no Weekly habit is logged that day |
| Scoring.PolarIsDoneWithoutMax | utils/scoreCalculations.ts:47-56 | without a Daily limit habit, the limit rule changes nothing: success is being logged |
| Scoring.AppendWeekly | components/Dashboard.tsx:96-102 | adding a Weekly habit leaves every Daily sum alone and adds to the bonus only when it is logged |
| ScoreCalculations.DayScore | utils/scoreCalculations.ts:26-63 | a day contributes a score exactly when it has a non-empty record, some Daily habit and a positive Daily weight; the score is at most 100 |
| ScoreCalculations.WeekTotals | utils/scoreCalculations.ts:21-72 | over n days at most n days are counted, and the summed scores are at most 100 per counted day |
| ScoreCalculations.KeptDays | utils/scoreCalculations.ts:26-36 | every day averaged lies in the range and has a kept record |
| ScoreCalculations.WeekDay | utils/scoreCalculations.ts:26-63 | one day of the loop is counted exactly when it is kept, and then adds its day score |
| ScoreCalculations.CalculateWeeklyAverage | utils/scoreCalculations.ts:7-90 | the loop from Sunday to today computes the weekly average; it is at most 100, and at least 0 when no weight is negative |
| ScoreCalculations.WeekTotalsNonNeg | utils/scoreCalculations.ts:61-62 | with non-negative weights the summed day scores are non-negative |
| ScoreCalculations.KeptDaysExact | utils/scoreCalculations.ts:26-36 | every kept day of the range is averaged |
| ScoreCalculations.WeekTotalsCountsKeptDays | utils/scoreCalculations.ts:63 | the divisor is the number of distinct kept days |
| ScoreCalculations.WeeklyAverageBounds | utils/scoreCalculations.ts:75 | the weekly average is a percentage |
| ScoreCalculations.NoKeptDayAverageZero | utils/scoreCalculations.ts:27-30 | missing and empty days are skipped rather than counted as zero; with none kept, the average is 0 |
| ScoreCalculations.EmptyDayNotKept | utils/scoreCalculations.ts:27 | a record with no keys is never averaged |
| ScoreCalculations.NoDailyNothingCounted | utils/scoreCalculations.ts:32-36 | without Daily habits no day is counted |
| ScoreCalculations.NoDailyHabitsAverageZero | utils/scoreCalculations.ts:33-35 | without Daily habits the weekly average is 0 |
| ScoreCalculations.DayCapRedundant | utils/scoreCalculations.ts:61 | with non-negative weights a day's score is already in 0..100, so the cap never changes it |
| ScoreCalculations.WarningNeverFires | utils/scoreCalculations.ts:77-87 | the uncapped average never exceeds 100 and equals the capped one, so the warning is unreachable |
| ScoreCalculations.RunFrom | utils/scoreCalculations.ts:99-118 | the backward run counts only active days and stops exactly at the first inactive day or at the walk's end |
| ScoreCalculations.Streak | utils/scoreCalculations.ts:95-121 | the streak is at most 365 and at least 1 when today is active |
| ScoreCalculations.RunFromExact | utils/scoreCalculations.ts:104-117 | a run is determined by its length: all active days, then an inactive one or the end of the walk |
| ScoreCalculations.CalculateStreak | utils/scoreCalculations.ts:95-121 | the 365-day walk returns the streak: the run of active days ending today, or yesterday when today is not active |
| ScoreCalculations.MoodOnlyDayIsActive | utils/scoreCalculations.ts:107 | a day with nothing but a mood still counts for the streak |
| Dashboard.NoDailyScoreZero | components/Dashboard.tsx:104-105 | with no Daily habit the score is 0, whatever is logged weekly |
| Dashboard.NoBonusScoreBounds | components/Dashboard.tsx:76-106 | without a logged Weekly habit the score is a percentage, and 100 when every Daily habit is logged |
| Dashboard.FullDayWithBonus | components/Dashboard.tsx:96-105 | with every Daily habit logged the score is at least 100, and exceeds 100 exactly when the bonus is at least half the Daily weight |
| Dashboard.FullDayWithWeeklyExceeds | components/Dashboard.tsx:96-105 | for a Daily weight of at most 200, one logged Weekly habit on a full day pushes the score above 100 |
| Dashboard.WeeklyBonusAtLeastOne | components/Dashboard.tsx:96-102 | one logged Weekly habit earns a bonus of at least 1 |
| Dashboard.GetHabitStatus | components/Dashboard.tsx:48-73 | the card is done exactly when the habit is logged truthy on the day; a Weekly card counts the distinct logged days of the week, at most 7, and flags limits |
| Dashboard.SameWeekSameCount | components/Dashboard.tsx:52-66 | every day of a week shows the same weekly count |
| Dashboard.KindPartition | components/Dashboard.tsx:147-150 | each habit is exactly one of limit, abstinence or standard, and only a limit succeeds when it is not logged |
| Dashboard.ProgressWidthBounds | components/Dashboard.tsx:215-229 | for a positive target the bar is in [0, 100] and is full exactly when the target is reached; it is red exactly when a limit is exceeded, and then it is full |
| Dashboard.Section | components/Dashboard.tsx:254-258 | a section holds exactly the habits of its time of day |
| Dashboard.SectionConcat | components/Dashboard.tsx:254-258 | the section of a concatenation is the section of each part, in order, so the filter keeps list order |
| Dashboard.SectionOne | components/Dashboard.tsx:254-258 | a one-habit list keeps its habit exactly when the time of day matches |
| Dashboard.SectionsPartition | components/Dashboard.tsx:319-322 | the four sections together with the habits of no declared time account for every habit |
| TestScoreLogic.CalculateScore | test-score-logic.ts:41-70 | the capped score is at most 100, 0 without Daily habits, never negative with non-negative weights, and 100 when every Daily habit is logged |
| TestScoreLogic.CapOfDashboard | test-score-logic.ts:69 | the capped score is the dashboard score clipped to 100 |
| TestScoreLogic.BonusNeverLowers | components/Dashboard.tsx:96-105 | the dashboard score is at least the Daily-only percentage, and at least 100 on a full day |
| TestScoreLogic.AppendLoggedWeekly | test-score-logic.ts:58-66 | adding a Weekly habit never lowers the capped score |
| TestScoreLogic.CountDailyAppendWeekly | test-score-logic.ts:45 | a Weekly habit does not change the count of Daily habits |
| TestScoreLogic.MockCases | test-score-logic.ts:75-119 | the four worked cases give 50, 100, 100 and 100 |
| Analytics.BarScoreBounds | components/Analytics.tsx:80-106 | a bar is a percentage: 100 when every Daily habit succeeds, 0 when none does or when there is no Daily habit |
| Analytics.DailyData | components/Analytics.tsx:69-106 | there are seven bars, oldest first, the last one for today |
| Analytics.DailyDataPercentages | components/Analytics.tsx:99 | every bar is a percentage |
| Analytics.CountAtLeast | components/Analytics.tsx:171 | at most every day counts as perfect |
| Analytics.PerfectDays | components/Analytics.tsx:171 | at most seven perfect days |
| Analytics.SumBounds | components/Analytics.tsx:170 | percentages sum to at most 100 each, and to at least k for each entry of at least k |
| Analytics.ConsistencyBounds | components/Analytics.tsx:170-171 | consistency is a percentage, and seven perfect days make it at least 90 |
| Analytics.CatHabits | components/Analytics.tsx:110 | an axis looks at exactly the habits of its category |
| Analytics.CatHabitsConcat | components/Analytics.tsx:110 | the category filter of a concatenation is the filter of each part, in order |
| Analytics.CatHabitsOne | components/Analytics.tsx:110 | a one-habit list keeps its habit exactly when the category matches |
| Analytics.RadarData | components/Analytics.tsx:108-154 | one axis per category, in declaration order |
| Analytics.WeeklyPointsBounds | components/Analytics.tsx:131-147 | a Weekly habit earns between nothing and its weight; it earns all of it exactly when it meets its target, or for a limit, stays within it |
| Analytics.DailyEarnedBounds | components/Analytics.tsx:118-129 | the Daily points of n days are at most n times the Daily weight |
| Analytics.WeeklyEarnedBounds | components/Analytics.tsx:131-147 | the Weekly points are at most the Weekly potential |
| Analytics.RatioBounds | components/Analytics.tsx:149 | earned over a larger potential is in [0, 1], and is 1 exactly when they are equal |
| Analytics.RadarBounds | components/Analytics.tsx:108-154 | each radar axis is a percentage, and an axis with no habits of its category is exactly 0 |
| Analytics.ContributionGrid | components/Analytics.tsx:174-200 | 28 cells for consecutive days, oldest first, ending today; each cell's shade is the shade of that day's weighted fraction of Daily habits done |
| Analytics.GridCellExtremes | components/Analytics.tsx:186-197 | a cell is the darkest shade on a day with every Daily habit logged and the lightest on a day with none |
| Analytics.ShadeBands | components/Analytics.tsx:194-197 | each shade covers exactly its band of the fraction, and a larger fraction never gives a lighter shade |
| Analytics.GridFractionBounds | components/Analytics.tsx:186-192 | the fraction is in [0, 1], is 0 when there is no Daily weight, and is 1 exactly when every Daily habit is logged, which gives the darkest shade |
| Analytics.MoodFaceAsWrittenMisreads | components/Analytics.tsx:11-20 | the emoji as written shows mood 1 with the mood-2 face and mood 2 with the mood-3 face |
| Analytics.MoodRoundTrip | components/Analytics.tsx:156-167 | the chart point is the mood times 20; the tooltip label and the corrected face read back the logged mood |
| Analytics.FacesDistinct | components/Analytics.tsx:11-20 | the five moods have five different faces |
| Analytics.ScoreMoodData | components/Analytics.tsx:156-167 | seven points, each pairing the bar of the window's day with the mood point of the same day |
| Analytics.ScoreMoodReadsBack | components/Analytics.tsx:156-167 | a logged mood m on a day of the window shows as point 20m, and the tooltip label reads back m |
| CrossVariant.DashboardMatchesBar | components/Dashboard.tsx:76-106 | with no logged Weekly habit and no Daily limit, the dashboard score equals the analytics bar |
| CrossVariant.AverageDayIsCappedBar | utils/scoreCalculations.ts:59-63 | a kept day contributes the analytics bar, capped at 100 |
| CrossVariant.AverageDayIsBar | utils/scoreCalculations.ts:61 | with non-negative weights a kept day contributes exactly the analytics bar |
| CrossVariant.CappedMatchesDashboard | test-score-logic.ts:41-70 | with no logged Weekly habit, the capped score equals the dashboard score |
| CrossVariant.LimitPolarityDiffers | components/Analytics.tsx:92-95 | an unlogged Daily limit scores 0 on the dashboard and 100 in analytics |
| App.ToggleHabit | App.tsx:91-106 | the date gets a record; `false` removes the habit's key, any other value is stored; nothing else in the log changes |
| App.ToggleEffect | App.tsx:91-106 | after a toggle the habit is done on the date exactly when the value is truthy; no other habit or date changes |
| App.UncheckIdempotent | App.tsx:95-96 | unchecking twice is unchecking once |
| App.ToggleRoundTrip | App.tsx:91-106 | checking an unlogged habit and unchecking it again gives the log back, up to the empty record created for a new date |
| App.SameDaysSameScores | App.tsx:91-106 | logs that read the same on every date give the same dashboard score, weekly average, streak and consistency |
| App.ToggleRoundTripScores | App.tsx:93-98 | a check that is undone leaves the dashboard score, the weekly average and the streak where they were |
| HabitManager.EditHabits | components/HabitManager.tsx:29-34 | only habits with the id are edited; the list keeps its length and order |
| HabitManager.ApplyIdempotent | components/HabitManager.tsx:29-65 | an edit never changes an id, and applying it again changes nothing |
| HabitManager.EditKeepsIds | components/HabitManager.tsx:29-34 | an edit keeps every id in place and so keeps the ids unique |
| HabitManager.EditIdempotent | components/HabitManager.tsx:29-34 | the same edit twice is the edit once |
| HabitManager.PriorityCycle | components/HabitManager.tsx:36-40 | on weights 1..3 the badge moves low, medium, high and back to low; a stored weight of 0 goes to 1 |
| HabitManager.TimeIndex | components/HabitManager.tsx:42-47 | a declared time's position in the cycle; -1 exactly for a value outside the type |
| HabitManager.TimeCycle | components/HabitManager.tsx:42-47 | the time badge cycles morning, afternoon, evening, any and back, returning after four clicks; an unknown time goes to morning |
| HabitManager.ToggleFrequencyTwice | components/HabitManager.tsx:49-57 | switching to Weekly sets target 3 and unit count; switching back restores Daily, and a plain Daily check comes back unchanged |
| HabitManager.TargetStepper | components/HabitManager.tsx:59-65 | a target in 1..7 stays in 1..7; it goes up by one below 7 and down by one above 1 |
| HabitManager.StepUpThenDown | components/HabitManager.tsx:59-65 | a step up followed by a step down restores the list |
| HabitManager.HandleDelete | components/HabitManager.tsx:67-69 | exactly the habits without the id remain |
| HabitManager.DeleteConcat | components/HabitManager.tsx:67-69 | deleting from a concatenation deletes from each part, so the remaining habits keep their order |
| HabitManager.DeleteOne | components/HabitManager.tsx:67-69 | a one-habit list keeps its habit exactly when the id differs |
| HabitManager.DeleteFacts | components/HabitManager.tsx:67-69 | after a delete no habit has the id; deleting an absent id changes nothing; deleting twice is deleting once |
| HabitManager.DeleteKeepsUnique | components/HabitManager.tsx:67-69 | deleting keeps the ids unique |
| HabitManager.HandleAddFromLibrary | components/HabitManager.tsx:73-82 | an entry already present adds nothing; otherwise it is appended, enabled, with streak 0 |
| HabitManager.AddFacts | components/HabitManager.tsx:73-82 | after an add the id is present and the ids stay unique; adding twice is adding once; deleting the new entry undoes the add |
| HabitManager.CustomHabit | components/HabitManager.tsx:84-104 | a custom habit takes the form's fields, the unit follows the frequency, a missing target or weight falls back to a default, and it always has a description |
| HabitManager.HandleCreateCustom | components/HabitManager.tsx:85 | a form without a title adds nothing; otherwise exactly the new habit is appended |
| HabitManager.CustomFacts | components/HabitManager.tsx:18-25 | the default form makes a Daily check of medium weight in the morning; a fresh id keeps the ids unique |
| HabitManager.Lower | components/HabitManager.tsx:108 | lower-casing keeps the length and maps each letter |
| HabitManager.AvailableHabits | components/HabitManager.tsx:106-110 | the offered entries are exactly the library entries not in the list whose title or description matches the search |
| HabitManager.AvailableConcat | components/HabitManager.tsx:106-110 | the entries offered from a concatenated library are those offered from each part, in library order |
| HabitManager.AvailableOne | components/HabitManager.tsx:106-110 | a one-entry library offers its entry exactly when the id is new and the search matches |
| HabitManager.AvailableFacts | components/HabitManager.tsx:106-110 | an empty search offers every entry not yet added, and an entry just added is no longer offered |
| Catalog.LibraryFind | constants.ts:5-298 | a lookup in the library finds an entry with that id, or none exactly when no entry has it |
| Catalog.FindIn | services/migration.ts:65 | `find` by id over any library: an entry with the id, or none exactly when no entry has it |
| Catalog.LibraryIdsMatch | constants.ts:5-298 | the library has 25 entries with these ids, in this order |
| Catalog.LibraryIdsDistinct | constants.ts:5-298 | no two library entries share an id |
| Catalog.Found | constants.ts:5-298 | looking up the id of an entry finds that entry |
| Catalog.LimitIdsAbsent | constants.ts:221-298 | the library has no `limit_alcohol` and no `limit_shorts` |
| Catalog.LibraryShape | constants.ts:5-298 | every weight is 1..3, no entry is a limit, every time of day is declared |
| Catalog.LibraryDailyEntries | constants.ts:5-298 | Daily entries are single checks |
| Catalog.LibraryWeeklyEntries | constants.ts:5-298 | Weekly entries are counts with a positive target |
| Catalog.LibraryAbstinenceEntries | constants.ts:221-286 | the abstinence entries are Daily checks |
| Onboarding.Without | components/Onboarding.tsx:48 | the filter drops every copy of the goal and keeps every other |
| Onboarding.ToggleGoal | components/Onboarding.tsx:45-52 | the goal is chosen afterwards exactly when it was not chosen before; other goals and answers are kept |
| Onboarding.ToggleGoalTwice | components/Onboarding.tsx:45-52 | choosing a goal and dropping it again gives the answers back |
| Onboarding.Adopt | components/Onboarding.tsx:60 | an adopted habit is its library entry, enabled, streak 0, with the reason it was chosen and the rule's weight |
| Onboarding.Add | components/Onboarding.tsx:57-62 | an add appends at most one habit, and only an adopted library entry whose id is not yet present; no other id changes |
| Onboarding.AddKeeps | components/Onboarding.tsx:59 | an add keeps ids unique and every habit an adopted library entry |
| Onboarding.AddIdempotent | components/Onboarding.tsx:59 | asking twice for the same habit adds it once |
| Onboarding.RequestedRules | components/Onboarding.tsx:64-90 | which ids the rules ask for, for which answers |
| Onboarding.AddAll | components/Onboarding.tsx:56-90 | the adds in order keep what is already there, keep ids unique, and keep every habit an adopted library entry |
| Onboarding.AddAllIds | components/Onboarding.tsx:57-62 | an id ends up present exactly when it was present, or was requested and the library has it |
| Onboarding.GenerateInitialHabits | components/Onboarding.tsx:55-93 | the protocol has unique ids, each habit an adopted library entry, enabled, streak 0, with a reason |
| Onboarding.GeneratedIff | components/Onboarding.tsx:55-93 | an id is in the protocol exactly when a rule asks for it and the library has it |
| Onboarding.SleepFirst | components/Onboarding.tsx:64 | the protocol opens with sleep, at high weight |
| Onboarding.InLibrary | components/Onboarding.tsx:58-59 | for a library id, presence is exactly being requested |
| Onboarding.LightExercise | components/Onboarding.tsx:69 | light exercise exactly for a sedentary user |
| Onboarding.HeavyExercise | components/Onboarding.tsx:70 | heavy exercise exactly for a user who is not sedentary |
| Onboarding.ExactlyOneExercise | components/Onboarding.tsx:69-70 | every protocol holds exactly one of the two exercise habits |
| Onboarding.Meditation | components/Onboarding.tsx:72-73 | meditation exactly when peace is a goal or stress is above 6 |
| Onboarding.Gratitude | components/Onboarding.tsx:72-74 | gratitude under the same condition |
| Onboarding.PartnerConnection | components/Onboarding.tsx:77-78 | the partner habit exactly when connection is a goal or the user is not single |
| Onboarding.ColdShower | components/Onboarding.tsx:82-83 | cold showers exactly when energy is a goal |
| Onboarding.ScreensBeforeBed | components/Onboarding.tsx:87 | no screens before bed exactly when sleep quality is below 7 |
| Onboarding.NicotineIffSmokes | components/Onboarding.tsx:88 | nicotine abstinence exactly for smokers |
| Onboarding.NoAlcoholLimit | components/Onboarding.tsx:89 | the alcohol-limit rule never adds anything |
| Onboarding.NoShortsLimit | components/Onboarding.tsx:90 | the short-video rule never adds anything |
| Migration.Patched | services/migration.ts:30-32 | a patch changes only title, description and tip, each exactly as given |
| Migration.UpdateHabitFields | services/migration.ts:30-32 | only the habits with the id are patched, in place |
| Migration.UpdateFieldsFacts | services/migration.ts:30-32 | a patch keeps every id and, given twice, changes nothing more |
| Migration.SyncHabit | services/migration.ts:63-78 | a library habit takes every library field and keeps only enabled, streak and reason; any other habit is kept |
| Migration.SyncWithLibrary | services/migration.ts:63-78 | the sync keeps length, order and ids, so unique ids stay unique |
| Migration.SyncIdempotent | services/migration.ts:63-78 | syncing twice is syncing once |
| Migration.SyncUndoesEdits | services/migration.ts:67-75 | whatever the editor did to a library habit, the sync puts the library's values back |
| Migration.SyncForgetsOverride | services/migration.ts:67-75 | the weight chosen at onboarding does not survive a sync |
| Migration.Differences | services/migration.ts:115-119 | each text is named exactly when it differs; no names exactly when all three agree |
| Migration.Report | services/migration.ts:112-121 | a habit is reported at most once, and exactly when the library knows it and some text differs |
| Migration.CheckOutdated | services/migration.ts:111-138 | the list is empty exactly when nothing is outdated, and every entry names a library habit, both versions and the texts that differ |
| Migration.CheckOutdatedComplete | services/migration.ts:111-138 | every outdated habit has an entry with its id and its own texts, and every entry names an outdated habit of the list |
| Migration.CheckOutdatedConcat | services/migration.ts:111-138 | the report of a concatenation is the report of each part, in order |
| Migration.CheckOutdatedOne | services/migration.ts:112-121 | a one-habit list is reported as that habit's own report |
| Migration.SyncedNotOutdated | services/migration.ts:63-78 | right after a sync nothing is outdated |
| Migration.AbstinenceHabit | services/migration.ts:161-172 | a listed habit the library knows takes the library's title and description; nothing else changes |
| Migration.UpdateAbstinenceHabits | services/migration.ts:152-174 | each habit is migrated in place |
| Migration.AbstinenceFacts | services/migration.ts:152-174 | the migration is idempotent, and afterwards a listed habit can differ from the library only in its tip |
| MigrateScript.UpdateHabit | scripts/migrate-habits-example.js:84-97 | a listed habit takes the new title and description and keeps everything else; any other habit is unchanged |
| MigrateScript.UpdateHabits | scripts/migrate-habits-example.js:160 | each habit is updated in place |
| MigrateScript.UpdateIdempotent | scripts/migrate-habits-example.js:160 | running the update again changes nothing, and ids stay in place |
| MigrateScript.HasChangesIffStale | scripts/migrate-habits-example.js:163-167 | a protocol counts as changed exactly when some listed habit has old texts, and never right after a migration |
| MigrateScript.TitleChanges | scripts/migrate-habits-example.js:175-180 | at most one change per position |
| MigrateScript.CountTitleChanges | scripts/migrate-habits-example.js:175-180 | each habit's tally grows by the number of positions whose title changed; the keys are the old ones and the changed ids |
| MigrateScript.SameTitlesCountNothing | scripts/migrate-habits-example.js:177 | a description-only change is not counted |
| MigrateScript.AgreesWithAbstinenceMigration | scripts/migrate-habits-example.js:28-54 | on every habit the script does exactly what the abstinence migration does with the current library |

## Left out

- **I/O.** Firebase reads and writes, console logging, backups, batch progress and the command-line options of the migration script are left out. So is the all-users branch of `updateHabitFields`. Each is I/O around the list transformations modelled here.
- **The clock and time zones.** The current date, the `Date.now()` stamp of a custom habit's id, and the onboarding auto-advance timer become parameters or are dropped. Local and UTC date names (`toLocaleDateString` against `toISOString`) are both modelled as the same day number, so the near-midnight case where analytics reads a different date than the dashboard is not represented.
- **React state, rendering, colours and labels.** These are left out, apart from the progress-bar colour and the grid shades, which are modelled.
- **Floating point.** Ratios are exact rationals. A JavaScript float that lands just below a rounding half is not modelled.
- **Malformed input.** `parseInt` yielding `NaN` in the custom form is modelled as 0, the value `||` replaces. Stored values other than booleans and numbers are not modelled.
- **Unicode case folding.** `toLowerCase` is modelled on ASCII letters only.
- **Negative weights.** The bounds lemmas (`Scoring.DailyDoneBounds`, `ScoreCalculations.WeeklyAverageBounds`, `Analytics.RadarBounds` and others) require non-negative weights. The functions themselves accept any weight, as the source does.
- **`getLibraryHabit`.** It is `Catalog.LibraryFind`, so it has no separate member.
- **Parametrised lemmas.** The lemmas about the migrations hold for any library `lib`. The onboarding lemmas are stated for the actual habit library.
- HabitManager.CyclePriority: models the badge's weight as a number. A habit with no stored weight shows the low badge, but `cyclePriority` then computes `undefined + 1`, which is NaN; the model has no absent weight and does not represent that case.
- **`ScoreCalculations.RunFrom`:** the walk has an explicit length (fuel) of 365 days, as the source's loop does.

## Findings

| source | as written | input that shows it | evidently intended | confidence | as-written member | corrected member |
|---|---|---|---|---|---|---|
| components/Analytics.tsx:14 | `getMoodEmoji` reads the chart point as a 0..100 scale, `Math.round(v / 100 * 4) + 1`, although the point is the mood times 20 | mood 1 gives point 20, shown with the mood-2 face; mood 2 gives point 40, shown with the mood-3 face | the face of the mood the point encodes, `v / 20`, as the tooltip does at line 47 | not executed | Analytics.MoodFaceAsWrittenMisreads | Analytics.MoodRoundTrip |
