/** The shared weekly average (Sunday through the reference day) and the
    streak walk of `utils/scoreCalculations.ts`. */
module ScoreCalculations {
  import opened Types
  import opened Calendar
  import opened Rounding
  import opened Scoring

  function Min(a: int, b: int): int {
    if a <= b then a else b
  }

  /** The score a day contributes to the weekly average, `None` when the day
      is skipped: no entry or an empty entry, no Daily habit, or a
      non-positive Daily weight. Each kept score is capped at 100. */
  function DayScore(habits: seq<Habit>, rec: DayRecord): (r: Option<int>)
    ensures r.Some? ==> r.value <= 100
    ensures r.Some? <==> Kept(habits, rec)
  {
    if rec == map[] then None
    else if CountDaily(habits) == 0 then None
    else if DailyTotal(habits) > 0 then Some(Min(100, RoundPercent(DailyPolar(habits, rec), DailyTotal(habits))))
    else None
  }

  /** The weekly average keeps a day. */
  predicate Kept(habits: seq<Habit>, rec: DayRecord) {
    rec != map[] && CountDaily(habits) > 0 && DailyTotal(habits) > 0
  }

  /** The day score before the `Math.min(100, ...)` cap. */
  function UncappedDayScore(habits: seq<Habit>, rec: DayRecord): int
    requires DailyTotal(habits) > 0
  {
    RoundPercent(DailyPolar(habits, rec), DailyTotal(habits))
  }

  /** Sum and number of the kept day scores over `start .. start + n - 1`. */
  function WeekTotals(habits: seq<Habit>, logs: Log, start: int, n: nat): (t: (int, nat))
    ensures t.1 <= n
    ensures t.0 <= 100 * t.1
  {
    if n == 0 then (0, 0)
    else
      var prev := WeekTotals(habits, logs, start, n - 1);
      match DayScore(habits, DayOf(logs, start + n - 1))
      case None => prev
      case Some(s) => (prev.0 + s, prev.1 + 1)
  }

  /** The days of `start .. start + n - 1` that the average keeps. */
  function KeptDays(habits: seq<Habit>, logs: Log, start: int, n: nat): (s: set<int>)
    ensures forall d | d in s :: start <= d < start + n && Kept(habits, DayOf(logs, d))
  {
    if n == 0 then {}
    else KeptDays(habits, logs, start, n - 1)
         + (if Kept(habits, DayOf(logs, start + n - 1)) then {start + n - 1} else {})
  }

  /** `calculateWeeklyAverage` with the reference day `today` in place of the
      clock. */
  function WeeklyAverage(habits: seq<Habit>, logs: Log, today: int): int {
    var t := WeekTotals(habits, logs, WeekStart(today), Weekday(today) + 1);
    if t.1 > 0 then Min(100, RoundDiv(t.0, t.1)) else 0
  }

  /** The average the source compares against 100 before warning. */
  function UncappedAverage(habits: seq<Habit>, logs: Log, today: int): int {
    var t := WeekTotals(habits, logs, WeekStart(today), Weekday(today) + 1);
    if t.1 > 0 then RoundDiv(t.0, t.1) else 0
  }

  /** One day of the `calculateWeeklyAverage` loop: whether the day is
      counted, and its capped score. */
  method WeekDay(habits: seq<Habit>, dayLogs: DayRecord) returns (counted: bool, dailyScore: int)
    ensures counted <==> Kept(habits, dayLogs)
    ensures counted ==> DayScore(habits, dayLogs) == Some(dailyScore)
  {
    counted, dailyScore := false, 0;
    if dayLogs == map[] {
      return;
    }
    if CountDaily(habits) == 0 {
      return;
    }
    var totalWeight := DailyTotal(habits);
    var achievedWeight := DailyPolar(habits, dayLogs);
    if totalWeight > 0 {
      dailyScore := Min(100, RoundPercent(achievedWeight, totalWeight));
      counted := true;
    }
  }

  /** The loop of `calculateWeeklyAverage`, day by day from Sunday. */
  method CalculateWeeklyAverage(habits: seq<Habit>, logs: Log, today: int) returns (avg: int)
    ensures avg == WeeklyAverage(habits, logs, today)
    ensures avg <= 100
    ensures NonNegWeights(habits) ==> 0 <= avg
  {
    var currentDay := Weekday(today);
    var sunday := WeekStart(today);
    var totalScore := 0;
    var daysCount := 0;
    var i := 0;
    while i <= currentDay
      invariant 0 <= i <= currentDay + 1
      invariant (totalScore, daysCount) == WeekTotals(habits, logs, sunday, i)
    {
      var counted, dailyScore := WeekDay(habits, DayOf(logs, sunday + i));
      if counted {
        totalScore := totalScore + dailyScore;
        daysCount := daysCount + 1;
      }
      i := i + 1;
    }
    avg := if daysCount > 0 then Min(100, RoundDiv(totalScore, daysCount)) else 0;
    if NonNegWeights(habits) {
      WeeklyAverageBounds(habits, logs, today);
    }
  }

  lemma {:induction false} WeekTotalsNonNeg(habits: seq<Habit>, logs: Log, start: int, n: nat)
    requires NonNegWeights(habits)
    ensures WeekTotals(habits, logs, start, n).0 >= 0
  {
    if n > 0 {
      WeekTotalsNonNeg(habits, logs, start, n - 1);
      var rec := DayOf(logs, start + n - 1);
      if DayScore(habits, rec).Some? {
        DailyPolarBounds(habits, rec);
        RoundPercentBounds(DailyPolar(habits, rec), DailyTotal(habits));
      }
    }
  }

  /** The kept days are exactly the days of the range whose entry is
      non-empty while there is positive Daily weight. */
  lemma {:induction false} KeptDaysExact(habits: seq<Habit>, logs: Log, start: int, n: nat, d: int)
    requires start <= d < start + n && Kept(habits, DayOf(logs, d))
    ensures d in KeptDays(habits, logs, start, n)
  {
    if d < start + n - 1 {
      KeptDaysExact(habits, logs, start, n - 1, d);
    }
  }

  /** The number of days averaged is the number of kept days. */
  lemma {:induction false} WeekTotalsCountsKeptDays(habits: seq<Habit>, logs: Log, start: int, n: nat)
    ensures WeekTotals(habits, logs, start, n).1 == |KeptDays(habits, logs, start, n)|
  {
    if n > 0 {
      WeekTotalsCountsKeptDays(habits, logs, start, n - 1);
      assert start + n - 1 !in KeptDays(habits, logs, start, n - 1);
    }
  }

  /** The weekly average is a percentage. */
  lemma WeeklyAverageBounds(habits: seq<Habit>, logs: Log, today: int)
    requires NonNegWeights(habits)
    ensures 0 <= WeeklyAverage(habits, logs, today) <= 100
  {
    var n := Weekday(today) + 1;
    var t := WeekTotals(habits, logs, WeekStart(today), n);
    WeekTotalsNonNeg(habits, logs, WeekStart(today), n);
    if t.1 > 0 {
      RoundDivBounds(t.0, t.1);
    }
  }

  /** Missing and empty days are left out of the average rather than counted
      as zero: when no day from Sunday through `today` is kept, the average
      is 0, and the count of days averaged is exactly the kept days. */
  lemma NoKeptDayAverageZero(habits: seq<Habit>, logs: Log, today: int)
    ensures WeekTotals(habits, logs, WeekStart(today), Weekday(today) + 1).1
            == |KeptDays(habits, logs, WeekStart(today), Weekday(today) + 1)|
    ensures KeptDays(habits, logs, WeekStart(today), Weekday(today) + 1) == {}
            ==> WeeklyAverage(habits, logs, today) == 0
  {
    WeekTotalsCountsKeptDays(habits, logs, WeekStart(today), Weekday(today) + 1);
  }

  /** An entry with no keys is never kept. */
  lemma EmptyDayNotKept(habits: seq<Habit>, logs: Log, start: int, n: nat, day: int)
    requires start <= day < start + n
    requires DayOf(logs, day) == map[]
    ensures day !in KeptDays(habits, logs, start, n)
  {
  }

  lemma {:induction false} NoDailyNothingCounted(habits: seq<Habit>, logs: Log, start: int, n: nat)
    requires CountDaily(habits) == 0
    ensures WeekTotals(habits, logs, start, n).1 == 0
  {
    if n > 0 {
      NoDailyNothingCounted(habits, logs, start, n - 1);
    }
  }

  /** Without Daily habits every day is skipped, so the average is 0. */
  lemma NoDailyHabitsAverageZero(habits: seq<Habit>, logs: Log, today: int)
    requires CountDaily(habits) == 0
    ensures WeeklyAverage(habits, logs, today) == 0
  {
    NoDailyNothingCounted(habits, logs, WeekStart(today), Weekday(today) + 1);
  }

  /** With non-negative weights the per-day cap never changes a score. */
  lemma DayCapRedundant(habits: seq<Habit>, rec: DayRecord)
    requires NonNegWeights(habits) && DailyTotal(habits) > 0
    ensures 0 <= UncappedDayScore(habits, rec) <= 100
    ensures rec != map[] ==> DayScore(habits, rec) == Some(UncappedDayScore(habits, rec))
  {
    DailyPolarBounds(habits, rec);
    RoundPercentBounds(DailyPolar(habits, rec), DailyTotal(habits));
    DailyTotalSign(habits);
  }

  /** The warning branch is dead: the average of capped day scores never
      rounds above 100, so the final cap never changes the result either. */
  lemma WarningNeverFires(habits: seq<Habit>, logs: Log, today: int)
    ensures UncappedAverage(habits, logs, today) <= 100
    ensures UncappedAverage(habits, logs, today) == WeeklyAverage(habits, logs, today)
  {
    var t := WeekTotals(habits, logs, WeekStart(today), Weekday(today) + 1);
    if t.1 > 0 {
      DivBracket(2 * t.0 + t.1, 2 * t.1, 100);
      assert (2 * t.1) * 101 == 202 * t.1;
    }
  }

  // ---- Streak ----

  /** A value that keeps a streak alive: `true` or any number (a mood too). */
  predicate Activity(v: Value) {
    v == Bool(true) || v.Num?
  }

  predicate HasActivity(rec: DayRecord) {
    exists k | k in rec :: Activity(rec[k])
  }

  predicate ActiveDay(logs: Log, day: int) {
    HasActivity(DayOf(logs, day))
  }

  /** Every day of `lo .. hi` is active. */
  predicate AllActive(logs: Log, lo: int, hi: int) {
    forall d :: lo <= d <= hi ==> ActiveDay(logs, d)
  }

  /** Length of the run of consecutive active days walking back from `day`,
      looking at no more than `fuel` days. */
  function RunFrom(logs: Log, day: int, fuel: nat): (r: nat)
    ensures r <= fuel
    ensures AllActive(logs, day - r + 1, day)
    ensures r < fuel ==> !ActiveDay(logs, day - r)
    decreases fuel
  {
    if fuel == 0 || !ActiveDay(logs, day) then 0
    else 1 + RunFrom(logs, day - 1, fuel - 1)
  }

  /** The streak: the run from `today` if it is active, otherwise the run from
      the day before; `today` alone never ends it. */
  function Streak(logs: Log, today: int): (r: nat)
    ensures r <= 365
    ensures ActiveDay(logs, today) ==> r >= 1
  {
    if ActiveDay(logs, today) then RunFrom(logs, today, 365) else RunFrom(logs, today - 1, 364)
  }

  /** A run is determined by where it stops. */
  lemma {:induction false} RunFromExact(logs: Log, day: int, fuel: nat, r: nat)
    requires r <= fuel
    requires AllActive(logs, day - r + 1, day)
    requires r < fuel ==> !ActiveDay(logs, day - r)
    ensures RunFrom(logs, day, fuel) == r
    decreases r
  {
    if r > 0 {
      assert ActiveDay(logs, day);
      RunFromExact(logs, day - 1, fuel - 1, r - 1);
    }
  }

  /** `calculateStreak`: the 365-day backward walk from `today`. */
  method CalculateStreak(logs: Log, today: int) returns (streak: int)
    ensures streak == Streak(logs, today)
    ensures 0 <= streak <= 365
  {
    streak := 0;
    var i := 0;
    var todayActive := ActiveDay(logs, today);
    while i < 365
      invariant 0 <= i <= 365
      invariant i == 0 ==> streak == 0
      invariant i >= 1 ==> streak == (if todayActive then i else i - 1)
      invariant AllActive(logs, today - i + 1, today - 1)
    {
      var d := today - i;
      if d in logs && logs[d] != map[] {
        var hasActivity := exists k | k in logs[d] :: Activity(logs[d][k]);
        if hasActivity {
          streak := streak + 1;
        } else if i > 0 {
          break;
        }
      } else if i == 0 {
        i := i + 1;
        continue;
      } else {
        break;
      }
      i := i + 1;
    }
    if todayActive {
      RunFromExact(logs, today, 365, streak);
    } else {
      RunFromExact(logs, today - 1, 364, streak);
    }
  }

  /** A day with only a mood entry keeps the streak going. */
  lemma MoodOnlyDayIsActive(logs: Log, day: int, mood: int)
    requires day in logs && logs[day] == map[MoodKey := Num(mood)]
    ensures ActiveDay(logs, day)
  {
    assert Activity(logs[day][MoodKey]);
  }
}
