/** The dashboard's uncapped daily score, weekly progress, card classification,
    progress bar and time-of-day sections (`components/Dashboard.tsx`). */
module Dashboard {
  import opened Types
  import opened Calendar
  import opened Rounding
  import opened Scoring

  /** The `dailyScore` memo: Daily habits count when logged truthy (no limit
      polarity), Weekly habits logged that day add a bonus to the numerator,
      and nothing caps the result. */
  function DailyScore(habits: seq<Habit>, logs: Log, selected: int): int {
    var rec := DayOf(logs, selected);
    if DailyTotal(habits) == 0 then 0
    else RoundPercent(DailyDone(habits, rec) + WeeklyBonus(habits, rec), DailyTotal(habits))
  }

  /** With no Daily habit the score is 0, whatever the Weekly bonus. */
  lemma NoDailyScoreZero(habits: seq<Habit>, logs: Log, selected: int)
    requires CountDaily(habits) == 0
    ensures DailyScore(habits, logs, selected) == 0
  {
    NoDailyNoTotal(habits);
  }

  /** Without a Weekly bonus the score is a percentage, and it is 100 when
      every Daily habit is logged, `max_x` ones included. */
  lemma NoBonusScoreBounds(habits: seq<Habit>, logs: Log, selected: int)
    requires NonNegWeights(habits)
    requires NoWeeklyDone(habits, DayOf(logs, selected))
    ensures 0 <= DailyScore(habits, logs, selected) <= 100
    ensures CountDaily(habits) > 0 && AllDailyDone(habits, DayOf(logs, selected))
            ==> DailyScore(habits, logs, selected) == 100
  {
    var rec := DayOf(logs, selected);
    WeeklyBonusBounds(habits, rec);
    DailyDoneBounds(habits, rec);
    DailyTotalSign(habits);
    if DailyTotal(habits) != 0 {
      RoundPercentBounds(DailyDone(habits, rec), DailyTotal(habits));
    }
  }

  /** With every Daily habit logged the score is at least 100, and it goes
      above 100 exactly when the Weekly bonus is at least 1/200 of the Daily
      weight, i.e. when the bonus survives rounding. */
  lemma {:induction false} FullDayWithBonus(habits: seq<Habit>, logs: Log, selected: int)
    requires NonNegWeights(habits) && CountDaily(habits) > 0
    requires AllDailyDone(habits, DayOf(logs, selected))
    ensures DailyScore(habits, logs, selected) >= 100
    ensures DailyScore(habits, logs, selected) > 100
            <==> 200 * WeeklyBonus(habits, DayOf(logs, selected)) >= DailyTotal(habits)
  {
    var rec := DayOf(logs, selected);
    DailyDoneBounds(habits, rec);
    DailyTotalSign(habits);
    WeeklyBonusBounds(habits, rec);
    var t, w := DailyTotal(habits), WeeklyBonus(habits, rec);
    var n := 200 * (t + w) + t;
    assert DailyScore(habits, logs, selected) == n / (2 * t);
    DivBracket(n, 2 * t, 100);
    DivBracket(n, 2 * t, 101);
    assert (2 * t) * 100 == 200 * t;
    assert (2 * t) * 101 == 202 * t;
  }

  /** A logged Weekly habit with every Daily habit done pushes a small
      protocol above 100%. */
  lemma FullDayWithWeeklyExceeds(habits: seq<Habit>, logs: Log, selected: int, i: int)
    requires NonNegWeights(habits) && CountDaily(habits) > 0
    requires AllDailyDone(habits, DayOf(logs, selected))
    requires 0 <= i < |habits| && habits[i].frequency == Weekly && Done(habits[i], DayOf(logs, selected))
    requires DailyTotal(habits) <= 200
    ensures DailyScore(habits, logs, selected) > 100
  {
    var rec := DayOf(logs, selected);
    WeeklyBonusBounds(habits, rec);
    WeeklyBonusAtLeastOne(habits, rec, i);
    FullDayWithBonus(habits, logs, selected);
  }

  lemma {:induction false} WeeklyBonusAtLeastOne(habits: seq<Habit>, rec: DayRecord, i: int)
    requires NonNegWeights(habits)
    requires 0 <= i < |habits| && habits[i].frequency == Weekly && Done(habits[i], rec)
    ensures WeeklyBonus(habits, rec) >= 1
  {
    TailNonNeg(habits);
    WeeklyBonusBounds(habits[1..], rec);
    if i > 0 {
      assert habits[1..][i - 1] == habits[i];
      WeeklyBonusAtLeastOne(habits[1..], rec, i - 1);
    }
  }

  // ---- Weekly progress ----

  datatype HabitStatus =
    | DailyStatus(isDoneToday: bool)
    | WeeklyStatus(isDoneToday: bool, count: nat, isMaxType: bool)

  /** `getHabitStatus`: whether the habit is logged on the selected day and,
      for a Weekly habit, how many days of the Sunday-to-Saturday week holding
      the selected day it is logged on. */
  function GetHabitStatus(h: Habit, logs: Log, selected: int): (r: HabitStatus)
    ensures r.isDoneToday <==> DoneOn(logs, selected, h.id)
    ensures r.WeeklyStatus? <==> h.frequency == Weekly
    ensures r.WeeklyStatus? ==> r.count <= 7 && (r.isMaxType <==> h.unit == "max_x")
    ensures r.WeeklyStatus? ==> r.count == |DoneDays(logs, h.id, WeekStart(selected), 7)|
  {
    var isDoneToday := DoneOn(logs, selected, h.id);
    if h.frequency == Weekly then
      var count := CountDone(logs, h.id, WeekStart(selected), 7);
      CountDoneIsDoneDays(logs, h.id, WeekStart(selected), 7);
      WeeklyStatus(isDoneToday, count, IsMaxType(h))
    else
      DailyStatus(isDoneToday)
  }

  /** Every day of a week reports the same weekly count. */
  lemma SameWeekSameCount(h: Habit, logs: Log, a: int, b: int)
    requires h.frequency == Weekly
    requires WeekStart(a) <= b < WeekStart(a) + 7
    ensures GetHabitStatus(h, logs, a).count == GetHabitStatus(h, logs, b).count
  {
    WeekStartSameWeek(a, b);
  }

  // ---- Card classification ----

  datatype CardKind = MaxCard | AbstinenceCard | StandardCard

  /** How a habit card reads a logged day: a limit, an abstinence, or an
      ordinary habit. */
  function Kind(h: Habit): CardKind {
    if IsMaxType(h) then MaxCard
    else if h.category == Vicios then AbstinenceCard
    else StandardCard
  }

  /** Every habit is exactly one kind; only a limit card reads a logged day
      as a failure, which is the limit polarity of the shared score. */
  lemma KindPartition(h: Habit, rec: DayRecord)
    ensures Kind(h) == MaxCard <==> h.unit == "max_x"
    ensures Kind(h) == AbstinenceCard <==> h.category == Vicios && h.unit != "max_x"
    ensures Kind(h) == StandardCard <==> h.category != Vicios && h.unit != "max_x"
    ensures PolarSuccess(h, rec) <==> (if Kind(h) == MaxCard then !Done(h, rec) else Done(h, rec))
  {
  }

  /** Width of the weekly progress bar, `Math.min(100, count / target * 100)`;
      `None` is the `NaN` of `0 / 0`, and `count / 0` is `Infinity`. */
  function ProgressWidth(count: nat, target: int): Option<real> {
    if target == 0 then (if count == 0 then None else Some(100.0))
    else
      var w := count as real / target as real * 100.0;
      Some(if w <= 100.0 then w else 100.0)
  }

  /** The red state of the progress bar. */
  predicate Red(count: nat, h: Habit) {
    count > h.targetCount && IsMaxType(h)
  }

  /** For a positive target the bar is a percentage, full exactly when the
      count reaches the target; a red bar is always full. */
  lemma ProgressWidthBounds(count: nat, h: Habit)
    requires h.targetCount > 0
    ensures ProgressWidth(count, h.targetCount).Some?
    ensures 0.0 <= ProgressWidth(count, h.targetCount).value <= 100.0
    ensures ProgressWidth(count, h.targetCount).value == 100.0 <==> count >= h.targetCount
    ensures Red(count, h) ==> ProgressWidth(count, h.targetCount).value == 100.0
    ensures Red(count, h) <==> count > h.targetCount && h.unit == "max_x"
  {
    var t := h.targetCount as real;
    var w := count as real / t * 100.0;
    if count >= h.targetCount {
      assert count as real / t >= 1.0;
    } else {
      assert count as real / t < 1.0;
    }
  }

  // ---- Time-of-day sections ----

  /** `renderSection`: the habits of one time of day, in list order. */
  function Section(habits: seq<Habit>, t: TimeOfDay): (r: seq<Habit>)
    ensures |r| <= |habits|
    ensures forall h {:trigger h in r} :: h in r <==> h in habits && h.timeOfDay == t
  {
    if habits == [] then []
    else (if habits[0].timeOfDay == t then [habits[0]] else []) + Section(habits[1..], t)
  }

  /** A section is a filter: habits keep their list order. */
  lemma {:induction false} SectionConcat(a: seq<Habit>, b: seq<Habit>, t: TimeOfDay)
    ensures Section(a + b, t) == Section(a, t) + Section(b, t)
  {
    if a == [] {
      assert a + b == b;
    } else {
      var x := if a[0].timeOfDay == t then [a[0]] else [];
      assert Section(a + b, t) == x + Section(a[1..] + b, t) by {
        assert (a + b)[0] == a[0];
        assert (a + b)[1..] == a[1..] + b;
      }
      assert Section(a[1..] + b, t) == Section(a[1..], t) + Section(b, t) by {
        SectionConcat(a[1..], b, t);
      }
      assert Section(a, t) == x + Section(a[1..], t);
      assert (x + Section(a[1..], t)) + Section(b, t) == x + (Section(a[1..], t) + Section(b, t));
    }
  }

  /** A single habit is kept exactly when it has the section's time. */
  lemma SectionOne(h: Habit, t: TimeOfDay)
    ensures Section([h], t) == (if h.timeOfDay == t then [h] else [])
  {
    assert [h][1..] == [];
  }

  function CountUndeclared(habits: seq<Habit>): nat {
    if habits == [] then 0
    else (if DeclaredTime(habits[0].timeOfDay) then 0 else 1) + CountUndeclared(habits[1..])
  }

  /** The four sections split the habits with a declared time of day: each
      such habit lands in exactly the section of its own time, and only
      habits with an out-of-type time are left out. */
  lemma {:induction false} SectionsPartition(habits: seq<Habit>)
    ensures |Section(habits, Morning)| + |Section(habits, Afternoon)|
            + |Section(habits, Evening)| + |Section(habits, AnyTime)|
            + CountUndeclared(habits) == |habits|
    ensures forall i, t :: 0 <= i < |habits| && t in AllTimes ==>
              (habits[i] in Section(habits, t) <==> habits[i].timeOfDay == t)
  {
    if habits != [] {
      SectionsPartition(habits[1..]);
    }
  }
}
