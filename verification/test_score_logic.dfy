/** The capped variant of the dashboard score kept next to its four worked
    cases (`test-score-logic.ts`). */
module TestScoreLogic {
  import opened Types
  import opened Rounding
  import opened Scoring
  import Dashboard

  /** `calculateScore`: the dashboard's Daily-plus-bonus ratio, capped at 100. */
  function CalculateScore(habits: seq<Habit>, logs: Log, day: int): (r: int)
    ensures r <= 100
    ensures CountDaily(habits) == 0 ==> r == 0
    ensures NonNegWeights(habits) ==> 0 <= r
    ensures NonNegWeights(habits) && CountDaily(habits) > 0 && AllDailyDone(habits, DayOf(logs, day))
            ==> r == 100
  {
    var s := Dashboard.DailyScore(habits, logs, day);
    if CountDaily(habits) == 0 then
      Dashboard.NoDailyScoreZero(habits, logs, day);
      0
    else if s <= 100 then
      if NonNegWeights(habits) then
        BonusNeverLowers(habits, logs, day);
        s
      else s
    else 100
  }

  /** The capped score is the dashboard score whenever that one is at most 100,
      and 100 otherwise. */
  lemma CapOfDashboard(habits: seq<Habit>, logs: Log, day: int)
    ensures Dashboard.DailyScore(habits, logs, day) <= 100
            ==> CalculateScore(habits, logs, day) == Dashboard.DailyScore(habits, logs, day)
    ensures Dashboard.DailyScore(habits, logs, day) > 100 ==> CalculateScore(habits, logs, day) == 100
  {
    if CountDaily(habits) == 0 {
      Dashboard.NoDailyScoreZero(habits, logs, day);
    }
  }

  /** The Weekly bonus only ever raises the score: it is at least the score of
      the Daily habits alone, which lies in [0, 100] and is 100 when every
      Daily habit is logged. */
  lemma BonusNeverLowers(habits: seq<Habit>, logs: Log, day: int)
    requires NonNegWeights(habits) && CountDaily(habits) > 0
    ensures DailyTotal(habits) > 0
    ensures 0 <= RoundPercent(DailyDone(habits, DayOf(logs, day)), DailyTotal(habits))
                <= Dashboard.DailyScore(habits, logs, day)
    ensures AllDailyDone(habits, DayOf(logs, day)) ==> Dashboard.DailyScore(habits, logs, day) >= 100
  {
    var rec := DayOf(logs, day);
    DailyTotalSign(habits);
    DailyDoneBounds(habits, rec);
    WeeklyBonusBounds(habits, rec);
    RoundPercentBounds(DailyDone(habits, rec), DailyTotal(habits));
    RoundDivMonotone(100 * DailyDone(habits, rec),
                     100 * (DailyDone(habits, rec) + WeeklyBonus(habits, rec)), DailyTotal(habits));
  }

  /** Appending a logged Weekly habit never lowers the capped score. */
  lemma AppendLoggedWeekly(habits: seq<Habit>, w: Habit, logs: Log, day: int)
    requires NonNegWeights(habits) && w.frequency == Weekly && w.weight >= 0
    ensures CalculateScore(habits, logs, day) <= CalculateScore(habits + [w], logs, day)
  {
    var rec := DayOf(logs, day);
    AppendWeekly(habits, w, rec);
    assert CountDaily(habits + [w]) == CountDaily(habits) by {
      CountDailyAppendWeekly(habits, w);
    }
    if CountDaily(habits) > 0 {
      DailyTotalSign(habits);
      RoundDivMonotone(100 * (DailyDone(habits, rec) + WeeklyBonus(habits, rec)),
                       100 * (DailyDone(habits + [w], rec) + WeeklyBonus(habits + [w], rec)),
                       DailyTotal(habits));
    }
  }

  lemma {:induction false} CountDailyAppendWeekly(habits: seq<Habit>, w: Habit)
    requires w.frequency == Weekly
    ensures CountDaily(habits + [w]) == CountDaily(habits)
  {
    if habits == [] {
      assert [w][1..] == [];
    } else {
      assert (habits + [w])[1..] == habits[1..] + [w];
      CountDailyAppendWeekly(habits[1..], w);
    }
  }

  // ---- The four worked cases ----

  /** 2023-10-27. */
  const CaseDay: int := 19657

  function Mock(id: string, category: Category, frequency: Frequency, unit: string, time: TimeOfDay): Habit {
    Habit(id, id, category, frequency, 1, unit, None, None, true, time, None, None, 2)
  }

  /** Two Daily habits and one Weekly habit, all of weight 2. */
  const MockHabits: seq<Habit> := [
    Mock("daily1", Saude, Daily, "bool", Morning),
    Mock("daily2", Saude, Daily, "bool", Morning),
    Mock("weekly1", Social, Weekly, "x", AnyTime)
  ]

  /** Half the Daily weight gives 50; all of it gives 100; the Weekly bonus is
      capped at 100 on a full day and makes up a missing Daily habit on a
      half day. */
  lemma MockCases()
    ensures CalculateScore(MockHabits, map[CaseDay := map["daily1" := Bool(true)]], CaseDay) == 50
    ensures CalculateScore(MockHabits, map[CaseDay := map["daily1" := Bool(true), "daily2" := Bool(true)]], CaseDay) == 100
    ensures CalculateScore(MockHabits, map[CaseDay := map["daily1" := Bool(true), "daily2" := Bool(true), "weekly1" := Num(1)]], CaseDay) == 100
    ensures CalculateScore(MockHabits, map[CaseDay := map["daily1" := Bool(true), "weekly1" := Num(1)]], CaseDay) == 100
  {
    var h := MockHabits;
    assert h[1..][1..][1..] == [];
    var r1: DayRecord := map["daily1" := Bool(true)];
    var r4: DayRecord := map["daily1" := Bool(true), "weekly1" := Num(1)];
    assert "daily2" !in r1 && "weekly1" !in r1;
    assert "daily2" !in r4;
    assert DailyTotal(h) == 4;
    assert DailyDone(h, r1) == 2 && WeeklyBonus(h, r1) == 0;
    assert DailyDone(h, r4) == 2 && WeeklyBonus(h, r4) == 2;
  }
}
