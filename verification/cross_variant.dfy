/** How the four daily-score variants relate: the dashboard's (Weekly bonus,
    no limit polarity, no cap), the worked-case one (the same, capped), the
    weekly average's (limit polarity, capped) and the analytics bar (limit
    polarity, no cap). */
module CrossVariant {
  import opened Types
  import opened Scoring
  import opened Rounding
  import Dashboard
  import Analytics
  import ScoreCalculations
  import TestScoreLogic

  /** On a day with no Weekly habit logged and no Daily limit habit, the
      dashboard score and the analytics bar agree. */
  lemma DashboardMatchesBar(habits: seq<Habit>, logs: Log, day: int)
    requires NonNegWeights(habits)
    requires NoDailyMax(habits) && NoWeeklyDone(habits, DayOf(logs, day))
    ensures Dashboard.DailyScore(habits, logs, day) == Analytics.BarScore(habits, DayOf(logs, day))
  {
    var rec := DayOf(logs, day);
    PolarIsDoneWithoutMax(habits, rec);
    WeeklyBonusBounds(habits, rec);
  }

  /** A day the weekly average keeps contributes the analytics bar of that
      day, capped at 100. */
  lemma AverageDayIsCappedBar(habits: seq<Habit>, rec: DayRecord)
    requires ScoreCalculations.Kept(habits, rec)
    ensures ScoreCalculations.DayScore(habits, rec)
            == Some(ScoreCalculations.Min(100, Analytics.BarScore(habits, rec)))
  {
  }

  /** With non-negative weights the cap changes nothing, so a kept day
      contributes exactly its analytics bar. */
  lemma AverageDayIsBar(habits: seq<Habit>, rec: DayRecord)
    requires NonNegWeights(habits) && ScoreCalculations.Kept(habits, rec)
    ensures ScoreCalculations.DayScore(habits, rec) == Some(Analytics.BarScore(habits, rec))
  {
    Analytics.BarScoreBounds(habits, rec);
  }

  /** Under the same conditions as `DashboardMatchesBar` the worked-case score
      agrees with the dashboard, since neither exceeds 100 there. */
  lemma CappedMatchesDashboard(habits: seq<Habit>, logs: Log, day: int)
    requires NonNegWeights(habits)
    requires NoWeeklyDone(habits, DayOf(logs, day))
    ensures TestScoreLogic.CalculateScore(habits, logs, day) == Dashboard.DailyScore(habits, logs, day)
  {
    Dashboard.NoBonusScoreBounds(habits, logs, day);
    TestScoreLogic.CapOfDashboard(habits, logs, day);
  }

  /** A limit habit that is not logged is where the dashboard and the bar part
      ways: one Daily `max_x` habit alone, left alone for the day, scores 0 on
      the dashboard and 100 on the bar. */
  lemma LimitPolarityDiffers(h: Habit, logs: Log, day: int)
    requires h.frequency == Daily && IsMaxType(h) && h.weight > 0
    requires !Done(h, DayOf(logs, day))
    ensures Dashboard.DailyScore([h], logs, day) == 0
    ensures Analytics.BarScore([h], DayOf(logs, day)) == 100
  {
    var rec := DayOf(logs, day);
    assert [h][1..] == [];
    assert DailyTotal([h]) == h.weight;
    assert DailyDone([h], rec) == 0 && WeeklyBonus([h], rec) == 0;
    assert DailyPolar([h], rec) == h.weight;
    RoundPercentBounds(0, h.weight);
    RoundPercentBounds(h.weight, h.weight);
  }
}
