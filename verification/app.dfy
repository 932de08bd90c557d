/** The one log mutation of the application, `handleToggleHabit` (`App.tsx`),
    and the fact that a toggle undone leaves every score where it was. */
module App {
  import opened Types
  import Calendar
  import ScoreCalculations
  import Dashboard
  import Analytics

  /** Sets `id` on `date` to `v`, creating an empty record for a date without
      one; the value `false` removes the key instead. Any other value, `0`
      included, is stored as given. */
  function ToggleHabit(logs: Log, id: string, date: int, v: Value): (r: Log)
    ensures date in r
    ensures v == Bool(false) ==> id !in r[date]
    ensures v != Bool(false) ==> id in r[date] && r[date][id] == v
    ensures forall k :: k != id ==> (k in r[date] <==> k in DayOf(logs, date))
    ensures forall k :: k != id && k in r[date] ==> r[date][k] == DayOf(logs, date)[k]
    ensures forall d :: d != date ==> (d in r <==> d in logs)
    ensures forall d :: d != date && d in r ==> r[d] == logs[d]
  {
    var rec := DayOf(logs, date);
    if v == Bool(false) then logs[date := rec - {id}] else logs[date := rec[id := v]]
  }

  /** Two logs that read the same on every date; a missing date and an empty
      record read the same. */
  ghost predicate SameDays(a: Log, b: Log) {
    forall d :: DayOf(a, d) == DayOf(b, d)
  }

  /** After a toggle the habit is done on the date exactly when the stored
      value is truthy, and nothing else anybody reads has moved. */
  lemma ToggleEffect(logs: Log, id: string, date: int, v: Value)
    ensures DoneOn(ToggleHabit(logs, id, date, v), date, id) <==> Truthy(v)
    ensures forall other :: other != id ==>
              (DoneOn(ToggleHabit(logs, id, date, v), date, other) <==> DoneOn(logs, date, other))
    ensures forall d, k :: d != date ==>
              (DoneOn(ToggleHabit(logs, id, date, v), d, k) <==> DoneOn(logs, d, k))
  {
    var r := ToggleHabit(logs, id, date, v);
    forall d, k | d != date
      ensures DoneOn(r, d, k) <==> DoneOn(logs, d, k)
    {
      assert DayOf(r, d) == DayOf(logs, d);
    }
  }

  /** Unchecking twice is unchecking once. */
  lemma UncheckIdempotent(logs: Log, id: string, date: int)
    ensures ToggleHabit(ToggleHabit(logs, id, date, Bool(false)), id, date, Bool(false))
            == ToggleHabit(logs, id, date, Bool(false))
  {
    var r1 := ToggleHabit(logs, id, date, Bool(false));
    var r2 := ToggleHabit(r1, id, date, Bool(false));
    assert r2[date] == r1[date];
  }

  /** Checking a habit that was not logged and unchecking it again restores
      the log: exactly when the date already had a record, and otherwise up to
      the empty record the toggle created. */
  lemma ToggleRoundTrip(logs: Log, id: string, date: int, v: Value)
    requires id !in DayOf(logs, date)
    ensures SameDays(ToggleHabit(ToggleHabit(logs, id, date, v), id, date, Bool(false)), logs)
    ensures date in logs ==> ToggleHabit(ToggleHabit(logs, id, date, v), id, date, Bool(false)) == logs
    ensures date !in logs ==> ToggleHabit(ToggleHabit(logs, id, date, v), id, date, Bool(false))
                              == logs[date := map[]]
  {
    var r := ToggleHabit(ToggleHabit(logs, id, date, v), id, date, Bool(false));
    assert r[date] == DayOf(logs, date);
    forall d
      ensures DayOf(r, d) == DayOf(logs, d)
    {
      if d != date {
        assert d in r <==> d in logs;
      }
    }
    if date in logs {
      assert r == logs;
    } else {
      assert r == logs[date := map[]];
    }
  }

  // ---- Scores read the log only through dates ----

  lemma {:induction false} WeekTotalsSame(habits: seq<Habit>, a: Log, b: Log, start: int, n: nat)
    requires SameDays(a, b)
    ensures ScoreCalculations.WeekTotals(habits, a, start, n) == ScoreCalculations.WeekTotals(habits, b, start, n)
  {
    if n > 0 {
      WeekTotalsSame(habits, a, b, start, n - 1);
      assert DayOf(a, start + n - 1) == DayOf(b, start + n - 1);
    }
  }

  lemma {:induction false} RunFromSame(a: Log, b: Log, day: int, fuel: nat)
    requires SameDays(a, b)
    ensures ScoreCalculations.RunFrom(a, day, fuel) == ScoreCalculations.RunFrom(b, day, fuel)
    decreases fuel
  {
    assert DayOf(a, day) == DayOf(b, day);
    if fuel > 0 {
      RunFromSame(a, b, day - 1, fuel - 1);
    }
  }

  /** Logs that read the same on every date give the same dashboard score,
      weekly average, streak and analytics consistency. */
  lemma SameDaysSameScores(habits: seq<Habit>, a: Log, b: Log, day: int)
    requires SameDays(a, b)
    ensures Dashboard.DailyScore(habits, a, day) == Dashboard.DailyScore(habits, b, day)
    ensures ScoreCalculations.WeeklyAverage(habits, a, day) == ScoreCalculations.WeeklyAverage(habits, b, day)
    ensures ScoreCalculations.Streak(a, day) == ScoreCalculations.Streak(b, day)
    ensures Analytics.OverallConsistency(habits, a, day) == Analytics.OverallConsistency(habits, b, day)
  {
    assert DayOf(a, day) == DayOf(b, day);
    WeekTotalsSame(habits, a, b, Calendar.WeekStart(day), Calendar.Weekday(day) + 1);
    RunFromSame(a, b, day, 365);
    RunFromSame(a, b, day - 1, 364);
    var da, db := Analytics.DailyData(habits, a, day), Analytics.DailyData(habits, b, day);
    forall i | 0 <= i < 7
      ensures da[i] == db[i]
    {
      assert DayOf(a, Analytics.WindowStart(day) + i) == DayOf(b, Analytics.WindowStart(day) + i);
    }
    assert da == db;
  }

  /** A check undone leaves every score where it was. */
  lemma ToggleRoundTripScores(habits: seq<Habit>, logs: Log, id: string, date: int, v: Value, day: int)
    requires id !in DayOf(logs, date)
    ensures var r := ToggleHabit(ToggleHabit(logs, id, date, v), id, date, Bool(false));
            Dashboard.DailyScore(habits, r, day) == Dashboard.DailyScore(habits, logs, day)
            && ScoreCalculations.WeeklyAverage(habits, r, day) == ScoreCalculations.WeeklyAverage(habits, logs, day)
            && ScoreCalculations.Streak(r, day) == ScoreCalculations.Streak(logs, day)
  {
    ToggleRoundTrip(logs, id, date, v);
    SameDaysSameScores(habits, ToggleHabit(ToggleHabit(logs, id, date, v), id, date, Bool(false)), logs, day);
  }
}
