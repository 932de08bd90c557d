/** Weight sums shared by every score variant: the Daily denominator, the
    Daily numerator with and without limit polarity, and the Weekly bonus. */
module Scoring {
  import opened Types

  /** `!!dayLogs[h.id]`. */
  predicate Done(h: Habit, rec: DayRecord) {
    h.id in rec && Truthy(rec[h.id])
  }

  /** Success under limit polarity: a `max_x` habit succeeds when it is NOT
      logged, every other habit (abstinence habits included) when it is. */
  predicate PolarSuccess(h: Habit, rec: DayRecord) {
    if IsMaxType(h) then !Done(h, rec) else Done(h, rec)
  }

  function CountDaily(habits: seq<Habit>): (n: nat)
    ensures n <= |habits|
  {
    if habits == [] then 0
    else (if habits[0].frequency == Daily then 1 else 0) + CountDaily(habits[1..])
  }

  /** Sum of effective weights of the Daily habits: the score denominator. */
  function DailyTotal(habits: seq<Habit>): int {
    if habits == [] then 0
    else (if habits[0].frequency == Daily then EffWeight(habits[0]) else 0) + DailyTotal(habits[1..])
  }

  /** Weight of the Daily habits logged truthy: the unpolarised numerator. */
  function DailyDone(habits: seq<Habit>, rec: DayRecord): int {
    if habits == [] then 0
    else (if habits[0].frequency == Daily && Done(habits[0], rec) then EffWeight(habits[0]) else 0)
         + DailyDone(habits[1..], rec)
  }

  /** Weight of the Daily habits that succeed under limit polarity. */
  function DailyPolar(habits: seq<Habit>, rec: DayRecord): int {
    if habits == [] then 0
    else (if habits[0].frequency == Daily && PolarSuccess(habits[0], rec) then EffWeight(habits[0]) else 0)
         + DailyPolar(habits[1..], rec)
  }

  /** Weight of the Weekly habits logged truthy on the day: the bonus. */
  function WeeklyBonus(habits: seq<Habit>, rec: DayRecord): int {
    if habits == [] then 0
    else (if habits[0].frequency == Weekly && Done(habits[0], rec) then EffWeight(habits[0]) else 0)
         + WeeklyBonus(habits[1..], rec)
  }

  predicate AllDailyDone(habits: seq<Habit>, rec: DayRecord) {
    forall i :: 0 <= i < |habits| && habits[i].frequency == Daily ==> Done(habits[i], rec)
  }

  predicate AllDailySucceed(habits: seq<Habit>, rec: DayRecord) {
    forall i :: 0 <= i < |habits| && habits[i].frequency == Daily ==> PolarSuccess(habits[i], rec)
  }

  predicate NoDailyMax(habits: seq<Habit>) {
    forall i :: 0 <= i < |habits| && habits[i].frequency == Daily ==> !IsMaxType(habits[i])
  }

  predicate NoWeeklyDone(habits: seq<Habit>, rec: DayRecord) {
    forall i :: 0 <= i < |habits| && habits[i].frequency == Weekly ==> !Done(habits[i], rec)
  }

  /** Number of days of `start .. start + n - 1` on which `id` is logged truthy. */
  function CountDone(logs: Log, id: string, start: int, n: nat): (c: nat)
    ensures c <= n
  {
    if n == 0 then 0
    else CountDone(logs, id, start, n - 1) + (if DoneOn(logs, start + n - 1, id) then 1 else 0)
  }

  /** The days of `start .. start + n - 1` on which `id` is logged truthy. */
  function DoneDays(logs: Log, id: string, start: int, n: nat): set<int> {
    set d | start <= d < start + n && DoneOn(logs, d, id)
  }

  /** The count is the number of distinct days logged truthy. */
  lemma {:induction false} CountDoneIsDoneDays(logs: Log, id: string, start: int, n: nat)
    ensures CountDone(logs, id, start, n) == |DoneDays(logs, id, start, n)|
  {
    if n == 0 {
      assert DoneDays(logs, id, start, n) == {};
    } else {
      CountDoneIsDoneDays(logs, id, start, n - 1);
      var prev := DoneDays(logs, id, start, n - 1);
      var last := start + n - 1;
      if DoneOn(logs, last, id) {
        assert DoneDays(logs, id, start, n) == prev + {last};
      } else {
        assert DoneDays(logs, id, start, n) == prev;
      }
    }
  }

  /** With non-negative weights the denominator is zero exactly when there is
      no Daily habit, and otherwise at least one per Daily habit. */
  lemma {:induction false} DailyTotalSign(habits: seq<Habit>)
    requires NonNegWeights(habits)
    ensures DailyTotal(habits) >= CountDaily(habits)
    ensures DailyTotal(habits) == 0 <==> CountDaily(habits) == 0
  {
    if habits != [] {
      assert NonNegWeights(habits[1..]) by {
        forall i | 0 <= i < |habits[1..]|
          ensures habits[1..][i].weight >= 0
        {
          assert habits[1..][i] == habits[i + 1];
        }
      }
      DailyTotalSign(habits[1..]);
      assert habits[0].weight >= 0;
    }
  }

  /** Without any Daily habit the denominator is zero, whatever the weights. */
  lemma {:induction false} NoDailyNoTotal(habits: seq<Habit>)
    requires CountDaily(habits) == 0
    ensures DailyTotal(habits) == 0
  {
    if habits != [] {
      NoDailyNoTotal(habits[1..]);
    }
  }

  lemma TailNonNeg(habits: seq<Habit>)
    requires habits != [] && NonNegWeights(habits)
    ensures NonNegWeights(habits[1..]) && habits[0].weight >= 0
  {
    forall i | 0 <= i < |habits[1..]|
      ensures habits[1..][i].weight >= 0
    {
      assert habits[1..][i] == habits[i + 1];
    }
  }

  /** The unpolarised numerator never exceeds the denominator, and equals it
      exactly when every Daily habit is logged truthy. */
  lemma {:induction false} DailyDoneBounds(habits: seq<Habit>, rec: DayRecord)
    requires NonNegWeights(habits)
    ensures 0 <= DailyDone(habits, rec) <= DailyTotal(habits)
    ensures DailyDone(habits, rec) == DailyTotal(habits) <==> AllDailyDone(habits, rec)
  {
    if habits != [] {
      TailNonNeg(habits);
      DailyDoneBounds(habits[1..], rec);
      if AllDailyDone(habits, rec) {
        assert AllDailyDone(habits[1..], rec) by {
          forall i | 0 <= i < |habits[1..]| && habits[1..][i].frequency == Daily
            ensures Done(habits[1..][i], rec)
          {
            assert habits[1..][i] == habits[i + 1];
          }
        }
      } else if AllDailyDone(habits[1..], rec) {
        assert !Done(habits[0], rec) && habits[0].frequency == Daily by {
          forall i | 1 <= i < |habits| && habits[i].frequency == Daily
            ensures Done(habits[i], rec)
          {
            assert habits[i] == habits[1..][i - 1];
          }
        }
      }
    }
  }

  /** The polarised numerator never exceeds the denominator, and equals it
      exactly when every Daily habit succeeds. */
  lemma {:induction false} DailyPolarBounds(habits: seq<Habit>, rec: DayRecord)
    requires NonNegWeights(habits)
    ensures 0 <= DailyPolar(habits, rec) <= DailyTotal(habits)
    ensures DailyPolar(habits, rec) == DailyTotal(habits) <==> AllDailySucceed(habits, rec)
  {
    if habits != [] {
      TailNonNeg(habits);
      DailyPolarBounds(habits[1..], rec);
      if AllDailySucceed(habits, rec) {
        assert AllDailySucceed(habits[1..], rec) by {
          forall i | 0 <= i < |habits[1..]| && habits[1..][i].frequency == Daily
            ensures PolarSuccess(habits[1..][i], rec)
          {
            assert habits[1..][i] == habits[i + 1];
          }
        }
      } else if AllDailySucceed(habits[1..], rec) {
        assert !PolarSuccess(habits[0], rec) && habits[0].frequency == Daily by {
          forall i | 1 <= i < |habits| && habits[i].frequency == Daily
            ensures PolarSuccess(habits[i], rec)
          {
            assert habits[i] == habits[1..][i - 1];
          }
        }
      }
    }
  }

  /** The bonus is never negative, and is zero when no Weekly habit is logged. */
  lemma {:induction false} WeeklyBonusBounds(habits: seq<Habit>, rec: DayRecord)
    requires NonNegWeights(habits)
    ensures WeeklyBonus(habits, rec) >= 0
    ensures NoWeeklyDone(habits, rec) <==> WeeklyBonus(habits, rec) == 0
  {
    if habits != [] {
      TailNonNeg(habits);
      WeeklyBonusBounds(habits[1..], rec);
      if NoWeeklyDone(habits, rec) {
        assert NoWeeklyDone(habits[1..], rec) by {
          forall i | 0 <= i < |habits[1..]| && habits[1..][i].frequency == Weekly
            ensures !Done(habits[1..][i], rec)
          {
            assert habits[1..][i] == habits[i + 1];
          }
        }
      } else if NoWeeklyDone(habits[1..], rec) {
        assert Done(habits[0], rec) && habits[0].frequency == Weekly by {
          forall i | 1 <= i < |habits| && habits[i].frequency == Weekly
            ensures !Done(habits[i], rec)
          {
            assert habits[i] == habits[1..][i - 1];
          }
        }
      }
    }
  }

  /** Without a Daily `max_x` habit, limit polarity changes nothing. */
  lemma {:induction false} PolarIsDoneWithoutMax(habits: seq<Habit>, rec: DayRecord)
    requires NoDailyMax(habits)
    ensures DailyPolar(habits, rec) == DailyDone(habits, rec)
  {
    if habits != [] {
      assert NoDailyMax(habits[1..]) by {
        forall i | 0 <= i < |habits[1..]| && habits[1..][i].frequency == Daily
          ensures !IsMaxType(habits[1..][i])
        {
          assert habits[1..][i] == habits[i + 1];
        }
      }
      PolarIsDoneWithoutMax(habits[1..], rec);
    }
  }

  /** Appending a Weekly habit leaves the Daily sums alone and adds its
      weight to the bonus exactly when it is logged truthy. */
  lemma {:induction false} AppendWeekly(habits: seq<Habit>, w: Habit, rec: DayRecord)
    requires w.frequency == Weekly
    ensures DailyTotal(habits + [w]) == DailyTotal(habits)
    ensures DailyDone(habits + [w], rec) == DailyDone(habits, rec)
    ensures DailyPolar(habits + [w], rec) == DailyPolar(habits, rec)
    ensures WeeklyBonus(habits + [w], rec)
            == WeeklyBonus(habits, rec) + (if Done(w, rec) then EffWeight(w) else 0)
  {
    if habits == [] {
      assert [w][1..] == [];
    } else {
      assert (habits + [w])[1..] == habits[1..] + [w];
      AppendWeekly(habits[1..], w, rec);
    }
  }
}
