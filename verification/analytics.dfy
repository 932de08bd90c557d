/** The analytics view over the last seven days: per-day bars, the category
    radar, the headline statistics, the 28-day contribution grid and the
    score-versus-mood chart (`components/Analytics.tsx`). */
module Analytics {
  import opened Types
  import opened Rounding
  import opened Scoring

  // ---- Per-day bars ----

  /** The bar of one day: Daily habits only, `max_x` habits succeed when not
      logged, no cap. */
  function BarScore(habits: seq<Habit>, rec: DayRecord): int {
    if DailyTotal(habits) == 0 then 0 else RoundPercent(DailyPolar(habits, rec), DailyTotal(habits))
  }

  /** A bar is a percentage; it is 100 when every Daily habit succeeds and 0
      when there is none. */
  lemma BarScoreBounds(habits: seq<Habit>, rec: DayRecord)
    requires NonNegWeights(habits)
    ensures 0 <= BarScore(habits, rec) <= 100
    ensures CountDaily(habits) == 0 ==> BarScore(habits, rec) == 0
    ensures CountDaily(habits) > 0 && AllDailySucceed(habits, rec) ==> BarScore(habits, rec) == 100
    ensures CountDaily(habits) > 0 && DailyPolar(habits, rec) == 0 ==> BarScore(habits, rec) == 0
  {
    DailyTotalSign(habits);
    DailyPolarBounds(habits, rec);
    if DailyTotal(habits) != 0 {
      RoundPercentBounds(DailyPolar(habits, rec), DailyTotal(habits));
    }
  }

  /** The first day of the seven-day window ending `today`. */
  function WindowStart(today: int): int {
    today - 6
  }

  /** `dailyData`: the bars of the seven days ending `today`, oldest first. */
  function DailyData(habits: seq<Habit>, logs: Log, today: int): (r: seq<int>)
    ensures |r| == 7
    ensures forall i :: 0 <= i < 7 ==> r[i] == BarScore(habits, DayOf(logs, WindowStart(today) + i))
  {
    seq(7, i requires 0 <= i < 7 => BarScore(habits, DayOf(logs, WindowStart(today) + i)))
  }

  predicate Percentages(s: seq<int>) {
    forall i :: 0 <= i < |s| ==> 0 <= s[i] <= 100
  }

  lemma DailyDataPercentages(habits: seq<Habit>, logs: Log, today: int)
    requires NonNegWeights(habits)
    ensures Percentages(DailyData(habits, logs, today))
  {
    forall i | 0 <= i < 7
      ensures 0 <= DailyData(habits, logs, today)[i] <= 100
    {
      BarScoreBounds(habits, DayOf(logs, WindowStart(today) + i));
    }
  }

  // ---- Headline statistics ----

  function Sum(s: seq<int>): int {
    if s == [] then 0 else s[0] + Sum(s[1..])
  }

  /** Number of entries of at least `k`. */
  function CountAtLeast(s: seq<int>, k: int): (c: nat)
    ensures c <= |s|
  {
    if s == [] then 0 else (if s[0] >= k then 1 else 0) + CountAtLeast(s[1..], k)
  }

  /** `overallConsistency`: the rounded mean of the seven bars. */
  function OverallConsistency(habits: seq<Habit>, logs: Log, today: int): int {
    RoundDiv(Sum(DailyData(habits, logs, today)), 7)
  }

  /** `perfectDays`: the days of the window scoring at least 90. */
  function PerfectDays(habits: seq<Habit>, logs: Log, today: int): (n: nat)
    ensures n <= 7
  {
    CountAtLeast(DailyData(habits, logs, today), 90)
  }

  /** A sequence of percentages sums to between 0 and 100 per entry, and to at
      least `k` per entry that reaches `k`. */
  lemma {:induction false} SumBounds(s: seq<int>, k: int)
    requires Percentages(s) && k >= 0
    ensures 0 <= Sum(s) <= 100 * |s|
    ensures Sum(s) >= k * CountAtLeast(s, k)
  {
    if s != [] {
      assert Percentages(s[1..]) by {
        forall i | 0 <= i < |s[1..]|
          ensures 0 <= s[1..][i] <= 100
        {
          assert s[1..][i] == s[i + 1];
        }
      }
      SumBounds(s[1..], k);
      assert 0 <= s[0] <= 100;
      var c := CountAtLeast(s[1..], k);
      if s[0] >= k {
        assert k * (1 + c) == k + k * c;
      }
    }
  }

  /** The consistency figure is a percentage, and seven perfect days make it
      at least 90. */
  lemma ConsistencyBounds(habits: seq<Habit>, logs: Log, today: int)
    requires NonNegWeights(habits)
    ensures 0 <= OverallConsistency(habits, logs, today) <= 100
    ensures PerfectDays(habits, logs, today) == 7 ==> OverallConsistency(habits, logs, today) >= 90
  {
    var data := DailyData(habits, logs, today);
    DailyDataPercentages(habits, logs, today);
    SumBounds(data, 90);
    RoundDivBounds(Sum(data), 7);
    DivBracket(2 * Sum(data) + 7, 14, 90);
  }

  // ---- Category radar ----

  /** The habits of one category, in list order. */
  function CatHabits(habits: seq<Habit>, cat: Category): (r: seq<Habit>)
    ensures |r| <= |habits|
    ensures forall h {:trigger h in r} :: h in r <==> h in habits && h.category == cat
  {
    if habits == [] then []
    else (if habits[0].category == cat then [habits[0]] else []) + CatHabits(habits[1..], cat)
  }

  /** An axis's habits are a filter: they keep their list order. */
  lemma {:induction false} CatHabitsConcat(a: seq<Habit>, b: seq<Habit>, cat: Category)
    ensures CatHabits(a + b, cat) == CatHabits(a, cat) + CatHabits(b, cat)
  {
    if a == [] {
      assert a + b == b;
    } else {
      var x := if a[0].category == cat then [a[0]] else [];
      assert CatHabits(a + b, cat) == x + CatHabits(a[1..] + b, cat) by {
        assert (a + b)[0] == a[0];
        assert (a + b)[1..] == a[1..] + b;
      }
      assert CatHabits(a[1..] + b, cat) == CatHabits(a[1..], cat) + CatHabits(b, cat) by {
        CatHabitsConcat(a[1..], b, cat);
      }
      assert CatHabits(a, cat) == x + CatHabits(a[1..], cat);
      assert (x + CatHabits(a[1..], cat)) + CatHabits(b, cat) == x + (CatHabits(a[1..], cat) + CatHabits(b, cat));
    }
  }

  /** A single habit belongs to the axis of its own category only. */
  lemma CatHabitsOne(h: Habit, cat: Category)
    ensures CatHabits([h], cat) == (if h.category == cat then [h] else [])
  {
    assert [h][1..] == [];
  }

  lemma {:induction false} CatHabitsNonNeg(habits: seq<Habit>, cat: Category)
    requires NonNegWeights(habits)
    ensures NonNegWeights(CatHabits(habits, cat))
  {
    var r := CatHabits(habits, cat);
    forall i | 0 <= i < |r|
      ensures r[i].weight >= 0
    {
      assert r[i] in r;
      var j :| 0 <= j < |habits| && habits[j] == r[i];
    }
  }

  /** Daily weight earned over `n` days from `start`. */
  function DailyEarned(habits: seq<Habit>, logs: Log, start: int, n: nat): int {
    if n == 0 then 0
    else DailyEarned(habits, logs, start, n - 1) + DailyDone(habits, DayOf(logs, start + n - 1))
  }

  /** Summed weight of the Weekly habits: each counts once per window. */
  function WeeklyPotential(habits: seq<Habit>): int {
    if habits == [] then 0
    else (if habits[0].frequency == Weekly then EffWeight(habits[0]) else 0) + WeeklyPotential(habits[1..])
  }

  /** The points a Weekly habit earns for `count` logged days in the window: a
      limit earns its weight when kept, any other habit its weight when the
      target is met and a proportional share otherwise. */
  function WeeklyPoints(h: Habit, count: nat): real {
    var w := EffWeight(h) as real;
    if IsMaxType(h) then (if count <= h.targetCount then w else 0.0)
    else if count >= h.targetCount then w
    else count as real / h.targetCount as real * w
  }

  function WeeklyEarned(habits: seq<Habit>, logs: Log, start: int): real {
    if habits == [] then 0.0
    else (if habits[0].frequency == Weekly
          then WeeklyPoints(habits[0], CountDone(logs, habits[0].id, start, 7)) else 0.0)
         + WeeklyEarned(habits[1..], logs, start)
  }

  /** One axis of the radar: earned over potential points of the category's
      habits in the window, 0 for an empty category. */
  function RadarScore(habits: seq<Habit>, logs: Log, today: int, cat: Category): int {
    var hs := CatHabits(habits, cat);
    if hs == [] then 0
    else
      var potential := 7 * DailyTotal(hs) + WeeklyPotential(hs);
      var earned := DailyEarned(hs, logs, WindowStart(today), 7) as real
                    + WeeklyEarned(hs, logs, WindowStart(today));
      if potential == 0 then 0 else RoundReal(earned / potential as real * 100.0)
  }

  /** `radarData`: one axis per category, in declaration order. */
  function RadarData(habits: seq<Habit>, logs: Log, today: int): (r: seq<int>)
    ensures |r| == |AllCategories|
    ensures forall i :: 0 <= i < |r| ==> r[i] == RadarScore(habits, logs, today, AllCategories[i])
  {
    seq(|AllCategories|, i requires 0 <= i < |AllCategories| => RadarScore(habits, logs, today, AllCategories[i]))
  }

  /** A Weekly habit earns between nothing and its weight; a habit that is not
      a limit earns its full weight exactly when it meets its target. */
  lemma WeeklyPointsBounds(h: Habit, count: nat)
    requires h.weight >= 0
    ensures 0.0 <= WeeklyPoints(h, count) <= EffWeight(h) as real
    ensures !IsMaxType(h) ==> (WeeklyPoints(h, count) == EffWeight(h) as real <==> count >= h.targetCount)
    ensures IsMaxType(h) ==> (WeeklyPoints(h, count) == EffWeight(h) as real <==> count <= h.targetCount)
  {
    var w := EffWeight(h) as real;
    if !IsMaxType(h) && count < h.targetCount {
      var f := count as real / h.targetCount as real;
      assert 0.0 <= f < 1.0;
      assert f * w < w;
      assert 0.0 <= f * w;
    }
  }

  lemma {:induction false} DailyEarnedBounds(habits: seq<Habit>, logs: Log, start: int, n: nat)
    requires NonNegWeights(habits)
    ensures 0 <= DailyEarned(habits, logs, start, n) <= n * DailyTotal(habits)
  {
    if n > 0 {
      DailyEarnedBounds(habits, logs, start, n - 1);
      DailyDoneBounds(habits, DayOf(logs, start + n - 1));
      assert (n - 1) * DailyTotal(habits) + DailyTotal(habits) == n * DailyTotal(habits);
    }
  }

  lemma {:induction false} WeeklyEarnedBounds(habits: seq<Habit>, logs: Log, start: int)
    requires NonNegWeights(habits)
    ensures 0.0 <= WeeklyEarned(habits, logs, start) <= WeeklyPotential(habits) as real
  {
    if habits != [] {
      TailNonNeg(habits);
      WeeklyEarnedBounds(habits[1..], logs, start);
      WeeklyPointsBounds(habits[0], CountDone(logs, habits[0].id, start, 7));
    }
  }

  /** A ratio of a non-negative real to a larger one lies in [0, 1], and is 1
      only for equal terms. */
  lemma RatioBounds(a: real, b: real)
    requires 0.0 <= a <= b && b > 0.0
    ensures 0.0 <= a / b <= 1.0
    ensures a / b == 1.0 <==> a == b
  {
    var x := a / b;
    assert a == x * b;
    assert b - a == (1.0 - x) * b;
  }

  /** Each radar axis is a percentage. */
  lemma RadarBounds(habits: seq<Habit>, logs: Log, today: int, cat: Category)
    requires NonNegWeights(habits)
    ensures 0 <= RadarScore(habits, logs, today, cat) <= 100
    ensures CatHabits(habits, cat) == [] ==> RadarScore(habits, logs, today, cat) == 0
  {
    var hs := CatHabits(habits, cat);
    if hs != [] {
      CatHabitsNonNeg(habits, cat);
      DailyTotalSign(hs);
      DailyEarnedBounds(hs, logs, WindowStart(today), 7);
      WeeklyEarnedBounds(hs, logs, WindowStart(today));
      var potential := 7 * DailyTotal(hs) + WeeklyPotential(hs);
      var earned := DailyEarned(hs, logs, WindowStart(today), 7) as real
                    + WeeklyEarned(hs, logs, WindowStart(today));
      if potential != 0 {
        RatioBounds(earned, potential as real);
        RoundRealBounds(earned / potential as real * 100.0);
      }
    }
  }

  // ---- Contribution grid ----

  /** The shade of a grid cell, lightest first. */
  datatype Shade = Gray100 | Indigo200 | Indigo400 | Indigo600

  function ShadeRank(s: Shade): nat {
    match s
    case Gray100 => 0
    case Indigo200 => 1
    case Indigo400 => 2
    case Indigo600 => 3
  }

  /** The cell colour: each threshold passed overrides the previous colour. */
  function ShadeOf(p: real): Shade {
    var c0 := Gray100;
    var c1 := if p > 0.1 then Indigo200 else c0;
    var c2 := if p > 0.5 then Indigo400 else c1;
    if p > 0.85 then Indigo600 else c2
  }

  /** Fraction of the Daily weight logged on the day, 0 without Daily weight;
      unlike the bars, limits are not inverted. */
  function GridFraction(habits: seq<Habit>, rec: DayRecord): real {
    if DailyTotal(habits) > 0 then DailyDone(habits, rec) as real / DailyTotal(habits) as real else 0.0
  }

  datatype Cell = Cell(day: int, shade: Shade)

  /** `getContributionGrid`: the 28 days ending `today`, oldest first. */
  function ContributionGrid(habits: seq<Habit>, logs: Log, today: int): (r: seq<Cell>)
    ensures |r| == 28
    ensures forall i :: 0 <= i < 28 ==> r[i].day == today - 27 + i
    ensures r[27].day == today
    ensures forall i, j :: 0 <= i < j < 28 ==> r[i].day < r[j].day
    ensures forall i :: 0 <= i < 28 ==> r[i].shade == ShadeOf(GridFraction(habits, DayOf(logs, today - 27 + i)))
  {
    seq(28, i requires 0 <= i < 28 =>
      Cell(today - 27 + i, ShadeOf(GridFraction(habits, DayOf(logs, today - 27 + i)))))
  }

  /** The shade bands: darker for a larger fraction, each band exactly the
      interval its thresholds delimit. */
  lemma ShadeBands(p: real, q: real)
    ensures ShadeOf(p) == Indigo600 <==> p > 0.85
    ensures ShadeOf(p) == Indigo400 <==> 0.5 < p <= 0.85
    ensures ShadeOf(p) == Indigo200 <==> 0.1 < p <= 0.5
    ensures ShadeOf(p) == Gray100 <==> p <= 0.1
    ensures p <= q ==> ShadeRank(ShadeOf(p)) <= ShadeRank(ShadeOf(q))
  {
  }

  /** The fraction lies in [0, 1] and is 1 exactly when every Daily habit is
      logged, which shades the cell darkest. */
  lemma GridFractionBounds(habits: seq<Habit>, rec: DayRecord)
    requires NonNegWeights(habits)
    ensures 0.0 <= GridFraction(habits, rec) <= 1.0
    ensures GridFraction(habits, rec) == 1.0 <==> CountDaily(habits) > 0 && AllDailyDone(habits, rec)
    ensures CountDaily(habits) > 0 && AllDailyDone(habits, rec) ==> ShadeOf(GridFraction(habits, rec)) == Indigo600
    ensures DailyTotal(habits) == 0 ==> GridFraction(habits, rec) == 0.0
  {
    DailyTotalSign(habits);
    DailyDoneBounds(habits, rec);
    if DailyTotal(habits) > 0 {
      RatioBounds(DailyDone(habits, rec) as real, DailyTotal(habits) as real);
    }
  }

  // ---- Mood ----

  /** The chart's mood point: the logged mood times 20 (`true` counts as 1),
      nothing when the mood is missing or falsy. */
  function MoodPoint(rec: DayRecord): Option<int> {
    if MoodKey !in rec then None
    else match rec[MoodKey]
      case Bool(b) => if b then Some(20) else None
      case Num(n) => if n != 0 then Some(n * 20) else None
  }

  /** The tooltip's "Humor: k/5" figure. */
  function MoodLabel(v: int): int {
    RoundDiv(v, 20)
  }

  datatype MoodFace = Unknown | Crying | Confused | Neutral | Smiling | Happy

  /** The face of a mood on the 1..5 scale; out-of-range values clamp. */
  function FaceOf(mood: int): MoodFace {
    if mood <= 1 then Crying
    else if mood == 2 then Confused
    else if mood == 3 then Neutral
    else if mood == 4 then Smiling
    else Happy
  }

  /** `getMoodEmoji` as written: it reads the point as a 0..100 scale of moods
      1..5 (`Math.round(v / 100 * 4) + 1`), but the point is `mood * 20`. */
  function MoodFaceAsWritten(v: Option<int>): MoodFace {
    match v
    case None => Unknown
    case Some(x) => FaceOf(RoundDiv(4 * x, 100) + 1)
  }

  /** The as-written face is off for the two lowest moods: mood 1 shows the
      mood-2 face and mood 2 the mood-3 face. */
  lemma MoodFaceAsWrittenMisreads()
    ensures MoodPoint(map[MoodKey := Num(1)]) == Some(20)
    ensures MoodFaceAsWritten(Some(20)) == Confused && FaceOf(1) == Crying
    ensures MoodFaceAsWritten(Some(40)) == Neutral && FaceOf(2) == Confused
  {
  }

  /** The face of a mood point, reading it back on the scale it was written
      in, as the tooltip's label does. */
  function MoodFaceOf(v: Option<int>): MoodFace {
    match v
    case None => Unknown
    case Some(x) => FaceOf(MoodLabel(x))
  }

  /** Reading a point back recovers the logged mood, so the face and the label
      agree with it for every mood on the 1..5 scale, and distinct moods show
      distinct faces. */
  lemma {:induction false} MoodRoundTrip(m: int)
    requires m != 0
    ensures MoodPoint(map[MoodKey := Num(m)]) == Some(20 * m)
    ensures MoodLabel(20 * m) == m
    ensures MoodFaceOf(MoodPoint(map[MoodKey := Num(m)])) == FaceOf(m)
  {
    assert MoodPoint(map[MoodKey := Num(m)]) == Some(m * 20);
    assert 2 * (20 * m) + 20 == 40 * m + 20;
    DivBracket(40 * m + 20, 40, m);
  }

  lemma FacesDistinct(a: int, b: int)
    requires 1 <= a <= 5 && 1 <= b <= 5 && a != b
    ensures FaceOf(a) != FaceOf(b)
  {
  }

  /** `scoreMoodData`: each day of the window with its bar and its mood point. */
  function ScoreMoodData(habits: seq<Habit>, logs: Log, today: int): (r: seq<(int, Option<int>)>)
    ensures |r| == 7
    ensures forall i :: 0 <= i < 7 ==> r[i].0 == DailyData(habits, logs, today)[i]
    ensures forall i :: 0 <= i < 7 ==> r[i].1 == MoodPoint(DayOf(logs, WindowStart(today) + i))
  {
    seq(7, i requires 0 <= i < 7 =>
      (BarScore(habits, DayOf(logs, WindowStart(today) + i)), MoodPoint(DayOf(logs, WindowStart(today) + i))))
  }

  /** Each mood point of the chart reads back, through the tooltip's label, as
      the mood logged that day. */
  lemma ScoreMoodReadsBack(habits: seq<Habit>, logs: Log, today: int, i: int, m: int)
    requires 0 <= i < 7 && m != 0
    requires MoodKey in DayOf(logs, WindowStart(today) + i) && DayOf(logs, WindowStart(today) + i)[MoodKey] == Num(m)
    ensures ScoreMoodData(habits, logs, today)[i].1 == Some(20 * m)
    ensures MoodLabel(ScoreMoodData(habits, logs, today)[i].1.value) == m
  {
    MoodRoundTrip(m);
  }

  /** A grid cell is darkest on a day with every Daily habit logged and
      lightest on a day with none logged. */
  lemma GridCellExtremes(habits: seq<Habit>, logs: Log, today: int, i: int)
    requires NonNegWeights(habits) && 0 <= i < 28
    ensures CountDaily(habits) > 0 && AllDailyDone(habits, DayOf(logs, today - 27 + i))
            ==> ContributionGrid(habits, logs, today)[i].shade == Indigo600
    ensures DailyDone(habits, DayOf(logs, today - 27 + i)) == 0
            ==> ContributionGrid(habits, logs, today)[i].shade == Gray100
  {
    GridFractionBounds(habits, DayOf(logs, today - 27 + i));
  }
}
