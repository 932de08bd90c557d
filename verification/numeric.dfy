/** Calendar arithmetic on day numbers (days since 1970-01-01, a Thursday). */
module Calendar {

  /** Day of the week, 0 = Sunday .. 6 = Saturday (`Date.getDay`). */
  function Weekday(day: int): (w: int)
    ensures 0 <= w < 7
  {
    (day + 4) % 7
  }

  /** The Sunday that starts the week containing `day`. */
  function WeekStart(day: int): (s: int)
    ensures s <= day < s + 7
    ensures Weekday(s) == 0
  {
    day - Weekday(day)
  }

  lemma WeekStartSameWeek(a: int, b: int)
    requires WeekStart(a) <= b < WeekStart(a) + 7
    ensures WeekStart(b) == WeekStart(a)
  {
    var s := WeekStart(a);
    assert (s + 4) % 7 == 0;
    assert Weekday(b) == b - s;
  }
}

/** JavaScript `Math.round` on exact ratios: the nearest integer, halves up. */
module Rounding {

  /** `Math.round(a / b)` for a positive divisor. */
  function RoundDiv(a: int, b: int): int
    requires b > 0
  {
    (2 * a + b) / (2 * b)
  }

  /** `Math.round(a / b * 100)` for a non-zero divisor, with exact arithmetic. */
  function RoundPercent(a: int, b: int): int
    requires b != 0
  {
    if b > 0 then RoundDiv(100 * a, b) else RoundDiv(100 * (-a), -b)
  }

  /** `Math.round(x)` on a real. */
  function RoundReal(x: real): (r: int)
    ensures r as real <= x + 0.5 < r as real + 1.0
  {
    (x + 0.5).Floor
  }

  /** Multiplying by a non-negative factor keeps the order. */
  lemma MulLe(d: int, x: int, y: int)
    requires d >= 0 && x <= y
    ensures d * x <= d * y
  {
    assert d * y - d * x == d * (y - x);
  }

  /** Floor division is bracketed by its multiples. */
  lemma {:induction false} DivBracket(n: int, d: int, k: int)
    requires d > 0
    ensures d * k <= n ==> k <= n / d
    ensures n < d * (k + 1) ==> n / d <= k
  {
    var q := n / d;
    assert n == d * q + n % d;
    if d * k <= n && q < k {
      MulLe(d, q + 1, k);
    }
    if n < d * (k + 1) && q > k {
      MulLe(d, k + 1, q);
    }
  }

  /** `RoundDiv(a, b)` is the integer nearest to a / b, halves rounded up:
      r - 1/2 <= a / b < r + 1/2. */
  lemma RoundDivNearest(a: int, b: int)
    requires b > 0
    ensures 2 * b * RoundDiv(a, b) <= 2 * a + b < 2 * b * (RoundDiv(a, b) + 1)
  {
    var q := RoundDiv(a, b);
    assert 2 * a + b == (2 * b) * q + (2 * a + b) % (2 * b);
  }

  /** `RoundPercent` is `Math.round(a / b * 100)` also for a negative divisor. */
  lemma RoundPercentSign(a: int, b: int)
    requires b < 0
    ensures RoundPercent(a, b) == RoundPercent(-a, -b)
  {
  }

  lemma {:induction false} RoundDivMonotone(a1: int, a2: int, b: int)
    requires b > 0 && a1 <= a2
    ensures RoundDiv(a1, b) <= RoundDiv(a2, b)
  {
    var q := (2 * a1 + b) / (2 * b);
    assert (2 * b) * q <= 2 * a1 + b by {
      assert 2 * a1 + b == (2 * b) * q + (2 * a1 + b) % (2 * b);
    }
    DivBracket(2 * a2 + b, 2 * b, q);
  }

  /** A ratio in [0, 1] rounds to a percentage in [0, 100]; it reaches 100
      exactly when the ratio is at least 0.995. */
  lemma {:induction false} RoundPercentBounds(a: int, b: int)
    requires 0 <= a <= b && b > 0
    ensures 0 <= RoundPercent(a, b) <= 100
    ensures RoundPercent(a, b) == 100 <==> 200 * a >= 199 * b
    ensures a == b ==> RoundPercent(a, b) == 100
    ensures a == 0 ==> RoundPercent(a, b) == 0
  {
    var n := 200 * a + b;
    assert RoundPercent(a, b) == n / (2 * b);
    DivBracket(n, 2 * b, 0);
    DivBracket(n, 2 * b, 100);
    DivBracket(n, 2 * b, 99);
    assert (2 * b) * 100 == 200 * b;
    assert (2 * b) * 101 == 202 * b;
    if a == 0 {
      assert n < (2 * b) * 1;
    }
  }

  /** A real in [0, 100] rounds into [0, 100]. */
  lemma RoundRealBounds(x: real)
    requires 0.0 <= x <= 100.0
    ensures 0 <= RoundReal(x) <= 100
  {
  }

  /** Rounding an average of values in [0, 100] stays in [0, 100]. */
  lemma {:induction false} RoundDivBounds(s: int, n: int)
    requires n > 0 && 0 <= s <= 100 * n
    ensures 0 <= RoundDiv(s, n) <= 100
  {
    DivBracket(2 * s + n, 2 * n, 0);
    DivBracket(2 * s + n, 2 * n, 100);
    assert (2 * n) * 101 == 202 * n;
  }
}
