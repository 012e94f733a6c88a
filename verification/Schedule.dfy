/**
  The open-loop send schedule: how many messages are due by a time, and when each one is due, under
  a linear ramp. Times are exact reals; a square root is the non-negative number with that square.
 */
module Schedule {
  /** `rate` messages a second, reached after `ramp` seconds. The constructor clamps the ramp at 0. */
  datatype Schedule = Schedule(rate: real, ramp: real)

  ghost predicate Valid(s: Schedule) { s.rate > 0.0 && s.ramp >= 0.0 }

  function Knee(s: Schedule): real { s.rate * s.ramp / 2.0 }

  /** The number of messages asked for by `t`, before rounding. */
  function Curve(s: Schedule, t: real): real {
    if s.ramp > 0.0 && t < s.ramp then s.rate * t * t / (2.0 * s.ramp)
    else Knee(s) + s.rate * (t - s.ramp)
  }

  /** `_n`, with the nudge past rounding (one billionth in the code) as a parameter. */
  function N(s: Schedule, eps: real, elapsed: real): int {
    if elapsed <= 0.0 then 0 else (Curve(s, elapsed) + eps).Floor
  }

  function Due(s: Schedule, eps: real, elapsed: real): int {
    if elapsed < 0.0 then 0 else N(s, eps, elapsed) + 1
  }

  function TotalDue(s: Schedule, eps: real, duration: real): int { N(s, eps, duration) }

  /** `d` is `sched_time(x)`; the argument may be fractional. */
  ghost predicate IsDeadline(s: Schedule, x: real, d: real)
    requires Valid(s)
  {
    if s.ramp > 0.0 && x < Knee(s) then
      d >= 0.0 && d * d == 2.0 * x * s.ramp / s.rate
    else
      d == s.ramp + (x - Knee(s)) / s.rate
  }

  // ---- real arithmetic, one step at a time ----

  lemma MulLess(a: real, b: real, c: real)
    requires c > 0.0 && a < b
    ensures a * c < b * c && c * a < c * b
  {
  }

  lemma SquareIncreases(a: real, b: real)
    requires 0.0 <= a < b
    ensures a * a < b * b
  {
    var p := a * b;
    assert a * a <= p;
    assert p < b * b;
  }

  lemma SquareLess(a: real, b: real)
    requires 0.0 <= a && 0.0 <= b
    ensures a < b <==> a * a < b * b
  {
    if a < b { SquareIncreases(a, b); }
    if b < a { SquareIncreases(b, a); }
  }

  lemma LineIncreases(k: real, r: real, m: real, t: real, u: real)
    requires r > 0.0 && t < u
    ensures k + r * (t - m) < k + r * (u - m)
  {
    MulLess(t - m, u - m, r);
  }

  lemma DivThenMul(a: real, b: real)
    requires b != 0.0
    ensures (a / b) * b == a
  {
  }

  lemma DivMonotone(a: real, b: real, c: real)
    requires c > 0.0
    ensures a < b <==> a / c < b / c
  {
    DivThenMul(a, c);
    DivThenMul(b, c);
    if a / c < b / c { MulLess(a / c, b / c, c); }
    if b / c < a / c { MulLess(b / c, a / c, c); }
  }

  // ---- the curve ----

  /** At the knee the quadratic and the linear part give the same count and the same deadline. */
  lemma ContinuousAtTheKnee(s: Schedule)
    requires Valid(s) && s.ramp > 0.0
    ensures s.rate * s.ramp * s.ramp / (2.0 * s.ramp) == Knee(s) == Curve(s, s.ramp)
    ensures 2.0 * Knee(s) * s.ramp / s.rate == s.ramp * s.ramp
  {
    var r, m := s.rate, s.ramp;
    calc {
      r * m * m / (2.0 * m);
      { assert r * m * m == (r * m / 2.0) * (2.0 * m); }
      (r * m / 2.0) * (2.0 * m) / (2.0 * m);
      Knee(s);
    }
    calc {
      2.0 * Knee(s) * m / r;
      { assert 2.0 * Knee(s) * m == (m * m) * r; }
      (m * m) * r / r;
      m * m;
    }
  }

  lemma SquareOfDifference(r: real, m: real, h: real)
    requires m != 0.0
    ensures r * m / 2.0 - r * (m - h) * (m - h) / (2.0 * m) == r * h - r * h * h / (2.0 * m)
  {
    var d := 2.0 * m;
    var x, y := r * (m - h) * (m - h), r * h * h;
    DivThenMul(x, d);
    DivThenMul(y, d);
    assert x == r * m * m - 2.0 * r * m * h + y;
    assert (r * m / 2.0 - x / d) * d == r * m * m - x;
    assert (r * h - y / d) * d == 2.0 * r * m * h - y;
    SameQuotient(r * m / 2.0 - x / d, r * h - y / d, d);
  }

  lemma SameQuotient(a: real, b: real, d: real)
    requires d != 0.0 && a * d == b * d
    ensures a == b
  {
    assert (a - b) * d == 0.0;
  }

  /**
    The slope does not change there either: a step of `h` past the knee adds `rate * h`, and one of `h`
    up to it adds that up to a quadratic remainder.
   */
  lemma SmoothAtTheKnee(s: Schedule, h: real)
    requires Valid(s) && s.ramp > 0.0 && h > 0.0
    ensures Curve(s, s.ramp + h) - Curve(s, s.ramp) == s.rate * h
    ensures Curve(s, s.ramp) - Curve(s, s.ramp - h) == s.rate * h - s.rate * h * h / (2.0 * s.ramp)
  {
    SquareOfDifference(s.rate, s.ramp, h);
  }

  /** Inside the ramp the curve is the square of time, scaled. */
  lemma QuadraticPart(s: Schedule, t: real)
    requires Valid(s) && s.ramp > 0.0
    ensures s.rate * t * t / (2.0 * s.ramp) == (t * t) * (s.rate / (2.0 * s.ramp))
    ensures s.rate / (2.0 * s.ramp) > 0.0
  {
    var c := s.rate / (2.0 * s.ramp);
    DivThenMul(s.rate, 2.0 * s.ramp);
    assert s.rate * t * t == (t * t) * c * (2.0 * s.ramp) by {
      assert s.rate == c * (2.0 * s.ramp);
      assert s.rate * t * t == (t * t) * s.rate;
    }
    DivMonotone(0.0, s.rate, 2.0 * s.ramp);
  }

  lemma RampIncreases(s: Schedule, t: real, u: real)
    requires Valid(s) && s.ramp > 0.0 && 0.0 <= t < u <= s.ramp
    ensures Curve(s, t) < Curve(s, u)
  {
    QuadraticPart(s, t);
    QuadraticPart(s, u);
    SquareIncreases(t, u);
    MulLess(t * t, u * u, s.rate / (2.0 * s.ramp));
    ContinuousAtTheKnee(s);
  }

  lemma CurveIncreases(s: Schedule, t: real, u: real)
    requires Valid(s) && 0.0 <= t < u
    ensures Curve(s, t) < Curve(s, u)
  {
    if s.ramp > 0.0 && u <= s.ramp {
      RampIncreases(s, t, u);
    } else {
      if t < s.ramp { RampIncreases(s, t, s.ramp); }
      LineIncreases(Knee(s), s.rate, s.ramp, if t < s.ramp then s.ramp else t, u);
    }
  }

  lemma CurveStartsAtZero(s: Schedule)
    requires Valid(s)
    ensures Curve(s, 0.0) == 0.0
  {
  }

  /** A deadline given by the square root lies inside the ramp, and the quadratic undoes the root. */
  lemma RootInsideRamp(s: Schedule, x: real, d: real)
    requires Valid(s) && s.ramp > 0.0 && 0.0 <= x < Knee(s)
    requires d >= 0.0 && d * d == 2.0 * x * s.ramp / s.rate
    ensures d < s.ramp && (d * d) * (s.rate / (2.0 * s.ramp)) == x
  {
    var r, m := s.rate, s.ramp;
    ContinuousAtTheKnee(s);
    MulLess(2.0 * x, 2.0 * Knee(s), m);
    DivMonotone(2.0 * x * m, 2.0 * Knee(s) * m, r);
    SquareLess(d, m);
    Cancel(2.0 * m, r, x);
    assert 2.0 * x * m == (2.0 * m) * x;
  }

  lemma Cancel(a: real, b: real, x: real)
    requires a != 0.0 && b != 0.0
    ensures (a * x / b) * (b / a) == x
  {
    DivThenMul(a * x, b);
    DivThenMul(b, a);
    var q := a * x / b;
    assert (q * (b / a)) * a == q * b == x * a;
  }

  /** By the deadline of a message the curve has risen to exactly that message. */
  lemma CurveAtDeadline(s: Schedule, x: real, d: real)
    requires Valid(s) && x >= 0.0 && IsDeadline(s, x, d)
    ensures d >= 0.0 && Curve(s, d) == x
  {
    if s.ramp > 0.0 && x < Knee(s) {
      RootInsideRamp(s, x, d);
      QuadraticPart(s, d);
    } else {
      BehindTheRamp(s, x, d);
    }
  }

  lemma BehindTheRamp(s: Schedule, x: real, d: real)
    requires Valid(s) && x >= 0.0 && (s.ramp == 0.0 || x >= Knee(s)) && d == s.ramp + (x - Knee(s)) / s.rate
    ensures d >= s.ramp && Curve(s, d) == x
  {
    if s.ramp == 0.0 { assert s.rate * s.ramp == 0.0; }
    LineAtDeadline(Knee(s), s.rate, s.ramp, x);
  }

  lemma LineAtDeadline(k: real, r: real, m: real, x: real)
    requires r > 0.0 && k <= x
    ensures var d := m + (x - k) / r; d >= m && k + r * (d - m) == x
  {
    DivThenMul(x - k, r);
    if x - k > 0.0 { DivMonotone(0.0, x - k, r); }
  }

  lemma DeadlineReached(s: Schedule, x: real, d: real, t: real)
    requires Valid(s) && x >= 0.0 && t >= 0.0 && IsDeadline(s, x, d)
    ensures x <= Curve(s, t) <==> d <= t
  {
    CurveAtDeadline(s, x, d);
    if d < t { CurveIncreases(s, d, t); }
    if t < d { CurveIncreases(s, t, d); }
  }

  // ---- count and deadline are inverse to each other ----

  /**
    With a nudge of `eps`, message k is counted from the deadline of k - eps on, no earlier and no
    later; message 0 is due at once.
   */
  lemma DueIffNudgedDeadline(s: Schedule, eps: real, k: nat, d: real, t: real)
    requires Valid(s) && 0.0 <= eps < 1.0 && t >= 0.0
    requires k > 0 ==> IsDeadline(s, k as real - eps, d)
    ensures k < Due(s, eps, t) <==> k == 0 || d <= t
  {
    if t > 0.0 {
      var c := Curve(s, t);
      CurveStartsAtZero(s);
      CurveIncreases(s, 0.0, t);
      assert k <= (c + eps).Floor <==> k as real <= c + eps;
      if k > 0 { DeadlineReached(s, k as real - eps, d, t); }
    } else if k > 0 {
      CurveStartsAtZero(s);
      DeadlineReached(s, k as real - eps, d, t);
    }
  }

  /** In exact arithmetic: message k is counted by `due(t)` if and only if its deadline is at most t. */
  lemma DueIffDeadline(s: Schedule, k: nat, d: real, t: real)
    requires Valid(s) && t >= 0.0 && IsDeadline(s, k as real, d)
    ensures k < Due(s, 0.0, t) <==> d <= t
  {
    assert k as real - 0.0 == k as real;
    DueIffNudgedDeadline(s, 0.0, k, d, t);
    if k == 0 {
      CurveStartsAtZero(s);
      DeadlineReached(s, 0.0, d, 0.0);
    }
  }

  lemma DeadlinesIncrease(s: Schedule, x: real, y: real, dx: real, dy: real)
    requires Valid(s) && 0.0 <= x < y && IsDeadline(s, x, dx) && IsDeadline(s, y, dy)
    ensures 0.0 <= dx < dy
  {
    CurveAtDeadline(s, x, dx);
    CurveAtDeadline(s, y, dy);
    if dy < dx { CurveIncreases(s, dy, dx); }
  }

  lemma DueIsMonotone(s: Schedule, eps: real, t: real, u: real)
    requires Valid(s) && 0.0 <= eps < 1.0 && t <= u
    ensures 0 <= Due(s, eps, t) <= Due(s, eps, u)
  {
    CurveStartsAtZero(s);
    if t > 0.0 { CurveIncreases(s, 0.0, t); }
    if u > 0.0 { CurveIncreases(s, 0.0, u); }
    if 0.0 < t < u { CurveIncreases(s, t, u); }
  }

  /** A message the window asks for is due before the window ends. */
  lemma WindowCoversItsMessages(s: Schedule, k: nat, d: real, duration: real)
    requires Valid(s) && IsDeadline(s, k as real, d) && k < TotalDue(s, 0.0, duration)
    ensures d <= duration
  {
    DueIffDeadline(s, k, d, duration);
  }
}
