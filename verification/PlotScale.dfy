/**
  The chart axis of data/static/venture.js, `plotNiceStep` and `plotScale`, in
  exact arithmetic.
 */
module PlotScale {
  function Pow10(k: int): real
    decreases if k < 0 then -k else k
  {
    if k == 0 then 1.0 else if k > 0 then 10.0 * Pow10(k - 1) else Pow10(k + 1) / 10.0
  }

  lemma {:induction false} Pow10Next(k: int)
    ensures Pow10(k) > 0.0 && Pow10(k + 1) == 10.0 * Pow10(k)
    decreases if k < 0 then -k else k
  {
    if k > 0 { Pow10Next(k - 1); } else if k < 0 { Pow10Next(k + 1); }
  }

  lemma {:induction false} Pow10Grows(j: int, k: int)
    requires j <= k
    ensures Pow10(j) <= Pow10(k)
    decreases k - j
  {
    Pow10Next(j);
    if j < k { Pow10Grows(j + 1, k); }
  }

  lemma {:induction false} Pow10Whole(k: nat)
    ensures Whole(Pow10(k))
  {
    if k > 0 {
      Pow10Whole(k - 1);
      WholeTimes(10, Pow10(k - 1), Pow10(k));
    }
  }

  predicate Whole(x: real) {
    x == x.Floor as real
  }

  lemma WholeTimes(n: int, x: real, y: real)
    requires Whole(x) && y == n as real * x
    ensures Whole(y)
  {
    var f := x.Floor;
    assert n as real * x == (n * f) as real;
  }

  /** Math.floor(Math.log(raw) / Math.LN10) */
  function Log10(raw: real): (k: int)
    requires raw > 0.0
    ensures Pow10(k) <= raw < Pow10(k + 1)
    decreases raw < 1.0, if raw < 1.0 then (1.0 / raw).Floor else raw.Floor
  {
    assert Pow10(0) == 1.0 && Pow10(1) == 10.0;
    if raw >= 10.0 then
      TenthIsSmaller(raw);
      var k := Log10(raw / 10.0);
      Pow10Next(k); Pow10Next(k + 1);
      k + 1
    else if raw < 1.0 then
      TenthIsSmaller(1.0 / raw);
      assert 1.0 / (10.0 * raw) == (1.0 / raw) / 10.0;
      var k := Log10(10.0 * raw);
      Pow10Next(k - 1); Pow10Next(k);
      k - 1
    else 0
  }

  lemma TenthIsSmaller(x: real)
    requires x > 1.0
    ensures (x / 10.0).Floor < x.Floor
  {
  }

  /** The step before it is made whole.  The script divides by the magnitude, compares, and multiplies
      back; here `raw` is compared with the multiples of the magnitude themselves. */
  function RoundStep(raw: real): real
    requires raw > 0.0
  {
    var magnitude := Pow10(Log10(raw));
    if raw <= magnitude then magnitude
    else if raw <= 2.0 * magnitude then 2.0 * magnitude
    else if raw <= 2.5 * magnitude then 2.5 * magnitude
    else if raw <= 5.0 * magnitude then 5.0 * magnitude
    else 10.0 * magnitude
  }

  function NiceStep(span: real, integral: bool): real {
    var raw := if span / 4.0 <= 0.0 then 1.0 else span / 4.0;
    var step := RoundStep(raw);
    if integral && !Whole(step) then (if step.Floor < 1 then 1.0 else step.Floor as real) else step
  }

  lemma RoundStepBounds(raw: real)
    requires raw > 0.0
    ensures raw <= RoundStep(raw) < 2.0 * raw
  {
    Pow10Next(Log10(raw));
  }

  /** A round number: 1, 2, 2.5 or 5 times a power of ten. */
  predicate Round(x: real, k: int) {
    x == Pow10(k) || x == 2.0 * Pow10(k) || x == 2.5 * Pow10(k) || x == 5.0 * Pow10(k)
  }

  /** The step is a round number, and none lies between `raw` and it. */
  lemma RoundStepIsLeast(raw: real, x: real, j: int)
    requires raw > 0.0
    ensures Round(RoundStep(raw), Log10(raw)) || Round(RoundStep(raw), Log10(raw) + 1)
    ensures Round(x, j) && raw <= x ==> RoundStep(raw) <= x
  {
    var k := Log10(raw);
    Pow10Next(k);
    Pow10Next(j);
    if j > k { Pow10Grows(k + 1, j); } else if j < k { Pow10Grows(j + 1, k); }
  }

  /** A step of at least 1 that is not whole is 2.5. */
  lemma UnevenStep(raw: real)
    requires raw > 0.0 && !Whole(RoundStep(raw)) && RoundStep(raw) >= 1.0
    ensures RoundStep(raw) == 2.5
  {
    var k := Log10(raw);
    Pow10Next(k);
    if k >= 1 {
      Pow10Whole(k);
      Pow10Whole(k - 1);
      var p := Pow10(k);
      WholeTimes(2, p, 2.0 * p); WholeTimes(5, p, 5.0 * p); WholeTimes(10, p, 10.0 * p);
      TwoAndAHalf(k);
      WholeTimes(25, Pow10(k - 1), 2.5 * p);
    } else if k < 0 {
      Pow10Grows(k + 1, 0);
    }
  }

  lemma TwoAndAHalf(k: int)
    ensures 2.5 * Pow10(k) == 25.0 * Pow10(k - 1)
  {
    Pow10Next(k - 1);
  }

  /** The step never exceeds a quarter of the span by a factor of two; made whole for integral data,
      it still leaves at most five steps in the span. */
  lemma StepBounds(span: real, integral: bool)
    requires span > 0.0
    ensures var step := NiceStep(span, integral);
            && step > 0.0
            && (integral ==> Whole(step) && step >= 1.0 && span <= 5.0 * step)
            && (!integral ==> 2.0 * step < span <= 4.0 * step)
  {
    var raw := span / 4.0;
    RoundStepBounds(raw);
    var step := RoundStep(raw);
    if integral && !Whole(step) {
      if step >= 1.0 { UnevenStep(raw); }
    }
  }

  /** A step that is not whole, made whole. */
  lemma MadeWholeIsRound(step: real, whole: real)
    requires step > 0.0 && (step >= 1.0 ==> step == 2.5) && whole == if step.Floor < 1 then 1.0 else step.Floor as real
    ensures Round(whole, 0)
  {
    assert Pow10(0) == 1.0;
    if step == 2.5 { assert step.Floor == 2; }
  }

  /** Without a span the step is 1. */
  lemma NoSpan(span: real, integral: bool)
    requires span <= 0.0
    ensures NiceStep(span, integral) == 1.0
  {
    assert Log10(1.0) == 0 && Pow10(0) == 1.0;
  }

  lemma LargestWhole(round: real, w: int)
    requires round > 0.0
    ensures Whole(round) ==> round >= 1.0
    ensures round.Floor as real <= round && (w as real <= round ==> w <= round.Floor)
    ensures Whole(round.Floor as real)
  {
  }

  /** For integral data the step is the largest whole number up to the round one, and at least 1. */
  lemma IntegralStep(span: real, w: int)
    requires span > 0.0
    ensures var step, round := NiceStep(span, true), RoundStep(span / 4.0);
            && Whole(step) && step >= 1.0 && (step <= round || step == 1.0)
            && (w as real <= round ==> w as real <= step)
    ensures NiceStep(span, false) == RoundStep(span / 4.0)
  {
    var raw := span / 4.0;
    RoundStepBounds(raw);
    LargestWhole(RoundStep(raw), w);
  }

  /** The step used is round in both cases: a 2.5 made whole is 2, and a step below 1 is 1. */
  lemma NiceStepIsRound(span: real, integral: bool)
    requires span > 0.0
    ensures exists k :: Round(NiceStep(span, integral), k)
  {
    var raw := span / 4.0;
    var step := RoundStep(raw);
    if integral && !Whole(step) {
      RoundStepBounds(raw);
      if step >= 1.0 { UnevenStep(raw); }
      MadeWholeIsRound(step, NiceStep(span, integral));
    } else {
      RoundStepIsLeast(raw, raw, 0);
      var k := if Round(step, Log10(raw)) then Log10(raw) else Log10(raw) + 1;
      assert NiceStep(span, integral) == step && Round(step, k);
    }
  }

  function Ceil(x: real): int {
    -(-x).Floor
  }

  lemma Scaled(a: real, b: real, m: real)
    requires m > 0.0
    ensures a <= b ==> a * m <= b * m
    ensures a < b ==> a * m < b * m
  {
  }

  lemma AtMost(t: real, c: real, step: real, span: real)
    requires step > 0.0 && t * step == span && span <= c * step
    ensures t <= c
  {
    if t > c { Scaled(c, t, step); }
  }

  lemma MoreThan(t: real, c: real, step: real, span: real)
    requires step > 0.0 && t * step == span && span > c * step
    ensures t > c
  {
    if t <= c { Scaled(t, c, step); }
  }

  lemma Difference(low: real, high: real, step: real, a: real, b: real)
    requires a * step == low && b * step == high
    ensures (b - a) * step == high - low
  {
  }

  /** How many ticks the data spans, when it ends `a` and `b` steps from zero. */
  lemma TickCount(low: real, high: real, step: real, a: real, b: real, n: int)
    requires step > 0.0 && a * step == low && b * step == high && n == Ceil(b) - a.Floor
    ensures low < high ==> 1 <= n
    ensures high - low <= 5.0 * step ==> n <= 6
    ensures high - low <= 4.0 * step ==> n <= 5
    ensures 2.0 * step < high - low ==> 3 <= n
  {
    Difference(low, high, step, a, b);
    FloorsApart(a, b, a.Floor, Ceil(b));
    if low < high { MoreThan(b - a, 0.0, step, high - low); }
    if high - low <= 5.0 * step { AtMost(b - a, 5.0, step, high - low); }
    if high - low <= 4.0 * step { AtMost(b - a, 4.0, step, high - low); }
    if 2.0 * step < high - low { MoreThan(b - a, 2.0, step, high - low); }
  }

  lemma FloorsApart(a: real, b: real, first: int, last: int)
    requires first == a.Floor && last == Ceil(b)
    ensures b - a <= (last - first) as real < b - a + 2.0
    ensures first as real <= a && b <= last as real
  {
  }

  /** A tick at or below a value, and not below zero when the value is not. */
  lemma TickBelow(a: real, step: real, low: real, start: real)
    requires step > 0.0 && a * step == low && start == a.Floor as real * step
    ensures start <= low && (low >= 0.0 ==> start >= 0.0)
  {
    Scaled(a.Floor as real, a, step);
    if a < 0.0 { Scaled(a, 0.0, step); } else { Scaled(0.0, a.Floor as real, step); }
  }

  lemma WholeMultiple(first: int, last: int, n: int, step: real, start: real, end: real)
    requires step > 0.0 && start == first as real * step && end == last as real * step && n == last - first
    ensures start + n as real * step == end
    ensures (end - start) / step == n as real
    ensures n >= 1 ==> start < end
  {
    var r := n as real;
    assert end - start == r * step;
    assert (r * step) / step == r;
    if n >= 1 { Scaled(first as real, last as real, step); }
  }

  datatype Scale = Scale(step: real, low: real, high: real, n: int)

  /** Where an axis ends: outside the data, and on whole numbers for integral data. */
  predicate Edges(scale: Scale, low: real, high: real, integral: bool) {
    && scale.step > 0.0
    && scale.low <= low <= high <= scale.high
    && (low >= 0.0 ==> scale.low >= 0.0)
    && (integral ==> Whole(scale.step) && Whole(scale.low) && Whole(scale.high))
  }

  /** How many steps it is long. */
  predicate Length(scale: Scale, integral: bool) {
    && scale.low + scale.n as real * scale.step == scale.high
    && (if integral then 1 <= scale.n <= 6 else 3 <= scale.n <= 5)
  }

  predicate Covers(scale: Scale, low: real, high: real, integral: bool) {
    Edges(scale, low, high, integral) && Length(scale, integral)
  }

  /** A scale's ends are the whole multiples of its step around a span. */
  ghost predicate Around(scale: Scale, low: real, high: real, a: real, b: real) {
    && low < high && scale.step > 0.0
    && a * scale.step == low && b * scale.step == high
    && scale.low == a.Floor as real * scale.step && scale.high == Ceil(b) as real * scale.step
    && scale.n == Ceil(b) - a.Floor
  }

  /** The step fits the span. */
  ghost predicate StepFits(step: real, span: real, integral: bool) {
    if integral then Whole(step) && span <= 5.0 * step else 2.0 * step < span <= 4.0 * step
  }

  lemma TickAbove(b: real, step: real, high: real, end: real)
    requires step > 0.0 && b * step == high && end == Ceil(b) as real * step
    ensures high <= end
  {
    Scaled(b, Ceil(b) as real, step);
  }

  /** The ticks of a padded span: whole multiples of the step around it. */
  method TicksAround(low: real, high: real, step: real, integral: bool) returns (scale: Scale)
    requires low < high && step > 0.0 && StepFits(step, high - low, integral)
    ensures Covers(scale, low, high, integral) && scale.step == step
    ensures low - step < scale.low && scale.high < high + step
  {
    var a, b := low / step, high / step;
    Divided(low, step, a);
    Divided(high, step, b);
    var from, to := a.Floor as real * step, Ceil(b) as real * step;
    ghost var around := Scale(step, from, to, Ceil(b) - a.Floor);
    TicksMean(low, high, integral, a, b, around);
    if to <= from {
      to := from + step;
    }
    var steps := (to - from) / step;
    Rounded(steps, around.n);
    scale := Scale(step, from, to, (steps + 0.5).Floor);
  }

  /** What the whole multiples on either side of a span are worth. */
  lemma TicksMean(low: real, high: real, integral: bool, a: real, b: real, scale: Scale)
    requires Around(scale, low, high, a, b) && StepFits(scale.step, high - low, integral)
    ensures Covers(scale, low, high, integral)
    ensures low - scale.step < scale.low < scale.high < high + scale.step
    ensures (scale.high - scale.low) / scale.step == scale.n as real
  {
    AxisEdges(low, high, integral, a, b, scale);
    AxisLength(low, high, integral, a, b, scale);
  }

  /** Math.round of a whole number. */
  lemma Rounded(x: real, n: int)
    requires x == n as real
    ensures (x + 0.5).Floor == n
  {
  }

  /** Where the ticks lie, with the products out of sight of the caller. */
  lemma AxisEdges(low: real, high: real, integral: bool, a: real, b: real, scale: Scale)
    requires Around(scale, low, high, a, b) && (integral ==> Whole(scale.step))
    ensures Edges(scale, low, high, integral)
    ensures low - scale.step < scale.low && scale.high < high + scale.step
  {
    NoTickBetween(low, high, scale.step, a, b, scale);
    TickBelow(a, scale.step, low, scale.low);
    TickAbove(b, scale.step, high, scale.high);
    if Whole(scale.step) {
      WholeTimes(a.Floor, scale.step, scale.low);
      WholeTimes(Ceil(b), scale.step, scale.high);
    }
  }

  lemma NoTickBetween(low: real, high: real, step: real, a: real, b: real, scale: Scale)
    requires step > 0.0 && a * step == low && b * step == high
    requires scale.low == a.Floor as real * step && scale.high == Ceil(b) as real * step
    ensures low - step < scale.low && scale.high < high + step
  {
    var f, c := a.Floor as real, Ceil(b) as real;
    Scaled(a, f + 1.0, step);
    Scaled(c - 1.0, b, step);
    assert (f + 1.0) * step == f * step + step && (c - 1.0) * step == c * step - step;
  }

  /** How many there are. */
  lemma AxisLength(low: real, high: real, integral: bool, a: real, b: real, scale: Scale)
    requires Around(scale, low, high, a, b) && StepFits(scale.step, high - low, integral)
    ensures Length(scale, integral)
    ensures scale.low < scale.high && (scale.high - scale.low) / scale.step == scale.n as real
  {
    TickCount(low, high, scale.step, a, b, scale.n);
    WholeMultiple(a.Floor, Ceil(b), scale.n, scale.step, scale.low, scale.high);
  }

  lemma Divided(x: real, step: real, q: real)
    requires step > 0.0 && q == x / step
    ensures q * step == x
  {
  }

  /** The room left on each side of the data. */
  function Pad(low: real, high: real, integral: bool): (pad: real)
    requires low <= high
    ensures pad > 0.0
    ensures low == high && (integral || low == 0.0) ==> pad == 1.0
    ensures low < high ==> pad == (high - low) / 25.0
    ensures low == high && !integral && low != 0.0 ==> 10.0 * pad == low || 10.0 * pad == -low
  {
    if high <= low then
      if integral then 1.0 else if low == 0.0 then 1.0 else (if low < 0.0 then -low else low) * 0.1
    else (high - low) * 0.04
  }

  /** The data's span with that room, not below zero for data that is not. */
  function From(low: real, high: real, integral: bool): (from: real)
    requires low <= high
    ensures low < 0.0 ==> from == low - Pad(low, high, integral)
    ensures low >= 0.0 ==>
              var pad := Pad(low, high, integral); from == low - pad >= 0.0 || (from == 0.0 && low < pad)
  {
    var from := low - Pad(low, high, integral);
    if low >= 0.0 && from < 0.0 then 0.0 else from
  }

  /** The axis of a padded span: a nice step and the ticks around the span. */
  method AxisOver(from: real, to: real, integral: bool) returns (scale: Scale)
    requires from < to
    ensures Covers(scale, from, to, integral)
    ensures scale.step == NiceStep(to - from, integral)
    ensures exists k :: Round(scale.step, k)
    ensures from - scale.step < scale.low && scale.high < to + scale.step
  {
    var step := NiceStep(to - from, integral);
    StepBounds(to - from, integral);
    NiceStepIsRound(to - from, integral);
    scale := TicksAround(from, to, step, integral);
  }

  /** The ticks around a wider span cover the narrower one. */
  lemma CoversInside(scale: Scale, from: real, to: real, low: real, high: real, integral: bool)
    requires Covers(scale, from, to, integral) && from <= low <= high <= to && (low >= 0.0 ==> from >= 0.0)
    ensures Covers(scale, low, high, integral)
  {
  }

  /** The axis covers the data, starts at or above zero when the data does, is `n` steps long, and has
      3 to 5 intervals of a round step; for integral data, 1 to 6 and a whole step. */
  method PlotScale(low: real, high: real, integral: bool) returns (scale: Scale)
    requires low <= high
    ensures Covers(scale, low, high, integral)
    ensures exists k :: Round(scale.step, k)
    ensures var from, to := From(low, high, integral), high + Pad(low, high, integral);
            && scale.step == NiceStep(to - from, integral)
            && from - scale.step < scale.low <= from && to <= scale.high < to + scale.step
  {
    var nonNegative := low >= 0.0;
    var pad := if high <= low
               then (if integral then 1.0 else if low == 0.0 then 1.0 else (if low < 0.0 then -low else low) * 0.1)
               else (high - low) * 0.04;
    var from, to := low - pad, high + pad;
    if nonNegative && from < 0.0 {
      from := 0.0;
    }
    assert pad == Pad(low, high, integral) && from == From(low, high, integral);
    scale := AxisOver(from, to, integral);
    CoversInside(scale, from, to, low, high, integral);
  }
}
