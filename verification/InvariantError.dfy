/** How far the fixed-point computation of the invariant can be from exact arithmetic: its
    coefficients, its polynomial and derivative, and where its iteration stops. */
module InvariantError {
  import opened Results
  import opened FixedPoint
  import opened AmmHelpers
  import opened ExactPowers
  import opened StableInvariant
  import Exact = NewtonExact

  // ---- decimals as numbers ----

  const WHOLE: real := 1_000_000_000_000_000_000.0

  /** The smallest positive decimal. */
  const UNIT: real := 1.0 / WHOLE

  /** The number that a decimal stands for. */
  function Value(x: nat): (v: real)
    ensures v >= 0.0
  {
    x as real / WHOLE
  }

  lemma ValueOfSum(a: nat, b: nat)
    ensures Value(a + b) == Value(a) + Value(b)
  {
  }

  lemma ValueOrder(a: nat, b: nat)
    ensures a <= b <==> Value(a) <= Value(b)
    ensures a == b <==> Value(a) == Value(b)
  {
  }

  lemma ValueOfProduct(a: nat, b: nat)
    ensures Value(a) * Value(b) == (a * b) as real / WHOLE / WHOLE
  {
    assert a as real * b as real == (a * b) as real;
  }

  /** A truncated product misses the exact one by less than the smallest decimal. */
  lemma MulError(a: nat, b: nat)
    ensures Value(FixedPoint.Scaled(a * b)) <= Times(Value(a), Value(b)) < Value(FixedPoint.Scaled(a * b)) + UNIT
  {
    ValueOfProduct(a, b);
    var p := a * b;
    DivBounds(p, WAD);
    var q := FixedPoint.Scaled(p);
    assert q as real * WHOLE <= p as real < (q as real + 1.0) * WHOLE;
  }

  /** So does a truncated quotient. */
  lemma DivError(a: nat, b: nat)
    requires b > 0
    ensures Value(b) > 0.0
    ensures var q := Value(Quotient(a * WAD, b));
            Times(q, Value(b)) <= Value(a) < Times(q + UNIT, Value(b))
  {
    var q := Quotient(a * WAD, b);
    ValueOfProduct(q, b);
    ValueOfProduct(q + 1, b);
    ValueOfSum(q, 1);
    assert (a * WAD) as real == a as real * WHOLE;
  }

  // ---- powers, polynomial and derivative ----

  /** What truncation may take from the `k`th power of `d`, in units: `1 + d + ... + d^(k-1)`. */
  function Lost(d: real, k: nat): real {
    if k == 0 then 0.0 else Times(Lost(d, k - 1), d) + 1.0
  }

  lemma {:induction false} LostMonotone(d: real, k: nat)
    requires d >= 0.0
    ensures Lost(d, k) >= 0.0
  {
    if k > 0 {
      LostMonotone(d, k - 1);
      ProductMonotone(0.0, Lost(d, k - 1), 0.0, d);
    }
  }

  lemma {:induction false} PowerError(d: Decimal, k: nat)
    requires TryPow(d, k).Ok?
    ensures var p := Value(TryPow(d, k).value);
            p <= Power(Value(d), k) <= p + Times(Lost(Value(d), k), UNIT)
  {
    hide Value;
    hide Times;
    hide FixedPoint.Scaled;
    if k == 0 {
      WholeUnit();
    } else {
      PowerError(d, k - 1);
      var q, x := TryPow(d, k - 1).value, Value(d);
      MulError(q, d);
      NextPower(x, k - 1);
      LostStep(Value(q), Power(x, k - 1), Lost(x, k - 1), x, UNIT);
      OneMore(Times(Lost(x, k - 1), x), UNIT);
    }
  }

  lemma WholeUnit()
    ensures Value(ONE) == 1.0 && Times(0.0, UNIT) == 0.0
  {
  }

  lemma LostStep(q: real, p: real, l: real, x: real, u: real)
    requires 0.0 <= x && q <= p <= q + Times(l, u)
    ensures Times(q, x) <= Times(p, x) <= Times(q, x) + Times(Times(l, x), u)
  {
    assert (p - q) * x >= 0.0;
    assert (q + l * u - p) * x >= 0.0;
    assert (l * x) * u == (l * u) * x;
  }

  /** The exact polynomial with the fixed-point coefficients. */
  function Of(c: Curve): Exact.Polynomial {
    Exact.Polynomial(c.exponent, Value(c.firstOrderCoeff), Value(c.polynomialThirdTerm))
  }

  lemma PolynomialError(c: Curve, d: Decimal)
    requires Polynomial(c, d).Ok?
    ensures var f := Value(Polynomial(c, d).value);
            f <= Of(c).At(Value(d)) < f + Times(Lost(Value(d), c.exponent + 1) + 1.0, UNIT)
  {
    hide TryPow;
    hide Power;
    hide Lost;
    hide Value;
    hide Times;
    hide FixedPoint.Scaled;
    var p, m := TryPow(d, c.exponent + 1).value, TryMul(d, c.firstOrderCoeff).value;
    PowerError(d, c.exponent + 1);
    MulError(d, c.firstOrderCoeff);
    ValueOfSum(p, m);
    ValueOfSum(Polynomial(c, d).value, c.polynomialThirdTerm);
    SwapTimes(Value(d), Value(c.firstOrderCoeff));
    OneMore(Lost(Value(d), c.exponent + 1), UNIT);
  }

  lemma SwapTimes(x: real, y: real)
    ensures Times(x, y) == Times(y, x)
  {
  }

  lemma OneMore(l: real, u: real)
    ensures Times(l + 1.0, u) == Times(l, u) + u
  {
  }

  lemma DerivativeError(c: Curve, d: Decimal)
    requires c.exponent <= U64_MAX && Derivative(c, d).Ok?
    ensures var v := Value(Derivative(c, d).value);
            && Of(c).b <= v <= Of(c).DerivativeAt(Value(d))
            && Of(c).DerivativeAt(Value(d))
               <= v + Times(Times(c.exponent as real + 1.0, Lost(Value(d), c.exponent)), UNIT)
  {
    hide TryPow;
    hide Power;
    hide Lost;
    hide Value;
    hide Times;
    hide FixedPoint.Scaled;
    var n := c.exponent;
    var p := TryPow(d, n).value;
    var first := FixedPoint.Scaled((n * WAD + ONE) * p);
    PowerError(d, n);
    WholeFactor(n + 1, p);
    ValueOfSum(first, c.firstOrderCoeff);
    Multiplied(n as real + 1.0, Value(p), Lost(Value(d), n), Power(Value(d), n), UNIT);
  }

  lemma WholeFactor(n: nat, p: nat)
    ensures Value(FixedPoint.Scaled((n * WAD) * p)) == Times(n as real, Value(p))
  {
    assert (n * WAD) * p == (n * p) * WAD;
    assert (n * p) as real == n as real * p as real;
  }

  lemma Multiplied(k: real, p: real, l: real, x: real, u: real)
    requires k >= 0.0 && p <= x <= p + Times(l, u)
    ensures Times(k, p) <= k * x <= Times(k, p) + Times(Times(k, l), u)
  {
    assert k * (x - p) >= 0.0;
    assert k * (p + l * u - x) >= 0.0;
    assert (k * l) * u == k * (l * u);
  }

  // ---- one iteration ----

  /** What truncation may add to the polynomial's value and take from its derivative. */
  function ValueLoss(n: nat, d: real): real {
    Times(Lost(d, n + 1) + 1.0, UNIT)
  }

  function SlopeLoss(n: nat, d: real): real {
    Times(Times(n as real + 1.0, Lost(d, n)), UNIT)
  }

  /** A successful iteration is from a positive point at which the exact polynomial is not
      negative, with value and slope as computed and a step truncated once. */
  lemma StepErrors(c: Curve, d: Decimal) returns (f: real, v: real)
    requires 0 < c.exponent <= U64_MAX && c.polynomialThirdTerm > 0 && NewtonStep(c, d).Ok?
    ensures d > 0 && Of(c).Valid() && Of(c).b <= v && 0.0 < v && 0.0 <= f
    ensures f <= Of(c).At(Value(d)) <= f + ValueLoss(c.exponent, Value(d))
    ensures v <= Of(c).DerivativeAt(Value(d)) <= v + SlopeLoss(c.exponent, Value(d))
    ensures var step := Value(d) - Value(NewtonStep(c, d).value);
            0.0 <= step && Times(step, v) <= f < Times(step + UNIT, v)
  {
    hide TryPow;
    hide Power;
    hide Lost;
    hide Times;
    var a, b := Polynomial(c, d).value, Derivative(c, d).value;
    f, v := Value(a), Value(b);
    PolynomialError(c, d);
    DerivativeError(c, d);
    DivError(a, b);
    ValueOfSum(NewtonStep(c, d).value, Quotient(a * WAD, b));
    NothingAtZero(c, d);
  }

  lemma NothingAtZero(c: Curve, d: Decimal)
    requires Polynomial(c, d).Ok? && c.polynomialThirdTerm > 0
    ensures d > 0
  {
    if d == 0 {
      ZeroValue(c);
    }
  }

  lemma ZeroValue(c: Curve)
    requires TryPow(0, c.exponent + 1).Ok?
    ensures c.polynomialThirdTerm > 0 ==> Polynomial(c, 0).Err?
  {
    PowerOfZero(c.exponent + 1);
  }

  lemma LossesPositive(n: nat, d: real)
    requires d >= 0.0
    ensures ValueLoss(n, d) >= 0.0 && SlopeLoss(n, d) >= 0.0
  {
    LostMonotone(d, n + 1);
    LostMonotone(d, n);
    ProductMonotone(0.0, n as real + 1.0, 0.0, Lost(d, n));
  }

  lemma PositiveValue(d: Decimal)
    requires d > 0
    ensures Value(d) > 0.0
  {
  }

  // ---- the losses are small ----

  /** What rounding may do to one iteration, in scaled units. */
  const STEP_SLACK: real := 0.000005

  /** The smallest linear coefficient that a pool of at least two reserves can have. */
  const LEAST_COEFFICIENT: real := 0.000000000012

  lemma {:induction false} LostBound(d: real, x: real, k: nat)
    requires 0.0 <= d <= x && x >= 1.0
    ensures 0.0 <= Lost(d, k + 1) <= Times(k as real + 1.0, Power(x, k)) && Power(x, k) >= 1.0
  {
    PowerAtLeastOne(x, k);
    LostMonotone(d, k + 1);
    if k == 0 {
      assert Lost(d, 0) == 0.0;
    } else {
      LostBound(d, x, k - 1);
      ProductMonotone(Lost(d, k), Times(k as real, Power(x, k - 1)), d, x);
    }
  }

  /** With two to four reserves and a product of at least 10^-12 the losses do not matter. */
  lemma LossesSmall(n: nat, d: real, b: real, v: real)
    requires 2 <= n <= 4 && d > 0.0 && LEAST_COEFFICIENT <= b <= v
    requires (n as real + 1.0) * Power(d, n) + b <= v + SlopeLoss(n, d)
    ensures Times(n as real + 1.0, ValueLoss(n, d) + Times(UNIT, v)) <= Times(STEP_SLACK, v)
    ensures Times(d, SlopeLoss(n, d)) <= Times(STEP_SLACK, v)
  {
    hide Lost;
    hide ValueLoss;
    hide SlopeLoss;
    hide Times;
    var x := if d < 1.0 then 1.0 else d;
    var q, m := Power(x, n), n as real;
    LostBound(d, x, n);
    LostBound(d, x, n - 1);
    NextPower(x, n - 1);
    LossBounds(n, d, x, q, Power(x, n - 1));
    if d < 1.0 {
      PowerOfOne(n);
    }
    hide Power;
    SmallBeside(m, d, q, Power(d, n), b, v, q * UNIT, ValueLoss(n, d), SlopeLoss(n, d), Times(d, SlopeLoss(n, d)));
  }

  lemma LossBounds(n: nat, d: real, x: real, q: real, q1: real)
    requires 0 < n && 0.0 < d <= x && q1 >= 1.0 && q >= 1.0 && q == Times(q1, x)
    requires 0.0 <= Lost(d, n) <= Times(n as real, q1) && 0.0 <= Lost(d, n + 1) <= Times(n as real + 1.0, q)
    ensures 0.0 <= ValueLoss(n, d) <= (n as real + 2.0) * (q * UNIT)
    ensures 0.0 <= Times(d, SlopeLoss(n, d)) <= (n as real + 1.0) * (n as real * (q * UNIT))
    ensures d >= 1.0 ==> SlopeLoss(n, d) <= Times(d, SlopeLoss(n, d))
  {
    hide Lost;
    var m, l := n as real, Lost(d, n);
    ProductMonotone(l, m * q1, d, x);
    assert d * ((m + 1.0) * l * UNIT) == (m + 1.0) * ((l * d) * UNIT);
    assert (m * q1) * x == m * q;
    assert (m + 1.0) * ((m * q - l * d) * UNIT) >= 0.0;
    assert (m + 1.0) * ((l * d) * UNIT) >= 0.0;
    assert (m + 1.0) * l * UNIT >= 0.0;
    if d >= 1.0 {
      ProductMonotone(1.0, d, (m + 1.0) * l * UNIT, (m + 1.0) * l * UNIT);
    }
  }

  /** `w` is one unit of a quantity that slope and value exceed by far. */
  lemma SmallBeside(m: real, d: real, q: real, power: real, b: real, v: real, w: real,
                    valueLoss: real, slopeLoss: real, slopeLosses: real)
    requires m in {2.0, 3.0, 4.0} && q >= 1.0 && w == q * UNIT && LEAST_COEFFICIENT <= b <= v
    requires if d < 1.0 then q == 1.0 else power == q && slopeLoss <= slopeLosses
    requires (m + 1.0) * power + b <= v + slopeLoss
    requires valueLoss <= (m + 2.0) * w && slopeLosses <= (m + 1.0) * (m * w)
    ensures Times(m + 1.0, valueLoss + Times(UNIT, v)) <= Times(STEP_SLACK, v)
    ensures slopeLosses <= Times(STEP_SLACK, v)
  {
    assert w * 1_000_000_000_000_000_000.0 == q;
    assert 12_000_000.0 * w <= v;
  }

  lemma {:induction false} PowerOfOne(n: nat)
    ensures Power(1.0, n) == 1.0
  {
    if n > 0 {
      PowerOfOne(n - 1);
    }
  }

  // ---- iterations ----

  /** The polynomial of a pool with two to four reserves. */
  ghost predicate Moderate(c: Curve) {
    2 <= c.exponent <= 4 && c.polynomialThirdTerm > 0 && LEAST_COEFFICIENT <= Of(c).b
  }

  /** A successful iteration is the exact Newton step from a point at which the exact polynomial
      is not negative, up to rounding. */
  lemma StepNearNewton(c: Curve, d: Decimal)
    requires Moderate(c) && NewtonStep(c, d).Ok?
    ensures d > 0 && Value(d) > 0.0 && Of(c).Valid() && Of(c).At(Value(d)) >= 0.0
    ensures var exact := Exact.Newton(Of(c), Value(d));
            exact - STEP_SLACK <= Value(NewtonStep(c, d).value) <= exact + STEP_SLACK
  {
    hide ValueLoss;
    hide SlopeLoss;
    hide NewtonStep;
    hide Times;
    hide Power;
    hide Exact.Newton;
    hide Value;
    var f, v := StepErrors(c, d);
    PositiveValue(d);
    var p, n, x, next := Of(c), c.exponent, Value(d), Value(NewtonStep(c, d).value);
    LossesSmall(n, x, p.b, v);
    LossesPositive(n, x);
    var at, slope := p.At(x), p.DerivativeAt(x);
    Exact.NewtonEquation(p, x);
    Exact.NewtonDescends(p, x);
    hide p.At;
    hide p.DerivativeAt;
    var exact := Exact.Newton(p, x);
    NotAbove(n as real, exact, next, x, at, slope, f, v, ValueLoss(n, x));
    NotBelow(exact, next, x, at, slope, f, v, SlopeLoss(n, x));
  }

  lemma NotAbove(n: real, exact: real, next: real, x: real, at: real, slope: real, f: real, v: real, loss: real)
    requires n >= 0.0 && 0.0 < v <= slope && next <= x && loss >= 0.0
    requires at <= f + loss && f < Times(x - next + UNIT, v) && slope * (x - exact) == at
    requires Times(n + 1.0, loss + Times(UNIT, v)) <= Times(STEP_SLACK, v)
    ensures next <= exact + STEP_SLACK
  {
    var step := x - next;
    ProductMonotone(v, slope, step, step);
    ProductMonotone(1.0, n + 1.0, loss + UNIT * v, loss + UNIT * v);
    ProductMonotone(STEP_SLACK, STEP_SLACK, v, slope);
    assert (step + UNIT) * v == step * v + UNIT * v;
    assert slope * (exact + STEP_SLACK - next) == slope * step - slope * (x - exact) + STEP_SLACK * slope;
    SignOfProduct(slope, exact + STEP_SLACK - next);
  }

  lemma NotBelow(exact: real, next: real, x: real, at: real, slope: real, f: real, v: real, loss: real)
    requires 0.0 < exact <= x && 0.0 < v && slope <= v + loss && loss >= 0.0
    requires f <= at && Times(x - next, v) <= f && slope * (x - exact) == at
    requires Times(x, loss) <= Times(STEP_SLACK, v)
    ensures exact - STEP_SLACK <= next
  {
    var gap := x - exact;
    ProductMonotone(0.0, v + loss - slope, 0.0, gap);
    ProductMonotone(gap, x, loss, loss);
    assert (v + loss - slope) * gap == v * gap + loss * gap - slope * gap;
    assert v * (next - exact + STEP_SLACK) == v * gap - (x - next) * v + STEP_SLACK * v;
    SignOfProduct(v, next - exact + STEP_SLACK);
  }

  /** An iterate stays above every point at which the polynomial is at most 0, up to rounding. */
  lemma StepAbove(c: Curve, d: Decimal, z: real)
    requires Moderate(c) && NewtonStep(c, d).Ok? && z >= 0.0 && Of(c).At(z) <= 0.0
    ensures Value(NewtonStep(c, d).value) >= z - STEP_SLACK
  {
    hide Power;
    hide Exact.Newton;
    StepNearNewton(c, d);
    Exact.NewtonAbove(Of(c), Value(d), z);
  }

  /** An iterate is above any point at which the polynomial is at least 0 by at most `n` times
      the step it made, up to rounding. */
  lemma StepWithin(c: Curve, d: Decimal, z: real)
    requires Moderate(c) && NewtonStep(c, d).Ok? && z >= 0.0 && Of(c).At(z) >= 0.0
    ensures var next := Value(NewtonStep(c, d).value);
            next - z <= c.exponent as real * (Value(d) - next) + (c.exponent as real + 1.0) * STEP_SLACK
  {
    hide Power;
    hide Exact.Newton;
    hide NewtonStep;
    StepNearNewton(c, d);
    if z <= Value(d) {
      Exact.NewtonWithin(Of(c), Value(d), z);
    }
  }
}
