/** How the computed iteration ends: its limit of 32 iterations never decides, and the result is
    close to the exact invariant of the same reserves. */
module InvariantStops {
  import opened Results
  import opened FixedPoint
  import opened ExactPowers
  import opened StableInvariant
  import opened InvariantError
  import opened InvariantAccuracy
  import Exact = NewtonExact

  // ---- where the polynomial changes sign ----

  const GAP: real := 0.00001

  /** Two close points between which the polynomial changes sign. */
  ghost predicate Brackets(c: Curve, lo: real, hi: real) {
    0.0 <= lo <= hi <= lo + GAP && Of(c).At(lo) <= 0.0 <= Of(c).At(hi)
  }

  lemma {:induction false} Bisect(p: Exact.Polynomial, lo: real, hi: real) returns (a: real, b: real)
    requires 0.0 <= lo <= hi && p.At(lo) <= 0.0 <= p.At(hi)
    ensures lo <= a <= b <= hi && b - a <= GAP && p.At(a) <= 0.0 <= p.At(b)
    decreases ((hi - lo) / GAP).Floor
  {
    hide Power;
    hide p.At;
    if hi - lo <= GAP {
      return lo, hi;
    }
    var mid := (lo + hi) / 2.0;
    if p.At(mid) <= 0.0 {
      a, b := Bisect(p, mid, hi);
    } else {
      a, b := Bisect(p, lo, mid);
    }
  }

  lemma ZeroBelow(c: Curve)
    requires Moderate(c)
    ensures Of(c).At(0.0) < 0.0
  {
    assert Power(0.0, c.exponent + 1) == Power(0.0, c.exponent) * 0.0;
  }

  /** Every point that an iteration succeeds from lies above the lower one. */
  lemma PointAbove(c: Curve, d: Decimal, lo: real)
    requires Moderate(c) && NewtonStep(c, d).Ok? && lo >= 0.0 && Of(c).At(lo) <= 0.0
    ensures Value(d) >= lo && Of(c).At(Value(d)) >= 0.0 && Value(d) > 0.0
  {
    hide Power;
    StepNearNewton(c, d);
    if Value(d) < lo {
      Exact.StrictlyIncreasing(Of(c), Value(d), lo);
    }
  }

  // ---- contraction over a run ----

  lemma {:induction false} RunContracts(c: Curve, trace: seq<Decimal>, hi: real, q: real, k: nat)
    requires Moderate(c) && NewtonRun(c, trace) && k < |trace| && hi >= 0.0 && Of(c).At(hi) >= 0.0
    requires 0.0 <= q <= 0.8 && (c.exponent as real + 1.0) * q >= c.exponent as real
    requires Value(trace[0]) <= 1000.0
    ensures Value(trace[k]) - hi <= Power(q, k) * 1000.0 + 5.0 * STEP_SLACK
  {
    hide NewtonStep;
    hide Value;
    hide Of;
    if k > 0 {
      RunContracts(c, trace, hi, q, k - 1);
      var x, next := Value(trace[k - 1]), Value(trace[k]);
      ValueOrder(trace[k], trace[k - 1]);
      StepWithin(c, trace[k - 1], hi);
      Contracted(c.exponent as real, q, x - hi, next - hi, Power(q, k - 1));
      assert Power(q, k) == Power(q, k - 1) * q;
      if x < hi {
        PowerMonotone(0.0, q, k);
      }
    }
  }

  lemma Contracted(n: real, q: real, before: real, after: real, w: real)
    requires n > 0.0 && 0.0 <= q <= 0.8 && (n + 1.0) * q >= n
    requires after <= before && after <= n * (before - after) + (n + 1.0) * STEP_SLACK
    requires before <= w * 1000.0 + 5.0 * STEP_SLACK
    ensures before >= 0.0 ==> after <= q * before + STEP_SLACK
    ensures before >= 0.0 ==> after <= w * q * 1000.0 + 5.0 * STEP_SLACK
  {
    if before >= 0.0 {
      Exact.ShrinkBy(n, q, before, after - STEP_SLACK) by {
        assert n * (before - after) == n * before - n * after;
        assert n * STEP_SLACK >= 0.0;
      }
      ProductMonotone(0.0, q, 0.0, w * 1000.0 + 5.0 * STEP_SLACK - before);
      assert q * (w * 1000.0 + 5.0 * STEP_SLACK - before) == w * q * 1000.0 + q * (5.0 * STEP_SLACK) - q * before;
    }
  }

  /** Four reserves and a root of at least 1: while the iterates are more than one half above the
      root, they even contract towards a point one half below it. */
  lemma {:induction false} FarRunContracts(c: Curve, trace: seq<Decimal>, hi: real, k: nat)
    requires Moderate(c) && c.exponent == 4 && NewtonRun(c, trace) && k < |trace| && hi >= 1.0 && Of(c).At(hi) >= 0.0
    requires forall i :: 0 <= i < k ==> Value(trace[i]) > hi + 0.5
    requires Value(trace[0]) <= 1000.0
    ensures Value(trace[k]) - (hi - 0.5) <= Power(0.8, k) * 1000.0 + 5.0 * STEP_SLACK
  {
    hide NewtonStep;
    hide Value;
    hide Exact.Newton;
    hide Power;
    Exact.PowerUnfolds(0.8, k);
    if k > 0 {
      FarRunContracts(c, trace, hi, k - 1);
      var x, next := Value(trace[k - 1]), Value(trace[k]);
      StepNearNewton(c, trace[k - 1]);
      Exact.FarStep(Of(c), x, hi);
    }
  }

  lemma StepOfRun(c: Curve, trace: seq<Decimal>, k: nat)
    requires c.exponent <= U64_MAX && NewtonRun(c, trace) && 0 < k < |trace|
    ensures NewtonStep(c, trace[k - 1]) == Ok(trace[k]) && trace[k] < trace[k - 1]
  {
    hide NewtonStep;
  }

  lemma {:induction false} RunDescends(c: Curve, trace: seq<Decimal>, i: nat, k: nat)
    requires c.exponent <= U64_MAX && NewtonRun(c, trace) && i <= k < |trace|
    ensures trace[k] <= trace[i] && Value(trace[k]) <= Value(trace[i])
    decreases k
  {
    hide NewtonStep;
    ValueOrder(trace[k], trace[i]);
    if i < k {
      RunDescends(c, trace, i, k - 1);
    }
  }

  // ---- the iteration limit ----

  /** With two to four reserves the last possible step is at most the admissible error of one
      half, so it is never the iteration limit that decides. */
  lemma LimitIsNeverDecisive(c: Curve, trace: seq<Decimal>)
    requires Moderate(c) && Value(c.initialGuess) <= 1000.0 && Of(c).b * Value(c.initialGuess) <= Of(c).t
    requires NewtonRun(c, trace) && trace[0] == c.initialGuess && |trace| == MAX_ITERATIONS + 1
    ensures Stopped(c, trace)
  {
    hide NewtonStep;
    hide Power;
    hide Of;
    hide Value;
    ZeroBelow(c);
    StepOfRun(c, trace, 1);
    StepOfRun(c, trace, 32);
    PointAbove(c, trace[0], 0.0);
    var lo, hi := Bisect(Of(c), 0.0, Value(trace[0]));
    if c.exponent <= 3 {
      Exact.ContractionFactors();
      RunContracts(c, trace, hi, 0.75, 31);
      StepAbove(c, trace[31], lo);
    } else if hi >= 1.0 {
      FarLastStep(c, trace, lo, hi);
    } else {
      NearLastStep(c, trace, lo, hi);
    }
    SmallStep(trace[31], trace[32]);
  }

  lemma FarLastStep(c: Curve, trace: seq<Decimal>, lo: real, hi: real)
    requires Moderate(c) && c.exponent == 4 && Brackets(c, lo, hi) && hi >= 1.0
    requires NewtonRun(c, trace) && |trace| == MAX_ITERATIONS + 1 && Value(trace[0]) <= 1000.0
    ensures Value(trace[31]) - Value(trace[32]) <= 0.5
  {
    hide NewtonStep;
    hide Power;
    hide Of;
    hide Value;
    Exact.ContractionFactors();
    StepOfRun(c, trace, 32);
    StepAbove(c, trace[31], lo);
    if Value(trace[30]) > hi + 0.5 {
      forall i | 0 <= i < 31
        ensures Value(trace[i]) > hi + 0.5
      {
        RunDescends(c, trace, i, 30);
      }
      FarRunContracts(c, trace, hi, 31);
    } else {
      StepOfRun(c, trace, 31);
      RunDescends(c, trace, 30, 31);
      StepWithin(c, trace[30], hi);
    }
  }

  lemma NearLastStep(c: Curve, trace: seq<Decimal>, lo: real, hi: real)
    requires Moderate(c) && c.exponent == 4 && Brackets(c, lo, hi) && 0.0 < hi < 1.0
    requires NewtonRun(c, trace) && |trace| == MAX_ITERATIONS + 1 && Value(trace[0]) <= 1000.0
    requires Of(c).b * Value(trace[0]) <= Of(c).t
    ensures Value(trace[31]) - Value(trace[32]) <= 0.5
  {
    hide NewtonStep;
    hide Power;
    hide Value;
    hide Exact.Newton;
    Exact.ContractionFactors();
    StepOfRun(c, trace, 32);
    StepAbove(c, trace[31], lo);
    RunContracts(c, trace, hi, 0.8, 31);
    RunDescends(c, trace, 0, 31);
    if Value(trace[31]) > hi + 0.49 {
      StepNearNewton(c, trace[31]);
      Exact.FourReservesStep(Of(c), Value(trace[0]), Value(trace[31]), lo, hi);
    }
  }

  lemma SmallStep(d: Decimal, next: Decimal)
    requires Value(d) - Value(next) <= 0.5
    ensures d - next <= WAD / 2
  {
  }

  // ---- the result ----

  /** A successful computation is a strictly descending run of Newton steps that ended at a step
      of at most one half or at a point where the computed polynomial is 0; its result is the
      last iterate scaled back up exactly. */
  lemma ComputationStops(amp: nat, amounts: seq<nat>) returns (trace: seq<Decimal>)
    requires amp <= U64_MAX && AmountsFit(amounts) && 2 <= |amounts| <= 4 && InvariantOf(amp, amounts).Ok?
    ensures CurveOf(amp, amounts).Ok? && trace != []
    ensures var c := CurveOf(amp, amounts).value;
            && NewtonRun(c, trace) && trace[0] == c.initialGuess && Stopped(c, trace)
            && InvariantOf(amp, amounts).value == trace[|trace| - 1] * Scale(amounts)
  {
    var c := CurveOf(amp, amounts).value;
    hide CurveOf;
    hide Iterate;
    hide NewtonStep;
    hide Of;
    trace := IterationDescends(c, c.initialGuess, MAX_ITERATIONS);
    CurveMeaning(amp, amounts);
    CurveIsModerate(c, amp, amounts);
    if |trace| == MAX_ITERATIONS + 1 {
      LimitIsNeverDecisive(c, trace);
    }
    CurveTerms(c, amp, amounts);
    BackUp(trace[|trace| - 1], Scale(amounts));
  }

  lemma BackUp(d: nat, p: nat)
    ensures FixedPoint.Scaled(d * (p * WAD)) == d * p
  {
    assert d * (p * WAD) == (d * p) * WAD;
  }

  lemma StoppedNearSigns(c: Curve, trace: seq<Decimal>, lo: real, hi: real)
    requires Moderate(c) && NewtonRun(c, trace) && Stopped(c, trace) && 0.0 <= hi
    requires Of(c).At(hi) >= 0.0 && (lo >= 0.0 ==> Of(c).At(lo) <= 0.0)
    ensures lo - STEP_SLACK <= Value(trace[|trace| - 1]) <= hi + c.exponent as real / 2.0 + 5.0 * STEP_SLACK
  {
    hide NewtonStep;
    hide Of;
    hide Power;
    hide Polynomial;
    hide Value;
    var k := |trace|;
    var last := trace[k - 1];
    var d := if k > 1 && trace[k - 2] - last <= WAD / 2 then trace[k - 2] else last;
    if k > 1 {
      StepOfRun(c, trace, k - 1);
    }
    assert NewtonStep(c, d) == Ok(last);
    StepWithin(c, d, hi);
    if lo >= 0.0 {
      StepAbove(c, d, lo);
    }
    HalfUnit(d, last);
    WithinHalfSteps(c.exponent as real, Value(d), Value(last), hi);
  }

  lemma WithinHalfSteps(n: real, x: real, next: real, hi: real)
    requires 0.0 <= n <= 4.0 && 0.0 <= x - next <= 0.5
    requires next - hi <= n * (x - next) + (n + 1.0) * STEP_SLACK
    ensures next <= hi + n / 2.0 + 5.0 * STEP_SLACK
  {
    ProductMonotone(n, n, x - next, 0.5);
    assert (n + 1.0) * STEP_SLACK <= 5.0 * STEP_SLACK;
  }

  lemma HalfUnit(d: Decimal, next: Decimal)
    requires next <= d <= next + WAD / 2
    ensures 0.0 <= Value(d) - Value(next) <= 0.5
  {
  }

  /** What rounding may do to a result, in scaled units. */
  const SLACK: real := 0.00003

  /** The computed invariant, in whole tokens, against the exact one of the reserves: at most
      `n/2` scaled units and rounding above it, and not below the fraction `rho` of it but for
      rounding, where `rho` is how much of the scaled reserves' product truncation left. For
      reserves that add up to at most 1000 nothing is scaled and `rho` is 1. */
  lemma ComputedNearExact(amp: nat, amounts: seq<nat>, exact: real) returns (rho: real)
    requires amp <= U64_MAX && AmountsFit(amounts) && 2 <= |amounts| <= 4 && InvariantOf(amp, amounts).Ok?
    requires Exact.Root(Exact.CurvePolynomial(amp as real, Shrunk(amounts, 1)), exact)
    ensures var p, ys := Scale(amounts), Shrunk(amounts, Scale(amounts));
            && 0.0 < rho <= 1.0 && Product(ys) <= Times(rho, Product(ys)) + Times(ProductLoss(ys), UNIT)
            && (p == 1 ==> rho == 1.0)
            && Times(rho, exact) - Times(SLACK, p as real) <= Value(InvariantOf(amp, amounts).value)
            && Value(InvariantOf(amp, amounts).value)
               <= exact + Times(|amounts| as real / 2.0 + SLACK, p as real)
  {
    hide Exact.CurvePolynomial;
    hide Exact.Root;
    hide ProductLoss;
    hide Product;
    hide Times;
    hide Value;
    hide CurveOf;
    hide InvariantOf;
    hide Of;
    hide CurveFor;
    hide Moderate;
    hide NewtonStep;
    hide Polynomial;
    hide Scale;
    hide Shrunk;
    var trace := ComputationStops(amp, amounts);
    var c, p := CurveOf(amp, amounts).value, Scale(amounts);
    var ys := Shrunk(amounts, p);
    CurveMeaning(amp, amounts);
    CurveIsModerate(c, amp, amounts);
    var scaled := ScaledDownExact(amp, amounts, p, exact);
    var lo;
    lo, rho := SignsOfCurve(c, amp, amounts, scaled);
    StoppedNearSigns(c, trace, lo, scaled);
    CurveExponent(c, amp, amounts);
    WholeResult(trace[|trace| - 1], p, rho, |amounts| as real / 2.0, scaled, exact, lo);
  }

  /** The exact invariant of the scaled-down reserves. */
  lemma ScaledDownExact(amp: nat, amounts: seq<nat>, p: nat, exact: real) returns (scaled: real)
    requires p > 0 && Exact.Root(Exact.CurvePolynomial(amp as real, Shrunk(amounts, 1)), exact)
    ensures Exact.Root(Exact.CurvePolynomial(amp as real, Shrunk(amounts, p)), scaled)
    ensures exact == Times(scaled, p as real) && scaled > 0.0
  {
    hide *;
    var k := ShrinkFactor(amounts, p);
    scaled := Times(k, exact);
    Exact.ScalingScalesRoot(amp as real, Shrunk(amounts, 1), k, exact);
    SignOfProduct(p as real, k);
    Exact.BackAndForth(k, p as real, exact, scaled);
    Exact.RootPositive(Exact.CurvePolynomial(amp as real, Shrunk(amounts, p)), scaled);
  }

  lemma ShrinkFactor(amounts: seq<nat>, p: nat) returns (k: real)
    requires p > 0
    ensures k > 0.0 && k * p as real == 1.0 && ExactPowers.Scaled(Shrunk(amounts, 1), k) == Shrunk(amounts, p)
  {
    k := 1.0 / p as real;
    ScaledShrunk(amounts, p, k);
  }

  lemma {:induction false} ScaledShrunk(amounts: seq<nat>, p: nat, k: real)
    requires p > 0 && k * p as real == 1.0
    ensures ExactPowers.Scaled(Shrunk(amounts, 1), k) == Shrunk(amounts, p)
  {
    hide Shrunk;
    hide Times;
    if amounts != [] {
      var front, x := amounts[..|amounts| - 1], amounts[|amounts| - 1];
      ScaledShrunk(front, p, k);
      ShrunkUnfolds(amounts, 1);
      ShrunkUnfolds(amounts, p);
      ShareOf(x as real, p as real, k);
      ScaledLast(Shrunk(front, 1), x as real / 1.0, k);
    }
  }

  lemma ShrunkUnfolds(amounts: seq<nat>, p: nat)
    requires p > 0 && amounts != []
    ensures Shrunk(amounts, p)
            == Shrunk(amounts[..|amounts| - 1], p) + [amounts[|amounts| - 1] as real / p as real]
  {
  }

  lemma ShareOf(x: real, p: real, k: real)
    requires p > 0.0 && k * p == 1.0
    ensures Times(k, x / 1.0) == x / p
  {
    assert (x / p) * p == x;
    assert k * x == (k * p) * (x / p);
  }

  /** Where the computed curve's polynomial has which sign, by the exact invariant. */
  lemma SignsOfCurve(c: Curve, amp: nat, amounts: seq<nat>, exact: real) returns (lo: real, rho: real)
    requires AmountsFit(amounts) && CurveFor(c, amp, amounts) && 2 <= |amounts| <= 4
    requires Exact.Root(Exact.CurvePolynomial(amp as real, Shrunk(amounts, Scale(amounts))), exact)
    ensures var ys := Shrunk(amounts, Scale(amounts));
            && 0.0 < rho <= 1.0 && Product(ys) <= Times(rho, Product(ys)) + Times(ProductLoss(ys), UNIT)
            && (Scale(amounts) == 1 ==> rho == 1.0)
    ensures Of(c).At(exact) >= 0.0 && (lo >= 0.0 ==> Of(c).At(lo) <= 0.0)
    ensures lo >= Times(rho, exact) - STEP_SLACK
  {
    hide *;
    var product, an := CurveAsReal(c, amp, amounts);
    CurveIsModerate(c, amp, amounts);
    var n, ys := |amounts|, Shrunk(amounts, Scale(amounts));
    rho := WeightFraction(n, product, Product(ys), Times(ProductLoss(ys), UNIT));
    PolynomialTerms(amp, ys);
    CurveInRange(c);
    lo := JustBelow(rho, exact, Of(c).b);
    SignsAroundExact(Of(c), an, Sum(ys), Exact.Weighted(ys), Exact.WeightedProduct(n, product), rho, exact);
  }

  lemma WeightFraction(n: nat, a: real, y: real, loss: real) returns (rho: real)
    requires 2 <= n <= 4 && 0.000000000001 <= a <= y <= a + loss
    ensures 0.0 < rho <= 1.0 && y <= Times(rho, y) + loss && (a == y ==> rho == 1.0)
    ensures Exact.WeightedProduct(n, a) == Times(rho, Exact.WeightedProduct(n, y)) && Exact.WeightedProduct(n, y) > 0.0
  {
    rho := a / y;
    assert rho * y == a;
    SignOfProduct(y, rho);
    SignOfProduct(y, 1.0 - rho);
    PowerPositive(n as real, n);
    var w := Power(n as real, n);
    assert w * y > 0.0;
    assert w * (rho * y) == rho * (w * y);
  }

  lemma PolynomialTerms(amp: nat, ys: seq<real>)
    ensures Exact.Weighted(ys) == Exact.WeightedProduct(|ys|, Product(ys))
    ensures Exact.CurvePolynomial(amp as real, ys)
            == Exact.FromTerms(|ys|, Exact.Amplified(amp as real, |ys|), Exact.Weighted(ys), Sum(ys))
  {
  }

  lemma CurveInRange(c: Curve)
    requires Moderate(c)
    ensures Of(c).Valid() && Of(c).b >= LEAST_COEFFICIENT && LEAST_COEFFICIENT > 0.0
  {
  }

  lemma JustBelow(rho: real, exact: real, b: real) returns (lo: real)
    requires b >= LEAST_COEFFICIENT
    ensures b > 0.0 && lo == rho * exact - UNIT / b && lo >= Times(rho, exact) - STEP_SLACK
  {
    lo := rho * exact - UNIT / b;
    assert (UNIT / b) * b == UNIT;
    SignOfProduct(b, STEP_SLACK - UNIT / b);
  }

  lemma WholeResult(d: Decimal, p: nat, rho: real, half: real, scaled: real, exact: real, lo: real)
    requires p > 0 && 0.0 < rho <= 1.0 && scaled > 0.0 && exact == Times(scaled, p as real)
    requires lo >= Times(rho, scaled) - STEP_SLACK
    requires lo - STEP_SLACK <= Value(d) <= scaled + half + 5.0 * STEP_SLACK
    ensures Times(rho, exact) - Times(SLACK, p as real) <= Value(d * p) <= exact + Times(half + SLACK, p as real)
  {
    var q := p as real;
    assert (d * p) as real == d as real * q;
    assert Value(d * p) == Value(d) * q;
    assert (Value(d) - (rho * scaled - SLACK)) * q >= 0.0;
    assert (scaled + half + SLACK - Value(d)) * q >= 0.0;
    assert rho * (scaled * q) == (rho * scaled) * q;
  }
}
