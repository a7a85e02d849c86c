/** Pools for which the computed invariant is decided outright: equal reserves, and reserves so
    close to equal that the computation reports a violated assumption. */
module InvariantCases {
  import opened Results
  import opened FixedPoint
  import opened AmmHelpers
  import opened StableInvariant

  // ---- equal reserves ----

  lemma {:induction false} PowOfTimes(a: nat, b: nat, k: nat)
    ensures Pow(a * b, k) == Pow(a, k) * Pow(b, k)
  {
    if k > 0 {
      PowOfTimes(a, b, k - 1);
      Regrouped(a, b, Pow(a, k - 1), Pow(b, k - 1));
    }
  }

  lemma Regrouped(a: nat, b: nat, p: nat, q: nat)
    ensures (a * b) * (p * q) == (a * p) * (b * q)
  {
    assert (a * b) * (p * q) == a * (b * (p * q));
    assert (a * p) * (b * q) == a * (p * (b * q));
    assert b * (p * q) == p * (b * q);
  }

  lemma {:induction false} PowBound(a: nat, b: nat, j: nat, k: nat)
    requires a <= b && 0 < b && j <= k
    ensures Pow(a, j) <= Pow(b, k)
    decreases k
  {
    if j == k {
      if k > 0 {
        PowBound(a, b, k - 1, k - 1);
        MulMono(a, b, Pow(a, k - 1));
        MulMono(Pow(a, k - 1), Pow(b, k - 1), b);
      }
    } else {
      PowBound(a, b, j, k - 1);
      MulMono(1, b, Pow(b, k - 1));
    }
  }

  predicate AllEqual(amounts: seq<nat>, x: nat) {
    forall i :: 0 <= i < |amounts| ==> amounts[i] == x
  }

  lemma {:induction false} SumOfEqual(amounts: seq<nat>, x: nat)
    requires AllEqual(amounts, x) && |amounts| * x <= 1000 && AmountsFit(amounts)
    ensures FoldSum(amounts) == Ok(|amounts| * x * WAD)
  {
    if amounts != [] {
      var front := amounts[..|amounts| - 1];
      assert |amounts| * x == |front| * x + x;
      SumOfEqual(front, x);
    }
  }

  lemma {:induction false} ProductOfEqual(amounts: seq<nat>, x: nat)
    requires AllEqual(amounts, x) && x <= 1000 && |amounts| <= 4 && AmountsFit(amounts)
    ensures ScaledProduct(amounts, ONE) == Ok(Pow(x, |amounts|) * WAD)
  {
    if amounts != [] {
      var n := |amounts|;
      var q := Pow(x, n - 1);
      ProductOfEqual(amounts[..n - 1], x);
      ExactProduct(q, x);
      DivByOne(x);
      PowBound(x, 1000, n, 4);
      ThousandPowers();
      assert Pow(x, n) == x * q;
      hide Pow;
      hide FixedPoint.Scaled;
      assert q * x == x * q;
    }
  }

  lemma DivByOne(x: nat)
    requires x <= U64_MAX
    ensures TryDiv(FromU64(x), ONE) == Ok(x * WAD)
  {
  }

  lemma ThousandPowers()
    ensures Pow(1000, 4) == 1_000_000_000_000 && Pow(1000, 5) == 1_000_000_000_000_000 && Pow(4, 4) == 256
  {
    assert Pow(1000, 2) == 1_000_000;
    assert Pow(4, 2) == 16;
  }

  /** A curve of which the polynomial is 0 at the whole initial guess. */
  lemma RootAtGuess(c: Curve, s: nat, p: nat, q: nat)
    requires 0 < c.exponent <= 4 && 0 < s <= 1000 && c.initialGuess == s * WAD && c.sclDownCoef == ONE
    requires TryPow(s * WAD, c.exponent) == Ok(p) && TryPow(s * WAD, c.exponent + 1) == Ok(q) && p > 0
    requires q + s * c.firstOrderCoeff == c.polynomialThirdTerm
    requires (c.exponent + 1) * p + c.firstOrderCoeff < U192_LIMIT
    ensures Iterate(c, c.initialGuess, MAX_ITERATIONS) == Ok(s * WAD)
  {
    hide TryPow;
    WholeTimes(s, c.firstOrderCoeff);
    WholeTimes(c.exponent + 1, p);
    WholeTimes(s, ONE);
    assert Polynomial(c, s * WAD) == Ok(0);
    assert (c.exponent + 1) * p >= p;
    assert Derivative(c, s * WAD) == Ok((c.exponent + 1) * p + c.firstOrderCoeff);
    assert NewtonStep(c, s * WAD) == Ok(s * WAD);
  }

  lemma DivOne(a: Decimal)
    ensures TryDiv(a, ONE) == Ok(a)
  {
  }

  lemma InRange(an: nat, s: nat, w: nat)
    requires 0 < an <= 256 * U64_MAX && 0 < s <= 1000 && w <= 1_000_000_000_000
    ensures (an - 1) * w * WAD <= an * s * w * WAD < U192_LIMIT && an * s * WAD < U192_LIMIT
    ensures 5 * (w * WAD) + (an - 1) * w * WAD < U192_LIMIT
  {
    MulMono(an, 256 * U64_MAX, s);
    MulMono(s, 1000, 256 * U64_MAX);
    MulMono(an * s, 256_000 * U64_MAX, w);
    MulMono(w, 1_000_000_000_000, 256_000 * U64_MAX);
    MulMono(1, s, an);
    MulMono(an - 1, an * s, w);
  }

  /** The coefficients of whole numbers are whole. */
  lemma WholeCoefficients(amp: nat, n: nat, q: nat, s: nat, nn: nat, an: nat, w: nat)
    requires amp <= U64_MAX && 0 < n <= 4 && TryPow(FromU64(n), n) == Ok(nn * WAD)
    requires an == amp * nn && w == nn * q && q * WAD < U192_LIMIT && s * WAD < U192_LIMIT
    requires 0 < an <= 256 * U64_MAX && 0 < s <= 1000 && w <= 1_000_000_000_000
    ensures Coefficients(amp, n, q * WAD, s * WAD, ONE) == Ok(((an - 1) * w * WAD, an * s * w * WAD))
  {
    hide TryPow;
    hide FixedPoint.Scaled;
    InRange(an, s, w);
    ExactProduct(nn, q);
    ExactProduct(amp, nn);
    ExactProduct(an - 1, w);
    ExactProduct(an, s);
    ExactProduct(an * s, w);
    var first, third := (an - 1) * w * WAD, an * s * w * WAD;
    DivOne(third);
    WholeSteps(amp, n, q * WAD, s * WAD, nn * WAD, w * WAD, an * WAD, (an - 1) * WAD, first, an * s * WAD, third);
  }

  lemma WholeSteps(amp: nat, n: nat, product: Decimal, sum: Decimal, nn: Decimal, weighted: nat, ann: nat, less: nat,
                   first: nat, annSum: nat, third: nat)
    requires amp <= U64_MAX && n <= U64_MAX && TryPow(FromU64(n), n) == Ok(nn) && less == ann - ONE
    requires weighted < U192_LIMIT && ann < U192_LIMIT && first < U192_LIMIT && annSum < U192_LIMIT
    requires third < U192_LIMIT && TryDiv(third, ONE) == Ok(third)
    requires FixedPoint.Scaled(nn * product) == weighted && FixedPoint.Scaled(FromU64(amp) * nn) == ann
    requires FixedPoint.Scaled(less * weighted) == first && FixedPoint.Scaled(ann * sum) == annSum
    requires FixedPoint.Scaled(annSum * weighted) == third
    ensures Coefficients(amp, n, product, sum, ONE) == Ok((first, third))
  {
    hide TryPow;
    hide FixedPoint.Scaled;
    hide TryDiv;
  }

  /** Reserves that need no scaling. */
  lemma CurveUnscaled(amp: nat, amounts: seq<nat>, s: nat, product: Decimal, first: Decimal, third: Decimal)
    requires amp <= U64_MAX && AmountsFit(amounts) && |amounts| <= U64_MAX && s <= 1000
    requires FoldSum(amounts) == Ok(s * WAD) && ScaledProduct(amounts, ONE) == Ok(product) && product >= 1_000_000
    requires Coefficients(amp, |amounts|, product, s * WAD, ONE) == Ok((first, third))
    ensures CurveOf(amp, amounts) == Ok(Curve(|amounts|, s * WAD, ONE, first, third))
  {
    hide Coefficients;
    hide FoldSum;
    hide ScaledProduct;
    assert ScaledDown(s * WAD, 0) == (s * WAD, 0);
    assert TryPow(FromU64(1000), 0) == Ok(ONE);
  }

  lemma WholePowers(n: nat, x: nat, s: nat)
    requires 0 < n <= 4 && x > 0 && s == n * x && s <= 1000
    ensures TryPow(FromU64(n), n) == Ok(Pow(n, n) * WAD) && 0 < Pow(n, n) <= 256
    ensures TryPow(s * WAD, n) == Ok(Pow(s, n) * WAD) && 0 < Pow(s, n) <= 1_000_000_000_000
    ensures TryPow(s * WAD, n + 1) == Ok(s * Pow(s, n) * WAD)
    ensures Pow(s, n) == Pow(n, n) * Pow(x, n) && 0 < Pow(x, n) <= 1_000_000_000_000
  {
    hide TryPow;
    PowOfWhole(n, n);
    PowOfWhole(s, n);
    PowOfWhole(s, n + 1);
    PowOfTimes(n, x, n);
    PowBound(n, 4, n, 4);
    PowBound(s, 1000, n, 4);
    PowBound(s, 1000, n + 1, 5);
    PowBound(x, 1000, n, 4);
    ThousandPowers();
    PowPositive(n, n);
    PowPositive(s, n);
    PowPositive(x, n);
  }

  /** Equal reserves of up to 1000 tokens in all have exactly their sum as invariant, whatever
      the amplifier. */
  lemma EqualReserves(amp: nat, amounts: seq<nat>, x: nat)
    requires 0 < amp <= U64_MAX && AmountsFit(amounts) && 0 < |amounts| <= 4
    requires AllEqual(amounts, x) && x > 0 && |amounts| * x <= 1000
    ensures InvariantOf(amp, amounts) == Ok(|amounts| * x * WAD)
  {
    hide Pow;
    hide TryPow;
    hide FoldSum;
    hide ScaledProduct;
    hide Coefficients;
    hide CurveOf;
    hide Iterate;
    var n := |amounts|;
    var s, nn, q := n * x, Pow(n, n), Pow(x, n);
    SumOfEqual(amounts, x);
    ProductOfEqual(amounts, x);
    WholePowers(n, x, s);
    EqualIterate(amp, amounts, n, s, q, nn, Pow(s, n), amp * nn);
  }

  lemma EqualIterate(amp: nat, amounts: seq<nat>, n: nat, s: nat, q: nat, nn: nat, w: nat, an: nat)
    requires 0 < amp <= U64_MAX && AmountsFit(amounts) && 0 < n <= 4 && n == |amounts| && 0 < s <= 1000
    requires FoldSum(amounts) == Ok(s * WAD) && 0 < q <= 1_000_000_000_000
    requires ScaledProduct(amounts, ONE) == Ok(q * WAD) && 0 < nn <= 256 && w == nn * q && an == amp * nn
    requires TryPow(FromU64(n), n) == Ok(nn * WAD) && TryPow(s * WAD, n) == Ok(w * WAD) && 0 < w <= 1_000_000_000_000
    requires TryPow(s * WAD, n + 1) == Ok(s * w * WAD)
    ensures InvariantOf(amp, amounts) == Ok(s * WAD)
  {
    hide Pow;
    hide TryPow;
    hide FoldSum;
    hide ScaledProduct;
    hide Coefficients;
    hide CurveOf;
    hide Iterate;
    MulMono(1, amp, nn);
    MulMono(amp, U64_MAX, nn);
    MulMono(nn, 256, U64_MAX);
    InRange(an, s, w);
    WholeCoefficients(amp, n, q, s, nn, an, w);
    var first, third := (an - 1) * w * WAD, an * s * w * WAD;
    CurveUnscaled(amp, amounts, s, q * WAD, first, third);
    ExactCancellation(an, s, w);
    MulMono(n + 1, 5, w * WAD);
    RootAtGuess(Curve(n, s * WAD, ONE, first, third), s, w * WAD, s * w * WAD);
  }

  lemma ExactCancellation(an: nat, s: nat, w: nat)
    requires an > 0
    ensures s * w * WAD + s * ((an - 1) * w * WAD) == an * s * w * WAD
  {
    var v := w * WAD;
    assert s * ((an - 1) * v) == (an - 1) * (s * v);
    assert an * (s * v) == (an - 1) * (s * v) + s * v;
    assert s * w * WAD == s * v && an * s * w * WAD == an * (s * v) && (an - 1) * w * WAD == (an - 1) * v;
  }

  // ---- a reported violation ----

  /** The value at a point is positive but less than the slope's part of the smallest decimal. */
  predicate Stalled(c: Curve, d: Decimal)
    requires c.exponent <= U64_MAX
  {
    && Polynomial(c, d).Ok? && Derivative(c, d).Ok?
    && 0 < Polynomial(c, d).value && Polynomial(c, d).value * WAD < Derivative(c, d).value
  }

  /** A run from `d`, by steps of more than one half, to a point at which the iteration stalls. */
  ghost predicate RunsIntoStall(c: Curve, d: Decimal, left: nat, trace: seq<Decimal>)
    requires c.exponent <= U64_MAX
  {
    && NewtonRun(c, trace) && trace[0] == d && |trace| <= left && Stalled(c, trace[|trace| - 1])
    && forall i :: 0 < i < |trace| ==> trace[i - 1] - trace[i] > WAD / 2
  }

  lemma QuotientZeroIff(x: nat, y: nat)
    requires y > 0
    ensures Quotient(x, y) == 0 <==> x < y
  {
    if y <= x {
      QuotientIsLargest(x, y, 1);
    }
  }

  /** A step does not move exactly at a root and where it stalls. */
  lemma StepStaysIff(c: Curve, d: Decimal)
    requires c.exponent <= U64_MAX && NewtonStep(c, d).Ok?
    ensures NewtonStep(c, d).value == d <==> Polynomial(c, d) == Ok(0) || Stalled(c, d)
  {
    hide Polynomial;
    hide Derivative;
    hide Quotient;
    QuotientZeroIff(Polynomial(c, d).value * WAD, Derivative(c, d).value);
  }

  lemma StallMeansStep(c: Curve, d: Decimal)
    requires c.exponent <= U64_MAX && Stalled(c, d)
    ensures NewtonStep(c, d) == Ok(d)
  {
    hide Polynomial;
    hide Derivative;
    hide Quotient;
    QuotientZeroIff(Polynomial(c, d).value * WAD, Derivative(c, d).value);
  }

  lemma {:induction false} PowError(d: Decimal, k: nat)
    ensures TryPow(d, k).Err? ==> TryPow(d, k).error == MathOverflow
  {
    if k > 0 {
      PowError(d, k - 1);
    }
  }

  /** An iteration by itself fails only by arithmetic. */
  lemma StepError(c: Curve, d: Decimal)
    requires c.exponent <= U64_MAX && NewtonStep(c, d).Err?
    ensures NewtonStep(c, d) == Err(MathOverflow)
  {
    hide TryPow;
    hide FixedPoint.Scaled;
    hide Quotient;
    PowError(d, c.exponent);
    PowError(d, c.exponent + 1);
  }

  /** The iteration reports a violated assumption exactly if it runs into a stall. */
  lemma {:induction false} ViolationIff(c: Curve, d: Decimal, left: nat)
    requires c.exponent <= U64_MAX
    ensures Iterate(c, d, left) == Err(InvariantViolation) <==> exists trace :: RunsIntoStall(c, d, left, trace)
    decreases left
  {
    hide Polynomial;
    hide Derivative;
    hide NewtonStep;
    if left > 0 {
      forall trace | RunsIntoStall(c, d, left, trace)
        ensures NewtonStep(c, d).Ok? && (|trace| == 1 ==> Stalled(c, d))
        ensures |trace| > 1 ==>
                  && NewtonStep(c, d) == Ok(trace[1]) && d - trace[1] > WAD / 2
                  && RunsIntoStall(c, trace[1], left - 1, trace[1..])
      {
        StallAlong(c, d, left, trace);
      }
      if Stalled(c, d) {
        StallMeansStep(c, d);
        assert RunsIntoStall(c, d, left, [d]);
      } else if NewtonStep(c, d).Ok? {
        StepStaysIff(c, d);
        var next := NewtonStep(c, d).value;
        ViolationIff(c, next, left - 1);
        if next < d && d - next > WAD / 2 {
          var rest: nat := left - 1;
          assert Iterate(c, d, left) == Iterate(c, next, rest);
          if trace :| RunsIntoStall(c, next, rest, trace) {
            assert RunsIntoStall(c, d, left, [d] + trace);
          }
        } else {
          assert Iterate(c, d, left) != Err(InvariantViolation);
        }
      } else {
        StepError(c, d);
      }
    }
  }

  lemma StallAlong(c: Curve, d: Decimal, left: nat, trace: seq<Decimal>)
    requires c.exponent <= U64_MAX && left > 0 && RunsIntoStall(c, d, left, trace)
    ensures NewtonStep(c, d).Ok? && (|trace| == 1 ==> Stalled(c, d))
    ensures |trace| > 1 ==>
              && NewtonStep(c, d) == Ok(trace[1]) && d - trace[1] > WAD / 2
              && RunsIntoStall(c, trace[1], left - 1, trace[1..])
  {
    hide Polynomial;
    hide Derivative;
    hide NewtonStep;
    if |trace| == 1 {
      StallMeansStep(c, d);
    } else {
      assert NewtonStep(c, trace[0]) == Ok(trace[1]);
    }
  }

  /** Two reserves of 10^9 and 10^9 + 1 tokens run into a stall at once: the polynomial is
      positive at the initial guess, but a step would be less than the smallest decimal. */
  lemma NearlyEqualReservesFail()
    ensures InvariantOf(1, [1_000_000_000, 1_000_000_001]) == Err(InvariantViolation)
  {
    var c := Curve(2, 2_000_000_001_000_000_000, 1_000_000_000 * WAD, 12_000_000_012_000_000_000,
                   32_000_000_048_000_000_016);
    hide CurveOf;
    hide Stalled;
    hide NewtonStep;
    hide Polynomial;
    NearlyEqualCurve();
    NearlyEqualStalls(c);
    StallMeansStep(c, c.initialGuess);
  }

  lemma NearlyEqualStalls(c: Curve)
    requires c == Curve(2, 2_000_000_001_000_000_000, 1_000_000_000 * WAD, 12_000_000_012_000_000_000,
                        32_000_000_048_000_000_016)
    ensures Stalled(c, c.initialGuess) && Polynomial(c, c.initialGuess) == Ok(2)
  {
    hide TryPow;
    PowersOf(c.initialGuess, 4_000_000_004_000_000_001, 8_000_000_012_000_000_006);
    assert Polynomial(c, c.initialGuess) == Ok(2);
    assert Derivative(c, c.initialGuess) == Ok(24_000_000_024_000_000_003);
    hide Polynomial;
    hide Derivative;
  }

  lemma PowersOf(d: Decimal, square: Decimal, cube: Decimal)
    requires FixedPoint.Scaled(d * d) == square && FixedPoint.Scaled(square * d) == cube
    ensures TryPow(d, 2) == Ok(square) && TryPow(d, 3) == Ok(cube)
  {
    assert TryPow(d, 0) == Ok(ONE);
    assert FixedPoint.Scaled(ONE * d) == d;
    hide FixedPoint.Scaled;
    assert TryPow(d, 1) == Ok(d);
  }

  lemma NearlyEqualCurve()
    ensures CurveOf(1, [1_000_000_000, 1_000_000_001])
            == Ok(Curve(2, 2_000_000_001_000_000_000, 1_000_000_000 * WAD, 12_000_000_012_000_000_000,
                        32_000_000_048_000_000_016))
  {
    hide FoldSum;
    hide ScaledProduct;
    hide ScaledDown;
    hide TryPow;
    hide Coefficients;
    NearlyEqualFolds();
    NearlyEqualScale();
    NearlyEqualCoefficients();
  }

  lemma NearlyEqualFolds()
    ensures FoldSum([1_000_000_000, 1_000_000_001]) == Ok(2_000_000_001 * WAD)
    ensures ScaledProduct([1_000_000_000, 1_000_000_001], 1_000_000_000 * WAD) == Ok(1_000_000_001_000_000_000)
  {
    var xs: seq<nat> := [1_000_000_000, 1_000_000_001];
    assert xs[..1] == [1_000_000_000] && xs[..1][..0] == [];
    assert FoldSum(xs[..1]) == Ok(1_000_000_000 * WAD);
    assert ScaledProduct(xs[..1], 1_000_000_000 * WAD) == Ok(ONE);
  }

  lemma NearlyEqualScale()
    ensures ScaledDown(2_000_000_001 * WAD, 0) == (2_000_000_001_000_000_000, 3)
    ensures TryPow(FromU64(1000), 3) == Ok(1_000_000_000 * WAD)
  {
    assert ScaledDown(2_000_000_001_000_000_000_000_000, 1) == ScaledDown(2_000_000_001_000_000_000_000, 2);
    assert TryPow(FromU64(1000), 2) == Ok(1_000_000 * WAD);
  }

  lemma NearlyEqualCoefficients()
    ensures Coefficients(1, 2, 1_000_000_001_000_000_000, 2_000_000_001 * WAD, 1_000_000_000 * WAD)
            == Ok((12_000_000_012_000_000_000, 32_000_000_048_000_000_016))
  {
    var weighted: Decimal := 4_000_000_004_000_000_000;
    var third: Decimal := 32_000_000_048_000_000_016 * 1_000_000_000;
    assert TryPow(FromU64(2), 2) == Ok(4 * WAD);
    assert TryMul(4 * WAD, 1_000_000_001_000_000_000) == Ok(weighted);
    assert TryMul(FromU64(1), 4 * WAD) == Ok(4 * WAD);
    assert TryMul(3 * WAD, weighted) == Ok(12_000_000_012_000_000_000);
    assert TryMul(4 * WAD, 2_000_000_001 * WAD) == Ok(8_000_000_004 * WAD);
    assert TryMul(8_000_000_004 * WAD, weighted) == Ok(third);
    assert TryDiv(third, 1_000_000_000 * WAD) == Ok(32_000_000_048_000_000_016);
    hide TryPow;
    hide TryMul;
    hide TryDiv;
  }
}
