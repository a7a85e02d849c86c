/** Newton's method for the stable curve's invariant in exact arithmetic: what the comments
    in the implementation claim about it, for any number of reserves. */
module NewtonExact {
  import opened ExactPowers
  import opened Results

  const MAX_ITERATIONS: nat := 32
  const ADMISSIBLE_ERROR: real := 0.5

  // ---- the polynomial ----

  /** `D^(n+1) + b D - t` */
  datatype Polynomial = Polynomial(n: nat, b: real, t: real) {

    predicate Valid() {
      n > 0 && b >= 0.0 && t > 0.0
    }

    function At(d: real): real {
      Power(d, n + 1) + Times(b, d) - t
    }

    function DerivativeAt(d: real): real {
      (n as real + 1.0) * Power(d, n) + b
    }
  }

  /** `A n^n` */
  function Amplified(amp: real, n: nat): real {
    amp * Power(n as real, n)
  }

  /** `n^n` times the product of the reserves. */
  function Weighted(xs: seq<real>): real {
    WeightedProduct(|xs|, Product(xs))
  }

  function WeightedProduct(n: nat, product: real): real {
    Power(n as real, n) * product
  }

  /** The stable curve's polynomial for an amplifier and the reserves. */
  function CurvePolynomial(amp: real, xs: seq<real>): Polynomial {
    FromTerms(|xs|, Amplified(amp, |xs|), Weighted(xs), Sum(xs))
  }

  function FromTerms(n: nat, an: real, c: real, s: real): Polynomial {
    Polynomial(n, (an - 1.0) * c, an * s * c)
  }

  lemma WeightedPositive(xs: seq<real>)
    requires Positive(xs) && xs != []
    ensures Weighted(xs) > 0.0 && Sum(xs) > 0.0
  {
    PowerPositive(|xs| as real, |xs|);
    PositiveFolds(xs);
  }

  lemma CurvePolynomialValid(amp: real, xs: seq<real>)
    requires amp >= 1.0 && Positive(xs) && xs != []
    ensures CurvePolynomial(amp, xs).Valid()
    ensures CurvePolynomial(amp, xs).b * Sum(xs) <= CurvePolynomial(amp, xs).t
  {
    PowerAtLeastOne(|xs| as real, |xs|);
    ProductMonotone(1.0, amp, 1.0, Power(|xs| as real, |xs|));
    WeightedPositive(xs);
    hide Weighted;
    hide Amplified;
    TermsInRange(Amplified(amp, |xs|), Weighted(xs), Sum(xs));
  }

  lemma TermsInRange(an: real, c: real, s: real)
    requires an >= 1.0 && c > 0.0 && s > 0.0
    ensures (an - 1.0) * c >= 0.0 && an * s * c > 0.0
    ensures (an - 1.0) * c * s <= an * s * c
  {
    assert an * s > 0.0;
    assert c * s > 0.0;
    assert (an - 1.0) * c * s == an * s * c - c * s;
  }

  /** The initial guess, the sum of the reserves, is never below the root. */
  lemma SumIsAboveRoot(amp: real, xs: seq<real>)
    requires Positive(xs) && xs != []
    ensures CurvePolynomial(amp, xs).At(Sum(xs)) >= 0.0
  {
    hide Amplified;
    hide Weighted;
    hide FromTerms;
    hide Power;
    WeightBelowPower(xs);
    WeightedPositive(xs);
    ValueAtSum(|xs|, Amplified(amp, |xs|), Weighted(xs), Sum(xs));
  }

  /** `n^n` times the product is at most the sum's power. */
  lemma WeightBelowPower(xs: seq<real>)
    requires Positive(xs) && xs != []
    ensures Weighted(xs) <= Power(Sum(xs), |xs|)
  {
    hide Power;
    var n := |xs|;
    var nn, mean := Power(n as real, n), Sum(xs) / n as real;
    MeansInequality(xs);
    PowerPositive(n as real, n);
    PowerOfProduct(mean, n as real, Sum(xs), n);
    PositiveFolds(xs);
    ProductMonotone(Product(xs), Power(mean, n), nn, nn);
  }

  lemma ValueAtSum(n: nat, an: real, c: real, s: real)
    requires s > 0.0 && c <= Power(s, n)
    ensures FromTerms(n, an, c, s).At(s) >= 0.0
  {
    hide Power;
    NextPower(s, n);
    SumValue(an, c, s, Power(s, n));
  }

  lemma SumValue(an: real, c: real, s: real, q: real)
    requires s > 0.0 && c <= q
    ensures Times(q, s) + Times((an - 1.0) * c, s) - an * s * c >= 0.0
  {
    ProductMonotone(0.0, q - c, 0.0, s);
    assert (an - 1.0) * c * s == an * s * c - c * s;
    assert (q - c) * s == q * s - c * s;
  }

  /** `A n^n sum + D = A n^n D + D^(n+1) / (n^n product)` */
  predicate StableEquation(amp: real, xs: seq<real>, d: real)
    requires Weighted(xs) > 0.0
  {
    Equation(Amplified(amp, |xs|), Sum(xs), d, Power(d, |xs| + 1), Weighted(xs))
  }

  predicate Equation(an: real, sum: real, d: real, power: real, weighted: real)
    requires weighted > 0.0
  {
    an * sum + d == an * d + power / weighted
  }

  /** `D` satisfies the stable curve's equation exactly when it is a root. */
  lemma RootSatisfiesEquation(amp: real, xs: seq<real>, d: real)
    requires Positive(xs) && xs != []
    ensures Weighted(xs) > 0.0
    ensures CurvePolynomial(amp, xs).At(d) == 0.0 <==> StableEquation(amp, xs, d)
  {
    hide Weighted;
    hide Amplified;
    hide FromTerms;
    hide Power;
    hide Sum;
    hide Product;
    hide Equation;
    WeightedPositive(xs);
    EquationTimesWeight(|xs|, Amplified(amp, |xs|), Weighted(xs), Sum(xs), d);
  }

  lemma EquationTimesWeight(n: nat, an: real, c: real, s: real, d: real)
    requires c > 0.0
    ensures FromTerms(n, an, c, s).At(d) == 0.0 <==> Equation(an, s, d, Power(d, n + 1), c)
  {
    var p := Power(d, n + 1);
    var q := p / c;
    assert q * c == p;
    WeightTimesGap(an, c, s, d, q);
  }

  lemma WeightTimesGap(an: real, c: real, s: real, d: real, q: real)
    requires c > 0.0
    ensures q * c + (an - 1.0) * c * d - an * s * c == 0.0 <==> an * s + d == an * d + q
  {
    var gap := an * d + q - an * s - d;
    assert c * gap == q * c + (an - 1.0) * c * d - an * s * c by {
      assert c * gap == an * d * c + q * c - an * s * c - d * c;
      assert (an - 1.0) * c * d == an * d * c - d * c;
    }
    SignOfProduct(c, gap);
  }

  /** The polynomial lies above its tangents. */
  lemma AboveTangent(p: Polynomial, d: real, e: real)
    requires p.Valid() && d > 0.0 && e >= 0.0
    ensures p.At(d) + p.DerivativeAt(d) * (e - d) <= p.At(e)
  {
    PowerAboveTangent(d, e, p.n + 1);
    hide Power;
    TangentTerms(p.b, (p.n as real + 1.0) * Power(d, p.n), d, e);
  }

  lemma TangentTerms(b: real, slope: real, d: real, e: real)
    ensures Times(b, e) == Times(b, d) + b * (e - d)
    ensures (slope + b) * (e - d) == slope * (e - d) + b * (e - d)
  {
  }

  lemma DerivativePositive(p: Polynomial, d: real)
    requires p.Valid() && d > 0.0
    ensures p.DerivativeAt(d) > 0.0
  {
    PowerPositive(d, p.n);
    assert (p.n as real + 1.0) * Power(d, p.n) > 0.0;
  }

  lemma StrictlyIncreasing(p: Polynomial, d: real, e: real)
    requires p.Valid() && 0.0 <= d < e
    ensures p.At(d) < p.At(e)
  {
    PowerMonotone(d, e, p.n);
    PowerPositive(e, p.n);
    assert (Power(e, p.n) - Power(d, p.n)) * d >= 0.0;
    assert Power(e, p.n) * (e - d) > 0.0;
    assert p.b * (e - d) >= 0.0;
  }

  predicate Root(p: Polynomial, r: real) {
    r > 0.0 && p.At(r) == 0.0
  }

  /** There is one positive root at most, and it separates the signs. */
  lemma RootSeparates(p: Polynomial, r: real, d: real)
    requires p.Valid() && Root(p, r) && d >= 0.0
    ensures p.At(d) >= 0.0 <==> d >= r
    ensures p.At(d) == 0.0 <==> d == r
  {
    if d < r {
      StrictlyIncreasing(p, d, r);
    } else if d > r {
      StrictlyIncreasing(p, r, d);
    }
  }

  // ---- Newton's method ----

  /** One iteration. */
  function Newton(p: Polynomial, d: real): real
    requires p.Valid() && d > 0.0
  {
    DerivativePositive(p, d);
    d - p.At(d) / p.DerivativeAt(d)
  }

  lemma NewtonEquation(p: Polynomial, d: real)
    requires p.Valid() && d > 0.0
    ensures p.DerivativeAt(d) > 0.0 && p.DerivativeAt(d) * (d - Newton(p, d)) == p.At(d)
    ensures p.DerivativeAt(d) * Newton(p, d) == p.n as real * Power(d, p.n + 1) + p.t
  {
    DerivativePositive(p, d);
    var v, f := p.DerivativeAt(d), p.At(d);
    assert v * (f / v) == f;
    assert v * d == (p.n as real + 1.0) * Power(d, p.n + 1) + p.b * d by {
      assert (p.n as real + 1.0) * Power(d, p.n) * d == (p.n as real + 1.0) * (Power(d, p.n) * d);
    }
    assert v * Newton(p, d) == v * d - v * (f / v);
  }

  /** From a point at or above the root the iterate stays positive and at or above the root,
      never increases, and repeats exactly at the root. */
  lemma NewtonDescends(p: Polynomial, d: real)
    requires p.Valid() && d > 0.0 && p.At(d) >= 0.0
    ensures 0.0 < Newton(p, d) <= d && p.At(Newton(p, d)) >= 0.0
    ensures Newton(p, d) == d <==> p.At(d) == 0.0
  {
    NewtonEquation(p, d);
    var v, e := p.DerivativeAt(d), Newton(p, d);
    PowerPositive(d, p.n + 1);
    assert p.n as real * Power(d, p.n + 1) > 0.0;
    SignOfProduct(v, e);
    SignOfProduct(v, d - e);
    AboveTangent(p, d, e);
    assert v * (e - d) == -(v * (d - e));
  }

  /** From any point the next iterate is at or above every point at which the polynomial is at
      most 0. */
  lemma NewtonAbove(p: Polynomial, d: real, z: real)
    requires p.Valid() && d > 0.0 && z >= 0.0 && p.At(z) <= 0.0
    ensures Newton(p, d) >= z
  {
    hide p.At;
    hide p.DerivativeAt;
    hide Newton;
    NewtonEquation(p, d);
    AboveTangent(p, d, z);
    var v, e := p.DerivativeAt(d), Newton(p, d);
    assert v * (e - z) == v * (d - z) - v * (d - e);
    assert v * (z - d) == -(v * (d - z));
    SignOfProduct(v, e - z);
  }

  /** The next iterate is above a point below at which the polynomial is at least 0 by at most
      `n` times the step. */
  lemma NewtonWithin(p: Polynomial, d: real, z: real)
    requires p.Valid() && d > 0.0 && 0.0 <= z <= d && p.At(z) >= 0.0
    ensures Newton(p, d) - z <= p.n as real * (d - Newton(p, d))
  {
    hide p.At;
    hide p.DerivativeAt;
    hide Newton;
    NewtonEquation(p, d);
    AboveChord(p, d, z);
    var v, n, e := p.DerivativeAt(d), p.n as real, Newton(p, d);
    assert v * ((n + 1.0) * (d - e) - (d - z)) == (n + 1.0) * (v * (d - e)) - v * (d - z);
    SignOfProduct(v, (n + 1.0) * (d - e) - (d - z));
  }

  /** Between two points of which the lower has a value of at least 0, the value rises by at
      least the `1/(n+1)`th part of the upper tangent's rise. */
  lemma AboveChord(p: Polynomial, d: real, z: real)
    requires p.Valid() && d > 0.0 && 0.0 <= z <= d && p.At(z) >= 0.0
    ensures (p.n as real + 1.0) * p.At(d) >= p.DerivativeAt(d) * (d - z)
  {
    PowerMonotone(z, d, p.n);
    NextPower(z, p.n);
    NextPower(d, p.n);
    hide Power;
    ChordTerms(p.n as real, p.b, p.t, Power(d, p.n), Power(z, p.n), d, z);
  }

  lemma ChordTerms(n: real, b: real, t: real, q: real, r: real, d: real, z: real)
    requires n >= 0.0 && b >= 0.0 && 0.0 <= z <= d && r <= q && Times(r, z) + Times(b, z) - t >= 0.0
    ensures (n + 1.0) * (Times(q, d) + Times(b, d) - t) >= ((n + 1.0) * q + b) * (d - z)
  {
    var l := d - z;
    ProductMonotone(0.0, q - r, 0.0, z);
    assert q * d + b * d - t >= q * l + b * l by {
      assert q * d - q * z == q * l;
      assert b * d - b * z == b * l;
      assert (q - r) * z == q * z - r * z;
    }
    ProductMonotone(0.0, b, 0.0, l);
    ProductMonotone(0.0, n, 0.0, b * l);
    ProductMonotone(0.0, n + 1.0, 0.0, q * d + b * d - t - (q * l + b * l));
    assert ((n + 1.0) * q + b) * l == (n + 1.0) * (q * l + b * l) - n * (b * l);
  }

  /** An iteration removes at least the `1/(n+1)`th part of the distance to the root. */
  lemma NewtonContracts(p: Polynomial, d: real, r: real)
    requires p.Valid() && d > 0.0 && Root(p, r) && d >= r
    ensures Newton(p, d) >= r
    ensures (p.n as real + 1.0) * (Newton(p, d) - r) <= p.n as real * (d - r)
  {
    hide Power;
    hide Newton;
    NewtonAbove(p, d, r);
    NewtonWithin(p, d, r);
    var n, e := p.n as real, Newton(p, d);
    assert n * (d - r) == n * (d - e) + n * (e - r);
  }

  /** A step of at most one half leaves the iterate within `n/2` of the root. */
  lemma SmallStepIsClose(p: Polynomial, d: real, r: real)
    requires p.Valid() && d > 0.0 && Root(p, r) && d >= r
    requires d - Newton(p, d) <= ADMISSIBLE_ERROR
    ensures 0.0 <= Newton(p, d) - r <= p.n as real / 2.0
  {
    NewtonContracts(p, d, r);
    HalfStep(p.n as real, d - Newton(p, d), Newton(p, d) - r);
  }

  lemma HalfStep(n: real, step: real, rest: real)
    requires n >= 0.0 && step <= 0.5 && (n + 1.0) * rest <= n * (step + rest)
    ensures rest <= n / 2.0
  {
    assert n * (step + rest) == n * step + n * rest;
    assert n * (0.5 - step) >= 0.0;
  }

  /** Scaling all reserves scales the invariant: computing with scaled-down reserves and
      scaling the result back up changes nothing. */
  lemma ScalingScalesRoot(amp: real, xs: seq<real>, k: real, r: real)
    requires k > 0.0
    ensures Root(CurvePolynomial(amp, Scaled(xs, k)), Times(k, r)) <==> Root(CurvePolynomial(amp, xs), r)
  {
    ScaledCurveValue(amp, xs, k, r);
    PowerPositive(k, |xs| + 1);
    hide CurvePolynomial;
    hide Power;
    hide Scaled;
    SignOfProduct(Power(k, |xs| + 1), CurvePolynomial(amp, xs).At(r));
    SignOfProduct(k, r);
  }

  lemma ScaledCurveValue(amp: real, xs: seq<real>, k: real, r: real)
    ensures CurvePolynomial(amp, Scaled(xs, k)).At(Times(k, r))
            == Times(Power(k, |xs| + 1), CurvePolynomial(amp, xs).At(r))
  {
    hide Power;
    hide Sum;
    hide Product;
    hide Weighted;
    hide Amplified;
    hide Scaled;
    hide FromTerms;
    hide Times;
    ScaledSum(xs, k);
    ScaledProduct(xs, k);
    ScaledWeight(xs, Scaled(xs, k), Power(k, |xs|));
    ScaledTerms(|xs|, Amplified(amp, |xs|), Weighted(xs), Sum(xs), k, r);
  }

  lemma ScaledWeight(xs: seq<real>, ys: seq<real>, f: real)
    requires |ys| == |xs| && Product(ys) == Times(f, Product(xs))
    ensures Weighted(ys) == Times(f, Weighted(xs))
  {
    hide Power;
    hide Product;
    Regroup(Power(|xs| as real, |xs|), f, Product(xs), Product(ys));
  }

  lemma ScaledTerms(n: nat, an: real, c: real, s: real, k: real, r: real)
    ensures FromTerms(n, an, Times(Power(k, n), c), Times(k, s)).At(Times(k, r))
            == Times(Power(k, n + 1), FromTerms(n, an, c, s).At(r))
  {
    hide Power;
    hide Times;
    hide FromTerms;
    var f, p := Power(k, n), FromTerms(n, an, c, s);
    ScaledCoefficients(n, an, c, s, f, k);
    NextPower(k, n);
    PowerOfTimes(k, r, n + 1);
    ProductStep(k, r, f, p.b);
    Distribute(Times(f, k), Power(r, n + 1), Times(p.b, r), p.t);
  }

  lemma ScaledCoefficients(n: nat, an: real, c: real, s: real, f: real, k: real)
    ensures var p, p' := FromTerms(n, an, c, s), FromTerms(n, an, Times(f, c), Times(k, s));
            && p.n == n && p'.n == n && p'.b == Times(f, p.b) && p'.t == Times(Times(f, k), p.t)
  {
    assert an * (k * s) * (f * c) == (f * k) * (an * s * c);
  }

  lemma Distribute(g: real, q: real, u: real, v: real)
    ensures Times(g, q + u - v) == Times(g, q) + Times(g, u) - Times(g, v)
  {
  }

  // ---- the loop ----

  datatype Curve = Curve(p: Polynomial, initialGuess: real, sclDownCoef: real) {

    predicate Valid() {
      && p.Valid() && initialGuess > 0.0 && p.At(initialGuess) >= 0.0
      && p.b * initialGuess <= p.t
    }
  }

  /** The curve of the scaled-down reserves, with their sum as the initial guess. */
  function NewCurve(amp: real, xs: seq<real>, coef: real): (c: Curve)
    requires amp >= 1.0 && Positive(xs) && xs != [] && coef > 0.0
    ensures c.Valid() && c.p.n == |xs| && c.sclDownCoef == coef
    ensures c.p == CurvePolynomial(amp, Scaled(xs, 1.0 / coef)) && c.initialGuess == Sum(Scaled(xs, 1.0 / coef))
  {
    var ys := Scaled(xs, 1.0 / coef);
    ScaledPositive(xs, 1.0 / coef);
    CurvePolynomialValid(amp, ys);
    SumIsAboveRoot(amp, ys);
    PositiveFolds(ys);
    Curve(CurvePolynomial(amp, ys), Sum(ys), coef)
  }

  /** Iterates from the initial guess on: strictly descending and never below the root. */
  ghost predicate NewtonRun(c: Curve, trace: seq<real>)
    requires c.Valid()
  {
    && trace != [] && trace[0] == c.initialGuess
    && (forall i :: 0 <= i < |trace| ==> trace[i] > 0.0 && c.p.At(trace[i]) >= 0.0)
    && forall i :: 0 < i < |trace| ==> trace[i] == Newton(c.p, trace[i - 1]) && trace[i] < trace[i - 1]
  }

  /** Why the loop ended. */
  ghost predicate Finished(c: Curve, trace: seq<real>)
    requires c.Valid() && NewtonRun(c, trace)
  {
    || c.p.At(trace[|trace| - 1]) == 0.0
    || (|trace| > 1 && trace[|trace| - 2] - trace[|trace| - 1] <= ADMISSIBLE_ERROR)
    || |trace| == MAX_ITERATIONS + 1
  }

  /** The iteration never meets the case that the implementation reports as a violated
      assumption. */
  method Compute(c: Curve) returns (r: Result<real>, ghost trace: seq<real>)
    requires c.Valid()
    ensures r.Ok? && NewtonRun(c, trace) && |trace| <= MAX_ITERATIONS + 1 && Finished(c, trace)
    ensures r.value == Times(trace[|trace| - 1], c.sclDownCoef)
  {
    hide Power;
    hide Newton;
    hide c.p.At;
    hide Times;
    var prevVal := c.initialGuess;
    var newVal := prevVal;
    trace := [newVal];
    var i := 0;
    while i < MAX_ITERATIONS
      invariant i <= MAX_ITERATIONS && |trace| == i + 1
      invariant NewtonRun(c, trace) && newVal == trace[|trace| - 1]
    {
      prevVal := newVal;
      newVal := Newton(c.p, prevVal);
      NewtonDescends(c.p, prevVal);
      if prevVal <= newVal {
        if c.p.At(prevVal) == 0.0 {
          return Ok(Times(prevVal, c.sclDownCoef)), trace;
        }
        return Err(InvariantViolation), trace;
      }
      trace := trace + [newVal];
      i := i + 1;
      if prevVal - newVal <= ADMISSIBLE_ERROR {
        break;
      }
    }
    r := Ok(Times(newVal, c.sclDownCoef));
  }

  // ---- when the loop stops ----

  /** The distance to the root shrinks geometrically. */
  lemma {:induction false} RunContracts(c: Curve, trace: seq<real>, r: real, q: real, k: nat)
    requires c.Valid() && NewtonRun(c, trace) && Root(c.p, r) && k < |trace|
    requires q >= 0.0 && (c.p.n as real + 1.0) * q >= c.p.n as real
    ensures 0.0 <= trace[k] - r <= Power(q, k) * (trace[0] - r)
  {
    RootSeparates(c.p, r, trace[k]);
    if k > 0 {
      var d, n, w := trace[k - 1], c.p.n as real, Power(q, k - 1);
      RunContracts(c, trace, r, q, k - 1);
      NewtonContracts(c.p, d, r);
      ShrinkBy(n, q, d - r, trace[k] - r);
      ShrinkAgain(q, w, d - r, trace[0] - r);
      assert Power(q, k) == w * q;
    }
  }

  lemma ShrinkAgain(q: real, w: real, e: real, first: real)
    requires q >= 0.0 && 0.0 <= e <= w * first
    ensures q * e <= w * q * first
  {
    assert q * (w * first - e) >= 0.0;
    assert q * (w * first - e) == w * q * first - q * e;
  }

  lemma ShrinkBy(n: real, q: real, before: real, after: real)
    requires n > 0.0 && before >= 0.0 && (n + 1.0) * after <= n * before && (n + 1.0) * q >= n
    ensures after <= q * before
  {
    assert ((n + 1.0) * q - n) * before >= 0.0;
    assert (n + 1.0) * (q * before) == (n + 1.0) * q * before;
    SignOfProduct(n + 1.0, q * before - after);
    assert (n + 1.0) * (q * before - after) == (n + 1.0) * (q * before) - (n + 1.0) * after;
  }

  /** Powers by squaring, for the two contraction factors. */
  lemma {:induction false} ThirtyFirstPower(q: real, bound10: real)
    requires q > 0.0 && Power(q, 10) <= bound10
    ensures 0.0 < Power(q, 31) <= bound10 * bound10 * bound10 * q
  {
    var t := Power(q, 10);
    PowerPositive(q, 10);
    PowerPositive(q, 31);
    PowerAdds(q, 10, 10);
    PowerAdds(q, 20, 10);
    ProductMonotone(t, bound10, t, bound10);
    ProductMonotone(t * t, bound10 * bound10, t, bound10);
    ProductMonotone(t * t * t, bound10 * bound10 * bound10, q, q);
    assert Power(q, 31) == Power(q, 30) * q;
  }

  lemma ContractionFactors()
    ensures 0.0 < Power(0.75, 31) <= 0.0002 && 0.0 < Power(0.8, 31) <= 0.0009906
  {
    SmallPowers(0.75);
    PowerAdds(0.75, 5, 5);
    ThirtyFirstPower(0.75, 0.0564);
    SmallPowers(0.8);
    PowerAdds(0.8, 5, 5);
    ThirtyFirstPower(0.8, 0.10738);
  }

  /** With at most four reserves and a guess of at most 1000 the last possible step is below
      the admissible error, so it is never the iteration limit that decides. */
  lemma LimitIsNeverDecisive(c: Curve, trace: seq<real>, r: real)
    requires c.Valid() && c.p.n <= 4 && c.initialGuess <= 1000.0 && Root(c.p, r)
    requires NewtonRun(c, trace) && |trace| == MAX_ITERATIONS + 1
    ensures trace[MAX_ITERATIONS - 1] - trace[MAX_ITERATIONS] <= ADMISSIBLE_ERROR
  {
    hide Power;
    hide Newton;
    RootSeparates(c.p, r, trace[32]);
    LateIterate(c, trace, r);
    if c.p.n == 4 && trace[31] - r > 0.5 {
      RunDescends(c, trace, 31);
      FourReservesStep(c.p, c.initialGuess, trace[31], r, r);
    }
  }

  /** How close the second to last possible iterate is to the root. */
  lemma LateIterate(c: Curve, trace: seq<real>, r: real)
    requires c.Valid() && c.p.n <= 4 && c.initialGuess <= 1000.0 && Root(c.p, r)
    requires NewtonRun(c, trace) && |trace| == MAX_ITERATIONS + 1
    ensures c.p.n <= 3 || r >= 1.0 ==> trace[31] - r <= 0.5
    ensures trace[31] - r <= 0.991
  {
    hide Power;
    hide Newton;
    ContractionFactors();
    RootSeparates(c.p, r, trace[0]);
    RunContracts(c, trace, r, 0.8, 31);
    ProductMonotone(Power(0.8, 31), 0.0009906, trace[0] - r, 1000.0);
    if c.p.n <= 3 {
      RunContracts(c, trace, r, 0.75, 31);
      ProductMonotone(Power(0.75, 31), 0.0002, trace[0] - r, 1000.0);
    } else if r >= 1.0 {
      FarIterate(c, trace, r);
    }
  }

  lemma FarIterate(c: Curve, trace: seq<real>, r: real)
    requires c.Valid() && c.p.n == 4 && c.initialGuess <= 1000.0 && Root(c.p, r) && r >= 1.0
    requires NewtonRun(c, trace) && |trace| == MAX_ITERATIONS + 1
    ensures trace[31] - r <= 0.5
  {
    hide Power;
    hide Newton;
    if trace[31] - r > 0.5 {
      ContractionFactors();
      RunDescends(c, trace, 31);
      FarRunContracts(c, trace, r, 31);
      ProductMonotone(Power(0.8, 31), 0.0009906, trace[0] - (r - 0.5), 1000.0);
    }
  }

  lemma {:induction false} RunDescends(c: Curve, trace: seq<real>, k: nat)
    requires c.Valid() && NewtonRun(c, trace) && k < |trace|
    ensures trace[k] <= c.initialGuess
  {
    if k > 0 {
      RunDescends(c, trace, k - 1);
    }
  }

  /** Four reserves and a root of at least 1: while the iterates are more than one half above
      the root, they even contract towards a point one half below it. */
  lemma {:induction false} FarRunContracts(c: Curve, trace: seq<real>, r: real, k: nat)
    requires c.Valid() && c.p.n == 4 && Root(c.p, r) && r >= 1.0
    requires NewtonRun(c, trace) && k < |trace| && trace[k] > r + 0.5
    ensures trace[k] - (r - 0.5) <= Power(0.8, k) * (trace[0] - (r - 0.5))
  {
    hide *;
    if k == 0 {
      PowerUnfolds(0.8, 0);
    } else {
      var d, w := trace[k - 1], Power(0.8, k - 1);
      StepOfRun(c, trace, k);
      FarRunContracts(c, trace, r, k - 1);
      RootPositive(c.p, r);
      FarStep(c.p, d, r);
      PowerUnfolds(0.8, k);
      ShrinkAgain(0.8, w, d - (r - 0.5), trace[0] - (r - 0.5));
    }
  }

  lemma RootPositive(p: Polynomial, r: real)
    requires Root(p, r)
    ensures r > 0.0 && p.At(r) >= 0.0
  {
  }

  lemma StepOfRun(c: Curve, trace: seq<real>, k: nat)
    requires c.Valid() && NewtonRun(c, trace) && 0 < k < |trace|
    ensures c.p.Valid() && trace[k - 1] > 0.0 && trace[k] == Newton(c.p, trace[k - 1]) && trace[k] < trace[k - 1]
  {
    hide Newton;
    hide Power;
  }

  lemma PowerUnfolds(x: real, k: nat)
    ensures Power(x, 0) == 1.0 && (k > 0 ==> Power(x, k) == Power(x, k - 1) * x)
  {
  }

  lemma FarStep(p: Polynomial, d: real, r: real)
    requires p.Valid() && p.n == 4 && p.At(r) >= 0.0 && r >= 1.0 && d > r + 0.5
    ensures Newton(p, d) - (r - 0.5) <= 0.8 * (d - (r - 0.5))
  {
    hide Power;
    hide Newton;
    NewtonEquation(p, d);
    FifthPowerBound(r);
    PowerMonotone(r + 0.5, d, 4);
    ProductMonotone(Power(r + 0.5, 4), Power(d, 4), r - 0.5, r - 0.5);
    FarTarget(p.b, p.t, d, r, Power(d, 4), Power(r, 5), Newton(p, d));
  }

  lemma FarTarget(b: real, t: real, d: real, r: real, q: real, r5: real, next: real)
    requires b >= 0.0 && r >= 1.0 && d > r + 0.5 && 5.0 * q + b > 0.0
    requires r5 + b * r >= t && r5 <= q * (r - 0.5)
    requires (5.0 * q + b) * next == 4.0 * (q * d) + t
    ensures next - (r - 0.5) <= 0.8 * (d - (r - 0.5))
  {
    var v, target := 5.0 * q + b, 0.8 * d + 0.2 * (r - 0.5);
    var slack := target - r;
    assert b * slack >= 0.0;
    assert v * target == 4.0 * (q * d) + q * (r - 0.5) + b * target;
    assert b * target == b * slack + b * r;
    assert v * (target - next) == v * target - v * next;
    SignOfProduct(v, target - next);
  }

  lemma FifthPowerBound(r: real)
    requires r >= 1.0
    ensures Power(r, 5) <= Power(r + 0.5, 4) * (r - 0.5)
  {
    hide Power;
    SmallPowers(r);
    SmallPowers(r + 0.5);
    var s, y := r * r, (r + 0.5) * (r + 0.5);
    assert y == s + r + 0.25;
    SameProduct(y, s + r + 0.25, y);
    SameProduct(y, s + r + 0.25, s + r + 0.25);
    SameProduct(Power(r + 0.5, 4), s * s + 2.0 * (s * r) + 1.5 * s + 0.5 * r + 0.0625, r - 0.5);
    ProductMonotone(1.0, r, r, r);
    ProductMonotone(1.0, s, r, r);
    ProductMonotone(1.0, s, s, s);
    assert r <= s && s <= s * s && r <= s * r;
    var q := s * s + 2.0 * (s * r) + 1.5 * s + 0.5 * r + 0.0625;
    assert Power(r + 0.5, 4) * (r - 0.5) == q * (r - 0.5);
    assert q * (r - 0.5) == s * s * r + 1.5 * (s * s) + 0.5 * (s * r) - 0.25 * s - 0.1875 * r - 0.03125;
    assert Power(r, 5) == s * s * r;
  }

  /** Four reserves and a root below 1: near the end a step is below the admissible error. Two
      points around the root are enough. */
  lemma FourReservesStep(p: Polynomial, guess: real, d: real, lo: real, hi: real)
    requires p.Valid() && p.n == 4 && p.b * guess <= p.t && p.At(lo) <= 0.0 <= p.At(hi)
    requires 0.0 <= lo <= hi && 0.0 < hi < 1.0 && hi + 0.49 < d <= lo + 0.991 && d <= guess
    ensures d - Newton(p, d) <= 0.499
  {
    hide Power;
    hide Newton;
    NewtonEquation(p, d);
    PowerPositive(hi, 4);
    PowerMonotone(0.0, lo, 5);
    FourthPowerBound(hi, d);
    NextPower(hi, 4);
    NextPower(d, 4);
    LinearTermBound(p.b, p.t, guess, hi, Power(hi, 4));
    NearValue(p.b, d - lo, d, Power(d, 4), Power(hi, 4));
    ValueFromBelow(p.b, p.t, d, lo, Power(d, 4) * d, Power(lo, 5));
    StepAtMost(p.DerivativeAt(d), d - Newton(p, d), p.At(d), 0.499);
  }

  lemma ValueFromBelow(b: real, t: real, d: real, lo: real, d5: real, lo5: real)
    requires lo5 + b * lo <= t && lo5 >= 0.0
    ensures d5 + b * d - t <= d5 + b * (d - lo)
  {
    assert b * (d - lo) == b * d - b * lo;
  }

  /** The linear coefficient is small beside the root's fourth power. */
  lemma LinearTermBound(b: real, t: real, guess: real, r: real, r4: real)
    requires b >= 0.0 && guess - r >= 0.49 && r4 > 0.0 && 0.0 < r < 1.0
    requires b * guess <= t && r4 * r + b * r >= t
    ensures b <= 2.05 * r4
  {
    var gap := guess - r;
    calc {
      b * 0.49;
    <= { ProductMonotone(b, b, 0.49, gap); }
      b * gap;
    <= { assert b * gap == b * guess - b * r; }
      r4 * r;
    <= { ProductMonotone(r4, r4, r, 1.0); }
      r4 * 1.0;
    }
  }

  lemma NearValue(b: real, gap: real, d: real, q: real, r4: real)
    requires b >= 0.0 && 0.0 < gap <= 0.991 && 0.0 <= d <= 1.991
    requires 0.0 < 4.0 * r4 <= q && b <= 2.05 * r4
    ensures q * d + b * gap <= 0.499 * (5.0 * q + b)
  {
    ProductMonotone(q, q, d, 1.991);
    ProductMonotone(b, b, gap, 0.991);
    NearTerms(q * d, b * gap, q, b, r4);
  }

  lemma NearTerms(qd: real, bGap: real, q: real, b: real, r4: real)
    requires 0.0 < 4.0 * r4 <= q && b <= 2.05 * r4
    requires qd <= 1.991 * q && bGap <= 0.991 * b
    ensures qd + bGap <= 0.499 * (5.0 * q + b)
  {
  }

  lemma StepAtMost(v: real, step: real, f: real, bound: real)
    requires v > 0.0 && v * step == f && f <= bound * v
    ensures step <= bound
  {
    assert v * (bound - step) == bound * v - f;
    SignOfProduct(v, bound - step);
  }

  lemma FourthPowerBound(r: real, d: real)
    requires 0.0 < r < 1.0 && d > r + 0.49
    ensures 4.0 * Power(r, 4) <= Power(d, 4)
  {
    var s, t := r * r, d * d;
    SmallPowers(r);
    SmallPowers(d);
    ProductMonotone(1.49 * r, d, 1.49 * r, d);
    assert (1.49 * r) * (1.49 * r) == 2.2201 * s;
    ProductMonotone(2.0 * s, t, 2.0 * s, t);
    assert (2.0 * s) * (2.0 * s) == 4.0 * (s * s);
  }

  /** A finished run ends within `n/2` of the root, and not below it. */
  lemma FinishedNearRoot(c: Curve, trace: seq<real>, r: real)
    requires c.Valid() && c.p.n <= 4 && c.initialGuess <= 1000.0 && Root(c.p, r)
    requires NewtonRun(c, trace) && Finished(c, trace)
    ensures 0.0 <= trace[|trace| - 1] - r <= c.p.n as real / 2.0
  {
    var last := trace[|trace| - 1];
    RootSeparates(c.p, r, last);
    if c.p.At(last) != 0.0 {
      if |trace| == MAX_ITERATIONS + 1 {
        LimitIsNeverDecisive(c, trace, r);
      }
      RootSeparates(c.p, r, trace[|trace| - 2]);
      SmallStepIsClose(c.p, trace[|trace| - 2], r);
    }
  }

  /** The whole computation: from reserves scaled down to a sum of at most 1000, the result
      lies between the invariant and `n/2` scaled units above it, and never above the sum of
      the reserves. */
  method ComputeInvariant(amp: real, xs: seq<real>, coef: real, ghost exact: real) returns (r: Result<real>)
    requires amp >= 1.0 && Positive(xs) && 0 < |xs| <= 4 && coef > 0.0 && Sum(xs) <= 1000.0 * coef
    requires Root(CurvePolynomial(amp, xs), exact)
    ensures r.Ok? && exact <= r.value <= exact + coef * (|xs| as real / 2.0)
    ensures r.value <= Sum(xs)
  {
    assert Times(coef, |xs| as real / 2.0) == coef * (|xs| as real / 2.0);
    hide *;
    var curve := NewCurve(amp, xs, coef);
    ghost var trace;
    r, trace := Compute(curve);
    ghost var root := ScaledCurve(amp, xs, 1.0 / coef, curve, exact);
    ResultNearRoot(curve, trace, root, exact, Sum(xs), r.value);
  }

  lemma ScaledCurve(amp: real, xs: seq<real>, k: real, c: Curve, exact: real) returns (root: real)
    requires c.sclDownCoef > 0.0 && k * c.sclDownCoef == 1.0 && Sum(xs) <= 1000.0 * c.sclDownCoef
    requires Root(CurvePolynomial(amp, xs), exact)
    requires c.p == CurvePolynomial(amp, Scaled(xs, k)) && c.initialGuess == Sum(Scaled(xs, k))
    ensures Root(c.p, root) && exact == Times(root, c.sclDownCoef)
    ensures Sum(xs) == Times(c.initialGuess, c.sclDownCoef) && c.initialGuess <= 1000.0
  {
    hide *;
    root := Times(k, exact);
    ScaledSum(xs, k);
    ScaledProduct(xs, k);
    SignOfProduct(c.sclDownCoef, k);
    ScalingScalesRoot(amp, xs, k, exact);
    BackAndForth(k, c.sclDownCoef, exact, root);
    BackAndForth(k, c.sclDownCoef, Sum(xs), c.initialGuess);
    GuessInRange(c.sclDownCoef, c.initialGuess, Sum(xs));
  }

  lemma GuessInRange(coef: real, guess: real, sum: real)
    requires coef > 0.0 && sum == Times(guess, coef) && sum <= 1000.0 * coef
    ensures guess <= 1000.0
  {
    assert coef * (1000.0 - guess) == 1000.0 * coef - sum;
    SignOfProduct(coef, 1000.0 - guess);
  }

  lemma BackAndForth(k: real, coef: real, x: real, scaled: real)
    requires k * coef == 1.0 && scaled == Times(k, x)
    ensures x == Times(scaled, coef)
  {
    assert scaled * coef == (k * coef) * x;
  }

  lemma ResultNearRoot(c: Curve, trace: seq<real>, root: real, exact: real, sum: real, value: real)
    requires c.Valid() && c.p.n <= 4 && c.initialGuess <= 1000.0 && c.sclDownCoef > 0.0 && Root(c.p, root)
    requires NewtonRun(c, trace) && Finished(c, trace)
    requires exact == Times(root, c.sclDownCoef) && sum == Times(c.initialGuess, c.sclDownCoef)
    requires value == Times(trace[|trace| - 1], c.sclDownCoef)
    ensures exact <= value <= exact + Times(c.sclDownCoef, c.p.n as real / 2.0) && value <= sum
  {
    FinishedNearRoot(c, trace, root);
    RunDescends(c, trace, |trace| - 1);
    hide *;
    ScaledOrder(c.sclDownCoef, root, trace[|trace| - 1], c.p.n as real / 2.0, c.initialGuess, exact, value, sum);
  }

  lemma ScaledOrder(coef: real, root: real, d: real, slack: real, guess: real, exact: real, value: real, sum: real)
    requires coef > 0.0 && root <= d <= root + slack && d <= guess
    requires exact == Times(root, coef) && value == Times(d, coef) && sum == Times(guess, coef)
    ensures exact <= value <= exact + Times(coef, slack) && value <= sum
  {
    assert coef * (d - root) >= 0.0;
    assert coef * (root + slack - d) >= 0.0;
    assert coef * (guess - d) >= 0.0;
  }
}
