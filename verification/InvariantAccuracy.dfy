/** The computed invariant against the exact one of the same reserves: how the coefficients
    follow from the reserves, and where a computation ends. */
module InvariantAccuracy {
  import opened Results
  import opened FixedPoint
  import opened AmmHelpers
  import opened ExactPowers
  import opened StableInvariant
  import opened InvariantError
  import Exact = NewtonExact

  // ---- the reserves behind the coefficients ----

  /** By what the reserves are scaled down. */
  function Scale(amounts: seq<nat>): (p: nat)
    requires AmountsFit(amounts)
    ensures p > 0
  {
    PowPositive(1000, ScaleExponent(amounts));
    Pow(1000, ScaleExponent(amounts))
  }

  /** The reserves scaled down exactly. */
  function Shrunk(amounts: seq<nat>, p: nat): (ys: seq<real>)
    requires p > 0
    ensures |ys| == |amounts| && forall i :: 0 <= i < |ys| ==> ys[i] == amounts[i] as real / p as real
  {
    seq(|amounts|, i requires 0 <= i < |amounts| => amounts[i] as real / p as real)
  }

  lemma {:induction false} SumOfShrunk(amounts: seq<nat>, p: nat)
    requires p > 0
    ensures Sum(Shrunk(amounts, p)) == SumOf(amounts) as real / p as real
  {
    if amounts != [] {
      var front := amounts[..|amounts| - 1];
      SumOfShrunk(front, p);
      assert Shrunk(amounts, p)[..|amounts| - 1] == Shrunk(front, p);
    }
  }

  /** What truncation may take from the product, in units. */
  function ProductLoss(ys: seq<real>): real {
    if ys == [] then 0.0
    else
      var front, y := ys[..|ys| - 1], ys[|ys| - 1];
      Times(ProductLoss(front), y) + Product(front) + 1.0
  }

  /** The product of the scaled reserves is the exact one of the exactly scaled reserves less
      rounding, and unscaled it is exact. */
  lemma {:induction false} ProductError(amounts: seq<nat>, p: nat)
    requires AmountsFit(amounts) && p > 0 && p * WAD < U192_LIMIT
    requires StableInvariant.ScaledProduct(amounts, p * WAD).Ok?
    ensures var product, ys := Value(StableInvariant.ScaledProduct(amounts, p * WAD).value), Shrunk(amounts, p);
            && product <= Product(ys) <= product + Times(ProductLoss(ys), UNIT)
            && (p == 1 ==> product == Product(ys))
  {
    hide Value;
    hide Times;
    if amounts == [] {
      OneIsOne();
    } else {
      var front, x := amounts[..|amounts| - 1], amounts[|amounts| - 1];
      ProductError(front, p);
      assert Shrunk(amounts, p)[..|amounts| - 1] == Shrunk(front, p);
      var acc := StableInvariant.ScaledProduct(front, p * WAD).value;
      var f := LastFactor(amounts, p, acc);
      hide *;
      ProductUnfolds(Shrunk(amounts, p));
      ProductErrorStep(Value(acc), Product(Shrunk(front, p)), ProductLoss(Shrunk(front, p)), Value(f),
                       Shrunk(amounts, p)[|amounts| - 1],
                       Value(StableInvariant.ScaledProduct(amounts, p * WAD).value), UNIT);
    }
  }

  lemma ProductUnfolds(ys: seq<real>)
    requires ys != []
    ensures var front, y := ys[..|ys| - 1], ys[|ys| - 1];
            && Product(ys) == Times(Product(front), y)
            && ProductLoss(ys) == Times(ProductLoss(front), y) + Product(front) + 1.0
  {
  }

  lemma LastFactor(amounts: seq<nat>, p: nat, acc: Decimal) returns (f: Decimal)
    requires AmountsFit(amounts) && p > 0 && p * WAD < U192_LIMIT && amounts != []
    requires StableInvariant.ScaledProduct(amounts, p * WAD).Ok?
    requires StableInvariant.ScaledProduct(amounts[..|amounts| - 1], p * WAD) == Ok(acc)
    ensures var y, next := Shrunk(amounts, p)[|amounts| - 1],
                           Value(StableInvariant.ScaledProduct(amounts, p * WAD).value);
            && Value(f) <= y <= Value(f) + UNIT && next <= Times(Value(acc), Value(f)) <= next + UNIT
            && (p == 1 ==> next == Times(Value(acc), y))
  {
    hide Value;
    hide Times;
    var x := amounts[|amounts| - 1];
    f := Quotient(FromU64(x) * WAD, p * WAD);
    hide Quotient;
    hide FixedPoint.Scaled;
    ScaledReserve(x, p, f);
    MulError(acc, f);
    if p == 1 {
      WholeReserve(acc, x);
    }
  }

  lemma OneIsOne()
    ensures Value(ONE) == 1.0 && Times(0.0, UNIT) == 0.0
  {
  }

  lemma WholeReserve(acc: nat, x: nat)
    ensures Value(FixedPoint.Scaled(acc * (x * WAD))) == Times(Value(acc), x as real / 1.0)
  {
    assert acc * (x * WAD) == (x * acc) * WAD;
    assert (x * acc) as real == x as real * acc as real;
  }

  lemma ScaledReserve(x: nat, p: nat, f: nat)
    requires p > 0 && p * WAD > 0 && f == Quotient(x * WAD * WAD, p * WAD)
    ensures Value(f) <= x as real / p as real <= Value(f) + UNIT
    ensures p == 1 ==> f == x * WAD
  {
    SameQuotient(x * WAD, p, WAD);
    ValueOfShare(x * WAD, p, f, x as real / p as real);
  }

  lemma ValueOfShare(x: nat, p: nat, f: nat, y: real)
    requires p > 0 && f * p <= x < (f + 1) * p && y * p as real == Value(x)
    ensures Value(f) <= y <= Value(f) + UNIT
  {
    assert (f * p) as real == f as real * p as real;
    assert ((f + 1) * p) as real == (f as real + 1.0) * p as real;
    assert p as real * (y - Value(f)) == (x as real - f as real * p as real) / WHOLE;
    assert p as real * (Value(f) + UNIT - y) == ((f as real + 1.0) * p as real - x as real) / WHOLE;
    SignOfProduct(p as real, y - Value(f));
    SignOfProduct(p as real, Value(f) + UNIT - y);
  }

  lemma ProductErrorStep(a: real, ys: real, loss: real, f: real, y: real, next: real, u: real)
    requires 0.0 <= a <= ys <= a + Times(loss, u) && 0.0 <= f <= y <= f + u && u > 0.0
    requires next <= Times(a, f) <= next + u
    ensures next <= Times(ys, y) <= next + Times(Times(loss, y) + ys + 1.0, u)
  {
    hide Times;
    TimesMonotone(a, ys, f, y);
    TimesMonotone(ys, a + Times(loss, u), y, y);
    TimesMonotone(a, a, y, f + u);
    TimesMonotone(a, ys, u, u);
    ExpandedLoss(a, ys, loss, f, y, u);
  }

  lemma TimesMonotone(p: real, q: real, x: real, y: real)
    requires 0.0 <= p <= q && 0.0 <= x <= y
    ensures Times(p, x) <= Times(q, y)
  {
    ProductMonotone(p, q, x, y);
  }

  lemma ExpandedLoss(a: real, ys: real, loss: real, f: real, y: real, u: real)
    ensures Times(a + Times(loss, u), y) == Times(a, y) + Times(Times(loss, y), u)
    ensures Times(a, f + u) == Times(a, f) + Times(a, u)
    ensures Times(Times(loss, y) + ys + 1.0, u) == Times(Times(loss, y), u) + Times(ys, u) + u
  {
    assert (loss * u) * y == (loss * y) * u;
  }

  // ---- the coefficients ----

  lemma {:induction false} PowAsReal(b: nat, e: nat)
    ensures Pow(b, e) as real == Power(b as real, e)
  {
    if e > 0 {
      PowAsReal(b, e - 1);
      assert (b * Pow(b, e - 1)) as real == b as real * Pow(b, e - 1) as real;
    }
  }

  /** `A n^n` and `n^n` times the computed product. */
  lemma WeightsAsReal(amp: nat, n: nat, product: nat)
    ensures (amp * Pow(n, n)) as real == Exact.Amplified(amp as real, n)
    ensures Value(Pow(n, n) * product) == Exact.WeightedProduct(n, Value(product))
  {
    PowAsReal(n, n);
    assert (amp * Pow(n, n)) as real == amp as real * Pow(n, n) as real;
    assert (Pow(n, n) * product) as real == Pow(n, n) as real * product as real;
  }

  lemma LinearAsReal(an: nat, weighted: nat)
    requires an > 0
    ensures Value(LinearTerm(an, weighted)) == Times(an as real - 1.0, Value(weighted))
  {
    assert ((an - 1) * weighted) as real == (an - 1) as real * weighted as real;
  }

  lemma ConstantAsReal(an: nat, s: nat, weighted: nat, p: nat)
    requires p > 0
    ensures var t, exact := Value(ConstantTerm(an, s, weighted, p)),
                            Times(Times(an as real, s as real / p as real), Value(weighted));
            t <= exact <= t + UNIT && (p == 1 ==> t == exact)
  {
    var y := s as real / p as real;
    assert y * p as real == s as real;
    assert (an * s) as real == an as real * s as real;
    assert (an * s * weighted) as real == (an * s) as real * weighted as real;
    var exact := Times(Times(an as real, y), Value(weighted));
    assert exact * p as real == Value(an * s * weighted);
    ValueOfShare(an * s * weighted, p, ConstantTerm(an, s, weighted, p), exact);
  }

  /** With the computed product for the exact one, the curve's linear coefficient is exact and
      its constant one is short by at most the smallest decimal. */
  lemma CurveAsReal(c: Curve, amp: nat, amounts: seq<nat>) returns (product: real, an: real)
    requires AmountsFit(amounts) && CurveFor(c, amp, amounts)
    ensures var ys := Shrunk(amounts, Scale(amounts));
            var w := Exact.WeightedProduct(|amounts|, product);
            && 0.000000000001 <= product <= Product(ys) <= product + Times(ProductLoss(ys), UNIT)
            && an == Exact.Amplified(amp as real, |amounts|) && an >= 1.0
            && Of(c).n == |amounts| && Of(c).b == Times(an - 1.0, w)
            && Of(c).t <= Times(Times(an, Sum(ys)), w) <= Of(c).t + UNIT
            && (Scale(amounts) == 1 ==> product == Product(ys) && Of(c).t == Times(Times(an, Sum(ys)), w))
  {
    var n, p := |amounts|, Scale(amounts);
    var computed := StableInvariant.ScaledProduct(amounts, c.sclDownCoef).value;
    product, an := Value(computed), (amp * Pow(n, n)) as real;
    hide *;
    CurveTerms(c, amp, amounts);
    ProductError(amounts, p);
    ValueOrder(1_000_000, computed);
    WeightsAsReal(amp, n, computed);
    SumOfShrunk(amounts, p);
    LinearAsReal(amp * Pow(n, n), Pow(n, n) * computed);
    ConstantAsReal(amp * Pow(n, n), SumOf(amounts), Pow(n, n) * computed, p);
  }

  lemma CurveTerms(c: Curve, amp: nat, amounts: seq<nat>)
    requires AmountsFit(amounts) && CurveFor(c, amp, amounts)
    ensures Scale(amounts) * WAD == c.sclDownCoef && StableInvariant.ScaledProduct(amounts, c.sclDownCoef).Ok?
    ensures var n, product := |amounts|, StableInvariant.ScaledProduct(amounts, c.sclDownCoef).value;
            && product >= 1_000_000 && amp * Pow(n, n) > 0 && Of(c).n == n
            && Of(c).b == Value(LinearTerm(amp * Pow(n, n), Pow(n, n) * product))
            && Of(c).t == Value(ConstantTerm(amp * Pow(n, n), SumOf(amounts), Pow(n, n) * product, Scale(amounts)))
  {
    hide Pow;
    hide LinearTerm;
    hide ConstantTerm;
    hide StableInvariant.ScaledProduct;
  }

  /** A pool of two to four reserves has a curve that the error bounds apply to. */
  lemma CurveIsModerate(c: Curve, amp: nat, amounts: seq<nat>)
    requires AmountsFit(amounts) && CurveFor(c, amp, amounts) && 2 <= |amounts| <= 4
    ensures Moderate(c) && Value(c.initialGuess) <= 1000.0
    ensures Of(c).b * Value(c.initialGuess) <= Of(c).t
  {
    hide *;
    var product, an := CurveAsReal(c, amp, amounts);
    var n, ys := |amounts|, Shrunk(amounts, Scale(amounts));
    WeightsAtLeast(c, amp, amounts, product);
    GuessWithinSum(c, amp, amounts);
    ModerateTerms(an, Exact.WeightedProduct(n, product), Sum(ys), Value(c.initialGuess), Of(c).b, Of(c).t);
    CurveExponent(c, amp, amounts);
  }

  lemma CurveExponent(c: Curve, amp: nat, amounts: seq<nat>)
    requires AmountsFit(amounts) && CurveFor(c, amp, amounts)
    ensures c.exponent == |amounts| && (Of(c).t > 0.0 ==> c.polynomialThirdTerm > 0)
    ensures Value(c.initialGuess) <= 1000.0
    ensures 2 <= |amounts| <= 4 && c.polynomialThirdTerm > 0 && LEAST_COEFFICIENT <= Of(c).b ==> Moderate(c)
  {
    ValueOrder(c.initialGuess, 1000 * WAD);
  }

  lemma WeightsAtLeast(c: Curve, amp: nat, amounts: seq<nat>, product: real)
    requires AmountsFit(amounts) && CurveFor(c, amp, amounts) && 2 <= |amounts| <= 4
    requires product >= 0.000000000001
    ensures Exact.Amplified(amp as real, |amounts|) >= 4.0
    ensures Exact.WeightedProduct(|amounts|, product) >= 0.000000000004
  {
    var n := |amounts|;
    SmallPow(n);
    AmplifierThere(c, amp, amounts);
    PowAsReal(n, n);
    hide *;
    LeastWeights(amp as real, n, Pow(n, n) as real, product);
  }

  lemma AmplifierThere(c: Curve, amp: nat, amounts: seq<nat>)
    requires AmountsFit(amounts) && CurveFor(c, amp, amounts)
    ensures amp as real >= 1.0
  {
    hide Pow;
    hide LinearTerm;
    hide ConstantTerm;
    assert amp == 0 ==> amp * Pow(|amounts|, |amounts|) == 0;
  }

  lemma SmallPow(n: nat)
    requires 2 <= n <= 4
    ensures Pow(n, n) as real >= 4.0
  {
    assert Pow(2, 2) == 4;
    assert Pow(3, 2) == 9;
    assert Pow(4, 2) == 16;
  }

  lemma LeastWeights(amp: real, n: nat, nn: real, product: real)
    requires amp >= 1.0 && nn >= 4.0 && nn == Power(n as real, n) && product >= 0.000000000001
    ensures Exact.Amplified(amp, n) >= 4.0 && Exact.WeightedProduct(n, product) >= 0.000000000004
  {
    ProductMonotone(1.0, amp, 4.0, nn);
    ProductMonotone(4.0, nn, 0.000000000001, product);
  }

  /** Scaling down stops before less than one whole unit is left. */
  lemma GuessWithinSum(c: Curve, amp: nat, amounts: seq<nat>)
    requires AmountsFit(amounts) && CurveFor(c, amp, amounts) && amounts != []
    ensures Value(c.initialGuess) <= Sum(Shrunk(amounts, Scale(amounts))) && Sum(Shrunk(amounts, Scale(amounts))) >= 1.0
  {
    SumOfShrunk(amounts, Scale(amounts));
    SomethingThere(c, amp, amounts);
    GuessInWhole(c, amp, amounts);
    GuessAsReal(c.initialGuess, Scale(amounts), SumOf(amounts));
  }

  lemma GuessInWhole(c: Curve, amp: nat, amounts: seq<nat>)
    requires AmountsFit(amounts) && CurveFor(c, amp, amounts) && SumOf(amounts) >= 1
    ensures c.initialGuess * Scale(amounts) <= SumOf(amounts) * WAD && Scale(amounts) <= SumOf(amounts)
  {
    hide StableInvariant.ScaledProduct;
    hide LinearTerm;
    hide ConstantTerm;
    hide Pow;
    if Scale(amounts) > 1 {
      MulMono(WAD, c.initialGuess, Scale(amounts));
    }
  }

  lemma GuessAsReal(guess: nat, p: nat, s: nat)
    requires 0 < p <= s && guess * p <= s * WAD
    ensures Value(guess) <= s as real / p as real && s as real / p as real >= 1.0
  {
    var y := s as real / p as real;
    assert y * p as real == s as real;
    assert (guess * p) as real == guess as real * p as real;
    assert p as real * (y - 1.0) == s as real - p as real;
    SignOfProduct(p as real, y - 1.0);
    assert p as real * (y - Value(guess)) == s as real - guess as real * p as real / WHOLE;
    SignOfProduct(p as real, y - Value(guess));
  }

  lemma SomethingThere(c: Curve, amp: nat, amounts: seq<nat>)
    requires AmountsFit(amounts) && CurveFor(c, amp, amounts) && amounts != []
    ensures SumOf(amounts) >= 1
  {
    if SumOf(amounts) == 0 {
      NothingThere(amounts, c.sclDownCoef);
    }
  }

  lemma NothingThere(amounts: seq<nat>, coef: Decimal)
    requires AmountsFit(amounts) && amounts != [] && SumOf(amounts) == 0 && coef > 0
    requires StableInvariant.ScaledProduct(amounts, coef).Ok?
    ensures StableInvariant.ScaledProduct(amounts, coef).value == 0
  {
    var acc := StableInvariant.ScaledProduct(amounts[..|amounts| - 1], coef).value;
    assert amounts[|amounts| - 1] == 0;
    assert TryDiv(FromU64(0), coef) == Ok(0);
    assert acc * 0 == 0;
  }

  lemma ModerateTerms(an: real, w: real, s: real, guess: real, b: real, t: real)
    requires an >= 4.0 && w >= 0.000000000004 && s >= 1.0 && 0.0 <= guess <= s
    requires b == Times(an - 1.0, w) && Times(Times(an, s), w) <= t + UNIT
    ensures LEAST_COEFFICIENT <= b && t > 0.0 && b * guess <= t
  {
    ProductMonotone(3.0, an - 1.0, 0.000000000004, w);
    ProductMonotone(4.0, an, 1.0, s);
    ProductMonotone(4.0, an * s, 0.000000000004, w);
    ProductMonotone(b, b, guess, s);
    ProductMonotone(1.0, s, 0.000000000004, w);
    assert ((an - 1.0) * w) * s == (an * s) * w - s * w;
  }

  // ---- the exact invariant as seen by the computed curve ----

  /** The computed weight is the fraction `rho` of the exact one. At the exact invariant the
      computed curve's polynomial is at least 0; at the fraction `rho` of it, less what one unit
      of the constant coefficient is worth, it is at most 0. */
  lemma SignsAroundExact(p: Exact.Polynomial, an: real, s: real, weight: real, w: real, rho: real, exact: real)
    requires p.Valid() && p.b > 0.0 && an >= 1.0 && weight > 0.0 && 0.0 < rho <= 1.0 && w == Times(rho, weight)
    requires p.b == Times(an - 1.0, w) && p.t <= Times(Times(an, s), w) <= p.t + UNIT
    requires Exact.Root(Exact.FromTerms(p.n, an, weight, s), exact)
    ensures p.At(exact) >= 0.0
    ensures rho * exact - UNIT / p.b >= 0.0 ==> p.At(rho * exact - UNIT / p.b) <= 0.0
  {
    var q, g := Power(exact, p.n + 1), an * s - (an - 1.0) * exact;
    PowerPositive(exact, p.n + 1);
    RootPower(an, s, weight, exact, q);
    SignOfProduct(weight, g);
    assert p.At(exact) >= 0.0 by {
      hide Power;
      ValueAtExact(an, s, w, weight, rho, exact, g, q, p.t);
    }
    var y := rho * exact;
    FractionPower(rho, exact, p.n);
    assert p.At(y) <= UNIT by {
      hide Power;
      FractionValue(an, s, w, weight, rho, exact, g, q, Power(y, p.n + 1), p.t);
    }
    var z := y - UNIT / p.b;
    if z >= 0.0 {
      PowerMonotone(z, y, p.n + 1);
      hide Power;
      assert p.b * (UNIT / p.b) == UNIT;
      assert p.b * z == p.b * y - p.b * (UNIT / p.b);
    }
  }

  lemma RootPower(an: real, s: real, weight: real, exact: real, q: real)
    requires q + Times((an - 1.0) * weight, exact) - an * s * weight == 0.0
    ensures q == weight * (an * s - (an - 1.0) * exact)
  {
  }

  /** A fraction's power is at most the same fraction of the power. */
  lemma {:induction false} FractionPower(rho: real, x: real, n: nat)
    requires 0.0 < rho <= 1.0 && x > 0.0
    ensures 0.0 <= Power(rho * x, n + 1) <= rho * Power(x, n + 1)
  {
    var y := rho * x;
    ProductMonotone(rho, 1.0, x, x);
    if n == 0 {
      assert Power(y, 0) == 1.0 && Power(x, 0) == 1.0;
    } else {
      FractionPower(rho, x, n - 1);
      PowerPositive(x, n);
      ProductMonotone(0.0, rho, 0.0, Power(x, n));
      ProductMonotone(Power(y, n), rho * Power(x, n), y, x);
      assert rho * Power(x, n) * x == rho * (Power(x, n) * x);
    }
  }

  lemma ValueAtExact(an: real, s: real, w: real, weight: real, rho: real, exact: real, g: real, q: real, t: real)
    requires w == rho * weight && weight > 0.0 && 0.0 < rho <= 1.0 && g >= 0.0
    requires g == an * s - (an - 1.0) * exact && q == weight * g && t <= (an * s) * w
    ensures q + Times((an - 1.0) * w, exact) - t >= 0.0
  {
    ProductMonotone(0.0, rho, 0.0, weight);
    ProductMonotone(rho, 1.0, weight, weight);
    ProductMonotone(w, weight, g, g);
    assert w * g == (an * s) * w - ((an - 1.0) * w) * exact;
  }

  lemma FractionValue(an: real, s: real, w: real, weight: real, rho: real, exact: real, g: real, q: real,
                      power: real, t: real)
    requires an >= 1.0 && w == rho * weight && w > 0.0 && 0.0 < rho <= 1.0 && exact > 0.0
    requires g == an * s - (an - 1.0) * exact && q == weight * g && power <= rho * q
    requires (an * s) * w <= t + UNIT
    ensures power + Times((an - 1.0) * w, rho * exact) - t <= UNIT
  {
    var lost := (an - 1.0) * exact;
    assert rho * q == w * g;
    assert w * g == (an * s) * w - w * lost;
    assert (an - 1.0) * w * (rho * exact) == (w * lost) * rho;
    ProductMonotone(0.0, an - 1.0, 0.0, exact);
    ProductMonotone(0.0, w, 0.0, lost);
    ProductMonotone(w * lost, w * lost, rho, 1.0);
  }
}
