/** The stable curve's invariant `D` in fixed-point arithmetic: Newton's method from the
    scaled-down sum of the reserves. */
module StableInvariant {
  import opened Results
  import opened FixedPoint
  import opened AmmHelpers

  const MAX_ITERATIONS: nat := 32

  /** Powers by repeated checked multiplication. */
  function TryPow(x: Decimal, e: nat): Result<Decimal> {
    if e == 0 then Ok(ONE)
    else
      var p :- TryPow(x, e - 1);
      TryMul(p, x)
  }

  lemma {:induction false} PowerOfZero(n: nat)
    requires n > 0 && TryPow(0, n).Ok?
    ensures TryPow(0, n).value == 0
  {
    assert TryPow(0, n - 1).value * 0 == 0;
  }

  function SumOf(amounts: seq<nat>): nat {
    if amounts == [] then 0 else SumOf(amounts[..|amounts| - 1]) + amounts[|amounts| - 1]
  }

  predicate AmountsFit(amounts: seq<nat>) {
    forall i :: 0 <= i < |amounts| ==> amounts[i] <= U64_MAX
  }

  /** Checked left-to-right sum of whole amounts. */
  function FoldSum(amounts: seq<nat>): Result<Decimal>
    requires AmountsFit(amounts)
  {
    if amounts == [] then Ok(0)
    else
      var acc :- FoldSum(amounts[..|amounts| - 1]);
      TryAdd(acc, FromU64(amounts[|amounts| - 1]))
  }

  lemma {:induction false} FoldSumIsSum(amounts: seq<nat>)
    requires AmountsFit(amounts)
    ensures FoldSum(amounts).Ok? ==> FoldSum(amounts).value == SumOf(amounts) * WAD
  {
    if amounts != [] {
      FoldSumIsSum(amounts[..|amounts| - 1]);
    }
  }

  /** Product of the scaled-down reserves. */
  function ScaledProduct(amounts: seq<nat>, coef: Decimal): Result<Decimal>
    requires AmountsFit(amounts)
  {
    if amounts == [] then Ok(ONE)
    else
      var acc :- ScaledProduct(amounts[..|amounts| - 1], coef);
      var x :- TryDiv(FromU64(amounts[|amounts| - 1]), coef);
      TryMul(acc, x)
  }

  datatype Curve = Curve(exponent: nat, initialGuess: Decimal, sclDownCoef: Decimal,
                         firstOrderCoeff: Decimal, polynomialThirdTerm: Decimal)

  /** Powers of whole numbers are exact and fail only out of range. */
  lemma {:induction false} PowOfWhole(b: nat, e: nat)
    requires 0 < b <= U64_MAX
    ensures TryPow(FromU64(b), e) == Checked(Pow(b, e) * WAD)
  {
    if e > 0 {
      PowOfWhole(b, e - 1);
      NextWhole(Pow(b, e - 1), b);
      assert Pow(b, e) == b * Pow(b, e - 1);
      hide Pow;
      hide Scaled;
    }
  }

  lemma NextWhole(p: nat, b: nat)
    requires 0 < b <= U64_MAX
    ensures p * WAD < U192_LIMIT ==> TryMul(p * WAD, FromU64(b)) == Checked(b * p * WAD)
    ensures p * WAD >= U192_LIMIT ==> b * p * WAD >= U192_LIMIT
  {
    ExactProduct(p, b);
    MulMono(1, b, p);
    assert p * b == b * p;
  }

  /** Whole numbers multiply exactly. */
  lemma ExactProduct(a: nat, b: nat)
    ensures Scaled((a * WAD) * (b * WAD)) == a * b * WAD
  {
    assert (a * WAD) * (b * WAD) == (a * b * WAD) * WAD;
  }

  /** `A n^n`, the product with `n^n`, and the two coefficients of the polynomial. */
  function Coefficients(amp: nat, n: nat, product: Decimal, sum: Decimal, coef: Decimal): Result<(Decimal, Decimal)>
    requires amp <= U64_MAX && n <= U64_MAX
  {
    var nn :- TryPow(FromU64(n), n);
    var nnProduct :- TryMul(nn, product);
    var ann :- TryMul(FromU64(amp), nn);
    var annLess :- TrySub(ann, ONE);
    var first :- TryMul(annLess, nnProduct);
    var annSum :- TryMul(ann, sum);
    var third :- TryMul(annSum, nnProduct);
    var scaledThird :- TryDiv(third, coef);
    Ok((first, scaledThird))
  }

  function LinearTerm(an: nat, weighted: nat): nat
    requires an > 0
  {
    (an - 1) * weighted
  }

  function ConstantTerm(an: nat, s: nat, weighted: nat, p: nat): nat
    requires p > 0
  {
    Quotient(an * s * weighted, p)
  }

  /** The coefficients without decimals: with `N = n^n`, `s` the sum of the reserves and `p` the
      scale, they are `(A N - 1) N product` and `A N s N product / p`, the only truncation. */
  lemma CoefficientsExact(amp: nat, n: nat, product: Decimal, s: nat, p: nat)
    requires amp <= U64_MAX && n <= U64_MAX && p > 0 && s * WAD < U192_LIMIT && p * WAD < U192_LIMIT
    ensures Coefficients(amp, n, product, s * WAD, p * WAD).Ok? ==>
              && amp * Pow(n, n) > 0
              && Coefficients(amp, n, product, s * WAD, p * WAD)
              == Ok((LinearTerm(amp * Pow(n, n), Pow(n, n) * product),
                     ConstantTerm(amp * Pow(n, n), s, Pow(n, n) * product, p)))
  {
    hide *;
    var nn := Pow(n, n);
    PowOfItself(n);
    AnyProduct(amp, nn);
    if Coefficients(amp, n, product, s * WAD, p * WAD).Ok? {
      AmplifierPositive(amp, n, product, s * WAD, p * WAD, nn * WAD);
      MulMono(1, nn, amp);
      CoefficientProducts(amp, n, product, s, p, nn, amp * nn, nn * product);
    }
  }

  lemma PowOfItself(n: nat)
    requires n <= U64_MAX
    ensures Pow(n, n) > 0 && TryPow(FromU64(n), n) == Checked(Pow(n, n) * WAD)
  {
    if n > 0 {
      PowOfWhole(n, n);
      PowPositive(n, n);
    }
  }

  lemma AmplifierPositive(amp: nat, n: nat, product: Decimal, sum: Decimal, coef: Decimal, nn: nat)
    requires amp <= U64_MAX && n <= U64_MAX && TryPow(FromU64(n), n) == Checked(nn)
    requires Coefficients(amp, n, product, sum, coef).Ok?
    ensures amp > 0
  {
    if amp == 0 {
      NoAmplifier(n, product, sum, coef, nn);
    }
  }

  lemma NoAmplifier(n: nat, product: Decimal, sum: Decimal, coef: Decimal, nn: nat)
    requires n <= U64_MAX && TryPow(FromU64(n), n) == Checked(nn)
    ensures Coefficients(0, n, product, sum, coef).Err?
  {
    hide TryPow;
    assert Scaled(FromU64(0) * nn) == 0;
  }

  lemma AnyProduct(a: nat, b: nat)
    ensures a * b >= 0 && a * b == b * a
  {
  }

  lemma CoefficientProducts(amp: nat, n: nat, product: Decimal, s: nat, p: nat, nn: nat, an: nat, weighted: nat)
    requires amp <= U64_MAX && n <= U64_MAX && p > 0 && s * WAD < U192_LIMIT && p * WAD < U192_LIMIT
    requires an == amp * nn && weighted == nn * product && an > 0
    requires TryPow(FromU64(n), n) == Checked(nn * WAD)
    ensures Coefficients(amp, n, product, s * WAD, p * WAD).Ok? ==>
              Coefficients(amp, n, product, s * WAD, p * WAD)
              == Ok((LinearTerm(an, weighted), ConstantTerm(an, s, weighted, p)))
  {
    hide Coefficients;
    hide TryPow;
    hide Scaled;
    hide LinearTerm;
    hide ConstantTerm;
    WholeTimes(nn, product);
    ExactProduct(amp, nn);
    FirstScaled(an, weighted);
    ThirdScaled(an, s, weighted, p);
    CoefficientsFrom(amp, n, product, s * WAD, p * WAD, nn * WAD, weighted, an * WAD, LinearTerm(an, weighted));
  }

  lemma FirstScaled(an: nat, weighted: nat)
    requires an > 0
    ensures Scaled((an * WAD - ONE) * weighted) == LinearTerm(an, weighted)
  {
    WholeTimes(an - 1, weighted);
    assert (an - 1) * WAD == an * WAD - ONE;
  }

  lemma ThirdScaled(an: nat, s: nat, weighted: nat, p: nat)
    requires p > 0
    ensures Quotient(Scaled(Scaled((an * WAD) * (s * WAD)) * weighted) * WAD, p * WAD)
            == ConstantTerm(an, s, weighted, p)
  {
    ExactProduct(an, s);
    WholeTimes(an * s, weighted);
    SameQuotient(an * s * weighted, p, WAD);
  }

  lemma CoefficientsFrom(amp: nat, n: nat, product: Decimal, sum: Decimal, coef: Decimal,
                         nn: nat, weighted: nat, ann: nat, first: nat)
    requires amp <= U64_MAX && n <= U64_MAX && coef > 0 && ann >= ONE
    requires TryPow(FromU64(n), n) == Checked(nn) && Scaled(nn * product) == weighted
    requires Scaled(FromU64(amp) * nn) == ann && Scaled((ann - ONE) * weighted) == first
    ensures Coefficients(amp, n, product, sum, coef).Ok? ==>
              Coefficients(amp, n, product, sum, coef)
              == Ok((first, Quotient(Scaled(Scaled(ann * sum) * weighted) * WAD, coef)))
  {
    hide TryPow;
    hide Scaled;
    hide Quotient;
  }

  lemma WholeTimes(n: nat, d: nat)
    ensures Scaled((n * WAD) * d) == n * d
  {
    assert (n * WAD) * d == (n * d) * WAD;
  }

  /** How many divisions by 1000 bring the sum of the reserves to at most 1000. */
  function ScaleExponent(amounts: seq<nat>): nat
    requires AmountsFit(amounts)
  {
    match FoldSum(amounts)
    case Err(_) => 0
    case Ok(sum) => ScaledDown(sum, 0).1
  }

  /** The polynomial's parameters for the given reserves. */
  function CurveOf(amp: nat, amounts: seq<nat>): (r: Result<Curve>)
    requires amp <= U64_MAX && AmountsFit(amounts) && |amounts| <= U64_MAX
    ensures r.Ok? ==> r.value.exponent == |amounts|
  {
    var sum :- FoldSum(amounts);
    var (guess, e) := ScaledDown(sum, 0);
    var coef :- TryPow(FromU64(1000), e);
    var product :- ScaledProduct(amounts, coef);
    // extreme imbalance
    if product < 1_000_000 then Err(MathOverflow)
    else
      var (first, third) :- Coefficients(amp, |amounts|, product, sum, coef);
      Ok(Curve(|amounts|, guess, coef, first, third))
  }

  /** The curve's parameters without decimals: the sum of the reserves and their product, scaled
      down by the least power of 1000 that brings the sum to at most 1000, and the coefficients. */
  ghost predicate CurveFor(c: Curve, amp: nat, amounts: seq<nat>)
    requires AmountsFit(amounts)
  {
    var n, p := |amounts|, Pow(1000, ScaleExponent(amounts));
    && p > 0 && c.exponent == n && c.sclDownCoef == p * WAD
    && FoldSum(amounts) == Ok(SumOf(amounts) * WAD)
    && c.initialGuess <= 1000 * WAD && (p > 1 ==> c.initialGuess >= WAD)
    && c.initialGuess * p <= SumOf(amounts) * WAD < (c.initialGuess + 1) * p
    && ScaledProduct(amounts, c.sclDownCoef).Ok?
    && var product := ScaledProduct(amounts, c.sclDownCoef).value;
    && product >= 1_000_000
    && var an, weighted := amp * Pow(n, n), Pow(n, n) * product;
    && an > 0
    && c.firstOrderCoeff == LinearTerm(an, weighted)
    && c.polynomialThirdTerm == ConstantTerm(an, SumOf(amounts), weighted, p)
  }

  /** Every computed curve has these parameters. */
  lemma CurveMeaning(amp: nat, amounts: seq<nat>)
    requires amp <= U64_MAX && AmountsFit(amounts) && |amounts| <= U64_MAX && CurveOf(amp, amounts).Ok?
    ensures CurveFor(CurveOf(amp, amounts).value, amp, amounts)
  {
    FoldSumIsSum(amounts);
    var sum := FoldSum(amounts).value;
    var e := ScaledDown(sum, 0).1;
    ScaledDownBounds(sum, sum, 0);
    PowOfWhole(1000, e);
    PowPositive(1000, e);
    var product := ScaledProduct(amounts, Pow(1000, e) * WAD).value;
    hide ScaledProduct;
    hide Coefficients;
    hide Pow;
    hide TryPow;
    CoefficientsExact(amp, |amounts|, product, SumOf(amounts), Pow(1000, e));
  }

  method NewCurve(amp: nat, amounts: seq<nat>) returns (r: Result<Curve>)
    requires amp <= U64_MAX && AmountsFit(amounts) && |amounts| <= U64_MAX
    ensures r == CurveOf(amp, amounts)
    ensures r.Ok? ==> CurveFor(r.value, amp, amounts)
  {
    FoldSumIsSum(amounts);
    var sum := FoldSum(amounts);
    if sum.Err? {
      return Err(sum.error);
    }
    var guess, e := ScaleDownValue(sum.value);
    PowOfWhole(1000, e);
    var coef := TryPow(FromU64(1000), e);
    if coef.Err? {
      return Err(coef.error);
    }
    var product := ScaledProduct(amounts, coef.value);
    if product.Err? {
      return Err(product.error);
    }
    // extreme imbalance
    if product.value < 1_000_000 {
      return Err(MathOverflow);
    }
    var cs := Coefficients(amp, |amounts|, product.value, sum.value, coef.value);
    if cs.Err? {
      return Err(cs.error);
    }
    r := Ok(Curve(|amounts|, guess, coef.value, cs.value.0, cs.value.1));
    CurveMeaning(amp, amounts);
  }

  function Polynomial(c: Curve, d: Decimal): Result<Decimal> {
    var first :- TryPow(d, c.exponent + 1);
    var second :- TryMul(d, c.firstOrderCoeff);
    var sum :- TryAdd(first, second);
    TrySub(sum, c.polynomialThirdTerm)
  }

  function Derivative(c: Curve, d: Decimal): Result<Decimal>
    requires c.exponent <= U64_MAX
  {
    var factor :- TryAdd(FromU64(c.exponent), ONE);
    var p :- TryPow(d, c.exponent);
    var first :- TryMul(factor, p);
    TryAdd(first, c.firstOrderCoeff)
  }

  /** One iteration of Newton's method; an increase would be an arithmetic error. */
  function NewtonStep(c: Curve, d: Decimal): (r: Result<Decimal>)
    requires c.exponent <= U64_MAX
    ensures r.Ok? ==> r.value <= d
  {
    var f :- Polynomial(c, d);
    var df :- Derivative(c, d);
    var step :- TryDiv(f, df);
    TrySub(d, step)
  }

  /** The result of the iteration from `d` with `left` iterations to go: it ends when a step
      is at most one half, at an exact root, or when no iteration is left. */
  function Iterate(c: Curve, d: Decimal, left: nat): Result<Decimal>
    requires c.exponent <= U64_MAX
    decreases left
  {
    if left == 0 then TryMul(d, c.sclDownCoef)
    else
      var next: Decimal :- NewtonStep(c, d);
      if d <= next then
        var value :- Polynomial(c, d);
        if value == 0 then TryMul(d, c.sclDownCoef) else Err(InvariantViolation)
      else if d - next <= WAD / 2 then TryMul(next, c.sclDownCoef)
      else Iterate(c, next, left - 1)
  }

  /** The loop of the implementation. */
  method ComputeCurve(c: Curve) returns (r: Result<Decimal>)
    requires c.exponent <= U64_MAX
    ensures r == Iterate(c, c.initialGuess, MAX_ITERATIONS)
  {
    hide Polynomial;
    hide NewtonStep;
    hide TryMul;
    var admissibleError: Decimal := WAD / 2;
    var prevVal: Decimal := c.initialGuess;
    var newVal: Decimal := prevVal;
    var i := 0;
    while i < MAX_ITERATIONS
      invariant i <= MAX_ITERATIONS
      invariant Iterate(c, c.initialGuess, MAX_ITERATIONS) == Iterate(c, newVal, MAX_ITERATIONS - i)
    {
      prevVal := newVal;
      var step: Result<Decimal> := NewtonStep(c, prevVal);
      if step.Err? {
        return Err(step.error);
      }
      newVal := step.value;
      if prevVal <= newVal {
        var p := Polynomial(c, prevVal);
        if p.Err? {
          return Err(p.error);
        }
        if p.value == 0 {
          return TryMul(prevVal, c.sclDownCoef);
        }
        return Err(InvariantViolation);
      }
      if prevVal - newVal <= admissibleError {
        break;
      }
      i := i + 1;
    }
    r := TryMul(newVal, c.sclDownCoef);
  }

  /** Strictly descending Newton iterates. */
  ghost predicate NewtonRun(c: Curve, trace: seq<Decimal>)
    requires c.exponent <= U64_MAX
  {
    && trace != []
    && forall i :: 0 < i < |trace| ==> NewtonStep(c, trace[i - 1]) == Ok(trace[i]) && trace[i] < trace[i - 1]
  }

  /** Why an iteration with its last iterates may stop. */
  ghost predicate Stopped(c: Curve, trace: seq<Decimal>)
    requires c.exponent <= U64_MAX && NewtonRun(c, trace)
  {
    var n := |trace|;
    || (n > 1 && trace[n - 2] - trace[n - 1] <= WAD / 2)
    || (Polynomial(c, trace[n - 1]) == Ok(0) && NewtonStep(c, trace[n - 1]) == Ok(trace[n - 1]))
  }

  /** A successful result is the last of at most `left + 1` strictly descending iterates,
      scaled back up; the iteration stopped after a step of at most one half, at an exact
      root, or because it used up all its steps. */
  lemma {:induction false} IterationDescends(c: Curve, d: Decimal, left: nat) returns (trace: seq<Decimal>)
    requires c.exponent <= U64_MAX && Iterate(c, d, left).Ok?
    ensures NewtonRun(c, trace) && trace[0] == d && |trace| <= left + 1
    ensures Iterate(c, d, left) == TryMul(trace[|trace| - 1], c.sclDownCoef) && trace[|trace| - 1] <= d
    ensures Stopped(c, trace) || |trace| == left + 1
    decreases left
  {
    hide Polynomial;
    hide NewtonStep;
    hide TryMul;
    if left == 0 || NewtonStep(c, d).value >= d {
      return [d];
    }
    var next := NewtonStep(c, d).value;
    if d - next <= WAD / 2 {
      return [d, next];
    }
    var rest := IterationDescends(c, next, left - 1);
    trace := [d] + rest;
    assert rest == trace[1..];
    if |rest| > 1 {
      assert trace[|trace| - 2] == rest[|rest| - 2];
    }
  }

  function InvariantOf(amp: nat, amounts: seq<nat>): Result<Decimal>
    requires amp <= U64_MAX && AmountsFit(amounts) && |amounts| <= U64_MAX
  {
    if amp == 0 then Err(InvalidArg)
    else
      var c :- CurveOf(amp, amounts);
      Iterate(c, c.initialGuess, MAX_ITERATIONS)
  }

  /** The invariant of a stable pool never exceeds the sum of its reserves. */
  method ComputeInvariant(amp: nat, amounts: seq<nat>) returns (r: Result<Decimal>)
    requires amp <= U64_MAX && AmountsFit(amounts) && |amounts| <= U64_MAX
    ensures r == InvariantOf(amp, amounts)
    ensures r.Ok? ==> r.value <= SumOf(amounts) * WAD
  {
    if amp == 0 {
      return Err(InvalidArg);
    }
    var curve := NewCurve(amp, amounts);
    if curve.Err? {
      return Err(curve.error);
    }
    r := ComputeCurve(curve.value);
    if r.Ok? {
      ghost var trace := IterationDescends(curve.value, curve.value.initialGuess, MAX_ITERATIONS);
      ScaledBackUp(trace[|trace| - 1], curve.value.initialGuess, Pow(1000, ScaleExponent(amounts)),
                   SumOf(amounts) * WAD);
    }
  }

  lemma ScaledBackUp(d: nat, guess: nat, p: nat, sum: nat)
    requires d <= guess && guess * p <= sum
    ensures Scaled(d * (p * WAD)) <= sum
  {
    MulMono(d, guess, p);
    assert d * (p * WAD) == (d * p) * WAD;
  }
}
