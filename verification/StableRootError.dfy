/** How far the stable swap's computed root can be from the exact one. */
module StableRootError {
  import opened Results
  import opened FixedPoint
  import opened AmmHelpers
  import opened ExactPowers
  import opened StableInvariant
  import opened SwapMath
  import opened InvariantError
  import opened InvariantAccuracy
  import Exact = NewtonExact
  import Curve = StableSwapExact

  // ---- the quadratic's terms ----

  /** The linear term with its sign. */
  function Signed(q: Quadratic): real {
    if q.symmetric then -Value(q.b) else Value(q.b)
  }

  /** The computed terms against the exact ones for the scaled inputs: the quadratic and the
      linear one are exact, the constant one falls short by rounding. */
  ghost predicate TermsFor(q: Quadratic, amp: nat, n: nat, x: SwapInputs)
    requires n > 0
  {
    && Value(q.a) == Exact.Amplified(amp as real, n) && Value(q.a) > 0.0 && Value(x.product) > 0.0
    && Signed(q) == Curve.LinearTerm(Value(q.a), Value(x.d), Value(x.sum))
    && var c := Curve.ConstantTerm(n, Value(x.d), Value(x.product));
    && Value(q.c) <= c
    && Times(c - Value(q.c) - UNIT, Exact.WeightedProduct(n, Value(x.product))) <= Times(Lost(Value(x.d), n + 1), UNIT)
  }

  function FirstTerm(d: Decimal, a: Decimal): nat
    requires a >= ONE
  {
    var less: nat := a - ONE;
    FixedPoint.Scaled(d * less)
  }

  function SecondTerm(a: Decimal, sum: Decimal): nat {
    FixedPoint.Scaled(a * sum)
  }

  /** The steps of the terms by name. */
  lemma StepsOfTerms(n: nat, amp: Decimal, x: SwapInputs, nn: nat) returns (power: Decimal, weighted: Decimal)
    requires 0 < n <= U64_MAX && QuadraticOf(n, amp, x).Ok? && TryPow(FromU64(n), n) == Checked(nn)
    ensures TryPow(x.d, n + 1) == Ok(power) && weighted == FixedPoint.Scaled(nn * x.product) && weighted > 0
    ensures var q := QuadraticOf(n, amp, x).value;
            && q.a == FixedPoint.Scaled(nn * amp) && q.a >= ONE
            && var first, second := FirstTerm(x.d, q.a), SecondTerm(q.a, x.sum);
            && q.symmetric == (second < first) && q.b == (if q.symmetric then first - second else second - first)
            && q.c == Quotient(power * WAD, weighted)
  {
    hide TryPow;
    hide FixedPoint.Scaled;
    hide Quotient;
    power, weighted := TryPow(x.d, n + 1).value, FixedPoint.Scaled(nn * x.product);
  }

  lemma TermsError(n: nat, amp: nat, x: SwapInputs)
    requires 0 < n <= U64_MAX && amp <= U64_MAX && x.product > 0 && QuadraticOf(n, FromU64(amp), x).Ok?
    ensures TermsFor(QuadraticOf(n, FromU64(amp), x).value, amp, n, x)
  {
    hide QuadraticOf;
    hide TryPow;
    hide Pow;
    hide Lost;
    hide Value;
    hide Times;
    hide Signed;
    hide Curve.LinearTerm;
    hide Curve.ConstantTerm;
    hide Exact.WeightedProduct;
    hide Exact.Amplified;
    hide Quotient;
    hide FixedPoint.Scaled;
    hide FirstTerm;
    hide SecondTerm;
    var q, nn := QuadraticOf(n, FromU64(amp), x).value, Pow(n, n);
    PowOfWhole(n, n);
    var power, weighted := StepsOfTerms(n, FromU64(amp), x, nn * WAD);
    WeightsAsReal(amp, n, x.product);
    ExactProduct(nn, amp);
    assert nn * amp == amp * nn;
    WholeTimes(nn, x.product);
    LinearExact(q, amp * nn, x, FirstTerm(x.d, q.a), SecondTerm(q.a, x.sum));
    PositiveValue(q.a);
    PositiveValue(x.product);
    ConstantError(n, x, power, weighted, q.c);
  }

  lemma LinearExact(q: Quadratic, an: nat, x: SwapInputs, first: nat, second: nat)
    requires an > 0 && q.a == an * WAD && q.a >= ONE
    requires first == FirstTerm(x.d, q.a) && second == SecondTerm(q.a, x.sum)
    requires q.symmetric == (second < first) && q.b == if q.symmetric then first - second else second - first
    ensures Value(q.a) == an as real && Signed(q) == Curve.LinearTerm(an as real, Value(x.d), Value(x.sum))
  {
    FirstExact(x.d, q.a, an);
    SecondExact(q.a, x.sum, an);
    hide FirstTerm;
    hide SecondTerm;
    hide FixedPoint.Scaled;
    hide Value;
    hide Curve.LinearTerm;
    hide Times;
    ValueOfSum(q.b, if q.symmetric then second else first);
    WholeValue(an);
    LinearTermBy(an as real, Value(x.d), Value(x.sum));
  }

  lemma FirstExact(d: Decimal, a: Decimal, an: nat)
    requires an > 0 && a == an * WAD && a >= ONE
    ensures Value(FirstTerm(d, a)) == Times(an as real - 1.0, Value(d))
  {
    hide FixedPoint.Scaled;
    WholeFactorFirst(d, an - 1);
  }

  lemma SecondExact(a: Decimal, sum: Decimal, an: nat)
    requires a == an * WAD
    ensures Value(SecondTerm(a, sum)) == Times(an as real, Value(sum))
  {
    hide FixedPoint.Scaled;
    WholeFactor(an, sum);
  }

  lemma WholeFactorFirst(p: nat, n: nat)
    ensures Value(FixedPoint.Scaled(p * ((n + 1) * WAD - ONE))) == Times(n as real, Value(p))
  {
    assert p * ((n + 1) * WAD - ONE) == (n * WAD) * p;
    WholeFactor(n, p);
  }

  lemma WholeValue(n: nat)
    ensures Value(n * WAD) == n as real
  {
  }

  lemma LinearTermBy(an: real, d: real, s: real)
    ensures Curve.LinearTerm(an, d, s) == Times(an, s) - Times(an - 1.0, d)
  {
  }

  lemma ConstantError(n: nat, x: SwapInputs, power: Decimal, weighted: nat, c: nat)
    requires n > 0 && TryPow(x.d, n + 1) == Ok(power) && weighted > 0 && c == Quotient(power * WAD, weighted)
    requires Value(weighted) == Exact.WeightedProduct(n, Value(x.product)) && Value(x.product) > 0.0
    ensures var exact := Curve.ConstantTerm(n, Value(x.d), Value(x.product));
            && Value(c) <= exact
            && Times(exact - Value(c) - UNIT, Exact.WeightedProduct(n, Value(x.product)))
               <= Times(Lost(Value(x.d), n + 1), UNIT)
  {
    PowerError(x.d, n + 1);
    DivError(power, weighted);
    Curve.ConstantTimesWeight(n, Value(x.d), Value(x.product));
    hide Curve.ConstantTerm;
    hide Lost;
    hide Power;
    hide TryPow;
    hide Exact.WeightedProduct;
    hide Quotient;
    QuotientNear(Value(c), Curve.ConstantTerm(n, Value(x.d), Value(x.product)), Value(weighted), Value(power),
                 Power(Value(x.d), n + 1), Times(Lost(Value(x.d), n + 1), UNIT), UNIT);
  }

  lemma QuotientNear(c: real, exact: real, w: real, p: real, power: real, lost: real, u: real)
    requires w > 0.0 && Times(c, w) <= p < Times(c + u, w) && p <= power <= p + lost && Times(exact, w) == power
    ensures c <= exact && Times(exact - c - u, w) <= lost
  {
    assert w * (exact - c) == exact * w - c * w;
    SignOfProduct(w, exact - c);
    assert (exact - c - u) * w == exact * w - (c + u) * w;
  }

  // ---- its root ----

  /** By how much, times `4 a`, the computed root falls short of solving its quadratic, where `r` is
      the computed square root of the discriminant. */
  function RootLoss(r: real): real {
    Times(2.0 * r + 2.0 + UNIT, UNIT)
  }

  lemma RootBounds(n: nat, r: nat)
    requires r * r <= n * WAD < (r + 1) * (r + 1)
    ensures Times(Value(r), Value(r)) <= Value(n) < Times(Value(r) + UNIT, Value(r) + UNIT)
  {
    var low, high := r * r, (r + 1) * (r + 1);
    SquareValue(r);
    SquareValue(r + 1);
    TwiceScaled(low, high, n);
    hide Times;
    ValueOfSum(r, 1);
  }

  lemma SquareValue(r: nat)
    ensures Times(Value(r), Value(r)) == (r * r) as real / WHOLE / WHOLE
  {
    ValueOfProduct(r, r);
  }

  lemma TwiceScaled(low: nat, high: nat, n: nat)
    requires low <= n * WAD < high
    ensures low as real / WHOLE / WHOLE <= Value(n) < high as real / WHOLE / WHOLE
  {
    assert (n * WAD) as real == n as real * WHOLE;
  }

  /** The steps of the root by name. */
  lemma StepsOfRoot(q: Quadratic, numerator: Decimal, divisor: Decimal) returns (square: nat, fourAC: nat, root: nat)
    requires QuadraticRoot(q.a, q.b, q.symmetric, q.c) == Ok((numerator, divisor))
    ensures square == FixedPoint.Scaled(q.b * q.b) && fourAC == FixedPoint.Scaled(4 * q.a * q.c)
    ensures root == IntegerRoot((square + fourAC) * WAD) && divisor == 2 * q.a
    ensures if q.symmetric then numerator == root + q.b else numerator + q.b == root
  {
    hide IntegerRoot;
    hide FixedPoint.Scaled;
    assert TryPow(q.b, 2) == TryMul(q.b, q.b) by { SquareOf(q.b); }
    WholeTimes(4, q.a);
    WholeTimes(2, q.a);
    hide TryPow;
    square, fourAC := FixedPoint.Scaled(q.b * q.b), FixedPoint.Scaled(4 * q.a * q.c);
    root := IntegerRoot((square + fourAC) * WAD);
  }

  lemma SquareOf(b: Decimal)
    ensures TryPow(b, 2) == TryMul(b, b)
  {
    assert TryPow(b, 0) == Ok(ONE);
    WholeTimes(1, b);
    assert TryPow(b, 1) == Ok(b);
  }

  lemma DiscriminantRoot(q: Quadratic, numerator: Decimal, divisor: Decimal) returns (r: real)
    requires QuadraticRoot(q.a, q.b, q.symmetric, q.c) == Ok((numerator, divisor))
    ensures r >= 0.0 && Value(divisor) == 2.0 * Value(q.a) && Value(numerator) == r - Signed(q)
    ensures var a, b, c := Value(q.a), Signed(q), Value(q.c);
            && Times(r, r) <= Times(b, b) + 4.0 * Times(a, c)
            && Times(b, b) + 4.0 * Times(a, c) < Times(r + UNIT, r + UNIT) + 2.0 * UNIT
  {
    hide FixedPoint.Scaled;
    hide IntegerRoot;
    hide QuadraticRoot;
    hide Times;
    var square, fourAC, root := StepsOfRoot(q, numerator, divisor);
    r := Value(root);
    RootBounds(square + fourAC, root);
    ValueOfSum(square, fourAC);
    MulError(q.b, q.b);
    MulError(4 * q.a, q.c);
    FourTimes(q.a, Value(q.c));
    SquareOfSigned(q);
    if q.symmetric {
      ValueOfSum(root, q.b);
    } else {
      ValueOfSum(numerator, q.b);
    }
  }

  lemma FourTimes(a: nat, c: real)
    ensures Times(Value(4 * a), c) == 4.0 * Times(Value(a), c) && Value(2 * a) == 2.0 * Value(a)
  {
  }

  lemma SquareOfSigned(q: Quadratic)
    ensures Times(Signed(q), Signed(q)) == Times(Value(q.b), Value(q.b))
  {
  }

  lemma CompleteSquare(a: real, b: real, c: real, y: real, r: real, u: real)
    requires a > 0.0 && u > 0.0 && 2.0 * Times(a, y) + b == r
    requires Times(r, r) <= Times(b, b) + 4.0 * Times(a, c) < Times(r + u, r + u) + 2.0 * u
    ensures var f := Times(a, y * y) + Times(b, y);
            f <= c && 4.0 * Times(a, c - f) < Times(2.0 * r + 2.0 + u, u)
  {
    var f := a * (y * y) + b * y;
    assert r * r == 4.0 * (a * f) + b * b by {
      var v := 2.0 * (a * y);
      assert r * r == v * v + 2.0 * (v * b) + b * b;
      assert v * v == 4.0 * (a * (a * (y * y)));
      assert v * b == 2.0 * (a * (b * y));
      assert a * f == a * (a * (y * y)) + a * (b * y);
    }
    assert a * (c - f) == a * c - a * f;
    SignOfProduct(a, c - f);
    assert (r + u) * (r + u) == r * r + 2.0 * (r * u) + u * u;
    assert (2.0 * r + 2.0 + u) * u == 2.0 * (r * u) + 2.0 * u + u * u;
  }

  lemma HalfShare(x: real, a: real) returns (y: real)
    requires a > 0.0 && x >= 0.0
    ensures y >= 0.0 && 2.0 * Times(a, y) == x && Times(y, 2.0 * a) == x && Times(2.0 * a, y) == x
  {
    y := x / (2.0 * a);
    assert y * (2.0 * a) == x;
    SignOfProduct(2.0 * a, y);
  }

  /** The computed root never exceeds the quadratic's and nearly solves it. */
  lemma RootNearlySolves(q: Quadratic, numerator: Decimal, divisor: Decimal) returns (y: real)
    requires q.a > 0 && QuadraticRoot(q.a, q.b, q.symmetric, q.c) == Ok((numerator, divisor))
    ensures y >= 0.0 && Value(divisor) == 2.0 * Value(q.a) && Times(y, Value(divisor)) == Value(numerator)
    ensures var a, b, c := Value(q.a), Signed(q), Value(q.c);
            && Times(a, y * y) + Times(b, y) <= c
            && 4.0 * Times(a, c - Times(a, y * y) - Times(b, y)) < RootLoss(Times(2.0 * a, y) + b)
  {
    hide Value;
    hide Signed;
    hide QuadraticRoot;
    var r := DiscriminantRoot(q, numerator, divisor);
    PositiveValue(q.a);
    y := HalfShare(Value(numerator), Value(q.a));
    CompleteSquare(Value(q.a), Signed(q), Value(q.c), y, r, UNIT);
  }

  // ---- against the exact balance ----

  /** What all rounding together may leave of the quadratic's value at the computed root: `a` is
      the quadratic term, `r` the discriminant's root, `weight` is `n^n` times the product. */
  function RoundingLoss(a: real, r: real, weight: real, lost: real): real
    requires a > 0.0 && weight > 0.0
  {
    RootLoss(r) / (4.0 * a) + UNIT + Times(lost, UNIT) / weight
  }

  /** The inputs without decimals: everything is truncated once. */
  lemma InputsMeaning(n: nat, d: Decimal, sum: Decimal, product: Decimal)
    requires 0 < n <= U64_MAX && InputsOf(n, d, sum, product).Ok?
    ensures var x := InputsOf(n, d, sum, product).value;
            && var p := Pow(1000, x.exponent);
            && p > 0 && Pow(p, n - 1) > 0 && x.d <= 1000 * WAD && x.d * p <= d < (x.d + 1) * p
            && x.sum == Quotient(sum, p) && x.product == Quotient(product, Pow(p, n - 1)) && x.product >= 1_000_000
  {
    var e := ScaledDown(d, 0).1;
    ScaledDownBounds(d, d, 0);
    PowPositive(1000, e);
    var p := Pow(1000, e);
    hide Pow;
    hide TryPow;
    hide Quotient;
    PowPositive(p, n - 1);
    PowOfWhole(p, n - 1);
    SameQuotient(sum, p, WAD);
    SameQuotient(product, Pow(p, n - 1), WAD);
  }

  /** `y` is at most the exact balance for the scaled-down inputs, and short of it by at most the
      fraction that the rounding loss is of the constant term. */
  ghost predicate NearBalance(y: real, exact: real, amp: nat, n: nat, x: SwapInputs)
    requires n > 0 && Value(x.product) > 0.0
  {
    var a, w := Exact.Amplified(amp as real, n), Exact.WeightedProduct(n, Value(x.product));
    && a > 0.0 && w > 0.0
    && var b := Curve.LinearTerm(a, Value(x.d), Value(x.sum));
    && var c := Curve.ConstantTerm(n, Value(x.d), Value(x.product));
    && 0.0 <= y <= exact
    && Times(exact - y, c) <= Times(RoundingLoss(a, Times(2.0 * a, y) + b, w, Lost(Value(x.d), n + 1)), exact)
  }

  /** The computed root, before it is truncated to a decimal and scaled back, never exceeds the exact
      balance that keeps the invariant for the scaled-down inputs, and nearly reaches it. */
  lemma RootNearExact(n: nat, amp: nat, d: Decimal, sum: Decimal, product: Decimal, x: SwapInputs, exact: real)
    returns (y: real)
    requires 0 < n <= U64_MAX && amp <= U64_MAX && StableRoot(n, FromU64(amp), d, sum, product).Ok?
    requires InputsOf(n, d, sum, product) == Ok(x) && Value(x.product) > 0.0 && x.d > 0
    requires exact > 0.0 && Curve.Balanced(amp as real, n, Value(x.d), Value(x.sum), Value(x.product), exact)
    ensures var (numerator, divisor, e) := StableRoot(n, FromU64(amp), d, sum, product).value;
            Value(divisor) > 0.0 && Times(y, Value(divisor)) == Value(numerator) && e == x.exponent
    ensures NearBalance(y, exact, amp, n, x)
  {
    var q := QuadraticOf(n, FromU64(amp), x).value;
    var (numerator, divisor, _) := StableRoot(n, FromU64(amp), d, sum, product).value;
    InputsMeaning(n, d, sum, product);
    hide QuadraticOf;
    hide QuadraticRoot;
    hide InputsOf;
    hide TermsFor;
    hide NearBalance;
    hide Curve.Balanced;
    hide Value;
    TermsError(n, amp, x);
    y := RootOfTerms(q, amp, n, x, numerator, divisor, exact);
  }

  lemma RootOfTerms(q: Quadratic, amp: nat, n: nat, x: SwapInputs, numerator: Decimal, divisor: Decimal, exact: real)
    returns (y: real)
    requires n > 0 && TermsFor(q, amp, n, x) && Value(x.product) > 0.0 && x.d > 0
    requires QuadraticRoot(q.a, q.b, q.symmetric, q.c) == Ok((numerator, divisor))
    requires exact > 0.0 && Curve.Balanced(amp as real, n, Value(x.d), Value(x.sum), Value(x.product), exact)
    ensures Value(divisor) > 0.0 && Times(y, Value(divisor)) == Value(numerator) && NearBalance(y, exact, amp, n, x)
  {
    hide QuadraticRoot;
    hide Lost;
    hide Times;
    hide RootLoss;
    hide Curve.Solves;
    hide Curve.LinearTerm;
    hide Curve.ConstantTerm;
    hide Exact.Amplified;
    hide Exact.WeightedProduct;
    hide Signed;
    hide Value;
    APositive(q);
    PositiveValue(x.d);
    y := RootNearlySolves(q, numerator, divisor);
    var c, w := Curve.ConstantTerm(n, Value(x.d), Value(x.product)), Exact.WeightedProduct(n, Value(x.product));
    ConstantPositive(n, Value(x.d), Value(x.product));
    NearRoot(Value(q.a), Signed(q), c, Value(q.c), y, exact, RootLoss(Times(2.0 * Value(q.a), y) + Signed(q)),
             Times(Lost(Value(x.d), n + 1), UNIT), w);
  }

  lemma APositive(q: Quadratic)
    requires Value(q.a) > 0.0
    ensures q.a > 0
  {
  }

  lemma ConstantPositive(n: nat, d: real, product: real)
    requires n > 0 && d > 0.0 && product > 0.0
    ensures Exact.WeightedProduct(n, product) > 0.0 && Curve.ConstantTerm(n, d, product) > 0.0
  {
    Curve.ConstantTimesWeight(n, d, product);
    PowerPositive(d, n + 1);
    SignOfProduct(Exact.WeightedProduct(n, product), Curve.ConstantTerm(n, d, product));
  }

  lemma NearRoot(a: real, b: real, c: real, computed: real, y: real, exact: real, rootLoss: real, lost: real, w: real)
    requires a > 0.0 && w > 0.0 && c > 0.0 && y >= 0.0 && exact > 0.0 && Curve.Solves(a, b, c, exact)
    requires Times(a, y * y) + Times(b, y) <= computed <= c && Times(c - computed - UNIT, w) <= lost
    requires 4.0 * Times(a, computed - Times(a, y * y) - Times(b, y)) < rootLoss
    ensures y <= exact && Times(exact - y, c) <= Times(rootLoss / (4.0 * a) + UNIT + lost / w, exact)
  {
    var f := a * (y * y) + b * y;
    var loss := rootLoss / (4.0 * a) + UNIT + lost / w;
    if y > 0.0 {
      Curve.RootDecides(a, b, c, exact, y);
    }
    assert c - f <= loss by {
      assert (rootLoss / (4.0 * a)) * (4.0 * a) == rootLoss;
      assert (4.0 * a) * (rootLoss / (4.0 * a) - (computed - f)) >= 0.0;
      SignOfProduct(4.0 * a, rootLoss / (4.0 * a) - (computed - f));
      assert (lost / w) * w == lost;
      assert w * (lost / w - (c - computed - UNIT)) >= 0.0;
      SignOfProduct(w, lost / w - (c - computed - UNIT));
    }
    GapTimesConstant(a, b, c, y, exact, c - f);
    assert (loss - (c - f)) * exact >= 0.0;
  }

  lemma GapTimesConstant(a: real, b: real, c: real, y: real, exact: real, gap: real)
    requires a > 0.0 && 0.0 <= y <= exact && Curve.Solves(a, b, c, exact)
    requires gap == c - (a * (y * y) + b * y)
    ensures (exact - y) * c <= gap * exact
  {
    var l := exact - y;
    assert gap == l * (a * (exact + y) + b);
    assert (a * (exact + y) + b) * exact == c + (a * y) * exact;
    assert gap * exact == l * (c + (a * y) * exact);
    assert (a * y) * exact >= 0.0;
    assert l * ((a * y) * exact) >= 0.0;
  }

  /** The computed balance, in whole tokens: the root truncated to a decimal and scaled back
      exactly. It never exceeds the exact balance for the scaled-down inputs, scaled back. */
  lemma BalanceNearExact(n: nat, amp: nat, d: Decimal, sum: Decimal, product: Decimal, x: SwapInputs, exact: real)
    returns (y: real)
    requires 0 < n <= U64_MAX && amp <= U64_MAX && StableBalance(n, FromU64(amp), d, sum, product).Ok?
    requires InputsOf(n, d, sum, product) == Ok(x) && Value(x.product) > 0.0 && x.d > 0
    requires exact > 0.0 && Curve.Balanced(amp as real, n, Value(x.d), Value(x.sum), Value(x.product), exact)
    ensures NearBalance(y, exact, amp, n, x)
    ensures var balance := Value(StableBalance(n, FromU64(amp), d, sum, product).value);
            var p := Pow(1000, x.exponent) as real;
            && p > 0.0 && balance <= Times(y, p) < balance + Times(UNIT, p) && balance <= Times(exact, p)
  {
    hide Curve.Balanced;
    hide Value;
    hide InputsOf;
    hide StableRoot;
    hide Pow;
    hide TryPow;
    hide Times;
    y := RootNearExact(n, amp, d, sum, product, x, exact);
    var (numerator, divisor, e) := StableRoot(n, FromU64(amp), d, sum, product).value;
    var q := Quotient(numerator * WAD, divisor);
    hide Quotient;
    PowOfWhole(1000, e);
    PowPositive(1000, e);
    BalanceInWhole(q, Pow(1000, e));
    DivError(numerator, divisor);
    NearAtMost(y, exact, amp, n, x);
    BetweenQuotients(Value(q), y, exact, Value(divisor), UNIT, Pow(1000, e) as real);
  }

  lemma BalanceInWhole(q: nat, p: nat)
    ensures FixedPoint.Scaled(q * (p * WAD)) == q * p && Value(q * p) == Times(Value(q), p as real)
  {
    assert q * (p * WAD) == (q * p) * WAD;
    assert (q * p) as real == q as real * p as real;
  }

  lemma NearAtMost(y: real, exact: real, amp: nat, n: nat, x: SwapInputs)
    requires n > 0 && Value(x.product) > 0.0 && NearBalance(y, exact, amp, n, x)
    ensures 0.0 <= y <= exact
  {
  }

  lemma BetweenQuotients(q: real, y: real, exact: real, divisor: real, u: real, p: real)
    requires divisor > 0.0 && p > 0.0 && y <= exact
    requires Times(q, divisor) <= Times(y, divisor) < Times(q + u, divisor)
    ensures Times(q, p) <= Times(y, p) < Times(q, p) + Times(u, p) && Times(q, p) <= Times(exact, p)
  {
    assert divisor * (y - q) == y * divisor - q * divisor;
    SignOfProduct(divisor, y - q);
    assert divisor * (q + u - y) == (q + u) * divisor - y * divisor;
    SignOfProduct(divisor, q + u - y);
    assert p * (y - q) >= 0.0 && p * (q + u - y) > 0.0 && p * (exact - y) >= 0.0;
  }
}
