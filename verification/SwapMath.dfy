/** The arithmetic of swaps: the constant product rule and the stable curve's quadratic in
    fixed-point arithmetic. */
module SwapMath {
  import opened Results
  import opened FixedPoint
  import opened AmmHelpers
  import opened StableInvariant

  function Product(xs: seq<nat>): nat {
    if xs == [] then 1 else Product(xs[..|xs| - 1]) * xs[|xs| - 1]
  }

  /** Checked left-to-right product of whole amounts. */
  function FoldProduct(xs: seq<nat>): Result<Decimal>
    requires AmountsFit(xs)
  {
    if xs == [] then Ok(ONE)
    else
      var acc :- FoldProduct(xs[..|xs| - 1]);
      TryMul(acc, FromU64(xs[|xs| - 1]))
  }

  predicate Positive(xs: seq<nat>) {
    forall i :: 0 <= i < |xs| ==> xs[i] > 0
  }

  lemma {:induction false} ProductPositive(xs: seq<nat>)
    requires Positive(xs)
    ensures Product(xs) > 0
  {
    if xs != [] {
      ProductPositive(xs[..|xs| - 1]);
      MulMono(1, xs[|xs| - 1], Product(xs[..|xs| - 1]));
    }
  }

  /** The fold is the exact product and fails only when that is out of range. */
  lemma {:induction false} FoldProductIsProduct(xs: seq<nat>)
    requires AmountsFit(xs) && Positive(xs)
    ensures FoldProduct(xs) == Checked(Product(xs) * WAD)
  {
    if xs != [] {
      var front, x := xs[..|xs| - 1], xs[|xs| - 1];
      FoldProductIsProduct(front);
      ExactProduct(Product(front), x);
      MulMono(1, x, Product(front) * WAD);
      assert x * (Product(front) * WAD) == Product(front) * x * WAD;
    }
  }

  function Without(xs: seq<nat>, i: nat): seq<nat>
    requires i < |xs|
  {
    xs[..i] + xs[i + 1..]
  }

  lemma {:induction false} ProductWithout(xs: seq<nat>, i: nat)
    requires i < |xs|
    ensures Product(xs) == xs[i] * Product(Without(xs, i))
  {
    var front, x := xs[..|xs| - 1], xs[|xs| - 1];
    if i == |xs| - 1 {
      assert Without(xs, i) == front;
    } else {
      ProductWithout(front, i);
      assert Without(xs, i) == Without(front, i) + [x];
      assert (Without(front, i) + [x])[..|xs| - 2] == Without(front, i);
      assert xs[i] * Product(Without(front, i)) * x == xs[i] * (Product(Without(front, i)) * x);
    }
  }

  /** The reserves other than `buy` once `sold` tokens were added to reserve `sell`. */
  function OthersAfterSale(xs: seq<nat>, sell: nat, sold: nat, buy: nat): seq<nat>
    requires sell < |xs| && buy < |xs|
  {
    Without(xs[sell := xs[sell] + sold], buy)
  }

  /** Balance of the bought reserve that keeps the product of all reserves. */
  function ConstProdBalance(xs: seq<nat>, others: seq<nat>): Result<Decimal>
    requires AmountsFit(xs) && AmountsFit(others)
  {
    var product :- FoldProduct(others);
    var k :- FoldProduct(xs);
    TryDiv(k, product)
  }

  /** Tokens received on a constant product pool. */
  function CalculateSwap(xs: seq<nat>, sell: nat, sold: nat, buy: nat): Result<nat>
    requires AmountsFit(xs) && sell < |xs| && buy < |xs|
  {
    if !Positive(xs) || sold >= xs[sell] then Err(InvalidArg)
    else if xs[sell] + sold > U64_MAX then Err(MathOverflow)
    else
      var balance :- ConstProdBalance(xs, OthersAfterSale(xs, sell, sold, buy));
      var received :- TrySub(FromU64(xs[buy]), balance);
      TryFloor(received)
  }

  /** The reserves after the swap; nothing in the arithmetic keeps a reserve from being traded
      for itself. */
  function Swapped(xs: seq<nat>, sell: nat, sold: nat, buy: nat, bought: nat): seq<nat>
    requires sell < |xs| && buy < |xs| && bought <= xs[buy]
  {
    var ys := xs[sell := xs[sell] + sold];
    ys[buy := ys[buy] - bought]
  }

  /** Without decimals: what is left of the bought reserve is the old product over the other
      reserves' product, first truncated to 10^-18 and then rounded up to whole tokens. */
  lemma SwapLeaves(xs: seq<nat>, sell: nat, sold: nat, buy: nat)
    requires AmountsFit(xs) && sell < |xs| && buy < |xs| && sell != buy
    requires CalculateSwap(xs, sell, sold, buy).Ok?
    ensures var others := OthersAfterSale(xs, sell, sold, buy);
            var bought := CalculateSwap(xs, sell, sold, buy).value;
            && Positive(xs) && sold < xs[sell] && Positive(others) && Product(others) > 0
            && bought <= xs[buy]
            && xs[buy] - bought == CeilDiv(Quotient(Product(xs) * WAD, Product(others)), WAD)
  {
    var others := OthersAfterSale(xs, sell, sold, buy);
    var bought := CalculateSwap(xs, sell, sold, buy).value;
    FoldProductIsProduct(others);
    FoldProductIsProduct(xs);
    ProductPositive(others);
    BalanceIsQuotient(Product(xs), Product(others));
    hide Product;
    hide FoldProduct;
    hide OthersAfterSale;
    FloorOfDifference(xs[buy], Quotient(Product(xs) * WAD, Product(others)), bought);
  }

  lemma BalanceIsQuotient(k: nat, p: nat)
    requires p > 0
    ensures Checked(p * WAD).Ok? && Checked(k * WAD).Ok? ==>
              TryDiv(Checked(k * WAD).value, Checked(p * WAD).value) == Checked(Quotient(k * WAD, p))
  {
    TruncatedQuotient(k, p);
  }

  lemma TruncatedQuotient(k: nat, p: nat)
    requires p > 0
    ensures p * WAD > 0 && Quotient(k * WAD * WAD, p * WAD) == Quotient(k * WAD, p)
  {
    SameQuotient(k * WAD, p, WAD);
  }

  lemma FloorOfDifference(x: nat, balance: nat, bought: nat)
    requires balance <= x * WAD && bought == (x * WAD - balance) / WAD
    ensures bought <= x && x - bought == CeilDiv(balance, WAD)
  {
    CeilIsSmallest(balance, WAD, x - bought);
  }

  /** A swap between two reserves is accepted exactly if no reserve is empty, less is sold than the
      reserve holds, the sold reserve stays in range, and both products are in range. */
  lemma SwapSucceedsIff(xs: seq<nat>, sell: nat, sold: nat, buy: nat)
    requires AmountsFit(xs) && sell < |xs| && buy < |xs| && sell != buy
    ensures CalculateSwap(xs, sell, sold, buy).Ok? <==>
              && Positive(xs) && sold < xs[sell] && xs[sell] + sold <= U64_MAX
              && Product(xs) * WAD < U192_LIMIT && Product(OthersAfterSale(xs, sell, sold, buy)) * WAD < U192_LIMIT
  {
    hide Product;
    hide FoldProduct;
    if Positive(xs) && sold < xs[sell] && xs[sell] + sold <= U64_MAX {
      var others := OthersAfterSale(xs, sell, sold, buy);
      var k, p := Product(xs), Product(others);
      FoldProductIsProduct(xs);
      FoldProductIsProduct(others);
      ProductPositive(others);
      ProductsAroundSale(xs, sell, sold, buy);
      MulMono(xs[sell], xs[sell] + sold, Product(Without(xs, sell)));
      BalanceIsQuotient(k, p);
      BalanceWithin(xs[buy], k, p);
    }
  }

  lemma BalanceWithin(x: nat, k: nat, p: nat)
    requires p > 0 && k <= x * p
    ensures Quotient(k * WAD, p) <= x * WAD && Quotient(k * WAD, p) <= k * WAD
  {
    MulMono(k, x * p, WAD);
    assert (x * p) * WAD == (x * WAD) * p;
    CancelMul(Quotient(k * WAD, p), x * WAD, p);
    MulMono(1, p, k * WAD);
    CancelMul(Quotient(k * WAD, p), k * WAD, p);
  }

  /** The bought reserve stays positive; the product of the reserves falls by less than a
      10^18-th of the other reserves' product, and not at all while that is at most 10^18. */
  lemma SwapKeepsProduct(xs: seq<nat>, sell: nat, sold: nat, buy: nat)
    requires AmountsFit(xs) && sell < |xs| && buy < |xs| && sell != buy
    requires CalculateSwap(xs, sell, sold, buy).Ok?
    ensures var bought := CalculateSwap(xs, sell, sold, buy).value;
            var p := Product(OthersAfterSale(xs, sell, sold, buy));
            && bought < xs[buy]
            && Product(xs) * WAD < Product(Swapped(xs, sell, sold, buy, bought)) * WAD + p
            && (p <= WAD ==> Product(xs) <= Product(Swapped(xs, sell, sold, buy, bought)))
  {
    hide Product;
    hide CalculateSwap;
    hide OthersAfterSale;
    hide Swapped;
    hide Quotient;
    hide CeilDiv;
    var bought := CalculateSwap(xs, sell, sold, buy).value;
    SwapLeaves(xs, sell, sold, buy);
    ProductAfterSwap(xs, sell, sold, buy, bought);
    SaleAtMostDoubles(xs, sell, sold, buy);
    KeptProduct(xs[buy], Product(xs), Product(OthersAfterSale(xs, sell, sold, buy)), xs[buy] - bought);
  }

  lemma ProductAfterSwap(xs: seq<nat>, sell: nat, sold: nat, buy: nat, bought: nat)
    requires sell < |xs| && buy < |xs| && sell != buy && bought <= xs[buy]
    ensures Product(Swapped(xs, sell, sold, buy, bought))
            == (xs[buy] - bought) * Product(OthersAfterSale(xs, sell, sold, buy))
  {
    var ys := Swapped(xs, sell, sold, buy, bought);
    assert Without(ys, buy) == OthersAfterSale(xs, sell, sold, buy);
    ProductWithout(ys, buy);
  }

  lemma KeptProduct(x: nat, k: nat, p: nat, left: nat)
    requires x > 0 && p > 0 && x * p < 2 * k && left == CeilDiv(Quotient(k * WAD, p), WAD)
    ensures left > 0 && k * WAD < (left * p) * WAD + p
    ensures p <= WAD ==> k <= left * p
  {
    LeftPositive(x, k, p);
    RoundingKeepsProduct(k, p, left);
  }

  lemma RoundingKeepsProduct(k: nat, p: nat, left: nat)
    requires p > 0 && left == CeilDiv(Quotient(k * WAD, p), WAD)
    ensures k * WAD < (left * p) * WAD + p
    ensures p <= WAD ==> k <= left * p
  {
    var q := Quotient(k * WAD, p);
    MulMono(q + 1, left * WAD + 1, p);
    assert (left * WAD + 1) * p == (left * p) * WAD + p;
  }

  lemma ProductsAroundSale(xs: seq<nat>, sell: nat, sold: nat, buy: nat)
    requires sell < |xs| && buy < |xs| && sell != buy && Positive(xs)
    ensures xs[buy] * Product(OthersAfterSale(xs, sell, sold, buy)) == (xs[sell] + sold) * Product(Without(xs, sell))
    ensures Product(xs) == xs[sell] * Product(Without(xs, sell)) && Product(Without(xs, sell)) > 0
  {
    hide Product;
    var ys := xs[sell := xs[sell] + sold];
    ProductWithout(ys, buy);
    ProductWithout(ys, sell);
    ProductWithout(xs, sell);
    assert Without(ys, sell) == Without(xs, sell);
    ProductPositive(Without(xs, sell));
  }

  /** Selling less than a reserve holds less than doubles the other reserves' product. */
  lemma SaleAtMostDoubles(xs: seq<nat>, sell: nat, sold: nat, buy: nat)
    requires sell < |xs| && buy < |xs| && sell != buy && sold < xs[sell] && Positive(xs)
    ensures xs[buy] * Product(OthersAfterSale(xs, sell, sold, buy)) < 2 * Product(xs)
  {
    hide Product;
    ProductsAroundSale(xs, sell, sold, buy);
    DoubledBelow(xs[sell], sold, Product(Without(xs, sell)));
  }

  lemma DoubledBelow(x: nat, sold: nat, rest: nat)
    requires sold < x && rest > 0
    ensures (x + sold) * rest < 2 * (x * rest)
  {
    MulMonoStrict(x + sold, 2 * x, rest);
    assert (2 * x) * rest == 2 * (x * rest);
  }

  lemma LeftPositive(x: nat, k: nat, p: nat)
    requires x > 0 && p > 0 && x * p < 2 * k
    ensures CeilDiv(Quotient(k * WAD, p), WAD) > 0
  {
    MulMono(1, x, p);
    assert p <= k * WAD;
    QuotientIsLargest(k * WAD, p, 1);
  }

  /** Selling the proceeds straight back returns at most what was sold, while the other
      reserves' product is at most 10^18. */
  lemma SellingBackNeverGains(xs: seq<nat>, sell: nat, sold: nat, buy: nat)
    requires AmountsFit(xs) && sell < |xs| && buy < |xs| && sell != buy
    requires CalculateSwap(xs, sell, sold, buy).Ok?
    requires Product(OthersAfterSale(xs, sell, sold, buy)) <= WAD
    ensures CalculateSwap(xs, sell, sold, buy).value <= xs[buy]
    ensures var bought := CalculateSwap(xs, sell, sold, buy).value;
            var ys := Swapped(xs, sell, sold, buy, bought);
            && AmountsFit(ys)
            && (CalculateSwap(ys, buy, bought, sell).Ok? ==> CalculateSwap(ys, buy, bought, sell).value <= sold)
  {
    hide Product;
    hide FoldProduct;
    SwapKeepsProduct(xs, sell, sold, buy);
    var bought := CalculateSwap(xs, sell, sold, buy).value;
    var ys := Swapped(xs, sell, sold, buy, bought);
    if CalculateSwap(ys, buy, bought, sell).Ok? {
      var others := OthersAfterSale(ys, buy, bought, sell);
      SwapLeaves(ys, buy, bought, sell);
      assert others == Without(xs, sell);
      ProductWithout(xs, sell);
      AtLeastWhole(xs[sell], Product(ys), Product(others));
    }
  }

  lemma AtLeastWhole(x: nat, k: nat, p: nat)
    requires p > 0 && x * p <= k
    ensures x <= CeilDiv(Quotient(k * WAD, p), WAD)
  {
    MulMono(x * p, k, WAD);
    assert (x * WAD) * p == (x * p) * WAD;
    QuotientIsLargest(k * WAD, p, x * WAD);
    var c := CeilDiv(Quotient(k * WAD, p), WAD);
    CancelMul(x, c, WAD);
  }

  /** Adding the swap fee to the sold reserve only raises the product. */
  lemma FeeRaisesProduct(xs: seq<nat>, i: nat, fee: nat)
    requires i < |xs|
    ensures Product(xs) <= Product(xs[i := xs[i] + fee])
  {
    var ys := xs[i := xs[i] + fee];
    ProductWithout(xs, i);
    ProductWithout(ys, i);
    assert Without(ys, i) == Without(xs, i);
    MulMono(xs[i], xs[i] + fee, Product(Without(xs, i)));
  }

  // ---- swap fee ----

  const MILLION: nat := 1_000_000

  /** A share given in millionths, as a decimal. */
  function FromPermillion(share: nat): nat {
    share * (WAD / MILLION)
  }

  /** `share - share * discount` */
  function DiscountedShare(feeShare: nat, discount: Option<nat>): Result<Decimal>
    requires feeShare <= MILLION && (discount.Some? ==> discount.value <= MILLION)
  {
    var full: Decimal := FromPermillion(feeShare);
    if discount.None? then Ok(full)
    else
      var off :- TryMul(full, FromPermillion(discount.value));
      TrySub(full, off)
  }

  /** The fee share's part of the sale, rounded up. */
  function CalculateSwapFee(sell: nat, feeShare: nat, discount: Option<nat>): Result<nat>
    requires sell <= U64_MAX && feeShare <= MILLION && (discount.Some? ==> discount.value <= MILLION)
  {
    var share :- DiscountedShare(feeShare, discount);
    var fee :- TryMul(FromU64(sell), share);
    TryCeil(fee)
  }

  /** A discount is at most the whole share. */
  lemma DiscountedShareAtMostOne(feeShare: nat, discount: Option<nat>)
    requires feeShare <= MILLION && (discount.Some? ==> discount.value <= MILLION)
    ensures DiscountedShare(feeShare, discount).Ok? && DiscountedShare(feeShare, discount).value <= WAD
  {
    if discount.Some? {
      var full, part := FromPermillion(feeShare), FromPermillion(discount.value);
      MulMono(part, WAD, full);
      DivBounds(full * part, WAD);
      CancelMul(Scaled(full * part), full, WAD);
    }
  }

  /** The fee can always be computed and never exceeds what is sold. */
  lemma FeeWithinSale(sell: nat, feeShare: nat, discount: Option<nat>)
    requires sell <= U64_MAX && feeShare <= MILLION && (discount.Some? ==> discount.value <= MILLION)
    ensures CalculateSwapFee(sell, feeShare, discount).Ok?
    ensures CalculateSwapFee(sell, feeShare, discount).value <= sell
  {
    hide DiscountedShare;
    DiscountedShareAtMostOne(feeShare, discount);
    var share := DiscountedShare(feeShare, discount).value;
    MulWhole(sell, share);
    MulMono(share, WAD, sell);
    CeilIsSmallest(sell * share, WAD, sell);
  }

  /** The fee share less its discount, both in millionths, in millionths of a millionth. */
  function NetShare(feeShare: nat, discount: Option<nat>): nat
    requires discount.Some? ==> discount.value <= MILLION
  {
    feeShare * (MILLION - if discount.Some? then discount.value else 0)
  }

  /** The fee is the exact part of the sale that the share less its discount amounts to, rounded
      up once: no other rounding takes effect. */
  lemma FeeIsExactShare(sell: nat, feeShare: nat, discount: Option<nat>)
    requires sell <= U64_MAX && feeShare <= MILLION && (discount.Some? ==> discount.value <= MILLION)
    ensures CalculateSwapFee(sell, feeShare, discount)
            == Ok(CeilDiv(sell * NetShare(feeShare, discount), MILLION * MILLION))
  {
    var rest := NetShare(feeShare, discount);
    FeeWithinSale(sell, feeShare, discount);
    DiscountIsExact(feeShare, discount);
    hide DiscountedShare;
    hide NetShare;
    MulWhole(sell, rest * MILLION);
    assert sell * (rest * MILLION) == (sell * rest) * MILLION;
    SameCeiling(sell * rest, MILLION * MILLION, MILLION);
  }

  lemma DiscountIsExact(feeShare: nat, discount: Option<nat>)
    requires feeShare <= MILLION && (discount.Some? ==> discount.value <= MILLION)
    ensures DiscountedShare(feeShare, discount) == Ok(NetShare(feeShare, discount) * MILLION)
  {
    if discount.Some? {
      var d := discount.value;
      MulMono(d, MILLION, feeShare);
      assert d * feeShare == feeShare * d;
      var full, part := FromPermillion(feeShare), FromPermillion(d);
      assert full * part == (feeShare * d * MILLION) * WAD by {
        assert full * part == (feeShare * d) * (MILLION * WAD);
      }
      assert Scaled(full * part) == feeShare * d * MILLION;
      assert feeShare * (MILLION - d) == feeShare * MILLION - feeShare * d;
    }
  }

  // ---- the stable curve's quadratic ----

  /** The largest integer whose square is at most `n`. */
  function IntegerRoot(n: nat): (r: nat)
    ensures r * r <= n < (r + 1) * (r + 1)
  {
    if n == 0 then 0
    else
      var r := IntegerRoot(n - 1);
      if (r + 1) * (r + 1) <= n then r + 1 else r
  }

  function TrySqrt(x: Decimal): Result<Decimal> {
    Checked(IntegerRoot(x * WAD))
  }

  /** Invariant, and sum and product of the other reserves, scaled down by `1000^exponent`. */
  datatype SwapInputs = SwapInputs(d: Decimal, sum: Decimal, product: Decimal, exponent: nat)

  function InputsOf(n: nat, d: Decimal, sum: Decimal, product: Decimal): Result<SwapInputs>
    requires 0 < n <= U64_MAX
  {
    var (scaledD, exponent) := ScaledDown(d, 0);
    if Pow(1000, exponent) > U64_MAX then Err(MathOverflow)
    else
      var scale: Decimal := FromU64(Pow(1000, exponent));
      var productScale :- TryPow(scale, n - 1);
      var scaledProduct :- TryDiv(product, productScale);
      if scaledProduct < 1_000_000 then Err(MathOverflow)
      else
        var scaledSum :- TryDiv(sum, scale);
        Ok(SwapInputs(scaledD, scaledSum, scaledProduct, exponent))
  }

  /** The terms of `a y^2 + b y - c`; `b` is negative if `symmetric`. */
  datatype Quadratic = Quadratic(a: Decimal, b: Decimal, symmetric: bool, c: Decimal)

  function QuadraticOf(n: nat, amp: Decimal, x: SwapInputs): Result<Quadratic>
    requires 0 < n <= U64_MAX
  {
    var nn :- TryPow(FromU64(n), n);
    var quadratic :- TryMul(nn, amp);
    var annLess :- TrySub(quadratic, ONE);
    var first :- TryMul(x.d, annLess);
    var second :- TryMul(quadratic, x.sum);
    var symmetric := second < first;
    var b: Decimal := if symmetric then first - second else second - first;
    var power :- TryPow(x.d, n + 1);
    var nnProduct :- TryMul(nn, x.product);
    var constant :- TryDiv(power, nnProduct);
    Ok(Quadratic(quadratic, b, symmetric, constant))
  }

  /** The quadratic of the bought reserve's balance on a stable pool, scaled down: its root is
      `numerator / divisor`, where the sign of the linear term decides which difference is
      formed, and is to be scaled back by `1000^exponent`. */
  function StableRoot(n: nat, amp: Decimal, d: Decimal, sum: Decimal, product: Decimal): Result<(Decimal, Decimal, nat)>
    requires 0 < n <= U64_MAX
  {
    var x :- InputsOf(n, d, sum, product);
    var q :- QuadraticOf(n, amp, x);
    var (numerator, divisor) :- QuadraticRoot(q.a, q.b, q.symmetric, q.c);
    Ok((numerator, divisor, x.exponent))
  }

  /** Numerator and divisor of the positive root of `a y^2 + b y - c`, for negative `b` if
      `symmetric`. */
  function QuadraticRoot(a: Decimal, b: Decimal, symmetric: bool, c: Decimal): Result<(Decimal, Decimal)> {
    var bb :- TryPow(b, 2);
    var fourA :- TryMul(FromU64(4), a);
    var fourAC :- TryMul(fourA, c);
    var discriminant :- TryAdd(bb, fourAC);
    var root :- TrySqrt(discriminant);
    var twoA :- TryMul(FromU64(2), a);
    if symmetric then
      var numerator :- TryAdd(root, b);
      Ok((numerator, twoA))
    else if root < b then Err(InvariantViolation)
    else Ok((root - b, twoA))
  }

  /** Balance of the bought reserve on a stable pool. */
  function StableBalance(n: nat, amp: Decimal, d: Decimal, sum: Decimal, product: Decimal): Result<Decimal>
    requires 0 < n <= U64_MAX
  {
    var (numerator, divisor, exponent) :- StableRoot(n, amp, d, sum, product);
    var y :- TryDiv(numerator, divisor);
    var back :- TryPow(FromU64(1000), exponent);
    TryMul(y, back)
  }

  /** The balance is 0 exactly if the quadratic's root is below the smallest decimal. */
  lemma StableBalanceZeroIff(n: nat, amp: Decimal, d: Decimal, sum: Decimal, product: Decimal)
    requires 0 < n <= U64_MAX && StableBalance(n, amp, d, sum, product).Ok?
    ensures StableBalance(n, amp, d, sum, product).value == 0
            <==> var (numerator, divisor, _) := StableRoot(n, amp, d, sum, product).value; numerator * WAD < divisor
  {
    hide StableRoot;
    hide TryPow;
    hide Pow;
    var (numerator, divisor, exponent) := StableRoot(n, amp, d, sum, product).value;
    var y := TryDiv(numerator, divisor).value;
    PowOfWhole(1000, exponent);
    PowPositive(1000, exponent);
    ScaledBack(y, Pow(1000, exponent));
    if y > 0 {
      MulMono(1, y, divisor);
    }
  }

  lemma SquareIsTruncated(b: Decimal)
    requires TryPow(b, 2).Ok?
    ensures TryPow(b, 2).value * WAD <= b * b
  {
    assert TryPow(b, 0) == Ok(ONE);
    assert Scaled(ONE * b) == b;
    assert TryPow(b, 1) == Ok(b);
    DivBounds(b * b, WAD);
  }

  lemma SquareOrder(a: nat, b: nat)
    ensures a * a < b * b ==> a < b
  {
    if b <= a {
      MulMono(b, a, a);
      MulMono(b, a, b);
    }
  }

  lemma RootAtMost(n: nat, b: nat)
    requires n <= b * b
    ensures IntegerRoot(n) <= b
  {
    var r := IntegerRoot(n);
    SquareOrder(r, b + 1);
    assert b * b < (b + 1) * (b + 1);
  }

  /** Without a constant term the computed root, if there is one, is 0. */
  lemma NoConstantNoRoot(a: Decimal, b: Decimal)
    requires QuadraticRoot(a, b, false, 0).Ok?
    ensures QuadraticRoot(a, b, false, 0).value.0 == 0
  {
    hide TryPow;
    hide IntegerRoot;
    SquareIsTruncated(b);
    RootAtMost(TryPow(b, 2).value * WAD, b);
    var fourA := TryMul(FromU64(4), a).value;
    assert fourA * 0 == 0;
  }

  /** For an invariant of 0 the quadratic has no constant term, and its linear term is positive. */
  lemma ZeroInvariantZeroRoot(n: nat, amp: Decimal, sum: Decimal, product: Decimal)
    requires 0 < n <= U64_MAX && StableRoot(n, amp, 0, sum, product).Ok?
    ensures StableRoot(n, amp, 0, sum, product).value.0 == 0
  {
    hide TryPow;
    hide QuadraticRoot;
    var x := InputsOf(n, 0, sum, product).value;
    var q := QuadraticOf(n, amp, x).value;
    ZeroInvariantTerms(n, amp, x);
    hide InputsOf;
    hide QuadraticOf;
    NoConstantNoRoot(q.a, q.b);
  }

  lemma ZeroInvariantTerms(n: nat, amp: Decimal, x: SwapInputs)
    requires 0 < n <= U64_MAX && x.d == 0 && QuadraticOf(n, amp, x).Ok?
    ensures QuadraticOf(n, amp, x).value.c == 0 && !QuadraticOf(n, amp, x).value.symmetric
  {
    hide TryPow;
    PowerOfZero(n + 1);
    var nn := TryPow(FromU64(n), n).value;
    var annLess := TrySub(TryMul(nn, amp).value, ONE).value;
    assert 0 * annLess == 0;
    assert TryDiv(0, TryMul(nn, x.product).value) == Ok(0);
  }

  lemma ScaledBack(y: nat, k: nat)
    requires k > 0
    ensures Scaled(y * (k * WAD)) == y * k && (y * k == 0 <==> y == 0)
  {
    assert y * (k * WAD) == (y * k) * WAD;
    MulMono(1, k, y);
  }
}
