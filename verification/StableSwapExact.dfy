/** The stable curve's swap in exact arithmetic: the quadratic that yields the bought
    reserve's new balance preserves the invariant `D`. */
module StableSwapExact {
  import opened ExactPowers
  import opened NewtonExact

  // ---- the quadratic a y^2 + b y = c ----

  /** The positive root, computed without subtracting from a negative coefficient; `s` is the
      square root of the discriminant. */
  function PositiveRoot(a: real, b: real, s: real): real
    requires a > 0.0
  {
    if b < 0.0 then (s + -b) / (2.0 * a) else (s - b) / (2.0 * a)
  }

  /** `s` is the non-negative square root of `x`. */
  predicate SquareRoot(s: real, x: real) {
    s >= 0.0 && s * s == x
  }

  predicate Solves(a: real, b: real, c: real, y: real) {
    a * (y * y) + b * y == c
  }

  predicate Exceeds(a: real, b: real, c: real, y: real) {
    a * (y * y) + b * y > c
  }

  /** Both branches compute the positive root. */
  lemma RootSolves(a: real, b: real, c: real, s: real)
    requires a > 0.0 && c > 0.0 && SquareRoot(s, b * b + 4.0 * (a * c))
    ensures PositiveRoot(a, b, s) == (s - b) / (2.0 * a)
    ensures PositiveRoot(a, b, s) > 0.0 && Solves(a, b, c, PositiveRoot(a, b, s))
  {
    var y := PositiveRoot(a, b, s);
    var v := 2.0 * a * y;
    assert v == s - b;
    RootAboveCoefficient(b, s, a * c);
    SignOfProduct(2.0 * a, y);
    CompletedSquare(a, b, c, y, s);
  }

  lemma RootAboveCoefficient(b: real, s: real, ac: real)
    requires ac > 0.0 && s >= 0.0 && s * s == b * b + 4.0 * ac
    ensures s > b
  {
    if s <= b {
      ProductMonotone(s, b, s, b);
    }
  }

  lemma CompletedSquare(a: real, b: real, c: real, y: real, s: real)
    requires a > 0.0 && s == 2.0 * a * y + b && s * s == b * b + 4.0 * (a * c)
    ensures Solves(a, b, c, y)
  {
    assert s * s == 4.0 * (a * (a * (y * y))) + 4.0 * (a * (b * y)) + b * b;
    var gap := a * (y * y) + b * y - c;
    assert a * gap == a * (a * (y * y)) + a * (b * y) - a * c;
    SignOfProduct(a, gap);
  }

  /** The quadratic changes sign at its positive root only. */
  lemma RootDecides(a: real, b: real, c: real, y: real, z: real)
    requires a > 0.0 && c > 0.0 && y > 0.0 && z > 0.0 && Solves(a, b, c, y)
    ensures Exceeds(a, b, c, z) <==> z > y
    ensures Solves(a, b, c, z) <==> z == y
  {
    var slope := a * y + b;
    assert y * slope == c by {
      assert y * slope == a * (y * y) + b * y;
    }
    SignOfProduct(y, slope);
    var factor := slope + a * z;
    assert a * z > 0.0;
    assert factor * (z - y) == a * (z * z) + b * z - c by {
      assert factor * (z - y) == a * y * z + b * z + a * (z * z) - (a * (y * y) + b * y) - a * z * y;
    }
    SignOfProduct(factor, z - y);
  }

  // ---- the stable curve's equation in one balance ----

  function Without(xs: seq<real>, i: nat): seq<real>
    requires i < |xs|
  {
    xs[..i] + xs[i + 1..]
  }

  lemma {:induction false} FoldsWithout(xs: seq<real>, i: nat)
    requires i < |xs|
    ensures Sum(xs) == Sum(Without(xs, i)) + xs[i]
    ensures Product(xs) == Times(Product(Without(xs, i)), xs[i])
  {
    var front, x := xs[..|xs| - 1], xs[|xs| - 1];
    if i == |xs| - 1 {
      assert Without(xs, i) == front;
    } else {
      var rest := Without(front, i);
      assert Without(xs, i) == rest + [x];
      assert (rest + [x])[..|rest|] == rest;
      assert Sum(xs) == Sum(front) + x && Sum(rest + [x]) == Sum(rest) + x;
      hide *;
      FoldsWithout(front, i);
      ProductLast(xs);
      ProductLast(rest + [x]);
      SwapFactors(Product(rest), xs[i], x);
    }
  }

  lemma SwapFactors(p: real, x: real, y: real)
    ensures Times(Times(p, x), y) == Times(Times(p, y), x)
  {
  }

  /** `b`: `A n^n sum - D (A n^n - 1)` for the sum of the other balances. */
  function LinearTerm(an: real, d: real, sum: real): real {
    an * sum - d * (an - 1.0)
  }

  /** `c`: `D^(n+1) / (n^n product)` for the product of the other balances. */
  function ConstantTerm(n: nat, d: real, product: real): real
    requires n > 0 && product > 0.0
  {
    PowerPositive(n as real, n);
    Power(d, n + 1) / WeightedProduct(n, product)
  }

  /** Balance `x` beside the given others satisfies the curve's equation for `d`. */
  predicate Balanced(amp: real, n: nat, d: real, sum: real, product: real, x: real)
    requires n > 0 && product > 0.0
  {
    Solves(Amplified(amp, n), LinearTerm(Amplified(amp, n), d, sum), ConstantTerm(n, d, product), x)
  }

  /** The curve's equation holds for the reserves exactly when each balance solves the
      quadratic given by the others. */
  lemma EquationInOneBalance(amp: real, xs: seq<real>, i: nat, d: real)
    requires Positive(xs) && i < |xs| && |xs| > 1
    ensures Product(Without(xs, i)) > 0.0 && Weighted(xs) > 0.0
    ensures StableEquation(amp, xs, d)
            <==> Balanced(amp, |xs|, d, Sum(Without(xs, i)), Product(Without(xs, i)), xs[i])
  {
    var n, others, x := |xs|, Without(xs, i), xs[i];
    PositiveFolds(others);
    WeightedPositive(xs);
    FoldsWithout(xs, i);
    WeightSplits(n, Product(others), x);
    ConstantTimesWeight(n, d, Product(others));
    hide Power;
    hide Sum;
    hide Product;
    hide Amplified;
    hide WeightedProduct;
    hide Equation;
    hide Solves;
    hide LinearTerm;
    hide ConstantTerm;
    hide Times;
    QuadraticTimesBalance(Amplified(amp, n), d, Sum(others), Sum(xs), WeightedProduct(n, Product(others)), x,
                          Power(d, n + 1), Weighted(xs), ConstantTerm(n, d, Product(others)));
  }

  lemma WeightSplits(n: nat, others: real, x: real)
    ensures WeightedProduct(n, Times(others, x)) == Times(WeightedProduct(n, others), x)
  {
    var nn := Power(n as real, n);
    assert nn * (others * x) == (nn * others) * x;
  }

  lemma ConstantTimesWeight(n: nat, d: real, product: real)
    requires n > 0 && product > 0.0
    ensures WeightedProduct(n, product) > 0.0
    ensures Times(ConstantTerm(n, d, product), WeightedProduct(n, product)) == Power(d, n + 1)
  {
    PowerPositive(n as real, n);
  }

  lemma QuadraticTimesBalance(an: real, d: real, sum: real, total: real, w: real, x: real, p: real, wx: real, c: real)
    requires x > 0.0 && w > 0.0 && wx > 0.0 && wx == Times(w, x) && total == sum + x && Times(c, w) == p
    ensures Equation(an, total, d, p, wx) <==> Solves(an, LinearTerm(an, d, sum), c, x)
  {
    var q := p / wx;
    assert q * wx == p && c * w == p;
    SameQuotient(q, c, w, x, wx);
    var gap := an * total + d - an * d - q;
    assert x * gap == an * (x * x) + LinearTerm(an, d, sum) * x - c by {
      assert x * gap == an * (sum * x) + an * (x * x) + d * x - an * (d * x) - q * x;
      assert LinearTerm(an, d, sum) * x == an * (sum * x) - an * (d * x) + d * x;
    }
    SignOfProduct(x, gap);
  }

  lemma SameQuotient(q: real, c: real, w: real, x: real, wx: real)
    requires w > 0.0 && wx == w * x && q * wx == c * w
    ensures q * x == c
  {
    assert w * (q * x - c) == q * wx - c * w by {
      assert w * (q * x) == q * (w * x);
    }
    SignOfProduct(w, q * x - c);
  }

  // ---- the swap ----

  predicate Discriminates(amp: real, n: nat, d: real, sum: real, product: real, s: real)
    requires n > 0 && product > 0.0
  {
    var an := Amplified(amp, n);
    var b := LinearTerm(an, d, sum);
    SquareRoot(s, b * b + 4.0 * (an * ConstantTerm(n, d, product)))
  }

  /** The bought reserve's balance after the swap; `s` is the discriminant's square root. */
  function BuyBalance(amp: real, n: nat, d: real, sum: real, s: real): real
    requires amp > 0.0 && n > 0
  {
    PowerPositive(n as real, n);
    assert Amplified(amp, n) > 0.0;
    PositiveRoot(Amplified(amp, n), LinearTerm(Amplified(amp, n), d, sum), s)
  }

  /** The computed balance is the one positive balance that fits beside the others. */
  lemma BuyBalanceFits(amp: real, n: nat, d: real, sum: real, product: real, s: real)
    requires amp > 0.0 && n > 0 && d > 0.0 && product > 0.0
    requires Discriminates(amp, n, d, sum, product, s)
    ensures var y := BuyBalance(amp, n, d, sum, s);
            y > 0.0 && forall z :: z > 0.0 ==> (Balanced(amp, n, d, sum, product, z) <==> z == y)
  {
    TermsPositive(amp, n, d, product);
    var an, c := Amplified(amp, n), ConstantTerm(n, d, product);
    var b, y := LinearTerm(an, d, sum), BuyBalance(amp, n, d, sum, s);
    hide Power;
    hide ConstantTerm;
    hide LinearTerm;
    hide Amplified;
    RootSolves(an, b, c, s);
    forall z | z > 0.0 ensures Balanced(amp, n, d, sum, product, z) <==> z == y {
      RootDecides(an, b, c, y, z);
    }
  }

  lemma TermsPositive(amp: real, n: nat, d: real, product: real)
    requires amp > 0.0 && n > 0 && d > 0.0 && product > 0.0
    ensures Amplified(amp, n) > 0.0 && ConstantTerm(n, d, product) > 0.0
  {
    PowerPositive(n as real, n);
    PowerPositive(d, n + 1);
    var w := Power(n as real, n) * product;
    assert w > 0.0;
    var c := Power(d, n + 1) / w;
    assert w * c == Power(d, n + 1);
    SignOfProduct(w, c);
  }

  /** The reserves once `sold` was added to one and another has a new balance. */
  function Swapped(xs: seq<real>, sell: nat, sold: real, buy: nat, balance: real): seq<real>
    requires sell < |xs| && buy < |xs| && sell != buy
  {
    xs[sell := xs[sell] + sold][buy := balance]
  }

  /** The reserves that a swap does not buy from. */
  function OthersAfterSale(xs: seq<real>, sell: nat, sold: real, buy: nat): seq<real>
    requires sell < |xs| && buy < |xs|
  {
    Without(xs[sell := xs[sell] + sold], buy)
  }

  /** A swap keeps `D`: the computed balance is the only positive one with which the reserves
      after the sale satisfy the curve's equation for the same invariant. */
  lemma SwapKeepsInvariant(amp: real, xs: seq<real>, sell: nat, sold: real, buy: nat, d: real, s: real, z: real)
    requires amp > 0.0 && Positive(xs) && sell < |xs| && buy < |xs| && sell != buy && sold >= 0.0 && d > 0.0 && z > 0.0
    requires Product(OthersAfterSale(xs, sell, sold, buy)) > 0.0
    requires var others := OthersAfterSale(xs, sell, sold, buy);
             Discriminates(amp, |xs|, d, Sum(others), Product(others), s)
    ensures var y := BuyBalance(amp, |xs|, d, Sum(OthersAfterSale(xs, sell, sold, buy)), s);
            && y > 0.0
            && Weighted(Swapped(xs, sell, sold, buy, z)) > 0.0
            && (StableEquation(amp, Swapped(xs, sell, sold, buy, z), d) <==> z == y)
  {
    var others, zs := OthersAfterSale(xs, sell, sold, buy), Swapped(xs, sell, sold, buy, z);
    assert Without(zs, buy) == others;
    BuyBalanceFits(amp, |xs|, d, Sum(others), Product(others), s);
    EquationInOneBalance(amp, zs, buy, d);
  }

  /** Without fees, selling the proceeds straight back restores the sold reserve exactly. */
  lemma SellingBackRestores(amp: real, xs: seq<real>, sell: nat, sold: real, buy: nat, d: real, y: real, s: real)
    requires amp > 0.0 && Positive(xs) && sell < |xs| && buy < |xs| && sell != buy && sold >= 0.0 && d > 0.0 && y > 0.0
    requires Weighted(xs) > 0.0 && StableEquation(amp, xs, d)
    requires var ys := Swapped(xs, sell, sold, buy, y);
             var others := OthersAfterSale(ys, buy, xs[buy] - y, sell);
             Product(others) > 0.0 && Discriminates(amp, |xs|, d, Sum(others), Product(others), s)
    ensures var ys := Swapped(xs, sell, sold, buy, y);
            BuyBalance(amp, |xs|, d, Sum(OthersAfterSale(ys, buy, xs[buy] - y, sell)), s) == xs[sell]
  {
    var ys := Swapped(xs, sell, sold, buy, y);
    var others := OthersAfterSale(ys, buy, xs[buy] - y, sell);
    assert Without(xs, sell) == others;
    BuyBalanceFits(amp, |xs|, d, Sum(others), Product(others), s);
    EquationInOneBalance(amp, xs, sell, d);
  }

  /** A swap at the pool's own invariant pays out a positive amount for a positive sale, and
      nothing for none. */
  lemma SwapPaysOut(amp: real, xs: seq<real>, sell: nat, sold: real, buy: nat, d: real, s: real)
    requires amp > 0.0 && Positive(xs) && sell < |xs| && buy < |xs| && sell != buy && sold >= 0.0 && d > 0.0
    requires Weighted(xs) > 0.0 && StableEquation(amp, xs, d)
    requires Product(OthersAfterSale(xs, sell, sold, buy)) > 0.0
    requires var others := OthersAfterSale(xs, sell, sold, buy);
             Discriminates(amp, |xs|, d, Sum(others), Product(others), s)
    ensures var y := BuyBalance(amp, |xs|, d, Sum(OthersAfterSale(xs, sell, sold, buy)), s);
            y <= xs[buy] && (y < xs[buy] <==> sold > 0.0)
  {
    hide Power;
    hide Product;
    hide Sum;
    hide Amplified;
    hide ConstantTerm;
    hide LinearTerm;
    hide Solves;
    hide BuyBalance;
    hide StableEquation;
    hide Discriminates;
    var n, others, before := |xs|, OthersAfterSale(xs, sell, sold, buy), Without(xs, buy);
    EquationInOneBalance(amp, xs, buy, d);
    BuyBalanceFits(amp, n, d, Sum(others), Product(others), s);
    SaleRaisesFolds(xs, sell, sold, buy);
    TermsPositive(amp, n, d, Product(others));
    ConstantTermFalls(n, d, Product(before), Product(others));
    var an, y := Amplified(amp, n), BuyBalance(amp, n, d, Sum(others), s);
    var c, c' := ConstantTerm(n, d, Product(before)), ConstantTerm(n, d, Product(others));
    var b, b' := LinearTerm(an, d, Sum(before)), LinearTerm(an, d, Sum(others));
    assert Balanced(amp, n, d, Sum(others), Product(others), y);
    LinearTermRises(an, d, Sum(before), sold);
    AboveRootAfterSale(an, b, c, b', c', sold, xs[buy]);
    RootDecides(an, b', c', y, xs[buy]);
  }

  lemma LinearTermRises(an: real, d: real, sum: real, sold: real)
    ensures LinearTerm(an, d, sum + sold) == LinearTerm(an, d, sum) + Times(an, sold)
  {
  }

  lemma AboveRootAfterSale(an: real, b: real, c: real, b': real, c': real, sold: real, x: real)
    requires an > 0.0 && x > 0.0 && sold >= 0.0 && b' == b + Times(an, sold) && c' <= c
    requires sold == 0.0 ==> c' == c
    requires Solves(an, b, c, x)
    ensures if sold > 0.0 then Exceeds(an, b', c', x) else Solves(an, b', c', x)
  {
    var rise := an * sold;
    SignOfProduct(an, sold);
    SignOfProduct(x, rise);
    assert b' * x == b * x + x * rise;
  }

  lemma ConstantTermFalls(n: nat, d: real, p: real, q: real)
    requires n > 0 && d > 0.0 && 0.0 < p <= q
    ensures ConstantTerm(n, d, q) <= ConstantTerm(n, d, p)
  {
    PowerPositive(n as real, n);
    PowerPositive(d, n + 1);
    var nn := Power(n as real, n);
    ProductMonotone(nn, nn, p, q);
    QuotientFalls(Power(d, n + 1), nn * p, nn * q);
  }

  lemma QuotientFalls(x: real, v: real, w: real)
    requires x > 0.0 && 0.0 < v <= w
    ensures x / w <= x / v
  {
    FactorFalls(x, v, w, x / v, x / w);
  }

  lemma FactorFalls(x: real, v: real, w: real, a: real, b: real)
    requires x > 0.0 && 0.0 < v <= w && a * v == x && b * w == x
    ensures b <= a
  {
    SignOfProduct(w, b);
    assert b * (w - v) >= 0.0;
    assert v * (a - b) == b * (w - v);
    SignOfProduct(v, a - b);
  }

  lemma SaleRaisesFolds(xs: seq<real>, sell: nat, sold: real, buy: nat)
    requires Positive(xs) && sell < |xs| && buy < |xs| && sell != buy && sold >= 0.0
    ensures var before, after := Without(xs, buy), OthersAfterSale(xs, sell, sold, buy);
            && Sum(after) == Sum(before) + sold
            && 0.0 < Product(before) <= Product(after) && (sold == 0.0 ==> Product(before) == Product(after))
  {
    var before, after := Without(xs, buy), OthersAfterSale(xs, sell, sold, buy);
    var i := if sell < buy then sell else sell - 1;
    var rest := Without(before, i);
    assert rest == Without(after, i) && after[i] == before[i] + sold;
    ProductPositive(rest);
    hide Product;
    hide Sum;
    hide Times;
    FoldsWithout(before, i);
    FoldsWithout(after, i);
    TimesRises(Product(rest), before[i], sold);
  }

  lemma ProductPositive(xs: seq<real>)
    requires Positive(xs)
    ensures Product(xs) > 0.0
  {
    if xs != [] {
      PositiveFolds(xs);
    }
  }

  lemma TimesRises(p: real, x: real, sold: real)
    requires p > 0.0 && x > 0.0 && sold >= 0.0
    ensures 0.0 < Times(p, x) <= Times(p, x + sold)
  {
    assert p * sold >= 0.0;
  }

  // ---- scaling ----

  /** Dividing `D`, the sum and the product of the other balances by powers of `k` before and
      multiplying the result by `k` afterwards does not change the balance. */
  lemma ScalingKeepsBalance(amp: real, n: nat, d: real, sum: real, product: real, s: real, k: real, scaledRoot: real)
    requires amp > 0.0 && n > 0 && d > 0.0 && product > 0.0 && k > 0.0
    requires Discriminates(amp, n, d, sum, product, s)
    requires Power(k, n - 1) > 0.0 && product / Power(k, n - 1) > 0.0
    requires Discriminates(amp, n, d / k, sum / k, product / Power(k, n - 1), scaledRoot)
    ensures BuyBalance(amp, n, d / k, sum / k, scaledRoot) * k == BuyBalance(amp, n, d, sum, s)
  {
    hide Power;
    hide Amplified;
    hide ConstantTerm;
    hide LinearTerm;
    hide Solves;
    hide BuyBalance;
    hide Discriminates;
    var e, t, p := d / k, sum / k, product / Power(k, n - 1);
    var y, z, an := BuyBalance(amp, n, d, sum, s), BuyBalance(amp, n, e, t, scaledRoot), Amplified(amp, n);
    BuyBalanceFits(amp, n, d, sum, product, s);
    BuyBalanceFits(amp, n, e, t, p, scaledRoot);
    ScaledConstant(n, d, product, k);
    ScaledLinear(an, d, sum, k);
    assert Balanced(amp, n, e, t, p, z);
    ScaledSolution(an, LinearTerm(an, d, sum), ConstantTerm(n, d, product), k, z, LinearTerm(an, e, t),
                   ConstantTerm(n, e, p));
    assert Balanced(amp, n, d, sum, product, z * k);
  }

  lemma ScaledSolution(a: real, b: real, c: real, k: real, z: real, b': real, c': real)
    requires k > 0.0 && z > 0.0 && b == b' * k && c == c' * k * k && Solves(a, b', c', z)
    ensures z * k > 0.0 && Solves(a, b, c, z * k)
  {
    assert a * ((z * k) * (z * k)) == a * (z * z) * (k * k);
    assert b' * k * (z * k) == b' * z * (k * k);
    assert c' * k * k == c' * (k * k);
  }

  lemma ScaledLinear(an: real, d: real, sum: real, k: real)
    requires k > 0.0
    ensures LinearTerm(an, d, sum) == LinearTerm(an, d / k, sum / k) * k
  {
    var e, t := d / k, sum / k;
    assert e * k == d && t * k == sum;
    assert (an * t - e * (an - 1.0)) * k == an * (t * k) - e * k * (an - 1.0);
  }

  lemma ScaledConstant(n: nat, d: real, product: real, k: real)
    requires n > 0 && d > 0.0 && product > 0.0 && k > 0.0
    requires Power(k, n - 1) > 0.0 && product / Power(k, n - 1) > 0.0
    ensures ConstantTerm(n, d, product) == ConstantTerm(n, d / k, product / Power(k, n - 1)) * k * k
  {
    var e, f := d / k, Power(k, n - 1);
    var q := product / f;
    assert e * k == d && q * f == product;
    ConstantTimesWeight(n, d, product);
    ConstantTimesWeight(n, e, q);
    PowerOfProduct(e, k, d, n + 1);
    NextPower(k, n - 1);
    NextPower(k, n);
    var c, c' := ConstantTerm(n, d, product), ConstantTerm(n, e, q);
    PowerPositive(n as real, n);
    ConstantsAgree(Power(n as real, n), q, f, k, c, c', Power(e, n + 1), Power(k, n + 1), Power(d, n + 1), product);
  }

  lemma ConstantsAgree(nn: real, q: real, f: real, k: real, c: real, c': real, pe: real, pk: real, pd: real,
                       product: real)
    requires nn > 0.0 && q > 0.0 && f > 0.0 && k > 0.0
    requires product == q * f && pk == f * k * k && pd == pe * pk
    requires c * (nn * product) == pd && c' * (nn * q) == pe
    ensures c == c' * k * k
  {
    var w := nn * product;
    assert w > 0.0;
    assert w * (c' * k * k) == pd by {
      assert w * (c' * k * k) == (c' * (nn * q)) * (f * k * k);
    }
    assert w * (c - c' * k * k) == c * w - w * (c' * k * k);
    SignOfProduct(w, c - c' * k * k);
  }
}
