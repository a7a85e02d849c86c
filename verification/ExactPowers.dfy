/** Powers, sums and products of real numbers. */
module ExactPowers {
  /** Multiplication by name: where its definition is hidden, products are atoms. */
  function Times(x: real, y: real): real {
    x * y
  }

  // ---- powers ----

  function Power(x: real, k: nat): real {
    if k == 0 then 1.0 else Power(x, k - 1) * x
  }

  lemma {:induction false} PowerPositive(x: real, k: nat)
    requires x > 0.0
    ensures Power(x, k) > 0.0
  {
    if k > 0 {
      PowerPositive(x, k - 1);
    }
  }

  lemma {:induction false} PowerOfProduct(x: real, y: real, z: real, k: nat)
    requires z == x * y
    ensures Power(z, k) == Power(x, k) * Power(y, k)
  {
    if k > 0 {
      PowerOfProduct(x, y, z, k - 1);
      var p, q := Power(x, k - 1), Power(y, k - 1);
      assert p * q * (x * y) == p * x * (q * y);
    }
  }

  lemma PowerOfTimes(x: real, y: real, k: nat)
    ensures Power(Times(x, y), k) == Times(Power(x, k), Power(y, k))
  {
    PowerOfProduct(x, y, Times(x, y), k);
  }

  lemma {:induction false} PowerAdds(x: real, j: nat, k: nat)
    ensures Power(x, j + k) == Power(x, j) * Power(x, k)
  {
    if k > 0 {
      PowerAdds(x, j, k - 1);
      assert Power(x, j) * Power(x, k - 1) * x == Power(x, j) * (Power(x, k - 1) * x);
    }
  }

  lemma {:induction false} PowerMonotone(x: real, y: real, k: nat)
    requires 0.0 <= x <= y
    ensures 0.0 <= Power(x, k) <= Power(y, k)
  {
    if k > 0 {
      PowerMonotone(x, y, k - 1);
      ProductMonotone(Power(x, k - 1), Power(y, k - 1), x, y);
    }
  }

  lemma ProductMonotone(p: real, q: real, x: real, y: real)
    requires 0.0 <= p <= q && 0.0 <= x <= y
    ensures 0.0 <= p * x <= q * y
  {
    assert (q - p) * y >= 0.0;
    assert p * (y - x) >= 0.0;
  }

  /** A power lies above each of its tangents. */
  lemma {:induction false} PowerAboveTangent(x: real, y: real, k: nat)
    requires x > 0.0 && y >= 0.0 && k > 0
    ensures Power(x, k) + k as real * Power(x, k - 1) * (y - x) <= Power(y, k)
  {
    if k == 1 {
      assert Power(x, 1) == Power(x, 0) * x;
      assert Power(y, 1) == Power(y, 0) * y;
    } else {
      PowerAboveTangent(x, y, k - 1);
      PowerPositive(x, k - 2);
      TangentStep(x, y, Power(x, k - 2), Power(y, k - 1), (k - 1) as real);
    }
  }

  lemma TangentStep(x: real, y: real, p: real, q: real, k: real)
    requires p >= 0.0 && y >= 0.0 && k >= 0.0
    requires p * x + k * p * (y - x) <= q
    ensures p * x * x + (k + 1.0) * (p * x) * (y - x) <= q * y
  {
    var l := p * x + k * p * (y - x);
    assert (q - l) * y >= 0.0;
    var h := y - x;
    assert h * h >= 0.0;
    assert k * p >= 0.0;
    assert (k * p) * (h * h) >= 0.0;
    assert l * y == p * x * x + (k + 1.0) * (p * x) * h + (k * p) * (h * h) by {
      assert y == x + h;
      assert l * y == (p * x) * x + (p * x) * h + (k * p * h) * x + (k * p * h) * h;
      assert (k * p * h) * x == k * (p * x) * h;
      assert (k * p * h) * h == (k * p) * (h * h);
      assert (k + 1.0) * (p * x) * h == k * (p * x) * h + (p * x) * h;
    }
  }

  // ---- the arithmetic and the geometric mean ----

  function Sum(xs: seq<real>): real {
    if xs == [] then 0.0 else Sum(xs[..|xs| - 1]) + xs[|xs| - 1]
  }

  function Product(xs: seq<real>): real {
    if xs == [] then 1.0 else Product(xs[..|xs| - 1]) * xs[|xs| - 1]
  }

  predicate Positive(xs: seq<real>) {
    forall i :: 0 <= i < |xs| ==> xs[i] > 0.0
  }

  lemma {:induction false} PositiveFolds(xs: seq<real>)
    requires Positive(xs) && xs != []
    ensures Sum(xs) > 0.0 && Product(xs) > 0.0
  {
    var front := xs[..|xs| - 1];
    if front == [] {
      assert Sum(front) == 0.0 && Product(front) == 1.0;
    } else {
      PositiveFolds(front);
    }
  }

  /** The product is at most the mean's power. */
  lemma {:induction false} MeansInequality(xs: seq<real>)
    requires Positive(xs) && xs != []
    ensures Product(xs) <= Power(Sum(xs) / |xs| as real, |xs|)
  {
    var n, front, x := |xs|, xs[..|xs| - 1], xs[|xs| - 1];
    if front == [] {
      assert Product(front) == 1.0 && Sum(front) == 0.0;
      assert Power(x, 1) == Power(x, 0) * x;
    } else {
      MeansInequality(front);
      PositiveFolds(front);
      MeanWithLast(Sum(front), Product(front), x, n);
    }
  }

  lemma MeanWithLast(s: real, p: real, x: real, n: nat)
    requires n > 1 && s > 0.0 && x > 0.0 && p <= Power(s / (n - 1) as real, n - 1)
    ensures p * x <= Power((s + x) / n as real, n)
  {
    hide Power;
    var m, mean := s / (n - 1) as real, (s + x) / n as real;
    MeanStep(s, x, n as real, m, mean, Power(m, n - 1));
    PowerAboveTangent(m, mean, n);
    NextPower(m, n - 1);
    assert (Power(m, n - 1) - p) * x >= 0.0;
  }

  lemma MeanStep(s: real, x: real, n: real, m: real, mean: real, p: real)
    requires n > 1.0 && s > 0.0 && x > 0.0 && m == s / (n - 1.0) && mean == (s + x) / n
    ensures m > 0.0 && mean > 0.0 && p * m + n * p * (mean - m) == p * x
  {
    assert m * (n - 1.0) == s;
    assert mean * n == s + x;
    assert n * p * (mean - m) == p * (n * mean - n * m);
  }

  lemma {:induction false} PowerAtLeastOne(x: real, k: nat)
    requires x >= 1.0
    ensures Power(x, k) >= 1.0
  {
    if k > 0 {
      PowerAtLeastOne(x, k - 1);
      ProductMonotone(1.0, Power(x, k - 1), 1.0, x);
    }
  }

  /** A positive factor keeps the sign. */
  lemma SignOfProduct(v: real, x: real)
    requires v > 0.0
    ensures v * x >= 0.0 <==> x >= 0.0
    ensures v * x == 0.0 <==> x == 0.0
  {
    if x < 0.0 {
      assert v * (-x) > 0.0;
    }
  }

  lemma SameProduct(x: real, y: real, z: real)
    requires x == y
    ensures x * z == y * z
  {
  }

  lemma NextPower(x: real, k: nat)
    ensures Power(x, k + 1) == Times(Power(x, k), x)
  {
  }

  lemma SmallPowers(x: real)
    ensures Power(x, 1) == x && Power(x, 2) == x * x
    ensures Power(x, 4) == (x * x) * (x * x) && Power(x, 5) == (x * x) * (x * x) * x
  {
    assert Power(x, 1) == Power(x, 0) * x;
    assert Power(x, 2) == Power(x, 1) * x;
    PowerAdds(x, 2, 2);
    assert Power(x, 5) == Power(x, 4) * x;
  }

  lemma Regroup(x: real, f: real, p: real, q: real)
    requires q == f * p
    ensures x * q == f * (x * p)
  {
  }

  // ---- scaled sequences ----

  function Scaled(xs: seq<real>, k: real): (ys: seq<real>)
    ensures |ys| == |xs|
  {
    if xs == [] then [] else Scaled(xs[..|xs| - 1], k) + [Times(k, xs[|xs| - 1])]
  }

  lemma ScaledLast(front: seq<real>, x: real, k: real)
    ensures Scaled(front + [x], k) == Scaled(front, k) + [Times(k, x)]
  {
    hide Times;
    var xs := front + [x];
    assert xs != [] && xs[..|xs| - 1] == front && xs[|xs| - 1] == x;
  }

  lemma {:induction false} ScaledPositive(xs: seq<real>, k: real)
    requires Positive(xs) && k > 0.0
    ensures Positive(Scaled(xs, k))
  {
    if xs != [] {
      ScaledPositive(xs[..|xs| - 1], k);
      assert k * xs[|xs| - 1] > 0.0;
    }
  }

  lemma {:induction false} ScaledSum(xs: seq<real>, k: real)
    ensures Sum(Scaled(xs, k)) == Times(k, Sum(xs))
  {
    if xs != [] {
      var ys, front, x := Scaled(xs, k), xs[..|xs| - 1], xs[|xs| - 1];
      assert ys[..|xs| - 1] == Scaled(front, k);
      assert Sum(ys) == Sum(Scaled(front, k)) + Times(k, x) && Sum(xs) == Sum(front) + x;
      hide *;
      ScaledSum(front, k);
      SumStep(k, x, Sum(front));
    }
  }

  lemma {:induction false} ScaledProduct(xs: seq<real>, k: real)
    ensures Product(Scaled(xs, k)) == Times(Power(k, |xs|), Product(xs))
  {
    if xs != [] {
      var ys, front := Scaled(xs, k), xs[..|xs| - 1];
      assert ys[..|xs| - 1] == Scaled(front, k) && ys[|xs| - 1] == Times(k, xs[|xs| - 1]);
      hide *;
      ScaledProduct(front, k);
      ProductLast(xs);
      ProductLast(ys);
      NextPower(k, |front|);
      ProductStep(k, xs[|xs| - 1], Power(k, |front|), Product(front));
    }
  }

  lemma ProductLast(xs: seq<real>)
    requires xs != []
    ensures Product(xs) == Times(Product(xs[..|xs| - 1]), xs[|xs| - 1])
  {
  }

  lemma SumStep(k: real, x: real, s: real)
    ensures Times(k, s) + Times(k, x) == Times(k, s + x)
  {
  }

  lemma ProductStep(k: real, x: real, f: real, p: real)
    ensures Times(Times(f, p), Times(k, x)) == Times(Times(f, k), Times(p, x))
  {
    assert f * p * (k * x) == (f * k) * (p * x);
  }
}
