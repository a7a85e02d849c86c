/** The fixed-point `Decimal`: a 192-bit integer counting units of 10^-18. Products and
    quotients are truncated after a wide intermediate; every result is range checked. */
module FixedPoint {
  import opened Results

  const WAD: nat := 1_000_000_000_000_000_000

  /** 2^192 */
  const U192_LIMIT: nat := 0x1_0000_0000_0000_0000_0000_0000_0000_0000_0000_0000_0000_0000

  /** A number of units of 10^-18. */
  type Decimal = x: nat | x < U192_LIMIT

  /** A natural number as a decimal; every 64-bit amount fits. */
  function FromU64(x: nat): Decimal
    requires x <= U64_MAX
  {
    x * WAD
  }

  function Checked(x: int): Result<Decimal> {
    if 0 <= x < U192_LIMIT then Ok(x) else Err(MathOverflow)
  }

  function TryAdd(a: Decimal, b: Decimal): Result<Decimal> {
    Checked(a + b)
  }

  function TrySub(a: Decimal, b: Decimal): Result<Decimal> {
    Checked(a - b)
  }

  function TryMul(a: Decimal, b: Decimal): Result<Decimal> {
    Checked(Scaled(a * b))
  }

  function TryDiv(a: Decimal, b: Decimal): Result<Decimal> {
    if b == 0 then Err(MathOverflow) else Checked(Quotient(a * WAD, b))
  }

  function TryFloor(a: Decimal): Result<nat> {
    if a / WAD <= U64_MAX then Ok(a / WAD) else Err(MathOverflow)
  }

  function TryCeil(a: Decimal): Result<nat> {
    var c := CeilDiv(a, WAD);
    if c <= U64_MAX then Ok(c) else Err(MathOverflow)
  }

  /** Truncating division by one whole unit. */
  function Scaled(x: nat): (r: nat)
    ensures r * WAD <= x < (r + 1) * WAD
  {
    Quotient(x, WAD)
  }

  // Quotients are given by the inequalities that define them; exactly one integer satisfies each.

  predicate IsQuotient(x: nat, y: nat, q: nat) {
    q * y <= x < (q + 1) * y
  }

  predicate IsCeiling(x: nat, y: nat, c: nat) {
    x <= c * y < x + y
  }

  /** The largest integer whose multiple by `y` fits `x`. */
  function Quotient(x: nat, y: nat): (q: nat)
    requires y > 0
    ensures q * y <= x < (q + 1) * y
  {
    QuotientExists(x, y);
    var q :| 0 <= q <= x && IsQuotient(x, y, q);
    q
  }

  /** The least integer that is at least `x / y`. */
  function CeilDiv(x: nat, y: nat): (c: nat)
    requires y > 0
    ensures x <= c * y < x + y
  {
    CeilingExists(x, y);
    var c :| 0 <= c <= x && IsCeiling(x, y, c);
    c
  }

  lemma QuotientExists(x: nat, y: nat)
    requires y > 0
    ensures exists q :: 0 <= q <= x && IsQuotient(x, y, q)
    ensures forall q, r :: 0 <= q && 0 <= r && IsQuotient(x, y, q) && IsQuotient(x, y, r) ==> q == r
  {
    DivBounds(x, y);
    var q := x / y;
    MulMono(1, y, q);
    assert IsQuotient(x, y, q);
    forall q: nat, r: nat | IsQuotient(x, y, q) && IsQuotient(x, y, r)
      ensures q == r
    {
      CancelMulStrict(q, r + 1, y);
      CancelMulStrict(r, q + 1, y);
    }
  }

  lemma CeilingExists(x: nat, y: nat)
    requires y > 0
    ensures exists c :: 0 <= c <= x && IsCeiling(x, y, c)
    ensures forall c, d :: 0 <= c && 0 <= d && IsCeiling(x, y, c) && IsCeiling(x, y, d) ==> c == d
  {
    DivBounds(x + y - 1, y);
    var c := (x + y - 1) / y;
    assert (c + 1) * y == c * y + y && (x + 1) * y == x * y + y;
    MulMono(1, y, x);
    CancelMulStrict(c, x + 1, y);
    assert IsCeiling(x, y, c);
    forall c: nat, d: nat | IsCeiling(x, y, c) && IsCeiling(x, y, d)
      ensures c == d
    {
      CeilingIsUnique(x, y, c, d);
    }
  }

  lemma DivBounds(x: nat, y: nat)
    requires y > 0
    ensures 0 <= x / y
    ensures (x / y) * y <= x < (x / y + 1) * y
  {
    var q := x / y;
    assert x == q * y + x % y;
    assert (q + 1) * y == q * y + y;
  }

  /** Truncation never overshoots: a quotient is the largest integer whose multiple fits. */
  lemma QuotientIsLargest(x: nat, y: nat, q: nat)
    requires y > 0 && q * y <= x
    ensures q <= Quotient(x, y)
  {
    var r := Quotient(x, y);
    if q > r {
      MulMono(r + 1, q, y);
    }
  }

  /** A ceiling is the smallest integer whose multiple reaches. */
  lemma CeilIsSmallest(x: nat, y: nat, c: nat)
    requires y > 0 && x <= c * y
    ensures CeilDiv(x, y) <= c
  {
    var r := CeilDiv(x, y);
    if c < r {
      assert (c + 1) * y == c * y + y;
      MulMono(c + 1, r, y);
    }
  }

  lemma MulMono(a: nat, b: nat, k: nat)
    requires a <= b
    ensures a * k <= b * k
  {
    assert (b - a) * k >= 0;
    assert b * k == a * k + (b - a) * k;
  }

  lemma MulMonoStrict(a: nat, b: nat, k: nat)
    requires a < b && k > 0
    ensures a * k < b * k
  {
    MulMono(a + 1, b, k);
    assert (a + 1) * k == a * k + k;
  }

  /** Dividing equal multiples out again. */
  lemma CancelMul(a: nat, b: nat, k: nat)
    requires k > 0 && a * k <= b * k
    ensures a <= b
  {
    if b < a {
      MulMonoStrict(b, a, k);
    }
  }

  lemma CancelMulStrict(a: nat, b: nat, k: nat)
    requires a * k < b * k
    ensures a < b
  {
    if b <= a {
      MulMono(b, a, k);
    }
  }

  /** A common factor of dividend and divisor does not matter. */
  lemma SameQuotient(x: nat, y: nat, k: nat)
    requires y > 0 && k > 0
    ensures y * k > 0 && Quotient(x * k, y * k) == Quotient(x, y)
  {
    MulMono(1, y, k);
    var q, s := Quotient(x * k, y * k), Quotient(x, y);
    assert q * (y * k) == (q * y) * k;
    CancelMul(q * y, x, k);
    QuotientIsLargest(x, y, q);
    assert (s * y) * k == s * (y * k);
    MulMono(s * y, x, k);
    QuotientIsLargest(x * k, y * k, s);
  }

  lemma SameCeiling(x: nat, y: nat, k: nat)
    requires y > 0 && k > 0
    ensures y * k > 0 && CeilDiv(x * k, y * k) == CeilDiv(x, y)
  {
    MulMono(1, y, k);
    var c, d := CeilDiv(x * k, y * k), CeilDiv(x, y);
    hide CeilDiv;
    FactorOut(c, x, y, k);
    CeilingIsUnique(x, y, c, d);
  }

  lemma FactorOut(c: nat, x: nat, y: nat, k: nat)
    requires k > 0 && x * k <= c * (y * k) < x * k + y * k
    ensures x <= c * y < x + y
  {
    assert c * (y * k) == (c * y) * k && x * k + y * k == (x + y) * k;
    CancelMul(x, c * y, k);
    CancelMulStrict(c * y, x + y, k);
  }

  lemma CeilingIsUnique(x: nat, y: nat, c: nat, d: nat)
    requires y > 0 && x <= c * y < x + y && x <= d * y < x + y
    ensures c == d
  {
    assert (c + 1) * y == c * y + y && (d + 1) * y == d * y + y;
    CancelMulStrict(c, d + 1, y);
    CancelMulStrict(d, c + 1, y);
  }

  /** Multiplying a whole number by a decimal is exact. */
  lemma MulWhole(n: nat, d: Decimal)
    requires n <= U64_MAX
    ensures Scaled(FromU64(n) * d) == n * d
  {
    assert FromU64(n) * d == (n * d) * WAD by {
      assert (n * WAD) * d == (n * d) * WAD;
    }
  }
}
