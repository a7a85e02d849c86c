/** Fixed-point helpers of the AMM: scaling down, exponent estimates and the
    overflow-avoiding `a * b / c`. */
module AmmHelpers {
  import opened Results
  import opened FixedPoint

  const ONE: Decimal := WAD

  // ---- powers ----

  function Pow(b: nat, e: nat): nat {
    if e == 0 then 1 else b * Pow(b, e - 1)
  }

  lemma {:induction false} PowPositive(b: nat, e: nat)
    requires b > 0
    ensures Pow(b, e) > 0
  {
    if e > 0 {
      PowPositive(b, e - 1);
      MulMono(1, Pow(b, e - 1), b);
    }
  }

  // ---- scale_down_value ----

  /** The value and the number of divisions by 1000 that bring it to at most 1000. */
  function ScaledDown(value: Decimal, exponent: nat): (Decimal, nat) {
    if value <= 1000 * WAD then (value, exponent) else ScaledDown(value / 1000, exponent + 1)
  }

  /** Divides by 1000 until at most 1000 is left. Terminates without error; the scaled value
      times `1000^exponent` never exceeds the input and misses it by less than one unit in
      the last place per scale step; no smaller exponent would do. */
  method ScaleDownValue(value: Decimal) returns (scaled: Decimal, exponent: nat)
    ensures scaled <= 1000 * WAD
    ensures scaled * Pow(1000, exponent) <= value < (scaled + 1) * Pow(1000, exponent)
    ensures exponent > 0 ==> (scaled + 1) * 1000 > 1000 * WAD
    ensures (scaled, exponent) == ScaledDown(value, 0)
  {
    scaled, exponent := value, 0;
    while scaled > 1000 * WAD
      invariant ScaledDown(scaled, exponent) == ScaledDown(value, 0)
      invariant scaled * Pow(1000, exponent) <= value < (scaled + 1) * Pow(1000, exponent)
      invariant exponent > 0 ==> (scaled + 1) * 1000 > 1000 * WAD
      decreases scaled
    {
      ThousandthOf(scaled);
      var q := TryDiv(scaled, FromU64(1000)).value;
      ScaleStep(scaled, q, Pow(1000, exponent), value);
      scaled, exponent := q, exponent + 1;
    }
  }

  /** `value` divided by `1000^e`, each division truncated, is `scaled`. */
  predicate ScaledTo(scaled: nat, e: nat, value: nat) {
    scaled * Pow(1000, e) <= value < (scaled + 1) * Pow(1000, e)
  }

  lemma ScaledOnce(v: nat, e: nat, value: nat)
    requires ScaledTo(v, e, value)
    ensures ScaledTo(v / 1000, e + 1, value)
  {
    DivBounds(v, 1000);
    ScaleStep(v, v / 1000, Pow(1000, e), value);
  }

  lemma {:induction false} ScaledDownBounds(v: Decimal, value: Decimal, exponent: nat)
    requires ScaledTo(v, exponent, value)
    ensures var (scaled, e) := ScaledDown(v, exponent);
            && scaled <= 1000 * WAD && ScaledTo(scaled, e, value)
            && e >= exponent && (if e > exponent then scaled >= WAD else scaled == v)
    decreases v
  {
    hide ScaledTo;
    if v > 1000 * WAD {
      ScaledOnce(v, exponent, value);
      ScaledDownBounds(v / 1000, value, exponent + 1);
    }
  }

  lemma ThousandthOf(x: Decimal)
    ensures TryDiv(x, FromU64(1000)) == Ok(x / 1000)
    ensures x / 1000 * 1000 <= x < (x / 1000 + 1) * 1000
  {
    var q := Quotient(x * WAD, 1000 * WAD);
    assert q * 1000 * WAD <= x * WAD < (q + 1) * 1000 * WAD;
    assert q == x / 1000;
  }

  lemma ScaleStep(v: nat, q: nat, p: nat, value: nat)
    requires v * p <= value < (v + 1) * p
    requires q * 1000 <= v < (q + 1) * 1000
    ensures q * (1000 * p) <= value < (q + 1) * (1000 * p)
  {
    MulMono(q * 1000, v, p);
    MulMono(v + 1, (q + 1) * 1000, p);
    assert q * 1000 * p == q * (1000 * p);
    assert (q + 1) * 1000 * p == (q + 1) * (1000 * p);
  }

  // ---- integer_leading_zeros ----

  function Pow2(e: nat): nat {
    if e == 0 then 1 else 2 * Pow2(e - 1)
  }

  function BitLength(x: nat): nat {
    if x == 0 then 0 else 1 + BitLength(x / 2)
  }

  const LIMB: nat := 0x1_0000_0000_0000_0000

  /** Leading zeros of a 64-bit limb. */
  function LeadingZeros64(x: nat): nat
    requires x < LIMB
  {
    BitLengthBound(x, 64);
    64 - BitLength(x)
  }

  /** The limbs are looked at from the top; the result estimates the exponent of the integer
      part, the lowest 60 bits being taken for decimals. */
  function LimbEstimate(lowest: nat, middle: nat, upper: nat): nat
    requires lowest < LIMB && middle < LIMB && upper < LIMB
  {
    var leadingZeroes :=
      if upper == 0 then
        if middle == 0 then Min(LeadingZeros64(lowest), 4) + 128
        else LeadingZeros64(middle) + 64
      else LeadingZeros64(upper);
    assert leadingZeroes <= 132 by { LeadingZerosSmall(middle); LeadingZerosSmall(upper); }
    132 - leadingZeroes
  }

  function IntegerLeadingZeros(num: Decimal): nat {
    LimbsInRange(num);
    LimbEstimate(num % LIMB, num / LIMB % LIMB, num / LIMB / LIMB)
  }

  lemma LimbsInRange(num: Decimal)
    ensures num / LIMB / LIMB < LIMB
  {
  }

  lemma LeadingZerosSmall(x: nat)
    requires x < LIMB
    ensures x > 0 ==> LeadingZeros64(x) <= 63
  {
  }

  lemma {:induction false} BitLengthBounds(x: nat)
    ensures x < Pow2(BitLength(x))
    ensures x > 0 ==> Pow2(BitLength(x) - 1) <= x
  {
    if x > 0 {
      BitLengthBounds(x / 2);
    }
  }

  lemma {:induction false} BitLengthIs(x: nat, k: nat)
    requires Pow2(k) <= x < Pow2(k + 1)
    ensures BitLength(x) == k + 1
  {
    if k > 0 {
      BitLengthIs(x / 2, k - 1);
    } else {
      assert x == 1;
      assert BitLength(0) == 0;
    }
  }

  lemma {:induction false} Pow2Add(a: nat, b: nat)
    ensures Pow2(a + b) == Pow2(a) * Pow2(b)
  {
    if a > 0 {
      Pow2Add(a - 1, b);
      Doubled(Pow2(a - 1), Pow2(b));
    }
  }

  lemma Doubled(x: nat, y: nat)
    ensures 2 * (x * y) == (2 * x) * y
  {
  }

  lemma {:induction false} Pow2Mono(a: nat, b: nat)
    requires a <= b
    ensures 0 < Pow2(a) <= Pow2(b)
    decreases b
  {
    if a < b {
      Pow2Mono(a, b - 1);
    } else if b > 0 {
      Pow2Mono(a - 1, b - 1);
    }
  }

  lemma Pow2Byte()
    ensures Pow2(8) == 0x100
  {
    assert Pow2(4) == 0x10;
  }

  lemma Pow2Limb()
    ensures Pow2(64) == LIMB && Pow2(192) == U192_LIMIT && Pow2(128) == LIMB * LIMB
  {
    hide Pow2;
    Pow2Byte();
    Pow2Add(8, 8);
    Pow2Add(16, 16);
    Pow2Add(32, 32);
    Pow2Add(64, 64);
    Pow2Add(128, 64);
  }

  lemma BitLengthBound(x: nat, k: nat)
    requires x < LIMB && k == 64
    ensures BitLength(x) <= k
  {
    Pow2Limb();
    BitLengthBounds(x);
    if BitLength(x) > 64 {
      Pow2Mono(64, BitLength(x) - 1);
    }
  }

  /** A limb shifted up by `s` bits, with anything below it. */
  lemma ShiftedBitLength(limb: nat, s: nat, low: nat)
    requires limb > 0 && low < Pow2(s)
    ensures BitLength(limb * Pow2(s) + low) == BitLength(limb) + s
  {
    hide Pow2;
    var k := BitLength(limb) - 1;
    BitLengthBounds(limb);
    Pow2Add(k, s);
    Pow2Add(k + 1, s);
    MulMono(Pow2(k), limb, Pow2(s));
    MulMono(limb + 1, Pow2(k + 1), Pow2(s));
    assert (limb + 1) * Pow2(s) == limb * Pow2(s) + Pow2(s);
    BitLengthIs(limb * Pow2(s) + low, k + s);
  }

  lemma LimbEstimateIsBitLength(lowest: nat, middle: nat, upper: nat)
    requires lowest < LIMB && middle < LIMB && upper < LIMB
    ensures LimbEstimate(lowest, middle, upper)
            == Max(BitLength(upper * (LIMB * LIMB) + (middle * LIMB + lowest)), 60) - 60
  {
    hide BitLength;
    hide Pow2;
    Pow2Limb();
    BitLengthBound(lowest, 64);
    if upper > 0 {
      BitLengthBound(upper, 64);
      ShiftedBitLength(upper, 128, middle * LIMB + lowest);
    } else if middle > 0 {
      BitLengthBound(middle, 64);
      ShiftedBitLength(middle, 64, lowest);
    }
  }

  lemma LimbsRecombine(num: nat)
    ensures num == num / LIMB / LIMB * (LIMB * LIMB) + (num / LIMB % LIMB * LIMB + num % LIMB)
  {
    var high := num / LIMB;
    assert num == high * LIMB + num % LIMB;
    assert high == high / LIMB * LIMB + high % LIMB;
  }

  /** The limb-by-limb count is the bit length beyond the 60 bits reserved for decimals. */
  lemma IntegerLeadingZerosIsBitLength(num: Decimal)
    ensures IntegerLeadingZeros(num) == Max(BitLength(num), 60) - 60
  {
    hide BitLength;
    hide LimbEstimate;
    LimbsInRange(num);
    LimbsRecombine(num);
    LimbEstimateIsBitLength(num % LIMB, num / LIMB % LIMB, num / LIMB / LIMB);
  }

  lemma ExponentBounds(num: Decimal)
    ensures num < Pow2(60 + IntegerLeadingZeros(num))
  {
    IntegerLeadingZerosIsBitLength(num);
    BitLengthBounds(num);
    Pow2Mono(BitLength(num), 60 + IntegerLeadingZeros(num));
  }

  // ---- try_mul_div ----

  function MulThenDiv(a: Decimal, b: Decimal, c: Decimal): Result<Decimal> {
    var ab :- TryMul(a, b);
    TryDiv(ab, c)
  }

  function DivThenMul(a: Decimal, b: Decimal, c: Decimal): Result<Decimal> {
    var ac :- TryDiv(a, c);
    TryMul(ac, b)
  }

  /** `a * b / c` along the path chosen by the exponents of `a` and `b`. */
  function TryMulDiv(a: Decimal, b: Decimal, c: Decimal): Result<Decimal> {
    if c < ONE then MulThenDiv(a, b, c)
    else
      var aLz, bLz := IntegerLeadingZeros(a), IntegerLeadingZeros(b);
      if aLz + bLz >= 130 then
        if aLz >= bLz then DivThenMul(a, b, c) else DivThenMul(b, a, c)
      else MulThenDiv(a, b, c)
  }

  /** While the exponents sum to less than 130 the product fits 192 bits. */
  lemma ProductFits(a: Decimal, b: Decimal)
    requires IntegerLeadingZeros(a) + IntegerLeadingZeros(b) < 130
    ensures TryMul(a, b).Ok?
  {
    var ea, eb := 60 + IntegerLeadingZeros(a), 60 + IntegerLeadingZeros(b);
    hide IntegerLeadingZeros;
    hide Pow2;
    ExponentBounds(a);
    ExponentBounds(b);
    Pow2Add(ea, eb);
    Pow2Mono(ea + eb, 249);
    ProductBelow(a, b, Pow2(ea), Pow2(eb));
    Pow2At249();
    SmallQuotient(a * b);
  }

  lemma SmallQuotient(x: nat)
    requires x < 0x200_0000_0000_0000 * U192_LIMIT
    ensures Scaled(x) < U192_LIMIT
  {
  }

  lemma Pow2At249()
    ensures Pow2(249) == 0x200_0000_0000_0000 * U192_LIMIT
  {
    assert Pow2(8) == 0x100 && Pow2(1) == 2;
    hide Pow2;
    Pow2Add(8, 8);
    Pow2Add(16, 16);
    Pow2Add(32, 16);
    Pow2Add(48, 8);
    Pow2Add(56, 1);
    Pow2Limb();
    Pow2Add(57, 192);
  }

  lemma ProductBelow(a: nat, b: nat, x: nat, y: nat)
    requires a < x && b < y
    ensures a * b < x * y
  {
    MulMono(a, x, b);
    MulMonoStrict(b, y, x);
  }

  /** Multiplying first: below the exact value by less than two units in the last place. */
  lemma MulThenDivBounds(a: Decimal, b: Decimal, c: Decimal)
    requires MulThenDiv(a, b, c).Ok?
    ensures var r := MulThenDiv(a, b, c).value;
            r * c <= a * b && (c >= ONE ==> a * b < (r + 2) * c)
  {
    var ab := Scaled(a * b);
    DivBounds(a * b, WAD);
    var r := Quotient(ab * WAD, c);
    if c >= ONE {
      assert a * b < ab * WAD + WAD;
      assert (r + 2) * c == (r + 1) * c + c;
    }
  }

  /** Dividing first: below the exact value by less than the integer part of the other
      factor plus two units in the last place. */
  lemma DivThenMulBounds(a: Decimal, b: Decimal, c: Decimal)
    requires DivThenMul(a, b, c).Ok?
    ensures var r := DivThenMul(a, b, c).value;
            r * c <= a * b < (r + b / WAD + 2) * c
  {
    var q := Quotient(a * WAD, c);
    DivBounds(q * b, WAD);
    DivBounds(b, WAD);
    QuotientTimesBelow(a, b, c, q, Scaled(q * b), WAD);
    QuotientTimesClose(a, b, c, q, Scaled(q * b), b / WAD, WAD);
  }

  lemma QuotientTimesBelow(a: nat, b: nat, c: nat, q: nat, r: nat, w: nat)
    requires w > 0 && q * c <= a * w && r * w <= q * b
    ensures r * c <= a * b
  {
    MulMono(r * w, q * b, c);
    MulMono(q * c, a * w, b);
    assert (r * w) * c == (r * c) * w;
    assert (q * b) * c == (q * c) * b;
    assert (a * w) * b == (a * b) * w;
    CancelMul(r * c, a * b, w);
  }

  lemma QuotientTimesClose(a: nat, b: nat, c: nat, q: nat, r: nat, k: nat, w: nat)
    requires w > 0 && c > 0 && a * w < (q + 1) * c && q * b < (r + 1) * w && b < (k + 1) * w
    ensures a * b < (r + k + 2) * c
  {
    MulMono(a * w, (q + 1) * c, b);
    assert (a * w) * b == (a * b) * w;
    assert ((q + 1) * c) * b == (q * b + b) * c;
    assert (r + 1) * w + (k + 1) * w == (r + k + 2) * w;
    MulMonoStrict(q * b + b, (r + k + 2) * w, c);
    assert ((r + k + 2) * w) * c == ((r + k + 2) * c) * w;
    if (r + k + 2) * c <= a * b {
      MulMono((r + k + 2) * c, a * b, w);
    }
  }

  /** The factor that is multiplied last on the divide-first paths. */
  function OtherFactor(a: Decimal, b: Decimal): Decimal {
    if IntegerLeadingZeros(a) >= IntegerLeadingZeros(b) then b else a
  }

  /** On every path the result is at most the exact `a * b / c`; for `c` of at least one,
      multiplying first loses less than two units in the last place, and dividing first
      less than that plus the integer part of the factor multiplied last. */
  lemma TryMulDivBounds(a: Decimal, b: Decimal, c: Decimal)
    requires TryMulDiv(a, b, c).Ok?
    ensures var r := TryMulDiv(a, b, c).value;
            && r * c <= a * b
            && (c >= ONE ==> a * b < (r + OtherFactor(a, b) / WAD + 2) * c)
            && (c >= ONE && IntegerLeadingZeros(a) + IntegerLeadingZeros(b) < 130 ==> a * b < (r + 2) * c)
  {
    var r := TryMulDiv(a, b, c).value;
    var aLz, bLz := IntegerLeadingZeros(a), IntegerLeadingZeros(b);
    hide IntegerLeadingZeros;
    if c < ONE || aLz + bLz < 130 {
      MulThenDivBounds(a, b, c);
      MulMono(r + 2, r + OtherFactor(a, b) / WAD + 2, c);
    } else if aLz >= bLz {
      DivThenMulBounds(a, b, c);
    } else {
      DivThenMulBounds(b, a, c);
      assert b * a == a * b;
    }
  }

  /** With a divisor of at least one, only a result out of range makes it fail. */
  lemma TryMulDivSucceeds(a: Decimal, b: Decimal, c: Decimal)
    requires c >= ONE && a * b < U192_LIMIT * c
    ensures TryMulDiv(a, b, c).Ok?
  {
    if IntegerLeadingZeros(a) + IntegerLeadingZeros(b) >= 130 {
      hide IntegerLeadingZeros;
      DivThenMulSucceeds(a, b, c);
      DivThenMulSucceeds(b, a, c);
    } else {
      hide IntegerLeadingZeros;
      ProductFits(a, b);
      QuotientByOne(TryMul(a, b).value, c);
    }
  }

  lemma QuotientByOne(a: Decimal, c: Decimal)
    requires c >= ONE
    ensures TryDiv(a, c).Ok?
  {
    MulMono(WAD, c, a);
    CancelMul(Quotient(a * WAD, c), a, c);
  }

  lemma DivThenMulSucceeds(a: Decimal, b: Decimal, c: Decimal)
    requires c >= ONE && a * b < U192_LIMIT * c
    ensures DivThenMul(a, b, c).Ok?
  {
    QuotientByOne(a, c);
    var q := Quotient(a * WAD, c);
    DivBounds(q * b, WAD);
    QuotientTimesBelow(a, b, c, q, Scaled(q * b), WAD);
    if Scaled(q * b) >= U192_LIMIT {
      MulMono(U192_LIMIT, Scaled(q * b), c);
    }
  }
}
