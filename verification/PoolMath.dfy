/** The arithmetic of deposits and redemptions over a list of reserves, and what it
    guarantees to depositors and to the remaining holders. */
module PoolMath {
  import opened Results
  import opened FixedPoint
  import opened AmmHelpers
  import opened StableInvariant

  const INVERSION_LIMIT: nat := 10_000_000_000

  /** A decimal divided by a whole number. */
  function TryDivWhole(a: Decimal, n: nat): Result<Decimal> {
    if n == 0 then Err(MathOverflow) else Ok(Quotient(a, n))
  }

  /** `numerators[i] / denominators[i]` for every reserve. */
  function Ratios(numerators: seq<nat>, denominators: seq<nat>): Result<seq<Decimal>>
    requires |numerators| == |denominators| && AmountsFit(numerators)
  {
    if numerators == [] then Ok([])
    else
      var r :- TryDivWhole(FromU64(numerators[0]), denominators[0]);
      var rest :- Ratios(numerators[1..], denominators[1..]);
      Ok([r] + rest)
  }

  function Least(rs: seq<nat>): (m: nat)
    requires rs != []
    ensures m in rs && forall i :: 0 <= i < |rs| ==> m <= rs[i]
  {
    if |rs| == 1 then rs[0] else Min(rs[0], Least(rs[1..]))
  }

  function Greatest(rs: seq<Decimal>): (m: Decimal)
    requires rs != []
    ensures m in rs && forall i :: 0 <= i < |rs| ==> rs[i] <= m
  {
    if |rs| == 1 then rs[0] else Max(rs[0], Greatest(rs[1..]))
  }

  /** Large reserves turn the ratio round to keep precision. */
  predicate IsInverted(reserves: seq<nat>) {
    exists i :: 0 <= i < |reserves| && reserves[i] > INVERSION_LIMIT
  }

  function GetDepositRatio(reserves: seq<nat>, limits: seq<nat>): Result<Decimal>
    requires |reserves| == |limits| && AmountsFit(reserves) && AmountsFit(limits)
  {
    if reserves == [] then Err(InvariantViolation)
    else if !IsInverted(reserves) then
      var rs :- Ratios(limits, reserves);
      if rs == [] then Err(InvariantViolation) else Ok(Least(rs))
    else
      var rs :- Ratios(reserves, limits);
      if rs == [] then Err(InvariantViolation) else Ok(Greatest(rs))
  }

  lemma {:induction false} RatiosAt(ns: seq<nat>, ds: seq<nat>, i: nat)
    requires |ns| == |ds| && AmountsFit(ns) && Ratios(ns, ds).Ok? && i < |ns|
    ensures ds[i] > 0 && |Ratios(ns, ds).value| == |ns| && Ratios(ns, ds).value[i] == Quotient(ns[i] * WAD, ds[i])
  {
    if i > 0 {
      RatiosAt(ns[1..], ds[1..], i - 1);
    } else if |ns| > 1 {
      RatiosAt(ns[1..], ds[1..], 0);
    }
  }

  function DepositAmount(reserve: nat, ratio: Decimal, inverted: bool): Result<nat>
    requires reserve <= U64_MAX
  {
    var raw :- if inverted then TryDiv(FromU64(reserve), ratio) else TryMul(FromU64(reserve), ratio);
    TryCeil(raw)
  }

  function DepositAmounts(reserves: seq<nat>, ratio: Decimal, inverted: bool): Result<seq<nat>>
    requires AmountsFit(reserves)
  {
    if reserves == [] then Ok([])
    else
      var d :- DepositAmount(reserves[0], ratio, inverted);
      var rest :- DepositAmounts(reserves[1..], ratio, inverted);
      Ok([d] + rest)
  }

  /** The tokens taken from each reserve's limit on a deposit that is not the first. */
  function TokensToDeposit(reserves: seq<nat>, limits: seq<nat>): Result<seq<nat>>
    requires |reserves| == |limits| && AmountsFit(reserves) && AmountsFit(limits)
  {
    var ratio :- GetDepositRatio(reserves, limits);
    DepositAmounts(reserves, ratio, IsInverted(reserves))
  }

  lemma {:induction false} DepositAmountsAt(reserves: seq<nat>, ratio: Decimal, inverted: bool, i: nat)
    requires AmountsFit(reserves) && DepositAmounts(reserves, ratio, inverted).Ok? && i < |reserves|
    ensures |DepositAmounts(reserves, ratio, inverted).value| == |reserves|
    ensures DepositAmount(reserves[i], ratio, inverted) == Ok(DepositAmounts(reserves, ratio, inverted).value[i])
  {
    if i > 0 {
      DepositAmountsAt(reserves[1..], ratio, inverted, i - 1);
    } else if |reserves| > 1 {
      DepositAmountsAt(reserves[1..], ratio, inverted, 0);
    }
  }

  /** LP tokens for a deposit into the first reserve; none if the amount rounds to zero. */
  function EligibleLpTokens(reserve: nat, deposit: nat, supply: nat): Result<Option<nat>>
    requires reserve <= U64_MAX && deposit <= U64_MAX && supply <= U64_MAX
  {
    var raw :- TryMulDiv(FromU64(supply), FromU64(deposit), FromU64(reserve));
    var tokens :- TryFloor(raw);
    Ok(if tokens == 0 then None else Some(tokens))
  }

  /** Tokens paid out of a reserve for burning `burn` of `supply` LP tokens. */
  function TokensToRedeem(reserve: nat, burn: nat, supply: nat): Result<nat>
    requires reserve <= U64_MAX && burn <= U64_MAX && supply <= U64_MAX
  {
    var weight :- TryDiv(FromU64(burn), FromU64(supply));
    var raw :- TryMul(FromU64(reserve), weight);
    TryFloor(raw)
  }

  // ---- deposit limits ----

  /** What a deposit of one reserve is, without the decimals. */
  lemma DepositAmountMeaning(reserve: nat, ratio: Decimal, inverted: bool)
    requires reserve <= U64_MAX && DepositAmount(reserve, ratio, inverted).Ok?
    ensures inverted ==> ratio > 0
    ensures DepositAmount(reserve, ratio, inverted).value ==
            if inverted then CeilDiv(Quotient(reserve * WAD * WAD, ratio), WAD) else CeilDiv(reserve * ratio, WAD)
  {
    if !inverted {
      MulWhole(reserve, ratio);
    }
  }

  /** Without inversion every deposit is at least one token and within the user's limit. */
  lemma DepositWithinLimits(reserves: seq<nat>, limits: seq<nat>, i: nat)
    requires |reserves| == |limits| && AmountsFit(reserves) && AmountsFit(limits) && i < |reserves|
    requires forall j :: 0 <= j < |limits| ==> limits[j] > 0
    requires !IsInverted(reserves) && TokensToDeposit(reserves, limits).Ok?
    ensures |TokensToDeposit(reserves, limits).value| == |reserves|
    ensures 1 <= TokensToDeposit(reserves, limits).value[i] <= limits[i]
  {
    var ratio := GetDepositRatio(reserves, limits).value;
    DepositAmountsAt(reserves, ratio, false, i);
    DepositAmountMeaning(reserves[i], ratio, false);
    LeastRatio(reserves, limits, i);
    RatioGivesAtMost(reserves[i], ratio, limits[i]);
    MulMono(1, reserves[i], ratio);
  }

  /** The ratio is below every limit's and still positive: at least 10^18 / 10^10. */
  lemma LeastRatio(reserves: seq<nat>, limits: seq<nat>, i: nat)
    requires |reserves| == |limits| && AmountsFit(reserves) && AmountsFit(limits) && i < |reserves|
    requires forall j :: 0 <= j < |limits| ==> limits[j] > 0
    requires !IsInverted(reserves) && GetDepositRatio(reserves, limits).Ok?
    ensures reserves[i] > 0
    ensures 0 < GetDepositRatio(reserves, limits).value <= Quotient(limits[i] * WAD, reserves[i])
  {
    var rs := Ratios(limits, reserves).value;
    RatiosAt(limits, reserves, i);
    assert Least(rs) <= rs[i];
    var k :| 0 <= k < |rs| && rs[k] == Least(rs);
    RatiosAt(limits, reserves, k);
    PositiveQuotient(limits[k], reserves[k]);
  }

  lemma RatioGivesAtMost(x: nat, ratio: nat, t: nat)
    requires x > 0 && ratio <= Quotient(t * WAD, x)
    ensures CeilDiv(x * ratio, WAD) <= t
  {
    MulMono(ratio, Quotient(t * WAD, x), x);
    CeilIsSmallest(x * ratio, WAD, t);
  }

  lemma PositiveQuotient(limit: nat, reserve: nat)
    requires limit > 0 && 0 < reserve <= INVERSION_LIMIT
    ensures Quotient(limit * WAD, reserve) > 0
  {
    QuotientIsLargest(limit * WAD, reserve, 1);
  }

  lemma GreatestRatio(reserves: seq<nat>, limits: seq<nat>, i: nat)
    requires |reserves| == |limits| && AmountsFit(reserves) && AmountsFit(limits) && i < |reserves|
    requires IsInverted(reserves) && GetDepositRatio(reserves, limits).Ok?
    ensures var ratio := GetDepositRatio(reserves, limits).value;
            limits[i] > 0 && Quotient(reserves[i] * WAD, limits[i]) <= ratio && ratio > 0
  {
    var rs := Ratios(reserves, limits).value;
    RatiosAt(reserves, limits, i);
    var j :| 0 <= j < |reserves| && reserves[j] > INVERSION_LIMIT;
    RatiosAt(reserves, limits, j);
    QuotientIsLargest(reserves[j] * WAD, limits[j], 1);
    assert rs[i] <= Greatest(rs) && rs[j] <= Greatest(rs);
  }

  /** With inversion the divisor is positive, but it was truncated: a deposit may exceed the
      limit, by at most the limit divided by the scaled ratio, rounded up. */
  lemma InvertedDepositNearLimits(reserves: seq<nat>, limits: seq<nat>, i: nat)
    requires |reserves| == |limits| && AmountsFit(reserves) && AmountsFit(limits) && i < |reserves|
    requires IsInverted(reserves) && TokensToDeposit(reserves, limits).Ok?
    ensures GetDepositRatio(reserves, limits).value > 0
    ensures |TokensToDeposit(reserves, limits).value| == |reserves|
    ensures TokensToDeposit(reserves, limits).value[i]
            <= limits[i] + CeilDiv(limits[i], GetDepositRatio(reserves, limits).value)
  {
    var ratio := GetDepositRatio(reserves, limits).value;
    GreatestRatio(reserves, limits, i);
    DepositAmountsAt(reserves, ratio, true, i);
    DepositAmountMeaning(reserves[i], ratio, true);
    TruncatedRatioBound(reserves[i] * WAD, limits[i], ratio);
    CeilOfTruncated(reserves[i] * WAD, ratio, limits[i] + CeilDiv(limits[i], ratio));
  }

  lemma TruncatedRatioBound(x: nat, t: nat, ratio: nat)
    requires t > 0 && ratio > 0 && Quotient(x, t) <= ratio
    ensures x <= (t + CeilDiv(t, ratio)) * ratio
  {
    MulMono(Quotient(x, t) + 1, ratio + 1, t);
    assert (ratio + 1) * t == t * ratio + t;
    assert (t + CeilDiv(t, ratio)) * ratio == t * ratio + CeilDiv(t, ratio) * ratio;
  }

  lemma CeilOfTruncated(x: nat, ratio: nat, bound: nat)
    requires ratio > 0 && x <= bound * ratio
    ensures CeilDiv(Quotient(x * WAD, ratio), WAD) <= bound
  {
    var q := Quotient(x * WAD, ratio);
    MulMono(x, bound * ratio, WAD);
    assert (bound * ratio) * WAD == (bound * WAD) * ratio;
    CancelMul(q, bound * WAD, ratio);
    CeilIsSmallest(q, WAD, bound);
  }

  /** Exactly when an inverted deposit respects the limit of a reserve: the part of the
      reserve (in units of 10^-18) that the truncated ratio does not account for, in whole
      units, must be smaller than the ratio. */
  lemma InvertedDepositWithinLimitIff(reserves: seq<nat>, limits: seq<nat>, i: nat)
    requires |reserves| == |limits| && AmountsFit(reserves) && AmountsFit(limits) && i < |reserves|
    requires IsInverted(reserves) && TokensToDeposit(reserves, limits).Ok?
    ensures |TokensToDeposit(reserves, limits).value| == |reserves|
    ensures var ratio := GetDepositRatio(reserves, limits).value;
            TokensToDeposit(reserves, limits).value[i] <= limits[i]
            <==> (reserves[i] * WAD - limits[i] * ratio) * WAD < ratio
  {
    var ratio := GetDepositRatio(reserves, limits).value;
    GreatestRatio(reserves, limits, i);
    DepositAmountsAt(reserves, ratio, true, i);
    DepositAmountMeaning(reserves[i], ratio, true);
    WithinLimitIff(reserves[i] * WAD, ratio, limits[i]);
  }

  lemma WithinLimitIff(x: nat, ratio: nat, t: nat)
    requires ratio > 0
    ensures CeilDiv(Quotient(x * WAD, ratio), WAD) <= t <==> (x - t * ratio) * WAD < ratio
  {
    var q := Quotient(x * WAD, ratio);
    var d := CeilDiv(q, WAD);
    assert (x - t * ratio) * WAD == x * WAD - (t * WAD) * ratio;
    assert (t * WAD + 1) * ratio == (t * WAD) * ratio + ratio;
    if d <= t {
      MulMono(d, t, WAD);
      MulMono(q + 1, t * WAD + 1, ratio);
    }
    if (x - t * ratio) * WAD < ratio {
      if q >= t * WAD + 1 {
        MulMono(t * WAD + 1, q, ratio);
      }
      CeilIsSmallest(q, WAD, t);
    }
  }

  /** A pool and limits for which the inverted branch takes more than the user allowed. */
  lemma InvertedDepositCanExceedLimit()
    ensures var reserves, limits := [10_000_000_001, 1], [18_000_000_000_000_000_000, 18_000_000_000_000_000_000];
            && AmountsFit(reserves) && AmountsFit(limits) && IsInverted(reserves)
            && TokensToDeposit(reserves, limits).Ok?
            && TokensToDeposit(reserves, limits).value[0] > limits[0]
  {
    var reserves: seq<nat> := [10_000_000_001, 1];
    var limits: seq<nat> := [18_000_000_000_000_000_000, 18_000_000_000_000_000_000];
    assert reserves[0] > INVERSION_LIMIT;
    var ratio: Decimal := 555_555_555;
    assert Quotient(10_000_000_001 * WAD, 18_000_000_000_000_000_000) == ratio;
    assert Quotient(1 * WAD, 18_000_000_000_000_000_000) == 0;
    assert reserves[1..] == [1] && limits[1..] == [18_000_000_000_000_000_000];
    assert reserves[1..][1..] == [] && limits[1..][1..] == [];
    var tail := Ratios(reserves[1..], limits[1..]);
    assert Ratios(reserves[1..][1..], limits[1..][1..]) == Ok([]);
    assert TryDivWhole(FromU64(reserves[1..][0]), limits[1..][0]) == Ok(0);
    assert tail == Ok([0] + []);
    assert TryDivWhole(FromU64(reserves[0]), limits[0]) == Ok(ratio);
    assert Ratios(reserves, limits) == Ok([ratio] + tail.value);
    assert GetDepositRatio(reserves, limits) == Ok(ratio);
    var d0, d1 := DepositAmount(10_000_000_001, ratio, true), DepositAmount(1, ratio, true);
    var rest := DepositAmounts(reserves[1..], ratio, true);
    assert rest == Ok([d1.value] + []);
    assert DepositAmounts(reserves, ratio, true) == Ok([d0.value] + rest.value);
  }

  // ---- redemption ----

  lemma RedeemMeaning(reserve: nat, burn: nat, supply: nat)
    requires reserve <= U64_MAX && burn <= supply <= U64_MAX && supply > 0
    ensures TokensToRedeem(reserve, burn, supply).Ok?
    ensures TokensToRedeem(reserve, burn, supply).value == Scaled(reserve * Quotient(burn * WAD, supply))
    ensures TokensToRedeem(reserve, burn, supply).value * supply <= reserve * burn
    ensures TokensToRedeem(reserve, burn, supply).value <= reserve
    ensures burn == supply ==> TokensToRedeem(reserve, burn, supply).value == reserve
  {
    var q := Quotient(FromU64(burn) * WAD, FromU64(supply));
    var weight := Quotient(burn * WAD, supply);
    SameQuotient(burn * WAD, supply, WAD);
    assert q == weight;
    MulMono(burn, supply, WAD);
    CancelMul(weight, WAD, supply);
    MulMono(weight, WAD, reserve);
    MulWhole(reserve, weight);
    var out := Scaled(reserve * weight);
    DivBounds(reserve * weight, WAD);
    // out * WAD <= reserve * weight and weight * supply <= burn * WAD
    QuotientTimesBelow(burn, reserve, supply, weight, out, WAD);
    assert weight * reserve == reserve * weight;
    assert burn * reserve == reserve * burn;
    CancelMul(out, reserve, WAD);
    if burn == supply {
      QuotientIsLargest(burn * WAD, supply, WAD);
    }
  }

  /** One reserve and the LP supply after a sequence of redemptions. */
  function RedeemAll(reserve: nat, supply: nat, burns: seq<nat>): Result<(nat, nat)>
    requires reserve <= U64_MAX && supply <= U64_MAX
    decreases |burns|
  {
    if burns == [] then Ok((reserve, supply))
    else if supply == 0 || burns[0] > supply then Err(InvalidArg)
    else
      var out :- TokensToRedeem(reserve, burns[0], supply);
      if out > reserve then Err(MathOverflow) else RedeemAll(reserve - out, supply - burns[0], burns[1..])
  }

  /** Redemptions never dilute the remaining holders: the reserve per LP token does not fall,
      in total at most the burned fraction is paid out, and burning the whole supply empties
      the reserve. */
  lemma {:induction false} RedemptionsNeverDilute(reserve: nat, supply: nat, burns: seq<nat>)
    requires reserve <= U64_MAX && supply <= U64_MAX && RedeemAll(reserve, supply, burns).Ok?
    ensures var (reserve', supply') := RedeemAll(reserve, supply, burns).value;
            && reserve' <= reserve && supply' <= supply
            && reserve * supply' <= reserve' * supply
            && (reserve - reserve') * supply <= reserve * (supply - supply')
            && (supply > 0 && supply' == 0 ==> reserve' == 0)
    decreases |burns|
  {
    if burns != [] {
      var out := TokensToRedeem(reserve, burns[0], supply).value;
      RedeemMeaning(reserve, burns[0], supply);
      var r1, s1 := reserve - out, supply - burns[0];
      RedemptionsNeverDilute(r1, s1, burns[1..]);
      var (r2, s2) := RedeemAll(reserve, supply, burns).value;
      Undiluted(reserve, supply, out, burns[0]);
      if s1 > 0 {
        Chain(reserve, supply, r1, s1, r2, s2);
      } else {
        assert reserve * s2 == 0 <= r2 * supply;
      }
    }
    var (r, s) := RedeemAll(reserve, supply, burns).value;
    assert (reserve - r) * supply == reserve * supply - r * supply;
    assert reserve * (supply - s) == reserve * supply - reserve * s;
  }

  lemma Undiluted(reserve: nat, supply: nat, out: nat, burn: nat)
    requires out <= reserve && burn <= supply && out * supply <= reserve * burn
    ensures reserve * (supply - burn) <= (reserve - out) * supply
  {
    assert reserve * (supply - burn) == reserve * supply - reserve * burn;
    assert (reserve - out) * supply == reserve * supply - out * supply;
  }

  lemma Chain(r0: nat, s0: nat, r1: nat, s1: nat, r2: nat, s2: nat)
    requires s1 > 0 && r0 * s1 <= r1 * s0 && r1 * s2 <= r2 * s1
    ensures r0 * s2 <= r2 * s0
  {
    MulMono(r0 * s1, r1 * s0, s2);
    MulMono(r1 * s2, r2 * s1, s0);
    assert (r0 * s1) * s2 == (r0 * s2) * s1;
    assert (r1 * s0) * s2 == (r1 * s2) * s0;
    assert (r2 * s1) * s0 == (r2 * s0) * s1;
    CancelMul(r0 * s2, r2 * s0, s1);
  }

  // ---- deposit, then redeem what was minted ----

  /** Minted LP tokens never exceed the deposit's exact share, whichever path computes them. */
  lemma LpTokensFair(reserve: nat, deposit: nat, supply: nat, minted: nat)
    requires 0 < reserve <= U64_MAX && deposit <= U64_MAX && supply <= U64_MAX
    requires EligibleLpTokens(reserve, deposit, supply) == Ok(Some(minted))
    ensures minted * reserve <= supply * deposit
  {
    var a, b, c := FromU64(supply), FromU64(deposit), FromU64(reserve);
    TryMulDivBounds(a, b, c);
    var r := TryMulDiv(a, b, c).value;
    DivBounds(r, WAD);
    MulMono(minted * WAD, r, c);
    FairShare(minted, reserve, supply, deposit, WAD);
  }

  lemma FairShare(minted: nat, reserve: nat, supply: nat, deposit: nat, w: nat)
    requires w > 0 && (minted * w) * (reserve * w) <= (supply * w) * (deposit * w)
    ensures minted * reserve <= supply * deposit
  {
    ScaledFactors(minted, reserve, w);
    ScaledFactors(supply, deposit, w);
    CancelMul(minted * reserve * w, supply * deposit * w, w);
    CancelMul(minted * reserve, supply * deposit, w);
  }

  lemma ScaledFactors(a: nat, b: nat, w: nat)
    ensures (a * w) * (b * w) == (a * b * w) * w
  {
  }

  /** Redeeming exactly the minted LP tokens returns at most the first reserve's deposit. */
  lemma RoundTripFirstReserve(reserve: nat, deposit: nat, supply: nat, minted: nat)
    requires 0 < reserve && reserve + deposit <= U64_MAX && 0 < supply && supply + minted <= U64_MAX
    requires EligibleLpTokens(reserve, deposit, supply) == Ok(Some(minted))
    ensures TokensToRedeem(reserve + deposit, minted, supply + minted).Ok?
    ensures TokensToRedeem(reserve + deposit, minted, supply + minted).value <= deposit
  {
    LpTokensFair(reserve, deposit, supply, minted);
    RedeemMeaning(reserve + deposit, minted, supply + minted);
    var out := TokensToRedeem(reserve + deposit, minted, supply + minted).value;
    NoProfit(reserve, deposit, supply, minted, out);
  }

  lemma NoProfit(reserve: nat, deposit: nat, supply: nat, minted: nat, out: nat)
    requires supply + minted > 0 && minted * reserve <= supply * deposit
    requires out * (supply + minted) <= (reserve + deposit) * minted
    ensures out <= deposit
  {
    assert (reserve + deposit) * minted == minted * reserve + deposit * minted;
    assert deposit * (supply + minted) == supply * deposit + deposit * minted;
    CancelMul(out, deposit, supply + minted);
  }

  /** Redeeming exactly the minted LP tokens returns from reserve `i` at most its deposit plus
      `x_i / x_0` rounded up, whether the deposit ratio was inverted or not. */
  lemma RoundTripAnyReserve(reserves: seq<nat>, limits: seq<nat>, supply: nat, minted: nat, i: nat)
    requires |reserves| == |limits| && AmountsFit(reserves) && AmountsFit(limits) && i < |reserves|
    requires TokensToDeposit(reserves, limits).Ok?
    requires |TokensToDeposit(reserves, limits).value| == |reserves|
    requires var deposits := TokensToDeposit(reserves, limits).value;
             && supply <= U64_MAX && AmountsFit(deposits) && reserves[i] + deposits[i] <= U64_MAX
             && EligibleLpTokens(reserves[0], deposits[0], supply) == Ok(Some(minted))
    requires 0 < supply && supply + minted <= U64_MAX
    ensures reserves[0] > 0
    ensures var deposit := TokensToDeposit(reserves, limits).value[i];
            && TokensToRedeem(reserves[i] + deposit, minted, supply + minted).Ok?
            && TokensToRedeem(reserves[i] + deposit, minted, supply + minted).value
               <= deposit + CeilDiv(reserves[i], reserves[0])
  {
    hide TryMulDiv;
    var ratio, inverted := GetDepositRatio(reserves, limits).value, IsInverted(reserves);
    var deposits := TokensToDeposit(reserves, limits).value;
    var x0, xi, d0, di := reserves[0], reserves[i], deposits[0], deposits[i];
    NoLpTokensForNothing(x0, d0, supply);
    DepositAmountsAt(reserves, ratio, inverted, 0);
    DepositAmountsAt(reserves, ratio, inverted, i);
    DepositAmountMeaning(x0, ratio, inverted);
    DepositAmountMeaning(xi, ratio, inverted);
    ProportionalDeposits(x0, xi, ratio, inverted, d0, di);
    LpTokensFair(x0, d0, supply, minted);
    RedeemMeaning(xi + di, minted, supply + minted);
    var out := TokensToRedeem(xi + di, minted, supply + minted).value;
    RedeemedAtMost(x0, xi, d0, di, supply, minted, out);
  }

  /** Into an empty reserve nothing is minted. */
  lemma NoLpTokensForNothing(reserve: nat, deposit: nat, supply: nat)
    requires reserve <= U64_MAX && deposit <= U64_MAX && supply <= U64_MAX
    requires EligibleLpTokens(reserve, deposit, supply).Ok?
    ensures reserve > 0
  {
  }

  /** Rounding up both deposits keeps them proportional up to one token of the first, and with
      the truncated quotients of the inverted branch up to a little more. */
  lemma ProportionalDeposits(x0: nat, xi: nat, ratio: nat, inverted: bool, d0: nat, di: nat)
    requires inverted ==> ratio > 0
    requires d0 == if inverted then CeilDiv(Quotient(x0 * WAD * WAD, ratio), WAD) else CeilDiv(x0 * ratio, WAD)
    requires di == if inverted then CeilDiv(Quotient(xi * WAD * WAD, ratio), WAD) else CeilDiv(xi * ratio, WAD)
    ensures (xi * d0) * WAD <= (di * x0 + xi) * WAD + x0
  {
    if inverted {
      var q0, qi := Quotient(x0 * WAD * WAD, ratio), Quotient(xi * WAD * WAD, ratio);
      TruncatedProportional(x0, xi, ratio, q0, qi, WAD * WAD);
      InvertedProportional(x0, xi, q0, qi, d0, di, WAD);
    } else {
      Proportional(x0, xi, ratio, d0, di, WAD);
      MulMono(xi * d0, di * x0 + xi, WAD);
    }
  }

  lemma TruncatedProportional(x0: nat, xi: nat, ratio: nat, q0: nat, qi: nat, k: nat)
    requires ratio > 0 && q0 * ratio <= x0 * k && xi * k < (qi + 1) * ratio
    ensures xi * q0 <= x0 * (qi + 1)
  {
    MulMono(q0 * ratio, x0 * k, xi);
    MulMono(xi * k, (qi + 1) * ratio, x0);
    assert (q0 * ratio) * xi == (xi * q0) * ratio;
    assert (x0 * k) * xi == (xi * k) * x0;
    assert ((qi + 1) * ratio) * x0 == (x0 * (qi + 1)) * ratio;
    CancelMul(xi * q0, x0 * (qi + 1), ratio);
  }

  lemma InvertedProportional(x0: nat, xi: nat, q0: nat, qi: nat, d0: nat, di: nat, w: nat)
    requires xi * q0 <= x0 * (qi + 1) && d0 * w < q0 + w && qi <= di * w
    ensures (xi * d0) * w <= (di * x0 + xi) * w + x0
  {
    MulMono(d0 * w, q0 + w, xi);
    MulMono(qi, di * w, x0);
    assert (d0 * w) * xi == (xi * d0) * w;
    assert (q0 + w) * xi == xi * q0 + xi * w;
    assert x0 * (qi + 1) == qi * x0 + x0;
    assert (di * w) * x0 == (di * x0) * w;
    assert (di * x0 + xi) * w == (di * x0) * w + xi * w;
  }

  lemma Proportional(x0: nat, xi: nat, ratio: nat, d0: nat, di: nat, w: nat)
    requires w > 0 && d0 * w < x0 * ratio + w && xi * ratio <= di * w
    ensures xi * d0 <= di * x0 + xi
  {
    MulMono(d0 * w, x0 * ratio + w, xi);
    MulMono(xi * ratio, di * w, x0);
    assert (d0 * w) * xi == (xi * d0) * w;
    assert (x0 * ratio + w) * xi == (xi * ratio) * x0 + xi * w;
    assert (di * w) * x0 == (di * x0) * w;
    assert (di * x0 + xi) * w == (di * x0) * w + xi * w;
    CancelMul(xi * d0, di * x0 + xi, w);
  }

  lemma RedeemedAtMost(x0: nat, xi: nat, d0: nat, di: nat, supply: nat, minted: nat, out: nat)
    requires x0 > 0 && supply > 0
    requires (xi * d0) * WAD <= (di * x0 + xi) * WAD + x0 && minted * x0 <= supply * d0
    requires out * (supply + minted) <= (xi + di) * minted
    ensures out <= di + CeilDiv(xi, x0)
  {
    assert minted * (x0 + d0) == minted * x0 + minted * d0;
    assert (supply + minted) * d0 == supply * d0 + minted * d0;
    SharedOut(out, xi + di, minted, supply + minted, d0, x0 + d0);
    SlackCovers(x0, xi, d0, di, CeilDiv(xi, x0), out, WAD);
  }

  /** A fraction `m / u` of `r` is at most the fraction `d / t` if `m / u` is at most `d / t`. */
  lemma SharedOut(out: nat, r: nat, m: nat, u: nat, d: nat, t: nat)
    requires u > 0 && out * u <= r * m && m * t <= u * d
    ensures out * t <= r * d
  {
    MulMono(out * u, r * m, t);
    MulMono(m * t, u * d, r);
    assert (out * u) * t == (out * t) * u;
    assert (r * m) * t == (m * t) * r;
    assert (u * d) * r == (r * d) * u;
    CancelMul(out * t, r * d, u);
  }

  lemma SlackCovers(x0: nat, xi: nat, d0: nat, di: nat, slack: nat, out: nat, w: nat)
    requires x0 > 0 && w > 1 && (xi * d0) * w <= (di * x0 + xi) * w + x0 && xi <= slack * x0
    requires out * (x0 + d0) <= (xi + di) * d0
    ensures out <= di + slack
  {
    if out > di + slack {
      MulMono(di + slack + 1, out, x0 + d0);
      Expanded(x0, xi, d0, di, slack);
      TooMuch(xi * d0, di * x0, xi, x0, w);
    }
  }

  lemma Expanded(x0: nat, xi: nat, d0: nat, di: nat, slack: nat)
    ensures (xi + di) * d0 == xi * d0 + di * d0
    ensures (di + slack + 1) * (x0 + d0) == di * x0 + slack * x0 + di * d0 + slack * d0 + x0 + d0
  {
    assert (di + slack + 1) * (x0 + d0) == (di + slack + 1) * x0 + (di + slack + 1) * d0;
    assert (di + slack + 1) * x0 == di * x0 + slack * x0 + x0;
    assert (di + slack + 1) * d0 == di * d0 + slack * d0 + d0;
  }

  lemma TooMuch(a: nat, b: nat, xi: nat, x0: nat, w: nat)
    requires x0 > 0 && w > 1 && a * w <= (b + xi) * w + x0
    ensures a < b + xi + x0
  {
    if a >= b + xi + x0 {
      MulMono(b + xi + x0, a, w);
      assert (b + xi + x0) * w == (b + xi) * w + x0 * w;
      MulMonoStrict(1, w, x0);
    }
  }
}
