/** What a deposit and a redemption mean to the user: when they are accepted, what they take,
    mint and pay, and that a deposit cannot be redeemed at a profit. */
module PoolQuotes {
  import opened Results
  import opened FixedPoint
  import opened AmmHelpers
  import opened StableInvariant
  import opened PoolMath
  import opened SwapMath
  import opened Pools

  // ---- redemption ----

  /** A reserve's part of a redemption, truncated twice. */
  function PartOf(x: nat, burn: nat, supply: nat): nat
    requires supply > 0
  {
    Scaled(x * Quotient(burn * WAD, supply))
  }

  /** `out` is at most the burned share of the reserve and less than a token and a 10^-18th of the
      reserve below it. */
  predicate NearShareOf(x: nat, burn: nat, supply: nat, out: nat) {
    out * supply <= x * burn && x * burn * WAD < (out + 1) * supply * WAD + x * supply
  }

  /** A redemption is accepted exactly if it burns no more than there is and every reserve's part
      of it meets the user's minimum for that reserve. It pays these parts, which are just below
      the burned share of each reserve; burning the whole supply pays everything. */
  lemma RedemptionPays(xs: seq<nat>, ms: seq<Mint>, minTokens: map<Mint, nat>, burn: nat, supply: nat)
    requires |xs| == |ms| && AmountsFit(xs) && supply <= U64_MAX
    ensures RedeemQuote(xs, ms, minTokens, burn, supply).Ok? <==>
              && 0 < supply && burn <= supply && |minTokens| == |xs| && Covers(minTokens, ms)
              && forall i :: 0 <= i < |xs| ==> minTokens[ms[i]] <= PartOf(xs[i], burn, supply)
    ensures RedeemQuote(xs, ms, minTokens, burn, supply).Ok? ==>
              && var paid := RedeemQuote(xs, ms, minTokens, burn, supply).value;
              && |paid| == |xs| && 0 < supply
              && (forall i :: 0 <= i < |xs| ==> paid[i] == PartOf(xs[i], burn, supply))
              && (forall i :: 0 <= i < |xs| ==> NearShareOf(xs[i], burn, supply, paid[i]))
              && (forall i :: 0 <= i < |xs| ==> minTokens[ms[i]] <= paid[i])
              && (burn == supply ==> paid == xs)
  {
    if 0 < supply && burn <= supply {
      var outs := Redemptions(xs, burn, supply);
      forall i | 0 <= i < |xs|
        ensures outs[i] == PartOf(xs[i], burn, supply) && NearShareOf(xs[i], burn, supply, outs[i])
        ensures burn == supply ==> outs[i] == xs[i]
      {
        RedeemMeaning(xs[i], burn, supply);
        ShareNearlyPaid(xs[i], burn, supply, Quotient(burn * WAD, supply), outs[i], WAD);
      }
      hide PartOf;
      hide NearShareOf;
    }
  }

  lemma ShareNearlyPaid(x: nat, burn: nat, supply: nat, weight: nat, out: nat, w: nat)
    requires supply > 0 && burn * w < (weight + 1) * supply && x * weight < (out + 1) * w
    ensures x * burn * w < (out + 1) * supply * w + x * supply
  {
    MulMono(burn * w, (weight + 1) * supply, x);
    MulMonoStrict(x * weight, (out + 1) * w, supply);
    assert (burn * w) * x == x * burn * w;
    assert ((weight + 1) * supply) * x == (x * weight) * supply + x * supply;
    assert ((out + 1) * w) * supply == (out + 1) * supply * w;
  }

  // ---- deposit ----

  /** The limits a deposit must come with: positive, and one for every mint of the pool. */
  predicate LimitsGiven(maxTokens: map<Mint, nat>, ms: seq<Mint>) {
    && |maxTokens| == |ms| && Covers(maxTokens, ms)
    && forall m :: m in maxTokens ==> maxTokens[m] > 0
  }

  /** The first deposit is always accepted with such limits; it takes all of them and mints as
      many LP tokens as the smallest. */
  lemma FirstDeposit(xs: seq<nat>, ms: seq<Mint>, maxTokens: map<Mint, nat>)
    requires |xs| == |ms| && xs != [] && AmountsFit(xs) && forall m :: m in maxTokens ==> maxTokens[m] <= U64_MAX
    ensures var r := DepositQuote(xs, ms, maxTokens, 0);
            && (r.Ok? <==> LimitsGiven(maxTokens, ms))
            && (r.Ok? ==>
                  && |r.value.tokens| == |xs|
                  && (forall i :: 0 <= i < |xs| ==> r.value.tokens[i] == maxTokens[ms[i]])
                  && r.value.lpTokens.Some? && r.value.lpTokens.value in r.value.tokens
                  && (forall i :: 0 <= i < |xs| ==> r.value.lpTokens.value <= r.value.tokens[i]))
  {
  }

  /** What a reserve gives at a ratio of deposits to reserves, or, inverted, of reserves to
      deposits: its part rounded up. */
  function PartAt(reserve: nat, ratio: nat, inverted: bool): nat
    requires inverted ==> ratio > 0
  {
    if inverted then CeilDiv(Quotient(reserve * WAD * WAD, ratio), WAD) else CeilDiv(reserve * ratio, WAD)
  }

  /** The truncated ratio of one reserve and its limit. */
  function RatioOf(reserve: nat, limit: nat, inverted: bool): nat
    requires if inverted then limit > 0 else reserve > 0
  {
    if inverted then Quotient(reserve * WAD, limit) else Quotient(limit * WAD, reserve)
  }

  /** What any later deposit takes: some reserve's limit sets the ratio and is used up; every
      reserve gives its part at that ratio, rounded up. No reserve gives more than its limit,
      unless the ratio is inverted, when it may be the limit over the ratio more. */
  lemma LaterDepositTakes(xs: seq<nat>, ms: seq<Mint>, maxTokens: map<Mint, nat>, supply: nat) returns (k: nat)
    requires |xs| == |ms| && xs != [] && AmountsFit(xs) && 0 < supply <= U64_MAX
    requires forall m :: m in maxTokens ==> maxTokens[m] <= U64_MAX
    requires DepositQuote(xs, ms, maxTokens, supply).Ok?
    ensures LimitsGiven(maxTokens, ms) && k < |xs| && |DepositQuote(xs, ms, maxTokens, supply).value.tokens| == |xs|
    ensures if IsInverted(xs) then maxTokens[ms[k]] > 0 else xs[k] > 0
    ensures IsInverted(xs) ==> RatioOf(xs[k], maxTokens[ms[k]], true) > 0
    ensures var ratio, ds := RatioOf(xs[k], maxTokens[ms[k]], IsInverted(xs)),
                             DepositQuote(xs, ms, maxTokens, supply).value.tokens;
            && (forall i :: 0 <= i < |xs| ==> ds[i] == PartAt(xs[i], ratio, IsInverted(xs)))
            && (forall i :: 0 <= i < |xs| ==>
                  var limit := maxTokens[ms[i]];
                  if IsInverted(xs) then ds[i] <= limit + CeilDiv(limit, ratio) else 1 <= ds[i] <= limit)
            && maxTokens[ms[k]] <= ds[k]
  {
    hide TokensToDeposit;
    hide GetDepositRatio;
    hide EligibleLpTokens;
    hide IsInverted;
    hide PartAt;
    hide RatioOf;
    hide CeilDiv;
    var limits := InOrder(maxTokens, ms);
    k := LimitUsed(xs, limits);
    var ratio := RatioOf(xs[k], limits[k], IsInverted(xs));
    var ds := TokensToDeposit(xs, limits).value;
    forall i | 0 <= i < |xs|
      ensures if IsInverted(xs) then ds[i] <= limits[i] + CeilDiv(limits[i], ratio) else 1 <= ds[i] <= limits[i]
    {
      if IsInverted(xs) {
        InvertedDepositNearLimits(xs, limits, i);
      } else {
        DepositWithinLimits(xs, limits, i);
      }
    }
  }

  /** The limit that sets the ratio is used up. */
  lemma LimitUsed(reserves: seq<nat>, limits: seq<nat>) returns (k: nat)
    requires |reserves| == |limits| && AmountsFit(reserves) && AmountsFit(limits)
    requires forall j :: 0 <= j < |limits| ==> limits[j] > 0
    requires TokensToDeposit(reserves, limits).Ok?
    ensures k < |reserves| && |TokensToDeposit(reserves, limits).value| == |reserves|
    ensures if IsInverted(reserves) then limits[k] > 0 else reserves[k] > 0
    ensures GetDepositRatio(reserves, limits) == Ok(RatioOf(reserves[k], limits[k], IsInverted(reserves)))
    ensures IsInverted(reserves) ==> GetDepositRatio(reserves, limits).value > 0
    ensures var ratio, ds := GetDepositRatio(reserves, limits).value, TokensToDeposit(reserves, limits).value;
            && (forall i :: 0 <= i < |reserves| ==> ds[i] == PartAt(reserves[i], ratio, IsInverted(reserves)))
            && limits[k] <= ds[k]
  {
    hide GetDepositRatio;
    hide TokensToDeposit;
    hide IsInverted;
    hide PartAt;
    hide RatioOf;
    RatioComputed(reserves, limits);
    k := RatioSource(reserves, limits);
    forall i | 0 <= i < |reserves|
      ensures |TokensToDeposit(reserves, limits).value| == |reserves|
      ensures TokensToDeposit(reserves, limits).value[i]
              == PartAt(reserves[i], GetDepositRatio(reserves, limits).value, IsInverted(reserves))
    {
      DepositAt(reserves, limits, i);
    }
    PartReachesLimit(reserves[k], limits[k], IsInverted(reserves));
  }

  lemma RatioComputed(reserves: seq<nat>, limits: seq<nat>)
    requires |reserves| == |limits| && AmountsFit(reserves) && AmountsFit(limits)
    requires TokensToDeposit(reserves, limits).Ok?
    ensures GetDepositRatio(reserves, limits).Ok? && reserves != []
  {
  }

  lemma RatioSource(reserves: seq<nat>, limits: seq<nat>) returns (k: nat)
    requires |reserves| == |limits| && AmountsFit(reserves) && AmountsFit(limits)
    requires forall j :: 0 <= j < |limits| ==> limits[j] > 0
    requires GetDepositRatio(reserves, limits).Ok?
    ensures k < |reserves|
    ensures if IsInverted(reserves) then limits[k] > 0 else 0 < reserves[k] <= INVERSION_LIMIT
    ensures GetDepositRatio(reserves, limits) == Ok(RatioOf(reserves[k], limits[k], IsInverted(reserves)))
    ensures IsInverted(reserves) ==> GetDepositRatio(reserves, limits).value > 0
  {
    if IsInverted(reserves) {
      var rs := Ratios(reserves, limits).value;
      RatiosAt(reserves, limits, 0);
      k :| 0 <= k < |rs| && rs[k] == Greatest(rs);
      RatiosAt(reserves, limits, k);
      GreatestRatio(reserves, limits, k);
    } else {
      var rs := Ratios(limits, reserves).value;
      RatiosAt(limits, reserves, 0);
      k :| 0 <= k < |rs| && rs[k] == Least(rs);
      RatiosAt(limits, reserves, k);
    }
  }

  lemma DepositAt(reserves: seq<nat>, limits: seq<nat>, i: nat)
    requires |reserves| == |limits| && AmountsFit(reserves) && AmountsFit(limits) && i < |reserves|
    requires TokensToDeposit(reserves, limits).Ok?
    ensures GetDepositRatio(reserves, limits).Ok? && |TokensToDeposit(reserves, limits).value| == |reserves|
    ensures IsInverted(reserves) ==> GetDepositRatio(reserves, limits).value > 0
    ensures TokensToDeposit(reserves, limits).value[i]
            == PartAt(reserves[i], GetDepositRatio(reserves, limits).value, IsInverted(reserves))
  {
    hide GetDepositRatio;
    var ratio, inverted := GetDepositRatio(reserves, limits).value, IsInverted(reserves);
    DepositAmountsAt(reserves, ratio, inverted, i);
    DepositAmountMeaning(reserves[i], ratio, inverted);
  }

  lemma PartReachesLimit(reserve: nat, limit: nat, inverted: bool)
    requires if inverted then limit > 0 && RatioOf(reserve, limit, true) > 0 else 0 < reserve <= INVERSION_LIMIT
    ensures limit <= PartAt(reserve, RatioOf(reserve, limit, inverted), inverted)
  {
    var ratio := RatioOf(reserve, limit, inverted);
    if inverted {
      InvertedReaches(reserve, limit, ratio, PartAt(reserve, ratio, true), WAD);
    } else {
      Reaches(reserve, limit, ratio, PartAt(reserve, ratio, false), WAD);
    }
  }

  lemma Reaches(x: nat, limit: nat, ratio: nat, d: nat, w: nat)
    requires 0 < x <= w && limit * w < (ratio + 1) * x && x * ratio <= d * w
    ensures limit <= d
  {
    assert (d + 1) * w == d * w + w;
    assert (ratio + 1) * x == x * ratio + x;
    CancelMulStrict(limit, d + 1, w);
  }

  lemma InvertedReaches(x: nat, limit: nat, ratio: nat, d: nat, w: nat)
    requires ratio > 0 && w > 0 && ratio * limit <= x * w && Quotient(x * w * w, ratio) <= d * w
    ensures limit <= d
  {
    MulMono(ratio * limit, x * w, w);
    assert (ratio * limit) * w == (limit * w) * ratio;
    QuotientIsLargest(x * w * w, ratio, limit * w);
    CancelMul(limit, d, w);
  }

  /** What any later deposit mints: with reserve 0's balance and deposit before it, at most that
      deposit's share of the supply, and less than a token and a few 10^-18ths of the larger of
      supply and deposit below it. */
  lemma LaterDepositMints(xs: seq<nat>, ms: seq<Mint>, maxTokens: map<Mint, nat>, supply: nat)
    requires |xs| == |ms| && xs != [] && AmountsFit(xs) && 0 < supply <= U64_MAX
    requires forall m :: m in maxTokens ==> maxTokens[m] <= U64_MAX
    requires DepositQuote(xs, ms, maxTokens, supply).Ok?
    ensures var quote := DepositQuote(xs, ms, maxTokens, supply).value;
            var minted, d0 := Minted(quote.lpTokens), quote.tokens[0];
            && 0 < xs[0] && (quote.lpTokens.Some? ==> 0 < minted <= U64_MAX)
            && minted * xs[0] <= supply * d0
            && supply * d0 * WAD < ((minted + 1) * WAD + Max(supply, d0) + 2) * xs[0]
  {
    hide TokensToDeposit;
    hide TryMulDiv;
    var limits, quote := InOrder(maxTokens, ms), DepositQuote(xs, ms, maxTokens, supply).value;
    DepositsPerReserve(xs, limits);
    NoLpTokensForNothing(xs[0], quote.tokens[0], supply);
    LpTokensNearShare(xs[0], quote.tokens[0], supply, Minted(quote.lpTokens));
  }

  lemma LpTokensNearShare(reserve: nat, deposit: nat, supply: nat, minted: nat)
    requires 0 < reserve <= U64_MAX && deposit <= U64_MAX && supply <= U64_MAX
    requires EligibleLpTokens(reserve, deposit, supply) == Ok(if minted == 0 then None else Some(minted))
    ensures minted * reserve <= supply * deposit
    ensures supply * deposit * WAD < ((minted + 1) * WAD + Max(supply, deposit) + 2) * reserve
  {
    var a, b, c := FromU64(supply), FromU64(deposit), FromU64(reserve);
    TryMulDivBounds(a, b, c);
    hide TryMulDiv;
    hide OtherFactor;
    var r, k := TryMulDiv(a, b, c).value, OtherFactor(a, b) / WAD;
    assert k <= Max(supply, deposit) by { OtherIsOne(a, b); }
    DivBounds(r, WAD);
    MulMono(minted * WAD, r, c);
    FairShare(minted, reserve, supply, deposit, WAD);
    NearShare(minted, reserve, supply, deposit, r, k, Max(supply, deposit), WAD);
  }

  lemma OtherIsOne(a: Decimal, b: Decimal)
    ensures OtherFactor(a, b) == a || OtherFactor(a, b) == b
  {
  }

  lemma NearShare(minted: nat, reserve: nat, supply: nat, deposit: nat, r: nat, k: nat, m: nat, w: nat)
    requires w > 0 && r < (minted + 1) * w && k <= m
    requires (supply * w) * (deposit * w) < (r + k + 2) * (reserve * w)
    ensures supply * deposit * w < ((minted + 1) * w + m + 2) * reserve
  {
    ScaledFactors(supply, deposit, w);
    assert (r + k + 2) * (reserve * w) == ((r + k + 2) * reserve) * w;
    CancelMulStrict(supply * deposit * w, (r + k + 2) * reserve, w);
    MulMono(r + k + 2, (minted + 1) * w + m + 2, reserve);
  }

  // ---- when a later deposit is accepted ----

  /** LP tokens can be computed exactly if reserve 0 is not empty and they fit 64 bits; an exact
      share below 2^64 always does. */
  lemma LpTokensComputableIff(reserve: nat, deposit: nat, supply: nat)
    requires reserve <= U64_MAX && deposit <= U64_MAX && supply <= U64_MAX
    ensures EligibleLpTokens(reserve, deposit, supply).Ok? <==>
              && reserve > 0 && var raw := TryMulDiv(FromU64(supply), FromU64(deposit), FromU64(reserve));
              raw.Ok? && Scaled(raw.value) <= U64_MAX
    ensures reserve > 0 ==> TryMulDiv(FromU64(supply), FromU64(deposit), FromU64(reserve)).Ok?
    ensures reserve > 0 && supply * deposit < (U64_MAX + 1) * reserve ==>
              EligibleLpTokens(reserve, deposit, supply).Ok?
  {
    if reserve > 0 {
      var a, b, c := FromU64(supply), FromU64(deposit), FromU64(reserve);
      MulMono(supply, U64_MAX, deposit);
      MulMono(deposit, U64_MAX, U64_MAX);
      ScaledFactors(supply, deposit, WAD);
      TryMulDivSucceeds(a, b, c);
      TryMulDivBounds(a, b, c);
      hide TryMulDiv;
      hide OtherFactor;
      var r := TryMulDiv(a, b, c).value;
      var floor := Scaled(r);
      DivBounds(r, WAD);
      MulMono(floor * WAD, r, c);
      FairShare(floor, reserve, supply, deposit, WAD);
      if floor > U64_MAX {
        MulMono(U64_MAX + 1, floor, reserve);
      }
    } else {
      NothingFromEmptyReserve(deposit, supply);
    }
  }

  lemma NothingFromEmptyReserve(deposit: nat, supply: nat)
    requires deposit <= U64_MAX && supply <= U64_MAX
    ensures EligibleLpTokens(0, deposit, supply).Err?
  {
  }

  /** The amounts of an inverted deposit fit 64 bits. */
  predicate InvertedAmountsFit(reserves: seq<nat>, limits: seq<nat>)
    requires |reserves| == |limits| && AmountsFit(reserves) && AmountsFit(limits)
  {
    && GetDepositRatio(reserves, limits).Ok? && GetDepositRatio(reserves, limits).value > 0
    && var ratio := GetDepositRatio(reserves, limits).value;
    forall i :: 0 <= i < |reserves| ==> PartAt(reserves[i], ratio, true) <= U64_MAX
  }

  lemma {:induction false} RatiosSucceedIff(ns: seq<nat>, ds: seq<nat>)
    requires |ns| == |ds| && AmountsFit(ns)
    ensures Ratios(ns, ds).Ok? <==> Positive(ds)
    ensures Ratios(ns, ds).Ok? ==> |Ratios(ns, ds).value| == |ns|
  {
    if ns != [] {
      RatiosSucceedIff(ns[1..], ds[1..]);
      assert ds == [ds[0]] + ds[1..];
    }
  }

  lemma {:induction false} DepositAmountsSucceedIff(reserves: seq<nat>, ratio: Decimal, inverted: bool)
    requires AmountsFit(reserves)
    ensures DepositAmounts(reserves, ratio, inverted).Ok?
            <==> forall i :: 0 <= i < |reserves| ==> DepositAmount(reserves[i], ratio, inverted).Ok?
  {
    if reserves != [] {
      DepositAmountsSucceedIff(reserves[1..], ratio, inverted);
      assert reserves == [reserves[0]] + reserves[1..];
    }
  }

  /** The deposit's amounts can be computed exactly if no reserve is empty, or with inversion
      if they fit 64 bits. */
  lemma AmountsComputableIff(reserves: seq<nat>, limits: seq<nat>)
    requires |reserves| == |limits| && AmountsFit(reserves) && AmountsFit(limits) && reserves != []
    requires Positive(limits)
    ensures TokensToDeposit(reserves, limits).Ok?
            <==> if IsInverted(reserves) then InvertedAmountsFit(reserves, limits) else Positive(reserves)
  {
    var inverted := IsInverted(reserves);
    if inverted {
      RatiosSucceedIff(reserves, limits);
    } else {
      RatiosSucceedIff(limits, reserves);
    }
    var ratio := GetDepositRatio(reserves, limits);
    if ratio.Ok? {
      hide GetDepositRatio;
      DepositAmountsSucceedIff(reserves, ratio.value, inverted);
      forall i | 0 <= i < |reserves|
        ensures !inverted ==> DepositAmount(reserves[i], ratio.value, inverted).Ok?
        ensures inverted ==>
                  && ratio.value > 0
                  && (DepositAmount(reserves[i], ratio.value, inverted).Ok?
                      <==> PartAt(reserves[i], ratio.value, true) <= U64_MAX)
      {
        if inverted {
          GreatestRatio(reserves, limits, i);
          TruncatedRatioBound(reserves[i] * WAD, limits[i], ratio.value);
          InvertedInRange(reserves[i] * WAD, limits[i], ratio.value);
        } else {
          LeastRatio(reserves, limits, i);
          RatioGivesAtMost(reserves[i], ratio.value, limits[i]);
          MulWhole(reserves[i], ratio.value);
        }
      }
    }
  }

  lemma InvertedInRange(x: nat, limit: nat, ratio: nat)
    requires ratio > 0 && limit <= U64_MAX && x <= (limit + CeilDiv(limit, ratio)) * ratio
    ensures Quotient(x * WAD, ratio) < U192_LIMIT
  {
    MulMono(1, ratio, limit);
    CeilIsSmallest(limit, ratio, limit);
    var bound := limit + CeilDiv(limit, ratio);
    MulMono(x, bound * ratio, WAD);
    assert (bound * ratio) * WAD == (bound * WAD) * ratio;
    CancelMul(Quotient(x * WAD, ratio), bound * WAD, ratio);
  }

  /** A later deposit is accepted exactly with such limits, if its amounts and its LP tokens
      can be computed. */
  lemma LaterDepositAcceptedIff(xs: seq<nat>, ms: seq<Mint>, maxTokens: map<Mint, nat>, supply: nat)
    requires |xs| == |ms| && xs != [] && AmountsFit(xs) && 0 < supply <= U64_MAX
    requires forall m :: m in maxTokens ==> maxTokens[m] <= U64_MAX
    ensures DepositQuote(xs, ms, maxTokens, supply).Ok? <==>
              && LimitsGiven(maxTokens, ms)
              && var limits := InOrder(maxTokens, ms);
              && (if IsInverted(xs) then InvertedAmountsFit(xs, limits) else Positive(xs))
              && TokensToDeposit(xs, limits).Ok? && TokensToDeposit(xs, limits).value != []
              && var d0 := TokensToDeposit(xs, limits).value[0];
              && d0 <= U64_MAX && xs[0] > 0
              && var lpTokens := TryMulDiv(FromU64(supply), FromU64(d0), FromU64(xs[0]));
              lpTokens.Ok? && Scaled(lpTokens.value) <= U64_MAX
  {
    hide TokensToDeposit;
    hide TryMulDiv;
    hide EligibleLpTokens;
    if LimitsGiven(maxTokens, ms) {
      var limits := InOrder(maxTokens, ms);
      AmountsComputableIff(xs, limits);
      if TokensToDeposit(xs, limits).Ok? {
        DepositsPerReserve(xs, limits);
        LpTokensComputableIff(xs[0], TokensToDeposit(xs, limits).value[0], supply);
      }
    }
  }

  // ---- deposit, then redeem what was minted ----

  /** Redeeming exactly what a deposit minted, from the pool it left behind, is accepted for
      minimums that the pay-out meets; it pays at most the deposit of reserve 0, and of any
      other reserve at most its deposit plus `x_i / x_0` rounded up. */
  lemma RedeemedDepositNeverGains(xs: seq<nat>, ms: seq<Mint>, maxTokens: map<Mint, nat>, minTokens: map<Mint, nat>,
                                  supply: nat, quote: DepositResult, paid: seq<nat>)
    requires |xs| == |ms| && xs != [] && AmountsFit(xs) && 0 < supply <= U64_MAX
    requires forall m :: m in maxTokens ==> maxTokens[m] <= U64_MAX
    requires DepositQuote(xs, ms, maxTokens, supply) == Ok(quote)
    requires AmountsFit(Sums(xs, quote.tokens)) && supply + Minted(quote.lpTokens) <= U64_MAX
    requires RedeemQuote(Sums(xs, quote.tokens), ms, minTokens, Minted(quote.lpTokens),
                         supply + Minted(quote.lpTokens)) == Ok(paid)
    ensures |paid| == |quote.tokens| == |xs| && xs[0] > 0 && paid[0] <= quote.tokens[0]
    ensures forall i :: 0 <= i < |xs| ==> paid[i] <= quote.tokens[i] + CeilDiv(xs[i], xs[0])
  {
    hide DepositQuote;
    hide RedeemQuote;
    var ds, minted := quote.tokens, Minted(quote.lpTokens);
    var k := LaterDepositTakes(xs, ms, maxTokens, supply);
    LaterDepositMints(xs, ms, maxTokens, supply);
    RedemptionPays(Sums(xs, ds), ms, minTokens, minted, supply + minted);
    NoProfit(xs[0], ds[0], supply, minted, paid[0]);
    forall i | 0 <= i < |xs|
      ensures paid[i] <= ds[i] + CeilDiv(xs[i], xs[0])
    {
      var inverted := IsInverted(xs);
      var ratio := RatioOf(xs[k], maxTokens[ms[k]], inverted);
      ProportionalDeposits(xs[0], xs[i], ratio, inverted, ds[0], ds[i]);
      RedeemedAtMost(xs[0], xs[i], ds[0], ds[i], supply, minted, paid[i]);
    }
  }

  // ---- the toll ----

  /** The owner's third of the fee, shared among the reserves and rounded to whole tokens. */
  function TollTokens(fee: nat, n: nat): (t: nat)
    requires fee <= U64_MAX && n > 0
    ensures t <= fee
  {
    MulMono(1, n, Quotient(fee * FromPermillion(TOLL_SHARE), n));
    (Quotient(fee * FromPermillion(TOLL_SHARE), n) + WAD / 2) / WAD
  }

  /** It is the integer nearest to the exact `fee * 0.333333 / n`, halves rounded up: rounding
      twice does not show. */
  lemma TollTokensNearest(fee: nat, n: nat)
    requires fee <= U64_MAX && n > 0
    ensures var t := TollTokens(fee, n);
            2 * (t * (n * MILLION)) - n * MILLION <= 2 * (fee * TOLL_SHARE) < 2 * (t * (n * MILLION)) + n * MILLION
  {
    var q, t := Quotient(fee * FromPermillion(TOLL_SHARE), n), TollTokens(fee, n);
    assert fee * FromPermillion(TOLL_SHARE) == (fee * TOLL_SHARE) * 1_000_000_000_000;
    DivBounds(q + WAD / 2, WAD);
    hide Quotient;
    hide TollTokens;
    NearestTerms(n, q, t, t * n);
    MulMono(q + 1, t * WAD + WAD / 2, n);
    MulMono(t * WAD, q + WAD / 2, n);
    Nearest(fee * TOLL_SHARE, n, q * n, t * n);
  }

  lemma NearestTerms(n: nat, q: nat, t: nat, tn: nat)
    requires tn == t * n
    ensures t * (n * MILLION) == tn * MILLION && (t * WAD) * n == tn * WAD && (q + 1) * n == q * n + n
    ensures (t * WAD + WAD / 2) * n == tn * WAD + n * (WAD / 2) && (q + WAD / 2) * n == q * n + n * (WAD / 2)
  {
  }

  lemma Nearest(part: nat, n: nat, qn: nat, tn: nat)
    requires qn <= part * 1_000_000_000_000 < qn + n
    requires tn * WAD <= qn + n * (WAD / 2) && qn + n <= tn * WAD + n * (WAD / 2)
    ensures 2 * (tn * MILLION) - n * MILLION <= 2 * part < 2 * (tn * MILLION) + n * MILLION
  {
  }

  /** The deposit that the toll is computed from: the owner's tokens in the sold reserve, and any
      amount in the others. */
  function TollLimits(ms: seq<Mint>, sellMint: Mint, tokens: nat): (limits: map<Mint, nat>)
    requires tokens <= U64_MAX
    ensures forall m :: m in limits ==> limits[m] <= U64_MAX
  {
    map m | m in ms :: if m == sellMint then tokens else U64_MAX
  }

  /** The toll in terms of that deposit. */
  lemma TollIsDeposit(xs: seq<nat>, ms: seq<Mint>, fee: nat, sellMint: Mint, supply: nat)
    requires |xs| == |ms| && 0 < |xs| <= MAX_RESERVES && AmountsFit(xs) && fee <= U64_MAX && supply <= U64_MAX
    requires Toll(xs, ms, fee, sellMint, supply).Ok?
    ensures var tokens := TollTokens(fee, |xs|);
            && (tokens == 0 ==> Toll(xs, ms, fee, sellMint, supply).value == None)
            && (tokens > 0 ==>
                  && DepositQuote(xs, ms, TollLimits(ms, sellMint, tokens), supply).Ok?
                  && DepositQuote(xs, ms, TollLimits(ms, sellMint, tokens), supply).value.lpTokens
                     == Toll(xs, ms, fee, sellMint, supply).value)
  {
    hide DepositQuote;
    var n, part := |xs|, fee * FromPermillion(TOLL_SHARE);
    MulWhole(fee, FromPermillion(TOLL_SHARE));
    SameQuotient(part, n, WAD);
    hide Quotient;
  }

  /** The toll mints at most the share of the supply that its deposit into reserve 0 is of that
      reserve; of the sold reserve this deposit is at most the owner's tokens, unless inverted. */
  lemma TollIsFair(xs: seq<nat>, ms: seq<Mint>, fee: nat, sellMint: Mint, supply: nat, k: nat)
    requires |xs| == |ms| && 0 < |xs| <= MAX_RESERVES && AmountsFit(xs) && fee <= U64_MAX && 0 < supply <= U64_MAX
    requires Toll(xs, ms, fee, sellMint, supply).Ok? && k < |ms| && ms[k] == sellMint && TollTokens(fee, |xs|) > 0
    ensures DepositQuote(xs, ms, TollLimits(ms, sellMint, TollTokens(fee, |xs|)), supply).Ok?
    ensures var minted := Minted(Toll(xs, ms, fee, sellMint, supply).value);
            var ds := DepositQuote(xs, ms, TollLimits(ms, sellMint, TollTokens(fee, |xs|)), supply).value.tokens;
            && minted * xs[0] <= supply * ds[0]
            && (!IsInverted(xs) ==> ds[k] <= TollTokens(fee, |xs|))
  {
    hide Toll;
    hide TollTokens;
    hide DepositQuote;
    hide IsInverted;
    TollIsDeposit(xs, ms, fee, sellMint, supply);
    var limits := TollLimits(ms, sellMint, TollTokens(fee, |xs|));
    LaterDepositMints(xs, ms, limits, supply);
    var j := LaterDepositTakes(xs, ms, limits, supply);
    assert limits[ms[k]] == TollTokens(fee, |xs|);
  }

  // ---- a swap's quote ----

  /** A quoted swap pays the user's minimum or more out of the bought reserve, takes all that is
      sold, the fee included, into the sold one, and leaves every other reserve alone. */
  lemma SwapQuoteMeaning(curve: PriceCurve, xs: seq<nat>, ms: seq<Mint>, swapFee: nat, discount: Option<nat>,
                         sellMint: Mint, sell: nat, buyMint: Mint, minBuy: nat, supply: nat)
    requires |xs| == |ms| && 0 < |xs| <= MAX_RESERVES && AmountsFit(xs) && supply <= U64_MAX && Distinct(ms)
    requires swapFee <= MILLION && (discount.Some? ==> discount.value <= MILLION) && sell <= U64_MAX
    requires curve.Stable? ==> curve.amplifier <= U64_MAX
    requires SwapQuote(curve, xs, ms, swapFee, discount, sellMint, sell, buyMint, minBuy, supply).Some?
    ensures var (bought, _, ys) :=
              SwapQuote(curve, xs, ms, swapFee, discount, sellMint, sell, buyMint, minBuy, supply).value;
            && minBuy <= bought && |ys| == |xs| && sellMint in ms && buyMint in ms && sellMint != buyMint && 0 < sell
            && forall i :: 0 <= i < |xs| ==>
                 ys[i] == if ms[i] == sellMint then xs[i] + sell else if ms[i] == buyMint then xs[i] - bought else xs[i]
  {
    hide SwapYield;
    hide Toll;
    hide CalculateSwapFee;
  }
}
