/** The AMM's pool account: deposits, redemptions and swaps update its reserves in place. */
module Pools {
  import opened Results
  import opened FixedPoint
  import opened AmmHelpers
  import opened StableInvariant
  import opened PoolMath
  import opened SwapMath
  import opened Tokens

  const MAX_RESERVES: nat := 4

  type Mint = nat

  datatype Reserve = Reserve(mint: Mint, tokens: nat)

  /** The pricing rule; a stable pool remembers its invariant. */
  datatype PriceCurve = ConstProd | Stable(amplifier: nat, d: Decimal)

  datatype DepositResult = DepositResult(lpTokens: Option<nat>, tokens: seq<nat>)

  function Sums(xs: seq<nat>, ys: seq<nat>): (zs: seq<nat>)
    requires |xs| == |ys|
    ensures |zs| == |xs| && forall i :: 0 <= i < |xs| ==> zs[i] == xs[i] + ys[i]
  {
    seq(|xs|, i requires 0 <= i < |xs| => xs[i] + ys[i])
  }

  function AmountsOf(rs: seq<Reserve>): (xs: seq<nat>)
    ensures |xs| == |rs| && forall i :: 0 <= i < |rs| ==> xs[i] == rs[i].tokens
  {
    seq(|rs|, i requires 0 <= i < |rs| => rs[i].tokens)
  }

  function MintsOf(rs: seq<Reserve>): (ms: seq<Mint>)
    ensures |ms| == |rs| && forall i :: 0 <= i < |rs| ==> ms[i] == rs[i].mint
  {
    seq(|rs|, i requires 0 <= i < |rs| => rs[i].mint)
  }

  predicate Covers(tokens: map<Mint, nat>, ms: seq<Mint>) {
    forall i :: 0 <= i < |ms| ==> ms[i] in tokens
  }

  predicate Distinct(ms: seq<Mint>) {
    forall i, j :: 0 <= i < j < |ms| ==> ms[i] != ms[j]
  }

  /** The map's amounts in the order of the reserves' mints. */
  function InOrder(tokens: map<Mint, nat>, ms: seq<Mint>): (ts: seq<nat>)
    requires Covers(tokens, ms)
    ensures |ts| == |ms| && forall i :: 0 <= i < |ms| ==> ts[i] == tokens[ms[i]]
  {
    seq(|ms|, i requires 0 <= i < |ms| => tokens[ms[i]])
  }

  /** Where a mint's reserve is. */
  ghost function Index(ms: seq<Mint>, m: Mint): (i: nat)
    requires m in ms
    ensures i < |ms| && ms[i] == m
  {
    var i :| 0 <= i < |ms| && ms[i] == m;
    i
  }

  /** What every reserve pays out for the burned LP tokens. */
  function Redemptions(xs: seq<nat>, burn: nat, supply: nat): seq<nat>
    requires AmountsFit(xs) && burn <= supply <= U64_MAX && supply > 0
  {
    seq(|xs|, i requires 0 <= i < |xs| => RedemptionOf(xs[i], burn, supply))
  }

  function RedemptionOf(x: nat, burn: nat, supply: nat): (out: nat)
    requires x <= U64_MAX && burn <= supply <= U64_MAX && supply > 0
    ensures out <= x && TokensToRedeem(x, burn, supply) == Ok(out)
  {
    RedeemMeaning(x, burn, supply);
    TokensToRedeem(x, burn, supply).value
  }

  /** What a deposit takes and mints. The first one takes everything offered and mints the
      smallest amount; any other takes the reserves' current ratio. */
  function DepositQuote(xs: seq<nat>, ms: seq<Mint>, maxTokens: map<Mint, nat>, supply: nat): (r: Result<DepositResult>)
    requires |xs| == |ms| && xs != [] && AmountsFit(xs) && supply <= U64_MAX
    requires forall m :: m in maxTokens ==> maxTokens[m] <= U64_MAX
    ensures r.Ok? ==> |r.value.tokens| == |xs|
  {
    if exists m :: m in maxTokens && maxTokens[m] == 0 then Err(InvalidArg)
    else if |maxTokens| != |xs| || !Covers(maxTokens, ms) then Err(InvalidArg)
    else
      var limits := InOrder(maxTokens, ms);
      if supply == 0 then Ok(DepositResult(Some(Least(limits)), limits))
      else
        var tokens :- TokensToDeposit(xs, limits);
        DepositsPerReserve(xs, limits);
        var lpTokens :- EligibleLpTokens(xs[0], tokens[0], supply);
        Ok(DepositResult(lpTokens, tokens))
  }

  /** Successful deposits are one 64-bit amount per reserve. */
  lemma DepositsPerReserve(xs: seq<nat>, limits: seq<nat>)
    requires |xs| == |limits| && xs != [] && AmountsFit(xs) && AmountsFit(limits)
    requires TokensToDeposit(xs, limits).Ok?
    ensures |TokensToDeposit(xs, limits).value| == |xs| && TokensToDeposit(xs, limits).value[0] <= U64_MAX
  {
    DepositAmountsAt(xs, GetDepositRatio(xs, limits).value, IsInverted(xs), 0);
  }

  /** What a redemption pays out. */
  function RedeemQuote(xs: seq<nat>, ms: seq<Mint>, minTokens: map<Mint, nat>, burn: nat, supply: nat)
    : (r: Result<seq<nat>>)
    requires |xs| == |ms| && AmountsFit(xs) && supply <= U64_MAX
    ensures r.Ok? ==> |r.value| == |xs| && forall i :: 0 <= i < |xs| ==> r.value[i] <= xs[i]
    ensures r.Ok? ==> Covers(minTokens, ms) && forall i :: 0 <= i < |xs| ==> minTokens[ms[i]] <= r.value[i]
  {
    if supply == 0 || burn > supply || |minTokens| != |xs| || !Covers(minTokens, ms) then Err(InvalidArg)
    else
      var outs := Redemptions(xs, burn, supply);
      if exists i :: 0 <= i < |outs| && outs[i] < minTokens[ms[i]] then Err(InvalidArg) else Ok(outs)
  }

  /** How many tokens a swap yields under the pool's pricing rule. */
  function SwapYield(curve: PriceCurve, xs: seq<nat>, sell: nat, sold: nat, buy: nat): Result<nat>
    requires AmountsFit(xs) && 0 < |xs| <= MAX_RESERVES && sell < |xs| && buy < |xs|
    requires curve.Stable? ==> curve.amplifier <= U64_MAX
  {
    match curve
    case ConstProd => CalculateSwap(xs, sell, sold, buy)
    case Stable(amplifier, d) =>
      if !Positive(xs) || sold >= xs[sell] then Err(InvalidArg)
      else if xs[sell] + sold > U64_MAX then Err(MathOverflow)
      else
        var others := OthersAfterSale(xs, sell, sold, buy);
        var product :- FoldProduct(others);
        var sum :- FoldSum(others);
        var balance :- StableBalance(|xs|, FromU64(amplifier), d, sum, product);
        var received :- TrySub(FromU64(xs[buy]), balance);
        TryFloor(received)
  }

  /** On either curve a swap pays out at most what the bought reserve holds. */
  lemma YieldWithinReserve(curve: PriceCurve, xs: seq<nat>, sell: nat, sold: nat, buy: nat)
    requires AmountsFit(xs) && 0 < |xs| <= MAX_RESERVES && sell < |xs| && buy < |xs|
    requires curve.Stable? ==> curve.amplifier <= U64_MAX
    requires SwapYield(curve, xs, sell, sold, buy).Ok?
    ensures SwapYield(curve, xs, sell, sold, buy).value <= xs[buy]
    ensures Positive(xs) && sold < xs[sell] && xs[sell] + sold <= U64_MAX
  {
    hide FoldProduct;
    hide FoldSum;
    hide StableBalance;
    if curve.Stable? {
      var others := OthersAfterSale(xs, sell, sold, buy);
      var balance := StableBalance(|xs|, FromU64(curve.amplifier), curve.d, FoldSum(others).value,
                                   FoldProduct(others).value).value;
      FloorOfDifference(xs[buy], balance, SwapYield(curve, xs, sell, sold, buy).value);
    }
  }

  /** When a swap leaves something of the bought reserve. On a constant product pool it always
      does. On a stable pool what is left is the quadratic's balance rounded up to whole tokens,
      and that is nothing exactly if the quadratic's root is below the smallest decimal. */
  lemma SwapEmptiesReserveIff(curve: PriceCurve, xs: seq<nat>, sell: nat, sold: nat, buy: nat)
    requires AmountsFit(xs) && 0 < |xs| <= MAX_RESERVES && sell < |xs| && buy < |xs|
    requires curve.Stable? ==> curve.amplifier <= U64_MAX
    requires SwapYield(curve, xs, sell, sold, buy).Ok?
    ensures curve.ConstProd? ==> SwapYield(curve, xs, sell, sold, buy).value < xs[buy]
    ensures curve.Stable? ==>
              var others := OthersAfterSale(xs, sell, sold, buy);
              && FoldSum(others).Ok? && FoldProduct(others).Ok?
              && var n, amp := |xs|, FromU64(curve.amplifier);
              && var sum, product := FoldSum(others).value, FoldProduct(others).value;
              && StableRoot(n, amp, curve.d, sum, product).Ok? && StableBalance(n, amp, curve.d, sum, product).Ok?
              && var (numerator, divisor, _) := StableRoot(n, amp, curve.d, sum, product).value;
              && xs[buy] - SwapYield(curve, xs, sell, sold, buy).value
                 == CeilDiv(StableBalance(n, amp, curve.d, sum, product).value, WAD)
              && (SwapYield(curve, xs, sell, sold, buy).value == xs[buy] <==> numerator * WAD < divisor)
  {
    hide FoldProduct;
    hide FoldSum;
    hide StableRoot;
    var received := SwapYield(curve, xs, sell, sold, buy).value;
    if curve.Stable? {
      var others := OthersAfterSale(xs, sell, sold, buy);
      var n, amp, sum, product := |xs|, FromU64(curve.amplifier), FoldSum(others).value, FoldProduct(others).value;
      FloorOfDifference(xs[buy], StableBalance(n, amp, curve.d, sum, product).value, received);
      StableBalanceZeroIff(n, amp, curve.d, sum, product);
    } else if sell == buy {
      TradedForItself(xs, sell, sold);
    } else {
      SwapKeepsProduct(xs, sell, sold, buy);
    }
  }

  /** With a stored invariant of 0, every successful swap on a stable pool pays out the whole
      bought reserve, whatever the reserves, the amplifier and the tokens sold. */
  lemma ZeroInvariantEmptiesReserve(amplifier: nat, xs: seq<nat>, sell: nat, sold: nat, buy: nat)
    requires AmountsFit(xs) && 0 < |xs| <= MAX_RESERVES && sell < |xs| && buy < |xs| && amplifier <= U64_MAX
    requires SwapYield(Stable(amplifier, 0), xs, sell, sold, buy).Ok?
    ensures SwapYield(Stable(amplifier, 0), xs, sell, sold, buy).value == xs[buy]
  {
    hide FoldProduct;
    hide FoldSum;
    hide StableRoot;
    var others := OthersAfterSale(xs, sell, sold, buy);
    SwapEmptiesReserveIff(Stable(amplifier, 0), xs, sell, sold, buy);
    ZeroInvariantZeroRoot(|xs|, FromU64(amplifier), FoldSum(others).value, FoldProduct(others).value);
  }

  /** It does happen, with two reserves of ten tokens. */
  lemma StableSwapCanEmptyReserve()
    ensures SwapYield(Stable(1, 0), [10, 10], 0, 1, 1) == Ok(10)
  {
    assert OthersAfterSale([10, 10], 0, 1, 1) == [11];
    assert [11][..0] == [];
    assert FoldProduct([11]) == Ok(11 * WAD) && FoldSum([11]) == Ok(11 * WAD);
    hide FoldProduct;
    hide FoldSum;
    hide OthersAfterSale;
    hide StableBalance;
    NothingToKeep();
  }

  lemma NothingToKeep()
    ensures StableBalance(2, FromU64(1), 0, 11 * WAD, 11 * WAD) == Ok(0)
  {
    InputsOfZero();
    TermsOfZero();
    RootWithoutConstant();
    hide InputsOf;
    hide QuadraticOf;
    hide QuadraticRoot;
    assert TryPow(FromU64(1000), 0) == Ok(ONE);
  }

  lemma InputsOfZero()
    ensures InputsOf(2, 0, 11 * WAD, 11 * WAD) == Ok(SwapInputs(0, 11 * WAD, 11 * WAD, 0))
  {
    assert TryPow(FromU64(1), 1) == Ok(ONE);
  }

  lemma TermsOfZero()
    ensures QuadraticOf(2, FromU64(1), SwapInputs(0, 11 * WAD, 11 * WAD, 0))
            == Ok(Quadratic(4 * WAD, 44 * WAD, false, 0))
  {
    assert TryPow(FromU64(2), 2) == Ok(4 * WAD);
    assert TryPow(0, 3) == Ok(0);
    hide TryPow;
  }

  lemma RootWithoutConstant()
    ensures QuadraticRoot(4 * WAD, 44 * WAD, false, 0) == Ok((0, 8 * WAD))
  {
    hide IntegerRoot;
    SquareOfWhole(44);
    RootIs(1936 * WAD * WAD, 44 * WAD);
  }

  lemma SquareOfWhole(n: nat)
    requires n < 1000
    ensures TryPow(n * WAD, 2) == Ok(n * n * WAD)
  {
    ExactProduct(1, n);
    ExactProduct(n, n);
    MulMono(n, 1000, n);
    assert TryPow(n * WAD, 0) == Ok(ONE);
    assert TryPow(n * WAD, 1) == Ok(n * WAD);
  }

  lemma RootIs(n: nat, r: nat)
    requires r * r <= n < (r + 1) * (r + 1)
    ensures IntegerRoot(n) == r
  {
    var q := IntegerRoot(n);
    if q < r {
      MulMono(q + 1, r, q + 1);
      MulMono(q + 1, r, r);
    } else if r < q {
      MulMono(r + 1, q, r + 1);
      MulMono(r + 1, q, q);
    }
  }

  /** On a constant product pool a reserve traded for itself yields nothing. */
  lemma TradedForItself(xs: seq<nat>, i: nat, sold: nat)
    requires AmountsFit(xs) && i < |xs| && CalculateSwap(xs, i, sold, i).Ok?
    ensures CalculateSwap(xs, i, sold, i).value == 0 < xs[i]
  {
    var others := Without(xs, i);
    assert OthersAfterSale(xs, i, sold, i) == others;
    FoldProductIsProduct(others);
    FoldProductIsProduct(xs);
    ProductPositive(others);
    ProductWithout(xs, i);
    BalanceIsQuotient(Product(xs), Product(others));
    WholeQuotient(xs[i], Product(others));
  }

  lemma WholeQuotient(x: nat, p: nat)
    requires p > 0
    ensures Quotient(x * p * WAD, p) == x * WAD
  {
    assert x * p * WAD == (x * WAD) * p;
    QuotientIsLargest(x * p * WAD, p, x * WAD);
    CancelMul(Quotient(x * p * WAD, p), x * WAD, p);
  }

  // ---- the toll ----

  /** The program owner's part of a swap fee, in millionths. */
  const TOLL_SHARE: nat := 333_333

  function TryRound(a: Decimal): Result<nat> {
    var r := (a + WAD / 2) / WAD;
    if r <= U64_MAX then Ok(r) else Err(MathOverflow)
  }

  /** The LP tokens that a deposit worth the owner's part of the fee would mint: a deposit into
      a copy of the pool, limited by the sold reserve only. */
  function Toll(xs: seq<nat>, ms: seq<Mint>, fee: nat, sellMint: Mint, supply: nat): Result<Option<nat>>
    requires |xs| == |ms| && 0 < |xs| <= MAX_RESERVES && AmountsFit(xs) && fee <= U64_MAX && supply <= U64_MAX
  {
    var part :- TryMul(FromU64(fee), FromPermillion(TOLL_SHARE));
    var perReserve :- TryDiv(part, FromU64(|xs|));
    var tokens :- TryRound(perReserve);
    if tokens == 0 then Ok(None)
    else
      var quote :- DepositQuote(xs, ms, map m | m in ms :: if m == sellMint then tokens else U64_MAX, supply);
      if AmountsFit(Sums(xs, quote.tokens)) then Ok(quote.lpTokens) else Err(MathOverflow)
  }

  function Minted(toll: Option<nat>): nat {
    if toll.Some? then toll.value else 0
  }

  lemma SwappedFits(xs: seq<nat>, s: nat, sell: nat, b: nat, bought: nat)
    requires AmountsFit(xs) && s < |xs| && b < |xs| && bought <= xs[b] && xs[s] + sell <= U64_MAX
    ensures AmountsFit(Swapped(xs, s, sell, b, bought)) && |Swapped(xs, s, sell, b, bought)| == |xs|
  {
  }

  /** What a swap with fee does to a pool: tokens bought, toll and the new reserves; nothing if
      it is refused. */
  ghost function SwapQuote(curve: PriceCurve, xs: seq<nat>, ms: seq<Mint>, swapFee: nat, discount: Option<nat>,
                           sellMint: Mint, sell: nat, buyMint: Mint, minBuy: nat, supply: nat)
    : Option<(nat, Option<nat>, seq<nat>)>
    requires |xs| == |ms| && 0 < |xs| <= MAX_RESERVES && AmountsFit(xs) && supply <= U64_MAX
    requires swapFee <= MILLION && (discount.Some? ==> discount.value <= MILLION) && sell <= U64_MAX
    requires curve.Stable? ==> curve.amplifier <= U64_MAX
  {
    if sell == 0 || supply == 0 || sellMint == buyMint || sellMint !in ms || buyMint !in ms then None
    else
      var s, b := Index(ms, sellMint), Index(ms, buyMint);
      FeeWithinSale(sell, swapFee, discount);
      var fee := CalculateSwapFee(sell, swapFee, discount).value;
      var bought := SwapYield(curve, xs, s, sell - fee, b);
      if bought.Err? || bought.value < minBuy || xs[s] + sell > U64_MAX then None
      else
        YieldWithinReserve(curve, xs, s, sell - fee, b);
        var ys := Swapped(xs, s, sell, b, bought.value);
        SwappedFits(xs, s, sell, b, bought.value);
        var toll := Toll(ys, ms, fee, sellMint, supply);
        if toll.Err? || supply + Minted(toll.value) > U64_MAX then None else Some((bought.value, toll.value, ys))
  }

  /** The invariant of a stable pool can be recomputed for these reserves. */
  predicate InvariantComputable(curve: PriceCurve, xs: seq<nat>)
    requires AmountsFit(xs) && |xs| <= MAX_RESERVES && (curve.Stable? ==> curve.amplifier <= U64_MAX)
  {
    curve.Stable? && Positive(xs) ==> InvariantOf(curve.amplifier, xs).Ok?
  }

  class Pool {
    var dimension: nat
    var reserves: array<Reserve>
    var curve: PriceCurve
    var swapFee: nat

    ghost predicate Valid()
      reads this, reserves
    {
      && reserves.Length == MAX_RESERVES && 0 < dimension <= MAX_RESERVES
      && AmountsFit(Amounts()) && Distinct(Mints())
      && (curve.Stable? ==> curve.amplifier <= U64_MAX)
      && swapFee <= MILLION
    }

    /** Balances of the initialised reserves. */
    function Amounts(): seq<nat>
      reads this, reserves
      requires dimension <= reserves.Length
    {
      AmountsOf(reserves[..dimension])
    }

    function Mints(): seq<Mint>
      reads this, reserves
      requires dimension <= reserves.Length
    {
      MintsOf(reserves[..dimension])
    }

    /** A new pool takes over what its vaults hold; amplifier 0 means constant product, and the
        invariant of a stable pool is not computed yet but set to 0. */
    constructor (mints: seq<Mint>, amounts: seq<nat>, amplifier: nat)
      requires 0 < |mints| == |amounts| <= MAX_RESERVES && Distinct(mints) && AmountsFit(amounts)
      requires amplifier <= U64_MAX
      ensures Valid() && Mints() == mints && Amounts() == amounts
      ensures fresh(reserves) && curve == (if amplifier == 0 then ConstProd else Stable(amplifier, 0))
    {
      dimension := |mints|;
      reserves := new Reserve[MAX_RESERVES](i => if 0 <= i < |mints| == |amounts| then Reserve(mints[i], amounts[i])
                                                 else Reserve(0, 0));
      curve := if amplifier == 0 then ConstProd else Stable(amplifier, 0);
      swapFee := 0;
      new;
      assert Mints() == mints && Amounts() == amounts;
    }

    /** Position of the initialised reserve of a mint. */
    method FindReserve(mint: Mint) returns (i: nat)
      requires Valid()
      ensures i <= dimension && (i < dimension <==> mint in Mints())
      ensures i < dimension ==> Mints()[i] == mint
    {
      i := 0;
      while i < dimension && reserves[i].mint != mint
        invariant i <= dimension
        invariant forall j :: 0 <= j < i ==> Mints()[j] != mint
      {
        i := i + 1;
      }
      assert i < dimension ==> Mints()[i] == mint;
    }

    method AddTokens(i: nat, tokens: nat) returns (r: Result<()>)
      requires Valid() && i < dimension
      modifies reserves
      ensures Valid() && Mints() == old(Mints())
      ensures r.Ok? <==> old(Amounts())[i] + tokens <= U64_MAX
      ensures r.Ok? ==> Amounts() == old(Amounts())[i := old(Amounts())[i] + tokens]
      ensures r.Err? ==> Amounts() == old(Amounts())
    {
      if reserves[i].tokens + tokens > U64_MAX {
        return Err(MathOverflow);
      }
      reserves[i] := reserves[i].(tokens := reserves[i].tokens + tokens);
      assert Mints() == old(Mints());
      r := Ok(());
    }

    method RemoveTokens(i: nat, tokens: nat) returns (r: Result<()>)
      requires Valid() && i < dimension
      modifies reserves
      ensures Valid() && Mints() == old(Mints())
      ensures r.Ok? <==> tokens <= old(Amounts())[i]
      ensures r.Ok? ==> Amounts() == old(Amounts())[i := old(Amounts())[i] - tokens]
      ensures r.Err? ==> Amounts() == old(Amounts())
    {
      if reserves[i].tokens < tokens {
        return Err(MathOverflow);
      }
      reserves[i] := reserves[i].(tokens := reserves[i].tokens - tokens);
      assert Mints() == old(Mints());
      r := Ok(());
    }

    /** Adds one amount per reserve; succeeds exactly when every balance stays in range. */
    method AddAll(tokens: seq<nat>) returns (r: Result<()>)
      requires Valid() && |tokens| == dimension
      modifies reserves
      ensures Valid() && Mints() == old(Mints())
      ensures r.Ok? <==> AmountsFit(Sums(old(Amounts()), tokens))
      ensures r.Ok? ==> Amounts() == Sums(old(Amounts()), tokens)
    {
      ghost var xs := Amounts();
      var i := 0;
      while i < dimension
        invariant 0 <= i <= dimension && Valid() && Mints() == old(Mints())
        invariant forall j :: 0 <= j < dimension ==> Amounts()[j] == xs[j] + if j < i then tokens[j] else 0
      {
        assert Amounts()[i] == xs[i];
        r := AddTokens(i, tokens[i]);
        if r.Err? {
          assert Sums(xs, tokens)[i] > U64_MAX;
          return;
        }
        i := i + 1;
      }
      assert Amounts() == Sums(xs, tokens);
      r := Ok(());
    }

    method RemoveAll(tokens: seq<nat>) returns (r: Result<()>)
      requires Valid() && |tokens| == dimension
      modifies reserves
      ensures Valid() && Mints() == old(Mints())
      ensures r.Ok? <==> forall j :: 0 <= j < dimension ==> tokens[j] <= old(Amounts())[j]
      ensures r.Ok? ==> Sums(Amounts(), tokens) == old(Amounts())
    {
      ghost var xs := Amounts();
      var i := 0;
      while i < dimension
        invariant 0 <= i <= dimension && Valid() && Mints() == old(Mints())
        invariant forall j :: 0 <= j < dimension ==> Amounts()[j] + (if j < i then tokens[j] else 0) == xs[j]
      {
        assert Amounts()[i] == xs[i];
        r := RemoveTokens(i, tokens[i]);
        if r.Err? {
          return;
        }
        i := i + 1;
      }
      assert Sums(Amounts(), tokens) == xs;
      r := Ok(());
    }

    /** Takes the quoted deposit; refused when a balance would leave the 64-bit range. */
    method DepositTokens(maxTokens: map<Mint, nat>, supply: nat) returns (r: Result<DepositResult>)
      requires Valid() && supply <= U64_MAX && forall m :: m in maxTokens ==> maxTokens[m] <= U64_MAX
      modifies reserves
      ensures Valid() && Mints() == old(Mints())
      ensures var quote := DepositQuote(old(Amounts()), Mints(), maxTokens, supply);
              && (r.Ok? <==> quote.Ok? && AmountsFit(Sums(old(Amounts()), quote.value.tokens)))
              && (r.Ok? ==> r == quote && Amounts() == Sums(old(Amounts()), r.value.tokens))
    {
      hide DepositQuote;
      r := DepositQuote(Amounts(), Mints(), maxTokens, supply);
      if r.Ok? {
        var added := AddAll(r.value.tokens);
        if added.Err? {
          r := Err(added.error);
        }
      }
    }

    /** Pays out the burned fraction of every reserve, unless some amount would fall below
        the user's minimum. */
    method RedeemTokens(minTokens: map<Mint, nat>, burn: nat, supply: nat) returns (r: Result<seq<nat>>)
      requires Valid() && supply <= U64_MAX
      modifies reserves
      ensures Valid() && Mints() == old(Mints())
      ensures r == RedeemQuote(old(Amounts()), Mints(), minTokens, burn, supply)
      ensures r.Ok? ==> Sums(Amounts(), r.value) == old(Amounts())
      ensures r.Err? ==> Amounts() == old(Amounts())
    {
      hide RedeemQuote;
      r := RedeemQuote(Amounts(), Mints(), minTokens, burn, supply);
      if r.Ok? {
        var removed := RemoveAll(r.value);
        assert removed.Ok?;
      }
    }

    /** Trades `sold` tokens of one reserve for tokens of another. */
    method Swap(sellMint: Mint, sold: nat, buyMint: Mint) returns (r: Result<nat>)
      requires Valid()
      modifies reserves
      ensures Valid() && Mints() == old(Mints())
      ensures r.Ok? ==>
                && sellMint in Mints() && buyMint in Mints()
                && var s, b := Index(Mints(), sellMint), Index(Mints(), buyMint);
                && SwapYield(curve, old(Amounts()), s, sold, b) == r && r.value <= old(Amounts())[b]
                && Amounts() == Swapped(old(Amounts()), s, sold, b, r.value)
      ensures r.Err? ==>
                || sellMint !in Mints() || buyMint !in Mints()
                || SwapYield(curve, old(Amounts()), Index(Mints(), sellMint), sold, Index(Mints(), buyMint)).Err?
    {
      hide SwapYield;
      var buy := FindReserve(buyMint);
      var sell := FindReserve(sellMint);
      if buy == dimension || sell == dimension {
        return Err(InvalidArg);
      }
      IndexUnique(Mints(), buy);
      IndexUnique(Mints(), sell);
      r := SwapYield(curve, Amounts(), sell, sold, buy);
      if r.Ok? {
        YieldWithinReserve(curve, Amounts(), sell, sold, buy);
        var added := AddTokens(sell, sold);
        var removed := RemoveTokens(buy, r.value);
        assert added.Ok? && removed.Ok?;
      }
    }

    /** Recomputes a stable pool's invariant; it is 0 when a reserve is empty and otherwise
        never more than the sum of the reserves. */
    method UpdateCurveInvariant() returns (r: Result<()>)
      requires Valid()
      modifies this`curve
      ensures Valid() && Amounts() == old(Amounts()) && Mints() == old(Mints())
      ensures old(curve) == ConstProd ==> curve == ConstProd && r.Ok?
      ensures r.Ok? <==> InvariantComputable(old(curve), Amounts())
      ensures r.Ok? && old(curve).Stable? ==>
                && curve.Stable? && curve.amplifier == old(curve).amplifier
                && curve.d <= SumOf(Amounts()) * WAD
                && if Positive(Amounts()) then InvariantOf(curve.amplifier, Amounts()) == Ok(curve.d) else curve.d == 0
      ensures r.Err? ==> curve == old(curve)
    {
      if curve == ConstProd {
        return Ok(());
      }
      var xs := Amounts();
      if !Positive(xs) {
        curve := Stable(curve.amplifier, 0);
        return Ok(());
      }
      var invariantValue := ComputeInvariant(curve.amplifier, xs);
      if invariantValue.Err? {
        return Err(invariantValue.error);
      }
      curve := Stable(curve.amplifier, invariantValue.value);
      r := Ok(());
    }
  }

  lemma IndexUnique(ms: seq<Mint>, i: nat)
    requires Distinct(ms) && i < |ms|
    ensures Index(ms, ms[i]) == i
  {
  }

  /** The swap instruction. The fee is taken off the sold tokens before the swap and added
      to the sold reserve afterwards, so reserves and vaults move together; the toll is minted
      in LP tokens. Returns the bought amount and the toll. Tokens bought into the pool's own
      vault stay there. */
  method SwapHandler(pool: Pool, supply: nat, sell: nat, minBuy: nat, discount: Option<nat>, user: Key,
                     sellWallet: TokenAccount, sellVault: TokenAccount, buyVault: TokenAccount, buyWallet: TokenAccount)
    returns (r: Result<(nat, Option<nat>)>)
    requires pool.Valid() && sell <= U64_MAX && supply <= U64_MAX && (discount.Some? ==> discount.value <= MILLION)
    requires user != sellVault.owner
    modifies pool, pool.reserves, sellWallet, sellVault, buyVault, buyWallet
    ensures pool.Valid() && pool.Mints() == old(pool.Mints())
    ensures var quote := SwapQuote(old(pool.curve), old(pool.Amounts()), pool.Mints(), old(pool.swapFee), discount,
                                   sellVault.mint, sell, buyVault.mint, minBuy, supply);
            r.Ok? ==> quote == Some((r.value.0, r.value.1, pool.Amounts()))
    ensures var quote := SwapQuote(old(pool.curve), old(pool.Amounts()), pool.Mints(), old(pool.swapFee), discount,
                                   sellVault.mint, sell, buyVault.mint, minBuy, supply);
            quote.Some? ==>
              (r.Ok? <==>
               && AmountsFit(quote.value.2) && |quote.value.2| <= MAX_RESERVES
               && InvariantComputable(old(pool.curve), quote.value.2)
               && old(CanSend(sellWallet, sellVault, sell, user) && HasRoom(sellWallet, sellVault, sell))
               && old(CanSend(buyVault, buyWallet, quote.value.0, buyVault.owner))
               && old(HasRoom(buyVault, buyWallet, quote.value.0)))
    ensures r.Ok? && old(pool.curve) == ConstProd ==>
              && buyVault.mint in pool.Mints()
              && KeptUpToRounding(old(pool.Amounts()), pool.Amounts(), Index(pool.Mints(), buyVault.mint))
    ensures r.Ok? && pool.curve.Stable? ==> pool.curve.d <= SumOf(pool.Amounts()) * WAD
    ensures r.Ok? ==>
              && sellVault.amount == old(sellVault.amount) + sell && sellWallet.amount == old(sellWallet.amount) - sell
              && if buyWallet == buyVault then buyVault.amount == old(buyVault.amount)
                 else buyVault.amount == old(buyVault.amount) - r.value.0
                      && buyWallet.amount == old(buyWallet.amount) + r.value.0
  {
    hide SwapYield;
    hide Toll;
    hide KeptUpToRounding;
    hide CalculateSwapFee;
    hide Swapped;
    hide Index;
    var sellMint, buyMint := sellVault.mint, buyVault.mint;
    if sellWallet.mint == buyWallet.mint || sellWallet.mint != sellMint || buyWallet.mint != buyMint {
      return Err(InvalidAccount);
    }
    if supply == 0 {
      return Err(InvalidAccount);
    }
    if sell == 0 {
      return Err(InvalidArg);
    }
    FeeWithinSale(sell, pool.swapFee, discount);
    var fee := CalculateSwapFee(sell, pool.swapFee, discount).value;
    var bought := SwapWithFee(pool, sell, discount, sellMint, buyMint);
    if bought.Err? {
      return Err(bought.error);
    }
    if minBuy > bought.value {
      return Err(SlippageExceeded);
    }
    var moved := Transfer(sellWallet, sellVault, sell, user);
    if moved.Err? {
      return Err(moved.error);
    }
    moved := Transfer(buyVault, buyWallet, bought.value, buyVault.owner);
    if moved.Err? {
      return Err(moved.error);
    }
    var toll := Toll(pool.Amounts(), pool.Mints(), fee, sellMint, supply);
    if toll.Err? {
      return Err(toll.error);
    }
    if supply + Minted(toll.value) > U64_MAX {
      return Err(MathOverflow);
    }
    var updated := pool.UpdateCurveInvariant();
    if updated.Err? {
      return Err(updated.error);
    }
    r := Ok((bought.value, toll.value));
  }

  /** The reserves' part of the swap instruction; refused exactly if the swap is, or if the sold
      reserve with the fee would leave the 64-bit range. */
  method SwapWithFee(pool: Pool, sell: nat, discount: Option<nat>, sellMint: Mint, buyMint: Mint)
    returns (r: Result<nat>)
    requires pool.Valid() && sell <= U64_MAX && sellMint != buyMint && (discount.Some? ==> discount.value <= MILLION)
    modifies pool.reserves
    ensures pool.Valid() && pool.Mints() == old(pool.Mints())
    ensures CalculateSwapFee(sell, pool.swapFee, discount).Ok?
    ensures CalculateSwapFee(sell, pool.swapFee, discount).value <= sell
    ensures r.Ok? <==>
            && sellMint in pool.Mints() && buyMint in pool.Mints()
            && var s, b := Index(pool.Mints(), sellMint), Index(pool.Mints(), buyMint);
            && var fee := CalculateSwapFee(sell, pool.swapFee, discount).value;
            && SwapYield(pool.curve, old(pool.Amounts()), s, sell - fee, b).Ok?
            && old(pool.Amounts())[s] + sell <= U64_MAX
    ensures r.Ok? ==>
              && var s, b := Index(pool.Mints(), sellMint), Index(pool.Mints(), buyMint);
              && var fee := CalculateSwapFee(sell, pool.swapFee, discount).value;
              && SwapYield(pool.curve, old(pool.Amounts()), s, sell - fee, b) == r && r.value <= old(pool.Amounts())[b]
              && pool.Amounts() == Swapped(old(pool.Amounts()), s, sell, b, r.value)
              && (pool.curve == ConstProd ==> KeptUpToRounding(old(pool.Amounts()), pool.Amounts(), b))
  {
    hide SwapYield;
    hide CalculateSwapFee;
    hide CalculateSwap;
    hide KeptUpToRounding;
    hide Product;
    hide Index;
    FeeWithinSale(sell, pool.swapFee, discount);
    var fee := CalculateSwapFee(sell, pool.swapFee, discount).value;
    ghost var xs := pool.Amounts();
    r := pool.Swap(sellMint, sell - fee, buyMint);
    if r.Err? {
      return;
    }
    var s := pool.FindReserve(sellMint);
    IndexUnique(pool.Mints(), s);
    ghost var b := Index(pool.Mints(), buyMint);
    var added := pool.AddTokens(s, fee);
    if added.Err? {
      return Err(added.error);
    }
    FeeRestored(xs, s, sell, fee, b, r.value);
    if pool.curve == ConstProd {
      YieldOfConstProd(xs, s, sell - fee, b);
      SwapWithFeeKeepsProduct(xs, s, sell - fee, b, fee);
    }
  }

  lemma YieldOfConstProd(xs: seq<nat>, s: nat, sold: nat, b: nat)
    requires AmountsFit(xs) && 0 < |xs| <= MAX_RESERVES && s < |xs| && b < |xs| && s != b
    ensures SwapYield(ConstProd, xs, s, sold, b) == CalculateSwap(xs, s, sold, b)
  {
  }

  lemma FeeRestored(xs: seq<nat>, s: nat, sell: nat, fee: nat, b: nat, bought: nat)
    requires s < |xs| && b < |xs| && s != b && fee <= sell && bought <= xs[b]
    ensures var zs := Swapped(xs, s, sell - fee, b, bought);
            zs[s := zs[s] + fee] == Swapped(xs, s, sell, b, bought)
  {
  }

  /** The reserves' product fell by less than a 10^18-th of the product without `b`, and not
      at all if that product is at most 10^18. */
  ghost predicate KeptUpToRounding(xs: seq<nat>, ys: seq<nat>, b: nat) {
    && |xs| == |ys| && b < |ys|
    && Product(xs) * WAD < Product(ys) * WAD + Product(Without(ys, b))
    && (Product(Without(ys, b)) <= WAD ==> Product(xs) <= Product(ys))
  }

  lemma SwapWithFeeKeepsProduct(xs: seq<nat>, s: nat, sold: nat, b: nat, fee: nat)
    requires AmountsFit(xs) && s < |xs| && b < |xs| && s != b
    requires CalculateSwap(xs, s, sold, b).Ok?
    ensures CalculateSwap(xs, s, sold, b).value <= xs[b]
    ensures var zs := Swapped(xs, s, sold, b, CalculateSwap(xs, s, sold, b).value);
            KeptUpToRounding(xs, zs[s := zs[s] + fee], b)
  {
    hide Product;
    hide CalculateSwap;
    SwapKeepsProduct(xs, s, sold, b);
    var zs := Swapped(xs, s, sold, b, CalculateSwap(xs, s, sold, b).value);
    var ys := zs[s := zs[s] + fee];
    FeeRaisesProduct(zs, s, fee);
    assert Without(zs, b) == OthersAfterSale(xs, s, sold, b);
    var i := if s < b then s else s - 1;
    assert Without(ys, b) == Without(zs, b)[i := Without(zs, b)[i] + fee];
    FeeRaisesProduct(Without(zs, b), i, fee);
  }

  // ---- any sequence of swaps on a constant product pool ----

  /** A swap of `sold` tokens after the fee was taken off. */
  datatype Trade = Trade(sell: nat, sold: nat, buy: nat, fee: nat)

  /** The reserves after one trade, if it is accepted. */
  function AfterTrade(xs: seq<nat>, t: Trade): (r: Option<seq<nat>>)
    requires AmountsFit(xs)
    ensures r.Some? ==> AmountsFit(r.value) && |r.value| == |xs| && t.buy < |xs|
  {
    if t.sell >= |xs| || t.buy >= |xs| || t.sell == t.buy || CalculateSwap(xs, t.sell, t.sold, t.buy).Err? then None
    else
      SwapWithFeeKeepsProduct(xs, t.sell, t.sold, t.buy, t.fee);
      var zs := Swapped(xs, t.sell, t.sold, t.buy, CalculateSwap(xs, t.sell, t.sold, t.buy).value);
      if zs[t.sell] + t.fee > U64_MAX then None else Some(zs[t.sell := zs[t.sell] + t.fee])
  }

  /** The reserves after all trades, if all are accepted, and what rounding may have cost:
      nothing for a trade that leaves the other reserves' product at most 10^18. */
  function AfterTrades(xs: seq<nat>, ts: seq<Trade>): Option<(seq<nat>, nat)>
    requires AmountsFit(xs)
    decreases |ts|
  {
    if ts == [] then Some((xs, 0))
    else
      match AfterTrade(xs, ts[0])
      case None => None
      case Some(ys) =>
        match AfterTrades(ys, ts[1..])
        case None => None
        case Some((zs, slack)) =>
          var p := Product(Without(ys, ts[0].buy));
          Some((zs, slack + if p <= WAD then 0 else p))
  }

  /** Over any sequence of trades the reserves' product never falls by more than the rounding
      slack, in units of 10^-18; while the other reserves' products stay at most 10^18 it
      never falls at all. */
  lemma {:induction false} TradesKeepProduct(xs: seq<nat>, ts: seq<Trade>)
    requires AmountsFit(xs) && AfterTrades(xs, ts).Some?
    ensures var (ys, slack) := AfterTrades(xs, ts).value;
            Product(xs) * WAD <= Product(ys) * WAD + slack && (slack == 0 ==> Product(xs) <= Product(ys))
    decreases |ts|
  {
    hide Product;
    hide CalculateSwap;
    hide Without;
    if ts != [] {
      var t := ts[0];
      SwapWithFeeKeepsProduct(xs, t.sell, t.sold, t.buy, t.fee);
      TradesKeepProduct(AfterTrade(xs, t).value, ts[1..]);
    }
  }
}
