/** What an instruction that settles does to its farmer, stated on the states before and after:
    nothing that has accrued is forgotten, and the deposit moves by what the instruction says. */
module SettledFirst {
  import opened Results
  import opened FarmTypes
  import opened Emission
  import opened Periods
  import opened RingBuffer
  import opened Sweep
  import opened Settlement
  import opened Totals
  import opened Shares
  import opened Protocol
  import opened FarmerMoves
  import opened SameSlotSnapshot

  /** The instructions that settle their farmer before they do anything else. */
  predicate Settles(op: Op) {
    || op.StartFarming? || op.StopFarming? || op.UpdateEligibleHarvest?
    || op.CompoundSameFarm? || op.CompoundToOtherFarm?
  }

  /** The slot they settle up to. */
  function Limit(s: State, op: Op): nat {
    if op.UpdateEligibleHarvest? then op.until else s.now
  }

  /** The stake that earns once ready vested tokens are staked, and what is still vesting then. */
  function EarningStake(p: Position, log: seq<Snapshot>): nat {
    if Awaited(p, log).Some? then p.staked + p.vested else p.staked
  }

  function StillVesting(p: Position, log: seq<Snapshot>): nat {
    if Awaited(p, log).Some? then 0 else p.vested
  }

  /** The first slot that is not settled after settling up to `current`. */
  function CursorAfter(p: Position, log: seq<Snapshot>, current: nat): nat {
    if CursorAfterVesting(p, log) < current then current + 1 else CursorAfterVesting(p, log)
  }

  /** A settled farmer, without its balances. */
  lemma SettledPosition(p: Position, log: seq<Snapshot>, harvests: map<Mint, seq<Period>>, current: nat)
    requires LogOk(log) && Settle(p, FarmView(Tail(log), harvests), current).Ok?
    ensures var v := Settle(p, FarmView(Tail(log), harvests), current).value;
            && v.staked == EarningStake(p, log) && v.vested == StillVesting(p, log) && v.vestedAt == p.vestedAt
            && v.cursor == CursorAfter(p, log, current)
            && Awaited(v, log) == None
  {
    hide Eligible;
    hide LogOk;
    hide FirstAfter;
  }

  /** What a farmer without ready vested tokens is owed, besides the recorded balance, is what the
      earning stake earns from the cursor on. */
  lemma OwedFromCursor(v: Position, log: seq<Snapshot>, ps: seq<Period>, m: Mint, hi: nat)
    requires Awaited(v, log) == None && v.cursor <= hi
    ensures Owed(v, log, ps, m, hi)
            == Recorded(v.harvests, m) as real + Worth(ps, SlotShareOf(v.staked, log), v.cursor, hi)
  {
    var f := UnsettledOf(v, log);
    WorthSplit(ps, f, 0, v.cursor, hi);
    WorthConstant(ps, f, 0.0, 0, v.cursor);
    assert Times(SumTps(ps, 0, v.cursor) as real, 0.0) == 0.0;
    WorthAgree(ps, f, SlotShareOf(v.staked, log), v.cursor, hi);
  }

  lemma SlotSharesAdd(a: nat, b: nat, log: seq<Snapshot>, t: nat)
    ensures SlotShare(a + b, log, t) == SlotShare(a, log, t) + SlotShare(b, log, t)
  {
    if WindowAt(log, t).Some? && WindowAt(log, t).value.staked > 0 {
      var total := WindowAt(log, t).value.staked as real;
      assert (a + b) as real == a as real + b as real;
      assert (a + b) as real / total == a as real / total + b as real / total;
    }
  }

  /** Withdrawing earning stake forgoes what it would still have earned, and nothing else. */
  lemma LessStakeOwesLess(v: Position, q: Position, log: seq<Snapshot>, ps: seq<Period>, m: Mint, hi: nat)
    requires Awaited(v, log) == None && Awaited(q, log) == None && q.cursor == v.cursor <= hi
    requires q.staked <= v.staked
    ensures Owed(v, log, ps, m, hi) - Recorded(v.harvests, m) as real
            == Owed(q, log, ps, m, hi) - Recorded(q.harvests, m) as real
               + Worth(ps, SlotShareOf(v.staked - q.staked, log), v.cursor, hi)
  {
    OwedFromCursor(v, log, ps, m, hi);
    OwedFromCursor(q, log, ps, m, hi);
    var less := v.staked - q.staked;
    forall t: nat
      ensures SlotShareOf(v.staked, log)(t) == SlotShareOf(q.staked, log)(t) + SlotShareOf(less, log)(t)
    {
      SlotSharesAdd(q.staked, less, log, t);
    }
    WorthAdds(ps, SlotShareOf(q.staked, log), SlotShareOf(less, log), SlotShareOf(v.staked, log), v.cursor, hi);
  }

  /** A deposit made now, or what is left of one that was not ready, does not become ready. */
  lemma NothingReady(v: Position, q: Position, log: seq<Snapshot>, now: nat)
    requires LogOk(log) && (log != [] ==> log[0].startedAt <= now) && Awaited(v, log) == None
    requires q.vestedAt == now || (q.vestedAt == v.vestedAt && q.vested <= v.vested)
    ensures Awaited(q, log) == None
  {
    hide FirstAfter;
    FirstAfterOnLog(log, now);
  }

  /** What is left to do once the farmer is settled. */
  lemma AfterSettling(s: State, op: Op, v: Position, m: Mint)
    requires FarmInv(s) && Settles(op) && Try(s, op).Some? && m in s.harvests
    requires op.farmer < |s.farmers| && Settle(s.farmers[op.farmer], View(s), Limit(s, op)) == Ok(v)
    ensures var s' := Try(s, op).value;
            && |s'.farmers| == |s.farmers|
            && var q := s'.farmers[op.farmer];
            && s'.farmers == s.farmers[op.farmer := q]
            && s'.log == s.log && s'.harvests == s.harvests && s'.now == s.now
            && s'.ledger == s.ledger + Charges(s.farmers[op.farmer], s.log, s.harvests, Limit(s, op))
            && s'.vaults.Keys == s.vaults.Keys && m in s.vaults && s'.vaults[m] <= s.vaults[m]
            && q.cursor == v.cursor && q.staked <= v.staked && (op.StopFarming? || q.staked == v.staked)
            && Recorded(q.harvests, m) + (s.vaults[m] - s'.vaults[m]) == Recorded(v.harvests, m)
            && (q.vestedAt == s.now || (q.vestedAt == v.vestedAt && q.vested <= v.vested))
  {
    hide Settle;
    hide Charges;
    hide LogOk;
    hide Scheduled;
  }

  lemma SettlingSucceeded(s: State, op: Op)
    requires Settles(op) && Try(s, op).Some?
    ensures op.farmer < |s.farmers| && |Try(s, op).value.farmers| == |s.farmers|
    ensures Settle(s.farmers[op.farmer], View(s), Limit(s, op)).Ok?
  {
    hide Settle;
    hide Charges;
  }

  /** What every instruction that settles does to its farmer `p`, who becomes `q`, and to the
      ledger and the vault of mint `m`. The farmer's slots are charged first; what is recorded
      grows by what the charges credit less what the vault pays; and all that was owed before
      some slot `hi` is still owed or was paid, but for rounding, as far as the buffer shows the
      farmer's windows, and but for what withdrawn stake would still have earned. */
  lemma SettlesFirst(s: State, op: Op, m: Mint, hi: nat)
    requires FarmInv(s) && Settles(op) && Try(s, op).Some? && m in s.harvests
    ensures op.farmer < |s.farmers|
    ensures var s', i := Try(s, op).value, op.farmer;
            && |s'.farmers| == |s.farmers|
            && var p, q, cs := s.farmers[i], s'.farmers[i], Charges(s.farmers[i], s.log, s.harvests, Limit(s, op));
            && s'.farmers == s.farmers[i := q] && s'.log == s.log && s'.harvests == s.harvests && s'.now == s.now
            && s'.ledger == s.ledger + cs
            && q.cursor == CursorAfter(p, s.log, Limit(s, op))
            && q.staked <= EarningStake(p, s.log) && (op.StopFarming? || q.staked == EarningStake(p, s.log))
            && s'.vaults.Keys == s.vaults.Keys && s'.vaults[m] <= s.vaults[m]
            && Recorded(q.harvests, m) + (s.vaults[m] - s'.vaults[m])
               == Recorded(p.harvests, m) + Credited(cs, m, 0, q.cursor)
            && (forall c :: c in cs ==> m in c.harvests)
            && (Retains(s.log, p.cursor) && q.cursor <= hi ==>
                  Owed(p, s.log, s.harvests[m], m, hi)
                  <= Owed(q, s.log, s.harvests[m], m, hi) + (s.vaults[m] - s'.vaults[m]) as real + LossOf(cs, m)
                     + Worth(s.harvests[m], SlotShareOf(EarningStake(p, s.log) - q.staked, s.log), q.cursor, hi))
  {
    hide Settle;
    hide Charges;
    hide LogOk;
    hide Owed;
    hide Awaited;
    hide Try;
    hide Recorded;
    hide LossOf;
    hide Worth;
    SettlingSucceeded(s, op);
    var s', p := Try(s, op).value, s.farmers[op.farmer];
    var q, current := s'.farmers[op.farmer], Limit(s, op);
    var v := Settle(p, View(s), current).value;
    SettledPosition(p, s.log, s.harvests, current);
    SettleCreditsCharges(p, s.log, s.harvests, current, m, v.cursor);
    ChargesEnd(p, s.log, s.harvests, current);
    AfterSettling(s, op, v, m);
    NothingReady(v, q, s.log, s.now);
    if Retains(s.log, p.cursor) && q.cursor <= hi {
      SettleLosesLittle(p, s.log, s.harvests, current, m, hi);
      LessStakeOwesLess(v, q, s.log, s.harvests[m], m, hi);
    }
  }

  /** At the cursor itself withdrawn stake has nothing to earn any more. The cursor is right after
      the clock unless the clock's slot is not settled yet because vesting or an earlier settlement
      put the cursor there: a farmer who then stops forgoes that slot. Here all 10 tokens of the
      current slot are owed to the only staker before the call, and none afterwards. */
  lemma StoppingForgoesUnsettledSlot()
    ensures var ps := EmptyPeriods()[0 := Period(10, 1, 10)];
            var p := Position(10, 0, 3, 5, map[1 := 0]);
            var s := State(5, [Snapshot(10, 5)], 0, 0, map[1 := ps], 10, map[1 := 100], [p], 5, []);
            && FarmInv(s) && Try(s, StopFarming(0, 10)).Some?
            && var q := Position(0, 0, 3, 5, map[1 := 0]);
            && Try(s, StopFarming(0, 10)).value == s.(farmers := [q], stakeVault := 0)
            && Owed(p, s.log, ps, 1, 6) == 10.0 && Owed(q, s.log, ps, 1, 6) == 0.0
  {
    var ps := EmptyPeriods()[0 := Period(10, 1, 10)];
    var p := Position(10, 0, 3, 5, map[1 := 0]);
    var q := Position(0, 0, 3, 5, map[1 := 0]);
    var s := State(5, [Snapshot(10, 5)], 0, 0, map[1 := ps], 10, map[1 := 100], [p], 5, []);
    assert Settle(p, View(s), 5) == Ok(p);
    assert Charges(p, s.log, s.harvests, 5) == [];
    assert [p][0 := q] == [q];
    OwedInSlot(p, s.log, ps);
    OwedInSlot(q, s.log, ps);
    hide Settle;
    hide Charges;
    hide Tail;
    hide Owed;
  }

  lemma OwedInSlot(p: Position, log: seq<Snapshot>, ps: seq<Period>)
    requires p.staked <= 10 && p.vested == 0 && p.cursor == 5 && p.harvests == map[1 := 0]
    requires log == [Snapshot(10, 5)] && ps != [] && ps[0] == Period(10, 1, 10)
    ensures Owed(p, log, ps, 1, 6) == p.staked as real
  {
    OwedFromCursor(p, log, ps, 1, 6);
    assert Worth(ps, SlotShareOf(p.staked, log), 5, 5) == 0.0;
  }

  // ---- settling does not fail ----

  /** What a farmer is owed of every mint up to slot `current`, and the deposit, fit 64 bits. */
  ghost predicate OwedFits(p: Position, log: seq<Snapshot>, harvests: map<Mint, seq<Period>>, current: nat) {
    && p.staked + p.vested <= U64_MAX
    && forall m :: m in harvests ==> Owed(p, log, harvests[m], m, CursorAfter(p, log, current)) <= U64_MAX as real
  }

  /** Settling succeeds whenever what the farmer is owed fits. */
  lemma SettlingSucceeds(p: Position, log: seq<Snapshot>, harvests: map<Mint, seq<Period>>, current: nat)
    requires LogOk(log) && OwedFits(p, log, harvests, current) && current < U64_MAX
    requires Awaited(p, log).Some? ==> Awaited(p, log).value.startedAt <= U64_MAX
    ensures Settle(p, FarmView(Tail(log), harvests), current).Ok?
  {
    hide LogOk;
    hide FirstAfter;
    hide Owed;
    VestingSucceeds(p, log, harvests, current);
    var farm := FarmView(Tail(log), harvests);
    var v := Vest(p, farm).value;
    VestMovesCursor(p, log, harvests);
    if v.cursor < current {
      assert Settle(p, farm, 0) == Ok(v);
      forall m | m in harvests
        ensures SettledBalance(v, farm, m, current) <= U64_MAX
      {
        SettleKeepsOwed(p, log, harvests, 0, m, current + 1);
        BalanceWithinOwed(v, log, harvests, m, current, current + 1);
      }
    }
  }

  lemma VestingSucceeds(p: Position, log: seq<Snapshot>, harvests: map<Mint, seq<Period>>, current: nat)
    requires LogOk(log) && OwedFits(p, log, harvests, current) && current < U64_MAX
    requires Awaited(p, log).Some? ==> Awaited(p, log).value.startedAt <= U64_MAX
    ensures Vest(p, FarmView(Tail(log), harvests)).Ok?
  {
    hide LogOk;
    hide FirstAfter;
    hide Owed;
    if Awaited(p, log).Some? {
      VestingIsReady(Tail(log), p.vestedAt, p.cursor);
      forall m | m in harvests
        ensures SettledBalance(p, FarmView(Tail(log), harvests), m, Awaited(p, log).value.startedAt - 1) <= U64_MAX
      {
        BalanceWithinOwed(p, log, harvests, m, Awaited(p, log).value.startedAt - 1, CursorAfter(p, log, current));
      }
    }
  }

  /** Crediting slots before `hi` leaves a balance within what is owed before `hi`. */
  lemma BalanceWithinOwed(p: Position, log: seq<Snapshot>, harvests: map<Mint, seq<Period>>, m: Mint, until: nat,
                          hi: nat)
    requires LogOk(log) && m in harvests && until < hi
    ensures SettledBalance(p, FarmView(Tail(log), harvests), m, until) as real <= Owed(p, log, harvests[m], m, hi)
  {
    var ps, f, lo := harvests[m], UnsettledOf(p, log), p.cursor;
    CreditForWithinWorth(log, lo, until, p.staked, ps);
    forall t: nat
      ensures 0.0 <= f(t)
    {
      UnsettledNonNegative(p, log, t);
    }
    WorthNonNegative(ps, f, 0, hi);
    if lo <= until {
      forall t: nat | lo <= t < until + 1
        ensures SlotShareOf(p.staked, log)(t) <= f(t)
      {
        SlotShareMono(p.staked, StakeAt(p, log, t), log, t);
      }
      WorthMono(ps, SlotShareOf(p.staked, log), f, lo, until + 1);
      WorthSplit(ps, f, 0, lo, hi);
      WorthSplit(ps, f, lo, until + 1, hi);
      WorthNonNegative(ps, f, 0, lo);
      WorthNonNegative(ps, f, until + 1, hi);
    }
  }

  // ---- and what it does then ----

  /** Stopping pays the smaller of the request and the whole deposit out of the stake vault, from
      tokens still vesting first, and touches no harvest vault. It is refused exactly for an
      unknown farmer, for 0 tokens, if settling fails, or if the vault holds less; or if the
      deposit exceeds 64 bits and the tokens still vesting do not cover the request. */
  lemma StoppingPays(s: State, i: nat, max: nat)
    requires FarmInv(s)
    ensures Try(s, StopFarming(i, max)).Some? <==>
              && i < |s.farmers| && 0 < max && Settle(s.farmers[i], View(s), s.now).Ok?
              && var p := s.farmers[i];
              && (max <= StillVesting(p, s.log) || p.staked + p.vested <= U64_MAX)
              && Min(max, p.staked + p.vested) <= s.stakeVault
    ensures Try(s, StopFarming(i, max)).Some? ==>
              && var p, s' := s.farmers[i], Try(s, StopFarming(i, max)).value;
              && |s'.farmers| == |s.farmers|
              && var q, paid := s'.farmers[i], Min(max, p.staked + p.vested);
              && s'.stakeVault + paid == s.stakeVault && s'.vaults == s.vaults
              && q.staked + q.vested + paid == p.staked + p.vested
              && q.vested == StillVesting(p, s.log) - Min(max, StillVesting(p, s.log)) && q.vestedAt == p.vestedAt
  {
    hide Settle;
    hide Charges;
    hide LogOk;
    hide Scheduled;
    hide StillVesting;
    if i < |s.farmers| && Settle(s.farmers[i], View(s), s.now).Ok? {
      SettledPosition(s.farmers[i], s.log, s.harvests, s.now);
      SettleFrame(s.farmers[i], View(s), s.now);
    }
  }

  /** Starting puts the new tokens beside those still vesting and restarts their vesting; it is
      refused exactly for an unknown farmer, for 0 tokens, if settling fails or a sum overflows. */
  lemma StartingDeposits(s: State, i: nat, tokens: nat)
    requires FarmInv(s)
    ensures Try(s, StartFarming(i, tokens)).Some? <==>
              && i < |s.farmers| && 0 < tokens && Settle(s.farmers[i], View(s), s.now).Ok?
              && StillVesting(s.farmers[i], s.log) + tokens <= U64_MAX && s.stakeVault + tokens <= U64_MAX
    ensures Try(s, StartFarming(i, tokens)).Some? ==>
              && var p, s' := s.farmers[i], Try(s, StartFarming(i, tokens)).value;
              && |s'.farmers| == |s.farmers|
              && var q := s'.farmers[i];
              && s'.stakeVault == s.stakeVault + tokens && s'.vaults == s.vaults
              && q.vested == StillVesting(p, s.log) + tokens && q.vestedAt == s.now
  {
    hide Settle;
    hide Charges;
    hide LogOk;
    hide Scheduled;
    hide StillVesting;
    if i < |s.farmers| && Settle(s.farmers[i], View(s), s.now).Ok? {
      SettledPosition(s.farmers[i], s.log, s.harvests, s.now);
    }
  }

  /** Updating moves no tokens and fails only as settling does. */
  lemma UpdatingMovesNothing(s: State, i: nat, until: nat)
    requires FarmInv(s) && until <= U64_MAX
    ensures Try(s, UpdateEligibleHarvest(i, until)).Some?
            <==> i < |s.farmers| && Settle(s.farmers[i], View(s), until).Ok?
    ensures Try(s, UpdateEligibleHarvest(i, until)).Some? ==>
              && var p, s' := s.farmers[i], Try(s, UpdateEligibleHarvest(i, until)).value;
              && |s'.farmers| == |s.farmers|
              && var q := s'.farmers[i];
              && s'.stakeVault == s.stakeVault && s'.vaults == s.vaults
              && q.vested == StillVesting(p, s.log) && q.vestedAt == p.vestedAt
  {
    hide Settle;
    hide Charges;
    hide LogOk;
    hide Scheduled;
    hide StillVesting;
    if i < |s.farmers| && Settle(s.farmers[i], View(s), until).Ok? {
      SettledPosition(s.farmers[i], s.log, s.harvests, until);
    }
  }

  /** Compounding takes everything recorded and just credited in the mint out of its vault; on the
      same farm the tokens become a deposit made now. */
  lemma CompoundingTakesAll(s: State, op: Op)
    requires FarmInv(s) && (op.CompoundSameFarm? || op.CompoundToOtherFarm?) && Try(s, op).Some?
    ensures var m := if op.CompoundSameFarm? then s.stakeMint else op.mint;
            && m in s.harvests && m in s.vaults
            && var p, s', cs := s.farmers[op.farmer], Try(s, op).value,
                                Charges(s.farmers[op.farmer], s.log, s.harvests, s.now);
            && |s'.farmers| == |s.farmers|
            && var q := s'.farmers[op.farmer];
            && var tokens := Recorded(p.harvests, m) + Credited(cs, m, 0, CursorAfter(p, s.log, s.now));
            && Recorded(q.harvests, m) == 0 && tokens <= s.vaults[m] && s'.vaults == s.vaults[m := s.vaults[m] - tokens]
            && if op.CompoundSameFarm? then
                 && s'.stakeVault == s.stakeVault + tokens
                 && q.vested == StillVesting(p, s.log) + tokens && q.vestedAt == s.now
               else
                 && s'.stakeVault == s.stakeVault && q.vested == StillVesting(p, s.log) && q.vestedAt == p.vestedAt
  {
    hide Settle;
    hide Charges;
    hide LogOk;
    hide Scheduled;
    hide StillVesting;
    hide CursorAfter;
    var m := if op.CompoundSameFarm? then s.stakeMint else op.mint;
    var p := s.farmers[op.farmer];
    SettledPosition(p, s.log, s.harvests, s.now);
    SettleCreditsCharges(p, s.log, s.harvests, s.now, m, CursorAfter(p, s.log, s.now));
  }
}
