/** Runs that are not fair and after which farmers are owed more than the vault holds: a slot
    settled twice by one farmer, a slot settled by two farmers under different windows, and a
    launch that is taken back after it was settled ahead of time. And a run in which settling
    ahead of time leaves a farmer empty-handed. */
module Overpayment {
  import opened Results
  import opened FixedPoint
  import opened FarmTypes
  import opened Emission
  import opened Periods
  import opened RingBuffer
  import opened Earnings
  import opened Sweep
  import opened Settlement
  import opened Shares
  import opened Protocol
  import opened Safety
  import opened SameSlotSnapshot

  const MINT: Mint := 7
  const LAUNCH := Period(10, 3, 5)

  function Launched(): seq<Period> {
    Rotated(EmptyPeriods(), LAUNCH)
  }

  /** The states of the runs: one harvest mint, windows of at least one slot. */
  function At(now: nat, log: seq<Snapshot>, ps: seq<Period>, stakeVault: nat, vault: nat, fs: seq<Position>, reach: nat,
              ledger: seq<Charge>): State {
    State(now, log, 1, 1, map[MINT := ps], stakeVault, map[MINT := vault], fs, reach, ledger)
  }

  // ---- what is earned ----

  lemma LaunchedTps(t: nat)
    ensures TpsAt(Launched(), t) == if 3 <= t <= 5 then 10 else 0
  {
    BlankTps(EmptyPeriods()[..HARVEST_PERIODS_LEN - 1], t);
    assert Launched()[1..] == EmptyPeriods()[..HARVEST_PERIODS_LEN - 1];
  }

  /** Tokens emitted from slot `lo` of the launch on. */
  lemma LaunchedFrom(lo: nat, hi: nat)
    requires 2 <= lo <= 5 && 4 <= hi <= 7
    ensures SumTps(Launched(), lo, hi) == if hi <= Max(lo, 3) then 0 else (Min(hi, 6) - Max(lo, 3)) * 10
  {
    var a, b := Max(lo, 3), Min(hi, 6);
    forall t: nat
      ensures TpsAt(Launched(), t) == if 3 <= t <= 5 then 10 else 0
    {
      LaunchedTps(t);
    }
    if a < hi {
      SumTpsSplit(Launched(), lo, a, hi);
      SumTpsSplit(Launched(), a, b, hi);
      SumTpsConstant(Launched(), lo, a, 0);
      SumTpsConstant(Launched(), a, b, 10);
      SumTpsConstant(Launched(), b, hi, 0);
    }
  }

  /** The only staker earns everything. */
  lemma SoleStakerEarnsAll(stake: nat, tokens: nat)
    requires stake > 0
    ensures WindowCredit(stake, stake, tokens) == tokens
  {
    QuotientIsLargest(stake * WAD, stake, WAD);
    CancelMul(Share(stake, stake), WAD, stake);
  }

  /** If all slots lie in the newest of at most two windows. */
  lemma OneWindow(log: seq<Snapshot>, since: nat, until: nat, stake: nat, ps: seq<Period>)
    requires 0 < |log| <= 2 && LogOk(log) && (|log| > 1 ==> log[0].startedAt <= since) && since <= until + 1
    ensures Credit(log, until + 1, since, until, stake, ps)
            == WindowCredit(stake, log[0].staked, SumTps(ps, Max(log[0].startedAt, since), until + 1))
  {
    assert |log| == 1 ==> log[1..] == [];
    if |log| == 2 {
      OlderEarnNothing(log[1..], log[0].startedAt, since, until, stake, ps);
    }
  }

  /** Settling with a known credit. */
  lemma EligibleIs(p: Position, log: seq<Snapshot>, ps: seq<Period>, until: nat, credit: nat)
    requires |log| <= SNAPSHOTS_LEN && MINT in p.harvests && until < U64_MAX
    requires Credit(log, until + 1, p.cursor, until, p.staked, ps) == credit
    requires p.harvests[MINT] + credit <= U64_MAX
    ensures Eligible(p, FarmView(Tail(log), map[MINT := ps]), until) == Ok(map[MINT := p.harvests[MINT] + credit])
  {
    FullLog(Tail(log), log, until + 1, p.cursor, until, p.staked, ps);
    var farm := FarmView(Tail(log), map[MINT := ps]);
    assert SettledBalance(p, farm, MINT, until) == p.harvests[MINT] + credit;
    assert (map m | m in farm.harvests :: SettledBalance(p, farm, m, until)) == map[MINT := p.harvests[MINT] + credit];
  }

  // ---- the positions and logs of the runs ----

  const NEW_FARMER := Position(0, 0, 0, 0, map[MINT := 0])
  const FIRST_DEPOSIT := Position(0, 1, 1, 2, map[MINT := 0])
  const FIRST_STAKED := Position(1, 0, 1, 2, map[MINT := 0])
  const EARNED_ALL := Position(1, 0, 1, 6, map[MINT := 30])
  const SECOND_DEPOSIT := Position(1, 1, 3, 4, map[MINT := 10])
  const SETTLED := Position(1, 1, 3, 6, map[MINT := 30])
  const SECOND_STAKED := Position(2, 0, 3, 5, map[MINT := 30])
  const OVERPAID := Position(2, 0, 3, 7, map[MINT := 40])
  const LATE_DEPOSIT := Position(0, 1, 3, 4, map[MINT := 0])
  const LATE_STAKED := Position(1, 0, 3, 5, map[MINT := 0])
  const LATE_PAID := Position(1, 0, 3, 7, map[MINT := 5])
  const LOG_1 := [Snapshot(1, 2)]
  const LOG_2 := [Snapshot(2, 5), Snapshot(1, 2)]

  function Shown(log: seq<Snapshot>): FarmView {
    FarmView(Tail(log), map[MINT := Launched()])
  }

  lemma FirstDepositVests()
    ensures Vest(FIRST_DEPOSIT, Shown(LOG_1)) == Ok(FIRST_STAKED)
  {
    FirstAfterOnLog(LOG_1, 1);
    CountIsUnique(LOG_1, 1, 1);
    CreditZeroStake(LOG_1, 2, 2, 1, Launched());
    EligibleIs(FIRST_DEPOSIT, LOG_1, Launched(), 1, 0);
  }

  /** The sole staker of the first window earns everything emitted from slot 3 on. */
  lemma FirstWindowEarned(p: Position, until: nat)
    requires p.staked == 1 && 2 <= p.cursor <= until <= 5 && 3 <= until && MINT in p.harvests && p.harvests[MINT] <= 30
    ensures Eligible(p, Shown(LOG_1), until)
            == Ok(map[MINT := p.harvests[MINT] + (until + 1 - Max(p.cursor, 3)) * 10])
  {
    var tokens := (until + 1 - Max(p.cursor, 3)) * 10;
    LaunchedFrom(p.cursor, until + 1);
    SoleStakerEarnsAll(1, tokens);
    OneWindow(LOG_1, p.cursor, until, 1, Launched());
    EligibleIs(p, LOG_1, Launched(), until, tokens);
  }

  lemma FirstDepositSettles(until: nat, q: Position)
    requires (until == 3 && q == Position(1, 0, 1, 4, map[MINT := 10])) || (until == 5 && q == EARNED_ALL)
    ensures Settle(FIRST_DEPOSIT, Shown(LOG_1), until) == Ok(q)
  {
    FirstDepositVests();
    FirstWindowEarned(FIRST_STAKED, until);
    hide Vest;
    hide Eligible;
  }

  lemma SecondDepositSettles()
    ensures Settle(SECOND_DEPOSIT, Shown(LOG_1), 5) == Ok(SETTLED)
  {
    FirstAfterOnLog(LOG_1, 3);
    CountIsUnique(LOG_1, 3, 0);
    FirstWindowEarned(SECOND_DEPOSIT, 5);
    hide Eligible;
  }

  /** The snapshot at slot 5 moves the cursor from 6 back to 5. */
  lemma SecondDepositVests()
    ensures Vest(SETTLED, Shown(LOG_2)) == Ok(SECOND_STAKED)
  {
    hide Launched;
    hide Credit;
    hide Eligible;
    FirstAfterOnLog(LOG_2, 3);
    CountIsUnique(LOG_2, 3, 1);
    CreditForWithinWorth(LOG_2, 6, 4, 1, Launched());
    FullLog(Tail(LOG_2), LOG_2, 5, 6, 4, 1, Launched());
    EligibleIs(SETTLED, LOG_2, Launched(), 4, 0);
  }

  /** Then slot 5 is earned again. */
  lemma SlotFiveSettledAgain()
    ensures Settle(SETTLED, Shown(LOG_2), 6) == Ok(OVERPAID)
  {
    hide Vest;
    hide Tail;
    hide Launched;
    SecondDepositVests();
    LaunchedFrom(5, 7);
    SoleStakerEarnsAll(2, 10);
    OneWindow(LOG_2, 5, 6, 2, Launched());
    EligibleIs(SECOND_STAKED, LOG_2, Launched(), 6, 10);
  }

  lemma NewFarmerSettles()
    ensures Settle(NEW_FARMER, Shown(LOG_1), 3) == Ok(Position(0, 0, 0, 4, map[MINT := 0]))
  {
    CreditZeroStake(LOG_1, 4, 0, 3, Launched());
    EligibleIs(NEW_FARMER, LOG_1, Launched(), 3, 0);
  }

  lemma LateDepositVests()
    ensures Vest(LATE_DEPOSIT, Shown(LOG_2)) == Ok(LATE_STAKED)
  {
    hide Launched;
    hide Credit;
    hide Eligible;
    FirstAfterOnLog(LOG_2, 3);
    CountIsUnique(LOG_2, 3, 1);
    CreditZeroStake(LOG_2, 5, 4, 4, Launched());
    EligibleIs(LATE_DEPOSIT, LOG_2, Launched(), 4, 0);
  }

  /** A farmer who joins for the second window is settled for half of slot 5. */
  lemma LateFarmerSettles()
    ensures Settle(LATE_DEPOSIT, Shown(LOG_2), 6) == Ok(LATE_PAID)
  {
    hide Vest;
    hide Tail;
    hide Launched;
    LateDepositVests();
    LaunchedFrom(5, 7);
    OneWindow(LOG_2, 5, 6, 1, Launched());
    assert WindowCredit(1, 2, 10) == 5;
    EligibleIs(LATE_STAKED, LOG_2, Launched(), 6, 5);
  }

  // ---- the runs ----

  lemma RunStep(s: State, ops: seq<Op>, k: nat)
    requires k < |ops|
    ensures Run(s, ops[k..]) == Run(Next(s, ops[k]), ops[k + 1..])
    ensures Along(Orderly, s, ops[k..]) <==> Orderly(s, ops[k]) && Along(Orderly, Next(s, ops[k]), ops[k + 1..])
  {
    assert ops[k..][1..] == ops[k + 1..];
  }

  const PREPARE: seq<Op> := [
    SetMinWindow(1), AddHarvest(MINT), CreateFarmer, Tick, StartFarming(0, 1), Tick, TakeSnapshot]

  const SETUP: seq<Op> := PREPARE + [NewHarvestPeriod(MINT, 3, 3, 10)]

  lemma FirstDeposit(l: seq<Charge>)
    ensures var s' := Next(At(1, [], EmptyPeriods(), 0, 0, [NEW_FARMER], 0, l), StartFarming(0, 1));
            s' == At(1, [], EmptyPeriods(), 1, 0, [FIRST_DEPOSIT], 2, s'.ledger)
  {
    EligibleIs(NEW_FARMER, [], EmptyPeriods(), 1, 0);
  }

  lemma LaunchFunded(p: Position, reach: nat, l: seq<Charge>)
    ensures Next(At(2, LOG_1, EmptyPeriods(), 1, 0, [p], reach, l), NewHarvestPeriod(MINT, 3, 3, 10))
            == At(2, LOG_1, Launched(), 1, 30, [p], reach, l)
  {
    BlankIsScheduled(2);
    LatestStartedIsHeadOrNext(EmptyPeriods(), 2);
  }

  lemma PrepareBegins() returns (s: State)
    ensures s == At(1, [], EmptyPeriods(), 0, 0, [NEW_FARMER], 0, [])
    ensures Run(Initial(1), PREPARE) == Run(s, PREPARE[4..])
    ensures Along(Orderly, Initial(1), PREPARE) <==> Along(Orderly, s, PREPARE[4..])
  {
    hide DoStartFarming;
    hide DoStopFarming;
    hide DoUpdate;
    hide DoClaim;
    hide DoCompoundSame;
    hide DoCompoundOut;
    hide DoNewHarvestPeriod;
    hide DoRemoveHarvest;
    hide DoTakeSnapshot;
    hide Along;
    var s0 := Initial(1);
    assert PREPARE[0..] == PREPARE;
    RunStep(s0, PREPARE, 0);
    var s1 := Next(s0, PREPARE[0]);
    RunStep(s1, PREPARE, 1);
    var s2 := Next(s1, PREPARE[1]);
    assert s2.harvests == map[MINT := EmptyPeriods()];
    RunStep(s2, PREPARE, 2);
    var s3 := Next(s2, PREPARE[2]);
    assert NewFarmer(s2) == NEW_FARMER;
    RunStep(s3, PREPARE, 3);
    s := Next(s3, PREPARE[3]);
  }

  /** At slot 2 the first farmer's deposit counts in the open window. */
  lemma Prepared() returns (s: State)
    ensures s == At(2, LOG_1, EmptyPeriods(), 1, 0, [FIRST_DEPOSIT], 2, s.ledger)
    ensures Run(Initial(1), PREPARE) == s && Along(Orderly, Initial(1), PREPARE)
  {
    hide DoStartFarming;
    hide DoStopFarming;
    hide DoUpdate;
    hide DoClaim;
    hide DoCompoundSame;
    hide DoCompoundOut;
    hide DoNewHarvestPeriod;
    hide DoRemoveHarvest;
    var s4 := PrepareBegins();
    RunStep(s4, PREPARE, 4);
    FirstDeposit([]);
    var s5 := Next(s4, PREPARE[4]);
    RunStep(s5, PREPARE, 5);
    var s6 := Next(s5, PREPARE[5]);
    assert s6 == At(2, [], EmptyPeriods(), 1, 0, [FIRST_DEPOSIT], 2, s5.ledger);
    RunStep(s6, PREPARE, 6);
    s := Next(s6, PREPARE[6]);
    assert s.log == LOG_1;
    assert PREPARE[7..] == [];
  }

  /** Then a launch of ten tokens in each of the slots 3 to 5 is funded. */
  lemma SetUp() returns (s: State)
    ensures s == At(2, LOG_1, Launched(), 1, 30, [FIRST_DEPOSIT], 2, s.ledger)
    ensures Run(Initial(1), SETUP) == s && Along(Orderly, Initial(1), SETUP)
  {
    hide DoNewHarvestPeriod;
    hide Launched;
    var s7 := Prepared();
    var launch := [NewHarvestPeriod(MINT, 3, 3, 10)];
    RunConcat(Initial(1), PREPARE, launch);
    assert launch[0..] == launch && launch[1..] == [];
    RunStep(s7, launch, 0);
    LaunchFunded(FIRST_DEPOSIT, 2, s7.ledger);
    s := Next(s7, NewHarvestPeriod(MINT, 3, 3, 10));
  }

  lemma UpdateStep(now: nat, log: seq<Snapshot>, stakeVault: nat, fs: seq<Position>, reach: nat, l: seq<Charge>, i: nat,
                   until: nat, q: Position)
    requires i < |fs| && until <= U64_MAX && Settle(fs[i], Shown(log), until) == Ok(q)
    ensures var s' := Next(At(now, log, Launched(), stakeVault, 30, fs, reach, l), UpdateEligibleHarvest(i, until));
            s' == At(now, log, Launched(), stakeVault, 30, fs[i := q], Max(reach, q.cursor), s'.ledger)
  {
    hide Settle;
  }

  lemma DepositStep(now: nat, log: seq<Snapshot>, stakeVault: nat, fs: seq<Position>, reach: nat, l: seq<Charge>,
                    i: nat, v: Position)
    requires i < |fs| && Settle(fs[i], Shown(log), now) == Ok(v) && v.vested < U64_MAX && stakeVault < U64_MAX
    ensures var s' := Next(At(now, log, Launched(), stakeVault, 30, fs, reach, l), StartFarming(i, 1));
            var q := v.(vestedAt := now, vested := v.vested + 1);
            s' == At(now, log, Launched(), stakeVault + 1, 30, fs[i := q], Max(reach, v.cursor), s'.ledger)
  {
    hide Settle;
  }

  const RESTAKE: seq<Op> := [Tick, StartFarming(0, 1), Tick, Tick, UpdateEligibleHarvest(0, 5)]
  const DOUBLE_SETTLEMENT: seq<Op> := [TakeSnapshot, Tick, UpdateEligibleHarvest(0, 6)]

  lemma Restaked() returns (s: State)
    ensures s == At(5, LOG_1, Launched(), 2, 30, [SETTLED], 6, s.ledger)
    ensures Run(Initial(1), SETUP + RESTAKE) == s && Along(Orderly, Initial(1), SETUP + RESTAKE)
  {
    hide Settle;
    hide Launched;
    var s8 := SetUp();
    RunConcat(Initial(1), SETUP, RESTAKE);
    assert RESTAKE[0..] == RESTAKE && RESTAKE[5..] == [];
    RunStep(s8, RESTAKE, 0);
    var s9 := Next(s8, Tick);
    FirstDepositSettles(3, Position(1, 0, 1, 4, map[MINT := 10]));
    DepositStep(3, LOG_1, 1, [FIRST_DEPOSIT], 2, s9.ledger, 0, Position(1, 0, 1, 4, map[MINT := 10]));
    RunStep(s9, RESTAKE, 1);
    var s10 := Next(s9, StartFarming(0, 1));
    assert s10 == At(3, LOG_1, Launched(), 2, 30, [SECOND_DEPOSIT], 4, s10.ledger);
    RunStep(s10, RESTAKE, 2);
    RunStep(Next(s10, Tick), RESTAKE, 3);
    var s12 := Next(Next(s10, Tick), Tick);
    RunStep(s12, RESTAKE, 4);
    SecondDepositSettles();
    UpdateStep(5, LOG_1, 2, [SECOND_DEPOSIT], 4, s12.ledger, 0, 5, SETTLED);
    s := Next(s12, UpdateEligibleHarvest(0, 5));
  }

  /** Taking the second snapshot in slot 5 and settling farmer `i` in slot 6. */
  lemma SnapshotThenSettle(s: State, fs: seq<Position>, i: nat, q: Position)
    requires s == At(5, LOG_1, Launched(), 2, 30, fs, 6, s.ledger)
    requires i < |fs| && Settle(fs[i], Shown(LOG_2), 6) == Ok(q)
    ensures var s' := Run(s, [TakeSnapshot, Tick, UpdateEligibleHarvest(i, 6)]);
            s'.vaults == map[MINT := 30] && s'.farmers == fs[i := q]
  {
    hide Settle;
    hide Launched;
    var ops := [TakeSnapshot, Tick, UpdateEligibleHarvest(i, 6)];
    assert ops[0..] == ops && ops[3..] == [];
    RunStep(s, ops, 0);
    var s1 := Next(s, TakeSnapshot);
    assert s1.log == LOG_2;
    RunStep(s1, ops, 1);
    var s2 := Next(s1, Tick);
    RunStep(s2, ops, 2);
    UpdateStep(6, LOG_2, 2, fs, 6, s2.ledger, i, 6, q);
  }

  /** After an orderly run a farmer has settled the current slot; a snapshot in that same slot and
      one more settlement, and the farmer has settled it twice and is owed more than there is. */
  lemma SameSlotSnapshotBreaksSolvency()
    ensures Along(Orderly, Initial(1), SETUP + RESTAKE)
    ensures var s := Run(Initial(1), SETUP + RESTAKE + DOUBLE_SETTLEMENT);
            MINT in s.vaults && |s.farmers| == 1 && s.vaults[MINT] == 30 && Recorded(s.farmers[0].harvests, MINT) == 40
  {
    hide Settle;
    hide Launched;
    var s13 := Restaked();
    RunConcat(Initial(1), SETUP + RESTAKE, DOUBLE_SETTLEMENT);
    SlotFiveSettledAgain();
    SnapshotThenSettle(s13, [SETTLED], 0, OVERPAID);
  }

  const JOIN: seq<Op> := [CreateFarmer, Tick, StartFarming(1, 1), Tick, Tick, UpdateEligibleHarvest(0, 5)]
  const LATE_SETTLEMENT: seq<Op> := [TakeSnapshot, Tick, UpdateEligibleHarvest(1, 6)]

  lemma FarmerJoins(s8: State) returns (s: State)
    requires s8 == At(2, LOG_1, Launched(), 1, 30, [FIRST_DEPOSIT], 2, s8.ledger)
    ensures s == At(3, LOG_1, Launched(), 2, 30, [FIRST_DEPOSIT, LATE_DEPOSIT], 4, s.ledger)
    ensures Run(s8, JOIN) == Run(s, JOIN[3..]) && (Along(Orderly, s8, JOIN) <==> Along(Orderly, s, JOIN[3..]))
  {
    hide Settle;
    hide Launched;
    hide Charges;
    assert JOIN[0..] == JOIN;
    RunStep(s8, JOIN, 0);
    var s9 := Next(s8, CreateFarmer);
    assert NewFarmer(s8) == NEW_FARMER;
    assert s9 == At(2, LOG_1, Launched(), 1, 30, [FIRST_DEPOSIT, NEW_FARMER], 2, s8.ledger);
    RunStep(s9, JOIN, 1);
    var s10 := Next(s9, Tick);
    NewFarmerSettles();
    DepositStep(3, LOG_1, 1, [FIRST_DEPOSIT, NEW_FARMER], 2, s10.ledger, 1, Position(0, 0, 0, 4, map[MINT := 0]));
    RunStep(s10, JOIN, 2);
    s := Next(s10, StartFarming(1, 1));
  }

  lemma Joined() returns (s: State)
    ensures s == At(5, LOG_1, Launched(), 2, 30, [EARNED_ALL, LATE_DEPOSIT], 6, s.ledger)
    ensures Run(Initial(1), SETUP + JOIN) == s && Along(Orderly, Initial(1), SETUP + JOIN)
  {
    hide Settle;
    hide Launched;
    hide Charges;
    RunConcat(Initial(1), SETUP, JOIN);
    var s8 := SetUp();
    var s11 := FarmerJoins(s8);
    RunStep(s11, JOIN, 3);
    RunStep(Next(s11, Tick), JOIN, 4);
    var s13 := Next(Next(s11, Tick), Tick);
    RunStep(s13, JOIN, 5);
    FirstDepositSettles(5, EARNED_ALL);
    UpdateStep(5, LOG_1, 2, [FIRST_DEPOSIT, LATE_DEPOSIT], 4, s13.ledger, 0, 5, EARNED_ALL);
    s := Next(s13, UpdateEligibleHarvest(0, 5));
    assert JOIN[6..] == [];
  }

  /** Nobody settles a slot twice, and still a snapshot in a settled slot breaks solvency: one
      farmer settled the slot as the sole staker of the old window, the other one settles it with
      half of the new window. */
  lemma TwoWindowsBreakSolvency()
    ensures Along(Orderly, Initial(1), SETUP + JOIN)
    ensures var s := Run(Initial(1), SETUP + JOIN + LATE_SETTLEMENT);
            && MINT in s.vaults && |s.farmers| == 2 && s.vaults[MINT] == 30
            && Recorded(s.farmers[0].harvests, MINT) == 30 && Recorded(s.farmers[1].harvests, MINT) == 5
  {
    hide Settle;
    hide Launched;
    var s14 := Joined();
    RunConcat(Initial(1), SETUP + JOIN, LATE_SETTLEMENT);
    LateFarmerSettles();
    SnapshotThenSettle(s14, [EARNED_ALL, LATE_DEPOSIT], 1, LATE_PAID);
  }

  const AHEAD: seq<Op> := [UpdateEligibleHarvest(0, 5), NewHarvestPeriod(MINT, 3, 3, 0)]

  lemma LaunchTakenBack(l: seq<Charge>)
    ensures var s' := Next(At(2, LOG_1, Launched(), 1, 30, [EARNED_ALL], 6, l), NewHarvestPeriod(MINT, 3, 3, 0));
            s'.vaults == map[MINT := 0] && s'.farmers == [EARNED_ALL]
  {
    BlankIsScheduled(2);
    assert Launched()[1] == EMPTY_PERIOD;
    assert Launched()[1..][0] == EMPTY_PERIOD;
  }

  /** At slot 2 somebody settles the whole launch, which starts at slot 3, and the admin, who may
      still overwrite it, gets its tokens back. The vault is empty and 30 tokens are owed. */
  lemma SettlingAheadBreaksSolvency()
    ensures Along(Orderly, Initial(1), SETUP) && Run(Initial(1), SETUP).now == 2
    ensures var s := Run(Initial(1), SETUP + AHEAD);
            MINT in s.vaults && |s.farmers| == 1 && s.vaults[MINT] == 0 && Recorded(s.farmers[0].harvests, MINT) == 30
  {
    hide Settle;
    hide Launched;
    hide DoNewHarvestPeriod;
    var s8 := SetUp();
    RunConcat(Initial(1), SETUP, AHEAD);
    assert AHEAD[0..] == AHEAD && AHEAD[2..] == [];
    RunStep(s8, AHEAD, 0);
    FirstDepositSettles(5, EARNED_ALL);
    UpdateStep(2, LOG_1, 1, [FIRST_DEPOSIT], 2, s8.ledger, 0, 5, EARNED_ALL);
    var s9 := Next(s8, UpdateEligibleHarvest(0, 5));
    assert s9 == At(2, LOG_1, Launched(), 1, 30, [EARNED_ALL], 6, s9.ledger);
    RunStep(s9, AHEAD, 1);
    LaunchTakenBack(s9.ledger);
  }

  const PAST_END := Position(1, 0, 1, 6, map[MINT := 0])
  const EMPTY_HANDED := Position(1, 0, 1, 8, map[MINT := 0])

  /** Before anything is scheduled, settling up to slot 5 credits nothing. */
  lemma NothingScheduledYet()
    ensures Settle(FIRST_DEPOSIT, FarmView(Tail(LOG_1), map[MINT := EmptyPeriods()]), 5) == Ok(PAST_END)
  {
    hide Tail;
    hide Credit;
    var ps := EmptyPeriods();
    FirstAfterOnLog(LOG_1, 1);
    CountIsUnique(LOG_1, 1, 1);
    CreditZeroStake(LOG_1, 2, 2, 1, ps);
    EligibleIs(FIRST_DEPOSIT, LOG_1, ps, 1, 0);
    forall t: nat | 2 <= t < 6
      ensures TpsAt(ps, t) == 0
    {
      BlankTps(ps, t);
    }
    SumTpsConstant(ps, 2, 6, 0);
    OneWindow(LOG_1, 2, 5, 1, ps);
    EmptyWindowEarnsNothing(1, 1);
    EligibleIs(FIRST_STAKED, LOG_1, ps, 5, 0);
  }

  lemma NothingAfterLaunch()
    ensures Settle(PAST_END, Shown(LOG_1), 7) == Ok(EMPTY_HANDED)
  {
    hide Tail;
    hide Credit;
    forall t: nat | 6 <= t < 8
      ensures TpsAt(Launched(), t) == 0
    {
      LaunchedTps(t);
    }
    SumTpsConstant(Launched(), 6, 8, 0);
    OneWindow(LOG_1, 6, 7, 1, Launched());
    EmptyWindowEarnsNothing(1, 1);
    EligibleIs(PAST_END, LOG_1, Launched(), 7, 0);
  }

  const FORFEIT: seq<Op> := [UpdateEligibleHarvest(0, 5), NewHarvestPeriod(MINT, 3, 3, 10)]

  lemma UpdateBeforeLaunch(l: seq<Charge>)
    ensures var s' := Next(At(2, LOG_1, EmptyPeriods(), 1, 0, [FIRST_DEPOSIT], 2, l), UpdateEligibleHarvest(0, 5));
            s' == At(2, LOG_1, EmptyPeriods(), 1, 0, [PAST_END], 6, s'.ledger)
  {
    hide Settle;
    NothingScheduledYet();
  }

  /** Somebody settles the only staker up to slot 5 before a launch in the slots 3 to 5 is
      scheduled. Once the launch is over all of its tokens are still in the vault, and the only
      staker has nothing. */
  lemma SettlingAheadForfeitsHarvest()
    ensures var s := Run(Initial(1), PREPARE + FORFEIT + (Ticks(5) + [UpdateEligibleHarvest(0, 7)]));
            && s.now == 7 && s.log == [Snapshot(1, 2)] && |s.farmers| == 1 && s.farmers[0] == EMPTY_HANDED
            && s.vaults == map[MINT := 30] && s.harvests == map[MINT := Launched()]
  {
    hide Settle;
    hide Launched;
    hide EmptyPeriods;
    hide DoNewHarvestPeriod;
    var last := [UpdateEligibleHarvest(0, 7)];
    var s7 := Prepared();
    RunConcat(Initial(1), PREPARE, FORFEIT);
    RunConcat(Initial(1), PREPARE + FORFEIT, Ticks(5) + last);
    assert FORFEIT[0..] == FORFEIT && FORFEIT[2..] == [] && last[0..] == last && last[1..] == [];
    RunStep(s7, FORFEIT, 0);
    UpdateBeforeLaunch(s7.ledger);
    var s8 := Next(s7, UpdateEligibleHarvest(0, 5));
    RunStep(s8, FORFEIT, 1);
    LaunchFunded(PAST_END, 6, s8.ledger);
    var s9 := Next(s8, NewHarvestPeriod(MINT, 3, 3, 10));
    RunConcat(s9, Ticks(5), last);
    TicksPass(s9, 5);
    var s14 := s9.(now := 7);
    RunStep(s14, last, 0);
    NothingAfterLaunch();
    UpdateStep(7, LOG_1, 1, [PAST_END], 6, s14.ledger, 0, 7, EMPTY_HANDED);
  }
}
