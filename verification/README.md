# Farming and AMM model

A model in Dafny of two Solana programs, with proofs of what they promise.

**Farming.** A farm keeps a ring buffer of stake snapshots and, per harvest mint, ten emission
periods. A farmer keeps staked and vested tokens, a cursor (the first slot that is not settled
yet) and a balance per harvest mint. Settling walks the snapshots from the newest to the oldest
and pops ranges off the emission histories. The model has the arrays, the classes and the loops
of the program (`Farm.dfy`, `Farmer.dfy`, `Sweep.dfy`, `Endpoints.dfy`), specifications on values
(`RingBuffer.dfy`, `RateHistory.dfy`, `Periods.dfy`, `Earnings.dfy`, `Settlement.dfy`), and a
state machine of one farm with any number of farmers and mints (`Protocol.dfy`). Safety over its
runs rests on exact shares of each slot's emission: those already settled and those that each
farmer could still settle (`Shares.dfy`, `Solvency.dfy`, `FarmerMoves.dfy`, `Safety.dfy`,
`Ledger.dfy`). `SettledFirst.dfy` and `FarmCalls.dfy` state what single calls do to these states.
`SameSlotSnapshot.dfy` says exactly when that breaks, `Overpayment.dfy` has runs in
which it does, and `VestingOrder.dfy` is about an assertion of the vesting step. Each instruction
handler on the classes is proved to perform a step of the state machine (`Endpoints.dfy`).

**AMM.** Pools of up to four reserves with a constant product or a stable curve: deposits,
redemptions, swaps and the stable curve's invariant in fixed-point arithmetic (`FixedPoint.dfy`,
`AmmHelpers.dfy`, `PoolMath.dfy`, `SwapMath.dfy`, `StableInvariant.dfy`, `Pool.dfy`), and what
deposits, redemptions, tolls and swaps mean to users (`PoolQuotes.dfy`). The claims that the comments
make about Newton's method and about the swap quadratic are proved in exact real arithmetic
(`ExactPowers.dfy`, `NewtonExact.dfy`, `StableSwapExact.dfy`), and the fixed-point computations are
tied to it with all their rounding (`InvariantError.dfy`, `InvariantAccuracy.dfy`,
`InvariantStops.dfy`, `StableRootError.dfy`). `InvariantCases.dfy` has pools for which the computed
invariant is exact, and pools for which its computation fails.

## Assumptions

- The `decimal` crate is not part of this model. A decimal is a natural number of units of 10^-18
  below 2^192; products and quotients are truncated after a wide intermediate, and every result
  is range checked. Powers are repeated multiplications and square roots are truncated.
- Overflow checks are on in release builds too, so unchecked 64-bit arithmetic that overflows
  aborts the instruction; the model returns an error there. An instruction that fails is rolled
  back by the runtime: in a run it leaves the state as it was.
- A transfer needs the sender's owner as signer, equal mints, enough tokens and room for them; from
  an account to itself it changes nothing. Program-derived owners of vaults never sign as users. In
  the state machine only a farm's own vaults are tracked: a sender without funds is an absent
  instruction, and tokens that a user has sent back into a farm's vault are a donation after the
  step.
- Snapshot, period and mint counts are the program's constants. The guard on the oldest harvest
  period is the one of production and test builds.
- Safety of the vaults is proved for *fair* runs, and the program does not make all runs fair. Two
  instructions can break fairness. A snapshot is fair if, under the window it opens, the shares of
  its own slot and of every later one, the settled ones included, are at most 1; a snapshot in a
  slot that nobody has settled always is (`UnsettledSlotFits`), and in a settled slot
  `SnapshotFitsIff` shows that exactly the fair ones keep a slot from being overspent. That no slot
  is overspent rests on fair snapshots alone (`SlotsAreSettledOnce`). Overwriting a launch is fair
  if what has been settled of its slots is worth no more than under the period that replaces it;
  by `OverwriteKeepsCoverIff` that is exactly when it costs no cover. Any `until` may be settled.
  The cap on a window's credits asks instead that no settled slot loses emission, which is fair
  (`KeptRatesAreFair`). Runs are *orderly*, and satisfy all of this, if snapshots come before every
  settlement of their slot and nobody settles the future (`OrderlyRunsAreFair`). The period arrays
  and the cover of the deposits need no hypothesis.
- Dafny's reals have no completeness axiom, so lemmas about the distance to the stable curve's
  root take the root as an argument; that it is unique is proved, that it exists is the
  intermediate value theorem. The fixed-point iteration needs no root to stop. That iterates descend, stay positive and never make the loop
  report a violated assumption is proved without it.

## Where documentation and code differ

- README.md:321 gives the linear coefficient of the stable polynomial as `A (n^n - 1)`; the code
  (stable_curve_invariant.rs:93-96) computes `A n^n - 1`. The model follows the code.
- farm.rs:516-521 shows a gap range `11..25` before a period that starts in slot 25; the code
  ends the gap in slot 24.
- README.md:631-635 promises at most `l * rho` tokens per snapshot window. This holds for every
  run with fair snapshots in which no settled slot loses emission (`WindowEmissionCap`). It fails, and with it solvency, after a snapshot in a slot that
  was settled: one farmer may settle the slot twice (`SameSlotSnapshotBreaksSolvency`), or two
  farmers settle it under different windows (`TwoWindowsBreakSolvency`).
- update_eligible_harvest.rs:24-34 lets anybody settle any farmer up to any slot, also one after the
  clock (`SettlesAheadIff` says when it does), while new_harvest_period.rs:93-152 returns all tokens
  of a launch that has not started. A launch settled ahead of time and then overwritten leaves an
  empty vault that owes its emission (`SettlingAheadBreaksSolvency`).
- update_eligible_harvest.rs:1-9 has the endpoint called so that users do not lose harvest. Called
  with a later `until` it makes them lose it: the cursor passes slots for which emission is
  scheduled only afterwards, and farmer.rs:213 never goes back to them (`SettledAheadForGood`,
  `SettlingAheadForfeitsHarvest`).
- farmer.rs:156 asserts, in debug builds, that a deposit is not later than the cursor. This holds
  throughout a run exactly if every receipt of tokens compounded in another farm finds the
  receiving farmer's cursor at or past the clock (`VestingAssertionHolds`); after another one a
  settlement may evaluate the assertion and fail it (`ReceiptBreaksOrder`).
- pool.rs:197-263 says a deposit takes at most the user's amounts. On the inverted branch it may
  take more: `InvertedDepositWithinLimitIff` says when, `InvertedDepositCanExceedLimit` has an
  example, and `InvertedDepositNearLimits` bounds the excess.
- stable_curve_invariant.rs:119-157 argues that an iterate can only repeat at a root of the
  polynomial. In exact arithmetic that is so (`NewtonExact.Compute`). In fixed point it also repeats
  where the value is positive but tiny beside the slope, and the call fails: `ViolationIff` says
  exactly when, and `NearlyEqualReservesFail` has two almost equal reserves for which it does.
- stop_farming.rs:41-74 settles before it unstakes, but not the slot of the clock when vested tokens
  became earning at a snapshot in that very slot: a farmer who stops then forgoes this slot
  (`StoppingForgoesUnsettledSlot`; `SettlesFirst` states the exact extra term).
- swap_equation.rs:97-104 argues that the bought reserve's balance is always positive. Its constant
  term is 0 when the stored invariant is, and then every successful swap pays out the whole bought
  reserve (`ZeroInvariantEmptiesReserve`, `StableSwapCanEmptyReserve`). create_pool.rs:58-130 reaches
  this state: with LP tokens and non-empty vaults it stores the reserves and an invariant of 0, and
  nothing computes the invariant before the first deposit, redemption or swap.

## Model

| member | source | states |
|---|---|---|
| RateHistory.HistoryTilesTime | programs/farming/src/models/farm.rs:523-592 | the ranges of a history are non-empty, ascending and adjacent, cover exactly slots 1 to the later of the current slot and the newest end, and carry the rate of the period containing them or 0 |
| RingBuffer.FirstSnapshotAfterMeaning | programs/farming/src/models/farm.rs:315-345 | the wrapped index search returns the oldest retained snapshot later than the slot, and nothing if no retained one is at or before it |
| RingBuffer.WindowSnapshotsMeaning | programs/farming/src/models/farm.rs:356-416 | the iterator yields exactly the newest snapshots down to and including the first one at or before the cursor, or all of them |
| RingBuffer.WriteIsPush | programs/farming/src/models/farm.rs:459-476 | writing at the advanced tip pushes onto an append-only log: reading back gives its newest 1000 entries, padded before the first rotation |
| RingBuffer.FirstAfterOnLog | programs/farming/src/models/farm.rs:315-345 | on the unbounded log: the oldest later snapshot whenever one at or before the slot is still retained |
| RingBuffer.OldestIsLastRetained | programs/farming/src/models/farm.rs:481-488 | the entries at the tip and behind it are the newest and the oldest retained ones |
| Farms.Farm.constructor | programs/farming/src/models/farm.rs:149-156 | a new farm has an empty log and no harvest mints |
| Farms.Farm.TakeSnapshot | programs/farming/src/models/farm.rs:422-479 | accepted exactly if the window is long enough; then one entry is pushed onto the log, nothing else changes |
| Farms.Farm.FirstSnapshotAfterSlot | programs/farming/src/models/farm.rs:315-345 | the method on the class computes `FirstAfter` of the retained log |
| Farms.Farm.SnapshotsForSweep | programs/farming/src/models/farm.rs:356-416 | the snapshots handed to the sweep, without those after `until` |
| Farms.Farm.AddHarvest | programs/farming/src/models/farm.rs:164-199 | accepted exactly for a new mint while an entry is free; adds it with blank periods and keeps all others |
| Farms.Farm.NewHarvestPeriod | programs/farming/src/models/farm.rs:209-305 | changes only the named mint, as `Periods.NewPeriod` says, with the same refusals |
| Farms.Farm.RemoveHarvest | programs/farming/src/endpoints/remove_harvest.rs:48-86 | removes exactly the named mint |
| Periods.NewPeriodKeepsSchedule | programs/farming/src/models/farm.rs:209-305 | periods stay disjoint, strictly descending and initialised-first, and only the newest may lie in the future |
| Periods.NewPeriodAccepts | programs/farming/src/models/farm.rs:226-290 | refused exactly for an empty interval, one that does not clear the latest started period, or a full history |
| Periods.NewPeriodTimeline | programs/farming/src/models/farm.rs:256-304 | from the oldest retained snapshot on, the rate of every slot: the new period, an overwritten launch gone, all else unchanged |
| Periods.NewPeriodNeverRaisesPast | programs/farming/src/models/farm.rs:271-304 | no slot before the new period ever gains emission |
| Periods.FundingMatchesEmission | programs/farming/src/endpoints/new_harvest_period.rs:93-152 | the vault top-up or refund equals the change in the emission still to come |
| AccrualLaws.NewPeriodKeepsCredit | programs/farming/src/models/farm.rs:256-304 | neither an overwritten launch nor a dropped oldest period changes what can still be credited up to the current slot |
| Sweep.ConsumeWindow | programs/farming/src/models/farmer.rs:402-454 | popping ranges computes the share of all emission of one window, fails only when the sum leaves the decimal range, and leaves the history intact for older windows |
| Sweep.AccrueMint | programs/farming/src/models/farmer.rs:393-463 | adds the floor of the share to the balance, or fails exactly when the balance would not fit |
| Sweep.AccrueWindow | programs/farming/src/models/farmer.rs:393-464 | the same for every mint of the farm |
| Sweep.SweepSnapshot | programs/farming/src/models/farmer.rs:369-466 | one iteration over the snapshots keeps the relation between what is done and what is left |
| Sweep.SweepSnapshots | programs/farming/src/models/farmer.rs:346-467 | the loop credits the slot-by-slot sum over all pending snapshots |
| Sweep.EligibleHarvestUntil | programs/farming/src/models/farmer.rs:332-470 | each mint gains exactly the sum, over initialised snapshots with stake, of the floor of the share of the emission of their slots; fails only on 64-bit overflow, so the checked subtraction never fails |
| Settlement.SweepInputSuffices | programs/farming/src/models/farmer.rs:241-255 | the snapshots that the callers leave out earn nothing |
| Settlement.SweepInputPending | programs/farming/src/models/farmer.rs:241-255 | both callers meet what the sweep needs of its input |
| Settlement.VestingIsReady | programs/farming/src/models/farmer.rs:155-165 | settling up to the slot before the vesting snapshot is such a call |
| Settlement.UnstakeTakesVestedFirst | programs/farming/src/models/farmer.rs:124-140 | pays the smaller of request and deposit, vested tokens first, and never fails on a 64-bit deposit |
| Earnings.WindowCreditBound | programs/farming/src/models/farmer.rs:388-463 | a window never credits more than the exact fraction of its tokens |
| Earnings.WindowCreditSplit | programs/farming/src/models/farmer.rs:388-463 | cutting a window in two loses at most one token |
| Shares.WindowCreditNearShare | programs/farming/src/models/farmer.rs:388-463 | a window's credit misses the exact fraction by at most one token and a 10^-18th of its tokens |
| Farmers.SyncHarvestMints | programs/farming/src/models/farmer.rs:474-489 | keeps the balances of mints the farm has, drops the others, adds new ones with 0 |
| Farmers.Farmer.SetHarvests | programs/farming/src/models/farmer.rs:270-291 | the array holds exactly the entries of the map |
| Farmers.Farmer.AddToVestedTokens | programs/farming/src/models/farmer.rs:101-114 | adds to the vested tokens and restarts vesting, or fails on overflow |
| Farmers.Farmer.UnstakeTokens | programs/farming/src/models/farmer.rs:124-140 | the method on the class does what `Settlement.Unstake` says |
| Farmers.Farmer.ClaimHarvestTokens | programs/farming/src/models/farmer.rs:188-200 | empties one mint's balance and returns it, or fails if the mint is unknown |
| Farmers.Farmer.EligibleHarvest | programs/farming/src/models/farmer.rs:229-258 | the new balances are those of the specification, and it fails exactly when that does |
| Farmers.Farmer.UpdateEligibleHarvest | programs/farming/src/models/farmer.rs:206-227 | settles cursor to current slot, moves the cursor past it, and is a no-op from the current slot on |
| Farmers.Farmer.StakeVested | programs/farming/src/models/farmer.rs:166-177 | what was earned before is recorded, the cursor moves to the snapshot, vested tokens become staked |
| Farmers.Farmer.MoveVestedToStake | programs/farming/src/models/farmer.rs:149-179 | vested tokens become stake at the first snapshot after the deposit, and only then |
| Farmers.Farmer.CheckVestedPeriodAndUpdateHarvest | programs/farming/src/models/farmer.rs:144-185 | the method on the class does what `Settlement.Settle` says, with the same failures |
| AccrualLaws.CreditSplit | programs/farming/src/models/farmer.rs:346-467 | settling in two steps credits at most what one step does and loses at most one token, none if the cut is a snapshot start |
| AccrualLaws.CreditForSplit | programs/farming/src/models/farmer.rs:229-258 | the same for the snapshots read from the farm |
| AccrualLaws.IncrementalMatchesOneShot | programs/farming/src/models/farmer.rs:206-258 | k effective updates credit at most what one does and at most k - 1 tokens less, nothing less if all cuts are snapshot starts; they succeed whenever the one does |
| AccrualLaws.EmissionCap | programs/farming/src/models/farmer.rs:388-464 | farmers whose stakes sum to at most the snapshot earn together at most what the window emits |
| Shares.CreditForWithinWorth | programs/farming/src/models/farmer.rs:229-258 | settling credits at most the exact worth of the stake's shares, slot by slot over the whole log |
| Shares.CreditForNearWorth | programs/farming/src/models/farmer.rs:229-258 | and loses at most one token per window and a 10^-18th of the emission, while the buffer shows these windows |
| Shares.SettleCreditsCharges | programs/farming/src/models/farmer.rs:144-185 | each balance grows by exactly the credit of the charges that a settlement records |
| Shares.SettleKeepsShares | programs/farming/src/models/farmer.rs:144-185 | in every slot, what a settlement charges plus what stays unsettled is exactly the share that was unsettled before, also when vesting moves the cursor back |
| Shares.SettleKeepsOwed | programs/farming/src/models/farmer.rs:144-185 | settling never raises what a farmer is owed, for any mint and horizon |
| Shares.SettleLosesLittle | programs/farming/src/models/farmer.rs:144-185 | nor does it lower it by more than one token per settled window and a 10^-18th of the emission |
| Shares.DepositKeepsShares | programs/farming/src/models/farmer.rs:101-114 | a deposit earns no share of a window opened so far |
| Shares.UnstakeKeepsShares | programs/farming/src/models/farmer.rs:124-140 | a withdrawal raises no share |
| Shares.SnapshotKeepsShares | programs/farming/src/models/farm.rs:422-479 | a new window raises nobody's share of an earlier slot |
| Solvency.CoversPromises | programs/farming/src/models/farmer.rs:388-464 | a vault that covers the unsettled emission covers all farmers' claims, unsettled slots included, plus all emission to come |
| Solvency.OverwriteChangesCover | programs/farming/src/endpoints/new_harvest_period.rs:93-152 | overwriting a launch changes a vault's cover by exactly the settled worth of the new period minus that of the launch |
| Solvency.OverwriteKeepsCoverIff | programs/farming/src/endpoints/new_harvest_period.rs:93-152 | the vault stays covered if and only if it also covered what the settled shares lose |
| Solvency.NewPeriodKeepsCovered | programs/farming/src/endpoints/new_harvest_period.rs:51-155 | scheduling with its top-up or refund keeps a vault covered if the settled shares of an overwritten launch are worth no less under the new period |
| FarmerMoves.FarmerOpMoves | programs/farming/src/models/farmer.rs:101-258 | every instruction of a farmer conserves each mint's tokens: recorded balances grow by what is credited minus what the vault pays; it raises no shares and moves the deposit with the stake vault |
| Safety.StepKeepsSound | programs/farming/src/models/farm.rs:164-305 | every instruction, whatever its arguments, keeps log, periods, clock and cursors in order and all deposits covered |
| Safety.PeriodsStayScheduled | programs/farming/src/models/farm.rs:209-305 | in every run the period arrays stay disjoint, descending and with at most one scheduled launch |
| Safety.StepKeepsFit | programs/farming/src/models/farmer.rs:144-258 | only a snapshot can raise the shares of a slot, and only of its own slot and later ones |
| Safety.UnsettledSlotFits | programs/farming/src/endpoints/take_snapshot.rs:16-35 | under a new window the shares of a slot that nobody has settled are at most 1 |
| Safety.SlotsAreSettledOnce | programs/farming/src/models/farmer.rs:388-464 | in every run with fair snapshots, whatever `until` and whatever is scheduled, the shares ever settled of a slot sum to at most 1 |
| Safety.SnapshotsFirstAreFair | programs/farming/src/endpoints/take_snapshot.rs:16-35 | snapshots that come before every settlement of their slot are fair, also when later slots are settled ahead |
| Safety.KeptRatesAreFair | programs/farming/src/endpoints/new_harvest_period.rs:93-152 | overwriting a launch without taking emission from a settled slot is fair |
| Safety.StepKeepsInv | programs/farming/src/models/farmer.rs:144-258 | every fair instruction keeps the invariant: no slot settled beyond its emission, every harvest vault covered, no balance of absent mints |
| Safety.RunKeepsInv | programs/farming/src/models/farmer.rs:144-258 | so does every fair run from any state that satisfies it |
| Safety.OrderlyRunsAreFair | programs/farming/src/models/farmer.rs:206-227 | runs with snapshots before any settlement of their slot and no settlement of the future are fair and take emission from no settled slot, and no cursor passes the next slot |
| Safety.VaultsCoverPromises | programs/farming/src/endpoints/new_harvest_period.rs:93-152 | in every fair run each harvest vault covers all farmers' claims, unsettled slots included, plus all emission still to come, at every horizon that no cursor has passed |
| Safety.RemovalLeavesNobodyUnpaid | programs/farming/src/endpoints/remove_harvest.rs:1-86 | in every fair run an empty vault at removal means that nobody is owed anything, not even for unsettled slots, and nothing will be emitted |
| Safety.ClaimsAreAlwaysPaid | programs/farming/src/endpoints/claim_eligible_harvest.rs:44-129 | in every fair run a claim on existing vaults is never refused for lack of funds |
| Ledger.WindowEmissionCap | programs/farming/src/models/farmer.rs:388-464 | with fair snapshots and no emission taken from settled slots, all farmers together are credited at most what the mint's own periods emit, over any slots from the oldest retained snapshot on |
| Ledger.CreditOfSplits | programs/farming/src/models/farmer.rs:346-467 | a charge's credit divides exactly at snapshot starts, and elsewhere up to one token |
| SameSlotSnapshot.SnapshotFitsIff | programs/farming/src/endpoints/take_snapshot.rs:16-35 | after a snapshot in a settled slot no continuation with first snapshots overspends a slot if the settled share plus all shares under the new window are at most 1, and only if, unless settling everybody overflows a balance |
| SameSlotSnapshot.SettlesAgainIff | programs/farming/src/models/farmer.rs:144-185 | a farmer is charged twice for a slot exactly if a vesting snapshot lies below the cursor and is reached |
| SameSlotSnapshot.SettlesAheadIff | programs/farming/src/endpoints/update_eligible_harvest.rs:24-34 | a settlement charges a slot after the clock exactly if `until` is later and above the cursor after vesting |
| SameSlotSnapshot.NothingBelowCursor | programs/farming/src/models/farmer.rs:206-227 | with nothing vesting, no later settlement ever charges a slot below the cursor, whatever the farm does meanwhile |
| SameSlotSnapshot.SettledAheadForGood | programs/farming/src/endpoints/update_eligible_harvest.rs:24-34 | after a settlement up to `until`, whatever is scheduled for earlier slots is never credited |
| Overpayment.SameSlotSnapshotBreaksSolvency | programs/farming/src/models/farmer.rs:144-185 | a run, orderly up to a snapshot in a settled slot, in which one farmer settles the slot twice: 40 owed, 30 there |
| Overpayment.TwoWindowsBreakSolvency | programs/farming/src/models/farm.rs:422-479 | such a run in which two farmers settle the slot under different windows: 35 owed, 30 there |
| Overpayment.SettlingAheadBreaksSolvency | programs/farming/src/endpoints/update_eligible_harvest.rs:24-34 | a run in which a launch is settled ahead of time and taken back: 30 owed, nothing there |
| Overpayment.SettlingAheadForfeitsHarvest | programs/farming/src/endpoints/update_eligible_harvest.rs:24-34 | a run in which the only staker is settled ahead of a launch and gets nothing of it: 30 stay in the vault |
| VestingOrder.VestingAssertionHolds | programs/farming/src/models/farmer.rs:156-158 | a run keeps deposits at or before the cursor throughout if and only if all its receipts find the cursor at or past the clock; then the assertion never fails |
| VestingOrder.ReceiptKeepsOrderIff | programs/farming/src/endpoints/compound_across_farms.rs:87-121 | a receipt keeps that order exactly if the cursor has reached the clock |
| VestingOrder.ReceiptBreaksOrder | programs/farming/src/models/farmer.rs:149-158 | a run in which a receipt, a snapshot and an accepted settlement make the assertion fail |
| Endpoints.TakeSnapshotHandler | programs/farming/src/endpoints/take_snapshot.rs:16-35 | the protocol's step, refused exactly when that is |
| Endpoints.StartFarmingHandler | programs/farming/src/endpoints/start_farming.rs:48-71 | the protocol's step on farmer and stake vault; refused exactly when that is or the owner cannot pay |
| Endpoints.StopFarmingHandler | programs/farming/src/endpoints/stop_farming.rs:41-74 | the protocol's step (see `SettledFirst`), the wallet gains what the vault pays; refused exactly when that is or the wallet cannot receive; into the vault itself the tokens stay there |
| Endpoints.UpdateEligibleHarvestHandler | programs/farming/src/endpoints/update_eligible_harvest.rs:24-34 | the protocol's step for any `until`, refused exactly when that is |
| Endpoints.CompoundSameFarmHandler | programs/farming/src/endpoints/compound_same_farm.rs:70-101 | the protocol's step on farmer and both vaults, refused exactly when that is or the mints differ |
| Endpoints.CompoundAcrossFarmsHandler | programs/farming/src/endpoints/compound_across_farms.rs:87-121 | one step in each farm with the same tokens, refused exactly when one of them is or the mints differ; the receiving farmer is not settled |
| Endpoints.AirdropHandler | programs/farming/src/endpoints/airdrop.rs:41-68 | the protocol's step; refused exactly when that is or the owner cannot pay |
| Endpoints.NewHarvestPeriodHandler | programs/farming/src/endpoints/new_harvest_period.rs:51-155 | the protocol's step on farm and vault, refused exactly when that is or the transfer is; a refund may go to the vault itself |
| Endpoints.RemoveHarvestHandler | programs/farming/src/endpoints/remove_harvest.rs:48-86 | the protocol's step, refused exactly when that is |
| Endpoints.PayPair | programs/farming/src/endpoints/claim_eligible_harvest.rs:66-118 | pays one balance from its own vault and zeroes it, or leaves everything as it is; a vault that pays itself keeps its tokens |
| Endpoints.PayPairs | programs/farming/src/endpoints/claim_eligible_harvest.rs:66-118 | the loop pays what the protocol's `PayOut` says; with proper accounts it fails exactly when that does |
| Endpoints.ClaimEligibleHarvestHandler | programs/farming/src/endpoints/claim_eligible_harvest.rs:44-129 | the protocol's step on farmer and all vaults, whichever accounts receive the tokens |
| SettledFirst.SettlesFirst | programs/farming/src/endpoints/stop_farming.rs:41-74 | starting, stopping, updating and both compounds settle first: the charges go on the ledger, the cursor passes them, what is recorded grows by exactly what they credit less what the vault pays, and all that was owed before any slot is still owed or was paid, but for rounding and what withdrawn stake would still have earned |
| SettledFirst.SettlingSucceeds | programs/farming/src/models/farmer.rs:144-185 | settling never fails while what the farmer is owed of every mint, and the deposit, fit 64 bits |
| SettledFirst.StoppingForgoesUnsettledSlot | programs/farming/src/endpoints/stop_farming.rs:41-74 | a state in which the slot of the clock is not settled before the stake is gone: a snapshot in it moved the cursor there |
| SettledFirst.StoppingPays | programs/farming/src/endpoints/stop_farming.rs:55-71 | pays the smaller of the request and the whole deposit, vesting tokens first; when it is refused |
| SettledFirst.StartingDeposits | programs/farming/src/endpoints/start_farming.rs:48-71 | the tokens join those still vesting and vesting restarts; when it is refused |
| SettledFirst.UpdatingMovesNothing | programs/farming/src/endpoints/update_eligible_harvest.rs:24-34 | no tokens move; fails only as settling does |
| SettledFirst.CompoundingTakesAll | programs/farming/src/endpoints/compound_same_farm.rs:70-101 | the whole balance, the credit of the settlement included, leaves the vault; on the same farm it becomes a deposit made now |
| FarmCalls.ClaimingPaysListed | programs/farming/src/endpoints/claim_eligible_harvest.rs:44-129 | each listed mint is paid once in full and set to 0, whatever is listed twice, and nothing else changes; refused exactly if some vault is missing or short |
| FarmCalls.NewPeriodPaysForEmission | programs/farming/src/endpoints/new_harvest_period.rs:51-155 | schedules exactly the requested slots; the vault gains what the emission to come grows by, `tps` per slot less an overwritten launch |
| FarmCalls.ClosingForgetsNothing | programs/farming/src/endpoints/close_farmer.rs:20-32 | closed exactly when stake and balances are 0, and then the farmer is owed nothing of any mint |
| FarmCalls.SnapshotsStayApart | programs/farming/src/models/farm.rs:422-450 | over any run snapshots are at least the shortest window apart that was in force |
| FarmCalls.BufferReachesBack | programs/farming/src/models/farm.rs:422-479 | so the buffer reaches back over as many windows as it has entries |
| AmmHelpers.ScaleDownValue | programs/amm/src/math/helpers.rs:24-37 | terminates with at most 1000, whose multiple by 1000^e is at most the input and misses it by less than 1000^e units; no smaller exponent would do |
| AmmHelpers.IntegerLeadingZerosIsBitLength | programs/amm/src/math/helpers.rs:46-63 | the count over the three limbs is the bit length beyond 60 |
| AmmHelpers.ProductFits | programs/amm/src/math/helpers.rs:84-115 | exponents that sum to less than 130 guarantee that the product fits |
| AmmHelpers.TryMulDivBounds | programs/amm/src/math/helpers.rs:76-117 | on every path at most the exact `a b / c`; multiplying first loses under two units, dividing first at most the other factor's integer part more |
| AmmHelpers.TryMulDivSucceeds | programs/amm/src/math/helpers.rs:76-117 | with a divisor of at least one it fails only if the result is out of range |
| PoolMath.DepositAmountMeaning | programs/amm/src/models/pool.rs:240-257 | a deposit without decimals: a ceiling of product or quotient |
| PoolMath.DepositWithinLimits | programs/amm/src/models/pool.rs:240-257 | not inverted: every deposit is at least 1 and at most the limit |
| PoolMath.InvertedDepositNearLimits | programs/amm/src/models/pool.rs:402-452 | inverted: the divisor is positive and the excess is at most the limit over the ratio, rounded up |
| PoolMath.InvertedDepositWithinLimitIff | programs/amm/src/models/pool.rs:240-257 | inverted: exactly when the limit is respected |
| PoolMath.InvertedDepositCanExceedLimit | programs/amm/src/models/pool.rs:240-257 | an input on which it is not |
| PoolMath.LpTokensFair | programs/amm/src/models/pool.rs:461-488 | minted LP tokens never exceed the exact share, whichever path `try_mul_div` takes |
| PoolMath.RedeemMeaning | programs/amm/src/models/pool.rs:325-346 | a redemption never fails arithmetically, pays at most the burned fraction, and everything when all is burned |
| PoolMath.RedemptionsNeverDilute | programs/amm/src/models/pool.rs:290-377 | over any sequence of redemptions the reserve per LP token never falls; burning everything empties the reserve |
| PoolMath.RoundTripFirstReserve | programs/amm/src/models/pool.rs:235-346 | deposit then redeem of the minted LP tokens returns at most the deposit of reserve 0 |
| PoolMath.RoundTripAnyReserve | programs/amm/src/models/pool.rs:235-346 | and at most the deposit plus `x_i / x_0` rounded up of reserve i, inverted or not |
| PoolQuotes.RedemptionPays | programs/amm/src/models/pool.rs:290-377 | when a redemption is accepted; every reserve pays at most the burned share and less than a token and a 10^-18th of the reserve below it; burning everything pays everything |
| PoolQuotes.FirstDeposit | programs/amm/src/models/pool.rs:206-235 | accepted exactly with one positive limit per mint; takes all of them and mints the smallest |
| PoolQuotes.LaterDepositTakes | programs/amm/src/models/pool.rs:235-257 | some reserve's limit sets the ratio and is used up; every reserve gives its part at that ratio, within its limit or the inverted excess |
| PoolQuotes.LaterDepositMints | programs/amm/src/models/pool.rs:454-488 | at most the share of the supply that reserve 0 gained, and less than a token and a few 10^-18ths of the larger of supply and deposit below it |
| PoolQuotes.LaterDepositAcceptedIff | programs/amm/src/models/pool.rs:197-280 | when a later deposit is accepted: limits given, amounts and LP tokens computable |
| PoolQuotes.AmountsComputableIff | programs/amm/src/models/pool.rs:402-452 | the amounts can be computed exactly if no reserve is empty, or inverted if they fit 64 bits |
| PoolQuotes.LpTokensComputableIff | programs/amm/src/models/pool.rs:461-488 | LP tokens can be computed exactly if reserve 0 is not empty and they fit 64 bits |
| PoolQuotes.RedeemedDepositNeverGains | programs/amm/src/models/pool.rs:197-377 | redeeming what a deposit minted pays at most the deposit of reserve 0, and of any other reserve at most `x_i / x_0` rounded up more |
| PoolQuotes.TollTokensNearest | programs/amm/src/endpoints/swap.rs:257-274 | the owner's third of the fee per reserve is rounded to the nearest integer |
| PoolQuotes.TollIsDeposit | programs/amm/src/endpoints/swap.rs:257-311 | the toll is what a deposit of these tokens, with any amount of the others, would mint |
| PoolQuotes.TollIsFair | programs/amm/src/endpoints/swap.rs:257-311 | so it never exceeds the share of that deposit, which takes no more of the sold reserve than the owner's tokens unless inverted |
| PoolQuotes.SwapQuoteMeaning | programs/amm/src/endpoints/swap.rs:91-182 | a quoted swap meets the user's minimum; the sold reserve gains all that is sold, the bought one loses what is paid, no other changes |
| Pools.YieldWithinReserve | programs/amm/src/models/pool.rs:579-677 | on either curve a swap pays out at most the bought reserve |
| Pools.SwapEmptiesReserveIff | programs/amm/src/models/pool.rs:579-677 | a constant product swap always leaves something; a stable one leaves the balance rounded up, and nothing exactly if the quadratic's root is below the smallest decimal |
| Pools.ZeroInvariantEmptiesReserve | programs/amm/src/math/swap_equation.rs:24-127 | with a stored invariant of 0 every successful stable swap pays out the whole bought reserve |
| Pools.StableSwapCanEmptyReserve | programs/amm/src/math/swap_equation.rs:24-127 | it does happen: two reserves of ten tokens |
| Pools.TradedForItself | programs/amm/src/models/pool.rs:579-677 | a reserve traded for itself on constant product yields nothing |
| Pools.Pool.constructor | programs/amm/src/endpoints/create_pool.rs:58-130 | a new pool takes over the vaults' balances and stores an invariant of 0 |
| Pools.Pool.AddTokens | programs/amm/src/models/pool.rs:97-109 | adds to one balance or fails on overflow |
| Pools.Pool.RemoveTokens | programs/amm/src/models/pool.rs:111-123 | removes from one balance or fails if it is too small |
| Pools.Pool.AddAll | programs/amm/src/models/pool.rs:265-274 | adds one amount per reserve; succeeds exactly when all fit |
| Pools.Pool.RemoveAll | programs/amm/src/models/pool.rs:365-374 | removes one amount per reserve; succeeds exactly when all are covered |
| Pools.Pool.DepositTokens | programs/amm/src/models/pool.rs:197-280 | takes the amounts of the quote, which `PoolQuotes` states, and nothing else; refused exactly if the quote is or a balance would overflow |
| Pools.Pool.RedeemTokens | programs/amm/src/models/pool.rs:290-377 | pays the amounts of the quote, which `PoolQuotes.RedemptionPays` states, never below the user's minimum; refused exactly if the quote is |
| Pools.Pool.Swap | programs/amm/src/models/pool.rs:558-575 | the sold reserve gains and the bought one loses, in this order and also if they are the same; all others stay |
| Pools.Pool.UpdateCurveInvariant | programs/amm/src/models/pool.rs:491-522 | 0 with an empty reserve, otherwise the computed invariant and at most the sum of the reserves; fails exactly if that cannot be computed; nothing on constant product |
| Pools.SwapWithFee | programs/amm/src/endpoints/swap.rs:107-122 | when it succeeds, and then: the sold reserve gains the fee too; the product is kept up to rounding |
| Pools.SwapHandler | programs/amm/src/endpoints/swap.rs:91-182 | bought tokens, toll and reserves are those of the quote and vaults move along, also into the pool's own vault; it succeeds exactly if the quote, the transfers and, on a stable pool, the new invariant do |
| Pools.SwapWithFeeKeepsProduct | programs/amm/src/endpoints/swap.rs:107-122 | a constant product swap with fee keeps the product up to rounding |
| Pools.TradesKeepProduct | programs/amm/src/models/pool.rs:558-677 | over any sequence of swaps the product never falls by more than the accumulated rounding, and not at all while other reserves' products stay at most 10^18 |
| SwapMath.FoldProductIsProduct | programs/amm/src/math/helpers.rs:3-9 | the folded product is exact and fails only out of range |
| SwapMath.SwapLeaves | programs/amm/src/models/pool.rs:603-676 | what remains of the bought reserve, without decimals |
| SwapMath.SwapKeepsProduct | programs/amm/src/models/pool.rs:637-676 | the bought reserve stays positive; the product falls by less than P / 10^18, and not at all while P is at most 10^18 |
| SwapMath.SellingBackNeverGains | programs/amm/src/models/pool.rs:558-676 | under that condition selling the proceeds back never returns more than was sold |
| SwapMath.SwapSucceedsIff | programs/amm/src/models/pool.rs:579-676 | accepted exactly if no reserve is empty, less is sold than is held, and sum and both products are in range |
| SwapMath.FeeWithinSale | programs/amm/src/endpoints/swap.rs:223-252 | the fee never fails and is at most the sale, with or without a discount |
| SwapMath.FeeIsExactShare | programs/amm/src/endpoints/swap.rs:223-252 | the fee is exactly `sell * share * (10^6 - discount) / 10^12` rounded up |
| StableInvariant.NewCurve | programs/amm/src/math/stable_curve_invariant.rs:56-110 | initial guess at most 1000, scaled back just the sum; the coefficients are the exact products of amplifier, `n^n`, scaled product and sum, truncated once |
| StableInvariant.CurveMeaning | programs/amm/src/math/stable_curve_invariant.rs:56-110 | the parameters of every computed curve, as for `NewCurve` |
| StableInvariant.CoefficientsExact | programs/amm/src/math/stable_curve_invariant.rs:90-102 | the coefficients are `(A N - 1) N product` and `A N s N product / p` with `N = n^n`, truncated once |
| StableInvariant.ComputeCurve | programs/amm/src/math/stable_curve_invariant.rs:112-170 | the loop computes the recursive iteration: its result, and its errors |
| StableInvariant.IterationDescends | programs/amm/src/math/stable_curve_invariant.rs:112-170 | a successful result is the last of at most 33 strictly descending Newton iterates, and it stopped after a step of at most 1/2, at an exact root or at the limit |
| StableInvariant.ComputeInvariant | programs/amm/src/math/stable_curve_invariant.rs:24-40 | returns `InvariantOf`, whose distance from the exact invariant `InvariantStops.ComputedNearExact` states, and never more than the sum of the reserves |
| InvariantError.PolynomialError | programs/amm/src/math/stable_curve_invariant.rs:186-195 | the computed value is below the exact one by less than `2 + D + ... + D^n` units of 10^-18 |
| InvariantError.DerivativeError | programs/amm/src/math/stable_curve_invariant.rs:199-209 | the same for the derivative |
| InvariantError.StepNearNewton | programs/amm/src/math/stable_curve_invariant.rs:172-183 | for two to four reserves each computed iteration is within 5 * 10^-6 of the exact Newton step, from a point at or above the root |
| InvariantAccuracy.ProductError | programs/amm/src/math/stable_curve_invariant.rs:70-75 | what truncation takes from the scaled product; nothing if unscaled |
| InvariantAccuracy.CurveAsReal | programs/amm/src/math/stable_curve_invariant.rs:56-110 | with the computed product for the exact one, the coefficients are those of the stable polynomial, the constant one short by at most 10^-18 |
| InvariantStops.LimitIsNeverDecisive | programs/amm/src/math/stable_curve_invariant.rs:14-22 | the computed iteration, too, never ends by its limit of 32 |
| InvariantStops.ComputationStops | programs/amm/src/math/stable_curve_invariant.rs:112-170 | every successful computation ended at a step of at most 1/2 or where the computed polynomial is 0, and scales the last iterate back exactly |
| InvariantStops.ComputedNearExact | programs/amm/src/math/stable_curve_invariant.rs:24-40 | the computed invariant is at most n / 2 scaled units and rounding above the exact invariant of the reserves, and not below it but for rounding and the truncated product; up to a sum of 1000 the product is exact |
| InvariantCases.EqualReserves | programs/amm/src/math/stable_curve_invariant.rs:24-170 | equal reserves of up to 1000 tokens in all have exactly their sum as invariant, whatever the amplifier |
| InvariantCases.ViolationIff | programs/amm/src/math/stable_curve_invariant.rs:136-157 | the loop reports a violated assumption exactly if it reaches a point whose positive value is less than a 10^-18th of the slope |
| InvariantCases.NearlyEqualReservesFail | programs/amm/src/math/stable_curve_invariant.rs:112-170 | which happens at once for reserves of 10^9 and 10^9 + 1 tokens |
| ExactPowers.PowerAboveTangent | programs/amm/src/math/stable_curve_invariant.rs:172-183 | powers lie above their tangents, the convexity behind the method |
| ExactPowers.MeansInequality | programs/amm/src/math/stable_curve_invariant.rs:127-131 | the product of any number of reserves is at most their mean's power |
| NewtonExact.SumIsAboveRoot | programs/amm/src/math/stable_curve_invariant.rs:127-131 | the polynomial is non-negative at the sum of the reserves, the initial guess |
| NewtonExact.RootSatisfiesEquation | programs/amm/src/math/stable_curve_invariant.rs:185-195 | a root of the polynomial is exactly a solution of the stable equation |
| NewtonExact.RootSeparates | programs/amm/src/math/stable_curve_invariant.rs:127-131 | there is one positive root at most, and the sign tells the side |
| NewtonExact.NewtonDescends | programs/amm/src/math/stable_curve_invariant.rs:132-141 | every iterate stays at or above the root and never increases, and it repeats exactly at the root |
| NewtonExact.NewtonContracts | programs/amm/src/math/stable_curve_invariant.rs:172-183 | each iteration shrinks the distance to the root by at least n / (n + 1) |
| NewtonExact.SmallStepIsClose | programs/amm/src/math/stable_curve_invariant.rs:162-166 | a step of at most 1/2 leaves the iterate within n / 2 of the root |
| NewtonExact.ScalingScalesRoot | programs/amm/src/math/stable_curve_invariant.rs:65-77 | scaling all reserves scales the invariant |
| NewtonExact.NewCurve | programs/amm/src/math/stable_curve_invariant.rs:56-110 | the curve of the scaled reserves meets what the loop relies on |
| NewtonExact.Compute | programs/amm/src/math/stable_curve_invariant.rs:112-170 | the loop never meets the case it reports as a violated assumption |
| NewtonExact.RunContracts | programs/amm/src/math/stable_curve_invariant.rs:112-170 | after k iterations the distance is at most (n / (n + 1))^k of the first |
| NewtonExact.LimitIsNeverDecisive | programs/amm/src/math/stable_curve_invariant.rs:14-22 | for up to four reserves and a guess of at most 1000 the loop exits by the error test within 32 iterations |
| NewtonExact.ComputeInvariant | programs/amm/src/math/stable_curve_invariant.rs:24-40 | the result lies between the invariant and n / 2 scaled units above it, and never above the sum |
| StableSwapExact.RootSolves | programs/amm/src/math/swap_equation.rs:68-126 | both sign branches compute the positive root of the quadratic |
| StableSwapExact.RootDecides | programs/amm/src/math/swap_equation.rs:100-106 | that root is the only one, and the quadratic is positive exactly above it |
| StableSwapExact.EquationInOneBalance | programs/amm/src/math/swap_equation.rs:31-43 | the stable equation of all reserves is the quadratic in any one balance |
| StableSwapExact.BuyBalanceFits | programs/amm/src/math/swap_equation.rs:24-127 | the computed balance is the one positive balance that fits beside the others |
| StableSwapExact.SwapKeepsInvariant | programs/amm/src/math/swap_equation.rs:24-127 | after the swap the reserves satisfy the equation for the same D, with this balance only |
| StableSwapExact.SwapPaysOut | programs/amm/src/models/pool.rs:647-677 | at the pool's own D a positive sale pays out a positive amount |
| StableSwapExact.SellingBackRestores | programs/amm/src/math/swap_equation.rs:24-127 | without fees selling the proceeds back restores the sold reserve exactly |
| StableSwapExact.ScalingKeepsBalance | programs/amm/src/math/swap_equation.rs:40-57 | scaling by powers of 1000 before and after does not change the balance |
| StableRootError.InputsMeaning | programs/amm/src/math/swap_equation.rs:40-57 | invariant, sum and product are scaled down by powers of one p = 1000^e, truncated |
| StableRootError.TermsError | programs/amm/src/math/swap_equation.rs:59-90 | over these inputs the quadratic and the linear term, sign included, are exact, and the constant one falls short by rounding |
| StableRootError.RootNearlySolves | programs/amm/src/math/swap_equation.rs:86-126 | the computed root never exceeds the quadratic's and nearly solves it |
| StableRootError.RootNearExact | programs/amm/src/math/swap_equation.rs:24-127 | it is at most the exact balance that keeps D for these inputs, and relatively as close as rounding is small beside the constant term |
| StableRootError.BalanceNearExact | programs/amm/src/math/swap_equation.rs:24-127 | so is the balance, truncated to 10^-18 and scaled back exactly |

## Left out

- Account validation, program-derived addresses, signer checks, serialisation, rent and account sizes: framework plumbing. Where an account's identity decides the outcome (mints, derived vaults) it is an argument.
- Creating farms, the checks on the vaults of a new pool, owner, whitelist, window, fee, discount and toll settings: each is settled by reading one branch.
- Transfers by the token program beyond owners, mints and balances: frozen accounts, delegates.
- The stake vault's address check and the clock's source: the clock is an argument that the state machine advances slot by slot.
- The internals of the decimal crate, in particular how it computes powers and square roots.
- ComputedNearExact: for reserves above 1000 tokens in all, the lower bound is relative to what truncation left of the scaled product; `ProductError` bounds that loss by the reserves, but for very unequal ones the bound is weak, because the code truncates each scaled reserve.
- RootNearExact: compares with the exact balance for the scaled-down, truncated inputs; `InputsMeaning` says how they were truncated.
- Which reserves run into a stall, other than by following the iteration, and the failures of the fixed-point computations that are overflows.
- Existence of the stable curve's root, for lack of completeness of Dafny's reals.
- RemoveHarvestHandler: does not model closing the vault account.
- CompoundAcrossFarmsHandler: in the state machine of one farm its two sides are two instructions, one for each farm.
- WindowEmissionCap: does not compare with emission before the oldest retained snapshot, because a period that ended there may have left the array.
- The build for development, in which the oldest harvest period is always overwritten.
- Command line tools, benchmarks, log output and the TypeScript tests.
