/** The instructions that concern one farmer, all brought to one form: the farmer settles some
    slots, gains no further shares, and the vaults follow the recorded balances. */
module FarmerMoves {
  import opened Results
  import opened FarmTypes
  import opened Periods
  import opened RingBuffer
  import opened Sweep
  import opened Settlement
  import opened Totals
  import opened Shares
  import opened Protocol
  import opened Solvency

  /** Clock, snapshot log and period arrays. */
  ghost predicate FarmInv(s: State) {
    && s.now <= U64_MAX
    && LogOk(s.log) && (s.log != [] ==> s.log[0].startedAt <= s.now)
    && s.vaults.Keys == s.harvests.Keys
    && DEFAULT_MINT !in s.harvests
    && forall m :: m in s.harvests ==> Scheduled(s.harvests[m], s.now)
  }

  ghost predicate FarmerInv(p: Position, s: State) {
    p.cursor <= s.reach && p.vestedAt <= s.now
  }

  /** What every run keeps: besides the farm's own state, the stake vault covers all deposits
      and nobody has settled slots from `reach` on. */
  ghost predicate Sound(s: State) {
    && FarmInv(s)
    && (forall p :: p in s.farmers ==> FarmerInv(p, s))
    && Total(s.farmers, DepositOf()) <= s.stakeVault as real
    && forall c :: c in s.ledger ==> c.to < s.reach && LogOk(c.log)
  }

  // ---- one farmer changes ----

  /** Farmer `i` becomes `q` after the settlements `cs`, and the vaults follow. The farmer gains
      no shares, the stake vault covers the deposit as before, and every harvest mint's tokens
      are conserved: what is recorded grows by what is credited minus what the vault pays. */
  ghost predicate Moves(s: State, i: nat, cs: seq<Charge>, q: Position, stakeVault: nat, vaults: map<Mint, nat>)
    requires FarmInv(s) && i < |s.farmers|
  {
    var p := s.farmers[i];
    && q.vestedAt <= s.now
    && (forall c :: c in cs ==> c.to < q.cursor && c.log == s.log && c.harvests == s.harvests)
    && (forall t: nat :: SettledShare(cs, t) + Unsettled(q, s.log, t) <= Unsettled(p, s.log, t))
    && q.staked + q.vested + s.stakeVault == p.staked + p.vested + stakeVault
    && vaults.Keys == s.harvests.Keys
    && (forall m :: m in s.harvests ==>
          Recorded(q.harvests, m) + s.vaults[m] == Recorded(p.harvests, m) + Credited(cs, m, 0, q.cursor) + vaults[m])
    && (forall m :: m !in s.harvests ==> Recorded(q.harvests, m) <= Recorded(p.harvests, m))
  }

  ghost function Moved(s: State, i: nat, cs: seq<Charge>, q: Position, stakeVault: nat, vaults: map<Mint, nat>): State
    requires i < |s.farmers|
  {
    s.(farmers := s.farmers[i := q], stakeVault := stakeVault, vaults := vaults,
       reach := Max(s.reach, q.cursor), ledger := s.ledger + cs)
  }

  /** Settling, at no cost to the vaults. */
  lemma SettleMoves(s: State, i: nat, current: nat)
    requires Sound(s) && i < |s.farmers| && Settle(s.farmers[i], View(s), current).Ok?
    ensures Moves(s, i, Charges(s.farmers[i], s.log, s.harvests, current),
                  Settle(s.farmers[i], View(s), current).value, s.stakeVault, s.vaults)
  {
    var p, q := s.farmers[i], Settle(s.farmers[i], View(s), current).value;
    var cs := Charges(p, s.log, s.harvests, current);
    assert FarmerInv(p, s);
    SettleFrame(p, View(s), current);
    ChargesEnd(p, s.log, s.harvests, current);
    hide Settle;
    hide Charges;
    forall t: nat
      ensures SettledShare(cs, t) + Unsettled(q, s.log, t) <= Unsettled(p, s.log, t)
    {
      SettleKeepsShares(p, s.log, s.harvests, current, t);
    }
    forall m | m in s.harvests
      ensures Recorded(q.harvests, m) == Recorded(p.harvests, m) + Credited(cs, m, 0, q.cursor)
    {
      SettleCreditsCharges(p, s.log, s.harvests, current, m, q.cursor);
    }
  }

  /** What settling leaves alone. */
  lemma SettleFrame(p: Position, farm: FarmView, current: nat)
    requires Settle(p, farm, current).Ok?
    ensures var q := Settle(p, farm, current).value;
            && q.staked + q.vested == p.staked + p.vested && q.vestedAt == p.vestedAt
            && forall m :: m !in farm.harvests ==> Recorded(q.harvests, m) <= Recorded(p.harvests, m)
  {
  }

  lemma StayMoves(s: State, i: nat)
    requires Sound(s) && i < |s.farmers|
    ensures Moves(s, i, [], s.farmers[i], s.stakeVault, s.vaults)
    ensures Max(s.reach, s.farmers[i].cursor) == s.reach
  {
    assert FarmerInv(s.farmers[i], s);
  }

  /** Then the deposit changes, with the stake vault. */
  lemma ThenStake(s: State, i: nat, cs: seq<Charge>, v: Position, vaults: map<Mint, nat>, q: Position, stakeVault: nat)
    requires FarmInv(s) && i < |s.farmers| && Moves(s, i, cs, v, s.stakeVault, vaults)
    requires SharesNoMore(v, q, s.log)
    requires q.cursor == v.cursor && q.harvests == v.harvests && q.vestedAt <= s.now
    requires q.staked + q.vested + s.stakeVault == v.staked + v.vested + stakeVault
    ensures Moves(s, i, cs, q, stakeVault, vaults)
  {
    hide Unsettled;
    hide SettledShare;
    hide Credited;
    forall t: nat
      ensures SettledShare(cs, t) + Unsettled(q, s.log, t) <= Unsettled(s.farmers[i], s.log, t)
    {
      assert Unsettled(q, s.log, t) <= Unsettled(v, s.log, t);
    }
  }

  lemma BalancesAreNoShares(p: Position, h: map<Mint, nat>, log: seq<Snapshot>)
    ensures forall t: nat :: Unsettled(p.(harvests := h), log, t) == Unsettled(p, log, t)
  {
  }

  /** Then the balance of mint `m0` changes, with its vault. */
  lemma ThenTransfer(s: State, i: nat, cs: seq<Charge>, v: Position, stakeVault: nat, vaults: map<Mint, nat>, m0: Mint,
                     balance: nat, vault: nat)
    requires FarmInv(s) && i < |s.farmers| && Moves(s, i, cs, v, stakeVault, vaults)
    requires m0 in s.harvests && balance + vaults[m0] == Recorded(v.harvests, m0) + vault
    ensures Moves(s, i, cs, v.(harvests := v.harvests[m0 := balance]), stakeVault, vaults[m0 := vault])
  {
    hide SettledShare;
    hide Credited;
    hide Unsettled;
    hide LogOk;
    hide Scheduled;
    BalancesAreNoShares(v, v.harvests[m0 := balance], s.log);
  }

  // ---- every instruction of a farmer is such a move ----

  lemma {:induction false} PayOutKeepsStake(p: Position, vaults: map<Mint, nat>, mints: seq<Mint>)
    requires PayOut(p, vaults, mints).Some?
    ensures var q := PayOut(p, vaults, mints).value.0;
            q == p.(harvests := q.harvests)
    decreases |mints|
  {
    if mints != [] {
      var m := mints[0];
      if Recorded(p.harvests, m) == 0 {
        PayOutKeepsStake(p, vaults, mints[1..]);
      } else {
        PayOutKeepsStake(p.(harvests := p.harvests[m := 0]), vaults[m := vaults[m] - p.harvests[m]], mints[1..]);
      }
    }
  }

  lemma MovesKeys(s: State, i: nat, cs: seq<Charge>, q: Position, stakeVault: nat, vaults: map<Mint, nat>)
    requires FarmInv(s) && i < |s.farmers| && Moves(s, i, cs, q, stakeVault, vaults)
    ensures vaults.Keys == s.harvests.Keys
  {
  }

  lemma {:induction false} PayOutMoves(s: State, i: nat, v: Position, vaults: map<Mint, nat>, mints: seq<Mint>)
    requires FarmInv(s) && i < |s.farmers| && Moves(s, i, [], v, s.stakeVault, vaults)
    requires PayOut(v, vaults, mints).Some?
    ensures var (q, vaults') := PayOut(v, vaults, mints).value;
            Moves(s, i, [], q, s.stakeVault, vaults')
    decreases |mints|
  {
    hide Moves;
    hide FarmInv;
    MovesKeys(s, i, [], v, s.stakeVault, vaults);
    if mints != [] {
      var m := mints[0];
      if Recorded(v.harvests, m) == 0 {
        PayOutMoves(s, i, v, vaults, mints[1..]);
      } else {
        ThenTransfer(s, i, [], v, s.stakeVault, vaults, m, 0, vaults[m] - v.harvests[m]);
        PayOutMoves(s, i, v.(harvests := v.harvests[m := 0]), vaults[m := vaults[m] - v.harvests[m]], mints[1..]);
      }
    }
  }

  lemma StartFarmingMoves(s: State, i: nat, tokens: nat)
    returns (cs: seq<Charge>, q: Position, stakeVault: nat, vaults: map<Mint, nat>)
    requires Sound(s) && DoStartFarming(s, i, tokens).Some?
    ensures i < |s.farmers| && Moves(s, i, cs, q, stakeVault, vaults)
    ensures DoStartFarming(s, i, tokens).value == Moved(s, i, cs, q, stakeVault, vaults)
  {
    hide Settle;
    hide Moves;
    var v := Settle(s.farmers[i], View(s), s.now).value;
    cs, q := Charges(s.farmers[i], s.log, s.harvests, s.now), AddToVested(v, s.now, tokens).value;
    stakeVault, vaults := s.stakeVault + tokens, s.vaults;
    SettleMoves(s, i, s.now);
    DepositKeepsShares(v, s.log, s.now, tokens);
    ThenStake(s, i, cs, v, vaults, q, stakeVault);
  }

  lemma StopFarmingMoves(s: State, i: nat, max: nat)
    returns (cs: seq<Charge>, q: Position, stakeVault: nat, vaults: map<Mint, nat>)
    requires Sound(s) && DoStopFarming(s, i, max).Some?
    ensures i < |s.farmers| && Moves(s, i, cs, q, stakeVault, vaults)
    ensures DoStopFarming(s, i, max).value == Moved(s, i, cs, q, stakeVault, vaults)
  {
    hide Settle;
    hide SharesNoMore;
    var v := Settle(s.farmers[i], View(s), s.now).value;
    cs, q := Charges(s.farmers[i], s.log, s.harvests, s.now), Unstake(v, max).value.0;
    stakeVault, vaults := s.stakeVault - Unstake(v, max).value.1, s.vaults;
    SettleMoves(s, i, s.now);
    UnstakeKeepsShares(v, s.log, max);
    ThenStake(s, i, cs, v, vaults, q, stakeVault);
  }

  lemma UpdateMoves(s: State, i: nat, until: nat)
    returns (cs: seq<Charge>, q: Position, stakeVault: nat, vaults: map<Mint, nat>)
    requires Sound(s) && DoUpdate(s, i, until).Some?
    ensures i < |s.farmers| && Moves(s, i, cs, q, stakeVault, vaults)
    ensures DoUpdate(s, i, until).value == Moved(s, i, cs, q, stakeVault, vaults)
  {
    hide Settle;
    hide Moves;
    cs, q := Charges(s.farmers[i], s.log, s.harvests, until), Settle(s.farmers[i], View(s), until).value;
    stakeVault, vaults := s.stakeVault, s.vaults;
    SettleMoves(s, i, until);
  }

  lemma ClaimMoves(s: State, i: nat, mints: seq<Mint>)
    returns (cs: seq<Charge>, q: Position, stakeVault: nat, vaults: map<Mint, nat>)
    requires Sound(s) && DoClaim(s, i, mints).Some?
    ensures i < |s.farmers| && Moves(s, i, cs, q, stakeVault, vaults)
    ensures DoClaim(s, i, mints).value == Moved(s, i, cs, q, stakeVault, vaults)
  {
    hide Moves;
    hide PayOut;
    cs, stakeVault := [], s.stakeVault;
    q, vaults := PayOut(s.farmers[i], s.vaults, mints).value.0, PayOut(s.farmers[i], s.vaults, mints).value.1;
    StayMoves(s, i);
    PayOutMoves(s, i, s.farmers[i], s.vaults, mints);
    PayOutKeepsStake(s.farmers[i], s.vaults, mints);
    assert s.ledger + [] == s.ledger;
  }

  lemma CompoundSameMoves(s: State, i: nat)
    returns (cs: seq<Charge>, q: Position, stakeVault: nat, vaults: map<Mint, nat>)
    requires Sound(s) && DoCompoundSame(s, i).Some?
    ensures i < |s.farmers| && Moves(s, i, cs, q, stakeVault, vaults)
    ensures DoCompoundSame(s, i).value == Moved(s, i, cs, q, stakeVault, vaults)
  {
    hide Settle;
    hide Moves;
    hide SharesNoMore;
    var v := Settle(s.farmers[i], View(s), s.now).value;
    var (c, tokens) := ClaimHarvest(v, s.stakeMint).value;
    var vault := s.vaults[s.stakeMint] - tokens;
    cs, q := Charges(s.farmers[i], s.log, s.harvests, s.now), AddToVested(c, s.now, tokens).value;
    stakeVault, vaults := s.stakeVault + tokens, s.vaults[s.stakeMint := vault];
    SettleMoves(s, i, s.now);
    ThenTransfer(s, i, cs, v, s.stakeVault, s.vaults, s.stakeMint, 0, vault);
    DepositKeepsShares(c, s.log, s.now, tokens);
    ThenStake(s, i, cs, c, vaults, q, stakeVault);
  }

  lemma CompoundOutMoves(s: State, i: nat, m: Mint)
    returns (cs: seq<Charge>, q: Position, stakeVault: nat, vaults: map<Mint, nat>)
    requires Sound(s) && DoCompoundOut(s, i, m).Some?
    ensures i < |s.farmers| && Moves(s, i, cs, q, stakeVault, vaults)
    ensures DoCompoundOut(s, i, m).value == Moved(s, i, cs, q, stakeVault, vaults)
  {
    hide Settle;
    hide Moves;
    var v := Settle(s.farmers[i], View(s), s.now).value;
    var vault := s.vaults[m] - v.harvests[m];
    cs, q := Charges(s.farmers[i], s.log, s.harvests, s.now), ClaimHarvest(v, m).value.0;
    stakeVault, vaults := s.stakeVault, s.vaults[m := vault];
    SettleMoves(s, i, s.now);
    ThenTransfer(s, i, cs, v, s.stakeVault, s.vaults, m, 0, vault);
  }

  lemma CompoundInMoves(s: State, i: nat, tokens: nat)
    returns (cs: seq<Charge>, q: Position, stakeVault: nat, vaults: map<Mint, nat>)
    requires Sound(s) && DoCompoundIn(s, i, tokens).Some?
    ensures i < |s.farmers| && Moves(s, i, cs, q, stakeVault, vaults)
    ensures DoCompoundIn(s, i, tokens).value == Moved(s, i, cs, q, stakeVault, vaults)
  {
    hide Moves;
    hide SharesNoMore;
    cs, q := [], AddToVested(s.farmers[i], s.now, tokens).value;
    stakeVault, vaults := s.stakeVault + tokens, s.vaults;
    StayMoves(s, i);
    DepositKeepsShares(s.farmers[i], s.log, s.now, tokens);
    ThenStake(s, i, cs, s.farmers[i], vaults, q, stakeVault);
    assert s.ledger + [] == s.ledger;
  }

  lemma AirdropMoves(s: State, i: nat, m: Mint, tokens: nat)
    returns (cs: seq<Charge>, q: Position, stakeVault: nat, vaults: map<Mint, nat>)
    requires Sound(s) && DoAirdrop(s, i, m, tokens).Some?
    ensures i < |s.farmers| && Moves(s, i, cs, q, stakeVault, vaults)
    ensures DoAirdrop(s, i, m, tokens).value == Moved(s, i, cs, q, stakeVault, vaults)
  {
    hide Moves;
    var p := s.farmers[i];
    var balance := p.harvests[m] + tokens;
    cs, q := [], p.(harvests := p.harvests[m := balance]);
    stakeVault, vaults := s.stakeVault, s.vaults[m := s.vaults[m] + tokens];
    StayMoves(s, i);
    ThenTransfer(s, i, cs, p, s.stakeVault, s.vaults, m, balance, s.vaults[m] + tokens);
    assert s.ledger + [] == s.ledger;
  }

  /** The instructions that change one farmer and leave the farm itself alone. */
  predicate OfFarmer(op: Op) {
    || op.StartFarming? || op.StopFarming? || op.UpdateEligibleHarvest? || op.ClaimEligibleHarvest?
    || op.CompoundSameFarm? || op.CompoundToOtherFarm? || op.CompoundFromOtherFarm? || op.Airdrop?
  }

  lemma FarmerOpMoves(s: State, op: Op)
    returns (cs: seq<Charge>, q: Position, stakeVault: nat, vaults: map<Mint, nat>)
    requires Sound(s) && OfFarmer(op) && Try(s, op).Some?
    ensures op.farmer < |s.farmers| && Moves(s, op.farmer, cs, q, stakeVault, vaults)
    ensures Try(s, op).value == Moved(s, op.farmer, cs, q, stakeVault, vaults)
  {
    hide Sound;
    hide Moves;
    match op
    case StartFarming(i, tokens) => cs, q, stakeVault, vaults := StartFarmingMoves(s, i, tokens);
    case StopFarming(i, max) => cs, q, stakeVault, vaults := StopFarmingMoves(s, i, max);
    case UpdateEligibleHarvest(i, until) => cs, q, stakeVault, vaults := UpdateMoves(s, i, until);
    case ClaimEligibleHarvest(i, mints) => cs, q, stakeVault, vaults := ClaimMoves(s, i, mints);
    case CompoundSameFarm(i) => cs, q, stakeVault, vaults := CompoundSameMoves(s, i);
    case CompoundToOtherFarm(i, m) => cs, q, stakeVault, vaults := CompoundOutMoves(s, i, m);
    case CompoundFromOtherFarm(i, tokens) => cs, q, stakeVault, vaults := CompoundInMoves(s, i, tokens);
    case Airdrop(i, m, tokens) => cs, q, stakeVault, vaults := AirdropMoves(s, i, m, tokens);
  }
}
