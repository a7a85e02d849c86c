/** The instruction handlers: each updates the accounts in place, moves tokens between token
    accounts, and performs a step of the protocol, so that what is proved about all runs of the
    state machine holds for the accounts. After an error the runtime restores every account, so
    a failing call promises nothing about their contents. */
module Endpoints {
  import opened Results
  import opened Tokens
  import opened FarmTypes
  import opened Periods
  import opened RingBuffer
  import opened Sweep
  import opened Settlement
  import opened Farms
  import opened Farmers
  import opened Protocol

  /** A state of the protocol shows this farm at this slot. */
  ghost predicate DepictsFarm(s: State, farm: Farm, clock: nat)
    reads farm, farm.harvests, farm.ringBuffer
  {
    && farm.Valid() && s.log == farm.log && s.harvests == farm.View().harvests
    && s.minWindow == farm.minSnapshotWindowSlots && s.stakeMint == farm.stakeMint && s.now == clock <= U64_MAX
  }

  /** And this farmer at position `i`. */
  ghost predicate Depicts(s: State, farm: Farm, clock: nat, farmer: Farmer, i: nat)
    reads farm, farm.harvests, farm.ringBuffer, farmer, farmer.harvests
  {
    DepictsFarm(s, farm, clock) && farmer.Valid() && i < |s.farmers| && s.farmers[i] == farmer.View()
  }

  /** The vault of mint `m`. */
  ghost predicate DepictsVault(s: State, m: Mint, vault: TokenAccount)
    reads vault
  {
    m in s.vaults && s.vaults[m] == vault.amount
  }

  lemma ShownFarm(s: State, farm: Farm, clock: nat)
    requires DepictsFarm(s, farm, clock)
    ensures farm.Valid() && View(s) == farm.View() && s.now == clock <= U64_MAX && s.stakeMint == farm.stakeMint
  {
  }

  // ---- the farm ----

  method TakeSnapshotHandler(farm: Farm, stakeVault: TokenAccount, clock: nat, ghost s: State) returns (r: Result<()>)
    requires DepictsFarm(s, farm, clock) && s.stakeVault == stakeVault.amount <= U64_MAX
    modifies farm, farm.ringBuffer
    ensures r.Ok? <==> Try(s, TakeSnapshot).Some?
    ensures r.Ok? ==> DepictsFarm(Try(s, TakeSnapshot).value, farm, clock)
  {
    hide HarvestTable;
    r := farm.TakeSnapshot(clock, stakeVault.amount);
  }

  /** Schedules emission. The vault gains the new period's total from the admin's wallet, or
      pays the difference back if it overwrites a larger launch. A refund into the vault itself
      stays there, like a donation after the step. */
  method NewHarvestPeriodHandler(farm: Farm, admin: Key, wallet: TokenAccount, vault: TokenAccount, mint: Mint,
                                 clock: nat, startsAt: nat, slots: nat, tps: nat, ghost s: State)
    returns (r: Result<()>)
    requires DepictsFarm(s, farm, clock) && mint != DEFAULT_MINT && tps <= U64_MAX
    requires mint in s.harvests ==> DepictsVault(s, mint, vault) && Scheduled(s.harvests[mint], clock)
    requires vault.amount <= U64_MAX && admin != vault.owner
    modifies farm.harvests, wallet, vault
    ensures var op := NewHarvestPeriod(mint, startsAt, slots, tps);
            r.Ok? <==>
            && Try(s, op).Some? && mint in s.vaults && mint in Try(s, op).value.vaults
            && var a, b := s.vaults[mint], Try(s, op).value.vaults[mint];
            && (a < b ==> old(CanSend(wallet, vault, b - a, admin)))
            && (b < a ==> wallet.mint == vault.mint && old(HasRoom(vault, wallet, a - b)))
    ensures r.Ok? ==>
              var s' := Try(s, NewHarvestPeriod(mint, startsAt, slots, tps)).value;
              && DepictsFarm(s', farm, clock)
              && if wallet == vault then vault.amount == s.vaults[mint] >= s'.vaults[mint]
                 else DepictsVault(s', mint, vault) && wallet.amount + vault.amount == old(wallet.amount + vault.amount)
  {
    hide NewPeriod;
    hide Scheduled;
    hide OldestSlot;
    hide HarvestTable;
    hide TotalEmitted;
    hide IsRing;
    hide HarvestsOk;
    hide Retained;
    var period := RequestedPeriod(clock, startsAt, slots, tps);
    if period.Err? {
      return Err(period.error);
    }
    var scheduled := farm.NewHarvestPeriod(clock, mint, period.value);
    if scheduled.Err? {
      return Err(scheduled.error);
    }
    var total := TotalEmitted(period.value);
    if total.Err? {
      return Err(total.error);
    }
    var deposited := if scheduled.value.None? then Ok(0) else TotalEmitted(scheduled.value.value);
    if deposited.Err? {
      return Err(deposited.error);
    }
    if total.value == deposited.value {
      return Ok(());
    }
    if total.value < deposited.value {
      r := Transfer(vault, wallet, deposited.value - total.value, vault.owner);
    } else {
      r := Transfer(wallet, vault, total.value - deposited.value, admin);
    }
  }

  /** A harvest mint can be removed only once its vault is empty. */
  method RemoveHarvestHandler(farm: Farm, mint: Mint, vault: TokenAccount, clock: nat, ghost s: State)
    returns (r: Result<()>)
    requires DepictsFarm(s, farm, clock) && mint != DEFAULT_MINT
    requires if mint in s.harvests then DepictsVault(s, mint, vault) else mint !in s.vaults
    modifies farm.harvests
    ensures r.Ok? <==> Try(s, RemoveHarvest(mint)).Some?
    ensures r.Ok? ==> DepictsFarm(Try(s, RemoveHarvest(mint)).value, farm, clock)
  {
    hide HarvestTable;
    if vault.amount != 0 {
      return Err(InvalidAccount);
    }
    r := farm.RemoveHarvest(mint);
  }

  // ---- one farmer ----

  method StartFarmingHandler(farmer: Farmer, farm: Farm, owner: Key, wallet: TokenAccount, stakeVault: TokenAccount,
                             clock: nat, stake: nat, ghost s: State, ghost i: nat)
    returns (r: Result<()>)
    requires Depicts(s, farm, clock, farmer, i) && s.stakeVault == stakeVault.amount && owner != stakeVault.owner
    modifies farmer, farmer.harvests, wallet, stakeVault
    ensures r.Ok? <==> Try(s, StartFarming(i, stake)).Some? && old(CanSend(wallet, stakeVault, stake, owner))
    ensures r.Ok? ==>
              var s' := Try(s, StartFarming(i, stake)).value;
              && Depicts(s', farm, clock, farmer, i) && s'.stakeVault == stakeVault.amount
              && wallet.amount == old(wallet.amount) - stake
  {
    hide Settle;
    hide TokensByMint;
    if stake == 0 {
      return Err(InvalidArg);
    }
    r := farmer.CheckVestedPeriodAndUpdateHarvest(farm, clock);
    if r.Err? {
      return;
    }
    r := farmer.AddToVestedTokens(clock, stake);
    if r.Err? {
      return;
    }
    r := Transfer(wallet, stakeVault, stake, owner);
  }

  /** Tokens unstaked into the stake vault itself stay there, like a donation after the step. */
  method StopFarmingHandler(farmer: Farmer, farm: Farm, wallet: TokenAccount, stakeVault: TokenAccount, clock: nat,
                            unstakeMax: nat, ghost s: State, ghost i: nat)
    returns (r: Result<()>)
    requires Depicts(s, farm, clock, farmer, i) && s.stakeVault == stakeVault.amount
    modifies farmer, farmer.harvests, wallet, stakeVault
    ensures var s' := Try(s, StopFarming(i, unstakeMax));
            r.Ok? <==>
            && s'.Some? && wallet.mint == stakeVault.mint && s'.value.stakeVault <= s.stakeVault
            && old(HasRoom(stakeVault, wallet, s.stakeVault - s'.value.stakeVault))
    ensures r.Ok? ==>
              var s' := Try(s, StopFarming(i, unstakeMax)).value;
              && Depicts(s', farm, clock, farmer, i)
              && if wallet == stakeVault then stakeVault.amount == s.stakeVault
                 else stakeVault.amount == s'.stakeVault
                      && wallet.amount + s'.stakeVault == old(wallet.amount) + s.stakeVault
  {
    hide Settle;
    hide TokensByMint;
    hide IsRing;
    if unstakeMax == 0 {
      return Err(InvalidArg);
    }
    r := farmer.CheckVestedPeriodAndUpdateHarvest(farm, clock);
    if r.Err? {
      return;
    }
    var unstake := farmer.UnstakeTokens(unstakeMax);
    if unstake.Err? {
      return Err(unstake.error);
    }
    r := Transfer(stakeVault, wallet, unstake.value, stakeVault.owner);
  }

  /** Anybody may call this for any farmer, with any `until`. */
  method UpdateEligibleHarvestHandler(farmer: Farmer, farm: Farm, until: nat, ghost s: State, ghost i: nat,
                                      ghost clock: nat)
    returns (r: Result<()>)
    requires Depicts(s, farm, clock, farmer, i) && until <= U64_MAX
    modifies farmer, farmer.harvests
    ensures r.Ok? <==> Try(s, UpdateEligibleHarvest(i, until)).Some?
    ensures r.Ok? ==> Depicts(Try(s, UpdateEligibleHarvest(i, until)).value, farm, clock, farmer, i)
  {
    hide Settle;
    hide TokensByMint;
    r := farmer.CheckVestedPeriodAndUpdateHarvest(farm, until);
  }

  /** Settles a farmer and takes the whole balance of one mint. */
  method SettleAndClaim(farmer: Farmer, farm: Farm, mint: Mint, clock: nat) returns (r: Result<nat>)
    requires farmer.Valid() && farm.Valid() && clock <= U64_MAX && mint != DEFAULT_MINT
    modifies farmer, farmer.harvests
    ensures farmer.Valid() && farmer.harvests == old(farmer.harvests)
    ensures var settled := Settle(old(farmer.View()), farm.View(), clock);
            && (r.Ok? <==> settled.Ok? && ClaimHarvest(settled.value, mint).Ok?)
            && (r.Ok? ==> ClaimHarvest(settled.value, mint) == Ok((farmer.View(), r.value)))
  {
    hide Settle;
    hide TokensByMint;
    var settled := farmer.CheckVestedPeriodAndUpdateHarvest(farm, clock);
    if settled.Err? {
      return Err(settled.error);
    }
    r := farmer.ClaimHarvestTokens(mint);
  }

  /** Compounding in one farm: the harvest of the stake mint moves from the harvest vault to
      the stake vault and becomes a fresh vesting deposit. */
  method CompoundSameFarmHandler(farmer: Farmer, farm: Farm, harvestVault: TokenAccount, stakeVault: TokenAccount,
                                 clock: nat, ghost s: State, ghost i: nat)
    returns (r: Result<()>)
    requires Depicts(s, farm, clock, farmer, i) && s.stakeVault == stakeVault.amount
    requires DepictsVault(s, s.stakeMint, harvestVault)
    requires harvestVault != stakeVault && farm.stakeMint != DEFAULT_MINT
    modifies farmer, farmer.harvests, harvestVault, stakeVault
    ensures r.Ok? <==> Try(s, CompoundSameFarm(i)).Some? && harvestVault.mint == stakeVault.mint
    ensures r.Ok? ==>
              var s' := Try(s, CompoundSameFarm(i)).value;
              && Depicts(s', farm, clock, farmer, i) && s'.stakeVault == stakeVault.amount
              && DepictsVault(s', s.stakeMint, harvestVault)
  {
    hide Settle;
    hide TokensByMint;
    var compound := SettleAndClaim(farmer, farm, farm.stakeMint, clock);
    if compound.Err? {
      return Err(compound.error);
    }
    r := farmer.AddToVestedTokens(clock, compound.value);
    if r.Err? {
      return;
    }
    r := Transfer(harvestVault, stakeVault, compound.value, harvestVault.owner);
  }

  /** An airdrop raises a farmer's balance and the vault behind it by the same amount. */
  method AirdropHandler(farmer: Farmer, farm: Farm, owner: Key, wallet: TokenAccount, harvestVault: TokenAccount,
                        airdrop: nat, ghost s: State, ghost i: nat, ghost clock: nat)
    returns (r: Result<()>)
    requires Depicts(s, farm, clock, farmer, i) && DepictsVault(s, wallet.mint, harvestVault)
    requires owner != harvestVault.owner && wallet.mint != DEFAULT_MINT
    modifies farmer.harvests, wallet, harvestVault
    ensures r.Ok? <==>
            && Try(s, Airdrop(i, wallet.mint, airdrop)).Some?
            && old(CanSend(wallet, harvestVault, airdrop, owner))
    ensures r.Ok? ==>
              var s' := Try(s, Airdrop(i, wallet.mint, airdrop)).value;
              && Depicts(s', farm, clock, farmer, i) && DepictsVault(s', wallet.mint, harvestVault)
              && wallet.amount == old(wallet.amount) - airdrop
  {
    hide TokensByMint;
    if airdrop == 0 {
      return Err(InvalidArg);
    }
    r := farmer.AddHarvestTokens(wallet.mint, airdrop);
    if r.Err? {
      return;
    }
    r := Transfer(wallet, harvestVault, airdrop, owner);
  }

  /** Compounding across farms: one instruction, one step in each of the two farms with the same
      tokens. The target farmer receives a deposit without being settled. */
  method CompoundAcrossFarmsHandler(sourceFarmer: Farmer, targetFarmer: Farmer, sourceFarm: Farm, targetFarm: Farm,
                                    sourceHarvestVault: TokenAccount, targetStakeVault: TokenAccount, clock: nat,
                                    ghost source: State, ghost i: nat, ghost target: State, ghost j: nat)
    returns (r: Result<()>)
    requires Depicts(source, sourceFarm, clock, sourceFarmer, i)
    requires Depicts(target, targetFarm, clock, targetFarmer, j) && target.stakeVault == targetStakeVault.amount
    requires DepictsVault(source, target.stakeMint, sourceHarvestVault)
    requires sourceFarmer != targetFarmer && sourceFarmer.harvests != targetFarmer.harvests
    requires sourceHarvestVault != targetStakeVault && targetFarm.stakeMint != DEFAULT_MINT
    modifies sourceFarmer, sourceFarmer.harvests, targetFarmer, sourceHarvestVault, targetStakeVault
    ensures var out := Try(source, CompoundToOtherFarm(i, target.stakeMint));
            r.Ok? <==>
            && out.Some? && Try(target, CompoundFromOtherFarm(j, Paid(source, out.value, target.stakeMint))).Some?
            && sourceHarvestVault.mint == targetStakeVault.mint
    ensures r.Ok? ==>
              && var out := Try(source, CompoundToOtherFarm(i, target.stakeMint)).value;
              && var into := Try(target, CompoundFromOtherFarm(j, Paid(source, out, target.stakeMint))).value;
              && Depicts(out, sourceFarm, clock, sourceFarmer, i)
              && DepictsVault(out, target.stakeMint, sourceHarvestVault)
              && Depicts(into, targetFarm, clock, targetFarmer, j) && into.stakeVault == targetStakeVault.amount
  {
    hide Settle;
    hide TokensByMint;
    hide HarvestTable;
    hide ClaimHarvest;
    hide AddToVested;
    hide Try;
    hide Paid;
    hide HarvestsOk;
    hide LogOk;
    hide IsRing;
    hide SameFarmState;
    hide DepictsFarm;
    ShownFarm(source, sourceFarm, clock);
    ShownFarm(target, targetFarm, clock);
    var mint := targetFarm.stakeMint;
    CompoundOutStep(source, i, mint);
    var compound := SettleAndClaim(sourceFarmer, sourceFarm, mint, clock);
    if compound.Err? {
      return Err(compound.error);
    }
    CompoundInStep(target, j, compound.value);
    r := targetFarmer.AddToVestedTokens(clock, compound.value);
    if r.Err? {
      return;
    }
    r := Transfer(sourceHarvestVault, targetStakeVault, compound.value, sourceHarvestVault.owner);
    if r.Ok? {
      SameFarm(source, Try(source, CompoundToOtherFarm(i, mint)).value, sourceFarm, clock);
      SameFarm(target, Try(target, CompoundFromOtherFarm(j, compound.value)).value, targetFarm, clock);
    }
  }

  /** What a step takes out of the vault of mint `m`. */
  function Paid(s: State, s': State, m: Mint): nat {
    if m in s.vaults && m in s'.vaults && s'.vaults[m] <= s.vaults[m] then s.vaults[m] - s'.vaults[m] else 0
  }

  predicate SameFarmState(s: State, s': State) {
    && s'.log == s.log && s'.harvests == s.harvests
    && s'.minWindow == s.minWindow && s'.stakeMint == s.stakeMint && s'.now == s.now
  }

  lemma SameFarm(s: State, s': State, farm: Farm, clock: nat)
    requires DepictsFarm(s, farm, clock) && SameFarmState(s, s')
    ensures DepictsFarm(s', farm, clock)
  {
  }

  /** When this farm's side of the instruction goes through, and what it pays. */
  lemma CompoundOutStep(s: State, i: nat, m: Mint)
    requires i < |s.farmers| && m in s.vaults
    ensures var settled, step := Settle(s.farmers[i], View(s), s.now), Try(s, CompoundToOtherFarm(i, m));
            if settled.Err? || ClaimHarvest(settled.value, m).Err? then step.None?
            else
              var (q, tokens) := ClaimHarvest(settled.value, m).value;
              && (step.Some? <==> tokens <= s.vaults[m])
              && (step.Some? ==>
                    && SameFarmState(s, step.value) && |step.value.farmers| == |s.farmers| && step.value.farmers[i] == q
                    && step.value.vaults == s.vaults[m := s.vaults[m] - tokens] && Paid(s, step.value, m) == tokens)
  {
  }

  lemma CompoundInStep(s: State, j: nat, tokens: nat)
    requires j < |s.farmers|
    ensures var vested, step := AddToVested(s.farmers[j], s.now, tokens), Try(s, CompoundFromOtherFarm(j, tokens));
            && (step.Some? <==> vested.Ok? && s.stakeVault + tokens <= U64_MAX)
            && (step.Some? ==>
                  && SameFarmState(s, step.value) && |step.value.farmers| == |s.farmers|
                  && step.value.farmers[j] == vested.value && step.value.stakeVault == s.stakeVault + tokens)
  {
  }

  // ---- claiming ----

  /** A vault the farmer claims from and the wallet the tokens go to. */
  datatype HarvestAccounts = HarvestAccounts(vault: TokenAccount, wallet: TokenAccount)

  function MintsOf(pairs: seq<HarvestAccounts>): (ms: seq<Mint>)
    ensures |ms| == |pairs| && forall i :: 0 <= i < |pairs| ==> ms[i] == pairs[i].vault.mint
  {
    if pairs == [] then [] else [pairs[0].vault.mint] + MintsOf(pairs[1..])
  }

  /** The farm's harvest vaults, each under its own mint. */
  ghost predicate VaultsOk(vaults: map<Mint, TokenAccount>) {
    DEFAULT_MINT !in vaults && forall m :: m in vaults ==> vaults[m].mint == m
  }

  /** The balances of the farm's harvest vaults. */
  ghost function Balances(vaults: map<Mint, TokenAccount>): map<Mint, nat>
    reads vaults.Values
  {
    map m | m in vaults :: vaults[m].amount
  }

  /** The pair names the farm's vault and an account that can take everything due. */
  ghost predicate Payable(pair: HarvestAccounts, vaults: map<Mint, TokenAccount>, h: map<Mint, nat>)
    reads pair.wallet
  {
    && pair.vault.mint in vaults && vaults[pair.vault.mint] == pair.vault && pair.wallet.mint == pair.vault.mint
    && HasRoom(pair.vault, pair.wallet, Recorded(h, pair.vault.mint))
  }

  /** One pair: pays what is due in the vault's mint, if anything, and notes it as paid. Tokens
      sent from the vault to itself stay there. */
  method PayPair(pair: HarvestAccounts, vaults: map<Mint, TokenAccount>, h: map<Mint, nat>)
    returns (r: Result<map<Mint, nat>>)
    requires VaultsOk(vaults)
    modifies vaults.Values, pair.wallet
    ensures old(Payable(pair, vaults, h)) ==>
              && pair.vault.mint in old(Balances(vaults))
              && (Recorded(h, pair.vault.mint) <= old(Balances(vaults))[pair.vault.mint] ==> r.Ok?)
    ensures r.Ok? ==>
              var m := pair.vault.mint;
              && m in vaults && vaults[m] == pair.vault && m in old(Balances(vaults))
              && if Recorded(h, m) == 0 then r.value == h && Balances(vaults) == old(Balances(vaults))
                 else
                   && h[m] <= old(Balances(vaults))[m]
                   && r.value == h[m := 0]
                   && Balances(vaults) == if pair.wallet == pair.vault then old(Balances(vaults))
                                          else old(Balances(vaults))[m := old(Balances(vaults))[m] - h[m]]
    ensures r.Ok? ==> forall m :: Recorded(r.value, m) <= Recorded(h, m)
    ensures r.Ok? ==> forall w :: w in vaults.Values || w == pair.wallet ==>
                        w.amount + Recorded(r.value, w.mint) <= old(w.amount) + Recorded(h, w.mint)
  {
    var mint := pair.vault.mint;
    if mint !in vaults || vaults[mint] != pair.vault {
      return Err(InvalidAccount);
    }
    if mint in h && h[mint] > 0 {
      assert pair.vault in vaults.Values;
      var paid := Transfer(pair.vault, pair.wallet, h[mint], pair.vault.owner);
      if paid.Err? {
        return Err(paid.error);
      }
      return Ok(h[mint := 0]);
    }
    r := Ok(h);
  }

  /** What the vaults hold against what the protocol's claim leaves in them: the same, except
      that a vault named as its own receiver still has what it paid, like a donation. */
  ghost predicate Returned(pairs: seq<HarvestAccounts>, vaults: map<Mint, TokenAccount>, h: map<Mint, nat>,
                           drained: map<Mint, nat>, balances: map<Mint, nat>) {
    && drained.Keys == balances.Keys == vaults.Keys
    && forall m :: m in vaults ==>
         || balances[m] == drained[m]
         || (balances[m] == drained[m] + Recorded(h, m) && exists i :: 0 <= i < |pairs| && pairs[i].wallet == vaults[m])
  }

  /** Balances not paid out yet are recorded as at first, and their vaults are untouched. */
  ghost predicate Untouched(vaults: map<Mint, TokenAccount>, h0: map<Mint, nat>, h: map<Mint, nat>,
                            drained: map<Mint, nat>, balances: map<Mint, nat>)
  {
    forall m :: m in vaults && m in drained && m in balances && Recorded(h, m) > 0 ==>
      balances[m] == drained[m] && Recorded(h, m) == Recorded(h0, m)
  }

  /** What the protocol's claim does to the vault balances for one pair. */
  ghost function Drained(drained: map<Mint, nat>, h: map<Mint, nat>, m: Mint): map<Mint, nat> {
    if m in drained && 0 < Recorded(h, m) <= drained[m] then drained[m := drained[m] - Recorded(h, m)] else drained
  }

  lemma PairKeepsReturned(pairs: seq<HarvestAccounts>, k: nat, vaults: map<Mint, TokenAccount>, h0: map<Mint, nat>,
                          h: map<Mint, nat>, h': map<Mint, nat>, drained: map<Mint, nat>, before: map<Mint, nat>,
                          after: map<Mint, nat>)
    requires k < |pairs| && Returned(pairs, vaults, h0, drained, before) && Untouched(vaults, h0, h, drained, before)
    requires var m := pairs[k].vault.mint;
             && m in vaults && vaults[m] == pairs[k].vault
             && if Recorded(h, m) == 0 then h' == h && after == before
                else
                  && h[m] <= before[m] && h' == h[m := 0]
                  && after == if pairs[k].wallet == pairs[k].vault then before else before[m := before[m] - h[m]]
    ensures Returned(pairs, vaults, h0, Drained(drained, h, pairs[k].vault.mint), after)
    ensures Untouched(vaults, h0, h', Drained(drained, h, pairs[k].vault.mint), after)
  {
  }

  /** One turn of the loop over the pairs is one step of the protocol's `PayOut`. */
  method PayNext(pairs: seq<HarvestAccounts>, k: nat, vaults: map<Mint, TokenAccount>, h: map<Mint, nat>,
                 ghost h0: map<Mint, nat>, ghost drained: map<Mint, nat>, ghost p: Position)
    returns (r: Result<map<Mint, nat>>, ghost drained': map<Mint, nat>)
    requires k < |pairs| && VaultsOk(vaults) && Fits(h)
    requires Returned(pairs, vaults, h0, drained, Balances(vaults))
    requires Untouched(vaults, h0, h, drained, Balances(vaults))
    modifies vaults.Values, pairs[k].wallet
    ensures r.Ok? ==>
              && Fits(r.value) && r.value.Keys == h.Keys
              && PayOut(p.(harvests := h - {DEFAULT_MINT}), drained, MintsOf(pairs)[k..])
                 == PayOut(p.(harvests := r.value - {DEFAULT_MINT}), drained', MintsOf(pairs)[k + 1..])
              && Returned(pairs, vaults, h0, drained', Balances(vaults))
              && Untouched(vaults, h0, r.value, drained', Balances(vaults))
    ensures r.Err? && old(Payable(pairs[k], vaults, h)) ==>
              PayOut(p.(harvests := h - {DEFAULT_MINT}), drained, MintsOf(pairs)[k..]).None?
    ensures r.Ok? ==> forall m :: Recorded(r.value, m) <= Recorded(h, m)
    ensures r.Ok? ==> forall w :: w in vaults.Values || w == pairs[k].wallet ==>
                        w.amount + Recorded(r.value, w.mint) <= old(w.amount) + Recorded(h, w.mint)
  {
    hide Balances;
    hide PayOut;
    hide Recorded;
    hide MintsOf;
    hide Fits;
    hide Returned;
    hide Untouched;
    hide Drained;
    var m := pairs[k].vault.mint;
    ghost var before := Balances(vaults);
    drained' := Drained(drained, h, m);
    assert MintsOf(pairs)[k..][1..] == MintsOf(pairs)[k + 1..];
    ReturnedKeys(pairs, vaults, h0, drained, before);
    r := PayPair(pairs[k], vaults, h);
    if r.Ok? {
      UntouchedVault(vaults, h0, h, drained, before, m);
      PairKeepsReturned(pairs, k, vaults, h0, h, r.value, drained, before, Balances(vaults));
      PayOutStep(p, h, drained, MintsOf(pairs)[k..], r.value);
    } else if old(Payable(pairs[k], vaults, h)) {
      UntouchedVault(vaults, h0, h, drained, before, m);
      PayOutRefused(p, h, drained, MintsOf(pairs)[k..]);
    }
  }

  lemma ReturnedKeys(pairs: seq<HarvestAccounts>, vaults: map<Mint, TokenAccount>, h: map<Mint, nat>,
                     drained: map<Mint, nat>, balances: map<Mint, nat>)
    requires Returned(pairs, vaults, h, drained, balances)
    ensures drained.Keys == balances.Keys == vaults.Keys
  {
  }

  /** The loop over the pairs does what the protocol's `PayOut` says, and fails exactly when
      that does, if all accounts are in order. */
  method PayPairs(pairs: seq<HarvestAccounts>, vaults: map<Mint, TokenAccount>, h0: map<Mint, nat>, ghost p: Position)
    returns (r: Result<map<Mint, nat>>)
    requires VaultsOk(vaults) && Fits(h0)
    modifies vaults.Values, set i | 0 <= i < |pairs| :: pairs[i].wallet
    ensures var owed := PayOut(p.(harvests := h0 - {DEFAULT_MINT}), old(Balances(vaults)), MintsOf(pairs));
            && (old(forall i :: 0 <= i < |pairs| ==> Payable(pairs[i], vaults, h0)) ==> (r.Ok? <==> owed.Some?))
            && (r.Ok? ==>
                  && Fits(r.value) && r.value.Keys == h0.Keys
                  && owed.Some? && owed.value.0 == p.(harvests := r.value - {DEFAULT_MINT})
                  && Returned(pairs, vaults, h0, owed.value.1, Balances(vaults)))
  {
    hide Balances;
    hide PayOut;
    hide Recorded;
    hide MintsOf;
    hide Fits;
    hide Returned;
    hide Untouched;
    ghost var drained: map<Mint, nat> := Balances(vaults);
    ghost var goal := PayOut(p.(harvests := h0 - {DEFAULT_MINT}), drained, MintsOf(pairs));
    var h, i := h0, 0;
    assert MintsOf(pairs)[0..] == MintsOf(pairs);
    NothingReturned(pairs, vaults, h0);
    while i < |pairs|
      invariant 0 <= i <= |pairs|
      invariant Fits(h) && h.Keys == h0.Keys
      invariant goal == PayOut(p.(harvests := h - {DEFAULT_MINT}), drained, MintsOf(pairs)[i..])
      invariant Returned(pairs, vaults, h0, drained, Balances(vaults))
      invariant Untouched(vaults, h0, h, drained, Balances(vaults))
      invariant forall k :: 0 <= k < |pairs| ==>
                  var w := pairs[k].wallet;
                  w.amount + Recorded(h, w.mint) <= old(w.amount) + Recorded(h0, w.mint)
    {
      var paid;
      paid, drained := PayNext(pairs, i, vaults, h, h0, drained, p);
      if paid.Err? {
        return paid;
      }
      h := paid.value;
      i := i + 1;
    }
    assert MintsOf(pairs)[|pairs|..] == [];
    PaidOut(p.(harvests := h - {DEFAULT_MINT}), drained);
    r := Ok(h);
  }

  lemma NothingReturned(pairs: seq<HarvestAccounts>, vaults: map<Mint, TokenAccount>, h: map<Mint, nat>)
    ensures Balances(vaults).Keys == vaults.Keys
    ensures Returned(pairs, vaults, h, Balances(vaults), Balances(vaults))
    ensures Untouched(vaults, h, h, Balances(vaults), Balances(vaults))
  {
  }

  lemma UntouchedVault(vaults: map<Mint, TokenAccount>, h0: map<Mint, nat>, h: map<Mint, nat>, drained: map<Mint, nat>,
                       balances: map<Mint, nat>, m: Mint)
    requires drained.Keys == balances.Keys == vaults.Keys && m in vaults
    requires Untouched(vaults, h0, h, drained, balances)
    ensures Recorded(h, m) == 0 || balances[m] == drained[m]
    ensures Drained(drained, h, m).Keys == vaults.Keys
  {
  }

  /** Pays a farmer's harvest and writes what is left back to its account. */
  method PayFarmer(farmer: Farmer, pairs: seq<HarvestAccounts>, vaults: map<Mint, TokenAccount>) returns (r: Result<()>)
    requires farmer.Valid() && VaultsOk(vaults)
    modifies farmer.harvests, vaults.Values, set k | 0 <= k < |pairs| :: pairs[k].wallet
    ensures farmer.Valid()
    ensures var owed := PayOut(old(farmer.View()), old(Balances(vaults)), MintsOf(pairs));
            && (old(forall k :: 0 <= k < |pairs| ==> Payable(pairs[k], vaults, farmer.View().harvests)) ==>
                  (r.Ok? <==> owed.Some?))
            && (r.Ok? ==>
                  && owed.Some? && owed.value.0 == farmer.View()
                  && Returned(pairs, vaults, old(farmer.View()).harvests, owed.value.1, Balances(vaults)))
  {
    hide TokensByMint;
    hide Balances;
    hide PayOut;
    hide Recorded;
    hide Returned;
    ghost var p, before := farmer.View(), Balances(vaults);
    var h: map<Mint, nat> := farmer.Entries();
    RecordedWithoutDefault(h);
    var paid := PayPairs(pairs, vaults, h, p);
    if paid.Err? {
      return Err(paid.error);
    }
    farmer.SetHarvests(paid.value);
    SameReturned(pairs, vaults, h, p.harvests, PayOut(p, before, MintsOf(pairs)).value.1, Balances(vaults));
    r := Ok(());
  }

  /** Pays every named harvest from its own vault; mints that were not named, or for which
      nothing is owed, stay as they are. `vaults` are the addresses derived for the farm. */
  method ClaimEligibleHarvestHandler(farmer: Farmer, farm: Farm, pairs: seq<HarvestAccounts>,
                                     vaults: map<Mint, TokenAccount>, ghost s: State, ghost i: nat, ghost clock: nat)
    returns (r: Result<()>)
    requires Depicts(s, farm, clock, farmer, i) && VaultsOk(vaults) && s.vaults == Balances(vaults)
    modifies farmer.harvests, vaults.Values, set k | 0 <= k < |pairs| :: pairs[k].wallet
    ensures old(forall k :: 0 <= k < |pairs| ==> Payable(pairs[k], vaults, farmer.View().harvests)) ==>
              (r.Ok? <==> Try(s, ClaimEligibleHarvest(i, MintsOf(pairs))).Some?)
    ensures r.Ok? ==>
              && Try(s, ClaimEligibleHarvest(i, MintsOf(pairs))).Some?
              && var s' := Try(s, ClaimEligibleHarvest(i, MintsOf(pairs))).value;
              && Depicts(s', farm, clock, farmer, i)
              && Returned(pairs, vaults, s.farmers[i].harvests, s'.vaults, Balances(vaults))
  {
    hide TokensByMint;
    hide PayOut;
    hide Returned;
    hide HarvestTable;
    ClaimStep(s, i, MintsOf(pairs));
    if pairs == [] {
      return Err(InvalidAccount);
    }
    r := PayFarmer(farmer, pairs, vaults);
  }

  lemma ClaimStep(s: State, i: nat, mints: seq<Mint>)
    requires i < |s.farmers|
    ensures var owed, step := PayOut(s.farmers[i], s.vaults, mints), Try(s, ClaimEligibleHarvest(i, mints));
            && (step.Some? <==> mints != [] && owed.Some?)
            && (step.Some? ==>
                  && SameFarmState(s, step.value) && |step.value.farmers| == |s.farmers|
                  && step.value.farmers[i] == owed.value.0 && step.value.vaults == owed.value.1)
  {
  }

  lemma RecordedWithoutDefault(h: map<Mint, nat>)
    ensures forall m :: m != DEFAULT_MINT ==> Recorded(h - {DEFAULT_MINT}, m) == Recorded(h, m)
  {
  }

  lemma SameReturned(pairs: seq<HarvestAccounts>, vaults: map<Mint, TokenAccount>, h: map<Mint, nat>, g: map<Mint, nat>,
                     drained: map<Mint, nat>, balances: map<Mint, nat>)
    requires VaultsOk(vaults) && g == h - {DEFAULT_MINT} && Returned(pairs, vaults, h, drained, balances)
    ensures Returned(pairs, vaults, g, drained, balances)
  {
  }

  lemma PayOutRefused(p: Position, h: map<Mint, nat>, balances: map<Mint, nat>, mints: seq<Mint>)
    requires mints != [] && mints[0] in balances && mints[0] != DEFAULT_MINT
    requires Recorded(h, mints[0]) > balances[mints[0]]
    ensures PayOut(p.(harvests := h - {DEFAULT_MINT}), balances, mints).None?
  {
  }

  lemma PaidOut(p: Position, balances: map<Mint, nat>)
    ensures PayOut(p, balances, []) == Some((p, balances))
  {
  }

  lemma PayOutStep(p: Position, h: map<Mint, nat>, balances: map<Mint, nat>, mints: seq<Mint>, h': map<Mint, nat>)
    requires mints != [] && mints[0] in balances && mints[0] != DEFAULT_MINT
    requires Fits(h)
    requires if Recorded(h, mints[0]) == 0 then h' == h else h[mints[0]] <= balances[mints[0]] && h' == h[mints[0] := 0]
    ensures PayOut(p.(harvests := h - {DEFAULT_MINT}), balances, mints)
            == PayOut(p.(harvests := h' - {DEFAULT_MINT}), Drained(balances, h, mints[0]), mints[1..])
    ensures Fits(h') && h'.Keys == h.Keys
  {
    var m := mints[0];
    if Recorded(h, m) != 0 {
      assert (h - {DEFAULT_MINT})[m := 0] == h' - {DEFAULT_MINT};
    }
  }
}
