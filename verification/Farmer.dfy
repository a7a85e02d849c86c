/** The `Farmer` account: methods that update its fields in place, each tied to what it
    means on the account's value in `Settlement`. */
module Farmers {
  import opened Results
  import opened FarmTypes
  import opened Emission
  import opened RingBuffer
  import opened Earnings
  import opened Sweep
  import opened Settlement
  import opened Farms

  /** Balances by mint; where a mint occurs twice the later entry counts. */
  function TokensByMint(hs: seq<AvailableHarvest>): map<Mint, nat> {
    if hs == [] then map[]
    else TokensByMint(hs[..|hs| - 1])[hs[|hs| - 1].mint := hs[|hs| - 1].tokens]
  }

  ghost predicate DistinctEntries(hs: seq<AvailableHarvest>) {
    forall i, j :: 0 <= i < j < |hs| && hs[i].mint == hs[j].mint ==> hs[i].mint == DEFAULT_MINT
  }

  lemma {:induction false} TokensLookup(hs: seq<AvailableHarvest>, m: Mint)
    requires DistinctEntries(hs) && m != DEFAULT_MINT
    ensures m in TokensByMint(hs) <==> exists i :: 0 <= i < |hs| && hs[i].mint == m
    ensures forall i :: 0 <= i < |hs| && hs[i].mint == m ==>
              m in TokensByMint(hs) && TokensByMint(hs)[m] == hs[i].tokens
  {
    if hs != [] {
      var front := hs[..|hs| - 1];
      TokensLookup(front, m);
      if hs[|hs| - 1].mint != m && m in TokensByMint(hs) {
        var i :| 0 <= i < |front| && front[i].mint == m;
        assert hs[i].mint == m;
      }
    }
  }

  lemma {:induction false} TokensFit(hs: seq<AvailableHarvest>)
    requires forall i :: 0 <= i < |hs| ==> hs[i].tokens <= U64_MAX
    ensures Fits(TokensByMint(hs))
  {
    if hs != [] {
      TokensFit(hs[..|hs| - 1]);
    }
  }

  lemma {:induction false} TokensSize(hs: seq<AvailableHarvest>)
    ensures |TokensByMint(hs).Keys| <= |hs|
  {
    if hs != [] {
      TokensSize(hs[..|hs| - 1]);
      assert TokensByMint(hs).Keys == TokensByMint(hs[..|hs| - 1]).Keys + {hs[|hs| - 1].mint};
    }
  }

  /** Writing the balance of one entry updates exactly that mint. */
  lemma TokensAfterWrite(hs: seq<AvailableHarvest>, i: nat, tokens: nat)
    requires i < |hs| && DistinctEntries(hs) && hs[i].mint != DEFAULT_MINT
    ensures var gs := hs[i := hs[i].(tokens := tokens)];
            && DistinctEntries(gs)
            && TokensByMint(gs) - {DEFAULT_MINT} == (TokensByMint(hs) - {DEFAULT_MINT})[hs[i].mint := tokens]
  {
    var gs := hs[i := hs[i].(tokens := tokens)];
    assert forall j :: 0 <= j < |hs| ==> gs[j].mint == hs[j].mint && (j != i ==> gs[j] == hs[j]);
    forall m | m != DEFAULT_MINT
      ensures m in TokensByMint(gs) <==> m in TokensByMint(hs)
      ensures m in TokensByMint(gs) ==> TokensByMint(gs)[m] == if m == hs[i].mint then tokens else TokensByMint(hs)[m]
    {
      TokensLookup(hs, m);
      TokensLookup(gs, m);
      if m in TokensByMint(gs) {
        var j :| 0 <= j < |gs| && gs[j].mint == m;
        assert hs[j].mint == m;
      }
      if m in TokensByMint(hs) {
        var j :| 0 <= j < |hs| && hs[j].mint == m;
        assert gs[j].mint == m;
      }
    }
    TokensLookup(hs, hs[i].mint);
  }

  /** `hs` holds the entries of the mints `done` of the map `h`, plus unused ones. */
  ghost predicate Written(hs: seq<AvailableHarvest>, h: map<Mint, nat>, done: set<Mint>)
    requires done <= h.Keys
  {
    && DistinctEntries(hs)
    && (forall j :: 0 <= j < |hs| ==> hs[j].mint == DEFAULT_MINT || hs[j].mint in done)
    && (forall j :: 0 <= j < |hs| ==> hs[j].tokens <= U64_MAX)
    && (forall m :: m in done && m != DEFAULT_MINT ==> m in TokensByMint(hs) && TokensByMint(hs)[m] == h[m])
  }

  lemma WriteEntry(front: seq<AvailableHarvest>, h: map<Mint, nat>, done: set<Mint>, e: AvailableHarvest)
    requires done <= h.Keys && e.tokens <= U64_MAX
    requires (e == EMPTY_AVAILABLE && Written(front, h, done))
             || (e.mint in done && e.tokens == h[e.mint] && Written(front, h, done - {e.mint}))
    ensures Written(front + [e], h, done)
  {
    assert (front + [e])[..|front|] == front;
  }

  lemma WrittenAll(hs: seq<AvailableHarvest>, h: map<Mint, nat>)
    requires Written(hs, h, h.Keys)
    ensures TokensByMint(hs) - {DEFAULT_MINT} == h - {DEFAULT_MINT}
    ensures DistinctEntries(hs) && forall j :: 0 <= j < |hs| ==> hs[j].tokens <= U64_MAX
  {
    forall m | m != DEFAULT_MINT && m in TokensByMint(hs)
      ensures m in h
    {
      TokensLookup(hs, m);
    }
  }

  /** Drops mints the farm no longer has and adds the ones it gained, with no tokens. */
  method SyncHarvestMints(farmHarvests: map<Mint, seq<Period>>, farmerHarvests: map<Mint, nat>)
    returns (synced: map<Mint, nat>)
    ensures synced == map m | m in farmHarvests :: Recorded(farmerHarvests, m)
  {
    synced := map m | m in farmerHarvests && m in farmHarvests :: farmerHarvests[m];
    var todo := farmHarvests.Keys;
    while todo != {}
      invariant todo <= farmHarvests.Keys
      invariant farmHarvests.Keys - todo <= synced.Keys <= farmHarvests.Keys
      invariant forall m :: m in farmerHarvests && m in farmHarvests ==> m in synced
      invariant forall m :: m in synced ==> synced[m] == Recorded(farmerHarvests, m)
      decreases todo
    {
      var mint :| mint in todo;
      if mint !in synced {
        synced := synced[mint := 0];
      }
      todo := todo - {mint};
    }
  }

  class Farmer {
    var staked: nat
    var vested: nat
    var vestedAt: nat
    var calculateNextHarvestFrom: nat
    var harvests: array<AvailableHarvest>

    ghost predicate Valid()
      reads this, harvests
    {
      && harvests.Length == MAX_HARVEST_MINTS && DistinctEntries(harvests[..])
      && (forall i :: 0 <= i < harvests.Length ==> harvests[i].tokens <= U64_MAX)
      && staked <= U64_MAX && vested <= U64_MAX && vestedAt <= U64_MAX && calculateNextHarvestFrom <= U64_MAX
    }

    ghost function View(): Position
      reads this, harvests
    {
      Position(staked, vested, vestedAt, calculateNextHarvestFrom, TokensByMint(harvests[..]) - {DEFAULT_MINT})
    }

    constructor ()
      ensures Valid() && fresh(harvests)
      ensures View() == Position(0, 0, 0, 0, map[])
    {
      staked, vested, vestedAt, calculateNextHarvestFrom := 0, 0, 0, 0;
      harvests := new AvailableHarvest[MAX_HARVEST_MINTS](_ => EMPTY_AVAILABLE);
      new;
      forall m | m != DEFAULT_MINT
        ensures m !in TokensByMint(harvests[..])
      {
        TokensLookup(harvests[..], m);
      }
    }

    /** The balance entry of a mint, if the farmer has one. */
    method FindMint(mint: Mint) returns (i: nat)
      requires Valid() && mint != DEFAULT_MINT
      ensures i <= harvests.Length
      ensures i < harvests.Length <==> mint in View().harvests
      ensures i < harvests.Length ==> harvests[i].mint == mint && View().harvests[mint] == harvests[i].tokens
    {
      i := 0;
      while i < harvests.Length && harvests[i].mint != mint
        invariant i <= harvests.Length
        invariant forall j :: 0 <= j < i ==> harvests[j].mint != mint
      {
        i := i + 1;
      }
      TokensLookup(harvests[..], mint);
      assert i < harvests.Length ==> harvests[..][i].mint == mint;
    }

    /** The array's entries collected into a map, the unused key included. */
    method Entries() returns (h: map<Mint, nat>)
      requires Valid()
      ensures h - {DEFAULT_MINT} == View().harvests
      ensures Fits(h) && |h.Keys| <= MAX_HARVEST_MINTS
    {
      TokensFit(harvests[..]);
      TokensSize(harvests[..]);
      h := TokensByMint(harvests[..]);
    }

    /** Overwrites the array with the map's entries, padded with unused ones. */
    method SetHarvests(h: map<Mint, nat>)
      requires Valid() && Fits(h) && |h.Keys| <= MAX_HARVEST_MINTS
      modifies harvests
      ensures Valid() && View() == old(View()).(harvests := h - {DEFAULT_MINT})
    {
      var i := 0;
      var todo := h.Keys;
      ghost var done: set<Mint> := {};
      assert Written(harvests[..0], h, done);
      hide Written;
      hide TokensByMint;
      hide DistinctEntries;
      while i < harvests.Length
        invariant 0 <= i <= harvests.Length == MAX_HARVEST_MINTS
        invariant done !! todo && done + todo == h.Keys && |todo| <= MAX_HARVEST_MINTS - i
        invariant Written(harvests[..i], h, done)
      {
        ghost var front := harvests[..i];
        var entry := EMPTY_AVAILABLE;
        if todo != {} {
          var mint :| mint in todo;
          entry := AvailableHarvest(mint, h[mint]);
          todo := todo - {mint};
          done := done + {mint};
        }
        WriteEntry(front, h, done, entry);
        harvests[i] := entry;
        assert harvests[..i] == front;
        i := i + 1;
        assert harvests[..i] == front + [entry];
      }
      assert harvests[..] == harvests[..harvests.Length];
      assert todo == {};
      WrittenAll(harvests[..], h);
    }

    method AddToVestedTokens(currentSlot: nat, tokens: nat) returns (r: Result<()>)
      requires Valid() && currentSlot <= U64_MAX
      modifies this
      ensures Valid() && harvests == old(harvests)
      ensures r.Ok? <==> AddToVested(old(View()), currentSlot, tokens).Ok?
      ensures r.Ok? ==> View() == AddToVested(old(View()), currentSlot, tokens).value
    {
      vestedAt := currentSlot;
      if vested + tokens > U64_MAX {
        return Err(MathOverflow);
      }
      vested := vested + tokens;
      r := Ok(());
    }

    method UnstakeTokens(max: nat) returns (r: Result<nat>)
      requires Valid()
      modifies this
      ensures Valid() && harvests == old(harvests)
      ensures r.Ok? <==> Unstake(old(View()), max).Ok?
      ensures r.Ok? ==> (View(), r.value) == Unstake(old(View()), max).value
    {
      if vested >= max {
        vested := vested - max;
        return Ok(max);
      }
      if staked + vested > U64_MAX {
        return Err(MathOverflow);
      }
      var total := staked + vested;
      if total > max {
        staked := staked - (max - vested);
        vested := 0;
        return Ok(max);
      }
      staked := 0;
      vested := 0;
      r := Ok(total);
    }

    method ClaimHarvestTokens(stakeMint: Mint) returns (r: Result<nat>)
      requires Valid() && stakeMint != DEFAULT_MINT
      modifies harvests
      ensures Valid()
      ensures r.Ok? <==> ClaimHarvest(old(View()), stakeMint).Ok?
      ensures r.Ok? ==> (View(), r.value) == ClaimHarvest(old(View()), stakeMint).value
      ensures r.Err? ==> View() == old(View())
    {
      var i := FindMint(stakeMint);
      if i == harvests.Length {
        return Err(CannotCompound);
      }
      var stake := harvests[i].tokens;
      ghost var before := harvests[..];
      TokensAfterWrite(before, i, 0);
      harvests[i] := harvests[i].(tokens := 0);
      assert harvests[..] == before[i := before[i].(tokens := 0)];
      r := Ok(stake);
    }

    /** Raises the balance of a mint, as an airdrop does. */
    method AddHarvestTokens(mint: Mint, tokens: nat) returns (r: Result<()>)
      requires Valid() && mint != DEFAULT_MINT
      modifies harvests
      ensures Valid()
      ensures r.Ok? <==> mint in old(View()).harvests && old(View()).harvests[mint] + tokens <= U64_MAX
      ensures r.Ok? ==>
                View() == old(View()).(harvests := old(View()).harvests[mint := old(View()).harvests[mint] + tokens])
      ensures r.Err? ==> View() == old(View())
    {
      var i := FindMint(mint);
      if i == harvests.Length {
        return Err(InvalidAccount);
      }
      if harvests[i].tokens + tokens > U64_MAX {
        return Err(MathOverflow);
      }
      ghost var before := harvests[..];
      TokensAfterWrite(before, i, before[i].tokens + tokens);
      harvests[i] := harvests[i].(tokens := harvests[i].tokens + tokens);
      assert harvests[..] == before[i := before[i].(tokens := before[i].tokens + tokens)];
      r := Ok(());
    }

    /** Collects the maps and the snapshots the sweep works on. */
    method PrepareSweep(farm: Farm, until: nat)
      returns (farmHarvests: map<Mint, seq<Period>>, farmerHarvests: map<Mint, nat>, snapshots: seq<Snapshot>)
      requires Valid() && farm.Valid() && until <= U64_MAX
      requires SweepReady(farm.View().snapshots, calculateNextHarvestFrom, until)
      ensures FarmOk(farmHarvests) && Fits(farmerHarvests) && SnapshotsFit(snapshots)
      ensures Pending(snapshots, calculateNextHarvestFrom, until)
      ensures snapshots == SweepInput(farm.View().snapshots, calculateNextHarvestFrom, until)
      ensures Descending(farm.View().snapshots)
      ensures farm.View().harvests == farmHarvests - {DEFAULT_MINT}
      ensures farmerHarvests.Keys == farmHarvests.Keys && |farmHarvests.Keys| <= MAX_HARVEST_MINTS
      ensures forall m :: m in farm.View().harvests ==> Recorded(farmerHarvests, m) == Recorded(View().harvests, m)
    {
      hide WellFormed;
      hide Descending;
      ViewOk(farm);
      TableOk(farm.harvests[..]);
      TableSize(farm.harvests[..]);
      TokensFit(harvests[..]);
      farmHarvests := PeriodsByMint(farm.harvests[..]);
      farmerHarvests := SyncHarvestMints(farmHarvests, TokensByMint(harvests[..]));
      snapshots := farm.SnapshotsForSweep(calculateNextHarvestFrom, until);
      SweepInputPending(farm.View().snapshots, calculateNextHarvestFrom, until);
      SyncedBalances(farmHarvests, TokensByMint(harvests[..]));
    }

    /** The balances with the harvest of the slots from the cursor to `until` added. */
    method EligibleHarvest(farm: Farm, until: nat) returns (r: Result<map<Mint, nat>>)
      requires Valid() && farm.Valid() && until <= U64_MAX
      requires SweepReady(farm.View().snapshots, calculateNextHarvestFrom, until)
      ensures r.Ok? <==> Eligible(View(), farm.View(), until).Ok?
      ensures r.Ok? ==> r.value - {DEFAULT_MINT} == Eligible(View(), farm.View(), until).value
      ensures r.Ok? ==> Fits(r.value) && |r.value.Keys| <= MAX_HARVEST_MINTS
    {
      hide Farm.Valid;
      hide Farm.View;
      hide Pending;
      hide FarmOk;
      hide BalanceAfter;
      hide Eligible;
      hide TokensByMint;
      hide Descending;
      hide SnapshotsFit;
      hide SweepInput;
      var farmHarvests, farmerHarvests, snapshots := PrepareSweep(farm, until);
      r := EligibleHarvestUntil(farmHarvests, snapshots, farmerHarvests, calculateNextHarvestFrom, until, staked);
      assert r.Ok? ==> r.value.Keys == farmHarvests.Keys;
      SweepMeetsSpec(View(), farm.View(), until, farmHarvests, farmerHarvests, snapshots, r);
    }

    /** Settles the slots from the cursor to `currentSlot`, both included. */
    method UpdateEligibleHarvest(farm: Farm, currentSlot: nat) returns (r: Result<()>)
      requires Valid() && farm.Valid() && currentSlot <= U64_MAX
      modifies this, harvests
      ensures Valid() && harvests == old(harvests)
      ensures r.Ok? <==> Update(old(View()), farm.View(), currentSlot).Ok?
      ensures r.Ok? ==> View() == Update(old(View()), farm.View(), currentSlot).value
    {
      if calculateNextHarvestFrom >= currentSlot {
        return Ok(());
      }
      var farmerHarvests := EligibleHarvest(farm, currentSlot);
      if farmerHarvests.Err? {
        return Err(farmerHarvests.error);
      }
      SetHarvests(farmerHarvests.value);
      if currentSlot == U64_MAX {
        return Err(MathOverflow);
      }
      calculateNextHarvestFrom := currentSlot + 1;
      r := Ok(());
    }

    /** Moves vested tokens to the stake if their snapshot has been taken, settling first
        what was earned without them. */
    method MoveVestedToStake(farm: Farm) returns (r: Result<()>)
      requires Valid() && farm.Valid()
      modifies this, harvests
      ensures Valid() && harvests == old(harvests)
      ensures r.Ok? <==> Vest(old(View()), farm.View()).Ok?
      ensures r.Ok? ==> View() == Vest(old(View()), farm.View()).value
    {
      hide Vest;
      hide Eligible;
      hide FirstAfter;
      hide TokensByMint;
      hide Farm.View;
      VestByCases(View(), farm.View());
      if vested == 0 {
        return Ok(());
      }
      var found := farm.FirstSnapshotAfterSlot(vestedAt);
      if found.None? {
        return Ok(());
      }
      VestingReady(farm);
      var farmerHarvests := EligibleHarvest(farm, found.value.startedAt - 1);
      if farmerHarvests.Err? {
        return Err(farmerHarvests.error);
      }
      r := StakeVested(found.value.startedAt, farmerHarvests.value);
    }

    lemma VestingReady(farm: Farm)
      requires Valid() && farm.Valid()
      requires FirstAfter(farm.View().snapshots, vestedAt).Some?
      ensures var s := FirstAfter(farm.View().snapshots, vestedAt).value;
              0 < s.startedAt <= U64_MAX && SweepReady(farm.View().snapshots, calculateNextHarvestFrom, s.startedAt - 1)
    {
      ViewOk(farm);
      VestingIsReady(farm.View().snapshots, vestedAt, calculateNextHarvestFrom);
    }

    /** Records the harvest earned without the vested tokens, moves the cursor to where
        they start to earn, and counts them as staked. */
    method StakeVested(startedAt: nat, h: map<Mint, nat>) returns (r: Result<()>)
      requires Valid() && startedAt <= U64_MAX && Fits(h) && |h.Keys| <= MAX_HARVEST_MINTS
      modifies this, harvests
      ensures Valid() && harvests == old(harvests)
      ensures r.Ok? <==> old(staked) + old(vested) <= U64_MAX
      ensures r.Ok? ==> View() == Position(old(staked) + old(vested), 0, old(vestedAt), startedAt, h - {DEFAULT_MINT})
    {
      SetHarvests(h);
      calculateNextHarvestFrom := startedAt;
      if staked + vested > U64_MAX {
        return Err(MathOverflow);
      }
      staked := staked + vested;
      vested := 0;
      r := Ok(());
    }

    method CheckVestedPeriodAndUpdateHarvest(farm: Farm, currentSlot: nat) returns (r: Result<()>)
      requires Valid() && farm.Valid() && currentSlot <= U64_MAX
      modifies this, harvests
      ensures Valid() && harvests == old(harvests)
      ensures r.Ok? <==> Settle(old(View()), farm.View(), currentSlot).Ok?
      ensures r.Ok? ==> View() == Settle(old(View()), farm.View(), currentSlot).value
    {
      hide Vest;
      hide Update;
      r := MoveVestedToStake(farm);
      if r.Ok? {
        r := UpdateEligibleHarvest(farm, currentSlot);
      }
    }
  }

  lemma VestByCases(p: Position, farm: FarmView)
    ensures p.vested == 0 || FirstAfter(farm.snapshots, p.vestedAt).None? ==> Vest(p, farm) == Ok(p)
    ensures p.vested > 0 && FirstAfter(farm.snapshots, p.vestedAt).Some? ==>
              var s := FirstAfter(farm.snapshots, p.vestedAt).value;
              var h := Eligible(p, farm, s.startedAt - 1);
              && (Vest(p, farm).Ok? <==> h.Ok? && p.staked + p.vested <= U64_MAX)
              && (Vest(p, farm).Ok? ==>
                    Vest(p, farm).value == Position(p.staked + p.vested, 0, p.vestedAt, s.startedAt, h.value))
  {
  }

  lemma SyncedBalances(farmHarvests: map<Mint, seq<Period>>, tokens: map<Mint, nat>)
    ensures forall m :: m in farmHarvests.Keys - {DEFAULT_MINT} ==>
              Recorded(map m' | m' in farmHarvests :: Recorded(tokens, m'), m) == Recorded(tokens - {DEFAULT_MINT}, m)
  {
  }

  /** The sweep over the iterator's snapshots computes the specified balances. */
  lemma SweepMeetsSpec(p: Position, farm: FarmView, until: nat, farmHarvests: map<Mint, seq<Period>>,
                       before: map<Mint, nat>, w: seq<Snapshot>, r: Result<map<Mint, nat>>)
    requires Descending(farm.snapshots) && farm.harvests == farmHarvests - {DEFAULT_MINT}
    requires before.Keys == farmHarvests.Keys
    requires forall m :: m in farm.harvests ==> Recorded(before, m) == Recorded(p.harvests, m)
    requires w == SweepInput(farm.snapshots, p.cursor, until)
    requires r.Ok? <==>
             p.staked == 0 ||
             (until < U64_MAX && forall m :: m in farmHarvests.Keys - {DEFAULT_MINT} ==>
                BalanceAfter(before, m, w, until + 1, p.cursor, until, p.staked, farmHarvests[m]) <= U64_MAX)
    requires r.Ok? ==> r.value.Keys == farmHarvests.Keys
    requires r.Ok? ==> forall m :: m in farmHarvests.Keys - {DEFAULT_MINT} ==>
               Recorded(r.value, m) == BalanceAfter(before, m, w, until + 1, p.cursor, until, p.staked, farmHarvests[m])
    ensures r.Ok? <==> Eligible(p, farm, until).Ok?
    ensures r.Ok? ==> r.value - {DEFAULT_MINT} == Eligible(p, farm, until).value
  {
    hide Descending;
    hide SweepInput;
    hide CreditFor;
    hide Credit;
    forall m | m in farm.harvests
      ensures BalanceAfter(before, m, w, until + 1, p.cursor, until, p.staked, farmHarvests[m])
              == SettledBalance(p, farm, m, until)
    {
      SweepInputSuffices(farm.snapshots, p.cursor, until, p.staked, farmHarvests[m]);
    }
    if r.Ok? {
      forall m | m in farm.harvests
        ensures r.value[m] == SettledBalance(p, farm, m, until)
      {
        assert r.value[m] == Recorded(r.value, m);
      }
    }
  }
}
