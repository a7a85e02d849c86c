/** What every run of the protocol keeps, and what every fair run keeps on top of it: no slot
    is settled beyond its emission and every harvest vault covers what it owes. */
module Safety {
  import opened Results
  import opened FarmTypes
  import opened Emission
  import opened Periods
  import opened RingBuffer
  import opened Sweep
  import opened Settlement
  import opened Farms
  import opened Totals
  import opened Shares
  import opened Protocol
  import opened Solvency
  import opened FarmerMoves

  // ---- every run ----

  lemma MoveKeepsSound(s: State, i: nat, cs: seq<Charge>, q: Position, stakeVault: nat, vaults: map<Mint, nat>)
    requires Sound(s) && i < |s.farmers| && Moves(s, i, cs, q, stakeVault, vaults)
    ensures Sound(Moved(s, i, cs, q, stakeVault, vaults))
  {
    var s' := Moved(s, i, cs, q, stakeVault, vaults);
    TotalReplace(s.farmers, i, q, DepositOf());
    forall p | p in s'.farmers
      ensures FarmerInv(p, s')
    {
      assert p == q || p in s.farmers;
    }
  }

  lemma TakeSnapshotKeepsSound(s: State)
    requires Sound(s) && DoTakeSnapshot(s).Some?
    ensures Sound(DoTakeSnapshot(s).value)
  {
    PushKeepsLog(s.log, Snapshot(s.stakeVault, s.now));
  }

  lemma {:induction false} ForgetKeepsEnds(ledger: seq<Charge>, m: Mint, reach: nat)
    requires forall c :: c in ledger ==> c.to < reach && LogOk(c.log)
    ensures forall c :: c in Forget(ledger, m) ==> c.to < reach && LogOk(c.log)
  {
    if ledger != [] {
      assert ledger[0] in ledger;
      ForgetKeepsEnds(ledger[1..], m, reach);
    }
  }

  lemma NewHarvestPeriodKeepsSound(s: State, m: Mint, startsAt: nat, slots: nat, tps: nat)
    requires Sound(s) && DoNewHarvestPeriod(s, m, startsAt, slots, tps).Some?
    ensures Sound(DoNewHarvestPeriod(s, m, startsAt, slots, tps).value)
  {
    NewPeriodKeepsSchedule(s.harvests[m], OldestSlot(s.log), s.now, RequestedPeriod(s.now, startsAt, slots, tps).value);
  }

  lemma CreateFarmerKeepsSound(s: State)
    requires Sound(s)
    ensures Sound(s.(farmers := s.farmers + [NewFarmer(s)]))
  {
    TotalConcat(s.farmers, [NewFarmer(s)], DepositOf());
    TotalOne(NewFarmer(s), DepositOf());
  }

  lemma CloseFarmerKeepsSound(s: State, i: nat)
    requires Sound(s) && DoCloseFarmer(s, i).Some?
    ensures Sound(DoCloseFarmer(s, i).value)
  {
    var s' := DoCloseFarmer(s, i).value;
    TotalAround(s.farmers, i, DepositOf());
    forall p | p in s'.farmers
      ensures FarmerInv(p, s')
    {
      assert p in s.farmers;
    }
  }

  lemma HarvestOpsKeepSound(s: State, op: Op)
    requires Sound(s) && Try(s, op).Some? && (op.AddHarvest? || op.RemoveHarvest?)
    ensures Sound(Try(s, op).value)
  {
    hide EmptyPeriods;
    hide LogOk;
    hide Total;
    hide Scheduled;
    BlankIsScheduled(s.now);
    if op.RemoveHarvest? {
      ForgetKeepsEnds(s.ledger, op.mint, s.reach);
    }
  }

  lemma OtherOpsKeepSound(s: State, op: Op)
    requires Sound(s) && Try(s, op).Some?
    requires op.Tick? || op.SetMinWindow? || op.DonateStake? || op.DonateHarvest?
    ensures Sound(Try(s, op).value)
  {
    hide LogOk;
    hide Total;
  }

  lemma SoundFarm(s: State)
    requires Sound(s)
    ensures FarmInv(s)
  {
  }

  /** Every instruction keeps what every run keeps, whatever its arguments. */
  lemma StepKeepsSound(s: State, op: Op)
    requires Sound(s)
    ensures Sound(Next(s, op))
  {
    hide Sound;
    hide Moves;
    if Try(s, op).Some? {
      if OfFarmer(op) {
        SoundFarm(s);
        var cs, q, stakeVault, vaults := FarmerOpMoves(s, op);
        MoveKeepsSound(s, op.farmer, cs, q, stakeVault, vaults);
      } else {
        match op
        case TakeSnapshot => TakeSnapshotKeepsSound(s);
        case NewHarvestPeriod(m, startsAt, slots, tps) => NewHarvestPeriodKeepsSound(s, m, startsAt, slots, tps);
        case CreateFarmer => CreateFarmerKeepsSound(s);
        case CloseFarmer(i) => CloseFarmerKeepsSound(s, i);
        case AddHarvest(_) => HarvestOpsKeepSound(s, op);
        case RemoveHarvest(_) => HarvestOpsKeepSound(s, op);
        case _ => OtherOpsKeepSound(s, op);
      }
    }
  }

  lemma {:induction false} RunKeepsSound(s: State, ops: seq<Op>)
    requires Sound(s)
    ensures Sound(Run(s, ops))
    decreases |ops|
  {
    if ops != [] {
      StepKeepsSound(s, ops[0]);
      RunKeepsSound(Next(s, ops[0]), ops[1..]);
    }
  }

  /** In every run the periods of every mint stay disjoint and strictly descending, the
      initialised ones first, and only the newest may start in the future. */
  lemma PeriodsStayScheduled(stakeMint: Mint, ops: seq<Op>, m: Mint)
    requires m in Run(Initial(stakeMint), ops).harvests
    ensures var s := Run(Initial(stakeMint), ops);
            Scheduled(s.harvests[m], s.now)
  {
    RunKeepsSound(Initial(stakeMint), ops);
  }

  // ---- one slot's shares ----

  ghost predicate Fits(s: State, t: nat) {
    SlotFits(s.ledger, s.farmers, s.log, t)
  }

  lemma MoveKeepsFit(s: State, i: nat, cs: seq<Charge>, q: Position, stakeVault: nat, vaults: map<Mint, nat>, t: nat)
    requires FarmInv(s) && i < |s.farmers| && Moves(s, i, cs, q, stakeVault, vaults) && Fits(s, t)
    ensures Fits(Moved(s, i, cs, q, stakeVault, vaults), t)
  {
    SettledShareConcat(s.ledger, cs, t);
    TotalReplace(s.farmers, i, q, UnsettledAt(s.log, t));
  }

  lemma SnapshotKeepsFit(s: State, t: nat)
    requires Sound(s) && DoTakeSnapshot(s).Some? && t < s.now && Fits(s, t)
    ensures Fits(DoTakeSnapshot(s).value, t)
  {
    var log := Pushed(s);
    PushKeepsLog(s.log, log[0]);
    forall p | p in s.farmers
      ensures UnsettledAt(log, t)(p) <= UnsettledAt(s.log, t)(p)
    {
      assert FarmerInv(p, s);
      SnapshotKeepsShares(p, s.log, log[0], t);
    }
    TotalMono(s.farmers, UnsettledAt(log, t), UnsettledAt(s.log, t));
  }

  lemma {:induction false} ForgetKeepsShares(ledger: seq<Charge>, m: Mint, t: nat)
    ensures SettledShare(Forget(ledger, m), t) == SettledShare(ledger, t)
  {
    if ledger != [] {
      ForgetKeepsShares(ledger[1..], m, t);
    }
  }

  lemma MembersKeepFit(s: State, op: Op, t: nat)
    requires Try(s, op).Some? && (op.CreateFarmer? || op.CloseFarmer?) && Fits(s, t)
    ensures Fits(Try(s, op).value, t)
  {
    if op.CreateFarmer? {
      TotalConcat(s.farmers, [NewFarmer(s)], UnsettledAt(s.log, t));
      TotalOne(NewFarmer(s), UnsettledAt(s.log, t));
    } else {
      TotalAround(s.farmers, op.farmer, UnsettledAt(s.log, t));
      UnsettledNonNegative(s.farmers[op.farmer], s.log, t);
    }
  }

  /** Only a snapshot can raise the shares of a slot, and only of its own slot and later ones. */
  lemma StepKeepsFit(s: State, op: Op, t: nat)
    requires Sound(s) && Fits(s, t)
    requires op.TakeSnapshot? && DoTakeSnapshot(s).Some? && s.now <= t ==> SlotFits(s.ledger, s.farmers, Pushed(s), t)
    ensures Fits(Next(s, op), t)
  {
    if Try(s, op).Some? {
      if OfFarmer(op) {
        var cs, q, stakeVault, vaults := FarmerOpMoves(s, op);
        MoveKeepsFit(s, op.farmer, cs, q, stakeVault, vaults, t);
      } else if op.CreateFarmer? || op.CloseFarmer? {
        MembersKeepFit(s, op, t);
      } else if op.RemoveHarvest? {
        ForgetKeepsShares(s.ledger, op.mint, t);
      } else if op.TakeSnapshot? && t < s.now {
        SnapshotKeepsFit(s, t);
      }
    }
  }

  lemma FractionIsTimes(stake: nat, total: nat)
    ensures var k := Fraction(1, total);
            Fraction(stake, total) == Times(k, stake as real) && 0.0 <= k && Times(k, total as real) <= 1.0
  {
    if total > 0 {
      var k := 1.0 / total as real;
      assert k * total as real == 1.0;
      assert stake as real / total as real == k * stake as real;
    }
  }

  /** Of the newest window nobody can have a larger share than the whole deposit's. */
  lemma UnsettledWithinDeposit(p: Position, log: seq<Snapshot>, t: nat)
    requires log != [] && log[0].startedAt <= t
    ensures Unsettled(p, log, t) <= Times(Fraction(1, log[0].staked), (p.staked + p.vested) as real)
  {
    hide Fraction;
    hide Awaited;
    hide Times;
    FractionMono(0, p.staked + p.vested, log[0].staked);
    FractionMono(StakeAt(p, log, t), p.staked + p.vested, log[0].staked);
    FractionIsTimes(p.staked + p.vested, log[0].staked);
  }

  /** A snapshot fits every slot that nobody has settled: the stake vault covers all deposits. */
  lemma UnsettledSlotFits(s: State, t: nat)
    requires Sound(s) && s.reach <= t && s.now <= t
    ensures SlotFits(s.ledger, s.farmers, Pushed(s), t)
  {
    hide Fraction;
    hide Unsettled;
    hide Times;
    NotYetSettled(s.ledger, t);
    var k := Fraction(1, s.stakeVault);
    var deposits := (p: Position) => Times(k, DepositOf()(p));
    forall p | p in s.farmers
      ensures UnsettledAt(Pushed(s), t)(p) <= deposits(p)
    {
      UnsettledWithinDeposit(p, Pushed(s), t);
    }
    TotalMono(s.farmers, UnsettledAt(Pushed(s), t), deposits);
    TotalScale(s.farmers, DepositOf(), k, deposits);
    FractionIsTimes(0, s.stakeVault);
    TimesMono(k, Total(s.farmers, DepositOf()), s.stakeVault as real);
  }

  /** A slot that fits goes on to fit while snapshots are fair, whatever else happens. */
  lemma {:induction false} RunKeepsFit(s: State, ops: seq<Op>, t: nat)
    requires Sound(s) && Fits(s, t) && Along(FairSnapshot, s, ops)
    ensures Fits(Run(s, ops), t)
    decreases |ops|
  {
    hide Sound;
    hide Fits;
    if ops != [] {
      assert FairSnapshot(s, ops[0]);
      StepKeepsSound(s, ops[0]);
      StepKeepsFit(s, ops[0], t);
      RunKeepsFit(Next(s, ops[0]), ops[1..], t);
    }
  }

  lemma SettledAtMostOne(s: State, t: nat)
    requires Fits(s, t)
    ensures SettledShare(s.ledger, t) <= 1.0
  {
    forall p | p in s.farmers
      ensures 0.0 <= UnsettledAt(s.log, t)(p)
    {
      UnsettledNonNegative(p, s.log, t);
    }
    TotalNonNegative(s.farmers, UnsettledAt(s.log, t));
  }

  /** In every run with fair snapshots, whatever slots are settled and whatever the admin
      schedules, no slot is ever settled for more than the whole of its emission. */
  lemma SlotsAreSettledOnce(stakeMint: Mint, ops: seq<Op>, t: nat)
    requires Along(FairSnapshot, Initial(stakeMint), ops)
    ensures SettledShare(Run(Initial(stakeMint), ops).ledger, t) <= 1.0
  {
    RunKeepsFit(Initial(stakeMint), ops, t);
    SettledAtMostOne(Run(Initial(stakeMint), ops), t);
  }

  lemma {:induction false} FirstSnapshotsAreFair(s: State, ops: seq<Op>)
    requires Sound(s) && Along(SnapshotFirst, s, ops)
    ensures Along(FairSnapshot, s, ops)
    decreases |ops|
  {
    hide Sound;
    if ops != [] {
      FirstSnapshotIsFair(s, ops[0]);
      StepKeepsSound(s, ops[0]);
      FirstSnapshotsAreFair(Next(s, ops[0]), ops[1..]);
    }
  }

  lemma FirstSnapshotIsFair(s: State, op: Op)
    requires Sound(s) && SnapshotFirst(s, op)
    ensures FairSnapshot(s, op)
  {
    if op.TakeSnapshot? && DoTakeSnapshot(s).Some? {
      forall t: nat | s.now <= t
        ensures SlotFits(s.ledger, s.farmers, Pushed(s), t)
      {
        UnsettledSlotFits(s, t);
      }
    }
  }

  /** Snapshots that come before every settlement of their slot are fair, even if slots that have
      not come yet are settled in between. */
  lemma SnapshotsFirstAreFair(stakeMint: Mint, ops: seq<Op>)
    requires Along(SnapshotFirst, Initial(stakeMint), ops)
    ensures Along(FairSnapshot, Initial(stakeMint), ops)
  {
    FirstSnapshotsAreFair(Initial(stakeMint), ops);
  }

  // ---- fair runs ----

  ghost predicate VaultCovers(s: State, m: Mint)
    requires m in s.harvests && m in s.vaults
  {
    forall hi: nat :: s.reach <= hi ==> Covered(s.vaults[m], s.farmers, s.ledger, s.harvests[m], m, hi)
  }

  /** Nobody has a balance of a mint that the farm does not have. */
  ghost predicate NoneRecorded(fs: seq<Position>, harvests: map<Mint, seq<Period>>) {
    forall p, m :: p in fs && m !in harvests ==> Recorded(p.harvests, m) == 0
  }

  /** No slot is settled beyond its emission, every harvest vault covers its promises, and no
      farmer has a balance of a mint that the farm does not have. */
  ghost predicate Inv(s: State) {
    && Sound(s)
    && (forall t: nat :: Fits(s, t))
    && (forall m :: m in s.harvests ==> VaultCovers(s, m))
    && NoneRecorded(s.farmers, s.harvests)
  }

  lemma MoveKeepsCover(s: State, i: nat, cs: seq<Charge>, q: Position, stakeVault: nat, vaults: map<Mint, nat>, m: Mint)
    requires Sound(s) && i < |s.farmers| && Moves(s, i, cs, q, stakeVault, vaults)
    requires m in s.harvests && VaultCovers(s, m)
    ensures VaultCovers(Moved(s, i, cs, q, stakeVault, vaults), m)
  {
    var s', ps := Moved(s, i, cs, q, stakeVault, vaults), s.harvests[m];
    CreditedWithinWorth(cs, m, ps, 0, q.cursor);
    TotalReplace(s.farmers, i, q, RecordedOf(m));
    forall t: nat
      ensures FreeShareOf(s.ledger)(t) == FreeShareOf(s'.ledger)(t) + SettledShareOf(cs)(t)
      ensures 0.0 <= SettledShareOf(cs)(t)
    {
      SettledShareConcat(s.ledger, cs, t);
      SettledShareNonNegative(cs, t);
    }
    forall hi: nat | s'.reach <= hi
      ensures Covered(s'.vaults[m], s'.farmers, s'.ledger, ps, m, hi)
    {
      WorthAdds(ps, FreeShareOf(s'.ledger), SettledShareOf(cs), FreeShareOf(s.ledger), 0, hi);
      WorthSplit(ps, SettledShareOf(cs), 0, q.cursor, hi);
      WorthNonNegative(ps, SettledShareOf(cs), q.cursor, hi);
      assert Covered(s.vaults[m], s.farmers, s.ledger, ps, m, hi);
    }
  }

  lemma {:induction false} BlankTps(ps: seq<Period>, t: nat)
    requires forall i :: 0 <= i < |ps| ==> ps[i] == EMPTY_PERIOD
    ensures TpsAt(ps, t) == 0
  {
    if ps != [] {
      BlankTps(ps[1..], t);
    }
  }

  lemma AddHarvestKeepsCover(s: State, m0: Mint, m: Mint)
    requires Inv(s) && DoAddHarvest(s, m0).Some?
    requires m in DoAddHarvest(s, m0).value.harvests
    ensures VaultCovers(DoAddHarvest(s, m0).value, m)
  {
    var s', ps := DoAddHarvest(s, m0).value, EmptyPeriods();
    if m == m0 {
      forall hi: nat
        ensures Covered(0, s.farmers, s.ledger, ps, m, hi)
      {
        var none := (t: nat) => 0.0;
        TotalScale(s.farmers, DepositOf(), 0.0, RecordedOf(m));
        forall t: nat
          ensures TpsAt(ps, t) == 0
        {
          BlankTps(ps, t);
        }
        SilentWorth(ps, FreeShareOf(s.ledger), 0, hi);
      }
    } else {
      assert VaultCovers(s, m);
    }
  }

  lemma RemoveHarvestKeepsCover(s: State, m0: Mint, m: Mint)
    requires Inv(s) && DoRemoveHarvest(s, m0).Some?
    requires m in DoRemoveHarvest(s, m0).value.harvests
    ensures VaultCovers(DoRemoveHarvest(s, m0).value, m)
  {
    var s', ps := DoRemoveHarvest(s, m0).value, s.harvests[m];
    assert VaultCovers(s, m);
    forall hi: nat | s.reach <= hi
      ensures Covered(s'.vaults[m], s'.farmers, s'.ledger, ps, m, hi)
    {
      forall t: nat
        ensures FreeShareOf(s'.ledger)(t) == FreeShareOf(s.ledger)(t)
      {
        ForgetKeepsShares(s.ledger, m0, t);
      }
      WorthAgree(ps, FreeShareOf(s'.ledger), FreeShareOf(s.ledger), 0, hi);
      assert Covered(s.vaults[m], s.farmers, s.ledger, ps, m, hi);
    }
  }

  lemma NewHarvestPeriodKeepsCover(s: State, m0: Mint, startsAt: nat, slots: nat, tps: nat, m: Mint)
    requires Inv(s) && DoNewHarvestPeriod(s, m0, startsAt, slots, tps).Some?
    requires Fair(s, NewHarvestPeriod(m0, startsAt, slots, tps)) && m in s.harvests
    ensures VaultCovers(DoNewHarvestPeriod(s, m0, startsAt, slots, tps).value, m)
  {
    var s', ps := DoNewHarvestPeriod(s, m0, startsAt, slots, tps).value, s.harvests[m];
    assert VaultCovers(s, m);
    if m == m0 {
      var p := RequestedPeriod(s.now, startsAt, slots, tps).value;
      OverwritesHead(s, m0, startsAt, slots, tps);
      forall t: nat
        ensures SettledShare(s.ledger, t) <= 1.0
      {
        assert Fits(s, t);
        SettledAtMostOne(s, t);
      }
      OverwrittenIsHead(ps, OldestSlot(s.log), s.now, p);
      forall hi: nat | s.reach <= hi
        ensures Covered(s'.vaults[m], s'.farmers, s'.ledger, s'.harvests[m], m, hi)
      {
        var later := hi + p.endsAt + ps[0].endsAt + 1;
        NewPeriodKeepsCovered(s.vaults[m], s'.vaults[m], s.farmers, s.ledger, ps, p, OldestSlot(s.log), m, s.now,
                              later);
        CoveredEarlier(s'.vaults[m], s.farmers, s.ledger, s'.harvests[m], m, hi, later);
      }
    }
  }

  lemma OverwrittenIsHead(ps: seq<Period>, oldestStart: nat, current: nat, p: Period)
    requires Scheduled(ps, current) && NewPeriod(ps, oldestStart, current, p).Ok?
    ensures var overwritten := NewPeriod(ps, oldestStart, current, p).value.1;
            && (overwritten.Some? <==> current < ps[0].startsAt)
            && (overwritten.Some? ==> overwritten.value == ps[0] && ps[0].startsAt <= ps[0].endsAt)
  {
  }

  lemma OverwritesHead(s: State, m: Mint, startsAt: nat, slots: nat, tps: nat)
    requires DoNewHarvestPeriod(s, m, startsAt, slots, tps).Some? && s.harvests[m] != []
    ensures Overwrites(s, NewHarvestPeriod(m, startsAt, slots, tps))
            == if s.now < s.harvests[m][0].startsAt
               then Some((s.harvests[m][0], RequestedPeriod(s.now, startsAt, slots, tps).value))
               else None
  {
  }

  lemma MembersKeepCover(s: State, op: Op, m: Mint)
    requires m in s.harvests && m in s.vaults && VaultCovers(s, m)
    requires Try(s, op).Some? && (op.CreateFarmer? || op.CloseFarmer?)
    ensures VaultCovers(Try(s, op).value, m)
  {
    var s' := Try(s, op).value;
    if op.CreateFarmer? {
      TotalConcat(s.farmers, [NewFarmer(s)], RecordedOf(m));
      TotalOne(NewFarmer(s), RecordedOf(m));
    } else {
      TotalAround(s.farmers, op.farmer, RecordedOf(m));
    }
    forall hi: nat | s.reach <= hi
      ensures Covered(s'.vaults[m], s'.farmers, s'.ledger, s'.harvests[m], m, hi)
    {
      assert Covered(s.vaults[m], s.farmers, s.ledger, s.harvests[m], m, hi);
    }
  }

  lemma OtherOpsKeepCover(s: State, op: Op, m: Mint)
    requires m in s.harvests && m in s.vaults && VaultCovers(s, m)
    requires Try(s, op).Some?
    requires op.Tick? || op.SetMinWindow? || op.TakeSnapshot? || op.DonateStake? || op.DonateHarvest?
    ensures VaultCovers(Try(s, op).value, m)
  {
    var s' := Try(s, op).value;
    forall hi: nat | s.reach <= hi
      ensures Covered(s'.vaults[m], s'.farmers, s'.ledger, s'.harvests[m], m, hi)
    {
      assert Covered(s.vaults[m], s.farmers, s.ledger, s.harvests[m], m, hi);
    }
  }

  lemma StepKeepsCover(s: State, op: Op, m: Mint)
    requires Inv(s) && Fair(s, op) && Try(s, op).Some? && m in Try(s, op).value.harvests
    requires Try(s, op).value.harvests.Keys == Try(s, op).value.vaults.Keys
    ensures VaultCovers(Try(s, op).value, m)
  {
    hide VaultCovers;
    hide Moves;
    if OfFarmer(op) {
      var cs, q, stakeVault, vaults := FarmerOpMoves(s, op);
      MoveKeepsCover(s, op.farmer, cs, q, stakeVault, vaults, m);
    } else {
      match op
      case AddHarvest(m0) => AddHarvestKeepsCover(s, m0, m);
      case RemoveHarvest(m0) => RemoveHarvestKeepsCover(s, m0, m);
      case NewHarvestPeriod(m0, startsAt, slots, tps) => NewHarvestPeriodKeepsCover(s, m0, startsAt, slots, tps, m);
      case CreateFarmer => MembersKeepCover(s, op, m);
      case CloseFarmer(_) => MembersKeepCover(s, op, m);
      case _ => OtherOpsKeepCover(s, op, m);
    }
  }

  // ---- what the invariant says about vaults ----

  /** Every farmer's whole claim, unsettled slots before `hi` included, and all emission from
      then on are covered, mint by mint, and so are all deposits. */
  ghost predicate Funded(s: State, hi: nat) {
    && s.vaults.Keys == s.harvests.Keys
    && (forall m :: m in s.harvests ==>
          Total(s.farmers, OwedOf(s.log, s.harvests[m], m, hi)) + EmissionFrom(s.harvests[m], hi) as real
            <= s.vaults[m] as real)
    && Total(s.farmers, DepositOf()) <= s.stakeVault as real
  }

  lemma InvIsFunded(s: State, hi: nat)
    requires Inv(s) && s.reach <= hi
    ensures Funded(s, hi)
  {
    forall m | m in s.harvests
      ensures Total(s.farmers, OwedOf(s.log, s.harvests[m], m, hi)) + EmissionFrom(s.harvests[m], hi) as real
              <= s.vaults[m] as real
    {
      var ps := s.harvests[m];
      assert VaultCovers(s, m) && Scheduled(ps, s.now);
      forall t: nat
        ensures SlotFits(s.ledger, s.farmers, s.log, t)
      {
        assert Fits(s, t);
      }
      CoversPromises(s.vaults[m], s.farmers, s.ledger, s.log, ps, m, hi);
    }
  }

  /** What a farmer is owed never exceeds the vault; at an empty vault nobody is owed anything
      and nothing is going to be emitted. */
  lemma OwedWithinVault(s: State, p: Position, m: Mint, hi: nat)
    requires Inv(s) && p in s.farmers && m in s.harvests
    ensures 0.0 <= Recorded(p.harvests, m) as real <= Owed(p, s.log, s.harvests[m], m, hi) <= s.vaults[m] as real
  {
    var ps, later := s.harvests[m], Max(hi, s.reach);
    InvIsFunded(s, later);
    forall q | q in s.farmers
      ensures 0.0 <= OwedOf(s.log, ps, m, later)(q)
    {
      OwedNonNegative(q, s.log, ps, m, later);
    }
    var i :| 0 <= i < |s.farmers| && s.farmers[i] == p;
    TotalBoundsEach(s.farmers, i, OwedOf(s.log, ps, m, later));
    OwedNonNegative(p, s.log, ps, m, hi);
    forall t: nat
      ensures 0.0 <= UnsettledOf(p, s.log)(t)
    {
      UnsettledNonNegative(p, s.log, t);
    }
    WorthSplit(ps, UnsettledOf(p, s.log), 0, hi, later);
    WorthNonNegative(ps, UnsettledOf(p, s.log), hi, later);
  }

  lemma MoveKeepsNoneRecorded(s: State, i: nat, cs: seq<Charge>, q: Position, stakeVault: nat, vaults: map<Mint, nat>)
    requires FarmInv(s) && i < |s.farmers| && Moves(s, i, cs, q, stakeVault, vaults)
    requires NoneRecorded(s.farmers, s.harvests)
    ensures NoneRecorded(s.farmers[i := q], s.harvests)
  {
    forall p, m | p in s.farmers[i := q] && m !in s.harvests
      ensures Recorded(p.harvests, m) == 0
    {
      assert p == q || p in s.farmers;
      assert Recorded(s.farmers[i].harvests, m) == 0;
    }
  }

  lemma RemovalKeepsNoneRecorded(s: State, m: Mint)
    requires Inv(s) && DoRemoveHarvest(s, m).Some?
    ensures NoneRecorded(s.farmers, s.harvests - {m})
  {
    hide Inv;
    InvFacts(s);
    forall p | p in s.farmers
      ensures Recorded(p.harvests, m) == 0
    {
      OwedWithinVault(s, p, m, 0);
    }
  }

  lemma InvFacts(s: State)
    requires Inv(s)
    ensures Sound(s) && FarmInv(s) && NoneRecorded(s.farmers, s.harvests)
  {
  }

  lemma StepKeepsNoneRecorded(s: State, op: Op)
    requires Inv(s) && Try(s, op).Some?
    ensures NoneRecorded(Try(s, op).value.farmers, Try(s, op).value.harvests)
  {
    hide Inv;
    hide Sound;
    hide Moves;
    InvFacts(s);
    if OfFarmer(op) {
      var cs, q, stakeVault, vaults := FarmerOpMoves(s, op);
      MoveKeepsNoneRecorded(s, op.farmer, cs, q, stakeVault, vaults);
    } else if op.RemoveHarvest? {
      RemovalKeepsNoneRecorded(s, op.mint);
    }
  }

  /** Every fair instruction keeps the invariant. */
  lemma StepKeepsInv(s: State, op: Op)
    requires Inv(s) && Fair(s, op)
    ensures Inv(Next(s, op))
  {
    if Try(s, op).Some? {
      var s' := Try(s, op).value;
      StepKeepsSound(s, op);
      forall t: nat
        ensures Fits(s', t)
      {
        StepKeepsFit(s, op, t);
      }
      forall m | m in s'.harvests
        ensures VaultCovers(s', m)
      {
        StepKeepsCover(s, op, m);
      }
      StepKeepsNoneRecorded(s, op);
    }
  }

  lemma {:induction false} RunKeepsInv(s: State, ops: seq<Op>)
    requires Inv(s) && Along(Fair, s, ops)
    ensures Inv(Run(s, ops))
    decreases |ops|
  {
    hide Inv;
    if ops != [] {
      StepKeepsInv(s, ops[0]);
      RunKeepsInv(Next(s, ops[0]), ops[1..]);
    }
  }

  lemma InitialInv(stakeMint: Mint)
    ensures Inv(Initial(stakeMint))
  {
  }

  lemma FairRunKeepsInv(stakeMint: Mint, ops: seq<Op>)
    requires Along(Fair, Initial(stakeMint), ops)
    ensures Inv(Run(Initial(stakeMint), ops))
  {
    InitialInv(stakeMint);
    RunKeepsInv(Initial(stakeMint), ops);
  }

  // ---- orderly runs are fair ----

  /** No slot after the current one has been settled. */
  ghost predicate NotAhead(s: State) {
    s.reach <= s.now + 1
  }

  lemma OrderlyIsFair(s: State, op: Op)
    requires Sound(s) && NotAhead(s) && Orderly(s, op)
    ensures Fair(s, op) && RateFair(s, op)
  {
    FirstSnapshotIsFair(s, op);
    forall t: nat | s.now < t
      ensures SettledShare(s.ledger, t) == 0.0
    {
      NotYetSettled(s.ledger, t);
    }
    if Overwrites(s, op).Some? {
      var launch := Overwrites(s, op).value.0;
      assert [launch][1..] == [];
    }
    KeptRatesAreFair(s, op);
  }

  /** An overwritten launch that takes emission from no settled slot costs no cover. */
  lemma KeptRatesAreFair(s: State, op: Op)
    requires KeepsRates(s, op)
    ensures FairOverwrite(s, op)
  {
    if Overwrites(s, op).Some? {
      var (launch, p) := Overwrites(s, op).value;
      var hi := launch.endsAt + p.endsAt + 1;
      KeptRatesKeepWorth(launch, p, s.ledger, hi);
      SettledWorthIsWorth(launch, s.ledger, hi);
      SettledWorthIsWorth(p, s.ledger, hi);
    }
  }

  lemma SettleReaches(p: Position, farm: FarmView, current: nat, now: nat)
    requires Settle(p, farm, current).Ok? && current <= now && p.cursor <= now + 1
    requires forall w :: w in farm.snapshots ==> w.startedAt <= now
    ensures Settle(p, farm, current).value.cursor <= now + 1
  {
    if p.vested > 0 && FirstAfter(farm.snapshots, p.vestedAt).Some? {
      VestingIsReady(farm.snapshots, p.vestedAt, p.cursor);
    }
  }

  lemma SettlesBehind(s: State, i: nat, current: nat)
    requires Sound(s) && NotAhead(s) && i < |s.farmers|
    requires current <= s.now && Settle(s.farmers[i], View(s), current).Ok?
    ensures Settle(s.farmers[i], View(s), current).value.cursor <= s.now + 1
  {
    assert FarmerInv(s.farmers[i], s);
    forall w | w in View(s).snapshots
      ensures w.startedAt <= s.now
    {
      assert w == EMPTY_SNAPSHOT || w in s.log;
    }
    SettleReaches(s.farmers[i], View(s), current, s.now);
  }

  lemma StepStaysBehind(s: State, op: Op)
    requires Sound(s) && NotAhead(s) && Orderly(s, op)
    ensures NotAhead(Next(s, op))
  {
    hide Settle;
    hide Sound;
    if Try(s, op).Some? {
      match op
      case StartFarming(i, _) => SettlesBehind(s, i, s.now);
      case StopFarming(i, _) => SettlesBehind(s, i, s.now);
      case UpdateEligibleHarvest(i, until) => SettlesBehind(s, i, until);
      case CompoundSameFarm(i) => SettlesBehind(s, i, s.now);
      case CompoundToOtherFarm(i, _) => SettlesBehind(s, i, s.now);
      case _ =>
    }
  }

  lemma {:induction false} OrderlyRunIsFair(s: State, ops: seq<Op>)
    requires Sound(s) && NotAhead(s) && Along(Orderly, s, ops)
    ensures Along(Fair, s, ops) && Along(RateFair, s, ops) && NotAhead(Run(s, ops))
    decreases |ops|
  {
    hide Sound;
    hide NotAhead;
    if ops != [] {
      OrderlyIsFair(s, ops[0]);
      StepStaysBehind(s, ops[0]);
      StepKeepsSound(s, ops[0]);
      OrderlyRunIsFair(Next(s, ops[0]), ops[1..]);
    }
  }

  /** Runs in which snapshots come before any settlement of their slot and in which nobody
      settles the future are fair, and nobody gets ahead of the clock. */
  lemma OrderlyRunsAreFair(stakeMint: Mint, ops: seq<Op>)
    requires Along(Orderly, Initial(stakeMint), ops)
    ensures Along(Fair, Initial(stakeMint), ops) && Along(RateFair, Initial(stakeMint), ops)
    ensures Run(Initial(stakeMint), ops).reach <= Run(Initial(stakeMint), ops).now + 1
  {
    OrderlyRunIsFair(Initial(stakeMint), ops);
  }

  // ---- the main results, from the empty farm ----

  /** Solvency over every fair run, for any number of farmers and harvest mints, at every
      horizon that no farmer has passed. */
  lemma VaultsCoverPromises(stakeMint: Mint, ops: seq<Op>, hi: nat)
    requires Along(Fair, Initial(stakeMint), ops)
    requires Run(Initial(stakeMint), ops).reach <= hi
    ensures Funded(Run(Initial(stakeMint), ops), hi)
  {
    hide Inv;
    hide Funded;
    FairRunKeepsInv(stakeMint, ops);
    InvIsFunded(Run(Initial(stakeMint), ops), hi);
  }

  /** In every fair run, when a harvest mint can be removed because its vault is empty, no
      farmer is owed anything in it, not even for slots that have not been settled, and from
      the first slot that nobody has settled on nothing is going to be emitted. */
  lemma RemovalLeavesNobodyUnpaid(stakeMint: Mint, ops: seq<Op>, m: Mint)
    requires Along(Fair, Initial(stakeMint), ops)
    requires DoRemoveHarvest(Run(Initial(stakeMint), ops), m).Some?
    ensures var s := Run(Initial(stakeMint), ops);
            && EmissionFrom(s.harvests[m], s.reach) == 0
            && forall p, hi: nat :: p in s.farmers ==>
                 Recorded(p.harvests, m) == 0 && Owed(p, s.log, s.harvests[m], m, hi) == 0.0
  {
    hide Inv;
    FairRunKeepsInv(stakeMint, ops);
    var s := Run(Initial(stakeMint), ops);
    InvIsFunded(s, s.reach);
    forall p | p in s.farmers
      ensures 0.0 <= OwedOf(s.log, s.harvests[m], m, s.reach)(p)
    {
      OwedNonNegative(p, s.log, s.harvests[m], m, s.reach);
    }
    TotalNonNegative(s.farmers, OwedOf(s.log, s.harvests[m], m, s.reach));
    forall p, hi: nat | p in s.farmers
      ensures Recorded(p.harvests, m) == 0 && Owed(p, s.log, s.harvests[m], m, hi) == 0.0
    {
      OwedWithinVault(s, p, m, hi);
    }
  }

  lemma {:induction false} PayOutSucceeds(p: Position, vaults: map<Mint, nat>, mints: seq<Mint>)
    requires forall m :: m in vaults ==> Recorded(p.harvests, m) <= vaults[m]
    requires forall m :: m in mints ==> m in vaults
    ensures PayOut(p, vaults, mints).Some?
    decreases |mints|
  {
    if mints != [] {
      var m := mints[0];
      assert m in mints && forall x :: x in mints[1..] ==> x in mints;
      if Recorded(p.harvests, m) == 0 {
        PayOutSucceeds(p, vaults, mints[1..]);
      } else {
        PayOutSucceeds(p.(harvests := p.harvests[m := 0]), vaults[m := vaults[m] - p.harvests[m]], mints[1..]);
      }
    }
  }

  /** In every fair run a claim is never refused for lack of funds: whichever existing harvest
      vaults a farmer names, all transfers go through. */
  lemma ClaimsAreAlwaysPaid(stakeMint: Mint, ops: seq<Op>, i: nat, mints: seq<Mint>)
    requires Along(Fair, Initial(stakeMint), ops)
    requires i < |Run(Initial(stakeMint), ops).farmers| && mints != []
    requires forall m :: m in mints ==> m in Run(Initial(stakeMint), ops).harvests
    ensures DoClaim(Run(Initial(stakeMint), ops), i, mints).Some?
  {
    hide Inv;
    FairRunKeepsInv(stakeMint, ops);
    var s := Run(Initial(stakeMint), ops);
    InvIsFunded(s, s.reach);
    forall m | m in s.vaults
      ensures Recorded(s.farmers[i].harvests, m) <= s.vaults[m]
    {
      OwedWithinVault(s, s.farmers[i], m, 0);
    }
    PayOutSucceeds(s.farmers[i], s.vaults, mints);
  }
}
