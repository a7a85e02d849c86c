/** What all farmers together are credited for a range of slots, over a whole run, is at most
    what the mint's periods emit in these slots. */
module Ledger {
  import opened Results
  import opened FarmTypes
  import opened Emission
  import opened Periods
  import opened RingBuffer
  import opened Settlement
  import opened Farms
  import opened Shares
  import opened Protocol
  import opened Solvency
  import opened FarmerMoves
  import opened Safety
  import opened AccrualLaws

  /** Every mint of the charge is still there, and wherever the charge settled a share, from the
      oldest retained snapshot on, the mint still emits at least what it did at the time. */
  ghost predicate Backed(c: Charge, log: seq<Snapshot>, harvests: map<Mint, seq<Period>>) {
    && c.harvests.Keys <= harvests.Keys
    && forall m, t: nat :: m in c.harvests && OldestSlot(log) <= t && ChargeShare(c, t) > 0.0 ==>
         TpsAt(c.harvests[m], t) <= TpsAt(harvests[m], t)
  }

  ghost predicate AllBacked(s: State) {
    forall c :: c in s.ledger ==> Backed(c, s.log, s.harvests)
  }

  lemma {:induction false} ChargeWithinSettled(ledger: seq<Charge>, c: Charge, t: nat)
    requires c in ledger
    ensures 0.0 <= ChargeShare(c, t) <= SettledShare(ledger, t)
  {
    SlotShareMono(c.stake, c.stake, c.log, t);
    SlotShareMono(ledger[0].stake, ledger[0].stake, ledger[0].log, t);
    SettledShareNonNegative(ledger[1..], t);
    if ledger[0] != c {
      ChargeWithinSettled(ledger[1..], c, t);
    }
  }

  lemma {:induction false} ForgetKeepsBacked(ledger: seq<Charge>, m0: Mint, log: seq<Snapshot>,
                                             harvests: map<Mint, seq<Period>>)
    requires forall c :: c in ledger ==> Backed(c, log, harvests)
    ensures forall c :: c in Forget(ledger, m0) ==> Backed(c, log, harvests - {m0})
  {
    if ledger != [] {
      ForgetKeepsBacked(ledger[1..], m0, log, harvests);
      var c := ledger[0];
      var c' := c.(harvests := c.harvests - {m0});
      assert Backed(c, log, harvests);
      assert forall t: nat :: ChargeShare(c', t) == ChargeShare(c, t);
      assert Backed(c', log, harvests - {m0});
    }
  }

  /** Scheduling lowers the rate of a slot only by overwriting a launch with less. */
  lemma NewPeriodKeepsRate(ps: seq<Period>, oldestStart: nat, current: nat, p: Period, t: nat)
    requires Scheduled(ps, current) && NewPeriod(ps, oldestStart, current, p).Ok? && oldestStart <= t
    requires ps[0].startsAt > current ==> TpsAt([ps[0]], t) <= TpsAt([p], t)
    ensures TpsAt(ps, t) <= TpsAt(NewPeriod(ps, oldestStart, current, p).value.0, t)
  {
    NewPeriodTimeline(ps, oldestStart, current, p, t);
    LatestStartedIsHeadOrNext(ps, current);
    if ps[0].startsAt > current {
      OverwrittenTps(ps, oldestStart, current, p, t);
    } else if p.startsAt <= t {
      NothingAfterNewest(ps, t);
    }
  }

  lemma NewHarvestPeriodKeepsBacked(s: State, m0: Mint, startsAt: nat, slots: nat, tps: nat)
    requires Sound(s) && AllBacked(s) && DoNewHarvestPeriod(s, m0, startsAt, slots, tps).Some?
    requires KeepsRates(s, NewHarvestPeriod(m0, startsAt, slots, tps))
    ensures AllBacked(DoNewHarvestPeriod(s, m0, startsAt, slots, tps).value)
  {
    var s' := DoNewHarvestPeriod(s, m0, startsAt, slots, tps).value;
    var p := RequestedPeriod(s.now, startsAt, slots, tps).value;
    OverwritesHead(s, m0, startsAt, slots, tps);
    forall c | c in s.ledger
      ensures Backed(c, s'.log, s'.harvests)
    {
      assert Backed(c, s.log, s.harvests);
      forall t: nat | m0 in c.harvests && OldestSlot(s.log) <= t && ChargeShare(c, t) > 0.0
        ensures TpsAt(s.harvests[m0], t) <= TpsAt(s'.harvests[m0], t)
      {
        ChargeWithinSettled(s.ledger, c, t);
        NewPeriodKeepsRate(s.harvests[m0], OldestSlot(s.log), s.now, p, t);
      }
    }
  }

  lemma TakeSnapshotKeepsBacked(s: State)
    requires Sound(s) && AllBacked(s) && DoTakeSnapshot(s).Some?
    ensures AllBacked(DoTakeSnapshot(s).value)
  {
    var s' := DoTakeSnapshot(s).value;
    PushKeepsLog(s.log, s'.log[0]);
    assert OldestSlot(s.log) <= OldestSlot(s'.log);
    forall c | c in s'.ledger
      ensures Backed(c, s'.log, s'.harvests)
    {
      assert Backed(c, s.log, s.harvests);
    }
  }

  lemma MoveKeepsBacked(s: State, i: nat, cs: seq<Charge>, q: Position, stakeVault: nat, vaults: map<Mint, nat>)
    requires FarmInv(s) && AllBacked(s) && i < |s.farmers| && Moves(s, i, cs, q, stakeVault, vaults)
    ensures AllBacked(Moved(s, i, cs, q, stakeVault, vaults))
  {
  }

  lemma StepKeepsBacked(s: State, op: Op)
    requires Sound(s) && AllBacked(s) && RateFair(s, op)
    ensures AllBacked(Next(s, op))
  {
    hide Backed;
    hide Moves;
    if Try(s, op).Some? {
      if OfFarmer(op) {
        var cs, q, stakeVault, vaults := FarmerOpMoves(s, op);
        MoveKeepsBacked(s, op.farmer, cs, q, stakeVault, vaults);
      } else {
        match op
        case TakeSnapshot => TakeSnapshotKeepsBacked(s);
        case NewHarvestPeriod(m, startsAt, slots, tps) => NewHarvestPeriodKeepsBacked(s, m, startsAt, slots, tps);
        case RemoveHarvest(m) => ForgetKeepsBacked(s.ledger, m, s.log, s.harvests);
        case AddHarvest(m) => AddHarvestKeepsBacked(s, m);
        case _ =>
      }
    }
  }

  lemma AddHarvestKeepsBacked(s: State, m: Mint)
    requires AllBacked(s) && DoAddHarvest(s, m).Some?
    ensures AllBacked(DoAddHarvest(s, m).value)
  {
    var s' := DoAddHarvest(s, m).value;
    forall c | c in s.ledger
      ensures Backed(c, s'.log, s'.harvests)
    {
      assert Backed(c, s.log, s.harvests);
    }
  }

  lemma {:induction false} RunKeepsBacked(s: State, ops: seq<Op>)
    requires Sound(s) && AllBacked(s) && Along(RateFair, s, ops)
    ensures AllBacked(Run(s, ops))
    decreases |ops|
  {
    hide Sound;
    hide AllBacked;
    if ops != [] {
      StepKeepsSound(s, ops[0]);
      StepKeepsBacked(s, ops[0]);
      RunKeepsBacked(Next(s, ops[0]), ops[1..]);
    }
  }

  // ---- the cap ----

  lemma {:induction false} AlongWeaker(rule: (State, Op) -> bool, weaker: (State, Op) -> bool, s: State, ops: seq<Op>)
    requires Along(rule, s, ops) && forall s': State, op :: rule(s', op) ==> weaker(s', op)
    ensures Along(weaker, s, ops)
    decreases |ops|
  {
    if ops != [] {
      AlongWeaker(rule, weaker, Next(s, ops[0]), ops[1..]);
    }
  }

  lemma {:induction false} LedgerWithinWorth(ledger: seq<Charge>, log: seq<Snapshot>, harvests: map<Mint, seq<Period>>,
                                             m: Mint, lo: nat, hi: nat)
    requires m in harvests && OldestSlot(log) <= lo
    requires forall c :: c in ledger ==> LogOk(c.log) && Backed(c, log, harvests)
    ensures Credited(ledger, m, lo, hi) as real <= Worth(harvests[m], SettledShareOf(ledger), lo, hi)
  {
    var ps := harvests[m];
    if ledger == [] {
      WorthNonNegative(ps, SettledShareOf([]), lo, hi);
    } else {
      var c := ledger[0];
      assert c in ledger;
      LedgerWithinWorth(ledger[1..], log, harvests, m, lo, hi);
      WorthAdds(ps, ChargeShareOf(c), SettledShareOf(ledger[1..]), SettledShareOf(ledger), lo, hi);
      forall t: nat
        ensures 0.0 <= ChargeShareOf(c)(t)
      {
        SlotShareMono(c.stake, c.stake, c.log, t);
      }
      if m in c.harvests {
        CreditOfWithinWorth(c, m, lo, hi);
        WorthOfRates(c.harvests[m], ps, ChargeShareOf(c), lo, hi);
      } else {
        WorthNonNegative(ps, ChargeShareOf(c), lo, hi);
      }
    }
  }

  /** A charge credits a range of slots in two parts but for one token lost to rounding, and for
      none if the cut is a snapshot start: over whole windows nothing is lost. */
  lemma CreditOfSplits(c: Charge, m: Mint, lo: nat, mid: nat, hi: nat)
    requires LogOk(c.log) && lo <= mid <= hi
    ensures var whole, parts := CreditOf(c, m, lo, hi), CreditOf(c, m, lo, mid) + CreditOf(c, m, mid, hi);
            && parts <= whole <= parts + 1
            && (StartsAt(Tail(c.log), mid) || mid <= c.from || c.to < mid ==> whole == parts)
  {
    if m in c.harvests && hi > 0 {
      var a, b, ps := Max(c.from, lo), Min(c.to, hi - 1), c.harvests[m];
      if a < mid <= b {
        TailDescends(c.log);
        CreditForSplit(Tail(c.log), a, mid - 1, b, c.stake, ps);
      } else if mid <= a {
        CreditForWithinWorth(c.log, a, if mid == 0 then 0 else Min(c.to, mid - 1), c.stake, ps);
      } else {
        CreditForWithinWorth(c.log, Max(c.from, mid), b, c.stake, ps);
      }
    }
  }

  /** In every run with fair snapshots in which no settled slot loses emission, all farmers
      together are credited for the slots `lo <= t < hi`, from the oldest retained snapshot on,
      at most the tokens that the mint's periods emit in them. */
  lemma WindowEmissionCap(stakeMint: Mint, ops: seq<Op>, m: Mint, lo: nat, hi: nat)
    requires Along(RateFair, Initial(stakeMint), ops)
    requires m in Run(Initial(stakeMint), ops).harvests && OldestSlot(Run(Initial(stakeMint), ops).log) <= lo
    ensures var s := Run(Initial(stakeMint), ops);
            Credited(s.ledger, m, lo, hi) <= SumTps(s.harvests[m], lo, hi)
  {
    hide Along;
    var s := Run(Initial(stakeMint), ops);
    AlongWeaker(RateFair, FairSnapshot, Initial(stakeMint), ops);
    RunKeepsBacked(Initial(stakeMint), ops);
    RunKeepsSound(Initial(stakeMint), ops);
    LedgerWithinWorth(s.ledger, s.log, s.harvests, m, lo, hi);
    var one := (t: nat) => 1.0;
    forall t: nat
      ensures SettledShareOf(s.ledger)(t) <= one(t)
    {
      SlotsAreSettledOnce(stakeMint, ops, t);
    }
    WorthMono(s.harvests[m], SettledShareOf(s.ledger), one, lo, hi);
    WorthConstant(s.harvests[m], one, 1.0, lo, hi);
  }
}
