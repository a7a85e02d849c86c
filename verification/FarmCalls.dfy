/** What the calls that do not settle do to the state as a whole: claims, new emission periods,
    snapshots and the closing of a farmer's account. */
module FarmCalls {
  import opened Results
  import opened FarmTypes
  import opened Emission
  import opened Periods
  import opened RingBuffer
  import opened Sweep
  import opened Settlement
  import opened Farms
  import opened Shares
  import opened Totals
  import opened Protocol
  import opened FarmerMoves
  import opened SettledFirst

  /** An accepted call schedules exactly the requested slots, from the current one if no start
      was given, and the vault gains exactly what the emission still to come grows by: `tps` for
      each of these slots, less a scheduled launch that is overwritten. */
  lemma NewPeriodPaysForEmission(s: State, m: Mint, startsAt: nat, slots: nat, tps: nat)
    requires FarmInv(s) && Try(s, NewHarvestPeriod(m, startsAt, slots, tps)).Some?
    ensures m in s.harvests && m in s.vaults && s.harvests[m] != []
    ensures var s', ps := Try(s, NewHarvestPeriod(m, startsAt, slots, tps)).value, s.harvests[m];
            && s'.harvests.Keys == s.harvests.Keys && s'.vaults.Keys == s.vaults.Keys
            && var qs, start := s'.harvests[m], if startsAt == 0 then s.now else startsAt;
            && s' == s.(harvests := s.harvests[m := qs], vaults := s.vaults[m := s'.vaults[m]])
            && s.now <= start && 1 < slots && qs != [] && qs[0] == Period(tps, start, start + slots - 1)
            && s'.vaults[m] + EmissionFrom(ps, s.now) == s.vaults[m] + EmissionFrom(qs, s.now)
            && s'.vaults[m] + (if ps[0].startsAt > s.now then PeriodTotal(ps[0]) else 0) == s.vaults[m] + slots * tps
  {
    hide LogOk;
    hide Scheduled;
    hide EmissionFrom;
    hide LatestStarted;
    hide Rotated;
    var ps, p := s.harvests[m], RequestedPeriod(s.now, startsAt, slots, tps).value;
    OldestHasStarted(s.log, s.now);
    ArrayNotEmpty(ps, s.now);
    FundingMatchesEmission(ps, OldestSlot(s.log), s.now, p, s.now);
    NewPeriodChanges(ps, OldestSlot(s.log), s.now, p);
  }

  lemma OldestHasStarted(log: seq<Snapshot>, now: nat)
    requires LogOk(log) && (log != [] ==> log[0].startedAt <= now)
    ensures OldestSlot(log) <= now
  {
  }

  lemma ArrayNotEmpty(ps: seq<Period>, now: nat)
    requires Scheduled(ps, now)
    ensures ps != []
  {
  }

  lemma NewPeriodChanges(ps: seq<Period>, oldestStart: nat, current: nat, p: Period)
    requires ps != [] && NewPeriod(ps, oldestStart, current, p).Ok?
    ensures var (qs, overwritten) := NewPeriod(ps, oldestStart, current, p).value;
            && qs != [] && qs[0] == p && p.startsAt < p.endsAt
            && overwritten == if ps[0].startsAt > current then Some(ps[0]) else None
  {
  }

  /** A farmer's account is closed exactly when it holds no stake and no balance. Nothing is lost:
      it is owed nothing of any mint, under any periods and before any slot. */
  lemma ClosingForgetsNothing(s: State, i: nat, ps: seq<Period>, m: Mint, hi: nat)
    ensures Try(s, CloseFarmer(i)).Some? <==>
              && i < |s.farmers| && s.farmers[i].staked == 0 && s.farmers[i].vested == 0
              && forall m :: m in s.farmers[i].harvests ==> s.farmers[i].harvests[m] == 0
    ensures Try(s, CloseFarmer(i)).Some? ==>
              && Owed(s.farmers[i], s.log, ps, m, hi) == 0.0
              && Try(s, CloseFarmer(i)).value == s.(farmers := s.farmers[..i] + s.farmers[i + 1..])
  {
    if Try(s, CloseFarmer(i)).Some? {
      var p := s.farmers[i];
      forall t: nat
        ensures UnsettledOf(p, s.log)(t) == 0.0
      {
        SlotSharesAdd(0, 0, s.log, t);
      }
      WorthConstant(ps, UnsettledOf(p, s.log), 0.0, 0, hi);
      assert Times(SumTps(ps, 0, hi) as real, 0.0) == 0.0;
    }
  }

  // ---- claiming ----

  /** What a claim of these mints takes out of mint `m`. */
  function Claimed(p: Position, mints: seq<Mint>, m: Mint): nat {
    if m in mints then Recorded(p.harvests, m) else 0
  }

  /** Every listed mint has a vault that covers its balance. */
  predicate VaultsCover(p: Position, vaults: map<Mint, nat>, mints: seq<Mint>) {
    forall m :: m in mints ==> m in vaults && Recorded(p.harvests, m) <= vaults[m]
  }

  /** However often a mint is listed, its balance is paid once and is 0 afterwards; balances and
      vaults of other mints stay. It is refused exactly if some listed mint has no vault or one
      that holds too little. */
  lemma {:induction false} PayOutPaysOnce(p: Position, vaults: map<Mint, nat>, mints: seq<Mint>, m: Mint)
    ensures PayOut(p, vaults, mints).Some? <==> VaultsCover(p, vaults, mints)
    ensures PayOut(p, vaults, mints).Some? ==>
              var (q, vaults') := PayOut(p, vaults, mints).value;
              && vaults'.Keys == vaults.Keys && q.harvests.Keys == p.harvests.Keys
              && Recorded(q.harvests, m) + Claimed(p, mints, m) == Recorded(p.harvests, m)
              && (m in vaults ==> vaults'[m] + Claimed(p, mints, m) == vaults[m])
    decreases |mints|
  {
    if mints != [] {
      var m0, rest := mints[0], mints[1..];
      assert mints == [m0] + rest;
      if m0 in vaults && Recorded(p.harvests, m0) == 0 {
        PayOutPaysOnce(p, vaults, rest, m);
      } else if m0 in vaults && Recorded(p.harvests, m0) <= vaults[m0] {
        var q, drained := p.(harvests := p.harvests[m0 := 0]), vaults[m0 := vaults[m0] - p.harvests[m0]];
        PayOutPaysOnce(q, drained, rest, m);
        assert VaultsCover(p, vaults, mints) <==> VaultsCover(q, drained, rest) by {
          CoverAfterOne(p, vaults, m0, rest);
        }
      }
    }
  }

  lemma CoverAfterOne(p: Position, vaults: map<Mint, nat>, m0: Mint, rest: seq<Mint>)
    requires m0 in vaults && m0 in p.harvests && p.harvests[m0] <= vaults[m0]
    ensures VaultsCover(p, vaults, [m0] + rest)
            <==> VaultsCover(p.(harvests := p.harvests[m0 := 0]), vaults[m0 := vaults[m0] - p.harvests[m0]], rest)
  {
    var q, drained := p.(harvests := p.harvests[m0 := 0]), vaults[m0 := vaults[m0] - p.harvests[m0]];
    if VaultsCover(q, drained, rest) {
      forall m | m in [m0] + rest
        ensures m in vaults && Recorded(p.harvests, m) <= vaults[m]
      {
        assert m == m0 || m in rest;
      }
    }
    if VaultsCover(p, vaults, [m0] + rest) {
      forall m | m in rest
        ensures m in drained && Recorded(q.harvests, m) <= drained[m]
      {
        assert m in [m0] + rest;
      }
    }
  }

  /** A claim pays what is recorded of the listed mints and forgets nothing else. */
  lemma ClaimingPaysListed(s: State, i: nat, mints: seq<Mint>, m: Mint)
    ensures Try(s, ClaimEligibleHarvest(i, mints)).Some? <==>
              i < |s.farmers| && mints != [] && VaultsCover(s.farmers[i], s.vaults, mints)
    ensures Try(s, ClaimEligibleHarvest(i, mints)).Some? ==>
              && var s', p := Try(s, ClaimEligibleHarvest(i, mints)).value, s.farmers[i];
              && |s'.farmers| == |s.farmers|
              && var q := s'.farmers[i];
              && s' == s.(farmers := s.farmers[i := q], vaults := s'.vaults)
              && q == p.(harvests := q.harvests) && s'.vaults.Keys == s.vaults.Keys
              && Recorded(q.harvests, m) + Claimed(p, mints, m) == Recorded(p.harvests, m)
              && (m in s.vaults ==> s'.vaults[m] + Claimed(p, mints, m) == s.vaults[m])
  {
    if i < |s.farmers| {
      PayOutPaysOnce(s.farmers[i], s.vaults, mints, m);
      if PayOut(s.farmers[i], s.vaults, mints).Some? {
        PayOutKeepsStake(s.farmers[i], s.vaults, mints);
      }
    }
  }

  // ---- snapshots ----

  /** The window in force; the default stands for 0. */
  function Window(slots: nat): nat {
    if slots == 0 then MIN_SNAPSHOT_WINDOW_SLOTS else slots
  }

  /** When the snapshot before the `i`th newest one was taken; 0 if there is none. */
  function Before(log: seq<Snapshot>, i: nat): nat {
    if i + 1 < |log| then log[i + 1].startedAt else 0
  }

  /** The first snapshot was taken `w` slots after the start and every later one `w` or more slots
      after the one before. */
  ghost predicate Apart(log: seq<Snapshot>, w: nat) {
    forall i :: 0 <= i < |log| ==> log[i].startedAt >= w + Before(log, i)
  }

  /** No window shorter than `w` is in force or is ever set. */
  ghost predicate WindowsAtLeast(s: State, ops: seq<Op>, w: nat) {
    && Window(s.minWindow) >= w
    && forall i :: 0 <= i < |ops| && ops[i].SetMinWindow? ==> Window(ops[i].slots) >= w
  }

  /** Over any run, snapshots stay the shortest window apart that was in force. */
  lemma {:induction false} SnapshotsStayApart(s: State, ops: seq<Op>, w: nat)
    requires Apart(s.log, w) && WindowsAtLeast(s, ops, w)
    ensures Apart(Run(s, ops).log, w)
    decreases |ops|
  {
    hide Try;
    if ops != [] {
      StepKeepsApart(s, ops[0], w);
      SnapshotsStayApart(Next(s, ops[0]), ops[1..], w);
    }
  }

  lemma StepKeepsApart(s: State, op: Op, w: nat)
    requires Apart(s.log, w) && Window(s.minWindow) >= w && (op.SetMinWindow? ==> Window(op.slots) >= w)
    ensures Apart(Next(s, op).log, w) && Window(Next(s, op).minWindow) >= w
  {
    hide Settle;
    hide Charges;
    hide NewPeriod;
    hide PayOut;
    if op.TakeSnapshot? && DoTakeSnapshot(s).Some? {
      PushKeepsApart(s.log, Snapshot(s.stakeVault, s.now), w);
    }
  }

  lemma PushKeepsApart(log: seq<Snapshot>, x: Snapshot, w: nat)
    requires Apart(log, w) && x.startedAt >= w + if log == [] then 0 else log[0].startedAt
    ensures Apart([x] + log, w)
  {
    var log' := [x] + log;
    forall i | 0 <= i < |log'|
      ensures log'[i].startedAt >= w + Before(log', i)
    {
      if i > 0 {
        assert log[i - 1].startedAt >= w + Before(log, i - 1);
      }
    }
  }

  /** Once it is full, the buffer therefore reaches back over 999 such windows. */
  lemma {:induction false} BufferReachesBack(log: seq<Snapshot>, w: nat, k: nat)
    requires Apart(log, w) && k < |log|
    ensures log[0].startedAt >= log[k].startedAt + k * w
  {
    if k > 0 {
      BufferReachesBack(log, w, k - 1);
      assert log[k - 1].startedAt >= w + Before(log, k - 1);
      assert k * w == (k - 1) * w + w;
    }
  }
}
