/** The `Farm` account: harvest mints with their periods, and the snapshot ring buffer. */
module Farms {
  import opened Results
  import opened FarmTypes
  import opened Periods
  import opened RingBuffer
  import opened Earnings
  import opened Sweep
  import opened Settlement

  /** Period arrays by mint; where a mint occurs twice the later entry counts. */
  function PeriodsByMint(hs: seq<Harvest>): map<Mint, seq<Period>> {
    if hs == [] then map[]
    else PeriodsByMint(hs[..|hs| - 1])[hs[|hs| - 1].mint := hs[|hs| - 1].periods]
  }

  /** The same without the unused entries. */
  function HarvestTable(hs: seq<Harvest>): map<Mint, seq<Period>> {
    PeriodsByMint(hs) - {DEFAULT_MINT}
  }

  ghost predicate DistinctMints(hs: seq<Harvest>) {
    forall i, j :: 0 <= i < j < |hs| && hs[i].mint == hs[j].mint ==> hs[i].mint == DEFAULT_MINT
  }

  ghost predicate HarvestsOk(hs: seq<Harvest>) {
    && DistinctMints(hs)
    && forall i :: 0 <= i < |hs| ==> |hs[i].periods| == HARVEST_PERIODS_LEN && PeriodsOk(hs[i].periods)
  }

  lemma {:induction false} PeriodsByMintLookup(hs: seq<Harvest>, m: Mint)
    requires DistinctMints(hs) && m != DEFAULT_MINT
    ensures m in PeriodsByMint(hs) <==> exists i :: 0 <= i < |hs| && hs[i].mint == m
    ensures forall i :: 0 <= i < |hs| && hs[i].mint == m ==>
              m in PeriodsByMint(hs) && PeriodsByMint(hs)[m] == hs[i].periods
  {
    if hs != [] {
      var front := hs[..|hs| - 1];
      PeriodsByMintLookup(front, m);
      if hs[|hs| - 1].mint != m && m in PeriodsByMint(hs) {
        var i :| 0 <= i < |front| && front[i].mint == m;
        assert hs[i].mint == m;
      }
    }
  }

  /** Every key of the table, the blank one included, comes from some entry. */
  lemma {:induction false} PeriodsByMintSource(hs: seq<Harvest>, m: Mint)
    requires m in PeriodsByMint(hs)
    ensures exists i :: 0 <= i < |hs| && hs[i].mint == m && PeriodsByMint(hs)[m] == hs[i].periods
  {
    if hs[|hs| - 1].mint != m {
      PeriodsByMintSource(hs[..|hs| - 1], m);
      var front := hs[..|hs| - 1];
      var i :| 0 <= i < |front| && front[i].mint == m && PeriodsByMint(front)[m] == front[i].periods;
      assert hs[i].mint == m;
    }
  }

  /** Replacing the entry of mint `m` (or a blank one) replaces its row of the table. */
  lemma TableAfterWrite(hs: seq<Harvest>, i: nat, h: Harvest)
    requires i < |hs| && DistinctMints(hs) && DistinctMints(hs[i := h])
    requires h.mint == hs[i].mint || h.mint == DEFAULT_MINT || hs[i].mint == DEFAULT_MINT
    ensures HarvestTable(hs[i := h]) ==
            if h.mint == DEFAULT_MINT then HarvestTable(hs) - {hs[i].mint}
            else HarvestTable(hs)[h.mint := h.periods]
  {
    var gs := hs[i := h];
    forall m | m != DEFAULT_MINT
      ensures m in HarvestTable(gs) <==> if m == h.mint then true else m != hs[i].mint && m in HarvestTable(hs)
      ensures m in HarvestTable(gs) ==> HarvestTable(gs)[m] == if m == h.mint then h.periods else HarvestTable(hs)[m]
    {
      PeriodsByMintLookup(hs, m);
      PeriodsByMintLookup(gs, m);
      assert gs[i] == h;
      if m != h.mint {
        assert forall j :: 0 <= j < |hs| && j != i ==> gs[j] == hs[j];
        if m in HarvestTable(gs) {
          var j :| 0 <= j < |gs| && gs[j].mint == m;
          assert hs[j].mint == m;
        }
        if m != hs[i].mint && m in HarvestTable(hs) {
          var j :| 0 <= j < |hs| && hs[j].mint == m;
          assert gs[j].mint == m;
        }
      }
    }
  }

  lemma TableOk(hs: seq<Harvest>)
    requires HarvestsOk(hs)
    ensures FarmOk(PeriodsByMint(hs)) && FarmOk(HarvestTable(hs))
    ensures forall m :: m in PeriodsByMint(hs) ==> |PeriodsByMint(hs)[m]| == HARVEST_PERIODS_LEN
  {
    forall m | m in PeriodsByMint(hs)
      ensures PeriodsOk(PeriodsByMint(hs)[m]) && |PeriodsByMint(hs)[m]| == HARVEST_PERIODS_LEN
    {
      PeriodsByMintSource(hs, m);
    }
  }

  /** No more mints than array entries, the blank key counted in. */
  lemma {:induction false} TableSize(hs: seq<Harvest>)
    ensures |PeriodsByMint(hs).Keys| <= |hs|
  {
    if hs != [] {
      TableSize(hs[..|hs| - 1]);
      assert PeriodsByMint(hs).Keys == PeriodsByMint(hs[..|hs| - 1]).Keys + {hs[|hs| - 1].mint};
    }
  }

  /** Writing a changed period array keeps the harvest array well formed. */
  lemma NewPeriodWrite(hs: seq<Harvest>, i: nat, oldest: nat, current: nat, p: Period)
    requires HarvestsOk(hs) && i < |hs| && hs[i].mint != DEFAULT_MINT && p.tps <= U64_MAX
    requires Scheduled(hs[i].periods, current) && NewPeriod(hs[i].periods, oldest, current, p).Ok?
    ensures var h := hs[i].(periods := NewPeriod(hs[i].periods, oldest, current, p).value.0);
            HarvestsOk(hs[i := h]) && HarvestTable(hs[i := h]) == HarvestTable(hs)[h.mint := h.periods]
  {
    var qs := NewPeriod(hs[i].periods, oldest, current, p).value.0;
    NewPeriodKeepsSchedule(hs[i].periods, oldest, current, p);
    forall j | 0 <= j < |qs|
      ensures qs[j].tps <= U64_MAX
    {
      assert qs[j] == p || qs[j] == hs[i].periods[j] || (j > 0 && qs[j] == hs[i].periods[j - 1]);
    }
    TableAfterWrite(hs, i, hs[i].(periods := qs));
  }

  class Farm {
    var stakeMint: Mint
    var harvests: array<Harvest>
    var ringBuffer: array<Snapshot>
    var ringBufferTip: nat
    var minSnapshotWindowSlots: nat
    /** Every snapshot ever taken, newest first. */
    ghost var log: seq<Snapshot>

    ghost predicate Valid()
      reads this, harvests, ringBuffer
    {
      && harvests.Length == MAX_HARVEST_MINTS && HarvestsOk(harvests[..])
      && IsRing(ringBuffer[..], ringBufferTip)
      && minSnapshotWindowSlots <= U64_MAX
      && LogOk(log) && SnapshotsFit(log)
      && (log != [] ==> log[0].startedAt <= U64_MAX)
      && Retained(ringBuffer[..], ringBufferTip) == Tail(log)
    }

    /** What farmers see. */
    ghost function View(): FarmView
      reads this, harvests, ringBuffer
      requires Valid()
    {
      FarmView(Tail(log), HarvestTable(harvests[..]))
    }

    constructor (stakeMint: Mint)
      ensures Valid() && fresh(harvests) && fresh(ringBuffer)
      ensures this.stakeMint == stakeMint && minSnapshotWindowSlots == 0
      ensures log == [] && View().harvests == map[]
    {
      this.stakeMint := stakeMint;
      harvests := new Harvest[MAX_HARVEST_MINTS](_ => EMPTY_HARVEST);
      ringBuffer := new Snapshot[SNAPSHOTS_LEN](_ => EMPTY_SNAPSHOT);
      ringBufferTip := 0;
      minSnapshotWindowSlots := 0;
      log := [];
      new;
      assert Retained(ringBuffer[..], 0) == Tail([]);
      forall m | m in PeriodsByMint(harvests[..])
        ensures m == DEFAULT_MINT
      {
        PeriodsByMintSource(harvests[..], m);
      }
    }

    /** Opens a new snapshot window with the vault's balance, unless the previous one was
        opened too recently: exactly one entry is pushed onto the log. */
    method TakeSnapshot(clock: nat, stakeVault: nat) returns (r: Result<()>)
      requires Valid() && clock <= U64_MAX && stakeVault <= U64_MAX
      modifies this, ringBuffer
      ensures Valid() && ringBuffer == old(ringBuffer) && harvests == old(harvests)
      ensures stakeMint == old(stakeMint) && minSnapshotWindowSlots == old(minSnapshotWindowSlots)
      ensures r.Ok? <==> CanSnapshot(old(log), old(minSnapshotWindowSlots), clock)
      ensures log == if r.Ok? then [Snapshot(stakeVault, clock)] + old(log) else old(log)
    {
      var window := if minSnapshotWindowSlots == 0 then MIN_SNAPSHOT_WINDOW_SLOTS else minSnapshotWindowSlots;
      var last := ringBuffer[ringBufferTip].startedAt;
      assert last == Retained(ringBuffer[..], ringBufferTip)[0].startedAt == Tail(log)[0].startedAt;
      if last + window > U64_MAX {
        return Err(MathOverflow);
      }
      if clock < last + window {
        return Err(SnapshotTooSoon);
      }
      ghost var buf, tip := ringBuffer[..], ringBufferTip;
      var isTipLastIndex := ringBufferTip == ringBuffer.Length - 1;
      ringBufferTip := if isTipLastIndex then 0 else ringBufferTip + 1;
      ringBuffer[ringBufferTip] := Snapshot(stakeVault, clock);
      assert ringBuffer[..] == buf[ringBufferTip := Snapshot(stakeVault, clock)];
      WriteIsPush(buf, tip, log, Snapshot(stakeVault, clock));
      PushKeepsLog(log, Snapshot(stakeVault, clock));
      log := [Snapshot(stakeVault, clock)] + log;
      r := Ok(());
    }

    method FirstSnapshotAfterSlot(slot: nat) returns (s: Option<Snapshot>)
      requires Valid()
      ensures s == FirstAfter(View().snapshots, slot)
    {
      FirstSnapshotAfterMeaning(ringBuffer[..], ringBufferTip, slot);
      s := FirstSnapshotAfter(ringBuffer[..], ringBufferTip, slot);
    }

    /** The window snapshots since the cursor that did not start after `until`. */
    method SnapshotsForSweep(since: nat, until: nat) returns (w: seq<Snapshot>)
      requires Valid()
      ensures w == SweepInput(View().snapshots, since, until)
    {
      WindowSnapshotsMeaning(ringBuffer[..], ringBufferTip, since);
      w := NotAfter(WindowSnapshots(ringBuffer[..], ringBufferTip, since), until);
    }

    method OldestStart() returns (slot: nat)
      requires Valid()
      ensures slot == Tail(log)[SNAPSHOTS_LEN - 1].startedAt
    {
      OldestIsLastRetained(ringBuffer[..], ringBufferTip);
      slot := OldestSnapshot(ringBuffer[..], ringBufferTip).startedAt;
    }

    /** The first array entry with the given mint. */
    method FindMint(mint: Mint) returns (i: nat)
      requires Valid()
      ensures i <= harvests.Length
      ensures i < harvests.Length ==> harvests[i].mint == mint
      ensures forall j :: 0 <= j < i ==> harvests[j].mint != mint
    {
      i := 0;
      while i < harvests.Length && harvests[i].mint != mint
        invariant i <= harvests.Length
        invariant forall j :: 0 <= j < i ==> harvests[j].mint != mint
      {
        i := i + 1;
      }
    }

    method AddHarvest(mint: Mint, vault: Mint) returns (r: Result<()>)
      requires Valid() && mint != DEFAULT_MINT
      modifies harvests
      ensures Valid()
      ensures r.Err? ==> harvests[..] == old(harvests[..])
      ensures r.Ok? <==>
              && mint !in old(View().harvests)
              && exists i :: 0 <= i < harvests.Length && old(harvests[i].mint) == DEFAULT_MINT
      ensures r.Ok? ==> View().harvests == old(View().harvests)[mint := EmptyPeriods()]
    {
      PeriodsByMintLookup(harvests[..], mint);
      var i := FindMint(mint);
      if i < harvests.Length {
        return Err(InvalidAccount);
      }
      i := FindMint(DEFAULT_MINT);
      if i == harvests.Length {
        return Err(InvalidAccount);
      }
      ghost var before := harvests[..];
      harvests[i] := Harvest(mint, vault, EmptyPeriods());
      assert harvests[..] == before[i := Harvest(mint, vault, EmptyPeriods())];
      TableAfterWrite(before, i, Harvest(mint, vault, EmptyPeriods()));
      BlankIsScheduled(0);
      r := Ok(());
    }

    /** Schedules emission for a mint: see `Periods.NewPeriod`. Returns an overwritten launch. */
    method NewHarvestPeriod(currentSlot: nat, mint: Mint, period: Period) returns (r: Result<Option<Period>>)
      requires Valid() && mint != DEFAULT_MINT && period.tps <= U64_MAX
      requires mint in View().harvests ==> Scheduled(View().harvests[mint], currentSlot)
      modifies harvests
      ensures Valid()
      ensures mint !in old(View().harvests) ==> r == Err(UnknownHarvestMint)
      ensures mint in old(View().harvests) ==>
                var change := NewPeriod(old(View().harvests)[mint], OldestSlot(log), currentSlot, period);
                && (r.Ok? <==> change.Ok?)
                && (r.Ok? ==> r.value == change.value.1)
                && (r.Ok? ==> View().harvests == old(View().harvests)[mint := change.value.0])
      ensures r.Err? ==> harvests[..] == old(harvests[..])
    {
      PeriodsByMintLookup(harvests[..], mint);
      var oldest := OldestStart();
      var i := FindMint(mint);
      if i == harvests.Length {
        return Err(UnknownHarvestMint);
      }
      assert harvests[..][i] == harvests[i];
      assert View().harvests[mint] == harvests[i].periods;
      var changed := NewPeriod(harvests[i].periods, oldest, currentSlot, period);
      if changed.Err? {
        return Err(changed.error);
      }
      ghost var before := harvests[..];
      NewPeriodWrite(before, i, oldest, currentSlot, period);
      var h := harvests[i].(periods := changed.value.0);
      harvests[i] := h;
      assert harvests[..] == before[i := h];
      r := Ok(changed.value.1);
    }

    /** Frees the array entry of a mint. */
    method RemoveHarvest(mint: Mint) returns (r: Result<()>)
      requires Valid() && mint != DEFAULT_MINT
      modifies harvests
      ensures Valid()
      ensures r.Ok? <==> mint in old(View().harvests)
      ensures View().harvests == old(View().harvests) - {mint}
    {
      PeriodsByMintLookup(harvests[..], mint);
      var i := FindMint(mint);
      if i == harvests.Length {
        return Err(InvalidAccount);
      }
      ghost var before := harvests[..];
      harvests[i] := EMPTY_HARVEST;
      assert harvests[..] == before[i := EMPTY_HARVEST];
      TableAfterWrite(before, i, EMPTY_HARVEST);
      BlankIsScheduled(0);
      r := Ok(());
    }
  }

  /** Enough slots have passed since the newest snapshot; the window is never zero slots. */
  predicate CanSnapshot(log: seq<Snapshot>, minWindow: nat, clock: nat) {
    var last := if log == [] then 0 else log[0].startedAt;
    last + (if minWindow == 0 then MIN_SNAPSHOT_WINDOW_SLOTS else minWindow) <= clock
  }

  /** Start of the oldest buffer entry, 0 while the buffer has never been full. */
  function OldestSlot(log: seq<Snapshot>): nat {
    Tail(log)[SNAPSHOTS_LEN - 1].startedAt
  }

  lemma PushKeepsLog(log: seq<Snapshot>, s: Snapshot)
    requires LogOk(log) && s.startedAt > 0 && (log != [] ==> s.startedAt > log[0].startedAt)
    ensures LogOk([s] + log)
  {
  }

  lemma TailDescends(log: seq<Snapshot>)
    requires LogOk(log)
    ensures Descending(Tail(log))
  {
  }

  lemma ViewOk(farm: Farm)
    requires farm.Valid()
    ensures FarmViewOk(farm.View())
  {
    TableOk(farm.harvests[..]);
    TailDescends(farm.log);
    assert forall i :: 0 <= i < |farm.log| ==> farm.log[i].startedAt <= U64_MAX;
  }
}
