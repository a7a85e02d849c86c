/** The harvest sweep: one pass over the snapshots, newest first, popping the ranges of
    each mint's emission history as it goes. Proved equal to the sum in `Earnings`. */
module Sweep {
  import opened Results
  import opened FixedPoint
  import opened FarmTypes
  import opened Emission
  import opened RateHistory
  import opened Earnings

  /** The latest slot a history (oldest range first) still covers. */
  function TopOf(h: seq<Range>): nat {
    if h == [] then 0 else h[|h| - 1].last
  }

  /** `h` covers the slots `1..=TopOf(h)` with their emission rates, newest range last. */
  ghost predicate Covers(h: seq<Range>, ps: seq<Period>) {
    h == [] ||
    (var rest, range := h[..|h| - 1], h[|h| - 1];
     && Covers(rest, ps)
     && range.first == TopOf(rest) + 1 && range.first <= range.last
     && forall t :: range.first <= t <= range.last ==> TpsAt(ps, t) == range.tps)
  }

  ghost predicate Reaches(h: seq<Range>, ps: seq<Period>, top: nat) {
    Covers(h, ps) && top <= TopOf(h)
  }

  lemma {:induction false} TilesCovers(h: seq<Range>, ps: seq<Period>, top: nat)
    requires Tiles(h, ps, top)
    ensures Covers(h, ps) && TopOf(h) == top
  {
    if h != [] {
      var rest := h[..|h| - 1];
      TilesCovers(rest, ps, h[|h| - 1].first - 1);
    }
  }

  /** What the sweep still has to process: windows down to a partly settled oldest one. */
  ghost predicate Pending(w: seq<Snapshot>, since: nat, until: nat) {
    && Descending(w)
    && (forall i :: 0 <= i < |w| - 1 ==> w[i].startedAt > since)
    && (w != [] ==> since <= until && w[0].startedAt <= until)
  }

  /** Every harvest mint's period array is well formed and fits 64-bit integers. */
  ghost predicate FarmOk(farm: map<Mint, seq<Period>>) {
    forall m :: m in farm ==> PeriodsOk(farm[m])
  }

  ghost predicate PeriodsOk(ps: seq<Period>) {
    WellFormed(ps) && ps != [] && forall i :: 0 <= i < |ps| ==> ps[i].tps <= U64_MAX
  }

  /** One emission history per harvest mint, each reaching up to slot `top` at least. */
  ghost predicate Histories(hs: map<Mint, seq<Range>>, farm: map<Mint, seq<Period>>, top: nat) {
    hs.Keys == farm.Keys && forall m :: m in farm ==> Reaches(hs[m], farm[m], top)
  }

  function Recorded(harvests: map<Mint, nat>, m: Mint): nat {
    if m in harvests then harvests[m] else 0
  }

  lemma ShareIsQuotient(staked: nat, total: nat)
    requires staked <= U64_MAX && 0 < total <= U64_MAX
    ensures TryDiv(FromU64(staked), FromU64(total)) == Ok(Share(staked, total))
  {
    SameQuotient(staked * WAD, total, WAD);
    ShareBound(staked, total);
    MulMono(1, total, Share(staked, total));
  }

  /** `share` of every token emitted in the slots `lo <= t < hi`, slot by slot. */
  function ShareOfTps(share: nat, ps: seq<Period>, lo: nat, hi: nat): nat
    decreases hi
  {
    if hi <= lo then 0 else ShareOfTps(share, ps, lo, hi - 1) + share * TpsAt(ps, hi - 1)
  }

  lemma {:induction false} ShareOfTpsIsProduct(share: nat, ps: seq<Period>, lo: nat, hi: nat)
    ensures ShareOfTps(share, ps, lo, hi) == share * SumTps(ps, lo, hi)
    decreases hi
  {
    if lo < hi {
      ShareOfTpsIsProduct(share, ps, lo, hi - 1);
      var a, b := SumTps(ps, lo, hi - 1), TpsAt(ps, hi - 1);
      assert share * (a + b) == share * a + share * b;
    } else {
      assert share * 0 == 0;
    }
  }

  /** Adding the contribution `slots * share * tps` of the slots `from ..= to` to the sum
      over the later slots, in checked fixed-point arithmetic: exact, and refused only
      when the new sum is out of range. */
  method AddRange(sum: Decimal, from: nat, to: nat, tps: nat, share: Decimal, ghost ps: seq<Period>, ghost endsAt: nat)
    returns (total: Result<Decimal>)
    requires from <= to <= endsAt && to - from < U64_MAX && tps <= U64_MAX
    requires forall t :: from <= t <= to ==> TpsAt(ps, t) == tps
    requires sum == ShareOfTps(share, ps, to + 1, endsAt + 1)
    ensures total == Checked(ShareOfTps(share, ps, from, endsAt + 1))
  {
    var slots := to - from + 1;
    JoinRange(ps, from, to, endsAt, tps, share);
    if tps == 0 {
      return Ok(sum);
    }
    MulWhole(slots, share);
    ProductGrows(slots, share, tps);
    var scaled := TryMul(FromU64(slots), share);
    if scaled.Err? {
      return scaled;
    }
    MulWhole(tps, scaled.value);
    MulCommutes(scaled.value, FromU64(tps));
    MulCommutes(tps, scaled.value);
    var part := TryMul(scaled.value, FromU64(tps));
    if part.Err? {
      return part;
    }
    total := TryAdd(sum, part.value);
  }

  lemma JoinRange(ps: seq<Period>, from: nat, to: nat, endsAt: nat, tps: nat, share: nat)
    requires from <= to <= endsAt
    requires forall t :: from <= t <= to ==> TpsAt(ps, t) == tps
    ensures ShareOfTps(share, ps, from, endsAt + 1)
            == ShareOfTps(share, ps, to + 1, endsAt + 1) + share * ((to - from + 1) * tps)
    ensures tps == 0 ==> ShareOfTps(share, ps, from, endsAt + 1) == ShareOfTps(share, ps, to + 1, endsAt + 1)
  {
    ShareOfTpsConstant(share, ps, from, to + 1, tps);
    ShareOfTpsSplit(share, ps, from, to + 1, endsAt + 1);
    assert share * 0 == 0;
  }

  lemma {:induction false} ShareOfTpsSplit(share: nat, ps: seq<Period>, lo: nat, mid: nat, hi: nat)
    requires lo <= mid <= hi
    ensures ShareOfTps(share, ps, lo, hi) == ShareOfTps(share, ps, lo, mid) + ShareOfTps(share, ps, mid, hi)
    decreases hi
  {
    if mid < hi {
      ShareOfTpsSplit(share, ps, lo, mid, hi - 1);
    }
  }

  lemma ShareOfTpsConstant(share: nat, ps: seq<Period>, lo: nat, hi: nat, tps: nat)
    requires lo <= hi
    requires forall t :: lo <= t < hi ==> TpsAt(ps, t) == tps
    ensures ShareOfTps(share, ps, lo, hi) == share * ((hi - lo) * tps)
  {
    ShareOfTpsIsProduct(share, ps, lo, hi);
    SumTpsConstant(ps, lo, hi, tps);
  }

  lemma MulCommutes(a: nat, b: nat)
    ensures a * b == b * a
  {
  }

  lemma ProductGrows(slots: nat, share: nat, tps: nat)
    requires tps > 0
    ensures slots * share <= share * (slots * tps) == (slots * share) * tps
  {
    assert share * (slots * tps) == (slots * share) * tps;
    MulMono(1, tps, slots * share);
  }

  /** Harvest of one mint for one window, popping every range no older window needs. */
  method ConsumeWindow(h: seq<Range>, startsAt: nat, endsAt: nat, share: Decimal, ghost ps: seq<Period>)
    returns (eligible: Result<Decimal>, history: seq<Range>)
    requires Covers(h, ps)
    requires 1 <= startsAt <= endsAt <= TopOf(h) && endsAt < U64_MAX
    requires forall i :: 0 <= i < |h| ==> h[i].tps <= U64_MAX
    ensures eligible == Checked(ShareOfTps(share, ps, startsAt, endsAt + 1))
    ensures Covers(history, ps)
    ensures startsAt - 1 <= TopOf(history)
    ensures history <= h
  {
    history := h;
    var calculateUntil := endsAt;
    var sum: Decimal := 0;
    while history != []
      invariant Covers(history, ps) && history <= h
      invariant startsAt - 1 <= calculateUntil <= endsAt
      invariant TopOf(history) == calculateUntil || (calculateUntil == endsAt && endsAt <= TopOf(history))
      invariant sum == ShareOfTps(share, ps, calculateUntil + 1, endsAt + 1)
      decreases |history|
    {
      var range := history[|history| - 1];
      if range.last < startsAt {
        break;
      }
      if range.first > endsAt {
        history := history[..|history| - 1];
        continue;
      }
      var from, to := Max(range.first, startsAt), Min(range.last, calculateUntil);
      // the checked subtraction `to - from` cannot fail
      assert from <= to == calculateUntil;
      var total := AddRange(sum, from, to, range.tps, share, ps, endsAt);
      if total.Err? {
        ShareOfTpsGrows(share, ps, from, startsAt, endsAt + 1);
        return total, history;
      }
      sum := total.value;
      if range.first >= startsAt && range.first != 0 {
        calculateUntil := range.first - 1;
        history := history[..|history| - 1];
      } else {
        calculateUntil := startsAt - 1;
        break;
      }
    }
    eligible := Ok(sum);
  }

  lemma ShareOfTpsGrows(share: nat, ps: seq<Period>, from: nat, startsAt: nat, hi: nat)
    requires startsAt <= from
    ensures ShareOfTps(share, ps, from, hi) <= ShareOfTps(share, ps, startsAt, hi)
  {
    ShareOfTpsIsProduct(share, ps, from, hi);
    ShareOfTpsIsProduct(share, ps, startsAt, hi);
    SumTpsMono(ps, from, hi, startsAt, hi);
    MulMono(SumTps(ps, from, hi), SumTps(ps, startsAt, hi), share);
  }

  lemma {:induction false} TpsAtBound(ps: seq<Period>, t: nat)
    requires forall i :: 0 <= i < |ps| ==> ps[i].tps <= U64_MAX
    ensures TpsAt(ps, t) <= U64_MAX
  {
    if ps != [] {
      TpsAtBound(ps[1..], t);
    }
  }

  lemma {:induction false} CoveredRatesFit(h: seq<Range>, ps: seq<Period>)
    requires Covers(h, ps) && PeriodsOk(ps)
    ensures forall i :: 0 <= i < |h| ==> h[i].tps <= U64_MAX
  {
    if h != [] {
      CoveredRatesFit(h[..|h| - 1], ps);
      TpsAtBound(ps, h[|h| - 1].first);
    }
  }

  /** Whole tokens for `share` of everything emitted from `startsAt` to `endsAt`. */
  function Gain(share: nat, ps: seq<Period>, startsAt: nat, endsAt: nat): nat {
    Scaled(ShareOfTps(share, ps, startsAt, endsAt + 1))
  }

  lemma GainIsWindowCredit(staked: nat, total: nat, ps: seq<Period>, startsAt: nat, endsAt: nat)
    requires total > 0
    ensures Gain(Share(staked, total), ps, startsAt, endsAt)
            == WindowCredit(staked, total, SumTps(ps, startsAt, endsAt + 1))
  {
    ShareOfTpsIsProduct(Share(staked, total), ps, startsAt, endsAt + 1);
  }

  /** Credits one mint for one window. Fails exactly when its balance would not fit. */
  method AccrueMint(h: seq<Range>, startsAt: nat, endsAt: nat, share: Decimal, balance: nat, ghost ps: seq<Period>)
    returns (r: Result<nat>, history: seq<Range>)
    requires PeriodsOk(ps) && Reaches(h, ps, endsAt)
    requires 1 <= startsAt <= endsAt < U64_MAX
    ensures r.Ok? <==> balance + Gain(share, ps, startsAt, endsAt) <= U64_MAX
    ensures r.Ok? ==> r.value == balance + Gain(share, ps, startsAt, endsAt)
    ensures Reaches(history, ps, startsAt - 1)
  {
    CoveredRatesFit(h, ps);
    var eligible;
    eligible, history := ConsumeWindow(h, startsAt, endsAt, share, ps);
    if eligible.Err? {
      return Err(eligible.error), history;
    }
    var tokens := TryFloor(eligible.value);
    if tokens.Err? || balance + tokens.value > U64_MAX {
      return Err(MathOverflow), history;
    }
    r := Ok(balance + tokens.value);
  }

  /** The mints in `done` have been credited for the window, the others are untouched. */
  ghost predicate AccruedSoFar(farm: map<Mint, seq<Period>>, startsAt: nat, endsAt: nat, share: nat,
                               before: map<Mint, nat>, done: set<Mint>, after: map<Mint, nat>)
    requires done <= farm.Keys
  {
    && after.Keys == before.Keys + done
    && (forall m :: m in done ==>
          Recorded(after, m) == Recorded(before, m) + Gain(share, farm[m], startsAt, endsAt) <= U64_MAX)
    && (forall m :: m !in done ==> Recorded(after, m) == Recorded(before, m))
  }

  lemma AccruedStep(farm: map<Mint, seq<Period>>, startsAt: nat, endsAt: nat, share: nat,
                    before: map<Mint, nat>, done: set<Mint>, after: map<Mint, nat>, m: Mint, balance: nat)
    requires done <= farm.Keys && m in farm && m !in done
    requires AccruedSoFar(farm, startsAt, endsAt, share, before, done, after)
    requires balance == Recorded(before, m) + Gain(share, farm[m], startsAt, endsAt) <= U64_MAX
    ensures AccruedSoFar(farm, startsAt, endsAt, share, before, done + {m}, after[m := balance])
  {
  }

  /** Credits every mint for the window `startsAt ..= endsAt` of one snapshot. Fails exactly
      when some mint's balance would leave the 64-bit range. */
  method AccrueWindow(farm: map<Mint, seq<Period>>, startsAt: nat, endsAt: nat, share: Decimal,
                      hs: map<Mint, seq<Range>>, before: map<Mint, nat>)
    returns (r: Result<map<Mint, nat>>, histories: map<Mint, seq<Range>>)
    requires FarmOk(farm) && Histories(hs, farm, endsAt)
    requires 1 <= startsAt <= endsAt < U64_MAX
    ensures r.Ok? <==> forall m :: m in farm ==> Recorded(before, m) + Gain(share, farm[m], startsAt, endsAt) <= U64_MAX
    ensures r.Ok? ==> AccruedSoFar(farm, startsAt, endsAt, share, before, farm.Keys, r.value)
    ensures r.Ok? ==> Histories(histories, farm, startsAt - 1)
  {
    hide Reaches;
    histories := hs;
    var harvests: map<Mint, nat> := before;
    var todo := farm.Keys;
    ghost var done: set<Mint> := {};
    while todo != {}
      invariant done !! todo && done + todo == farm.Keys
      invariant AccruedSoFar(farm, startsAt, endsAt, share, before, done, harvests)
      invariant histories.Keys == farm.Keys
      invariant forall m :: m in todo ==> Reaches(histories[m], farm[m], endsAt)
      invariant forall m :: m in done ==> Reaches(histories[m], farm[m], startsAt - 1)
      decreases todo
    {
      var mint :| mint in todo;
      var balance, history := AccrueMint(histories[mint], startsAt, endsAt, share, Recorded(harvests, mint),
                                         farm[mint]);
      if balance.Err? {
        return Err(balance.error), histories;
      }
      AccruedStep(farm, startsAt, endsAt, share, before, done, harvests, mint, balance.value);
      histories := histories[mint := history];
      harvests := harvests[mint := balance.value];
      todo := todo - {mint};
      done := done + {mint};
    }
    r := Ok(harvests);
  }

  // ---- the whole sweep ----

  predicate Fits(harvests: map<Mint, nat>) {
    forall m :: m in harvests ==> harvests[m] <= U64_MAX
  }

  predicate SnapshotsFit(w: seq<Snapshot>) {
    forall i :: 0 <= i < |w| ==> w[i].staked <= U64_MAX
  }

  /** Balance of mint `m` once the credit for the snapshots `w` is added. */
  function BalanceAfter(harvests: map<Mint, nat>, m: Mint, w: seq<Snapshot>, next: nat, since: nat, until: nat,
                        staked: nat, ps: seq<Period>): nat {
    Recorded(harvests, m) + Credit(w, next, since, until, staked, ps)
  }

  /** Crediting the snapshots `w` on top of `now` gives what was promised from `start`. */
  ghost predicate Remaining(farm: map<Mint, seq<Period>>, now: map<Mint, nat>, w: seq<Snapshot>, next: nat,
                            since: nat, until: nat, staked: nat, goal: map<Mint, nat>)
    requires goal.Keys == farm.Keys
  {
    forall m :: m in farm ==> BalanceAfter(now, m, w, next, since, until, staked, farm[m]) == goal[m]
  }

  lemma {:induction false} PaddingEarnsNothing(w: seq<Snapshot>, next: nat, since: nat, until: nat, stake: nat,
                                               ps: seq<Period>)
    requires Descending(w) && (w != [] ==> w[0].startedAt == 0)
    ensures Credit(w, next, since, until, stake, ps) == 0
  {
    if w != [] {
      assert w[1..] != [] ==> w[1..][0] == w[1];
      PaddingEarnsNothing(w[1..], w[0].startedAt, since, until, stake, ps);
    }
  }

  lemma SkipPadding(farm: map<Mint, seq<Period>>, now: map<Mint, nat>, w: seq<Snapshot>, next: nat,
                    since: nat, until: nat, staked: nat, goal: map<Mint, nat>)
    requires goal.Keys == farm.Keys
    requires Remaining(farm, now, w, next, since, until, staked, goal)
    requires Descending(w) && w != [] && w[0].startedAt == 0
    ensures Remaining(farm, now, w[1..], next, since, until, staked, goal)
  {
    forall m | m in farm
      ensures BalanceAfter(now, m, w[1..], next, since, until, staked, farm[m]) == goal[m]
    {
      assert w[1..] != [] ==> w[1..][0] == w[1];
      PaddingEarnsNothing(w, next, since, until, staked, farm[m]);
      PaddingEarnsNothing(w[1..], next, since, until, staked, farm[m]);
    }
  }

  lemma SkipEmptyWindow(farm: map<Mint, seq<Period>>, now: map<Mint, nat>, w: seq<Snapshot>, next: nat,
                        since: nat, until: nat, staked: nat, goal: map<Mint, nat>)
    requires goal.Keys == farm.Keys
    requires Remaining(farm, now, w, next, since, until, staked, goal)
    requires w != [] && w[0].staked == 0
    ensures Remaining(farm, now, w[1..], w[0].startedAt, since, until, staked, goal)
  {
    forall m | m in farm
      ensures BalanceAfter(now, m, w[1..], w[0].startedAt, since, until, staked, farm[m]) == goal[m]
    {
      assert BalanceAfter(now, m, w, next, since, until, staked, farm[m]) == goal[m];
    }
  }

  /** One non-empty window: what its accrual adds is what the specification takes off. */
  lemma WindowStep(farm: map<Mint, seq<Period>>, now: map<Mint, nat>, w: seq<Snapshot>, next: nat,
                   since: nat, until: nat, staked: nat, goal: map<Mint, nat>, m: Mint)
    requires goal.Keys == farm.Keys && m in farm
    requires Remaining(farm, now, w, next, since, until, staked, goal)
    requires w != [] && w[0].staked > 0 && 0 < w[0].startedAt < next <= until + 1
    ensures Recorded(now, m) + Gain(Share(staked, w[0].staked), farm[m], Max(w[0].startedAt, since), next - 1)
            + Credit(w[1..], w[0].startedAt, since, until, staked, farm[m]) == goal[m]
  {
    assert BalanceAfter(now, m, w, next, since, until, staked, farm[m]) == goal[m];
    GainIsWindowCredit(staked, w[0].staked, farm[m], Max(w[0].startedAt, since), next - 1);
  }

  lemma TakeWindow(farm: map<Mint, seq<Period>>, now: map<Mint, nat>, w: seq<Snapshot>, next: nat,
                   since: nat, until: nat, staked: nat, goal: map<Mint, nat>,
                   share: nat, a: nat, after: Result<map<Mint, nat>>)
    requires goal.Keys == farm.Keys
    requires Remaining(farm, now, w, next, since, until, staked, goal)
    requires w != [] && w[0].staked > 0 && 0 < w[0].startedAt < next <= until + 1
    requires share == Share(staked, w[0].staked) && a == Max(w[0].startedAt, since)
    requires after.Ok? <==> forall m :: m in farm ==> Recorded(now, m) + Gain(share, farm[m], a, next - 1) <= U64_MAX
    requires after.Ok? ==> AccruedSoFar(farm, a, next - 1, share, now, farm.Keys, after.value)
    ensures after.Ok? ==> Remaining(farm, after.value, w[1..], w[0].startedAt, since, until, staked, goal)
    ensures after.Err? ==> exists m :: m in farm && goal[m] > U64_MAX
  {
    if after.Ok? {
      forall m | m in farm
        ensures BalanceAfter(after.value, m, w[1..], w[0].startedAt, since, until, staked, farm[m]) == goal[m]
      {
        WindowStep(farm, now, w, next, since, until, staked, goal, m);
      }
    } else {
      var m :| m in farm && Recorded(now, m) + Gain(share, farm[m], a, next - 1) > U64_MAX;
      WindowStep(farm, now, w, next, since, until, staked, goal, m);
    }
  }

  lemma NothingRemains(farm: map<Mint, seq<Period>>, now: map<Mint, nat>, next: nat,
                       since: nat, until: nat, staked: nat, goal: map<Mint, nat>)
    requires goal.Keys == farm.Keys && Fits(now)
    requires Remaining(farm, now, [], next, since, until, staked, goal)
    ensures forall m :: m in farm ==> Recorded(now, m) == goal[m] <= U64_MAX
  {
    forall m | m in farm
      ensures Recorded(now, m) == goal[m] <= U64_MAX
    {
      assert BalanceAfter(now, m, [], next, since, until, staked, farm[m]) == goal[m];
    }
  }

  method BuildHistories(farm: map<Mint, seq<Period>>, until: nat) returns (hs: map<Mint, seq<Range>>)
    requires FarmOk(farm)
    ensures Histories(hs, farm, until)
  {
    forall m | m in farm
      ensures Reaches(TpsHistory(farm[m], until), farm[m], until)
    {
      HistoryTilesTime(farm[m], until);
      TilesCovers(TpsHistory(farm[m], until), farm[m], Max(until, farm[m][0].endsAt));
    }
    hs := map m | m in farm :: TpsHistory(farm[m], until);
  }

  /** Adds to every mint of the farm the harvest of the slots `since ..= until`, sweeping
      over the snapshots from the newest to the oldest. The result is, mint by mint, the
      sum in `Earnings`; it fails only if some balance would leave the 64-bit range. */
  method EligibleHarvestUntil(farmHarvests: map<Mint, seq<Period>>, snapshots: seq<Snapshot>,
                              farmerHarvests: map<Mint, nat>, since: nat, until: nat, staked: nat)
    returns (r: Result<map<Mint, nat>>)
    requires FarmOk(farmHarvests) && Fits(farmerHarvests) && SnapshotsFit(snapshots)
    requires staked <= U64_MAX && until <= U64_MAX
    requires Pending(snapshots, since, until)
    ensures r.Ok? <==>
            staked == 0 ||
            (until < U64_MAX && forall m :: m in farmHarvests.Keys - {DEFAULT_MINT} ==>
               BalanceAfter(farmerHarvests, m, snapshots, until + 1, since, until, staked, farmHarvests[m]) <= U64_MAX)
    ensures r.Ok? ==> Fits(r.value)
    ensures r.Ok? ==> farmerHarvests.Keys <= r.value.Keys <= farmerHarvests.Keys + farmHarvests.Keys
    ensures r.Ok? ==> forall m :: m in farmHarvests.Keys - {DEFAULT_MINT} ==>
              Recorded(r.value, m)
                == BalanceAfter(farmerHarvests, m, snapshots, until + 1, since, until, staked, farmHarvests[m])
    ensures r.Ok? ==> forall m :: m !in farmHarvests.Keys - {DEFAULT_MINT} ==>
              Recorded(r.value, m) == Recorded(farmerHarvests, m)
  {
    if staked == 0 {
      forall m | m in farmHarvests.Keys
        ensures Credit(snapshots, until + 1, since, until, staked, farmHarvests[m]) == 0
      {
        CreditZeroStake(snapshots, until + 1, since, until, farmHarvests[m]);
      }
      return Ok(farmerHarvests);
    }
    if until == U64_MAX {
      return Err(MathOverflow);
    }
    var farm := farmHarvests - {DEFAULT_MINT};
    r := SweepSnapshots(farm, snapshots, farmerHarvests, since, until, staked);
  }

  /** Between two snapshots: `w` is still to be processed, all its windows end before
      `skip`, and crediting it on top of `harvests` reaches `goal`. */
  ghost predicate SweepState(farm: map<Mint, seq<Period>>, before: map<Mint, nat>, goal: map<Mint, nat>,
                             since: nat, until: nat, staked: nat, w: seq<Snapshot>, skip: nat,
                             harvests: map<Mint, nat>, histories: map<Mint, seq<Range>>) {
    && goal.Keys == farm.Keys
    && 0 < skip <= until + 1 && (w != [] ==> w[0].startedAt < skip && since < skip)
    && Pending(w, since, until) && SnapshotsFit(w)
    && Remaining(farm, harvests, w, skip, since, until, staked, goal)
    && Histories(histories, farm, skip - 1)
    && Fits(harvests) && before.Keys <= harvests.Keys <= before.Keys + farm.Keys
    && forall m :: m !in farm ==> Recorded(harvests, m) == Recorded(before, m)
  }

  lemma PendingTail(w: seq<Snapshot>, since: nat, until: nat)
    requires Pending(w, since, until) && SnapshotsFit(w) && w != []
    ensures Pending(w[1..], since, until) && SnapshotsFit(w[1..])
    ensures w[1..] != [] ==> since < w[0].startedAt && w[1].startedAt < w[0].startedAt
  {
    if |w| > 1 {
      assert w[0].startedAt > since;
    }
  }

  lemma AccruedKeepsBounds(farm: map<Mint, seq<Period>>, a: nat, b: nat, share: nat,
                           before: map<Mint, nat>, now: map<Mint, nat>, after: map<Mint, nat>)
    requires AccruedSoFar(farm, a, b, share, now, farm.Keys, after)
    requires Fits(now) && before.Keys <= now.Keys <= before.Keys + farm.Keys
    requires forall m :: m !in farm ==> Recorded(now, m) == Recorded(before, m)
    ensures Fits(after) && before.Keys <= after.Keys <= before.Keys + farm.Keys
    ensures forall m :: m !in farm ==> Recorded(after, m) == Recorded(before, m)
  {
    forall m | m in after
      ensures after[m] <= U64_MAX
    {
      assert after[m] == Recorded(after, m);
      if m !in farm {
        assert Recorded(now, m) == now[m];
      }
    }
  }

  /** Processes the newest pending snapshot. */
  method SweepSnapshot(farm: map<Mint, seq<Period>>, snapshot: Snapshot, since: nat, staked: nat, skip: nat,
                       harvests: map<Mint, nat>, histories: map<Mint, seq<Range>>,
                       ghost before: map<Mint, nat>, ghost goal: map<Mint, nat>, ghost until: nat,
                       ghost w: seq<Snapshot>)
    returns (r: Result<map<Mint, nat>>, histories': map<Mint, seq<Range>>, skip': nat)
    requires FarmOk(farm) && 0 < staked <= U64_MAX && until < U64_MAX
    requires w != [] && snapshot == w[0]
    requires SweepState(farm, before, goal, since, until, staked, w, skip, harvests, histories)
    ensures r.Ok? ==> SweepState(farm, before, goal, since, until, staked, w[1..], skip', r.value, histories')
    ensures r.Err? ==> exists m :: m in farm && goal[m] > U64_MAX
  {
    hide Covers;
    hide Remaining;
    hide Gain;
    hide TryDiv;
    hide AccruedSoFar;
    hide Descending;
    hide FarmOk;
    r, histories', skip' := Ok(harvests), histories, skip;
    PendingTail(w, since, until);
    if snapshot.startedAt == 0 {
      // never written: filtered out
      SkipPadding(farm, harvests, w, skip, since, until, staked, goal);
      return;
    }
    if snapshot.staked == 0 {
      SkipEmptyWindow(farm, harvests, w, skip, since, until, staked, goal);
    } else {
      var startsAt, endsAt := Max(snapshot.startedAt, since), skip - 1;
      ShareIsQuotient(staked, snapshot.staked);
      var share := TryDiv(FromU64(staked), FromU64(snapshot.staked)).value;
      r, histories' := AccrueWindow(farm, startsAt, endsAt, share, histories, harvests);
      TakeWindow(farm, harvests, w, skip, since, until, staked, goal, share, startsAt, r);
      if r.Err? {
        return;
      }
      AccruedKeepsBounds(farm, startsAt, endsAt, share, before, harvests, r.value);
    }
    skip' := snapshot.startedAt;
  }

  /** The loop over the snapshots. */
  method SweepSnapshots(farm: map<Mint, seq<Period>>, snapshots: seq<Snapshot>,
                        farmerHarvests: map<Mint, nat>, since: nat, until: nat, staked: nat)
    returns (r: Result<map<Mint, nat>>)
    requires FarmOk(farm) && Fits(farmerHarvests) && SnapshotsFit(snapshots)
    requires 0 < staked <= U64_MAX && until < U64_MAX
    requires Pending(snapshots, since, until)
    ensures r.Ok? <==> forall m :: m in farm ==>
              BalanceAfter(farmerHarvests, m, snapshots, until + 1, since, until, staked, farm[m]) <= U64_MAX
    ensures r.Ok? ==> Fits(r.value)
    ensures r.Ok? ==> farmerHarvests.Keys <= r.value.Keys <= farmerHarvests.Keys + farm.Keys
    ensures r.Ok? ==> forall m :: m in farm ==>
              Recorded(r.value, m)
                == BalanceAfter(farmerHarvests, m, snapshots, until + 1, since, until, staked, farm[m])
    ensures r.Ok? ==> forall m :: m !in farm ==> Recorded(r.value, m) == Recorded(farmerHarvests, m)
  {
    hide Reaches;
    hide Credit;
    ghost var goal: map<Mint, nat> :=
      map m | m in farm :: BalanceAfter(farmerHarvests, m, snapshots, until + 1, since, until, staked, farm[m]);
    var harvests: map<Mint, nat> := farmerHarvests;
    var oldestSlotToSkip: nat := until + 1;
    var histories := BuildHistories(farm, until);
    var i := 0;
    assert snapshots[0..] == snapshots;
    while i < |snapshots|
      invariant 0 <= i <= |snapshots|
      invariant SweepState(farm, farmerHarvests, goal, since, until, staked, snapshots[i..], oldestSlotToSkip, harvests,
                           histories)
    {
      assert snapshots[i..][1..] == snapshots[i + 1..];
      var after;
      after, histories, oldestSlotToSkip :=
        SweepSnapshot(farm, snapshots[i], since, staked, oldestSlotToSkip, harvests, histories,
                      farmerHarvests, goal, until, snapshots[i..]);
      if after.Err? {
        return after;
      }
      harvests := after.value;
      i := i + 1;
    }
    NothingRemains(farm, harvests, oldestSlotToSkip, since, until, staked, goal);
    r := Ok(harvests);
  }
}
