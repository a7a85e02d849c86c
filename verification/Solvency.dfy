/** Solvency of one harvest vault: it covers what is recorded for farmers and the worth of all
    shares that have not been settled, past and future. How the admin's calls affect that. */
module Solvency {
  import opened Results
  import opened FarmTypes
  import opened Emission
  import opened Periods
  import opened Sweep
  import opened Settlement
  import opened Totals
  import opened Shares
  import opened Protocol

  function OwedOf(log: seq<Snapshot>, ps: seq<Period>, m: Mint, hi: nat): Position -> real {
    (p: Position) => Owed(p, log, ps, m, hi)
  }

  function DepositOf(): Position -> real {
    (p: Position) => (p.staked + p.vested) as real
  }

  function RecordedOf(m: Mint): Position -> real {
    (p: Position) => Recorded(p.harvests, m) as real
  }

  function UnsettledWorthOf(log: seq<Snapshot>, ps: seq<Period>, hi: nat): Position -> real {
    (p: Position) => Worth(ps, UnsettledOf(p, log), 0, hi)
  }

  /** The part of a slot's emission that nobody has been settled for. */
  function FreeShareOf(ledger: seq<Charge>): nat -> real {
    (t: nat) => 1.0 - SettledShare(ledger, t)
  }

  function TotalUnsettledOf(fs: seq<Position>, log: seq<Snapshot>): nat -> real {
    (t: nat) => Total(fs, UnsettledAt(log, t))
  }

  /** The vault covers all recorded balances and everything not settled before slot `hi`. */
  ghost predicate Covered(vault: nat, fs: seq<Position>, ledger: seq<Charge>, ps: seq<Period>, m: Mint, hi: nat) {
    Total(fs, RecordedOf(m)) + Worth(ps, FreeShareOf(ledger), 0, hi) <= vault as real
  }

  // ---- horizons ----

  lemma CoveredEarlier(vault: nat, fs: seq<Position>, ledger: seq<Charge>, ps: seq<Period>, m: Mint, hi: nat,
                       later: nat)
    requires hi <= later && Covered(vault, fs, ledger, ps, m, later)
    requires forall t: nat :: SettledShare(ledger, t) <= 1.0
    ensures Covered(vault, fs, ledger, ps, m, hi)
  {
    WorthSplit(ps, FreeShareOf(ledger), 0, hi, later);
    WorthNonNegative(ps, FreeShareOf(ledger), hi, later);
  }

  /** Slots that nobody has settled are worth their whole emission. */
  lemma FreeIsEmission(ledger: seq<Charge>, ps: seq<Period>, lo: nat, hi: nat)
    requires forall t: nat :: lo <= t < hi ==> SettledShare(ledger, t) == 0.0
    ensures Worth(ps, FreeShareOf(ledger), lo, hi) == SumTps(ps, lo, hi) as real
  {
    WorthConstant(ps, FreeShareOf(ledger), 1.0, lo, hi);
  }

  // ---- all farmers together ----

  /** The worth of all farmers' unsettled shares, farmer by farmer or slot by slot. */
  lemma {:induction false} TotalWorthBySlot(fs: seq<Position>, log: seq<Snapshot>, ps: seq<Period>, hi: nat)
    ensures Total(fs, UnsettledWorthOf(log, ps, hi)) == Worth(ps, TotalUnsettledOf(fs, log), 0, hi)
  {
    if hi == 0 {
      TotalScale(fs, DepositOf(), 0.0, UnsettledWorthOf(log, ps, 0));
    } else {
      TotalWorthBySlot(fs, log, ps, hi - 1);
      var k := TpsAt(ps, hi - 1) as real;
      var slot := (p: Position) => Times(k, UnsettledAt(log, hi - 1)(p));
      TotalScale(fs, UnsettledAt(log, hi - 1), k, slot);
      TotalSum(fs, UnsettledWorthOf(log, ps, hi - 1), slot, UnsettledWorthOf(log, ps, hi));
    }
  }

  /** While all slots fit, the vault covers what all farmers are owed for slots before `hi`,
      unsettled ones included, and the whole emission from then on. */
  lemma CoversPromises(vault: nat, fs: seq<Position>, ledger: seq<Charge>, log: seq<Snapshot>, ps: seq<Period>, m: Mint,
                       hi: nat)
    requires ps != [] && Covered(vault, fs, ledger, ps, m, Max(hi, ps[0].endsAt + 1))
    requires forall c :: c in ledger ==> c.to < hi
    requires forall t: nat :: SlotFits(ledger, fs, log, t)
    ensures Total(fs, OwedOf(log, ps, m, hi)) + EmissionFrom(ps, hi) as real <= vault as real
  {
    var horizon, free := Max(hi, ps[0].endsAt + 1), FreeShareOf(ledger);
    TotalSum(fs, RecordedOf(m), UnsettledWorthOf(log, ps, hi), OwedOf(log, ps, m, hi));
    TotalWorthBySlot(fs, log, ps, hi);
    forall t: nat
      ensures TotalUnsettledOf(fs, log)(t) <= free(t)
    {
      assert SlotFits(ledger, fs, log, t);
    }
    WorthMono(ps, TotalUnsettledOf(fs, log), free, 0, hi);
    WorthSplit(ps, free, 0, hi, horizon);
    forall t: nat | hi <= t
      ensures SettledShare(ledger, t) == 0.0
    {
      NotYetSettled(ledger, t);
    }
    FreeIsEmission(ledger, ps, hi, horizon);
  }

  lemma OwedNonNegative(p: Position, log: seq<Snapshot>, ps: seq<Period>, m: Mint, hi: nat)
    ensures 0.0 <= Worth(ps, UnsettledOf(p, log), 0, hi) <= Owed(p, log, ps, m, hi)
  {
    forall t: nat
      ensures 0.0 <= UnsettledOf(p, log)(t)
    {
      UnsettledNonNegative(p, log, t);
    }
    WorthNonNegative(ps, UnsettledOf(p, log), 0, hi);
  }

  // ---- the admin schedules a period ----

  lemma BalancedTimes(a: nat, b: nat, c: nat, d: nat, x: real)
    requires c + d == a + b
    ensures Times(c as real, x) + Times(d as real, x) == Times(a as real, x) + Times(b as real, x)
  {
    assert (c as real + d as real) * x == (a as real + b as real) * x;
  }

  /** The worth of shares under a balance of four timelines. */
  lemma {:induction false} WorthBalance(ps: seq<Period>, add: seq<Period>, qs: seq<Period>, drop: seq<Period>,
                                        f: nat -> real, hi: nat)
    requires forall t: nat :: t < hi ==> TpsAt(qs, t) + TpsAt(drop, t) == TpsAt(ps, t) + TpsAt(add, t)
    ensures Worth(qs, f, 0, hi) + Worth(drop, f, 0, hi) == Worth(ps, f, 0, hi) + Worth(add, f, 0, hi)
  {
    hide Times;
    hide TpsAt;
    if hi > 0 {
      var t := hi - 1;
      WorthBalance(ps, add, qs, drop, f, t);
      BalancedTimes(TpsAt(ps, t), TpsAt(add, t), TpsAt(qs, t), TpsAt(drop, t), f(t));
    }
  }

  lemma TimesAtMost(a: nat, b: nat, c: nat, x: real)
    requires c <= a + b && 0.0 <= x
    ensures Times(c as real, x) <= Times(a as real, x) + Times(b as real, x)
  {
    assert (a + b - c) as real * x >= 0.0;
    assert (a + b - c) as real == a as real + b as real - c as real;
  }

  lemma {:induction false} WorthAtMost(ps: seq<Period>, add: seq<Period>, qs: seq<Period>, f: nat -> real, hi: nat)
    requires forall t: nat :: t < hi ==> TpsAt(qs, t) <= TpsAt(ps, t) + TpsAt(add, t) && 0.0 <= f(t)
    ensures Worth(qs, f, 0, hi) <= Worth(ps, f, 0, hi) + Worth(add, f, 0, hi)
  {
    hide Times;
    hide TpsAt;
    if hi > 0 {
      var t := hi - 1;
      WorthAtMost(ps, add, qs, f, t);
      TimesAtMost(TpsAt(ps, t), TpsAt(add, t), TpsAt(qs, t), f(t));
    }
  }

  /** Overwriting a launch moves emission from its slots to those of the new period. */
  lemma OverwrittenTps(ps: seq<Period>, oldestStart: nat, current: nat, p: Period, t: nat)
    requires Scheduled(ps, current) && NewPeriod(ps, oldestStart, current, p).Ok?
    requires NewPeriod(ps, oldestStart, current, p).value.1.Some?
    ensures var (qs, overwritten) := NewPeriod(ps, oldestStart, current, p).value;
            && overwritten.value == ps[0] && current < ps[0].startsAt <= ps[0].endsAt
            && TpsAt(qs, t) + TpsAt([ps[0]], t) == TpsAt(ps, t) + TpsAt([p], t)
  {
    LatestStartedIsHeadOrNext(ps, current);
    assert ps[0 := p][1..] == ps[1..];
    assert [p][1..] == [] == [ps[0]][1..];
    if ps[0].startsAt <= t || p.startsAt <= t {
      WellFormedTail(ps);
      assert ps[1..][0] == ps[1];
      NothingAfterNewest(ps[1..], t);
    }
  }

  /** Otherwise emission is only added, except that the oldest period may be forgotten. */
  lemma RotatedTpsAtMost(ps: seq<Period>, p: Period, t: nat)
    requires ps != []
    ensures TpsAt(Rotated(ps, p), t) <= TpsAt(ps, t) + TpsAt([p], t)
  {
    assert Rotated(ps, p)[1..] == ps[..|ps| - 1];
    PrefixTps(ps, t);
  }

  /** One period's shares are worth at most its total, and exactly that if nothing was settled. */
  lemma WorthOfPeriod(p: Period, ledger: seq<Charge>, hi: nat)
    requires p.startsAt <= p.endsAt < hi
    ensures Worth([p], FreeShareOf(ledger), 0, hi) == PeriodTotal(p) as real - Worth([p], SettledShareOf(ledger), 0, hi)
  {
    var one := (t: nat) => 1.0;
    WorthConstant([p], one, 1.0, 0, hi);
    WorthAdds([p], FreeShareOf(ledger), SettledShareOf(ledger), one, 0, hi);
    SumTpsSplit([p], 0, p.startsAt, hi);
    SumTpsSplit([p], p.startsAt, p.endsAt + 1, hi);
    assert [p][1..] == [];
    SumTpsConstant([p], 0, p.startsAt, 0);
    SumTpsConstant([p], p.startsAt, p.endsAt + 1, p.tps);
    SumTpsConstant([p], p.endsAt + 1, hi, 0);
  }

  lemma SettledWorthNonNegative(ps: seq<Period>, ledger: seq<Charge>, hi: nat)
    ensures 0.0 <= Worth(ps, SettledShareOf(ledger), 0, hi)
  {
    forall t: nat
      ensures 0.0 <= SettledShareOf(ledger)(t)
    {
      SettledShareNonNegative(ledger, t);
    }
    WorthNonNegative(ps, SettledShareOf(ledger), 0, hi);
  }

  lemma SettledWorthIsWorth(p: Period, ledger: seq<Charge>, hi: nat)
    requires p.endsAt < hi
    ensures Worth([p], SettledShareOf(ledger), 0, hi) == SettledWorth(p, ledger)
  {
    WorthSplit([p], SettledShareOf(ledger), 0, p.endsAt + 1, hi);
    forall t: nat | p.endsAt < t
      ensures TpsAt([p], t) == 0
    {
      assert [p][1..] == [];
    }
    SilentWorth([p], SettledShareOf(ledger), p.endsAt + 1, hi);
  }

  /** Slots without emission are worth nothing. */
  lemma {:induction false} SilentWorth(ps: seq<Period>, f: nat -> real, lo: nat, hi: nat)
    requires forall t: nat :: lo <= t < hi ==> TpsAt(ps, t) == 0
    ensures Worth(ps, f, lo, hi) == 0.0
    decreases hi
  {
    if lo < hi {
      SilentWorth(ps, f, lo, hi - 1);
      assert Times(0.0, f(hi - 1)) == 0.0;
    }
  }

  /** What overwriting a launch does to a vault's cover, exactly. The vault pays the launch's
      total back and receives the new period's; what it has to cover changes by as much, but for
      the shares that were settled already. */
  lemma OverwriteChangesCover(ps: seq<Period>, oldestStart: nat, current: nat, p: Period, ledger: seq<Charge>, hi: nat)
    requires Scheduled(ps, current) && NewPeriod(ps, oldestStart, current, p).Ok?
    requires NewPeriod(ps, oldestStart, current, p).value.1.Some?
    requires p.endsAt < hi && ps[0].endsAt < hi
    ensures ps[0].startsAt <= ps[0].endsAt
    ensures var qs := NewPeriod(ps, oldestStart, current, p).value.0;
            (PeriodTotal(p) as real - PeriodTotal(ps[0]) as real)
            - (Worth(qs, FreeShareOf(ledger), 0, hi) - Worth(ps, FreeShareOf(ledger), 0, hi))
            == SettledWorth(p, ledger) - SettledWorth(ps[0], ledger)
  {
    var qs := NewPeriod(ps, oldestStart, current, p).value.0;
    forall t: nat
      ensures TpsAt(qs, t) + TpsAt([ps[0]], t) == TpsAt(ps, t) + TpsAt([p], t)
    {
      OverwrittenTps(ps, oldestStart, current, p, t);
    }
    OverwrittenTps(ps, oldestStart, current, p, 0);
    WorthBalance(ps, [p], qs, [ps[0]], FreeShareOf(ledger), hi);
    WorthOfPeriod(p, ledger, hi);
    WorthOfPeriod(ps[0], ledger, hi);
    SettledWorthIsWorth(p, ledger, hi);
    SettledWorthIsWorth(ps[0], ledger, hi);
  }

  /** The vault still covers everything after a launch was overwritten if and only if it covered
      everything before together with what the settled shares lose: their worth under the launch
      minus their worth under the new period. */
  lemma OverwriteKeepsCoverIff(vault: nat, vault': nat, fs: seq<Position>, ledger: seq<Charge>, ps: seq<Period>,
                               p: Period, oldestStart: nat, m: Mint, current: nat, hi: nat)
    requires Scheduled(ps, current) && NewPeriod(ps, oldestStart, current, p).Ok?
    requires NewPeriod(ps, oldestStart, current, p).value.1.Some?
    requires p.endsAt < hi && ps[0].endsAt < hi
    requires ps[0].startsAt <= ps[0].endsAt && vault' + PeriodTotal(ps[0]) == vault + PeriodTotal(p)
    ensures Covered(vault', fs, ledger, NewPeriod(ps, oldestStart, current, p).value.0, m, hi)
            <==> Total(fs, RecordedOf(m)) + Worth(ps, FreeShareOf(ledger), 0, hi)
                 + (SettledWorth(ps[0], ledger) - SettledWorth(p, ledger)) <= vault as real
  {
    OverwriteChangesCover(ps, oldestStart, current, p, ledger, hi);
  }

  /** Rates that are kept wherever something was settled keep the settled worth. */
  lemma {:induction false} KeptRatesKeepWorth(launch: Period, p: Period, ledger: seq<Charge>, hi: nat)
    requires forall t: nat :: SettledShare(ledger, t) > 0.0 ==> TpsAt([launch], t) <= TpsAt([p], t)
    ensures Worth([launch], SettledShareOf(ledger), 0, hi) <= Worth([p], SettledShareOf(ledger), 0, hi)
  {
    forall t: nat
      ensures 0.0 <= SettledShareOf(ledger)(t)
    {
      SettledShareNonNegative(ledger, t);
    }
    WorthOfRates([launch], [p], SettledShareOf(ledger), 0, hi);
  }

  /** The admin schedules a period and pays for it, or gets the difference back. */
  lemma NewPeriodKeepsCovered(vault: nat, vault': nat, fs: seq<Position>, ledger: seq<Charge>, ps: seq<Period>,
                              p: Period, oldestStart: nat, m: Mint, current: nat, hi: nat)
    requires Scheduled(ps, current) && NewPeriod(ps, oldestStart, current, p).Ok?
    requires p.endsAt < hi && ps[0].endsAt < hi
    requires Covered(vault, fs, ledger, ps, m, hi)
    requires forall t: nat :: SettledShare(ledger, t) <= 1.0
    requires var overwritten := NewPeriod(ps, oldestStart, current, p).value.1;
             && (overwritten.Some? ==> overwritten.value.startsAt <= overwritten.value.endsAt)
             && vault' + (if overwritten.Some? then PeriodTotal(overwritten.value) else 0) == vault + PeriodTotal(p)
             && (overwritten.Some? ==> SettledWorth(overwritten.value, ledger) <= SettledWorth(p, ledger))
    ensures Covered(vault', fs, ledger, NewPeriod(ps, oldestStart, current, p).value.0, m, hi)
  {
    var (qs, overwritten) := NewPeriod(ps, oldestStart, current, p).value;
    var free := FreeShareOf(ledger);
    if overwritten.Some? {
      OverwrittenTps(ps, oldestStart, current, p, 0);
      OverwriteKeepsCoverIff(vault, vault', fs, ledger, ps, p, oldestStart, m, current, hi);
    } else {
      SettledWorthNonNegative([p], ledger, hi);
      forall t: nat | t < hi
        ensures TpsAt(qs, t) <= TpsAt(ps, t) + TpsAt([p], t) && 0.0 <= free(t)
      {
        RotatedTpsAtMost(ps, p, t);
      }
      WorthAtMost(ps, [p], qs, free, hi);
      WorthOfPeriod(p, ledger, hi);
    }
  }
}
