/** Laws of harvest accrual: splitting the settlement of a time span into several calls,
    and the cap on what all farmers together can earn in a window. */
module AccrualLaws {
  import opened Results
  import opened FixedPoint
  import opened FarmTypes
  import opened Emission
  import opened Earnings
  import opened Sweep
  import opened Settlement
  import opened RingBuffer
  import opened Periods
  import opened Farms

  // ---- incremental against one-shot settlement ----

  lemma WindowTokensSplit(ps: seq<Period>, start: nat, next: nat, since: nat, mid: nat, until: nat)
    requires since <= mid < until
    ensures WindowTokens(ps, start, next, since, until)
            == WindowTokens(ps, start, next, since, mid) + WindowTokens(ps, start, next, mid + 1, until)
    ensures next <= mid + 1 ==> WindowTokens(ps, start, next, mid + 1, until) == 0
    ensures start > mid ==> WindowTokens(ps, start, next, since, mid) == 0
  {
    var lo, hi := Max(start, since), Min(next, until + 1);
    if lo <= mid + 1 <= hi {
      SumTpsSplit(ps, lo, mid + 1, hi);
    }
  }

  /** Some snapshot of `w` starts at slot `t`. */
  ghost predicate StartsAt(w: seq<Snapshot>, t: nat) {
    exists j :: 0 <= j < |w| && w[j].startedAt == t
  }

  /** Settling `since ..= until` in two steps, cut after `mid`, never credits more than
      settling in one and loses at most one token: only the window that contains both
      `mid` and the next slot is rounded twice. */
  lemma {:induction false} CreditSplit(w: seq<Snapshot>, next: nat, since: nat, mid: nat, until: nat, stake: nat,
                                       ps: seq<Period>)
    requires Descending(w) && since <= mid < until
    requires w != [] ==> w[0].startedAt < next || w[0].startedAt == next == 0
    ensures var whole := Credit(w, next, since, until, stake, ps);
            var parts := Credit(w, next, since, mid, stake, ps) + Credit(w, next, mid + 1, until, stake, ps);
            && parts <= whole <= parts + 1
            && (next <= mid + 1 || StartsAt(w, mid + 1) ==> whole == parts)
  {
    if w != [] {
      var start, total := w[0].startedAt, w[0].staked;
      DescendingTail(w);
      assert w[1..] != [] ==> w[1..][0] == w[1];
      CreditSplit(w[1..], start, since, mid, until, stake, ps);
      WindowTokensSplit(ps, start, next, since, mid, until);
      WindowCreditSplit(stake, total, WindowTokens(ps, start, next, since, mid),
                        WindowTokens(ps, start, next, mid + 1, until));
      if StartsAt(w, mid + 1) && start != mid + 1 {
        var j :| 0 <= j < |w| && w[j].startedAt == mid + 1;
        assert w[1..][j - 1] == w[j];
      }
    }
  }

  lemma CreditForSplit(w: seq<Snapshot>, since: nat, mid: nat, until: nat, stake: nat, ps: seq<Period>)
    requires Descending(w) && since <= mid < until
    ensures var whole := CreditFor(w, since, until, stake, ps);
            var parts := CreditFor(w, since, mid, stake, ps) + CreditFor(w, mid + 1, until, stake, ps);
            && parts <= whole <= parts + 1
            && (StartsAt(w, mid + 1) ==> whole == parts)
  {
    var horizon := until + 1 + if w == [] then 0 else w[0].startedAt;
    CreditAnyHorizon(w, until + 1, horizon, since, until, stake, ps);
    CreditAnyHorizon(w, mid + 1, horizon, since, mid, stake, ps);
    CreditAnyHorizon(w, until + 1, horizon, mid + 1, until, stake, ps);
    CreditSplit(w, horizon, since, mid, until, stake, ps);
  }

  /** The slots `cs` are settled one after the other and every call takes effect. */
  ghost predicate Effective(cursor: nat, cs: seq<nat>)
    decreases |cs|
  {
    cs == [] || (cursor < cs[0] && Effective(cs[0] + 1, cs[1..]))
  }

  ghost function UpdateAll(p: Position, farm: FarmView, cs: seq<nat>): Result<Position>
    decreases |cs|
  {
    if cs == [] then Ok(p)
    else
      match Update(p, farm, cs[0])
      case Err(e) => Err(e)
      case Ok(q) => UpdateAll(q, farm, cs[1..])
  }

  /** Every cut, that is every settled slot but the last, ends right before a snapshot. */
  ghost predicate CutsAtSnapshots(w: seq<Snapshot>, cs: seq<nat>) {
    forall i :: 0 <= i < |cs| - 1 ==> StartsAt(w, cs[i] + 1)
  }

  lemma {:induction false} EffectiveEndsLater(cursor: nat, cs: seq<nat>)
    requires Effective(cursor, cs) && cs != []
    ensures cursor < cs[|cs| - 1]
    decreases |cs|
  {
    if |cs| > 1 {
      EffectiveEndsLater(cs[0] + 1, cs[1..]);
    }
  }

  /** `k` effective updates on an unchanged farm credit each mint at most what one update
      to the same slot credits and at most `k - 1` tokens less; they lose nothing if every
      cut falls on a snapshot start. They succeed whenever the single update does. */
  lemma {:induction false} IncrementalMatchesOneShot(p: Position, farm: FarmView, cs: seq<nat>, m: Mint)
    requires Descending(farm.snapshots) && m in farm.harvests
    requires cs != [] && Effective(p.cursor, cs)
    requires forall i :: 0 <= i < |cs| ==> cs[i] < U64_MAX
    ensures Update(p, farm, cs[|cs| - 1]).Ok? ==> UpdateAll(p, farm, cs).Ok?
    ensures UpdateAll(p, farm, cs).Ok? ==>
              var once := SettledBalance(p, farm, m, cs[|cs| - 1]);
              var steps := Recorded(UpdateAll(p, farm, cs).value.harvests, m);
              && steps <= once <= steps + (|cs| - 1)
              && (CutsAtSnapshots(farm.snapshots, cs) ==> steps == once)
    ensures UpdateAll(p, farm, cs).Ok? ==> UpdateAll(p, farm, cs).value.cursor == cs[|cs| - 1] + 1
    decreases |cs|
  {
    hide Credit;
    var last := cs[|cs| - 1];
    EffectiveEndsLater(p.cursor, cs);
    if |cs| == 1 {
      assert UpdateAll(p, farm, cs) == Update(p, farm, cs[0]) by {
        if Update(p, farm, cs[0]).Ok? {
          assert cs[1..] == [];
        }
      }
    } else {
      EffectiveEndsLater(cs[0] + 1, cs[1..]);
      FirstCutBounds(p, farm, cs[0], last);
      if Update(p, farm, cs[0]).Ok? {
        var q := Update(p, farm, cs[0]).value;
        assert cs[1..][|cs[1..]| - 1] == last;
        assert SettledBalance(p, farm, m, cs[0]) == Recorded(q.harvests, m);
        CreditForSplit(farm.snapshots, p.cursor, cs[0], last, p.staked, farm.harvests[m]);
        IncrementalMatchesOneShot(q, farm, cs[1..], m);
        if CutsAtSnapshots(farm.snapshots, cs) {
          forall i | 0 <= i < |cs[1..]| - 1
            ensures StartsAt(farm.snapshots, cs[1..][i] + 1)
          {
            assert cs[1..][i] == cs[i + 1];
          }
        }
      }
    }
  }

  /** If one update to `last` fits, so does the update to `cut` followed by one to `last`. */
  lemma FirstCutBounds(p: Position, farm: FarmView, cut: nat, last: nat)
    requires Descending(farm.snapshots) && p.cursor < cut < last < U64_MAX && cut + 1 < last
    ensures Update(p, farm, last).Ok? ==>
              && Update(p, farm, cut).Ok?
              && Update(Update(p, farm, cut).value, farm, last).Ok?
  {
    if Update(p, farm, last).Ok? {
      forall m | m in farm.harvests
        ensures SettledBalance(p, farm, m, cut) + CreditFor(farm.snapshots, cut + 1, last, p.staked, farm.harvests[m])
                <= SettledBalance(p, farm, m, last)
      {
        CreditForSplit(farm.snapshots, p.cursor, cut, last, p.staked, farm.harvests[m]);
      }
      var q := Update(p, farm, cut).value;
      forall m | m in farm.harvests
        ensures p.staked == 0 || SettledBalance(q, farm, m, last) <= U64_MAX
      {
        assert Recorded(q.harvests, m) == SettledBalance(p, farm, m, cut);
        assert p.staked == 0 || SettledBalance(p, farm, m, last) <= U64_MAX;
      }
    }
  }

  // ---- dropping the oldest period loses nobody's harvest ----

  lemma {:induction false} SameTpsSameCredit(w: seq<Snapshot>, next: nat, since: nat, until: nat, stake: nat,
                                             ps: seq<Period>, qs: seq<Period>, oldest: nat)
    requires forall i :: 0 <= i < |w| ==> w[i].startedAt == 0 || oldest <= w[i].startedAt
    requires forall t :: oldest <= t <= until ==> TpsAt(ps, t) == TpsAt(qs, t)
    ensures Credit(w, next, since, until, stake, ps) == Credit(w, next, since, until, stake, qs)
  {
    if w != [] {
      if w[0].startedAt > 0 {
        SumTpsAgree(ps, qs, Max(w[0].startedAt, since), Min(next, until + 1));
      }
      SameTpsSameCredit(w[1..], w[0].startedAt, since, until, stake, ps, qs, oldest);
    }
  }

  /** A new harvest period, whether it overwrites a launch or pushes the oldest period out,
      changes nothing that can still be credited for slots up to the current one. */
  lemma NewPeriodKeepsCredit(log: seq<Snapshot>, ps: seq<Period>, current: nat, p: Period, since: nat, until: nat,
                             stake: nat)
    requires LogOk(log) && Scheduled(ps, current) && NewPeriod(ps, OldestSlot(log), current, p).Ok?
    requires until <= current && until < p.startsAt
    ensures CreditFor(Tail(log), since, until, stake, NewPeriod(ps, OldestSlot(log), current, p).value.0)
            == CreditFor(Tail(log), since, until, stake, ps)
  {
    var (qs, overwritten) := NewPeriod(ps, OldestSlot(log), current, p).value;
    forall t | OldestSlot(log) <= t <= until
      ensures TpsAt(ps, t) == TpsAt(qs, t)
    {
      LatestStartedIsHeadOrNext(ps, current);
      NewPeriodTimeline(ps, OldestSlot(log), current, p, t);
    }
    TailDescends(log);
    SameTpsSameCredit(Tail(log), until + 1, since, until, stake, ps, qs, OldestSlot(log));
  }

  // ---- the cap on a window's emission ----

  function Sum(xs: seq<nat>): nat {
    if xs == [] then 0 else xs[0] + Sum(xs[1..])
  }

  function WindowCredits(stakes: seq<nat>, total: nat, tokens: nat): seq<nat> {
    seq(|stakes|, i requires 0 <= i < |stakes| => WindowCredit(stakes[i], total, tokens))
  }

  lemma {:induction false} CreditsScale(stakes: seq<nat>, total: nat, tokens: nat)
    ensures Sum(WindowCredits(stakes, total, tokens)) * total <= Sum(stakes) * tokens
  {
    if stakes == [] {
      assert WindowCredits(stakes, total, tokens) == [];
    } else {
      var cs := WindowCredits(stakes, total, tokens);
      assert cs[1..] == WindowCredits(stakes[1..], total, tokens);
      CreditsScale(stakes[1..], total, tokens);
      WindowCreditBound(stakes[0], total, tokens);
      assert (cs[0] + Sum(cs[1..])) * total == cs[0] * total + Sum(cs[1..]) * total;
      assert (stakes[0] + Sum(stakes[1..])) * tokens == stakes[0] * tokens + Sum(stakes[1..]) * tokens;
    }
  }

  /** Farmers whose stakes sum to at most a snapshot's total earn, together, at most what
      its window emits. */
  lemma EmissionCap(stakes: seq<nat>, total: nat, tokens: nat)
    requires Sum(stakes) <= total
    ensures Sum(WindowCredits(stakes, total, tokens)) <= tokens
  {
    var earned := Sum(WindowCredits(stakes, total, tokens));
    CreditsScale(stakes, total, tokens);
    MulMono(Sum(stakes), total, tokens);
    if total > 0 {
      assert earned * total <= tokens * total;
      CancelMul(earned, tokens, total);
    } else {
      NoStakeNoCredit(stakes, tokens);
    }
  }

  lemma {:induction false} NoStakeNoCredit(stakes: seq<nat>, tokens: nat)
    ensures Sum(WindowCredits(stakes, 0, tokens)) == 0
  {
    if stakes != [] {
      assert WindowCredits(stakes, 0, tokens)[1..] == WindowCredits(stakes[1..], 0, tokens);
      NoStakeNoCredit(stakes[1..], tokens);
    }
  }
}
