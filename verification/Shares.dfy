/** Which part of each slot's emission has been settled and which part still can be, as
    exact real shares, and what a farmer's own operations do to these shares. */
module Shares {
  import opened Results
  import opened FixedPoint
  import opened FarmTypes
  import opened Emission
  import opened RingBuffer
  import opened Earnings
  import opened Sweep
  import opened Settlement
  import opened Totals
  import opened Farms

  /** The snapshot whose window contains slot `t`. */
  function WindowAt(log: seq<Snapshot>, t: nat): Option<Snapshot> {
    if log == [] then None
    else if log[0].startedAt <= t then Some(log[0])
    else WindowAt(log[1..], t)
  }

  function Fraction(stake: nat, total: nat): real {
    if total == 0 then 0.0 else stake as real / total as real
  }

  /** The share of slot `t`'s emission that a stake earns under this log. */
  function SlotShare(stake: nat, log: seq<Snapshot>, t: nat): real {
    match WindowAt(log, t)
    case None => 0.0
    case Some(s) => Fraction(stake, s.staked)
  }

  function SlotShareOf(stake: nat, log: seq<Snapshot>): nat -> real {
    (t: nat) => SlotShare(stake, log, t)
  }

  /** What the shares `f` of the slots `lo <= t < hi` are worth in tokens. */
  function Worth(ps: seq<Period>, f: nat -> real, lo: nat, hi: nat): real
    decreases hi
  {
    if hi <= lo then 0.0 else Worth(ps, f, lo, hi - 1) + Times(TpsAt(ps, hi - 1) as real, f(hi - 1))
  }

  // ---- settled: what farmers were credited for ----

  /** A settlement: the slots `from ..= to` were settled with this stake while the farm had
      these snapshots and emission periods. */
  datatype Charge = Charge(from: nat, to: nat, stake: nat, log: seq<Snapshot>, harvests: map<Mint, seq<Period>>)

  function ChargeShare(c: Charge, t: nat): real {
    if c.from <= t <= c.to then SlotShare(c.stake, c.log, t) else 0.0
  }

  function ChargeShareOf(c: Charge): nat -> real {
    (t: nat) => ChargeShare(c, t)
  }

  /** The shares of slot `t` that have been settled. */
  function SettledShare(ledger: seq<Charge>, t: nat): real {
    if ledger == [] then 0.0 else ChargeShare(ledger[0], t) + SettledShare(ledger[1..], t)
  }

  function SettledShareOf(ledger: seq<Charge>): nat -> real {
    (t: nat) => SettledShare(ledger, t)
  }

  /** What the settled shares of one period's slots are worth. */
  function SettledWorth(p: Period, ledger: seq<Charge>): real {
    Worth([p], SettledShareOf(ledger), 0, p.endsAt + 1)
  }

  /** Tokens of mint `m` that a charge credits for the slots `lo <= t < hi`. */
  function CreditOf(c: Charge, m: Mint, lo: nat, hi: nat): nat {
    if hi == 0 || m !in c.harvests then 0
    else CreditFor(Tail(c.log), Max(c.from, lo), Min(c.to, hi - 1), c.stake, c.harvests[m])
  }

  function Credited(ledger: seq<Charge>, m: Mint, lo: nat, hi: nat): nat {
    if ledger == [] then 0 else CreditOf(ledger[0], m, lo, hi) + Credited(ledger[1..], m, lo, hi)
  }

  /** The settlements that `Settle` performs: one before vested tokens start to earn, one after. */
  ghost function Charges(p: Position, log: seq<Snapshot>, harvests: map<Mint, seq<Period>>, current: nat): seq<Charge> {
    match Vest(p, FarmView(Tail(log), harvests))
    case Err(_) => []
    case Ok(v) =>
      (if v.cursor > p.cursor then [Charge(p.cursor, v.cursor - 1, p.staked, log, harvests)] else [])
      + (if v.cursor < current then [Charge(v.cursor, current, v.staked, log, harvests)] else [])
  }

  // ---- unsettled: what farmers still can be credited for ----

  /** The retained snapshot from which on vested tokens of `p` count, if there is one. */
  function Awaited(p: Position, log: seq<Snapshot>): Option<Snapshot> {
    if p.vested > 0 then FirstAfter(Tail(log), p.vestedAt) else None
  }

  /** The first slot the next settlement covers: vesting may move the cursor back. */
  function Start(p: Position, log: seq<Snapshot>): nat {
    match Awaited(p, log)
    case None => p.cursor
    case Some(s) => Min(p.cursor, s.startedAt)
  }

  /** The stake with which the next settlement covers slot `t`. */
  function StakeAt(p: Position, log: seq<Snapshot>, t: nat): nat {
    match Awaited(p, log)
    case None => p.staked
    case Some(s) => if s.startedAt <= t then p.staked + p.vested else p.staked
  }

  /** The share of slot `t` that `p` would be settled for. */
  function Unsettled(p: Position, log: seq<Snapshot>, t: nat): real {
    if t < Start(p, log) then 0.0 else SlotShare(StakeAt(p, log, t), log, t)
  }

  function UnsettledOf(p: Position, log: seq<Snapshot>): nat -> real {
    (t: nat) => Unsettled(p, log, t)
  }

  /** What is recorded for mint `m` plus the worth of the unsettled slots before `hi`. */
  function Owed(p: Position, log: seq<Snapshot>, ps: seq<Period>, m: Mint, hi: nat): real {
    Recorded(p.harvests, m) as real + Worth(ps, UnsettledOf(p, log), 0, hi)
  }

  // ---- arithmetic of shares ----

  lemma FractionMono(stake: nat, stake': nat, total: nat)
    requires stake <= stake'
    ensures 0.0 <= Fraction(stake, total) <= Fraction(stake', total)
  {
    if total > 0 {
      QuotientMono(stake as real, stake' as real, total as real);
    }
  }

  lemma QuotientMono(x: real, y: real, d: real)
    requires 0.0 <= x <= y && d > 0.0
    ensures 0.0 <= x / d <= y / d
  {
  }

  lemma SlotShareMono(stake: nat, stake': nat, log: seq<Snapshot>, t: nat)
    requires stake <= stake'
    ensures 0.0 <= SlotShare(stake, log, t) <= SlotShare(stake', log, t)
  {
    if WindowAt(log, t).Some? {
      FractionMono(stake, stake', WindowAt(log, t).value.staked);
    }
  }

  lemma {:induction false} SettledShareNonNegative(ledger: seq<Charge>, t: nat)
    ensures 0.0 <= SettledShare(ledger, t)
  {
    if ledger != [] {
      SlotShareMono(ledger[0].stake, ledger[0].stake, ledger[0].log, t);
      SettledShareNonNegative(ledger[1..], t);
    }
  }

  lemma UnsettledNonNegative(p: Position, log: seq<Snapshot>, t: nat)
    ensures 0.0 <= Unsettled(p, log, t)
  {
    SlotShareMono(StakeAt(p, log, t), StakeAt(p, log, t), log, t);
  }

  lemma {:induction false} SettledShareConcat(a: seq<Charge>, b: seq<Charge>, t: nat)
    ensures SettledShare(a + b, t) == SettledShare(a, t) + SettledShare(b, t)
  {
    if a == [] {
      assert a + b == b;
    } else {
      assert (a + b)[1..] == a[1..] + b;
      SettledShareConcat(a[1..], b, t);
    }
  }

  lemma {:induction false} CreditedConcat(a: seq<Charge>, b: seq<Charge>, m: Mint, lo: nat, hi: nat)
    ensures Credited(a + b, m, lo, hi) == Credited(a, m, lo, hi) + Credited(b, m, lo, hi)
  {
    if a == [] {
      assert a + b == b;
    } else {
      assert (a + b)[1..] == a[1..] + b;
      CreditedConcat(a[1..], b, m, lo, hi);
    }
  }

  lemma {:induction false} NotYetSettled(ledger: seq<Charge>, t: nat)
    requires forall c :: c in ledger ==> c.to < t
    ensures SettledShare(ledger, t) == 0.0
  {
    if ledger != [] {
      assert ledger[0] in ledger;
      NotYetSettled(ledger[1..], t);
    }
  }

  // ---- worth ----

  lemma TimesMono(k: real, x: real, y: real)
    requires 0.0 <= k && x <= y
    ensures Times(k, x) <= Times(k, y)
  {
    assert k * (y - x) >= 0.0;
  }

  lemma TimesAdds(k: real, x: real, y: real)
    ensures Times(k, x + y) == Times(k, x) + Times(k, y)
  {
  }

  lemma {:induction false} WorthMono(ps: seq<Period>, f: nat -> real, g: nat -> real, lo: nat, hi: nat)
    requires forall t: nat :: lo <= t < hi ==> f(t) <= g(t)
    ensures Worth(ps, f, lo, hi) <= Worth(ps, g, lo, hi)
    decreases hi
  {
    if lo < hi {
      WorthMono(ps, f, g, lo, hi - 1);
      TimesMono(TpsAt(ps, hi - 1) as real, f(hi - 1), g(hi - 1));
    }
  }

  lemma {:induction false} WorthAdds(ps: seq<Period>, f: nat -> real, g: nat -> real, h: nat -> real, lo: nat, hi: nat)
    requires forall t: nat :: lo <= t < hi ==> h(t) == f(t) + g(t)
    ensures Worth(ps, h, lo, hi) == Worth(ps, f, lo, hi) + Worth(ps, g, lo, hi)
    decreases hi
  {
    if lo < hi {
      WorthAdds(ps, f, g, h, lo, hi - 1);
      TimesAdds(TpsAt(ps, hi - 1) as real, f(hi - 1), g(hi - 1));
    }
  }

  lemma {:induction false} WorthSplit(ps: seq<Period>, f: nat -> real, lo: nat, mid: nat, hi: nat)
    requires lo <= mid <= hi
    ensures Worth(ps, f, lo, hi) == Worth(ps, f, lo, mid) + Worth(ps, f, mid, hi)
    decreases hi
  {
    if mid < hi {
      WorthSplit(ps, f, lo, mid, hi - 1);
    }
  }

  /** A constant share of some slots is worth that share of their tokens. */
  lemma {:induction false} WorthConstant(ps: seq<Period>, f: nat -> real, x: real, lo: nat, hi: nat)
    requires forall t: nat :: lo <= t < hi ==> f(t) == x
    ensures Worth(ps, f, lo, hi) == Times(SumTps(ps, lo, hi) as real, x)
    decreases hi
  {
    if lo < hi {
      WorthConstant(ps, f, x, lo, hi - 1);
      assert (SumTps(ps, lo, hi - 1) as real + TpsAt(ps, hi - 1) as real) * x
          == SumTps(ps, lo, hi - 1) as real * x + TpsAt(ps, hi - 1) as real * x;
    }
  }

  lemma WorthNonNegative(ps: seq<Period>, f: nat -> real, lo: nat, hi: nat)
    requires forall t: nat :: lo <= t < hi ==> 0.0 <= f(t)
    ensures 0.0 <= Worth(ps, f, lo, hi)
  {
    var none := (t: nat) => 0.0;
    WorthConstant(ps, none, 0.0, lo, hi);
    WorthMono(ps, none, f, lo, hi);
  }

  lemma WorthAgree(ps: seq<Period>, f: nat -> real, g: nat -> real, lo: nat, hi: nat)
    requires forall t: nat :: lo <= t < hi ==> f(t) == g(t)
    ensures Worth(ps, f, lo, hi) == Worth(ps, g, lo, hi)
  {
    WorthMono(ps, f, g, lo, hi);
    WorthMono(ps, g, f, lo, hi);
  }

  lemma RateTimesShare(a: nat, b: nat, share: real)
    requires 0.0 <= share && (share > 0.0 ==> a <= b)
    ensures Times(a as real, share) <= Times(b as real, share)
  {
    if share > 0.0 {
      assert (b - a) as real * share >= 0.0;
      assert (b - a) as real == b as real - a as real;
    }
  }

  /** Shares are worth at least as much where the rates they earn are at least as high. */
  lemma {:induction false} WorthOfRates(ps: seq<Period>, qs: seq<Period>, f: nat -> real, lo: nat, hi: nat)
    requires forall t: nat :: lo <= t < hi ==> 0.0 <= f(t) && (f(t) > 0.0 ==> TpsAt(ps, t) <= TpsAt(qs, t))
    ensures Worth(ps, f, lo, hi) <= Worth(qs, f, lo, hi)
    decreases hi
  {
    if lo < hi {
      WorthOfRates(ps, qs, f, lo, hi - 1);
      RateTimesShare(TpsAt(ps, hi - 1), TpsAt(qs, hi - 1), f(hi - 1));
    }
  }

  // ---- credit never exceeds the exact worth of the share ----

  lemma WindowCreditWithinShare(stake: nat, total: nat, tokens: nat)
    ensures WindowCredit(stake, total, tokens) as real <= Times(tokens as real, Fraction(stake, total))
  {
    if total > 0 {
      WindowCreditBound(stake, total, tokens);
      QuotientAbove(WindowCredit(stake, total, tokens) as real, stake as real, total as real, tokens as real);
    }
  }

  lemma QuotientAbove(c: real, stake: real, total: real, tokens: real)
    requires total > 0.0 && c * total <= stake * tokens
    ensures c <= Times(tokens, stake / total)
  {
    var q := stake / total;
    assert q * total == stake;
    assert (tokens * q - c) * total == tokens * (q * total) - c * total;
    if c > tokens * q {
      assert (c - tokens * q) * total > 0.0;
    }
  }

  lemma {:induction false} CreditWithinWorth(w: seq<Snapshot>, next: nat, since: nat, until: nat, stake: nat,
                                             ps: seq<Period>)
    requires LogOk(w) && (w != [] ==> w[0].startedAt < next)
    ensures Credit(w, next, since, until, stake, ps) as real
            <= Worth(ps, SlotShareOf(stake, w), since, Max(since, Min(next, until + 1)))
  {
    var hi := Max(since, Min(next, until + 1));
    if w == [] {
      WorthNonNegative(ps, SlotShareOf(stake, w), since, hi);
    } else {
      var s, older := w[0], w[1..];
      assert forall i :: 0 <= i < |older| ==> older[i] == w[i + 1];
      CreditWithinWorth(older, s.startedAt, since, until, stake, ps);
      var mid := Max(since, Min(s.startedAt, until + 1));
      WorthAgree(ps, SlotShareOf(stake, older), SlotShareOf(stake, w), since, mid);
      var tokens := WindowTokens(ps, s.startedAt, next, since, until);
      WindowCreditWithinShare(stake, s.staked, tokens);
      WorthSplit(ps, SlotShareOf(stake, w), since, mid, hi);
      WorthConstant(ps, SlotShareOf(stake, w), Fraction(stake, s.staked), mid, hi);
      if Max(s.startedAt, since) >= Min(next, until + 1) {
        EmptyWindowEarnsNothing(stake, s.staked);
        FractionMono(stake, stake, s.staked);
        TimesMono(SumTps(ps, mid, hi) as real, 0.0, Fraction(stake, s.staked));
      }
    }
  }

  /** A buffer that shows only part of the log credits no more than the whole log would. */
  lemma {:induction false} PartialLog(w: seq<Snapshot>, log: seq<Snapshot>, next: nat, since: nat, until: nat,
                                      stake: nat, ps: seq<Period>)
    requires forall i :: 0 <= i < |w| ==> w[i] == if i < |log| then log[i] else EMPTY_SNAPSHOT
    ensures Credit(w, next, since, until, stake, ps) <= Credit(log, next, since, until, stake, ps)
  {
    if w != [] {
      if log == [] {
        PaddingEarnsNothing(w, next, since, until, stake, ps);
      } else {
        PartialLog(w[1..], log[1..], log[0].startedAt, since, until, stake, ps);
      }
    }
  }

  /** A buffer that shows the whole log credits the same. */
  lemma {:induction false} FullLog(w: seq<Snapshot>, log: seq<Snapshot>, next: nat, since: nat, until: nat, stake: nat,
                                   ps: seq<Period>)
    requires |log| <= |w| && forall i :: 0 <= i < |w| ==> w[i] == if i < |log| then log[i] else EMPTY_SNAPSHOT
    ensures Credit(w, next, since, until, stake, ps) == Credit(log, next, since, until, stake, ps)
  {
    if log == [] {
      PaddingEarnsNothing(w, next, since, until, stake, ps);
    } else {
      FullLog(w[1..], log[1..], log[0].startedAt, since, until, stake, ps);
    }
  }

  /** Settling `since ..= until` credits at most the exact worth of the stake's shares. */
  lemma CreditForWithinWorth(log: seq<Snapshot>, since: nat, until: nat, stake: nat, ps: seq<Period>)
    requires LogOk(log)
    ensures CreditFor(Tail(log), since, until, stake, ps) as real
            <= Worth(ps, SlotShareOf(stake, log), since, until + 1)
    ensures since > until ==> CreditFor(Tail(log), since, until, stake, ps) == 0
  {
    var next := until + 1 + if log == [] then 0 else log[0].startedAt;
    CreditAnyHorizon(Tail(log), until + 1, next, since, until, stake, ps);
    PartialLog(Tail(log), log, next, since, until, stake, ps);
    CreditWithinWorth(log, next, since, until, stake, ps);
  }

  /** What a charge credits for some slots is at most the worth of its shares of them. */
  lemma CreditOfWithinWorth(c: Charge, m: Mint, lo: nat, hi: nat)
    requires LogOk(c.log) && m in c.harvests
    ensures CreditOf(c, m, lo, hi) as real <= Worth(c.harvests[m], ChargeShareOf(c), lo, hi)
  {
    var ps, f := c.harvests[m], ChargeShareOf(c);
    forall t: nat
      ensures 0.0 <= f(t)
    {
      SlotShareMono(c.stake, c.stake, c.log, t);
    }
    WorthNonNegative(ps, f, lo, hi);
    if hi > 0 {
      var a, b := Max(c.from, lo), Min(c.to, hi - 1) + 1;
      CreditForWithinWorth(c.log, a, b - 1, c.stake, ps);
      if a < b {
        WorthSplit(ps, f, lo, a, hi);
        WorthSplit(ps, f, a, b, hi);
        WorthNonNegative(ps, f, lo, a);
        WorthNonNegative(ps, f, b, hi);
        WorthAgree(ps, SlotShareOf(c.stake, c.log), f, a, b);
      }
    }
  }

  // ---- nor does it fall short by much ----

  /** A window's credit misses the exact share by at most one token and a 10^-18th of the window's
      tokens: the share is truncated to 10^-18 and the product to whole tokens. */
  lemma WindowCreditNearShare(stake: nat, total: nat, tokens: nat)
    ensures Times(tokens as real, Fraction(stake, total))
            <= WindowCredit(stake, total, tokens) as real + 1.0 + tokens as real / WAD as real
  {
    if total > 0 {
      var share := Share(stake, total);
      var c := WindowCredit(stake, total, tokens);
      DivBounds(share * tokens, WAD);
      TruncatedTwice(stake, total, tokens, share, c, WAD);
      QuotientBelow(stake as real, total as real, tokens as real, c as real, WAD as real);
    } else {
      assert Times(tokens as real, 0.0) == 0.0;
    }
  }

  lemma TruncatedTwice(stake: nat, total: nat, tokens: nat, share: nat, c: nat, w: nat)
    requires stake * w < (share + 1) * total && share * tokens < (c + 1) * w
    ensures stake * tokens * w <= ((c + 1) * w + tokens) * total
  {
    MulMono(stake * w, (share + 1) * total, tokens);
    assert (stake * w) * tokens == stake * tokens * w;
    assert ((share + 1) * total) * tokens == (share * tokens + tokens) * total;
    MulMono(share * tokens + tokens, (c + 1) * w + tokens, total);
  }

  lemma QuotientBelow(stake: real, total: real, tokens: real, c: real, w: real)
    requires total > 0.0 && w > 0.0 && stake * tokens * w <= ((c + 1.0) * w + tokens) * total
    ensures Times(tokens, stake / total) <= c + 1.0 + tokens / w
  {
    var q, r := stake / total, tokens / w;
    assert q * total == stake && r * w == tokens;
    var gap := c + 1.0 + r - tokens * q;
    assert ((c + 1.0) * w + tokens) * total == ((c + 1.0 + r) * w) * total;
    assert stake * tokens * w == ((tokens * q) * w) * total;
    assert gap * (w * total) == ((c + 1.0 + r) * w) * total - ((tokens * q) * w) * total;
    assert w * total > 0.0;
    if gap < 0.0 {
      assert gap * (w * total) < 0.0;
    }
  }

  /** How many windows have a slot among `since ..= until`. */
  function WindowsIn(w: seq<Snapshot>, next: nat, since: nat, until: nat): nat {
    if w == [] then 0
    else
      (if Max(w[0].startedAt, since) < Min(next, until + 1) then 1 else 0)
      + WindowsIn(w[1..], w[0].startedAt, since, until)
  }

  lemma {:induction false} WorthNearCredit(w: seq<Snapshot>, next: nat, since: nat, until: nat, stake: nat,
                                           ps: seq<Period>)
    requires LogOk(w) && (w != [] ==> w[0].startedAt < next)
    ensures var hi := Max(since, Min(next, until + 1));
            Worth(ps, SlotShareOf(stake, w), since, hi)
            <= Credit(w, next, since, until, stake, ps) as real + WindowsIn(w, next, since, until) as real
               + SumTps(ps, since, hi) as real / WAD as real
  {
    var hi := Max(since, Min(next, until + 1));
    if w == [] {
      WorthConstant(ps, SlotShareOf(stake, w), 0.0, since, hi);
      assert Times(SumTps(ps, since, hi) as real, 0.0) == 0.0;
    } else {
      var s, older := w[0], w[1..];
      assert forall i :: 0 <= i < |older| ==> older[i] == w[i + 1];
      WorthNearCredit(older, s.startedAt, since, until, stake, ps);
      var mid := Max(since, Min(s.startedAt, until + 1));
      WorthAgree(ps, SlotShareOf(stake, older), SlotShareOf(stake, w), since, mid);
      WorthSplit(ps, SlotShareOf(stake, w), since, mid, hi);
      SumTpsSplit(ps, since, mid, hi);
      WorthConstant(ps, SlotShareOf(stake, w), Fraction(stake, s.staked), mid, hi);
      if Max(s.startedAt, since) < Min(next, until + 1) {
        WindowCreditNearShare(stake, s.staked, SumTps(ps, mid, hi));
      } else {
        assert Times(0.0, Fraction(stake, s.staked)) == 0.0;
      }
    }
  }

  /** The buffer still shows every window from slot `since` on. */
  predicate Retains(log: seq<Snapshot>, since: nat) {
    |log| <= SNAPSHOTS_LEN || OldestSlot(log) <= since
  }

  lemma RetainedCredit(log: seq<Snapshot>, next: nat, since: nat, until: nat, stake: nat, ps: seq<Period>)
    requires LogOk(log) && Retains(log, since)
    ensures Credit(Tail(log), next, since, until, stake, ps) == Credit(log, next, since, until, stake, ps)
  {
    if |log| <= SNAPSHOTS_LEN {
      FullLog(Tail(log), log, next, since, until, stake, ps);
    } else {
      TailDescends(log);
      var k := CountAfter(log, since);
      assert k < SNAPSHOTS_LEN by {
        assert log[SNAPSHOTS_LEN - 1].startedAt <= since;
      }
      CountIsUnique(Tail(log), since, k);
      assert Needed(Tail(log), since) == Needed(log, since);
      NeededSuffices(Tail(log), next, since, until, stake, ps);
      NeededSuffices(log, next, since, until, stake, ps);
    }
  }

  /** Settling retained windows credits all but at most one token for each of them and a 10^-18th
      of the emission. */
  lemma CreditForNearWorth(log: seq<Snapshot>, since: nat, until: nat, stake: nat, ps: seq<Period>)
    requires LogOk(log) && Retains(log, since)
    ensures Worth(ps, SlotShareOf(stake, log), since, until + 1)
            <= CreditFor(Tail(log), since, until, stake, ps) as real + WindowsIn(log, until + 1, since, until) as real
               + SumTps(ps, since, until + 1) as real / WAD as real
  {
    var next := until + 1 + if log == [] then 0 else log[0].startedAt;
    CreditAnyHorizon(Tail(log), until + 1, next, since, until, stake, ps);
    RetainedCredit(log, next, since, until, stake, ps);
    WorthNearCredit(log, next, since, until, stake, ps);
  }

  // ---- settling ----

  lemma VestCredits(p: Position, log: seq<Snapshot>, harvests: map<Mint, seq<Period>>, m: Mint)
    requires LogOk(log) && m in harvests && Vest(p, FarmView(Tail(log), harvests)).Ok?
    ensures var v := Vest(p, FarmView(Tail(log), harvests)).value;
            Recorded(v.harvests, m) == Recorded(p.harvests, m)
            + if v.cursor > p.cursor then CreditFor(Tail(log), p.cursor, v.cursor - 1, p.staked, harvests[m]) else 0
  {
    var farm := FarmView(Tail(log), harvests);
    var v := Vest(p, farm).value;
    if v != p {
      CreditForWithinWorth(log, p.cursor, v.cursor - 1, p.staked, harvests[m]);
      assert Recorded(v.harvests, m) == SettledBalance(p, farm, m, v.cursor - 1);
    }
  }

  lemma UpdateCredits(v: Position, log: seq<Snapshot>, harvests: map<Mint, seq<Period>>, current: nat, m: Mint)
    requires m in harvests && Update(v, FarmView(Tail(log), harvests), current).Ok?
    ensures Recorded(Update(v, FarmView(Tail(log), harvests), current).value.harvests, m) == Recorded(v.harvests, m)
            + if v.cursor < current then CreditFor(Tail(log), v.cursor, current, v.staked, harvests[m]) else 0
  {
    var farm := FarmView(Tail(log), harvests);
    if v.cursor < current {
      assert Recorded(Update(v, farm, current).value.harvests, m) == SettledBalance(v, farm, m, current);
    }
  }

  lemma OneCharge(c: Charge, m: Mint, t: nat, hi: nat)
    requires m in c.harvests && c.to < hi
    ensures Credited([c], m, 0, hi) == CreditFor(Tail(c.log), c.from, c.to, c.stake, c.harvests[m])
    ensures SettledShare([c], t) == ChargeShare(c, t)
  {
    assert [c][1..] == [];
  }

  /** The balance of every mint of the farm grows by exactly what the charges credit. */
  lemma SettleCreditsCharges(p: Position, log: seq<Snapshot>, harvests: map<Mint, seq<Period>>, current: nat, m: Mint,
                             hi: nat)
    requires LogOk(log) && m in harvests && Settle(p, FarmView(Tail(log), harvests), current).Ok?
    requires Settle(p, FarmView(Tail(log), harvests), current).value.cursor <= hi
    ensures Recorded(Settle(p, FarmView(Tail(log), harvests), current).value.harvests, m)
            == Recorded(p.harvests, m) + Credited(Charges(p, log, harvests, current), m, 0, hi)
  {
    hide Credit;
    hide Recorded;
    hide Eligible;
    hide FirstAfter;
    var v := Vest(p, FarmView(Tail(log), harvests)).value;
    VestCredits(p, log, harvests, m);
    UpdateCredits(v, log, harvests, current, m);
    var a := if v.cursor > p.cursor then [Charge(p.cursor, v.cursor - 1, p.staked, log, harvests)] else [];
    var b := if v.cursor < current then [Charge(v.cursor, current, v.staked, log, harvests)] else [];
    CreditedConcat(a, b, m, 0, hi);
    if a != [] {
      OneCharge(a[0], m, 0, hi);
    }
    if b != [] {
      OneCharge(b[0], m, 0, hi);
    }
  }

  /** Every charge covers slots that the new cursor has passed, under the current log. */
  lemma ChargesEnd(p: Position, log: seq<Snapshot>, harvests: map<Mint, seq<Period>>, current: nat)
    requires Settle(p, FarmView(Tail(log), harvests), current).Ok?
    ensures forall c :: c in Charges(p, log, harvests, current) ==>
              && c.to < Settle(p, FarmView(Tail(log), harvests), current).value.cursor
              && c.log == log && c.harvests == harvests
  {
  }

  /** Settling turns unsettled shares into settled ones, slot by slot, and loses none: before
      the awaited snapshot with the old stake, from it on with the vested tokens as well. */
  lemma SettleKeepsShares(p: Position, log: seq<Snapshot>, harvests: map<Mint, seq<Period>>, current: nat, t: nat)
    requires LogOk(log) && Settle(p, FarmView(Tail(log), harvests), current).Ok?
    ensures SettledShare(Charges(p, log, harvests, current), t)
            + Unsettled(Settle(p, FarmView(Tail(log), harvests), current).value, log, t)
            == Unsettled(p, log, t)
  {
    hide SlotShare;
    var farm := FarmView(Tail(log), harvests);
    var v, q := Vest(p, farm).value, Settle(p, farm, current).value;
    var a := if v.cursor > p.cursor then [Charge(p.cursor, v.cursor - 1, p.staked, log, harvests)] else [];
    var b := if v.cursor < current then [Charge(v.cursor, current, v.staked, log, harvests)] else [];
    SettledShareConcat(a, b, t);
    assert a != [] ==> a[1..] == [];
    assert b != [] ==> b[1..] == [];
    if p.vested > 0 && FirstAfter(farm.snapshots, p.vestedAt).Some? {
      VestingIsReady(farm.snapshots, p.vestedAt, p.cursor);
    }
    assert Awaited(v, log) == None && Awaited(q, log) == None;
  }

  /** Settling never raises what a farmer is owed, whatever the mint and the horizon. */
  lemma SettleKeepsOwed(p: Position, log: seq<Snapshot>, harvests: map<Mint, seq<Period>>, current: nat, m: Mint,
                        hi: nat)
    requires LogOk(log) && m in harvests && Settle(p, FarmView(Tail(log), harvests), current).Ok?
    requires Settle(p, FarmView(Tail(log), harvests), current).value.cursor <= hi
    ensures Owed(Settle(p, FarmView(Tail(log), harvests), current).value, log, harvests[m], m, hi)
            <= Owed(p, log, harvests[m], m, hi)
  {
    var q, cs := Settle(p, FarmView(Tail(log), harvests), current).value, Charges(p, log, harvests, current);
    SettleCreditsCharges(p, log, harvests, current, m, hi);
    ChargesEnd(p, log, harvests, current);
    CreditedWithinWorth(cs, m, harvests[m], 0, hi);
    forall t: nat
      ensures UnsettledOf(p, log)(t) == SettledShareOf(cs)(t) + UnsettledOf(q, log)(t)
    {
      SettleKeepsShares(p, log, harvests, current, t);
    }
    WorthAdds(harvests[m], SettledShareOf(cs), UnsettledOf(q, log), UnsettledOf(p, log), 0, hi);
  }

  /** Charges under the same periods credit at most the worth of their shares. */
  lemma {:induction false} CreditedWithinWorth(cs: seq<Charge>, m: Mint, ps: seq<Period>, lo: nat, hi: nat)
    requires forall c :: c in cs ==> LogOk(c.log) && m in c.harvests && c.harvests[m] == ps
    ensures Credited(cs, m, lo, hi) as real <= Worth(ps, SettledShareOf(cs), lo, hi)
  {
    if cs == [] {
      WorthNonNegative(ps, SettledShareOf(cs), lo, hi);
    } else {
      assert cs[0] in cs;
      CreditOfWithinWorth(cs[0], m, lo, hi);
      CreditedWithinWorth(cs[1..], m, ps, lo, hi);
      WorthAdds(ps, ChargeShareOf(cs[0]), SettledShareOf(cs[1..]), SettledShareOf(cs), lo, hi);
    }
  }

  /** What a charge may lose to rounding. */
  function Loss(c: Charge, m: Mint): real
    requires m in c.harvests
  {
    WindowsIn(c.log, c.to + 1, c.from, c.to) as real + SumTps(c.harvests[m], c.from, c.to + 1) as real / WAD as real
  }

  function LossOf(cs: seq<Charge>, m: Mint): real
    requires forall c :: c in cs ==> m in c.harvests
  {
    if cs == [] then 0.0 else Loss(cs[0], m) + LossOf(cs[1..], m)
  }

  lemma ChargeNearWorth(c: Charge, m: Mint, hi: nat)
    requires LogOk(c.log) && m in c.harvests && c.from <= c.to < hi && Retains(c.log, c.from)
    ensures Worth(c.harvests[m], ChargeShareOf(c), 0, hi) <= CreditOf(c, m, 0, hi) as real + Loss(c, m)
  {
    var ps, f := c.harvests[m], ChargeShareOf(c);
    CreditForNearWorth(c.log, c.from, c.to, c.stake, ps);
    WorthSplit(ps, f, 0, c.from, hi);
    WorthSplit(ps, f, c.from, c.to + 1, hi);
    WorthAgree(ps, f, SlotShareOf(c.stake, c.log), c.from, c.to + 1);
    WorthConstant(ps, f, 0.0, 0, c.from);
    WorthConstant(ps, f, 0.0, c.to + 1, hi);
    assert Times(SumTps(ps, 0, c.from) as real, 0.0) == 0.0 == Times(SumTps(ps, c.to + 1, hi) as real, 0.0);
  }

  lemma {:induction false} ChargesNearWorth(cs: seq<Charge>, m: Mint, ps: seq<Period>, hi: nat)
    requires forall c :: c in cs ==>
               && LogOk(c.log) && m in c.harvests && c.harvests[m] == ps
               && c.from <= c.to < hi && Retains(c.log, c.from)
    ensures Worth(ps, SettledShareOf(cs), 0, hi) <= Credited(cs, m, 0, hi) as real + LossOf(cs, m)
  {
    if cs == [] {
      WorthConstant(ps, SettledShareOf(cs), 0.0, 0, hi);
      assert Times(SumTps(ps, 0, hi) as real, 0.0) == 0.0;
    } else {
      assert cs[0] in cs;
      ChargeNearWorth(cs[0], m, hi);
      ChargesNearWorth(cs[1..], m, ps, hi);
      WorthAdds(ps, ChargeShareOf(cs[0]), SettledShareOf(cs[1..]), SettledShareOf(cs), 0, hi);
    }
  }

  lemma ChargesRetained(p: Position, log: seq<Snapshot>, harvests: map<Mint, seq<Period>>, current: nat)
    requires LogOk(log) && Retains(log, p.cursor)
    ensures forall c :: c in Charges(p, log, harvests, current) ==> c.from <= c.to && Retains(log, c.from)
  {
    hide Eligible;
    TailDescends(log);
    if Awaited(p, log).Some? {
      VestingIsReady(Tail(log), p.vestedAt, p.cursor);
      var s := Awaited(p, log).value;
      var i :| 0 <= i < SNAPSHOTS_LEN && Tail(log)[i] == s;
      assert OldestSlot(log) <= s.startedAt;
    }
  }

  /** Settling loses a farmer at most one token per window that it settles and a 10^-18th of the
      emission, as long as the buffer shows all of these windows. */
  lemma SettleLosesLittle(p: Position, log: seq<Snapshot>, harvests: map<Mint, seq<Period>>, current: nat, m: Mint,
                          hi: nat)
    requires LogOk(log) && m in harvests && Settle(p, FarmView(Tail(log), harvests), current).Ok?
    requires Settle(p, FarmView(Tail(log), harvests), current).value.cursor <= hi && Retains(log, p.cursor)
    ensures forall c :: c in Charges(p, log, harvests, current) ==> m in c.harvests
    ensures Owed(p, log, harvests[m], m, hi)
            <= Owed(Settle(p, FarmView(Tail(log), harvests), current).value, log, harvests[m], m, hi)
               + LossOf(Charges(p, log, harvests, current), m)
  {
    var q, cs := Settle(p, FarmView(Tail(log), harvests), current).value, Charges(p, log, harvests, current);
    hide Settle;
    SettleCreditsCharges(p, log, harvests, current, m, hi);
    ChargesEnd(p, log, harvests, current);
    ChargesRetained(p, log, harvests, current);
    ChargesNearWorth(cs, m, harvests[m], hi);
    forall t: nat
      ensures UnsettledOf(p, log)(t) == SettledShareOf(cs)(t) + UnsettledOf(q, log)(t)
    {
      SettleKeepsShares(p, log, harvests, current, t);
    }
    WorthAdds(harvests[m], SettledShareOf(cs), UnsettledOf(q, log), UnsettledOf(p, log), 0, hi);
  }

  // ---- the other operations of a farmer ----

  /** `q` could be settled for at most the shares that `p` could. */
  ghost predicate SharesNoMore(p: Position, q: Position, log: seq<Snapshot>) {
    forall t: nat :: Unsettled(q, log, t) <= Unsettled(p, log, t)
  }

  /** Tokens deposited in the current slot count in no window opened so far. */
  lemma DepositKeepsShares(p: Position, log: seq<Snapshot>, now: nat, tokens: nat)
    requires LogOk(log) && (log != [] ==> log[0].startedAt <= now)
    requires AddToVested(p, now, tokens).Ok?
    ensures SharesNoMore(p, AddToVested(p, now, tokens).value, log)
  {
    var q := AddToVested(p, now, tokens).value;
    FirstAfterOnLog(log, now);
    forall t: nat
      ensures Unsettled(q, log, t) <= Unsettled(p, log, t)
    {
      SlotShareMono(StakeAt(q, log, t), StakeAt(p, log, t), log, t);
    }
  }

  lemma UnstakeKeepsShares(p: Position, log: seq<Snapshot>, max: nat)
    requires Unstake(p, max).Ok?
    ensures SharesNoMore(p, Unstake(p, max).value.0, log)
  {
    var q := Unstake(p, max).value.0;
    forall t: nat
      ensures Unsettled(q, log, t) <= Unsettled(p, log, t)
    {
      SlotShareMono(StakeAt(q, log, t), StakeAt(p, log, t), log, t);
    }
  }

  /** A new snapshot becomes the awaited one if there was none, and otherwise the awaited one
      stays the same or is no longer retained. */
  lemma AwaitedAfterSnapshot(p: Position, log: seq<Snapshot>, s: Snapshot)
    requires LogOk(log) && LogOk([s] + log) && p.vestedAt <= s.startedAt
    ensures Awaited(p, [s] + log) == None || Awaited(p, [s] + log) == Awaited(p, log)
            || (Awaited(p, [s] + log) == Some(s) && Awaited(p, log) == None)
  {
    hide FirstAfter;
    hide Tail;
    var log' := [s] + log;
    assert log'[1..] == log;
    FirstAfterOnLog(log, p.vestedAt);
    FirstAfterOnLog(log', p.vestedAt);
    var c := CountAfter(log, p.vestedAt);
    if 0 < c && s.startedAt > p.vestedAt {
      assert log'[c] == log[c - 1];
    }
  }

  /** A new window at slot `s.startedAt` gives nobody a larger share of an earlier slot. */
  lemma SnapshotKeepsShares(p: Position, log: seq<Snapshot>, s: Snapshot, t: nat)
    requires LogOk(log) && LogOk([s] + log) && p.vestedAt <= s.startedAt && t < s.startedAt
    ensures Unsettled(p, [s] + log, t) <= Unsettled(p, log, t)
  {
    hide Awaited;
    hide LogOk;
    hide Fraction;
    var log' := [s] + log;
    assert log'[1..] == log;
    AwaitedAfterSnapshot(p, log, s);
    assert WindowAt(log', t) == WindowAt(log, t);
    SlotShareMono(StakeAt(p, log', t), StakeAt(p, log, t), log, t);
  }
}
