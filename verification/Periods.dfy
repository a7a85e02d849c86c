/** The admin's period array: scheduling, overwriting and rotating emission periods. */
module Periods {
  import opened Results
  import opened FarmTypes
  import opened Emission

  /** The first listed period that has started; there is none only if all lie in future. */
  function LatestStarted(ps: seq<Period>, current: nat): (p: Option<Period>)
    ensures p.Some? ==> p.value in ps && p.value.startsAt <= current
  {
    if ps == [] then None
    else if ps[0].startsAt <= current then Some(ps[0])
    else LatestStarted(ps[1..], current)
  }

  /** Every period moved one entry up, the last one dropped, `p` put first. */
  function Rotated(ps: seq<Period>, p: Period): seq<Period>
    requires ps != []
  {
    [p] + ps[..|ps| - 1]
  }

  /** What `new_harvest_period` does to one mint's array: the new array and, if a scheduled
      launch was overwritten, that launch. `oldestStart` is the slot of the oldest retained
      snapshot. */
  function NewPeriod(ps: seq<Period>, oldestStart: nat, current: nat, p: Period)
    : Result<(seq<Period>, Option<Period>)>
  {
    if p.startsAt >= p.endsAt then Err(PeriodMustStartBeforeEnd)
    else
      match LatestStarted(ps, current)
      case None => Err(InvariantViolation)
      case Some(latest) =>
        if latest.endsAt >= p.startsAt then Err(PeriodStillOpen)
        else if ps[0].startsAt > current then Ok((ps[0 := p], Some(ps[0])))
        else if ps[|ps| - 1].endsAt != 0 && ps[|ps| - 1].endsAt >= oldestStart then Err(PeriodLimitExceeded)
        else Ok((Rotated(ps, p), None))
  }

  /** Only the newest period may start in the future. */
  ghost predicate OnlyHeadAhead(ps: seq<Period>, now: nat) {
    forall i :: 1 <= i < |ps| ==> ps[i].startsAt <= now
  }

  /** The invariant of a period array at slot `now`. */
  ghost predicate Scheduled(ps: seq<Period>, now: nat) {
    |ps| == HARVEST_PERIODS_LEN && WellFormed(ps) && OnlyHeadAhead(ps, now)
  }

  lemma BlankIsScheduled(now: nat)
    ensures Scheduled(EmptyPeriods(), now)
  {
  }

  /** Before which slot every other period of the array has ended. */
  lemma LatestStartedIsHeadOrNext(ps: seq<Period>, current: nat)
    requires Scheduled(ps, current)
    ensures LatestStarted(ps, current) == Some(if ps[0].startsAt <= current then ps[0] else ps[1])
  {
    assert ps[1..][0] == ps[1];
  }

  /** Disjointness, order and the single scheduled launch survive every admin call. */
  lemma NewPeriodKeepsSchedule(ps: seq<Period>, oldestStart: nat, current: nat, p: Period)
    requires Scheduled(ps, current) && NewPeriod(ps, oldestStart, current, p).Ok?
    ensures Scheduled(NewPeriod(ps, oldestStart, current, p).value.0, current)
  {
    LatestStartedIsHeadOrNext(ps, current);
    var qs := NewPeriod(ps, oldestStart, current, p).value.0;
    if ps[0].startsAt <= current {
      forall i | 0 < i < |qs| && Initialised(qs[i])
        ensures Initialised(qs[i - 1]) && qs[i].endsAt < qs[i - 1].startsAt
      {
        assert qs[i] == ps[i - 1];
      }
    }
  }

  /** With a scheduled array the call is refused exactly for an empty interval, an interval
      that does not clear the latest started period, or a full history. */
  lemma NewPeriodAccepts(ps: seq<Period>, oldestStart: nat, current: nat, p: Period)
    requires Scheduled(ps, current)
    ensures var latest := if ps[0].startsAt <= current then ps[0] else ps[1];
            NewPeriod(ps, oldestStart, current, p).Ok? <==>
            && p.startsAt < p.endsAt
            && latest.endsAt < p.startsAt
            && (ps[0].startsAt <= current && Initialised(ps[|ps| - 1]) ==> ps[|ps| - 1].endsAt < oldestStart)
  {
    LatestStartedIsHeadOrNext(ps, current);
  }

  // ---- what the timeline looks like afterwards ----

  lemma {:induction false} TpsWithoutLast(ps: seq<Period>, t: nat)
    requires ps != [] && !(ps[|ps| - 1].startsAt <= t <= ps[|ps| - 1].endsAt && ps[|ps| - 1] != EMPTY_PERIOD)
    ensures TpsAt(ps[..|ps| - 1], t) == TpsAt(ps, t)
  {
    if |ps| > 1 {
      assert ps[1..][..|ps| - 2] == ps[..|ps| - 1][1..];
      TpsWithoutLast(ps[1..], t);
    }
  }

  /** Dropping the last entry leaves every slot after its end alone. */
  lemma RotatedTps(ps: seq<Period>, p: Period, t: nat)
    requires ps != [] && WellFormed(ps)
    requires ps[|ps| - 1].endsAt < t || !Initialised(ps[|ps| - 1])
    ensures TpsAt(Rotated(ps, p), t) == if p.startsAt <= t <= p.endsAt then p.tps else TpsAt(ps, t)
  {
    assert Rotated(ps, p)[1..] == ps[..|ps| - 1];
    TpsWithoutLast(ps, t);
  }

  /** The new emission rate of every slot that matters: inside the new period its rate,
      elsewhere what it was, except that an overwritten launch no longer emits. "Matters"
      means from the oldest retained snapshot on: the slots dropped with the oldest period
      all lie before it. */
  lemma NewPeriodTimeline(ps: seq<Period>, oldestStart: nat, current: nat, p: Period, t: nat)
    requires Scheduled(ps, current) && NewPeriod(ps, oldestStart, current, p).Ok?
    requires t >= oldestStart
    ensures var (qs, overwritten) := NewPeriod(ps, oldestStart, current, p).value;
            TpsAt(qs, t) ==
            if p.startsAt <= t <= p.endsAt then p.tps
            else if overwritten.Some? && overwritten.value.startsAt <= t then 0
            else TpsAt(ps, t)
  {
    LatestStartedIsHeadOrNext(ps, current);
    if ps[0].startsAt > current {
      var qs := ps[0 := p];
      assert qs[1..] == ps[1..];
      if ps[0].startsAt <= t {
        WellFormedTail(ps);
        NothingAfterNewest(ps[1..], t);
      }
    } else {
      RotatedTps(ps, p, t);
    }
  }

  /** Old slots, also those before the oldest retained snapshot, never gain emission. */
  lemma NewPeriodNeverRaisesPast(ps: seq<Period>, oldestStart: nat, current: nat, p: Period, t: nat)
    requires Scheduled(ps, current) && NewPeriod(ps, oldestStart, current, p).Ok?
    requires t < p.startsAt
    ensures TpsAt(NewPeriod(ps, oldestStart, current, p).value.0, t) <= TpsAt(ps, t)
  {
    LatestStartedIsHeadOrNext(ps, current);
    if ps[0].startsAt > current {
      assert ps[0 := p][1..] == ps[1..];
      if ps[0].startsAt <= t {
        WellFormedTail(ps);
        NothingAfterNewest(ps[1..], t);
      }
    } else {
      assert Rotated(ps, p)[1..] == ps[..|ps| - 1];
      PrefixTps(ps, t);
    }
  }

  lemma {:induction false} PrefixTps(ps: seq<Period>, t: nat)
    requires ps != []
    ensures TpsAt(ps[..|ps| - 1], t) <= TpsAt(ps, t)
  {
    if |ps| > 1 {
      assert ps[1..][..|ps| - 2] == ps[..|ps| - 1][1..];
      PrefixTps(ps[1..], t);
    }
  }

  // ---- emission still to come ----

  /** Tokens a period releases in total. */
  function PeriodTotal(p: Period): nat
    requires p.startsAt <= p.endsAt
  {
    (p.endsAt - p.startsAt + 1) * p.tps
  }

  /** Everything emitted at slot `from` or later. */
  function EmissionFrom(ps: seq<Period>, from: nat): nat {
    if ps == [] then 0 else SumTps(ps, from, ps[0].endsAt + 1)
  }

  lemma EmissionAnyHorizon(ps: seq<Period>, from: nat, horizon: nat)
    requires ps != [] && WellFormed(ps) && ps[0].endsAt < horizon && from <= horizon
    ensures SumTps(ps, from, horizon) == EmissionFrom(ps, from)
  {
    forall t | ps[0].endsAt + 1 <= t < horizon
      ensures TpsAt(ps, t) == 0
    {
      NothingAfterNewest(ps, t);
    }
    if from <= ps[0].endsAt + 1 {
      SumTpsSplit(ps, from, ps[0].endsAt + 1, horizon);
      SumTpsConstant(ps, ps[0].endsAt + 1, horizon, 0);
    } else {
      SumTpsConstant(ps, from, horizon, 0);
    }
  }

  lemma HeadIsLast(ps: seq<Period>, from: nat)
    requires ps != [] && Initialised(ps[0]) && ps[0].startsAt <= ps[0].endsAt && from <= ps[0].startsAt
    ensures EmissionFrom(ps, from) == SumTps(ps, from, ps[0].startsAt) + PeriodTotal(ps[0])
  {
    SumTpsSplit(ps, from, ps[0].startsAt, ps[0].endsAt + 1);
    SumTpsConstant(ps, ps[0].startsAt, ps[0].endsAt + 1, ps[0].tps);
  }

  /** The vault top-up (or refund) of the call is exactly the change in the emission still
      to come: paying for the new period in full, minus a launch it overwrites. */
  lemma FundingMatchesEmission(ps: seq<Period>, oldestStart: nat, current: nat, p: Period, from: nat)
    requires Scheduled(ps, current) && NewPeriod(ps, oldestStart, current, p).Ok?
    requires oldestStart <= from && current <= from <= p.startsAt && from <= current + 1
    ensures var (qs, overwritten) := NewPeriod(ps, oldestStart, current, p).value;
            && (overwritten.Some? ==> overwritten.value.startsAt <= overwritten.value.endsAt)
            && EmissionFrom(qs, from) + (if overwritten.Some? then PeriodTotal(overwritten.value) else 0)
               == EmissionFrom(ps, from) + PeriodTotal(p)
  {
    var (qs, overwritten) := NewPeriod(ps, oldestStart, current, p).value;
    LatestStartedIsHeadOrNext(ps, current);
    NewPeriodKeepsSchedule(ps, oldestStart, current, p);
    HeadIsLast(qs, from);
    if overwritten.None? {
      forall t | from <= t < p.startsAt
        ensures TpsAt(ps, t) == TpsAt(qs, t)
      {
        NewPeriodTimeline(ps, oldestStart, current, p, t);
      }
      SumTpsAgree(ps, qs, from, p.startsAt);
      EmissionAnyHorizon(ps, from, p.startsAt);
    } else {
      HeadIsLast(ps, from);
      SameBeforeLaunches(ps, qs, from, ps[0].startsAt, p.startsAt);
    }
  }

  /** Replacing the head: before either head starts, both arrays emit what the rest does,
      and the rest is over by then. */
  lemma SameBeforeLaunches(ps: seq<Period>, qs: seq<Period>, from: nat, a: nat, b: nat)
    requires |ps| == |qs| > 1 && ps[1..] == qs[1..] && WellFormed(ps) && WellFormed(qs)
    requires ps[0].startsAt == a && qs[0].startsAt == b && from <= a && from <= b
    requires Initialised(ps[0]) && Initialised(qs[0])
    ensures SumTps(ps, from, a) == SumTps(qs, from, b)
  {
    var rest, lo := ps[1..], Min(a, b);
    WellFormedTail(ps);
    forall t | from <= t < a
      ensures TpsAt(ps, t) == TpsAt(rest, t)
    {
    }
    forall t | from <= t < b
      ensures TpsAt(qs, t) == TpsAt(rest, t)
    {
    }
    SumTpsAgree(ps, rest, from, a);
    SumTpsAgree(qs, rest, from, b);
    SumTpsSplit(rest, from, lo, a);
    SumTpsSplit(rest, from, lo, b);
    forall t | lo <= t < Max(a, b)
      ensures TpsAt(rest, t) == 0
    {
      assert rest[0] == ps[1] == qs[1];
      NothingAfterNewest(rest, t);
    }
    SumTpsConstant(rest, lo, a, 0);
    SumTpsConstant(rest, lo, b, 0);
  }
}
