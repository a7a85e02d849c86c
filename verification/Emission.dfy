/** The emission timeline a period array stands for: how many tokens each slot releases. */
module Emission {
  import opened FarmTypes

  predicate Initialised(p: Period) {
    p.startsAt != 0
  }

  /** The documented shape of a period array: initialised periods come first, are
      disjoint and strictly descend in time; the rest is blank. */
  ghost predicate WellFormed(ps: seq<Period>) {
    && (forall i :: 0 <= i < |ps| ==>
          ps[i] == EMPTY_PERIOD || 1 <= ps[i].startsAt <= ps[i].endsAt)
    && (forall i :: 0 < i < |ps| && Initialised(ps[i]) ==>
          Initialised(ps[i - 1]) && ps[i].endsAt < ps[i - 1].startsAt)
  }

  /** The emission rate in force at slot `t`; gaps emit nothing. */
  function TpsAt(ps: seq<Period>, t: nat): nat {
    if ps == [] then 0
    else if ps[0].startsAt <= t <= ps[0].endsAt then ps[0].tps
    else TpsAt(ps[1..], t)
  }

  /** Tokens emitted over the slots `lo <= t < hi`, one slot at a time. */
  function SumTps(ps: seq<Period>, lo: nat, hi: nat): nat
    decreases hi
  {
    if hi <= lo then 0 else SumTps(ps, lo, hi - 1) + TpsAt(ps, hi - 1)
  }

  lemma {:induction false} SumTpsSplit(ps: seq<Period>, lo: nat, mid: nat, hi: nat)
    requires lo <= mid <= hi
    ensures SumTps(ps, lo, hi) == SumTps(ps, lo, mid) + SumTps(ps, mid, hi)
    decreases hi
  {
    if mid < hi {
      SumTpsSplit(ps, lo, mid, hi - 1);
    }
  }

  lemma {:induction false} SumTpsConstant(ps: seq<Period>, lo: nat, hi: nat, tps: nat)
    requires lo <= hi
    requires forall t :: lo <= t < hi ==> TpsAt(ps, t) == tps
    ensures SumTps(ps, lo, hi) == (hi - lo) * tps
    decreases hi
  {
    if lo < hi {
      SumTpsConstant(ps, lo, hi - 1, tps);
      assert (hi - lo) * tps == (hi - 1 - lo) * tps + tps;
    }
  }

  lemma {:induction false} SumTpsAgree(ps: seq<Period>, qs: seq<Period>, lo: nat, hi: nat)
    requires forall t :: lo <= t < hi ==> TpsAt(ps, t) == TpsAt(qs, t)
    ensures SumTps(ps, lo, hi) == SumTps(qs, lo, hi)
    decreases hi
  {
    if lo < hi {
      SumTpsAgree(ps, qs, lo, hi - 1);
    }
  }

  lemma {:induction false} SumTpsMono(ps: seq<Period>, lo: nat, hi: nat, lo': nat, hi': nat)
    requires lo' <= lo && hi <= hi'
    ensures SumTps(ps, lo, hi) <= SumTps(ps, lo', hi')
  {
    if lo < hi {
      SumTpsSplit(ps, lo', lo, hi');
      SumTpsSplit(ps, lo, hi, hi');
    }
  }

  lemma WellFormedTail(ps: seq<Period>)
    requires WellFormed(ps) && ps != []
    ensures WellFormed(ps[1..])
  {
    forall i | 0 < i < |ps[1..]| && Initialised(ps[1..][i])
      ensures Initialised(ps[1..][i - 1]) && ps[1..][i].endsAt < ps[1..][i - 1].startsAt
    {
      assert ps[1..][i] == ps[i + 1] && ps[1..][i - 1] == ps[i];
    }
  }

  /** Past the end of the newest period nothing is emitted. */
  lemma {:induction false} NothingAfterNewest(ps: seq<Period>, t: nat)
    requires WellFormed(ps) && ps != [] && ps[0].endsAt < t
    ensures TpsAt(ps, t) == 0
    decreases |ps|
  {
    if |ps| > 1 {
      WellFormedTail(ps);
      if Initialised(ps[1]) {
        assert ps[1].endsAt < ps[0].startsAt;
      }
      NothingAfterNewest(ps[1..], t);
    }
  }
}
