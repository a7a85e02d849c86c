/** `Harvest::tps_history`: the period array flattened into one gap-free list of ranges. */
module RateHistory {
  import opened Results
  import opened FarmTypes
  import opened Emission

  /** The inclusive slot range `first..=last`, emitting `tps` per slot. */
  datatype Range = Range(first: nat, last: nat, tps: nat)

  /** What one period contributes, newest first: itself and the gap down to `prev`, the
      period before it in time. Two blank neighbours contribute nothing. */
  function PeriodRanges(curr: Period, prev: Period): seq<Range> {
    if curr.startsAt == 0 && prev.startsAt == 0 then []
    else
      [Range(curr.startsAt, curr.endsAt, curr.tps)]
      + if curr.startsAt != 0 && prev.endsAt + 1 != curr.startsAt
        then [Range(prev.endsAt + 1, curr.startsAt - 1, 0)]
        else []
  }

  /** Every adjacent pair of periods, the last one paired with a blank period. */
  function RangesNewestFirst(ps: seq<Period>): seq<Range> {
    if ps == [] then []
    else PeriodRanges(ps[0], if |ps| > 1 then ps[1] else EMPTY_PERIOD) + RangesNewestFirst(ps[1..])
  }

  function Reversed(rs: seq<Range>): (r: seq<Range>)
    ensures |r| == |rs|
    ensures forall i :: 0 <= i < |rs| ==> r[i] == rs[|rs| - 1 - i]
  {
    if rs == [] then [] else Reversed(rs[1..]) + [rs[0]]
  }

  /** The ranges oldest first, padded up to `current` when the newest period is over. */
  function TpsHistory(ps: seq<Period>, current: nat): seq<Range>
    requires ps != []
  {
    Reversed(
      if ps[0].endsAt < current
      then [Range(ps[0].endsAt + 1, current, 0)] + RangesNewestFirst(ps)
      else RangesNewestFirst(ps))
  }

  /** `h` lists, oldest first, non-empty adjacent ranges that cover exactly the slots
      `1..=top`, each carrying the emission rate of all of its slots. */
  ghost predicate Tiles(h: seq<Range>, ps: seq<Period>, top: nat) {
    && (forall i :: 0 <= i < |h| ==> 1 <= h[i].first <= h[i].last)
    && (forall i :: 0 < i < |h| ==> h[i - 1].last + 1 == h[i].first)
    && (h == [] <==> top == 0)
    && (h != [] ==> h[0].first == 1 && h[|h| - 1].last == top)
    && (forall i, t :: 0 <= i < |h| && h[i].first <= t <= h[i].last ==> TpsAt(ps, t) == h[i].tps)
  }

  /** The same, newest first, by recursion on the list. */
  ghost predicate TilesDown(rs: seq<Range>, ps: seq<Period>, top: nat) {
    if rs == [] then top == 0
    else
      && rs[0].last == top
      && 1 <= rs[0].first <= top
      && (forall t :: rs[0].first <= t <= top ==> TpsAt(ps, t) == rs[0].tps)
      && TilesDown(rs[1..], ps, rs[0].first - 1)
  }

  lemma {:induction false} TilesDownReversed(rs: seq<Range>, ps: seq<Period>, top: nat)
    requires TilesDown(rs, ps, top)
    ensures Tiles(Reversed(rs), ps, top)
  {
    if rs != [] {
      TilesDownReversed(rs[1..], ps, rs[0].first - 1);
      TilesPush(Reversed(rs[1..]), rs[0], ps, rs[0].first - 1);
    }
  }

  /** One more range on top of a tiling. */
  lemma TilesPush(h: seq<Range>, range: Range, ps: seq<Period>, top: nat)
    requires Tiles(h, ps, top) && range.first == top + 1 <= range.last
    requires forall t :: range.first <= t <= range.last ==> TpsAt(ps, t) == range.tps
    ensures Tiles(h + [range], ps, range.last)
  {
    hide TpsAt;
    var g := h + [range];
    assert forall i :: 0 <= i < |h| ==> g[i] == h[i];
    assert g[|h|] == range;
  }

  lemma {:induction false} TilesDownAgree(rs: seq<Range>, ps: seq<Period>, qs: seq<Period>, top: nat)
    requires TilesDown(rs, ps, top)
    requires forall t :: 1 <= t <= top ==> TpsAt(ps, t) == TpsAt(qs, t)
    ensures TilesDown(rs, qs, top)
  {
    if rs != [] {
      TilesDownAgree(rs[1..], ps, qs, rs[0].first - 1);
    }
  }

  /** One period and its gap, put on top of a tiling that ends where the older one ends. */
  lemma TilesDownPush(ps: seq<Period>, rest: seq<Range>)
    requires WellFormed(ps) && ps != [] && Initialised(ps[0])
    requires TilesDown(rest, ps[1..], if |ps| > 1 then ps[1].endsAt else 0)
    ensures TilesDown(PeriodRanges(ps[0], if |ps| > 1 then ps[1] else EMPTY_PERIOD) + rest, ps, ps[0].endsAt)
  {
    var curr, prev := ps[0], if |ps| > 1 then ps[1] else EMPTY_PERIOD;
    assert prev.endsAt < curr.startsAt;
    TilesDownAgree(rest, ps[1..], ps, prev.endsAt);
    var own := Range(curr.startsAt, curr.endsAt, curr.tps);
    if prev.endsAt + 1 == curr.startsAt {
      assert PeriodRanges(curr, prev) + rest == [own] + rest;
      assert ([own] + rest)[1..] == rest;
    } else {
      var gap := Range(prev.endsAt + 1, curr.startsAt - 1, 0);
      forall t | gap.first <= t <= gap.last
        ensures TpsAt(ps, t) == 0
      {
        GapEmitsNothing(ps, t);
      }
      assert PeriodRanges(curr, prev) + rest == [own] + ([gap] + rest);
      assert ([own] + ([gap] + rest))[1..] == [gap] + rest;
      assert ([gap] + rest)[1..] == rest;
    }
  }

  lemma GapEmitsNothing(ps: seq<Period>, t: nat)
    requires WellFormed(ps) && ps != [] && t < ps[0].startsAt
    requires |ps| > 1 ==> ps[1].endsAt < t
    ensures TpsAt(ps, t) == 0
  {
    if |ps| > 1 {
      WellFormedTail(ps);
      NothingAfterNewest(ps[1..], t);
    }
  }

  lemma {:induction false} RangesTileDown(ps: seq<Period>)
    requires WellFormed(ps) && ps != []
    ensures TilesDown(RangesNewestFirst(ps), ps, ps[0].endsAt)
  {
    WellFormedTail(ps);
    if |ps| == 1 {
      assert RangesNewestFirst(ps[1..]) == [];
    } else {
      RangesTileDown(ps[1..]);
    }
    if Initialised(ps[0]) {
      TilesDownPush(ps, RangesNewestFirst(ps[1..]));
    } else {
      assert ps[0] == EMPTY_PERIOD;
      if |ps| > 1 {
        assert !Initialised(ps[1]);
      }
      assert RangesNewestFirst(ps) == RangesNewestFirst(ps[1..]);
    }
  }

  /** The history tiles time: its ranges are non-empty, adjacent and ascending, cover
      exactly the slots from 1 to the later of `current` and the newest period's end, and
      carry each slot's emission rate. */
  lemma HistoryTilesTime(ps: seq<Period>, current: nat)
    requires WellFormed(ps) && ps != []
    ensures Tiles(TpsHistory(ps, current), ps, Max(current, ps[0].endsAt))
  {
    RangesTileDown(ps);
    var rs := RangesNewestFirst(ps);
    if ps[0].endsAt < current {
      var pad := Range(ps[0].endsAt + 1, current, 0);
      forall t | pad.first <= t <= pad.last
        ensures TpsAt(ps, t) == 0
      {
        NothingAfterNewest(ps, t);
      }
      assert ([pad] + rs)[1..] == rs;
      TilesDownReversed([pad] + rs, ps, current);
    } else {
      TilesDownReversed(rs, ps, ps[0].endsAt);
    }
  }
}
