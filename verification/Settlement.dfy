/** The farmer's account as a value, and what settling its harvest means. */
module Settlement {
  import opened Results
  import opened FarmTypes
  import opened Earnings
  import opened RingBuffer
  import opened Sweep

  /** A farmer: tokens earning harvest, tokens still vesting and since when, the first slot
      not settled yet, and what each harvest mint owes. */
  datatype Position = Position(staked: nat, vested: nat, vestedAt: nat, cursor: nat, harvests: map<Mint, nat>)

  /** What a farmer reads of a farm: all buffer entries newest first, and the emission
      periods of every harvest mint. */
  datatype FarmView = FarmView(snapshots: seq<Snapshot>, harvests: map<Mint, seq<Period>>)

  ghost predicate FarmViewOk(farm: FarmView) {
    && Descending(farm.snapshots) && SnapshotsFit(farm.snapshots)
    && (forall i :: 0 <= i < |farm.snapshots| ==> farm.snapshots[i].startedAt <= U64_MAX)
    && FarmOk(farm.harvests) && DEFAULT_MINT !in farm.harvests
  }

  // ---- settling ----

  /** Balance of mint `m` after crediting the slots `p.cursor ..= until`. */
  function SettledBalance(p: Position, farm: FarmView, m: Mint, until: nat): nat
    requires m in farm.harvests
  {
    Recorded(p.harvests, m) + CreditFor(farm.snapshots, p.cursor, until, p.staked, farm.harvests[m])
  }

  /** The balances after crediting `p.cursor ..= until`: exactly the farm's current mints. */
  ghost function Eligible(p: Position, farm: FarmView, until: nat): Result<map<Mint, nat>> {
    if p.staked == 0
       || (until < U64_MAX && forall m :: m in farm.harvests ==> SettledBalance(p, farm, m, until) <= U64_MAX)
    then Ok(map m | m in farm.harvests :: SettledBalance(p, farm, m, until))
    else Err(MathOverflow)
  }

  /** Settles up to and including `current`; nothing happens if that is settled already. */
  ghost function Update(p: Position, farm: FarmView, current: nat): Result<Position> {
    if p.cursor >= current then Ok(p)
    else
      match Eligible(p, farm, current)
      case Err(e) => Err(e)
      case Ok(h) =>
        if current == U64_MAX then Err(MathOverflow)
        else Ok(p.(harvests := h, cursor := current + 1))
  }

  /** Moves vested tokens to the stake at the first snapshot after they were deposited:
      everything before that snapshot is settled without them. */
  ghost function Vest(p: Position, farm: FarmView): Result<Position> {
    if p.vested == 0 then Ok(p)
    else
      match FirstAfter(farm.snapshots, p.vestedAt)
      case None => Ok(p)
      case Some(s) =>
        match Eligible(p, farm, s.startedAt - 1)
        case Err(e) => Err(e)
        case Ok(h) =>
          if p.staked + p.vested > U64_MAX then Err(MathOverflow)
          else Ok(Position(p.staked + p.vested, 0, p.vestedAt, s.startedAt, h))
  }

  /** `check_vested_period_and_update_harvest`. */
  ghost function Settle(p: Position, farm: FarmView, current: nat): Result<Position> {
    match Vest(p, farm)
    case Err(e) => Err(e)
    case Ok(q) => Update(q, farm, current)
  }

  // ---- stake movements ----

  function AddToVested(p: Position, current: nat, tokens: nat): Result<Position> {
    if p.vested + tokens > U64_MAX then Err(MathOverflow)
    else Ok(p.(vestedAt := current, vested := p.vested + tokens))
  }

  /** Takes up to `max` tokens out, vested ones first; returns how many. */
  function Unstake(p: Position, max: nat): Result<(Position, nat)> {
    if p.vested >= max then Ok((p.(vested := p.vested - max), max))
    else if p.staked + p.vested > U64_MAX then Err(MathOverflow)
    else if p.staked + p.vested > max then
      Ok((p.(staked := p.staked - (max - p.vested), vested := 0), max))
    else Ok((p.(staked := 0, vested := 0), p.staked + p.vested))
  }

  /** Unstaking pays out the smaller of the request and the deposit and touches the
      earning stake only once nothing is left vesting. */
  lemma UnstakeTakesVestedFirst(p: Position, max: nat)
    requires p.staked + p.vested <= U64_MAX
    ensures Unstake(p, max).Ok?
    ensures var (q, paid) := Unstake(p, max).value;
            && paid == Min(max, p.staked + p.vested)
            && q.staked + q.vested + paid == p.staked + p.vested
            && (q.staked < p.staked ==> q.vested == 0)
            && q.cursor == p.cursor && q.harvests == p.harvests && q.vestedAt == p.vestedAt
  {
  }

  function ClaimHarvest(p: Position, m: Mint): Result<(Position, nat)> {
    if m !in p.harvests then Err(CannotCompound)
    else Ok((p.(harvests := p.harvests[m := 0]), p.harvests[m]))
  }

  // ---- the snapshot iterator feeds the sweep everything that can still earn ----

  /** Skipping the entries that started after `until`. */
  function NotAfter(w: seq<Snapshot>, until: nat): seq<Snapshot> {
    w[CountAfter(w, until)..]
  }

  lemma EmptyWindowEarnsNothing(stake: nat, total: nat)
    ensures WindowCredit(stake, total, 0) == 0
  {
    if total > 0 {
      assert Share(stake, total) * 0 == 0;
    }
  }

  /** Windows that open after `until` earn nothing. */
  lemma {:induction false} NewerEarnNothing(w: seq<Snapshot>, next: nat, since: nat, until: nat, stake: nat,
                                            ps: seq<Period>)
    requires next > until
    ensures Credit(w, next, since, until, stake, ps)
            == Credit(NotAfter(w, until), until + 1, since, until, stake, ps)
  {
    if w == [] || w[0].startedAt <= until {
      assert NotAfter(w, until) == w;
    } else {
      EmptyWindowEarnsNothing(stake, w[0].staked);
      assert NotAfter(w, until) == NotAfter(w[1..], until);
      NewerEarnNothing(w[1..], w[0].startedAt, since, until, stake, ps);
    }
  }

  /** Windows that closed before `since` earn nothing. */
  lemma {:induction false} OlderEarnNothing(w: seq<Snapshot>, next: nat, since: nat, until: nat, stake: nat,
                                            ps: seq<Period>)
    requires Descending(w) && next <= since && (w != [] ==> w[0].startedAt <= next)
    ensures Credit(w, next, since, until, stake, ps) == 0
  {
    if w != [] {
      EmptyWindowEarnsNothing(stake, w[0].staked);
      DescendingTail(w);
      assert w[1..] != [] ==> w[1..][0] == w[1];
      OlderEarnNothing(w[1..], w[0].startedAt, since, until, stake, ps);
    }
  }

  /** Entries older than the first one at or before `since` earn nothing. */
  lemma {:induction false} NeededSuffices(w: seq<Snapshot>, next: nat, since: nat, until: nat, stake: nat,
                                          ps: seq<Period>)
    requires Descending(w)
    ensures Credit(Needed(w, since), next, since, until, stake, ps) == Credit(w, next, since, until, stake, ps)
  {
    if w != [] {
      DescendingTail(w);
      if w[0].startedAt <= since {
        assert Needed(w, since) == [w[0]];
        assert w[1..] != [] ==> w[1..][0] == w[1];
        OlderEarnNothing(w[1..], w[0].startedAt, since, until, stake, ps);
      } else {
        assert Needed(w, since)[1..] == Needed(w[1..], since);
        NeededSuffices(w[1..], w[0].startedAt, since, until, stake, ps);
      }
    }
  }

  /** The snapshots the sweep is given: needed since the cursor and not after `until`. */
  function SweepInput(w: seq<Snapshot>, since: nat, until: nat): seq<Snapshot> {
    NotAfter(Needed(w, since), until)
  }

  lemma SweepInputSuffices(w: seq<Snapshot>, since: nat, until: nat, stake: nat, ps: seq<Period>)
    requires Descending(w)
    ensures Credit(SweepInput(w, since, until), until + 1, since, until, stake, ps)
            == CreditFor(w, since, until, stake, ps)
  {
    NeededSuffices(w, until + 1, since, until, stake, ps);
    NewerEarnNothing(Needed(w, since), until + 1, since, until, stake, ps);
  }

  /** The sweep may be called with `since ..= until`: no window it is given is empty. */
  ghost predicate SweepReady(w: seq<Snapshot>, since: nat, until: nat) {
    since <= until || exists i :: 0 <= i < |w| && until < w[i].startedAt <= since
  }

  lemma SweepInputPending(w: seq<Snapshot>, since: nat, until: nat)
    requires Descending(w) && SnapshotsFit(w) && SweepReady(w, since, until)
    ensures Pending(SweepInput(w, since, until), since, until) && SnapshotsFit(SweepInput(w, since, until))
  {
    var n := Needed(w, since);
    var v := SweepInput(w, since, until);
    assert |n| <= |w| && n == w[..|n|];
    assert forall i :: 0 <= i < |v| ==> v[i] == n[CountAfter(n, until) + i];
    if since > until {
      var i :| 0 <= i < |w| && until < w[i].startedAt <= since;
      assert CountAfter(w, since) <= i;
      assert v == [];
    }
  }

  /** Both callers of the sweep are ready: settling to a slot past the cursor, and settling
      to the slot before the snapshot at which vested tokens start to earn. */
  lemma VestingIsReady(w: seq<Snapshot>, vestedAt: nat, since: nat)
    requires FirstAfter(w, vestedAt).Some?
    ensures FirstAfter(w, vestedAt).value in w && FirstAfter(w, vestedAt).value.startedAt > vestedAt
    ensures SweepReady(w, since, FirstAfter(w, vestedAt).value.startedAt - 1)
  {
    var k := CountAfter(w, vestedAt);
    assert w[k - 1].startedAt > vestedAt;
  }
}
