/** Exactly when a run stops being fair: a snapshot in a slot that was settled already, and a
    settlement of slots that have not come yet. */
module SameSlotSnapshot {
  import opened Results
  import opened FarmTypes
  import opened RingBuffer
  import opened Settlement
  import opened Totals
  import opened Shares
  import opened Protocol
  import opened FarmerMoves
  import opened Safety

  // ---- a snapshot in a settled slot ----

  lemma {:induction false} RunConcat(s: State, a: seq<Op>, b: seq<Op>)
    ensures Run(s, a + b) == Run(Run(s, a), b)
    ensures Along(Orderly, s, a + b) <==> Along(Orderly, s, a) && Along(Orderly, Run(s, a), b)
    decreases |a|
  {
    if a == [] {
      assert a + b == b;
    } else {
      assert (a + b)[1..] == a[1..] + b;
      RunConcat(Next(s, a[0]), a[1..], b);
    }
  }

  function Ticks(n: nat): seq<Op> {
    if n == 0 then [] else [Tick] + Ticks(n - 1)
  }

  lemma {:induction false} TicksPass(s: State, n: nat)
    requires s.now + n <= U64_MAX
    ensures Run(s, Ticks(n)) == s.(now := s.now + n) && Along(Orderly, s, Ticks(n))
    decreases n
  {
    if n > 0 {
      assert Ticks(n)[1..] == Ticks(n - 1);
      TicksPass(Next(s, Tick), n - 1);
    }
  }

  /** Everybody from farmer `i` on is settled up to `until`. */
  function UpdateFrom(i: nat, n: nat, until: nat): seq<Op>
    decreases n - i
  {
    if i >= n then [] else [UpdateEligibleHarvest(i, until)] + UpdateFrom(i + 1, n, until)
  }

  /** Once settled past slot `t`, a farmer has no share of it left. */
  lemma SettledPast(p: Position, log: seq<Snapshot>, farm: FarmView, current: nat, t: nat)
    requires farm.snapshots == Tail(log) && Settle(p, farm, current).Ok? && t < current
    ensures Unsettled(Settle(p, farm, current).value, log, t) == 0.0
  {
    if p.vested > 0 && FirstAfter(farm.snapshots, p.vestedAt).Some? {
      VestingIsReady(farm.snapshots, p.vestedAt, p.cursor);
    }
    assert Awaited(Settle(p, farm, current).value, log) == None;
  }

  lemma UpdateSettles(s: State, i: nat, t: nat)
    requires LogOk(s.log) && i < |s.farmers| && s.now == t + 1 <= U64_MAX && Settle(s.farmers[i], View(s), t + 1).Ok?
    ensures var s', op := Next(s, UpdateEligibleHarvest(i, t + 1)), UpdateEligibleHarvest(i, t + 1);
            && Orderly(s, op) && s'.now == s.now && s'.log == s.log && s'.harvests == s.harvests
            && |s'.farmers| == |s.farmers| && s'.farmers[i + 1..] == s.farmers[i + 1..]
            && SettledShare(s'.ledger, t) == SettledShare(s.ledger, t) + Unsettled(s.farmers[i], s.log, t)
  {
    hide FirstAfter;
    hide Unsettled;
    var p := s.farmers[i];
    SettledPast(p, s.log, View(s), t + 1, t);
    SettleKeepsShares(p, s.log, s.harvests, t + 1, t);
    SettledShareConcat(s.ledger, Charges(p, s.log, s.harvests, t + 1), t);
    hide Settle;
    hide Charges;
  }

  /** Settling everybody turns all unsettled shares of slot `t` into settled ones. */
  lemma {:induction false} UpdatesSettle(s: State, i: nat, t: nat)
    requires LogOk(s.log) && i <= |s.farmers| && s.now == t + 1 <= U64_MAX
    requires forall p :: p in s.farmers[i..] ==> Settle(p, View(s), t + 1).Ok?
    ensures var ops := UpdateFrom(i, |s.farmers|, t + 1);
            && Along(Orderly, s, ops)
            && SettledShare(Run(s, ops).ledger, t)
               == SettledShare(s.ledger, t) + Total(s.farmers[i..], UnsettledAt(s.log, t))
    decreases |s.farmers| - i
  {
    hide Settle;
    hide Orderly;
    hide Next;
    if i < |s.farmers| {
      var rest := s.farmers[i..];
      assert rest[0] == s.farmers[i] && rest[1..] == s.farmers[i + 1..];
      assert rest[0] in rest && forall p :: p in rest[1..] ==> p in rest;
      UpdateSettles(s, i, t);
      var op := UpdateEligibleHarvest(i, t + 1);
      var others := Next(s, op).farmers[i + 1..];
      forall p | p in others
        ensures Settle(p, View(Next(s, op)), t + 1).Ok?
      {
        assert p in rest;
      }
      UpdatesSettle(Next(s, op), i + 1, t);
      assert ([op] + UpdateFrom(i + 1, |s.farmers|, t + 1))[1..] == UpdateFrom(i + 1, |s.farmers|, t + 1);
    }
  }

  /** A slot that does not fit is overspent in the orderly run that waits until it has passed
      and settles everybody. */
  lemma OverspendingRun(s: State, t: nat) returns (ops: seq<Op>)
    requires LogOk(s.log) && s.now <= t < U64_MAX && !Fits(s, t)
    requires forall p :: p in s.farmers ==> Settle(p, View(s), t + 1).Ok?
    ensures Along(Orderly, s, ops) && SettledShare(Run(s, ops).ledger, t) > 1.0
  {
    hide Settle;
    hide Next;
    var wait, s' := Ticks(t + 1 - s.now), s.(now := t + 1);
    TicksPass(s, t + 1 - s.now);
    UpdatesSettle(s', 0, t);
    assert s'.farmers[0..] == s.farmers;
    ops := wait + UpdateFrom(0, |s.farmers|, t + 1);
    RunConcat(s, wait, UpdateFrom(0, |s.farmers|, t + 1));
  }

  /** Everybody can be settled right after slot `t`: no balance overflows. */
  ghost predicate CanSettleAll(s: State, t: nat) {
    t < U64_MAX && forall p :: p in s.farmers ==> Settle(p, View(s), t + 1).Ok?
  }

  lemma {:induction false} OrderlyIsSnapshotFirst(s: State, ops: seq<Op>)
    requires Along(Orderly, s, ops)
    ensures Along(SnapshotFirst, s, ops)
    decreases |ops|
  {
    hide Next;
    if ops != [] {
      OrderlyIsSnapshotFirst(Next(s, ops[0]), ops[1..]);
    }
  }

  /** Whatever run of this kind follows, slot `t` is settled for at most its whole emission. */
  ghost predicate NeverOverspent(rule: (State, Op) -> bool, s: State, t: nat) {
    forall ops :: Along(rule, s, ops) ==> SettledShare(Run(s, ops).ledger, t) <= 1.0
  }

  /** A snapshot is taken, whatever was settled before. In every continuation in which later
      snapshots come first in their slots, slot `t`, the snapshot's own or a later one, is settled
      for at most its whole emission if the share settled already, under whichever windows, and the
      shares under the new window of all farmers whose cursor or newly ready vested tokens still
      reach the slot, are together at most 1; and only if, unless settling everybody would overflow
      some balance. The same holds of the orderly continuations alone. */
  lemma SnapshotFitsIff(s: State, t: nat)
    requires Sound(s) && DoTakeSnapshot(s).Some? && s.now <= t
    ensures var s' := DoTakeSnapshot(s).value;
            var fits := SettledShare(s.ledger, t) + Total(s.farmers, UnsettledAt(Pushed(s), t)) <= 1.0;
            && (fits ==> NeverOverspent(SnapshotFirst, s', t))
            && (CanSettleAll(s', t) ==>
                  && (NeverOverspent(SnapshotFirst, s', t) <==> fits)
                  && (NeverOverspent(Orderly, s', t) <==> fits))
  {
    hide Settle;
    hide Sound;
    var s' := DoTakeSnapshot(s).value;
    TakeSnapshotKeepsSound(s);
    SoundFarm(s');
    if Fits(s', t) {
      forall ops | Along(SnapshotFirst, s', ops)
        ensures SettledShare(Run(s', ops).ledger, t) <= 1.0
      {
        FirstSnapshotsAreFair(s', ops);
        RunKeepsFit(s', ops, t);
        SettledAtMostOne(Run(s', ops), t);
      }
      forall ops | Along(Orderly, s', ops)
        ensures SettledShare(Run(s', ops).ledger, t) <= 1.0
      {
        OrderlyIsSnapshotFirst(s', ops);
      }
    } else if CanSettleAll(s', t) {
      var ops := OverspendingRun(s', t);
      OrderlyIsSnapshotFirst(s', ops);
      assert Along(Orderly, s', ops) && Along(SnapshotFirst, s', ops) && SettledShare(Run(s', ops).ledger, t) > 1.0;
    }
  }

  // ---- charging a slot twice, and charging it too early ----

  ghost predicate Charged(cs: seq<Charge>, t: nat) {
    exists i :: 0 <= i < |cs| && cs[i].from <= t <= cs[i].to
  }

  /** Settling charges a farmer again for a slot below the cursor exactly if vested tokens become
      earning at a snapshot below the cursor that the settlement reaches. This is one way in
      which a slot comes to be overspent; two farmers settled under different windows are another. */
  lemma SettlesAgainIff(p: Position, log: seq<Snapshot>, harvests: map<Mint, seq<Period>>, current: nat)
    requires Settle(p, FarmView(Tail(log), harvests), current).Ok?
    ensures var cs, s := Charges(p, log, harvests, current), Awaited(p, log);
            (exists t: nat :: Charged(cs, t) && t < p.cursor)
            <==> (s.Some? && s.value.startedAt < Min(p.cursor, current))
  {
    var cs := Charges(p, log, harvests, current);
    var v := Vest(p, FarmView(Tail(log), harvests)).value;
    if v.cursor < Min(p.cursor, current) {
      assert cs == [Charge(v.cursor, current, v.staked, log, harvests)];
      assert cs[0].from <= v.cursor <= cs[0].to;
      assert Charged(cs, v.cursor);
    } else {
      forall i | 0 <= i < |cs|
        ensures p.cursor <= cs[i].from
      {
      }
    }
  }

  /** The cursor once ready vested tokens are staked. */
  function CursorAfterVesting(p: Position, log: seq<Snapshot>): nat {
    match Awaited(p, log)
    case None => p.cursor
    case Some(s) => s.startedAt
  }

  lemma AwaitedHasStarted(p: Position, log: seq<Snapshot>, now: nat)
    requires LogOk(log) && (log != [] ==> log[0].startedAt <= now)
    ensures Awaited(p, log).Some? ==> Awaited(p, log).value.startedAt <= now
  {
    if Awaited(p, log).Some? {
      VestingIsReady(Tail(log), p.vestedAt, p.cursor);
      assert Awaited(p, log).value in log || Awaited(p, log).value == EMPTY_SNAPSHOT;
    }
  }

  lemma VestMovesCursor(p: Position, log: seq<Snapshot>, harvests: map<Mint, seq<Period>>)
    requires Vest(p, FarmView(Tail(log), harvests)).Ok?
    ensures Vest(p, FarmView(Tail(log), harvests)).value.cursor == CursorAfterVesting(p, log)
  {
  }

  /** Settling charges a slot after the clock exactly if it is asked to and the cursor, moved to
      the snapshot at which vested tokens become earning, is still below what it is asked for. */
  lemma SettlesAheadIff(p: Position, log: seq<Snapshot>, harvests: map<Mint, seq<Period>>, until: nat, now: nat)
    requires LogOk(log) && (log != [] ==> log[0].startedAt <= now)
    requires Settle(p, FarmView(Tail(log), harvests), until).Ok?
    ensures (exists t: nat :: Charged(Charges(p, log, harvests, until), t) && now < t)
            <==> now < until && CursorAfterVesting(p, log) < until
  {
    hide Vest;
    hide Update;
    hide Awaited;
    hide LogOk;
    var cs := Charges(p, log, harvests, until);
    var v := Vest(p, FarmView(Tail(log), harvests)).value;
    AwaitedHasStarted(p, log, now);
    VestMovesCursor(p, log, harvests);
    if now < until && v.cursor < until {
      assert cs[|cs| - 1].from <= until <= cs[|cs| - 1].to;
      assert Charged(cs, until);
    } else {
      forall i | 0 <= i < |cs|
        ensures cs[i].to <= now
      {
      }
    }
  }

  // ---- what was charged too early is gone ----

  /** A settlement up to `current` on a farm with these snapshots and periods. */
  datatype Visit = Visit(log: seq<Snapshot>, harvests: map<Mint, seq<Period>>, current: nat)

  /** One farmer settled again and again while the farm changes: the end and all charges. */
  ghost function SettleThrough(p: Position, vs: seq<Visit>): Result<(Position, seq<Charge>)>
    decreases |vs|
  {
    if vs == [] then Ok((p, []))
    else
      var v := vs[0];
      match Settle(p, FarmView(Tail(v.log), v.harvests), v.current)
      case Err(e) => Err(e)
      case Ok(q) =>
        match SettleThrough(q, vs[1..])
        case Err(e) => Err(e)
        case Ok((r, cs)) => Ok((r, Charges(p, v.log, v.harvests, v.current) + cs))
  }

  /** With nothing vesting, no slot below the cursor is ever charged again, whatever snapshots the
      farm takes and whatever it schedules for these slots. */
  lemma {:induction false} NothingBelowCursor(p: Position, vs: seq<Visit>, t: nat)
    requires p.vested == 0 && SettleThrough(p, vs).Ok? && t < p.cursor
    ensures SettledShare(SettleThrough(p, vs).value.1, t) == 0.0
    decreases |vs|
  {
    if vs != [] {
      var v := vs[0];
      var q := Settle(p, FarmView(Tail(v.log), v.harvests), v.current).value;
      var cs, rest := Charges(p, v.log, v.harvests, v.current), SettleThrough(q, vs[1..]).value.1;
      NothingBelowCursor(q, vs[1..], t);
      SettledShareConcat(cs, rest, t);
      assert cs == [] || cs[1..] == [];
    }
  }

  /** Anybody can settle a farmer up to a later slot: then, unless tokens are vesting, the farmer
      is settled with the emission scheduled so far and never again for any slot up to that one. */
  lemma SettledAheadForGood(p: Position, log: seq<Snapshot>, harvests: map<Mint, seq<Period>>, until: nat,
                            vs: seq<Visit>, t: nat)
    requires Settle(p, FarmView(Tail(log), harvests), until).Ok? && t < until
    requires Settle(p, FarmView(Tail(log), harvests), until).value.vested == 0
    requires SettleThrough(Settle(p, FarmView(Tail(log), harvests), until).value, vs).Ok?
    ensures SettledShare(SettleThrough(Settle(p, FarmView(Tail(log), harvests), until).value, vs).value.1, t) == 0.0
  {
    NothingBelowCursor(Settle(p, FarmView(Tail(log), harvests), until).value, vs, t);
  }
}
