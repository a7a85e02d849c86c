/** The order that the vesting step takes for granted: a farmer's last deposit is not later
    than the cursor. Which runs keep it, and the instruction that does not. */
module VestingOrder {
  import opened Results
  import opened FarmTypes
  import opened RingBuffer
  import opened Settlement
  import opened Shares
  import opened Protocol
  import opened FarmerMoves
  import opened SameSlotSnapshot

  predicate Ordered(p: Position) {
    p.vestedAt <= p.cursor
  }

  ghost predicate AllOrdered(s: State) {
    forall i :: 0 <= i < |s.farmers| ==> Ordered(s.farmers[i])
  }

  /** Settling keeps the order and moves the cursor to the clock or beyond. */
  lemma SettleKeepsOrder(p: Position, farm: FarmView, current: nat)
    requires Ordered(p) && Settle(p, farm, current).Ok?
    ensures Ordered(Settle(p, farm, current).value) && current <= Settle(p, farm, current).value.cursor
  {
    if p.vested > 0 && FirstAfter(farm.snapshots, p.vestedAt).Some? {
      VestingIsReady(farm.snapshots, p.vestedAt, p.cursor);
    }
  }

  /** A receipt keeps the order exactly if the farmer's cursor has reached the clock; the
      endpoint does not settle the farmer first, so it may not have. */
  lemma ReceiptKeepsOrderIff(s: State, i: nat, tokens: nat)
    requires DoCompoundIn(s, i, tokens).Some?
    ensures Ordered(DoCompoundIn(s, i, tokens).value.farmers[i]) <==> s.now <= s.farmers[i].cursor
  {
  }

  /** An accepted receipt of tokens compounded in another farm finds the cursor at or past the
      clock. */
  ghost predicate TimelyReceipt(s: State, op: Op) {
    op.CompoundFromOtherFarm? && Try(s, op).Some? ==> s.now <= s.farmers[op.farmer].cursor
  }

  ghost predicate KeepsOrder(s: State, op: Op) {
    AllOrdered(Next(s, op))
  }

  lemma ReceiptStepIff(s: State, i: nat, tokens: nat)
    requires AllOrdered(s) && DoCompoundIn(s, i, tokens).Some?
    ensures AllOrdered(DoCompoundIn(s, i, tokens).value) <==> s.now <= s.farmers[i].cursor
  {
    ReceiptKeepsOrderIff(s, i, tokens);
    var s' := DoCompoundIn(s, i, tokens).value;
    assert forall j :: 0 <= j < |s.farmers| && j != i ==> s'.farmers[j] == s.farmers[j];
  }

  /** Every other instruction keeps the order, whatever the clock, the snapshots and the `until`
      it is called with. */
  lemma StepKeepsOrder(s: State, op: Op)
    requires AllOrdered(s) && !op.CompoundFromOtherFarm?
    ensures AllOrdered(Next(s, op))
  {
    hide Settle;
    if Try(s, op).Some? {
      match op
      case StartFarming(i, tokens) => SettleKeepsOrder(s.farmers[i], View(s), s.now);
      case StopFarming(i, max) => SettleKeepsOrder(s.farmers[i], View(s), s.now);
      case UpdateEligibleHarvest(i, until) => SettleKeepsOrder(s.farmers[i], View(s), until);
      case ClaimEligibleHarvest(i, mints) => PayOutKeepsStake(s.farmers[i], s.vaults, mints);
      case CompoundSameFarm(i) => SettleKeepsOrder(s.farmers[i], View(s), s.now);
      case CompoundToOtherFarm(i, m) => SettleKeepsOrder(s.farmers[i], View(s), s.now);
      case _ =>
    }
  }

  lemma StepKeepsOrderIff(s: State, op: Op)
    requires AllOrdered(s)
    ensures KeepsOrder(s, op) <==> TimelyReceipt(s, op)
  {
    hide AllOrdered;
    if op.CompoundFromOtherFarm? {
      if Try(s, op).Some? {
        ReceiptStepIff(s, op.farmer, op.tokens);
      }
    } else {
      StepKeepsOrder(s, op);
    }
  }

  /** The vesting step gets to its assertion exactly if a retained snapshot is awaited; there the
      assertion fails exactly if the deposit is later than the cursor. */
  ghost predicate AssertionFails(p: Position, log: seq<Snapshot>) {
    Awaited(p, log).Some? && !Ordered(p)
  }

  lemma {:induction false} RunKeepsOrderIff(s: State, ops: seq<Op>)
    requires AllOrdered(s)
    ensures Along(KeepsOrder, s, ops) <==> Along(TimelyReceipt, s, ops)
    ensures Along(TimelyReceipt, s, ops) ==> AllOrdered(Run(s, ops))
    decreases |ops|
  {
    hide AllOrdered;
    if ops != [] {
      StepKeepsOrderIff(s, ops[0]);
      if KeepsOrder(s, ops[0]) {
        ShowOrdered(s, ops[0]);
        RunKeepsOrderIff(Next(s, ops[0]), ops[1..]);
      }
    }
  }

  lemma ShowOrdered(s: State, op: Op)
    requires KeepsOrder(s, op)
    ensures AllOrdered(Next(s, op))
  {
  }

  /** A run keeps the order after every instruction if and only if all its receipts are timely,
      and then no settlement fails the assertion of the vesting step. */
  lemma VestingAssertionHolds(stakeMint: Mint, ops: seq<Op>)
    ensures Along(KeepsOrder, Initial(stakeMint), ops) <==> Along(TimelyReceipt, Initial(stakeMint), ops)
    ensures Along(TimelyReceipt, Initial(stakeMint), ops) ==>
              var s := Run(Initial(stakeMint), ops);
              AllOrdered(s) && forall p :: p in s.farmers ==> !AssertionFails(p, s.log)
  {
    RunKeepsOrderIff(Initial(stakeMint), ops);
  }

  const RECEIPT: seq<Op> := [SetMinWindow(1), CreateFarmer, Tick, Tick, CompoundFromOtherFarm(0, 5)]
  const SNAPSHOT: seq<Op> := [Tick, TakeSnapshot]

  /** Two slots after it was created a farmer receives compounded tokens, and a snapshot is taken
      in the next slot. A settlement, which would go through, comes to the assertion and fails it. */
  lemma ReceiptBreaksOrder()
    ensures !AllOrdered(Run(Initial(1), RECEIPT))
    ensures var s := Run(Initial(1), RECEIPT + SNAPSHOT);
            && |s.farmers| == 1 && AssertionFails(s.farmers[0], s.log)
            && Try(s, UpdateEligibleHarvest(0, s.now)).Some?
  {
    hide Settle;
    hide Awaited;
    hide DoUpdate;
    var s := ReceiptRun();
    RunConcat(Initial(1), RECEIPT, SNAPSHOT);
    var s1 := Next(s, Tick);
    var s2 := Next(s1, TakeSnapshot);
    assert SNAPSHOT[1..] == [TakeSnapshot] && SNAPSHOT[1..][1..] == [];
    assert Run(s1, SNAPSHOT[1..]) == Run(s2, []) == s2;
    assert !Ordered(s.farmers[0]) && s2.farmers[0] == RECEIVED;
    ReceiptSettles(s2);
  }

  const RECEIVED := Position(0, 5, 2, 0, map[])

  lemma ReceiptAwaits()
    ensures FirstAfter(Tail([Snapshot(5, 3)]), 2) == Some(Snapshot(5, 3))
  {
    var log := [Snapshot(5, 3)];
    FirstAfterOnLog(log, 2);
    CountIsUnique(log, 2, 1);
  }

  lemma ReceiptSettles(s: State)
    requires s == State(3, [Snapshot(5, 3)], 1, 1, map[], 5, map[], [RECEIVED], 0, [])
    ensures Awaited(RECEIVED, s.log) == Some(Snapshot(5, 3))
    ensures Try(s, UpdateEligibleHarvest(0, s.now)).Some?
  {
    hide FirstAfter;
    hide Tail;
    hide Charges;
    ReceiptAwaits();
    var farm := View(s);
    assert Vest(RECEIVED, farm).Ok? && Vest(RECEIVED, farm).value.cursor == 3;
  }

  lemma ReceiptRun() returns (s: State)
    ensures s == Run(Initial(1), RECEIPT)
    ensures s == State(2, [], 1, 1, map[], 5, map[], [RECEIVED], 0, [])
  {
    var s1 := Next(Initial(1), SetMinWindow(1));
    var s2 := Next(s1, CreateFarmer);
    assert NewFarmer(s1) == Position(0, 0, 0, 0, map[]);
    var s3 := Next(s2, Tick);
    var s4 := Next(s3, Tick);
    s := Next(s4, CompoundFromOtherFarm(0, 5));
    var ops := RECEIPT;
    assert ops[1..] == [CreateFarmer, Tick, Tick, CompoundFromOtherFarm(0, 5)];
    assert ops[1..][1..] == [Tick, Tick, CompoundFromOtherFarm(0, 5)];
    assert ops[1..][1..][1..] == [Tick, CompoundFromOtherFarm(0, 5)];
    assert ops[1..][1..][1..][1..] == [CompoundFromOtherFarm(0, 5)];
    assert ops[1..][1..][1..][1..][1..] == [];
    assert Run(Initial(1), ops) == Run(s1, ops[1..]) == Run(s2, ops[1..][1..]) == Run(s3, ops[1..][1..][1..]);
    assert Run(s3, ops[1..][1..][1..]) == Run(s4, ops[1..][1..][1..][1..]) == Run(s, []);
  }
}
