/** One farm, its vaults and any number of farmers as a state machine. Every instruction
    either takes effect as a whole or leaves the state as it was. */
module Protocol {
  import opened Results
  import opened Tokens
  import opened FarmTypes
  import opened Emission
  import opened Periods
  import opened RingBuffer
  import opened Sweep
  import opened Settlement
  import opened Farms
  import opened Totals
  import opened Shares

  /** `log` holds every snapshot, newest first; the farm retains its newest entries.
      `reach` is the largest cursor any farmer ever had and `ledger` every settlement, with
      the periods of the mints that have not been removed since: both only record history. */
  datatype State = State(
    now: nat, log: seq<Snapshot>, minWindow: nat, stakeMint: Mint,
    harvests: map<Mint, seq<Period>>, stakeVault: nat, vaults: map<Mint, nat>,
    farmers: seq<Position>, reach: nat, ledger: seq<Charge>)

  datatype Op =
    | Tick
    | SetMinWindow(slots: nat)
    | TakeSnapshot
    | AddHarvest(mint: Mint)
    | RemoveHarvest(mint: Mint)
    | NewHarvestPeriod(mint: Mint, startsAt: nat, slots: nat, tps: nat)
    | CreateFarmer
    | CloseFarmer(farmer: nat)
    | StartFarming(farmer: nat, tokens: nat)
    | StopFarming(farmer: nat, max: nat)
    | UpdateEligibleHarvest(farmer: nat, until: nat)
    | ClaimEligibleHarvest(farmer: nat, mints: seq<Mint>)
    | CompoundSameFarm(farmer: nat)
    | CompoundToOtherFarm(farmer: nat, mint: Mint)
    | CompoundFromOtherFarm(farmer: nat, tokens: nat)
    | Airdrop(farmer: nat, mint: Mint, tokens: nat)
    | DonateStake(tokens: nat)
    | DonateHarvest(mint: Mint, tokens: nat)

  function Initial(stakeMint: Mint): State {
    State(0, [], 0, stakeMint, map[], 0, map[], [], 0, [])
  }

  function View(s: State): FarmView {
    FarmView(Tail(s.log), s.harvests)
  }

  // ---- instructions; None means refused ----

  /** Writes back farmer `i` after settling it up to `current`. */
  ghost function WithSettled(s: State, i: nat, current: nat, q: Position): State
    requires i < |s.farmers|
  {
    s.(farmers := s.farmers[i := q], reach := Max(s.reach, q.cursor),
       ledger := s.ledger + Charges(s.farmers[i], s.log, s.harvests, current))
  }

  function DoTakeSnapshot(s: State): Option<State> {
    if CanSnapshot(s.log, s.minWindow, s.now)
    then Some(s.(log := [Snapshot(s.stakeVault, s.now)] + s.log))
    else None
  }

  function DoAddHarvest(s: State, m: Mint): Option<State> {
    if m == DEFAULT_MINT || m in s.harvests || |s.harvests.Keys| >= MAX_HARVEST_MINTS then None
    else Some(s.(harvests := s.harvests[m := EmptyPeriods()], vaults := s.vaults[m := 0]))
  }

  function DoRemoveHarvest(s: State, m: Mint): Option<State> {
    if m !in s.harvests || m !in s.vaults || s.vaults[m] != 0 then None
    else Some(s.(harvests := s.harvests - {m}, vaults := s.vaults - {m}, ledger := Forget(s.ledger, m)))
  }

  /** Drops the records of a mint that is removed. */
  function Forget(ledger: seq<Charge>, m: Mint): seq<Charge> {
    if ledger == [] then []
    else [ledger[0].(harvests := ledger[0].harvests - {m})] + Forget(ledger[1..], m)
  }

  /** Tokens emitted over a period, with every step checked. */
  function TotalEmitted(p: Period): Result<nat> {
    if p.endsAt < p.startsAt || p.endsAt - p.startsAt + 1 > U64_MAX then Err(MathOverflow)
    else if PeriodTotal(p) > U64_MAX then Err(MathOverflow)
    else Ok(PeriodTotal(p))
  }

  /** The interval the admin asked for: from now on if no start was given. */
  function RequestedPeriod(now: nat, startsAt: nat, slots: nat, tps: nat): Result<Period> {
    if slots == 0 then Err(PeriodTooShort)
    else if startsAt != 0 && startsAt < now then Err(PeriodInPast)
    else
      var start := if startsAt == 0 then now else startsAt;
      if start + slots > U64_MAX then Err(MathOverflow) else Ok(Period(tps, start, start + slots - 1))
  }

  function DoNewHarvestPeriod(s: State, m: Mint, startsAt: nat, slots: nat, tps: nat): Option<State> {
    var p := RequestedPeriod(s.now, startsAt, slots, tps);
    if p.Err? || tps > U64_MAX || m !in s.harvests || m !in s.vaults then None
    else
      var change := NewPeriod(s.harvests[m], OldestSlot(s.log), s.now, p.value);
      if change.Err? then None
      else
        var cost := TotalEmitted(p.value);
        var paid := if change.value.1.None? then Ok(0) else TotalEmitted(change.value.1.value);
        if cost.Err? || paid.Err? then None
        else
          var vault := if cost.value < paid.value then Withdraw(s.vaults[m], paid.value - cost.value)
                       else Deposit(s.vaults[m], cost.value - paid.value);
          if vault.None? then None
          else Some(s.(harvests := s.harvests[m := change.value.0], vaults := s.vaults[m := vault.value]))
  }

  function NewFarmer(s: State): Position {
    Position(0, 0, 0, 0, map m | m in s.harvests :: 0)
  }

  function DoCloseFarmer(s: State, i: nat): Option<State> {
    if i >= |s.farmers| then None
    else
      var p := s.farmers[i];
      if p.staked + p.vested != 0 || exists m :: m in p.harvests && p.harvests[m] != 0 then None
      else Some(s.(farmers := s.farmers[..i] + s.farmers[i + 1..]))
  }

  ghost function DoStartFarming(s: State, i: nat, tokens: nat): Option<State> {
    if i >= |s.farmers| || tokens == 0 then None
    else
      match Settle(s.farmers[i], View(s), s.now)
      case Err(_) => None
      case Ok(v) =>
        match AddToVested(v, s.now, tokens)
        case Err(_) => None
        case Ok(q) =>
          match Deposit(s.stakeVault, tokens)
          case None => None
          case Some(vault) => Some(WithSettled(s, i, s.now, q).(stakeVault := vault))
  }

  ghost function DoStopFarming(s: State, i: nat, max: nat): Option<State> {
    if i >= |s.farmers| || max == 0 then None
    else
      match Settle(s.farmers[i], View(s), s.now)
      case Err(_) => None
      case Ok(v) =>
        match Unstake(v, max)
        case Err(_) => None
        case Ok((q, paid)) =>
          match Withdraw(s.stakeVault, paid)
          case None => None
          case Some(vault) => Some(WithSettled(s, i, s.now, q).(stakeVault := vault))
  }

  ghost function DoUpdate(s: State, i: nat, until: nat): Option<State> {
    if i >= |s.farmers| || until > U64_MAX then None
    else
      match Settle(s.farmers[i], View(s), until)
      case Err(_) => None
      case Ok(q) => Some(WithSettled(s, i, until, q))
  }

  /** Pays out the balances of the listed mints, each from its own vault. */
  function PayOut(p: Position, vaults: map<Mint, nat>, mints: seq<Mint>): Option<(Position, map<Mint, nat>)>
    decreases |mints|
  {
    if mints == [] then Some((p, vaults))
    else
      var m := mints[0];
      if m !in vaults then None
      else if Recorded(p.harvests, m) == 0 then PayOut(p, vaults, mints[1..])
      else
        match Withdraw(vaults[m], p.harvests[m])
        case None => None
        case Some(vault) => PayOut(p.(harvests := p.harvests[m := 0]), vaults[m := vault], mints[1..])
  }

  function DoClaim(s: State, i: nat, mints: seq<Mint>): Option<State> {
    if i >= |s.farmers| || mints == [] then None
    else
      match PayOut(s.farmers[i], s.vaults, mints)
      case None => None
      case Some((q, vaults)) => Some(s.(farmers := s.farmers[i := q], vaults := vaults))
  }

  ghost function DoCompoundSame(s: State, i: nat): Option<State> {
    if i >= |s.farmers| || s.stakeMint !in s.vaults then None
    else
      match Settle(s.farmers[i], View(s), s.now)
      case Err(_) => None
      case Ok(v) =>
        match ClaimHarvest(v, s.stakeMint)
        case Err(_) => None
        case Ok((c, tokens)) =>
          match AddToVested(c, s.now, tokens)
          case Err(_) => None
          case Ok(q) =>
            var from, to := Withdraw(s.vaults[s.stakeMint], tokens), Deposit(s.stakeVault, tokens);
            if from.None? || to.None? then None
            else Some(WithSettled(s, i, s.now, q).(vaults := s.vaults[s.stakeMint := from.value],
                                                   stakeVault := to.value))
  }

  /** This farm's side of compounding into another farm. */
  ghost function DoCompoundOut(s: State, i: nat, m: Mint): Option<State> {
    if i >= |s.farmers| || m !in s.vaults then None
    else
      match Settle(s.farmers[i], View(s), s.now)
      case Err(_) => None
      case Ok(v) =>
        match ClaimHarvest(v, m)
        case Err(_) => None
        case Ok((q, tokens)) =>
          match Withdraw(s.vaults[m], tokens)
          case None => None
          case Some(vault) => Some(WithSettled(s, i, s.now, q).(vaults := s.vaults[m := vault]))
  }

  /** This farm's side of receiving compounded tokens: the farmer is not settled first. */
  function DoCompoundIn(s: State, i: nat, tokens: nat): Option<State> {
    if i >= |s.farmers| then None
    else
      match AddToVested(s.farmers[i], s.now, tokens)
      case Err(_) => None
      case Ok(q) =>
        match Deposit(s.stakeVault, tokens)
        case None => None
        case Some(vault) => Some(s.(farmers := s.farmers[i := q], stakeVault := vault))
  }

  function DoAirdrop(s: State, i: nat, m: Mint, tokens: nat): Option<State> {
    if i >= |s.farmers| || tokens == 0 || m !in s.vaults || m !in s.farmers[i].harvests then None
    else
      var p := s.farmers[i];
      match Deposit(s.vaults[m], tokens)
      case None => None
      case Some(vault) =>
        if p.harvests[m] + tokens > U64_MAX then None
        else Some(s.(farmers := s.farmers[i := p.(harvests := p.harvests[m := p.harvests[m] + tokens])],
                     vaults := s.vaults[m := vault]))
  }

  function DoDonateStake(s: State, tokens: nat): Option<State> {
    match Deposit(s.stakeVault, tokens)
    case None => None
    case Some(vault) => Some(s.(stakeVault := vault))
  }

  function DoDonateHarvest(s: State, m: Mint, tokens: nat): Option<State> {
    if m !in s.vaults then None
    else
      match Deposit(s.vaults[m], tokens)
      case None => None
      case Some(vault) => Some(s.(vaults := s.vaults[m := vault]))
  }

  ghost function Try(s: State, op: Op): Option<State> {
    match op
    case Tick => if s.now < U64_MAX then Some(s.(now := s.now + 1)) else None
    case SetMinWindow(slots) => if slots <= U64_MAX then Some(s.(minWindow := slots)) else None
    case TakeSnapshot => DoTakeSnapshot(s)
    case AddHarvest(m) => DoAddHarvest(s, m)
    case RemoveHarvest(m) => DoRemoveHarvest(s, m)
    case NewHarvestPeriod(m, startsAt, slots, tps) => DoNewHarvestPeriod(s, m, startsAt, slots, tps)
    case CreateFarmer => Some(s.(farmers := s.farmers + [NewFarmer(s)]))
    case CloseFarmer(i) => DoCloseFarmer(s, i)
    case StartFarming(i, tokens) => DoStartFarming(s, i, tokens)
    case StopFarming(i, max) => DoStopFarming(s, i, max)
    case UpdateEligibleHarvest(i, until) => DoUpdate(s, i, until)
    case ClaimEligibleHarvest(i, mints) => DoClaim(s, i, mints)
    case CompoundSameFarm(i) => DoCompoundSame(s, i)
    case CompoundToOtherFarm(i, m) => DoCompoundOut(s, i, m)
    case CompoundFromOtherFarm(i, tokens) => DoCompoundIn(s, i, tokens)
    case Airdrop(i, m, tokens) => DoAirdrop(s, i, m, tokens)
    case DonateStake(tokens) => DoDonateStake(s, tokens)
    case DonateHarvest(m, tokens) => DoDonateHarvest(s, m, tokens)
  }

  ghost function Next(s: State, op: Op): State {
    match Try(s, op)
    case None => s
    case Some(s') => s'
  }

  ghost function Run(s: State, ops: seq<Op>): State
    decreases |ops|
  {
    if ops == [] then s else Run(Next(s, ops[0]), ops[1..])
  }

  // ---- hypotheses on runs ----

  function UnsettledAt(log: seq<Snapshot>, t: nat): Position -> real {
    (p: Position) => Unsettled(p, log, t)
  }

  /** The shares of slot `t` that were settled and those that still can be are at most 1. */
  ghost predicate SlotFits(ledger: seq<Charge>, fs: seq<Position>, log: seq<Snapshot>, t: nat) {
    SettledShare(ledger, t) + Total(fs, UnsettledAt(log, t)) <= 1.0
  }

  /** The snapshot that could be taken now. */
  function Pushed(s: State): seq<Snapshot> {
    [Snapshot(s.stakeVault, s.now)] + s.log
  }

  /** The scheduled launch that a call is about to overwrite, and the period it puts there. */
  ghost function Overwrites(s: State, op: Op): Option<(Period, Period)> {
    if op.NewHarvestPeriod? && Try(s, op).Some? && s.harvests[op.mint] != [] && s.harvests[op.mint][0].startsAt > s.now
    then Some((s.harvests[op.mint][0], RequestedPeriod(s.now, op.startsAt, op.slots, op.tps).value))
    else None
  }

  /** A snapshot is accepted only if, under the new window, the shares of the current and of
      each later slot fit. */
  ghost predicate FairSnapshot(s: State, op: Op) {
    op.TakeSnapshot? && DoTakeSnapshot(s).Some? ==>
      forall t: nat :: s.now <= t ==> SlotFits(s.ledger, s.farmers, Pushed(s), t)
  }

  /** A launch is overwritten only if what has been settled of its slots is worth at least as
      much under the period that replaces it. */
  ghost predicate FairOverwrite(s: State, op: Op) {
    match Overwrites(s, op)
    case None => true
    case Some((launch, p)) => SettledWorth(launch, s.ledger) <= SettledWorth(p, s.ledger)
  }

  /** What the safety of the vaults rests on. */
  ghost predicate Fair(s: State, op: Op) {
    FairSnapshot(s, op) && FairOverwrite(s, op)
  }

  /** No slot that has been settled loses emission when a launch is overwritten. */
  ghost predicate KeepsRates(s: State, op: Op) {
    match Overwrites(s, op)
    case None => true
    case Some((launch, p)) =>
      forall t: nat :: SettledShare(s.ledger, t) > 0.0 ==> TpsAt([launch], t) <= TpsAt([p], t)
  }

  /** What the cap on a window's credits rests on. */
  ghost predicate RateFair(s: State, op: Op) {
    FairSnapshot(s, op) && KeepsRates(s, op)
  }

  /** A simple rule for snapshots: one is taken only while no farmer has settled its own slot. */
  ghost predicate SnapshotFirst(s: State, op: Op) {
    op.TakeSnapshot? && DoTakeSnapshot(s).Some? ==> s.reach <= s.now
  }

  /** A simple rule for everything: moreover nobody settles slots that have not come yet. */
  ghost predicate Orderly(s: State, op: Op) {
    SnapshotFirst(s, op) && (op.UpdateEligibleHarvest? ==> op.until <= s.now)
  }

  /** Every instruction of the run obeys the rule where it is issued. */
  ghost predicate Along(rule: (State, Op) -> bool, s: State, ops: seq<Op>)
    decreases |ops|
  {
    ops == [] || (rule(s, ops[0]) && Along(rule, Next(s, ops[0]), ops[1..]))
  }
}
