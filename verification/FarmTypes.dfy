/** Accounts of the farming program: constants and value types. */
module FarmTypes {

  const SNAPSHOTS_LEN: nat := 1000
  const HARVEST_PERIODS_LEN: nat := 10
  const MAX_HARVEST_MINTS: nat := 10
  const MIN_SNAPSHOT_WINDOW_SLOTS: nat := 7200

  /** Public keys are only ever compared; the default key marks an unused array entry. */
  type Mint = nat
  const DEFAULT_MINT: Mint := 0

  /** The stake vault balance at the slot where a snapshot window opens. An entry with
      `startedAt == 0` has never been written. */
  datatype Snapshot = Snapshot(staked: nat, startedAt: nat)
  const EMPTY_SNAPSHOT := Snapshot(0, 0)

  /** `tps` tokens are emitted per slot from `startsAt` to `endsAt`, both inclusive. */
  datatype Period = Period(tps: nat, startsAt: nat, endsAt: nat)
  const EMPTY_PERIOD := Period(0, 0, 0)

  datatype Harvest = Harvest(mint: Mint, vault: Mint, periods: seq<Period>)
  const EMPTY_HARVEST := Harvest(DEFAULT_MINT, DEFAULT_MINT, EmptyPeriods())

  datatype AvailableHarvest = AvailableHarvest(mint: Mint, tokens: nat)
  const EMPTY_AVAILABLE := AvailableHarvest(DEFAULT_MINT, 0)

  function EmptyPeriods(): seq<Period> {
    seq(HARVEST_PERIODS_LEN, _ => EMPTY_PERIOD)
  }
}
