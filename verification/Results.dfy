/** What both programs share: 64-bit range, success or failure of an operation. */
module Results {

  /** Largest value of the 64-bit integers that hold token amounts and slots. */
  const U64_MAX: nat := 0xFFFF_FFFF_FFFF_FFFF

  function Max(a: nat, b: nat): nat {
    if a < b then b else a
  }

  function Min(a: nat, b: nat): nat {
    if a < b then a else b
  }

  /** Why an instruction was refused. A refused instruction is rolled back by the
      runtime, so only the fact of failure and its cause matter. `MathOverflow` also
      stands for the panics that overflow-checked 64-bit arithmetic raises. */
  datatype Error =
    | MathOverflow
    | InvariantViolation
    | InvalidArg
    | InvalidAccount
    | InsufficientFunds
    | SlippageExceeded
    | UnknownHarvestMint
    | CannotCompound
    | PeriodTooShort
    | PeriodMustStartBeforeEnd
    | PeriodInPast
    | PeriodStillOpen
    | PeriodLimitExceeded
    | SnapshotTooSoon

  datatype Option<+T> = None | Some(value: T)

  datatype Result<+T> = Ok(value: T) | Err(error: Error) {

    predicate IsFailure() {
      Err?
    }

    function PropagateFailure<U>(): Result<U>
      requires Err?
    {
      Err(error)
    }

    function Extract(): T
      requires Ok?
    {
      value
    }
  }
}
