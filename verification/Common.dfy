/** Outcome types and the small arithmetic shared by every component. */
module Common {

  /** Why a run of the enclave code ended in Eabort. */
  datatype Reason =
    | QueueFull
    | QueueEmpty
    | UnprocessedData
    | BadMultiQueue
    | InvalidPartition
    | QueuesFull
    | QueueNotEmpty
    | InvalidPartitionSize

  /** Eabort never returns: a member that may call it yields a Status, and callers propagate it. */
  datatype Status = Done | Halt(reason: Reason) {
    predicate IsFailure() {
      Halt?
    }

    function PropagateFailure(): Status
      requires Halt?
    {
      this
    }

    function ToResult<T>(value: T): Result<T> {
      match this
      case Done => Ok(value)
      case Halt(reason) => Halted(reason)
    }
  }

  datatype Result<+T> = Ok(value: T) | Halted(reason: Reason) {
    predicate IsFailure() {
      Halted?
    }

    function PropagateFailure<U>(): Result<U>
      requires Halted?
    {
      Halted(reason)
    }

    function Extract(): T
      requires Ok?
    {
      value
    }
  }

  function Min(a: int, b: int): int {
    if a < b then a else b
  }

  function Max(a: int, b: int): int {
    if a > b then a else b
  }
}
