/** Time as the waiting loops measure it, in nanoseconds. */
module Clock {
  const SECOND := 1_000_000_000

  function Later(a: int, b: int): int {
    if a < b then b else a
  }

  /** How a waiting loop went: its outcome, when it ended, and how many attempts it made. */
  datatype Run<+O> = Run(outcome: O, end: int, attempts: nat)
}
