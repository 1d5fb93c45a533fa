/** The environment of a protocol step: what a system call may do instead of its
    work, and how a call ends. */
module Faults {
  /** Nothing, an `OSError` (or a failed check), or the death of the process. */
  datatype Fault = Calm | Error | Crash

  datatype Outcome<+T> = Returned(value: T) | Raised | Crashed

  method Tick(calm: bool) returns (fault: Fault)
    ensures calm ==> fault == Calm
  {
    if calm { fault := Calm; } else { fault := *; }
  }
}
