/**
 * Failures an instruction of the blog program can end with, and the
 * failure-compatible wrappers the model uses to thread them (Rust's `?`
 * becomes Dafny's `:-`).
 */
module Errors {

  /** Every way an instruction can abort. A failure rolls the whole
      transaction back, so no failure is ever observable in the store. */
  datatype Error =
    // BlogError, the program's own error codes
    | UnauthorizedOwner
    | Underflow
    | Overflow
    // raised by the framework while it validates the accounts
    | AccountNotInitialized          // `Account<T>` at an address holding no account
    | AccountDiscriminatorMismatch   // `Account<T>` at an address holding another record kind
    | ConstraintSeeds                // the address is not the one derived from the seeds
    | ConstraintHasOne               // a `has_one` field differs from the named account
    | MaxSeedLengthExceeded          // a seed longer than the runtime allows
    | AccountAlreadyInUse            // `init` on an address that already holds an account
    // raised when the instruction finishes
    | AccountDidNotSerialize         // the record no longer fits its fixed-size slot
    | Panic                          // `unwrap()` on `None`

  /** The outcome of a step that yields a value of type T. */
  datatype Result<+T> = Ok(value: T) | Err(error: Error) {
    predicate IsFailure() { Err? }
    function PropagateFailure<U>(): Result<U> requires Err? { Err(error) }
    function Extract(): T requires Ok? { value }
  }

  /** The outcome of a check that yields no value. */
  datatype Outcome = Pass | Fail(error: Error) {
    predicate IsFailure() { Fail? }
    function PropagateFailure<U>(): Result<U> requires Fail? { Err(error) }
  }

  /** Rust's `Option`, with the two ways the program turns `None` into a failure. */
  datatype Option<+T> = None | Some(value: T) {
    /** `ok_or(e)`: `None` becomes the error `e`. */
    function OkOr(e: Error): (r: Result<T>)
      ensures r.Ok? <==> Some?
      ensures r.Ok? ==> r.value == value
      ensures r.Err? ==> r.error == e
    {
      if Some? then Ok(value) else Err(e)
    }

    /** `unwrap()`: `None` panics, which aborts the instruction. */
    function Unwrap(): (r: Result<T>)
      ensures r.Ok? <==> Some?
      ensures r.Ok? ==> r.value == value
      ensures r.Err? ==> r.error == Panic
    {
      if Some? then Ok(value) else Err(Panic)
    }
  }

  /** A guard: passes when `cond` holds and fails with `e` otherwise
      (`require!` and every account constraint). */
  function Require(cond: bool, e: Error): (r: Outcome)
    ensures r.Pass? <==> cond
    ensures r.Fail? ==> r.error == e
  {
    if cond then Pass else Fail(e)
  }
}
