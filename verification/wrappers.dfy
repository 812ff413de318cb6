/** Failure-compatible result types shared by every module of the model. */
module Wrappers {

  /** A value that may be absent: Kotlin's nullable results (`T?`). */
  datatype Option<+T> = None | Some(value: T)

  /** A value or the message of the exception the source would throw. */
  datatype Outcome<+T> = Ok(value: T) | Fail(reason: string) {
    predicate IsFailure() { Fail? }

    function PropagateFailure<U>(): Outcome<U>
      requires Fail?
    {
      Fail(reason)
    }

    function Extract(): T
      requires Ok?
    {
      value
    }
  }
}
