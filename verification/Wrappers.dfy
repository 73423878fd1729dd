/** The two shapes an answer that may be missing or refused takes everywhere else here. */
module Wrappers {
  datatype Option<+T> = None | Some(value: T)

  /** `Refused` carries why, and `:-` hands a refusal on. */
  datatype Result<+T, +R> = Ok(value: T) | Refused(why: R) {
    predicate IsFailure() {
      Refused?
    }

    function PropagateFailure<U>(): Result<U, R>
      requires Refused?
    {
      Refused(why)
    }

    function Extract(): T
      requires Ok?
    {
      value
    }
  }
}
