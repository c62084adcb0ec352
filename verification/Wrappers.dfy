/** The two result shapes the modules share. */
module Wrappers {
  datatype Option<+T> = None | Some(value: T)

  /** A value, or the exception a source function raised instead of returning; `:-` propagates it. */
  datatype Result<+T> = Ok(value: T) | Raised {
    predicate IsFailure() {
      Raised?
    }

    function PropagateFailure<U>(): Result<U>
      requires Raised?
    {
      Raised
    }

    function Extract(): T
      requires Ok?
    {
      value
    }
  }
}
