/** Option and Result, the failure-compatible wrappers the parser returns. */
module Wrappers {

  datatype Option<+T> = None | Some(value: T)

  /** A parse outcome: a value, or the single error outcome (syn's message and span are not modelled). */
  datatype Result<+T> = Ok(value: T) | Err {

    predicate IsFailure() {
      Err?
    }

    function PropagateFailure<U>(): Result<U>
      requires Err?
    {
      Err
    }

    function Extract(): T
      requires Ok?
    {
      value
    }
  }
}
