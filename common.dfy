/** Failure-compatible wrappers shared by both generators. */
module Common {

  datatype Option<+T> = None | Some(value: T)

  /** The outcome of an operation that either yields a value or stops the run
      with an error (the Python code raises SystemExit, KeyError, ...). */
  datatype Result<+T, +E> = Ok(value: T) | Err(error: E) {
    predicate IsFailure() { Err? }
    function PropagateFailure<U>(): Result<U, E> requires Err? { Err(error) }
    function Extract(): T requires Ok? { value }
  }

  /** An operation that only changes state, or stops the run with an error. */
  datatype Outcome<+E> = Pass | Fail(error: E) {
    predicate IsFailure() { Fail? }
    function PropagateFailure(): Outcome<E> requires Fail? { this }
  }
}
