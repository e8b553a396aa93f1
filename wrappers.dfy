/** Failure-compatible wrappers shared by the model.
    - Option<T>: a value that may be absent (Rust's Option).
    - Result<T, E>: a returned value or a returned error (Rust's Result).
    - Outcome<T, P>: a call that either completes with a value or panics with a
      reason (a Rust `unwrap`, `expect` or slice-length mismatch that aborts). */
module Wrappers {

  datatype Option<+T> = None | Some(value: T)

  datatype Result<+T, +E> = Ok(value: T) | Err(error: E) {

    predicate IsFailure() {
      Err?
    }

    function PropagateFailure<U>(): Result<U, E>
      requires Err?
    {
      Err(error)
    }

    function Extract(): T
      requires Ok?
    {
      value
    }
  }

  datatype Outcome<+T, +P> = Completed(value: T) | Panicked(reason: P)
}
