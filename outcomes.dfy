/** Result and Option, the two failure-carrying shapes the modelled code returns. */
module Outcomes {

  datatype Option<+T> = None | Some(value: T)

  /** A Rust `Result`; a panic of the source is modelled as an `Err` too. */
  datatype Result<+T, +E> = Ok(value: T) | Err(error: E) {

    predicate IsFailure() {
      Err?
    }

    function PropagateFailure<U>(): Result<U, E>
      requires Err?
    {
      Err(error)
    }

    function Extract(): T
      requires Ok?
    {
      value
    }
  }
}
