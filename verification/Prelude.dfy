/** The two result shapes the model shares. */
module Prelude {

  datatype Option<+T> = None | Some(value: T) {
    predicate IsFailure() { None? }

    function PropagateFailure<U>(): (o: Option<U>)
      requires None?
    {
      None
    }

    function Extract(): (t: T)
      requires Some?
    {
      value
    }
  }

  /** A call that can fail. Error text is not modelled, only that there is one. */
  datatype Result<+T, +E> = Ok(value: T) | Err(error: E)
}
