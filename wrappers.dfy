/** Swift's Optional and a throwing initializer's outcome, as datatypes. */
module Wrappers {

  /** Swift's `Optional`: `nil` is `None`. */
  datatype Option<+T> = None | Some(value: T) {

    /** Swift's `??` operator. */
    function GetOr(default: T): (r: T) {
      match this
      case Some(v) => v
      case None => default
    }
  }

  /** The outcome of a throwing call: the value, or the error thrown. */
  datatype Result<+T, +E> = Ok(value: T) | Err(error: E)
}
