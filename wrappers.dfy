/** Option and Result, used for Python's None and for raised exceptions. */
module Wrappers {

  datatype Option<+T> = None | Some(value: T)

  datatype Result<+T, +E> = Ok(value: T) | Err(error: E)

  /** Python's `x or 0` on a nullable float column: None becomes 0. */
  function OrZero(x: Option<real>): real
  {
    match x
    case None => 0.0
    case Some(v) => v
  }
}
