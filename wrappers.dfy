/** Option and Result values, and the Python exceptions the modelled code can raise. */
module Wrappers {

  datatype Option<+T> = None | Some(value: T)

  /** The two exceptions the modelled code raises on bad input. */
  datatype Error =
    | IndexError   // a list subscript outside the list
    | ValueError   // `min()` or `max()` of an empty list

  datatype Result<+T> = Ok(value: T) | Err(error: Error)
}
