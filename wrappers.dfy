/** Option and Result values used for the optional values and the error
    returns (and panics) of the modelled Rust code. */
module Wrappers {

  datatype Option<+T> = None | Some(value: T)

  datatype Result<+T, +E> = Ok(value: T) | Err(error: E)
}
