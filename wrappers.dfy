/** Option and Result values used for the error paths of the modelled operations, and the solution scalar. */
module Wrappers {

  datatype Option<+T> = None | Some(value: T)

  datatype Result<+T, +E> = Ok(value: T) | Err(error: E)

  /** The scalar type of solution values (real-valued builds of the library). */
  type Number = real
}
