/** Result and Option types shared by the whole model. */
module Wrappers {

  /** An optional value: the stand-in for a null pointer or a null image. */
  datatype Option<+T> = None | Some(value: T)

  /** Either the value an operation produced or the error that stopped it. */
  datatype Result<+T, +E> = Ok(value: T) | Err(error: E)
}
