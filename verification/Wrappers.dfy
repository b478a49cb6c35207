/** Result types shared by the models. */
module Wrappers {

  /** A value, or its absence. */
  datatype Option<+T> = None | Some(value: T)

  /** A value, or the reason why there is none. */
  datatype Result<+T> = Ok(value: T) | Err(reason: string)
}
