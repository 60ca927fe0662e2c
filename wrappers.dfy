/** Option and Result values for the places where the modelled code returns
    `None` or raises an exception. */
module Wrappers {

  datatype Option<+T> = None | Some(value: T)

  datatype Result<+R> = Ok(value: R) | Err(message: string)
}
