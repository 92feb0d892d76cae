/** Option and Result values, used for absent arguments and for the
    errors the schema constructors throw. */
module Wrappers {

  datatype Option<+T> = None | Some(value: T)

  /** A constructor either returns a value or throws an Error with a message. */
  datatype Result<+T> = Ok(value: T) | Err(message: string)
}
