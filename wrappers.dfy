/** Option and Result, the two shapes of "maybe a value" used throughout the model. */
module Wrappers {

  /** A JavaScript value that may be `undefined`. */
  datatype Option<+T> = None | Some(value: T)

  /** A value, or the message of an `Error` the data service throws, such as the one `fetchProductById` throws for an unknown id. */
  datatype Result<+T> = Ok(value: T) | Err(message: string)

  function Min(a: int, b: int): int { if a <= b then a else b }

  function Max(a: int, b: int): int { if a <= b then b else a }
}
