/** The Option and Result datatypes used throughout the model: `Option` stands
    for a reference that may be null, `Result` for a call that may throw. */
module Wrappers {

  datatype Option<+T> = None | Some(value: T)

  datatype Result<+T, +E> = Success(value: T) | Failure(error: E)
}

/** The .NET exceptions the modelled code can raise or propagate, each with the
    `Message` text that `$"Error: {ex.Message}"` would print. */
module Exceptions {

  datatype Exception =
    | ArgumentNull(param: string)         // a LINQ operator applied to a null collection
    | ArgumentOutOfRange(param: string)   // `Substring` past the end of the string
    | DuplicateKey(key: string)           // `ToDictionary` meeting a key twice
    | ServiceFault(message: string)       // an exception raised by an external service

  /** The `Message` property, in the wording of the .NET runtime. */
  function Message(e: Exception): string
  {
    match e
    case ArgumentNull(p) => "Value cannot be null. (Parameter '" + p + "')"
    case ArgumentOutOfRange(p) => "startIndex cannot be larger than length of string. (Parameter '" + p + "')"
    case DuplicateKey(k) => "An item with the same key has already been added. Key: " + k
    case ServiceFault(m) => m
  }
}
