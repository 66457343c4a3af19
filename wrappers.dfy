/** Failure-compatible wrappers: `Option` stands for TypeScript's optional
    fields (`undefined`) and nullable results (`null`), `Result` for a use
    case that either returns a value or throws an `Error` with a message. */
module Wrappers {

  datatype Option<+T> = None | Some(value: T)

  datatype Result<+T> = Success(value: T) | Failure(message: string)
}
