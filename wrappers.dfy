/** `Option` and `Result` datatypes used across the model: `Option` stands
    for Swift's optionals, `Result` for a computation that would otherwise end
    in `fatalError`. */
module Wrappers {

  datatype Option<+T> = None | Some(value: T)

  datatype Result<+R, +E> = Success(value: R) | Failure(error: E)
}
