/** The success-or-error value that the analyzer's Go functions return as a
    `(value, error)` pair, and the optional value that stands for a nil
    pointer result. */
module Outcomes {

  datatype Result<+T, +E> = Ok(value: T) | Err(error: E)

  datatype Option<+T> = None | Some(value: T)

}
