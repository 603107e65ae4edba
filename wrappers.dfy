/** An absent-or-present value and a success-or-error value, for the
    converters' `None` cases and raised exceptions. */
module Wrappers {

  datatype Option<+T> = None | Some(value: T)

  datatype Result<+T, +E> = Ok(value: T) | Err(error: E)
}
