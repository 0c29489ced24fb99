/** Result types shared by every component: an absent value, and a value or the
    code of the error the program throws instead. */
module Wrappers {
  datatype Option<+T> = None | Some(value: T)

  datatype Result<+T, +E> = Ok(value: T) | Err(error: E)
}
