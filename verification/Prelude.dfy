/** Option and Result, the two shapes the sources' `X | None` and `Ok | Err` take here. */
module Prelude {
  datatype Option<+T> = None | Some(value: T)

  datatype Result<+T, +E> = Ok(value: T) | Err(error: E)
}
