/** Option and Result, as the rest of the model uses them for Go's "value, ok"
    and "value, error" returns. */
module Prelude {

  datatype Option<+T> = None | Some(value: T)

  datatype Result<+T, +E> = Ok(value: T) | Err(error: E)

  /** One octet. */
  type byte = b: int | 0 <= b < 256
}
