/** Small shared vocabulary: optional values, results and bytes. */
module Common {

  datatype Option<+T> = None | Some(value: T)

  /** The outcome of an operation that may raise: a value or the error it raised. */
  datatype Result<+T, +E> = Ok(value: T) | Err(error: E)

  /** An octet, as Python's `bytes` holds them. */
  type Byte = x: int | 0 <= x < 256
}
