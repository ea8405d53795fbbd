/** Types shared by every module: bytes, optional values and outcomes. */
module Base {
  type byte = x: int | 0 <= x < 256 witness 0
  type Bytes = seq<byte>

  datatype Option<+T> = None | Some(value: T)

  datatype Result<+T, +E> = Ok(value: T) | Err(error: E)
}
