/** Values shared by every part of the model: bytes, optional values and results. */
module Common {

  /** An octet, as Go's `byte`, Python's `bytes` elements and Rust's `u8`. */
  type byte = x: int | 0 <= x < 256

  type Bytes = seq<byte>

  /** A value that may be absent (Go's nil pointer, Python's None, Rust's Option). */
  datatype Option<+T> = None | Some(value: T)

  /** A value or the error that replaced it (Go's `(T, error)`, Rust's `Result`). */
  datatype Result<+T, +E> = Ok(value: T) | Err(error: E)

  /** The value held by `o`, or `default` when there is none. */
  function GetOr<T>(o: Option<T>, default: T): T
  {
    match o
    case Some(v) => v
    case None => default
  }
}
