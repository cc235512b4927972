/** Value types shared by the components of the text-to-speech cache. */
module Types {

  /** One octet of audio data or of an HTTP body. */
  type Byte = x: int | 0 <= x < 256

  type Bytes = seq<Byte>

  datatype Option<+T> = None | Some(value: T)

  /** The outcome of an operation that raises in the source on failure. */
  datatype Result<+T, +E> = Ok(value: T) | Err(error: E)
}
