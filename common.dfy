/** Small shared vocabulary of the model: bytes and optional values. */
module Common {

  /** An octet, as Node's Buffer holds them. */
  type byte = x: int | 0 <= x < 256

  /** A value that may be absent (a JavaScript `undefined`/`null`, or a missing key). */
  datatype Option<+T> = None | Some(value: T)
}
