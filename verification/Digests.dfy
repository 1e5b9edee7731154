/** File contents, ideal digests of them, and the result type of operations that can fail. */
module Digests {
  /** One `char` stands for one byte; only equality, line breaks, braces and marker text are ever looked at. */
  type Bytes = string

  /** Equal digests mean equal content. `NoDigest` is the empty string of an optional field. */
  datatype Digest = NoDigest | Sha256(content: Bytes)

  datatype Result<+T, +E> = Ok(value: T) | Err(error: E)

  datatype Option<+T> = None | Some(value: T)
}
