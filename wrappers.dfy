/** Failure-compatible result types shared by the whole model. */
module Wrappers {

  /** A value that may be absent; `None` stands for JavaScript's `undefined`. */
  datatype Option<+T> = None | Some(value: T)

  /** The outcome of an operation that may throw: `Err` carries the error message. */
  datatype Result<+T, +E> = Ok(value: T) | Err(error: E) {
    predicate IsFailure() {
      Err?
    }

    function PropagateFailure<U>(): Result<U, E>
      requires Err?
    {
      Err(error)
    }

    function Extract(): T
      requires Ok?
    {
      value
    }
  }
}

/** Bytes and byte buffers (`Uint8Array`). */
module Bytes {

  newtype byte = x: int | 0 <= x < 0x100

  /** A mutable byte buffer; two buffers may alias, which is why the cache copies. */
  type Buffer = array<byte>
}
