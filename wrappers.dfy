/** Option and Result, the model's stand-ins for JavaScript's `undefined`/`null` and for a thrown exception. */
module Wrappers {

  /** `None` stands for JavaScript `undefined` (or `null`), `Some(v)` for a present value. */
  datatype Option<+T> = None | Some(value: T)

  /** `Err(e)` stands for an exception escaping the call, `Ok(v)` for a normal return. */
  datatype Result<+T, +E> = Ok(value: T) | Err(error: E)
}
