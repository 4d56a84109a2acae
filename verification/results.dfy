/** Optional values and the settlement of calls that may throw. */
module Results {

  /** A present value, or JavaScript's `undefined` / `null`. */
  datatype Option<+T> = None | Some(value: T)

  /** What a call that may throw settles to: the value it returns, or the
      `message` of the `Error` it throws. Every failure in the modelled
      code is an `Error` whose message is all that callers inspect. */
  datatype Result<+T> = Ok(value: T) | Err(message: string)
}
