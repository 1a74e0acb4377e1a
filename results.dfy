/** Optional values and success/failure results, standing for Java's nullable
    references, `Optional` and thrown exceptions. */
module Results {

  datatype Option<+T> = None | Some(value: T)

  /** The value of an operation that either returns `value` or throws `error`. */
  datatype Result<+T, +E> = Ok(value: T) | Err(error: E)

  /** The value of a `void` check that either returns normally or throws `error`. */
  datatype Outcome<+E> = Pass | Fail(error: E)
}
