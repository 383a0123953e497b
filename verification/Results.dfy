/** Optional values, and results that may be errors. */
module Results {
  datatype Option<T> = Some(value: T) | None

  datatype Result<T, E> = Ok(value: T) | Err(error: E)
}
