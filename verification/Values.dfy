/** Optional values and results. A None stands for Go's nil, an Err for a non-nil error. */
module Values {
  datatype Option<+T> = None | Some(value: T)

  datatype Result<+T, +E> = Ok(value: T) | Err(error: E)
}
