/** The explicit success-or-failure result that the source's `Result<T, E>`
    returns stand for. */
module Results {

  datatype Result<+T, +E> = Ok(value: T) | Err(error: E)
}
