/** The outcome of an operation that can fail: Go's (value, error) pair, or a
    panic, as a value. */
module Results {

  datatype Result<T> = Ok(value: T) | Err(error: string)
}
