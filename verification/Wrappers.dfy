/** Values that may be missing. */
module Options {

  datatype Option<+T> = None | Some(value: T)
}

/** Values that may be an error instead. */
module Results {

  datatype Result<+T, +E> = Ok(value: T) | Err(error: E) {
    predicate IsFailure() { Err? }
    function PropagateFailure<U>(): Result<U, E> requires Err? { Err(error) }
    function Extract(): T requires Ok? { value }
  }
}
