/** Failure-carrying values shared by every module of the model: Python's `None` and
    the exceptions the backend raises or catches. */
module Common {

  datatype Option<T> = None | Some(value: T)

  datatype Result<T, E> = Ok(value: T) | Err(error: E)
}
