/** Failure-carrying values shared by every module: Go's `error` and the
    `(value, error)` pairs its functions return. */
module Results {

  /** A Go `error`: either a plain message (`errors.New`, `fmt.Errorf` without
      `%w`) or a message wrapping an underlying error (`fmt.Errorf` with `%w`). */
  datatype Error = Message(text: string) | Wrapped(context: string, cause: Error)

  datatype Option<+T> = None | Some(value: T)

  datatype Result<+T> = Success(value: T) | Failure(error: Error)
}
