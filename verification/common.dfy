/** Failure-carrying values used for Python's `None`, exceptions and the
    outcome of a language-model call. */
module Common {
  datatype Option<+T> = None | Some(value: T)

  datatype Result<+T, +E> = Ok(value: T) | Err(error: E)

  /** What one language-model call produced: the reply text, or the
      message of the error it raised. Model calls are inputs of the model. */
  datatype CallOutcome = Reply(text: string) | CallFailed(message: string)
}
