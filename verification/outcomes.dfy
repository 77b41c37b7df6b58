/** The exceptions the modelled code raises, and the Option/Result shapes that carry them. */
module Outcomes {

  datatype Option<+T> = None | Some(value: T)

  /** The Python exception a caller observes. */
  datatype Error =
    | KeyError(key: string)
    | IndexError
    | ValueError
    | RuntimeError(message: string)
      /** an exception raised by the container engine client */
    | EngineError(message: string)

  datatype Result<+T> = Ok(value: T) | Err(error: Error) {

    predicate IsFailure() {
      Err?
    }

    function PropagateFailure<U>(): Result<U>
      requires Err?
    {
      Err(error)
    }

    function Extract(): T
      requires Ok?
    {
      value
    }
  }
}
