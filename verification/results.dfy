/** Failure-carrying values used throughout the model: `Option` stands for a
    C# reference that may be null, `Result` for a call that may throw. */
module Results {

  datatype Option<+T> = None | Some(value: T)

  /** The exceptions the modelled code raises. */
  datatype Error =
    | ArgumentNull(param: string)          // ArgumentNullException(nameof(param))
    | InvalidArgument(param: string)       // ArgumentException about `param`
    | HandlerNotFound(param: string)       // "no background handler found for param" Exception
    | NullReference                        // dereferencing a null reference

  datatype Result<+T> = Ok(value: T) | Err(error: Error) {

    predicate IsFailure() {
      Err?
    }

    function PropagateFailure<U>(): Result<U>
      requires Err?
    {
      Err(error)
    }

    function Extract(): T
      requires Ok?
    {
      value
    }
  }
}
