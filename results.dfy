/** Failure-compatible wrappers shared by the model. `Err` carries the kind of
    Python exception the modelled code raises at that point. */
module Results {

  datatype Option<+T> = None | Some(value: T)

  /** The Python exceptions that the modelled code can raise. */
  datatype Error =
    | AttributeError     // a method called on an object that lacks it (`str.strftime`, `datetime.encode`)
    | IndexError         // indexing an empty string or list
    | ValueError         // `PurePath.with_suffix` on a path with an empty name
    | FileNotFoundError  // `Path.rename` of a missing file
    | RuntimeError(message: string)

  datatype Result<+T> = Ok(value: T) | Err(error: Error) {
    predicate IsFailure() { Err? }

    function PropagateFailure<U>(): Result<U>
      requires Err?
    {
      Err(error)
    }

    function Extract(): T
      requires Ok?
    {
      value
    }
  }
}
