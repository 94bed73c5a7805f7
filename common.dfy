/** Shared wrappers: an optional value, the errors the Python code raises, and a result type. */
module Common {

  datatype Option<T> = None | Some(value: T) {
    function GetOr(default: T): T {
      match this
      case Some(v) => v
      case None => default
    }
  }

  /** The exception classes the modelled code raises or lets escape. */
  datatype Error =
    | KeyError(key: string)        // missing configuration entry or missing column
    | ValueError(what: string)     // unsupported method name, percentile outside [0, 100]
    | TypeError(what: string)      // comparison or arithmetic on a non-numeric cell
    | EmptyData(what: string)      // a statistic asked of zero samples

  datatype Result<T> = Ok(value: T) | Err(error: Error) {
    predicate IsFailure() { Err? }
    function PropagateFailure<U>(): Result<U>
      requires Err?
    {
      Err(error)
    }
    function Extract(): T
      requires Ok?
    {
      value
    }
  }

  /** The constant 0.001 the break calculation adds, subtracts and shrinks by (taken as an exact real). */
  const Eps: real := 0.001
}
