/** Optional values, results, and the Python exceptions the modelled code can raise. */
module Common {

  datatype Option<+T> = None | Some(value: T)

  /** The exceptions that escape from the modelled operations. */
  datatype Error =
    | KeyError(key: string)   // a dict or index-label lookup missed
    | IndexError              // a list index past the end
    | ValueError              // a bad argument or a failed conversion
    | ZeroDivisionError       // a mean over an empty list

  datatype Result<+T> = Ok(value: T) | Err(error: Error) {
    predicate IsFailure() { Err? }
    function PropagateFailure<U>(): Result<U>
      requires Err?
    {
      Err(error)
    }
    function Extract(): T
      requires Ok?
    {
      value
    }
  }

  function Abs(x: real): real { if x < 0.0 then -x else x }

  function Max(x: real, y: real): real { if x < y then y else x }
}
