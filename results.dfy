/** Optional values and failure-compatible results, with the Python exceptions
    the transform engine can raise named as error values. */
module Results {

  datatype Option<+T> = None | Some(value: T) {
    function GetOr(default: T): T {
      match this
      case Some(v) => v
      case None => default
    }
  }

  /** The exceptions the modelled code raises; each aborts the whole run. */
  datatype Error =
    | KeyError(key: string)          // a missing dictionary key or data-frame column
    | IndexError(what: string)       // indexing an empty list
    | TypeError(what: string)        // bad call binding, or joining a non-text label
    | ValueError(text: string)       // int() of a text that is not a decimal integer
    | AttributeError(name: string)   // getattr of a transform name that does not exist
    | MergeError(what: string)       // a join without key columns

  datatype Result<+T> = Success(value: T) | Failure(error: Error) {
    predicate IsFailure() {
      Failure?
    }

    function PropagateFailure<U>(): Result<U>
      requires Failure?
    {
      Failure(error)
    }

    function Extract(): T
      requires Success?
    {
      value
    }
  }
}
