/** Optional values and the exceptions the QwikRide services raise.

    Java `null` becomes `None`; a thrown exception becomes `Err`. Every service
    method in the backend is `@Transactional`, so a result that is `Err` never
    carries a changed state: the caller keeps the state it passed in.
 */
module Wrappers {

  /** A nullable value. */
  datatype Option<+T> = None | Some(value: T) {

    /** The value, or `default` when null (Java's `x != null ? x : default`). */
    function GetOr(default: T): T {
      match this
      case Some(v) => v
      case None => default
    }
  }

  /** The kind of exception a service throws, with its message. */
  datatype Error =
    | IllegalArgument(msg: string)       // IllegalArgumentException
    | IllegalState(msg: string)          // IllegalStateException
    | AccessDenied(msg: string)          // Spring's AccessDeniedException
    | StationOutOfService(msg: string)   // the custom StationOutOfServiceException
    | ConstraintViolation(column: string) // a NOT NULL or length constraint of a column, rejected on save
    | NullReference                      // a NullPointerException from dereferencing null
    | UnknownProperty(name: string)      // Spring Data's PropertyReferenceException: no such entity property

  /** The outcome of a service call: its value, or the exception it threw. */
  datatype Result<+T> = Ok(value: T) | Err(error: Error) {

    predicate IsFailure() {
      Err?
    }

    function PropagateFailure<U>(): Result<U>
      requires Err?
    {
      Err(error)
    }

    function Extract(): T
      requires Ok?
    {
      value
    }
  }

  /** `Ok(())` when `cond` holds, otherwise the given exception. */
  function Need(cond: bool, e: Error): (r: Result<()>)
    ensures r.Ok? <==> cond
    ensures r.Err? ==> r.error == e
  {
    if cond then Ok(()) else Err(e)
  }
}
