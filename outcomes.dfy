/** Results and failures shared by every layer of the guides backend.

    The Java code signals errors by throwing: an `ApiException` carrying an HTTP
    status and a message, a data-integrity violation raised by the database when a
    unique key or a column length is violated, a validation failure raised by
    `@Valid`, or an unchecked Java exception.  Here each of these is a `Failure`
    value returned in a `Result` or an `Outcome`. */
module Outcomes {

  datatype Option<+T> = None | Some(value: T)

  /** The HTTP statuses that the core attaches to its own exceptions. */
  datatype HttpStatus = BadRequest | Unauthorized | Forbidden | NotFound | Conflict | InternalServerError

  datatype Failure =
    /** `throw new ApiException(status, message)` */
    | ApiException(status: HttpStatus, message: string)
    /** a unique key or a column length rejected by the database on save */
    | DataIntegrityViolation
    /** a request body rejected by bean validation before the handler runs */
    | ValidationFailure
    /** an unchecked exception: unboxing a null `Boolean`/`Integer`, or an illegal page request */
    | UncheckedException

  /** The status the exception handler answers with for each kind of failure. */
  function StatusOf(f: Failure): (s: HttpStatus)
    ensures f.ApiException? ==> s == f.status
    ensures f.DataIntegrityViolation? <==> s == Conflict && !f.ApiException?
    ensures f.ValidationFailure? ==> s == BadRequest
    ensures f.UncheckedException? ==> s == InternalServerError
  {
    match f
    case ApiException(status, _) => status
    case DataIntegrityViolation => Conflict
    case ValidationFailure => BadRequest
    case UncheckedException => InternalServerError
  }

  datatype Result<+T> = Ok(value: T) | Err(error: Failure)

  /** The result of an operation that returns nothing (`void`). */
  datatype Outcome = Pass | Fail(error: Failure)

  /** `ApiException(status, message)` as an outcome. */
  function Throw(status: HttpStatus, message: string): Outcome
  {
    Fail(ApiException(status, message))
  }

  /** A result whose value the caller drops (a `save` whose entity is not returned). */
  function Discard<T>(r: Result<T>): (o: Outcome)
    ensures o.Pass? <==> r.Ok?
    ensures r.Err? ==> o == Fail(r.error)
  {
    match r
    case Ok(_) => Pass
    case Err(e) => Fail(e)
  }

  /** Instants are whole seconds since the epoch; calendar days are epoch days. */
  type Instant = int
  type Day = int
}
