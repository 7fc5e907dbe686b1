/** The services' error values (`ServiceError`) and every way an operation can fail. */
module Errors {
  /** The three error types a `ServiceError` can carry. */
  datatype ErrorKind = NotFound | Forbidden | BadRequest

  datatype ServiceError = ServiceError(kind: ErrorKind, message: string) {
    /** The `name` every service error carries. */
    const name: string := "ServiceError"
  }

  function NotFoundError(message: string): ServiceError { ServiceError(NotFound, message) }
  function ForbiddenError(message: string): ServiceError { ServiceError(Forbidden, message) }
  function BadRequestError(message: string): ServiceError { ServiceError(BadRequest, message) }

  /** The factories tag each error with its own kind, keep the message, and all carry the name `ServiceError`. */
  lemma FactoriesTagKinds(m: string)
    ensures NotFoundError(m).kind == NotFound && NotFoundError(m).message == m
    ensures ForbiddenError(m).kind == Forbidden && ForbiddenError(m).message == m
    ensures BadRequestError(m).kind == BadRequest && BadRequestError(m).message == m
    ensures NotFoundError(m).name == ForbiddenError(m).name == BadRequestError(m).name == "ServiceError"
    ensures NotFoundError(m) != ForbiddenError(m) && ForbiddenError(m) != BadRequestError(m)
    ensures NotFoundError(m) != BadRequestError(m)
  {
  }

  /**
   * Why an operation failed: a thrown `ServiceError`; a plain `Error` whose
   * message carries a `Type:message` prefix; or a Prisma write that did not
   * find its target row (an update or delete of a missing record), which
   * aborts the surrounding transaction and is no `ServiceError`.
   */
  datatype Failure = Service(error: ServiceError) | Plain(message: string) | RecordNotFound

  datatype Result<T> = Ok(value: T) | Err(failure: Failure) {
    predicate IsFailure() { Err? }
    function PropagateFailure<U>(): Result<U> requires Err? { Err(failure) }
    function Extract(): T requires Ok? { value }
    /** The operation threw `ServiceError(kind, message)`. */
    predicate FailedWith(kind: ErrorKind, message: string) {
      Err? && failure == Service(ServiceError(kind, message))
    }
  }

  function Fail<T>(kind: ErrorKind, message: string): Result<T> {
    Err(Service(ServiceError(kind, message)))
  }

  /** The result of an operation that returns nothing but may fail. */
  type Outcome = Result<()>

  const Done: Outcome := Ok(())
}
