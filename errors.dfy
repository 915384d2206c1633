/**
  The error taxonomy of the blog backend (kaizen_blog_api/errors.py) and the
  result type that every fallible operation of the model returns in place of
  raising an exception.
*/
module Errors {

  /** The exception classes an operation of the core can raise. */
  datatype Kind =
    | ApiError         // `class ApiError(RuntimeError)`, status_code 500
    | AWSError         // `class AWSError(ApiError)`, status_code 500
    | ValidationError  // `class ValidationError(Exception)`, status_code 422
    | RecordNotFound   // imported by common.py, not declared in errors.py
    | RepositoryError  // imported by common.py, not declared in errors.py
    | ImageError       // imported by post/service.py, not declared in errors.py
    | Unhandled        // any other Python exception (KeyError, ValueError, TypeError, ...)

  /** A raised exception: its class and `str(e)`. */
  datatype Error = Error(kind: Kind, message: string)

  /** Either the value an operation returns or the exception it raises. */
  datatype Result<+T> = Ok(value: T) | Err(error: Error) {
    predicate IsFailure() {
      Err?
    }

    function PropagateFailure<U>(): Result<U>
      requires Err?
    {
      Err(error)
    }

    function Extract(): T
      requires Ok?
    {
      value
    }
  }

  /**
    Where an exception class sits in the class hierarchy, as far as the
    boundary's `except` chain can tell: under `ApiError` (with the
    `status_code` it carries), under `ValidationError`, or neither.
  */
  datatype Lineage =
    | UnderApiError(statusCode: int)
    | UnderValidationError(statusCode: int)
    | PlainException

  /**
    The placement of the three error classes that the core imports but that
    errors.py does not declare. The model does not guess it: it is a
    parameter of everything that depends on it.
  */
  datatype Undeclared = Undeclared(recordNotFound: Lineage, repositoryError: Lineage, imageError: Lineage)

  /** The class attribute `status_code` of each declared class. */
  function DeclaredStatusCode(k: Kind): (code: int)
    requires k in {ApiError, AWSError, ValidationError}
    ensures code == 422 <==> k == ValidationError
    ensures k != ValidationError ==> code == 500
  {
    match k
    case ApiError => 500
    case AWSError => 500
    case ValidationError => 422
  }

  /** The lineage of every kind, given the placement of the undeclared classes. */
  function LineageOf(k: Kind, undeclared: Undeclared): (l: Lineage)
    ensures k in {ApiError, AWSError} ==> l == UnderApiError(DeclaredStatusCode(k))
    ensures k == ValidationError ==> l == UnderValidationError(DeclaredStatusCode(k))
    ensures k == Unhandled ==> l == PlainException
  {
    match k
    case ApiError => UnderApiError(DeclaredStatusCode(ApiError))
    case AWSError => UnderApiError(DeclaredStatusCode(AWSError))
    case ValidationError => UnderValidationError(DeclaredStatusCode(ValidationError))
    case RecordNotFound => undeclared.recordNotFound
    case RepositoryError => undeclared.repositoryError
    case ImageError => undeclared.imageError
    case Unhandled => PlainException
  }
}
