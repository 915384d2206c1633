/**
  The Lambda boundary of kaizen_blog_api/serverless.py: `execute_serverless`
  runs a handler and turns whatever it raises into a `{statusCode, body}`
  response, by a first-match `except` chain over the error classes; the
  decorator `serverless` is usable bare or with an argument.
*/
module Serverless {
  import opened Options
  import opened Errors
  import opened JsonText

  /** A Lambda proxy response: exactly the keys `statusCode` and `body`. */
  datatype Response = Response(statusCode: int, body: string)

  /**
    The error response as serverless.py writes it: an `ApiError` (the
    `AWSError` clause comes first but answers alike) and any other exception
    get a body built by string concatenation, a `ValidationError` gets
    `json.dumps({"error": str(e)})`.
  */
  function ErrorResponseAsWritten(e: Error, undeclared: Undeclared): (r: Response)
    ensures LineageOf(e.kind, undeclared).UnderApiError? ==>
      r == Response(LineageOf(e.kind, undeclared).statusCode, ConcatErrorBody(e.message))
    ensures LineageOf(e.kind, undeclared).UnderValidationError? ==>
      r == Response(LineageOf(e.kind, undeclared).statusCode, ErrorBody(e.message))
    ensures LineageOf(e.kind, undeclared).PlainException? ==> r == Response(500, ConcatErrorBody(e.message))
  {
    match LineageOf(e.kind, undeclared)
    case UnderApiError(code) => Response(code, ConcatErrorBody(e.message))
    case UnderValidationError(code) => Response(code, ErrorBody(e.message))
    case PlainException => Response(500, ConcatErrorBody(e.message))
  }

  /**
    The error response with every body written by `json.dumps`, so that the
    body is always a JSON object whose `error` member is `str(e)`. The
    status codes are those of the `except` chain.
  */
  function ErrorResponse(e: Error, undeclared: Undeclared): (r: Response)
    ensures ReadErrorBody(r.body) == Some(e.message)
    ensures LineageOf(e.kind, undeclared).PlainException? ==> r.statusCode == 500
    ensures !LineageOf(e.kind, undeclared).PlainException? ==> r.statusCode == LineageOf(e.kind, undeclared).statusCode
  {
    ErrorBodyRoundTrip(e.message);
    match LineageOf(e.kind, undeclared)
    case UnderApiError(code) => Response(code, ErrorBody(e.message))
    case UnderValidationError(code) => Response(code, ErrorBody(e.message))
    case PlainException => Response(500, ErrorBody(e.message))
  }

  /** The status each declared class gets at the boundary, and any other exception. */
  lemma DeclaredStatusCodes(message: string, undeclared: Undeclared)
    ensures ErrorResponse(Error(ApiError, message), undeclared).statusCode == 500
    ensures ErrorResponse(Error(AWSError, message), undeclared).statusCode == 500
    ensures ErrorResponse(Error(ValidationError, message), undeclared).statusCode == 422
    ensures ErrorResponse(Error(Unhandled, message), undeclared).statusCode == 500
  {
  }

  /** For a message of plain characters the source's responses and the corrected ones are the same. */
  lemma AsWrittenAgreesOnPlain(e: Error, undeclared: Undeclared)
    requires AllPlain(e.message)
    ensures ErrorResponseAsWritten(e, undeclared) == ErrorResponse(e, undeclared)
  {
    ConcatAgreesOnPlain(e.message);
  }

  /** An unhandled exception whose text holds a quote gets a body that is not the JSON it looks like. */
  lemma AsWrittenBreaksOnQuote(undeclared: Undeclared)
    ensures ReadErrorBody(ErrorResponseAsWritten(Error(Unhandled, "a\"b"), undeclared).body) == None
  {
    ConcatBreaksOnQuote();
  }

  /**
    `execute_serverless(*args)`: the handler's own response when it returns,
    the error response as serverless.py writes it when it raises.
  */
  function ExecuteServerless<A>(fn: A -> Result<Response>, undeclared: Undeclared, args: A): (r: Response)
    ensures fn(args).Ok? ==> r == fn(args).value
    ensures fn(args).Err? ==> r == ErrorResponseAsWritten(fn(args).error, undeclared)
  {
    match fn(args)
    case Ok(response) => response
    case Err(e) => ErrorResponseAsWritten(e, undeclared)
  }

  /** `execute_serverless` with the corrected error response: whatever the handler raises, the body reads back as `str(e)`. */
  function ExecuteServerlessCorrected<A>(fn: A -> Result<Response>, undeclared: Undeclared, args: A): (r: Response)
    ensures fn(args).Ok? ==> r == fn(args).value
    ensures fn(args).Err? ==> r == ErrorResponse(fn(args).error, undeclared) && ReadErrorBody(r.body) == Some(fn(args).error.message)
  {
    match fn(args)
    case Ok(response) => response
    case Err(e) => ErrorResponse(e, undeclared)
  }

  /** The boundary as written and the corrected one answer alike unless the handler raises a message with a character JSON escapes. */
  lemma ExecuteAgreesOnPlain<A>(fn: A -> Result<Response>, undeclared: Undeclared, args: A)
    requires fn(args).Err? ==> AllPlain(fn(args).error.message)
    ensures ExecuteServerless(fn, undeclared, args) == ExecuteServerlessCorrected(fn, undeclared, args)
  {
    if fn(args).Err? {
      AsWrittenAgreesOnPlain(fn(args).error, undeclared);
    }
  }

  /** A handler that raises `Exception('a"b')` gets, from the boundary as written, a body that does not read back. */
  lemma ExecuteBreaksOnQuote<A>(fn: A -> Result<Response>, undeclared: Undeclared, args: A)
    requires fn(args) == Err(Error(Unhandled, "a\"b"))
    ensures ReadErrorBody(ExecuteServerless(fn, undeclared, args).body) == None
    ensures ReadErrorBody(ExecuteServerlessCorrected(fn, undeclared, args).body) == Some("a\"b")
  {
    AsWrittenBreaksOnQuote(undeclared);
  }

  /** What `serverless(...)` returns: a decorator still waiting for its handler, or the wrapped handler. */
  datatype Decorated<!A> =
    | Decorator(wrap: (A -> Result<Response>) -> (A -> Response))
    | Wrapped(handler: A -> Response)

  /**
    `serverless(None)` is the decorator `_inner`; `serverless(fn)` is
    `_inner(fn)`, the handler wrapped at once.
  */
  function ServerlessDecorator<A>(handler: Option<A -> Result<Response>>, undeclared: Undeclared): (d: Decorated<A>)
    ensures d.Decorator? <==> handler.None?
  {
    var inner := (fn: A -> Result<Response>) => (a: A) => ExecuteServerless(fn, undeclared, a);
    if handler.None? then Decorator(inner) else Wrapped(inner(handler.value))
  }

  /** The decorator `serverless(None)` wraps any handler it is given in `execute_serverless`. */
  lemma DecoratorWraps<A>(fn: A -> Result<Response>, undeclared: Undeclared, args: A)
    ensures ServerlessDecorator(None, undeclared).wrap(fn)(args) == ExecuteServerless(fn, undeclared, args)
  {
  }

  /** `serverless(fn)` and `serverless(None)(fn)` are the same wrapped handler. */
  lemma BareAndCalledAgree<A>(fn: A -> Result<Response>, undeclared: Undeclared, args: A)
    ensures ServerlessDecorator(Some(fn), undeclared).handler(args) == ServerlessDecorator(None, undeclared).wrap(fn)(args)
    ensures ServerlessDecorator(Some(fn), undeclared).handler(args) == ExecuteServerless(fn, undeclared, args)
  {
  }
}
