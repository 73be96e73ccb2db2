/**
 * The error vocabulary of both servers. Every failure a handler reports is a
 * FastAPI `HTTPException` with a status code and a detail; a Python exception
 * that is not an `HTTPException` is caught by the handler's last `except`
 * clause and re-raised as status 500 whose detail is `str(e)`.
 */
module Http {
  import opened Wrappers

  /** The Python exceptions the handlers can catch and turn into status 500. */
  datatype Cause =
    | NotADirectoryError(filename: string)    // os.listdir on a regular file
    | LookupError(encoding: string)           // open(..., encoding=e) with an unknown codec
    | AttributeError                          // .get on a JSON value that is not an object
    | TypeError                               // iterating or comparing a value of the wrong type
    | ValidationError                         // a pydantic model refusing a field value
    | TransportError                          // httpx could not complete the request
    | JsonDecodeError                         // response.json() on a body that is not JSON

  /** An exception's detail: a fixed message, or the text `str(e)` of a caught exception. */
  datatype Detail = Message(text: string) | ExceptionText(cause: Cause)

  datatype HttpException = HttpException(statusCode: int, detail: Detail)

  /**
   * A field of a request body as the client sent it: left out, sent as
   * `null`, or given a value.
   */
  datatype Field<T> = Absent | Null | Given(value: T)

  /**
   * A pydantic `Optional[T] = default` field: the default when left out, None
   * for an explicit `null`, the value otherwise.
   */
  function WithDefault<T>(f: Field<T>, default: T): Option<T>
  {
    match f
    case Absent => Some(default)
    case Null => None
    case Given(v) => Some(v)
  }

  /** What the handlers' `except Exception` clause raises for an exception that is not an HTTPException. */
  function Internal(cause: Cause): HttpException
  {
    HttpException(500, ExceptionText(cause))
  }
}
