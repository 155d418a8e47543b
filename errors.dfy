/**
 * The failures an operation can raise, as values. A FastAPI `HTTPException`
 * carries a status and a `detail`; pydantic's `RequestValidationError`
 * carries a list of error items; a Python `KeyError` (a dictionary lookup of
 * a missing key) is the one other exception the modelled code can raise.
 */
module Errors {
  import opened Basics

  /** A JSON value inside an error's `fields` object. */
  datatype Value = Str(s: string) | Num(r: real)

  /** An error's `fields` object. */
  type Fields = map<string, Value>

  /** The `detail` of an `HTTPException`: a dict whose `code`, `message` and
      `fields` keys may be absent, or any other value, kept as its `str()`
      (the empty string standing for a falsy detail). */
  datatype Detail =
    | Structured(code: Option<string>, message: Option<string>, fields: Option<Fields>)
    | Plain(text: string)

  /** One part of a pydantic error location: a name or a list index. */
  datatype LocPart = Name(name: string) | Index(index: nat)

  /** One item of `RequestValidationError.errors()`: its `loc` (an absent
      `loc` is the empty one) and its `msg`, if any. */
  datatype ErrorItem = ErrorItem(loc: seq<LocPart>, msg: Option<string>)

  /** An exception on its way out of a request handler. */
  datatype Raised =
    | HttpError(status: int, detail: Detail)
    | RequestInvalid(items: seq<ErrorItem>)
    | KeyError

  /** The outcome of an operation that returns a value or raises. */
  datatype Result<+T> = Ok(value: T) | Err(error: Raised)

  /** The outcome of an operation that returns nothing or raises. */
  datatype Outcome = Pass | Fail(error: Raised)

  /** The closed taxonomy of error codes this system raises, each with the
      one HTTP status it is raised with. */
  const Taxonomy: map<string, int> := map[
    "BAD_REQUEST" := 400,
    "AUTH_REQUIRED" := 401,
    "INVALID_TOKEN" := 401,
    "INVALID_CREDENTIALS" := 401,
    "FORBIDDEN" := 403,
    "NOT_FOUND" := 404,
    "PAYLOAD_TOO_LARGE" := 413,
    "VALIDATION_ERROR" := 422,
    "INTERNAL_ERROR" := 500
  ]

  /** `e` is an `HTTPException` whose detail names a code of the taxonomy,
      with that code's status, and carries a message. */
  predicate InTaxonomy(e: Raised) {
    && e.HttpError?
    && e.detail.Structured?
    && e.detail.code.Some?
    && e.detail.code.value in Taxonomy
    && Taxonomy[e.detail.code.value] == e.status
    && e.detail.message.Some?
  }

  /** The code an `HTTPException` of the taxonomy carries. */
  function CodeOf(e: Raised): string
    requires InTaxonomy(e)
  {
    e.detail.code.value
  }
}
