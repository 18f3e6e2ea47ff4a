/**
 * The API server's error type (`skool::error`): the HTTP status of each
 * error, the plain-text response built from it, and the conversions from the
 * errors of the libraries the server calls.
 *
 * The authentication library's request error is foreign: it is modelled by
 * the status, text and response it produces on its own.
 */
module AppErrors {
  import opened Wrappers
  import Schedule

  datatype HttpResponse = HttpResponse(status: int, contentType: string, body: string)

  /** The authentication library's extractor error, by what it answers with. */
  datatype FromRequestError = FromRequestError(status: int, text: string, response: HttpResponse)

  datatype AppError =
    | InternalError
    | BadRequest(message: string)
    | NotFound(message: string)
    | TimetableNotFound
    | MissingCredentials
    | InvalidToken
    | Auth(error: FromRequestError)

  const PLAIN_TEXT: string := "text/plain; charset=utf-8"

  /** `status_code`. */
  function StatusCode(e: AppError): int
  {
    match e
    case InternalError => 500
    case BadRequest(_) => 400
    case NotFound(_) => 404
    case TimetableNotFound => 404
    case MissingCredentials => 401
    case InvalidToken => 400
    case Auth(a) => a.status
  }

  /** The `Display` text of each error. */
  function Message(e: AppError): string
  {
    match e
    case InternalError => "internal server error"
    case BadRequest(m) => m
    case NotFound(m) => m
    case TimetableNotFound => "timetable not found"
    case MissingCredentials => "missing credentials"
    case InvalidToken => "invalid token"
    case Auth(a) => a.text
  }

  /** `error_response`: the library's own response for `Auth`, else the status with the text as plain text. */
  function ErrorResponse(e: AppError): HttpResponse
  {
    match e
    case Auth(a) => a.response
    case _ => HttpResponse(StatusCode(e), PLAIN_TEXT, Message(e))
  }

  /**
   * The statuses of the server's own errors: 500 only for the internal error,
   * 404 for what is not found, 401 for missing credentials and 400 for the rest.
   */
  lemma StatusCodes(e: AppError)
    requires !e.Auth?
    ensures StatusCode(e) == 500 <==> e.InternalError?
    ensures StatusCode(e) == 404 <==> e.NotFound? || e.TimetableNotFound?
    ensures StatusCode(e) == 401 <==> e.MissingCredentials?
    ensures StatusCode(e) == 400 <==> e.BadRequest? || e.InvalidToken?
  {
  }

  /**
   * Every response carries the error's status; apart from `Auth`, whose
   * response is the library's, it is plain text whose body is the error's text.
   */
  lemma ErrorResponseSpec(e: AppError)
    requires e.Auth? ==> e.error.response.status == e.error.status
    ensures ErrorResponse(e).status == StatusCode(e)
    ensures !e.Auth? ==> ErrorResponse(e).contentType == PLAIN_TEXT && ErrorResponse(e).body == Message(e)
  {
  }

  // ---------------------------------------------------------------------------
  // Conversions.
  // ---------------------------------------------------------------------------

  /**
   * `From<AuthError>` as written: the `ReqwestError` arm converts the same
   * value with the same function again, so it never returns. `fuel` bounds the
   * number of calls; `None` means the calls ran out.
   */
  function FromAuthErrorAsWritten(e: Schedule.AuthError, fuel: nat): Option<AppError>
    decreases fuel
  {
    if fuel == 0 then None
    else
      match e
      case BadCredentials => Some(BadRequest("bad credentials"))
      case ReqwestError(_) => FromAuthErrorAsWritten(e, fuel - 1)
      case ScrapingFailed(_) => Some(InternalError)
  }

  /** However many calls are allowed, a `ReqwestError` is never converted. */
  lemma {:induction false} ReqwestErrorDiverges(message: string, fuel: nat)
    ensures FromAuthErrorAsWritten(Schedule.ReqwestError(message), fuel) == None
    decreases fuel
  {
    if fuel > 0 {
      ReqwestErrorDiverges(message, fuel - 1);
    }
  }

  /** The conversion as intended: the HTTP error inside is converted like any other `reqwest` error. */
  function FromAuthError(e: Schedule.AuthError): AppError
  {
    match e
    case BadCredentials => BadRequest("bad credentials")
    case ReqwestError(m) => FromForeign(Reqwest(m))
    case ScrapingFailed(_) => InternalError
  }

  /**
   * Bad credentials are the client's fault (400, "bad credentials"); every
   * other failure of the timetable service is an internal error. Where the
   * written conversion returns, it returns the same.
   */
  lemma {:induction false} FromAuthErrorSpec(e: Schedule.AuthError, fuel: nat)
    ensures e.BadCredentials? ==> FromAuthError(e) == BadRequest("bad credentials") && StatusCode(FromAuthError(e)) == 400
    ensures !e.BadCredentials? ==> FromAuthError(e) == InternalError && StatusCode(FromAuthError(e)) == 500
    ensures FromAuthErrorAsWritten(e, fuel).Some? ==> FromAuthErrorAsWritten(e, fuel).value == FromAuthError(e)
    ensures FromAuthErrorAsWritten(e, fuel).None? <==> fuel == 0 || e.ReqwestError?
  {
    if e.ReqwestError? {
      ReqwestErrorDiverges(e.message, fuel);
    }
  }

  /** The errors of the HTTP client, the database, the token cipher, Redis and its pool. */
  datatype ForeignError = Reqwest(text: string) | Sqlx(text: string) | Crypt(text: string) | Redis(text: string) | Pool(text: string)

  /** The other `From` impls: each logs its error and answers with an internal error. */
  function FromForeign(f: ForeignError): AppError
  {
    InternalError
  }

  /** A foreign failure is a 500 with the fixed text, whatever the failure said. */
  lemma ForeignHidden(f: ForeignError)
    ensures StatusCode(FromForeign(f)) == 500
    ensures ErrorResponse(FromForeign(f)) == HttpResponse(500, PLAIN_TEXT, "internal server error")
  {
  }
}
