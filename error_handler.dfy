/**
 * The web layer's global error handler: every exception that reaches it is
 * classified into an HTTP status (RFC 9110 section 15) and answered with a
 * problem-details body (RFC 9457 section 3.1: status, title, detail, plus
 * the request path, a timestamp and, for a binding failure, the field
 * errors). When writing that body fails, the status is overwritten with
 * 500 and the response is completed without a body.
 */
module ErrorHandler {
  import opened Outcomes
  import Text

  /** The exception classes the handler tests with instanceof. */
  datatype ExceptionClass =
    | WebExchangeBind         // WebExchangeBindException
    | ServerWebInput          // ServerWebInputException
    | DataIntegrityViolation  // DataIntegrityViolationException
    | ResponseStatus          // ResponseStatusException
    | ErrorResponse           // ErrorResponseException
    | DomainValidation        // DomainValidationException

  /** One binding error: the field, its default message and the rejected value, each possibly null. */
  datatype FieldError = FieldError(field: string, defaultMessage: Option<string>, rejectedValue: Option<string>)

  /**
   * A thrown exception: every class it is an instance of, the status code it
   * carries (read only for ResponseStatus and ErrorResponse), its message
   * (None for null), its simple class name and, for a binding failure, its
   * field errors.
   */
  datatype Exception = Exception(
    classes: set<ExceptionClass>,
    statusCode: nat,
    message: Option<string>,
    simpleName: string,
    fieldErrors: seq<FieldError>)

  /**
   * Spring's hierarchy: a bind exception is a web-input exception, which is a
   * response-status exception, which is an error-response exception; a
   * carried status code has three digits.
   */
  predicate WellFormed(ex: Exception)
  {
    && (WebExchangeBind in ex.classes ==> ServerWebInput in ex.classes)
    && (ServerWebInput in ex.classes ==> ResponseStatus in ex.classes)
    && (ResponseStatus in ex.classes ==> ErrorResponse in ex.classes)
    && 100 <= ex.statusCode <= 999
  }

  /** mapStatus: the first matching test, in order, decides. */
  function MapStatus(ex: Exception): (s: nat)
    ensures WellFormed(ex) ==> 100 <= s <= 999
    ensures WebExchangeBind in ex.classes || ServerWebInput in ex.classes ==> s == 400
  {
    if WebExchangeBind in ex.classes then 400
    else if ServerWebInput in ex.classes then 400
    else if DataIntegrityViolation in ex.classes then 409
    else if ResponseStatus in ex.classes then ex.statusCode
    else if ErrorResponse in ex.classes then ex.statusCode
    else if DomainValidation in ex.classes then 422
    else 500
  }

  /**
   * Which status each kind of exception gets: 400 for input errors whatever
   * they carry, 409 for data integrity ahead of any carried code, the carried
   * code for the other response-status and error-response exceptions, 422
   * for a domain validation failure that is none of those, and 500 for
   * anything else.
   */
  lemma {:induction false} MapStatusClasses(ex: Exception)
    ensures ServerWebInput in ex.classes ==> MapStatus(ex) == 400
    ensures ServerWebInput !in ex.classes && WebExchangeBind !in ex.classes && DataIntegrityViolation in ex.classes ==>
              MapStatus(ex) == 409
    ensures ServerWebInput !in ex.classes && WebExchangeBind !in ex.classes && DataIntegrityViolation !in ex.classes
            && (ResponseStatus in ex.classes || ErrorResponse in ex.classes) ==>
              MapStatus(ex) == ex.statusCode
    ensures ex.classes == {DomainValidation} ==> MapStatus(ex) == 422
    ensures ex.classes == {} ==> MapStatus(ex) == 500
  {
  }

  /**
   * A 500 answer means either an exception the handler does not recognise
   * or a response-status or error-response exception that carries 500.
   */
  lemma ServerErrorExactly(ex: Exception)
    ensures MapStatus(ex) == 500 <==>
              && WebExchangeBind !in ex.classes && ServerWebInput !in ex.classes
              && DataIntegrityViolation !in ex.classes
              && (if ResponseStatus in ex.classes || ErrorResponse in ex.classes then ex.statusCode == 500
                  else DomainValidation !in ex.classes)
  {
  }

  /**
   * The reason phrases of Spring's HttpStatus constants, by code, including
   * the deprecated 305, 419, 420 and 421 constants, which the enum still
   * declares; where two constants share a code, the one declared first.
   */
  function ReasonPhrase(code: nat): (r: Option<string>)
    ensures r.Some? ==> 100 <= code < 600 && r.value != ""
  {
    if code < 100 then None
    else if code < 200 then Informational(code)
    else if code < 300 then Successful(code)
    else if code < 400 then Redirection(code)
    else if code < 419 then ClientError(code)
    else if code < 500 then ClientErrorExtended(code)
    else if code < 600 then ServerError(code)
    else None
  }

  /** The 1xx informational phrases. */
  function Informational(code: nat): (r: Option<string>)
    ensures r.Some? ==> r.value != ""
  {
    match code
    case 100 => Some("Continue")
    case 101 => Some("Switching Protocols")
    case 102 => Some("Processing")
    case 103 => Some("Early Hints")
    case _ => None
  }

  /** The 2xx successful phrases. */
  function Successful(code: nat): (r: Option<string>)
    ensures r.Some? ==> r.value != ""
  {
    match code
    case 200 => Some("OK")
    case 201 => Some("Created")
    case 202 => Some("Accepted")
    case 203 => Some("Non-Authoritative Information")
    case 204 => Some("No Content")
    case 205 => Some("Reset Content")
    case 206 => Some("Partial Content")
    case 207 => Some("Multi-Status")
    case 208 => Some("Already Reported")
    case 226 => Some("IM Used")
    case _ => None
  }

  /** The 3xx redirection phrases. */
  function Redirection(code: nat): (r: Option<string>)
    ensures r.Some? ==> r.value != ""
  {
    match code
    case 300 => Some("Multiple Choices")
    case 301 => Some("Moved Permanently")
    case 302 => Some("Found")
    case 303 => Some("See Other")
    case 304 => Some("Not Modified")
    case 305 => Some("Use Proxy")
    case 307 => Some("Temporary Redirect")
    case 308 => Some("Permanent Redirect")
    case _ => None
  }

  /** The 4xx client-error, up to 418 phrases. */
  function ClientError(code: nat): (r: Option<string>)
    ensures r.Some? ==> r.value != ""
  {
    match code
    case 400 => Some("Bad Request")
    case 401 => Some("Unauthorized")
    case 402 => Some("Payment Required")
    case 403 => Some("Forbidden")
    case 404 => Some("Not Found")
    case 405 => Some("Method Not Allowed")
    case 406 => Some("Not Acceptable")
    case 407 => Some("Proxy Authentication Required")
    case 408 => Some("Request Timeout")
    case 409 => Some("Conflict")
    case 410 => Some("Gone")
    case 411 => Some("Length Required")
    case 412 => Some("Precondition Failed")
    case 413 => Some("Payload Too Large")
    case 414 => Some("URI Too Long")
    case 415 => Some("Unsupported Media Type")
    case 416 => Some("Requested range not satisfiable")
    case 417 => Some("Expectation Failed")
    case 418 => Some("I'm a teapot")
    case _ => None
  }

  /** The 4xx client-error, from 419 phrases. */
  function ClientErrorExtended(code: nat): (r: Option<string>)
    ensures r.Some? ==> r.value != ""
  {
    match code
    case 419 => Some("Insufficient Space On Resource")
    case 420 => Some("Method Failure")
    case 421 => Some("Destination Locked")
    case 422 => Some("Unprocessable Entity")
    case 423 => Some("Locked")
    case 424 => Some("Failed Dependency")
    case 425 => Some("Too Early")
    case 426 => Some("Upgrade Required")
    case 428 => Some("Precondition Required")
    case 429 => Some("Too Many Requests")
    case 431 => Some("Request Header Fields Too Large")
    case 451 => Some("Unavailable For Legal Reasons")
    case _ => None
  }

  /** The 5xx server-error phrases. */
  function ServerError(code: nat): (r: Option<string>)
    ensures r.Some? ==> r.value != ""
  {
    match code
    case 500 => Some("Internal Server Error")
    case 501 => Some("Not Implemented")
    case 502 => Some("Bad Gateway")
    case 503 => Some("Service Unavailable")
    case 504 => Some("Gateway Timeout")
    case 505 => Some("HTTP Version not supported")
    case 506 => Some("Variant Also Negotiates")
    case 507 => Some("Insufficient Storage")
    case 508 => Some("Loop Detected")
    case 509 => Some("Bandwidth Limit Exceeded")
    case 510 => Some("Not Extended")
    case 511 => Some("Network Authentication Required")
    case _ => None
  }

  /**
   * titleFor: the reason phrase of a standard status; for any other code its
   * string form, which is its decimal digits and reads back as the code.
   */
  function TitleFor(code: nat): (t: string)
    ensures ReasonPhrase(code).Some? ==> t == ReasonPhrase(code).value
    ensures ReasonPhrase(code).None? ==> t == Text.NatToString(code) && Text.DigitsValue(t) == code
  {
    match ReasonPhrase(code)
    case Some(phrase) => phrase
    case None =>
      Text.NatToStringRoundTrip(code);
      Text.NatToString(code)
  }

  /** The titles of the client-error statuses the handler picks itself. */
  lemma ClientErrorTitles()
    ensures TitleFor(400) == "Bad Request" && TitleFor(409) == "Conflict"
    ensures TitleFor(422) == "Unprocessable Entity"
  {
  }

  /** The deprecated constants the enum still declares keep their phrases. */
  lemma DeprecatedTitles()
    ensures TitleFor(305) == "Use Proxy" && TitleFor(419) == "Insufficient Space On Resource"
    ensures TitleFor(420) == "Method Failure" && TitleFor(421) == "Destination Locked"
  {
  }

  /** The title of the fallback status. */
  lemma ServerErrorTitle()
    ensures TitleFor(500) == "Internal Server Error"
  {
  }

  /** A non-standard code such as 499 is titled by its digits. */
  lemma NonStandardTitle()
    ensures TitleFor(499) == "499"
  {
    assert ReasonPhrase(499).None?;
    assert Text.NatToString(4) == "4";
    assert Text.NatToString(49) == "49";
  }

  /** safeDetail: the message, or the simple class name when the message is null. */
  function SafeDetail(ex: Exception): (d: string)
    ensures ex.message.Some? ==> d == ex.message.value
    ensures ex.message.None? ==> d == ex.simpleName
  {
    if ex.message.None? then ex.simpleName else ex.message.value
  }

  /** One entry of the "errors" property. */
  datatype ErrorEntry = ErrorEntry(field: string, message: string, rejectedValue: string)

  /**
   * The "errors" property: one entry per field error, in order. Map.of
   * refuses a null value, so a field error without a default message makes
   * the whole handler throw.
   */
  function ErrorEntries(fes: seq<FieldError>): (r: Result<seq<ErrorEntry>>)
    ensures r.Ok? <==> forall i :: 0 <= i < |fes| ==> fes[i].defaultMessage.Some?
    ensures r.Ok? ==> |r.value| == |fes|
    ensures r.Ok? ==> forall i :: 0 <= i < |fes| ==>
              r.value[i] == ErrorEntry(fes[i].field, fes[i].defaultMessage.value, Text.ValueOf(fes[i].rejectedValue))
    ensures r.Err? ==> r.failure.NullValue?
  {
    if fes == [] then Ok([])
    else if fes[0].defaultMessage.None? then Err(NullValue("message"))
    else
      match ErrorEntries(fes[1..])
      case Err(f) => Err(f)
      case Ok(rest) =>
        Ok([ErrorEntry(fes[0].field, fes[0].defaultMessage.value, Text.ValueOf(fes[0].rejectedValue))] + rest)
  }

  /** The problem-details body. */
  datatype ProblemDetail = ProblemDetail(
    status: nat,
    title: string,
    detail: string,
    path: string,
    timestamp: string,
    errors: Option<seq<ErrorEntry>>)

  /**
   * toProblemDetail for the status mapStatus chose; `now` is the clock's
   * reading. Only a bind exception gets the "errors" property.
   */
  function ProblemDetailFor(ex: Exception, path: string, now: string): (r: Result<ProblemDetail>)
    ensures r.Err? <==> WebExchangeBind in ex.classes && ErrorEntries(ex.fieldErrors).Err?
    ensures r.Ok? ==>
              && r.value.status == MapStatus(ex)
              && r.value.title == TitleFor(MapStatus(ex))
              && r.value.detail == SafeDetail(ex)
              && r.value.path == path && r.value.timestamp == now
              && (r.value.errors.Some? <==> WebExchangeBind in ex.classes)
              && (r.value.errors.Some? ==> |r.value.errors.value| == |ex.fieldErrors|)
  {
    var status := MapStatus(ex);
    var pd := ProblemDetail(status, TitleFor(status), SafeDetail(ex), path, now, None);
    if WebExchangeBind !in ex.classes then Ok(pd)
    else
      match ErrorEntries(ex.fieldErrors)
      case Err(f) => Err(f)
      case Ok(entries) => Ok(pd.(errors := Some(entries)))
  }

  /** A bind error with one field error is answered 400, listing that field. */
  lemma BindErrorBody(ex: Exception, path: string, now: string)
    requires WellFormed(ex) && WebExchangeBind in ex.classes
    requires ex.fieldErrors == [FieldError("email", Some("must be a well-formed email"), Some("bad@"))]
    ensures ProblemDetailFor(ex, path, now).Ok?
    ensures ProblemDetailFor(ex, path, now).value.status == 400
    ensures ProblemDetailFor(ex, path, now).value.errors
              == Some([ErrorEntry("email", "must be a well-formed email", "bad@")])
  {
    var entries := ErrorEntries(ex.fieldErrors);
    assert entries.Ok?;
    assert entries.value[0] == ErrorEntry("email", "must be a well-formed email", "bad@");
    assert entries.value == [ErrorEntry("email", "must be a well-formed email", "bad@")];
  }

  /** The exchange's response as the handler sees it. */
  class ExchangeResponse {
    /** Every status the response was given, in order. */
    var statuses: seq<nat>
    var body: Option<ProblemDetail>
    var completed: bool

    constructor ()
      ensures statuses == [] && body.None? && !completed
    {
      statuses := [];
      body := None;
      completed := false;
    }

    /**
     * handle. The status is set and the body written; when the write fails
     * (`writeFails`) the status is set again to 500 and the response is
     * completed without a body. A failure while building the body is thrown
     * to the caller before anything is written.
     */
    method Handle(ex: Exception, path: string, now: string, writeFails: bool) returns (r: Result<nat>)
      modifies this
      ensures ProblemDetailFor(ex, path, now).Err? ==>
                r == Err(ProblemDetailFor(ex, path, now).failure)
                && statuses == old(statuses) && body == old(body) && completed == old(completed)
      ensures ProblemDetailFor(ex, path, now).Ok? && !writeFails ==>
                r == Ok(MapStatus(ex)) && statuses == old(statuses) + [MapStatus(ex)]
                && body == Some(ProblemDetailFor(ex, path, now).value) && completed
      ensures ProblemDetailFor(ex, path, now).Ok? && writeFails ==>
                r == Ok(500) && statuses == old(statuses) + [MapStatus(ex), 500]
                && body == old(body) && completed
    {
      var pd := ProblemDetailFor(ex, path, now);
      if pd.Err? {
        r := Err(pd.failure);
        return;
      }
      statuses := statuses + [pd.value.status];
      if writeFails {
        statuses := statuses + [500];
      } else {
        body := Some(pd.value);
      }
      completed := true;
      r := Ok(statuses[|statuses| - 1]);
    }
  }
}
