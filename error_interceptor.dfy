/**
 * The client's HTTP error interceptor: it turns a failed response into one
 * user-facing message and rethrows the error with that message attached.
 * A server body is read the way RFC 7807 (section 3.1) lays out Problem
 * Details: `title`, then a non-standard `message`, then `detail`.
 */
module ErrorInterceptor {
  import opened Wrappers

  /** What `error.error` holds. */
  datatype ErrorBody =
    | ClientEvent(eventMessage: string)
    | ObjectBody(title: Option<string>, message: Option<string>, detail: Option<string>)
    | NotAnObject

  datatype HttpError = HttpError(status: int, body: ErrorBody, message: Option<string>)

  /** The error as rethrown: every field of the original plus `userMessage`. */
  datatype NormalizedError = NormalizedError(original: HttpError, userMessage: string)

  const DefaultMessage: string := "An unexpected error occurred"
  const InvalidRequestMessage: string := "Invalid request"
  const UnauthorizedMessage: string := "Unauthorized access"
  const ForbiddenMessage: string := "Access forbidden"
  const NotFoundMessage: string := "Resource not found"
  const ServerErrorMessage: string := "Server error. Please try again later"

  predicate Truthy(s: Option<string>) {
    s.Some? && s.value != ""
  }

  /** The message taken from a server-side error before the status is looked at. */
  function BodyMessage(e: HttpError): string
    requires !e.body.ClientEvent?
  {
    match e.body
    case ObjectBody(title, message, detail) =>
      if Truthy(title) then title.value
      else if Truthy(message) then message.value
      else if Truthy(detail) then detail.value
      else DefaultMessage
    case NotAnObject =>
      if Truthy(e.message) then e.message.value else DefaultMessage
  }

  /** The status switch: four statuses get a fixed text, 400 falls back only on an empty message. */
  function StatusMessage(status: int, derived: string): string {
    if status == 400 then (if derived != "" then derived else InvalidRequestMessage)
    else if status == 401 then UnauthorizedMessage
    else if status == 403 then ForbiddenMessage
    else if status == 404 then NotFoundMessage
    else if status == 500 then ServerErrorMessage
    else derived
  }

  function UserMessage(e: HttpError): string {
    match e.body
    case ClientEvent(m) => "Error: " + m
    case _ => StatusMessage(e.status, BodyMessage(e))
  }

  /** What the interceptor rethrows: the original error, untouched, with a non-empty message. */
  function Rethrown(e: HttpError): (r: NormalizedError)
    ensures r.original == e
    ensures r.userMessage != ""
  {
    UserMessageNonEmpty(e);
    NormalizedError(e, UserMessage(e))
  }

  predicate FixedStatus(status: int) {
    status == 401 || status == 403 || status == 404 || status == 500
  }

  /** The message is never empty. */
  lemma UserMessageNonEmpty(e: HttpError)
    ensures UserMessage(e) != ""
  {
    if !e.body.ClientEvent? {
      assert BodyMessage(e) != "";
    }
  }

  /** A client-side event gives "Error: " and its text whatever the status. */
  lemma ClientEventIgnoresStatus(e: HttpError, m: string)
    requires e.body == ClientEvent(m)
    ensures UserMessage(e) == "Error: " + m
    ensures forall s :: UserMessage(e.(status := s)) == "Error: " + m
  {
  }

  /** 401, 403, 404 and 500 give their fixed text whatever the body says. */
  lemma FixedStatusesOverride(e: HttpError)
    requires !e.body.ClientEvent? && FixedStatus(e.status)
    ensures e.status == 401 ==> UserMessage(e) == UnauthorizedMessage
    ensures e.status == 403 ==> UserMessage(e) == ForbiddenMessage
    ensures e.status == 404 ==> UserMessage(e) == NotFoundMessage
    ensures e.status == 500 ==> UserMessage(e) == ServerErrorMessage
  {
  }

  /**
   * Every other status, 400 included, keeps the message read from the body:
   * the "Invalid request" fallback is never reached.
   */
  lemma OtherStatusesKeepBodyMessage(e: HttpError)
    requires !e.body.ClientEvent? && !FixedStatus(e.status)
    ensures UserMessage(e) == BodyMessage(e)
    ensures UserMessage(e.(status := 400)) == UserMessage(e)
  {
    assert BodyMessage(e) != "";
    assert BodyMessage(e.(status := 400)) == BodyMessage(e);
  }

  /** `title` wins over `message`, which wins over `detail`; with none of them the default stays. */
  lemma BodyPrecedence(e: HttpError, title: Option<string>, message: Option<string>, detail: Option<string>)
    requires e.body == ObjectBody(title, message, detail)
    ensures Truthy(title) ==> BodyMessage(e) == title.value
    ensures !Truthy(title) && Truthy(message) ==> BodyMessage(e) == message.value
    ensures !Truthy(title) && !Truthy(message) && Truthy(detail) ==> BodyMessage(e) == detail.value
    ensures !Truthy(title) && !Truthy(message) && !Truthy(detail) ==> BodyMessage(e) == DefaultMessage
    ensures BodyMessage(e) == BodyMessage(e.(message := None))
  {
  }
}
