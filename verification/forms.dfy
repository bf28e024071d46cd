/**
 * What the administration forms share: the outcome of a submit, the replies
 * of the backend and how a failed reply becomes the message shown.
 */
module Forms {
  import opened Wrappers
  import Strings

  /** A submit either stops with a message or sends a payload. */
  datatype Outcome<P> = Rejected(message: string) | Send(payload: P)

  /**
   * The body of a refused request: either not JSON (the text is the parse
   * error `response.json()` throws) or a JSON object whose `detail` is "" when
   * missing or empty.
   */
  datatype ErrorBody = Unparsable(parseError: string) | Json(detail: string)

  /** The reply to a request: a result, a refusal with its status and body, or a thrown network error. */
  datatype Reply<R> = Ok(value: R) | NotOk(status: int, body: ErrorBody) | Thrown(message: string)

  /** `localStorage.getItem('token')` is falsy: `null` or "". */
  predicate MissingToken(token: Option<string>) {
    token.None? || token.value == ""
  }

  /** `detail || fallback`. */
  function DetailOr(detail: string, fallback: string): (r: string)
    ensures detail != "" ==> r == detail
    ensures detail == "" ==> r == fallback
  {
    if detail != "" then detail else fallback
  }

  /**
   * The project pages: a body that is not JSON is read as `{detail: unknown}`
   * and shows that text; an empty detail falls back to `prefix` followed by
   * the status.
   */
  function CaughtFailure(status: int, body: ErrorBody, unknown: string, prefix: string): (r: string)
    ensures body.Unparsable? ==> r == unknown
    ensures body.Json? && body.detail != "" ==> r == body.detail
    ensures body.Json? && body.detail == "" ==> r == prefix + Strings.IntToString(status)
  {
    match body
    case Unparsable(_) => unknown
    case Json(detail) => DetailOr(detail, prefix + Strings.IntToString(status))
  }

  /**
   * The user page: the parse error of a body that is not JSON escapes as the
   * message; an empty detail falls back to a fixed text.
   */
  function UncaughtFailure(body: ErrorBody, fallback: string): (r: string)
    ensures body.Unparsable? ==> r == body.parseError
    ensures body.Json? ==> r == DetailOr(body.detail, fallback)
  {
    match body
    case Unparsable(e) => e
    case Json(detail) => DetailOr(detail, fallback)
  }
}
