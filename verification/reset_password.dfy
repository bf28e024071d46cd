/**
 * The password reset page (src/ResetPassword.js): the reset token comes from
 * the link, the form is checked in a fixed order before the request, and the
 * reply or the thrown error becomes the message shown.
 */
module ResetPassword {
  import opened Wrappers
  import Strings
  import Forms

  const InvalidLinkError := "Invalid password reset link. No token provided."
  const MismatchError := "Passwords do not match."
  const MissingTokenError := "Missing reset token."
  const TooShortError := "Password must be at least 8 characters long."
  const NetworkErrorText := "Network error."
  const DefaultFailure := "Failed to reset password. The link may be invalid or expired."
  const DefaultSuccess := "Password reset successfully!"
  const MinLength := 8

  /** The reply body: not JSON (the parse error's text), or its `message` and `detail` ("" when missing). */
  datatype ResetBody = NotJson(parseError: string) | Json(message: string, detail: string)

  /** The reply to the reset request, or the text of the error `fetch` throws. */
  datatype ResetReply = Answer(ok: bool, status: int, body: ResetBody) | FetchFailed(message: string)

  /**
   * The error shown for a thrown error: a message mentioning
   * "Failed to fetch" is a network error, an empty one the default text.
   */
  function ErrorText(message: string): (r: string)
    ensures r != ""
    ensures Strings.Contains(message, "Failed to fetch") ==> r == NetworkErrorText
    ensures !Strings.Contains(message, "Failed to fetch") && message != "" ==> r == message
    ensures message == "" ==> r == DefaultFailure
  {
    if Strings.Contains(message, "Failed to fetch") then NetworkErrorText
    else Forms.DetailOr(message, DefaultFailure)
  }

  /** The message of the error a reply ends in, or `None` when the reset succeeded. */
  function Thrown(reply: ResetReply): (r: Option<string>)
    ensures reply.FetchFailed? ==> r == Some(reply.message)
    ensures reply.Answer? && reply.body.NotJson? ==> r == Some(reply.body.parseError)
    ensures reply.Answer? && reply.body.Json? ==> (r.None? <==> reply.ok)
    ensures reply.Answer? && reply.body.Json? && !reply.ok ==>
      r == Some(Forms.DetailOr(reply.body.detail, "HTTP error! status: " + Strings.IntToString(reply.status)))
  {
    match reply
    case FetchFailed(message) => Some(message)
    case Answer(ok, status, body) =>
      match body
      case NotJson(parseError) => Some(parseError)
      case Json(_, detail) =>
        if ok then None else Some(Forms.DetailOr(detail, "HTTP error! status: " + Strings.IntToString(status)))
  }

  class ResetPasswordPage {
    /** The token of the reset link; "" when the link has none. */
    const token: string
    var password: string
    var confirmPassword: string
    var message: string
    var error: string

    constructor (token: string)
      ensures this.token == token
      ensures password == "" && confirmPassword == "" && message == ""
      ensures error == (if token == "" then InvalidLinkError else "")
    {
      this.token := token;
      password := "";
      confirmPassword := "";
      message := "";
      error := if token == "" then InvalidLinkError else "";
    }

    /**
     * `handleSubmit`: differing passwords are refused first, then a missing
     * token, then a password shorter than eight characters; otherwise the
     * message and error are cleared and the request is sent. A success
     * clears both fields and shows the reply's message (or a default); a
     * failure shows its error.
     */
    method Submit(reply: ResetReply) returns (sent: bool)
      modifies this
      ensures sent <==> old(password) == old(confirmPassword) && token != "" && |old(password)| >= MinLength
      ensures old(password) != old(confirmPassword) ==> error == MismatchError
      ensures old(password) == old(confirmPassword) && token == "" ==> error == MissingTokenError
      ensures old(password) == old(confirmPassword) && token != "" && |old(password)| < MinLength ==> error == TooShortError
      ensures !sent ==> password == old(password) && confirmPassword == old(confirmPassword) && message == old(message)
      ensures sent && Thrown(reply).None? ==>
        password == "" && confirmPassword == "" && error == ""
        && message == Forms.DetailOr(reply.body.message, DefaultSuccess)
      ensures sent && Thrown(reply).Some? ==>
        error == ErrorText(Thrown(reply).value) && message == ""
        && password == old(password) && confirmPassword == old(confirmPassword)
    {
      sent := false;
      if password != confirmPassword {
        error := MismatchError;
        return;
      }
      if token == "" {
        error := MissingTokenError;
        return;
      }
      if |password| < MinLength {
        error := TooShortError;
        return;
      }
      sent := true;
      message := "";
      error := "";
      var thrown := Thrown(reply);
      if thrown.None? {
        message := Forms.DetailOr(reply.body.message, DefaultSuccess);
        password := "";
        confirmPassword := "";
      } else {
        error := ErrorText(thrown.value);
      }
    }
  }
}
