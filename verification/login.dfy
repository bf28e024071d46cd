/**
 * The login page (src/Login.js): the form check, the routing decided by the
 * status of the token request and the user's flags, the failed-attempt
 * counter with its write to storage, and the captcha and button rules.
 */
module Login {
  import opened Wrappers
  import JsValues
  import Storage
  import Credentials
  import Forms
  import Strings

  /** The user record's flags that decide where a successful login goes. */
  datatype UserFlags = UserFlags(isFirstLogin: JsValues.Flag, is2faActive: JsValues.Flag)

  /**
   * The replies of the token request (status and body) and of the user
   * request (whether it succeeded, and its body, `None` when not JSON); or
   * a network error before they answered.
   */
  datatype Replies = Replies(status: int, tokenBody: Credentials.TokenBody, userOk: bool, user: Option<UserFlags>)
                   | NetworkError

  /** `response.ok`. */
  predicate IsOk(status: int) {
    200 <= status <= 299
  }

  const ExpiredStatus := 403
  const BlockedStatus := 429
  const ChangePasswordPath := "/change-password"
  const SetupPath := "/2fa-setup"
  const HomePath := "/home"
  const OtpPath := "/otp-verification"

  /**
   * Where a successful login goes: a first login to the two-factor setup
   * whatever its two-factor flag, then a user without two-factor
   * authentication home, and everyone else (a missing flag included) to the
   * one-time-password check.
   */
  function RouteAfterLogin(user: UserFlags): (r: string)
    ensures user.isFirstLogin == JsValues.Bool(true) ==> r == SetupPath
    ensures user.isFirstLogin != JsValues.Bool(true) && user.is2faActive == JsValues.Bool(false) ==> r == HomePath
    ensures user.isFirstLogin != JsValues.Bool(true) && user.is2faActive != JsValues.Bool(false) ==> r == OtpPath
    ensures r == SetupPath || r == HomePath || r == OtpPath
  {
    if user.isFirstLogin == JsValues.Bool(true) then SetupPath
    else if user.is2faActive == JsValues.Bool(false) then HomePath
    else OtpPath
  }

  class LoginPage {
    const storage: Storage.LocalStorage
    var username: string
    var password: string
    var error: string
    var attempts: nat
    var captchaDone: bool

    /** The page opens with the count stored by earlier failures. */
    constructor (storage: Storage.LocalStorage)
      ensures this.storage == storage
      ensures attempts == Credentials.StoredAttempts(storage.GetItem(Storage.AttemptsKey))
      ensures username == "" && password == "" && error == "" && !captchaDone
    {
      this.storage := storage;
      username := "";
      password := "";
      error := "";
      attempts := Credentials.StoredAttempts(storage.GetItem(Storage.AttemptsKey));
      captchaDone := false;
    }

    /** The captcha is rendered from three attempts on. */
    predicate CaptchaVisible()
      reads this
    {
      Credentials.CaptchaShown(attempts)
    }

    /** `{!captchaDone && loginAttempts <= 2 && …}{captchaDone && …}`. */
    predicate ButtonVisible()
      reads this
    {
      Credentials.ButtonShown(captchaDone, attempts)
    }

    /** The captcha's `onChange`: done exactly when it hands over a non-empty value. */
    method CaptchaChanged(value: Option<string>)
      modifies this
      ensures captchaDone <==> !Credentials.Blank(value)
      ensures username == old(username) && password == old(password) && error == old(error) && attempts == old(attempts)
    {
      captchaDone := !Credentials.Blank(value);
    }

    /**
     * `handleSubmit`. An empty field is refused before any request. A 403
     * stores the username and redirects to the password change page, and is
     * then handled as a failure. A success of both requests stores the
     * token, resets the stored count to "0", stores the username and routes
     * by the user's flags. A failure shows the reply's detail, raises the
     * count by one and stores the count from before; from three attempts on
     * it also resets the captcha. A 429 is logged as a blocked login.
     */
    method Submit(replies: Replies) returns (sent: bool, redirect: Option<string>, blockLogged: bool)
      modifies this, storage
      ensures username == old(username) && password == old(password)
      ensures sent <==> username != "" && password != ""
      ensures !sent ==> error == Credentials.RequiredError && redirect.None? && !blockLogged
      ensures !sent || replies.NetworkError? ==> storage.items == old(storage.items) && attempts == old(attempts)
      ensures sent && replies.NetworkError? ==> error == Credentials.GenericError && redirect.None?
      ensures blockLogged <==> sent && replies.Replies? && replies.status == BlockedStatus
      ensures sent && replies.Replies? && replies.status == ExpiredStatus ==> redirect == Some(ChangePasswordPath)
      ensures sent && replies.Replies? && IsOk(replies.status) && replies.userOk
              && replies.tokenBody.TokenJson? && replies.user.Some? ==>
        redirect == Some(RouteAfterLogin(replies.user.value)) && error == ""
        && storage.items == old(storage.items)[Storage.TokenKey := Credentials.StoredToken(replies.tokenBody.accessToken)]
                                             [Storage.AttemptsKey := "0"][Storage.UsernameKey := username]
        && attempts == old(attempts)
      ensures sent && replies.Replies? && !(IsOk(replies.status) && replies.userOk) && replies.tokenBody.TokenJson? ==>
        error == Forms.DetailOr(replies.tokenBody.detail, Credentials.AuthenticationFailed)
        && attempts == old(attempts) + 1
        && (Credentials.CaptchaShown(old(attempts)) ==> !captchaDone)
        && (!Credentials.CaptchaShown(old(attempts)) ==> captchaDone == old(captchaDone))
        && storage.items == (if replies.status == ExpiredStatus
                             then old(storage.items)[Storage.UsernameKey := username]
                             else old(storage.items))[Storage.AttemptsKey := Credentials.AttemptsText(old(attempts))]
      ensures sent && replies.Replies? && replies.tokenBody.NotJson? ==>
        error == Credentials.GenericError && attempts == old(attempts) && captchaDone == old(captchaDone)
        && storage.items == (if replies.status == ExpiredStatus
                             then old(storage.items)[Storage.UsernameKey := username]
                             else old(storage.items))
      ensures sent && replies.Replies? && IsOk(replies.status) && replies.userOk
              && replies.tokenBody.TokenJson? && replies.user.None? ==>
        error == Credentials.GenericError && redirect.None? && attempts == old(attempts)
        && storage.items == old(storage.items)[Storage.TokenKey := Credentials.StoredToken(replies.tokenBody.accessToken)]
      ensures redirect.Some? ==>
        sent && replies.Replies? && (replies.status == ExpiredStatus || (IsOk(replies.status) && replies.userOk))
      ensures redirect.Some? ==>
        (replies.status == ExpiredStatus && redirect == Some(ChangePasswordPath))
        || (IsOk(replies.status) && replies.userOk && replies.tokenBody.TokenJson? && replies.user.Some?)
      ensures !(sent && replies.Replies? && !(IsOk(replies.status) && replies.userOk) && replies.tokenBody.TokenJson?) ==>
        captchaDone == old(captchaDone)
    {
      sent := false;
      redirect := None;
      blockLogged := false;
      if username == "" || password == "" {
        error := Credentials.RequiredError;
        return;
      }
      error := "";
      sent := true;
      match replies
      case NetworkError =>
        error := Credentials.GenericError;
      case Replies(status, tokenBody, userOk, user) =>
        if status == ExpiredStatus {
          storage.SetItem(Storage.UsernameKey, username);
          redirect := Some(ChangePasswordPath);
        }
        if status == BlockedStatus {
          blockLogged := true;
        }
        if IsOk(status) && userOk {
          match tokenBody
          case NotJson =>
            error := Credentials.GenericError;
          case TokenJson(accessToken, _) =>
            storage.SetItem(Storage.TokenKey, Credentials.StoredToken(accessToken));
            match user
            case None =>
              error := Credentials.GenericError;
            case Some(flags) =>
              storage.SetItem(Storage.AttemptsKey, "0");
              storage.SetItem(Storage.UsernameKey, username);
              redirect := Some(RouteAfterLogin(flags));
        } else {
          match tokenBody
          case NotJson =>
            error := Credentials.GenericError;
          case TokenJson(_, detail) =>
            error := Forms.DetailOr(detail, Credentials.AuthenticationFailed);
            var before := attempts;
            attempts := attempts + 1;
            storage.SetItem(Storage.AttemptsKey, Credentials.AttemptsText(before));
            // `CaptchaShown(before)` stands for `recaptchaRef.current`: the captcha is mounted exactly from three attempts on.
            if before >= 2 && Credentials.CaptchaShown(before) {
              captchaDone := false;
            }
        }
    }
  }

  /** The attempt count a page opened on `stored` starts from. */
  function StoredCount(stored: map<string, string>): nat {
    Credentials.StoredAttempts(if Storage.AttemptsKey in stored then Some(stored[Storage.AttemptsKey]) else None)
  }

  /**
   * One failed submission seen across two visits. The page opens on
   * `stored`, the captcha is solved when it is shown and `solveCaptcha`
   * holds, the submission fails, and the page is opened again on what is
   * left in storage. The count went up by one, yet the reopened page reads
   * the count from before the failure. From the third failure on the
   * captcha is shown and a solved captcha is reset, so the button waits for
   * it again.
   */
  method FailureThenReopen(stored: map<string, string>, username: string, password: string,
                           solveCaptcha: bool, replies: Replies)
    returns (before: nat, after: nat, reopened: nat, buttonBefore: bool, captchaShown: bool, buttonShown: bool)
    requires username != "" && password != ""
    requires replies.Replies? && !(IsOk(replies.status) && replies.userOk) && replies.tokenBody.TokenJson?
    ensures before == StoredCount(stored)
    ensures buttonBefore <==> before <= 2 || solveCaptcha
    ensures after == before + 1
    ensures reopened == before
    ensures captchaShown <==> after >= 3
    ensures buttonShown <==> !captchaShown
  {
    var storage := new Storage.LocalStorage(stored);
    var page := new LoginPage(storage);
    page.username := username;
    page.password := password;
    before := page.attempts;
    if page.CaptchaVisible() && solveCaptcha {
      page.CaptchaChanged(Some("solved"));
    }
    buttonBefore := page.ButtonVisible();
    var _, _, _ := page.Submit(replies);
    after := page.attempts;
    captchaShown := page.CaptchaVisible();
    buttonShown := page.ButtonVisible();
    var again := new LoginPage(storage);
    reopened := again.attempts;
  }

  /**
   * A successful submission seen across two visits: the page opened again
   * on what is left in storage starts from zero attempts, whatever count it
   * started from before, and holds the new token. A reply without a token
   * leaves the text "undefined", which later pages take for a signed-in user.
   */
  method SuccessThenReopen(stored: map<string, string>, username: string, password: string, replies: Replies)
    returns (before: nat, reopened: nat, token: Option<string>)
    requires username != "" && password != ""
    requires replies.Replies? && IsOk(replies.status) && replies.userOk
             && replies.tokenBody.TokenJson? && replies.user.Some?
    ensures before == StoredCount(stored)
    ensures reopened == 0
    ensures token == Some(Credentials.StoredToken(replies.tokenBody.accessToken))
    ensures replies.tokenBody.accessToken.None? ==> !Forms.MissingToken(token)
  {
    var storage := new Storage.LocalStorage(stored);
    var page := new LoginPage(storage);
    page.username := username;
    page.password := password;
    before := page.attempts;
    var _, _, _ := page.Submit(replies);
    assert Strings.DigitsValue("0") == Strings.DigitsValue("0"[..0]) * 10 + ('0' as int - '0' as int);
    var again := new LoginPage(storage);
    reopened := again.attempts;
    token := storage.GetItem(Storage.TokenKey);
  }
}
