/**
 * The page that turns two-factor authentication off (src/Disable2FA.js):
 * after confirmation and the form check it sends the credential check, the
 * user lookup and the disable request, and only then looks at whether the
 * credentials were accepted.
 */
module Disable2FA {
  import Storage
  import Credentials
  import Forms

  /**
   * The replies of the token request (success and body), of the user request
   * (success, and whether its body is JSON); or a network error before
   * they answered.
   */
  datatype Replies = Replies(tokenOk: bool, tokenBody: Credentials.TokenBody, userOk: bool, userJson: bool)
                   | NetworkError

  class Disable2FAPage {
    const storage: Storage.LocalStorage
    var username: string
    var password: string
    var error: string
    var attempts: nat
    var captchaDone: bool

    /** The page opens with the count stored by earlier failures. */
    constructor (storage: Storage.LocalStorage)
      ensures this.storage == storage
      ensures attempts == Credentials.StoredAttempts(storage.GetItem(Storage.AttemptsKey))
      ensures username == "" && password == "" && error == "" && !captchaDone
    {
      this.storage := storage;
      username := "";
      password := "";
      error := "";
      attempts := Credentials.StoredAttempts(storage.GetItem(Storage.AttemptsKey));
      captchaDone := false;
    }

    /** The captcha is rendered once more than two attempts are counted. */
    predicate CaptchaVisible()
      reads this
    {
      attempts > 2
    }

    predicate ButtonVisible()
      reads this
    {
      Credentials.ButtonShown(captchaDone, attempts)
    }

    /** The captcha's `onChange`: any change counts as done. */
    method CaptchaChanged()
      modifies this
      ensures captchaDone
      ensures username == old(username) && password == old(password) && error == old(error) && attempts == old(attempts)
    {
      captchaDone := true;
    }

    /**
     * `handleSubmit`. Nothing happens unless the user confirms; an empty
     * field is then refused before any request. Otherwise the disable
     * request goes out with the others, whether or not the credentials are
     * accepted. When both checks succeed the stored count is reset to "0"
     * and the user goes home; a failure shows the reply's detail, raises the
     * count by one and stores the count from before.
     */
    method Submit(confirmed: bool, replies: Replies) returns (disableSent: bool, toHome: bool)
      modifies this, storage
      ensures username == old(username) && password == old(password) && captchaDone == old(captchaDone)
      ensures !confirmed ==> error == old(error) && attempts == old(attempts) && storage.items == old(storage.items)
      ensures confirmed && (username == "" || password == "") ==>
        error == Credentials.RequiredError && attempts == old(attempts) && storage.items == old(storage.items)
      ensures toHome ==> error == ""
      ensures disableSent <==> confirmed && username != "" && password != "" && replies.Replies?
      ensures toHome <==> disableSent && replies.tokenOk && replies.userOk && replies.userJson
      ensures toHome ==> storage.items == old(storage.items)[Storage.AttemptsKey := "0"] && attempts == old(attempts)
      ensures disableSent && !(replies.tokenOk && replies.userOk) && replies.tokenBody.TokenJson? ==>
        error == Forms.DetailOr(replies.tokenBody.detail, Credentials.AuthenticationFailed)
        && attempts == old(attempts) + 1
        && storage.items == old(storage.items)[Storage.AttemptsKey := Credentials.AttemptsText(old(attempts))]
      ensures disableSent && !toHome && !(!(replies.tokenOk && replies.userOk) && replies.tokenBody.TokenJson?) ==>
        error == Credentials.GenericError && attempts == old(attempts) && storage.items == old(storage.items)
      ensures confirmed && username != "" && password != "" && replies.NetworkError? ==>
        error == Credentials.GenericError && attempts == old(attempts) && storage.items == old(storage.items)
    {
      disableSent := false;
      toHome := false;
      if !confirmed {
        return;
      }
      if username == "" || password == "" {
        error := Credentials.RequiredError;
        return;
      }
      error := "";
      match replies
      case NetworkError =>
        error := Credentials.GenericError;
      case Replies(tokenOk, tokenBody, userOk, userJson) =>
        disableSent := true;
        if tokenOk && userOk {
          if !userJson {
            error := Credentials.GenericError;
          } else {
            storage.SetItem(Storage.AttemptsKey, "0");
            toHome := true;
          }
        } else {
          match tokenBody
          case NotJson =>
            error := Credentials.GenericError;
          case TokenJson(_, detail) =>
            error := Forms.DetailOr(detail, Credentials.AuthenticationFailed);
            var before := attempts;
            attempts := attempts + 1;
            storage.SetItem(Storage.AttemptsKey, Credentials.AttemptsText(before));
        }
    }
  }
}
