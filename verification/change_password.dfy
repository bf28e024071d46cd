/**
 * The password change page (src/ChangePassword.js): the five strength flags
 * recomputed on every change of the new password, the button they gate, and
 * a submit that checks the form, sends the two requests and counts failures.
 */
module ChangePassword {
  import opened Wrappers
  import Storage
  import Credentials
  import Forms

  const MismatchError := "New passwords don't match"

  /**
   * The two replies: the credential check at `/token/change-password` (its
   * status and body) and the password update (its status); or a network
   * error before either answered.
   */
  datatype Replies = Replies(tokenOk: bool, tokenBody: Credentials.TokenBody, updateOk: bool) | NetworkError

  class ChangePasswordPage {
    const storage: Storage.LocalStorage
    /** The user, as read from storage when the page opened. */
    var username: Option<string>
    var password: string
    var newPassword: string
    var confirmNewPassword: string
    var error: string
    var attempts: nat
    var strength: Credentials.Strength

    constructor (storage: Storage.LocalStorage)
      ensures this.storage == storage
      ensures username == storage.GetItem(Storage.UsernameKey)
      ensures password == "" && newPassword == "" && confirmNewPassword == "" && error == "" && attempts == 0
      ensures strength == Credentials.Strength(false, false, false, false, false)
    {
      this.storage := storage;
      username := storage.GetItem(Storage.UsernameKey);
      password := "";
      newPassword := "";
      confirmNewPassword := "";
      error := "";
      attempts := 0;
      strength := Credentials.Strength(false, false, false, false, false);
    }

    /** The Change Password button is rendered exactly when all five flags hold. */
    predicate ButtonShown()
      reads this
    {
      Credentials.AllRulesHold(strength)
    }

    /**
     * `handleChange`: the new password is set and each flag is set from its
     * rule on the new value, whatever it was before.
     */
    method ChangeNewPassword(value: string)
      modifies this
      ensures newPassword == value
      ensures strength == Credentials.StrengthOf(value)
      ensures username == old(username) && password == old(password) && confirmNewPassword == old(confirmNewPassword)
      ensures error == old(error) && attempts == old(attempts)
    {
      newPassword := value;
      strength := strength.(lower := Credentials.ClassRule(value, Credentials.LowerCase));
      strength := strength.(upper := Credentials.ClassRule(value, Credentials.UpperCase));
      strength := strength.(number := Credentials.ClassRule(value, Credentials.Digit));
      strength := strength.(special := Credentials.ClassRule(value, Credentials.Special));
      strength := strength.(length := Credentials.LengthRule(value));
    }

    /**
     * `handleSubmit`: a missing username or old password is refused, then
     * differing new passwords; only then are the requests sent. When both
     * succeed the new token is stored; when either fails the error is shown,
     * the count goes up by one and storage receives the count from before.
     */
    method Submit(replies: Replies) returns (sent: bool)
      modifies this, storage
      ensures username == old(username) && password == old(password)
      ensures newPassword == old(newPassword) && confirmNewPassword == old(confirmNewPassword) && strength == old(strength)
      ensures sent <==> !Credentials.Blank(username) && password != "" && newPassword == confirmNewPassword
      ensures Credentials.Blank(username) || password == "" ==> error == Credentials.RequiredError
      ensures !Credentials.Blank(username) && password != "" && newPassword != confirmNewPassword ==> error == MismatchError
      ensures sent && replies.NetworkError? ==> error == Credentials.GenericError
      ensures sent && replies.Replies? && replies.tokenBody.NotJson? ==> error == Credentials.GenericError
      ensures sent && replies.Replies? && replies.tokenOk && replies.updateOk && replies.tokenBody.TokenJson? ==>
        storage.items == old(storage.items)[Storage.TokenKey := Credentials.StoredToken(replies.tokenBody.accessToken)] && error == ""
      ensures sent && replies.Replies? && !(replies.tokenOk && replies.updateOk) && replies.tokenBody.TokenJson? ==>
        error == Forms.DetailOr(replies.tokenBody.detail, Credentials.AuthenticationFailed)
        && attempts == old(attempts) + 1
        && storage.items == old(storage.items)[Storage.AttemptsKey := Credentials.AttemptsText(old(attempts))]
      ensures !(sent && replies.Replies? && !(replies.tokenOk && replies.updateOk) && replies.tokenBody.TokenJson?) ==>
        attempts == old(attempts)
      ensures !(sent && replies.Replies? && replies.tokenBody.TokenJson?) ==> storage.items == old(storage.items)
    {
      sent := false;
      if Credentials.Blank(username) || password == "" {
        error := Credentials.RequiredError;
        return;
      }
      error := "";
      if newPassword != confirmNewPassword {
        error := MismatchError;
        return;
      }
      sent := true;
      match replies
      case NetworkError =>
        error := Credentials.GenericError;
      case Replies(tokenOk, tokenBody, updateOk) =>
        match tokenBody
        case NotJson =>
          error := Credentials.GenericError;
        case TokenJson(accessToken, detail) =>
          if tokenOk && updateOk {
            storage.SetItem(Storage.TokenKey, Credentials.StoredToken(accessToken));
          } else {
            error := Forms.DetailOr(detail, Credentials.AuthenticationFailed);
            var before := attempts;
            attempts := attempts + 1;
            storage.SetItem(Storage.AttemptsKey, Credentials.AttemptsText(before));
          }
    }
  }
}
