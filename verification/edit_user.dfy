/**
 * The user edit page (src/admin_pages/EditUserFormPage.js): the form is
 * loaded from the user record, a submit sends only the fields that differ
 * from the baseline record and merges them into it on success, and the
 * status toggle and the deletion ask for confirmation first.
 */
module EditUser {
  import opened Wrappers
  import JsValues
  import Forms

  /** A user as the server returns it; a missing or `null` email is `None`. */
  datatype UserRecord = UserRecord(username: string, email: Option<string>, role: string, isActive: JsValues.Flag)

  /** The update payload: each of `username`, `email` and `role` when it changed. */
  datatype UserPatch = UserPatch(username: Option<string>, email: Option<string>, role: Option<string>)

  predicate NoChanges(p: UserPatch) {
    p.username.None? && p.email.None? && p.role.None?
  }

  /** `field !== recorded` for a text field whose recorded value may be `null`. */
  predicate TextDiffers(field: string, recorded: Option<string>) {
    recorded != Some(field)
  }

  /** A field of the payload: the form's value when it differs from the record. */
  function IfChanged(field: string, recorded: Option<string>): (r: Option<string>)
    ensures r.Some? <==> TextDiffers(field, recorded)
    ensures r.Some? ==> r.value == field
  {
    if TextDiffers(field, recorded) then Some(field) else None
  }

  /** The payload the form gives against a record. */
  function Diff(username: string, email: string, role: string, record: UserRecord): UserPatch {
    UserPatch(IfChanged(username, Some(record.username)), IfChanged(email, record.email), IfChanged(role, Some(record.role)))
  }

  /**
   * `handleSubmit` building `updatedUserData`: a field enters the payload
   * exactly when it differs from the record, and then with the form's value.
   */
  method BuildPatch(username: string, email: string, role: string, record: UserRecord) returns (p: UserPatch)
    ensures p == Diff(username, email, role, record)
    ensures p.username.Some? <==> username != record.username
    ensures p.email.Some? <==> record.email != Some(email)
    ensures p.role.Some? <==> role != record.role
    ensures p.username.Some? ==> p.username.value == username
    ensures p.email.Some? ==> p.email.value == email
    ensures p.role.Some? ==> p.role.value == role
  {
    p := UserPatch(None, None, None);
    if username != record.username {
      p := p.(username := Some(username));
    }
    if record.email != Some(email) {
      p := p.(email := Some(email));
    }
    if role != record.role {
      p := p.(role := Some(role));
    }
  }

  /** `{...prev, ...updatedUserData}`: the payload's fields override, every other field stays. */
  function Merged(record: UserRecord, p: UserPatch): (r: UserRecord)
    ensures r.username == p.username.GetOr(record.username)
    ensures r.email == (if p.email.Some? then p.email else record.email)
    ensures r.role == p.role.GetOr(record.role)
    ensures r.isActive == record.isActive
  {
    UserRecord(p.username.GetOr(record.username), if p.email.Some? then p.email else record.email,
               p.role.GetOr(record.role), record.isActive)
  }

  /** After the merge the same form has no changes left to send. */
  lemma MergedHasNoChanges(username: string, email: string, role: string, record: UserRecord)
    ensures NoChanges(Diff(username, email, role, Merged(record, Diff(username, email, role, record))))
  {
  }

  /** The form as loaded from a record: a missing email becomes "". */
  function LoadedEmail(record: UserRecord): (r: string)
    ensures record.email.Some? ==> r == record.email.value
    ensures record.email.None? ==> r == ""
  {
    record.email.GetOr("")
  }

  /** A freshly loaded form sends nothing, except `email` when the record has none. */
  lemma UntouchedForm(record: UserRecord)
    ensures var p := Diff(record.username, LoadedEmail(record), record.role, record);
      p.username.None? && p.role.None? && (p.email.Some? <==> record.email.None?)
      && (p.email.Some? ==> p.email.value == "")
  {
  }

  /** `initialData.is_active ? "deactivate" : "activate"`. */
  function ActionWord(isActive: JsValues.Flag): (r: string)
    ensures r == "deactivate" <==> JsValues.Truthy(isActive)
    ensures r == "activate" <==> !JsValues.Truthy(isActive)
  {
    if JsValues.Truthy(isActive) then "deactivate" else "activate"
  }

  /** The status the toggle sends: the opposite of the recorded one. */
  function ToggledStatus(isActive: JsValues.Flag): (r: bool)
    ensures r <==> !JsValues.Truthy(isActive)
    ensures r <==> ActionWord(isActive) == "activate"
  {
    !JsValues.Truthy(isActive)
  }

  /** Toggling twice (each confirmed and accepted) brings a boolean status back. */
  lemma ToggleTwice(b: bool)
    ensures ToggledStatus(JsValues.Bool(ToggledStatus(JsValues.Bool(b)))) == b
  {
  }

  const MissingIdError := "ID do usuário não fornecido na URL."
  const NoChangesError := "Nenhuma alteração foi feita."
  const UnknownError := "Erro desconhecido."
  const LoadFailurePrefix := "Erro "
  const UpdateFailure := "Falha ao atualizar o usuário."
  const UpdatedMessage := "Usuário atualizado com sucesso!"
  const DeleteFailure := "Failed to delete the user."

  function ToggleFailure(action: string): string {
    "Failed to " + action + " the user."
  }

  function ToggledMessage(action: string): string {
    "Usuário " + (if action == "activate" then "ativado" else "desativado") + " com sucesso!"
  }

  /** What a confirmed deletion leads to. */
  datatype DeleteResult = NotAsked | Declined | Deleted | DeleteFailed(message: string)

  class EditUserPage {
    var username: string
    var email: string
    var role: string
    /** `initialData`: the record the form is compared with, once loaded. */
    var baseline: Option<UserRecord>
    var error: Option<string>
    var success: string

    constructor ()
      ensures username == "" && email == "" && role == "" && baseline == None && error == None && success == ""
    {
      username := "";
      email := "";
      role := "";
      baseline := None;
      error := None;
      success := "";
    }

    /**
     * `fetchUserData`: without a user id the page shows an error; a record
     * fills the form (a missing email as "") and becomes the baseline; a
     * failure shows its message.
     */
    method Load(userId: string, reply: Forms.Reply<UserRecord>)
      modifies this
      ensures success == old(success)
      ensures userId == "" ==> error == Some(MissingIdError)
      ensures userId != "" && reply.Ok? ==>
        baseline == Some(reply.value) && error == old(error)
        && username == reply.value.username && email == LoadedEmail(reply.value) && role == reply.value.role
      ensures userId != "" && reply.NotOk? ==>
        error == Some(Forms.CaughtFailure(reply.status, reply.body, UnknownError, LoadFailurePrefix))
      ensures userId != "" && reply.Thrown? ==> error == Some(reply.message)
      ensures !(userId != "" && reply.Ok?) ==>
        baseline == old(baseline) && username == old(username) && email == old(email) && role == old(role)
    {
      if userId == "" {
        error := Some(MissingIdError);
        return;
      }
      match reply
      case Ok(record) =>
        username := record.username;
        email := LoadedEmail(record);
        role := record.role;
        baseline := Some(record);
      case NotOk(status, body) =>
        error := Some(Forms.CaughtFailure(status, body, UnknownError, LoadFailurePrefix));
      case Thrown(message) =>
        error := Some(message);
    }

    /** `handleSubmit` up to the request: a form with no changes is refused, otherwise the payload is sent. */
    method Submit() returns (outcome: Forms.Outcome<UserPatch>)
      requires baseline.Some?
      modifies this
      ensures username == old(username) && email == old(email) && role == old(role) && baseline == old(baseline)
      ensures success == ""
      ensures var p := Diff(username, email, role, baseline.value);
        outcome == if NoChanges(p) then Forms.Rejected(NoChangesError) else Forms.Send(p)
      ensures outcome.Rejected? ==> error == Some(NoChangesError)
      ensures outcome.Send? ==> error == None
    {
      error := None;
      success := "";
      var p := BuildPatch(username, email, role, baseline.value);
      if NoChanges(p) {
        error := Some(NoChangesError);
        return Forms.Rejected(NoChangesError);
      }
      outcome := Forms.Send(p);
    }

    /** The reply to the update: the sent fields are merged into the baseline, or the failure is shown. */
    method Updated(sent: UserPatch, reply: Forms.Reply<()>)
      requires baseline.Some?
      modifies this
      ensures username == old(username) && email == old(email) && role == old(role)
      ensures reply.Ok? ==> baseline == Some(Merged(old(baseline).value, sent)) && success == UpdatedMessage && error == old(error)
      ensures reply.NotOk? ==> error == Some(Forms.UncaughtFailure(reply.body, UpdateFailure))
      ensures reply.Thrown? ==> error == Some(reply.message)
      ensures !reply.Ok? ==> baseline == old(baseline) && success == old(success)
    {
      match reply
      case Ok(_) =>
        success := UpdatedMessage;
        baseline := Some(Merged(baseline.value, sent));
      case NotOk(_, body) =>
        error := Some(Forms.UncaughtFailure(body, UpdateFailure));
      case Thrown(message) =>
        error := Some(message);
    }

    /**
     * `handleToggleStatus`: nothing without a loaded record or without
     * confirmation; otherwise the opposite status is sent, and on success
     * only the baseline's status flips.
     */
    method ToggleStatus(confirmed: bool, reply: Forms.Reply<()>) returns (sent: Option<bool>)
      modifies this
      ensures username == old(username) && email == old(email) && role == old(role)
      ensures sent.Some? <==> old(baseline).Some? && confirmed
      ensures sent.Some? ==> sent.value == ToggledStatus(old(baseline).value.isActive)
      ensures sent.Some? && reply.Ok? ==>
        baseline == Some(old(baseline).value.(isActive := JsValues.Bool(sent.value)))
        && success == ToggledMessage(ActionWord(old(baseline).value.isActive)) && error == old(error)
      ensures sent.Some? && reply.NotOk? ==>
        error == Some(Forms.UncaughtFailure(reply.body, ToggleFailure(ActionWord(old(baseline).value.isActive))))
      ensures sent.Some? && reply.Thrown? ==> error == Some(reply.message)
      ensures !(sent.Some? && reply.Ok?) ==> baseline == old(baseline) && success == old(success)
      ensures sent.None? ==> error == old(error)
    {
      sent := None;
      if baseline.None? || !confirmed {
        return;
      }
      var record := baseline.value;
      var action := ActionWord(record.isActive);
      sent := Some(ToggledStatus(record.isActive));
      match reply
      case Ok(_) =>
        baseline := Some(record.(isActive := JsValues.Bool(!JsValues.Truthy(record.isActive))));
        success := ToggledMessage(action);
      case NotOk(_, body) =>
        error := Some(Forms.UncaughtFailure(body, ToggleFailure(action)));
      case Thrown(message) =>
        error := Some(message);
    }

    /**
     * `handleDeleteUser`: nothing without a loaded record or without
     * confirmation; otherwise the deletion is requested and a failure is
     * shown. The form is never changed.
     */
    method Delete(confirmed: bool, reply: Forms.Reply<()>) returns (result: DeleteResult)
      modifies this
      ensures username == old(username) && email == old(email) && role == old(role)
      ensures baseline == old(baseline) && success == old(success)
      ensures old(baseline).None? <==> result == NotAsked
      ensures old(baseline).Some? && !confirmed <==> result == Declined
      ensures result == Deleted <==> old(baseline).Some? && confirmed && reply.Ok?
      ensures result.DeleteFailed? ==>
        (reply.NotOk? ==> result.message == Forms.UncaughtFailure(reply.body, DeleteFailure))
        && (reply.Thrown? ==> result.message == reply.message)
      ensures result.DeleteFailed? ==> error == Some(result.message)
      ensures !result.DeleteFailed? ==> error == old(error)
    {
      if baseline.None? {
        return NotAsked;
      }
      if !confirmed {
        return Declined;
      }
      match reply
      case Ok(_) =>
        result := Deleted;
      case NotOk(_, body) =>
        result := DeleteFailed(Forms.UncaughtFailure(body, DeleteFailure));
        error := Some(result.message);
      case Thrown(message) =>
        result := DeleteFailed(message);
        error := Some(message);
    }
  }
}
