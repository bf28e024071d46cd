/**
 * The project edit page (src/admin_pages/EditProjectFormPage.js): the form
 * is loaded from the project record, its interface flags are toggled, and a
 * submit sends only what differs from the record last received from the
 * server.
 */
module EditProject {
  import opened Wrappers
  import Strings
  import JsValues
  import Forms
  import Interfaces

  /** A project as the server returns it: its name and the value of each interface field. */
  datatype ProjectRecord = ProjectRecord(name: string, fields: map<string, JsValues.Flag>)

  /** The update payload: `project_name` when it changed, and each changed interface. */
  datatype ProjectPatch = ProjectPatch(name: Option<string>, flags: map<string, bool>)

  /** `Object.keys(updatedProjectData).length === 0`. */
  predicate NoChanges(p: ProjectPatch) {
    p.name.None? && p.flags == map[]
  }

  /** `interfaces[key] !== initialData[key]`: a boolean is never strictly equal to `undefined` or `null`. */
  predicate Differs(value: bool, recorded: JsValues.Flag) {
    recorded != JsValues.Bool(value)
  }

  /** The interfaces among the first `n` whose flag differs from the record, with the form's value. */
  function ChangedUpTo(interfaces: Interfaces.Flags, record: ProjectRecord, n: nat): map<string, bool>
    requires n <= |Interfaces.InterfaceKeys|
  {
    map k | k in Interfaces.KeysUpTo(n) && k in interfaces && Differs(interfaces[k], Interfaces.FlagOf(record.fields, k)) :: interfaces[k]
  }

  /** The payload the form state gives against a record. */
  function Diff(name: string, interfaces: Interfaces.Flags, record: ProjectRecord): (p: ProjectPatch)
    ensures p.name.Some? <==> name != record.name
    ensures p.name.Some? ==> p.name.value == name
    ensures forall k :: k in p.flags <==>
      k in Interfaces.KeySet() && k in interfaces && Differs(interfaces[k], Interfaces.FlagOf(record.fields, k))
    ensures forall k :: k in p.flags ==> p.flags[k] == interfaces[k]
  {
    ProjectPatch(if name != record.name then Some(name) else None,
                 ChangedUpTo(interfaces, record, |Interfaces.InterfaceKeys|))
  }

  lemma ChangedStep(interfaces: Interfaces.Flags, record: ProjectRecord, i: nat)
    requires i < |Interfaces.InterfaceKeys|
    ensures var key := Interfaces.InterfaceKeys[i];
      ChangedUpTo(interfaces, record, i + 1) ==
        if key in interfaces && Differs(interfaces[key], Interfaces.FlagOf(record.fields, key))
        then ChangedUpTo(interfaces, record, i)[key := interfaces[key]]
        else ChangedUpTo(interfaces, record, i)
  {
    Interfaces.KeysUpToStep(i);
  }

  /**
   * `handleSubmit` building `updatedProjectData`: the name when it changed,
   * then each interface in turn whose flag is not strictly equal to the
   * record's.
   */
  method BuildPatch(name: string, interfaces: Interfaces.Flags, record: ProjectRecord) returns (p: ProjectPatch)
    ensures p == Diff(name, interfaces, record)
  {
    var changedName := None;
    if name != record.name {
      changedName := Some(name);
    }
    var flags := map[];
    for i := 0 to |Interfaces.InterfaceKeys|
      invariant flags == ChangedUpTo(interfaces, record, i)
    {
      var key := Interfaces.InterfaceKeys[i];
      ChangedStep(interfaces, record, i);
      if key in interfaces && Differs(interfaces[key], Interfaces.FlagOf(record.fields, key)) {
        flags := flags[key := interfaces[key]];
      }
    }
    p := ProjectPatch(changedName, flags);
  }

  /** The record as the server returns it when it applies exactly the payload. */
  function Applied(record: ProjectRecord, p: ProjectPatch): (r: ProjectRecord)
    ensures r.name == p.name.GetOr(record.name)
    ensures forall k :: k in p.flags ==> Interfaces.FlagOf(r.fields, k) == JsValues.Bool(p.flags[k])
    ensures forall k :: k !in p.flags ==> Interfaces.FlagOf(r.fields, k) == Interfaces.FlagOf(record.fields, k)
  {
    ProjectRecord(p.name.GetOr(record.name), record.fields + map k | k in p.flags :: JsValues.Bool(p.flags[k]))
  }

  /**
   * Once the server has applied a payload and returned the result as the new
   * baseline, submitting the same form again finds no changes.
   */
  lemma ResubmitFindsNoChanges(name: string, interfaces: Interfaces.Flags, record: ProjectRecord)
    ensures NoChanges(Diff(name, interfaces, Applied(record, Diff(name, interfaces, record))))
  {
    var p := Diff(name, interfaces, record);
    var q := Diff(name, interfaces, Applied(record, p));
    if k :| k in q.flags {
      assert false;
    }
  }

  /** A freshly loaded form whose record holds a boolean for every interface has nothing to send. */
  lemma UntouchedFormHasNoChanges(record: ProjectRecord)
    requires forall k :: k in Interfaces.KeySet() ==> Interfaces.FlagOf(record.fields, k).Bool?
    ensures NoChanges(Diff(record.name, Interfaces.LoadedFlags(record.fields), record))
  {
    var q := Diff(record.name, Interfaces.LoadedFlags(record.fields), record);
    if k :| k in q.flags {
      assert false;
    }
  }

  /**
   * An interface the record leaves out (or holds as `null`) is loaded as
   * `false` and, being strictly unequal to it, is sent on every submit even
   * when untouched.
   */
  lemma UnsetInterfaceAlwaysSent(record: ProjectRecord, key: string)
    requires key in Interfaces.KeySet()
    requires !Interfaces.FlagOf(record.fields, key).Bool?
    ensures var p := Diff(record.name, Interfaces.LoadedFlags(record.fields), record);
      key in p.flags && !p.flags[key] && !NoChanges(p)
  {
  }

  const MissingIdError := "ID do projeto não fornecido na URL."
  const NotAuthenticated := "Você não está autenticado. Por favor, faça login novamente."
  const BlankNameError := "O nome do projeto não pode ser vazio."
  const NoChangesError := "Nenhuma alteração foi feita."
  const UnknownError := "Erro desconhecido."
  const LoadFailurePrefix := "Erro ao buscar projeto: "
  const UpdateFailurePrefix := "Falha ao atualizar o projeto: "

  /** `Projeto "<name>" atualizado com sucesso!`. */
  function UpdatedMessage(name: string): (r: string)
    ensures |r| == |name| + 34
    ensures r[..9] == "Projeto \"" && r[|r| - 25..] == "\" atualizado com sucesso!"
    ensures r[9..|r| - 25] == name
  {
    "Projeto \"" + name + "\" atualizado com sucesso!"
  }

  class EditProjectPage {
    var projectName: string
    var interfaces: Interfaces.Flags
    /** `initialData`: the record the form is compared with, once loaded. */
    var baseline: Option<ProjectRecord>
    var error: Option<string>
    var success: string

    /** Once a record is loaded, the form holds a flag for every interface. */
    predicate Valid()
      reads this
    {
      baseline.Some? ==> Interfaces.Complete(interfaces)
    }

    constructor ()
      ensures Valid()
      ensures projectName == "" && interfaces == map[] && baseline == None && error == None && success == ""
    {
      projectName := "";
      interfaces := map[];
      baseline := None;
      error := None;
      success := "";
    }

    /**
     * `fetchProjectData`: without a project id the page shows an error;
     * without a token it goes to the login page; a record fills the form
     * and becomes the baseline; a failure shows its message.
     */
    method Load(projectId: string, token: Option<string>, reply: Forms.Reply<ProjectRecord>) returns (toLogin: bool)
      requires Valid()
      modifies this
      ensures Valid()
      ensures success == old(success)
      ensures toLogin <==> projectId != "" && Forms.MissingToken(token)
      ensures toLogin ==> error == None
      ensures projectId == "" ==> error == Some(MissingIdError)
      ensures projectId != "" && !Forms.MissingToken(token) && reply.Ok? ==>
        error == None && baseline == Some(reply.value) && projectName == reply.value.name
        && interfaces == Interfaces.LoadedFlags(reply.value.fields)
      ensures projectId != "" && !Forms.MissingToken(token) && reply.NotOk? ==>
        error == Some(Forms.CaughtFailure(reply.status, reply.body, UnknownError, LoadFailurePrefix))
      ensures projectId != "" && !Forms.MissingToken(token) && reply.Thrown? ==> error == Some(reply.message)
      ensures !(projectId != "" && !Forms.MissingToken(token) && reply.Ok?) ==>
        baseline == old(baseline) && projectName == old(projectName) && interfaces == old(interfaces)
    {
      toLogin := false;
      if projectId == "" {
        error := Some(MissingIdError);
        return;
      }
      error := None;
      if Forms.MissingToken(token) {
        toLogin := true;
        return;
      }
      match reply
      case Ok(record) =>
        projectName := record.name;
        var loaded := Interfaces.LoadFlags(record.fields);
        Interfaces.CompleteFromKeys(loaded);
        interfaces := loaded;
        baseline := Some(record);
      case NotOk(status, body) =>
        error := Some(Forms.CaughtFailure(status, body, UnknownError, LoadFailurePrefix));
      case Thrown(message) =>
        error := Some(message);
    }

    /** The name input. */
    method SetProjectName(name: string)
      requires Valid()
      modifies this
      ensures Valid()
      ensures projectName == name
      ensures interfaces == old(interfaces) && baseline == old(baseline) && error == old(error) && success == old(success)
    {
      projectName := name;
    }

    /** `handleInterfaceChange`: one interface flips, every other flag stays. */
    method ToggleInterface(key: string)
      requires Valid()
      modifies this
      ensures Valid()
      ensures interfaces == Interfaces.Toggled(old(interfaces), key)
      ensures projectName == old(projectName) && baseline == old(baseline) && error == old(error) && success == old(success)
    {
      if baseline.Some? {
        Interfaces.ToggledComplete(interfaces, key);
      }
      interfaces := Interfaces.Toggled(interfaces, key);
    }

    /**
     * `handleSubmit` up to the request: a missing token is refused first
     * (and leads to the login page), then a blank name, then a form with no
     * changes; otherwise the payload is sent. The form itself is unchanged.
     */
    method Submit(token: Option<string>) returns (outcome: Forms.Outcome<ProjectPatch>, toLogin: bool)
      requires Valid() && baseline.Some?
      modifies this
      ensures Valid()
      ensures projectName == old(projectName) && interfaces == old(interfaces) && baseline == old(baseline)
      ensures success == ""
      ensures toLogin <==> Forms.MissingToken(token)
      ensures Forms.MissingToken(token) ==> outcome == Forms.Rejected(NotAuthenticated)
      ensures !Forms.MissingToken(token) && Strings.IsBlank(projectName) ==> outcome == Forms.Rejected(BlankNameError)
      ensures !Forms.MissingToken(token) && !Strings.IsBlank(projectName) ==>
        var p := Diff(projectName, interfaces, baseline.value);
        outcome == if NoChanges(p) then Forms.Rejected(NoChangesError) else Forms.Send(p)
      ensures outcome.Rejected? ==> error == Some(outcome.message)
      ensures outcome.Send? ==> error == None
    {
      error := None;
      success := "";
      toLogin := false;
      if Forms.MissingToken(token) {
        error := Some(NotAuthenticated);
        toLogin := true;
        return Forms.Rejected(NotAuthenticated), toLogin;
      }
      if Strings.Trim(projectName) == "" {
        error := Some(BlankNameError);
        return Forms.Rejected(BlankNameError), toLogin;
      }
      var p := BuildPatch(projectName, interfaces, baseline.value);
      if NoChanges(p) {
        error := Some(NoChangesError);
        return Forms.Rejected(NoChangesError), toLogin;
      }
      outcome := Forms.Send(p);
    }

    /**
     * The reply to the update: the returned record becomes the baseline and
     * a success message names it; a failure shows its message. The form
     * fields are left as they are.
     */
    method Updated(reply: Forms.Reply<ProjectRecord>)
      requires Valid() && baseline.Some?
      modifies this
      ensures Valid()
      ensures projectName == old(projectName) && interfaces == old(interfaces)
      ensures reply.Ok? ==> baseline == Some(reply.value) && success == UpdatedMessage(reply.value.name) && error == old(error)
      ensures reply.NotOk? ==> error == Some(Forms.CaughtFailure(reply.status, reply.body, UnknownError, UpdateFailurePrefix))
      ensures reply.Thrown? ==> error == Some(reply.message)
      ensures !reply.Ok? ==> baseline == old(baseline) && success == old(success)
    {
      match reply
      case Ok(result) =>
        success := UpdatedMessage(result.name);
        baseline := Some(result);
      case NotOk(status, body) =>
        error := Some(Forms.CaughtFailure(status, body, UnknownError, UpdateFailurePrefix));
      case Thrown(message) =>
        error := Some(message);
    }
  }
}
