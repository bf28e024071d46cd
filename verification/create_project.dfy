/**
 * The project creation page (src/admin_pages/CreateProject.js): every
 * interface starts switched off, the flags are toggled one at a time, and a
 * submit sends the name together with every flag; after a success the form
 * starts over.
 */
module CreateProject {
  import opened Wrappers
  import Strings
  import Forms
  import Interfaces

  /** The creation payload: `project_name` followed by every flag of the form. */
  datatype ProjectDraft = ProjectDraft(name: string, flags: Interfaces.Flags)

  const NotAuthenticated := "Você não está autenticado. Por favor, faça login novamente."
  const BlankNameError := "O nome do projeto não pode ser vazio."
  const UnknownError := "Erro desconhecido ou resposta não JSON."
  const CreateFailurePrefix := "Falha ao criar o projeto: "

  /** `Projeto "<name>" criado com sucesso!`. */
  function CreatedMessage(name: string): (r: string)
    ensures |r| == |name| + 30
    ensures r[..9] == "Projeto \"" && r[9..|r| - 21] == name && r[|r| - 21..] == "\" criado com sucesso!"
  {
    "Projeto \"" + name + "\" criado com sucesso!"
  }

  class CreateProjectPage {
    var projectName: string
    var interfaces: Interfaces.Flags
    var error: Option<string>
    var success: string

    /** The form holds a flag for every interface. */
    predicate Valid()
      reads this
    {
      Interfaces.Complete(interfaces)
    }

    /** The page opens with an empty name and every interface off. */
    constructor ()
      ensures Valid()
      ensures projectName == "" && error == None && success == ""
      ensures interfaces.Keys == Interfaces.KeySet() && forall k :: k in interfaces ==> !interfaces[k]
    {
      projectName := "";
      var off := Interfaces.AllOff();
      Interfaces.CompleteFromKeys(off);
      interfaces := off;
      error := None;
      success := "";
    }

    /** The name input. */
    method SetProjectName(name: string)
      requires Valid()
      modifies this
      ensures Valid()
      ensures projectName == name
      ensures interfaces == old(interfaces) && error == old(error) && success == old(success)
    {
      projectName := name;
    }

    /** `handleInterfaceChange`: one interface flips, every other flag stays. */
    method ToggleInterface(key: string)
      requires Valid()
      modifies this
      ensures Valid()
      ensures interfaces == Interfaces.Toggled(old(interfaces), key)
      ensures projectName == old(projectName) && error == old(error) && success == old(success)
    {
      Interfaces.ToggledComplete(interfaces, key);
      interfaces := Interfaces.Toggled(interfaces, key);
    }

    /**
     * `handleSubmit` up to the request: a missing token is refused first
     * (and leads to the login page), then a blank name; otherwise the name
     * and every flag are sent.
     */
    method Submit(token: Option<string>) returns (outcome: Forms.Outcome<ProjectDraft>, toLogin: bool)
      requires Valid()
      modifies this
      ensures Valid()
      ensures projectName == old(projectName) && interfaces == old(interfaces)
      ensures success == ""
      ensures toLogin <==> Forms.MissingToken(token)
      ensures Forms.MissingToken(token) ==> outcome == Forms.Rejected(NotAuthenticated)
      ensures !Forms.MissingToken(token) && Strings.IsBlank(projectName) ==> outcome == Forms.Rejected(BlankNameError)
      ensures !Forms.MissingToken(token) && !Strings.IsBlank(projectName) ==> outcome == Forms.Send(ProjectDraft(projectName, interfaces))
      ensures outcome.Rejected? ==> error == Some(outcome.message)
      ensures outcome.Send? ==> error == None
    {
      error := None;
      success := "";
      toLogin := false;
      if Forms.MissingToken(token) {
        error := Some(NotAuthenticated);
        toLogin := true;
        return Forms.Rejected(NotAuthenticated), toLogin;
      }
      if Strings.Trim(projectName) == "" {
        error := Some(BlankNameError);
        return Forms.Rejected(BlankNameError), toLogin;
      }
      outcome := Forms.Send(ProjectDraft(projectName, interfaces));
    }

    /**
     * The reply to the creation: on success a message names the created
     * project and the form starts over (empty name, every interface off); a
     * failure shows its message and keeps the form.
     */
    method Created(reply: Forms.Reply<string>)
      requires Valid()
      modifies this
      ensures Valid()
      ensures reply.Ok? ==>
        success == CreatedMessage(reply.value) && projectName == "" && error == old(error)
        && interfaces.Keys == Interfaces.KeySet() && (forall k :: k in interfaces ==> !interfaces[k])
      ensures reply.NotOk? ==> error == Some(Forms.CaughtFailure(reply.status, reply.body, UnknownError, CreateFailurePrefix))
      ensures reply.Thrown? ==> error == Some(reply.message)
      ensures !reply.Ok? ==> projectName == old(projectName) && interfaces == old(interfaces) && success == old(success)
    {
      match reply
      case Ok(createdName) =>
        success := CreatedMessage(createdName);
        projectName := "";
        var off := Interfaces.AllOff();
        Interfaces.CompleteFromKeys(off);
        interfaces := off;
      case NotOk(status, body) =>
        error := Some(Forms.CaughtFailure(status, body, UnknownError, CreateFailurePrefix));
      case Thrown(message) =>
        error := Some(message);
    }
  }
}
