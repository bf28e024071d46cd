/**
 * The e-mail notification preferences page (src/EmailPreferences.js): the
 * list of the user's projects with one notification switch each, changed
 * optimistically and put back when saving fails.
 */
module EmailPreferences {
  import opened Wrappers
  import Seqs
  import Forms

  /** One project's preference; `notify` is `receber_notificacoes_alteracoes_interface`. */
  datatype Preference = Preference(projectId: int, projectName: string, notify: bool)

  const LoadError := "Could not load your preferences. Please try again later."
  const SaveError := "Could not save your change. Please try again."
  const SavedMessage := "Preference saved successfully!"

  /**
   * The optimistic update: the switch of every entry of the project takes the
   * new value; the length, the order and every other entry and field stay.
   */
  function WithNotify(prefs: seq<Preference>, projectId: int, value: bool): (r: seq<Preference>)
    ensures |r| == |prefs|
    ensures forall i :: 0 <= i < |r| && prefs[i].projectId == projectId ==> r[i] == prefs[i].(notify := value)
    ensures forall i :: 0 <= i < |r| && prefs[i].projectId != projectId ==> r[i] == prefs[i]
  {
    Seqs.Map(prefs, (p: Preference) => if p.projectId == projectId then p.(notify := value) else p)
  }

  /** Setting a project's switch twice to the same value is setting it once. */
  lemma WithNotifyIdempotent(prefs: seq<Preference>, projectId: int, value: bool)
    ensures WithNotify(WithNotify(prefs, projectId, value), projectId, value) == WithNotify(prefs, projectId, value)
  {
    var once := WithNotify(prefs, projectId, value);
    var twice := WithNotify(once, projectId, value);
    assert forall i :: 0 <= i < |twice| ==> twice[i] == once[i];
  }

  /** Changing a switch and changing it back restores the list when the project had one value throughout. */
  lemma WithNotifyUndone(prefs: seq<Preference>, projectId: int, value: bool, before: bool)
    requires forall i :: 0 <= i < |prefs| && prefs[i].projectId == projectId ==> prefs[i].notify == before
    ensures WithNotify(WithNotify(prefs, projectId, value), projectId, before) == prefs
  {
    var back := WithNotify(WithNotify(prefs, projectId, value), projectId, before);
    assert forall i :: 0 <= i < |back| ==> back[i] == prefs[i];
  }

  /** Changes to different projects commute. */
  lemma WithNotifyCommutes(prefs: seq<Preference>, a: int, x: bool, b: int, y: bool)
    requires a != b
    ensures WithNotify(WithNotify(prefs, a, x), b, y) == WithNotify(WithNotify(prefs, b, y), a, x)
  {
    var l := WithNotify(WithNotify(prefs, a, x), b, y);
    var r := WithNotify(WithNotify(prefs, b, y), a, x);
    assert forall i :: 0 <= i < |l| ==> l[i] == r[i];
  }

  class PreferencesPage {
    var prefs: seq<Preference>
    var isLoading: bool
    var error: Option<string>
    var success: string

    constructor ()
      ensures prefs == [] && isLoading && error.None? && success == ""
    {
      prefs := [];
      isLoading := true;
      error := None;
      success := "";
    }

    /**
     * The first load: without a token the user goes to the login page;
     * otherwise a successful reply becomes the list and any failure shows
     * the load error, and the loading state ends either way.
     */
    method Load(token: Option<string>, reply: Forms.Reply<seq<Preference>>) returns (toLogin: bool)
      modifies this
      ensures toLogin <==> Forms.MissingToken(token)
      ensures toLogin ==> prefs == old(prefs) && isLoading == old(isLoading) && error == old(error)
      ensures !toLogin ==> !isLoading
      ensures !toLogin && reply.Ok? ==> prefs == reply.value && error.None?
      ensures !toLogin && !reply.Ok? ==> prefs == old(prefs) && error == Some(LoadError)
      ensures success == old(success)
    {
      toLogin := Forms.MissingToken(token);
      if toLogin {
        return;
      }
      isLoading := true;
      error := None;
      if reply.Ok? {
        prefs := reply.value;
      } else {
        error := Some(LoadError);
      }
      isLoading := false;
    }

    /**
     * `handlePreferenceChange`: the list shows the new value at once and the
     * success message is cleared; when saving fails the list is put back to
     * the copy taken before and the save error is shown. A success shows the
     * saved message and leaves an earlier error in place.
     */
    method ChangePreference(projectId: int, value: bool, saved: bool) returns (optimistic: seq<Preference>)
      modifies this
      ensures optimistic == WithNotify(old(prefs), projectId, value)
      ensures saved ==> prefs == optimistic && success == SavedMessage && error == old(error)
      ensures !saved ==> prefs == old(prefs) && success == "" && error == Some(SaveError)
      ensures isLoading == old(isLoading)
    {
      var original := prefs;
      prefs := WithNotify(prefs, projectId, value);
      optimistic := prefs;
      success := "";
      if saved {
        success := SavedMessage;
      } else {
        error := Some(SaveError);
        prefs := original;
      }
    }

    /** The timer three seconds after a save clears the message. */
    method SuccessExpired()
      modifies this
      ensures success == "" && prefs == old(prefs) && error == old(error) && isLoading == old(isLoading)
    {
      success := "";
    }
  }
}
