/**
 * The CSV import page (src/InterfaceUpload.js): the role gate, the choice of
 * a file by the picker or by dragging, the simulated upload with its
 * progress steps and the upload history the page keeps.
 */
module Upload {
  import opened Wrappers
  import Strings
  import Forms

  /** Where the access check leaves the page. */
  datatype Gate = ToLogin | ToDashboard | Granted(role: string)

  const DashboardPath := "/dashboard"
  const InvalidFormatError := "Invalid file format. Please upload a .csv file."
  const UploadedMessage := "File uploaded successfully and is being processed."
  const SuccessStatus := "Success"

  /** Only administrators and editors may import files. */
  predicate MayUpload(role: string) {
    role == "admin" || role == "editor"
  }

  /**
   * `verifyAccessAndFetchData`: without a token the user goes to the login
   * page; a role other than the two allowed ones goes to the dashboard.
   */
  function CheckAccess(token: Option<string>, role: string): (g: Gate)
    ensures Forms.MissingToken(token) ==> g == ToLogin
    ensures !Forms.MissingToken(token) && !MayUpload(role) ==> g == ToDashboard
    ensures g.Granted? <==> !Forms.MissingToken(token) && MayUpload(role)
    ensures g.Granted? ==> g.role == role
  {
    if Forms.MissingToken(token) then ToLogin
    else if !MayUpload(role) then ToDashboard
    else Granted(role)
  }

  /** `name.toLowerCase().endsWith('.csv')`. */
  predicate IsCsvName(name: string) {
    Strings.EndsWith(Strings.ToLower(name), ".csv")
  }

  /** The extension test, character by character: a dot and then c, s, v in either case. */
  lemma IsCsvNameChars(name: string)
    ensures IsCsvName(name) <==>
      |name| >= 4 && name[|name| - 4] == '.'
      && (name[|name| - 3] == 'c' || name[|name| - 3] == 'C')
      && (name[|name| - 2] == 's' || name[|name| - 2] == 'S')
      && (name[|name| - 1] == 'v' || name[|name| - 1] == 'V')
  {
    var low := Strings.ToLower(name);
    if |name| >= 4 {
      var n := |name|;
      assert low[n - 4..] == [low[n - 4], low[n - 3], low[n - 2], low[n - 1]];
      assert ".csv" == ['.', 'c', 's', 'v'];
    }
  }

  datatype File = File(name: string)

  /** The drag events the drop zone listens to. */
  datatype DragEvent = DragEnter | DragOver | DragLeave | Drop

  /** An entry of the upload history; `id` and `uploadedAt` come from the random source and the clock. */
  datatype HistoryEntry = HistoryEntry(id: real, filename: string, status: string, uploadedAt: string, details: Option<string>)

  /** The ten-percent steps the progress bar shows during an upload. */
  function ProgressSteps(): (r: seq<nat>)
    ensures |r| == 11 && r[0] == 0 && r[10] == 100
    ensures forall i :: 0 < i < |r| ==> r[i] == r[i - 1] + 10
  {
    seq(11, i => 10 * i)
  }

  class UploadPage {
    var userRole: Option<string>
    var selected: Option<File>
    var isUploading: bool
    var progress: nat
    var error: string
    var success: string
    var dragActive: bool
    var history: seq<HistoryEntry>

    constructor ()
      ensures userRole.None? && selected.None? && !isUploading && progress == 0
      ensures error == "" && success == "" && !dragActive && history == []
    {
      userRole := None;
      selected := None;
      isUploading := false;
      progress := 0;
      error := "";
      success := "";
      dragActive := false;
      history := [];
    }

    /** The access check on opening; once granted, the role is kept and the history loaded. */
    method Open(token: Option<string>, role: string, loaded: seq<HistoryEntry>) returns (gate: Gate)
      modifies this
      ensures gate == CheckAccess(token, role)
      ensures gate.Granted? ==> userRole == Some(role) && history == loaded
      ensures !gate.Granted? ==> userRole == old(userRole) && history == old(history)
      ensures selected == old(selected) && error == old(error) && success == old(success)
      ensures isUploading == old(isUploading) && progress == old(progress) && dragActive == old(dragActive)
    {
      gate := CheckAccess(token, role);
      if gate.Granted? {
        userRole := Some(role);
        history := loaded;
      }
    }

    /**
     * `handleFileSelect`: the messages and the selection are cleared first;
     * a file whose name does not end in ".csv" in any case is refused with
     * a message, any other file becomes the selection.
     */
    method SelectFile(file: Option<File>)
      modifies this
      ensures selected == (if file.Some? && IsCsvName(file.value.name) then file else None)
      ensures error == (if file.Some? && !IsCsvName(file.value.name) then InvalidFormatError else "")
      ensures success == ""
      ensures history == old(history) && dragActive == old(dragActive) && progress == old(progress)
      ensures isUploading == old(isUploading) && userRole == old(userRole)
    {
      error := "";
      success := "";
      selected := None;
      if file.Some? {
        if !IsCsvName(file.value.name) {
          error := InvalidFormatError;
          return;
        }
        selected := file;
      }
    }

    /**
     * `handleDrag` and `handleDrop`: entering or moving over the zone
     * highlights it, leaving or dropping clears it; a drop with files selects
     * the first one.
     */
    method Drag(event: DragEvent, files: seq<File>)
      modifies this
      ensures dragActive <==> event == DragEnter || event == DragOver
      ensures event == Drop && |files| > 0 ==>
        selected == (if IsCsvName(files[0].name) then Some(files[0]) else None)
        && error == (if IsCsvName(files[0].name) then "" else InvalidFormatError)
        && success == ""
      ensures !(event == Drop && |files| > 0) ==>
        selected == old(selected) && error == old(error) && success == old(success)
      ensures history == old(history) && progress == old(progress) && isUploading == old(isUploading)
      ensures userRole == old(userRole)
    {
      if event == DragEnter || event == DragOver {
        dragActive := true;
      } else if event == DragLeave {
        dragActive := false;
      } else {
        dragActive := false;
        if |files| > 0 {
          SelectFile(Some(files[0]));
        }
      }
    }

    /** The progress loop: the bar goes from 0 to 100 in steps of ten, each value shown in turn. */
    method ShowProgress() returns (shown: seq<nat>)
      modifies this
      ensures shown == ProgressSteps() && progress == 100
      ensures selected == old(selected) && history == old(history) && error == old(error) && success == old(success)
      ensures userRole == old(userRole) && isUploading == old(isUploading) && dragActive == old(dragActive)
    {
      shown := [];
      var p := 0;
      while p <= 100
        invariant p % 10 == 0 && p <= 110
        invariant shown == ProgressSteps()[..p / 10]
        invariant p > 0 ==> progress == p - 10
        invariant selected == old(selected) && history == old(history) && error == old(error) && success == old(success)
        invariant userRole == old(userRole) && isUploading == old(isUploading) && dragActive == old(dragActive)
        decreases 110 - p
      {
        progress := p;
        shown := shown + [p];
        p := p + 10;
      }
    }

    /**
     * `handleUpload`: nothing happens without a selection. Otherwise the
     * progress steps run, the success message is shown, the selection is
     * cleared and a 'Success' entry for the file goes in front of the
     * history; the progress bar is back at 0 at the end.
     */
    method StartUpload(id: real, uploadedAt: string) returns (shown: seq<nat>)
      modifies this
      ensures old(selected).None? ==>
        shown == [] && selected == old(selected) && history == old(history)
        && error == old(error) && success == old(success) && progress == old(progress)
        && isUploading == old(isUploading)
      ensures old(selected).Some? ==>
        shown == ProgressSteps()
        && history == [HistoryEntry(id, old(selected).value.name, SuccessStatus, uploadedAt, None)] + old(history)
        && selected.None? && success == UploadedMessage && error == "" && progress == 0 && !isUploading
      ensures userRole == old(userRole) && dragActive == old(dragActive)
    {
      shown := [];
      if selected.None? {
        return;
      }
      var file := selected.value;
      isUploading := true;
      progress := 0;
      error := "";
      success := "";
      shown := ShowProgress();
      success := UploadedMessage;
      selected := None;
      history := [HistoryEntry(id, file.name, SuccessStatus, uploadedAt, None)] + history;
      isUploading := false;
      progress := 0;
    }
  }
}
