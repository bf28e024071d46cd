# Account and administration pages of a React client, modelled in Dafny

This project models the client-side logic of a React single-page
application. The application fronts a user and project administration
backend. The model covers these parts of the client:

- **Sign-in.** The login page (`src/Login.js`) covers the form check and the
  routing by the token request's status and the user's flags. It also keeps
  the failed-attempt counter in `localStorage` and shows a captcha once
  failures pile up.
- **Password pages.** The password change page (`src/ChangePassword.js`)
  checks five strength rules written as regular expressions. The password
  reset page (`src/ResetPassword.js`) turns failed replies into messages.
- **Disabling two-factor authentication** (`src/Disable2FA.js`).
- **Inactivity logout** in the application shell (`src/App.js`): a stamp of
  the last activity, a warning after 55 minutes and a logout after 60.
- **CSV upload** (`src/InterfaceUpload.js`). The page checks the role,
  chooses a file by picker or by dragging, simulates the progress and keeps
  an upload history.
- **E-mail notification preferences** (`src/EmailPreferences.js`), with an
  optimistic update and a rollback.
- **Administration pages** (`src/admin_pages/`):
  - The user list: the query string sent to the backend, the autocomplete
    and the CSV export of the users.
  - The user form: a patch holding only the changed fields, activation and
    deletion.
  - Project creation and editing: one on/off flag per data interface, and a
    patch holding only the changed flags.
  - The monitoring page. It classifies free-text system-log descriptions,
    extracts and formats timestamps, filters both log tables and exports
    them as CSV.

Pages whose state the source updates in place (React state plus
`localStorage`) are classes. Their methods are the event handlers. Each
method's `ensures` gives the whole new state, as a function of the old state
and of the backend's replies.

The model leaves things outside the program as values:

- Backend replies are datatypes passed in as parameters, and so are
  `window.confirm` answers and the clock.
- Navigation is an out-parameter.
- `localStorage` is one shared `Storage.LocalStorage` object holding a
  string-to-string map.

Pure decisions are functions with lemmas:

- the log classifier;
- the query builder;
- the patch builders;
- the CSV writer and a CSV reader used to state the export round trips.

Loops that build a value in the source are methods with loop invariants,
each proved equal to a function:

- the query parameters (`BuildQueryParams`, `AppendEach`);
- the interface maps (`AllOff`, `LoadFlags`);
- the project patch (`BuildPatch`);
- the progress steps (`ShowProgress`).

Behaviour of the code that is easy to misread, as the model states it:

- The inactivity thresholds are strict: more than 3300 and more than 3600
  seconds. The warning fires again on every tick while the user stays idle.
- The password change button depends only on the five strength rules. It
  does not depend on the new password matching its confirmation; that check
  happens on submit.
- The system-log date filter excludes a log only when its timestamp text is
  "N/A". A log whose timestamp text does not parse still passes every date
  bound. The interface-log filter excludes missing and invalid timestamps
  alike.
- A 403 reply on login stores the username and redirects. The page then
  continues into the failure branch and counts a failed attempt.
- The login, password change and two-factor pages store the attempt count
  from before the increment.
- The two-factor page sends the disable request before it knows whether the
  credentials were accepted.

## Model

| member | source | states |
|---|---|---|
| Credentials.ClassRuleIsRegexTest | src/ChangePassword.js:100-103 | `(?=.*[class])` matches somewhere exactly when the value contains a character of the class (lowercase, uppercase, digit, one of `!@#$%^&*`) |
| Credentials.LengthRuleIsRegexTest | src/ChangePassword.js:104 | `(?=.{8,})` matches somewhere exactly when eight consecutive characters contain no line terminator |
| Credentials.LengthRuleSingleLine | src/ChangePassword.js:104 | for a value without line terminators, the length rule is exactly "at least eight characters" |
| Credentials.StrengthOf | src/ChangePassword.js:97-135 | each of the five flags is the result of `RegExp.test` of its pattern on the new value |
| Credentials.StrongPassword | src/ChangePassword.js:258 | the Change Password button is rendered exactly for a single-line password with at least eight characters and one character of each class |
| Credentials.RulesGrow | src/ChangePassword.js:100-134 | appending characters never turns a satisfied rule off |
| Credentials.StoredToken | src/Login.js:97 | `setItem('token', data.access_token)` stores the token, or the non-empty text "undefined" when the reply has none |
| Credentials.AttemptsText | src/Login.js:134 | the stored `JSON.stringify` of the count parses back to the same count |
| Forms.CaughtFailure | src/admin_pages/CreateProject.js:105-112 | a refused reply shows its `detail`; an unparsable body shows the fixed "unknown" text; an empty detail shows the prefix followed by the status |
| Forms.UncaughtFailure | src/admin_pages/EditUserFormPage.js:94-97 | a refused reply shows its `detail` or the fixed fallback; an unparsable body surfaces the parse error itself |
| JsValues.FlagString | src/admin_pages/Monitoring.js:239 | `String(flag)` is "true" or "false" exactly for the two booleans and never empty |
| JsValues.FlagJoinText | src/admin_pages/Monitoring.js:339 | `Array.join` writes `undefined` and `null` as "" and a boolean as its `String` |
| Login.RouteAfterLogin | src/Login.js:120-127 | a first login goes to the two-factor setup; otherwise a user whose `is_2fa_active` is false goes home; everyone else, a missing flag included, goes to the one-time-password check |
| Login.LoginPage.constructor | src/Login.js:20-23 | the page starts from the attempt count stored in `login_attempts`, or 0 |
| Login.LoginPage.CaptchaChanged | src/Login.js:25-27 | the captcha is done exactly when it hands over a non-empty value |
| Login.LoginPage.Submit | src/Login.js:45-147 | an empty field is refused before any request; a 403 stores the username and redirects to the password change page, then falls into the failure branch; a 429 is logged; success stores the token ("undefined" when the reply has none), the count "0" and the username and routes by `RouteAfterLogin`; a failure shows `detail` or "Authentication failed!", raises the count and stores the count from before, and from three attempts on resets the captcha; a token or user body that is not JSON, or a network error, shows the generic error and keeps the count; only a 403 or a success redirects; the captcha state changes only in the failure branch |
| Login.FailureThenReopen | src/Login.js:128-139 | on a page opened on any storage, a failed submission raises the count by one, yet a page opened afterwards reads the count from before; below three attempts the button is shown before submitting, and from three on only once the captcha is solved; after the failure the captcha is shown exactly from three attempts on, and the button exactly when the captcha is not shown, since a solved captcha is reset |
| Login.SuccessThenReopen | src/Login.js:95-101 | after a successful submission a page opened again reads zero attempts, whatever the count was, and storage holds the new token; a reply without a token leaves "undefined", which the pages' token checks take for a signed-in user |
| Disable2FA.Disable2FAPage.constructor | src/Disable2FA.js:20-23 | the page starts from the stored attempt count |
| Disable2FA.Disable2FAPage.CaptchaChanged | src/Disable2FA.js:25-27 | any captcha change marks it done |
| Disable2FA.Disable2FAPage.Submit | src/Disable2FA.js:41-108 | nothing happens without confirmation; an empty field is refused, with the count and storage unchanged; otherwise the disable request is sent whatever the credentials; the user goes home exactly when both checks succeed and the user reply is JSON, with the count reset to "0" and no error; a failure shows `detail` or "Authentication failed!", raises the count and stores the count from before |
| ChangePassword.ChangePasswordPage.constructor | src/ChangePassword.js:9-23 | the username is read from storage; all fields and strength flags start empty or false |
| ChangePassword.ChangePasswordPage.ChangeNewPassword | src/ChangePassword.js:97-135 | the new password is stored and the strength flags become `StrengthOf` of it; nothing else changes |
| ChangePassword.ChangePasswordPage.Submit | src/ChangePassword.js:29-94 | requests are sent exactly when the username and password are present and the new passwords match, each refusal with its message; success stores the new token, or "undefined" when the reply has none; a failure shows `detail` or "Authentication failed!", raises the count and stores the count from before; a network error or a non-JSON body shows the generic error |
| ResetPassword.ErrorText | src/ResetPassword.js:78 | a thrown message mentioning "Failed to fetch" shows "Network error."; another non-empty message is shown as is; an empty one shows the default failure text |
| ResetPassword.Thrown | src/ResetPassword.js:64-68 | what the handler throws: the fetch error, the JSON parse error, nothing for an OK reply, and for a refused reply its `detail` or "HTTP error! status: " with the status |
| ResetPassword.ResetPasswordPage.constructor | src/ResetPassword.js:27-33 | a link without a token opens with the invalid-link error |
| ResetPassword.ResetPasswordPage.Submit | src/ResetPassword.js:35-82 | the request is sent exactly when the passwords match, a token is present and the password has at least eight characters, in that order of checks; success clears both fields and shows the reply's `message` or the default; a failure shows `ErrorText` of what was thrown and keeps the fields |
| IdleLogout.ActiveUserStays | src/App.js:30-44 | within 55 minutes of the last activity, in either direction, a tick neither warns nor logs out |
| IdleLogout.InactiveUserLeaves | src/App.js:40-44 | more than 60 minutes after the last activity, with a username stored, a tick logs out |
| IdleLogout.IdleMonitor.Activity | src/App.js:14-21 | mouse movement or a click stamps `LastActivity` with the current time and changes nothing else |
| IdleLogout.IdleMonitor.Tick | src/App.js:30-44 | a running timer warns and logs out by the stamp and username read before the tick; a logout always comes with a warning, removes `token` and `username` and stops the timer; otherwise storage is untouched |
| Upload.CheckAccess | src/InterfaceUpload.js:35-55 | no token sends the user to login; a role other than admin or editor goes to the dashboard; access is granted exactly for a token and one of those roles |
| Upload.IsCsvNameChars | src/InterfaceUpload.js:78 | a name is accepted exactly when it ends in "." followed by c, s, v in either case |
| Upload.ProgressSteps | src/InterfaceUpload.js:121-124 | the progress bar shows eleven steps from 0 to 100, ten apart |
| Upload.UploadPage.constructor | src/InterfaceUpload.js:23-31 | no role, no file, no progress, no messages and an empty history |
| Upload.UploadPage.Open | src/InterfaceUpload.js:34-67 | the gate is `CheckAccess`; only a granted role is kept, with the loaded history; selection, messages, upload state, progress and drop-zone highlight are unchanged |
| Upload.UploadPage.SelectFile | src/InterfaceUpload.js:70-84 | messages are cleared; a CSV file is selected; another file is refused with the format error and leaves nothing selected |
| Upload.UploadPage.Drag | src/InterfaceUpload.js:87-104 | enter and over activate the drop zone, leave and drop deactivate it; a drop with files selects the first as the picker would; the role, history, progress and upload flag are unchanged |
| Upload.UploadPage.ShowProgress | src/InterfaceUpload.js:121-124 | the loop shows exactly `ProgressSteps` and ends at 100; nothing else on the page changes |
| Upload.UploadPage.StartUpload | src/InterfaceUpload.js:107-163 | nothing happens without a selected file; otherwise the progress steps are shown, a successful entry for the file is put first in the history, the selection is cleared, the success message shown and the progress reset |
| EmailPreferences.WithNotify | src/EmailPreferences.js:51-57 | the preference of the given project takes the new value; every other entry and the order are unchanged |
| EmailPreferences.WithNotifyIdempotent | src/EmailPreferences.js:51-57 | setting the same value twice is setting it once |
| EmailPreferences.WithNotifyUndone | src/EmailPreferences.js:80-82 | when every entry of the project held one value, setting that value back gives the list from before; the page's rollback restores its snapshot instead, and this states that the two agree |
| EmailPreferences.WithNotifyCommutes | src/EmailPreferences.js:51-57 | updates to different projects commute |
| EmailPreferences.PreferencesPage.constructor | src/EmailPreferences.js:9-12 | the page opens loading, with no preferences and no messages |
| EmailPreferences.PreferencesPage.Load | src/EmailPreferences.js:15-43 | without a token the user goes to login and nothing loads; otherwise the list is the reply, or the load error is shown, and loading ends |
| EmailPreferences.PreferencesPage.ChangePreference | src/EmailPreferences.js:46-84 | the optimistic list is `WithNotify` of the old one; a saved change keeps it and shows the saved message; a failed one restores the old list and shows the save error |
| EmailPreferences.PreferencesPage.SuccessExpired | src/EmailPreferences.js:76 | the timed-out success message is cleared and nothing else changes |
| Interfaces.Toggled | src/admin_pages/CreateProject.js:60-65 | the toggled key holds the negation of its old value (missing counts as false); every other key is kept |
| Interfaces.ToggleTwice | src/admin_pages/CreateProject.js:60-65 | toggling a present key twice restores the map |
| Interfaces.TogglesCommute | src/admin_pages/CreateProject.js:60-65 | toggles of different keys commute |
| Interfaces.ToggledComplete | src/admin_pages/EditProjectFormPage.js:107-112 | a map with every interface key keeps them all after a toggle |
| Interfaces.AllOff | src/admin_pages/CreateProject.js:48-54 | the loop gives every interface key, and only those, the value false |
| Interfaces.LoadedFlags | src/admin_pages/EditProjectFormPage.js:89-92 | the loaded map has exactly the interface keys, each true exactly when the project record holds `true` for it |
| Interfaces.LoadFlags | src/admin_pages/EditProjectFormPage.js:89-92 | the loop gives every interface key, and only those, the value true exactly when the project record holds `true` for it |
| CreateProject.CreatedMessage | src/admin_pages/CreateProject.js:116 | the success text is `Projeto "` + name + `" criado com sucesso!` |
| CreateProject.CreateProjectPage.constructor | src/admin_pages/CreateProject.js:47-58 | an empty name, every interface off, no messages |
| CreateProject.CreateProjectPage.SetProjectName | src/admin_pages/CreateProject.js:152 | only the name changes |
| CreateProject.CreateProjectPage.ToggleInterface | src/admin_pages/CreateProject.js:60-65 | the flags become `Toggled` of the old ones |
| CreateProject.CreateProjectPage.Submit | src/admin_pages/CreateProject.js:67-90 | no token: the not-authenticated error and a redirect to login; a blank name: its error; otherwise the name with all flags is sent |
| CreateProject.CreateProjectPage.Created | src/admin_pages/CreateProject.js:105-130 | success shows `CreatedMessage` of the returned name and resets the form; a failure shows `CaughtFailure` or the thrown message and keeps the form |
| EditProject.Diff | src/admin_pages/EditProjectFormPage.js:134-145 | the patch holds the name exactly when it differs from the record, and exactly the interface keys whose value differs from the record's value, missing counting as different |
| EditProject.BuildPatch | src/admin_pages/EditProjectFormPage.js:134-145 | the loop over the interfaces builds exactly `Diff` |
| EditProject.Applied | src/admin_pages/EditProjectFormPage.js:170 | a record updated by a patch takes the patched name and flags and keeps the rest |
| EditProject.ResubmitFindsNoChanges | src/admin_pages/EditProjectFormPage.js:168-170 | once the server applies a patch, submitting the same form again finds no changes |
| EditProject.UntouchedFormHasNoChanges | src/admin_pages/EditProjectFormPage.js:86-94 | an untouched form over a record that holds a boolean for every interface finds no changes |
| EditProject.UnsetInterfaceAlwaysSent | src/admin_pages/EditProjectFormPage.js:141-145 | an interface the record does not hold loads as false and is sent as false on every submit, so the form never finds "no changes" |
| EditProject.UpdatedMessage | src/admin_pages/EditProjectFormPage.js:169 | the success text is `Projeto "` + name + `" atualizado com sucesso!` |
| EditProject.EditProjectPage.constructor | src/admin_pages/EditProjectFormPage.js:49-55 | an empty form with no baseline and no messages |
| EditProject.EditProjectPage.Load | src/admin_pages/EditProjectFormPage.js:58-104 | a missing id shows its error; a missing token clears the error and sends the user to login; a loaded record becomes the baseline, the name and `LoadedFlags`; a failure shows `CaughtFailure` or the thrown message and keeps the form |
| EditProject.EditProjectPage.SetProjectName | src/admin_pages/EditProjectFormPage.js:205 | only the name changes |
| EditProject.EditProjectPage.ToggleInterface | src/admin_pages/EditProjectFormPage.js:107-112 | the flags become `Toggled` of the old ones |
| EditProject.EditProjectPage.Submit | src/admin_pages/EditProjectFormPage.js:114-151 | no token: the not-authenticated error and a redirect to login; a blank name: its error; otherwise `Diff` is sent, or refused with "no changes" when empty |
| EditProject.EditProjectPage.Updated | src/admin_pages/EditProjectFormPage.js:153-176 | success makes the returned record the baseline and shows `UpdatedMessage`; a failure shows `CaughtFailure` or the thrown message |
| EditUser.IfChanged | src/admin_pages/EditUserFormPage.js:71-73 | a field is sent exactly when it differs from the recorded value, a missing value always differing |
| EditUser.BuildPatch | src/admin_pages/EditUserFormPage.js:66-76 | the patch holds each of username, email and role exactly when it differs from the record, with the form's value |
| EditUser.Merged | src/admin_pages/EditUserFormPage.js:101 | the baseline after an update takes the patched fields and keeps the rest |
| EditUser.MergedHasNoChanges | src/admin_pages/EditUserFormPage.js:99-101 | after a successful update, submitting the same form again finds no changes |
| EditUser.LoadedEmail | src/admin_pages/EditUserFormPage.js:47 | a missing e-mail loads as "" |
| EditUser.UntouchedForm | src/admin_pages/EditUserFormPage.js:44-76 | an untouched form sends nothing except, for a user without an e-mail, an empty e-mail |
| EditUser.ActionWord | src/admin_pages/EditUserFormPage.js:139 | the action is "deactivate" exactly for an active user and "activate" otherwise |
| EditUser.ToggledStatus | src/admin_pages/EditUserFormPage.js:149 | the status sent is the negation of the truthiness of `is_active`, and true exactly when the action is "activate" |
| EditUser.ToggleTwice | src/admin_pages/EditUserFormPage.js:157 | toggling a boolean status twice restores it |
| EditUser.EditUserPage.constructor | src/admin_pages/EditUserFormPage.js:17-24 | an empty form with no baseline and no messages |
| EditUser.EditUserPage.Load | src/admin_pages/EditUserFormPage.js:26-58 | a missing id shows its error; a loaded record becomes the baseline and fills the form; a failure shows `CaughtFailure` or the thrown message and keeps the form |
| EditUser.EditUserPage.Submit | src/admin_pages/EditUserFormPage.js:61-81 | the patch `Diff` is sent, or refused with "no changes" when empty |
| EditUser.EditUserPage.Updated | src/admin_pages/EditUserFormPage.js:83-109 | success merges the sent patch into the baseline and shows the updated message; a failure shows `UncaughtFailure` or the thrown message |
| EditUser.EditUserPage.ToggleStatus | src/admin_pages/EditUserFormPage.js:137-163 | with a baseline and a confirmation the negated status is sent; success flips the baseline's status and shows the message for the action; a failure shows `UncaughtFailure` with "Failed to <action> the user." or the thrown message |
| EditUser.EditUserPage.Delete | src/admin_pages/EditUserFormPage.js:112-134 | nothing without a baseline or without confirmation; success deletes; a failure shows `UncaughtFailure` with the delete fallback or the thrown message |
| UserList.FindSortIn | src/admin_pages/EditUserListPage.js:66 | `find` returns the value of the first option with the key, and nothing exactly when no option has it |
| UserList.SortKeysDistinct | src/admin_pages/EditUserListPage.js:11-18 | the sort options have distinct keys |
| UserList.FindSortSelects | src/admin_pages/EditUserListPage.js:11-18 | every option's key selects that option's own sort field and order |
| UserList.KeyNamesDistinct | src/admin_pages/EditUserListPage.js:59-70 | the six query parameter names are distinct |
| UserList.Tagged | src/admin_pages/EditUserListPage.js:63-64 | one parameter per selected value, in order, under the given name |
| UserList.IfSet | src/admin_pages/EditUserListPage.js:60-61 | a parameter is added exactly when the value is not empty |
| UserList.SortParams | src/admin_pages/EditUserListPage.js:66-70 | a known sort key adds `sort_by` then `order`; an unknown one adds nothing |
| UserList.AppendEach | src/admin_pages/EditUserListPage.js:63-64 | the `forEach` appends exactly `Tagged` of the values |
| UserList.QueryParams | src/admin_pages/EditUserListPage.js:59-70 | one parameter for a set search and one for a set status, one per selected role and project, and two for a known sort key |
| UserList.BuildQueryParams | src/admin_pages/EditUserListPage.js:59-70 | the parameters built step by step are exactly `QueryParams` of the filters |
| UserList.QueryParamsGetAll | src/admin_pages/EditUserListPage.js:59-70 | reading each name back from the query gives the search and status when set, every selected role and project in order, and the sort field and order of a known sort key |
| UserList.QueryParamsOrdered | src/admin_pages/EditUserListPage.js:59-70 | the parameters come in the order search, status, roles, projects, sort_by, order |
| UserList.DefaultQuery | src/admin_pages/EditUserListPage.js:28-32 | the default filters send only `sort_by=username&order=asc` |
| UserList.SuggestionText | src/admin_pages/EditUserListPage.js:147 | a suggestion fills in its username, or its e-mail when the username is empty |
| UserList.UserListPage.constructor | src/admin_pages/EditUserListPage.js:21-37 | no users, no error, the default filters, no suggestions and no pending autocomplete |
| UserList.UserListPage.SetSearchTerm | src/admin_pages/EditUserListPage.js:127-138 | a changed term of at least two characters schedules an autocomplete for it; a shorter one cancels it and clears the suggestions |
| UserList.UserListPage.AutocompleteFires | src/admin_pages/EditUserListPage.js:91-115 | a blank query requests nothing; otherwise the suggestions are the reply's, or empty on any failure |
| UserList.UserListPage.SelectSuggestion | src/admin_pages/EditUserListPage.js:146-149 | the search term becomes `SuggestionText` and the suggestions are cleared |
| UserList.UserListPage.ResetFilters | src/admin_pages/EditUserListPage.js:178-185 | all filters return to their defaults and the suggestions are cleared |
| UserList.UserListPage.FetchUsers | src/admin_pages/EditUserListPage.js:54-88 | the request carries `QueryParams` of the filters; the list becomes the reply, or keeps its old value with the error shown; a 401 sends the user to login |
| UserList.EscapeCsv | src/admin_pages/EditUserListPage.js:158 | the quoted cell reads back as the value, a missing value as "" |
| UserList.ProjectsList | src/admin_pages/EditUserListPage.js:159 | no projects or an empty list show "No projects"; a single named project shows its name |
| UserList.ProjectsListSplits | src/admin_pages/EditUserListPage.js:159 | for one or more names, none empty and none holding "; ", splitting the cell on "; " gives the names back in order |
| UserList.UserLineValues | src/admin_pages/EditUserListPage.js:160-166 | a user's row reads back as username, e-mail, role, Active or Inactive, and the projects list |
| UserList.UsersCsv | src/admin_pages/EditUserListPage.js:157-168 | the file is the header line alone when there are no users, and otherwise starts with the header line and a newline |
| UserList.UsersCsvRoundTrip | src/admin_pages/EditUserListPage.js:154-168 | the exported file reads back as the header row followed by one row per user |
| Monitoring.SystemLogType | src/admin_pages/Monitoring.js:27-65 | `extractSystemLogType` gives the text of the first rule, in source order, that applies to the description |
| Monitoring.ClassifyingRuleCases | src/admin_pages/Monitoring.js:27-65 | the rule that classifies a description is the first applicable one in source order: empty, updated, deleted, created with a name, " at ", created, e-mail, unknown |
| Monitoring.RulePrecedence | src/admin_pages/Monitoring.js:27-65 | an applicable rule always overrides every later rule |
| Monitoring.ClassifyingRuleIsFirst | src/admin_pages/Monitoring.js:27-65 | the classifying rule applies, and no earlier rule does |
| Monitoring.ClassifiedAs | src/admin_pages/Monitoring.js:27-65 | a rule that applies while no earlier one does is the classifying rule |
| Monitoring.UserUpdateAndDeleteWin | src/admin_pages/Monitoring.js:31-38 | "updated the user" wins over everything, then "deleted the user" |
| Monitoring.CreatedWithNameBeforeAt | src/admin_pages/Monitoring.js:40-44 | a creation message with parentheses is typed by its trimmed text before "(", even when it also contains " at " |
| Monitoring.AtRuleText | src/admin_pages/Monitoring.js:48-51 | the " at " rule types a log by the trimmed text before the first " at " |
| Monitoring.EmailRuleNeedsNoAt | src/admin_pages/Monitoring.js:59-61 | the e-mail type is reached only by descriptions without " at " |
| Monitoring.FallbackTypes | src/admin_pages/Monitoring.js:28-64 | an empty description is "Unknown", and one no rule applies to is "Unknown Log Format" |
| Monitoring.LeadingBracket | src/admin_pages/Monitoring.js:71-74 | a found bracket timestamp is non-empty and the description starts with it in brackets |
| Monitoring.StripIpSuffix | src/admin_pages/Monitoring.js:78 | text without " from IP address: " is unchanged; otherwise the text before its first occurrence is kept, and for single-line text nothing after it |
| Monitoring.TimestampText | src/admin_pages/Monitoring.js:67-81 | an empty description gives ""; a leading bracket gives its content; no bracket and no " at " gives "N/A" |
| Monitoring.BracketTimestamp | src/admin_pages/Monitoring.js:71-74 | a description starting with a bracketed, single-line stamp gives exactly that stamp |
| Monitoring.AtTimestamp | src/admin_pages/Monitoring.js:77-78 | without a bracket, the timestamp is the trimmed text after the first " at " with the IP suffix cut |
| Monitoring.FormatDate | src/admin_pages/Monitoring.js:90-104 | `formatDate` gives "N/A" exactly when there is no valid date |
| Monitoring.FormatDateShape | src/admin_pages/Monitoring.js:90-104 | "N/A" exactly for a missing or invalid date; the text holds only digits, "-", ":", " " and the letters of "N/A" |
| Monitoring.FormatDateReadBack | src/admin_pages/Monitoring.js:94-103 | a date with a four-digit year formats as `YYYY-MM-DD`, plus ` HH:MM:SS` with the time, and each field reads back as the date's own value |
| Monitoring.UsernameMatches | src/admin_pages/Monitoring.js:212 | an unset filter admits every username, a filter equal to the username up to letter case admits it, and an admitted filter is no longer than the username |
| Monitoring.WithinBounds | src/admin_pages/Monitoring.js:216-223 | bounds that are not valid dates exclude nothing; an admitted instant is not before a valid start day's midnight and not after a valid end day's last millisecond |
| Monitoring.SystemDateMatches | src/admin_pages/Monitoring.js:214-225 | without bounds every log passes; with a bound, a log whose timestamp text is "N/A" is dropped, and one whose text is not a valid date passes as an invalid `Date` |
| Monitoring.InterfaceDateMatches | src/admin_pages/Monitoring.js:245-254 | without bounds every log passes; a missing or invalid timestamp passes exactly when no bound is set |
| Monitoring.SystemLogMatches | src/admin_pages/Monitoring.js:211-227 | cleared filters admit every log; an admitted log has the filtered type and a username the username filter admits |
| Monitoring.InterfaceLogMatches | src/admin_pages/Monitoring.js:239-256 | cleared filters admit every log; an admitted log has the filtered alteration type, interface and project |
| Monitoring.FilteredSystemLogs | src/admin_pages/Monitoring.js:210-228 | exactly the matching system logs, in their original order, each as many times as the loaded list holds it |
| Monitoring.FilteredInterfaceLogs | src/admin_pages/Monitoring.js:235-258 | exactly the matching interface logs, in their original order, each as many times as the loaded list holds it |
| Monitoring.UndatedLogsUnderDateBound | src/admin_pages/Monitoring.js:214-254 | with a date bound set, a system log without timestamp text is dropped, one whose text does not parse is kept, and an interface log with a missing or invalid timestamp is dropped |
| Monitoring.UsernameFilterIgnoresCase | src/admin_pages/Monitoring.js:212 | the username filter gives the same answer for the filter text and its lowercase form |
| Monitoring.DidFailFilter | src/admin_pages/Monitoring.js:239 | the failed filter "true", "false" or "undefined" admits only logs whose flag is that value |
| Monitoring.AvailableSystemLogTypes | src/admin_pages/Monitoring.js:209 | the type drop-down lists each type of a loaded log once, sorted |
| Monitoring.AvailableValues | src/admin_pages/Monitoring.js:231-233 | each interface drop-down lists each non-empty value of its field once, sorted |
| Monitoring.ClearedSystemFiltersShowAll | src/admin_pages/Monitoring.js:262-264 | with the filters cleared, every system log is shown |
| Monitoring.ClearedInterfaceFiltersShowAll | src/admin_pages/Monitoring.js:265-268 | with the filters cleared, every interface log is shown |
| Monitoring.MonitoringPage.ClearSystemLogFilters | src/admin_pages/Monitoring.js:262-264 | the system filters are reset, the interface filters are kept, and the table shows every system log |
| Monitoring.MonitoringPage.ClearInterfaceLogFilters | src/admin_pages/Monitoring.js:265-268 | the interface filters are reset, the system filters are kept, and the table shows every interface log |
| Monitoring.ExportCsv | src/admin_pages/Monitoring.js:279-285 | nothing is exported for an empty list; otherwise the header line followed by one line per log |
| Monitoring.SystemLogsCsv | src/admin_pages/Monitoring.js:316-323 | the system export exists exactly when there are logs to export |
| Monitoring.InterfaceLogsCsv | src/admin_pages/Monitoring.js:335-343 | the interface export exists exactly when there are logs to export |
| Monitoring.IdText | src/admin_pages/Monitoring.js:320 | the id column as `join` writes it ("" for a missing id) is a plain cell, with no quote, comma or line break |
| Monitoring.SystemLineValues | src/admin_pages/Monitoring.js:319-322 | a system-log line carries id, username, type, timestamp and full description |
| Monitoring.InterfaceLineValues | src/admin_pages/Monitoring.js:338-342 | an interface-log line carries id, username, alteration type, failed flag, interface, project, formatted date and description |
| Monitoring.DateTextQuoteFree | src/admin_pages/Monitoring.js:340 | the formatted date column never contains a quote |
| Monitoring.SystemCsvRoundTrip | src/admin_pages/Monitoring.js:316-323 | when no username, type or timestamp holds a quote, the system export reads back as the headers followed by each log's line values |
| Monitoring.InterfaceCsvRoundTrip | src/admin_pages/Monitoring.js:335-343 | when no username, alteration type, interface or project holds a quote, the interface export reads back as the headers followed by each log's line values |
| Csv.Escape | src/admin_pages/Monitoring.js:321 | doubling quotes never shortens text and leaves quote-free text unchanged |
| Csv.QuotedBodyRoundTrip | src/admin_pages/Monitoring.js:321 | a value with its quotes doubled and closed by a quote reads back as the value |
| Csv.FieldRoundTrip | src/admin_pages/Monitoring.js:320-321 | a plain or quoted cell reads back as its value, up to the next separator |
| Csv.RecordRoundTrip | src/admin_pages/Monitoring.js:319-322 | a row joined by "," reads back as its cell values |
| Csv.FileRoundTrip | src/admin_pages/Monitoring.js:281-285 | rows joined by newlines read back as the list of rows |
| Csv.DocumentRoundTrip | src/admin_pages/Monitoring.js:279-285 | a header line and readable lines joined by newlines read back as the headers followed by each line's values |

## Left out

- Network calls are not modelled: `fetch`, the IP lookup, the log POSTs and request bodies. Their outcomes are the reply parameters of each handler.
- Login.LoginPage.Submit: the 429 IP lookup and the blocked-login log are reduced to the `blockLogged` flag. The success and two-factor log entries are not modelled. A log POST that throws is not modelled either. On a 429 it sends the handler into its catch with the generic error, so no attempt is counted. On a success the token and the count "0" are already stored, but the username is not stored and there is no redirect. The model's only thrown outcome is `NetworkError`, before the replies. The IP lookup cannot throw: its failure becomes "unknown IP".
- Disable2FA.Disable2FAPage.Submit: the log POST after a success is not modelled. If it throws, the count "0" is already stored, but the handler's catch shows the generic error and the user does not go home. The model's only thrown outcome is a network error, before the replies.
- Alerts and `window.location.reload` are not modelled; they have no state the pages read back.
- Timers are not modelled: `setTimeout`, the 300 ms autocomplete debounce, the 150 ms progress delays and the three-second success timeout. Each timed step is a separate method the caller invokes (`AutocompleteFires`, `SuccessExpired`).
- JavaScript `Date` is not modelled. Parsing a timestamp and reading its calendar fields are the `DateReader` parameter of the monitoring model.
- The activity stamp is stored as decimal milliseconds. The source stores `Date.toString()`, whose parse and precision belong to the JavaScript runtime.
- IdleLogout.IdleMonitor.Tick: the source re-creates the interval on every re-render of the shell. The model has one timer; several live intervals would each warn and log out independently.
- `toLowerCase` lowers ASCII letters only. Lengths count characters, not UTF-16 code units. For the same reason, the sorted drop-down lists compare by code point, while JavaScript's default `sort()` compares UTF-16 code units. The two orders differ when a character above U+FFFF is compared with one in U+E000–U+FFFF.
- `JSON.parse` of the stored attempt count is limited to decimal digits. Any other stored text reads as 0.
- Truthiness of non-boolean JSON values is not modelled. Flags are `undefined`, `null` or a boolean.
- The sort comparators of the drop-down lists are modelled as strict ordering on strings. The PDF exports are left out.
- The Blob and download-link code of the CSV exports is left out. The exported text is the result of the export functions.
- Monitoring.SystemCsvRoundTrip: stated only for logs whose username, type and timestamp contain no quote. The source writes those columns between quotes without escaping them.
- Monitoring.InterfaceCsvRoundTrip: the same restriction applies to the username, alteration type, interface and project columns.
- Upload.UploadPage.Open: the role is a parameter. The source fixes it to a mocked "admin", and the real role request is commented out.
- Upload.UploadPage.StartUpload: the mocked upload never fails, so the catch branch is not modelled. The random id and the upload time are parameters.
- The `loading` and `isExporting` flags of the login, password and administration pages are not modelled. They only disable buttons or show a spinner. The preference page's `isLoading` and the upload page's `isUploading` are modelled.
- EmailPreferences.PreferencesPage.ChangePreference: each change is one complete step from the list current at the time. The source's rollback snapshot can undo a concurrent change that was started in between.
- The multi-select setters of the user list are left out. The selected roles and projects are fields that callers assign.
- The project list of the user-list filters is left out. It only fills a drop-down and is not read back.
- UserList.SuggestionText: a suggestion with neither username nor e-mail sets the search term to `undefined` in the source; the model uses "".
- User list export rows: each project name is a string. The projects list is the `"; "` join of those names.
- Form input setters that only copy an input value into a field are not separate methods; callers assign those fields. The exceptions are the ones the source does more with (`ChangeNewPassword`, `SetSearchTerm`, `SetProjectName`).
- Navigation targets other than those returned by the handlers are not modelled. These include the back buttons and the forgot-password link.
