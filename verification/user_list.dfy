/**
 * The user list of the administration area
 * (src/admin_pages/EditUserListPage.js): the filter state and the ordered
 * query parameters it becomes, the sort-option table, the debounced
 * autocomplete of the search box, the filter reset and the CSV export of the
 * listed users.
 */
module UserList {
  import opened Wrappers
  import Strings
  import Seqs
  import Csv
  import JsValues

  // ===========================================================================
  // Sort options

  datatype SortValue = SortValue(sortBy: string, order: string)
  datatype SortOption = SortOption(key: string, caption: string, value: SortValue)

  /** `SORT_OPTIONS`. */
  const SortOptions: seq<SortOption> := [
    SortOption("username_asc", "Name (A-Z)", SortValue("username", "asc")),
    SortOption("username_desc", "Name (Z-A)", SortValue("username", "desc")),
    SortOption("role_asc", "Permission (A-Z)", SortValue("role", "asc")),
    SortOption("role_desc", "Permission (Z-Z)", SortValue("role", "desc")),
    SortOption("status_desc", "Status (Active > Inactive)", SortValue("is_active", "desc")),
    SortOption("status_asc", "Status (Inactive > Active)", SortValue("is_active", "asc"))
  ]

  /** `SORT_OPTIONS[0].key`, the sort selected initially and after a reset. */
  const DefaultSort := "username_asc"

  /** `options.find(opt => opt.key === key)?.value`. */
  function FindSortIn(options: seq<SortOption>, key: string): (r: Option<SortValue>)
    ensures r.None? <==> forall i :: 0 <= i < |options| ==> options[i].key != key
    ensures r.Some? ==> exists i :: 0 <= i < |options| && options[i].key == key && options[i].value == r.value
                                    && forall j :: 0 <= j < i ==> options[j].key != key
  {
    if options == [] then None
    else if options[0].key == key then Some(options[0].value)
    else
      var r := FindSortIn(options[1..], key);
      assert forall i :: 1 <= i < |options| ==> options[i] == options[1..][i - 1];
      r
  }

  function FindSort(key: string): Option<SortValue> {
    FindSortIn(SortOptions, key)
  }

  /** No two options share a key. */
  lemma SortKeysDistinct()
    ensures forall i, j :: 0 <= i < j < |SortOptions| ==> SortOptions[i].key != SortOptions[j].key
  {
  }

  /** Each option's key selects that option's sort. */
  lemma FindSortSelects(k: nat)
    requires k < |SortOptions|
    ensures FindSort(SortOptions[k].key) == Some(SortOptions[k].value)
  {
    SortKeysDistinct();
  }

  // ===========================================================================
  // Query parameters (fetchUsers)

  /** The parameter names the page sends. */
  datatype Key = Search | Status | Roles | Projects | SortBy | Order

  /** The name each key has in the query string. */
  function KeyName(k: Key): string {
    match k
    case Search => "search"
    case Status => "status"
    case Roles => "roles"
    case Projects => "projects"
    case SortBy => "sort_by"
    case Order => "order"
  }

  /** Distinct keys are sent under distinct names. */
  lemma KeyNamesDistinct(a: Key, b: Key)
    ensures KeyName(a) == KeyName(b) <==> a == b
  {
  }

  /** One `name=value` pair of a `URLSearchParams`. */
  datatype Param = Param(name: Key, value: string)

  /** The filter inputs of the page. */
  datatype Filters = Filters(search: string, status: string, roles: seq<string>, projects: seq<string>, sort: string)

  const DefaultFilters := Filters("", "", [], [], DefaultSort)

  /** One parameter named `name` per value, in order. */
  function Tagged(name: Key, values: seq<string>): (r: seq<Param>)
    ensures |r| == |values|
    ensures forall i :: 0 <= i < |r| ==> r[i] == Param(name, values[i])
  {
    if values == [] then [] else [Param(name, values[0])] + Tagged(name, values[1..])
  }

  /** A parameter appended only when its value is set (not ""). */
  function IfSet(name: Key, value: string): (r: seq<Param>)
    ensures r == [] <==> value == ""
    ensures r != [] ==> r == [Param(name, value)]
  {
    if value != "" then [Param(name, value)] else []
  }

  /** `sort_by` and `order` of the selected sort option; nothing for an unknown key. */
  function SortParams(sort: string): (r: seq<Param>)
    ensures FindSort(sort).None? ==> r == []
    ensures FindSort(sort).Some? ==> r == [Param(SortBy, FindSort(sort).value.sortBy), Param(Order, FindSort(sort).value.order)]
  {
    match FindSort(sort)
    case Some(v) => [Param(SortBy, v.sortBy), Param(Order, v.order)]
    case None => []
  }

  /** The parameters the filters produce, in the order `fetchUsers` appends them. */
  function QueryParams(f: Filters): (r: seq<Param>)
    ensures |r| == (if f.search != "" then 1 else 0) + (if f.status != "" then 1 else 0)
                   + |f.roles| + |f.projects| + (if FindSort(f.sort).Some? then 2 else 0)
  {
    IfSet(Search, f.search) + IfSet(Status, f.status)
    + Tagged(Roles, f.roles) + Tagged(Projects, f.projects)
    + SortParams(f.sort)
  }

  /** `values.forEach(v => params.append(name, v))`. */
  method AppendEach(params: seq<Param>, name: Key, values: seq<string>) returns (r: seq<Param>)
    ensures r == params + Tagged(name, values)
  {
    r := params;
    for i := 0 to |values|
      invariant r == params + Tagged(name, values[..i])
    {
      TaggedSnoc(name, values, i);
      r := r + [Param(name, values[i])];
    }
    assert values[..|values|] == values;
  }

  /** `fetchUsers` building its `URLSearchParams` by successive `append`s. */
  method BuildQueryParams(f: Filters) returns (params: seq<Param>)
    ensures params == QueryParams(f)
  {
    params := [];
    if f.search != "" {
      params := params + [Param(Search, f.search)];
    }
    if f.status != "" {
      params := params + [Param(Status, f.status)];
    }
    assert params == IfSet(Search, f.search) + IfSet(Status, f.status);
    params := AppendEach(params, Roles, f.roles);
    params := AppendEach(params, Projects, f.projects);
    var currentSort := FindSort(f.sort);
    if currentSort.Some? {
      params := params + [Param(SortBy, currentSort.value.sortBy)];
      params := params + [Param(Order, currentSort.value.order)];
    }
  }

  lemma TaggedSnoc(name: Key, values: seq<string>, i: nat)
    requires i < |values|
    ensures Tagged(name, values[..i + 1]) == Tagged(name, values[..i]) + [Param(name, values[i])]
  {
    var longer, shorter := Tagged(name, values[..i + 1]), Tagged(name, values[..i]) + [Param(name, values[i])];
    assert |longer| == |shorter|;
    forall k | 0 <= k < |longer| ensures longer[k] == shorter[k] {
      if k < i {
        assert shorter[k] == Tagged(name, values[..i])[k];
      }
    }
  }

  /** `URLSearchParams.getAll(name)`: the values of the parameters called `name`, in order. */
  function GetAll(params: seq<Param>, name: Key): (r: seq<string>)
    ensures |r| <= |params|
  {
    if params == [] then []
    else (if params[0].name == name then [params[0].value] else []) + GetAll(params[1..], name)
  }

  lemma {:induction false} GetAllAppend(a: seq<Param>, b: seq<Param>, name: Key)
    ensures GetAll(a + b, name) == GetAll(a, name) + GetAll(b, name)
  {
    if a != [] {
      var first := if a[0].name == name then [a[0].value] else [];
      assert (a + b)[0] == a[0];
      assert (a + b)[1..] == a[1..] + b;
      GetAllAppend(a[1..], b, name);
      Seqs.AppendAssoc(first, GetAll(a[1..], name), GetAll(b, name));
    } else {
      assert a + b == b;
    }
  }

  lemma {:induction false} GetAllTagged(tag: Key, values: seq<string>, name: Key)
    ensures GetAll(Tagged(tag, values), name) == if tag == name then values else []
  {
    if values != [] {
      GetAllTagged(tag, values[1..], name);
      assert Tagged(tag, values) == [Param(tag, values[0])] + Tagged(tag, values[1..]);
      if tag == name {
        assert values == [values[0]] + values[1..];
      }
    }
  }

  lemma GetAllIfSet(tag: Key, value: string, name: Key)
    ensures GetAll(IfSet(tag, value), name) == if tag == name && value != "" then [value] else []
  {
  }

  lemma GetAllSortParams(sort: string, name: Key)
    ensures GetAll(SortParams(sort), name) ==
      if FindSort(sort).None? then []
      else if name == SortBy then [FindSort(sort).value.sortBy]
      else if name == Order then [FindSort(sort).value.order]
      else []
  {
    var o := SortParams(sort);
    if o != [] {
      assert o[1..][1..] == [];
    }
  }

  /** `getAll` over the query is `getAll` over each of its groups, concatenated. */
  lemma GetAllQuery(f: Filters, name: Key)
    ensures GetAll(QueryParams(f), name) ==
      GetAll(IfSet(Search, f.search), name) + GetAll(IfSet(Status, f.status), name)
      + (if name == Roles then f.roles else []) + (if name == Projects then f.projects else [])
      + GetAll(SortParams(f.sort), name)
  {
    var s, t := IfSet(Search, f.search), IfSet(Status, f.status);
    var r, p := Tagged(Roles, f.roles), Tagged(Projects, f.projects);
    var o := SortParams(f.sort);
    GetAllAppend(s + t + r + p, o, name);
    GetAllAppend(s + t + r, p, name);
    GetAllAppend(s + t, r, name);
    GetAllAppend(s, t, name);
    GetAllTagged(Roles, f.roles, name);
    GetAllTagged(Projects, f.projects, name);
  }

  /**
   * Reading the parameters back: `search` and `status` appear once when set
   * and never otherwise; `roles` and `projects` give the selections in order;
   * `sort_by` and `order` come from the selected sort option, and an unknown
   * sort key adds neither.
   */
  lemma QueryParamsGetAll(f: Filters, name: Key)
    ensures GetAll(QueryParams(f), name) ==
      match name
      case Search => if f.search != "" then [f.search] else []
      case Status => if f.status != "" then [f.status] else []
      case Roles => f.roles
      case Projects => f.projects
      case SortBy => if FindSort(f.sort).Some? then [FindSort(f.sort).value.sortBy] else []
      case Order => if FindSort(f.sort).Some? then [FindSort(f.sort).value.order] else []
  {
    GetAllQuery(f, name);
    GetAllSortParams(f.sort, name);
    GetAllIfSet(Search, f.search, name);
    GetAllIfSet(Status, f.status, name);
    var a, b := GetAll(IfSet(Search, f.search), name), GetAll(IfSet(Status, f.status), name);
    var r, p := if name == Roles then f.roles else [], if name == Projects then f.projects else [];
    var o := GetAll(SortParams(f.sort), name);
    Seqs.AppendAssoc(a + b + r, p, o);
    Seqs.AppendAssoc(a + b, r, p + o);
    Seqs.AppendAssoc(a, b, r + (p + o));
  }

  /** The position of each parameter name in the order `fetchUsers` appends them. */
  function KeyRank(k: Key): nat {
    match k
    case Search => 0
    case Status => 1
    case Roles => 2
    case Projects => 3
    case SortBy => 4
    case Order => 5
  }

  /** The parameters come grouped, in the order search, status, roles, projects, sort_by, order. */
  lemma QueryParamsOrdered(f: Filters)
    ensures var q := QueryParams(f);
      forall i, j :: 0 <= i < j < |q| ==> KeyRank(q[i].name) <= KeyRank(q[j].name)
  {
    var s, t := IfSet(Search, f.search), IfSet(Status, f.status);
    var r, p := Tagged(Roles, f.roles), Tagged(Projects, f.projects);
    var o := SortParams(f.sort);
    var q := QueryParams(f);
    assert q == s + t + r + p + o;
    var a, b, c, d := |s|, |s| + |t|, |s| + |t| + |r|, |s| + |t| + |r| + |p|;
    forall k | 0 <= k < |q|
      ensures KeyRank(q[k].name) == if k < a then 0 else if k < b then 1 else if k < c then 2 else if k < d then 3 else if k == d then 4 else 5
    {
      if k < a {
        assert q[k] == s[k];
      } else if k < b {
        assert q[k] == t[k - a];
      } else if k < c {
        assert q[k] == r[k - b];
      } else if k < d {
        assert q[k] == p[k - c];
      } else {
        assert q[k] == o[k - d];
      }
    }
  }

  /** With the default filters only the default sort is sent. */
  lemma DefaultQuery()
    ensures QueryParams(DefaultFilters) == [Param(SortBy, "username"), Param(Order, "asc")]
  {
    assert FindSort(DefaultSort) == Some(SortValue("username", "asc"));
  }

  // ===========================================================================
  // Autocomplete and reset

  /** An autocomplete suggestion; a missing username or email is "". */
  datatype Suggestion = Suggestion(username: string, email: string)

  /** What the autocomplete request gives back. */
  datatype AutocompleteReply = Suggestions(items: seq<Suggestion>) | NotOk | NetworkError

  /**
   * `suggestion.username || suggestion.email`. When both are missing the
   * source hands `undefined` to the search term; the model gives "".
   */
  function SuggestionText(s: Suggestion): (r: string)
    ensures r == "" ==> s.username == "" && s.email == ""
    ensures s.username != "" ==> r == s.username
    ensures s.username == "" ==> r == s.email
  {
    if s.username != "" then s.username else s.email
  }

  /** The shortest search term that schedules an autocomplete request. */
  const MinAutocompleteLength := 2

  /** What the user-list request gives back; `null` data is the empty list. */
  datatype UsersReply = Users(users: seq<User>) | HttpError(status: int) | NetworkFailure(message: string)

  const FetchUsersError := "Falha ao buscar usuários ou você não tem permissão."

  class UserListPage {
    var users: seq<User>
    var error: Option<string>
    var filters: Filters
    var suggestions: seq<Suggestion>
    /** The query of the autocomplete request waiting for its debounce timer. */
    var pending: Option<string>

    /** A pending request is for the current search term, which is long enough. */
    predicate Valid()
      reads this
    {
      pending.Some? ==> pending.value == filters.search && |filters.search| >= MinAutocompleteLength
    }

    constructor ()
      ensures Valid()
      ensures users == [] && error == None
      ensures filters == DefaultFilters && suggestions == [] && pending == None
    {
      users := [];
      error := None;
      filters := DefaultFilters;
      suggestions := [];
      pending := None;
    }

    /**
     * A new search term and the debounce effect it triggers: any pending
     * request is cancelled; a term of at least two characters schedules a
     * new one, a shorter term clears the suggestions. Setting the same term
     * again triggers nothing.
     */
    method SetSearchTerm(term: string)
      requires Valid()
      modifies this
      ensures Valid()
      ensures users == old(users) && error == old(error)
      ensures filters == old(filters).(search := term)
      ensures term == old(filters.search) ==> pending == old(pending) && suggestions == old(suggestions)
      ensures term != old(filters.search) ==>
        pending == (if |term| >= MinAutocompleteLength then Some(term) else None)
        && suggestions == (if |term| >= MinAutocompleteLength then old(suggestions) else [])
    {
      if term != filters.search {
        filters := filters.(search := term);
        if |term| >= MinAutocompleteLength {
          pending := Some(term);
        } else {
          pending := None;
          suggestions := [];
        }
      }
    }

    /**
     * The debounce timer fires `fetchAutocompleteSuggestions`: a
     * whitespace-only query clears the suggestions without a request;
     * otherwise the reply's suggestions are shown, or none when the request
     * fails.
     */
    method AutocompleteFires(reply: AutocompleteReply) returns (requested: bool)
      requires Valid() && pending.Some?
      modifies this
      ensures Valid()
      ensures users == old(users) && error == old(error)
      ensures requested <==> Strings.Trim(old(pending).value) != ""
      ensures requested <==> !Strings.IsBlank(old(pending).value)
      ensures pending == None && filters == old(filters)
      ensures suggestions == (if requested && reply.Suggestions? then reply.items else [])
    {
      var query := pending.value;
      pending := None;
      if Strings.Trim(query) == "" {
        suggestions := [];
        requested := false;
      } else {
        requested := true;
        match reply
        case Suggestions(items) => suggestions := items;
        case NotOk => suggestions := [];
        case NetworkError => suggestions := [];
      }
    }

    /** `handleSelectSuggestion`: the suggestion's text becomes the search term and the list closes. */
    method SelectSuggestion(s: Suggestion)
      requires Valid()
      modifies this
      ensures Valid()
      ensures users == old(users) && error == old(error)
      ensures filters == old(filters).(search := SuggestionText(s))
      ensures suggestions == []
      ensures SuggestionText(s) != old(filters.search) ==>
        pending == (if |SuggestionText(s)| >= MinAutocompleteLength then Some(SuggestionText(s)) else None)
      ensures SuggestionText(s) == old(filters.search) ==> pending == old(pending)
    {
      SetSearchTerm(SuggestionText(s));
      suggestions := [];
    }

    /** `handleResetFilters`: every filter back to its default and no suggestions, none pending. */
    method ResetFilters()
      requires Valid()
      modifies this
      ensures Valid()
      ensures users == old(users) && error == old(error)
      ensures filters == DefaultFilters && suggestions == [] && pending == None
    {
      SetSearchTerm("");
      filters := DefaultFilters;
      suggestions := [];
    }

    /**
     * `fetchUsers`: the list is requested with the current filters; a reply
     * replaces the list, a refusal or a failure keeps it and shows the error,
     * and a 401 also sends the browser back to the login page.
     */
    method FetchUsers(reply: UsersReply) returns (params: seq<Param>, toLogin: bool)
      modifies this
      ensures params == QueryParams(filters)
      ensures filters == old(filters) && suggestions == old(suggestions) && pending == old(pending)
      ensures reply.Users? ==> users == reply.users && error == None
      ensures !reply.Users? ==> users == old(users)
      ensures reply.HttpError? ==> error == Some(FetchUsersError)
      ensures reply.NetworkFailure? ==> error == Some(reply.message)
      ensures toLogin <==> reply == HttpError(401)
    {
      params := BuildQueryParams(filters);
      error := None;
      toLogin := false;
      match reply
      case Users(list) =>
        users := list;
      case HttpError(status) =>
        toLogin := status == 401;
        error := Some(FetchUsersError);
      case NetworkFailure(message) =>
        error := Some(message);
    }
  }

  // ===========================================================================
  // CSV export (handleExportCsv)

  /** A listed user; `null`/missing text fields are `None`, a missing project list is `None`. */
  datatype User = User(
    username: Option<string>, email: Option<string>, role: Option<string>,
    isActive: JsValues.Flag, projects: Option<seq<string>>)

  /** `escapeCsv`: the value (`null`/`undefined` as "") wrapped in `"` with every `"` doubled. */
  function EscapeCsv(v: Option<string>): (r: string)
    ensures |r| >= 2 && r[0] == '"' && r[|r| - 1] == '"'
    ensures v.None? ==> r == "\"\""
    ensures Csv.ParseField(r) == Some((v.GetOr(""), ""))
  {
    Csv.FieldRoundTrip(Csv.Quoted(v.GetOr("")), "");
    assert Csv.RenderCell(Csv.Quoted(v.GetOr(""))) + "" == Csv.Quote(v.GetOr(""));
    Csv.FieldText(Csv.WrappedEscaped(v.GetOr("")))
  }

  /** `user.projects?.map(p => p.project_name).join('; ') || "No projects"`. */
  function ProjectsList(projects: Option<seq<string>>): (r: string)
    ensures r != ""
    ensures projects.None? || projects == Some([]) ==> r == "No projects"
    ensures projects.Some? && |projects.value| == 1 && projects.value[0] != "" ==> r == projects.value[0]
  {
    match projects
    case None => "No projects"
    case Some(names) =>
      var joined := Strings.Join(names, "; ");
      if joined == "" then "No projects" else joined
  }

  /**
   * For several projects the cell is their names joined by "; ": as long as
   * no name is empty or holds "; ", splitting the cell on "; " gives the
   * names back, in order.
   */
  lemma {:induction false} ProjectsListSplits(names: seq<string>)
    requires names != []
    requires forall i :: 0 <= i < |names| ==> names[i] != "" && !Strings.Contains(names[i], "; ")
    ensures Strings.Split(ProjectsList(Some(names)), "; ") == names
  {
    JoinSplitsBack(names);
    assert Strings.Join(names, "; ") != "" by {
      if |names| == 1 {
      } else {
        Csv.JoinCons(names[0], names[1..], "; ");
        assert [names[0]] + names[1..] == names;
      }
    }
  }

  /** Joining names free of "; " and splitting the result on "; " gives the names back. */
  lemma {:induction false} JoinSplitsBack(names: seq<string>)
    requires names != []
    requires forall i :: 0 <= i < |names| ==> !Strings.Contains(names[i], "; ")
    ensures Strings.Split(Strings.Join(names, "; "), "; ") == names
    decreases |names|
  {
    var a := names[0];
    if |names| == 1 {
      var parts := Strings.Split(a, "; ");
      assert |parts| == 1 && parts[0] == a;
    } else {
      var more := names[1..];
      JoinSplitsBack(more);
      var joined := Strings.Join(more, "; ");
      Csv.JoinCons(a, more, "; ");
      assert [a] + more == names;
      SplitAtFirst(a, joined);
    }
  }

  /** A name free of "; " followed by "; " splits off as the first piece. */
  lemma SplitAtFirst(a: string, rest: string)
    requires !Strings.Contains(a, "; ")
    ensures Strings.Split(a + "; " + rest, "; ") == [a] + Strings.Split(rest, "; ")
  {
    var s := a + "; " + rest;
    FirstSeparator(a, rest);
    assert s[..|a|] == a;
    assert s[|a| + 2..] == rest;
  }

  /** The first "; " in `a + "; " + rest` is the one after `a`, since `a` holds none and ";" is not " ". */
  lemma FirstSeparator(a: string, rest: string)
    requires !Strings.Contains(a, "; ")
    ensures Strings.IndexOf(a + "; " + rest, "; ") == Some(|a|)
  {
    var s := a + "; " + rest;
    assert Strings.OccursAt(s, "; ", |a|) by {
      assert s[|a|..|a| + 2] == "; ";
    }
    Strings.ContainsIff(a, "; ");
    forall j: nat | j < |a|
      ensures !Strings.OccursAt(s, "; ", j)
    {
      if j + 2 <= |a| {
        assert s[j..j + 2] == a[j..j + 2];
        assert !Strings.OccursAt(a, "; ", j);
      } else {
        assert s[j + 1] == ';';
      }
    }
    Strings.IndexOfIs(s, "; ", |a|);
  }

  /** `user.is_active ? 'Active' : 'Inactive'`. */
  function StatusText(isActive: JsValues.Flag): string {
    if JsValues.Truthy(isActive) then "Active" else "Inactive"
  }

  const UserHeaders := ["Username", "Email", "Permission", "Status", "Projects"]

  /** The five escaped fields of a user's line. */
  function UserFields(u: User): seq<Csv.Field> {
    [Csv.WrappedEscaped(u.username.GetOr("")), Csv.WrappedEscaped(u.email.GetOr("")),
     Csv.WrappedEscaped(u.role.GetOr("")), Csv.WrappedEscaped(StatusText(u.isActive)),
     Csv.WrappedEscaped(ProjectsList(u.projects))]
  }

  /** The exported file: the header line, then one line per user in list order. */
  function UsersCsv(users: seq<User>): (r: string)
    ensures users == [] ==> r == "Username,Email,Permission,Status,Projects"
    ensures users != [] ==> |r| > 42 && r[..42] == "Username,Email,Permission,Status,Projects\n"
  {
    var header := Strings.Join(UserHeaders, ",");
    assert header == "Username,Email,Permission,Status,Projects" by {
      assert UserHeaders[1..][1..][1..][1..] == ["Projects"];
    }
    var lines := Seqs.Map(Seqs.Map(users, UserFields), Csv.Line);
    assert users != [] ==> Csv.Document(UserHeaders, Seqs.Map(users, UserFields)) == header + "\n" + Strings.Join(lines, "\n") by {
      if users != [] {
        Csv.JoinCons(header, lines, "\n");
      }
    }
    Csv.Document(UserHeaders, Seqs.Map(users, UserFields))
  }

  /** The values a user's line holds. */
  lemma UserLineValues(u: User)
    ensures Csv.LineValues(UserFields(u))
            == [u.username.GetOr(""), u.email.GetOr(""), u.role.GetOr(""), StatusText(u.isActive), ProjectsList(u.projects)]
  {
  }

  /**
   * Every field is escaped, so whatever the users hold, the file reads back
   * as the header and then each user's five values, in list order.
   */
  lemma UsersCsvRoundTrip(users: seq<User>)
    ensures Csv.ParseFile(UsersCsv(users)) == Some([UserHeaders] + Seqs.Map(Seqs.Map(users, UserFields), Csv.LineValues))
  {
    var lines := Seqs.Map(users, UserFields);
    forall i | 0 <= i < |lines| ensures Csv.ReadableLine(lines[i]) {
      assert lines[i] == UserFields(users[i]);
    }
    Csv.DocumentRoundTrip(UserHeaders, lines);
  }
}
