/**
 * The log-monitoring page (src/admin_pages/Monitoring.js): the helpers that
 * derive a type and a timestamp from a free-text system-log description, the
 * date formatter, the in-memory filters over the two log lists, the option
 * lists of the filter drop-downs, the CSV export and the clear-filter
 * handlers.
 *
 * JavaScript `Date` is abstracted: a `DateReader` turns a timestamp string
 * into an instant (or reports it unparseable) and an instant into its local
 * calendar fields. A missing or null text field of a log record is the empty
 * string, which every use in the page treats the same way (`|| ''`, falsy).
 */
module Monitoring {
  import opened Wrappers
  import Strings
  import Seqs
  import Csv
  import JsValues

  // ===========================================================================
  // Log type (extractSystemLogType)

  /** The rules of the classifier, one per branch of the source. */
  datatype TypeRule =
    | EmptyDescription
    | UserUpdated
    | UserDeleted
    | UserCreatedWithName
    | AtSeparated
    | UserCreated
    | EmailSent
    | UnknownFormat

  /** When each rule is applicable to a description. */
  predicate RuleApplies(rule: TypeRule, d: string) {
    match rule
    case EmptyDescription => d == ""
    case UserUpdated => Strings.Contains(d, " updated the user ")
    case UserDeleted => Strings.Contains(d, " deleted the user ")
    case UserCreatedWithName =>
      Strings.Contains(d, "User has created a new") && Strings.Contains(d, "(") && Strings.Contains(d, ")")
    case AtSeparated => Strings.Contains(d, " at ")
    case UserCreated => Strings.Contains(d, "User has created a new")
    case EmailSent => Strings.Contains(d, "Email notification sent to")
    case UnknownFormat => true
  }

  /** The rules in the order the source tries them. */
  const Priority: seq<TypeRule> :=
    [EmptyDescription, UserUpdated, UserDeleted, UserCreatedWithName, AtSeparated, UserCreated, EmailSent, UnknownFormat]

  /** The position of a rule in `Priority`. */
  function Rank(rule: TypeRule): (k: nat)
    ensures k < |Priority| && Priority[k] == rule
    ensures forall j :: 0 <= j < |Priority| && Priority[j] == rule ==> j == k
  {
    match rule
    case EmptyDescription => 0
    case UserUpdated => 1
    case UserDeleted => 2
    case UserCreatedWithName => 3
    case AtSeparated => 4
    case UserCreated => 5
    case EmailSent => 6
    case UnknownFormat => 7
  }

  /** The first applicable rule at or after position `k` of `Priority`. */
  function FirstRuleFrom(d: string, k: nat): (r: nat)
    requires k < |Priority|
    ensures k <= r < |Priority| && RuleApplies(Priority[r], d)
    ensures forall j :: k <= j < r ==> !RuleApplies(Priority[j], d)
    decreases |Priority| - k
  {
    if RuleApplies(Priority[k], d) || k == |Priority| - 1 then k else FirstRuleFrom(d, k + 1)
  }

  /** The rule that classifies `d`: the first applicable one in priority order. */
  function ClassifyingRule(d: string): TypeRule {
    Priority[FirstRuleFrom(d, 0)]
  }

  /** The type text each rule produces. */
  function RuleText(rule: TypeRule, d: string): string {
    match rule
    case EmptyDescription => "Unknown"
    case UserUpdated => "User Updated"
    case UserDeleted => "User Deleted"
    case UserCreatedWithName => Strings.Trim(Strings.Split(d, "(")[0])
    case AtSeparated => Strings.Trim(Strings.Split(d, " at ")[0])
    case UserCreated => d
    case EmailSent => "Email Notification Sent"
    case UnknownFormat => "Unknown Log Format"
  }

  /**
   * `extractSystemLogType`: the branches of the source, in its order. Its
   * result is the text of the first rule of `Priority` that applies.
   */
  function SystemLogType(d: string): (r: string)
    ensures r == RuleText(ClassifyingRule(d), d)
  {
    ClassifyingRuleCases(d);
    if d == "" then "Unknown"
    else if Strings.Contains(d, " updated the user ") then "User Updated"
    else if Strings.Contains(d, " deleted the user ") then "User Deleted"
    else if Strings.Contains(d, "User has created a new") && Strings.Contains(d, "(") && Strings.Contains(d, ")") then
      Strings.Trim(Strings.Split(d, "(")[0])
    else
      var atParts := Strings.Split(d, " at ");
      if |atParts| > 1 then Strings.Trim(atParts[0])
      else if Strings.Contains(d, "User has created a new") then d
      else if Strings.Contains(d, "Email notification sent to") then "Email Notification Sent"
      else "Unknown Log Format"
  }

  /** Trying the rules one after the other in the order of `Priority` finds the classifying rule. */
  lemma ClassifyingRuleCases(d: string)
    ensures d == "" ==> ClassifyingRule(d) == EmptyDescription
    ensures (d != "" && RuleApplies(UserUpdated, d))
            ==> ClassifyingRule(d) == UserUpdated
    ensures (d != "" && !RuleApplies(UserUpdated, d) && RuleApplies(UserDeleted, d))
            ==> ClassifyingRule(d) == UserDeleted
    ensures (d != "" && !RuleApplies(UserUpdated, d) && !RuleApplies(UserDeleted, d)
             && RuleApplies(UserCreatedWithName, d))
            ==> ClassifyingRule(d) == UserCreatedWithName
    ensures (d != "" && !RuleApplies(UserUpdated, d) && !RuleApplies(UserDeleted, d)
             && !RuleApplies(UserCreatedWithName, d) && RuleApplies(AtSeparated, d))
            ==> ClassifyingRule(d) == AtSeparated
    ensures (d != "" && !RuleApplies(UserUpdated, d) && !RuleApplies(UserDeleted, d)
             && !RuleApplies(UserCreatedWithName, d) && !RuleApplies(AtSeparated, d) && RuleApplies(UserCreated, d))
            ==> ClassifyingRule(d) == UserCreated
    ensures (d != "" && !RuleApplies(UserUpdated, d) && !RuleApplies(UserDeleted, d)
             && !RuleApplies(UserCreatedWithName, d) && !RuleApplies(AtSeparated, d) && !RuleApplies(UserCreated, d) && RuleApplies(EmailSent, d))
            ==> ClassifyingRule(d) == EmailSent
    ensures (d != "" && !RuleApplies(UserUpdated, d) && !RuleApplies(UserDeleted, d)
             && !RuleApplies(UserCreatedWithName, d) && !RuleApplies(AtSeparated, d) && !RuleApplies(UserCreated, d) && !RuleApplies(EmailSent, d))
            ==> ClassifyingRule(d) == UnknownFormat

  {
    var rule :=
      if d == "" then EmptyDescription
      else if RuleApplies(UserUpdated, d) then UserUpdated
      else if RuleApplies(UserDeleted, d) then UserDeleted
      else if RuleApplies(UserCreatedWithName, d) then UserCreatedWithName
      else if RuleApplies(AtSeparated, d) then AtSeparated
      else if RuleApplies(UserCreated, d) then UserCreated
      else if RuleApplies(EmailSent, d) then EmailSent
      else UnknownFormat;
    ClassifiedAs(d, rule);
  }

  /** An applicable rule shuts out every rule after it. */
  lemma RulePrecedence(d: string, earlier: TypeRule, later: TypeRule)
    requires Rank(earlier) < Rank(later) && RuleApplies(earlier, d)
    ensures ClassifyingRule(d) != later
  {
    var k := FirstRuleFrom(d, 0);
    assert Priority[Rank(earlier)] == earlier;
    assert k <= Rank(earlier);
  }

  /** The classifying rule applies, and no earlier one does. */
  lemma ClassifyingRuleIsFirst(d: string, rule: TypeRule)
    requires Rank(rule) < Rank(ClassifyingRule(d))
    ensures RuleApplies(ClassifyingRule(d), d) && !RuleApplies(rule, d)
  {
    assert Priority[Rank(rule)] == rule;
  }

  /** " updated the user " and " deleted the user " win over every later rule, the " at " rule included. */
  lemma UserUpdateAndDeleteWin(d: string)
    requires d != ""
    ensures Strings.Contains(d, " updated the user ") ==> SystemLogType(d) == "User Updated"
    ensures !Strings.Contains(d, " updated the user ") && Strings.Contains(d, " deleted the user ")
            ==> SystemLogType(d) == "User Deleted"
  {
    if Strings.Contains(d, " updated the user ") {
      ClassifiedAs(d, UserUpdated);
    } else if Strings.Contains(d, " deleted the user ") {
      ClassifiedAs(d, UserDeleted);
    }
  }

  /** A rule that applies while no earlier one does is the classifying rule. */
  lemma ClassifiedAs(d: string, rule: TypeRule)
    requires RuleApplies(rule, d)
    requires forall j :: 0 <= j < Rank(rule) ==> !RuleApplies(Priority[j], d)
    ensures ClassifyingRule(d) == rule
  {
    var k := FirstRuleFrom(d, 0);
    assert Priority[Rank(rule)] == rule && RuleApplies(Priority[k], d);
    assert k == Rank(rule);
  }

  /** A description classified by the " at " rule gets the trimmed text before the first " at ". */
  lemma AtRuleText(d: string)
    requires ClassifyingRule(d) == AtSeparated
    ensures Strings.Contains(d, " at ")
    ensures SystemLogType(d) == Strings.Trim(d[..Strings.IndexOf(d, " at ").value])
  {
    assert RuleApplies(Priority[FirstRuleFrom(d, 0)], d);
  }

  /** The creation rule with a name in parentheses comes before the " at " rule. */
  lemma CreatedWithNameBeforeAt(d: string)
    requires ClassifyingRule(d) == UserCreatedWithName || ClassifyingRule(d) == AtSeparated
    requires Strings.Contains(d, "User has created a new") && Strings.Contains(d, "(") && Strings.Contains(d, ")")
    ensures SystemLogType(d) == Strings.Trim(d[..Strings.IndexOf(d, "(").value])
  {
    RulePrecedence(d, UserCreatedWithName, AtSeparated);
  }

  /** "Email Notification Sent" is only produced for descriptions without " at ". */
  lemma EmailRuleNeedsNoAt(d: string)
    requires ClassifyingRule(d) == EmailSent
    ensures !Strings.Contains(d, " at ") && SystemLogType(d) == "Email Notification Sent"
  {
    ClassifyingRuleIsFirst(d, AtSeparated);
  }

  /** "Unknown" is the type of the empty description; "Unknown Log Format" is what is left when no rule matches. */
  lemma FallbackTypes(d: string)
    ensures SystemLogType("") == "Unknown"
    ensures ClassifyingRule(d) == UnknownFormat ==> SystemLogType(d) == "Unknown Log Format"
    ensures (forall rule :: rule != UnknownFormat ==> !RuleApplies(rule, d)) ==> ClassifyingRule(d) == UnknownFormat
  {
    if forall rule :: rule != UnknownFormat ==> !RuleApplies(rule, d) {
      forall j | 0 <= j < Rank(UnknownFormat) ensures !RuleApplies(Priority[j], d) {
        assert Priority[j] != UnknownFormat;
      }
      ClassifiedAs(d, UnknownFormat);
    }
  }

  // ===========================================================================
  // Timestamp text (extractSystemLogTimestampString)

  /**
   * The capture of `/^\[(.*?)\]/` when it is non-empty: the text between a
   * leading `[` and the first `]`, provided no line terminator comes first.
   */
  function LeadingBracket(d: string): (r: Option<string>)
    ensures r.Some? ==> r.value != "" && |r.value| + 2 <= |d|
    ensures r.Some? ==> d[..|r.value| + 2] == "[" + r.value + "]"
  {
    if d != [] && d[0] == '[' then
      match Strings.IndexOf(d, "]")
      case None => None
      case Some(j) =>
        var content := d[1..j];
        if content != "" && forall k :: 0 <= k < |content| ==> !Strings.IsLineTerminator(content[k])
        then
          assert d[..j + 1] == "[" + content + "]" by { assert d[j..j + 1] == "]"; }
          Some(content)
        else None
    else None
  }

  const IpMarker := " from IP address: "

  /**
   * `s.replace(/ from IP address: .*\/, '')`: the first marker and the rest of
   * its line are removed.
   */
  function StripIpSuffix(s: string): (r: string)
    ensures !Strings.Contains(s, IpMarker) ==> r == s
    ensures Strings.Contains(s, IpMarker) ==> var i := Strings.IndexOf(s, IpMarker).value; i <= |r| && r[..i] == s[..i]
    ensures Strings.Contains(s, IpMarker) && (forall k :: 0 <= k < |s| ==> !Strings.IsLineTerminator(s[k]))
            ==> r == s[..Strings.IndexOf(s, IpMarker).value]
    ensures |r| <= |s|
  {
    match Strings.IndexOf(s, IpMarker)
    case None => s
    case Some(i) => s[..i] + s[Strings.LineEnd(s, i + |IpMarker|)..]
  }

  /**
   * `extractSystemLogTimestampString`: the non-empty text in a leading
   * `[...]`, else the trimmed text after the first " at " without its
   * " from IP address: ..." tail, else "N/A"; "" for an empty description.
   */
  function TimestampText(d: string): (r: string)
    ensures d == "" ==> r == ""
    ensures LeadingBracket(d).Some? ==> r != "" && |r| + 2 <= |d| && d[..|r| + 2] == "[" + r + "]"
    ensures d != "" && LeadingBracket(d).None? && !Strings.Contains(d, " at ") ==> r == "N/A"
  {
    if d == "" then ""
    else match LeadingBracket(d)
      case Some(content) => content
      case None =>
        var parts := Strings.Split(d, " at ");
        if |parts| > 1 then Strings.Trim(StripIpSuffix(Strings.Join(parts[1..], " at ")))
        else "N/A"
  }

  /** A description that starts with `[c]` has timestamp text `c`. */
  lemma BracketTimestamp(c: string, rest: string)
    requires c != "" && ']' !in c
    requires forall k :: 0 <= k < |c| ==> !Strings.IsLineTerminator(c[k])
    ensures TimestampText("[" + c + "]" + rest) == c
  {
    var d := "[" + c + "]" + rest;
    var j := |c| + 1;
    assert Strings.OccursAt(d, "]", j);
    forall k: nat | k < j ensures !Strings.OccursAt(d, "]", k) {
      if k == 0 {
        assert d[0] == '[';
      } else {
        assert d[k] == c[k - 1];
        assert d[k..k + 1] == [d[k]];
      }
    }
    Strings.IndexOfIs(d, "]", j);
    assert d[1..j] == c;
  }

  /**
   * Without a leading bracket, the timestamp is everything after the first
   * " at " (later " at "s included), with the IP tail removed and trimmed.
   */
  lemma AtTimestamp(d: string)
    requires LeadingBracket(d).None? && Strings.Contains(d, " at ")
    ensures TimestampText(d) == Strings.Trim(StripIpSuffix(d[Strings.IndexOf(d, " at ").value + 4..]))
  {
    Strings.AfterFirst(d, " at ");
  }

  // ===========================================================================
  // Dates (parseSystemLogTimestamp, formatDate)

  /** The local calendar fields of an instant (`getFullYear()`, `getMonth() + 1`, ...). */
  datatype DateFields = DateFields(year: int, month: nat, day: nat, hours: nat, minutes: nat, seconds: nat)

  predicate ValidFields(f: DateFields) {
    1 <= f.month <= 12 && 1 <= f.day <= 31 && f.hours < 24 && f.minutes < 60 && f.seconds < 60
  }

  /**
   * What the page needs of JavaScript `Date`: `parse` is `new Date(text)` as
   * an instant in milliseconds (`None` for an invalid date), `dayStart` and
   * `dayEnd` are `new Date(text)` moved to 00:00:00.000 and 23:59:59.999
   * local time, `local` gives an instant's local calendar fields.
   */
  datatype DateReader = DateReader(
    parse: string -> Option<int>,
    dayStart: string -> Option<int>,
    dayEnd: string -> Option<int>,
    local: int -> DateFields)

  /** The characters a formatted date is made of. */
  predicate DateChar(c: char) {
    Strings.IsDigit(c) || c == '-' || c == ' ' || c == ':' || c == 'N' || c == '/' || c == 'A'
  }

  /** Text made only of the characters a formatted date uses. */
  predicate DateText(s: string) {
    forall k :: 0 <= k < |s| ==> DateChar(s[k])
  }

  lemma DateTextAppend(a: string, b: string)
    requires DateText(a) && DateText(b)
    ensures DateText(a + b)
  {
    forall k | 0 <= k < |a + b| ensures DateChar((a + b)[k]) {
      if k < |a| {
        assert (a + b)[k] == a[k];
      } else {
        assert (a + b)[k] == b[k - |a|];
      }
    }
  }

  /**
   * `formatDate`: "N/A" without a valid date, else `YYYY-MM-DD` followed by
   * ` HH:MM:SS` when `includeTime` holds.
   */
  function FormatDate(date: Option<DateFields>, includeTime: bool): (r: string)
    ensures date.None? <==> r == "N/A"
  {
    match date
    case None => "N/A"
    case Some(f) =>
      var ymd := Strings.IntToString(f.year) + "-" + Strings.Pad2(f.month) + "-" + Strings.Pad2(f.day);
      assert ymd[0] == Strings.IntToString(f.year)[0] != 'N';
      if includeTime then
        ymd + " " + Strings.Pad2(f.hours) + ":" + Strings.Pad2(f.minutes) + ":" + Strings.Pad2(f.seconds)
      else ymd
  }

  /** A formatted date is "N/A" exactly when there is no date, and is made of digits and separators. */
  lemma FormatDateShape(date: Option<DateFields>, includeTime: bool)
    ensures date.None? <==> FormatDate(date, includeTime) == "N/A"
    ensures DateText(FormatDate(date, includeTime))
  {
    match date
    case None =>
      assert DateText("N/A") by {
        forall k | 0 <= k < 3 ensures DateChar("N/A"[k]) {}
      }
    case Some(f) =>
      var y := Strings.IntToString(f.year);
      var mo, da := Strings.Pad2(f.month), Strings.Pad2(f.day);
      var h, mi, se := Strings.Pad2(f.hours), Strings.Pad2(f.minutes), Strings.Pad2(f.seconds);
      assert DateText(y);
      assert DateText(mo) && DateText(da) && DateText(h) && DateText(mi) && DateText(se);
      assert DateText("-") && DateText(" ") && DateText(":");
      DateTextAppend(y, "-");
      DateTextAppend(y + "-", mo);
      DateTextAppend(y + "-" + mo, "-");
      var ymd := y + "-" + mo + "-" + da;
      DateTextAppend(y + "-" + mo + "-", da);
      assert ymd[0] == y[0] != 'N';
      if includeTime {
        DateTextAppend(ymd, " ");
        DateTextAppend(ymd + " ", h);
        DateTextAppend(ymd + " " + h, ":");
        DateTextAppend(ymd + " " + h + ":", mi);
        DateTextAppend(ymd + " " + h + ":" + mi, ":");
        DateTextAppend(ymd + " " + h + ":" + mi + ":", se);
        var r := ymd + " " + h + ":" + mi + ":" + se;
        assert r[0] == ymd[0];
      }
  }

  /**
   * For a four-digit year every field sits at a fixed offset and reads back:
   * `YYYY-MM-DD HH:MM:SS`.
   */
  lemma FormatDateReadBack(f: DateFields, includeTime: bool)
    requires ValidFields(f) && 1000 <= f.year <= 9999
    ensures var r := FormatDate(Some(f), includeTime);
      && |r| == (if includeTime then 19 else 10)
      && r[4] == '-' && r[7] == '-'
      && Strings.ParseNat(r[..4]) == Some(f.year)
      && Strings.ParseNat(r[5..7]) == Some(f.month)
      && Strings.ParseNat(r[8..10]) == Some(f.day)
      && (includeTime ==>
            && r[10] == ' ' && r[13] == ':' && r[16] == ':'
            && Strings.ParseNat(r[11..13]) == Some(f.hours)
            && Strings.ParseNat(r[14..16]) == Some(f.minutes)
            && Strings.ParseNat(r[17..19]) == Some(f.seconds))
  {
    assert Strings.Pow10(3) == 1000 && Strings.Pow10(4) == 10000;
    Strings.NatToStringLength(f.year, 3);
    Strings.ParseNatToString(f.year);
    var y := Strings.IntToString(f.year);
    var mo, da := Strings.Pad2(f.month), Strings.Pad2(f.day);
    DateLayout(y, mo, da);
    if includeTime {
      TimeLayout(y + "-" + mo + "-" + da, Strings.Pad2(f.hours), Strings.Pad2(f.minutes), Strings.Pad2(f.seconds));
    }
  }

  /** Where the parts of `YYYY-MM-DD` sit. */
  lemma DateLayout(y: string, mo: string, da: string)
    requires |y| == 4 && |mo| == 2 && |da| == 2
    ensures var r := y + "-" + mo + "-" + da;
      |r| == 10 && r[..4] == y && r[4] == '-' && r[5..7] == mo && r[7] == '-' && r[8..10] == da
  {
  }

  /** Where the parts of ` HH:MM:SS` sit after a ten-character date, which stays in front. */
  lemma TimeLayout(ymd: string, h: string, mi: string, se: string)
    requires |ymd| == 10 && |h| == 2 && |mi| == 2 && |se| == 2
    ensures var r := ymd + " " + h + ":" + mi + ":" + se;
      && |r| == 19 && r[..4] == ymd[..4] && r[4] == ymd[4] && r[5..7] == ymd[5..7] && r[7] == ymd[7] && r[8..10] == ymd[8..10]
      && r[10] == ' ' && r[11..13] == h && r[13] == ':' && r[14..16] == mi && r[16] == ':' && r[17..19] == se
  {
  }

  // ===========================================================================
  // Log records and filters

  /** A system log: `id`, `user_username`, `log_description` (missing text is ""). */
  datatype SystemLog = SystemLog(id: Option<int>, username: string, description: string)

  /** An interface log (missing text fields are ""). */
  datatype InterfaceLog = InterfaceLog(
    id: Option<int>, username: string, alterationType: string, didFail: JsValues.Flag,
    iface: string, project: string, timestamp: string, description: string)

  /** The filter inputs of the system-log table; "" is an unset filter. */
  datatype SystemFilters = SystemFilters(username: string, logType: string, start: string, end: string)

  /** The filter inputs of the interface-log table; "" is an unset filter. */
  datatype InterfaceFilters = InterfaceFilters(
    username: string, alterationType: string, didFail: string, iface: string,
    project: string, start: string, end: string)

  const NoSystemFilters := SystemFilters("", "", "", "")
  const NoInterfaceFilters := InterfaceFilters("", "", "", "", "", "", "")

  /** The username filter: unset, or a case-insensitive substring of the log's username. */
  function UsernameMatches(username: string, filter: string): (r: bool)
    ensures filter == "" ==> r
    ensures Strings.ToLower(filter) == Strings.ToLower(username) ==> r
    ensures r ==> filter == "" || |filter| <= |username|
  {
    assert Strings.OccursAt(Strings.ToLower(username), Strings.ToLower(username), 0);
    filter == "" || Strings.Contains(Strings.ToLower(username), Strings.ToLower(filter))
  }

  /**
   * The date-range test on a valid instant: not before the start day's
   * 00:00:00.000 and not after the end day's 23:59:59.999. A bound that is
   * not a valid date compares false both ways and so excludes nothing.
   */
  function WithinBounds(t: int, start: string, end: string, reader: DateReader): (r: bool)
    ensures reader.dayStart(start).None? && reader.dayEnd(end).None? ==> r
    ensures r && reader.dayStart(start).Some? ==> start == "" || reader.dayStart(start).value <= t
    ensures r && reader.dayEnd(end).Some? ==> end == "" || t <= reader.dayEnd(end).value
  {
    && (start == "" || !(reader.dayStart(start).Some? && t < reader.dayStart(start).value))
    && (end == "" || !(reader.dayEnd(end).Some? && t > reader.dayEnd(end).value))
  }

  /**
   * The date part of the system-log filter. `parseSystemLogTimestamp` yields
   * no date only when the timestamp text is "N/A"; an invalid `Date` is
   * still an object, so it passes every bound.
   */
  function SystemDateMatches(description: string, start: string, end: string, reader: DateReader): (r: bool)
    ensures start == "" && end == "" ==> r
    ensures TimestampText(description) == "N/A" ==> (r <==> start == "" && end == "")
    ensures TimestampText(description) != "N/A" && reader.parse(TimestampText(description)).None? ==> r
  {
    var text := TimestampText(description);
    if text == "N/A" then start == "" && end == ""
    else match reader.parse(text)
      case None => true
      case Some(t) => WithinBounds(t, start, end, reader)
  }

  /** The date part of the interface-log filter: a missing or invalid timestamp fails any set bound. */
  function InterfaceDateMatches(timestamp: string, start: string, end: string, reader: DateReader): (r: bool)
    ensures start == "" && end == "" ==> r
    ensures timestamp == "" || reader.parse(timestamp).None? ==> (r <==> start == "" && end == "")
  {
    if timestamp != "" && reader.parse(timestamp).Some? then WithinBounds(reader.parse(timestamp).value, start, end, reader)
    else start == "" && end == ""
  }

  /** The test `filteredSystemLogs` applies to one log: every set filter must admit it. */
  function SystemLogMatches(log: SystemLog, f: SystemFilters, reader: DateReader): (r: bool)
    ensures f == NoSystemFilters ==> r
    ensures r && f.logType != "" ==> SystemLogType(log.description) == f.logType
    ensures r ==> UsernameMatches(log.username, f.username)
  {
    && UsernameMatches(log.username, f.username)
    && (f.logType == "" || SystemLogType(log.description) == f.logType)
    && SystemDateMatches(log.description, f.start, f.end, reader)
  }

  /** The test `filteredInterfaceLogs` applies to one log: every set filter must admit it. */
  function InterfaceLogMatches(log: InterfaceLog, f: InterfaceFilters, reader: DateReader): (r: bool)
    ensures f == NoInterfaceFilters ==> r
    ensures r && f.alterationType != "" ==> log.alterationType == f.alterationType
    ensures r && f.iface != "" ==> log.iface == f.iface
    ensures r && f.project != "" ==> log.project == f.project
  {
    && UsernameMatches(log.username, f.username)
    && (f.alterationType == "" || log.alterationType == f.alterationType)
    && (f.didFail == "" || JsValues.FlagString(log.didFail) == f.didFail)
    && (f.iface == "" || log.iface == f.iface)
    && (f.project == "" || log.project == f.project)
    && InterfaceDateMatches(log.timestamp, f.start, f.end, reader)
  }

  /**
   * `filteredSystemLogs`: exactly the matching logs, in their order, each as
   * many times as the loaded list holds it.
   */
  function FilteredSystemLogs(logs: seq<SystemLog>, f: SystemFilters, reader: DateReader): (r: seq<SystemLog>)
    ensures forall i :: 0 <= i < |r| ==> r[i] in logs && SystemLogMatches(r[i], f, reader)
    ensures forall i :: 0 <= i < |logs| && SystemLogMatches(logs[i], f, reader) ==> logs[i] in r
    ensures Seqs.IsSubsequence(r, logs)
    ensures forall x :: multiset(r)[x] == if SystemLogMatches(x, f, reader) then multiset(logs)[x] else 0
  {
    var keep := log => SystemLogMatches(log, f, reader);
    assert forall x :: multiset(Seqs.Filter(logs, keep))[x] == if keep(x) then multiset(logs)[x] else 0 by {
      forall x { Seqs.FilterMultiplicity(logs, keep, x); }
    }
    Seqs.Filter(logs, keep)
  }

  /**
   * `filteredInterfaceLogs`: exactly the matching logs, in their order, each
   * as many times as the loaded list holds it.
   */
  function FilteredInterfaceLogs(logs: seq<InterfaceLog>, f: InterfaceFilters, reader: DateReader): (r: seq<InterfaceLog>)
    ensures forall i :: 0 <= i < |r| ==> r[i] in logs && InterfaceLogMatches(r[i], f, reader)
    ensures forall i :: 0 <= i < |logs| && InterfaceLogMatches(logs[i], f, reader) ==> logs[i] in r
    ensures Seqs.IsSubsequence(r, logs)
    ensures forall x :: multiset(r)[x] == if InterfaceLogMatches(x, f, reader) then multiset(logs)[x] else 0
  {
    var keep := log => InterfaceLogMatches(log, f, reader);
    assert forall x :: multiset(Seqs.Filter(logs, keep))[x] == if keep(x) then multiset(logs)[x] else 0 by {
      forall x { Seqs.FilterMultiplicity(logs, keep, x); }
    }
    Seqs.Filter(logs, keep)
  }

  /** With every system-log filter cleared, the whole list is shown. */
  lemma ClearedSystemFiltersShowAll(logs: seq<SystemLog>, reader: DateReader)
    ensures FilteredSystemLogs(logs, NoSystemFilters, reader) == logs
  {
    Seqs.FilterKeepsAll(logs, log => SystemLogMatches(log, NoSystemFilters, reader));
  }

  /** With every interface-log filter cleared, the whole list is shown. */
  lemma ClearedInterfaceFiltersShowAll(logs: seq<InterfaceLog>, reader: DateReader)
    ensures FilteredInterfaceLogs(logs, NoInterfaceFilters, reader) == logs
  {
    Seqs.FilterKeepsAll(logs, log => InterfaceLogMatches(log, NoInterfaceFilters, reader));
  }

  /**
   * Under a date bound, a system log whose timestamp text is "N/A" is
   * hidden, while one whose text is not a valid date is shown; an interface
   * log with a missing or invalid timestamp is hidden.
   */
  lemma UndatedLogsUnderDateBound(log: SystemLog, ilog: InterfaceLog, start: string, end: string, reader: DateReader)
    requires start != "" || end != ""
    ensures TimestampText(log.description) == "N/A" ==> !SystemDateMatches(log.description, start, end, reader)
    ensures TimestampText(log.description) != "N/A" && reader.parse(TimestampText(log.description)).None?
            ==> SystemDateMatches(log.description, start, end, reader)
    ensures ilog.timestamp == "" || reader.parse(ilog.timestamp).None?
            ==> !InterfaceDateMatches(ilog.timestamp, start, end, reader)
  {
  }

  /** The filter text is lower-cased too, so its letter case never matters. */
  lemma UsernameFilterIgnoresCase(username: string, filter: string)
    ensures UsernameMatches(username, filter) <==> UsernameMatches(username, Strings.ToLower(filter))
  {
    var lo := Strings.ToLower(filter);
    assert Strings.ToLower(lo) == lo;
  }

  /** `String(log.didFail)` matching: "undefined" and "null" select the logs without a boolean. */
  lemma DidFailFilter(log: InterfaceLog, f: InterfaceFilters, reader: DateReader)
    requires InterfaceLogMatches(log, f, reader)
    ensures f.didFail == "true" ==> log.didFail == JsValues.Bool(true)
    ensures f.didFail == "false" ==> log.didFail == JsValues.Bool(false)
    ensures f.didFail == "undefined" ==> log.didFail == JsValues.Undefined
  {
  }

  // ===========================================================================
  // Drop-down options

  /** `availableSystemLogTypes`: the distinct types of the loaded logs, sorted. */
  function AvailableSystemLogTypes(logs: seq<SystemLog>): (r: seq<string>)
    ensures Seqs.StrictlySorted(r)
    ensures forall t :: t in r <==> exists i :: 0 <= i < |logs| && SystemLogType(logs[i].description) == t
  {
    var types := Seqs.Map(logs, (log: SystemLog) => SystemLogType(log.description));
    assert forall t :: t in types <==> exists i :: 0 <= i < |logs| && SystemLogType(logs[i].description) == t by {
      forall t | t in types ensures exists i :: 0 <= i < |logs| && SystemLogType(logs[i].description) == t {
        var i :| 0 <= i < |types| && types[i] == t;
      }
    }
    Seqs.SortedDistinct(types)
  }

  function AlterationTypeOf(log: InterfaceLog): string { log.alterationType }
  function InterfaceOf(log: InterfaceLog): string { log.iface }
  function ProjectOf(log: InterfaceLog): string { log.project }

  /** The distinct non-empty values of one field of the loaded interface logs, sorted. */
  function AvailableValues(logs: seq<InterfaceLog>, field: InterfaceLog -> string): (r: seq<string>)
    ensures Seqs.StrictlySorted(r)
    ensures forall v :: v in r <==> v != "" && exists i :: 0 <= i < |logs| && field(logs[i]) == v
  {
    var values := Seqs.Map(logs, field);
    assert forall v :: v in values <==> exists i :: 0 <= i < |logs| && field(logs[i]) == v by {
      forall v | v in values ensures exists i :: 0 <= i < |logs| && field(logs[i]) == v {
        var i :| 0 <= i < |values| && values[i] == v;
      }
    }
    Seqs.SortedDistinctNonEmpty(values)
  }

  /** `availableIfaceAlterationTypes`, `availableIfaceInterfaces`, `availableIfaceProjects`. */
  function AvailableAlterationTypes(logs: seq<InterfaceLog>): seq<string> { AvailableValues(logs, AlterationTypeOf) }
  function AvailableInterfaces(logs: seq<InterfaceLog>): seq<string> { AvailableValues(logs, InterfaceOf) }
  function AvailableProjects(logs: seq<InterfaceLog>): seq<string> { AvailableValues(logs, ProjectOf) }

  // ===========================================================================
  // CSV export

  /** How `Array.prototype.join` writes `log.id`. */
  function IdText(id: Option<int>): (r: string)
    ensures Csv.PlainSafe(r)
  {
    match id
    case None => ""
    case Some(n) => Strings.IntToString(n)
  }

  /**
   * `genericExportToCSV`: nothing when there is nothing to export (the page
   * alerts instead), else the header line and one line per log.
   */
  function ExportCsv(headers: seq<string>, lines: seq<seq<Csv.Field>>): (r: Option<string>)
    ensures r.None? <==> lines == []
    ensures r.Some? ==> r.value == Csv.Document(headers, lines)
  {
    if lines == [] then None
    else Some(Csv.Document(headers, lines))
  }

  const SystemHeaders := ["ID", "Username", "Action", "Timestamp", "Full Description"]
  const InterfaceHeaders := ["ID", "Username", "Alteration Type", "Failed", "Interface", "Project", "Timestamp", "Description"]

  /** A system-log line for the given texts: the id raw, the description escaped, the rest wrapped. */
  function SystemRow(id: string, username: string, logType: string, timestamp: string, description: string): seq<Csv.Field> {
    [Csv.Raw(id), Csv.Wrapped(username), Csv.Wrapped(logType), Csv.Wrapped(timestamp), Csv.WrappedEscaped(description)]
  }

  /** The fields the system-log row mapper writes. */
  function SystemFields(log: SystemLog): seq<Csv.Field> {
    SystemRow(IdText(log.id), log.username, SystemLogType(log.description), TimestampText(log.description), log.description)
  }

  /** `exportSystemLogsToCSV` over the filtered logs: the row mapper writes each log's fields as one line. */
  function SystemLogsCsv(logs: seq<SystemLog>): (r: Option<string>)
    ensures r.None? <==> logs == []
  {
    ExportCsv(SystemHeaders, Seqs.Map(logs, SystemFields))
  }

  /** The `formatDate` text of an interface log's timestamp. */
  function InterfaceDateText(timestamp: string, reader: DateReader): string {
    FormatDate(if timestamp != "" && reader.parse(timestamp).Some? then Some(reader.local(reader.parse(timestamp).value)) else None, true)
  }

  /** An interface-log line for the given texts: the id and the failure flag raw, the description escaped, the rest wrapped. */
  function InterfaceRow(id: string, username: string, alterationType: string, failed: string,
                        iface: string, project: string, date: string, description: string): seq<Csv.Field> {
    [Csv.Raw(id), Csv.Wrapped(username), Csv.Wrapped(alterationType), Csv.Raw(failed),
     Csv.Wrapped(iface), Csv.Wrapped(project), Csv.Wrapped(date), Csv.WrappedEscaped(description)]
  }

  /** The fields the interface-log row mapper writes; `didFail` is written raw. */
  function InterfaceFields(log: InterfaceLog, reader: DateReader): seq<Csv.Field> {
    InterfaceRow(IdText(log.id), log.username, log.alterationType, JsValues.FlagJoinText(log.didFail),
                 log.iface, log.project, InterfaceDateText(log.timestamp, reader), log.description)
  }

  /** `exportInterfaceLogsToCSV` over the filtered logs. */
  function InterfaceLogsCsv(logs: seq<InterfaceLog>, reader: DateReader): (r: Option<string>)
    ensures r.None? <==> logs == []
  {
    ExportCsv(InterfaceHeaders, InterfaceLines(logs, reader))
  }

  /** The fields of every interface log, in order. */
  function InterfaceLines(logs: seq<InterfaceLog>, reader: DateReader): (r: seq<seq<Csv.Field>>)
    ensures |r| == |logs| && forall i :: 0 <= i < |logs| ==> r[i] == InterfaceFields(logs[i], reader)
  {
    Seqs.Map(logs, (log: InterfaceLog) => InterfaceFields(log, reader))
  }

  /** The fields the row mapper wraps in quotes without escaping hold no quote. */
  predicate SystemQuoteFree(log: SystemLog) {
    '"' !in log.username && '"' !in SystemLogType(log.description) && '"' !in TimestampText(log.description)
  }

  lemma SystemRowReadable(id: string, username: string, logType: string, timestamp: string, description: string)
    requires Csv.PlainSafe(id) && '"' !in username && '"' !in logType && '"' !in timestamp
    ensures Csv.ReadableLine(SystemRow(id, username, logType, timestamp, description))
  {
    var row := SystemRow(id, username, logType, timestamp, description);
    assert forall i :: 0 <= i < |row| ==> Csv.Readable(row[i]);
  }

  lemma SystemFieldsReadable(log: SystemLog)
    requires SystemQuoteFree(log)
    ensures Csv.ReadableLine(SystemFields(log))
  {
    SystemRowReadable(IdText(log.id), log.username, SystemLogType(log.description), TimestampText(log.description), log.description);
  }

  lemma SystemRowValues(id: string, username: string, logType: string, timestamp: string, description: string)
    ensures Csv.LineValues(SystemRow(id, username, logType, timestamp, description)) == [id, username, logType, timestamp, description]
  {
  }

  /** The values a system-log line holds: id, username, type, timestamp text and description. */
  lemma SystemLineValues(log: SystemLog)
    ensures Csv.LineValues(SystemFields(log))
            == [IdText(log.id), log.username, SystemLogType(log.description), TimestampText(log.description), log.description]
  {
    SystemRowValues(IdText(log.id), log.username, SystemLogType(log.description), TimestampText(log.description), log.description);
  }

  /**
   * Exporting a non-empty list of system logs and reading the file back
   * gives the header, then the values of every log's line, in order.
   */
  lemma SystemCsvRoundTrip(logs: seq<SystemLog>)
    requires logs != []
    requires forall i :: 0 <= i < |logs| ==> SystemQuoteFree(logs[i])
    ensures Csv.ParseFile(SystemLogsCsv(logs).value)
            == Some([SystemHeaders] + Seqs.Map(Seqs.Map(logs, SystemFields), Csv.LineValues))
  {
    var lines := Seqs.Map(logs, SystemFields);
    forall i | 0 <= i < |logs| ensures Csv.ReadableLine(lines[i]) {
      SystemFieldsReadable(logs[i]);
    }
    HeadersPlain(SystemHeaders);
    Csv.DocumentRoundTrip(SystemHeaders, lines);
  }

  predicate InterfaceQuoteFree(log: InterfaceLog) {
    '"' !in log.username && '"' !in log.alterationType && '"' !in log.iface && '"' !in log.project
  }

  /** A formatted date holds no quote. */
  lemma DateTextQuoteFree(timestamp: string, reader: DateReader)
    ensures '"' !in InterfaceDateText(timestamp, reader)
  {
    var date := InterfaceDateText(timestamp, reader);
    FormatDateShape(if timestamp != "" && reader.parse(timestamp).Some? then Some(reader.local(reader.parse(timestamp).value)) else None, true);
    forall k | 0 <= k < |date| ensures date[k] != '"' { assert DateChar(date[k]); }
  }

  lemma InterfaceRowReadable(id: string, username: string, alterationType: string, failed: string,
                             iface: string, project: string, date: string, description: string)
    requires Csv.PlainSafe(id) && Csv.PlainSafe(failed)
    requires '"' !in username && '"' !in alterationType && '"' !in iface && '"' !in project && '"' !in date
    ensures Csv.ReadableLine(InterfaceRow(id, username, alterationType, failed, iface, project, date, description))
  {
    var row := InterfaceRow(id, username, alterationType, failed, iface, project, date, description);
    assert forall i :: 0 <= i < |row| ==> Csv.Readable(row[i]);
  }

  /** The failure flag is written as "true", "false" or "", none of which needs quoting. */
  lemma FlagTextPlain(f: JsValues.Flag)
    ensures Csv.PlainSafe(JsValues.FlagJoinText(f))
  {
    var t := JsValues.FlagJoinText(f);
    forall k | 0 <= k < |t| ensures t[k] != ',' && t[k] != '\n' && t[k] != '"' {
      assert 'a' <= t[k] <= 'z';
    }
  }

  lemma InterfaceFieldsReadable(log: InterfaceLog, reader: DateReader)
    requires InterfaceQuoteFree(log)
    ensures Csv.ReadableLine(InterfaceFields(log, reader))
  {
    DateTextQuoteFree(log.timestamp, reader);
    FlagTextPlain(log.didFail);
    InterfaceRowReadable(IdText(log.id), log.username, log.alterationType, JsValues.FlagJoinText(log.didFail),
                         log.iface, log.project, InterfaceDateText(log.timestamp, reader), log.description);
  }

  lemma InterfaceRowValues(id: string, username: string, alterationType: string, failed: string,
                           iface: string, project: string, date: string, description: string)
    ensures Csv.LineValues(InterfaceRow(id, username, alterationType, failed, iface, project, date, description))
            == [id, username, alterationType, failed, iface, project, date, description]
  {
  }

  /** The values an interface-log line holds; `didFail` reads back as "true", "false" or "". */
  lemma InterfaceLineValues(log: InterfaceLog, reader: DateReader)
    ensures Csv.LineValues(InterfaceFields(log, reader))
            == [IdText(log.id), log.username, log.alterationType, JsValues.FlagJoinText(log.didFail),
                log.iface, log.project, InterfaceDateText(log.timestamp, reader), log.description]
  {
    InterfaceRowValues(IdText(log.id), log.username, log.alterationType, JsValues.FlagJoinText(log.didFail),
                       log.iface, log.project, InterfaceDateText(log.timestamp, reader), log.description);
  }

  /**
   * Exporting a non-empty list of interface logs and reading the file back
   * gives the header, then the values of every log's line, in order.
   */
  lemma InterfaceCsvRoundTrip(logs: seq<InterfaceLog>, reader: DateReader)
    requires logs != []
    requires forall i :: 0 <= i < |logs| ==> InterfaceQuoteFree(logs[i])
    ensures Csv.ParseFile(InterfaceLogsCsv(logs, reader).value)
            == Some([InterfaceHeaders] + Seqs.Map(InterfaceLines(logs, reader), Csv.LineValues))
  {
    InterfaceLinesReadable(logs, reader);
    HeadersPlain(InterfaceHeaders);
    Csv.DocumentRoundTrip(InterfaceHeaders, InterfaceLines(logs, reader));
  }

  /** Both header lines are written plain: no header holds a separator or a quote. */
  lemma HeadersPlain(headers: seq<string>)
    requires headers == SystemHeaders || headers == InterfaceHeaders
    ensures |headers| >= 2 && forall i :: 0 <= i < |headers| ==> Csv.PlainSafe(headers[i])
  {
    forall i | 0 <= i < |headers| ensures Csv.PlainSafe(headers[i]) {
      var h := headers[i];
      forall k | 0 <= k < |h| ensures h[k] != ',' && h[k] != '\n' && h[k] != '"' {
        assert 'A' <= h[k] <= 'z' || h[k] == ' ';
      }
    }
  }

  lemma InterfaceLinesReadable(logs: seq<InterfaceLog>, reader: DateReader)
    requires forall i :: 0 <= i < |logs| ==> InterfaceQuoteFree(logs[i])
    ensures forall i :: 0 <= i < |logs| ==> Csv.ReadableLine(InterfaceLines(logs, reader)[i])
  {
    var lines := InterfaceLines(logs, reader);
    forall i | 0 <= i < |logs| ensures Csv.ReadableLine(lines[i]) {
      InterfaceFieldsReadable(logs[i], reader);
    }
  }

  // ===========================================================================
  // Page state

  /** The state the page keeps: the loaded logs and the filter inputs of both tables. */
  class MonitoringPage {
    var systemLogs: seq<SystemLog>
    var interfaceLogs: seq<InterfaceLog>
    var systemFilters: SystemFilters
    var interfaceFilters: InterfaceFilters

    /** Nothing loaded, every filter unset. */
    constructor ()
      ensures systemLogs == [] && interfaceLogs == []
      ensures systemFilters == NoSystemFilters && interfaceFilters == NoInterfaceFilters
    {
      systemLogs := [];
      interfaceLogs := [];
      systemFilters := NoSystemFilters;
      interfaceFilters := NoInterfaceFilters;
    }

    /** The rows the system-log table shows. */
    function VisibleSystemLogs(reader: DateReader): seq<SystemLog>
      reads this
    {
      FilteredSystemLogs(systemLogs, systemFilters, reader)
    }

    /** The rows the interface-log table shows. */
    function VisibleInterfaceLogs(reader: DateReader): seq<InterfaceLog>
      reads this
    {
      FilteredInterfaceLogs(interfaceLogs, interfaceFilters, reader)
    }

    /** `handleClearSystemLogFilters`: every system-log filter unset, so every system log is shown. */
    method ClearSystemLogFilters(ghost reader: DateReader)
      modifies this
      ensures systemFilters == NoSystemFilters
      ensures systemLogs == old(systemLogs) && interfaceLogs == old(interfaceLogs)
      ensures interfaceFilters == old(interfaceFilters)
      ensures VisibleSystemLogs(reader) == systemLogs
    {
      systemFilters := NoSystemFilters;
      ClearedSystemFiltersShowAll(systemLogs, reader);
    }

    /** `handleClearInterfaceLogFilters`: every interface-log filter unset, so every interface log is shown. */
    method ClearInterfaceLogFilters(ghost reader: DateReader)
      modifies this
      ensures interfaceFilters == NoInterfaceFilters
      ensures systemLogs == old(systemLogs) && interfaceLogs == old(interfaceLogs)
      ensures systemFilters == old(systemFilters)
      ensures VisibleInterfaceLogs(reader) == interfaceLogs
    {
      interfaceFilters := NoInterfaceFilters;
      ClearedInterfaceFiltersShowAll(interfaceLogs, reader);
    }
  }
}
