/**
 * What the credential pages share: the five password-strength rules of the
 * password change page, written as the regular expressions the page tests
 * and proved equal to plain character-class conditions; the failed-attempt
 * counter kept in `localStorage`; and when the captcha and the submit
 * button are shown.
 */
module Credentials {
  import opened Wrappers
  import Strings

  // ===========================================================================
  // Password strength (src/ChangePassword.js)

  /** The character classes of the rules. */
  datatype CharClass = LowerCase | UpperCase | Digit | Special

  /** `[a-z]`, `[A-Z]`, `[0-9]` and `[!@#$%^&*]`. */
  predicate InClass(c: char, cls: CharClass) {
    match cls
    case LowerCase => 'a' <= c <= 'z'
    case UpperCase => 'A' <= c <= 'Z'
    case Digit => '0' <= c <= '9'
    case Special => c == '!' || c == '@' || c == '#' || c == '$' || c == '%' || c == '^' || c == '&' || c == '*'
  }

  /** No line terminator in `s[i..j]`: what `.` may match. */
  predicate SingleLine(s: string, i: int, j: int)
    requires 0 <= i <= j <= |s|
  {
    forall m :: i <= m < j ==> !Strings.IsLineTerminator(s[m])
  }

  /** `(?=.*[class])` succeeds at position `i`: a character of the class follows on the same line. */
  ghost predicate ClassLookaheadAt(s: string, i: nat, cls: CharClass) {
    exists j :: i <= j < |s| && SingleLine(s, i, j) && InClass(s[j], cls)
  }

  /** `(?=.{8,})` succeeds at position `i`: at least eight characters follow on the same line. */
  ghost predicate LengthLookaheadAt(s: string, i: nat) {
    exists j :: i + 8 <= j <= |s| && SingleLine(s, i, j)
  }

  /** The rule for a class: some character of the value is in it. */
  predicate ClassRule(s: string, cls: CharClass) {
    exists j :: 0 <= j < |s| && InClass(s[j], cls)
  }

  /** Eight characters from position `i` on, none a line terminator. */
  predicate RunOfEightAt(s: string, i: nat) {
    i + 8 <= |s| && SingleLine(s, i, i + 8)
  }

  /** The length rule: eight characters in a row without a line terminator. */
  predicate LengthRule(s: string) {
    exists i :: 0 <= i <= |s| - 8 && RunOfEightAt(s, i)
  }

  /** `RegExp.test` of `(?=.*[class])`: the lookahead succeeds at some position of the value. */
  ghost predicate ClassRegexTest(s: string, cls: CharClass) {
    exists i :: 0 <= i <= |s| && ClassLookaheadAt(s, i, cls)
  }

  /** `RegExp.test` of `(?=.{8,})`: the lookahead succeeds at some position of the value. */
  ghost predicate LengthRegexTest(s: string) {
    exists i :: 0 <= i <= |s| && LengthLookaheadAt(s, i)
  }

  /** `RegExp.test` of `(?=.*[class])` holds exactly when the value contains a character of the class. */
  lemma ClassRuleIsRegexTest(s: string, cls: CharClass)
    ensures ClassRule(s, cls) <==> ClassRegexTest(s, cls)
  {
    if ClassRule(s, cls) {
      var j :| 0 <= j < |s| && InClass(s[j], cls);
      assert ClassLookaheadAt(s, j, cls);
    }
  }

  /** `RegExp.test` of `(?=.{8,})` holds exactly when some line of the value has eight characters. */
  lemma LengthRuleIsRegexTest(s: string)
    ensures LengthRule(s) <==> LengthRegexTest(s)
  {
    if i :| 0 <= i <= |s| && LengthLookaheadAt(s, i) {
      var j :| i + 8 <= j <= |s| && SingleLine(s, i, j);
      assert RunOfEightAt(s, i);
    }
    if LengthRule(s) {
      var i :| 0 <= i <= |s| - 8 && RunOfEightAt(s, i);
      assert SingleLine(s, i, i + 8);
      assert LengthLookaheadAt(s, i);
    }
  }

  /** For a value without line terminators (any password field) the length rule is "at least eight characters". */
  lemma LengthRuleSingleLine(s: string)
    requires SingleLine(s, 0, |s|)
    ensures LengthRule(s) <==> |s| >= 8
  {
    if |s| >= 8 {
      assert RunOfEightAt(s, 0);
    }
  }

  /** The five flags `handleChange` sets. */
  datatype Strength = Strength(lower: bool, upper: bool, number: bool, special: bool, length: bool)

  /** The flags for a new password: each is the `RegExp.test` of its pattern on the value. */
  function StrengthOf(s: string): (r: Strength)
    ensures r.lower <==> ClassRegexTest(s, LowerCase)
    ensures r.upper <==> ClassRegexTest(s, UpperCase)
    ensures r.number <==> ClassRegexTest(s, Digit)
    ensures r.special <==> ClassRegexTest(s, Special)
    ensures r.length <==> LengthRegexTest(s)
  {
    ClassRuleIsRegexTest(s, LowerCase);
    ClassRuleIsRegexTest(s, UpperCase);
    ClassRuleIsRegexTest(s, Digit);
    ClassRuleIsRegexTest(s, Special);
    LengthRuleIsRegexTest(s);
    Strength(ClassRule(s, LowerCase), ClassRule(s, UpperCase), ClassRule(s, Digit), ClassRule(s, Special), LengthRule(s))
  }

  /** The Change Password button is rendered when all five flags hold. */
  predicate AllRulesHold(r: Strength) {
    r.lower && r.upper && r.number && r.special && r.length
  }

  /** A password the button accepts has eight characters and one of each class. */
  lemma StrongPassword(s: string)
    requires SingleLine(s, 0, |s|)
    ensures AllRulesHold(StrengthOf(s)) <==>
      |s| >= 8 && ClassRule(s, LowerCase) && ClassRule(s, UpperCase) && ClassRule(s, Digit) && ClassRule(s, Special)
  {
    LengthRuleSingleLine(s);
  }

  /** Appending to a password never turns a rule off. */
  lemma RulesGrow(s: string, t: string)
    ensures var a, b := StrengthOf(s), StrengthOf(s + t);
      (a.lower ==> b.lower) && (a.upper ==> b.upper) && (a.number ==> b.number)
      && (a.special ==> b.special) && (a.length ==> b.length)
  {
    var u := s + t;
    forall cls | ClassRule(s, cls) ensures ClassRule(u, cls) {
      var j :| 0 <= j < |s| && InClass(s[j], cls);
      assert u[j] == s[j];
    }
    if LengthRule(s) {
      var i :| 0 <= i <= |s| - 8 && RunOfEightAt(s, i);
      assert forall m :: i <= m < i + 8 ==> u[m] == s[m];
      assert RunOfEightAt(u, i);
    }
  }

  // ===========================================================================
  // Replies of the authentication requests

  /**
   * The body of the `/token` reply: not JSON, or its `access_token`
   * (`None` when the field is missing) and `detail` ("" when missing).
   */
  datatype TokenBody = NotJson | TokenJson(accessToken: Option<string>, detail: string)

  /**
   * What `localStorage.setItem('token', data.access_token)` stores: the
   * token, or the text "undefined" when the reply has none. That text is
   * not empty, so the pages' `!token` guards read it as a signed-in user.
   */
  function StoredToken(accessToken: Option<string>): (r: string)
    ensures accessToken.Some? ==> r == accessToken.value
    ensures accessToken.None? ==> r == "undefined" && r != ""
  {
    match accessToken
    case Some(t) => t
    case None => "undefined"
  }

  /** A field left empty or, for text read from storage, missing: `!value`. */
  predicate Blank(value: Option<string>) {
    value.None? || value.value == ""
  }

  const RequiredError := "Username and password are required"
  const AuthenticationFailed := "Authentication failed!"
  const GenericError := "An error has ocurred. Please try again later."

  // ===========================================================================
  // Failed-attempt counter

  /**
   * `JSON.stringify(n)` as stored after a failure; the pages store the count
   * from before the increment.
   */
  function AttemptsText(n: nat): (r: string)
    ensures Strings.ParseNat(r) == Some(n)
  {
    Strings.ParseNatToString(n);
    Strings.NatToString(n)
  }

  /** What a page reads on opening: `JSON.parse` of the stored count, 0 when nothing is stored. */
  function StoredAttempts(stored: Option<string>): nat {
    match stored
    case None => 0
    case Some(s) => Strings.ParseNat(s).GetOr(0)
  }

  // ===========================================================================
  // Captcha and submit button

  /** The captcha is rendered from the third counted failure on. */
  predicate CaptchaShown(attempts: nat) {
    attempts >= 3
  }

  /** `(!captchaDone && attempts <= 2) || captchaDone`. */
  predicate ButtonShown(captchaDone: bool, attempts: nat) {
    (!captchaDone && attempts <= 2) || captchaDone
  }
}
