/**
 * The sign-in page (src/pages/LoginPage.tsx): the email and password rules checked before
 * submitting, the login/register switch, and what a submission leaves on the page.
 */
module LoginPage {
  import opened Wrappers

  // ---------------------------------------------------------------------------
  // The email pattern /[^@ \t\r\n]+@[^@ \t\r\n]+\.[^@ \t\r\n]+/
  // ---------------------------------------------------------------------------

  /** A character of the class `[^@ \t\r\n]`. */
  predicate Allowed(c: char) {
    c != '@' && c != ' ' && c != '\t' && c != '\r' && c != '\n'
  }

  predicate AllAllowed(s: string, a: int, b: int)
    requires 0 <= a <= b <= |s|
  {
    forall m :: a <= m < b ==> Allowed(s[m])
  }

  /** The pattern matches `s[i..l]`, with its '@' at `j` and its '.' at `k`. */
  predicate MatchAt(s: string, i: int, j: int, k: int, l: int) {
    && 0 <= i < j && j + 1 < k && k + 1 < l <= |s|
    && AllAllowed(s, i, j) && s[j] == '@' && AllAllowed(s, j + 1, k) && s[k] == '.' && AllAllowed(s, k + 1, l)
  }

  /** `pattern.test(s)`: the pattern is not anchored, so any match inside `s` will do. */
  predicate PatternMatches(s: string) {
    exists i, j, k, l :: 0 <= i < j < k < l <= |s| && MatchAt(s, i, j, k, l)
  }

  /** The shortest form of a match: one allowed character each side of the '@' part. */
  predicate ShortMatch(s: string, j: int, k: int) {
    && 1 <= j && j + 1 < k && k + 1 < |s|
    && Allowed(s[j - 1]) && s[j] == '@' && AllAllowed(s, j + 1, k) && s[k] == '.' && Allowed(s[k + 1])
  }

  /**
   * A string passes exactly when it has an allowed character, then '@', then a non-empty
   * run of allowed characters up to a '.', then one more allowed character.
   */
  lemma PatternIsShortMatch(s: string)
    ensures PatternMatches(s) <==> exists j, k :: ShortMatch(s, j, k)
  {
    if PatternMatches(s) {
      var i, j, k, l :| 0 <= i < j < k < l <= |s| && MatchAt(s, i, j, k, l);
      assert s[j - 1] == s[j - 1] && s[k + 1] == s[k + 1];
      assert ShortMatch(s, j, k);
    }
    if exists j, k :: ShortMatch(s, j, k) {
      var j, k :| ShortMatch(s, j, k);
      assert MatchAt(s, j - 1, j, k, k + 2);
    }
  }

  /** Whatever surrounds a passing text, the whole still passes: spaces and extra '@'s included. */
  lemma PatternUnanchored(p: string, s: string, q: string)
    requires PatternMatches(s)
    ensures PatternMatches(p + s + q)
  {
    var i, j, k, l :| 0 <= i < j < k < l <= |s| && MatchAt(s, i, j, k, l);
    var t := p + s + q;
    assert forall m :: 0 <= m < |s| ==> t[|p| + m] == s[m];
    assert AllAllowed(t, |p| + i, |p| + j) by {
      forall m | |p| + i <= m < |p| + j ensures Allowed(t[m]) {
        assert t[m] == s[m - |p|];
      }
    }
    assert AllAllowed(t, |p| + j + 1, |p| + k) by {
      forall m | |p| + j + 1 <= m < |p| + k ensures Allowed(t[m]) {
        assert t[m] == s[m - |p|];
      }
    }
    assert AllAllowed(t, |p| + k + 1, |p| + l) by {
      forall m | |p| + k + 1 <= m < |p| + l ensures Allowed(t[m]) {
        assert t[m] == s[m - |p|];
      }
    }
    assert MatchAt(t, |p| + i, |p| + j, |p| + k, |p| + l);
  }

  /** Without an '@', or without a '.', nothing passes. */
  lemma PatternNeedsAtAndDot(s: string)
    ensures '@' !in s ==> !PatternMatches(s)
    ensures '.' !in s ==> !PatternMatches(s)
  {
    if PatternMatches(s) {
      var i, j, k, l :| 0 <= i < j < k < l <= |s| && MatchAt(s, i, j, k, l);
      assert s[j] in s && s[k] in s;
    }
  }

  // ---------------------------------------------------------------------------
  // Field rules
  // ---------------------------------------------------------------------------

  /** The email field's error: required first, then the pattern. */
  function EmailError(email: string): (r: Option<string>)
    ensures r.None? <==> email != "" && PatternMatches(email)
    ensures email == "" ==> r == Some("Email is required")
    ensures email != "" && !PatternMatches(email) ==> r == Some("Enter a valid email")
  {
    if email == "" then Some("Email is required")
    else if !PatternMatches(email) then Some("Enter a valid email")
    else None
  }

  /** The password field's error: required first, then at least 6 characters. */
  function PasswordError(password: string): (r: Option<string>)
    ensures r.None? <==> |password| >= 6
    ensures password == "" ==> r == Some("Password is required")
    ensures 0 < |password| < 6 ==> r == Some("Minimum 6 characters")
  {
    if password == "" then Some("Password is required")
    else if |password| < 6 then Some("Minimum 6 characters")
    else None
  }

  /** A work address passes, one without a dot after the '@' does not, and text around a valid address is not checked. */
  lemma EmailExamples()
    ensures EmailError("ops@biocliq.com").None?
    ensures EmailError("ops@biocliq") == Some("Enter a valid email")
    ensures EmailError("not an ops@biocliq.com") == None
  {
    var good := "ops@biocliq.com";
    assert MatchAt(good, 0, 3, 11, 15);
    var bad := "ops@biocliq";
    assert bad == "ops" + "@" + "biocliq";
    assert forall m :: 0 <= m < |bad| ==> bad[m] != '.';
    PatternNeedsAtAndDot(bad);
    assert "not an ops@biocliq.com" == "not an " + good + "";
    PatternUnanchored("not an ", good, "");
  }

  // ---------------------------------------------------------------------------
  // The page
  // ---------------------------------------------------------------------------

  datatype Mode = Login | Register

  /** The link under the button switches between the two modes. */
  function Toggle(m: Mode): (r: Mode)
    ensures r != m
  {
    if m == Login then Register else Login
  }

  lemma ToggleTwiceIsIdentity(m: Mode)
    ensures Toggle(Toggle(m)) == m
  {
  }

  /** The auth call a submission makes. */
  datatype AuthCall = SignIn(email: string, password: string) | RegisterCall(email: string, password: string)

  /** What the auth call threw: an `Error` with its message, or any other value. */
  datatype Thrown = ErrorObject(message: string) | OtherValue

  /** The message the page shows for a failed call. */
  function FailureMessage(t: Thrown): (r: string)
    ensures t.ErrorObject? ==> r == t.message
    ensures t.OtherValue? ==> r == "Authentication failed"
  {
    match t
    case ErrorObject(m) => m
    case OtherValue => "Authentication failed"
  }

  /** The call made in each mode: sign in when logging in, register otherwise. */
  function CallFor(m: Mode, email: string, password: string): (c: AuthCall)
    ensures c.SignIn? <==> m == Login
    ensures c.email == email && c.password == password
  {
    if m == Login then SignIn(email, password) else RegisterCall(email, password)
  }

  class LoginPage {
    var loading: bool
    var mode: Mode
    var errorMessage: string
    var navigatedTo: Option<string>
    /** The auth calls made so far, in order. */
    var calls: seq<AuthCall>

    constructor ()
      ensures !loading && mode == Login && errorMessage == "" && navigatedTo.None? && calls == []
    {
      loading := false;
      mode := Login;
      errorMessage := "";
      navigatedTo := None;
      calls := [];
    }

    method ToggleMode()
      modifies this`mode
      ensures mode == Toggle(old(mode))
    {
      mode := Toggle(mode);
    }

    /**
     * `onSubmit`: nothing happens while a field has an error. Otherwise one call is made
     * for the current mode (`outcome` None when it returns, else what it threw); success
     * goes to the dashboard, failure shows its message; `loading` ends false either way.
     */
    method Submit(email: string, password: string, outcome: Option<Thrown>) returns (submitted: bool)
      modifies this
      ensures submitted <==> EmailError(email).None? && PasswordError(password).None?
      ensures !submitted ==> unchanged(this)
      ensures submitted ==> calls == old(calls) + [CallFor(old(mode), email, password)]
      ensures submitted ==> !loading && mode == old(mode)
      ensures submitted && outcome.None? ==> navigatedTo == Some("/dashboard") && errorMessage == ""
      ensures submitted && outcome.Some? ==> navigatedTo == old(navigatedTo) && errorMessage == FailureMessage(outcome.value)
    {
      if EmailError(email).Some? || PasswordError(password).Some? {
        return false;
      }
      submitted := true;
      loading := true;
      errorMessage := "";
      calls := calls + [CallFor(mode, email, password)];
      if outcome.None? {
        navigatedTo := Some("/dashboard");
      } else {
        errorMessage := FailureMessage(outcome.value);
      }
      loading := false;
    }
  }
}
