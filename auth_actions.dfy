/**
 * The e-mail sign-in and sign-up forms' validation and the way each auth action
 * turns the provider's reply into its result. Provider replies and environment
 * values are parameters; a `redirect(...)` is returned as a value.
 */
module AuthActions {
  import opened Wrappers
  import opened Schema
  import opened Text

  const InvalidEmail := "Invalid email address"
  const ShortPassword := "Password must be at least 6 characters"
  const PasswordMismatch := "Passwords don't match"
  const CheckEmail := "Check your email for a confirmation link."
  const MinPassword: nat := 6
  const DefaultSiteUrl := "http://localhost:3000"
  const CallbackPath := "/auth/callback"

  /* ---------- zod's e-mail check ---------- */

  predicate IsAsciiLetter(c: char) {
    'a' <= c <= 'z' || 'A' <= c <= 'Z'
  }

  predicate IsAsciiAlnum(c: char) {
    IsAsciiLetter(c) || '0' <= c <= '9'
  }

  /** A character allowed in the local part. */
  predicate IsLocalChar(c: char) {
    IsAsciiAlnum(c) || c == '_' || c == '\'' || c == '+' || c == '-' || c == '.'
  }

  /** The local part: not starting with '.', no "..", and its last character is not '.' or '\''. */
  predicate LocalPartOk(local: string) {
    && local != []
    && local[0] != '.'
    && (forall i :: 0 <= i < |local| ==> IsLocalChar(local[i]))
    && (forall i :: 0 <= i < |local| - 1 ==> !(local[i] == '.' && local[i + 1] == '.'))
    && local[|local| - 1] != '.' && local[|local| - 1] != '\''
  }

  /** One or more labels, separated by '.', each starting alphanumeric and made of alphanumerics and '-'. */
  predicate LabelsOk(labels: string) {
    && labels != []
    && IsAsciiAlnum(labels[0])
    && labels[|labels| - 1] != '.'
    && (forall i :: 0 <= i < |labels| ==> IsAsciiAlnum(labels[i]) || labels[i] == '-' || labels[i] == '.')
    && (forall i :: 0 < i < |labels| ==> labels[i - 1] == '.' ==> IsAsciiAlnum(labels[i]))
  }

  /** The index of the last '.' of `s`, or -1. */
  function LastDot(s: string): (k: int)
    ensures -1 <= k < |s|
    ensures k >= 0 ==> s[k] == '.'
    ensures forall i :: k < i < |s| ==> s[i] != '.'
  {
    if s == [] then -1
    else if s[|s| - 1] == '.' then |s| - 1
    else LastDot(s[..|s| - 1])
  }

  /** The domain: labels, a '.', and a top-level part of at least two letters. */
  predicate DomainOk(domain: string) {
    var k := LastDot(domain);
    && k >= 0
    && LabelsOk(domain[..k])
    && |domain| - (k + 1) >= 2
    && forall i :: k < i < |domain| ==> IsAsciiLetter(domain[i])
  }

  /** The index of the first '@' of `s`, or |s|. */
  function FirstAt(s: string): (k: nat)
    ensures k <= |s|
    ensures k < |s| ==> s[k] == '@'
    ensures forall i :: 0 <= i < k ==> s[i] != '@'
  {
    if s == [] || s[0] == '@' then 0 else 1 + FirstAt(s[1..])
  }

  /** `z.string().email()`: exactly one '@' between a valid local part and a valid domain. */
  predicate IsEmail(s: string)
    ensures IsEmail(s) ==> '@' in s && s[0] != '.' && s[|s| - 1] != '.'
  {
    var k := FirstAt(s);
    k < |s| && LocalPartOk(s[..k]) && DomainOk(s[k + 1..])
  }

  lemma {:induction false} FirstAtOf(local: string, domain: string)
    requires '@' !in local
    ensures FirstAt(local + "@" + domain) == |local|
  {
    if local != [] {
      assert (local + "@" + domain)[1..] == local[1..] + "@" + domain;
      FirstAtOf(local[1..], domain);
    }
  }

  lemma {:induction false} LastDotOf(labels: string, tld: string)
    requires '.' !in tld
    ensures LastDot(labels + "." + tld) == |labels|
  {
    if tld != [] {
      var s := labels + "." + tld;
      assert s[..|s| - 1] == labels + "." + tld[..|tld| - 1];
      LastDotOf(labels, tld[..|tld| - 1]);
    }
  }

  lemma {:induction false} NoDot(s: string)
    requires '.' !in s
    ensures LastDot(s) == -1
  {
    if s != [] {
      NoDot(s[..|s| - 1]);
    }
  }

  /** An address built from a valid local part, labels and a top-level part of letters is accepted. */
  lemma EmailOfParts(local: string, labels: string, tld: string)
    requires '@' !in local && LocalPartOk(local)
    requires LabelsOk(labels)
    requires |tld| >= 2 && forall i :: 0 <= i < |tld| ==> IsAsciiLetter(tld[i])
    ensures IsEmail(local + "@" + (labels + "." + tld))
  {
    var domain := labels + "." + tld;
    var s := local + "@" + domain;
    FirstAtOf(local, domain);
    assert s[..|local|] == local && s[|local| + 1..] == domain;
    assert '.' !in tld by {
      forall i | 0 <= i < |tld| ensures tld[i] != '.' {
        assert IsAsciiLetter(tld[i]);
      }
    }
    LastDotOf(labels, tld);
    assert domain[..|labels|] == labels;
    assert forall i :: |labels| < i < |domain| ==> domain[i] == tld[i - |labels| - 1];
  }

  /** A domain without a '.' is refused. */
  lemma DotlessDomainRejected(local: string, domain: string)
    requires '@' !in local && '.' !in domain
    ensures !IsEmail(local + "@" + domain)
  {
    var s := local + "@" + domain;
    FirstAtOf(local, domain);
    assert s[|local| + 1..] == domain;
    NoDot(domain);
  }

  /** A local part starting with '.' is refused. */
  lemma LeadingDotRejected(local: string, domain: string)
    requires '@' !in local && local != [] && local[0] == '.'
    ensures !IsEmail(local + "@" + domain)
  {
    var s := local + "@" + domain;
    FirstAtOf(local, domain);
    assert s[..|local|] == local;
  }

  /** A text without '@' is refused. */
  lemma NoAtRejected(s: string)
    requires '@' !in s
    ensures !IsEmail(s)
  {
  }

  /** An address accepted by the check holds exactly one '@'. */
  lemma {:induction false} EmailHasOneAt(s: string)
    requires IsEmail(s)
    ensures exists k :: 0 <= k < |s| && s[k] == '@' && '@' !in s[..k] && '@' !in s[k + 1..]
  {
    var k := FirstAt(s);
    var domain := s[k + 1..];
    var d := LastDot(domain);
    assert forall i :: 0 <= i < |domain| ==> domain[i] != '@' by {
      forall i | 0 <= i < |domain|
        ensures domain[i] != '@'
      {
        if i < d {
          assert domain[..d][i] == domain[i];
        }
      }
    }
    assert s[k] == '@' && '@' !in s[..k] && '@' !in s[k + 1..];
  }

  /* ---------- the two schemas ---------- */

  /**
   * `signInSchema`: issues in field order; only type-valid strings reach here. The
   * password's length is its JavaScript length, in UTF-16 code units.
   */
  function SignInIssues(email: string, password: string): (issues: seq<string>)
    ensures issues == [] <==> IsEmail(email) && Utf16Length(password) >= MinPassword
  {
    Check(IsEmail(email), InvalidEmail) + Check(Utf16Length(password) >= MinPassword, ShortPassword)
  }

  /**
   * `signUpSchema`: the field issues, then the refinement. The field checks only
   * mark the result dirty, so the refinement still runs and adds its issue.
   */
  function SignUpIssues(email: string, password: string, confirm: string): (issues: seq<string>)
    ensures issues == [] <==> IsEmail(email) && Utf16Length(password) >= MinPassword && password == confirm
    ensures password != confirm ==> issues[|issues| - 1] == PasswordMismatch
  {
    SignInIssues(email, password) + Check(password == confirm, PasswordMismatch)
  }

  /* ---------- the actions ---------- */

  /** What an auth action hands back to the login page. */
  datatype AuthOutcome =
    | AuthError(message: string)
    | AuthSuccess(message: string)
    | RedirectTo(url: string)
    | NoResult

  /** A sign-in, -up or -out reply from the provider: its error message, if any. */
  type ProviderError = Option<string>

  /** The validation failure message: the first issue only. */
  function FirstIssue(issues: seq<string>): (m: string)
    requires issues != []
  {
    issues[0]
  }

  /** The provider call a sign-in makes, if it gets that far. */
  function SignInRequest(email: string, password: string): (call: Option<(string, string)>)
    ensures call.Some? <==> SignInIssues(email, password) == []
    ensures call.Some? ==> call.value == (email, password)
  {
    if SignInIssues(email, password) == [] then Some((email, password)) else None
  }

  /** `signInWithEmail`. */
  function SignInWithEmail(email: string, password: string, reply: ProviderError): (o: AuthOutcome)
    ensures SignInIssues(email, password) != [] ==> o == AuthError(SignInIssues(email, password)[0])
    ensures SignInIssues(email, password) == [] && reply.Some? ==> o == AuthError(reply.value)
    ensures SignInIssues(email, password) == [] && reply.None? ==> o == RedirectTo("/dashboard")
  {
    var issues := SignInIssues(email, password);
    if issues != [] then AuthError(FirstIssue(issues))
    else if reply.Some? then AuthError(reply.value)
    else RedirectTo("/dashboard")
  }

  /** A short password is refused before the provider is asked, whatever it would answer. */
  lemma ShortPasswordNeverReachesProvider(email: string, password: string, r1: ProviderError, r2: ProviderError)
    requires Utf16Length(password) < MinPassword
    ensures SignInRequest(email, password).None?
    ensures SignInWithEmail(email, password, r1) == SignInWithEmail(email, password, r2)
    ensures SignInWithEmail(email, password, r1).AuthError?
    ensures IsEmail(email) ==> SignInWithEmail(email, password, r1) == AuthError(ShortPassword)
  {
  }

  /** Only the first issue is reported: a bad e-mail hides a short password. */
  lemma OnlyFirstIssueReported(email: string, password: string, reply: ProviderError)
    requires !IsEmail(email) && Utf16Length(password) < MinPassword
    ensures |SignInIssues(email, password)| == 2
    ensures SignInWithEmail(email, password, reply) == AuthError(InvalidEmail)
  {
  }

  /**
   * The minimum counts UTF-16 units: three characters outside the Basic
   * Multilingual Plane make a long enough password, three letters do not.
   */
  lemma AstralPasswordCountsTwice(email: string, password: string, letters: string)
    requires IsEmail(email)
    requires |password| == 3 && forall i :: 0 <= i < 3 ==> password[i] as int >= 0x1_0000
    requires |letters| == 3 && forall i :: 0 <= i < 3 ==> letters[i] as int < 0x1_0000
    ensures SignInIssues(email, password) == []
    ensures SignInIssues(email, letters) == [ShortPassword]
  {
    Utf16LengthOfAstral(password);
    Utf16LengthOfBmp(letters);
  }

  /** `emailRedirectTo`: the origin of the configured project URL, if any, then the callback path. */
  function EmailRedirectTo(supabaseOrigin: Option<string>): (url: string)
    ensures url == supabaseOrigin.GetOr("") + CallbackPath
  {
    (if supabaseOrigin.Some? && supabaseOrigin.value != "" then supabaseOrigin.value else "") + CallbackPath
  }

  /** The provider call a sign-up makes, if it gets that far. */
  function SignUpRequest(email: string, password: string, confirm: string, supabaseOrigin: Option<string>)
    : (call: Option<(string, string, string)>)
    ensures call.Some? <==> SignUpIssues(email, password, confirm) == []
    ensures call.Some? ==> call.value == (email, password, EmailRedirectTo(supabaseOrigin))
  {
    if SignUpIssues(email, password, confirm) == [] then Some((email, password, EmailRedirectTo(supabaseOrigin)))
    else None
  }

  /** `signUpWithEmail`: success is a message, not a redirect. */
  function SignUpWithEmail(email: string, password: string, confirm: string, reply: ProviderError): (o: AuthOutcome)
    ensures !o.RedirectTo? && !o.NoResult?
    ensures SignUpIssues(email, password, confirm) != [] ==> o == AuthError(SignUpIssues(email, password, confirm)[0])
    ensures SignUpIssues(email, password, confirm) == [] && reply.Some? ==> o == AuthError(reply.value)
    ensures o.AuthSuccess? <==> SignUpIssues(email, password, confirm) == [] && reply.None?
    ensures o.AuthSuccess? ==> o.message == CheckEmail
  {
    var issues := SignUpIssues(email, password, confirm);
    if issues != [] then AuthError(FirstIssue(issues))
    else if reply.Some? then AuthError(reply.value)
    else AuthSuccess(CheckEmail)
  }

  /** With a valid address and password, differing confirmation is reported as a mismatch. */
  lemma MismatchReported(email: string, password: string, confirm: string, reply: ProviderError)
    requires IsEmail(email) && Utf16Length(password) >= MinPassword && password != confirm
    ensures SignUpRequest(email, password, confirm, None).None?
    ensures SignUpWithEmail(email, password, confirm, reply) == AuthError(PasswordMismatch)
  {
  }

  /** A mismatch always fails sign-up, even when another issue is the one reported. */
  lemma MismatchAlwaysFails(email: string, password: string, confirm: string, reply: ProviderError)
    requires password != confirm
    ensures SignUpWithEmail(email, password, confirm, reply).AuthError?
    ensures PasswordMismatch in SignUpIssues(email, password, confirm)
  {
  }

  /** `redirectTo` for the OAuth request: the configured site URL or the local default. */
  function GoogleRedirectTarget(siteUrl: Option<string>): (url: string)
    ensures siteUrl.Some? && siteUrl.value != "" ==> url == siteUrl.value + CallbackPath
    ensures siteUrl.None? || siteUrl.value == "" ==> url == "http://localhost:3000/auth/callback"
  {
    (if siteUrl.Some? && siteUrl.value != "" then siteUrl.value else DefaultSiteUrl) + CallbackPath
  }

  /** What the OAuth start call returns. */
  datatype OAuthReply = OAuthReply(url: Option<string>, error: Option<string>)

  /** `signInWithGoogle`: an error wins; otherwise redirect only to a non-empty provider URL. */
  function SignInWithGoogle(reply: OAuthReply): (o: AuthOutcome)
    ensures reply.error.Some? ==> o == AuthError(reply.error.value)
    ensures o.RedirectTo? <==> reply.error.None? && reply.url.Some? && reply.url.value != ""
    ensures o.RedirectTo? ==> o.url == reply.url.value
    ensures reply.error.None? && !o.RedirectTo? ==> o == NoResult
  {
    if reply.error.Some? then AuthError(reply.error.value)
    else if reply.url.Some? && reply.url.value != "" then RedirectTo(reply.url.value)
    else NoResult
  }

  /** `signOut`: global sign-out, whose reply is not looked at, then the login page. */
  function SignOut(reply: ProviderError): (o: AuthOutcome)
    ensures o == RedirectTo("/login")
  {
    RedirectTo("/login")
  }
}
