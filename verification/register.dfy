/** The registration form: the validation chain run on submit, the sign-up
    call it guards, and the Google sign-up button.
 */
module Register {
  import opened Backend
  import Text
  import AuthContext

  /** The four text fields of the form. */
  datatype Form = Form(fullName: string, email: string, password: string, confirmPassword: string)

  /** The form's React state besides its fields. */
  datatype View = View(error: string, showSuccess: bool)

  /** The shortest password the form accepts, in UTF-16 code units. */
  const MinPasswordLength: nat := 6

  /** The checks of `handleSubmit`, in the order they run. */
  datatype Problem = NameRequired | EmailRequired | PasswordTooShort | PasswordMismatch | TermsNotAccepted

  function Message(p: Problem): string {
    match p
    case NameRequired => "請輸入姓名"
    case EmailRequired => "請輸入電子郵件"
    case PasswordTooShort => "密碼長度至少需要 6 個字元"
    case PasswordMismatch => "密碼與確認密碼不一致"
    case TermsNotAccepted => "請同意服務條款和隱私政策"
  }

  /** Whether check `p` fails on the given input. Names and e-mails are
      blank when empty after `trim`; the password length is the untrimmed
      `length`; confirmation is exact equality. */
  predicate Fails(p: Problem, f: Form, agreeTerms: bool) {
    match p
    case NameRequired => Text.IsBlank(f.fullName)
    case EmailRequired => Text.IsBlank(f.email)
    case PasswordTooShort => Text.Utf16Length(f.password) < MinPasswordLength
    case PasswordMismatch => f.password != f.confirmPassword
    case TermsNotAccepted => !agreeTerms
  }

  /** The order the checks run in. */
  const Order: seq<Problem> := [NameRequired, EmailRequired, PasswordTooShort, PasswordMismatch, TermsNotAccepted]

  /** The chain of `if (...) { setError(...); return; }` in `handleSubmit`:
      the first failing check in source order decides the one error. */
  function Validate(f: Form, agreeTerms: bool): (r: Option<Problem>)
    ensures r == Some(NameRequired) <==> Text.IsBlank(f.fullName)
    ensures r == Some(EmailRequired) <==> !Text.IsBlank(f.fullName) && Text.IsBlank(f.email)
    ensures r == Some(PasswordTooShort) <==>
              !Text.IsBlank(f.fullName) && !Text.IsBlank(f.email) && Text.Utf16Length(f.password) < MinPasswordLength
    ensures r == Some(PasswordMismatch) <==>
              !Text.IsBlank(f.fullName) && !Text.IsBlank(f.email) && Text.Utf16Length(f.password) >= MinPasswordLength
              && f.password != f.confirmPassword
    ensures r == Some(TermsNotAccepted) <==>
              !Text.IsBlank(f.fullName) && !Text.IsBlank(f.email) && Text.Utf16Length(f.password) >= MinPasswordLength
              && f.password == f.confirmPassword && !agreeTerms
    ensures r.None? <==>
              !Text.IsBlank(f.fullName) && !Text.IsBlank(f.email) && Text.Utf16Length(f.password) >= MinPasswordLength
              && f.password == f.confirmPassword && agreeTerms
  {
    if Text.IsBlank(f.fullName) then Some(NameRequired)
    else if Text.IsBlank(f.email) then Some(EmailRequired)
    else if Text.Utf16Length(f.password) < MinPasswordLength then Some(PasswordTooShort)
    else if f.password != f.confirmPassword then Some(PasswordMismatch)
    else if !agreeTerms then Some(TermsNotAccepted)
    else None
  }

  /** What one submit or Google sign-up produced: the view, the auth helper
      called (if any), and the scheduled navigation. */
  datatype Outcome = Outcome(view: View, sent: Option<AuthContext.Request>, navigate: Option<Navigation>)

  /** `handleSubmit`: the error is cleared, then a failing check sets its
      message and nothing is sent. A valid form sends the untrimmed e-mail
      and password with the full name as metadata; a reply with an error,
      or a thrown one, shows that error's message and never the success
      screen; a clean reply shows the success screen and schedules the
      return to the login page after three seconds. */
  function Submit(v: View, f: Form, agreeTerms: bool, reply: Reply<()>): (r: Outcome)
    ensures Validate(f, agreeTerms).Some? ==>
              r == Outcome(v.(error := Message(Validate(f, agreeTerms).value)), None, None)
    ensures r.sent.Some? <==> Validate(f, agreeTerms).None?
    ensures r.sent.Some? ==> r.sent.value == AuthContext.SignUp(f.email, f.password, AuthContext.Metadata(f.fullName))
    ensures r.sent.Some? && reply.Ok? ==>
              r.view == View("", true) && r.navigate == Some(Navigation("/", 3000))
    ensures r.sent.Some? && reply.Failed? ==>
              r.view == v.(error := reply.error.message) && r.navigate.None?
    ensures r.sent.Some? && reply.Threw? ==>
              r.view == v.(error := reply.message) && r.navigate.None?
  {
    match Validate(f, agreeTerms)
    case Some(p) => Outcome(v.(error := Message(p)), None, None)
    case None =>
      var call := AuthContext.SignUp(f.email, f.password, AuthContext.Metadata(f.fullName));
      match reply
      case Ok(_) => Outcome(View("", true), Some(call), Some(Navigation("/", 3000)))
      case Failed(e) => Outcome(v.(error := e.message), Some(call), None)
      case Threw(m) => Outcome(v.(error := m), Some(call), None)
  }

  /** `handleGoogleSignUp`: the error is cleared and the provider sign-in is
      always called; an error shows its message, success shows the success
      screen and schedules the inbox after 1.5 seconds. */
  function GoogleSignUp(v: View, reply: Reply<()>): (r: Outcome)
    ensures r.sent == Some(AuthContext.SignInWithGoogle)
    ensures reply.Ok? ==> r.view == View("", true) && r.navigate == Some(Navigation("/inbox", 1500))
    ensures reply.Failed? ==> r.view == v.(error := reply.error.message) && r.navigate.None?
    ensures reply.Threw? ==> r.view == v.(error := reply.message) && r.navigate.None?
  {
    var call := Some(AuthContext.SignInWithGoogle);
    match reply
    case Ok(_) => Outcome(View("", true), call, Some(Navigation("/inbox", 1500)))
    case Failed(e) => Outcome(v.(error := e.message), call, None)
    case Threw(m) => Outcome(v.(error := m), call, None)
  }

  /** With name and e-mail filled in, a password of exactly six characters
      from the Basic Multilingual Plane passes the length check and one of
      five does not. The length is taken before any trimming, so spaces count. */
  lemma LengthBoundary(f: Form, agreeTerms: bool)
    requires !Text.IsBlank(f.fullName) && !Text.IsBlank(f.email)
    requires |f.password| == MinPasswordLength || |f.password| == MinPasswordLength - 1
    requires forall k :: 0 <= k < |f.password| ==> f.password[k] as int < 0x1_0000
    ensures Validate(f, agreeTerms) == Some(PasswordTooShort) <==> |f.password| < MinPasswordLength
  {
  }

  /** The check that decides is the first of `Order` that fails: when the
      i-th check fails and every earlier one passes, validation reports
      exactly that check. */
  lemma {:induction false} FirstFailureWins(f: Form, agreeTerms: bool, i: nat)
    requires i < |Order| && Fails(Order[i], f, agreeTerms)
    requires forall k :: 0 <= k < i ==> !Fails(Order[k], f, agreeTerms)
    ensures Validate(f, agreeTerms) == Some(Order[i])
  {
    if i == 0 {
      assert Order[0] == NameRequired;
    } else {
      assert !Fails(Order[0], f, agreeTerms) && Order[0] == NameRequired;
      if i == 1 {
        assert Order[1] == EmailRequired;
      } else {
        assert !Fails(Order[1], f, agreeTerms) && Order[1] == EmailRequired;
        if i == 2 {
          assert Order[2] == PasswordTooShort;
        } else {
          assert !Fails(Order[2], f, agreeTerms) && Order[2] == PasswordTooShort;
          if i == 3 {
            assert Order[3] == PasswordMismatch;
          } else {
            assert !Fails(Order[3], f, agreeTerms) && Order[3] == PasswordMismatch;
            assert Order[4] == TermsNotAccepted;
          }
        }
      }
    }
  }

  /** A submit whose i-th check is the first to fail shows that check's
      message and calls nothing. */
  lemma SubmitReportsFirstFailure(v: View, f: Form, agreeTerms: bool, reply: Reply<()>, i: nat)
    requires i < |Order| && Fails(Order[i], f, agreeTerms)
    requires forall k :: 0 <= k < i ==> !Fails(Order[k], f, agreeTerms)
    ensures Submit(v, f, agreeTerms, reply) == Outcome(v.(error := Message(Order[i])), None, None)
  {
    FirstFailureWins(f, agreeTerms, i);
  }

  /** Success is shown, and the return to the login page scheduled, only
      after the sign-up request was sent and answered without error: exactly
      when every check passes and the reply is clean. */
  lemma SuccessOnlyAfterCleanSignUp(v: View, f: Form, agreeTerms: bool, reply: Reply<()>)
    ensures Submit(v, f, agreeTerms, reply).navigate.Some? <==> Validate(f, agreeTerms).None? && reply.Ok?
    ensures Submit(v, f, agreeTerms, reply).view.showSuccess ==>
              v.showSuccess || (Submit(v, f, agreeTerms, reply).sent.Some? && reply.Ok?)
  {
  }
}
