/** The login form: the blank-field checks of `handleSubmit`, the
    classification of a sign-in error into the message the user sees, the
    Google sign-in button and the resend-confirmation button.
 */
module Login {
  import opened Backend
  import Text
  import AuthContext

  /** The form's React state besides its two fields. */
  datatype View = View(error: string, isSubmitting: bool, showSuccess: bool,
                       showEmailNotConfirmed: bool, resendingEmail: bool)

  /** The four readings of a sign-in error, in the order they are tried. */
  datatype Failure = NotConfirmed | BadCredentials | NoSuchUser | Other(message: string)

  /** The sign-in error is read as "e-mail not confirmed": its message
      contains either spelling the service uses. */
  predicate SaysNotConfirmed(e: ApiError) {
    Text.Contains(e.message, "email_not_confirmed") || Text.Contains(e.message, "Email not confirmed")
  }

  /** The sign-in error is read as wrong credentials: one of three messages,
      or HTTP status 400. */
  predicate SaysBadCredentials(e: ApiError) {
    || Text.Contains(e.message, "Invalid login credentials")
    || Text.Contains(e.message, "invalid_grant")
    || Text.Contains(e.message, "Invalid email or password")
    || e.status == Some(400)
  }

  predicate SaysNoSuchUser(e: ApiError) {
    Text.Contains(e.message, "User not found")
  }

  /** Whether reading `f` applies to error `e`; the fallback always does. */
  predicate Reads(f: Failure, e: ApiError) {
    match f
    case NotConfirmed => SaysNotConfirmed(e)
    case BadCredentials => SaysBadCredentials(e)
    case NoSuchUser => SaysNoSuchUser(e)
    case Other(_) => true
  }

  /** The named readings in the order the ladder tries them. */
  const Readings: seq<Failure> := [NotConfirmed, BadCredentials, NoSuchUser]

  /** The first reading of `rs` that applies to `e`, or the raw message
      when none does. */
  function FirstReading(rs: seq<Failure>, e: ApiError): (r: Failure)
    ensures r in rs || r == Other(e.message)
    ensures r in rs ==> Reads(r, e)
    ensures r == Other(e.message) && Other(e.message) !in rs ==> forall k :: 0 <= k < |rs| ==> !Reads(rs[k], e)
    ensures forall k :: 0 <= k < |rs| && Reads(rs[k], e) && (forall j :: 0 <= j < k ==> !Reads(rs[j], e)) ==> r == rs[k]
  {
    if rs == [] then Other(e.message)
    else if Reads(rs[0], e) then rs[0]
    else
      assert forall k :: 1 <= k < |rs| ==> rs[k] == rs[1..][k - 1];
      FirstReading(rs[1..], e)
  }

  /** The `if / else if` ladder over a sign-in error: the earliest reading
      that applies wins, and an error none of them matches keeps its raw
      message. */
  function Classify(e: ApiError): (r: Failure)
    ensures r == NotConfirmed <==> SaysNotConfirmed(e)
    ensures r == BadCredentials <==> !SaysNotConfirmed(e) && SaysBadCredentials(e)
    ensures r == NoSuchUser <==> !SaysNotConfirmed(e) && !SaysBadCredentials(e) && SaysNoSuchUser(e)
    ensures r.Other? <==> !SaysNotConfirmed(e) && !SaysBadCredentials(e) && !SaysNoSuchUser(e)
    ensures r.Other? ==> r.message == e.message
  {
    if SaysNotConfirmed(e) then NotConfirmed
    else if SaysBadCredentials(e) then BadCredentials
    else if SaysNoSuchUser(e) then NoSuchUser
    else Other(e.message)
  }

  function FailureMessage(f: Failure): string {
    match f
    case NotConfirmed => "您的電子郵件尚未確認。請檢查您的郵箱並點擊確認連結。"
    case BadCredentials => "帳號或密碼錯誤，請檢查後重試"
    case NoSuchUser => "此帳戶不存在，請檢查電子郵件地址或立即註冊"
    case Other(m) => "登入失敗：" + m
  }

  const SignInUnexpected: string := "登入失敗，請稍後再試"
  const GoogleFailed: string := "Google 登入失敗，請稍後再試"
  const ResendEmailRequired: string := "請先輸入您的電子郵件地址"
  const ResendUnexpected: string := "重新發送確認郵件失敗，請稍後再試"
  const ResendSent: string := "確認郵件已重新發送！請檢查您的郵箱。"
  const ResendFailedPrefix: string := "重新發送失敗："

  /** The checks `handleSubmit` runs before calling the backend, in order. */
  datatype Problem = EmailRequired | PasswordRequired

  function Message(p: Problem): string {
    match p
    case EmailRequired => "請輸入電子郵件"
    case PasswordRequired => "請輸入密碼"
  }

  /** Whether check `p` fails: the field is blank after `trim`. */
  predicate Fails(p: Problem, email: string, password: string) {
    match p
    case EmailRequired => Text.IsBlank(email)
    case PasswordRequired => Text.IsBlank(password)
  }

  /** The order the checks run in. */
  const Order: seq<Problem> := [EmailRequired, PasswordRequired]

  /** The two early returns of `handleSubmit`: a blank e-mail is reported
      before a blank password. */
  function Validate(email: string, password: string): (r: Option<Problem>)
    ensures r == Some(EmailRequired) <==> Text.IsBlank(email)
    ensures r == Some(PasswordRequired) <==> !Text.IsBlank(email) && Text.IsBlank(password)
    ensures r.None? <==> !Text.IsBlank(email) && !Text.IsBlank(password)
  {
    if Text.IsBlank(email) then Some(EmailRequired)
    else if Text.IsBlank(password) then Some(PasswordRequired)
    else None
  }

  /** What one submit or Google sign-in produced: the view, the auth helper
      called (if any), and the scheduled navigation. */
  datatype Outcome = Outcome(view: View, sent: Option<AuthContext.Request>, navigate: Option<Navigation>)

  /** `handleSubmit`: a failing check shows its message and sends nothing.
      Otherwise the raw fields are sent; an error reply shows its classified
      message (raising the resend prompt for an unconfirmed e-mail), a thrown
      call shows the generic failure, and both end the submission. A clean
      reply keeps the form submitting, shows success and schedules the inbox
      after 1.5 seconds. */
  function Submit(v: View, email: string, password: string, reply: Reply<()>): (r: Outcome)
    ensures Validate(email, password).Some? ==>
              r == Outcome(v.(error := Message(Validate(email, password).value), isSubmitting := false), None, None)
    ensures r.sent.Some? <==> Validate(email, password).None?
    ensures r.sent.Some? ==> r.sent.value == AuthContext.SignIn(email, password)
    ensures r.sent.Some? && reply.Failed? ==>
              && r.view == v.(error := FailureMessage(Classify(reply.error)), isSubmitting := false,
                              showEmailNotConfirmed := v.showEmailNotConfirmed || Classify(reply.error) == NotConfirmed)
              && r.navigate.None?
    ensures r.sent.Some? && reply.Threw? ==>
              r.view == v.(error := SignInUnexpected, isSubmitting := false) && r.navigate.None?
    ensures r.sent.Some? && reply.Ok? ==>
              r.view == v.(error := "", isSubmitting := true, showSuccess := true)
              && r.navigate == Some(Navigation("/inbox", 1500))
  {
    match Validate(email, password)
    case Some(p) => Outcome(v.(error := Message(p), isSubmitting := false), None, None)
    case None =>
      var call := Some(AuthContext.SignIn(email, password));
      match reply
      case Failed(e) =>
        var f := Classify(e);
        var shown := v.(error := FailureMessage(f), isSubmitting := false);
        Outcome(if f == NotConfirmed then shown.(showEmailNotConfirmed := true) else shown, call, None)
      case Threw(_) =>
        Outcome(v.(error := SignInUnexpected, isSubmitting := false), call, None)
      case Ok(_) =>
        Outcome(v.(error := "", isSubmitting := true, showSuccess := true), call, Some(Navigation("/inbox", 1500)))
  }

  /** `handleGoogleSignIn`: the provider sign-in is always called; any
      failure shows one fixed message, success shows the success screen and
      schedules the inbox after 1.5 seconds. */
  function GoogleSignIn(v: View, reply: Reply<()>): (r: Outcome)
    ensures r.sent == Some(AuthContext.SignInWithGoogle)
    ensures reply.Ok? ==> r.view == v.(error := "", showSuccess := true) && r.navigate == Some(Navigation("/inbox", 1500))
    ensures !reply.Ok? ==> r.view == v.(error := GoogleFailed) && r.navigate.None?
  {
    var call := Some(AuthContext.SignInWithGoogle);
    if reply.Ok? then Outcome(v.(error := "", showSuccess := true), call, Some(Navigation("/inbox", 1500)))
    else Outcome(v.(error := GoogleFailed), call, None)
  }

  /** What one resend attempt produced: the view, the e-mail handed to the
      helper (if it was called), and whether the follow-up timer was set. */
  datatype Resent = Resent(view: View, sent: Option<string>, timerSet: bool)

  /** `handleResendConfirmation`, given the `resendConfirmation` function read
      from the auth context: `None` when the context has no such key, so that
      calling it throws a TypeError into the `catch`. A blank e-mail is
      reported and nothing is called. */
  function Resend(v: View, email: string, resendConfirmation: Option<Reply<()>>): (r: Resent)
    ensures Text.IsBlank(email) ==> r == Resent(v.(error := ResendEmailRequired), None, false)
    ensures r.sent.Some? <==> !Text.IsBlank(email) && resendConfirmation.Some?
    ensures r.sent.Some? ==> r.sent.value == email
    ensures !Text.IsBlank(email) && resendConfirmation.None? ==>
              r == Resent(v.(error := ResendUnexpected, resendingEmail := false), None, false)
    ensures r.timerSet <==> r.sent.Some? && resendConfirmation.value.Ok?
    ensures r.sent.Some? && resendConfirmation.value.Ok? ==>
              r.view == v.(error := "", showSuccess := true, resendingEmail := false)
    ensures r.sent.Some? && resendConfirmation.value.Failed? ==>
              r.view == v.(error := ResendFailedPrefix + resendConfirmation.value.error.message, resendingEmail := false)
    ensures r.sent.Some? && resendConfirmation.value.Threw? ==>
              r.view == v.(error := ResendUnexpected, resendingEmail := false)
  {
    if Text.IsBlank(email) then Resent(v.(error := ResendEmailRequired), None, false)
    else
      match resendConfirmation
      case None => Resent(v.(error := ResendUnexpected, resendingEmail := false), None, false)
      case Some(reply) =>
        match reply
        case Ok(_) => Resent(v.(error := "", showSuccess := true, resendingEmail := false), Some(email), true)
        case Failed(e) => Resent(v.(error := ResendFailedPrefix + e.message, resendingEmail := false), Some(email), false)
        case Threw(_) => Resent(v.(error := ResendUnexpected, resendingEmail := false), Some(email), false)
  }

  /** The two-second timer a successful resend sets. */
  function ResendTimerFired(v: View): (r: View)
    ensures !r.showSuccess && !r.showEmailNotConfirmed && r.error == ResendSent
    ensures r.isSubmitting == v.isSubmitting && r.resendingEmail == v.resendingEmail
  {
    v.(showSuccess := false, showEmailNotConfirmed := false, error := ResendSent)
  }

  /** The resend helper as the provider wires it: the context value has no
      `resendConfirmation` key. */
  function ResendAsWired(v: View, email: string, reply: Reply<()>): Resent {
    Resend(v, email, if "resendConfirmation" in AuthContext.ExposedKeys then Some(reply) else None)
  }

  /** The resend helper as a provider exposing `resendConfirmation` would wire it. */
  function ResendAsIntended(v: View, email: string, reply: Reply<()>): Resent {
    Resend(v, email, if "resendConfirmation" in AuthContext.IntendedKeys then Some(reply) else None)
  }

  /** As wired, a resend with a filled-in e-mail never reaches the backend
      and always ends in the generic failure, whatever the service would
      have answered. */
  lemma ResendAsWiredAlwaysFails(v: View, email: string, reply: Reply<()>)
    requires !Text.IsBlank(email)
    ensures ResendAsWired(v, email, reply) == Resent(v.(error := ResendUnexpected, resendingEmail := false), None, false)
  {
    assert "resendConfirmation" !in AuthContext.ExposedKeys;
  }

  /** With the key exposed, a filled-in e-mail is handed to the helper
      untrimmed, and a clean reply shows success and sets the timer. */
  lemma ResendAsIntendedReachesBackend(v: View, email: string, reply: Reply<()>)
    requires !Text.IsBlank(email)
    ensures ResendAsIntended(v, email, reply).sent == Some(email)
    ensures reply.Ok? ==> ResendAsIntended(v, email, reply).timerSet
    ensures reply.Failed? ==> ResendAsIntended(v, email, reply).view.error == ResendFailedPrefix + reply.error.message
  {
    assert "resendConfirmation" in AuthContext.IntendedKeys;
  }

  /** An unconfirmed-email message wins even when the status is 400, which
      on its own would read as wrong credentials. */
  lemma NotConfirmedBeatsStatus400(message: string)
    requires Text.Contains(message, "Email not confirmed")
    ensures Classify(ApiError(message, Some(400))) == NotConfirmed
    ensures SaysBadCredentials(ApiError(message, Some(400)))
  {
  }

  /** A message that names no known case keeps its text after the failure prefix. */
  lemma FallbackKeepsMessage(message: string, status: Option<int>)
    requires status != Some(400)
    requires !Text.Contains(message, "email_not_confirmed") && !Text.Contains(message, "Email not confirmed")
    requires !Text.Contains(message, "Invalid login credentials") && !Text.Contains(message, "invalid_grant")
    requires !Text.Contains(message, "Invalid email or password") && !Text.Contains(message, "User not found")
    ensures FailureMessage(Classify(ApiError(message, status))) == "登入失敗：" + message
  {
  }

  /** The ladder is the first-match reading of an independent rule list: the
      earliest of `Readings` that applies, else the raw message. */
  lemma {:induction false} ClassifyIsFirstReading(e: ApiError)
    ensures Classify(e) == FirstReading(Readings, e)
  {
    var rest1: seq<Failure> := [BadCredentials, NoSuchUser];
    var rest2: seq<Failure> := [NoSuchUser];
    assert Readings[1..] == rest1 && rest1[1..] == rest2 && rest2[1..] == [];
    if !SaysNotConfirmed(e) {
      assert FirstReading(Readings, e) == FirstReading(rest1, e);
      if !SaysBadCredentials(e) {
        assert FirstReading(rest1, e) == FirstReading(rest2, e);
        assert FirstReading(rest2, e) == (if SaysNoSuchUser(e) then NoSuchUser else FirstReading([], e));
      }
    }
  }

  /** The check that decides is the first of `Order` that fails. */
  lemma FirstFailureWins(email: string, password: string, i: nat)
    requires i < |Order| && Fails(Order[i], email, password)
    requires forall k :: 0 <= k < i ==> !Fails(Order[k], email, password)
    ensures Validate(email, password) == Some(Order[i])
  {
    if i == 1 {
      assert !Fails(Order[0], email, password);
    }
  }

  /** Success is shown, and the inbox scheduled, only after the sign-in
      request was sent and answered without error: exactly when both fields
      are filled in and the reply is clean. */
  lemma SuccessOnlyAfterCleanSignIn(v: View, email: string, password: string, reply: Reply<()>)
    ensures Submit(v, email, password, reply).navigate.Some? <==> Validate(email, password).None? && reply.Ok?
    ensures Submit(v, email, password, reply).view.showSuccess ==>
              v.showSuccess || (Submit(v, email, password, reply).sent == Some(AuthContext.SignIn(email, password)) && reply.Ok?)
  {
  }
}
