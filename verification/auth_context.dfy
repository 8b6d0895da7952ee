/** The authentication provider: the `{user, session, loading}` state held at
    the application root, the transitions the auth helpers and the auth-change
    subscription drive, the value the provider exposes, and the `useAuth`
    lookup.
 */
module AuthContext {
  import opened Backend

  datatype User = User(id: string, email: string)

  /** A backend session; `user` is absent when the session object carries none. */
  datatype Session = Session(accessToken: string, user: Option<User>)

  /** The provider's React state. */
  datatype AuthState = AuthState(user: Option<User>, session: Option<Session>, loading: bool)

  /** Before anything has been heard from the backend: no user, no session, loading. */
  const Initial: AuthState := AuthState(None, None, true)

  /** The sign-up metadata `{ full_name }`. */
  datatype Metadata = Metadata(fullName: string)

  /** The auth helpers the provider forwards to. */
  datatype Request =
    | SignIn(email: string, password: string)
    | SignUp(email: string, password: string, metadata: Metadata)
    | SignInWithGoogle
    | SignOut

  /** One thing that can happen to the provider's state. A request is split
      in two steps because other events (an auth change above all) can be
      delivered while it is awaited. */
  datatype Step =
    | CurrentUserSettled(fetched: Reply<Option<User>>)
    | AuthStateChanged(session: Option<Session>)
    | RequestStarted(request: Request)
    | RequestSettled(request: Request, reply: Reply<()>)

  /** `session?.user ?? null` */
  function UserOf(session: Option<Session>): Option<User> {
    match session
    case None => None
    case Some(s) => s.user
  }

  /** The transition function of the provider's state. A step that does
      not write the identity leaves `user` and `session` alone; a request's
      start sets loading and its settling clears it unless the helper
      rejected; an auth change always ends loading. */
  function Next(s: AuthState, step: Step): (r: AuthState)
    ensures !WritesIdentity(step) ==> r.user == s.user && r.session == s.session
    ensures step.RequestStarted? ==> r.loading
    ensures step.RequestSettled? ==> r.loading == (step.reply.Threw? && s.loading)
    ensures step.AuthStateChanged? ==> !r.loading && Coherent(r)
    ensures step.CurrentUserSettled? && step.fetched.Threw? ==> r == s
  {
    match step
    // The mount-time `getCurrentUser()`: a user is adopted only when the
    // reply has no error and carries one; loading ends either way. A rejected
    // promise never reaches the `then` callback.
    case CurrentUserSettled(fetched) =>
      (match fetched
       case Ok(Some(u)) => s.(user := Some(u), loading := false)
       case Ok(None) => s.(loading := false)
       case Failed(_) => s.(loading := false)
       case Threw(_) => s)
    // The `onAuthStateChange` callback; the event name is not consulted.
    case AuthStateChanged(session) =>
      AuthState(UserOf(session), session, false)
    // `setLoading(true)` before the helper is awaited.
    case RequestStarted(_) =>
      s.(loading := true)
    // After the await. There is no try/finally: a rejected helper promise
    // propagates before `setLoading(false)` runs. Only a sign-out whose
    // result has no error clears the identity.
    case RequestSettled(request, reply) =>
      if reply.Threw? then s
      else if request.SignOut? && reply.Ok? then AuthState(None, None, false)
      else s.(loading := false)
  }

  /** The state after a sequence of steps, in order. */
  function Run(s: AuthState, steps: seq<Step>): AuthState
    decreases |steps|
  {
    if steps == [] then s else Run(Next(s, steps[0]), steps[1..])
  }

  /** A step that may write `user` or `session`. */
  predicate WritesIdentity(step: Step) {
    || (step.CurrentUserSettled? && step.fetched.Ok? && step.fetched.value.Some?)
    || step.AuthStateChanged?
    || (step.RequestSettled? && step.request.SignOut? && step.reply.Ok?)
  }

  /** The result of one provider operation awaited without interruption:
      the state afterwards and the value handed back to the caller. */
  datatype Call = Call(state: AuthState, result: Reply<()>)

  /** `signIn`, `signUp`, `signInWithGoogle` or `signOut` with no other event
      delivered while the helper is awaited. The helper's result is handed
      back unchanged; loading is false afterwards unless the helper rejected;
      `user` and `session` change only through a sign-out without error,
      which clears both. */
  function Perform(s: AuthState, request: Request, reply: Reply<()>): (r: Call)
    ensures r.result == reply
    ensures reply.Threw? ==> r.state == s.(loading := true)
    ensures !reply.Threw? ==> !r.state.loading
    ensures !(request.SignOut? && reply.Ok?) ==> r.state.user == s.user && r.state.session == s.session
    ensures request.SignOut? && reply.Ok? ==> r.state.user.None? && r.state.session.None?
  {
    Call(Next(Next(s, RequestStarted(request)), RequestSettled(request, reply)), reply)
  }

  /** The mount-time fetch never touches the session; it adopts the fetched
      user only from a reply without error that carries one, and ends loading
      unless the promise rejected. */
  lemma CurrentUserSettles(s: AuthState, fetched: Reply<Option<User>>)
    ensures Next(s, CurrentUserSettled(fetched)).session == s.session
    ensures fetched.Ok? && fetched.value.Some? ==> Next(s, CurrentUserSettled(fetched)).user == fetched.value
    ensures !(fetched.Ok? && fetched.value.Some?) ==> Next(s, CurrentUserSettled(fetched)).user == s.user
    ensures !fetched.Threw? ==> !Next(s, CurrentUserSettled(fetched)).loading
    ensures fetched.Threw? ==> Next(s, CurrentUserSettled(fetched)) == s
  {
  }

  /** An auth-change event replaces the session, takes the user from it
      (none when the session is null or has no user) and ends loading,
      whatever the state was before. */
  lemma AuthChangeAdoptsSession(s: AuthState, session: Option<Session>)
    ensures Next(s, AuthStateChanged(session)) == AuthState(UserOf(session), session, false)
    ensures Coherent(Next(s, AuthStateChanged(session)))
    ensures session.None? ==> Next(s, AuthStateChanged(session)).user.None?
  {
  }

  /** The identity fields agree with the session: `user` is the session's user. */
  predicate Coherent(s: AuthState) {
    s.user == UserOf(s.session)
  }

  /** The provider starts loading, with user and session agreeing. */
  lemma InitialCoherent()
    ensures Coherent(Initial) && Initial.loading && Initial.user.None?
  {
  }

  /** Every step keeps `user` equal to the session's user, except the
      mount-time fetch adopting a user the session does not carry. */
  lemma StepKeepsCoherent(s: AuthState, step: Step)
    requires Coherent(s)
    requires step.CurrentUserSettled? && step.fetched.Ok? && step.fetched.value.Some? ==> step.fetched.value == UserOf(s.session)
    ensures Coherent(Next(s, step))
  {
  }

  /** A run with no identity-writing step leaves `user` and `session` as they were. */
  lemma {:induction false} IdentityOnlyFromWriters(s: AuthState, steps: seq<Step>)
    requires forall k :: 0 <= k < |steps| ==> !WritesIdentity(steps[k])
    ensures Run(s, steps).user == s.user && Run(s, steps).session == s.session
    decreases |steps|
  {
    if steps != [] {
      assert !WritesIdentity(steps[0]);
      var t := Next(s, steps[0]);
      assert t.user == s.user && t.session == s.session;
      IdentityOnlyFromWriters(t, steps[1..]);
    }
  }

  /** Running `a` then `b` is running `a + b`. */
  lemma {:induction false} RunAppend(s: AuthState, a: seq<Step>, b: seq<Step>)
    ensures Run(s, a + b) == Run(Run(s, a), b)
    decreases |a|
  {
    if a != [] {
      assert (a + b)[0] == a[0];
      assert (a + b)[1..] == a[1..] + b;
      assert Run(s, a + b) == Run(Next(s, a[0]), a[1..] + b);
      RunAppend(Next(s, a[0]), a[1..], b);
    } else {
      assert a + b == b;
    }
  }

  /** The last auth-change event decides the identity: when nothing after it
      writes `user` or `session` (requests, failed sign-outs, empty fetches
      may still come), the session is the event's and the user is its user. */
  lemma LastAuthChangeWins(s: AuthState, before: seq<Step>, session: Option<Session>, after: seq<Step>)
    requires forall k :: 0 <= k < |after| ==> !WritesIdentity(after[k])
    ensures Run(s, before + [AuthStateChanged(session)] + after).session == session
    ensures Run(s, before + [AuthStateChanged(session)] + after).user == UserOf(session)
  {
    RunAppend(s, before + [AuthStateChanged(session)], after);
    RunAppend(s, before, [AuthStateChanged(session)]);
    var t := Run(s, before + [AuthStateChanged(session)]);
    assert t == AuthState(UserOf(session), session, false);
    IdentityOnlyFromWriters(t, after);
  }

  /** A sign-out that reports an error, even with other non-identity steps
      delivered while it is awaited, leaves the identity as it was and ends
      with loading false. */
  lemma FailedSignOutKeepsIdentity(s: AuthState, during: seq<Step>, e: ApiError)
    requires forall k :: 0 <= k < |during| ==> !WritesIdentity(during[k])
    ensures var r := Run(s, [RequestStarted(SignOut)] + during + [RequestSettled(SignOut, Failed(e))]);
            r.user == s.user && r.session == s.session && !r.loading
  {
    var steps := [RequestStarted(SignOut)] + during + [RequestSettled(SignOut, Failed(e))];
    forall k | 0 <= k < |steps|
      ensures !WritesIdentity(steps[k])
    {
      if 0 < k < |steps| - 1 {
        assert steps[k] == during[k - 1];
      }
    }
    IdentityOnlyFromWriters(s, steps);
    RunAppend(s, [RequestStarted(SignOut)] + during, [RequestSettled(SignOut, Failed(e))]);
  }

  /** The keys of the value the provider passes to `AuthContext.Provider`. */
  const ExposedKeys: set<string> :=
    {"user", "session", "loading", "signIn", "signUp", "signInWithGoogle", "signOut", "resetPassword"}

  /** The keys a provider that also forwarded the resend helper would expose. */
  const IntendedKeys: set<string> := ExposedKeys + {"resendConfirmation"}

  /** What `useContext(AuthContext)` can return: `null`, or an object. */
  datatype ContextValue = Null | Record(keys: set<string>, state: Option<AuthState>)

  /** The default given to `createContext`: an empty object. */
  const DeclaredDefault: ContextValue := Record({}, None)

  /** The value a component reads: the provider's when one is above it,
      otherwise the context's default. */
  function Consume(provider: Option<AuthState>, default: ContextValue): (r: ContextValue)
    ensures provider.Some? ==> r == Record(ExposedKeys, provider)
    ensures provider.None? ==> r == default
  {
    match provider
    case Some(st) => Record(ExposedKeys, Some(st))
    case None => default
  }

  /** The outcome of `useAuth()`: the context value, or the thrown
      "must be used within an AuthProvider" error. */
  datatype Lookup = Found(value: ContextValue) | OutsideProvider

  /** `useAuth` as written: throw when the context value is falsy. Every
      object is truthy in JavaScript, so only `null` trips the guard. */
  function UseAuth(value: ContextValue): (r: Lookup)
    ensures r.OutsideProvider? <==> value.Null?
    ensures r.Found? ==> r.value == value
  {
    if value.Null? then OutsideProvider else Found(value)
  }

  /** With the declared `{}` default the guard never fires: a component with
      no provider above it gets an empty record, with no `user` and no
      `signOut`, instead of the error. */
  lemma UseAuthNeverThrowsWithDeclaredDefault(provider: Option<AuthState>)
    ensures UseAuth(Consume(provider, DeclaredDefault)).Found?
    ensures provider.None? ==> UseAuth(Consume(provider, DeclaredDefault)) == Found(Record({}, None))
  {
  }

  /** With a `null` default the guard does what its message says: `useAuth`
      throws exactly when no provider is above the component, and otherwise
      returns the provider's value. */
  lemma UseAuthThrowsOutsideProvider(provider: Option<AuthState>)
    ensures UseAuth(Consume(provider, Null)).OutsideProvider? <==> provider.None?
    ensures provider.Some? ==> UseAuth(Consume(provider, Null)) == Found(Record(ExposedKeys, provider))
  {
  }
}
