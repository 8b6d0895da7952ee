# TaskMaster forms and session state, in Dafny

TaskMaster is a browser to-do application whose data and authentication live
in a hosted backend. The application logic that is not presentation is
small: the label manager panel (add, delete and list the signed-in user's
labels), the registration form's validation chain, the login form's
validation and sign-in error classification, and the authentication
provider that holds `{user, session, loading}` for the whole application.
This project models those four pieces as immutable Dafny values and pure
functions and proves what they promise.

Every backend call is an input. An awaited call settles as a `Reply`: `Ok`
(no `error`, carrying the `data`), `Failed` (an `error` object with a message
and an optional HTTP status) or `Threw` (a rejected promise). Each handler
returns the component state afterwards together with the request it sent,
if any: the helper or query called, with its arguments. That is how "no
call is made" is stated. Timers that navigate later
are returned as `Navigation(path, delayMs)` records. The confirmation dialog
of a delete is a boolean input.

Modules:

- `Text` (`text.dfy`): JavaScript `trim` over the exact ECMAScript
  whitespace and line-terminator set, ASCII `toLowerCase`, `includes`, and
  `length` in UTF-16 code units.
- `Backend` (`backend.dfy`): `Option`, `ApiError`, `Reply`, `Navigation`.
- `AuthContext` (`auth_context.dfy`): the provider state, its transition
  function `Next` over the steps that can reach it (mount-time user fetch,
  auth-change events, start and end of each helper request), runs of steps,
  the keys of the exposed context value, and `useAuth`.
- `LabelManager` (`label_manager.dfy`): the panel state, `addLabel`,
  `deleteLabel`, `fetchLabels`, `handleKeyPress`, the colour palette, and
  the invariant "trimmed, non-empty names, no two equal ignoring case".
- `Register` (`register.dfy`): the five ordered checks, submit, and Google sign-up.
- `Login` (`login.dfy`): the blank checks, the four-way error
  classification, submit, Google sign-in, and resend-confirmation.

The initial provider state is `AuthContext.Initial` (no user, no session,
loading). The panel's initial colour and its colour after every successful
add are `LabelManager.DefaultColor`, the first palette entry `#dc2626`.

## Model

| member | source | states |
|---|---|---|
| Text.Trim | src/components/LabelManager.js:53 | `trim` returns a slice of its input with nothing but JavaScript whitespace before and after it. The slice is empty exactly when every character is whitespace. Otherwise it neither starts nor ends with whitespace, so the result is pinned down |
| Text.BlankIffTrimEmpty | src/components/Register.js:33-41 | a field is blank exactly when its trim is the empty, falsy string |
| Text.TrimIdempotent | src/components/LabelManager.js:76 | trimming an already trimmed name changes nothing, so a stored name equals its trim |
| Text.ToLower | src/components/LabelManager.js:60 | lower-casing keeps the length and maps each character on its own |
| Text.Contains | src/components/Login.js:44-53 | `includes` is true exactly when the needle occurs at some index of the message |
| Text.Utf16Length | src/components/Register.js:43 | the `length` the password check reads is the character count plus the number of characters outside the Basic Multilingual Plane (counted independently, from the end). It lies between the character count and twice it, and equals the character count exactly when every character is in that plane |
| AuthContext.Next | src/context/AuthContext.js:19-70 | one step of the provider. A step that writes no identity keeps user and session. A request's start sets loading. Its settling clears loading, except after a rejected helper, which leaves loading as it was. An auth-change event ends loading and leaves user and session consistent. A rejected mount-time fetch changes nothing. Per-request detail is in `CurrentUserSettles`, `AuthChangeAdoptsSession`, `Perform` and `StepKeepsCoherent` |
| AuthContext.Perform | src/context/AuthContext.js:40-70 | sign-in, sign-up, Google sign-in and sign-out hand the helper's result back unchanged. Loading is false afterwards unless the helper rejected. User and session change only on an error-free sign-out, which clears both |
| AuthContext.InitialCoherent | src/context/AuthContext.js:15-17 | the provider starts loading, with no user and no session, so user and session agree |
| AuthContext.CurrentUserSettles | src/context/AuthContext.js:21-26 | the mount-time fetch adopts a user only from an error-free reply that carries one. It never touches the session. It ends loading unless its promise rejects |
| AuthContext.AuthChangeAdoptsSession | src/context/AuthContext.js:30-34 | an auth-change event replaces the session and takes the user from it (none for a null session), ends loading, and leaves user and session consistent |
| AuthContext.StepKeepsCoherent | src/context/AuthContext.js:19-70 | every transition keeps the user equal to the session's user. The one exception is a mount-time fetch that adopts a different user |
| AuthContext.IdentityOnlyFromWriters | src/context/AuthContext.js:40-70 | over any run of steps that contains no auth-change event, no user-adopting fetch and no error-free sign-out, user and session stay as they were |
| AuthContext.LastAuthChangeWins | src/context/AuthContext.js:29-35 | after the last auth-change event, requests and failed sign-outs may interleave, yet the session stays the event's and the user stays its user |
| AuthContext.FailedSignOutKeepsIdentity | src/context/AuthContext.js:61-70 | a sign-out whose result has an error keeps user and session and ends with loading false, even with other non-identity steps delivered during the await |
| AuthContext.Consume | src/context/AuthContext.js:76-91 | a component under the provider reads the provider's value, a record with the eight keys the provider passes (user, session, loading and the five helpers). A component with no provider above it reads the context's default |
| AuthContext.UseAuth | src/context/AuthContext.js:6-12 | `useAuth` throws exactly when the context value is `null`. Otherwise it returns the value |
| AuthContext.UseAuthNeverThrowsWithDeclaredDefault | src/context/AuthContext.js:4-11 | with the declared `{}` default, `useAuth` never throws. Without a provider it returns an empty record |
| AuthContext.UseAuthThrowsOutsideProvider | src/context/AuthContext.js:4-11 | with a `null` default, `useAuth` throws exactly when no provider is above the component. Otherwise it returns the provider's value |
| LabelManager.Find | src/components/LabelManager.js:59-61 | `find` returns the first label whose lower-cased name equals the key. It returns nothing exactly when no label matches |
| LabelManager.Without | src/components/LabelManager.js:126 | the filter keeps exactly the labels whose id differs, and never grows the list |
| LabelManager.Admit | src/components/LabelManager.js:52-66 | the name-required error holds exactly when there is no user or the name is blank after trim. The name-exists error holds exactly when it does not and some existing label's lower-cased name equals the lower-cased trimmed name. Otherwise the name is admitted |
| LabelManager.AddLabel | src/components/LabelManager.js:52-102 | a rejected name shows its error, sends nothing and changes nothing else. An admitted name is sent trimmed, with the selected colour and the user's id. Success appends the returned row at the end, keeping every earlier label in place, empties the name, resets the colour to `#dc2626` and notifies the listener. Failure or a throw keeps the list and form and shows the matching error |
| LabelManager.AddStart | src/components/LabelManager.js:52-80 | up to the await: a rejected name shows its error and sends nothing. An admitted name sets loading, clears the error and sends the trimmed name, the selected colour and the user's id |
| LabelManager.AddSettle | src/components/LabelManager.js:82-101 | after the await, on the panel as it is then: success appends the row to the current list, resets the form and tells the listener the list the handler saw at its start plus the row. Failure or a throw shows the matching error. Loading ends |
| LabelManager.AddLabelIsStartThenSettle | src/components/LabelManager.js:52-102 | with nothing delivered during the await, the add equals its start followed by its settle |
| LabelManager.KeyPressStart | src/components/LabelManager.js:143-147 | the key handler up to the await. It consults the name but not `loading` |
| LabelManager.GuardedKeyPressStart | src/components/LabelManager.js:215-217 | the key handler with the add button's `loading` guard: nothing starts while an add is awaited |
| LabelManager.DoubleEnterAddsTwice | src/components/LabelManager.js:52-193 | a second Enter while the first insert is awaited sends the same record again. If the backend accepts both, the list holds two labels with the same name and is no longer canonical, and the listener's last list lacks the first row |
| LabelManager.GuardedDoubleEnterAddsOnce | src/components/LabelManager.js:215-217 | with the guard, the second Enter sends nothing. The list gains one row and the listener is told the list the panel holds |
| LabelManager.TwinsBreakCanonical | src/components/LabelManager.js:58-66 | two labels with the same name, at any two positions of a list, make it non-canonical, so no list holding such twins satisfies the label invariant |
| LabelManager.DeleteLabel | src/components/LabelManager.js:105-140 | a declined confirmation changes and sends nothing. Otherwise the id is sent. Success drops that id's labels and notifies. Failure or a throw keeps the list and shows the matching error |
| LabelManager.KeyPress | src/components/LabelManager.js:143-147 | only Enter on a non-blank name runs the add. Every other key press leaves everything unchanged and sends nothing |
| LabelManager.KeyPressSendsIffAdmitted | src/components/LabelManager.js:143-147 | a key press sends an insert exactly when it is Enter and the add's guards admit the name. The list changes, and the listener hears of it, only after a sent insert was answered without error |
| LabelManager.FetchLabels | src/components/LabelManager.js:26-49 | with no user nothing happens and nothing is queried. Otherwise the query is made by the user's id. Success replaces the list with the returned rows (empty for no data) and leaves the error as it was. Failure or a throw keeps the list and shows the matching error. Loading ends |
| LabelManager.AdmittedNameFits | src/components/LabelManager.js:52-76 | a name that passes both checks is sent as a non-empty trimmed name whose lower-cased form differs from every existing label's lower-cased name |
| LabelManager.AddKeepsCanonical | src/components/LabelManager.js:52-93 | if the list holds trimmed, non-empty names with no case-insensitive duplicates, appending a row for a name the add admitted, carrying that name trimmed, keeps it so |
| LabelManager.WithoutKeepsCanonical | src/components/LabelManager.js:126 | filtering by id keeps that invariant |
| LabelManager.WithoutAppend | src/components/LabelManager.js:126 | filtering a concatenation is concatenating the filtered parts, so remaining labels keep their relative order |
| LabelManager.WithoutIdempotent | src/components/LabelManager.js:126 | deleting the same id a second time changes nothing |
| LabelManager.WithoutKeepsAll | src/components/LabelManager.js:126 | filtering by an id no label carries returns the list unchanged |
| LabelManager.DeleteUndoesAdd | src/components/LabelManager.js:87-127 | deleting the id of the row an add appended, when no earlier label shares it, gives back the list from before the add |
| Register.Validate | src/components/Register.js:33-56 | exactly one outcome holds, decided by the first failing check in this order: blank name, blank e-mail (both after trim), untrimmed password shorter than 6, password not exactly equal to its confirmation, terms not agreed. No outcome means every check passes |
| Register.FirstFailureWins | src/components/Register.js:33-56 | for every position i in the check order, if check i fails and every earlier check passes, validation reports exactly check i |
| Register.LengthBoundary | src/components/Register.js:43-46 | with name and e-mail filled in, a password of six characters from the Basic Multilingual Plane passes the length check and one of five fails. Characters outside that plane count twice |
| Register.Submit | src/components/Register.js:28-81 | the sign-up helper is called exactly when validation passes. It receives the untrimmed e-mail and password with metadata `{full_name}`. A reply error or thrown error shows its message and never shows success. A clean reply shows success with the error cleared and schedules `/` after 3000 ms |
| Register.SubmitReportsFirstFailure | src/components/Register.js:28-56 | when check i of the order is the first to fail, the submit shows that check's message and calls nothing |
| Register.SuccessOnlyAfterCleanSignUp | src/components/Register.js:58-76 | `/` is scheduled exactly when every check passes and the reply is clean. Success is only shown after a sent sign-up answered without error |
| Register.GoogleSignUp | src/components/Register.js:83-97 | the provider sign-in helper is always called. An error shows its message. Success shows the success screen with the error cleared and schedules `/inbox` after 1500 ms |
| Login.Classify | src/components/Login.js:44-57 | not-confirmed holds exactly when either spelling occurs. Wrong credentials holds exactly when not-confirmed does not and one of three messages or status 400 does. User-not-found holds only when neither earlier class does. Otherwise the raw message is kept |
| Login.FirstReading | src/components/Login.js:44-57 | the first reading of a rule list that applies to the error is returned. If none applies, the raw message is returned and no reading of the list applies |
| Login.ClassifyIsFirstReading | src/components/Login.js:44-57 | the ladder equals the first-match reading of the independent list: not confirmed, then wrong credentials, then no such user |
| Login.NotConfirmedBeatsStatus400 | src/components/Login.js:44-52 | an unconfirmed-email message with status 400 is still classed not-confirmed, though status 400 alone would read as wrong credentials |
| Login.FallbackKeepsMessage | src/components/Login.js:53-56 | an error that matches no known message or status is shown as the failure prefix followed by its raw message |
| Login.Validate | src/components/Login.js:25-35 | a blank e-mail is reported first. A blank password is reported only when the e-mail is filled in. Nothing is reported exactly when both are filled in |
| Login.FirstFailureWins | src/components/Login.js:25-35 | for each position of the check order, if that check fails and every earlier one passes, validation reports exactly it |
| Login.Submit | src/components/Login.js:19-73 | a failing check shows its message, ends the submission and calls nothing. Otherwise the sign-in helper receives the raw fields. A reply error shows its classified message and raises the resend prompt only for not-confirmed, with every other field of the view kept. A throw shows the generic failure. Both end the submission. Success keeps submitting and schedules `/inbox` |
| Login.SuccessOnlyAfterCleanSignIn | src/components/Login.js:37-66 | `/inbox` is scheduled exactly when both fields are filled in and the reply is clean. Success is only shown after a sent sign-in answered without error |
| Login.GoogleSignIn | src/components/Login.js:75-89 | the provider sign-in helper is always called. Every failure shows the one Google failure message. Success shows the success screen and schedules `/inbox` |
| Login.Resend | src/components/Login.js:91-120 | a blank e-mail is reported and nothing is called. A missing helper lands in the generic failure. A present helper receives the untrimmed e-mail. A clean reply shows success and sets the follow-up timer. A reply error shows the resend-failure prefix and its message. A throw shows the generic failure. Every other field is kept, and the resending flag is off afterwards |
| Login.ResendTimerFired | src/components/Login.js:108-112 | the timer hides the success screen and the resend prompt and shows the sent notice |
| Login.ResendAsWiredAlwaysFails | src/components/Login.js:97-116 | as the provider is written, a resend with a filled-in e-mail never reaches the backend. It always ends in the generic failure |
| Login.ResendAsIntendedReachesBackend | src/components/Login.js:97-113 | with the helper exposed, a filled-in e-mail reaches the backend untrimmed. A clean reply sets the timer and a reply error shows its message |

## Findings

| source | as written | input that shows it | evidently intended | confidence | as-written member | corrected member |
|---|---|---|---|---|---|---|
| src/context/AuthContext.js:76-85 | The provider's value has no `resendConfirmation` key. `Login.js` line 7 destructures it and line 101 calls it | Any non-blank e-mail on the resend button, which the form shows under the not-confirmed prompt (line 148): calling `undefined` throws, and the `catch` shows the generic resend failure | The provider forwards a `resendConfirmation` helper, so that the confirmation mail is actually resent | high; not executed | Login.ResendAsWiredAlwaysFails | Login.ResendAsIntendedReachesBackend |
| src/context/AuthContext.js:4-11 | `createContext({})` gives an empty object as the default. The `!context` guard in `useAuth` can never fire | `src/router.js` line 7 renders `Inbox` at `/inbox` with no `AuthProvider` above it, so `useAuth` returns `{}` and `signOut` is undefined | The default is `null` (or another falsy sentinel), so that `useAuth` throws "must be used within an AuthProvider" | medium; not executed | AuthContext.UseAuthNeverThrowsWithDeclaredDefault | AuthContext.UseAuthThrowsOutsideProvider |
| src/components/LabelManager.js:143-147 | `handleKeyPress`, bound to the name field at line 193, starts an add on Enter without consulting `loading`. The add button has the guard (line 217) | Enter twice on a new name before the first insert returns: both pass the duplicate check against the unchanged list and both inserts are sent. If the backend accepts both, two labels with the same name are listed. The listener's last list also lacks the first | The key handler honours the same `loading` guard as the button, so one Enter press sends one insert | low; not executed; the backend may itself reject the second insert | LabelManager.DoubleEnterAddsTwice | LabelManager.GuardedDoubleEnterAddsOnce |

Notes on the code as written:

- `Login.js` line 7 destructures `resendConfirmation`, but the provider's value (AuthContext.js lines 76-85) has no such key; see the first finding.
- The panel's hint text (LabelManager.js line 224) announces a 20-character limit on label names. `addLabel` does not enforce it; only the input's `maxLength` attribute does (line 194). The model does not claim the limit.
- The provider's helpers have no `try/finally`. A rejected helper promise therefore leaves `loading` true. A rejected mount-time fetch never reaches its `then` callback, so loading also stays true. The model keeps both behaviours.

## Left out

- Text.ToLower: maps only the ASCII capitals A–Z. JavaScript's full Unicode case mapping (accented and non-Latin letters, multi-character expansions) is not modelled, so two non-ASCII names that differ only in case are not reported as duplicates here.
- LabelManager.AddKeepsCanonical: covers only a returned row that carries the trimmed name that was sent. The code appends whatever row the insert returns, so a backend that rewrote the name could break the invariant.
- The backend itself: queries, row-level filtering by user, the server-side ordering of labels by name, cascading deletes, and the auth helpers. Each is foreign SDK I/O, so only its reply is modelled, as an input.
- Login.Submit: the form is modelled as staying mounted across the sign-in await. In the composed app it does not: `src/App.js` lines 18-30 render a spinner in place of `<Login>` while the provider's `loading` is true, and `signIn` and `signInWithGoogle` set it before their await (AuthContext.js lines 41 and 55). The component that issued the call is discarded, and a fresh, empty form mounts when loading drops, so the classified message and the resend prompt never reach the screen. For the same reason `Login.GoogleSignIn`'s failure message is lost, and the form's own `authLoading` overlay (Login.js line 271) never renders. The resend button is shown only under that prompt (line 148), so the first finding is reached only by a `Login` rendered outside this guard.
- React rendering, the `useEffect` that fetches labels when the panel opens, the auth-change subscription's teardown, and `console` logging. These are lifecycle and output, not logic.
- The intermediate value of each loading flag while a call is awaited. Only the settled value is stated, except in the auth provider, where the start and end of a request are separate steps, and in `LabelManager.AddStart`.
- Input handlers that only copy a value into state: the name field's `onChange` (which also clears the error), the colour buttons, the show-password toggles, and Register's `handleChange`.
- Buttons disabled while loading or while the name is blank. These are rendering attributes. They keep a click from starting a second add, but the Enter key on the name field is not guarded; see the third finding.
- Interleaving of the label handlers. `AddLabel`, `DeleteLabel`, `FetchLabels` and `KeyPress` each run to completion, as if nothing else reached the panel during their await. `AddStart`, `AddSettle` and the double-Enter lemmas cover one interleaving: a second add started during the first. A fetch or delete that settles during an add is not modelled. In that case the listener, told the list the add saw at its start plus the new row, can hear a list other than the one the panel holds.
- `resetPassword`: a pass-through to the helper with no effect on the provider state.
- The navigation performed by the timers. Only the scheduled path and delay are returned.
- `src/components/TopNavigation.js`, `Sidebar.js`, `PageLayout.js`, `Inbox.js`, `src/pages/*`, `src/App.js`, `src/router.js`, and `src/TestLabelManager.js` are presentation, static pages, routing, or a manual harness, and are not part of this model.
- Tasks, subtasks, label associations, filtering, and sorting: none of the modelled files implements them.
