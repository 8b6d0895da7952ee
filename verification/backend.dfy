/** What the components see of the hosted backend: every awaited client call
    settles with one of the replies below. The calls themselves (database
    queries, the auth helpers) are not modelled; their reply is an input of
    the operation that awaits them.
 */
module Backend {

  datatype Option<+T> = None | Some(value: T)

  /** The `error` object of a client reply: a message and, when the service
      sent one, an HTTP status. */
  datatype ApiError = ApiError(message: string, status: Option<int>)

  /** How an awaited call settles: resolved with no `error` (carrying its
      `data`), resolved with an `error`, or rejected with a thrown value whose
      `message` is given. */
  datatype Reply<+T> = Ok(value: T) | Failed(error: ApiError) | Threw(message: string)

  /** A timer started with `setTimeout(() => navigate(path), delayMs)`. */
  datatype Navigation = Navigation(path: string, delayMs: nat)
}
