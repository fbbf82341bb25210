/** What a route handler answers: an HTTP status code and a JSON body, and the
    session the handlers receive. */
module Http {
  import opened KV
  import opened Text

  /** The projection that `GET /api/user/settings` returns. */
  datatype Settings = Settings(
    email: Value,
    feedTimeWindow: Value,
    blueskyConnected: bool,
    lastFeedRefresh: Value)

  datatype Body =
    | Failure(error: string)              // { error }
    | Done                                // { success: true }
    | Acknowledged(message: string)       // { success: true, message }
    | AlreadyExists(message: string)      // { alreadyExists: true, message }
    | Users(users: seq<Record>)           // { users }
    | SettingsView(settings: Settings)    // { settings }
    | History(history: seq<Record>)       // { history }
    | Content(content: string)            // { content }

  datatype Reply = Reply(status: int, body: Body)

  /** A handler's reply together with the store it leaves behind. */
  datatype Outcome = Outcome(reply: Reply, db: DB)

  /** The email of the server session (`session?.user?.email`), `None` when
      there is no session or no email in it. */
  type Principal = Option<string>

  /** `session?.user?.email` is truthy. */
  predicate SignedIn(p: Principal) {
    p.Some? && p.value != ""
  }

  /** The one trusted domain; anyone whose email ends with it is an admin. */
  const TrustedSuffix := "@peaksynergyai.com"

  predicate IsAdminEmail(email: string) {
    EndsWith(email, TrustedSuffix)
  }

  /** `session?.user?.email?.endsWith("@peaksynergyai.com")` */
  predicate IsAdmin(p: Principal) {
    p.Some? && IsAdminEmail(p.value)
  }

  /** An admin email is never empty, so an admin is always signed in. */
  lemma AdminIsSignedIn(p: Principal)
    ensures IsAdmin(p) ==> SignedIn(p)
  {
  }

  const Unauthorized := Reply(401, Failure("Unauthorized"))
  const Forbidden := Reply(403, Failure("Unauthorized"))
}
