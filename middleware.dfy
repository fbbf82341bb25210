/** The routing guard in front of the pages: `/reader` pages need a token,
    `/admin` pages need a token whose email ends with the trusted domain. */
module Middleware {
  import opened KV
  import opened Text
  import opened Http

  const ReaderPrefix := "/reader"
  const AdminPrefix := "/admin"
  const SignInPage := "/auth/signin"
  const HomePage := "/"

  /** The decoded session token; `email` is `None` when the token holds none. */
  datatype Token = Token(email: Option<string>)

  datatype Routing = Next | Redirect(to: string)

  /** `token.email?.endsWith("@peaksynergyai.com")` */
  predicate AdminToken(t: Token) {
    t.email.Some? && IsAdminEmail(t.email.value)
  }

  /** The guard for one request to `path` carrying `token`. */
  function Route(path: string, token: Option<Token>): (r: Routing)
    ensures r == Redirect(SignInPage) <==>
      (StartsWith(path, ReaderPrefix) || StartsWith(path, AdminPrefix)) && token.None?
    ensures r == Redirect(HomePage) <==>
      StartsWith(path, AdminPrefix) && token.Some? && !AdminToken(token.value)
    ensures r == Next <==>
      (StartsWith(path, ReaderPrefix) ==> token.Some?) &&
      (StartsWith(path, AdminPrefix) ==> token.Some? && AdminToken(token.value))
  {
    if StartsWith(path, ReaderPrefix) && token.None? then Redirect(SignInPage)
    else if StartsWith(path, AdminPrefix) && token.None? then Redirect(SignInPage)
    else if StartsWith(path, AdminPrefix) && !AdminToken(token.value) then Redirect(HomePage)
    else Next
  }

  /** `/reader/:path*` or `/admin/:path*`: the prefix itself or anything
      below it. */
  predicate Matched(path: string) {
    path == ReaderPrefix || StartsWith(path, ReaderPrefix + "/") ||
    path == AdminPrefix || StartsWith(path, AdminPrefix + "/")
  }

  /** The guard as the framework runs it: only on matched paths. */
  function Guard(path: string, token: Option<Token>): (r: Routing)
    ensures r != Next ==> Matched(path)
    ensures Matched(path) && token.None? ==> r == Redirect(SignInPage)
    ensures Matched(path) && token.Some? && r != Next ==> r == Redirect(HomePage)
    ensures Matched(path) && token.Some? ==>
      (r == Next <==>
        (StartsWith(path, ReaderPrefix) || (StartsWith(path, AdminPrefix) && AdminToken(token.value))))
  {
    if Matched(path) then
      MatchedIsGuarded(path, token);
      Route(path, token)
    else Next
  }

  /** Every matched path lies under exactly one of the two prefixes the guard
      tests, so no matched page is let through unguarded. */
  lemma MatchedIsGuarded(path: string, token: Option<Token>)
    requires Matched(path)
    ensures StartsWith(path, ReaderPrefix) || StartsWith(path, AdminPrefix)
    ensures token.None? ==> Route(path, token) == Redirect(SignInPage)
    ensures !(StartsWith(path, ReaderPrefix) && StartsWith(path, AdminPrefix))
  {
    assert StartsWith(path, ReaderPrefix) ==> path[1] == ReaderPrefix[..|ReaderPrefix|][1] == 'r';
    assert StartsWith(path, AdminPrefix) ==> path[1] == AdminPrefix[..|AdminPrefix|][1] == 'a';
    if StartsWith(path, ReaderPrefix + "/") {
      assert path[..|ReaderPrefix|] == (ReaderPrefix + "/")[..|ReaderPrefix|];
    }
    if StartsWith(path, AdminPrefix + "/") {
      assert path[..|AdminPrefix|] == (AdminPrefix + "/")[..|AdminPrefix|];
    }
  }

  /** An admin page is shown exactly to a token of the trusted domain: the
      same test the admin API applies to the session of that email. */
  lemma AdminPageGate(path: string, email: Principal)
    requires StartsWith(path, AdminPrefix)
    ensures Route(path, Some(Token(email))) == Next <==> IsAdmin(email)
  {
  }
}
