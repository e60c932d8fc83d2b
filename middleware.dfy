/** The admin gate that runs before every `/admin` page: a request without
    an `admin-token` cookie of at least ten characters is redirected to the
    login page. The token's signature is not checked here; the API routes
    do that. */
module Middleware {

  import opened Common
  import Js

  const LoginPage := "/admin/login"
  const MinTokenLength := 10

  datatype Decision = Next | Redirect(location: string)

  predicate StartsWith(s: string, prefix: string) {
    |prefix| <= |s| && s[..|prefix|] == prefix
  }

  /** The matcher `/admin/:path*`: `/admin` itself and everything below it. */
  predicate Matched(path: string) {
    path == "/admin" || StartsWith(path, "/admin/")
  }

  /** The admission test: a cookie is present, non-empty and long enough. */
  predicate Admitted(token: Option<string>) {
    Js.Given(token) && |token.value| >= MinTokenLength
  }

  /** The middleware function as written; `token` is the `admin-token`
      cookie's value, if any. */
  function Middleware(path: string, token: Option<string>): (d: Decision)
    ensures d.Redirect? <==> StartsWith(path, "/admin") && !Admitted(token)
    ensures d.Redirect? ==> d.location == LoginPage
  {
    if StartsWith(path, "/admin") then
      if !Js.Given(token) then Redirect(LoginPage)
      else if |token.value| < MinTokenLength then Redirect(LoginPage)
      else Next
    else Next
  }

  /** What a request meets: the middleware runs only on matched paths. */
  function Gate(path: string, token: Option<string>): (d: Decision)
    ensures !Matched(path) ==> d == Next
    ensures Matched(path) ==> d == Middleware(path, token)
  {
    if Matched(path) then Middleware(path, token) else Next
  }

  /** Every matched path starts with `/admin`, so on it the gate redirects
      exactly the requests without an admissible token. */
  lemma MatchedGateRedirects(path: string, token: Option<string>)
    requires Matched(path)
    ensures Gate(path, token).Redirect? <==> !Admitted(token)
  {
    assert StartsWith(path, "/admin") by {
      if path != "/admin" {
        assert path[..6] == path[..7][..6];
      }
    }
  }

  /** Any cookie of ten or more characters passes, whatever it holds. */
  lemma LongTokenPasses(path: string, t: string)
    requires |t| >= MinTokenLength
    ensures Gate(path, Some(t)) == Next
  {
  }

  /** As written, the login page is gated like every other admin page: a
      visitor without a token is sent to the login page, and the request
      for the login page is sent there again. */
  lemma LoginPageRedirectsToItself(token: Option<string>)
    requires !Admitted(token)
    ensures Gate(LoginPage, token) == Redirect(LoginPage)
    ensures Gate(Gate(LoginPage, token).location, token) == Redirect(LoginPage)
  {
    assert StartsWith(LoginPage, "/admin/");
    assert StartsWith(LoginPage, "/admin");
  }

  /** The gate with the login page exempt. */
  function GateExemptingLogin(path: string, token: Option<string>): (d: Decision)
    ensures path == LoginPage ==> d == Next
    ensures path != LoginPage ==> d == Gate(path, token)
  {
    if path == LoginPage then Next else Gate(path, token)
  }

  /** With the exemption every redirect leads to a page the visitor can
      load with the same cookie, and only unadmitted requests for matched
      paths other than the login page are redirected. */
  lemma ExemptLoginReachable(path: string, token: Option<string>)
    ensures GateExemptingLogin(path, token).Redirect? ==>
      GateExemptingLogin(GateExemptingLogin(path, token).location, token) == Next
    ensures GateExemptingLogin(path, token).Redirect? <==>
      Matched(path) && path != LoginPage && !Admitted(token)
  {
    if Matched(path) {
      MatchedGateRedirects(path, token);
    }
  }
}
