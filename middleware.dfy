/**
 * The request middleware (middleware.ts): a chain of path-prefix guards in
 * front of the pages.  The session lookup is a boolean input; the guard on
 * `/admin` is switched off, so only `/my` paths without a session are sent
 * to the login page.  Next.js runs the middleware only on the paths its
 * `matcher` lists.
 */
module Middleware {
  import opened JsText

  const CallbackPrefix: string := "/auth/callback"
  const AdminPrefix: string := "/admin"
  const MyPrefix: string := "/my"
  const LoginPath: string := "/login"

  /** `NextResponse.next()` or `NextResponse.redirect(new URL(to, req.url))`. */
  datatype Decision = Pass | Redirect(to: string)

  /**
   * `middleware(req)`: the decision for a request to `path`; `hasSession` is
   * whether `getSession` found a session.
   */
  function Decide(path: string, hasSession: bool): (d: Decision)
    ensures d.Redirect? <==> StartsWith(path, MyPrefix) && !hasSession
    ensures d.Redirect? ==> d.to == LoginPath
  {
    MyExcludesOthers(path);
    if StartsWith(path, CallbackPrefix) then Pass
    else if StartsWith(path, AdminPrefix) then Pass
    else if StartsWith(path, MyPrefix) && !hasSession then Redirect(LoginPath)
    else Pass
  }

  /** A matcher entry `base/:path*`: `base` itself, or `base` followed by further segments. */
  predicate Under(path: string, base: string) {
    path == base || StartsWith(path, base + "/")
  }

  /** `config.matcher`: `/admin/:path*`, `/my/:path*` and `/auth/:path*`. */
  predicate Matched(path: string) {
    Under(path, AdminPrefix) || Under(path, MyPrefix) || Under(path, "/auth")
  }

  /** What a request to `path` meets: the middleware where the matcher lets it run, else the page itself. */
  function Route(path: string, hasSession: bool): (d: Decision)
    ensures !Matched(path) ==> d == Pass
    ensures Matched(path) ==> d == Decide(path, hasSession)
  {
    if Matched(path) then Decide(path, hasSession) else Pass
  }

  // ------------------------------------------------------------ properties

  /** A `/my` path is neither a callback nor an admin path: the second characters differ. */
  lemma MyExcludesOthers(path: string)
    ensures StartsWith(path, MyPrefix) ==> !StartsWith(path, CallbackPrefix) && !StartsWith(path, AdminPrefix)
  {
    if StartsWith(path, MyPrefix) {
      assert path[1] == MyPrefix[1] == 'm';
      assert CallbackPrefix[1] == 'a' && AdminPrefix[1] == 'a';
    }
  }

  lemma UnderStartsWith(path: string, base: string)
    requires Under(path, base)
    ensures StartsWith(path, base)
  {
    if path != base {
      assert path[..|base|] == (path[..|base| + 1])[..|base|];
    }
  }

  /** The auth callback always passes, session or not. */
  lemma CallbackPasses(path: string, hasSession: bool)
    requires StartsWith(path, CallbackPrefix)
    ensures Decide(path, hasSession) == Pass
  {
  }

  /** Admin paths pass with and without a session: their guard is disabled. */
  lemma AdminUnguarded(path: string)
    requires StartsWith(path, AdminPrefix)
    ensures Decide(path, false) == Pass && Decide(path, true) == Pass
  {
  }

  /** A `/my` path redirects to `/login` exactly when there is no session. */
  lemma MyNeedsSession(path: string, hasSession: bool)
    requires StartsWith(path, MyPrefix)
    ensures Decide(path, hasSession) == if hasSession then Pass else Redirect(LoginPath)
  {
  }

  /** With a session every request passes. */
  lemma SessionAlwaysPasses(path: string)
    ensures Decide(path, true) == Pass && Route(path, true) == Pass
  {
  }

  /**
   * Behind the matcher the only redirect left is a `/my` page, or `/my`
   * itself, without a session.
   */
  lemma RouteRedirectsOnlyMyPages(path: string, hasSession: bool)
    ensures Route(path, hasSession).Redirect? <==> Under(path, MyPrefix) && !hasSession
  {
    if Under(path, MyPrefix) {
      UnderStartsWith(path, MyPrefix);
    }
    if Under(path, AdminPrefix) {
      UnderStartsWith(path, AdminPrefix);
      assert path[1] == 'a';
    }
    if Under(path, "/auth") {
      UnderStartsWith(path, "/auth");
      assert path[1] == 'a';
    }
  }

  /**
   * `/my-ticket` starts with `/my`, so the middleware would send a visitor
   * without a session to the login page, but the matcher does not run it
   * there and the ticket page stays open.
   */
  lemma MyTicketOutsideMatcher()
    ensures StartsWith("/my-ticket", MyPrefix)
    ensures Decide("/my-ticket", false) == Redirect(LoginPath)
    ensures !Matched("/my-ticket")
    ensures Route("/my-ticket", false) == Pass
  {
    assert "/my-ticket"[..3] == MyPrefix;
    assert "/my-ticket"[3] == '-';
    assert !StartsWith("/my-ticket", MyPrefix + "/") by {
      assert "/my-ticket"[..4] != MyPrefix + "/" by {
        assert ("/my-ticket"[..4])[3] == '-';
      }
    }
  }
}
