/**
 * The route guard run before portal and login pages: a visitor without a
 * session who asks for a portal page is sent to the login page, a signed-in
 * visitor who asks for the login page is sent to the portal, and every
 * other request passes through. Which paths reach the guard at all is
 * decided by the path matcher.
 */
module RouteGuard {

  const PortalPath := "/portal"
  const LoginPath := "/login"

  datatype Decision = RedirectToLogin | RedirectToPortal | Continue

  /** `pathname.startsWith('/portal')`: the first seven characters are "/portal". */
  predicate IsPortalRoute(path: string): (b: bool)
    ensures b <==> |path| >= 7 && forall k :: 0 <= k < 7 ==> path[k] == PortalPath[k]
  {
    PortalPath <= path
  }

  /** `pathname === '/login'`; the login page is never a portal route. */
  predicate IsLoginRoute(path: string): (b: bool)
    ensures b ==> !IsPortalRoute(path)
  {
    assert LoginPath[1] != PortalPath[1];
    path == LoginPath
  }

  /** The guard's decision for a path and whether a user is signed in. */
  function Decide(path: string, signedIn: bool): (d: Decision)
    ensures d == RedirectToLogin <==> IsPortalRoute(path) && !signedIn
    ensures d == RedirectToPortal <==> IsLoginRoute(path) && signedIn
    ensures d == Continue <==> !(IsPortalRoute(path) && !signedIn) && !(IsLoginRoute(path) && signedIn)
  {
    if IsPortalRoute(path) && !signedIn then RedirectToLogin
    else if IsLoginRoute(path) && signedIn then RedirectToPortal
    else Continue
  }

  /** Where a redirect points; `Continue` keeps the requested path. */
  function Target(d: Decision, path: string): string {
    match d
    case RedirectToLogin => LoginPath
    case RedirectToPortal => PortalPath
    case Continue => path
  }

  /** The login page and the portal are not portal/login routes of each other. */
  lemma LoginIsNotPortal()
    ensures !IsPortalRoute(LoginPath)
    ensures !IsLoginRoute(PortalPath) && IsPortalRoute(PortalPath)
  {
    assert LoginPath[1] != PortalPath[1];
  }

  /**
   * Following a redirect never leads to a second redirect for the same
   * session: the target of any redirect is let through.
   */
  lemma NoRedirectLoop(path: string, signedIn: bool)
    ensures Decide(path, signedIn) != Continue ==>
              Decide(Target(Decide(path, signedIn), path), signedIn) == Continue
  {
    LoginIsNotPortal();
  }

  /**
   * The path matcher `['/portal/:path*', '/login']`: the portal root, any
   * path below it, and the login page.
   */
  predicate Matched(path: string): (b: bool)
    ensures b <==> IsLoginRoute(path) || (IsPortalRoute(path) && (|path| == 7 || path[7] == '/'))
  {
    path == PortalPath || PortalPath + "/" <= path || path == LoginPath
  }

  /** Every matched path other than the login page is a portal route. */
  lemma MatchedRoutes(path: string)
    requires Matched(path)
    ensures IsPortalRoute(path) <==> path != LoginPath
  {
    LoginIsNotPortal();
    if PortalPath + "/" <= path {
      assert path[..|PortalPath|] == (PortalPath + "/")[..|PortalPath|];
    }
  }

  /** The middleware as deployed: unmatched paths never reach the guard. */
  function Handle(path: string, signedIn: bool): (d: Decision)
    ensures d == RedirectToLogin <==> Matched(path) && path != LoginPath && !signedIn
    ensures d == RedirectToPortal <==> path == LoginPath && signedIn
    ensures !Matched(path) ==> d == Continue
  {
    if Matched(path) then
      MatchedRoutes(path);
      Decide(path, signedIn)
    else Continue
  }

  /**
   * The guard's own test is wider than the matcher: a path such as
   * "/portalx" would be redirected by the guard, yet never reaches it.
   */
  lemma GuardWiderThanMatcher()
    ensures IsPortalRoute("/portalx") && !Matched("/portalx")
    ensures Decide("/portalx", false) == RedirectToLogin
    ensures Handle("/portalx", false) == Continue
  {
    assert "/portalx"[..|PortalPath|] == PortalPath;
    assert "/portalx"[7] != (PortalPath + "/")[7];
  }

  /** The deployed middleware has no redirect loop either. */
  lemma HandleNoRedirectLoop(path: string, signedIn: bool)
    ensures Handle(path, signedIn) != Continue ==>
              Handle(Target(Handle(path, signedIn), path), signedIn) == Continue
  {
    LoginIsNotPortal();
  }
}
