/**
 * The Next.js route guard: a signed-out visitor to the study pages is sent
 * to `/auth`, a signed-in visitor to `/auth` is sent to `/study`, and every
 * other request passes through. The session lookup is the parameter
 * `hasSession`; only the path of the request URL takes part.
 */
module RouteGuard {

  datatype Decision = Next | Redirect(location: string)

  const StudyPath: string := "/study"
  const AuthPath: string := "/auth"

  predicate StartsWith(s: string, prefix: string)
  {
    |prefix| <= |s| && s[..|prefix|] == prefix
  }

  /** `middleware(req)`. */
  function Middleware(hasSession: bool, path: string): (d: Decision)
    ensures d.Redirect? ==> d.location in {StudyPath, AuthPath} && d.location != path
  {
    if !hasSession && StartsWith(path, StudyPath) then Redirect(AuthPath)
    else if hasSession && path == AuthPath then Redirect(StudyPath)
    else Next
  }

  /** `config.matcher`: `/study/:path*` (the page and everything below it) and `/auth`. */
  predicate MatcherApplies(path: string)
  {
    path == StudyPath || StartsWith(path, StudyPath + "/") || path == AuthPath
  }

  /** A request as Next.js routes it: the middleware runs only on matched paths. */
  function Guard(hasSession: bool, path: string): (d: Decision)
    ensures d.Redirect? ==> MatcherApplies(path) && d == Middleware(hasSession, path)
  {
    if MatcherApplies(path) then Middleware(hasSession, path) else Next
  }

  // ---------------------------------------------------------------------
  // Properties of the guard
  // ---------------------------------------------------------------------

  /** The complete decision table: two redirects, and a pass for everything else. */
  lemma DecisionTable(hasSession: bool, path: string)
    ensures Middleware(hasSession, path) == Redirect(AuthPath) <==> !hasSession && StartsWith(path, StudyPath)
    ensures Middleware(hasSession, path) == Redirect(StudyPath) <==> hasSession && path == AuthPath
    ensures Middleware(hasSession, path) == Next
        <==> !(!hasSession && StartsWith(path, StudyPath)) && !(hasSession && path == AuthPath)
  {
  }

  /** No path triggers both redirects, whatever the session. */
  lemma RedirectsExclusive(path: string)
    ensures !(StartsWith(path, StudyPath) && path == AuthPath)
  {
  }

  /** Following a redirect with the same session passes through: there is no redirect loop. */
  lemma NoRedirectLoop(hasSession: bool, path: string)
    ensures Middleware(hasSession, path).Redirect? ==>
      Middleware(hasSession, Middleware(hasSession, path).location) == Next
  {
  }

  /** The study test is a prefix match and the auth test an exact one. */
  lemma PrefixAndExactMatch(suffix: string)
    ensures Middleware(false, StudyPath + suffix) == Redirect(AuthPath)
    ensures suffix != "" ==> Middleware(true, AuthPath + suffix) == Next
  {
  }

  /**
   * Where the matcher applies the guard is the middleware; elsewhere nothing
   * is redirected, so a signed-out `/studyguide` is not sent to `/auth`.
   */
  lemma MatcherScopesGuard(hasSession: bool, path: string)
    ensures MatcherApplies(path) ==> Guard(hasSession, path) == Middleware(hasSession, path)
    ensures !MatcherApplies(path) ==> Guard(hasSession, path) == Next
    ensures Guard(false, "/studyguide") == Next && Middleware(false, "/studyguide") == Redirect(AuthPath)
  {
    assert StartsWith("/studyguide", StudyPath);
    assert !StartsWith("/studyguide", StudyPath + "/") by {
      assert "/studyguide"[6] != (StudyPath + "/")[6];
    }
  }
}
