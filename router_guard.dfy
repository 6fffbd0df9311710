/**
 * The web front end's global navigation guard (front/src/router/index.js):
 * before each route change it sets the page title and answers with exactly
 * one continuation: go on, to the login page, to the 403 page or to the
 * dashboard. The single answer is the decision's `next` value.
 */
module RouterGuard {
  import opened Wrappers
  import FP = FrontPermission
  import FM = FrontMenu

  /** The route being entered. */
  datatype Target = Target(path: string, fullPath: string, name: string, meta: FP.Meta)

  /** The one call of `next`. */
  datatype Next =
    | Proceed                       // next()
    | ToLogin(redirect: string)     // next({ name: 'Login', query: { redirect } })
    | ToForbidden                   // next({ name: 'Forbidden' })
    | ToDashboard                   // next({ name: 'SystemDashboard' })

  /** The guard's effect: the new document title, if any, and the continuation. */
  datatype Decision = Decision(title: Option<string>, next: Next)

  const TitleSuffix: string := " - 宇树G1 EDU"

  /** The guard's choice of continuation. */
  function Continuation(auth: FP.AuthState, to: Target): (n: Next)
    ensures n.ToLogin? <==> to.meta.requiresAuth && !auth.authenticated
    ensures n.ToLogin? ==> n.redirect == to.fullPath
    ensures n == ToForbidden <==>
              to.meta.requiresAuth && auth.authenticated && !FM.HasPathPermission(auth, to.path)
    ensures n == ToDashboard <==>
              !to.meta.requiresAuth && auth.authenticated && to.name in {"Login", "Register"}
  {
    if to.meta.requiresAuth then
      if !auth.authenticated then ToLogin(to.fullPath)
      else if !FM.HasPathPermission(auth, to.path) then ToForbidden
      else Proceed
    else if auth.authenticated && (to.name == "Login" || to.name == "Register") then ToDashboard
    else Proceed
  }

  /** `router.beforeEach`: the title is set when the route has one, then `next` is called once. */
  function BeforeEach(auth: FP.AuthState, to: Target): (d: Decision)
    ensures d.title.Some? <==> to.meta.title != ""
    ensures d.title.Some? ==> d.title.value == to.meta.title + TitleSuffix
    ensures d.next == Continuation(auth, to)
  {
    Decision(if to.meta.title != "" then Some(to.meta.title + TitleSuffix) else None,
             Continuation(auth, to))
  }

  /** A page that needs a sign-in is entered only by a signed-in user holding its path permission. */
  lemma ProceedIsPermitted(auth: FP.AuthState, to: Target)
    requires to.meta.requiresAuth && BeforeEach(auth, to).next == Proceed
    ensures auth.authenticated && FM.HasPathPermission(auth, to.path)
  {
  }

  /** The route's own role list plays no part in the guard's decision. */
  lemma GuardIgnoresRouteRoles(auth: FP.AuthState, to: Target, roles: Option<seq<string>>)
    ensures BeforeEach(auth, to.(meta := to.meta.(roles := roles))) == BeforeEach(auth, to)
  {
  }

  /**
   * The home redirect lands a signed-in user who has some menu on a page the
   * guard lets through.
   */
  lemma HomePasses(auth: FP.AuthState, fullPath: string, name: string, title: string, roles: Option<seq<string>>)
    requires auth.authenticated && FM.AvailableMenus(auth) != []
    ensures BeforeEach(auth, Target(FM.DefaultHomePath(auth), fullPath, name, FP.Meta(true, title, roles))).next == Proceed
  {
    FM.HomePermitted(auth);
  }
}
