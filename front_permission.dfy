/**
 * The web front end's role checks (front/src/utils/permission.js): whether
 * a route may be opened, whether the signed-in user has one of some roles,
 * the role filter over menu items, and the fixed permission table per role.
 * The auth store is an input: whether someone is signed in (a token and a
 * user record), the user's role, and the permission codes the server sent.
 */
module FrontPermission {
  import opened Wrappers
  import Seqs

  /** The auth store's state as the checks read it. */
  datatype AuthState = AuthState(authenticated: bool, role: Option<string>, permissions: seq<string>)

  /** A role argument: one role name, or a list of them. */
  datatype Roles = Single(name: string) | AnyOf(names: seq<string>)

  /**
   * Route meta data: `requiresAuth` (absent reads as false), the page title
   * (absent reads as empty) and the optional list of roles.
   */
  datatype Meta = Meta(requiresAuth: bool, title: string, roles: Option<seq<string>>)

  /** A route or menu item as these checks see it. */
  datatype Route = Route(path: string, name: string, meta: Meta)

  /** The role names a role argument accepts. */
  function Accepted(roles: Roles): seq<string>
  {
    match roles
    case Single(n) => [n]
    case AnyOf(ns) => ns
  }

  /** The user's role is one of `names` (a missing role is in no list). */
  predicate RoleIn(auth: AuthState, names: seq<string>)
  {
    auth.role.Some? && auth.role.value in names
  }

  /**
   * `hasRole`: false when signed out; list membership for a list, equality
   * for a single name. A single name behaves exactly as a one-element list.
   */
  function HasRole(auth: AuthState, roles: Roles): (r: bool)
    ensures r <==> auth.authenticated && RoleIn(auth, Accepted(roles))
    ensures !auth.authenticated ==> !r
  {
    if !auth.authenticated then false
    else match roles
      case AnyOf(ns) => RoleIn(auth, ns)
      case Single(n) => auth.role == Some(n)
  }

  /** `hasRoutePermission`: open routes pass; others need a sign-in and, when listed, a role. */
  function HasRoutePermission(auth: AuthState, route: Route): (r: bool)
    ensures !route.meta.requiresAuth ==> r
    ensures route.meta.requiresAuth && !auth.authenticated ==> !r
    ensures route.meta.requiresAuth && route.meta.roles.Some? ==>
              (r <==> HasRole(auth, AnyOf(route.meta.roles.value)))
    ensures route.meta.requiresAuth && route.meta.roles.None? ==> (r <==> auth.authenticated)
  {
    if !route.meta.requiresAuth then true
    else if !auth.authenticated then false
    else if route.meta.roles.Some? then RoleIn(auth, route.meta.roles.value)
    else true
  }

  /** The per-item test of `filterMenuByRole` for a signed-in user. */
  predicate RoleAllows(auth: AuthState, item: Route)
  {
    item.meta.roles.None? || RoleIn(auth, item.meta.roles.value)
  }

  /**
   * `filterMenuByRole`: nothing when signed out; otherwise the items without
   * a role list, and those whose list the user's role is in, in their order.
   */
  function FilterMenuByRole(auth: AuthState, items: seq<Route>): (r: seq<Route>)
    ensures !auth.authenticated ==> r == []
    ensures Seqs.IsSubsequence(r, items)
    ensures forall x :: x in r <==>
              x in items && auth.authenticated &&
              (x.meta.roles.None? || HasRole(auth, AnyOf(x.meta.roles.value)))
  {
    if !auth.authenticated then []
    else
      Seqs.FilterSubsequence(items, x => RoleAllows(auth, x));
      Seqs.Filter(items, x => RoleAllows(auth, x))
  }

  /** `ROLE_PERMISSIONS`, with `|| []` for a role the table lacks. */
  function RolePermissions(role: Option<string>): seq<string>
  {
    if role == Some("admin") then ["all"]
    else if role == Some("operator") then ["read", "write", "execute"]
    else if role == Some("viewer") then ["read"]
    else []
  }

  /**
   * `hasPermission`: an administrator holds everything, an operator holds
   * read, write and execute, a viewer holds read, any other role nothing,
   * and nobody holds anything while signed out.
   */
  function HasPermission(auth: AuthState, permission: string): (r: bool)
    ensures r <==> (auth.authenticated &&
                    (auth.role == Some("admin") ||
                     (auth.role == Some("operator") && permission in {"read", "write", "execute"}) ||
                     (auth.role == Some("viewer") && permission == "read")))
  {
    if !auth.authenticated then false
    else
      var granted := RolePermissions(auth.role);
      "all" in granted || permission in granted
  }

  /** The three roles are ranked: whatever a viewer holds an operator holds, and an administrator holds all. */
  lemma PermissionRanks(auth: AuthState, permission: string)
    requires auth.authenticated
    ensures HasPermission(auth.(role := Some("viewer")), permission) ==>
              HasPermission(auth.(role := Some("operator")), permission)
    ensures HasPermission(auth.(role := Some("admin")), permission)
  {
  }
}
