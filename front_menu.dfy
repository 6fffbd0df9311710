/**
 * The web front end's menu checks (front/src/utils/menu.js) over the fixed
 * menu table of front/src/config/menu.js: whether a menu item, a path or a
 * route may be shown to the signed-in user, and which page is home.
 */
module FrontMenu {
  import opened Wrappers
  import Seqs
  import FP = FrontPermission

  /**
   * A menu table entry. An absent `requiredPermissions` or `roles` list reads
   * as empty: the checks only look at a list when it has elements.
   */
  datatype MenuItem = MenuItem(name: string, title: string, path: string,
                               requiredPermissions: seq<string>, roles: seq<string>)

  /** `MENU_CONFIG`, in its order. */
  const MenuConfig: seq<MenuItem> := [
    MenuItem("dashboard", "系统看板", "/dashboard", ["dashboard:view"], ["admin", "operator"]),
    MenuItem("education", "教育培训", "/education", ["education:view"], ["admin", "operator", "viewer"]),
    MenuItem("navigation", "自主导览", "/navigation", ["navigation:list"], ["admin", "operator", "viewer"]),
    MenuItem("robot-control", "机器人控制", "/robot-control", ["equipment:control"], ["admin", "operator", "viewer"]),
    MenuItem("equipment", "设备管理", "/equipment", ["equipment:list"], ["admin", "operator"]),
    MenuItem("account", "账号管理", "/account", ["user:list"], ["admin"]),
    MenuItem("roles", "角色管理", "/roles", ["role:list"], ["admin"]),
    MenuItem("system", "系统设置", "/system", ["system:settings"], ["admin"])
  ]

  /** `requiredPermissions.some(hasPermission)`, scanning left to right. */
  function AnyHeld(required: seq<string>, held: seq<string>): (r: bool)
    ensures r <==> exists p :: p in required && p in held
  {
    if required == [] then false
    else if required[0] in held then true
    else
      assert forall p :: p in required ==> p == required[0] || p in required[1..];
      AnyHeld(required[1..], held)
  }

  /**
   * `hasMenuPermission`: signed-out users see nothing; a non-empty permission
   * list admits a user holding any one of the codes, whatever the roles say;
   * otherwise a non-empty role list decides through `hasRole`; an item with
   * neither list is open to every signed-in user.
   */
  function HasMenuPermission(auth: FP.AuthState, item: MenuItem): (r: bool)
    ensures !auth.authenticated ==> !r
    ensures auth.authenticated && item.requiredPermissions != [] ==>
              (r <==> exists p :: p in item.requiredPermissions && p in auth.permissions)
    ensures auth.authenticated && item.requiredPermissions == [] && item.roles != [] ==>
              (r <==> FP.HasRole(auth, FP.AnyOf(item.roles)))
    ensures auth.authenticated && item.requiredPermissions == [] && item.roles == [] ==> r
  {
    if !auth.authenticated then false
    else if |item.requiredPermissions| > 0 then AnyHeld(item.requiredPermissions, auth.permissions)
    else if |item.roles| > 0 then FP.HasRole(auth, FP.AnyOf(item.roles))
    else true
  }

  /** Roles never matter for an item that lists permissions. */
  lemma RolesIgnoredWithPermissions(auth: FP.AuthState, item: MenuItem, roles: seq<string>)
    requires item.requiredPermissions != []
    ensures HasMenuPermission(auth, item.(roles := roles)) == HasMenuPermission(auth, item)
  {
  }

  /** `getAvailableMenus`: the menu items the user may see, in table order. */
  function AvailableMenus(auth: FP.AuthState): (r: seq<MenuItem>)
    ensures Seqs.IsSubsequence(r, MenuConfig)
    ensures forall m :: m in r <==> m in MenuConfig && HasMenuPermission(auth, m)
    ensures !auth.authenticated ==> r == []
  {
    Seqs.FilterSubsequence(MenuConfig, m => HasMenuPermission(auth, m));
    Seqs.Filter(MenuConfig, m => HasMenuPermission(auth, m))
  }

  /** `Array.find` by path: the first item with that path, if any. */
  function FindByPath(items: seq<MenuItem>, path: string): (r: Option<MenuItem>)
    ensures r.None? <==> forall m :: m in items ==> m.path != path
    ensures r.Some? ==> r.value in items && r.value.path == path
    ensures items != [] && items[0].path == path ==> r == Some(items[0])
  {
    if items == [] then None
    else if items[0].path == path then Some(items[0])
    else
      assert forall m :: m in items ==> m == items[0] || m in items[1..];
      FindByPath(items[1..], path)
  }

  /** No two entries of the menu table share a path. */
  lemma ConfigPathsUnique()
    ensures forall i, j :: 0 <= i < j < |MenuConfig| ==> MenuConfig[i].path != MenuConfig[j].path
  {
  }

  /** The table entry for each configured path is the entry itself. */
  lemma FindConfigured(m: MenuItem)
    requires m in MenuConfig
    ensures FindByPath(MenuConfig, m.path) == Some(m)
  {
    ConfigPathsUnique();
    var r := FindByPath(MenuConfig, m.path);
    assert r.Some?;
  }

  /** `hasPathPermission`: a path outside the table is open; a listed one follows its entry. */
  function HasPathPermission(auth: FP.AuthState, path: string): (r: bool)
    ensures (forall m :: m in MenuConfig ==> m.path != path) ==> r
    ensures forall m :: m in MenuConfig && m.path == path ==> (r <==> HasMenuPermission(auth, m))
  {
    match FindByPath(MenuConfig, path)
    case None => true
    case Some(m) =>
      assert forall n :: n in MenuConfig && n.path == path ==> n == m by {
        forall n | n in MenuConfig && n.path == path
          ensures n == m
        {
          FindConfigured(n);
        }
      }
      HasMenuPermission(auth, m)
  }

  /** The per-route test of `filterRoutesByPermission`. */
  predicate RouteAllowed(auth: FP.AuthState, route: FP.Route)
  {
    match FindByPath(MenuConfig, route.path)
    case Some(m) => HasMenuPermission(auth, m)
    case None => route.meta.roles.None? || FP.HasRole(auth, FP.AnyOf(route.meta.roles.value))
  }

  /**
   * `filterRoutesByPermission`: a route in the menu table follows its entry;
   * any other follows its role list when it has one and is kept otherwise.
   */
  function FilterRoutesByPermission(auth: FP.AuthState, routes: seq<FP.Route>): (r: seq<FP.Route>)
    ensures Seqs.IsSubsequence(r, routes)
    ensures forall x :: x in r <==> x in routes && RouteAllowed(auth, x)
  {
    Seqs.FilterSubsequence(routes, x => RouteAllowed(auth, x));
    Seqs.Filter(routes, x => RouteAllowed(auth, x))
  }

  /** Signed out, only routes outside the menu table and without a role list survive the filter. */
  lemma SignedOutRoutes(auth: FP.AuthState, routes: seq<FP.Route>)
    requires !auth.authenticated
    ensures forall x :: x in FilterRoutesByPermission(auth, routes) <==>
              x in routes && x.meta.roles.None? && forall m :: m in MenuConfig ==> m.path != x.path
  {
    forall x | x in routes
      ensures RouteAllowed(auth, x) <==>
                x.meta.roles.None? && forall m :: m in MenuConfig ==> m.path != x.path
    {
      match FindByPath(MenuConfig, x.path)
      case Some(m) =>
      case None =>
    }
  }

  /** Some available menu item has this path. */
  predicate Offers(menus: seq<MenuItem>, path: string)
  {
    exists m :: m in menus && m.path == path
  }

  /**
   * `getDefaultHomePath`: '/login' when signed out, the dashboard when it is
   * available, else the first available item, else '/education'.
   */
  function DefaultHomePath(auth: FP.AuthState): (r: string)
    ensures !auth.authenticated ==> r == "/login"
    ensures auth.authenticated && Offers(AvailableMenus(auth), "/dashboard") ==> r == "/dashboard"
    ensures auth.authenticated && AvailableMenus(auth) != [] ==> Offers(AvailableMenus(auth), r)
    ensures auth.authenticated && AvailableMenus(auth) == [] ==> r == "/education"
  {
    if !auth.authenticated then "/login"
    else
      var available := AvailableMenus(auth);
      if Offers(available, "/dashboard") then "/dashboard"
      else if |available| > 0 then
        assert available[0] in available;
        available[0].path
      else "/education"
  }

  /** A signed-in user with some menu is sent home to a page the user may open. */
  lemma HomePermitted(auth: FP.AuthState)
    requires auth.authenticated && AvailableMenus(auth) != []
    ensures HasPathPermission(auth, DefaultHomePath(auth))
  {
    var home := DefaultHomePath(auth);
    var m :| m in AvailableMenus(auth) && m.path == home;
    assert m in MenuConfig && HasMenuPermission(auth, m);
  }

  /**
   * A signed-in user with no menu at all is sent to '/education', which the
   * table guards with a permission that user does not hold.
   */
  lemma HomeFallbackRefused(auth: FP.AuthState)
    requires auth.authenticated && AvailableMenus(auth) == []
    ensures !HasPathPermission(auth, DefaultHomePath(auth))
  {
    var m := MenuConfig[1];
    assert m in MenuConfig && m.path == "/education";
  }
}
