/**
 * The tables of the access-control core: users, roles, permissions, the
 * role-permission join, menus and login sessions. Rows are values; the
 * database is one object whose table fields the route handlers and model
 * methods reassign. A nullable text column the code only tests for
 * truthiness is a `string`, with "" standing for NULL. Times are whole
 * seconds.
 */
module Schema {
  import opened Wrappers
  import opened Json
  import Forest

  /** The legacy `users.role` enum. */
  datatype LegacyRole = Admin | Operator | Viewer

  datatype User = User(
    id: nat,
    username: string,
    passwordHash: string,
    realName: string,
    email: string,
    phone: string,
    role: LegacyRole,
    roleId: Option<nat>,
    status: bool,
    lastLogin: Option<int>,
    loginCount: nat)

  datatype Role = Role(
    id: nat,
    name: string,
    code: string,
    description: string,
    isSystem: bool,
    status: bool,
    sortOrder: int)

  datatype Permission = Permission(
    id: nat,
    name: string,
    code: string,
    description: string,
    moduleName: string,
    permissionType: string,
    resourcePath: string,
    httpMethod: string,
    isSystem: bool,
    status: bool,
    sortOrder: int)

  /** A `role_permissions` row. */
  datatype Link = Link(roleId: nat, permissionId: nat)

  datatype Menu = Menu(
    id: nat,
    name: string,
    title: string,
    path: string,
    component: string,
    icon: string,
    parent: Option<nat>,
    sortOrder: int,
    createdAt: int,
    menuType: string,
    isHidden: bool,
    isKeepalive: bool,
    isAffix: bool,
    redirect: string,
    permissionCode: string,
    status: bool)

  /**
   * The `session_data` text column as `get_all_data` reads it: empty or
   * NULL, a JSON text that decodes, or one that does not.
   */
  datatype SessionData = NoData | Decoded(fields: map<string, Json>) | Undecodable

  datatype Session = Session(
    id: string,
    userId: nat,
    ipAddress: string,
    userAgent: string,
    loginTime: int,
    lastActivity: int,
    expiresAt: int,
    isActive: bool,
    data: SessionData)

  /** The (id, parent) skeleton of the menu table. */
  function MenuNodes(ms: seq<Menu>): (ns: seq<Forest.Node>)
    ensures |ns| == |ms|
    ensures forall i :: 0 <= i < |ms| ==> ns[i] == Forest.Node(ms[i].id, ms[i].parent)
  {
    if ms == [] then [] else [Forest.Node(ms[0].id, ms[0].parent)] + MenuNodes(ms[1..])
  }

  /** Every `parent_id` names an existing menu (the foreign key). */
  predicate NoDangling(ms: seq<Menu>)
  {
    forall i :: 0 <= i < |ms| && ms[i].parent.Some? ==> exists j :: 0 <= j < |ms| && ms[j].id == ms[i].parent.value
  }

  /** The menu table is a forest: unique ids, resolvable parents, no cycles. */
  predicate MenuTree(ms: seq<Menu>)
  {
    Forest.UniqueIds(MenuNodes(ms)) && Forest.Acyclic(MenuNodes(ms)) && NoDangling(ms)
  }

  /** The `uk_role_permission` constraint. */
  predicate UniqueLinks(links: seq<Link>)
  {
    forall i, j :: 0 <= i < |links| && 0 <= j < |links| && links[i] == links[j] ==> i == j
  }

  predicate UniqueUserIds(us: seq<User>)
  {
    forall i, j :: 0 <= i < |us| && 0 <= j < |us| && us[i].id == us[j].id ==> i == j
  }

  predicate UniqueRoleIds(rs: seq<Role>)
  {
    forall i, j :: 0 <= i < |rs| && 0 <= j < |rs| && rs[i].id == rs[j].id ==> i == j
  }

  predicate UniquePermissionIds(ps: seq<Permission>)
  {
    forall i, j :: 0 <= i < |ps| && 0 <= j < |ps| && ps[i].id == ps[j].id ==> i == j
  }

  /** The database of the access-control core. */
  class Db {
    var users: seq<User>
    var roles: seq<Role>
    var permissions: seq<Permission>
    var links: seq<Link>
    var menus: seq<Menu>
    var sessions: seq<Session>

    /** The constraints the schema declares. */
    predicate Valid()
      reads this
    {
      UniqueUserIds(users) && UniqueRoleIds(roles) && UniquePermissionIds(permissions)
      && UniqueLinks(links) && MenuTree(menus)
    }

    constructor ()
      ensures Valid()
      ensures users == [] && roles == [] && permissions == [] && links == []
      ensures menus == [] && sessions == []
    {
      users, roles, permissions, links, menus, sessions := [], [], [], [], [], [];
    }
  }

  /** `User.query.get(id)`. */
  function FindUser(us: seq<User>, id: nat): (r: Option<nat>)
    ensures r.Some? ==> r.value < |us| && us[r.value].id == id
    ensures r.None? <==> forall i :: 0 <= i < |us| ==> us[i].id != id
  {
    if us == [] then None
    else if us[0].id == id then Some(0)
    else match FindUser(us[1..], id)
      case None => None
      case Some(k) => Some(k + 1)
  }

  /** `User.get_by_username(name)`: the first row with that name. */
  function FindUsername(us: seq<User>, name: string): (r: Option<nat>)
    ensures r.Some? ==> r.value < |us| && us[r.value].username == name
    ensures r.Some? ==> forall j :: 0 <= j < r.value ==> us[j].username != name
    ensures r.None? <==> forall i :: 0 <= i < |us| ==> us[i].username != name
  {
    if us == [] then None
    else if us[0].username == name then Some(0)
    else match FindUsername(us[1..], name)
      case None => None
      case Some(k) => Some(k + 1)
  }

  /** `Role.get_by_id(id)`. */
  function FindRole(rs: seq<Role>, id: nat): (r: Option<nat>)
    ensures r.Some? ==> r.value < |rs| && rs[r.value].id == id
    ensures r.None? <==> forall i :: 0 <= i < |rs| ==> rs[i].id != id
  {
    if rs == [] then None
    else if rs[0].id == id then Some(0)
    else match FindRole(rs[1..], id)
      case None => None
      case Some(k) => Some(k + 1)
  }

  /** `Permission.get_by_id(id)`. */
  function FindPermission(ps: seq<Permission>, id: nat): (r: Option<nat>)
    ensures r.Some? ==> r.value < |ps| && ps[r.value].id == id
    ensures r.None? <==> forall i :: 0 <= i < |ps| ==> ps[i].id != id
  {
    if ps == [] then None
    else if ps[0].id == id then Some(0)
    else match FindPermission(ps[1..], id)
      case None => None
      case Some(k) => Some(k + 1)
  }

  /** `Menu.get_by_id(id)`. */
  function FindMenu(ms: seq<Menu>, id: nat): (r: Option<nat>)
    ensures r.Some? ==> r.value < |ms| && ms[r.value].id == id
    ensures r.None? <==> forall i :: 0 <= i < |ms| ==> ms[i].id != id
  {
    if ms == [] then None
    else if ms[0].id == id then Some(0)
    else match FindMenu(ms[1..], id)
      case None => None
      case Some(k) => Some(k + 1)
  }

  /** `UserSession.get_by_id(id)`. */
  function FindSession(ss: seq<Session>, id: string): (r: Option<nat>)
    ensures r.Some? ==> r.value < |ss| && ss[r.value].id == id
    ensures r.None? <==> forall i :: 0 <= i < |ss| ==> ss[i].id != id
  {
    if ss == [] then None
    else if ss[0].id == id then Some(0)
    else match FindSession(ss[1..], id)
      case None => None
      case Some(k) => Some(k + 1)
  }

  /** Looking a menu up by id agrees with looking its node up. */
  lemma {:induction false} FindMenuNode(ms: seq<Menu>, id: nat)
    ensures Forest.IndexOf(MenuNodes(ms), id) == FindMenu(ms, id)
  {
    if ms != [] {
      assert MenuNodes(ms)[1..] == MenuNodes(ms[1..]);
      FindMenuNode(ms[1..], id);
    }
  }
}
