/**
 * The menu management endpoints: create, update (with the parent-chain
 * cycle guard), delete, the batch operation, the per-user routes endpoint
 * and the parent-option tree. Each handler answers with a status code and
 * a message; the menu dict it sends back on success is not modelled.
 */
module MenuRoutes {
  import opened Wrappers
  import opened Schema
  import Forest
  import Menus
  import Seqs
  import Text
  import Batch
  import opened ResultEnvelope

  // ---------------------------------------------------------------------
  // Lookups and the uniqueness the handlers maintain
  // ---------------------------------------------------------------------

  /** `Menu.get_by_name(name)`: the first row with that name. */
  function FindName(ms: seq<Menu>, name: string): (r: Option<nat>)
    ensures r.Some? ==> r.value < |ms| && ms[r.value].name == name
    ensures r.None? <==> forall i :: 0 <= i < |ms| ==> ms[i].name != name
  {
    if ms == [] then None
    else if ms[0].name == name then Some(0)
    else match FindName(ms[1..], name)
      case None => None
      case Some(k) => Some(k + 1)
  }

  /** `Menu.get_by_path(path)`: the first row with that path. */
  function FindPath(ms: seq<Menu>, path: string): (r: Option<nat>)
    ensures r.Some? ==> r.value < |ms| && ms[r.value].path == path
    ensures r.None? <==> forall i :: 0 <= i < |ms| ==> ms[i].path != path
  {
    if ms == [] then None
    else if ms[0].path == path then Some(0)
    else match FindPath(ms[1..], path)
      case None => None
      case Some(k) => Some(k + 1)
  }

  /**
   * No two menus share a name, and no two share a non-empty path. The
   * table declares no such constraint; create and update keep it.
   */
  predicate KeysUnique(ms: seq<Menu>)
  {
    (forall i, j :: 0 <= i < |ms| && 0 <= j < |ms| && ms[i].name == ms[j].name ==> i == j)
    && (forall i, j :: 0 <= i < |ms| && 0 <= j < |ms| && ms[i].path != "" && ms[i].path == ms[j].path ==> i == j)
  }

  // ---------------------------------------------------------------------
  // Editing the table keeps it a forest
  // ---------------------------------------------------------------------

  lemma MenuNodesAppend(ms: seq<Menu>, m: Menu)
    ensures MenuNodes(ms + [m]) == MenuNodes(ms) + [Forest.Node(m.id, m.parent)]
  {
    var a, b := MenuNodes(ms + [m]), MenuNodes(ms) + [Forest.Node(m.id, m.parent)];
    forall i | 0 <= i < |a|
      ensures a[i] == b[i]
    {
      if i < |ms| {
        assert (ms + [m])[i] == ms[i];
      }
    }
  }

  lemma MenuNodesUpdate(ms: seq<Menu>, k: nat, m: Menu)
    requires k < |ms| && m.id == ms[k].id
    ensures MenuNodes(ms[k := m]) == Forest.Reparent(MenuNodes(ms), k, m.parent)
  {
    var a, b := MenuNodes(ms[k := m]), Forest.Reparent(MenuNodes(ms), k, m.parent);
    forall i | 0 <= i < |a|
      ensures a[i] == b[i]
    {
    }
  }

  lemma MenuNodesRemove(ms: seq<Menu>, k: nat)
    requires k < |ms|
    ensures MenuNodes(DropRow(ms, k)) == Forest.Without(MenuNodes(ms), k)
  {
    var rest := DropRow(ms, k);
    var a, b := MenuNodes(rest), Forest.Without(MenuNodes(ms), k);
    forall i | 0 <= i < |a|
      ensures a[i] == b[i]
    {
      if i < k {
        assert rest[i] == ms[i];
      } else {
        assert rest[i] == ms[i + 1];
      }
    }
  }

  /** A new row with a fresh id and an existing (or no) parent keeps the table a forest. */
  lemma AppendTree(ms: seq<Menu>, m: Menu)
    requires MenuTree(ms)
    requires FindMenu(ms, m.id).None?
    requires m.parent.None? || FindMenu(ms, m.parent.value).Some?
    ensures MenuTree(ms + [m])
  {
    var ns := MenuNodes(ms);
    FindMenuNode(ms, m.id);
    forall i | 0 <= i < |ns|
      ensures ns[i].parent != Some(m.id)
    {
      if ms[i].parent.Some? {
        var j :| 0 <= j < |ms| && ms[j].id == ms[i].parent.value;
        assert ms[j].id != m.id;
      }
    }
    MenuNodesAppend(ms, m);
    Forest.AppendAcyclic(ns, Forest.Node(m.id, m.parent));
    var ms2 := ms + [m];
    forall i | 0 <= i < |ms2| && ms2[i].parent.Some?
      ensures exists j :: 0 <= j < |ms2| && ms2[j].id == ms2[i].parent.value
    {
      if i < |ms| {
        var j :| 0 <= j < |ms| && ms[j].id == ms[i].parent.value;
        assert ms2[j] == ms[j];
      } else {
        var j := FindMenu(ms, m.parent.value).value;
        assert ms2[j] == ms[j];
      }
    }
  }

  /**
   * Replacing a row by one with the same id keeps the table a forest when
   * the new parent exists (or is none) and the row is not among the new
   * parent's ancestors.
   */
  lemma UpdateTree(ms: seq<Menu>, k: nat, m: Menu)
    requires MenuTree(ms) && k < |ms| && m.id == ms[k].id
    requires m.parent.None? || FindMenu(ms, m.parent.value).Some?
    requires ms[k].id !in Forest.Ancestors(MenuNodes(ms), m.parent)
    ensures MenuTree(ms[k := m])
  {
    MenuNodesUpdate(ms, k, m);
    Forest.ReparentAcyclic(MenuNodes(ms), k, m.parent);
    UpdateNoDangling(ms, k, m);
  }

  lemma UpdateNoDangling(ms: seq<Menu>, k: nat, m: Menu)
    requires NoDangling(ms) && k < |ms| && m.id == ms[k].id
    requires m.parent.None? || FindMenu(ms, m.parent.value).Some?
    ensures NoDangling(ms[k := m])
  {
    var ms2 := ms[k := m];
    forall i | 0 <= i < |ms2| && ms2[i].parent.Some?
      ensures exists j :: 0 <= j < |ms2| && ms2[j].id == ms2[i].parent.value
    {
      if i != k {
        var j :| 0 <= j < |ms| && ms[j].id == ms[i].parent.value;
        assert ms2[j].id == ms[j].id;
      } else {
        var j := FindMenu(ms, m.parent.value).value;
        assert ms2[j].id == ms[j].id;
      }
    }
  }

  /** The table without row `k`. */
  function DropRow(ms: seq<Menu>, k: nat): (r: seq<Menu>)
    requires k < |ms|
    ensures |r| == |ms| - 1
    ensures forall i :: 0 <= i < |r| ==> r[i] == ms[if i < k then i else i + 1]
  {
    ms[..k] + ms[k + 1..]
  }

  /** Removing a row no other row names as parent keeps the table a forest. */
  lemma RemoveTree(ms: seq<Menu>, k: nat)
    requires MenuTree(ms) && k < |ms|
    requires Menus.CanDelete(ms, ms[k].id)
    ensures MenuTree(DropRow(ms, k))
  {
    MenuNodesRemove(ms, k);
    Forest.WithoutLeafAcyclic(MenuNodes(ms), k);
    RemoveNoDangling(ms, k);
  }

  lemma RemoveNoDangling(ms: seq<Menu>, k: nat)
    requires NoDangling(ms) && k < |ms|
    requires Menus.CanDelete(ms, ms[k].id)
    ensures NoDangling(DropRow(ms, k))
  {
    var ms2 := DropRow(ms, k);
    forall i | 0 <= i < |ms2| && ms2[i].parent.Some?
      ensures exists j :: 0 <= j < |ms2| && ms2[j].id == ms2[i].parent.value
    {
      var i0 := if i < k then i else i + 1;
      var j :| 0 <= j < |ms| && ms[j].id == ms[i0].parent.value;
      var j2 := if j < k then j else j - 1;
      assert ms2[j2] == ms[j];
    }
  }

  lemma AppendKeys(ms: seq<Menu>, m: Menu)
    requires KeysUnique(ms)
    requires FindName(ms, m.name).None?
    requires m.path == "" || FindPath(ms, m.path).None?
    ensures KeysUnique(ms + [m])
  {
  }

  lemma UpdateKeys(ms: seq<Menu>, k: nat, m: Menu)
    requires KeysUnique(ms) && k < |ms|
    requires forall i :: 0 <= i < |ms| && i != k ==> ms[i].name != m.name
    requires m.path != "" ==> forall i :: 0 <= i < |ms| && i != k ==> ms[i].path != m.path
    ensures KeysUnique(ms[k := m])
  {
  }

  lemma RemoveKeys(ms: seq<Menu>, k: nat)
    requires KeysUnique(ms) && k < |ms|
    ensures KeysUnique(DropRow(ms, k))
  {
  }

  // ---------------------------------------------------------------------
  // create_menu
  // ---------------------------------------------------------------------

  /**
   * The JSON body of a create request. A text field that is absent or
   * null is "", an optional flag or number that is absent is `None`.
   */
  datatype MenuInput = MenuInput(
    name: string,
    title: string,
    path: string,
    component: string,
    icon: string,
    parentId: Option<nat>,
    sortOrder: Option<int>,
    menuType: Option<string>,
    isHidden: Option<bool>,
    isKeepalive: Option<bool>,
    isAffix: Option<bool>,
    redirect: string,
    permissionCode: string,
    status: Option<bool>)

  /** The largest id in the table, 0 when it is empty. */
  function MaxId(ms: seq<Menu>): (r: nat)
    ensures forall i :: 0 <= i < |ms| ==> ms[i].id <= r
  {
    if ms == [] then 0
    else
      var rest := MaxId(ms[1..]);
      if ms[0].id > rest then ms[0].id else rest
  }

  /** The auto-increment id a new row receives: above every id in use. */
  function NextId(ms: seq<Menu>): (r: nat)
    ensures r > 0 && FindMenu(ms, r).None?
  {
    MaxId(ms) + 1
  }

  /** The row `create_menu` inserts, with the column defaults of the handler. */
  function NewMenu(ms: seq<Menu>, d: MenuInput, now: int): (m: Menu)
    ensures m.id == NextId(ms) && m.name == d.name && m.title == d.title && m.path == d.path
    ensures m.parent == d.parentId
    ensures m.sortOrder == d.sortOrder.UnwrapOr(0) && m.menuType == d.menuType.UnwrapOr("menu")
    ensures m.isHidden == d.isHidden.UnwrapOr(false) && m.isKeepalive == d.isKeepalive.UnwrapOr(true)
    ensures m.isAffix == d.isAffix.UnwrapOr(false) && m.status == d.status.UnwrapOr(true)
    ensures m.createdAt == now
  {
    Menu(NextId(ms), d.name, d.title, d.path, d.component, d.icon, d.parentId,
         d.sortOrder.UnwrapOr(0), now, d.menuType.UnwrapOr("menu"),
         d.isHidden.UnwrapOr(false), d.isKeepalive.UnwrapOr(true), d.isAffix.UnwrapOr(false),
         d.redirect, d.permissionCode, d.status.UnwrapOr(true))
  }

  /**
   * `create_menu`: name and title are required (checked in that order),
   * the name must be new, a non-empty path must be new and a truthy parent
   * must exist. A parent id of 0 passes the check but breaks the foreign
   * key on commit, which the handler reports as a failure. Only a request
   * passing every check inserts a row, and the table stays a forest with
   * unique names and non-empty paths.
   */
  method CreateMenu(db: Db, d: MenuInput, now: int) returns (st: Status)
    requires db.Valid()
    modifies db
    ensures db.Valid()
    ensures KeysUnique(old(db.menus)) ==> KeysUnique(db.menus)
    ensures d.name == "" ==> st == Status(400, "name不能为空")
    ensures d.name != "" && d.title == "" ==> st == Status(400, "title不能为空")
    ensures d.name != "" && d.title != "" && FindName(old(db.menus), d.name).Some? ==>
      st == Status(400, "菜单名称已存在")
    ensures st.code == 200 <==>
      d.name != "" && d.title != "" && FindName(old(db.menus), d.name).None?
      && (d.path == "" || FindPath(old(db.menus), d.path).None?)
      && (d.parentId.None? || (d.parentId.value != 0 && FindMenu(old(db.menus), d.parentId.value).Some?))
    ensures st.code == 200 ==> st.message == "菜单创建成功" && db.menus == old(db.menus) + [NewMenu(old(db.menus), d, now)]
    ensures st.code != 200 ==> db.menus == old(db.menus)
    ensures db.users == old(db.users) && db.roles == old(db.roles) && db.permissions == old(db.permissions)
    ensures db.links == old(db.links) && db.sessions == old(db.sessions)
  {
    if d.name == "" {
      return Status(400, "name不能为空");
    }
    if d.title == "" {
      return Status(400, "title不能为空");
    }
    if FindName(db.menus, d.name).Some? {
      return Status(400, "菜单名称已存在");
    }
    if d.path != "" && FindPath(db.menus, d.path).Some? {
      return Status(400, "菜单路径已存在");
    }
    if d.parentId.Some? && d.parentId.value != 0 && FindMenu(db.menus, d.parentId.value).None? {
      return Status(400, "父菜单不存在");
    }
    if d.parentId == Some(0) {
      return Status(500, "菜单创建失败: ");
    }
    var m := NewMenu(db.menus, d, now);
    AppendTree(db.menus, m);
    if KeysUnique(db.menus) {
      AppendKeys(db.menus, m);
    }
    db.menus := db.menus + [m];
    st := Status(200, "菜单创建成功");
  }

  // ---------------------------------------------------------------------
  // update_menu
  // ---------------------------------------------------------------------

  /**
   * The JSON body of an update request: `None` for a key that is absent.
   * `parentId` is `Some(None)` for an explicit null; `other` says whether
   * the body carries keys the handler ignores.
   */
  datatype MenuPatch = MenuPatch(
    name: Option<string>,
    title: Option<string>,
    path: Option<string>,
    component: Option<string>,
    icon: Option<string>,
    parentId: Option<Option<nat>>,
    sortOrder: Option<int>,
    menuType: Option<string>,
    isHidden: Option<bool>,
    isKeepalive: Option<bool>,
    isAffix: Option<bool>,
    redirect: Option<string>,
    permissionCode: Option<string>,
    status: Option<bool>,
    other: bool)

  /** `not data`: the body is empty. */
  predicate EmptyPatch(p: MenuPatch)
  {
    p == MenuPatch(None, None, None, None, None, None, None, None, None, None, None, None, None, None, false)
  }

  /** The row after the handler has copied every key present in the body. */
  function Patched(m: Menu, p: MenuPatch): (r: Menu)
    ensures r.id == m.id && r.createdAt == m.createdAt
    ensures r.name == p.name.UnwrapOr(m.name) && r.title == p.title.UnwrapOr(m.title)
    ensures r.path == p.path.UnwrapOr(m.path) && r.parent == p.parentId.UnwrapOr(m.parent)
    ensures r.status == p.status.UnwrapOr(m.status) && r.isHidden == p.isHidden.UnwrapOr(m.isHidden)
    ensures p == MenuPatch(None, None, None, None, None, None, None, None, None, None, None, None, None, None, p.other) ==> r == m
  {
    Menu(m.id, p.name.UnwrapOr(m.name), p.title.UnwrapOr(m.title), p.path.UnwrapOr(m.path),
         p.component.UnwrapOr(m.component), p.icon.UnwrapOr(m.icon), p.parentId.UnwrapOr(m.parent),
         p.sortOrder.UnwrapOr(m.sortOrder), m.createdAt, p.menuType.UnwrapOr(m.menuType),
         p.isHidden.UnwrapOr(m.isHidden), p.isKeepalive.UnwrapOr(m.isKeepalive), p.isAffix.UnwrapOr(m.isAffix),
         p.redirect.UnwrapOr(m.redirect), p.permissionCode.UnwrapOr(m.permissionCode), p.status.UnwrapOr(m.status))
  }

  /**
   * The cycle guard of `update_menu`: walks from the prospective parent up
   * the `parent` links and reports whether the menu `x` is met. On a
   * forest the walk visits exactly the ancestor chain of `pid`.
   */
  method ChainMeets(ms: seq<Menu>, pid: nat, x: nat) returns (hit: bool)
    requires MenuTree(ms)
    ensures hit <==> x in Forest.Ancestors(MenuNodes(ms), Some(pid))
  {
    var ns := MenuNodes(ms);
    var cur := FindMenu(ms, pid);
    FindMenuNode(ms, pid);
    if cur.None? {
      Forest.AncestorsEnd(ns, Some(pid));
    }
    ghost var chain := if cur.Some? then Forest.Ancestors(ns, Some(ms[cur.value].id)) else [];
    while cur.Some?
      invariant cur.Some? ==> cur.value < |ms|
      invariant chain == if cur.Some? then Forest.Ancestors(ns, Some(ms[cur.value].id)) else []
      invariant x in Forest.Ancestors(ns, Some(pid)) <==> x in chain
      decreases |chain|
    {
      var c := cur.value;
      if ms[c].id == x {
        RowIndex(ms, c);
        Forest.AncestorsStep(ns, ms[c].id, c);
        return true;
      }
      RowIndex(ms, c);
      Forest.AncestorsStep(ns, ms[c].id, c);
      var up := ms[c].parent;
      if up.Some? {
        cur := FindMenu(ms, up.value);
        FindMenuNode(ms, up.value);
        if cur.None? {
          Forest.AncestorsEnd(ns, up);
        }
      } else {
        cur := None;
        Forest.AncestorsEnd(ns, up);
      }
      chain := if cur.Some? then Forest.Ancestors(ns, Some(ms[cur.value].id)) else [];
    }
    return false;
  }

  /** On a forest a row is found at its own index. */
  lemma RowIndex(ms: seq<Menu>, c: nat)
    requires MenuTree(ms) && c < |ms|
    ensures Forest.IndexOf(MenuNodes(ms), ms[c].id) == Some(c)
  {
    Forest.IndexOfUnique(MenuNodes(ms), c);
  }

  /** Every check of `update_menu` passes. */
  predicate UpdateAllowed(ms: seq<Menu>, id: nat, p: MenuPatch)
    requires MenuTree(ms)
  {
    FindMenu(ms, id).Some? && !EmptyPatch(p)
    && (p.name.Some? ==> NameFree(ms, p.name.value, id))
    && (p.path.Some? && p.path.value != "" ==> PathFree(ms, p.path.value, id))
    && (p.parentId.Some? && p.parentId.value.Some? ==> ParentOk(ms, id, p.parentId.value.value))
  }

  /**
   * The checks of `update_menu`, in the handler's order, giving the first
   * failing one: 404 for an unknown menu and 400 for an empty body; then,
   * for the keys present, a name owned by another menu, a non-empty path
   * owned by another menu, and for a truthy parent id a parent that does
   * not exist, the menu itself, or a parent below the menu. A parent id of
   * 0 passes the checks and fails on commit.
   */
  method CheckUpdate(ms: seq<Menu>, id: nat, p: MenuPatch) returns (err: Option<Status>)
    requires MenuTree(ms)
    ensures err.None? <==> UpdateAllowed(ms, id, p)
    ensures err.Some? ==> err.value.code != 200
    ensures FindMenu(ms, id).None? ==> err == Some(Status(404, "菜单不存在"))
    ensures FindMenu(ms, id).Some? && EmptyPatch(p) ==> err == Some(Status(400, "请提供更新数据"))
    ensures FindMenu(ms, id).Some? && !EmptyPatch(p) && p.name.Some? && !NameFree(ms, p.name.value, id) ==>
      err == Some(Status(400, "菜单名称已存在"))
    ensures p.parentId == Some(Some(id)) ==> err.Some?
  {
    if FindMenu(ms, id).None? {
      return Some(Status(404, "菜单不存在"));
    }
    if EmptyPatch(p) {
      return Some(Status(400, "请提供更新数据"));
    }
    if p.name.Some? && !NameFree(ms, p.name.value, id) {
      return Some(Status(400, "菜单名称已存在"));
    }
    if p.path.Some? && p.path.value != "" && !PathFree(ms, p.path.value, id) {
      return Some(Status(400, "菜单路径已存在"));
    }
    if p.parentId.Some? && p.parentId.value.Some? {
      err := CheckParent(ms, id, p.parentId.value.value);
      return;
    }
    return None;
  }

  /**
   * The parent checks of `update_menu` for a truthy parent id: an unknown
   * parent, the menu itself, or a parent below the menu fails with 400; a
   * parent id of 0 passes them and fails on commit with 500.
   */
  method CheckParent(ms: seq<Menu>, id: nat, pid: nat) returns (err: Option<Status>)
    requires MenuTree(ms)
    ensures err.None? <==> ParentOk(ms, id, pid)
    ensures err.Some? ==> err.value.code != 200
    ensures pid == id ==> err.Some?
  {
    if pid == 0 {
      return Some(Status(500, "菜单更新失败: "));
    }
    if FindMenu(ms, pid).None? {
      return Some(Status(400, "父菜单不存在"));
    }
    if pid == id {
      return Some(Status(400, "不能将自己设为父菜单"));
    }
    var cycle := ChainMeets(ms, pid, id);
    if cycle {
      return Some(Status(400, "不能形成循环引用"));
    }
    return None;
  }

  /**
   * `update_menu`: every failing check leaves the table as it was; success
   * replaces the row by the patched row, and the table stays a forest with
   * unique names and non-empty paths.
   */
  method UpdateMenu(db: Db, id: nat, p: MenuPatch) returns (st: Status)
    requires db.Valid()
    modifies db
    ensures db.Valid()
    ensures KeysUnique(old(db.menus)) ==> KeysUnique(db.menus)
    ensures st.code == 200 <==> UpdateAllowed(old(db.menus), id, p)
    ensures st.code == 200 ==> var k := FindMenu(old(db.menus), id).value;
      st.message == "菜单更新成功" && db.menus == old(db.menus)[k := Patched(old(db.menus)[k], p)]
    ensures st.code != 200 ==> db.menus == old(db.menus)
    ensures db.users == old(db.users) && db.roles == old(db.roles) && db.permissions == old(db.permissions)
    ensures db.links == old(db.links) && db.sessions == old(db.sessions)
  {
    var ms := db.menus;
    var err := CheckUpdate(ms, id, p);
    if err.Some? {
      return err.value;
    }
    var k := FindMenu(ms, id).value;
    var m := Patched(ms[k], p);
    ParentChecks(ms, k, id, p);
    UpdateTree(ms, k, m);
    if KeysUnique(ms) {
      Menus.TreeUnique(ms);
      KeyChecks(ms, k, id, p);
      UpdateKeys(ms, k, m);
    }
    db.menus := ms[k := m];
    st := Status(200, "菜单更新成功");
  }

  /** The name check of `update_menu`: no row, or the menu itself, has the name. */
  predicate NameFree(ms: seq<Menu>, name: string, id: nat)
  {
    FindName(ms, name).None? || ms[FindName(ms, name).value].id == id
  }

  /** The path check of `update_menu`, made only for a non-empty path. */
  predicate PathFree(ms: seq<Menu>, path: string, id: nat)
  {
    FindPath(ms, path).None? || ms[FindPath(ms, path).value].id == id
  }

  /**
   * The parent checks of `update_menu` for a parent id present in the body:
   * truthy, existing, and the menu `id` is not on its chain (which covers
   * the parent being the menu itself).
   */
  predicate ParentOk(ms: seq<Menu>, id: nat, pid: nat)
    requires MenuTree(ms)
  {
    pid != 0 && FindMenu(ms, pid).Some? && id !in Forest.Ancestors(MenuNodes(ms), Some(pid))
  }

  /** The parent checks of `update_menu` leave the patched row a valid forest member. */
  lemma ParentChecks(ms: seq<Menu>, k: nat, id: nat, p: MenuPatch)
    requires MenuTree(ms) && k < |ms| && ms[k].id == id
    requires p.parentId.Some? && p.parentId.value.Some? ==> ParentOk(ms, id, p.parentId.value.value)
    ensures var m := Patched(ms[k], p);
      (m.parent.None? || FindMenu(ms, m.parent.value).Some?)
      && ms[k].id !in Forest.Ancestors(MenuNodes(ms), m.parent)
  {
    var ns := MenuNodes(ms);
    var np := Patched(ms[k], p).parent;
    if p.parentId.None? {
      Forest.NotOwnAncestor(ns, k);
      if np.Some? {
        var j :| 0 <= j < |ms| && ms[j].id == np.value;
      }
    } else if np.None? {
      Forest.AncestorsEnd(ns, None);
    }
  }

  /** The name and path checks of `update_menu` leave no other row with the new name or path. */
  lemma KeyChecks(ms: seq<Menu>, k: nat, id: nat, p: MenuPatch)
    requires KeysUnique(ms) && Menus.UniqueIdsOf(ms) && k < |ms| && ms[k].id == id
    requires p.name.Some? ==> NameFree(ms, p.name.value, id)
    requires p.path.Some? && p.path.value != "" ==> PathFree(ms, p.path.value, id)
    ensures forall i :: 0 <= i < |ms| && i != k ==> ms[i].name != Patched(ms[k], p).name
    ensures Patched(ms[k], p).path != "" ==>
      forall i :: 0 <= i < |ms| && i != k ==> ms[i].path != Patched(ms[k], p).path
  {
    var m := Patched(ms[k], p);
    forall i | 0 <= i < |ms| && i != k
      ensures ms[i].name != m.name
    {
      if p.name.Some? && FindName(ms, p.name.value).Some? {
        var j := FindName(ms, p.name.value).value;
        assert j == k;
      }
    }
    if m.path != "" {
      forall i | 0 <= i < |ms| && i != k
        ensures ms[i].path != m.path
      {
        if p.path.Some? && FindPath(ms, p.path.value).Some? {
          var j := FindPath(ms, p.path.value).value;
          assert j == k;
        }
      }
    }
  }

  // ---------------------------------------------------------------------
  // delete_menu
  // ---------------------------------------------------------------------

  /**
   * `delete_menu`: 404 for an unknown menu, 400 while any row names it as
   * parent; otherwise the row goes and the table stays a forest.
   */
  method DeleteMenu(db: Db, id: nat) returns (st: Status)
    requires db.Valid()
    modifies db
    ensures db.Valid()
    ensures KeysUnique(old(db.menus)) ==> KeysUnique(db.menus)
    ensures FindMenu(old(db.menus), id).None? ==> st == Status(404, "菜单不存在")
    ensures FindMenu(old(db.menus), id).Some? && !Menus.CanDelete(old(db.menus), id) ==>
      st == Status(400, "该菜单下还有子菜单，不能删除")
    ensures st.code == 200 <==> FindMenu(old(db.menus), id).Some? && Menus.CanDelete(old(db.menus), id)
    ensures st.code == 200 ==> var k := FindMenu(old(db.menus), id).value;
      st.message == "菜单删除成功" && db.menus == DropRow(old(db.menus), k)
      && FindMenu(db.menus, id).None?
    ensures st.code != 200 ==> db.menus == old(db.menus)
    ensures db.users == old(db.users) && db.roles == old(db.roles) && db.permissions == old(db.permissions)
    ensures db.links == old(db.links) && db.sessions == old(db.sessions)
  {
    var ms := db.menus;
    var found := FindMenu(ms, id);
    if found.None? {
      return Status(404, "菜单不存在");
    }
    var k := found.value;
    if !Menus.CanDelete(ms, id) {
      return Status(400, "该菜单下还有子菜单，不能删除");
    }
    RemoveTree(ms, k);
    if KeysUnique(ms) {
      RemoveKeys(ms, k);
    }
    RemovedGone(ms, k);
    db.menus := DropRow(ms, k);
    st := Status(200, "菜单删除成功");
  }

  /** With unique ids, the removed row's id is no longer found. */
  lemma RemovedGone(ms: seq<Menu>, k: nat)
    requires MenuTree(ms) && k < |ms|
    ensures FindMenu(DropRow(ms, k), ms[k].id).None?
  {
    Menus.TreeUnique(ms);
  }

  // ---------------------------------------------------------------------
  // batch_menu_operation
  // ---------------------------------------------------------------------

  /** The operations that change one flag of a row. */
  predicate FlagOp(op: string)
  {
    op == "enable" || op == "disable" || op == "show" || op == "hide"
  }

  /** The row after a flag operation: enable/disable set the status, show/hide the hidden flag. */
  function Flag(m: Menu, op: string): (r: Menu)
    requires FlagOp(op)
    ensures op == "enable" ==> r == m.(status := true)
    ensures op == "disable" ==> r == m.(status := false)
    ensures op == "show" ==> r == m.(isHidden := false)
    ensures op == "hide" ==> r == m.(isHidden := true)
    ensures r.id == m.id && r.parent == m.parent && r.name == m.name && r.path == m.path
  {
    match op
    case "enable" => m.(status := true)
    case "disable" => m.(status := false)
    case "show" => m.(isHidden := false)
    case _ => m.(isHidden := true)
  }

  /** The table after a flag operation on every row whose id is listed. */
  function Flagged(ms: seq<Menu>, ids: seq<nat>, op: string): (r: seq<Menu>)
    requires FlagOp(op)
    ensures |r| == |ms|
    ensures forall j :: 0 <= j < |ms| ==> r[j] == if ms[j].id in ids then Flag(ms[j], op) else ms[j]
    ensures forall j :: 0 <= j < |ms| ==>
      r[j].id == ms[j].id && r[j].parent == ms[j].parent && r[j].name == ms[j].name && r[j].path == ms[j].path
  {
    seq(|ms|, j requires 0 <= j < |ms| => if ms[j].id in ids then Flag(ms[j], op) else ms[j])
  }

  /** A flag operation touches neither ids nor parents. */
  lemma FlaggedNodes(ms: seq<Menu>, ids: seq<nat>, op: string)
    requires FlagOp(op)
    ensures MenuNodes(Flagged(ms, ids, op)) == MenuNodes(ms)
  {
    var a, b := MenuNodes(Flagged(ms, ids, op)), MenuNodes(ms);
    forall j | 0 <= j < |a|
      ensures a[j] == b[j]
    {
    }
  }

  /** A flag operation keeps the table a forest with unique names and paths. */
  lemma FlaggedKeeps(ms: seq<Menu>, ids: seq<nat>, op: string)
    requires FlagOp(op)
    ensures MenuTree(ms) ==> MenuTree(Flagged(ms, ids, op))
    ensures KeysUnique(ms) ==> KeysUnique(Flagged(ms, ids, op))
  {
    FlaggedNodes(ms, ids, op);
    FlaggedNoDangling(ms, ids, op);
  }

  lemma FlaggedNoDangling(ms: seq<Menu>, ids: seq<nat>, op: string)
    requires FlagOp(op)
    ensures NoDangling(ms) ==> NoDangling(Flagged(ms, ids, op))
  {
    var r := Flagged(ms, ids, op);
    if NoDangling(ms) {
      forall i | 0 <= i < |r| && r[i].parent.Some?
        ensures exists j :: 0 <= j < |r| && r[j].id == r[i].parent.value
      {
        var j :| 0 <= j < |ms| && ms[j].id == ms[i].parent.value;
        assert r[j].id == ms[j].id;
      }
    }
  }

  /** The result a flag operation records for one id. */
  function FlagResult(ms: seq<Menu>, id: nat): Batch.Item
  {
    if FindMenu(ms, id).Some? then Batch.Item(id, true, "操作成功") else Batch.Item(id, false, "菜单不存在")
  }

  /** The invariant of the flag loop after `i` ids. */
  predicate FlagLoop(ms0: seq<Menu>, ids: seq<nat>, op: string, i: nat, ms: seq<Menu>,
                     results: seq<Batch.Item>, success: nat, failed: nat)
    requires FlagOp(op)
  {
    i <= |ids| && ms == Flagged(ms0, ids[..i], op) && FlagRecorded(ms0, ids, i, results, success, failed)
  }

  /** The first `i` results are those of the first `i` ids, and the tallies count them. */
  predicate FlagRecorded(ms0: seq<Menu>, ids: seq<nat>, i: nat, results: seq<Batch.Item>, success: nat, failed: nat)
  {
    i <= |ids| && |results| == i
    && (forall j :: 0 <= j < i ==> results[j] == FlagResult(ms0, ids[j]))
    && success == Batch.CountOk(results) && success + failed == i
  }

  lemma FlagRecordedStep(ms0: seq<Menu>, ids: seq<nat>, i: nat, results: seq<Batch.Item>, success: nat, failed: nat)
    requires i < |ids| && FlagRecorded(ms0, ids, i, results, success, failed)
    ensures FlagRecorded(ms0, ids, i + 1, results + [FlagResult(ms0, ids[i])],
                         success + Batch.Tally(FlagResult(ms0, ids[i]).ok), failed + 1 - Batch.Tally(FlagResult(ms0, ids[i]).ok))
  {
    Batch.CountOkAppend(results, FlagResult(ms0, ids[i]));
    FlagResultsAppend(ms0, ids, i, results);
  }

  /** The results of the first `i` ids, followed by that of the next id. */
  lemma FlagResultsAppend(ms0: seq<Menu>, ids: seq<nat>, i: nat, results: seq<Batch.Item>)
    requires i < |ids| && |results| == i
    requires forall j :: 0 <= j < i ==> results[j] == FlagResult(ms0, ids[j])
    ensures forall j :: 0 <= j < i + 1 ==> (results + [FlagResult(ms0, ids[i])])[j] == FlagResult(ms0, ids[j])
  {
    var rs := results + [FlagResult(ms0, ids[i])];
    forall j | 0 <= j < i + 1
      ensures rs[j] == FlagResult(ms0, ids[j])
    {
      if j < i {
        assert rs[j] == results[j];
      }
    }
  }

  /** One more id keeps the flag loop's invariant. */
  lemma FlagLoopStep(ms0: seq<Menu>, ids: seq<nat>, op: string, i: nat, ms: seq<Menu>,
                     results: seq<Batch.Item>, success: nat, failed: nat)
    requires FlagOp(op) && MenuTree(ms0) && i < |ids|
    requires FlagLoop(ms0, ids, op, i, ms, results, success, failed)
    ensures FlagLoop(ms0, ids, op, i + 1, FlagOne(ms, ids[i], op), results + [FlagResult(ms0, ids[i])],
                     success + Batch.Tally(FlagResult(ms0, ids[i]).ok), failed + 1 - Batch.Tally(FlagResult(ms0, ids[i]).ok))
  {
    Menus.TreeUnique(ms0);
    FlagOneStep(ms0, ids, i, op);
    FlagRecordedStep(ms0, ids, i, results, success, failed);
  }

  /** The loop's one-row update, applied after the earlier ids, is the flag operation over one more id. */
  lemma FlagOneStep(ms0: seq<Menu>, ids: seq<nat>, i: nat, op: string)
    requires FlagOp(op) && i < |ids| && Menus.UniqueIdsOf(ms0)
    ensures FlagOne(Flagged(ms0, ids[..i], op), ids[i], op) == Flagged(ms0, ids[..i + 1], op)
  {
    var id := ids[i];
    var ms, f2 := Flagged(ms0, ids[..i], op), Flagged(ms0, ids[..i + 1], op);
    FindFlagged(ms0, ids[..i], op, id);
    assert ids[..i + 1] == ids[..i] + [id];
    var r := FlagOne(ms, id, op);
    forall j | 0 <= j < |ms0|
      ensures r[j] == f2[j]
    {
      if ms0[j].id == id {
        assert FindMenu(ms0, id).value == j;
        FlagTwice(ms0[j], op);
      }
    }
  }

  /** Flagging is idempotent. */
  lemma FlagTwice(m: Menu, op: string)
    requires FlagOp(op)
    ensures Flag(Flag(m, op), op) == Flag(m, op)
  {
  }

  /** Flagging keeps every id at its row, so a lookup finds the same row. */
  lemma FindFlagged(ms: seq<Menu>, ids: seq<nat>, op: string, id: nat)
    requires FlagOp(op) && Menus.UniqueIdsOf(ms)
    ensures FindMenu(Flagged(ms, ids, op), id) == FindMenu(ms, id)
  {
    var fs := Flagged(ms, ids, op);
    var a, b := FindMenu(fs, id), FindMenu(ms, id);
    if b.Some? {
      assert fs[b.value].id == id;
      assert a.Some? && ms[a.value].id == id;
    }
  }

  /** One loop step on the table: the row with `id`, if any, flagged. */
  function FlagOne(ms: seq<Menu>, id: nat, op: string): seq<Menu>
    requires FlagOp(op)
  {
    var found := FindMenu(ms, id);
    if found.Some? then ms[found.value := Flag(ms[found.value], op)] else ms
  }

  /** The enable/disable/show/hide loop. */
  method BatchFlag(db: Db, ids: seq<nat>, op: string) returns (results: seq<Batch.Item>, success: nat, failed: nat)
    requires FlagOp(op) && db.Valid()
    modifies db
    ensures db.menus == Flagged(old(db.menus), ids, op)
    ensures BatchShape(ids, results, success, failed)
    ensures |results| == |ids|
    ensures forall i :: 0 <= i < |ids| ==> results[i] == FlagResult(old(db.menus), ids[i])
    ensures success == Batch.CountOk(results) && success + failed == |ids|
    ensures db.users == old(db.users) && db.roles == old(db.roles) && db.permissions == old(db.permissions)
    ensures db.links == old(db.links) && db.sessions == old(db.sessions)
  {
    var ms0 := db.menus;
    results, success, failed := [], 0, 0;
    var i := 0;
    assert ids[..0] == [];
    assert FlagLoop(ms0, ids, op, 0, db.menus, results, success, failed);
    while i < |ids|
      invariant 0 <= i <= |ids|
      invariant FlagLoop(ms0, ids, op, i, db.menus, results, success, failed)
      invariant db.users == old(db.users) && db.roles == old(db.roles) && db.permissions == old(db.permissions)
      invariant db.links == old(db.links) && db.sessions == old(db.sessions)
    {
      results, success, failed := FlagNext(db, ms0, ids, op, i, results, success, failed);
      i := i + 1;
    }
    assert ids[..i] == ids;
    FlagShape(ms0, ids, results, success, failed);
  }

  /** One pass of the flag loop: the next id's row, if any, flagged, and its result recorded. */
  method FlagNext(db: Db, ms0: seq<Menu>, ids: seq<nat>, op: string, i: nat,
                  results: seq<Batch.Item>, success: nat, failed: nat)
    returns (results2: seq<Batch.Item>, success2: nat, failed2: nat)
    requires FlagOp(op) && MenuTree(ms0) && i < |ids|
    requires FlagLoop(ms0, ids, op, i, db.menus, results, success, failed)
    modifies db
    ensures FlagLoop(ms0, ids, op, i + 1, db.menus, results2, success2, failed2)
    ensures db.users == old(db.users) && db.roles == old(db.roles) && db.permissions == old(db.permissions)
    ensures db.links == old(db.links) && db.sessions == old(db.sessions)
  {
    var id := ids[i];
    FlagLoopStep(ms0, ids, op, i, db.menus, results, success, failed);
    var item := FlagResult(ms0, id);
    db.menus := FlagOne(db.menus, id, op);
    success2, failed2 := success + Batch.Tally(item.ok), failed + 1 - Batch.Tally(item.ok);
    results2 := results + [item];
  }

  /** Recording every id gives one result per id, in order. */
  lemma FlagShape(ms0: seq<Menu>, ids: seq<nat>, results: seq<Batch.Item>, success: nat, failed: nat)
    requires FlagRecorded(ms0, ids, |ids|, results, success, failed)
    ensures BatchShape(ids, results, success, failed)
  {
    forall i | 0 <= i < |ids|
      ensures results[i].id == ids[i]
    {
      assert results[i] == FlagResult(ms0, ids[i]);
    }
  }

  /** The invariant of the delete loop after `i` ids. */
  predicate DeleteLoop(ms0: seq<Menu>, ids: seq<nat>, i: nat, ms: seq<Menu>,
                       results: seq<Batch.Item>, success: nat, failed: nat)
  {
    i <= |ids| && DeleteRecorded(ids, i, ms, results) && DeleteCounted(ms0, i, ms, results, success, failed)
  }

  /** Each of the first `i` ids has its result; a success left no row with that id. */
  predicate DeleteRecorded(ids: seq<nat>, i: nat, ms: seq<Menu>, results: seq<Batch.Item>)
  {
    i <= |ids| && |results| == i
    && (forall j :: 0 <= j < i ==> results[j].id == ids[j])
    && (forall j :: 0 <= j < i && results[j].ok ==> results[j].message == "操作成功" && FindMenu(ms, ids[j]).None?)
    && (forall j :: 0 <= j < i && !results[j].ok ==>
          results[j].message == "菜单不存在" || results[j].message == "该菜单下还有子菜单")
  }

  /** The table only lost rows, one per success, and the tallies add up. */
  predicate DeleteCounted(ms0: seq<Menu>, i: nat, ms: seq<Menu>, results: seq<Batch.Item>, success: nat, failed: nat)
  {
    (KeysUnique(ms0) ==> KeysUnique(ms))
    && (forall m :: m in ms ==> m in ms0)
    && |ms| + success == |ms0|
    && success == Batch.CountOk(results) && success + failed == i
  }

  /** One more id keeps the delete loop's invariant. */
  lemma DeleteLoopStep(ms0: seq<Menu>, ids: seq<nat>, i: nat, ms: seq<Menu>,
                       results: seq<Batch.Item>, success: nat, failed: nat, ms2: seq<Menu>, st: Status)
    requires i < |ids| && DeleteLoop(ms0, ids, i, ms, results, success, failed)
    requires st.code == 200 || st.code == 400 || st.code == 404
    requires st.code == 200 ==> FindMenu(ms, ids[i]).Some? && ms2 == DropRow(ms, FindMenu(ms, ids[i]).value)
    requires st.code == 200 ==> FindMenu(ms2, ids[i]).None?
    requires st.code != 200 ==> ms2 == ms
    requires KeysUnique(ms) ==> KeysUnique(ms2)
    ensures DeleteLoop(ms0, ids, i + 1, ms2, results + [DeleteResult(ids[i], st)],
                       success + Batch.Tally(DeleteResult(ids[i], st).ok), failed + 1 - Batch.Tally(DeleteResult(ids[i], st).ok))
  {
    DeleteRecordedStep(ids, i, ms, results, ms2, st);
    DeleteCountedStep(ms0, ids, i, ms, results, success, failed, ms2, st);
  }

  lemma DeleteRecordedStep(ids: seq<nat>, i: nat, ms: seq<Menu>, results: seq<Batch.Item>, ms2: seq<Menu>, st: Status)
    requires i < |ids| && DeleteRecorded(ids, i, ms, results)
    requires st.code == 200 || st.code == 400 || st.code == 404
    requires st.code == 200 ==> FindMenu(ms, ids[i]).Some? && ms2 == DropRow(ms, FindMenu(ms, ids[i]).value)
    requires st.code == 200 ==> FindMenu(ms2, ids[i]).None?
    requires st.code != 200 ==> ms2 == ms
    ensures DeleteRecorded(ids, i + 1, ms2, results + [DeleteResult(ids[i], st)])
  {
    var item := DeleteResult(ids[i], st);
    var rs := results + [item];
    if st.code == 200 {
      DropKeepsAbsent(ms, FindMenu(ms, ids[i]).value);
    }
    forall j | 0 <= j < i + 1
      ensures rs[j].id == ids[j]
      ensures !rs[j].ok ==> rs[j].message == "菜单不存在" || rs[j].message == "该菜单下还有子菜单"
    {
      if j < i {
        assert rs[j] == results[j];
      }
    }
    forall j | 0 <= j < i + 1 && rs[j].ok
      ensures rs[j].message == "操作成功" && FindMenu(ms2, ids[j]).None?
    {
      if j < i {
        assert rs[j] == results[j];
        assert FindMenu(ms, ids[j]).None?;
      }
    }
  }

  lemma DeleteCountedStep(ms0: seq<Menu>, ids: seq<nat>, i: nat, ms: seq<Menu>,
                          results: seq<Batch.Item>, success: nat, failed: nat, ms2: seq<Menu>, st: Status)
    requires i < |ids| && DeleteCounted(ms0, i, ms, results, success, failed)
    requires st.code == 200 || st.code == 400 || st.code == 404
    requires st.code == 200 ==> FindMenu(ms, ids[i]).Some? && ms2 == DropRow(ms, FindMenu(ms, ids[i]).value)
    requires st.code != 200 ==> ms2 == ms
    requires KeysUnique(ms) ==> KeysUnique(ms2)
    ensures DeleteCounted(ms0, i + 1, ms2, results + [DeleteResult(ids[i], st)],
                          success + Batch.Tally(DeleteResult(ids[i], st).ok), failed + 1 - Batch.Tally(DeleteResult(ids[i], st).ok))
  {
    Batch.CountOkAppend(results, DeleteResult(ids[i], st));
    if st.code == 200 {
      DropKeepsAbsent(ms, FindMenu(ms, ids[i]).value);
    }
  }

  /** The result the delete loop records for one id, from the answer of `delete_menu`. */
  function DeleteResult(id: nat, st: Status): Batch.Item
  {
    if st.code == 404 then Batch.Item(id, false, "菜单不存在")
    else if st.code == 400 then Batch.Item(id, false, "该菜单下还有子菜单")
    else Batch.Item(id, true, "操作成功")
  }

  /** The menus table and the results of a batch delete. */
  datatype DeleteBatch = DeleteBatch(menus: seq<Menu>, results: seq<Batch.Item>)

  /**
   * One id of the batch delete: an unknown menu and a menu some row still
   * names as parent fail and change nothing; otherwise the row goes.
   */
  function DeleteStep(ms: seq<Menu>, id: nat): (r: DeleteBatch)
    ensures |r.results| == 1 && r.results[0].id == id
    ensures r.results[0].ok <==> FindMenu(ms, id).Some? && Menus.CanDelete(ms, id)
    ensures r.results[0].ok ==> r.menus == DropRow(ms, FindMenu(ms, id).value)
    ensures !r.results[0].ok ==> r.menus == ms
  {
    match FindMenu(ms, id)
    case None => DeleteBatch(ms, [Batch.Item(id, false, "菜单不存在")])
    case Some(k) =>
      if Menus.CanDelete(ms, id) then DeleteBatch(DropRow(ms, k), [Batch.Item(id, true, "操作成功")])
      else DeleteBatch(ms, [Batch.Item(id, false, "该菜单下还有子菜单")])
  }

  /** The ids deleted in order, each checked against the table the earlier ones left. */
  function DeleteRun(ms: seq<Menu>, ids: seq<nat>): (r: DeleteBatch)
    ensures |r.results| == |ids|
    ensures forall j :: 0 <= j < |ids| ==> r.results[j].id == ids[j]
  {
    if ids == [] then DeleteBatch(ms, [])
    else
      var prev := DeleteRun(ms, ids[..|ids| - 1]);
      var s := DeleteStep(prev.menus, ids[|ids| - 1]);
      DeleteBatch(s.menus, prev.results + s.results)
  }

  /** The batch delete after one more id. */
  lemma DeleteRunNext(ms: seq<Menu>, ids: seq<nat>, i: nat)
    requires i < |ids|
    ensures var prev := DeleteRun(ms, ids[..i]);
            var s := DeleteStep(prev.menus, ids[i]);
            DeleteRun(ms, ids[..i + 1]) == DeleteBatch(s.menus, prev.results + s.results)
  {
    assert ids[..i + 1][..i] == ids[..i];
  }

  /**
   * A batch delete keeps the table a forest, only removes rows, one per
   * success, and a menu reported deleted is gone at the end.
   */
  lemma {:induction false} DeleteRunKeepsTree(ms: seq<Menu>, ids: seq<nat>)
    requires MenuTree(ms)
    ensures var r := DeleteRun(ms, ids);
            MenuTree(r.menus) && (forall m :: m in r.menus ==> m in ms)
            && |r.menus| + Batch.CountOk(r.results) == |ms|
            && forall j :: 0 <= j < |ids| && r.results[j].ok ==> FindMenu(r.menus, ids[j]).None?
  {
    if ids != [] {
      var front := ids[..|ids| - 1];
      var id := ids[|ids| - 1];
      DeleteRunKeepsTree(ms, front);
      var prev := DeleteRun(ms, front);
      var s := DeleteStep(prev.menus, id);
      var r := DeleteRun(ms, ids);
      assert r == DeleteBatch(s.menus, prev.results + s.results);
      assert s.results == [s.results[0]];
      Batch.CountOkAppend(prev.results, s.results[0]);
      if s.results[0].ok {
        var k := FindMenu(prev.menus, id).value;
        RemoveTree(prev.menus, k);
        DropKeepsAbsent(prev.menus, k);
        RemovedGone(prev.menus, k);
      }
      forall j | 0 <= j < |ids| && r.results[j].ok
        ensures FindMenu(r.menus, ids[j]).None?
      {
        if j < |front| {
          assert r.results[j] == prev.results[j];
          assert ids[j] == front[j];
        }
      }
    }
  }

  /** A batch delete of two ids is the second step run on the table the first left. */
  lemma DeleteRunPair(ms: seq<Menu>, a: nat, b: nat)
    ensures var s1 := DeleteStep(ms, a);
            var s2 := DeleteStep(s1.menus, b);
            DeleteRun(ms, [a, b]) == DeleteBatch(s2.menus, s1.results + s2.results)
  {
    var s1 := DeleteStep(ms, a);
    assert [a][..0] == [];
    assert DeleteRun(ms, [a]) == DeleteBatch(s1.menus, [] + s1.results);
    assert [] + s1.results == s1.results;
    assert [a, b][..1] == [a];
  }

  /** In a forest no menu is its own parent. */
  lemma NotOwnParent(ms: seq<Menu>, i: nat)
    requires MenuTree(ms) && i < |ms|
    ensures ms[i].parent != Some(ms[i].id)
  {
    var ns := MenuNodes(ms);
    if ms[i].parent == Some(ms[i].id) {
      Forest.IndexOfUnique(ns, i);
      Forest.AncestorsStep(ns, ms[i].id, i);
      Forest.NotOwnAncestor(ns, i);
    }
  }

  /**
   * Order matters: with a parent whose only child is a leaf, listing the
   * child first deletes both.
   */
  lemma {:induction false} ChildThenParent(ms: seq<Menu>, c: nat, p: nat)
    requires MenuTree(ms) && c < |ms| && p < |ms|
    requires ms[c].parent == Some(ms[p].id)
    requires forall i :: 0 <= i < |ms| && i != c ==> ms[i].parent != Some(ms[p].id)
    requires forall i :: 0 <= i < |ms| ==> ms[i].parent != Some(ms[c].id)
    ensures var r := DeleteRun(ms, [ms[c].id, ms[p].id]).results; r[0].ok && r[1].ok
  {
    Menus.TreeUnique(ms);
    NotOwnParent(ms, c);
    var cid, pid := ms[c].id, ms[p].id;
    assert FindMenu(ms, cid).value == c;
    var s1 := DeleteStep(ms, cid);
    assert s1.results[0].ok;
    var after := s1.menus;
    assert after == DropRow(ms, c);
    var p2 := if p < c then p else p - 1;
    assert after[p2] == ms[p];
    assert Menus.CanDelete(after, pid) by {
      forall i | 0 <= i < |after| ensures after[i].parent != Some(pid) {
        assert after[i] == ms[if i < c then i else i + 1];
      }
    }
    assert DeleteStep(after, pid).results[0].ok;
    DeleteRunPair(ms, cid, pid);
  }

  /** Listing the parent first refuses it, since its child still names it, and deletes only the child. */
  lemma {:induction false} ParentThenChild(ms: seq<Menu>, c: nat, p: nat)
    requires MenuTree(ms) && c < |ms| && p < |ms|
    requires ms[c].parent == Some(ms[p].id)
    requires forall i :: 0 <= i < |ms| ==> ms[i].parent != Some(ms[c].id)
    ensures var r := DeleteRun(ms, [ms[p].id, ms[c].id]); !r.results[0].ok && r.results[1].ok
    ensures DeleteRun(ms, [ms[p].id, ms[c].id]).menus == DropRow(ms, c)
  {
    Menus.TreeUnique(ms);
    var cid, pid := ms[c].id, ms[p].id;
    assert !Menus.CanDelete(ms, pid);
    assert DeleteStep(ms, pid).menus == ms;
    assert FindMenu(ms, cid).value == c;
    DeleteRunPair(ms, pid, cid);
  }

  /** The answer of `delete_menu` for one id, recorded as the batch does, is the batch's own step. */
  lemma DeleteStepAgrees(ms: seq<Menu>, id: nat, ms2: seq<Menu>, st: Status)
    requires FindMenu(ms, id).None? ==> st.code == 404
    requires FindMenu(ms, id).Some? && !Menus.CanDelete(ms, id) ==> st.code == 400
    requires st.code == 200 <==> FindMenu(ms, id).Some? && Menus.CanDelete(ms, id)
    requires st.code == 200 ==> ms2 == DropRow(ms, FindMenu(ms, id).value)
    requires st.code != 200 ==> ms2 == ms
    ensures DeleteStep(ms, id) == DeleteBatch(ms2, [DeleteResult(id, st)])
  {
  }

  /** The batch delete after one more id, from the answer `delete_menu` gave for it. */
  lemma DeleteRunStep(ms0: seq<Menu>, ids: seq<nat>, i: nat, ms: seq<Menu>, results: seq<Batch.Item>,
                      ms2: seq<Menu>, st: Status)
    requires i < |ids| && DeleteRun(ms0, ids[..i]) == DeleteBatch(ms, results)
    requires FindMenu(ms, ids[i]).None? ==> st.code == 404
    requires FindMenu(ms, ids[i]).Some? && !Menus.CanDelete(ms, ids[i]) ==> st.code == 400
    requires st.code == 200 <==> FindMenu(ms, ids[i]).Some? && Menus.CanDelete(ms, ids[i])
    requires st.code == 200 ==> ms2 == DropRow(ms, FindMenu(ms, ids[i]).value)
    requires st.code != 200 ==> ms2 == ms
    ensures DeleteRun(ms0, ids[..i + 1]) == DeleteBatch(ms2, results + [DeleteResult(ids[i], st)])
  {
    DeleteRunNext(ms0, ids, i);
    DeleteStepAgrees(ms, ids[i], ms2, st);
  }

  /** The delete loop after `i` ids: its invariant and the batch so far. */
  ghost predicate DeleteSoFar(ms0: seq<Menu>, ids: seq<nat>, i: nat, ms: seq<Menu>,
                              results: seq<Batch.Item>, success: nat, failed: nat)
  {
    DeleteLoop(ms0, ids, i, ms, results, success, failed) && DeleteRun(ms0, ids[..i]) == DeleteBatch(ms, results)
  }

  /** The delete loop: each listed id goes through the checks of `delete_menu`. */
  method BatchDelete(db: Db, ids: seq<nat>) returns (results: seq<Batch.Item>, success: nat, failed: nat)
    requires db.Valid()
    modifies db
    ensures db.Valid()
    ensures DeleteRun(old(db.menus), ids) == DeleteBatch(db.menus, results)
    ensures DeleteLoop(old(db.menus), ids, |ids|, db.menus, results, success, failed)
    ensures BatchShape(ids, results, success, failed)
    ensures KeysUnique(old(db.menus)) ==> KeysUnique(db.menus)
    ensures forall m :: m in db.menus ==> m in old(db.menus)
    ensures db.users == old(db.users) && db.roles == old(db.roles) && db.permissions == old(db.permissions)
    ensures db.links == old(db.links) && db.sessions == old(db.sessions)
  {
    var ms0 := db.menus;
    results, success, failed := [], 0, 0;
    var i := 0;
    assert ids[..0] == [];
    assert DeleteSoFar(ms0, ids, 0, db.menus, results, success, failed);
    while i < |ids|
      invariant 0 <= i <= |ids|
      invariant db.Valid()
      invariant DeleteSoFar(ms0, ids, i, db.menus, results, success, failed)
      invariant db.users == old(db.users) && db.roles == old(db.roles) && db.permissions == old(db.permissions)
      invariant db.links == old(db.links) && db.sessions == old(db.sessions)
    {
      results, success, failed := DeleteNext(db, ms0, ids, i, results, success, failed);
      i := i + 1;
    }
    assert ids[..i] == ids;
  }

  /** One pass of the delete loop: `delete_menu` on the next id, and its result recorded. */
  method DeleteNext(db: Db, ms0: seq<Menu>, ids: seq<nat>, i: nat, results: seq<Batch.Item>, success: nat, failed: nat)
    returns (results2: seq<Batch.Item>, success2: nat, failed2: nat)
    requires db.Valid() && i < |ids|
    requires DeleteSoFar(ms0, ids, i, db.menus, results, success, failed)
    modifies db
    ensures db.Valid()
    ensures DeleteSoFar(ms0, ids, i + 1, db.menus, results2, success2, failed2)
    ensures db.users == old(db.users) && db.roles == old(db.roles) && db.permissions == old(db.permissions)
    ensures db.links == old(db.links) && db.sessions == old(db.sessions)
  {
    var id := ids[i];
    ghost var before := db.menus;
    var st := DeleteMenu(db, id);
    DeleteLoopStep(ms0, ids, i, before, results, success, failed, db.menus, st);
    DeleteRunStep(ms0, ids, i, before, results, db.menus, st);
    var item := DeleteResult(id, st);
    success2, failed2 := success + Batch.Tally(item.ok), failed + 1 - Batch.Tally(item.ok);
    results2 := results + [item];
  }

  /** Removing a row loses no absence and adds no row. */
  lemma DropKeepsAbsent(ms: seq<Menu>, k: nat)
    requires k < |ms|
    ensures forall x :: FindMenu(ms, x).None? ==> FindMenu(DropRow(ms, k), x).None?
    ensures forall m :: m in DropRow(ms, k) ==> m in ms
  {
    var r := DropRow(ms, k);
    forall m | m in r
      ensures m in ms
    {
      var i :| 0 <= i < |r| && r[i] == m;
      assert ms[if i < k then i else i + 1] == m;
    }
  }

  /** The result recorded for one id when the operation is not one the handler knows. */
  function UnsupportedResult(ms: seq<Menu>, id: nat): Batch.Item
  {
    if FindMenu(ms, id).Some? then Batch.Item(id, false, "不支持的操作") else Batch.Item(id, false, "菜单不存在")
  }

  /** One result per id, in order, and the tallies count them. */
  predicate BatchShape(ids: seq<nat>, results: seq<Batch.Item>, success: nat, failed: nat)
  {
    |results| == |ids| && success + failed == |ids| && success == Batch.CountOk(results)
    && forall i :: 0 <= i < |ids| ==> results[i].id == ids[i]
  }

  /** The results when the operation is not one the handler knows. */
  method BatchUnsupported(ms: seq<Menu>, ids: seq<nat>) returns (results: seq<Batch.Item>, success: nat, failed: nat)
    ensures |results| == |ids|
    ensures forall i :: 0 <= i < |ids| ==> results[i] == UnsupportedResult(ms, ids[i])
    ensures success == 0 && failed == |ids|
    ensures BatchShape(ids, results, success, failed)
  {
    results, success, failed := [], 0, 0;
    var i := 0;
    while i < |ids|
      invariant 0 <= i <= |ids|
      invariant |results| == i && success == 0 && failed == i
      invariant forall j :: 0 <= j < i ==> results[j] == UnsupportedResult(ms, ids[j])
    {
      var item := UnsupportedResult(ms, ids[i]);
      results := results + [item];
      failed := failed + 1;
      i := i + 1;
    }
  }

  /**
   * `batch_menu_operation`: an empty id list or operation is a 400 that
   * changes nothing; otherwise every id gets exactly one result, counted
   * once as a success or a failure. Deletion keeps the delete guard per
   * id, so the table stays a forest; an unknown operation fails every id
   * and changes nothing.
   */
  method BatchMenuOperation(db: Db, ids: seq<nat>, op: string)
    returns (st: Status, results: seq<Batch.Item>, success: nat, failed: nat)
    requires db.Valid()
    modifies db
    ensures db.Valid()
    ensures KeysUnique(old(db.menus)) ==> KeysUnique(db.menus)
    ensures ids == [] || op == "" ==>
      st == Status(400, "菜单ID列表和操作类型不能为空") && results == [] && db.menus == old(db.menus)
    ensures ids != [] && op != "" ==>
      st == Status(200, Batch.Summary(success, failed)) && BatchShape(ids, results, success, failed)
    ensures ids != [] && op == "delete" ==> DeleteRun(old(db.menus), ids) == DeleteBatch(db.menus, results)
    ensures ids != [] && FlagOp(op) ==>
      db.menus == Flagged(old(db.menus), ids, op)
      && forall i :: 0 <= i < |ids| ==> results[i] == FlagResult(old(db.menus), ids[i])
    ensures ids != [] && op != "" && op != "delete" && !FlagOp(op) ==>
      db.menus == old(db.menus) && forall i :: 0 <= i < |ids| ==> results[i] == UnsupportedResult(old(db.menus), ids[i])
    ensures op != "delete" && !FlagOp(op) ==> db.menus == old(db.menus) && success == 0
    ensures op == "delete" ==> forall m :: m in db.menus ==> m in old(db.menus)
    ensures db.users == old(db.users) && db.roles == old(db.roles) && db.permissions == old(db.permissions)
    ensures db.links == old(db.links) && db.sessions == old(db.sessions)
  {
    if ids == [] || op == "" {
      return Status(400, "菜单ID列表和操作类型不能为空"), [], 0, 0;
    }
    if op == "delete" {
      results, success, failed := BatchDelete(db, ids);
    } else if FlagOp(op) {
      FlaggedKeeps(db.menus, ids, op);
      results, success, failed := BatchFlag(db, ids, op);
    } else {
      results, success, failed := BatchUnsupported(db.menus, ids);
    }
    st := Status(200, Batch.Summary(success, failed));
  }

  // ---------------------------------------------------------------------
  // get_menu_routes
  // ---------------------------------------------------------------------

  /** `menu.to_route_dict()` for a menu known to be in the table. */
  function RouteOf(ms: seq<Menu>, m: Menu): (d: Menus.Route)
    requires MenuTree(ms) && m in ms
    ensures d.name == m.name && d.path == m.path && d.meta.permission == m.permissionCode
    ensures |d.children| == |Menus.SortedChildren(ms, m.id)|
  {
    Menus.TreeUnique(ms);
    Menus.RowOf(ms, m);
    Menus.ToRouteDict(ms, FindMenu(ms, m.id).value)
  }

  /** `[child.to_route_dict() for child in cs]`. */
  function RoutesOf(ms: seq<Menu>, cs: seq<Menu>): (r: seq<Menus.Route>)
    requires MenuTree(ms) && forall c :: c in cs ==> c in ms
    ensures |r| == |cs|
    ensures forall i :: 0 <= i < |cs| ==> r[i] == RouteOf(ms, cs[i])
  {
    seq(|cs|, i requires 0 <= i < |cs| => RouteOf(ms, cs[i]))
  }

  /**
   * The route `get_menu_routes` sends for the root `m`: its own route dict,
   * whose children are replaced by the routes of its kept children when it
   * has any.
   */
  function RootRoute(ms: seq<Menu>, acc: seq<Menu>, m: Menu): (d: Menus.Route)
    requires MenuTree(ms) && m in ms && forall a :: a in acc ==> a in ms
    ensures d.name == m.name && d.meta.permission == m.permissionCode
    ensures Menus.FilteredChildren(acc, m.id) != [] ==> d.children == RoutesOf(ms, Menus.FilteredChildren(acc, m.id))
    ensures Menus.FilteredChildren(acc, m.id) == [] ==> d == RouteOf(ms, m)
  {
    var kids := Menus.FilteredChildren(acc, m.id);
    if kids == [] then RouteOf(ms, m) else RouteOf(ms, m).(children := RoutesOf(ms, kids))
  }

  /**
   * `get_menu_routes`: one route per root of the user's menu tree, in
   * order; a root with kept children lists exactly their routes (one
   * level: each child's own route dict below that), and a root without
   * kept children keeps the children of its route dict.
   */
  method GetMenuRoutes(ms: seq<Menu>, perms: seq<string>) returns (routes: seq<Menus.Route>)
    requires MenuTree(ms)
    ensures var acc := Menus.Accessible(ms, perms);
      |routes| == |Menus.Roots(acc)|
      && forall i :: 0 <= i < |routes| ==> routes[i] == RootRoute(ms, acc, Menus.Roots(acc)[i])
  {
    var roots, children := Menus.GetUserMenus(ms, perms);
    ghost var acc := Menus.Accessible(ms, perms);
    assert roots == Menus.Roots(acc);
    routes := [];
    var i := 0;
    while i < |roots|
      invariant 0 <= i <= |roots|
      invariant RoutesSoFar(ms, acc, roots, i, routes)
    {
      var m := roots[i];
      assert m in roots;
      KidsLookup(ms, perms, roots, children, m);
      var route := RouteOf(ms, m);
      if m.id in children {
        route := route.(children := RoutesOf(ms, children[m.id]));
      }
      RoutesStep(ms, acc, roots, i, routes, route);
      routes := routes + [route];
      i := i + 1;
    }
  }

  lemma RoutesStep(ms: seq<Menu>, acc: seq<Menu>, roots: seq<Menu>, i: nat, routes: seq<Menus.Route>, route: Menus.Route)
    requires MenuTree(ms) && forall a :: a in acc ==> a in ms
    requires forall m :: m in roots ==> m in acc
    requires i < |roots| && RoutesSoFar(ms, acc, roots, i, routes)
    requires route == RootRoute(ms, acc, roots[i])
    ensures RoutesSoFar(ms, acc, roots, i + 1, routes + [route])
  {
    var r2 := routes + [route];
    forall j | 0 <= j < i + 1
      ensures r2[j] == RootRoute(ms, acc, roots[j])
    {
      if j < i {
        assert r2[j] == routes[j];
      }
    }
  }

  /** The first `i` roots have their routes in `routes`. */
  ghost predicate RoutesSoFar(ms: seq<Menu>, acc: seq<Menu>, roots: seq<Menu>, i: nat, routes: seq<Menus.Route>)
    requires MenuTree(ms) && forall a :: a in acc ==> a in ms
    requires forall m :: m in roots ==> m in acc
  {
    i <= |roots| && |routes| == i && forall j :: 0 <= j < i ==> routes[j] == RootRoute(ms, acc, roots[j])
  }

  /** The children map of `get_user_menus` holds a kept menu's key exactly when it has kept children. */
  lemma KidsLookup(ms: seq<Menu>, perms: seq<string>, roots: seq<Menu>, children: map<nat, seq<Menu>>, m: Menu)
    requires Menus.Placed(Menus.KeptIds(Menus.Accessible(ms, perms)), Menus.Accessible(ms, perms), roots, children)
    requires m in Menus.Accessible(ms, perms)
    ensures m in ms
    ensures m.id in children ==> children[m.id] == Menus.FilteredChildren(Menus.Accessible(ms, perms), m.id)
    ensures m.id !in children ==> Menus.FilteredChildren(Menus.Accessible(ms, perms), m.id) == []
    ensures forall c :: c in Menus.FilteredChildren(Menus.Accessible(ms, perms), m.id) ==> c in ms
  {
    assert m.id in Menus.KeptIds(Menus.Accessible(ms, perms));
  }

  /** Every route of the tree needs no permission or one the user holds. */
  predicate Granted(d: Menus.Route, perms: seq<string>)
  {
    (d.meta.permission == "" || d.meta.permission in perms)
    && forall c :: c in d.children ==> Granted(c, perms)
  }

  /**
   * As written, a root none of whose children is kept still carries the
   * routes of all its enabled children, permitted or not: with an open
   * root and one child that needs "menu:secret", a user without that code
   * receives the child's route.
   */
  lemma RoutesLeakChild()
    ensures MenuTree(LeakTable())
    ensures var acc := Menus.Accessible(LeakTable(), []);
      LeakRoot() in Menus.Roots(acc)
      && !Granted(RootRoute(LeakTable(), acc, LeakRoot()), [])
  {
    var ms := LeakTable();
    LeakTableIsTree();
    var acc := Menus.Accessible(ms, []);
    assert LeakRoot() in acc;
    LeakRootKeepsNoChild();
    var d := RootRoute(ms, acc, LeakRoot());
    var sc := Menus.SortedChildren(ms, 1);
    assert LeakSecret() in sc;
    var k :| 0 <= k < |sc| && sc[k] == LeakSecret();
    assert d.children[k].meta.permission == "menu:secret";
    assert d.children[k] in d.children;
  }

  /** An open root menu. */
  function LeakRoot(): (m: Menu)
    ensures m.id == 1 && m.parent.None? && m.status && m.permissionCode == ""
  {
    Menu(1, "home", "Home", "/home", "", "", None, 0, 0, "menu", false, true, false, "", "", true)
  }

  /** An enabled child of the root that needs "menu:secret". */
  function LeakSecret(): (m: Menu)
    ensures m.id == 2 && m.parent == Some(1) && m.status && m.permissionCode == "menu:secret"
  {
    Menu(2, "secret", "Secret", "/home/secret", "", "", Some(1), 0, 0, "menu", false, true, false, "", "menu:secret", true)
  }

  function LeakTable(): (ms: seq<Menu>)
    ensures ms == [LeakRoot(), LeakSecret()]
  {
    [LeakRoot(), LeakSecret()]
  }

  lemma LeakTableIsTree()
    ensures MenuTree(LeakTable())
  {
    var ms := LeakTable();
    var ns := MenuNodes(ms);
    assert ns == [Forest.Node(1, None), Forest.Node(2, Some(1))];
    assert Forest.IndexOf(ns, 1) == Some(0);
    assert Forest.IndexOf(ns, 2) == Some(1);
    assert ns[0].parent == None && ns[1].parent == Some(1);
    assert Forest.Up(ns, None, 0) == Some([]);
    assert Forest.Up(ns, None, 1) == Some([]);
    assert Forest.Up(ns, Some(1), 1).Some?;
    assert Forest.Up(ns, Some(1), 2).Some?;
    assert Forest.Up(ns, Some(2), 2).Some?;
    assert Forest.Acyclic(ns);
    assert ms[1].parent.value == ms[0].id;
  }

  /** A user without "menu:secret" keeps no child of the root. */
  lemma LeakRootKeepsNoChild()
    ensures Menus.FilteredChildren(Menus.Accessible(LeakTable(), []), 1) == []
  {
    var acc := Menus.Accessible(LeakTable(), []);
    assert LeakSecret() !in acc;
    var kids := Menus.FilteredChildren(acc, 1);
    assert forall c :: c in kids ==> c in LeakTable() && c != LeakRoot() && c != LeakSecret();
    if kids != [] {
      assert false;
    }
  }

  /**
   * The evidently intended routes: children are taken from the kept menus
   * at every level, so no route of the tree needs a permission the user
   * does not hold.
   */
  function PermittedRoute(ms: seq<Menu>, perms: seq<string>, m: Menu): (d: Menus.Route)
    requires MenuTree(ms) && m in ms
    ensures d.name == m.name && d.meta.permission == m.permissionCode
    ensures Menus.PermOk(m, perms) ==> Granted(d, perms)
    decreases |ms| - Forest.Depth(MenuNodes(ms), m.id), 1
  {
    var acc := Menus.Accessible(ms, perms);
    var kids := Menus.FilteredChildren(acc, m.id);
    var d := RouteOf(ms, m);
    d.(children := PermittedRoutes(ms, perms, m, kids))
  }

  /** The permitted routes of the kept children `cs` of `m`. */
  function PermittedRoutes(ms: seq<Menu>, perms: seq<string>, m: Menu, cs: seq<Menu>): (r: seq<Menus.Route>)
    requires MenuTree(ms) && m in ms
    requires forall c :: c in cs ==> c in Menus.Accessible(ms, perms) && c.parent == Some(m.id)
    ensures NamedAfter(r, cs) && AllGranted(r, perms)
    decreases |ms| - Forest.Depth(MenuNodes(ms), m.id), 0, |cs|
  {
    if cs == [] then []
    else
      Menus.TreeUnique(ms);
      Menus.RowOf(ms, m);
      assert cs[0] in cs && cs[0] in Menus.Accessible(ms, perms);
      assert cs[0] in ms && cs[0].parent == Some(m.id);
      Menus.ChildRow(ms, FindMenu(ms, m.id).value, cs[0]);
      var h := PermittedRoute(ms, perms, cs[0]);
      var rest := PermittedRoutes(ms, perms, m, cs[1..]);
      PermittedCons(h, rest, cs, perms);
      [h] + rest
  }

  /** Route `i` is named after menu `i`. */
  predicate NamedAfter(r: seq<Menus.Route>, cs: seq<Menu>)
  {
    |r| == |cs| && forall i :: 0 <= i < |cs| ==> r[i].name == cs[i].name
  }

  /** No route in `r` needs a permission the user lacks. */
  predicate AllGranted(r: seq<Menus.Route>, perms: seq<string>)
  {
    forall c :: c in r ==> Granted(c, perms)
  }

  lemma PermittedCons(h: Menus.Route, rest: seq<Menus.Route>, cs: seq<Menu>, perms: seq<string>)
    requires cs != [] && NamedAfter(rest, cs[1..]) && AllGranted(rest, perms)
    requires h.name == cs[0].name && Granted(h, perms)
    ensures NamedAfter([h] + rest, cs) && AllGranted([h] + rest, perms)
  {
    forall i | 1 <= i < |cs|
      ensures ([h] + rest)[i] == rest[i - 1] && cs[i] == cs[1..][i - 1]
    {
    }
  }

  /**
   * The routes with the permission filter applied at every level: one per
   * kept root, in order, and none of them, at any depth, needs a
   * permission the user lacks.
   */
  method GetPermittedMenuRoutes(ms: seq<Menu>, perms: seq<string>) returns (routes: seq<Menus.Route>)
    requires MenuTree(ms)
    ensures |routes| == |Menus.Roots(Menus.Accessible(ms, perms))|
    ensures forall i :: 0 <= i < |routes| ==> routes[i].name == Menus.Roots(Menus.Accessible(ms, perms))[i].name
    ensures forall d :: d in routes ==> Granted(d, perms)
  {
    var acc := Menus.Accessible(ms, perms);
    var roots := Menus.Roots(acc);
    routes := [];
    var i := 0;
    while i < |roots|
      invariant 0 <= i <= |roots|
      invariant PermittedSoFar(roots, perms, i, routes)
    {
      assert roots[i] in roots;
      var d := PermittedRoute(ms, perms, roots[i]);
      PermittedStep(roots, perms, i, routes, d);
      routes := routes + [d];
      i := i + 1;
    }
  }

  /** The first `i` roots have granted routes of the same names in `routes`. */
  predicate PermittedSoFar(roots: seq<Menu>, perms: seq<string>, i: nat, routes: seq<Menus.Route>)
  {
    i <= |roots| && |routes| == i
    && (forall j :: 0 <= j < i ==> routes[j].name == roots[j].name)
    && forall d :: d in routes ==> Granted(d, perms)
  }

  lemma PermittedStep(roots: seq<Menu>, perms: seq<string>, i: nat, routes: seq<Menus.Route>, d: Menus.Route)
    requires i < |roots| && PermittedSoFar(roots, perms, i, routes)
    requires d.name == roots[i].name && Granted(d, perms)
    ensures PermittedSoFar(roots, perms, i + 1, routes + [d])
  {
    var r2 := routes + [d];
    forall e | e in r2
      ensures Granted(e, perms)
    {
      if e != d {
        assert e in routes;
      }
    }
    forall j | 0 <= j < i + 1
      ensures r2[j].name == roots[j].name
    {
      if j < i {
        assert r2[j] == routes[j];
      }
    }
  }

  // ---------------------------------------------------------------------
  // get_parent_menu_options and _build_menu_options
  // ---------------------------------------------------------------------

  /** An entry of the parent-menu drop-down. */
  datatype MenuOption = MenuOption(id: nat, title: string, level: nat, children: seq<MenuOption>)

  /** `'　' * n`: n ideographic spaces. */
  function Indent(n: nat): (r: string)
    ensures |r| == n && forall i :: 0 <= i < n ==> r[i] == '　'
  {
    if n == 0 then "" else Indent(n - 1) + "　"
  }

  /** Every option at every depth carries an id from `ids`. */
  predicate IdsWithin(opts: seq<MenuOption>, ids: set<nat>)
  {
    forall o :: o in opts ==> o.id in ids && IdsWithin(o.children, ids)
  }

  /** The options sit at `level`, their children one level deeper, and so on down. */
  predicate LevelsFrom(opts: seq<MenuOption>, level: nat)
  {
    forall o :: o in opts ==> o.level == level && LevelsFrom(o.children, level + 1)
  }

  lemma AppendWithin(pre: seq<MenuOption>, o: MenuOption, ids: set<nat>, level: nat)
    requires IdsWithin(pre, ids) && LevelsFrom(pre, level)
    requires o.id in ids && IdsWithin(o.children, ids) && o.level == level && LevelsFrom(o.children, level + 1)
    ensures IdsWithin(pre + [o], ids) && LevelsFrom(pre + [o], level)
  {
    assert forall x :: x in pre + [o] ==> x == o || x in pre;
  }

  /** The drop-down title of a menu at `level`: indented, then a branch mark. */
  function Label(level: nat, title: string): string
  {
    Indent(level) + "├─ " + title
  }

  /** The option `_build_menu_options` makes for child `c` at `level`. */
  function OptionFor(ms: seq<Menu>, all: seq<Menu>, c: Menu, level: nat): (o: MenuOption)
    requires MenuTree(ms) && c in ms && forall a :: a in all ==> a in ms
    ensures o.id == c.id && o.title == Label(level, c.title) && o.level == level + 1
    ensures IdsWithin(o.children, Menus.KeptIds(all)) && LevelsFrom(o.children, level + 2)
    decreases |ms| - Forest.Depth(MenuNodes(ms), c.id), 1
  {
    Menus.TreeUnique(ms);
    Menus.RowOf(ms, c);
    var kids := Menus.FilteredChildren(all, c.id);
    MenuOption(c.id, Label(level, c.title), level + 1, OptionsOf(ms, all, c, kids, level + 1))
  }

  /** The options for the children `cs` of `m` (all among `all`), in order. */
  function OptionsOf(ms: seq<Menu>, all: seq<Menu>, m: Menu, cs: seq<Menu>, level: nat): (r: seq<MenuOption>)
    requires MenuTree(ms) && m in ms && forall a :: a in all ==> a in ms
    requires forall c :: c in cs ==> c in all && c.parent == Some(m.id)
    ensures OptionsFor(r, cs, level)
    ensures IdsWithin(r, Menus.KeptIds(all)) && LevelsFrom(r, level + 1)
    decreases |ms| - Forest.Depth(MenuNodes(ms), m.id), 0, |cs|
  {
    if cs == [] then []
    else
      var last := cs[|cs| - 1];
      assert last in cs && last in all;
      Menus.TreeUnique(ms);
      Menus.RowOf(ms, m);
      Menus.ChildRow(ms, FindMenu(ms, m.id).value, last);
      var o := OptionFor(ms, all, last, level);
      var pre := OptionsOf(ms, all, m, cs[..|cs| - 1], level);
      OptionsForSnoc(pre, o, cs, level);
      AppendWithin(pre, o, Menus.KeptIds(all), level + 1);
      pre + [o]
  }

  /** Option `i` carries the id of menu `i` and its title labelled for `level`. */
  predicate OptionsFor(r: seq<MenuOption>, cs: seq<Menu>, level: nat)
  {
    |r| == |cs| && forall i :: 0 <= i < |cs| ==> r[i].id == cs[i].id && r[i].title == Label(level, cs[i].title)
  }

  lemma OptionsForSnoc(pre: seq<MenuOption>, o: MenuOption, cs: seq<Menu>, level: nat)
    requires cs != [] && OptionsFor(pre, cs[..|cs| - 1], level)
    requires o.id == cs[|cs| - 1].id && o.title == Label(level, cs[|cs| - 1].title)
    ensures OptionsFor(pre + [o], cs, level)
  {
    forall i | 0 <= i < |cs| - 1
      ensures (pre + [o])[i] == pre[i] && cs[..|cs| - 1][i] == cs[i]
    {
    }
  }

  /**
   * `_build_menu_options(parent, all_menus, level)`: one option per menu of
   * `all` whose parent is `m`, in the order of `all`, each built the same
   * way one level deeper.
   */
  method BuildMenuOptions(ghost ms: seq<Menu>, all: seq<Menu>, m: Menu, level: nat) returns (opts: seq<MenuOption>)
    requires MenuTree(ms) && m in ms && forall a :: a in all ==> a in ms
    ensures opts == OptionsOf(ms, all, m, Menus.FilteredChildren(all, m.id), level)
    decreases |ms| - Forest.Depth(MenuNodes(ms), m.id)
  {
    opts := [];
    var i := 0;
    BuildStart(ms, all, m, level);
    while i < |all|
      invariant BuiltSoFar(ms, all, m, i, level, opts)
    {
      var c := all[i];
      BuildSkip(ms, all, m, i, level, opts);
      if c.parent == Some(m.id) {
        ChildDeeper(ms, all, m, c);
        var sub := BuildMenuOptions(ms, all, c, level + 1);
        BuildTake(ms, all, m, i, level, opts, sub);
        opts := opts + [MenuOption(c.id, Label(level, c.title), level + 1, sub)];
      }
      i := i + 1;
    }
    BuildDone(ms, all, m, i, level, opts);
  }

  /** The loop of `_build_menu_options` has built the options of the children among the first `i` menus. */
  ghost predicate BuiltSoFar(ms: seq<Menu>, all: seq<Menu>, m: Menu, i: nat, level: nat, opts: seq<MenuOption>)
  {
    MenuTree(ms) && m in ms && (forall a :: a in all ==> a in ms) && i <= |all|
    && (forall c :: c in Menus.FilteredChildren(all[..i], m.id) ==> c in all)
    && opts == OptionsOf(ms, all, m, Menus.FilteredChildren(all[..i], m.id), level)
  }

  lemma BuildStart(ms: seq<Menu>, all: seq<Menu>, m: Menu, level: nat)
    requires MenuTree(ms) && m in ms && forall a :: a in all ==> a in ms
    ensures BuiltSoFar(ms, all, m, 0, level, [])
  {
    assert all[..0] == [];
  }

  lemma BuildDone(ms: seq<Menu>, all: seq<Menu>, m: Menu, i: nat, level: nat, opts: seq<MenuOption>)
    requires BuiltSoFar(ms, all, m, i, level, opts) && i >= |all|
    ensures opts == OptionsOf(ms, all, m, Menus.FilteredChildren(all, m.id), level)
  {
    assert all[..i] == all;
  }

  /** A menu of `all` whose parent is `m` sits one level below `m`. */
  lemma ChildDeeper(ms: seq<Menu>, all: seq<Menu>, m: Menu, c: Menu)
    requires MenuTree(ms) && m in ms && forall a :: a in all ==> a in ms
    requires c in all && c.parent == Some(m.id)
    ensures c in ms
    ensures Forest.Depth(MenuNodes(ms), c.id) == Forest.Depth(MenuNodes(ms), m.id) + 1
  {
    Menus.TreeUnique(ms);
    Menus.RowOf(ms, m);
    Menus.ChildRow(ms, FindMenu(ms, m.id).value, c);
  }

  /** A menu of another parent leaves the options as they were; a child of `m` is in `all`. */
  lemma BuildSkip(ms: seq<Menu>, all: seq<Menu>, m: Menu, i: nat, level: nat, opts: seq<MenuOption>)
    requires BuiltSoFar(ms, all, m, i, level, opts) && i < |all|
    ensures all[i] in all
    ensures all[i].parent != Some(m.id) ==> BuiltSoFar(ms, all, m, i + 1, level, opts)
  {
    ChildrenStep(all, i, m.id);
  }

  /** A child of `m` adds its option, built one level deeper. */
  lemma BuildTake(ms: seq<Menu>, all: seq<Menu>, m: Menu, i: nat, level: nat, opts: seq<MenuOption>, sub: seq<MenuOption>)
    requires BuiltSoFar(ms, all, m, i, level, opts) && i < |all| && all[i].parent == Some(m.id)
    requires all[i] in ms && sub == OptionsOf(ms, all, all[i], Menus.FilteredChildren(all, all[i].id), level + 1)
    ensures BuiltSoFar(ms, all, m, i + 1, level, opts + [MenuOption(all[i].id, Label(level, all[i].title), level + 1, sub)])
  {
    ChildrenStep(all, i, m.id);
    assert all[i] in all;
    OptionsSnoc(ms, all, m, Menus.FilteredChildren(all[..i], m.id), all[i], level);
  }

  /** One more menu of `all` seen by the loop of `_build_menu_options`. */
  lemma ChildrenStep(all: seq<Menu>, i: nat, p: nat)
    requires i < |all|
    ensures all[i].parent == Some(p) ==> Menus.FilteredChildren(all[..i + 1], p) == Menus.FilteredChildren(all[..i], p) + [all[i]]
    ensures all[i].parent != Some(p) ==> Menus.FilteredChildren(all[..i + 1], p) == Menus.FilteredChildren(all[..i], p)
  {
    assert all[..i + 1] == all[..i] + [all[i]];
    Seqs.FilterAppend(all[..i], all[i], (x: Menu) => x.parent == Some(p));
    assert Menus.FilteredChildren(all[..i], p) + [] == Menus.FilteredChildren(all[..i], p);
  }

  /** The options of one more child: the options so far and the child's own. */
  lemma OptionsSnoc(ms: seq<Menu>, all: seq<Menu>, m: Menu, cs: seq<Menu>, c: Menu, level: nat)
    requires MenuTree(ms) && m in ms && forall a :: a in all ==> a in ms
    requires forall x :: x in cs ==> x in all && x.parent == Some(m.id)
    requires c in all && c.parent == Some(m.id)
    ensures OptionsOf(ms, all, m, cs + [c], level) == OptionsOf(ms, all, m, cs, level)
      + [MenuOption(c.id, Label(level, c.title), level + 1, OptionsOf(ms, all, c, Menus.FilteredChildren(all, c.id), level + 1))]
  {
    assert (cs + [c])[..|cs|] == cs;
    assert (cs + [c])[|cs|] == c;
  }

  /** `exclude_id` together with `get_all_children()` when it is set (not 0) and names a menu; otherwise nothing. */
  function Excluded(ms: seq<Menu>, excludeId: Option<int>): (r: seq<nat>)
    requires MenuTree(ms)
    ensures excludeId.None? || excludeId.value <= 0 ==> r == []
    ensures excludeId.Some? && excludeId.value > 0 && FindMenu(ms, excludeId.value as nat).Some? ==>
      r == [excludeId.value as nat] + Menus.AllChildren(ms, excludeId.value as nat)
    ensures excludeId.Some? && excludeId.value > 0 && FindMenu(ms, excludeId.value as nat).None? ==> r == []
  {
    if excludeId.Some? && excludeId.value > 0 && FindMenu(ms, excludeId.value as nat).Some? then
      [excludeId.value as nat] + Menus.AllChildren(ms, excludeId.value as nat)
    else []
  }

  /** The query's filter: enabled directories and menus outside the excluded subtree. */
  predicate Candidate(m: Menu, ex: seq<nat>)
  {
    (m.menuType == "directory" || m.menuType == "menu") && m.status && m.id !in ex
  }

  function Candidates(ms: seq<Menu>, ex: seq<nat>): (r: seq<Menu>)
    ensures forall m :: m in r <==> m in ms && Candidate(m, ex)
  {
    Seqs.Filter(ms, (m: Menu) => Candidate(m, ex))
  }

  /** The root option for candidate root `m`. */
  function RootOption(ms: seq<Menu>, cands: seq<Menu>, m: Menu): (o: MenuOption)
    requires MenuTree(ms) && m in ms && forall a :: a in cands ==> a in ms
    ensures o.id == m.id && o.title == m.title && o.level == 1
    ensures IdsWithin(o.children, Menus.KeptIds(cands)) && LevelsFrom(o.children, 2)
  {
    MenuOption(m.id, m.title, 1, OptionsOf(ms, cands, m, Menus.FilteredChildren(cands, m.id), 1))
  }

  /** The root options for the candidate roots `rs`, in order. */
  function RootOptions(ms: seq<Menu>, cands: seq<Menu>, rs: seq<Menu>): (r: seq<MenuOption>)
    requires MenuTree(ms) && (forall a :: a in cands ==> a in ms) && forall x :: x in rs ==> x in ms
    ensures |r| == |rs|
    ensures forall i :: 0 <= i < |rs| ==> r[i] == RootOption(ms, cands, rs[i])
  {
    seq(|rs|, i requires 0 <= i < |rs| => RootOption(ms, cands, rs[i]))
  }

  /** The menus the query returns: enabled directories and menus outside the excluded subtree. */
  function ParentCandidates(ms: seq<Menu>, excludeId: Option<int>): (r: seq<Menu>)
    requires MenuTree(ms)
    ensures forall m :: m in r <==> m in ms && Candidate(m, Excluded(ms, excludeId))
  {
    Candidates(ms, Excluded(ms, excludeId))
  }

  const ParentOptionsOk: string := "获取父菜单选项成功"

  /**
   * `get_parent_menu_options` with the helper called as the module-level
   * function it is: one option per candidate root, each holding the tree of
   * candidates below it.
   */
  method GetParentMenuOptions(ms: seq<Menu>, excludeId: Option<int>) returns (st: Status, opts: seq<MenuOption>)
    requires MenuTree(ms)
    ensures st == Status(200, ParentOptionsOk)
    ensures opts == RootOptions(ms, ParentCandidates(ms, excludeId), Menus.Roots(ParentCandidates(ms, excludeId)))
  {
    var cands := ParentCandidates(ms, excludeId);
    opts := [];
    var i := 0;
    RootsStart(ms, cands);
    while i < |cands|
      invariant OptionsSoFar(ms, cands, i, opts)
    {
      var m := cands[i];
      RootsSkip(ms, cands, i, opts);
      if m.parent.None? {
        var kids := BuildMenuOptions(ms, cands, m, 1);
        RootsTake(ms, cands, i, opts, kids);
        opts := opts + [MenuOption(m.id, m.title, 1, kids)];
      }
      i := i + 1;
    }
    RootsDone(ms, cands, i, opts);
    st := Status(200, ParentOptionsOk);
  }

  /** `opts` holds the root options of the candidate roots among the first `i` candidates. */
  ghost predicate OptionsSoFar(ms: seq<Menu>, cands: seq<Menu>, i: nat, opts: seq<MenuOption>)
  {
    MenuTree(ms) && (forall a :: a in cands ==> a in ms) && i <= |cands|
    && (forall x :: x in Menus.Roots(cands[..i]) ==> x in ms)
    && opts == RootOptions(ms, cands, Menus.Roots(cands[..i]))
  }

  lemma RootsStart(ms: seq<Menu>, cands: seq<Menu>)
    requires MenuTree(ms) && forall a :: a in cands ==> a in ms
    ensures OptionsSoFar(ms, cands, 0, [])
  {
    assert cands[..0] == [];
  }

  lemma RootsDone(ms: seq<Menu>, cands: seq<Menu>, i: nat, opts: seq<MenuOption>)
    requires OptionsSoFar(ms, cands, i, opts) && i >= |cands|
    ensures opts == RootOptions(ms, cands, Menus.Roots(cands))
  {
    assert cands[..i] == cands;
  }

  /** The roots among one more candidate. */
  lemma RootsStep(cands: seq<Menu>, i: nat)
    requires i < |cands|
    ensures cands[i].parent.None? ==> Menus.Roots(cands[..i + 1]) == Menus.Roots(cands[..i]) + [cands[i]]
    ensures cands[i].parent.Some? ==> Menus.Roots(cands[..i + 1]) == Menus.Roots(cands[..i])
  {
    assert cands[..i + 1] == cands[..i] + [cands[i]];
    Seqs.FilterAppend(cands[..i], cands[i], (x: Menu) => x.parent.None?);
    assert Menus.Roots(cands[..i]) + [] == Menus.Roots(cands[..i]);
  }

  /** A candidate with a parent adds no root option; every candidate is a menu. */
  lemma RootsSkip(ms: seq<Menu>, cands: seq<Menu>, i: nat, opts: seq<MenuOption>)
    requires OptionsSoFar(ms, cands, i, opts) && i < |cands|
    ensures cands[i] in ms
    ensures cands[i].parent.Some? ==> OptionsSoFar(ms, cands, i + 1, opts)
  {
    assert cands[i] in cands;
    RootsStep(cands, i);
  }

  /** A candidate root adds its option. */
  lemma RootsTake(ms: seq<Menu>, cands: seq<Menu>, i: nat, opts: seq<MenuOption>, kids: seq<MenuOption>)
    requires OptionsSoFar(ms, cands, i, opts) && i < |cands| && cands[i].parent.None?
    requires cands[i] in ms && kids == OptionsOf(ms, cands, cands[i], Menus.FilteredChildren(cands, cands[i].id), 1)
    ensures OptionsSoFar(ms, cands, i + 1, opts + [MenuOption(cands[i].id, cands[i].title, 1, kids)])
  {
    RootsStep(cands, i);
    RootOptionsAppend(ms, cands, Menus.Roots(cands[..i]), cands[i]);
  }

  /** The options for one more root: the old ones and the new root's. */
  lemma RootOptionsAppend(ms: seq<Menu>, cands: seq<Menu>, rs: seq<Menu>, c: Menu)
    requires MenuTree(ms) && (forall a :: a in cands ==> a in ms) && (forall x :: x in rs ==> x in ms) && c in ms
    ensures forall x :: x in rs + [c] ==> x in ms
    ensures RootOptions(ms, cands, rs + [c]) == RootOptions(ms, cands, rs) + [RootOption(ms, cands, c)]
  {
    var want := RootOptions(ms, cands, rs + [c]);
    var got := RootOptions(ms, cands, rs) + [RootOption(ms, cands, c)];
    forall j | 0 <= j < |got|
      ensures got[j] == want[j]
    {
      if j < |rs| {
        assert (rs + [c])[j] == rs[j];
      }
    }
  }

  /**
   * Every option, at any depth, is a candidate: in particular the excluded
   * menu and all its descendants never appear, so a menu cannot be offered
   * as its own parent or under its own subtree.
   */
  lemma ExcludedNeverOffered(ms: seq<Menu>, excludeId: Option<int>, o: MenuOption, x: nat)
    requires MenuTree(ms)
    requires var cands := Candidates(ms, Excluded(ms, excludeId));
      o.id in Menus.KeptIds(cands) && x in Excluded(ms, excludeId)
    ensures o.id != x
  {
    var cands := Candidates(ms, Excluded(ms, excludeId));
    var m :| m in cands && m.id == o.id;
    assert Candidate(m, Excluded(ms, excludeId));
  }

  /** The reply as written: the helper is called on an undefined `self`. */
  const SelfUndefined: string := "获取父菜单选项失败: name 'self' is not defined"

  /**
   * `get_parent_menu_options` as written: `self._build_menu_options` names
   * a variable the module-level route does not have, so the first
   * candidate root raises and the handler answers with the error envelope;
   * only a request without any candidate root succeeds, with no options.
   */
  function ParentOptionsAsWritten(ms: seq<Menu>, excludeId: Option<int>): (r: (Status, seq<MenuOption>))
    requires MenuTree(ms)
    ensures r.1 == []
    ensures r.0.code == 200 <==> Menus.Roots(Candidates(ms, Excluded(ms, excludeId))) == []
    ensures r.0.code != 200 ==> r.0 == Status(DefaultErrorCode, SelfUndefined)
  {
    if Menus.Roots(Candidates(ms, Excluded(ms, excludeId))) != [] then (Status(DefaultErrorCode, SelfUndefined), [])
    else (Status(200, ParentOptionsOk), [])
  }

  /** With one enabled root menu, the route as written fails where one option is intended. */
  lemma ParentOptionsFail()
    ensures MenuTree(LeakTable())
    ensures ParentOptionsAsWritten(LeakTable(), None).0.code == 500
    ensures |Menus.Roots(Candidates(LeakTable(), Excluded(LeakTable(), None)))| == 1
  {
    LeakTableIsTree();
    var ms := LeakTable();
    var cands := Candidates(ms, []);
    assert Candidate(LeakRoot(), []) && Candidate(LeakSecret(), []);
    assert cands == [LeakRoot(), LeakSecret()];
    assert Menus.Roots(cands) == [LeakRoot()];
  }
}
