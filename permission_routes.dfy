/**
 * The permission endpoints: creation, update, deletion and the batch
 * operation. System permissions are protected from every change, a
 * permission some role still holds cannot be deleted, and permission codes
 * stay unique. A failed request changes nothing.
 */
module PermissionRoutes {
  import opened Wrappers
  import opened Schema
  import Seqs
  import Text
  import Batch
  import opened ResultEnvelope

  // ---------------------------------------------------------------------
  // Lookups
  // ---------------------------------------------------------------------

  /** `Permission.get_by_name(name)`: the first row with that name. */
  function FindPermissionName(ps: seq<Permission>, name: string): (r: Option<nat>)
    ensures r.Some? ==> r.value < |ps| && ps[r.value].name == name
    ensures r.Some? ==> forall j :: 0 <= j < r.value ==> ps[j].name != name
    ensures r.None? <==> forall i :: 0 <= i < |ps| ==> ps[i].name != name
  {
    if ps == [] then None
    else if ps[0].name == name then Some(0)
    else match FindPermissionName(ps[1..], name)
      case None => None
      case Some(k) => Some(k + 1)
  }

  /** `Permission.get_by_code(code)`: the first row with that code. */
  function FindPermissionCode(ps: seq<Permission>, code: string): (r: Option<nat>)
    ensures r.Some? ==> r.value < |ps| && ps[r.value].code == code
    ensures r.Some? ==> forall j :: 0 <= j < r.value ==> ps[j].code != code
    ensures r.None? <==> forall i :: 0 <= i < |ps| ==> ps[i].code != code
  {
    if ps == [] then None
    else if ps[0].code == code then Some(0)
    else match FindPermissionCode(ps[1..], code)
      case None => None
      case Some(k) => Some(k + 1)
  }

  /** The `unique` constraint on `permissions.code` (names carry no constraint). */
  predicate CodesUnique(ps: seq<Permission>)
  {
    forall i, j :: 0 <= i < |ps| && 0 <= j < |ps| && ps[i].code == ps[j].code ==> i == j
  }

  /** `RolePermission.query.filter_by(permission_id=pid).count()`. */
  function RoleCount(links: seq<Link>, pid: nat): (n: nat)
    ensures n <= |links|
    ensures n == 0 <==> forall l :: l in links ==> l.permissionId != pid
  {
    var holders := Seqs.Filter(links, (l: Link) => l.permissionId == pid);
    assert holders != [] ==> holders[0] in holders;
    |holders|
  }

  /** Every join row names an existing permission (the foreign key). */
  predicate LinksResolve(ps: seq<Permission>, links: seq<Link>)
  {
    forall l :: l in links ==> FindPermission(ps, l.permissionId).Some?
  }

  function MaxPermissionId(ps: seq<Permission>): (r: nat)
    ensures forall i :: 0 <= i < |ps| ==> ps[i].id <= r
  {
    if ps == [] then 0
    else
      var rest := MaxPermissionId(ps[1..]);
      assert forall i :: 1 <= i < |ps| ==> ps[i] == ps[1..][i - 1];
      if ps[0].id > rest then ps[0].id else rest
  }

  /** The id `save()` gives a new permission: one past the largest in the table. */
  function NextPermissionId(ps: seq<Permission>): (r: nat)
    ensures r > 0 && FindPermission(ps, r).None?
  {
    MaxPermissionId(ps) + 1
  }

  // ---------------------------------------------------------------------
  // create_permission
  // ---------------------------------------------------------------------

  /** The JSON body of a create request; "" stands for an absent or empty text. */
  datatype PermissionInput = PermissionInput(
    name: string,
    code: string,
    description: string,
    moduleName: string,
    permissionType: Option<string>,
    resourcePath: string,
    httpMethod: string,
    status: Option<bool>,
    sortOrder: Option<int>)

  /** The row `create_permission` inserts: never a system permission, a button by default. */
  function NewPermission(ps: seq<Permission>, d: PermissionInput): (p: Permission)
    ensures FindPermission(ps, p.id).None?
    ensures p.name == d.name && p.code == d.code && !p.isSystem
    ensures p.permissionType == d.permissionType.UnwrapOr("button")
    ensures p.status == d.status.UnwrapOr(true) && p.sortOrder == d.sortOrder.UnwrapOr(0)
  {
    Permission(NextPermissionId(ps), d.name, d.code, d.description, d.moduleName,
               d.permissionType.UnwrapOr("button"), d.resourcePath, d.httpMethod, false,
               d.status.UnwrapOr(true), d.sortOrder.UnwrapOr(0))
  }

  /** The reply `create_permission` gives to a body that fails validation, if any. */
  function CreateCheck(ps: seq<Permission>, body: Option<PermissionInput>): (r: Option<Status>)
    ensures r.None? <==>
      body.Some? && body.value.name != "" && body.value.code != ""
      && FindPermissionName(ps, body.value.name).None? && FindPermissionCode(ps, body.value.code).None?
    ensures r.Some? ==> r.value.code == 400
    ensures body.Some? && body.value.name != "" && body.value.code != "" && FindPermissionName(ps, body.value.name).Some? ==>
      r == Some(Status(400, "权限名称已存在"))
  {
    if body.None? || body.value.name == "" then Some(Status(400, "name不能为空"))
    else if body.value.code == "" then Some(Status(400, "code不能为空"))
    else if FindPermissionName(ps, body.value.name).Some? then Some(Status(400, "权限名称已存在"))
    else if FindPermissionCode(ps, body.value.code).Some? then Some(Status(400, "权限编码已存在"))
    else None
  }

  /** `create_permission`: name and code are required and must be new. */
  method CreatePermission(db: Db, body: Option<PermissionInput>) returns (st: Status)
    requires db.Valid()
    modifies db
    ensures db.Valid()
    ensures CodesUnique(old(db.permissions)) ==> CodesUnique(db.permissions)
    ensures LinksResolve(old(db.permissions), old(db.links)) ==> LinksResolve(db.permissions, db.links)
    ensures CreateCheck(old(db.permissions), body).Some? ==>
      st == CreateCheck(old(db.permissions), body).value && db.permissions == old(db.permissions)
    ensures CreateCheck(old(db.permissions), body).None? ==>
      st == Status(200, "权限创建成功")
      && db.permissions == old(db.permissions) + [NewPermission(old(db.permissions), body.value)]
    ensures db.users == old(db.users) && db.roles == old(db.roles) && db.links == old(db.links)
    ensures db.menus == old(db.menus) && db.sessions == old(db.sessions)
  {
    var check := CreateCheck(db.permissions, body);
    if check.Some? {
      return check.value;
    }
    var p := NewPermission(db.permissions, body.value);
    AppendKeeps(db.permissions, db.links, p);
    db.permissions := db.permissions + [p];
    st := Status(200, "权限创建成功");
  }

  /** Appending a row with a new id and code keeps the constraints, and every join row still resolves. */
  lemma AppendKeeps(ps: seq<Permission>, links: seq<Link>, p: Permission)
    requires FindPermission(ps, p.id).None?
    ensures UniquePermissionIds(ps) ==> UniquePermissionIds(ps + [p])
    ensures CodesUnique(ps) && FindPermissionCode(ps, p.code).None? ==> CodesUnique(ps + [p])
    ensures LinksResolve(ps, links) ==> LinksResolve(ps + [p], links)
  {
    forall x | FindPermission(ps, x).Some?
      ensures FindPermission(ps + [p], x).Some?
    {
      var k := FindPermission(ps, x).value;
      assert (ps + [p])[k].id == x;
    }
  }

  // ---------------------------------------------------------------------
  // update_permission
  // ---------------------------------------------------------------------

  /** The JSON body of an update request: `None` for an absent key. */
  datatype PermissionPatch = PermissionPatch(
    name: Option<string>,
    code: Option<string>,
    description: Option<string>,
    moduleName: Option<string>,
    permissionType: Option<string>,
    resourcePath: Option<string>,
    httpMethod: Option<string>,
    status: Option<bool>,
    sortOrder: Option<int>,
    other: bool)

  /** `not data`: no body, or a body with no key at all. */
  predicate NoData(body: Option<PermissionPatch>)
  {
    body.None? || body.value == PermissionPatch(None, None, None, None, None, None, None, None, None, false)
  }

  /** The row after every key present in the body has been copied. */
  function Patched(p: Permission, d: PermissionPatch): (v: Permission)
    ensures v.id == p.id && v.isSystem == p.isSystem
    ensures v.name == d.name.UnwrapOr(p.name) && v.code == d.code.UnwrapOr(p.code)
    ensures v.status == d.status.UnwrapOr(p.status) && v.httpMethod == d.httpMethod.UnwrapOr(p.httpMethod)
    ensures v.resourcePath == d.resourcePath.UnwrapOr(p.resourcePath)
    ensures d == PermissionPatch(None, None, None, None, None, None, None, None, None, d.other) ==> v == p
  {
    Permission(p.id, d.name.UnwrapOr(p.name), d.code.UnwrapOr(p.code), d.description.UnwrapOr(p.description),
               d.moduleName.UnwrapOr(p.moduleName), d.permissionType.UnwrapOr(p.permissionType),
               d.resourcePath.UnwrapOr(p.resourcePath), d.httpMethod.UnwrapOr(p.httpMethod), p.isSystem,
               d.status.UnwrapOr(p.status), d.sortOrder.UnwrapOr(p.sortOrder))
  }

  /** A key another permission already carries: the first row with it is not the one updated. */
  predicate NameTaken(ps: seq<Permission>, name: string, id: nat)
  {
    FindPermissionName(ps, name).Some? && ps[FindPermissionName(ps, name).value].id != id
  }

  predicate CodeTaken(ps: seq<Permission>, code: string, id: nat)
  {
    FindPermissionCode(ps, code).Some? && ps[FindPermissionCode(ps, code).value].id != id
  }

  /**
   * The reply of `update_permission` before anything is written: 404, 403
   * for a system permission, 400 for an empty body or a name or code
   * another permission carries; `None` when the update goes ahead.
   */
  function UpdateCheck(ps: seq<Permission>, id: nat, body: Option<PermissionPatch>): (r: Option<Status>)
    ensures FindPermission(ps, id).None? ==> r == Some(Status(404, "权限不存在"))
    ensures FindPermission(ps, id).Some? && ps[FindPermission(ps, id).value].isSystem ==>
      r == Some(Status(403, "系统内置权限不允许修改"))
    ensures r.None? ==> FindPermission(ps, id).Some? && !ps[FindPermission(ps, id).value].isSystem && !NoData(body)
    ensures r.None? ==> body.value.code.Some? ==> !CodeTaken(ps, body.value.code.value, id)
    ensures (FindPermission(ps, id).Some? && !ps[FindPermission(ps, id).value].isSystem && !NoData(body)
             && body.value.code.Some? && CodeTaken(ps, body.value.code.value, id)) ==> r.Some? && r.value.code == 400
  {
    if FindPermission(ps, id).None? then Some(Status(404, "权限不存在"))
    else if ps[FindPermission(ps, id).value].isSystem then Some(Status(403, "系统内置权限不允许修改"))
    else if NoData(body) then Some(Status(400, "请提供更新数据"))
    else if body.value.name.Some? && NameTaken(ps, body.value.name.value, id) then Some(Status(400, "权限名称已存在"))
    else if body.value.code.Some? && CodeTaken(ps, body.value.code.value, id) then Some(Status(400, "权限编码已存在"))
    else None
  }

  /** A row taking a code no other row holds keeps the codes unique; ids stay where they were. */
  lemma PatchKeeps(ps: seq<Permission>, links: seq<Link>, k: nat, d: PermissionPatch)
    requires UniquePermissionIds(ps) && k < |ps|
    requires d.code.Some? ==> !CodeTaken(ps, d.code.value, ps[k].id)
    ensures UniquePermissionIds(ps[k := Patched(ps[k], d)])
    ensures CodesUnique(ps) ==> CodesUnique(ps[k := Patched(ps[k], d)])
    ensures LinksResolve(ps, links) ==> LinksResolve(ps[k := Patched(ps[k], d)], links)
  {
    var ps2 := ps[k := Patched(ps[k], d)];
    if CodesUnique(ps) && d.code.Some? {
      var f := FindPermissionCode(ps, d.code.value);
      if f.Some? {
        assert f.value == k;
      }
      assert forall i :: 0 <= i < |ps| && i != k ==> ps[i].code != d.code.value;
    }
    forall x | FindPermission(ps, x).Some?
      ensures FindPermission(ps2, x).Some?
    {
      assert ps2[FindPermission(ps, x).value].id == x;
    }
  }

  /** `update_permission`: system permissions are never changed and codes stay unique. */
  method UpdatePermission(db: Db, id: nat, body: Option<PermissionPatch>) returns (st: Status)
    requires db.Valid()
    modifies db
    ensures db.Valid()
    ensures CodesUnique(old(db.permissions)) ==> CodesUnique(db.permissions)
    ensures LinksResolve(old(db.permissions), old(db.links)) ==> LinksResolve(db.permissions, db.links)
    ensures UpdateCheck(old(db.permissions), id, body).Some? ==>
      st == UpdateCheck(old(db.permissions), id, body).value && db.permissions == old(db.permissions)
    ensures UpdateCheck(old(db.permissions), id, body).None? ==>
      var k := FindPermission(old(db.permissions), id).value;
      st == Status(200, "权限更新成功")
      && db.permissions == old(db.permissions)[k := Patched(old(db.permissions)[k], body.value)]
    ensures db.users == old(db.users) && db.roles == old(db.roles) && db.links == old(db.links)
    ensures db.menus == old(db.menus) && db.sessions == old(db.sessions)
  {
    var check := UpdateCheck(db.permissions, id, body);
    if check.Some? {
      return check.value;
    }
    var k := FindPermission(db.permissions, id).value;
    PatchKeeps(db.permissions, db.links, k, body.value);
    db.permissions := db.permissions[k := Patched(db.permissions[k], body.value)];
    st := Status(200, "权限更新成功");
  }

  /** A system permission answers 403 to every update, whatever the body. */
  lemma SystemPermissionNotUpdated(ps: seq<Permission>, k: nat, body: Option<PermissionPatch>)
    requires k < |ps| && UniquePermissionIds(ps) && ps[k].isSystem
    ensures UpdateCheck(ps, ps[k].id, body) == Some(Status(403, "系统内置权限不允许修改"))
  {
    assert FindPermission(ps, ps[k].id).value == k;
  }

  // ---------------------------------------------------------------------
  // delete_permission
  // ---------------------------------------------------------------------

  /** The permission table without the row at `k`. */
  function DropPermission(ps: seq<Permission>, k: nat): (r: seq<Permission>)
    requires k < |ps|
    ensures |r| == |ps| - 1
    ensures forall i :: 0 <= i < |r| ==> r[i] == ps[if i < k then i else i + 1]
  {
    ps[..k] + ps[k + 1..]
  }

  /**
   * Dropping a row keeps the constraints; with unique ids its id is gone,
   * every other row stays, and a join table with no row for it still
   * resolves.
   */
  lemma DropKeeps(ps: seq<Permission>, links: seq<Link>, k: nat)
    requires k < |ps|
    ensures UniquePermissionIds(ps) ==> UniquePermissionIds(DropPermission(ps, k)) && FindPermission(DropPermission(ps, k), ps[k].id).None?
    ensures CodesUnique(ps) ==> CodesUnique(DropPermission(ps, k))
    ensures forall p :: p in DropPermission(ps, k) ==> p in ps
    ensures forall p :: p in ps && p != ps[k] ==> p in DropPermission(ps, k)
    ensures forall x :: FindPermission(ps, x).None? ==> FindPermission(DropPermission(ps, k), x).None?
    ensures LinksResolve(ps, links) && RoleCount(links, ps[k].id) == 0 && UniquePermissionIds(ps) ==>
      LinksResolve(DropPermission(ps, k), links)
  {
    DropMembers(ps, k);
    DropResolves(ps, links, k);
  }

  lemma DropMembers(ps: seq<Permission>, k: nat)
    requires k < |ps|
    ensures forall p :: p in DropPermission(ps, k) ==> p in ps
    ensures forall p :: p in ps && p != ps[k] ==> p in DropPermission(ps, k)
  {
    var d := DropPermission(ps, k);
    forall p | p in d
      ensures p in ps
    {
      var i :| 0 <= i < |d| && d[i] == p;
      assert ps[if i < k then i else i + 1] == p;
    }
    forall p | p in ps && p != ps[k]
      ensures p in d
    {
      var j :| 0 <= j < |ps| && ps[j] == p;
      assert d[if j < k then j else j - 1] == p;
    }
  }

  /** A join table with no row for the dropped permission still resolves. */
  lemma DropResolves(ps: seq<Permission>, links: seq<Link>, k: nat)
    requires k < |ps|
    ensures LinksResolve(ps, links) && RoleCount(links, ps[k].id) == 0 && UniquePermissionIds(ps) ==>
      LinksResolve(DropPermission(ps, k), links)
  {
    var d := DropPermission(ps, k);
    if LinksResolve(ps, links) && RoleCount(links, ps[k].id) == 0 && UniquePermissionIds(ps) {
      forall l | l in links
        ensures FindPermission(d, l.permissionId).Some?
      {
        var j := FindPermission(ps, l.permissionId).value;
        assert j != k;
        assert d[if j < k then j else j - 1].id == l.permissionId;
      }
    }
  }

  /** The message refusing to delete a permission `n` roles hold. */
  function HeldMessage(n: nat): string
  {
    "该权限被 " + Text.NatToString(n) + " 个角色使用，不能删除"
  }

  /**
   * `delete_permission`: an unknown permission is 404, a system one 403, one
   * some role holds 400; otherwise the row goes. The join table never
   * points at a deleted permission.
   */
  method DeletePermission(db: Db, id: nat) returns (st: Status)
    requires db.Valid()
    modifies db
    ensures db.Valid()
    ensures CodesUnique(old(db.permissions)) ==> CodesUnique(db.permissions)
    ensures LinksResolve(old(db.permissions), old(db.links)) ==> LinksResolve(db.permissions, db.links)
    ensures FindPermission(old(db.permissions), id).None? ==> st == Status(404, "权限不存在")
    ensures FindPermission(old(db.permissions), id).Some? && old(db.permissions)[FindPermission(old(db.permissions), id).value].isSystem ==>
      st == Status(403, "系统内置权限不允许删除")
    ensures (FindPermission(old(db.permissions), id).Some? && !old(db.permissions)[FindPermission(old(db.permissions), id).value].isSystem
             && RoleCount(old(db.links), id) > 0) ==> st == Status(400, HeldMessage(RoleCount(old(db.links), id)))
    ensures st.code == 200 <==>
      FindPermission(old(db.permissions), id).Some?
      && !old(db.permissions)[FindPermission(old(db.permissions), id).value].isSystem && RoleCount(old(db.links), id) == 0
    ensures st.code == 200 ==>
      st.message == "权限删除成功"
      && db.permissions == DropPermission(old(db.permissions), FindPermission(old(db.permissions), id).value)
      && FindPermission(db.permissions, id).None?
    ensures st.code != 200 ==> db.permissions == old(db.permissions)
    ensures db.users == old(db.users) && db.roles == old(db.roles) && db.links == old(db.links)
    ensures db.menus == old(db.menus) && db.sessions == old(db.sessions)
  {
    var found := FindPermission(db.permissions, id);
    if found.None? {
      return Status(404, "权限不存在");
    }
    var k := found.value;
    if db.permissions[k].isSystem {
      return Status(403, "系统内置权限不允许删除");
    }
    var n := RoleCount(db.links, id);
    if n > 0 {
      return Status(400, HeldMessage(n));
    }
    DropKeeps(db.permissions, db.links, k);
    db.permissions := DropPermission(db.permissions, k);
    st := Status(200, "权限删除成功");
  }

  // ---------------------------------------------------------------------
  // batch_permission_operation
  // ---------------------------------------------------------------------

  /** The operations the batch knows. */
  predicate KnownOp(op: string)
  {
    op == "delete" || op == "enable" || op == "disable"
  }

  /** The table after one id, and the result recorded for it. */
  datatype StepResult = StepResult(perms: seq<Permission>, item: Batch.Item)

  /** The table after the ids so far, and their results in order. */
  datatype BatchState = BatchState(perms: seq<Permission>, items: seq<Batch.Item>)

  /**
   * One id of `batch_permission_operation`: an unknown or system permission
   * fails; `delete` fails while roles hold it and otherwise removes the
   * row; `enable` and `disable` set the status; any other operation fails.
   */
  function BatchStep(ps: seq<Permission>, links: seq<Link>, id: nat, op: string): (r: StepResult)
    ensures r.item.id == id
    ensures !KnownOp(op) ==> r.perms == ps && !r.item.ok
    ensures FindPermission(ps, id).None? ==> r == StepResult(ps, Batch.Item(id, false, "权限不存在"))
  {
    match FindPermission(ps, id)
    case None => StepResult(ps, Batch.Item(id, false, "权限不存在"))
    case Some(k) =>
      if ps[k].isSystem then StepResult(ps, Batch.Item(id, false, "系统内置权限不允许操作"))
      else if op == "delete" then
        var n := RoleCount(links, id);
        if n > 0 then StepResult(ps, Batch.Item(id, false, "该权限被 " + Text.NatToString(n) + " 个角色使用"))
        else StepResult(DropPermission(ps, k), Batch.Item(id, true, "操作成功"))
      else if op == "enable" then StepResult(ps[k := ps[k].(status := true)], Batch.Item(id, true, "操作成功"))
      else if op == "disable" then StepResult(ps[k := ps[k].(status := false)], Batch.Item(id, true, "操作成功"))
      else StepResult(ps, Batch.Item(id, false, "不支持的操作"))
  }

  /** The ids taken one after the other from the table `ps`. */
  function BatchRun(ps: seq<Permission>, links: seq<Link>, ids: seq<nat>, op: string): (r: BatchState)
    ensures |r.items| == |ids|
    decreases |ids|
  {
    if ids == [] then BatchState(ps, [])
    else
      var prev := BatchRun(ps, links, ids[..|ids| - 1], op);
      var s := BatchStep(prev.perms, links, ids[|ids| - 1], op);
      BatchState(s.perms, prev.items + [s.item])
  }

  /** The constraints a batch keeps. */
  predicate TableValid(ps: seq<Permission>, links: seq<Link>)
  {
    UniquePermissionIds(ps) && CodesUnique(ps) && LinksResolve(ps, links)
  }

  /** One id keeps the constraints, every system permission and, for `delete`, every held permission. */
  lemma StepKeeps(ps: seq<Permission>, links: seq<Link>, id: nat, op: string)
    requires TableValid(ps, links)
    ensures var s := BatchStep(ps, links, id, op).perms;
      TableValid(s, links)
      && (forall p :: p in ps && p.isSystem ==> p in s)
      && (op == "delete" ==> forall p :: p in ps && RoleCount(links, p.id) > 0 ==> p in s)
  {
    var s := BatchStep(ps, links, id, op).perms;
    var f := FindPermission(ps, id);
    if f.Some? && !ps[f.value].isSystem {
      var k := f.value;
      if op == "delete" && RoleCount(links, id) == 0 {
        DropKeeps(ps, links, k);
      } else if op == "enable" || op == "disable" {
        var d := PermissionPatch(None, None, None, None, None, None, None, Some(op == "enable"), None, false);
        assert s == ps[k := Patched(ps[k], d)];
        PatchKeeps(ps, links, k, d);
        forall p | p in ps && p.isSystem
          ensures p in s
        {
          var j :| 0 <= j < |ps| && ps[j] == p;
          assert s[j] == p;
        }
      }
    }
  }

  /**
   * A batch keeps ids and codes unique and the join table resolving; every
   * system permission comes out as it went in, and a `delete` batch keeps
   * every permission some role holds.
   */
  lemma {:induction false} BatchKeeps(ps: seq<Permission>, links: seq<Link>, ids: seq<nat>, op: string)
    requires TableValid(ps, links)
    ensures TableValid(BatchRun(ps, links, ids, op).perms, links)
    ensures forall p :: p in ps && p.isSystem ==> p in BatchRun(ps, links, ids, op).perms
    ensures op == "delete" ==> forall p :: p in ps && RoleCount(links, p.id) > 0 ==> p in BatchRun(ps, links, ids, op).perms
    decreases |ids|
  {
    if ids != [] {
      var prev := BatchRun(ps, links, ids[..|ids| - 1], op);
      BatchKeeps(ps, links, ids[..|ids| - 1], op);
      StepKeeps(prev.perms, links, ids[|ids| - 1], op);
    }
  }

  /** An operation the batch does not know changes nothing and fails every id. */
  lemma {:induction false} UnknownOpChangesNothing(ps: seq<Permission>, links: seq<Link>, ids: seq<nat>, op: string)
    requires !KnownOp(op)
    ensures BatchRun(ps, links, ids, op).perms == ps
    ensures forall j :: 0 <= j < |ids| ==> !BatchRun(ps, links, ids, op).items[j].ok
    decreases |ids|
  {
    if ids != [] {
      UnknownOpChangesNothing(ps, links, ids[..|ids| - 1], op);
    }
  }

  /** What an `enable` or `disable` batch has done after each id: the permission it reports is set. */
  predicate FlagSet(ps: seq<Permission>, items: seq<Batch.Item>, want: bool)
  {
    forall j :: 0 <= j < |items| && items[j].ok ==>
      FindPermission(ps, items[j].id).Some? && ps[FindPermission(ps, items[j].id).value].status == want
  }

  /** With unique ids, the row found for an id is the row carrying it. */
  lemma SameRowFound(ps: seq<Permission>, k: nat)
    requires k < |ps| && UniquePermissionIds(ps)
    ensures FindPermission(ps, ps[k].id) == Some(k)
  {
  }

  /** A flag step keeps every id in place and sets at most the status of the row for `id`. */
  lemma FlagStep(ps: seq<Permission>, links: seq<Link>, id: nat, op: string, items: seq<Batch.Item>)
    requires UniquePermissionIds(ps) && (op == "enable" || op == "disable")
    requires FlagSet(ps, items, op == "enable")
    ensures var r := BatchStep(ps, links, id, op);
      FlagSet(r.perms, items + [r.item], op == "enable")
  {
    var r := BatchStep(ps, links, id, op);
    var s := r.perms;
    var want := op == "enable";
    assert |s| == |ps|;
    assert forall j :: 0 <= j < |s| ==> s[j].id == ps[j].id;
    assert forall j :: 0 <= j < |s| ==> s[j].status == ps[j].status || s[j].status == want;
    var all := items + [r.item];
    forall j | 0 <= j < |all| && all[j].ok
      ensures FindPermission(s, all[j].id).Some? && s[FindPermission(s, all[j].id).value].status == want
    {
      var m := FindPermission(ps, all[j].id);
      if j < |items| {
        assert items[j] == all[j];
      }
      assert m.Some?;
      assert s[m.value].id == all[j].id;
      SameRowFound(s, m.value);
    }
  }

  /** After an `enable` or `disable` batch, every permission it reports carries the requested status. */
  lemma {:induction false} FlagBatch(ps: seq<Permission>, links: seq<Link>, ids: seq<nat>, op: string)
    requires TableValid(ps, links) && (op == "enable" || op == "disable")
    ensures FlagSet(BatchRun(ps, links, ids, op).perms, BatchRun(ps, links, ids, op).items, op == "enable")
    decreases |ids|
  {
    if ids != [] {
      var front := ids[..|ids| - 1];
      var prev := BatchRun(ps, links, front, op);
      FlagBatch(ps, links, front, op);
      BatchKeeps(ps, links, front, op);
      FlagStep(prev.perms, links, ids[|ids| - 1], op, prev.items);
    }
  }

  /** The body of the batch loop for one id: the checks and the write `BatchStep` describes. */
  method BatchOne(db: Db, id: nat, op: string) returns (item: Batch.Item)
    modifies db
    ensures BatchStep(old(db.permissions), db.links, id, op) == StepResult(db.permissions, item)
    ensures db.users == old(db.users) && db.roles == old(db.roles) && db.links == old(db.links)
    ensures db.menus == old(db.menus) && db.sessions == old(db.sessions)
  {
    var found := FindPermission(db.permissions, id);
    if found.None? {
      return Batch.Item(id, false, "权限不存在");
    }
    var k := found.value;
    if db.permissions[k].isSystem {
      item := Batch.Item(id, false, "系统内置权限不允许操作");
    } else if op == "delete" {
      var n := RoleCount(db.links, id);
      if n > 0 {
        item := Batch.Item(id, false, "该权限被 " + Text.NatToString(n) + " 个角色使用");
      } else {
        db.permissions := DropPermission(db.permissions, k);
        item := Batch.Item(id, true, "操作成功");
      }
    } else if op == "enable" {
      db.permissions := db.permissions[k := db.permissions[k].(status := true)];
      item := Batch.Item(id, true, "操作成功");
    } else if op == "disable" {
      db.permissions := db.permissions[k := db.permissions[k].(status := false)];
      item := Batch.Item(id, true, "操作成功");
    } else {
      item := Batch.Item(id, false, "不支持的操作");
    }
  }

  /** The invariant of the batch loop after `i` ids. */
  ghost predicate BatchSoFar(ps0: seq<Permission>, links: seq<Link>, ids: seq<nat>, op: string, i: nat,
                             ps: seq<Permission>, results: seq<Batch.Item>, success: nat, failed: nat)
  {
    i <= |ids| && BatchRun(ps0, links, ids[..i], op) == BatchState(ps, results)
    && success == Batch.CountOk(results) && success + failed == i
  }

  lemma BatchSoFarStep(ps0: seq<Permission>, links: seq<Link>, ids: seq<nat>, op: string, i: nat,
                       ps: seq<Permission>, results: seq<Batch.Item>, success: nat, failed: nat)
    requires i < |ids| && BatchSoFar(ps0, links, ids, op, i, ps, results, success, failed)
    ensures BatchSoFar(ps0, links, ids, op, i + 1, BatchStep(ps, links, ids[i], op).perms,
                       results + [BatchStep(ps, links, ids[i], op).item],
                       success + Batch.Tally(BatchStep(ps, links, ids[i], op).item.ok),
                       failed + 1 - Batch.Tally(BatchStep(ps, links, ids[i], op).item.ok))
  {
    BatchRunNext(ps0, links, ids, i, op);
    Batch.CountOkAppend(results, BatchStep(ps, links, ids[i], op).item);
  }

  /** The run over one more id is the run so far followed by that id's step. */
  lemma BatchRunNext(ps0: seq<Permission>, links: seq<Link>, ids: seq<nat>, i: nat, op: string)
    requires i < |ids|
    ensures BatchRun(ps0, links, ids[..i + 1], op)
      == BatchState(BatchStep(BatchRun(ps0, links, ids[..i], op).perms, links, ids[i], op).perms,
                    BatchRun(ps0, links, ids[..i], op).items
                    + [BatchStep(BatchRun(ps0, links, ids[..i], op).perms, links, ids[i], op).item])
  {
    var pre := ids[..i + 1];
    assert pre[..|pre| - 1] == ids[..i] && pre[|pre| - 1] == ids[i];
  }

  /**
   * `batch_permission_operation`: an empty id list or operation is a 400
   * that changes nothing; otherwise the ids are taken in order as
   * `BatchRun` says, each counted once as a success or a failure.
   */
  method BatchPermissionOperation(db: Db, ids: seq<nat>, op: string)
    returns (st: Status, results: seq<Batch.Item>, success: nat, failed: nat)
    requires db.Valid() && CodesUnique(db.permissions) && LinksResolve(db.permissions, db.links)
    modifies db
    ensures db.Valid() && CodesUnique(db.permissions) && LinksResolve(db.permissions, db.links)
    ensures ids == [] || op == "" ==>
      st == Status(400, "权限ID列表和操作类型不能为空") && results == [] && db.permissions == old(db.permissions)
    ensures ids != [] && op != "" ==>
      var run := BatchRun(old(db.permissions), old(db.links), ids, op);
      db.permissions == run.perms && results == run.items
      && success == Batch.CountOk(results) && success + failed == |ids|
      && st == Status(200, Batch.Summary(success, failed))
    ensures db.users == old(db.users) && db.roles == old(db.roles) && db.links == old(db.links)
    ensures db.menus == old(db.menus) && db.sessions == old(db.sessions)
  {
    results, success, failed := [], 0, 0;
    if ids == [] || op == "" {
      return Status(400, "权限ID列表和操作类型不能为空"), results, success, failed;
    }
    results, success, failed := RunBatch(db, ids, op);
    st := Status(200, Batch.Summary(success, failed));
  }

  /** The batch loop: the ids in order, as `BatchRun` says, each counted once. */
  method RunBatch(db: Db, ids: seq<nat>, op: string) returns (results: seq<Batch.Item>, success: nat, failed: nat)
    requires db.Valid() && CodesUnique(db.permissions) && LinksResolve(db.permissions, db.links)
    modifies db
    ensures db.Valid() && CodesUnique(db.permissions) && LinksResolve(db.permissions, db.links)
    ensures BatchRun(old(db.permissions), old(db.links), ids, op) == BatchState(db.permissions, results)
    ensures success == Batch.CountOk(results) && success + failed == |ids|
    ensures db.users == old(db.users) && db.roles == old(db.roles) && db.links == old(db.links)
    ensures db.menus == old(db.menus) && db.sessions == old(db.sessions)
  {
    results, success, failed := [], 0, 0;
    ghost var ps0 := db.permissions;
    var i := 0;
    assert ids[..0] == [];
    assert BatchSoFar(ps0, db.links, ids, op, 0, db.permissions, results, success, failed);
    while i < |ids|
      invariant 0 <= i <= |ids|
      invariant db.Valid() && CodesUnique(db.permissions) && LinksResolve(db.permissions, db.links)
      invariant BatchSoFar(ps0, db.links, ids, op, i, db.permissions, results, success, failed)
      invariant db.users == old(db.users) && db.roles == old(db.roles) && db.links == old(db.links)
      invariant db.menus == old(db.menus) && db.sessions == old(db.sessions)
    {
      results, success, failed := BatchNext(db, ps0, ids, op, i, results, success, failed);
      i := i + 1;
    }
    assert ids[..i] == ids;
  }

  /** One pass of the batch loop: the next id handled and counted. */
  method BatchNext(db: Db, ghost ps0: seq<Permission>, ids: seq<nat>, op: string, i: nat,
                   results: seq<Batch.Item>, success: nat, failed: nat)
    returns (results2: seq<Batch.Item>, success2: nat, failed2: nat)
    requires db.Valid() && CodesUnique(db.permissions) && LinksResolve(db.permissions, db.links)
    requires i < |ids| && BatchSoFar(ps0, db.links, ids, op, i, db.permissions, results, success, failed)
    modifies db
    ensures db.Valid() && CodesUnique(db.permissions) && LinksResolve(db.permissions, db.links)
    ensures BatchSoFar(ps0, db.links, ids, op, i + 1, db.permissions, results2, success2, failed2)
    ensures db.users == old(db.users) && db.roles == old(db.roles) && db.links == old(db.links)
    ensures db.menus == old(db.menus) && db.sessions == old(db.sessions)
  {
    BatchSoFarStep(ps0, db.links, ids, op, i, db.permissions, results, success, failed);
    StepKeeps(db.permissions, db.links, ids[i], op);
    var item := BatchOne(db, ids[i], op);
    success2, failed2 := success + Batch.Tally(item.ok), failed + 1 - Batch.Tally(item.ok);
    results2 := results + [item];
  }
}
