/**
 * The role endpoints: creation, update, deletion, the replacement of a
 * role's permission set and the batch operation. System roles are
 * protected from every change, a role some user still holds cannot be
 * deleted, and the role and join tables keep their uniqueness
 * constraints. A failed request changes nothing (the request's database
 * session is discarded).
 */
module RoleRoutes {
  import opened Wrappers
  import opened Schema
  import Roles
  import Seqs
  import Text
  import Batch
  import opened ResultEnvelope

  // ---------------------------------------------------------------------
  // Lookups
  // ---------------------------------------------------------------------

  /** `Role.get_by_name(name)`: the first row with that name. */
  function FindRoleName(rs: seq<Role>, name: string): (r: Option<nat>)
    ensures r.Some? ==> r.value < |rs| && rs[r.value].name == name
    ensures r.Some? ==> forall j :: 0 <= j < r.value ==> rs[j].name != name
    ensures r.None? <==> forall i :: 0 <= i < |rs| ==> rs[i].name != name
  {
    if rs == [] then None
    else if rs[0].name == name then Some(0)
    else match FindRoleName(rs[1..], name)
      case None => None
      case Some(k) => Some(k + 1)
  }

  /** `Role.get_by_code(code)`: the first row with that code. */
  function FindRoleCode(rs: seq<Role>, code: string): (r: Option<nat>)
    ensures r.Some? ==> r.value < |rs| && rs[r.value].code == code
    ensures r.Some? ==> forall j :: 0 <= j < r.value ==> rs[j].code != code
    ensures r.None? <==> forall i :: 0 <= i < |rs| ==> rs[i].code != code
  {
    if rs == [] then None
    else if rs[0].code == code then Some(0)
    else match FindRoleCode(rs[1..], code)
      case None => None
      case Some(k) => Some(k + 1)
  }

  /** The `unique` constraints on `roles.name` and `roles.code`. */
  predicate RoleKeysUnique(rs: seq<Role>)
  {
    (forall i, j :: 0 <= i < |rs| && 0 <= j < |rs| && rs[i].name == rs[j].name ==> i == j)
    && (forall i, j :: 0 <= i < |rs| && 0 <= j < |rs| && rs[i].code == rs[j].code ==> i == j)
  }

  /** `User.query.filter_by(role_id=rid).count()`. */
  function UserCount(us: seq<User>, rid: nat): (n: nat)
    ensures n <= |us|
    ensures n == 0 <==> forall i :: 0 <= i < |us| ==> us[i].roleId != Some(rid)
  {
    var holders := Seqs.Filter(us, (u: User) => u.roleId == Some(rid));
    assert forall i :: 0 <= i < |us| && us[i].roleId == Some(rid) ==> us[i] in holders;
    assert holders != [] ==> holders[0] in holders;
    |holders|
  }

  /** The id `save()` gives a new role: one past the largest id in the table. */
  function NextRoleId(rs: seq<Role>): (r: nat)
    ensures r > 0 && FindRole(rs, r).None?
  {
    MaxRoleId(rs) + 1
  }

  function MaxRoleId(rs: seq<Role>): (r: nat)
    ensures forall i :: 0 <= i < |rs| ==> rs[i].id <= r
  {
    if rs == [] then 0
    else
      var rest := MaxRoleId(rs[1..]);
      assert forall i :: 1 <= i < |rs| ==> rs[i] == rs[1..][i - 1];
      if rs[0].id > rest then rs[0].id else rest
  }

  // ---------------------------------------------------------------------
  // The join table
  // ---------------------------------------------------------------------

  /** The join table after `RolePermission.query.filter_by(role_id=rid).delete()`. */
  function WithoutRole(links: seq<Link>, rid: nat): (r: seq<Link>)
    ensures forall l :: l in r <==> l in links && l.roleId != rid
  {
    Seqs.Filter(links, (l: Link) => l.roleId != rid)
  }

  /** Deleting rows keeps the join table free of duplicate pairs. */
  lemma WithoutRoleUnique(links: seq<Link>, rid: nat)
    requires UniqueLinks(links)
    ensures UniqueLinks(WithoutRole(links, rid))
  {
    var r := WithoutRole(links, rid);
    forall m
      ensures multiset(r)[m] <= 1
    {
      Seqs.FilterCount(links, (l: Link) => l.roleId != rid, m);
      Roles.UniqueCount(links, m);
    }
    Roles.UniqueByCount(r);
  }

  /** The join table after `role.assign_permission(p)` for each `p` of `pids`, in order. */
  function AssignAll(links: seq<Link>, rid: nat, pids: seq<nat>): (r: seq<Link>)
    ensures forall l :: l in r <==> l in links || (l.roleId == rid && l.permissionId in pids)
    decreases |pids|
  {
    if pids == [] then links
    else
      var front := pids[..|pids| - 1];
      assert pids == front + [pids[|pids| - 1]];
      Roles.Assigned(AssignAll(links, rid, front), Link(rid, pids[|pids| - 1]))
  }

  /** A repeated permission id adds its pair once: the table stays free of duplicates. */
  lemma {:induction false} AssignAllUnique(links: seq<Link>, rid: nat, pids: seq<nat>)
    requires UniqueLinks(links)
    ensures UniqueLinks(AssignAll(links, rid, pids))
    decreases |pids|
  {
    if pids != [] {
      var front := pids[..|pids| - 1];
      AssignAllUnique(links, rid, front);
      Roles.AssignExactlyOne(AssignAll(links, rid, front), Link(rid, pids[|pids| - 1]));
    }
  }

  /** Assigning one more id extends the fold by one step. */
  lemma AssignAllSnoc(links: seq<Link>, rid: nat, pids: seq<nat>, p: nat)
    ensures AssignAll(links, rid, pids + [p]) == Roles.Assigned(AssignAll(links, rid, pids), Link(rid, p))
  {
    assert (pids + [p])[..|pids|] == pids;
  }

  /** The join table after the role's rows are deleted and `pids` assigned afresh. */
  function Replaced(links: seq<Link>, rid: nat, pids: seq<nat>): seq<Link>
  {
    AssignAll(WithoutRole(links, rid), rid, pids)
  }

  /**
   * Replacing is not merging: afterwards the role holds exactly the listed
   * permissions, every other role keeps its rows, and the pair constraint
   * still holds.
   */
  lemma ReplacedExactly(links: seq<Link>, rid: nat, pids: seq<nat>)
    requires UniqueLinks(links)
    ensures forall p :: Link(rid, p) in Replaced(links, rid, pids) <==> p in pids
    ensures forall l: Link :: l.roleId != rid ==> (l in Replaced(links, rid, pids) <==> l in links)
    ensures UniqueLinks(Replaced(links, rid, pids))
  {
    WithoutRoleUnique(links, rid);
    AssignAllUnique(WithoutRole(links, rid), rid, pids);
  }

  /** The permission ids of `pids` that name an existing permission, in order. */
  function ExistingOnly(perms: seq<Permission>, pids: seq<nat>): (r: seq<nat>)
    ensures forall p :: p in r <==> p in pids && FindPermission(perms, p).Some?
  {
    Seqs.Filter(pids, (p: nat) => FindPermission(perms, p).Some?)
  }

  /** The assignment loop of `create_role` and `update_role`: every listed id, unchecked. */
  method AssignEach(db: Db, role: Role, pids: seq<nat>)
    modifies db
    ensures db.links == AssignAll(old(db.links), role.id, pids)
    ensures db.users == old(db.users) && db.roles == old(db.roles) && db.permissions == old(db.permissions)
    ensures db.menus == old(db.menus) && db.sessions == old(db.sessions)
  {
    var i := 0;
    assert pids[..0] == [];
    while i < |pids|
      invariant 0 <= i <= |pids|
      invariant db.links == AssignAll(old(db.links), role.id, pids[..i])
      invariant db.users == old(db.users) && db.roles == old(db.roles) && db.permissions == old(db.permissions)
      invariant db.menus == old(db.menus) && db.sessions == old(db.sessions)
    {
      AssignAllSnoc(old(db.links), role.id, pids[..i], pids[i]);
      assert pids[..i + 1] == pids[..i] + [pids[i]];
      Roles.AssignPermission(db, role, pids[i]);
      i := i + 1;
    }
    assert pids[..i] == pids;
  }

  /** The invariant of the `assign_role_permissions` loop after `i` ids. */
  ghost predicate ExistingSoFar(links0: seq<Link>, rid: nat, ps: seq<Permission>, pids: seq<nat>, i: nat, links: seq<Link>)
  {
    i <= |pids| && links == AssignAll(links0, rid, ExistingOnly(ps, pids[..i]))
  }

  /** One more id assigns its pair exactly when the permission exists. */
  lemma ExistingStep(links0: seq<Link>, rid: nat, ps: seq<Permission>, pids: seq<nat>, i: nat, links: seq<Link>)
    requires i < |pids| && ExistingSoFar(links0, rid, ps, pids, i, links)
    ensures ExistingSoFar(links0, rid, ps, pids, i + 1,
      if FindPermission(ps, pids[i]).Some? then Roles.Assigned(links, Link(rid, pids[i])) else links)
  {
    var p := pids[i];
    var e := ExistingOnly(ps, pids[..i]);
    var e2 := ExistingOnly(ps, pids[..i + 1]);
    assert pids[..i + 1] == pids[..i] + [p];
    ExistingSnoc(ps, pids[..i], p);
    if FindPermission(ps, p).Some? {
      assert e2 == e + [p];
      AssignAllSnoc(links0, rid, e, p);
      assert AssignAll(links0, rid, e2) == Roles.Assigned(links, Link(rid, p));
    } else {
      assert e2 == e;
    }
  }

  lemma ExistingSnoc(ps: seq<Permission>, s: seq<nat>, p: nat)
    ensures ExistingOnly(ps, s + [p]) == ExistingOnly(ps, s) + (if FindPermission(ps, p).Some? then [p] else [])
  {
    Seqs.FilterAppend(s, p, (q: nat) => FindPermission(ps, q).Some?);
  }

  /** The assignment loop of `assign_role_permissions`: ids with no permission are skipped. */
  method AssignExisting(db: Db, role: Role, pids: seq<nat>)
    modifies db
    ensures db.links == AssignAll(old(db.links), role.id, ExistingOnly(old(db.permissions), pids))
    ensures db.users == old(db.users) && db.roles == old(db.roles) && db.permissions == old(db.permissions)
    ensures db.menus == old(db.menus) && db.sessions == old(db.sessions)
  {
    var ps := db.permissions;
    ghost var links0 := db.links;
    var i := 0;
    assert pids[..0] == [];
    assert ExistingSoFar(links0, role.id, ps, pids, 0, db.links);
    while i < |pids|
      invariant 0 <= i <= |pids|
      invariant ExistingSoFar(links0, role.id, ps, pids, i, db.links)
      invariant db.users == old(db.users) && db.roles == old(db.roles) && db.permissions == ps
      invariant db.menus == old(db.menus) && db.sessions == old(db.sessions)
    {
      var p := pids[i];
      ExistingStep(links0, role.id, ps, pids, i, db.links);
      if FindPermission(ps, p).Some? {
        Roles.AssignPermission(db, role, p);
      }
      i := i + 1;
    }
    assert pids[..i] == pids;
  }

  // ---------------------------------------------------------------------
  // create_role
  // ---------------------------------------------------------------------

  /** The JSON body of a create request; "" stands for an absent or empty text. */
  datatype RoleInput = RoleInput(
    name: string,
    code: string,
    description: string,
    status: Option<bool>,
    sortOrder: Option<int>,
    permissionIds: seq<nat>)

  /** The row `create_role` inserts: never a system role, enabled and at order 0 by default. */
  function NewRole(rs: seq<Role>, d: RoleInput): (r: Role)
    ensures FindRole(rs, r.id).None?
    ensures r.name == d.name && r.code == d.code && !r.isSystem
    ensures r.status == d.status.UnwrapOr(true) && r.sortOrder == d.sortOrder.UnwrapOr(0)
  {
    Role(NextRoleId(rs), d.name, d.code, d.description, false, d.status.UnwrapOr(true), d.sortOrder.UnwrapOr(0))
  }

  /** The reply `create_role` gives to a body that fails validation, if any. */
  function CreateCheck(rs: seq<Role>, body: Option<RoleInput>): (r: Option<Status>)
    ensures body.None? || body.value.name == "" ==> r == Some(Status(400, "name不能为空"))
    ensures r.None? <==>
      body.Some? && body.value.name != "" && body.value.code != ""
      && FindRoleName(rs, body.value.name).None? && FindRoleCode(rs, body.value.code).None?
    ensures r.Some? ==> r.value.code == 400
  {
    if body.None? || body.value.name == "" then Some(Status(400, "name不能为空"))
    else if body.value.code == "" then Some(Status(400, "code不能为空"))
    else if FindRoleName(rs, body.value.name).Some? then Some(Status(400, "角色名称已存在"))
    else if FindRoleCode(rs, body.value.code).Some? then Some(Status(400, "角色编码已存在"))
    else None
  }

  /**
   * `create_role`: name and code are required and must be new; the new
   * role is never a system role and receives every listed permission id.
   */
  method CreateRole(db: Db, body: Option<RoleInput>) returns (st: Status)
    requires db.Valid()
    modifies db
    ensures db.Valid()
    ensures RoleKeysUnique(old(db.roles)) ==> RoleKeysUnique(db.roles)
    ensures CreateCheck(old(db.roles), body).Some? ==>
      st == CreateCheck(old(db.roles), body).value && db.roles == old(db.roles) && db.links == old(db.links)
    ensures CreateCheck(old(db.roles), body).None? ==> var r := NewRole(old(db.roles), body.value);
      st == Status(200, "角色创建成功") && db.roles == old(db.roles) + [r]
      && db.links == AssignAll(old(db.links), r.id, body.value.permissionIds)
    ensures db.users == old(db.users) && db.permissions == old(db.permissions)
    ensures db.menus == old(db.menus) && db.sessions == old(db.sessions)
  {
    var check := CreateCheck(db.roles, body);
    if check.Some? {
      return check.value;
    }
    var d := body.value;
    var r := NewRole(db.roles, d);
    NewRoleKeeps(db.roles, r);
    db.roles := db.roles + [r];
    AssignAllUnique(db.links, r.id, d.permissionIds);
    AssignEach(db, r, d.permissionIds);
    st := Status(200, "角色创建成功");
  }

  /** Appending a role whose id, name and code are new keeps every constraint on the table. */
  lemma NewRoleKeeps(rs: seq<Role>, r: Role)
    requires FindRole(rs, r.id).None?
    ensures UniqueRoleIds(rs) ==> UniqueRoleIds(rs + [r])
    ensures RoleKeysUnique(rs) && FindRoleName(rs, r.name).None? && FindRoleCode(rs, r.code).None? ==>
      RoleKeysUnique(rs + [r])
  {
  }

  /** A second create with the same name or code is refused and changes nothing. */
  lemma CreateRejectsDuplicate(rs: seq<Role>, d: RoleInput, e: RoleInput)
    requires CreateCheck(rs, Some(d)).None?
    requires e.name != "" && e.code != ""
    requires e.name == d.name || e.code == d.code
    ensures CreateCheck(rs + [NewRole(rs, d)], Some(e)).Some?
  {
    var rs2 := rs + [NewRole(rs, d)];
    assert rs2[|rs|] == NewRole(rs, d);
  }

  // ---------------------------------------------------------------------
  // update_role
  // ---------------------------------------------------------------------

  /** The JSON body of an update request: `None` for an absent key. */
  datatype RolePatch = RolePatch(
    name: Option<string>,
    code: Option<string>,
    description: Option<string>,
    status: Option<bool>,
    sortOrder: Option<int>,
    permissionIds: Option<seq<nat>>,
    other: bool)

  /** `not data`: no body, or a body with no key at all. */
  predicate NoData(body: Option<RolePatch>)
  {
    body.None? || body.value == RolePatch(None, None, None, None, None, None, false)
  }

  /** The row after every key present in the body has been copied. */
  function PatchedRole(r: Role, p: RolePatch): (v: Role)
    ensures v.id == r.id && v.isSystem == r.isSystem
    ensures v.name == p.name.UnwrapOr(r.name) && v.code == p.code.UnwrapOr(r.code)
    ensures v.status == p.status.UnwrapOr(r.status) && v.sortOrder == p.sortOrder.UnwrapOr(r.sortOrder)
    ensures p.name.None? && p.code.None? && p.description.None? && p.status.None? && p.sortOrder.None? ==> v == r
  {
    Role(r.id, p.name.UnwrapOr(r.name), p.code.UnwrapOr(r.code), p.description.UnwrapOr(r.description),
         r.isSystem, p.status.UnwrapOr(r.status), p.sortOrder.UnwrapOr(r.sortOrder))
  }

  /** A key that another role already carries: the first row with it is not the role itself. */
  predicate NameTaken(rs: seq<Role>, name: string, id: nat)
  {
    FindRoleName(rs, name).Some? && rs[FindRoleName(rs, name).value].id != id
  }

  predicate CodeTaken(rs: seq<Role>, code: string, id: nat)
  {
    FindRoleCode(rs, code).Some? && rs[FindRoleCode(rs, code).value].id != id
  }

  /**
   * The reply of `update_role` before anything is written: 404 for an
   * unknown role, 403 for a system role, 400 for an empty body or a name
   * or code another role carries; `None` when the update goes ahead.
   */
  function UpdateCheck(rs: seq<Role>, id: nat, body: Option<RolePatch>): (r: Option<Status>)
    ensures FindRole(rs, id).None? ==> r == Some(Status(404, "角色不存在"))
    ensures FindRole(rs, id).Some? && rs[FindRole(rs, id).value].isSystem ==> r == Some(Status(403, "系统内置角色不允许修改"))
    ensures r.None? ==> FindRole(rs, id).Some? && !rs[FindRole(rs, id).value].isSystem && !NoData(body)
    ensures r.None? ==>
      (body.value.name.Some? ==> !NameTaken(rs, body.value.name.value, id))
      && (body.value.code.Some? ==> !CodeTaken(rs, body.value.code.value, id))
  {
    if FindRole(rs, id).None? then Some(Status(404, "角色不存在"))
    else if rs[FindRole(rs, id).value].isSystem then Some(Status(403, "系统内置角色不允许修改"))
    else if NoData(body) then Some(Status(400, "请提供更新数据"))
    else if body.value.name.Some? && NameTaken(rs, body.value.name.value, id) then Some(Status(400, "角色名称已存在"))
    else if body.value.code.Some? && CodeTaken(rs, body.value.code.value, id) then Some(Status(400, "角色编码已存在"))
    else None
  }

  /** The role table keeps unique names and codes when a row takes keys no other row holds. */
  lemma PatchKeeps(rs: seq<Role>, k: nat, p: RolePatch)
    requires UniqueRoleIds(rs) && k < |rs|
    requires p.name.Some? ==> !NameTaken(rs, p.name.value, rs[k].id)
    requires p.code.Some? ==> !CodeTaken(rs, p.code.value, rs[k].id)
    ensures UniqueRoleIds(rs[k := PatchedRole(rs[k], p)])
    ensures RoleKeysUnique(rs) ==> RoleKeysUnique(rs[k := PatchedRole(rs[k], p)])
  {
    var v := PatchedRole(rs[k], p);
    if RoleKeysUnique(rs) {
      if p.name.Some? {
        var f := FindRoleName(rs, p.name.value);
        if f.Some? {
          assert f.value == k;
        }
        assert forall i :: 0 <= i < |rs| && i != k ==> rs[i].name != v.name;
      }
      if p.code.Some? {
        var f := FindRoleCode(rs, p.code.value);
        if f.Some? {
          assert f.value == k;
        }
        assert forall i :: 0 <= i < |rs| && i != k ==> rs[i].code != v.code;
      }
    }
  }

  /**
   * `update_role`: system roles are never changed; the name and code stay
   * unique; a body with `permission_ids` replaces the role's permission set.
   */
  method UpdateRole(db: Db, id: nat, body: Option<RolePatch>) returns (st: Status)
    requires db.Valid()
    modifies db
    ensures db.Valid()
    ensures RoleKeysUnique(old(db.roles)) ==> RoleKeysUnique(db.roles)
    ensures UpdateCheck(old(db.roles), id, body).Some? ==>
      st == UpdateCheck(old(db.roles), id, body).value && db.roles == old(db.roles) && db.links == old(db.links)
    ensures UpdateCheck(old(db.roles), id, body).None? ==> var k := FindRole(old(db.roles), id).value;
      st == Status(200, "角色更新成功")
      && db.roles == old(db.roles)[k := PatchedRole(old(db.roles)[k], body.value)]
      && db.links == (if body.value.permissionIds.Some?
                      then Replaced(old(db.links), id, body.value.permissionIds.value) else old(db.links))
    ensures db.users == old(db.users) && db.permissions == old(db.permissions)
    ensures db.menus == old(db.menus) && db.sessions == old(db.sessions)
  {
    var check := UpdateCheck(db.roles, id, body);
    if check.Some? {
      return check.value;
    }
    var k := FindRole(db.roles, id).value;
    var p := body.value;
    PatchKeeps(db.roles, k, p);
    var r := PatchedRole(db.roles[k], p);
    db.roles := db.roles[k := r];
    if p.permissionIds.Some? {
      WithoutRoleUnique(db.links, id);
      db.links := WithoutRole(db.links, id);
      AssignAllUnique(db.links, id, p.permissionIds.value);
      AssignEach(db, r, p.permissionIds.value);
    }
    st := Status(200, "角色更新成功");
  }

  /** A system role answers 403 to every update, whatever the body. */
  lemma SystemRoleNotUpdated(rs: seq<Role>, k: nat, body: Option<RolePatch>)
    requires k < |rs| && UniqueRoleIds(rs) && rs[k].isSystem
    ensures UpdateCheck(rs, rs[k].id, body) == Some(Status(403, "系统内置角色不允许修改"))
  {
    assert FindRole(rs, rs[k].id).value == k;
  }

  // ---------------------------------------------------------------------
  // delete_role
  // ---------------------------------------------------------------------

  /** The message refusing to delete a role `n` users hold. */
  function HeldMessage(n: nat): string
  {
    "该角色下还有 " + Text.NatToString(n) + " 个用户，不能删除"
  }

  /** The role table without the row at `k`. */
  function DropRole(rs: seq<Role>, k: nat): (r: seq<Role>)
    requires k < |rs|
    ensures |r| == |rs| - 1
    ensures forall i :: 0 <= i < |r| ==> r[i] == rs[if i < k then i else i + 1]
  {
    rs[..k] + rs[k + 1..]
  }

  /** Dropping a row keeps the constraints and, with unique ids, its id is gone. */
  lemma DropKeeps(rs: seq<Role>, k: nat)
    requires k < |rs|
    ensures UniqueRoleIds(rs) ==> UniqueRoleIds(DropRole(rs, k)) && FindRole(DropRole(rs, k), rs[k].id).None?
    ensures RoleKeysUnique(rs) ==> RoleKeysUnique(DropRole(rs, k))
    ensures forall r :: r in DropRole(rs, k) ==> r in rs
    ensures forall x :: FindRole(rs, x).None? ==> FindRole(DropRole(rs, k), x).None?
  {
    var d := DropRole(rs, k);
    forall r | r in d
      ensures r in rs
    {
      var i :| 0 <= i < |d| && d[i] == r;
      assert rs[if i < k then i else i + 1] == r;
    }
  }

  /**
   * `delete_role`: an unknown role is 404, a system role 403, a role some
   * user holds 400; otherwise the row goes and its join rows with it (the
   * delete-orphan cascade).
   */
  method DeleteRole(db: Db, id: nat) returns (st: Status)
    requires db.Valid()
    modifies db
    ensures db.Valid()
    ensures RoleKeysUnique(old(db.roles)) ==> RoleKeysUnique(db.roles)
    ensures FindRole(old(db.roles), id).None? ==> st == Status(404, "角色不存在")
    ensures FindRole(old(db.roles), id).Some? && old(db.roles)[FindRole(old(db.roles), id).value].isSystem ==>
      st == Status(403, "系统内置角色不允许删除")
    ensures (FindRole(old(db.roles), id).Some? && !old(db.roles)[FindRole(old(db.roles), id).value].isSystem
             && UserCount(old(db.users), id) > 0) ==> st == Status(400, HeldMessage(UserCount(old(db.users), id)))
    ensures st.code == 200 <==>
      FindRole(old(db.roles), id).Some?
      && !old(db.roles)[FindRole(old(db.roles), id).value].isSystem && UserCount(old(db.users), id) == 0
    ensures st.code == 200 ==>
      st.message == "角色删除成功"
      && db.roles == DropRole(old(db.roles), FindRole(old(db.roles), id).value)
      && db.links == WithoutRole(old(db.links), id) && FindRole(db.roles, id).None?
    ensures st.code != 200 ==> db.roles == old(db.roles) && db.links == old(db.links)
    ensures db.users == old(db.users) && db.permissions == old(db.permissions)
    ensures db.menus == old(db.menus) && db.sessions == old(db.sessions)
  {
    var found := FindRole(db.roles, id);
    if found.None? {
      return Status(404, "角色不存在");
    }
    var k := found.value;
    if db.roles[k].isSystem {
      return Status(403, "系统内置角色不允许删除");
    }
    var n := UserCount(db.users, id);
    if n > 0 {
      return Status(400, HeldMessage(n));
    }
    DropKeeps(db.roles, k);
    WithoutRoleUnique(db.links, id);
    db.roles := DropRole(db.roles, k);
    db.links := WithoutRole(db.links, id);
    st := Status(200, "角色删除成功");
  }

  /** After a successful delete no user and no join row refers to the role. */
  lemma DeletedLeavesNoReference(us: seq<User>, links: seq<Link>, id: nat)
    requires UserCount(us, id) == 0
    ensures forall u :: u in us ==> u.roleId != Some(id)
    ensures forall l :: l in WithoutRole(links, id) ==> l.roleId != id
  {
  }

  // ---------------------------------------------------------------------
  // assign_role_permissions
  // ---------------------------------------------------------------------

  /**
   * `assign_role_permissions`: 404 and 403 as for an update; a request
   * with no JSON body fails (500) before anything is written. Otherwise the
   * role's permission set is replaced by the listed ids that name an
   * existing permission (`body` is `Some(None)` when the key is absent,
   * which assigns nothing).
   */
  method AssignRolePermissions(db: Db, id: nat, body: Option<Option<seq<nat>>>) returns (st: Status)
    requires db.Valid()
    modifies db
    ensures db.Valid()
    ensures FindRole(old(db.roles), id).None? ==> st == Status(404, "角色不存在")
    ensures FindRole(old(db.roles), id).Some? && old(db.roles)[FindRole(old(db.roles), id).value].isSystem ==>
      st == Status(403, "系统内置角色不允许修改权限")
    ensures st.code == 200 <==>
      FindRole(old(db.roles), id).Some?
      && !old(db.roles)[FindRole(old(db.roles), id).value].isSystem && body.Some?
    ensures st.code == 200 ==>
      st.message == "权限分配成功"
      && db.links == Replaced(old(db.links), id, ExistingOnly(old(db.permissions), body.value.UnwrapOr([])))
    ensures st.code != 200 ==> db.links == old(db.links)
    ensures db.users == old(db.users) && db.roles == old(db.roles) && db.permissions == old(db.permissions)
    ensures db.menus == old(db.menus) && db.sessions == old(db.sessions)
  {
    var found := FindRole(db.roles, id);
    if found.None? {
      return Status(404, "角色不存在");
    }
    var role := db.roles[found.value];
    if role.isSystem {
      return Status(403, "系统内置角色不允许修改权限");
    }
    if body.None? {
      return Status(500, "权限分配失败: ");
    }
    var pids := body.value.UnwrapOr([]);
    WithoutRoleUnique(db.links, id);
    db.links := WithoutRole(db.links, id);
    AssignAllUnique(db.links, id, ExistingOnly(db.permissions, pids));
    AssignExisting(db, role, pids);
    st := Status(200, "权限分配成功");
  }

  /**
   * After `assign_role_permissions` the role's permission ids are exactly
   * the requested ids restricted to existing permissions.
   */
  lemma AssignedExactly(links: seq<Link>, perms: seq<Permission>, rid: nat, pids: seq<nat>)
    requires UniqueLinks(links)
    ensures forall p :: Link(rid, p) in Replaced(links, rid, ExistingOnly(perms, pids)) <==>
      p in pids && FindPermission(perms, p).Some?
  {
    ReplacedExactly(links, rid, ExistingOnly(perms, pids));
  }

  // ---------------------------------------------------------------------
  // batch_role_operation
  // ---------------------------------------------------------------------

  /** The two tables a role batch writes. */
  datatype RoleTables = RoleTables(roles: seq<Role>, links: seq<Link>)

  /** The tables after one id, and the result recorded for it. */
  datatype StepResult = StepResult(tables: RoleTables, item: Batch.Item)

  /** The tables after the ids so far, and their results in order. */
  datatype BatchState = BatchState(tables: RoleTables, items: seq<Batch.Item>)

  /** The operations the batch knows. */
  predicate KnownOp(op: string)
  {
    op == "delete" || op == "enable" || op == "disable"
  }

  /**
   * One id of `batch_role_operation`: an unknown or system role fails;
   * `delete` fails while users hold the role and otherwise removes the row
   * with its join rows; `enable` and `disable` set the status; any other
   * operation fails the id.
   */
  function BatchStep(t: RoleTables, us: seq<User>, id: nat, op: string): (r: StepResult)
    ensures r.item.id == id
    ensures !KnownOp(op) ==> r.tables == t && !r.item.ok
    ensures FindRole(t.roles, id).None? ==> r == StepResult(t, Batch.Item(id, false, "角色不存在"))
  {
    match FindRole(t.roles, id)
    case None => StepResult(t, Batch.Item(id, false, "角色不存在"))
    case Some(k) =>
      if t.roles[k].isSystem then StepResult(t, Batch.Item(id, false, "系统内置角色不允许操作"))
      else if op == "delete" then
        var n := UserCount(us, id);
        if n > 0 then StepResult(t, Batch.Item(id, false, "该角色下还有 " + Text.NatToString(n) + " 个用户"))
        else StepResult(RoleTables(DropRole(t.roles, k), WithoutRole(t.links, id)), Batch.Item(id, true, "操作成功"))
      else if op == "enable" then
        StepResult(t.(roles := t.roles[k := t.roles[k].(status := true)]), Batch.Item(id, true, "操作成功"))
      else if op == "disable" then
        StepResult(t.(roles := t.roles[k := t.roles[k].(status := false)]), Batch.Item(id, true, "操作成功"))
      else StepResult(t, Batch.Item(id, false, "不支持的操作"))
  }

  /** The ids of `ids` taken one after the other from the tables `t`. */
  function BatchRun(t: RoleTables, us: seq<User>, ids: seq<nat>, op: string): (r: BatchState)
    ensures |r.items| == |ids|
    decreases |ids|
  {
    if ids == [] then BatchState(t, [])
    else
      var prev := BatchRun(t, us, ids[..|ids| - 1], op);
      var s := BatchStep(prev.tables, us, ids[|ids| - 1], op);
      BatchState(s.tables, prev.items + [s.item])
  }

  /** One more id extends the run by one step. */
  lemma BatchRunSnoc(t: RoleTables, us: seq<User>, ids: seq<nat>, i: nat, op: string)
    requires i < |ids|
    ensures var prev := BatchRun(t, us, ids[..i], op);
      var s := BatchStep(prev.tables, us, ids[i], op);
      BatchRun(t, us, ids[..i + 1], op) == BatchState(s.tables, prev.items + [s.item])
  {
    assert ids[..i + 1][..i] == ids[..i];
  }

  /** Every id gets exactly one result, in order. */
  lemma {:induction false} BatchRunIds(t: RoleTables, us: seq<User>, ids: seq<nat>, op: string)
    ensures forall j :: 0 <= j < |ids| ==> BatchRun(t, us, ids, op).items[j].id == ids[j]
    decreases |ids|
  {
    if ids != [] {
      var front := ids[..|ids| - 1];
      BatchRunIds(t, us, front, op);
      assert forall j :: 0 <= j < |front| ==> front[j] == ids[j];
    }
  }

  /** The constraints of the two tables. */
  predicate TablesValid(t: RoleTables)
  {
    UniqueRoleIds(t.roles) && UniqueLinks(t.links)
  }

  /** One id keeps the tables' constraints and protected rows. */
  lemma StepKeeps(t: RoleTables, us: seq<User>, id: nat, op: string)
    requires TablesValid(t)
    ensures TablesValid(BatchStep(t, us, id, op).tables)
    ensures RoleKeysUnique(t.roles) ==> RoleKeysUnique(BatchStep(t, us, id, op).tables.roles)
    ensures forall r :: r in t.roles && r.isSystem ==> r in BatchStep(t, us, id, op).tables.roles
  {
    var s := BatchStep(t, us, id, op).tables;
    var f := FindRole(t.roles, id);
    if f.Some? && !t.roles[f.value].isSystem {
      var k := f.value;
      if op == "delete" && UserCount(us, id) == 0 {
        DropKeeps(t.roles, k);
        WithoutRoleUnique(t.links, id);
        DropKeepsOthers(t.roles, k);
      } else if op == "enable" || op == "disable" {
        assert forall j :: 0 <= j < |s.roles| ==> s.roles[j].id == t.roles[j].id;
        forall r | r in t.roles && r.isSystem
          ensures r in s.roles
        {
          var j :| 0 <= j < |t.roles| && t.roles[j] == r;
          assert s.roles[j] == r;
        }
      }
    }
  }

  /** Dropping row `k` keeps every other row. */
  lemma DropKeepsOthers(rs: seq<Role>, k: nat)
    requires k < |rs|
    ensures forall r :: r in rs && r != rs[k] ==> r in DropRole(rs, k)
  {
    forall r | r in rs && r != rs[k]
      ensures r in DropRole(rs, k)
    {
      var j :| 0 <= j < |rs| && rs[j] == r;
      assert DropRole(rs, k)[if j < k then j else j - 1] == r;
    }
  }

  /**
   * A batch keeps the uniqueness constraints, and every system role comes
   * out of it exactly as it went in.
   */
  lemma {:induction false} BatchKeeps(t: RoleTables, us: seq<User>, ids: seq<nat>, op: string)
    requires TablesValid(t)
    ensures TablesValid(BatchRun(t, us, ids, op).tables)
    ensures RoleKeysUnique(t.roles) ==> RoleKeysUnique(BatchRun(t, us, ids, op).tables.roles)
    ensures forall r :: r in t.roles && r.isSystem ==> r in BatchRun(t, us, ids, op).tables.roles
    decreases |ids|
  {
    if ids != [] {
      var prev := BatchRun(t, us, ids[..|ids| - 1], op);
      BatchKeeps(t, us, ids[..|ids| - 1], op);
      StepKeeps(prev.tables, us, ids[|ids| - 1], op);
    }
  }

  /** An operation the batch does not know changes nothing and fails every id. */
  lemma {:induction false} UnknownOpChangesNothing(t: RoleTables, us: seq<User>, ids: seq<nat>, op: string)
    requires !KnownOp(op)
    ensures BatchRun(t, us, ids, op).tables == t
    ensures forall j :: 0 <= j < |ids| ==> !BatchRun(t, us, ids, op).items[j].ok
    decreases |ids|
  {
    if ids != [] {
      UnknownOpChangesNothing(t, us, ids[..|ids| - 1], op);
    }
  }

  /** What a `delete` batch has done after each id: a deleted role is gone with all its join rows. */
  predicate DeletedGone(t: RoleTables, items: seq<Batch.Item>)
  {
    (forall j :: 0 <= j < |items| && items[j].ok ==> FindRole(t.roles, items[j].id).None?)
    && (forall j, l :: 0 <= j < |items| && items[j].ok && l in t.links ==> l.roleId != items[j].id)
  }

  /** A `delete` step only removes rows, and a role it removes is gone with its join rows. */
  lemma DeleteStep(t: RoleTables, us: seq<User>, id: nat)
    requires TablesValid(t)
    ensures var r := BatchStep(t, us, id, "delete");
      (forall x :: FindRole(t.roles, x).None? ==> FindRole(r.tables.roles, x).None?)
      && (forall l :: l in r.tables.links ==> l in t.links)
      && (forall q :: q in r.tables.roles ==> q in t.roles)
      && (r.item.ok ==> FindRole(r.tables.roles, id).None? && forall l :: l in r.tables.links ==> l.roleId != id)
      && (forall q :: q in t.roles && (q.isSystem || UserCount(us, q.id) > 0) ==> q in r.tables.roles)
  {
    var f := FindRole(t.roles, id);
    if f.Some? && !t.roles[f.value].isSystem && UserCount(us, id) == 0 {
      DropKeeps(t.roles, f.value);
      DropKeepsOthers(t.roles, f.value);
    }
  }

  /**
   * A `delete` batch only removes rows: every role it reports deleted is
   * gone together with its join rows, and every system role and every role
   * some user holds is kept as it was.
   */
  lemma {:induction false} DeleteBatch(t: RoleTables, us: seq<User>, ids: seq<nat>)
    requires TablesValid(t)
    ensures DeletedGone(BatchRun(t, us, ids, "delete").tables, BatchRun(t, us, ids, "delete").items)
    ensures forall q :: q in BatchRun(t, us, ids, "delete").tables.roles ==> q in t.roles
    ensures forall q :: q in t.roles && (q.isSystem || UserCount(us, q.id) > 0) ==>
      q in BatchRun(t, us, ids, "delete").tables.roles
    decreases |ids|
  {
    if ids != [] {
      var front := ids[..|ids| - 1];
      var prev := BatchRun(t, us, front, "delete");
      DeleteBatch(t, us, front);
      BatchKeeps(t, us, front, "delete");
      DeleteStep(prev.tables, us, ids[|ids| - 1]);
    }
  }

  /** What an `enable` or `disable` batch has done after each id: the role it reports is set. */
  predicate FlagSet(t: RoleTables, items: seq<Batch.Item>, want: bool)
  {
    forall j :: 0 <= j < |items| && items[j].ok ==>
      FindRole(t.roles, items[j].id).Some? && t.roles[FindRole(t.roles, items[j].id).value].status == want
  }

  /** A flag step keeps every id where it was, and changes at most the status of the row for `id`. */
  lemma FlagStep(t: RoleTables, us: seq<User>, id: nat, op: string, items: seq<Batch.Item>)
    requires TablesValid(t) && (op == "enable" || op == "disable")
    requires FlagSet(t, items, op == "enable")
    ensures var r := BatchStep(t, us, id, op);
      FlagSet(r.tables, items + [r.item], op == "enable") && r.tables.links == t.links
  {
    var r := BatchStep(t, us, id, op);
    var s := r.tables.roles;
    var want := op == "enable";
    assert |s| == |t.roles|;
    assert forall j :: 0 <= j < |s| ==> s[j].id == t.roles[j].id;
    assert forall j :: 0 <= j < |s| ==> s[j].status == t.roles[j].status || s[j].status == want;
    var all := items + [r.item];
    forall j | 0 <= j < |all| && all[j].ok
      ensures FindRole(s, all[j].id).Some? && s[FindRole(s, all[j].id).value].status == want
    {
      var x := all[j].id;
      var m := FindRole(t.roles, x);
      if j < |items| {
        assert items[j] == all[j];
      }
      assert m.Some?;
      assert s[m.value].id == x;
      SameRowFound(s, m.value);
    }
  }

  /** With unique ids, the row found for an id is the row carrying it. */
  lemma SameRowFound(rs: seq<Role>, k: nat)
    requires k < |rs| && UniqueRoleIds(rs)
    ensures FindRole(rs, rs[k].id) == Some(k)
  {
  }

  /** After an `enable` or `disable` batch, every role it reports carries the requested status. */
  lemma {:induction false} FlagBatch(t: RoleTables, us: seq<User>, ids: seq<nat>, op: string)
    requires TablesValid(t) && (op == "enable" || op == "disable")
    ensures FlagSet(BatchRun(t, us, ids, op).tables, BatchRun(t, us, ids, op).items, op == "enable")
    ensures BatchRun(t, us, ids, op).tables.links == t.links
    decreases |ids|
  {
    if ids != [] {
      var front := ids[..|ids| - 1];
      var prev := BatchRun(t, us, front, op);
      FlagBatch(t, us, front, op);
      BatchKeeps(t, us, front, op);
      FlagStep(prev.tables, us, ids[|ids| - 1], op, prev.items);
    }
  }

  /** The invariant of the batch loop after `i` ids. */
  ghost predicate BatchSoFar(t0: RoleTables, us: seq<User>, ids: seq<nat>, op: string, i: nat,
                             t: RoleTables, results: seq<Batch.Item>, success: nat, failed: nat)
  {
    i <= |ids| && BatchRun(t0, us, ids[..i], op) == BatchState(t, results)
    && success == Batch.CountOk(results) && success + failed == i
  }

  /** The results of the first `i` ids, followed by one more, keep the loop's invariant. */
  lemma BatchSoFarStep(t0: RoleTables, us: seq<User>, ids: seq<nat>, op: string, i: nat,
                       t: RoleTables, results: seq<Batch.Item>, success: nat, failed: nat)
    requires i < |ids| && BatchSoFar(t0, us, ids, op, i, t, results, success, failed)
    ensures var s := BatchStep(t, us, ids[i], op);
      BatchSoFar(t0, us, ids, op, i + 1, s.tables, results + [s.item],
                 if s.item.ok then success + 1 else success, if s.item.ok then failed else failed + 1)
  {
    BatchRunSnoc(t0, us, ids, i, op);
    Batch.CountOkAppend(results, BatchStep(t, us, ids[i], op).item);
  }

  /** The body of the batch loop for one id: the checks and the write `BatchStep` describes. */
  method BatchOne(db: Db, us: seq<User>, id: nat, op: string) returns (item: Batch.Item)
    requires db.Valid()
    modifies db
    ensures db.Valid()
    ensures BatchStep(RoleTables(old(db.roles), old(db.links)), us, id, op) == StepResult(RoleTables(db.roles, db.links), item)
    ensures db.users == old(db.users) && db.permissions == old(db.permissions)
    ensures db.menus == old(db.menus) && db.sessions == old(db.sessions)
  {
    StepKeeps(RoleTables(db.roles, db.links), us, id, op);
    var found := FindRole(db.roles, id);
    if found.None? {
      item := Batch.Item(id, false, "角色不存在");
    } else {
      var k := found.value;
      if db.roles[k].isSystem {
        item := Batch.Item(id, false, "系统内置角色不允许操作");
      } else if op == "delete" {
        var n := UserCount(us, id);
        if n > 0 {
          item := Batch.Item(id, false, "该角色下还有 " + Text.NatToString(n) + " 个用户");
        } else {
          db.roles := DropRole(db.roles, k);
          db.links := WithoutRole(db.links, id);
          item := Batch.Item(id, true, "操作成功");
        }
      } else if op == "enable" {
        db.roles := db.roles[k := db.roles[k].(status := true)];
        item := Batch.Item(id, true, "操作成功");
      } else if op == "disable" {
        db.roles := db.roles[k := db.roles[k].(status := false)];
        item := Batch.Item(id, true, "操作成功");
      } else {
        item := Batch.Item(id, false, "不支持的操作");
      }
    }
  }

  /**
   * `batch_role_operation`: an empty id list or operation is a 400 that
   * changes nothing; otherwise the ids are taken in order as `BatchRun`
   * says, each counted once as a success or a failure.
   */
  method BatchRoleOperation(db: Db, ids: seq<nat>, op: string)
    returns (st: Status, results: seq<Batch.Item>, success: nat, failed: nat)
    requires db.Valid()
    modifies db
    ensures db.Valid()
    ensures ids == [] || op == "" ==>
      st == Status(400, "角色ID列表和操作类型不能为空") && results == []
      && db.roles == old(db.roles) && db.links == old(db.links)
    ensures ids != [] && op != "" ==>
      var run := BatchRun(RoleTables(old(db.roles), old(db.links)), old(db.users), ids, op);
      RoleTables(db.roles, db.links) == run.tables && results == run.items
      && success == Batch.CountOk(results) && success + failed == |ids|
      && st == Status(200, Batch.Summary(success, failed))
    ensures db.users == old(db.users) && db.permissions == old(db.permissions)
    ensures db.menus == old(db.menus) && db.sessions == old(db.sessions)
  {
    results, success, failed := [], 0, 0;
    if ids == [] || op == "" {
      return Status(400, "角色ID列表和操作类型不能为空"), results, success, failed;
    }
    ghost var t0 := RoleTables(db.roles, db.links);
    var us := db.users;
    var i := 0;
    assert ids[..0] == [];
    assert BatchSoFar(t0, us, ids, op, 0, RoleTables(db.roles, db.links), results, success, failed);
    while i < |ids|
      invariant 0 <= i <= |ids|
      invariant db.Valid()
      invariant BatchSoFar(t0, us, ids, op, i, RoleTables(db.roles, db.links), results, success, failed)
      invariant db.users == us && db.permissions == old(db.permissions)
      invariant db.menus == old(db.menus) && db.sessions == old(db.sessions)
    {
      var id := ids[i];
      ghost var before := RoleTables(db.roles, db.links);
      BatchSoFarStep(t0, us, ids, op, i, before, results, success, failed);
      var item := BatchOne(db, us, id, op);
      if item.ok {
        success := success + 1;
      } else {
        failed := failed + 1;
      }
      results := results + [item];
      i := i + 1;
    }
    assert ids[..i] == ids;
    st := Status(200, Batch.Summary(success, failed));
  }
}
