/**
 * The RBAC seeding script `init_rbac.py`: it inserts the built-in
 * permissions, the three built-in roles with their grants, and the menu
 * tree, then points every user's `role_id` at the role named by the user's
 * legacy `role` text. Each step looks a row up by its natural key first and
 * leaves rows that already exist alone, so running the script again
 * changes nothing. The seed lists are parameters; the role grants are the
 * script's constants.
 */
module Seed {
  import opened Wrappers
  import opened Schema
  import PermissionRoutes
  import RoleRoutes
  import MenuRoutes
  import AuthRoutes

  // ---------------------------------------------------------------------
  // init_permissions
  // ---------------------------------------------------------------------

  /** One entry of the permission seed list; "" stands for a key the entry leaves out. */
  datatype PermissionSeed = PermissionSeed(
    name: string,
    code: string,
    moduleName: string,
    permissionType: string,
    resourcePath: string,
    httpMethod: string)

  /** The row inserted for a seed entry: a system permission, enabled, ordered by its place in the list. */
  function SeededPermission(ps: seq<Permission>, d: PermissionSeed, order: nat): Permission
  {
    Permission(PermissionRoutes.NextPermissionId(ps), d.name, d.code, "", d.moduleName, d.permissionType,
               d.resourcePath, d.httpMethod, true, true, order)
  }

  /** Whether some row carries the code. */
  predicate HasCode(ps: seq<Permission>, code: string)
  {
    exists i :: 0 <= i < |ps| && ps[i].code == code
  }

  /**
   * The permission table after the loop has handled `data`, whose first
   * entry sits at position `order` of the whole list: an entry whose code
   * is absent is appended, one whose code exists is skipped.
   */
  function SeedPermissions(ps: seq<Permission>, data: seq<PermissionSeed>, order: nat): (r: seq<Permission>)
    ensures ps <= r
    ensures forall i :: 0 <= i < |data| ==> HasCode(r, data[i].code)
    decreases |data|
  {
    if data == [] then ps
    else
      var ps1 := if PermissionRoutes.FindPermissionCode(ps, data[0].code).None?
                 then ps + [SeededPermission(ps, data[0], order)] else ps;
      var found := PermissionRoutes.FindPermissionCode(ps, data[0].code);
      var at := if found.Some? then found.value else |ps|;
      assert ps1[at].code == data[0].code;
      var r := SeedPermissions(ps1, data[1..], order + 1);
      assert forall i :: 1 <= i < |data| ==> data[i] == data[1..][i - 1];
      assert HasCode(r, data[0].code) by {
        var j :| 0 <= j < |ps1| && ps1[j].code == data[0].code;
        assert r[j] == ps1[j];
      }
      r
  }

  /** A code found in a table is found at the same row once rows are appended. */
  lemma {:induction false} FindCodeStable(ps: seq<Permission>, extra: seq<Permission>, code: string)
    requires PermissionRoutes.FindPermissionCode(ps, code).Some?
    ensures PermissionRoutes.FindPermissionCode(ps + extra, code) == PermissionRoutes.FindPermissionCode(ps, code)
  {
    if ps[0].code != code {
      assert (ps + extra)[1..] == ps[1..] + extra;
      FindCodeStable(ps[1..], extra, code);
    }
  }

  /** When every code of the list already exists the loop inserts nothing. */
  lemma {:induction false} SeedNothingNew(ps: seq<Permission>, data: seq<PermissionSeed>, order: nat)
    requires forall i :: 0 <= i < |data| ==> HasCode(ps, data[i].code)
    ensures SeedPermissions(ps, data, order) == ps
    decreases |data|
  {
    if data != [] {
      assert HasCode(ps, data[0].code);
      assert PermissionRoutes.FindPermissionCode(ps, data[0].code).Some?;
      assert forall i :: 0 <= i < |data[1..]| ==> data[1..][i] == data[i + 1];
      SeedNothingNew(ps, data[1..], order + 1);
    }
  }

  /** Seeding twice gives the table seeding once gives. */
  lemma SeedPermissionsIdempotent(ps: seq<Permission>, data: seq<PermissionSeed>)
    ensures SeedPermissions(SeedPermissions(ps, data, 0), data, 0) == SeedPermissions(ps, data, 0)
  {
    SeedNothingNew(SeedPermissions(ps, data, 0), data, 0);
  }

  /**
   * The unique constraint on `permissions.code` and the primary key hold
   * after seeding when they held before: a code is inserted only when
   * absent, under an id above every id in use.
   */
  lemma {:induction false} SeedKeepsKeys(ps: seq<Permission>, data: seq<PermissionSeed>, order: nat)
    requires PermissionRoutes.CodesUnique(ps) && UniquePermissionIds(ps)
    ensures PermissionRoutes.CodesUnique(SeedPermissions(ps, data, order))
    ensures UniquePermissionIds(SeedPermissions(ps, data, order))
    decreases |data|
  {
    if data != [] {
      var ps1 := if PermissionRoutes.FindPermissionCode(ps, data[0].code).None?
                 then ps + [SeededPermission(ps, data[0], order)] else ps;
      if PermissionRoutes.FindPermissionCode(ps, data[0].code).None? {
        var p := SeededPermission(ps, data[0], order);
        assert FindPermission(ps, p.id).None?;
        assert forall i :: 0 <= i < |ps| ==> ps1[i] == ps[i];
      }
      SeedKeepsKeys(ps1, data[1..], order + 1);
    }
  }

  /**
   * Every inserted row is an enabled system permission carrying the code
   * of some entry, ordered by that entry's position in the list.
   */
  lemma {:induction false} SeededRows(ps: seq<Permission>, data: seq<PermissionSeed>, order: nat)
    ensures var r := SeedPermissions(ps, data, order);
      forall j :: |ps| <= j < |r| ==>
        r[j].isSystem && r[j].status &&
        exists i :: 0 <= i < |data| && r[j].code == data[i].code && r[j].sortOrder == order + i
    decreases |data|
  {
    if data != [] {
      var ps1 := if PermissionRoutes.FindPermissionCode(ps, data[0].code).None?
                 then ps + [SeededPermission(ps, data[0], order)] else ps;
      SeededRows(ps1, data[1..], order + 1);
      var r := SeedPermissions(ps, data, order);
      assert r == SeedPermissions(ps1, data[1..], order + 1);
      forall j | |ps| <= j < |r|
        ensures r[j].isSystem && r[j].status &&
          exists i :: 0 <= i < |data| && r[j].code == data[i].code && r[j].sortOrder == order + i
      {
        if j < |ps1| {
          assert r[j] == ps1[j] == SeededPermission(ps, data[0], order);
          assert r[j].code == data[0].code && r[j].sortOrder == order + 0;
        } else {
          var i :| 0 <= i < |data[1..]| && r[j].code == data[1..][i].code && r[j].sortOrder == order + 1 + i;
          assert data[1..][i] == data[i + 1];
        }
      }
    }
  }

  /** The table after one more entry: its code is appended when absent. */
  function SeedOne(ps: seq<Permission>, d: PermissionSeed, order: nat): seq<Permission>
  {
    if PermissionRoutes.FindPermissionCode(ps, d.code).None? then ps + [SeededPermission(ps, d, order)] else ps
  }

  lemma SeedStep(ps: seq<Permission>, data: seq<PermissionSeed>, i: nat)
    requires i < |data|
    ensures SeedPermissions(ps, data[i..], i) == SeedPermissions(SeedOne(ps, data[i], i), data[i + 1..], i + 1)
  {
    assert data[i..][0] == data[i] && data[i..][1..] == data[i + 1..];
  }

  /** The first `n` entries of the returned list are the rows carrying their codes. */
  ghost predicate Recorded(ps: seq<Permission>, data: seq<PermissionSeed>, created: seq<Permission>, n: nat)
  {
    n <= |data| && |created| == n &&
    forall j :: 0 <= j < n ==>
      PermissionRoutes.FindPermissionCode(ps, data[j].code).Some? &&
      created[j] == ps[PermissionRoutes.FindPermissionCode(ps, data[j].code).value]
  }

  lemma RecordedAppend(ps: seq<Permission>, x: Permission, data: seq<PermissionSeed>, created: seq<Permission>, n: nat)
    requires Recorded(ps, data, created, n)
    ensures Recorded(ps + [x], data, created, n)
  {
    forall j | 0 <= j < n
      ensures PermissionRoutes.FindPermissionCode(ps + [x], data[j].code) ==
              PermissionRoutes.FindPermissionCode(ps, data[j].code)
    {
      FindCodeStable(ps, [x], data[j].code);
    }
  }

  lemma RecordedNext(ps: seq<Permission>, data: seq<PermissionSeed>, created: seq<Permission>, n: nat)
    requires Recorded(ps, data, created, n) && n < |data|
    requires PermissionRoutes.FindPermissionCode(ps, data[n].code).Some?
    ensures Recorded(ps, data, created + [ps[PermissionRoutes.FindPermissionCode(ps, data[n].code).value]], n + 1)
  {
  }

  /**
   * `init_permissions()`: the table ends as `SeedPermissions` describes,
   * and the returned list holds, entry by entry, the row carrying the
   * entry's code, whether inserted now or found.
   */
  method InitPermissions(db: Db, data: seq<PermissionSeed>) returns (created: seq<Permission>)
    modifies db
    ensures db.permissions == SeedPermissions(old(db.permissions), data, 0)
    ensures |created| == |data|
    ensures forall i :: 0 <= i < |data| ==>
      PermissionRoutes.FindPermissionCode(db.permissions, data[i].code).Some? &&
      created[i] == db.permissions[PermissionRoutes.FindPermissionCode(db.permissions, data[i].code).value]
    ensures db.users == old(db.users) && db.roles == old(db.roles) && db.links == old(db.links)
    ensures db.menus == old(db.menus) && db.sessions == old(db.sessions)
  {
    created := [];
    var i := 0;
    while i < |data|
      invariant i <= |data|
      invariant SeedPermissions(db.permissions, data[i..], i) == SeedPermissions(old(db.permissions), data, 0)
      invariant Recorded(db.permissions, data, created, i)
      invariant db.users == old(db.users) && db.roles == old(db.roles) && db.links == old(db.links)
      invariant db.menus == old(db.menus) && db.sessions == old(db.sessions)
    {
      SeedStep(db.permissions, data, i);
      created := SeedEntry(db, data, i, created);
      i := i + 1;
    }
    assert data[|data|..] == [];
  }

  /** One step of `init_permissions()`: the entry's row is inserted when its code is missing, then recorded. */
  method SeedEntry(db: Db, data: seq<PermissionSeed>, i: nat, created: seq<Permission>) returns (created': seq<Permission>)
    requires i < |data| && Recorded(db.permissions, data, created, i)
    modifies db
    ensures db.permissions == SeedOne(old(db.permissions), data[i], i)
    ensures Recorded(db.permissions, data, created', i + 1)
    ensures db.users == old(db.users) && db.roles == old(db.roles) && db.links == old(db.links)
    ensures db.menus == old(db.menus) && db.sessions == old(db.sessions)
  {
    var d := data[i];
    var ps := db.permissions;
    if PermissionRoutes.FindPermissionCode(ps, d.code).None? {
      var p := SeededPermission(ps, d, i);
      db.permissions := ps + [p];
      RecordedAppend(ps, p, data, created, i);
      assert db.permissions[|ps|].code == d.code;
    }
    RecordedNext(db.permissions, data, created, i);
    created' := created + [db.permissions[PermissionRoutes.FindPermissionCode(db.permissions, d.code).value]];
  }

  // ---------------------------------------------------------------------
  // init_roles
  // ---------------------------------------------------------------------

  /** `{p.code: p for p in permissions}`, kept as code to id: a later row wins for a repeated code. */
  function CodeMap(ps: seq<Permission>): (m: map<string, nat>)
    ensures forall c :: c in m <==> HasCode(ps, c)
    ensures forall c :: c in m ==> exists i :: 0 <= i < |ps| && ps[i].code == c && ps[i].id == m[c]
    decreases |ps|
  {
    if ps == [] then map[]
    else
      var front := ps[..|ps| - 1];
      var last := ps[|ps| - 1];
      var m := CodeMap(front);
      assert forall i :: 0 <= i < |front| ==> front[i] == ps[i];
      assert forall c :: HasCode(ps, c) ==> HasCode(front, c) || c == last.code;
      m[last.code := last.id]
  }

  /** `list(permission_map.keys())`: every code once, in the order it first appears. */
  function CodeKeys(ps: seq<Permission>): (ks: seq<string>)
    ensures forall c :: c in ks <==> HasCode(ps, c)
    decreases |ps|
  {
    if ps == [] then []
    else
      var front := ps[..|ps| - 1];
      var last := ps[|ps| - 1];
      var ks := CodeKeys(front);
      assert forall i :: 0 <= i < |front| ==> front[i] == ps[i];
      assert forall c :: HasCode(ps, c) ==> HasCode(front, c) || c == last.code;
      if last.code in ks then ks else ks + [last.code]
  }

  /** One entry of the role seed list, with the codes the role is granted. */
  datatype RoleSeed = RoleSeed(name: string, code: string, description: string, codes: seq<string>)

  const OperatorCodes: seq<string> := [
    "equipment:list", "equipment:detail", "equipment:control",
    "courseware:list", "courseware:detail", "courseware:upload", "courseware:update", "courseware:delete",
    "navigation:list", "navigation:update",
    "education:view",
    "log:list", "log:detail"]

  const ViewerCodes: seq<string> := [
    "equipment:list", "equipment:detail",
    "courseware:list", "courseware:detail",
    "navigation:list",
    "education:view",
    "log:list"]

  /** The three built-in roles; the administrator is granted every code of the permission map. */
  function RoleSeeds(keys: seq<string>): (r: seq<RoleSeed>)
    ensures |r| == 3 && r[0].code == "admin" && r[1].code == "operator" && r[2].code == "viewer"
    ensures r[0].codes == keys
  {
    [RoleSeed("系统管理员", "admin", "拥有系统所有权限", keys),
     RoleSeed("操作员", "operator", "可操作设备和管理课件", OperatorCodes),
     RoleSeed("查看者", "viewer", "只能查看相关信息", ViewerCodes)]
  }

  /** The row inserted for a role seed: a system role, enabled, with the default sort order. */
  function SeededRole(rs: seq<Role>, s: RoleSeed): Role
  {
    Role(RoleRoutes.NextRoleId(rs), s.name, s.code, s.description, true, true, 0)
  }

  /** The join rows saved for a new role: one per listed code the map knows, in list order. */
  function Grants(rid: nat, codes: seq<string>, pm: map<string, nat>): (ls: seq<Link>)
    ensures forall l :: l in ls <==> l.roleId == rid && exists c :: c in codes && c in pm && l.permissionId == pm[c]
    decreases |codes|
  {
    if codes == [] then []
    else
      var front := codes[..|codes| - 1];
      var c := codes[|codes| - 1];
      assert forall x :: x in codes <==> x in front || x == c by {
        assert codes == front + [c];
      }
      Grants(rid, front, pm) + (if c in pm then [Link(rid, pm[c])] else [])
  }

  /** The tables after one role seed: an existing code is skipped, with no grant added. */
  function SeedRoleOne(t: RoleRoutes.RoleTables, s: RoleSeed, pm: map<string, nat>): RoleRoutes.RoleTables
  {
    if RoleRoutes.FindRoleCode(t.roles, s.code).Some? then t
    else
      var role := SeededRole(t.roles, s);
      RoleRoutes.RoleTables(t.roles + [role], t.links + Grants(role.id, s.codes, pm))
  }

  /** Whether some role carries the code. */
  predicate HasRoleCode(rs: seq<Role>, code: string)
  {
    exists i :: 0 <= i < |rs| && rs[i].code == code
  }

  /** The role and join tables after the loop has handled `seeds`. */
  function SeedRoles(t: RoleRoutes.RoleTables, seeds: seq<RoleSeed>, pm: map<string, nat>): (r: RoleRoutes.RoleTables)
    ensures t.roles <= r.roles && t.links <= r.links
    ensures forall i :: 0 <= i < |seeds| ==> HasRoleCode(r.roles, seeds[i].code)
    decreases |seeds|
  {
    if seeds == [] then t
    else
      var t1 := SeedRoleOne(t, seeds[0], pm);
      var found := RoleRoutes.FindRoleCode(t.roles, seeds[0].code);
      var at := if found.Some? then found.value else |t.roles|;
      assert t1.roles[at].code == seeds[0].code;
      var r := SeedRoles(t1, seeds[1..], pm);
      assert forall i :: 1 <= i < |seeds| ==> seeds[i] == seeds[1..][i - 1];
      assert r.roles[at] == t1.roles[at];
      r
  }

  /** When every role code already exists the loop changes nothing. */
  lemma {:induction false} SeedRolesNothingNew(t: RoleRoutes.RoleTables, seeds: seq<RoleSeed>, pm: map<string, nat>)
    requires forall i :: 0 <= i < |seeds| ==> HasRoleCode(t.roles, seeds[i].code)
    ensures SeedRoles(t, seeds, pm) == t
    decreases |seeds|
  {
    if seeds != [] {
      assert HasRoleCode(t.roles, seeds[0].code);
      assert RoleRoutes.FindRoleCode(t.roles, seeds[0].code).Some?;
      assert forall i :: 0 <= i < |seeds[1..]| ==> seeds[1..][i] == seeds[i + 1];
      SeedRolesNothingNew(t, seeds[1..], pm);
    }
  }

  /** Seeding the roles twice gives the tables seeding once gives. */
  lemma SeedRolesIdempotent(t: RoleRoutes.RoleTables, seeds: seq<RoleSeed>, pm: map<string, nat>)
    ensures SeedRoles(SeedRoles(t, seeds, pm), seeds, pm) == SeedRoles(t, seeds, pm)
  {
    SeedRolesNothingNew(SeedRoles(t, seeds, pm), seeds, pm);
  }

  /**
   * A role that already exists is skipped entirely: every join row the
   * loop adds belongs to a role it inserted, never to one that was there.
   */
  lemma {:induction false} ExistingRolesGainNothing(t: RoleRoutes.RoleTables, seeds: seq<RoleSeed>, pm: map<string, nat>)
    ensures var r := SeedRoles(t, seeds, pm);
      forall k :: |t.links| <= k < |r.links| ==> FindRole(t.roles, r.links[k].roleId).None?
    decreases |seeds|
  {
    if seeds != [] {
      var t1 := SeedRoleOne(t, seeds[0], pm);
      ExistingRolesGainNothing(t1, seeds[1..], pm);
      var r := SeedRoles(t, seeds, pm);
      assert r == SeedRoles(t1, seeds[1..], pm);
      forall k | |t.links| <= k < |r.links|
        ensures FindRole(t.roles, r.links[k].roleId).None?
      {
        if k < |t1.links| {
          var role := SeededRole(t.roles, seeds[0]);
          assert t1.links[k] in Grants(role.id, seeds[0].codes, pm);
          assert r.links[k] == t1.links[k];
        } else {
          assert FindRole(t1.roles, r.links[k].roleId).None?;
          assert forall i :: 0 <= i < |t.roles| ==> t.roles[i] == t1.roles[i];
        }
      }
    }
  }

  /** A role code found in a table is found at the same row once rows are appended. */
  lemma {:induction false} FindRoleCodeStable(rs: seq<Role>, extra: seq<Role>, code: string)
    requires RoleRoutes.FindRoleCode(rs, code).Some?
    ensures RoleRoutes.FindRoleCode(rs + extra, code) == RoleRoutes.FindRoleCode(rs, code)
  {
    if rs[0].code != code {
      assert (rs + extra)[1..] == rs[1..] + extra;
      FindRoleCodeStable(rs[1..], extra, code);
    }
  }

  /**
   * When the first seed's code is new, its row is the first one inserted,
   * stays the row found for that code, and its grants follow the join rows
   * that were there.
   */
  lemma FirstSeedInserted(t: RoleRoutes.RoleTables, seeds: seq<RoleSeed>, pm: map<string, nat>)
    requires seeds != [] && !HasRoleCode(t.roles, seeds[0].code)
    ensures var r := SeedRoles(t, seeds, pm);
      var role := SeededRole(t.roles, seeds[0]);
      RoleRoutes.FindRoleCode(r.roles, seeds[0].code) == Some(|t.roles|) && r.roles[|t.roles|] == role &&
      t.links + Grants(role.id, seeds[0].codes, pm) <= r.links
  {
    var role := SeededRole(t.roles, seeds[0]);
    var t1 := SeedRoleOne(t, seeds[0], pm);
    assert RoleRoutes.FindRoleCode(t.roles, seeds[0].code).None?;
    assert t1.roles == t.roles + [role];
    assert RoleRoutes.FindRoleCode(t1.roles, seeds[0].code) == Some(|t.roles|) by {
      assert t1.roles[|t.roles|].code == seeds[0].code;
    }
    var r := SeedRoles(t1, seeds[1..], pm);
    assert r.roles == t1.roles + r.roles[|t1.roles|..];
    FindRoleCodeStable(t1.roles, r.roles[|t1.roles|..], seeds[0].code);
  }

  /**
   * When no administrator role exists yet, the one the script inserts is
   * granted every permission of the map it is given.
   */
  lemma AdminGetsEverything(t: RoleRoutes.RoleTables, ps: seq<Permission>)
    requires !HasRoleCode(t.roles, "admin")
    ensures var r := SeedRoles(t, RoleSeeds(CodeKeys(ps)), CodeMap(ps));
      RoleRoutes.FindRoleCode(r.roles, "admin").Some? &&
      var admin := r.roles[RoleRoutes.FindRoleCode(r.roles, "admin").value];
      forall c :: c in CodeMap(ps) ==> Link(admin.id, CodeMap(ps)[c]) in r.links
  {
    var seeds := RoleSeeds(CodeKeys(ps));
    var pm := CodeMap(ps);
    var r := SeedRoles(t, seeds, pm);
    FirstSeedInserted(t, seeds, pm);
    var role := SeededRole(t.roles, seeds[0]);
    var granted := t.links + Grants(role.id, seeds[0].codes, pm);
    forall c | c in pm
      ensures Link(role.id, pm[c]) in r.links
    {
      assert c in CodeKeys(ps);
      var l := Link(role.id, pm[c]);
      assert l in Grants(role.id, seeds[0].codes, pm);
      assert l in granted;
      var k :| 0 <= k < |granted| && granted[k] == l;
      assert r.links[k] == l;
    }
  }

  /**
   * Grants a new role the listed codes the map knows, one join row per
   * code, saved in list order.
   */
  method GrantAll(db: Db, rid: nat, codes: seq<string>, pm: map<string, nat>)
    modifies db
    ensures db.links == old(db.links) + Grants(rid, codes, pm)
    ensures db.users == old(db.users) && db.roles == old(db.roles) && db.permissions == old(db.permissions)
    ensures db.menus == old(db.menus) && db.sessions == old(db.sessions)
  {
    var i := 0;
    while i < |codes|
      invariant 0 <= i <= |codes|
      invariant db.links == old(db.links) + Grants(rid, codes[..i], pm)
      invariant db.users == old(db.users) && db.roles == old(db.roles) && db.permissions == old(db.permissions)
      invariant db.menus == old(db.menus) && db.sessions == old(db.sessions)
    {
      assert codes[..i + 1][..i] == codes[..i] && codes[..i + 1][i] == codes[i];
      if codes[i] in pm {
        db.links := db.links + [Link(rid, pm[codes[i]])];
      }
      i := i + 1;
    }
    assert codes[..|codes|] == codes;
  }

  /** The first `n` returned roles are the rows carrying their seeds' codes. */
  ghost predicate RolesRecorded(rs: seq<Role>, seeds: seq<RoleSeed>, created: seq<Role>, n: nat)
  {
    n <= |seeds| && |created| == n &&
    forall j :: 0 <= j < n ==>
      RoleRoutes.FindRoleCode(rs, seeds[j].code).Some? &&
      created[j] == rs[RoleRoutes.FindRoleCode(rs, seeds[j].code).value]
  }

  lemma RolesRecordedAppend(rs: seq<Role>, x: Role, seeds: seq<RoleSeed>, created: seq<Role>, n: nat)
    requires RolesRecorded(rs, seeds, created, n)
    ensures RolesRecorded(rs + [x], seeds, created, n)
  {
    forall j | 0 <= j < n
      ensures RoleRoutes.FindRoleCode(rs + [x], seeds[j].code) == RoleRoutes.FindRoleCode(rs, seeds[j].code)
    {
      FindRoleCodeStable(rs, [x], seeds[j].code);
    }
  }

  lemma SeedRolesStep(t: RoleRoutes.RoleTables, seeds: seq<RoleSeed>, i: nat, pm: map<string, nat>)
    requires i < |seeds|
    ensures SeedRoles(t, seeds[i..], pm) == SeedRoles(SeedRoleOne(t, seeds[i], pm), seeds[i + 1..], pm)
  {
    assert seeds[i..][0] == seeds[i] && seeds[i..][1..] == seeds[i + 1..];
  }

  /**
   * `init_roles(permissions)`: the tables end as `SeedRoles` describes for
   * the three built-in roles, and the returned list holds, seed by seed,
   * the row carrying the seed's code.
   */
  method InitRoles(db: Db, perms: seq<Permission>) returns (created: seq<Role>)
    modifies db
    ensures RoleRoutes.RoleTables(db.roles, db.links) ==
      SeedRoles(RoleRoutes.RoleTables(old(db.roles), old(db.links)), RoleSeeds(CodeKeys(perms)), CodeMap(perms))
    ensures RolesRecorded(db.roles, RoleSeeds(CodeKeys(perms)), created, 3)
    ensures db.users == old(db.users) && db.permissions == old(db.permissions)
    ensures db.menus == old(db.menus) && db.sessions == old(db.sessions)
  {
    var pm := CodeMap(perms);
    var seeds := RoleSeeds(CodeKeys(perms));
    ghost var t0 := RoleRoutes.RoleTables(db.roles, db.links);
    created := [];
    var i := 0;
    while i < |seeds|
      invariant i <= |seeds|
      invariant SeedRoles(RoleRoutes.RoleTables(db.roles, db.links), seeds[i..], pm) == SeedRoles(t0, seeds, pm)
      invariant RolesRecorded(db.roles, seeds, created, i)
      invariant db.users == old(db.users) && db.permissions == old(db.permissions)
      invariant db.menus == old(db.menus) && db.sessions == old(db.sessions)
    {
      var s := seeds[i];
      SeedRolesStep(RoleRoutes.RoleTables(db.roles, db.links), seeds, i, pm);
      var existing := RoleRoutes.FindRoleCode(db.roles, s.code);
      if existing.None? {
        var rs := db.roles;
        var role := SeededRole(rs, s);
        db.roles := rs + [role];
        RolesRecordedAppend(rs, role, seeds, created, i);
        GrantAll(db, role.id, s.codes, pm);
        assert db.roles[|rs|].code == s.code;
      }
      created := created + [db.roles[RoleRoutes.FindRoleCode(db.roles, s.code).value]];
      i := i + 1;
    }
    assert seeds[|seeds|..] == [];
  }

  // ---------------------------------------------------------------------
  // init_menus
  // ---------------------------------------------------------------------

  /** One entry of the menu seed list; `parentName` is the key the first pass pops. */
  datatype MenuSeed = MenuSeed(
    name: string,
    title: string,
    path: string,
    component: string,
    icon: string,
    menuType: string,
    sortOrder: int,
    permissionCode: string,
    parentName: Option<string>)

  /** The row inserted for a menu seed: enabled, without a parent, with the column defaults. */
  function SeededMenu(ms: seq<Menu>, d: MenuSeed, now: int): Menu
  {
    Menu(MenuRoutes.NextId(ms), d.name, d.title, d.path, d.component, d.icon, None, d.sortOrder, now,
         d.menuType, false, true, false, "", d.permissionCode, true)
  }

  /** What `menu_map` records under a name: the row's id and the parent name popped from the entry. */
  datatype Entry = Entry(id: nat, parentName: Option<string>)

  /** The id of the row `Menu.get_by_name` finds (0 when there is none). */
  function IdOf(ms: seq<Menu>, name: string): nat
  {
    match MenuRoutes.FindName(ms, name)
    case Some(k) => ms[k].id
    case None => 0
  }

  /** The table after the first pass handles one entry: a new name is appended. */
  function PlaceOne(ms: seq<Menu>, d: MenuSeed, now: int): seq<Menu>
  {
    if MenuRoutes.FindName(ms, d.name).None? then ms + [SeededMenu(ms, d, now)] else ms
  }

  predicate HasName(ms: seq<Menu>, name: string)
  {
    exists i :: 0 <= i < |ms| && ms[i].name == name
  }

  /** The table after the first pass over `data`. */
  function Placed(ms: seq<Menu>, data: seq<MenuSeed>, now: int): (r: seq<Menu>)
    ensures ms <= r
    ensures forall i :: 0 <= i < |data| ==> HasName(r, data[i].name)
    decreases |data|
  {
    if data == [] then ms
    else
      var ms1 := PlaceOne(ms, data[0], now);
      var found := MenuRoutes.FindName(ms, data[0].name);
      var at := if found.Some? then found.value else |ms|;
      assert ms1[at].name == data[0].name;
      var r := Placed(ms1, data[1..], now);
      assert forall i :: 1 <= i < |data| ==> data[i] == data[1..][i - 1];
      assert r[at] == ms1[at];
      r
  }

  /** `menu_map` after the first pass over `data`, starting from `acc`. */
  function MapAfter(ms: seq<Menu>, data: seq<MenuSeed>, now: int, acc: map<string, Entry>): map<string, Entry>
    decreases |data|
  {
    if data == [] then acc
    else
      var ms1 := PlaceOne(ms, data[0], now);
      MapAfter(ms1, data[1..], now, acc[data[0].name := Entry(IdOf(ms1, data[0].name), data[0].parentName)])
  }

  /** The names the seed list mentions. */
  function Names(data: seq<MenuSeed>): set<string>
  {
    set i | 0 <= i < |data| :: data[i].name
  }

  /** The parent name of the last entry carrying `name`: a later entry overwrites an earlier one. */
  function LastParent(data: seq<MenuSeed>, name: string): Option<string>
    decreases |data|
  {
    if data == [] then None
    else if name in Names(data[1..]) then LastParent(data[1..], name)
    else if data[0].name == name then data[0].parentName
    else None
  }

  /** `menu_map` described directly: each seeded name maps to the row found for it and its last parent name. */
  function Entries(ms: seq<Menu>, data: seq<MenuSeed>): map<string, Entry>
  {
    map n | n in Names(data) :: Entry(IdOf(ms, n), LastParent(data, n))
  }

  /** The second pass on one row: a seeded row whose parent name is seeded is put under that row. */
  function Linked(m: Menu, mm: map<string, Entry>): Menu
  {
    if m.name in mm && mm[m.name].id == m.id && mm[m.name].parentName.Some?
       && mm[m.name].parentName.value != "" && mm[m.name].parentName.value in mm
    then m.(parent := Some(mm[mm[m.name].parentName.value].id))
    else m
  }

  function LinkAll(ms: seq<Menu>, mm: map<string, Entry>): seq<Menu>
  {
    seq(|ms|, i requires 0 <= i < |ms| => Linked(ms[i], mm))
  }

  /** The menu table after `init_menus()`: both passes. */
  function SeedMenus(ms: seq<Menu>, data: seq<MenuSeed>, now: int): seq<Menu>
  {
    LinkAll(Placed(ms, data, now), MapAfter(ms, data, now, map[]))
  }

  /** A name found in a table is found at the same row once rows are appended. */
  lemma {:induction false} FindNameStable(ms: seq<Menu>, extra: seq<Menu>, name: string)
    requires MenuRoutes.FindName(ms, name).Some?
    ensures MenuRoutes.FindName(ms + extra, name) == MenuRoutes.FindName(ms, name)
  {
    if ms[0].name != name {
      assert (ms + extra)[1..] == ms[1..] + extra;
      FindNameStable(ms[1..], extra, name);
    }
  }

  /** Two tables with the same names row by row find every name at the same row. */
  lemma {:induction false} FindNameSameNames(a: seq<Menu>, b: seq<Menu>, name: string)
    requires |a| == |b| && forall i :: 0 <= i < |a| ==> a[i].name == b[i].name
    ensures MenuRoutes.FindName(a, name) == MenuRoutes.FindName(b, name)
  {
    if a != [] && a[0].name != name {
      FindNameSameNames(a[1..], b[1..], name);
    }
  }

  lemma NamesCons(data: seq<MenuSeed>)
    requires data != []
    ensures Names(data) == {data[0].name} + Names(data[1..])
  {
    var rest := data[1..];
    forall n | n in Names(data) ensures n in {data[0].name} + Names(rest) {
      var i :| 0 <= i < |data| && data[i].name == n;
      if i > 0 { assert rest[i - 1] == data[i]; }
    }
    forall n | n in Names(rest) ensures n in Names(data) {
      var i :| 0 <= i < |rest| && rest[i].name == n;
      assert data[i + 1] == rest[i];
    }
  }

  /** A name found in a table is found at the same row of any table extending it. */
  lemma FindNamePrefix(a: seq<Menu>, b: seq<Menu>, name: string)
    requires a <= b && MenuRoutes.FindName(a, name).Some?
    ensures MenuRoutes.FindName(b, name) == MenuRoutes.FindName(a, name)
  {
    assert b == a + b[|a|..];
    FindNameStable(a, b[|a|..], name);
  }

  /** The row the first entry finds or inserts is still the row found at the end of the pass. */
  lemma PlacedFirstId(ms: seq<Menu>, data: seq<MenuSeed>, now: int)
    requires data != []
    ensures IdOf(Placed(ms, data, now), data[0].name) == IdOf(PlaceOne(ms, data[0], now), data[0].name)
  {
    var ms1 := PlaceOne(ms, data[0], now);
    assert MenuRoutes.FindName(ms1, data[0].name).Some? by {
      var found := MenuRoutes.FindName(ms, data[0].name);
      var at := if found.Some? then found.value else |ms|;
      assert ms1[at].name == data[0].name;
    }
    FindNamePrefix(ms1, Placed(ms1, data[1..], now), data[0].name);
  }

  /** The last parent name of a name, in terms of the rest of the list. */
  lemma LastParentCons(data: seq<MenuSeed>, n: string)
    requires data != []
    ensures n in Names(data[1..]) ==> LastParent(data, n) == LastParent(data[1..], n)
    ensures n !in Names(data[1..]) && n == data[0].name ==> LastParent(data, n) == data[0].parentName
  {
  }

  /** The value under one key of the two sides of `EntriesCons`. */
  lemma EntriesConsAt(f: seq<Menu>, data: seq<MenuSeed>, acc: map<string, Entry>, n: string)
    requires data != [] && Names(data) == {data[0].name} + Names(data[1..])
    requires n in Names(data)
    ensures (acc[data[0].name := Entry(IdOf(f, data[0].name), data[0].parentName)] + Entries(f, data[1..]))[n]
            == Entries(f, data)[n]
  {
    LastParentCons(data, n);
  }

  /** Recording the first entry, then the rest, gives the entries of the whole list. */
  lemma EntriesCons(f: seq<Menu>, data: seq<MenuSeed>, acc: map<string, Entry>)
    requires data != []
    ensures acc[data[0].name := Entry(IdOf(f, data[0].name), data[0].parentName)] + Entries(f, data[1..])
            == acc + Entries(f, data)
  {
    NamesCons(data);
    var lhs := acc[data[0].name := Entry(IdOf(f, data[0].name), data[0].parentName)] + Entries(f, data[1..]);
    var rhs := acc + Entries(f, data);
    assert lhs.Keys == rhs.Keys;
    forall n | n in lhs.Keys ensures lhs[n] == rhs[n] {
      if n in Names(data) {
        EntriesConsAt(f, data, acc, n);
      }
    }
  }

  /** The map the first pass builds is `Entries` of the table it leaves. */
  lemma {:induction false} MapAfterEntries(ms: seq<Menu>, data: seq<MenuSeed>, now: int, acc: map<string, Entry>)
    ensures MapAfter(ms, data, now, acc) == acc + Entries(Placed(ms, data, now), data)
    decreases |data|
  {
    if data == [] {
      assert Names(data) == {};
      assert Entries(ms, data) == map[];
    } else {
      var ms1 := PlaceOne(ms, data[0], now);
      var f := Placed(ms, data, now);
      assert f == Placed(ms1, data[1..], now);
      PlacedFirstId(ms, data, now);
      MapAfterEntries(ms1, data[1..], now, acc[data[0].name := Entry(IdOf(ms1, data[0].name), data[0].parentName)]);
      EntriesCons(f, data, acc);
    }
  }

  /** When every seeded name already exists the first pass adds no row. */
  lemma {:induction false} PlacedNothingNew(ms: seq<Menu>, data: seq<MenuSeed>, now: int)
    requires forall i :: 0 <= i < |data| ==> HasName(ms, data[i].name)
    ensures Placed(ms, data, now) == ms
    decreases |data|
  {
    if data != [] {
      assert HasName(ms, data[0].name);
      assert MenuRoutes.FindName(ms, data[0].name).Some?;
      assert forall i :: 0 <= i < |data[1..]| ==> data[1..][i] == data[i + 1];
      PlacedNothingNew(ms, data[1..], now);
    }
  }

  /** The map the first pass builds from an empty `menu_map`. */
  lemma MapAfterFromEmpty(ms: seq<Menu>, data: seq<MenuSeed>, now: int)
    ensures MapAfter(ms, data, now, map[]) == Entries(Placed(ms, data, now), data)
  {
    MapAfterEntries(ms, data, now, map[]);
    assert map[] + Entries(Placed(ms, data, now), data) == Entries(Placed(ms, data, now), data);
  }

  /** Two tables agreeing on names and ids row by row. */
  predicate SameKeys(a: seq<Menu>, b: seq<Menu>)
  {
    |a| == |b| && forall i :: 0 <= i < |a| ==> a[i].name == b[i].name && a[i].id == b[i].id
  }

  /** The second pass changes parents only. */
  lemma LinkAllKeys(ms: seq<Menu>, mm: map<string, Entry>)
    ensures SameKeys(LinkAll(ms, mm), ms)
  {
  }

  /** Tables agreeing on names and ids find every name at a row with the same id. */
  lemma SameKeysIds(a: seq<Menu>, b: seq<Menu>)
    requires SameKeys(a, b)
    ensures forall n :: MenuRoutes.FindName(a, n) == MenuRoutes.FindName(b, n) && IdOf(a, n) == IdOf(b, n)
  {
    forall n ensures MenuRoutes.FindName(a, n) == MenuRoutes.FindName(b, n) && IdOf(a, n) == IdOf(b, n) {
      FindNameSameNames(a, b, n);
    }
  }

  lemma SameKeysEntries(a: seq<Menu>, b: seq<Menu>, data: seq<MenuSeed>)
    requires SameKeys(a, b)
    ensures Entries(a, data) == Entries(b, data)
  {
    SameKeysIds(a, b);
  }

  /** Linking a linked table again changes nothing. */
  lemma LinkAllTwice(ms: seq<Menu>, mm: map<string, Entry>)
    ensures LinkAll(LinkAll(ms, mm), mm) == LinkAll(ms, mm)
  {
  }

  /** Every seeded name is found in a table that agrees on names with one holding them all. */
  lemma SameKeysNames(a: seq<Menu>, b: seq<Menu>, data: seq<MenuSeed>)
    requires SameKeys(a, b) && forall i :: 0 <= i < |data| ==> HasName(b, data[i].name)
    ensures forall i :: 0 <= i < |data| ==> HasName(a, data[i].name)
  {
    forall i | 0 <= i < |data| ensures HasName(a, data[i].name) {
      var j :| 0 <= j < |b| && b[j].name == data[i].name;
      assert a[j].name == data[i].name;
    }
  }

  /**
   * Running `init_menus()` again, at any time, leaves the table as the
   * first run left it: every name is found, the map comes out the same,
   * and the parents it sets are already set.
   */
  lemma SeedMenusIdempotent(ms: seq<Menu>, data: seq<MenuSeed>, now: int, later: int)
    ensures SeedMenus(SeedMenus(ms, data, now), data, later) == SeedMenus(ms, data, now)
  {
    var p := Placed(ms, data, now);
    var mm := MapAfter(ms, data, now, map[]);
    var s := LinkAll(p, mm);
    LinkAllKeys(p, mm);
    SameKeysNames(s, p, data);
    PlacedNothingNew(s, data, later);
    MapAfterFromEmpty(ms, data, now);
    MapAfterFromEmpty(s, data, later);
    SameKeysEntries(s, p, data);
    LinkAllTwice(p, mm);
  }

  /** Each name of the map names a row carrying the id recorded for it. */
  ghost predicate RowsNamed(p: seq<Menu>, mm: map<string, Entry>)
  {
    forall n :: n in mm ==> exists r :: 0 <= r < |p| && p[r].name == n && p[r].id == mm[n].id
  }

  /** The entries of a table holding every seeded name point at rows of that name. */
  lemma EntriesRowsNamed(p: seq<Menu>, data: seq<MenuSeed>)
    requires forall i :: 0 <= i < |data| ==> HasName(p, data[i].name)
    ensures RowsNamed(p, Entries(p, data))
  {
    forall n | n in Entries(p, data)
      ensures exists r :: 0 <= r < |p| && p[r].name == n && p[r].id == Entries(p, data)[n].id
    {
      var i :| 0 <= i < |data| && data[i].name == n;
      assert HasName(p, data[i].name);
      var k := MenuRoutes.FindName(p, n).value;
      assert p[k].name == n && p[k].id == IdOf(p, n);
    }
  }

  /** An entry of `Entries` for a name the table holds: the id of the row found, the last parent name. */
  lemma EntryOf(p: seq<Menu>, data: seq<MenuSeed>, n: string)
    requires n in Names(data)
    ensures n in Entries(p, data) && Entries(p, data)[n] == Entry(IdOf(p, n), LastParent(data, n))
  {
  }

  /** The second pass on a table holding every seeded name puts each seeded parent in place. */
  lemma LinkedParent(p: seq<Menu>, data: seq<MenuSeed>, n: string)
    requires n in Names(data) && forall i :: 0 <= i < |data| ==> HasName(p, data[i].name)
    ensures var s := LinkAll(p, Entries(p, data));
      MenuRoutes.FindName(s, n).Some? &&
      (LastParent(data, n).Some? && LastParent(data, n).value != "" && LastParent(data, n).value in Names(data) ==>
        s[MenuRoutes.FindName(s, n).value].parent == Some(IdOf(s, LastParent(data, n).value)))
  {
    var mm := Entries(p, data);
    var s := LinkAll(p, mm);
    LinkAllKeys(p, mm);
    var i :| 0 <= i < |data| && data[i].name == n;
    assert HasName(p, data[i].name);
    FindNameSameNames(s, p, n);
    var k := MenuRoutes.FindName(p, n).value;
    EntryOf(p, data, n);
    var lp := LastParent(data, n);
    if lp.Some? && lp.value != "" && lp.value in Names(data) {
      EntryOf(p, data, lp.value);
      FindNameSameNames(s, p, lp.value);
      assert s[k] == Linked(p[k], mm);
    }
  }

  /**
   * After `init_menus()`, a seeded menu whose last entry names a seeded
   * parent sits under the row found for that parent.
   */
  lemma SeededParents(ms: seq<Menu>, data: seq<MenuSeed>, now: int, n: string)
    requires n in Names(data)
    ensures var s := SeedMenus(ms, data, now);
      MenuRoutes.FindName(s, n).Some? &&
      (LastParent(data, n).Some? && LastParent(data, n).value != "" && LastParent(data, n).value in Names(data) ==>
        s[MenuRoutes.FindName(s, n).value].parent == Some(IdOf(s, LastParent(data, n).value)))
  {
    MapAfterFromEmpty(ms, data, now);
    LinkedParent(Placed(ms, data, now), data, n);
  }

  /** Rows whose name the seed list does not mention come out of `init_menus()` as they went in. */
  lemma UnseededUntouched(ms: seq<Menu>, data: seq<MenuSeed>, now: int)
    ensures var s := SeedMenus(ms, data, now);
      |ms| <= |s| && forall i :: 0 <= i < |ms| && ms[i].name !in Names(data) ==> s[i] == ms[i]
  {
    var p := Placed(ms, data, now);
    MapAfterFromEmpty(ms, data, now);
    assert forall i :: 0 <= i < |ms| ==> p[i] == ms[i];
  }

  lemma PlaceStep(ms: seq<Menu>, data: seq<MenuSeed>, i: nat, now: int, acc: map<string, Entry>)
    requires i < |data|
    ensures Placed(ms, data[i..], now) == Placed(PlaceOne(ms, data[i], now), data[i + 1..], now)
    ensures MapAfter(ms, data[i..], now, acc) ==
      MapAfter(PlaceOne(ms, data[i], now), data[i + 1..], now,
               acc[data[i].name := Entry(IdOf(PlaceOne(ms, data[i], now), data[i].name), data[i].parentName)])
  {
    assert data[i..][0] == data[i] && data[i..][1..] == data[i + 1..];
  }

  /** The primary key of the menu table. */
  predicate MenuIdsUnique(ms: seq<Menu>)
  {
    forall i, j :: 0 <= i < |ms| && 0 <= j < |ms| && ms[i].id == ms[j].id ==> i == j
  }

  lemma {:induction false} PlacedKeepsIds(ms: seq<Menu>, data: seq<MenuSeed>, now: int)
    requires MenuIdsUnique(ms)
    ensures MenuIdsUnique(Placed(ms, data, now))
    decreases |data|
  {
    if data != [] {
      var ms1 := PlaceOne(ms, data[0], now);
      if MenuRoutes.FindName(ms, data[0].name).None? {
        assert FindMenu(ms, MenuRoutes.NextId(ms)).None?;
        assert forall i :: 0 <= i < |ms| ==> ms1[i] == ms[i];
      }
      PlacedKeepsIds(ms1, data[1..], now);
    }
  }

  /** The rows of the pass-two table: those whose name is done are linked, the rest as pass one left them. */
  ghost predicate LinkedSoFar(cur: seq<Menu>, p: seq<Menu>, mm: map<string, Entry>, done: seq<string>)
  {
    |cur| == |p| && forall r :: 0 <= r < |p| ==> cur[r] == (if p[r].name in done then Linked(p[r], mm) else p[r])
  }

  /** The rows with the given id moved under `parent`. */
  function SetParent(ms: seq<Menu>, id: nat, parent: nat): (r: seq<Menu>)
    ensures |r| == |ms|
    ensures forall i :: 0 <= i < |ms| ==> r[i] == (if ms[i].id == id then ms[i].(parent := Some(parent)) else ms[i])
  {
    seq(|ms|, i requires 0 <= i < |ms| => if ms[i].id == id then ms[i].(parent := Some(parent)) else ms[i])
  }

  /** The row carrying a map entry's id is the one row of that name the entry was recorded for. */
  lemma EntryRowOnly(p: seq<Menu>, mm: map<string, Entry>, name: string, r: nat)
    requires MenuIdsUnique(p) && RowsNamed(p, mm) && name in mm
    requires r < |p| && p[r].id == mm[name].id
    ensures p[r].name == name
  {
  }

  lemma LinkStep(cur: seq<Menu>, p: seq<Menu>, mm: map<string, Entry>, done: seq<string>, name: string)
    requires MenuIdsUnique(p) && RowsNamed(p, mm)
    requires name in mm && LinkedSoFar(cur, p, mm, done)
    ensures var e := mm[name];
      var next := if e.parentName.Some? && e.parentName.value != "" && e.parentName.value in mm
                  then SetParent(cur, e.id, mm[e.parentName.value].id) else cur;
      LinkedSoFar(next, p, mm, done + [name])
  {
    forall r | 0 <= r < |p| && p[r].id == mm[name].id ensures p[r].name == name {
      EntryRowOnly(p, mm, name, r);
    }
  }

  /** The first-pass state after `i` entries: what is left to do yields the state after all of them. */
  ghost predicate PlacedSoFar(ms: seq<Menu>, mm: map<string, Entry>, ms0: seq<Menu>, data: seq<MenuSeed>, i: nat, now: int)
  {
    i <= |data| &&
    Placed(ms, data[i..], now) == Placed(ms0, data, now) &&
    MapAfter(ms, data[i..], now, mm) == MapAfter(ms0, data, now, map[])
  }

  /** One step of the first pass: the entry's name is inserted when missing and recorded in the map. */
  method PlaceEntry(db: Db, d: MenuSeed, now: int, mm: map<string, Entry>, order: seq<string>,
                    ghost ms0: seq<Menu>, ghost data: seq<MenuSeed>, ghost i: nat)
    returns (mm': map<string, Entry>, order': seq<string>)
    requires i < |data| && d == data[i] && PlacedSoFar(db.menus, mm, ms0, data, i, now)
    requires forall n :: n in order <==> n in mm
    modifies db
    ensures PlacedSoFar(db.menus, mm', ms0, data, i + 1, now)
    ensures forall n :: n in order' <==> n in mm'
    ensures db.users == old(db.users) && db.roles == old(db.roles) && db.permissions == old(db.permissions)
    ensures db.links == old(db.links) && db.sessions == old(db.sessions)
  {
    PlaceStep(db.menus, data, i, now, mm);
    if MenuRoutes.FindName(db.menus, d.name).None? {
      db.menus := db.menus + [SeededMenu(db.menus, d, now)];
    }
    order' := if d.name in mm then order else order + [d.name];
    mm' := mm[d.name := Entry(IdOf(db.menus, d.name), d.parentName)];
  }

  /** The first pass of `init_menus()`: insert the missing names and fill `menu_map` in insertion order. */
  method PlaceMenus(db: Db, data: seq<MenuSeed>, now: int) returns (mm: map<string, Entry>, order: seq<string>)
    modifies db
    ensures db.menus == Placed(old(db.menus), data, now)
    ensures mm == MapAfter(old(db.menus), data, now, map[])
    ensures forall n :: n in order <==> n in mm
    ensures db.users == old(db.users) && db.roles == old(db.roles) && db.permissions == old(db.permissions)
    ensures db.links == old(db.links) && db.sessions == old(db.sessions)
  {
    ghost var ms0 := db.menus;
    mm := map[];
    order := [];
    var i := 0;
    while i < |data|
      invariant PlacedSoFar(db.menus, mm, ms0, data, i, now)
      invariant forall n :: n in order <==> n in mm
      invariant db.users == old(db.users) && db.roles == old(db.roles) && db.permissions == old(db.permissions)
      invariant db.links == old(db.links) && db.sessions == old(db.sessions)
    {
      mm, order := PlaceEntry(db, data[i], now, mm, order, ms0, data, i);
      i := i + 1;
    }
    assert data[|data|..] == [];
  }

  /** Once every name of the map is done, the table is the linked one. */
  lemma LinkedAllDone(cur: seq<Menu>, p: seq<Menu>, mm: map<string, Entry>, order: seq<string>)
    requires LinkedSoFar(cur, p, mm, order) && forall n :: n in order <==> n in mm
    ensures cur == LinkAll(p, mm)
  {
  }

  /** One step of the second pass: the entry's row goes under its parent's row when the map has the parent. */
  method LinkOne(db: Db, ghost p: seq<Menu>, mm: map<string, Entry>, ghost done: seq<string>, name: string)
    requires MenuIdsUnique(p) && RowsNamed(p, mm)
    requires name in mm && LinkedSoFar(db.menus, p, mm, done)
    modifies db
    ensures LinkedSoFar(db.menus, p, mm, done + [name])
    ensures db.users == old(db.users) && db.roles == old(db.roles) && db.permissions == old(db.permissions)
    ensures db.links == old(db.links) && db.sessions == old(db.sessions)
  {
    var e := mm[name];
    LinkStep(db.menus, p, mm, done, name);
    if e.parentName.Some? && e.parentName.value != "" && e.parentName.value in mm {
      db.menus := SetParent(db.menus, e.id, mm[e.parentName.value].id);
    }
  }

  /** The second pass of `init_menus()`: walk `menu_map` and set each parent found in it. */
  method LinkMenus(db: Db, mm: map<string, Entry>, order: seq<string>)
    requires MenuIdsUnique(db.menus) && RowsNamed(db.menus, mm)
    requires forall n :: n in order <==> n in mm
    modifies db
    ensures db.menus == LinkAll(old(db.menus), mm)
    ensures db.users == old(db.users) && db.roles == old(db.roles) && db.permissions == old(db.permissions)
    ensures db.links == old(db.links) && db.sessions == old(db.sessions)
  {
    ghost var p := db.menus;
    var j := 0;
    while j < |order|
      invariant j <= |order|
      invariant LinkedSoFar(db.menus, p, mm, order[..j])
      invariant db.users == old(db.users) && db.roles == old(db.roles) && db.permissions == old(db.permissions)
      invariant db.links == old(db.links) && db.sessions == old(db.sessions)
    {
      LinkOne(db, p, mm, order[..j], order[j]);
      assert order[..j + 1] == order[..j] + [order[j]];
      j := j + 1;
    }
    assert order[..|order|] == order;
    LinkedAllDone(db.menus, p, mm, order);
  }

  /**
   * `init_menus()`: the first pass inserts the missing names and records
   * every entry in `menu_map`; the second walks the map in insertion order
   * and sets the parent of each entry whose parent name is in the map.
   */
  method InitMenus(db: Db, data: seq<MenuSeed>, now: int)
    requires MenuIdsUnique(db.menus)
    modifies db
    ensures db.menus == SeedMenus(old(db.menus), data, now)
    ensures db.users == old(db.users) && db.roles == old(db.roles) && db.permissions == old(db.permissions)
    ensures db.links == old(db.links) && db.sessions == old(db.sessions)
  {
    ghost var ms0 := db.menus;
    var mm, order := PlaceMenus(db, data, now);
    MapAfterFromEmpty(ms0, data, now);
    PlacedKeepsIds(ms0, data, now);
    EntriesRowsNamed(db.menus, data);
    LinkMenus(db, mm, order);
  }

  // ---------------------------------------------------------------------
  // update_users_with_roles and main
  // ---------------------------------------------------------------------

  /** `{role.code: role for role in roles}`, kept as code to id: a later role wins for a repeated code. */
  function RoleMap(rs: seq<Role>): (m: map<string, nat>)
    ensures forall c :: c in m <==> HasRoleCode(rs, c)
    ensures forall c :: c in m ==> exists i :: 0 <= i < |rs| && rs[i].code == c && rs[i].id == m[c]
    decreases |rs|
  {
    if rs == [] then map[]
    else
      var front := rs[..|rs| - 1];
      var last := rs[|rs| - 1];
      var m := RoleMap(front);
      assert forall i :: 0 <= i < |front| ==> front[i] == rs[i];
      assert forall c :: HasRoleCode(rs, c) ==> HasRoleCode(front, c) || c == last.code;
      m[last.code := last.id]
  }

  /** A user after the update: `role_id` follows the legacy role text when the map has it. */
  function Assigned(u: User, rm: map<string, nat>): User
  {
    var t := AuthRoutes.RoleText(u.role);
    if t in rm then u.(roleId := Some(rm[t])) else u
  }

  /** `update_users_with_roles(roles)`: every user whose legacy role text is a code of `roles` gets that role's id. */
  method UpdateUsersWithRoles(db: Db, roles: seq<Role>)
    modifies db
    ensures |db.users| == |old(db.users)|
    ensures forall i :: 0 <= i < |db.users| ==> db.users[i] == Assigned(old(db.users)[i], RoleMap(roles))
    ensures db.roles == old(db.roles) && db.permissions == old(db.permissions) && db.links == old(db.links)
    ensures db.menus == old(db.menus) && db.sessions == old(db.sessions)
  {
    var rm := RoleMap(roles);
    var i := 0;
    while i < |db.users|
      invariant i <= |db.users| == |old(db.users)|
      invariant forall j :: 0 <= j < i ==> db.users[j] == Assigned(old(db.users)[j], rm)
      invariant forall j :: i <= j < |db.users| ==> db.users[j] == old(db.users)[j]
      invariant db.roles == old(db.roles) && db.permissions == old(db.permissions) && db.links == old(db.links)
      invariant db.menus == old(db.menus) && db.sessions == old(db.sessions)
    {
      var u := db.users[i];
      var t := AuthRoutes.RoleText(u.role);
      if t in rm {
        db.users := db.users[i := u.(roleId := Some(rm[t]))];
      }
      i := i + 1;
    }
  }

  /**
   * The roles `init_roles` returns carry the codes admin, operator and
   * viewer, so every legacy role text is a key of their map, and it maps
   * to the role row found for that code.
   */
  lemma EveryLegacyRoleMapped(rs: seq<Role>, keys: seq<string>, created: seq<Role>, r: LegacyRole)
    requires RolesRecorded(rs, RoleSeeds(keys), created, 3)
    ensures RoleRoutes.FindRoleCode(rs, AuthRoutes.RoleText(r)).Some?
    ensures AuthRoutes.RoleText(r) in RoleMap(created)
    ensures RoleMap(created)[AuthRoutes.RoleText(r)] == rs[RoleRoutes.FindRoleCode(rs, AuthRoutes.RoleText(r)).value].id
  {
    var seeds := RoleSeeds(keys);
    var t := AuthRoutes.RoleText(r);
    var at := if r == Admin then 0 else if r == Operator then 1 else 2;
    assert seeds[at].code == t;
    var k := RoleRoutes.FindRoleCode(rs, t).value;
    assert created[at] == rs[k] && created[at].code == t;
    assert HasRoleCode(created, t);
    var m := RoleMap(created);
    var i :| 0 <= i < |created| && created[i].code == t && created[i].id == m[t];
    assert created[i] == rs[RoleRoutes.FindRoleCode(rs, seeds[i].code).value];
    assert rs[RoleRoutes.FindRoleCode(rs, seeds[i].code).value].code == seeds[i].code;
  }

  /**
   * The script's `main`: permissions, roles, menus, then the users. Every
   * user ends with `role_id` naming the role row whose code is the user's
   * legacy role text, and nothing else about the user changes.
   */
  method InitRbac(db: Db, permissionData: seq<PermissionSeed>, menuData: seq<MenuSeed>, now: int)
    requires MenuIdsUnique(db.menus)
    modifies db
    ensures db.permissions == SeedPermissions(old(db.permissions), permissionData, 0)
    ensures db.menus == SeedMenus(old(db.menus), menuData, now)
    ensures old(db.roles) <= db.roles && old(db.links) <= db.links
    ensures |db.users| == |old(db.users)|
    ensures forall i :: 0 <= i < |db.users| ==>
      RoleRoutes.FindRoleCode(db.roles, AuthRoutes.RoleText(old(db.users)[i].role)).Some? &&
      db.users[i] == old(db.users)[i].(roleId :=
        Some(db.roles[RoleRoutes.FindRoleCode(db.roles, AuthRoutes.RoleText(old(db.users)[i].role)).value].id))
    ensures db.sessions == old(db.sessions)
  {
    var perms := InitPermissions(db, permissionData);
    var roles := InitRoles(db, perms);
    InitMenus(db, menuData, now);
    UpdateUsersWithRoles(db, roles);
    forall i | 0 <= i < |db.users|
      ensures RoleRoutes.FindRoleCode(db.roles, AuthRoutes.RoleText(old(db.users)[i].role)).Some? &&
        db.users[i] == old(db.users)[i].(roleId :=
          Some(db.roles[RoleRoutes.FindRoleCode(db.roles, AuthRoutes.RoleText(old(db.users)[i].role)).value].id))
    {
      EveryLegacyRoleMapped(db.roles, CodeKeys(perms), roles, old(db.users)[i].role);
    }
  }
}
