/**
 * The `User` model: two-tier permission resolution (RBAC role first, the
 * legacy role enum as fallback), the admin edit/delete rules, login
 * bookkeeping and deletion with its sessions.
 */
module Users {
  import opened Wrappers
  import opened Schema
  import Seqs
  import Roles

  /** The fixed code lists of the legacy role system. */
  function LegacyPermissions(role: LegacyRole): (r: seq<string>)
    ensures role == Admin ==> r == ["read", "write", "delete", "manage"]
    ensures role == Operator ==> r == ["read", "write"]
    ensures role == Viewer ==> r == ["read"]
  {
    match role
    case Admin => ["read", "write", "delete", "manage"]
    case Operator => ["read", "write"]
    case Viewer => ["read"]
  }

  /** `role_id` is truthy (set and not 0) and names an existing role. */
  predicate Resolved(u: User, roles: seq<Role>)
  {
    u.roleId.Some? && u.roleId.value != 0 && FindRole(roles, u.roleId.value).Some?
  }

  /** The permissions joined to role `rid` whose status is true, in table order. */
  function ActiveRolePermissions(perms: seq<Permission>, links: seq<Link>, rid: nat): (r: seq<Permission>)
    ensures forall p :: p in r <==> p in perms && p.status && Link(rid, p.id) in links
  {
    Seqs.Filter(perms, (p: Permission) => p.status && Roles.HasLink(links, Link(rid, p.id)))
  }

  function Code(p: Permission): string { p.code }

  /** `user.get_permissions()`. */
  function GetPermissions(u: User, roles: seq<Role>, perms: seq<Permission>, links: seq<Link>): (r: seq<string>)
    ensures Resolved(u, roles) ==>
      forall c :: c in r <==> exists p :: p in perms && p.status && Link(u.roleId.value, p.id) in links && p.code == c
    ensures !Resolved(u, roles) ==> r == LegacyPermissions(u.role)
  {
    if Resolved(u, roles) then
      var role := roles[FindRole(roles, u.roleId.value).value];
      var ps := ActiveRolePermissions(perms, links, role.id);
      var r := Seqs.Map(ps, Code);
      assert forall c :: c in r <==> exists p :: p in ps && p.code == c by {
        forall c
          ensures c in r <==> exists p :: p in ps && p.code == c
        {
          if c in r {
            var k :| 0 <= k < |r| && r[k] == c;
            assert ps[k] in ps;
          }
          if exists p :: p in ps && p.code == c {
            var p :| p in ps && p.code == c;
            var k :| 0 <= k < |ps| && ps[k] == p;
            assert r[k] == c;
          }
        }
      }
      r
    else
      LegacyPermissions(u.role)
  }

  /**
   * A role that resolves but holds no active permission yields no codes at
   * all: the legacy list is not consulted.
   */
  lemma ResolvedEmpty(u: User, roles: seq<Role>, perms: seq<Permission>, links: seq<Link>)
    requires Resolved(u, roles)
    requires forall p :: p in perms && p.status ==> Link(u.roleId.value, p.id) !in links
    ensures GetPermissions(u, roles, perms, links) == []
  {
    var r := GetPermissions(u, roles, perms, links);
    assert forall c :: c !in r;
  }

  /** `user.has_permission(code)`. */
  function HasPermission(u: User, roles: seq<Role>, perms: seq<Permission>, links: seq<Link>, code: string): (b: bool)
    ensures Resolved(u, roles) ==>
      (b <==> exists p :: p in perms && p.status && Link(u.roleId.value, p.id) in links && p.code == code)
    ensures !Resolved(u, roles) ==> (b <==> code in LegacyPermissions(u.role))
  {
    code in GetPermissions(u, roles, perms, links)
  }

  /** `user.can_edit_user(target)`. */
  function CanEditUser(actor: User, target: User): (b: bool)
    ensures actor.role != Admin ==> !b
    ensures actor.role == Admin ==> (b <==> target.role != Admin || target.id == actor.id)
  {
    if actor.role != Admin then false
    else if target.role == Admin && target.id != actor.id then false
    else true
  }

  /** `user.can_delete_user(target)`. */
  function CanDeleteUser(actor: User, target: User): (b: bool)
    ensures b <==> actor.role == Admin && target.id != actor.id && target.role != Admin
  {
    if actor.role != Admin then false
    else if target.id == actor.id then false
    else if target.role == Admin then false
    else true
  }

  /** Whoever may be deleted may also be edited, but an admin may edit and never delete themself. */
  lemma DeleteImpliesEdit(actor: User, target: User)
    ensures CanDeleteUser(actor, target) ==> CanEditUser(actor, target)
    ensures actor.role == Admin ==> CanEditUser(actor, actor) && !CanDeleteUser(actor, actor)
  {
  }

  /** The user row after `update_login_info()` at time `now`. */
  function LoggedIn(u: User, now: int): (v: User)
    ensures v.loginCount == u.loginCount + 1
    ensures v.lastLogin == Some(now)
    ensures v.(loginCount := u.loginCount, lastLogin := u.lastLogin) == u
  {
    u.(loginCount := u.loginCount + 1, lastLogin := Some(now))
  }

  /** `user.update_login_info()` on the row at index `k`. */
  method UpdateLoginInfo(db: Db, k: nat, now: int)
    requires k < |db.users|
    modifies db
    ensures db.users == old(db.users)[k := LoggedIn(old(db.users)[k], now)]
    ensures db.roles == old(db.roles) && db.permissions == old(db.permissions) && db.links == old(db.links)
    ensures db.menus == old(db.menus) && db.sessions == old(db.sessions)
  {
    db.users := db.users[k := LoggedIn(db.users[k], now)];
  }

  /**
   * `User.authenticate(username, password)`: the first user with that name,
   * when enabled and the password matches, gets its login recorded and is
   * returned; every other outcome changes nothing. `checks(hash, password)`
   * stands for the password-hash comparison.
   */
  method Authenticate(db: Db, username: string, password: string, checks: (string, string) -> bool, now: int)
    returns (r: Option<nat>)
    modifies db
    ensures var k := FindUsername(old(db.users), username);
      r.Some? <==> k.Some? && old(db.users)[k.value].status && checks(old(db.users)[k.value].passwordHash, password)
    ensures r.Some? ==> var k := FindUsername(old(db.users), username).value;
      r.value == old(db.users)[k].id && db.users == old(db.users)[k := LoggedIn(old(db.users)[k], now)]
    ensures r.None? ==> db.users == old(db.users)
    ensures db.roles == old(db.roles) && db.permissions == old(db.permissions) && db.links == old(db.links)
    ensures db.menus == old(db.menus) && db.sessions == old(db.sessions)
  {
    var k := FindUsername(db.users, username);
    if k.Some? && db.users[k.value].status && checks(db.users[k.value].passwordHash, password) {
      r := Some(db.users[k.value].id);
      UpdateLoginInfo(db, k.value, now);
    } else {
      r := None;
    }
  }

  /** The session table after deleting every session of user `uid`. */
  function WithoutUserSessions(ss: seq<Session>, uid: nat): (r: seq<Session>)
    ensures forall s :: s in r <==> s in ss && s.userId != uid
  {
    Seqs.Filter(ss, (s: Session) => s.userId != uid)
  }

  /** `user.delete()` on the row at index `k`: its sessions go first, then the row itself. */
  method DeleteUser(db: Db, k: nat)
    requires k < |db.users|
    modifies db
    ensures db.sessions == WithoutUserSessions(old(db.sessions), old(db.users)[k].id)
    ensures db.users == old(db.users)[..k] + old(db.users)[k + 1..]
    ensures db.roles == old(db.roles) && db.permissions == old(db.permissions) && db.links == old(db.links)
    ensures db.menus == old(db.menus)
  {
    var uid := db.users[k].id;
    db.sessions := WithoutUserSessions(db.sessions, uid);
    db.users := db.users[..k] + db.users[k + 1..];
  }

  /** After `delete()`, no session of the user survives and with unique ids no row has its id. */
  lemma DeleteUserRemovesAll(us: seq<User>, ss: seq<Session>, k: nat)
    requires k < |us| && UniqueUserIds(us)
    ensures forall s :: s in WithoutUserSessions(ss, us[k].id) ==> s.userId != us[k].id
    ensures FindUser(us[..k] + us[k + 1..], us[k].id).None?
  {
    var rest := us[..k] + us[k + 1..];
    forall i | 0 <= i < |rest|
      ensures rest[i].id != us[k].id
    {
      if i < k {
        assert rest[i] == us[i];
      } else {
        assert rest[i] == us[i + 1];
      }
    }
  }

  /** `User.get_by_email(email)`: the first row with that address. */
  function FindEmail(us: seq<User>, email: string): (r: Option<nat>)
    ensures r.Some? ==> r.value < |us| && us[r.value].email == email
    ensures r.None? <==> forall i :: 0 <= i < |us| ==> us[i].email != email
  {
    if us == [] then None
    else if us[0].email == email then Some(0)
    else match FindEmail(us[1..], email)
      case None => None
      case Some(k) => Some(k + 1)
  }

  function MaxUserId(us: seq<User>): (r: nat)
    ensures forall i :: 0 <= i < |us| ==> us[i].id <= r
  {
    if us == [] then 0
    else
      var rest := MaxUserId(us[1..]);
      assert forall i :: 1 <= i < |us| ==> us[i] == us[1..][i - 1];
      if us[0].id > rest then us[0].id else rest
  }

  /** The id `save()` gives a new user: one past the largest id in the table. */
  function NextUserId(us: seq<User>): (r: nat)
    ensures r > 0 && FindUser(us, r).None?
  {
    MaxUserId(us) + 1
  }

  /** Selecting rows keeps the ids unique. */
  lemma {:induction false} FilterUniqueIds(us: seq<User>, p: User -> bool)
    requires UniqueUserIds(us)
    ensures UniqueUserIds(Seqs.Filter(us, p))
  {
    if us != [] {
      var tail := us[1..];
      assert UniqueUserIds(tail) by {
        forall i, j | 0 <= i < |tail| && 0 <= j < |tail| && tail[i].id == tail[j].id
          ensures i == j
        {
          assert us[i + 1] == tail[i] && us[j + 1] == tail[j];
        }
      }
      FilterUniqueIds(tail, p);
      var ft := Seqs.Filter(tail, p);
      forall k | 0 <= k < |ft|
        ensures ft[k].id != us[0].id
      {
        assert ft[k] in tail;
        var m :| 0 <= m < |tail| && tail[m] == ft[k];
        assert us[m + 1] == tail[m];
      }
      if p(us[0]) {
        var f := [us[0]] + ft;
        assert Seqs.Filter(us, p) == f;
        assert forall m :: 0 < m < |f| ==> f[m] == ft[m - 1];
      }
    }
  }

  /** In a table with unique ids, deleting the row at `k` is keeping every row with another id. */
  lemma RemoveIsFilter(us: seq<User>, k: nat, p: User -> bool)
    requires k < |us| && UniqueUserIds(us)
    requires forall u :: p(u) == (u.id != us[k].id)
    ensures us[..k] + us[k + 1..] == Seqs.Filter(us, p)
  {
    RemoveOnly(us, k, p);
  }

  /** Deleting the one row a selection rejects. */
  lemma {:induction false} RemoveOnly<T(!new)>(s: seq<T>, k: nat, p: T -> bool)
    requires k < |s|
    requires forall i :: 0 <= i < |s| ==> (p(s[i]) <==> i != k)
    ensures s[..k] + s[k + 1..] == Seqs.Filter(s, p)
  {
    var a, b := s[..k], s[k + 1..];
    assert s == a + [s[k]] + b;
    forall i | 0 <= i < |a|
      ensures p(a[i])
    {
      assert a[i] == s[i];
    }
    forall i | 0 <= i < |b|
      ensures p(b[i])
    {
      assert b[i] == s[k + 1 + i];
    }
    Seqs.FilterAll(a, p);
    Seqs.FilterAll(b, p);
    assert [s[k]][1..] == [];
    assert Seqs.Filter([s[k]], p) == [];
    Seqs.FilterConcat(a, [s[k]], p);
    assert Seqs.Filter(a + [s[k]], p) == a;
    Seqs.FilterConcat(a + [s[k]], b, p);
  }
}
