/**
 * The user-administration endpoints behind `require_role(['admin'])`:
 * create and update with their validation, delete and batch delete with
 * the self-deletion guard, password reset and forced logout. `current` is
 * the user the gate passed on.
 */
module UserRoutes {
  import opened Wrappers
  import opened Schema
  import opened ResultEnvelope
  import Users
  import Sessions
  import Seqs
  import Text
  import OperationLogs
  import Json

  // ---------------------------------------------------------------------
  // create_user
  // ---------------------------------------------------------------------

  /** The creation body; "" for a missing or empty text field, `None` for a missing role or status. */
  datatype UserInput = UserInput(
    username: string,
    password: string,
    realName: string,
    role: Option<LegacyRole>,
    email: string,
    phone: string,
    status: Option<bool>)

  /** The failed checks of a creation, in order; `None` when it goes through. */
  function CreateCheck(us: seq<User>, body: Option<UserInput>): (r: Option<Status>)
    ensures r.Some? ==> r.value.code == 400
    ensures r.None? <==>
      body.Some? && body.value.username != "" && body.value.password != "" && body.value.realName != "" &&
      body.value.role.Some? && FindUsername(us, body.value.username).None?
  {
    if body.None? || body.value.username == "" then Some(Status(400, "username不能为空"))
    else if body.value.password == "" then Some(Status(400, "password不能为空"))
    else if body.value.realName == "" then Some(Status(400, "real_name不能为空"))
    else if body.value.role.None? then Some(Status(400, "role不能为空"))
    else if FindUsername(us, body.value.username).Some? then Some(Status(400, "用户名已存在"))
    else None
  }

  /** The row a creation inserts: the requested role, enabled unless told otherwise, never logged in. */
  function NewUser(us: seq<User>, d: UserInput, hash: string -> string): (u: User)
    requires d.role.Some?
    ensures FindUser(us, u.id).None? && u.username == d.username && u.role == d.role.value
    ensures u.status == d.status.UnwrapOr(true) && u.roleId.None? && u.loginCount == 0
    ensures u.passwordHash == hash(d.password)
  {
    User(Users.NextUserId(us), d.username, hash(d.password), d.realName, d.email, d.phone,
         d.role.value, None, d.status.UnwrapOr(true), None, 0)
  }

  /** `POST /users`. */
  method CreateUser(db: Db, body: Option<UserInput>, hash: string -> string) returns (st: Status)
    modifies db
    ensures CreateCheck(old(db.users), body).Some? ==>
      st == CreateCheck(old(db.users), body).value && db.users == old(db.users)
    ensures CreateCheck(old(db.users), body).None? ==>
      st == Status(200, "用户创建成功") && db.users == old(db.users) + [NewUser(old(db.users), body.value, hash)]
    ensures UniqueUserIds(old(db.users)) ==> UniqueUserIds(db.users)
    ensures db.roles == old(db.roles) && db.permissions == old(db.permissions) && db.links == old(db.links)
    ensures db.menus == old(db.menus) && db.sessions == old(db.sessions)
  {
    var check := CreateCheck(db.users, body);
    if check.Some? {
      return check.value;
    }
    db.users := db.users + [NewUser(db.users, body.value, hash)];
    st := Status(200, "用户创建成功");
  }

  /** A second creation with a taken username is refused. */
  lemma CreateRejectsDuplicate(us: seq<User>, d: UserInput, e: UserInput, hash: string -> string)
    requires CreateCheck(us, Some(d)).None?
    requires e.username == d.username
    ensures CreateCheck(us + [NewUser(us, d, hash)], Some(e)).Some?
  {
    var us2 := us + [NewUser(us, d, hash)];
    assert us2[|us|].username == d.username;
  }

  // ---------------------------------------------------------------------
  // update_user
  // ---------------------------------------------------------------------

  /** The update body: `None` for an absent key; `other` when some other key is present. */
  datatype UserPatch = UserPatch(
    realName: Option<string>,
    email: Option<string>,
    phone: Option<string>,
    role: Option<LegacyRole>,
    roleId: Option<Option<nat>>,
    status: Option<bool>,
    other: bool)

  /** `not data`: no body, or an empty object. */
  predicate NoData(body: Option<UserPatch>)
  {
    body.None? ||
    (body.value.realName.None? && body.value.email.None? && body.value.phone.None? && body.value.role.None? &&
     body.value.roleId.None? && body.value.status.None? && !body.value.other)
  }

  /** The row with the present fields overwritten. */
  function Patched(u: User, p: UserPatch): (v: User)
    ensures v.realName == p.realName.UnwrapOr(u.realName) && v.email == p.email.UnwrapOr(u.email)
    ensures v.phone == p.phone.UnwrapOr(u.phone) && v.role == p.role.UnwrapOr(u.role)
    ensures v.roleId == p.roleId.UnwrapOr(u.roleId) && v.status == p.status.UnwrapOr(u.status)
    ensures v.id == u.id && v.username == u.username && v.passwordHash == u.passwordHash
    ensures v.lastLogin == u.lastLogin && v.loginCount == u.loginCount
  {
    u.(realName := p.realName.UnwrapOr(u.realName), email := p.email.UnwrapOr(u.email),
       phone := p.phone.UnwrapOr(u.phone), role := p.role.UnwrapOr(u.role),
       roleId := p.roleId.UnwrapOr(u.roleId), status := p.status.UnwrapOr(u.status))
  }

  /** A patch without a key leaves the row as it was. */
  lemma PatchOnlyPresent(u: User, p: UserPatch)
    requires p.realName.None? && p.email.None? && p.phone.None? && p.role.None? && p.roleId.None? && p.status.None?
    ensures Patched(u, p) == u
  {
  }

  /** `PUT /users/<id>`: 404 before the body is looked at, then 400 for an empty body. */
  method UpdateUser(db: Db, id: nat, body: Option<UserPatch>) returns (st: Status)
    modifies db
    ensures FindUser(old(db.users), id).None? ==> st == Status(404, "用户不存在") && db.users == old(db.users)
    ensures FindUser(old(db.users), id).Some? && NoData(body) ==>
      st == Status(400, "请提供更新数据") && db.users == old(db.users)
    ensures FindUser(old(db.users), id).Some? && !NoData(body) ==>
      var k := FindUser(old(db.users), id).value;
      st == Status(200, "用户更新成功") && db.users == old(db.users)[k := Patched(old(db.users)[k], body.value)]
    ensures db.roles == old(db.roles) && db.permissions == old(db.permissions) && db.links == old(db.links)
    ensures db.menus == old(db.menus) && db.sessions == old(db.sessions)
  {
    var k := FindUser(db.users, id);
    if k.None? {
      return Status(404, "用户不存在");
    }
    if NoData(body) {
      return Status(400, "请提供更新数据");
    }
    db.users := db.users[k.value := Patched(db.users[k.value], body.value)];
    st := Status(200, "用户更新成功");
  }

  /**
   * The update route does not consult `can_edit_user`: an admin's update
   * of another admin goes through although the model method forbids it.
   */
  lemma UpdateIgnoresCanEdit(actor: User, target: User, p: UserPatch)
    requires actor.role == Admin && target.role == Admin && actor.id != target.id
    ensures !Users.CanEditUser(actor, target)
    ensures Patched(target, p).id == target.id
  {
  }

  // ---------------------------------------------------------------------
  // delete_user and batch_delete_users
  // ---------------------------------------------------------------------

  /** `DELETE /users/<id>` by `current`. */
  method DeleteUserRoute(db: Db, current: User, id: nat) returns (st: Status)
    modifies db
    ensures FindUser(old(db.users), id).None? ==>
      st == Status(404, "用户不存在") && db.users == old(db.users) && db.sessions == old(db.sessions)
    ensures FindUser(old(db.users), id).Some? && id == current.id ==>
      st == Status(400, "不能删除自己") && db.users == old(db.users) && db.sessions == old(db.sessions)
    ensures FindUser(old(db.users), id).Some? && id != current.id ==>
      var k := FindUser(old(db.users), id).value;
      st == Status(200, "用户删除成功") && db.users == old(db.users)[..k] + old(db.users)[k + 1..] &&
      db.sessions == Users.WithoutUserSessions(old(db.sessions), id)
    ensures db.roles == old(db.roles) && db.permissions == old(db.permissions) && db.links == old(db.links)
    ensures db.menus == old(db.menus)
  {
    var k := FindUser(db.users, id);
    if k.None? {
      return Status(404, "用户不存在");
    }
    if db.users[k.value].id == current.id {
      return Status(400, "不能删除自己");
    }
    Users.DeleteUser(db, k.value);
    st := Status(200, "用户删除成功");
  }

  /** The rows whose id is not among `ids`. */
  function Survivors(us: seq<User>, ids: seq<nat>): (r: seq<User>)
    ensures forall u :: u in r <==> u in us && u.id !in ids
  {
    Seqs.Filter(us, (u: User) => u.id !in ids)
  }

  /** The sessions that survive deleting the users of `us0` whose id is among `ids`. */
  function SurvivingSessions(ss: seq<Session>, us0: seq<User>, ids: seq<nat>): (r: seq<Session>)
    ensures forall s :: s in r <==> s in ss && !(s.userId in ids && FindUser(us0, s.userId).Some?)
  {
    Seqs.Filter(ss, (s: Session) => !(s.userId in ids && FindUser(us0, s.userId).Some?))
  }

  /** The loop state after handling the first `i` ids. */
  ghost predicate DeletedSoFar(us0: seq<User>, ss0: seq<Session>, ids: seq<nat>, i: nat,
                               us: seq<User>, ss: seq<Session>, n: nat)
  {
    i <= |ids| && UniqueUserIds(us0) &&
    us == Survivors(us0, ids[..i]) && ss == SurvivingSessions(ss0, us0, ids[..i]) && n + |us| == |us0|
  }

  lemma DeletedStart(us0: seq<User>, ss0: seq<Session>, ids: seq<nat>)
    requires UniqueUserIds(us0)
    ensures DeletedSoFar(us0, ss0, ids, 0, us0, ss0, 0)
  {
    assert ids[..0] == [];
    Seqs.FilterAll(us0, (u: User) => u.id !in ids[..0]);
    Seqs.FilterAll(ss0, (s: Session) => !(s.userId in ids[..0] && FindUser(us0, s.userId).Some?));
  }

  /** Handling one more id: its row, when still present, goes with its sessions and is counted. */
  lemma DeletedFound(us0: seq<User>, ss0: seq<Session>, ids: seq<nat>, i: nat, us: seq<User>, ss: seq<Session>,
                     n: nat, k: nat)
    requires DeletedSoFar(us0, ss0, ids, i, us, ss, n) && i < |ids|
    requires k < |us| && us[k].id == ids[i]
    ensures DeletedSoFar(us0, ss0, ids, i + 1, us[..k] + us[k + 1..], Users.WithoutUserSessions(ss, ids[i]), n + 1)
  {
    var x := ids[i];
    var P := ids[..i];
    var P2 := ids[..i + 1];
    assert P2 == P + [x];
    var pu := (u: User) => u.id !in P;
    var q := (u: User) => u.id != x;
    Seqs.FilterFilter(us0, pu, q, (u: User) => u.id !in P2);
    assert us[k] in us0;
    Users.FilterUniqueIds(us0, pu);
    Users.RemoveIsFilter(us, k, q);
    assert FindUser(us0, x).Some?;
    Seqs.FilterFilter(ss0, (s: Session) => !(s.userId in P && FindUser(us0, s.userId).Some?), (s: Session) => s.userId != x,
      (s: Session) => !(s.userId in P2 && FindUser(us0, s.userId).Some?));
  }

  lemma DeletedMissing(us0: seq<User>, ss0: seq<Session>, ids: seq<nat>, i: nat, us: seq<User>, ss: seq<Session>, n: nat)
    requires DeletedSoFar(us0, ss0, ids, i, us, ss, n) && i < |ids|
    requires FindUser(us, ids[i]).None?
    ensures DeletedSoFar(us0, ss0, ids, i + 1, us, ss, n)
  {
    var x := ids[i];
    var P := ids[..i];
    var P2 := ids[..i + 1];
    assert P2 == P + [x];
    var q := (u: User) => u.id != x;
    Seqs.FilterFilter(us0, (u: User) => u.id !in P, q, (u: User) => u.id !in P2);
    Seqs.FilterAll(us, q);
    if x !in P {
      forall j | 0 <= j < |us0|
        ensures us0[j].id != x
      {
        assert us0[j] in us0;
      }
    }
    Seqs.FilterExt(ss0, (s: Session) => !(s.userId in P && FindUser(us0, s.userId).Some?),
      (s: Session) => !(s.userId in P2 && FindUser(us0, s.userId).Some?));
  }

  /** The message of a finished batch delete. */
  function BatchDeleteMessage(n: nat): string
  {
    "批量删除成功，共删除 " + Text.NatToString(n) + " 个用户"
  }

  /**
   * `POST /users/batch-delete` by `current`: refused as a whole when the
   * list is empty or holds the caller's id; otherwise every listed user
   * that exists is deleted with its sessions, and counted once.
   */
  method BatchDeleteUsers(db: Db, current: User, body: Option<seq<nat>>) returns (st: Status, deleted: nat)
    requires UniqueUserIds(db.users)
    modifies db
    ensures body.None? ==> st == Status(500, "批量删除失败: ") && deleted == 0
    ensures body == Some([]) ==> st == Status(400, "请选择要删除的用户") && deleted == 0
    ensures body.Some? && body.value != [] && current.id in body.value ==>
      st == Status(400, "不能删除自己") && deleted == 0
    ensures body.None? || body.value == [] || current.id in body.value ==>
      db.users == old(db.users) && db.sessions == old(db.sessions)
    ensures body.Some? && body.value != [] && current.id !in body.value ==>
      st == Status(200, BatchDeleteMessage(deleted)) &&
      db.users == Survivors(old(db.users), body.value) &&
      db.sessions == SurvivingSessions(old(db.sessions), old(db.users), body.value) &&
      deleted == |old(db.users)| - |db.users|
    ensures db.roles == old(db.roles) && db.permissions == old(db.permissions) && db.links == old(db.links)
    ensures db.menus == old(db.menus)
  {
    deleted := 0;
    if body.None? {
      return Status(500, "批量删除失败: "), 0;
    }
    var ids := body.value;
    if ids == [] {
      return Status(400, "请选择要删除的用户"), 0;
    }
    if current.id in ids {
      return Status(400, "不能删除自己"), 0;
    }
    deleted := DeleteListed(db, ids);
    st := Status(200, BatchDeleteMessage(deleted));
  }

  /**
   * `batch_delete_users` as written: its log call passes `action_type`,
   * which `create_log` does not declare, so once the listed users are
   * deleted the reply is the route's 500.
   */
  method BatchDeleteUsersAsWritten(db: Db, current: User, body: Option<seq<nat>>) returns (st: Status, deleted: nat)
    requires UniqueUserIds(db.users)
    modifies db
    ensures body.None? ==> st == Status(500, "批量删除失败: ")
    ensures body == Some([]) ==> st == Status(400, "请选择要删除的用户")
    ensures body.Some? && body.value != [] && current.id in body.value ==> st == Status(400, "不能删除自己")
    ensures body.None? || body.value == [] || current.id in body.value ==>
      db.users == old(db.users) && db.sessions == old(db.sessions)
    ensures body.Some? && body.value != [] && current.id !in body.value ==>
      st == Status(500, "批量删除失败: " + OperationLogs.Refusal) &&
      db.users == Survivors(old(db.users), body.value) &&
      db.sessions == SurvivingSessions(old(db.sessions), old(db.users), body.value)
    ensures db.roles == old(db.roles) && db.permissions == old(db.permissions) && db.links == old(db.links)
    ensures db.menus == old(db.menus)
  {
    st, deleted := BatchDeleteUsers(db, current, body);
    if st.code == 200 {
      OperationLogs.RouteCallsRefused(st, "批量删除失败: ");
      st := OperationLogs.AfterLog(st, OperationLogs.BatchKeywords, "批量删除失败: ");
    }
  }

  /** The delete loop: each listed user that still exists goes, with its sessions, and is counted. */
  method DeleteListed(db: Db, ids: seq<nat>) returns (deleted: nat)
    requires UniqueUserIds(db.users)
    modifies db
    ensures db.users == Survivors(old(db.users), ids)
    ensures db.sessions == SurvivingSessions(old(db.sessions), old(db.users), ids)
    ensures deleted == |old(db.users)| - |db.users|
    ensures db.roles == old(db.roles) && db.permissions == old(db.permissions) && db.links == old(db.links)
    ensures db.menus == old(db.menus)
  {
    deleted := 0;
    ghost var us0, ss0 := db.users, db.sessions;
    DeletedStart(us0, ss0, ids);
    var i := 0;
    while i < |ids|
      invariant DeletedSoFar(us0, ss0, ids, i, db.users, db.sessions, deleted)
      invariant db.roles == old(db.roles) && db.permissions == old(db.permissions) && db.links == old(db.links)
      invariant db.menus == old(db.menus)
    {
      deleted := DeleteNext(db, us0, ss0, ids, i, deleted);
      i := i + 1;
    }
    assert ids[..i] == ids;
  }

  /** One pass of the delete loop: the next listed user goes if it still exists. */
  method DeleteNext(db: Db, ghost us0: seq<User>, ghost ss0: seq<Session>, ids: seq<nat>, i: nat, n: nat)
    returns (n2: nat)
    requires DeletedSoFar(us0, ss0, ids, i, db.users, db.sessions, n) && i < |ids|
    modifies db
    ensures DeletedSoFar(us0, ss0, ids, i + 1, db.users, db.sessions, n2)
    ensures db.roles == old(db.roles) && db.permissions == old(db.permissions) && db.links == old(db.links)
    ensures db.menus == old(db.menus)
  {
    n2 := n;
    var k := FindUser(db.users, ids[i]);
    if k.Some? {
      DeletedFound(us0, ss0, ids, i, db.users, db.sessions, n, k.value);
      Users.DeleteUser(db, k.value);
      n2 := n + 1;
    } else {
      DeletedMissing(us0, ss0, ids, i, db.users, db.sessions, n);
    }
  }

  /**
   * The batch count is the number of table rows whose id was listed: each
   * existing user counts once, however often its id repeats, and unknown
   * ids count nothing.
   */
  lemma BatchDeleteCount(us: seq<User>, ids: seq<nat>)
    ensures |us| - |Survivors(us, ids)| == |Seqs.Filter(us, (u: User) => u.id in ids)|
    ensures forall u :: u in us && u.id in ids ==> u !in Survivors(us, ids)
  {
    Seqs.FilterComplement(us, (u: User) => u.id in ids, (u: User) => u.id !in ids);
  }

  // ---------------------------------------------------------------------
  // reset_password and force_logout_user
  // ---------------------------------------------------------------------

  const DefaultPassword: string := "123456"

  /**
   * The password `data.get('new_password', '123456')` hands to
   * `generate_password_hash`: the default without the key and the text of
   * a JSON string; for any other value, `null` included, the hash raises,
   * which is `None` here.
   */
  function NewPassword(key: Option<Json.Json>): (r: Option<string>)
    ensures r.Some? <==> key.None? || key.value.Str?
    ensures key.None? ==> r == Some(DefaultPassword)
    ensures key.Some? && key.value.Str? ==> r == Some(key.value.s)
  {
    match key
    case None => Some(DefaultPassword)
    case Some(Str(s)) => Some(s)
    case Some(_) => None
  }

  /**
   * `POST /users/<id>/reset-password`; `body` is `None` without a JSON
   * body (the handler then fails reading it), otherwise the value of the
   * `new_password` key, if the key is present.
   */
  method ResetPassword(db: Db, id: nat, body: Option<Option<Json.Json>>, hash: string -> string) returns (st: Status)
    modifies db
    ensures FindUser(old(db.users), id).None? ==> st == Status(404, "用户不存在") && db.users == old(db.users)
    ensures FindUser(old(db.users), id).Some? && (body.None? || NewPassword(body.value).None?) ==>
      st == Status(500, "密码重置失败: ") && db.users == old(db.users)
    ensures FindUser(old(db.users), id).Some? && body.Some? && NewPassword(body.value).Some? ==>
      var k := FindUser(old(db.users), id).value;
      st == Status(200, "密码重置成功") &&
      db.users == old(db.users)[k := old(db.users)[k].(passwordHash := hash(NewPassword(body.value).value))]
    ensures db.roles == old(db.roles) && db.permissions == old(db.permissions) && db.links == old(db.links)
    ensures db.menus == old(db.menus) && db.sessions == old(db.sessions)
  {
    var k := FindUser(db.users, id);
    if k.None? {
      return Status(404, "用户不存在");
    }

    if body.None? || NewPassword(body.value).None? {
      return Status(500, "密码重置失败: ");
    }
    var pw := NewPassword(body.value).value;
    db.users := db.users[k.value := db.users[k.value].(passwordHash := hash(pw))];
    st := Status(200, "密码重置成功");
  }

  /** A `null` password is refused with the 500 and leaves the user's hash as it was. */
  lemma NullPasswordRefused()
    ensures NewPassword(Some(Json.Null)).None?
    ensures NewPassword(None) == Some("123456")
  {
  }

  /** `POST /users/<id>/force-logout`: every active session of the user is invalidated and counted. */
  method ForceLogout(db: Db, id: nat) returns (st: Status, count: nat)
    modifies db
    ensures FindUser(old(db.users), id).None? ==>
      st == Status(404, "用户不存在") && count == 0 && db.sessions == old(db.sessions)
    ensures FindUser(old(db.users), id).Some? ==>
      count == Sessions.SelectedCount(old(db.sessions), id, "") &&
      st == Status(200, "已强制用户下线，终止了 " + Text.NatToString(count) + " 个会话") &&
      |db.sessions| == |old(db.sessions)| &&
      forall i :: 0 <= i < |db.sessions| ==> db.sessions[i] == Sessions.Deactivated(old(db.sessions)[i], id, "")
    ensures db.users == old(db.users) && db.roles == old(db.roles) && db.permissions == old(db.permissions)
    ensures db.links == old(db.links) && db.menus == old(db.menus)
  {
    count := 0;
    if FindUser(db.users, id).None? {
      return Status(404, "用户不存在"), 0;
    }
    count := Sessions.InvalidateUserSessions(db, id, "");
    st := Status(200, "已强制用户下线，终止了 " + Text.NatToString(count) + " 个会话");
  }

  /**
   * `force_logout_user` as written: its log call passes `action_type`,
   * `target_type` and `target_id`, which `create_log` does not declare, so
   * once the sessions are invalidated the reply is the route's 500.
   */
  method ForceLogoutAsWritten(db: Db, id: nat) returns (st: Status)
    modifies db
    ensures FindUser(old(db.users), id).None? ==> st == Status(404, "用户不存在") && db.sessions == old(db.sessions)
    ensures FindUser(old(db.users), id).Some? ==>
      st == Status(500, "强制下线失败: " + OperationLogs.Refusal) &&
      |db.sessions| == |old(db.sessions)| &&
      forall i :: 0 <= i < |db.sessions| ==> db.sessions[i] == Sessions.Deactivated(old(db.sessions)[i], id, "")
    ensures db.users == old(db.users) && db.roles == old(db.roles) && db.permissions == old(db.permissions)
    ensures db.links == old(db.links) && db.menus == old(db.menus)
  {
    var count;
    st, count := ForceLogout(db, id);
    if st.code == 200 {
      OperationLogs.RouteCallsRefused(st, "强制下线失败: ");
      st := OperationLogs.AfterLog(st, OperationLogs.TargetKeywords, "强制下线失败: ");
    }
  }

  /** After a forced logout none of the user's sessions is live, at any time. */
  lemma ForcedOut(ss: seq<Session>, ss2: seq<Session>, id: nat, now: int)
    requires |ss2| == |ss| && forall i :: 0 <= i < |ss| ==> ss2[i] == Sessions.Deactivated(ss[i], id, "")
    ensures forall i :: 0 <= i < |ss2| && ss2[i].userId == id ==> !Sessions.IsLive(ss2[i], now)
  {
    Sessions.InvalidateEffect(ss, ss2, id, "");
  }
}
