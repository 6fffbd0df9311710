/**
 * The authentication endpoints: login (ordered failure checks, then the
 * login bookkeeping, a new session and the token claims), logout, the
 * password change, the token check that also consults the session, ending
 * one's own session, the expired-session sweep and self-registration.
 * Password hashing and checking are the oracles `hash` and `checks`;
 * signing and decoding tokens is the oracle `decode` of the gate.
 */
module AuthRoutes {
  import opened Wrappers
  import opened Json
  import opened Schema
  import opened ResultEnvelope
  import Users
  import Sessions
  import Gate
  import Text

  /** Lifetime of a token and of the session created with it. */
  const TokenHours: int := 24

  // ---------------------------------------------------------------------
  // login
  // ---------------------------------------------------------------------

  /** The login body; "" stands for a missing or empty field. */
  datatype Credentials = Credentials(username: string, password: string)

  /** The claims of the token a successful login signs. */
  datatype TokenClaims = TokenClaims(userId: nat, username: string, role: LegacyRole, sessionId: string, exp: int)

  /** The enum text of a legacy role. */
  function RoleText(r: LegacyRole): (t: string)
    ensures t in {"admin", "operator", "viewer"}
  {
    match r
    case Admin => "admin"
    case Operator => "operator"
    case Viewer => "viewer"
  }

  /** The payload as signed: exactly the five claims. */
  function ClaimsMap(c: TokenClaims): (m: map<string, Json>)
    ensures m.Keys == {"user_id", "username", "role", "session_id", "exp"}
    ensures Gate.ClaimedUser(m) == Some(c.userId)
    ensures m["session_id"] == Str(c.sessionId)
  {
    map["user_id" := Num(c.userId), "username" := Str(c.username), "role" := Str(RoleText(c.role)),
        "session_id" := Str(c.sessionId), "exp" := Num(c.exp)]
  }

  /** The failed checks of a login, in the order the handler makes them; `None` when the login goes through. */
  function LoginCheck(us: seq<User>, body: Option<Credentials>, checks: (string, string) -> bool): (r: Option<Status>)
    ensures r == Some(Status(400, "用户名和密码不能为空")) <==>
      body.None? || body.value.username == "" || body.value.password == ""
    ensures r == Some(Status(404, "用户不存在")) <==>
      body.Some? && body.value.username != "" && body.value.password != "" &&
      FindUsername(us, body.value.username).None?
    ensures r == Some(Status(403, "账户已被禁用")) <==>
      body.Some? && body.value.username != "" && body.value.password != "" &&
      FindUsername(us, body.value.username).Some? && !us[FindUsername(us, body.value.username).value].status
    ensures r == Some(Status(401, "密码错误")) <==>
      body.Some? && body.value.username != "" && body.value.password != "" &&
      FindUsername(us, body.value.username).Some? && us[FindUsername(us, body.value.username).value].status &&
      !checks(us[FindUsername(us, body.value.username).value].passwordHash, body.value.password)
    ensures r.None? || r.value.code in {400, 404, 403, 401}
  {
    if body.None? || body.value.username == "" || body.value.password == "" then
      Some(Status(400, "用户名和密码不能为空"))
    else match FindUsername(us, body.value.username)
      case None => Some(Status(404, "用户不存在"))
      case Some(k) =>
        if !us[k].status then Some(Status(403, "账户已被禁用"))
        else if !checks(us[k].passwordHash, body.value.password) then Some(Status(401, "密码错误"))
        else None
  }

  /**
   * A login that passes every check is exactly one that `User.authenticate`
   * accepts: the route and the model method agree on who may log in.
   */
  lemma LoginAgreesWithAuthenticate(us: seq<User>, c: Credentials, checks: (string, string) -> bool)
    requires c.username != "" && c.password != ""
    ensures LoginCheck(us, Some(c), checks).None? <==>
      var k := FindUsername(us, c.username);
      k.Some? && us[k.value].status && checks(us[k.value].passwordHash, c.password)
  {
  }

  /**
   * `POST /login`: on success the user's login is recorded, one session
   * with id `sid` is created and the token claims are returned; on any
   * failure nothing changes.
   */
  method Login(db: Db, body: Option<Credentials>, checks: (string, string) -> bool,
               sid: string, ip: string, agent: string, now: int)
    returns (st: Status, claims: Option<TokenClaims>)
    modifies db
    ensures LoginCheck(old(db.users), body, checks).Some? ==>
      st == LoginCheck(old(db.users), body, checks).value && claims.None? &&
      db.users == old(db.users) && db.sessions == old(db.sessions)
    ensures LoginCheck(old(db.users), body, checks).None? ==>
      var k := FindUsername(old(db.users), body.value.username).value;
      var u := old(db.users)[k];
      st == Status(200, "登录成功") &&
      db.users == old(db.users)[k := Users.LoggedIn(u, now)] &&
      db.sessions == old(db.sessions) + [Sessions.NewSession(sid, u.id, ip, agent, TokenHours, now)] &&
      claims == Some(TokenClaims(u.id, u.username, u.role, sid, now + TokenHours * Sessions.SecondsPerHour))
    ensures db.roles == old(db.roles) && db.permissions == old(db.permissions) && db.links == old(db.links)
    ensures db.menus == old(db.menus)
  {
    var check := LoginCheck(db.users, body, checks);
    if check.Some? {
      return check.value, None;
    }
    var k := FindUsername(db.users, body.value.username).value;
    var u := db.users[k];
    Users.UpdateLoginInfo(db, k, now);
    var s := Sessions.CreateSession(db, sid, u.id, ip, agent, TokenHours, now);
    st := Status(200, "登录成功");
    claims := Some(TokenClaims(u.id, u.username, u.role, s.id, now + TokenHours * Sessions.SecondsPerHour));
  }

  /** A successful login raises the user's login count by exactly one and adds exactly one session. */
  lemma LoginCounts(us: seq<User>, ss: seq<Session>, k: nat, now: int, s: Session)
    requires k < |us|
    ensures var us2 := us[k := Users.LoggedIn(us[k], now)];
      us2[k].loginCount == us[k].loginCount + 1 && |us2| == |us| &&
      (forall i :: 0 <= i < |us| && i != k ==> us2[i] == us[i]) && |ss + [s]| == |ss| + 1
  {
  }

  // ---------------------------------------------------------------------
  // logout and password change
  // ---------------------------------------------------------------------

  /** `POST /logout`: only the audit log is written; no session is invalidated. */
  method Logout(db: Db) returns (st: Status)
    ensures st == Status(200, "登出成功")
    ensures unchanged(db)
  {
    st := Status(200, "登出成功");
  }

  /** The password-change body; "" for a missing field. */
  datatype PasswordChange = PasswordChange(oldPassword: string, newPassword: string)

  /** `POST /change-password` by the user at index `k`. */
  method ChangePassword(db: Db, k: nat, body: Option<PasswordChange>,
                        checks: (string, string) -> bool, hash: string -> string)
    returns (st: Status)
    requires k < |db.users|
    modifies db
    ensures body.None? || body.value.oldPassword == "" || body.value.newPassword == "" ==>
      st == Status(400, "旧密码和新密码不能为空") && db.users == old(db.users)
    ensures body.Some? && body.value.oldPassword != "" && body.value.newPassword != "" ==>
      if checks(old(db.users)[k].passwordHash, body.value.oldPassword) then
        st == Status(200, "密码修改成功") &&
        db.users == old(db.users)[k := old(db.users)[k].(passwordHash := hash(body.value.newPassword))]
      else
        st == Status(401, "旧密码错误") && db.users == old(db.users)
    ensures db.roles == old(db.roles) && db.permissions == old(db.permissions) && db.links == old(db.links)
    ensures db.menus == old(db.menus) && db.sessions == old(db.sessions)
  {
    if body.None? || body.value.oldPassword == "" || body.value.newPassword == "" {
      return Status(400, "旧密码和新密码不能为空");
    }
    if !checks(db.users[k].passwordHash, body.value.oldPassword) {
      return Status(401, "旧密码错误");
    }
    db.users := db.users[k := db.users[k].(passwordHash := hash(body.value.newPassword))];
    st := Status(200, "密码修改成功");
  }

  // ---------------------------------------------------------------------
  // verify-token
  // ---------------------------------------------------------------------

  /** `s.replace(pat, '')`: every non-overlapping occurrence, scanned from the left, removed. */
  function RemoveAll(s: string, pat: string): (r: string)
    requires pat != ""
    ensures |r| <= |s|
    decreases |s|
  {
    if |s| < |pat| then s
    else if s[..|pat|] == pat then RemoveAll(s[|pat|..], pat)
    else [s[0]] + RemoveAll(s[1..], pat)
  }

  /** Text without a space contains no "Bearer ", so nothing is removed from it. */
  lemma {:induction false} RemoveAllSpaceFree(t: string)
    requires ' ' !in t
    ensures RemoveAll(t, Gate.BearerPrefix) == t
    decreases |t|
  {
    if |t| >= |Gate.BearerPrefix| {
      assert t[..|Gate.BearerPrefix|][6] == t[6];
      RemoveAllSpaceFree(t[1..]);
      assert t == [t[0]] + t[1..];
    }
  }

  /** The token `verify-token` reads: the header with every "Bearer " removed. */
  function HeaderToken(header: Option<string>): (t: string)
  {
    RemoveAll(header.UnwrapOr(""), Gate.BearerPrefix)
  }

  /** A bearer header with a space-free token gives back that token. */
  lemma HeaderTokenRoundTrip(t: string)
    requires ' ' !in t
    ensures HeaderToken(Some(Gate.BearerPrefix + t)) == t
  {
    var h := Gate.BearerPrefix + t;
    assert h[..|Gate.BearerPrefix|] == Gate.BearerPrefix;
    assert h[|Gate.BearerPrefix|..] == t;
    RemoveAllSpaceFree(t);
  }

  /** The session a token's `session_id` claim names, when that claim is a text. */
  function ClaimedSession(claims: map<string, Json>): (r: Option<string>)
    ensures r.Some? <==> "session_id" in claims && claims["session_id"].Str?
    ensures r.Some? ==> r.value == claims["session_id"].s
  {
    if "session_id" in claims && claims["session_id"].Str? then Some(claims["session_id"].s) else None
  }

  /**
   * The outcome of `POST /verify-token` before any write: the failure, or
   * `None` when the token is accepted. A missing `user_id` claim raises,
   * and the handler answers with the error text (left out) after its prefix.
   */
  function VerifyCheck(us: seq<User>, ss: seq<Session>, token: string, decode: string -> Gate.Decoding, now: int)
    : (r: Option<Status>)
    ensures r.Some? ==> r.value.code == 401
    ensures token == "" ==> r == Some(Status(401, "Token不能为空"))
    ensures r.None? <==>
      token != "" && decode(token).Claims? && Gate.VerifyToken(token, decode, us).Some? &&
      ("session_id" in decode(token).claims ==>
        ClaimedSession(decode(token).claims).Some? &&
        Sessions.GetActiveSession(ss, ClaimedSession(decode(token).claims).value, now).Some?)
  {
    if token == "" then Some(Status(401, "Token不能为空"))
    else match decode(token)
      case ExpiredSignature => Some(Status(401, "Token已过期"))
      case InvalidToken => Some(Status(401, "Token无效"))
      case Claims(c) =>
        if "user_id" !in c then Some(Status(401, "Token验证失败: "))
        else if Gate.VerifyToken(token, decode, us).None? then Some(Status(401, "用户不存在或已被禁用"))
        else if "session_id" !in c then None
        else
          var sid := ClaimedSession(c);
          if sid.None? || Sessions.GetActiveSession(ss, sid.value, now).None? then Some(Status(401, "会话已过期"))
          else None
  }

  /**
   * `POST /verify-token`: the user must exist and be enabled, and a
   * claimed session must be live; the session's activity time is then
   * refreshed. A rejected token changes nothing.
   */
  method VerifyTokenRoute(db: Db, header: Option<string>, decode: string -> Gate.Decoding, now: int)
    returns (st: Status)
    modifies db
    ensures VerifyCheck(old(db.users), old(db.sessions), HeaderToken(header), decode, now).Some? ==>
      st == VerifyCheck(old(db.users), old(db.sessions), HeaderToken(header), decode, now).value &&
      db.sessions == old(db.sessions)
    ensures VerifyCheck(old(db.users), old(db.sessions), HeaderToken(header), decode, now).None? ==>
      var c := decode(HeaderToken(header)).claims;
      st == Status(200, "Token验证成功") &&
      ("session_id" !in c ==> db.sessions == old(db.sessions)) &&
      ("session_id" in c ==>
        var k := Sessions.GetActiveSession(old(db.sessions), ClaimedSession(c).value, now).value;
        db.sessions == old(db.sessions)[k := old(db.sessions)[k].(lastActivity := now)])
    ensures db.users == old(db.users) && db.roles == old(db.roles) && db.permissions == old(db.permissions)
    ensures db.links == old(db.links) && db.menus == old(db.menus)
  {
    var token := HeaderToken(header);
    var check := VerifyCheck(db.users, db.sessions, token, decode, now);
    if check.Some? {
      return check.value;
    }
    var c := decode(token).claims;
    if "session_id" in c {
      var k := Sessions.GetActiveSession(db.sessions, ClaimedSession(c).value, now).value;
      Sessions.UpdateActivity(db, k, now);
    }
    st := Status(200, "Token验证成功");
  }

  /**
   * The token check is stricter than the gate: what it accepts in a bearer
   * header is admitted by `require_auth`, and `verify_token` accepts it.
   */
  lemma VerifyImpliesGate(us: seq<User>, ss: seq<Session>, t: string, decode: string -> Gate.Decoding, now: int)
    requires ' ' !in t
    requires VerifyCheck(us, ss, HeaderToken(Some(Gate.BearerPrefix + t)), decode, now).None?
    ensures Gate.Authenticate(Some(Gate.BearerPrefix + t), decode, us).Admit?
    ensures Gate.VerifyToken(t, decode, us).Some?
  {
    HeaderTokenRoundTrip(t);
    Gate.VerifyTokenAgrees(t, decode, us);
  }

  /**
   * Only the token check consults the session: after the session a token
   * names is invalidated, `verify-token` rejects the token while the gate
   * still admits it.
   */
  lemma SessionCheckOnlyHere(us: seq<User>, ss: seq<Session>, t: string, decode: string -> Gate.Decoding,
                             now: int, roles: seq<Role>, perms: seq<Permission>, links: seq<Link>)
    requires ' ' !in t && t != ""
    requires decode(t).Claims? && Gate.VerifyToken(t, decode, us).Some?
    requires ClaimedSession(decode(t).claims).Some?
    requires FindSession(ss, ClaimedSession(decode(t).claims).value).Some?
    ensures var k := FindSession(ss, ClaimedSession(decode(t).claims).value).value;
      var ss2 := ss[k := ss[k].(isActive := false)];
      VerifyCheck(us, ss2, t, decode, now) == Some(Status(401, "会话已过期")) &&
      Gate.Check(Some(Gate.BearerPrefix + t), decode, us, roles, perms, links, Gate.AnyUser).Admit?
  {
    var sid := ClaimedSession(decode(t).claims).value;
    Sessions.InvalidatedNeverActive(ss, sid, now);
    Gate.VerifyTokenAgrees(t, decode, us);
  }

  /**
   * A token issued by a successful login passes `verify-token` at any time
   * up to its session's expiry, as long as the session was not ended and
   * the token still decodes to the claims it was signed with.
   */
  lemma LoginThenVerify(us: seq<User>, ss: seq<Session>, c: TokenClaims, t: string,
                        decode: string -> Gate.Decoding, login: int, now: int, ip: string, agent: string)
    requires t != "" && decode(t) == Gate.Claims(ClaimsMap(c))
    requires FindUser(us, c.userId).Some? && us[FindUser(us, c.userId).value].status
    requires FindSession(ss, c.sessionId).None?
    requires login <= now <= login + TokenHours * Sessions.SecondsPerHour
    ensures VerifyCheck(us, ss + [Sessions.NewSession(c.sessionId, c.userId, ip, agent, TokenHours, login)], t, decode, now).None?
  {
    var s := Sessions.NewSession(c.sessionId, c.userId, ip, agent, TokenHours, login);
    var ss2 := ss + [s];
    FindSessionAppended(ss, s);
  }

  /** A session appended under a fresh id is found at the end. */
  lemma {:induction false} FindSessionAppended(ss: seq<Session>, s: Session)
    requires FindSession(ss, s.id).None?
    ensures FindSession(ss + [s], s.id) == Some(|ss|)
  {
    if ss != [] {
      assert (ss + [s])[1..] == ss[1..] + [s];
      FindSessionAppended(ss[1..], s);
    }
  }

  // ---------------------------------------------------------------------
  // sessions of the current user
  // ---------------------------------------------------------------------

  /** `DELETE /sessions/<id>` by `current`: only the owner may end a session. */
  method TerminateSession(db: Db, current: User, sid: string) returns (st: Status)
    modifies db
    ensures var k := FindSession(old(db.sessions), sid);
      if k.Some? && old(db.sessions)[k.value].userId == current.id then
        st == Status(200, "会话已终止") &&
        db.sessions == old(db.sessions)[k.value := old(db.sessions)[k.value].(isActive := false)]
      else
        st == Status(404, "会话不存在或无权限") && db.sessions == old(db.sessions)
    ensures db.users == old(db.users) && db.roles == old(db.roles) && db.permissions == old(db.permissions)
    ensures db.links == old(db.links) && db.menus == old(db.menus)
  {
    var k := FindSession(db.sessions, sid);
    if k.None? || db.sessions[k.value].userId != current.id {
      return Status(404, "会话不存在或无权限");
    }
    Sessions.Invalidate(db, k.value);
    st := Status(200, "会话已终止");
  }

  /**
   * Whatever `current` asks, the sessions of other users keep their state:
   * ending a session changes at most one row, and only one of the caller's.
   */
  lemma TerminateOnlyOwn(ss: seq<Session>, current: User, sid: string)
    ensures var k := FindSession(ss, sid);
      k.Some? && ss[k.value].userId == current.id ==>
      var ss2 := ss[k.value := ss[k.value].(isActive := false)];
      forall i :: 0 <= i < |ss| && ss[i].userId != current.id ==> ss2[i] == ss[i]
  {
  }

  /** `POST /sessions/cleanup`: the sweep, reporting its count. */
  method CleanupRoute(db: Db, now: int) returns (st: Status, count: nat)
    modifies db
    ensures count == Sessions.ExpiredCount(old(db.sessions), now)
    ensures db.sessions == Sessions.Unexpired(old(db.sessions), now)
    ensures st == Status(200, "已清理 " + Text.NatToString(count) + " 个过期会话")
    ensures db.users == old(db.users) && db.roles == old(db.roles) && db.permissions == old(db.permissions)
    ensures db.links == old(db.links) && db.menus == old(db.menus)
  {
    count := Sessions.CleanupExpiredSessions(db, now);
    st := Status(200, "已清理 " + Text.NatToString(count) + " 个过期会话");
  }

  // ---------------------------------------------------------------------
  // register
  // ---------------------------------------------------------------------

  /** The registration body; "" for a missing or empty field. */
  datatype Registration = Registration(username: string, password: string, realName: string, email: string, phone: string)

  /** The failed checks of a registration, in order; `None` when it goes through. */
  function RegisterCheck(us: seq<User>, body: Option<Registration>): (r: Option<Status>)
    ensures r.Some? ==> r.value.code == 400
    ensures r.None? <==>
      body.Some? && body.value.username != "" && body.value.password != "" && body.value.realName != "" &&
      body.value.email != "" && FindUsername(us, body.value.username).None? &&
      Users.FindEmail(us, body.value.email).None?
    ensures (body.Some? && body.value.username != "" && body.value.password != "" && body.value.realName != "" &&
             body.value.email != "" && FindUsername(us, body.value.username).Some?) ==>
      r == Some(Status(400, "用户名已存在"))
  {
    if body.None? || body.value.username == "" then Some(Status(400, "username不能为空"))
    else if body.value.password == "" then Some(Status(400, "password不能为空"))
    else if body.value.realName == "" then Some(Status(400, "real_name不能为空"))
    else if body.value.email == "" then Some(Status(400, "email不能为空"))
    else if FindUsername(us, body.value.username).Some? then Some(Status(400, "用户名已存在"))
    else if Users.FindEmail(us, body.value.email).Some? then Some(Status(400, "邮箱已存在"))
    else None
  }

  /** The row a registration inserts: a viewer, enabled, with no RBAC role and no login yet. */
  function Registered(us: seq<User>, d: Registration, hash: string -> string): (u: User)
    ensures u.role == Viewer && u.roleId.None? && u.status && u.loginCount == 0 && u.lastLogin.None?
    ensures FindUser(us, u.id).None? && u.username == d.username && u.email == d.email
    ensures u.passwordHash == hash(d.password)
  {
    User(Users.NextUserId(us), d.username, hash(d.password), d.realName, d.email, d.phone, Viewer, None, true, None, 0)
  }

  /** `POST /register`. */
  method Register(db: Db, body: Option<Registration>, hash: string -> string) returns (st: Status)
    modifies db
    ensures RegisterCheck(old(db.users), body).Some? ==>
      st == RegisterCheck(old(db.users), body).value && db.users == old(db.users)
    ensures RegisterCheck(old(db.users), body).None? ==>
      st == Status(200, "注册成功") && db.users == old(db.users) + [Registered(old(db.users), body.value, hash)]
    ensures UniqueUserIds(old(db.users)) ==> UniqueUserIds(db.users)
    ensures db.roles == old(db.roles) && db.permissions == old(db.permissions) && db.links == old(db.links)
    ensures db.menus == old(db.menus) && db.sessions == old(db.sessions)
  {
    var check := RegisterCheck(db.users, body);
    if check.Some? {
      return check.value;
    }
    var u := Registered(db.users, body.value, hash);
    db.users := db.users + [u];
    st := Status(200, "注册成功");
  }

  /**
   * A registered user holds only the legacy viewer permission "read",
   * whatever roles and permissions exist, since no RBAC role is set.
   */
  lemma RegisteredReadsOnly(us: seq<User>, d: Registration, hash: string -> string,
                            roles: seq<Role>, perms: seq<Permission>, links: seq<Link>)
    ensures Users.GetPermissions(Registered(us, d, hash), roles, perms, links) == ["read"]
  {
  }

  /** Registering the same username or address twice is refused the second time. */
  lemma RegisterRejectsDuplicate(us: seq<User>, d: Registration, e: Registration, hash: string -> string)
    requires RegisterCheck(us, Some(d)).None?
    requires e.username != "" && e.password != "" && e.realName != "" && e.email != ""
    requires e.username == d.username || e.email == d.email
    ensures RegisterCheck(us + [Registered(us, d, hash)], Some(e)).Some?
  {
    var us2 := us + [Registered(us, d, hash)];
    assert us2[|us|] == Registered(us, d, hash);
  }
}
