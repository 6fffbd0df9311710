/**
 * The request gate in front of the protected routes: the `require_auth`,
 * `require_role` and `require_permission` decorators and the standalone
 * `verify_token`. Each is a chain of early returns over the bearer token,
 * its decoding, the user it names and, for the last two, the user's status
 * and role or permission. Token decoding (a signed JWT with an `exp`
 * claim) is an oracle `decode` returning the claims, an expiry, or any
 * other failure.
 */
module Gate {
  import opened Wrappers
  import opened Json
  import opened Schema
  import opened ResultEnvelope
  import Text
  import Users

  const BearerPrefix: string := "Bearer "

  /**
   * The token of the `Authorization` header: the text after "Bearer " up
   * to the next space, or "" when the header is missing or has another
   * scheme.
   */
  function BearerToken(header: Option<string>): (t: string)
    ensures ' ' !in t
    ensures header.None? || !(BearerPrefix <= header.value) ==> t == ""
    ensures t != "" ==> header.Some? && BearerPrefix <= header.value && t <= header.value[|BearerPrefix|..]
  {
    if header.Some? && BearerPrefix <= header.value then
      var rest := header.value[|BearerPrefix|..];
      rest[..Text.FirstIndex(rest, ' ')]
    else ""
  }

  /** The token is the second piece of the header split at spaces, as `split(' ')[1]` takes it. */
  lemma BearerTokenIsSecondPiece(h: string)
    requires BearerPrefix <= h
    ensures |Text.Split(h, ' ')| >= 2 && BearerToken(Some(h)) == Text.Split(h, ' ')[1]
  {
    var rest := h[|BearerPrefix|..];
    assert h == "Bearer" + [' '] + rest;
    Text.FirstIndexAfter("Bearer", ' ', rest);
    assert h[..6] == "Bearer" && h[7..] == rest;
    var tail := Text.Split(rest, ' ');
    assert Text.Split(h, ' ') == [h[..6]] + tail;
    var i := Text.FirstIndex(rest, ' ');
    assert tail[0] == rest[..i] by {
      if i < |rest| {
        assert tail == [rest[..i]] + Text.Split(rest[i + 1..], ' ');
      }
    }
  }

  /** A header carrying a non-empty, space-free token yields that token back. */
  lemma BearerRoundTrip(t: string)
    requires t != "" && ' ' !in t
    ensures BearerToken(Some(BearerPrefix + t)) == t
  {
    var h := BearerPrefix + t;
    assert h[|BearerPrefix|..] == t;
    assert BearerPrefix <= h;
  }

  /** What decoding a token gives: its claims, `ExpiredSignatureError`, or any other failure. */
  datatype Decoding = Claims(claims: map<string, Json>) | ExpiredSignature | InvalidToken

  /** The `user_id` claim as a row key; a missing or non-integer claim names no user. */
  function ClaimedUser(claims: map<string, Json>): (r: Option<nat>)
    ensures r.Some? <==> "user_id" in claims && claims["user_id"].Num? && claims["user_id"].n >= 0
    ensures r.Some? ==> r.value == claims["user_id"].n
  {
    if "user_id" in claims && claims["user_id"].Num? && claims["user_id"].n >= 0
    then Some(claims["user_id"].n as nat) else None
  }

  /** The check a decorator adds after authentication. */
  datatype Guard = AnyUser | RoleIn(allowed: seq<LegacyRole>) | HasCode(code: string)

  /** Either the request reaches the handler with the current user, or it is answered here. */
  datatype Outcome = Admit(user: User) | Deny(status: Status)

  /**
   * The checks all three decorators share, which are the whole of
   * `require_auth`: a token is present, it decodes, and its user exists.
   */
  function Authenticate(header: Option<string>, decode: string -> Decoding, us: seq<User>): (r: Outcome)
    ensures r.Deny? ==> r.status.code == 401
    ensures BearerToken(header) == "" <==> r == Deny(Status(401, "缺少Token"))
    ensures BearerToken(header) != "" && decode(BearerToken(header)) == ExpiredSignature ==>
      r == Deny(Status(401, "Token已过期"))
    ensures r.Admit? <==>
      BearerToken(header) != "" && decode(BearerToken(header)).Claims? &&
      ClaimedUser(decode(BearerToken(header)).claims).Some? &&
      FindUser(us, ClaimedUser(decode(BearerToken(header)).claims).value).Some?
    ensures r.Admit? ==> r.user in us && Some(r.user.id) == ClaimedUser(decode(BearerToken(header)).claims)
  {
    var token := BearerToken(header);
    if token == "" then Deny(Status(401, "缺少Token"))
    else match decode(token)
      case ExpiredSignature => Deny(Status(401, "Token已过期"))
      case InvalidToken => Deny(Status(401, "无效的Token"))
      case Claims(claims) =>
        var uid := ClaimedUser(claims);
        if uid.None? then Deny(Status(401, "无效的Token"))
        else match FindUser(us, uid.value)
          case None => Deny(Status(401, "无效的Token"))
          case Some(k) => Admit(us[k])
  }

  /** The guard's own test on an authenticated user. */
  predicate Permitted(u: User, roles: seq<Role>, perms: seq<Permission>, links: seq<Link>, guard: Guard)
  {
    match guard
    case AnyUser => true
    case RoleIn(allowed) => u.role in allowed
    case HasCode(code) => Users.HasPermission(u, roles, perms, links, code)
  }

  /**
   * A protected request under `require_auth` (`AnyUser`),
   * `require_role(allowed)` or `require_permission(code)`: the first
   * failing check decides the answer.
   */
  function Check(header: Option<string>, decode: string -> Decoding, us: seq<User>, roles: seq<Role>,
                 perms: seq<Permission>, links: seq<Link>, guard: Guard): (r: Outcome)
    ensures Authenticate(header, decode, us).Deny? ==> r == Authenticate(header, decode, us)
    ensures r.Admit? <==>
      Authenticate(header, decode, us).Admit? &&
      (guard.AnyUser? || Authenticate(header, decode, us).user.status) &&
      Permitted(Authenticate(header, decode, us).user, roles, perms, links, guard)
    ensures r.Admit? ==> r == Authenticate(header, decode, us)
    ensures Authenticate(header, decode, us).Admit? && !guard.AnyUser? ==>
      var u := Authenticate(header, decode, us).user;
      (!u.status ==> r == Deny(Status(403, "账户已被禁用"))) &&
      (u.status && guard.RoleIn? && u.role !in guard.allowed ==> r == Deny(Status(403, "权限不足"))) &&
      (u.status && guard.HasCode? && !Users.HasPermission(u, roles, perms, links, guard.code) ==>
        r == Deny(Status(403, "缺少权限: " + guard.code)))
  {
    match Authenticate(header, decode, us)
    case Deny(st) => Deny(st)
    case Admit(u) =>
      if guard.AnyUser? then Admit(u)
      else if !u.status then Deny(Status(403, "账户已被禁用"))
      else match guard
        case RoleIn(allowed) =>
          if u.role !in allowed then Deny(Status(403, "权限不足")) else Admit(u)
        case HasCode(code) =>
          if !Users.HasPermission(u, roles, perms, links, code) then Deny(Status(403, "缺少权限: " + code))
          else Admit(u)
  }

  /**
   * A disabled user passes `require_auth` but is refused with 403 by
   * `require_role` and `require_permission`, whatever the role or code.
   */
  lemma DisabledUser(header: Option<string>, decode: string -> Decoding, us: seq<User>, roles: seq<Role>,
                     perms: seq<Permission>, links: seq<Link>, guard: Guard)
    requires Authenticate(header, decode, us).Admit? && !Authenticate(header, decode, us).user.status
    ensures Check(header, decode, us, roles, perms, links, AnyUser).Admit?
    ensures !guard.AnyUser? ==> Check(header, decode, us, roles, perms, links, guard) == Deny(Status(403, "账户已被禁用"))
  {
  }

  /** The claims with the `session_id` claim replaced (or added). */
  function WithSessionClaim(d: Decoding, sid: Json): (r: Decoding)
    ensures d.Claims? <==> r.Claims?
    ensures d.Claims? ==> r.claims == d.claims["session_id" := sid]
    ensures !d.Claims? ==> r == d
  {
    match d
    case Claims(c) => Claims(c["session_id" := sid])
    case _ => d
  }

  /**
   * No decorator reads the `session_id` claim: two decoders that differ
   * only in that claim get the same answer, so a token naming an
   * invalidated or unknown session is still admitted while it is valid.
   */
  lemma SessionClaimIgnored(header: Option<string>, d1: string -> Decoding, d2: string -> Decoding, sid: Json,
                            us: seq<User>, roles: seq<Role>, perms: seq<Permission>, links: seq<Link>, guard: Guard)
    requires forall t :: d2(t) == WithSessionClaim(d1(t), sid)
    ensures Check(header, d2, us, roles, perms, links, guard) == Check(header, d1, us, roles, perms, links, guard)
  {
    var t := BearerToken(header);
    if t != "" && d1(t).Claims? {
      assert d2(t).claims == d1(t).claims["session_id" := sid];
      assert ClaimedUser(d2(t).claims) == ClaimedUser(d1(t).claims);
    }
  }

  /** `verify_token(token)`: the user when the token decodes to an existing, enabled user. */
  function VerifyToken(token: string, decode: string -> Decoding, us: seq<User>): (r: Option<User>)
    ensures r.Some? <==>
      decode(token).Claims? && ClaimedUser(decode(token).claims).Some? &&
      FindUser(us, ClaimedUser(decode(token).claims).value).Some? &&
      us[FindUser(us, ClaimedUser(decode(token).claims).value).value].status
    ensures r.Some? ==> r.value in us && r.value.status && Some(r.value.id) == ClaimedUser(decode(token).claims)
  {
    if !decode(token).Claims? then None
    else
      var uid := ClaimedUser(decode(token).claims);
      if uid.None? then None
      else match FindUser(us, uid.value)
        case None => None
        case Some(k) => if us[k].status then Some(us[k]) else None
  }

  /**
   * `verify_token` accepts exactly the tokens the shared checks accept
   * when sent as a bearer header, minus those of disabled users.
   */
  lemma VerifyTokenAgrees(token: string, decode: string -> Decoding, us: seq<User>)
    requires token != "" && ' ' !in token
    ensures VerifyToken(token, decode, us).Some? <==>
      Authenticate(Some(BearerPrefix + token), decode, us).Admit? &&
      Authenticate(Some(BearerPrefix + token), decode, us).user.status
    ensures VerifyToken(token, decode, us).Some? ==>
      Authenticate(Some(BearerPrefix + token), decode, us) == Admit(VerifyToken(token, decode, us).value)
  {
    BearerRoundTrip(token);
  }
}
