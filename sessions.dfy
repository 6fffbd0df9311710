/**
 * The login-session registry (`UserSession`): creation with a lifetime,
 * the liveness test, soft invalidation of one session or of all of a
 * user's sessions, the hard-delete sweep of expired rows, and the small
 * JSON store each session carries. Times are whole seconds; `now` is the
 * clock reading the code takes with `utcnow()`.
 */
module Sessions {
  import opened Wrappers
  import opened Json
  import opened Schema
  import Seqs

  const SecondsPerHour: int := 3600

  // ---------------------------------------------------------------------
  // One session
  // ---------------------------------------------------------------------

  /**
   * The row `UserSession(user_id, ip, agent, hours)` inserts at time `now`
   * under the fresh id `id`: it expires `hours` hours later, is active and
   * carries the empty store `'{}'`.
   */
  function NewSession(id: string, uid: nat, ip: string, agent: string, hours: int, now: int): (s: Session)
    ensures s.id == id && s.userId == uid
    ensures s.expiresAt == now + hours * SecondsPerHour
    ensures s.isActive && s.loginTime == now && s.lastActivity == now
    ensures s.data == Decoded(map[])
  {
    Session(id, uid, ip, agent, now, now, now + hours * SecondsPerHour, true, Decoded(map[]))
  }

  /** `session.is_expired()`: the clock is past the expiry time. */
  predicate IsExpired(s: Session, now: int)
  {
    now > s.expiresAt
  }

  /** Active and not expired. */
  predicate IsLive(s: Session, now: int)
  {
    s.isActive && !IsExpired(s, now)
  }

  /** A fresh session with a positive lifetime is live until, and including, its expiry time. */
  lemma NewSessionLive(id: string, uid: nat, ip: string, agent: string, hours: int, now: int, t: int)
    requires hours >= 0 && now <= t
    ensures IsLive(NewSession(id, uid, ip, agent, hours, now), t) <==> t <= now + hours * SecondsPerHour
  {
  }

  /** `UserSession.create_session(...)`: the new row is appended; `id` stands for `uuid4()`. */
  method CreateSession(db: Db, id: string, uid: nat, ip: string, agent: string, hours: int, now: int)
    returns (s: Session)
    modifies db
    ensures s == NewSession(id, uid, ip, agent, hours, now)
    ensures db.sessions == old(db.sessions) + [s]
    ensures db.users == old(db.users) && db.roles == old(db.roles) && db.permissions == old(db.permissions)
    ensures db.links == old(db.links) && db.menus == old(db.menus)
  {
    s := NewSession(id, uid, ip, agent, hours, now);
    db.sessions := db.sessions + [s];
  }

  /** `UserSession.get_active_session(id)`: the index of the session when it exists and is live. */
  function GetActiveSession(ss: seq<Session>, id: string, now: int): (r: Option<nat>)
    ensures r.Some? <==> FindSession(ss, id).Some? && IsLive(ss[FindSession(ss, id).value], now)
    ensures r.Some? ==> r == FindSession(ss, id)
  {
    var k := FindSession(ss, id);
    if k.Some? && ss[k.value].isActive && !IsExpired(ss[k.value], now) then k else None
  }

  /** `session.invalidate()` on the row at index `k`. */
  method Invalidate(db: Db, k: nat)
    requires k < |db.sessions|
    modifies db
    ensures db.sessions == old(db.sessions)[k := old(db.sessions)[k].(isActive := false)]
    ensures db.users == old(db.users) && db.roles == old(db.roles) && db.permissions == old(db.permissions)
    ensures db.links == old(db.links) && db.menus == old(db.menus)
  {
    db.sessions := db.sessions[k := db.sessions[k].(isActive := false)];
  }

  /** Once invalidated, a session is never returned as active again, whatever the clock says. */
  lemma InvalidatedNeverActive(ss: seq<Session>, id: string, now: int)
    requires FindSession(ss, id).Some?
    ensures var k := FindSession(ss, id).value;
      GetActiveSession(ss[k := ss[k].(isActive := false)], id, now).None?
  {
    var k := FindSession(ss, id).value;
    var ss2 := ss[k := ss[k].(isActive := false)];
    FindSessionSameIds(ss, ss2, id);
  }

  /** Two tables whose rows carry the same ids, position by position, find the same row. */
  lemma {:induction false} FindSessionSameIds(ss: seq<Session>, ss2: seq<Session>, id: string)
    requires |ss| == |ss2| && forall i :: 0 <= i < |ss| ==> ss[i].id == ss2[i].id
    ensures FindSession(ss2, id) == FindSession(ss, id)
  {
    if ss != [] {
      FindSessionSameIds(ss[1..], ss2[1..], id);
    }
  }

  /** `session.update_activity()` at time `now`. */
  method UpdateActivity(db: Db, k: nat, now: int)
    requires k < |db.sessions|
    modifies db
    ensures db.sessions == old(db.sessions)[k := old(db.sessions)[k].(lastActivity := now)]
    ensures db.users == old(db.users) && db.roles == old(db.roles) && db.permissions == old(db.permissions)
    ensures db.links == old(db.links) && db.menus == old(db.menus)
  {
    db.sessions := db.sessions[k := db.sessions[k].(lastActivity := now)];
  }

  /** `session.extend_session(hours)` at time `now`: the expiry moves to `hours` hours from now. */
  method ExtendSession(db: Db, k: nat, hours: int, now: int)
    requires k < |db.sessions|
    modifies db
    ensures db.sessions == old(db.sessions)[k := old(db.sessions)[k].(expiresAt := now + hours * SecondsPerHour)]
    ensures db.users == old(db.users) && db.roles == old(db.roles) && db.permissions == old(db.permissions)
    ensures db.links == old(db.links) && db.menus == old(db.menus)
  {
    db.sessions := db.sessions[k := db.sessions[k].(expiresAt := now + hours * SecondsPerHour)];
  }

  /**
   * Extending does not revive an invalidated session, and it keeps an
   * active one live for the whole new period, even one that had expired.
   */
  lemma ExtendEffect(s: Session, hours: int, now: int, t: int)
    requires hours >= 0 && now <= t
    ensures var e := s.(expiresAt := now + hours * SecondsPerHour);
      (IsLive(e, t) <==> s.isActive && t <= now + hours * SecondsPerHour)
  {
  }

  // ---------------------------------------------------------------------
  // The JSON store
  // ---------------------------------------------------------------------

  /** `session.get_all_data()`: empty, NULL and undecodable texts all read as `{}`. */
  function GetAllData(d: SessionData): (m: map<string, Json>)
    ensures d.Decoded? ==> m == d.fields
    ensures !d.Decoded? ==> m == map[]
  {
    match d
    case NoData => map[]
    case Decoded(fields) => fields
    case Undecodable => map[]
  }

  /** `session.get_data(key, default)`. */
  function GetData(d: SessionData, key: string, default: Json): (v: Json)
    ensures key in GetAllData(d) ==> v == GetAllData(d)[key]
    ensures key !in GetAllData(d) ==> v == default
  {
    var m := GetAllData(d);
    if key in m then m[key] else default
  }

  /** The store after `session.set_data(key, value)`: the decoded store with one key replaced. */
  function SetData(d: SessionData, key: string, value: Json): (r: SessionData)
    ensures r.Decoded? && r.fields.Keys == GetAllData(d).Keys + {key}
  {
    Decoded(GetAllData(d)[key := value])
  }

  /**
   * `set_data` then `get_data` of the same key yields the value stored,
   * whatever the default; every other key reads as before.
   */
  lemma SetThenGet(d: SessionData, key: string, value: Json, other: string, default: Json)
    ensures GetData(SetData(d, key, value), key, default) == value
    ensures other != key ==> GetData(SetData(d, key, value), other, default) == GetData(d, other, default)
  {
  }

  /** An undecodable store is replaced by a fresh one holding just the new key. */
  lemma SetOnUndecodable(key: string, value: Json)
    ensures SetData(Undecodable, key, value) == Decoded(map[key := value])
  {
  }

  /** `session.set_data(key, value)` on the row at index `k`. */
  method SetDataOn(db: Db, k: nat, key: string, value: Json)
    requires k < |db.sessions|
    modifies db
    ensures db.sessions == old(db.sessions)[k := old(db.sessions)[k].(data := SetData(old(db.sessions)[k].data, key, value))]
    ensures db.users == old(db.users) && db.roles == old(db.roles) && db.permissions == old(db.permissions)
    ensures db.links == old(db.links) && db.menus == old(db.menus)
  {
    var s := db.sessions[k];
    db.sessions := db.sessions[k := s.(data := SetData(s.data, key, value))];
  }

  // ---------------------------------------------------------------------
  // Queries and sweeps over the table
  // ---------------------------------------------------------------------

  /** The filter of `get_user_sessions(uid, active_only)`: owner, and activity when asked; expiry is not looked at. */
  predicate Listed(s: Session, uid: nat, activeOnly: bool)
  {
    s.userId == uid && (!activeOnly || s.isActive)
  }

  /** `UserSession.get_user_sessions(uid, active_only)`, in table order. */
  function GetUserSessions(ss: seq<Session>, uid: nat, activeOnly: bool): (r: seq<Session>)
    ensures forall s :: s in r <==> s in ss && s.userId == uid && (!activeOnly || s.isActive)
  {
    Seqs.Filter(ss, (s: Session) => Listed(s, uid, activeOnly))
  }

  /** The active-only listing keeps an expired but active session: only `is_active` is checked. */
  lemma ListingIgnoresExpiry(ss: seq<Session>, s: Session, now: int)
    requires s in ss && s.isActive && IsExpired(s, now)
    ensures s in GetUserSessions(ss, s.userId, true)
    ensures !IsLive(s, now)
  {
  }

  /** The sessions `invalidate_user_sessions(uid, exclude)` selects; `exclude` is "" when none is given. */
  predicate Selected(s: Session, uid: nat, exclude: string)
  {
    s.userId == uid && s.isActive && (exclude == "" || s.id != exclude)
  }

  /** A session after the sweep: deactivated when selected, untouched otherwise. */
  function Deactivated(s: Session, uid: nat, exclude: string): (r: Session)
    ensures Selected(s, uid, exclude) ==> r == s.(isActive := false)
    ensures !Selected(s, uid, exclude) ==> r == s
  {
    if Selected(s, uid, exclude) then s.(isActive := false) else s
  }

  /** The number of selected sessions. */
  function SelectedCount(ss: seq<Session>, uid: nat, exclude: string): nat
  {
    |Seqs.Filter(ss, (s: Session) => Selected(s, uid, exclude))|
  }

  /**
   * `UserSession.invalidate_user_sessions(uid, exclude)`: every active
   * session of the user other than the excluded one is deactivated, in
   * place, and their number is returned.
   */
  method InvalidateUserSessions(db: Db, uid: nat, exclude: string) returns (n: nat)
    modifies db
    ensures |db.sessions| == |old(db.sessions)|
    ensures forall i :: 0 <= i < |db.sessions| ==> db.sessions[i] == Deactivated(old(db.sessions)[i], uid, exclude)
    ensures n == SelectedCount(old(db.sessions), uid, exclude)
    ensures db.users == old(db.users) && db.roles == old(db.roles) && db.permissions == old(db.permissions)
    ensures db.links == old(db.links) && db.menus == old(db.menus)
  {
    ghost var ss0 := db.sessions;
    n := 0;
    var i := 0;
    assert ss0[..0] == [];
    while i < |db.sessions|
      invariant 0 <= i <= |db.sessions| == |ss0|
      invariant forall j :: 0 <= j < i ==> db.sessions[j] == Deactivated(ss0[j], uid, exclude)
      invariant forall j :: i <= j < |ss0| ==> db.sessions[j] == ss0[j]
      invariant n == SelectedCount(ss0[..i], uid, exclude)
      invariant db.users == old(db.users) && db.roles == old(db.roles) && db.permissions == old(db.permissions)
      invariant db.links == old(db.links) && db.menus == old(db.menus)
    {
      var s := db.sessions[i];
      assert ss0[..i + 1] == ss0[..i] + [s];
      Seqs.FilterAppend(ss0[..i], s, (x: Session) => Selected(x, uid, exclude));
      if s.userId == uid && s.isActive && (exclude == "" || s.id != exclude) {
        Invalidate(db, i);
        n := n + 1;
      }
      i := i + 1;
    }
    assert ss0[..i] == ss0;
  }

  /**
   * After the sweep no session of the user other than the excluded one is
   * active; a session changes exactly when it was selected; other users'
   * sessions are untouched.
   */
  lemma InvalidateEffect(ss: seq<Session>, r: seq<Session>, uid: nat, exclude: string)
    requires |r| == |ss| && forall i :: 0 <= i < |ss| ==> r[i] == Deactivated(ss[i], uid, exclude)
    ensures forall i :: 0 <= i < |r| && r[i].userId == uid && (exclude == "" || r[i].id != exclude) ==> !r[i].isActive
    ensures forall i :: 0 <= i < |r| ==> (r[i] != ss[i] <==> Selected(ss[i], uid, exclude))
    ensures forall i :: 0 <= i < |r| && ss[i].userId != uid ==> r[i] == ss[i]
    ensures forall i :: 0 <= i < |r| && exclude != "" && ss[i].id == exclude ==> r[i] == ss[i]
  {
  }

  /** A row the sweep deletes: its expiry time is before `now`. */
  predicate Expiring(s: Session, now: int)
  {
    s.expiresAt < now
  }

  /** The rows the sweep keeps. */
  function Unexpired(ss: seq<Session>, now: int): (r: seq<Session>)
    ensures forall s :: s in r <==> s in ss && !IsExpired(s, now)
  {
    Seqs.Filter(ss, (s: Session) => !Expiring(s, now))
  }

  /** The number of rows the sweep deletes. */
  function ExpiredCount(ss: seq<Session>, now: int): nat
  {
    |Seqs.Filter(ss, (s: Session) => Expiring(s, now))|
  }

  /**
   * `UserSession.cleanup_expired_sessions()` at time `now`: every expired
   * row is deleted, active or not, and their number is returned.
   */
  method CleanupExpiredSessions(db: Db, now: int) returns (n: nat)
    modifies db
    ensures db.sessions == Unexpired(old(db.sessions), now)
    ensures n == ExpiredCount(old(db.sessions), now)
    ensures db.users == old(db.users) && db.roles == old(db.roles) && db.permissions == old(db.permissions)
    ensures db.links == old(db.links) && db.menus == old(db.menus)
  {
    var ss := db.sessions;
    var kept: seq<Session> := [];
    n := 0;
    var i := 0;
    assert ss[..0] == [];
    while i < |ss|
      invariant 0 <= i <= |ss|
      invariant kept == Unexpired(ss[..i], now)
      invariant n == ExpiredCount(ss[..i], now)
      invariant unchanged(db)
    {
      var s := ss[i];
      assert ss[..i + 1] == ss[..i] + [s];
      Seqs.FilterAppend(ss[..i], s, (x: Session) => !Expiring(x, now));
      Seqs.FilterAppend(ss[..i], s, (x: Session) => Expiring(x, now));
      if s.expiresAt < now {
        n := n + 1;
      } else {
        kept := kept + [s];
      }
      i := i + 1;
    }
    assert ss[..i] == ss;
    db.sessions := kept;
  }

  /** The sweep's count and the rows it keeps add up to the table it started from. */
  lemma {:induction false} CleanupCount(ss: seq<Session>, now: int)
    ensures ExpiredCount(ss, now) + |Unexpired(ss, now)| == |ss|
  {
    if ss != [] {
      CleanupCount(ss[1..], now);
    }
  }

  /** After the sweep no expired row is left, and a later sweep at the same time deletes nothing. */
  lemma CleanupIdempotent(ss: seq<Session>, now: int)
    ensures forall s :: s in Unexpired(ss, now) ==> !IsExpired(s, now)
    ensures ExpiredCount(Unexpired(ss, now), now) == 0
    ensures Unexpired(Unexpired(ss, now), now) == Unexpired(ss, now)
  {
    var r := Unexpired(ss, now);
    var e := Seqs.Filter(r, (s: Session) => Expiring(s, now));
    assert e != [] ==> e[0] in e;
    Seqs.FilterAll(r, (s: Session) => !Expiring(s, now));
  }
}
