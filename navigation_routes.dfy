/**
 * The navigation blueprint (backend/app/routes/navigation_routes.py): the
 * per-setting ordering of navigation points (append at the end, delete and
 * close the gap, move to a position, swap with a neighbour), the settings
 * upsert per piece of equipment, the delete guard and the batch endpoint.
 */
module NavigationRoutes {
  import opened Wrappers
  import Text
  import Batch
  import opened ResultEnvelope
  import opened SettingsTarget
  import OperationLogs

  // ---------------------------------------------------------------------
  // Points and their order within a setting
  // ---------------------------------------------------------------------

  /** A navigation point row. */
  datatype Point = Point(id: nat, settingId: nat, name: string, description: Option<string>,
                         x: real, y: real, z: real, pointType: string, duration: int, order: int,
                         isMandatory: bool, interaction: Option<string>, voice: Option<string>, createdBy: nat)

  /** `NavigationPoint.get_by_id`: the position of the point with this id. */
  function FindPoint(ps: seq<Point>, id: nat): (r: Option<nat>)
    ensures r.Some? ==> r.value < |ps| && ps[r.value].id == id
    ensures r.None? <==> forall i :: 0 <= i < |ps| ==> ps[i].id != id
  {
    if ps == [] then None
    else if ps[0].id == id then Some(0)
    else match FindPoint(ps[1..], id)
      case None => None
      case Some(k) => Some(k + 1)
  }

  /** `filter_by(navigation_setting_id=...).count()`. */
  function PointCount(ps: seq<Point>, sid: nat): (n: nat)
    ensures n <= |ps|
    ensures n == 0 <==> forall i :: 0 <= i < |ps| ==> ps[i].settingId != sid
  {
    if ps == [] then 0
    else PointCount(ps[1..], sid) + (if ps[0].settingId == sid then 1 else 0)
  }

  /** `max(order_index)` over the points of a setting: NULL when it has none. */
  function MaxOrder(ps: seq<Point>, sid: nat): (r: Option<int>)
    ensures r.None? <==> forall i :: 0 <= i < |ps| ==> ps[i].settingId != sid
    ensures r.Some? ==> forall i :: 0 <= i < |ps| && ps[i].settingId == sid ==> ps[i].order <= r.value
    ensures r.Some? ==> exists i :: 0 <= i < |ps| && ps[i].settingId == sid && ps[i].order == r.value
  {
    if ps == [] then None
    else
      var rest := MaxOrder(ps[1..], sid);
      assert forall i :: 1 <= i < |ps| ==> ps[i] == ps[1..][i - 1];
      if ps[0].settingId != sid then rest
      else match rest
        case None => Some(ps[0].order)
        case Some(m) => Some(if ps[0].order > m then ps[0].order else m)
  }

  /**
   * The order a new point of the setting gets: the largest order there plus
   * one (`... .scalar() or 0`, then `+ 1`), so 1 for an empty setting.
   */
  function NextOrder(ps: seq<Point>, sid: nat): (o: int)
    ensures forall i :: 0 <= i < |ps| && ps[i].settingId == sid ==> ps[i].order < o
    ensures (forall i :: 0 <= i < |ps| ==> ps[i].settingId != sid) ==> o == 1
  {
    MaxOrder(ps, sid).UnwrapOr(0) + 1
  }

  /** An order within the window `lo ..= hi` of a bulk update; no `hi` means no upper bound. */
  predicate InWindow(o: int, lo: int, hi: Option<int>)
  {
    lo <= o && (hi.None? || o <= hi.value)
  }

  /**
   * The bulk `UPDATE ... SET order_index = order_index + delta` over the
   * points of setting `sid` whose order is in the window.
   */
  function Shift(ps: seq<Point>, sid: nat, lo: int, hi: Option<int>, delta: int): (r: seq<Point>)
    ensures |r| == |ps|
    ensures forall i :: 0 <= i < |ps| ==> r[i] == ps[i].(order := r[i].order)
    ensures forall i :: 0 <= i < |ps| && (ps[i].settingId != sid || !InWindow(ps[i].order, lo, hi)) ==> r[i] == ps[i]
    ensures forall i :: 0 <= i < |ps| && ps[i].settingId == sid && InWindow(ps[i].order, lo, hi) ==>
              r[i].order == ps[i].order + delta
  {
    seq(|ps|, i requires 0 <= i < |ps| =>
      if ps[i].settingId == sid && InWindow(ps[i].order, lo, hi) then ps[i].(order := ps[i].order + delta) else ps[i])
  }

  /** The first point of the setting with this order (`filter_by(..., order_index=o).first()`). */
  function FindOrder(ps: seq<Point>, sid: nat, o: int): (r: Option<nat>)
    ensures r.Some? ==> r.value < |ps| && ps[r.value].settingId == sid && ps[r.value].order == o
    ensures r.None? <==> forall i :: 0 <= i < |ps| ==> !(ps[i].settingId == sid && ps[i].order == o)
  {
    if ps == [] then None
    else if ps[0].settingId == sid && ps[0].order == o then Some(0)
    else match FindOrder(ps[1..], sid, o)
      case None => None
      case Some(k) => Some(k + 1)
  }

  /** Some point of the setting holds this order. */
  predicate Holds(ps: seq<Point>, sid: nat, o: int)
  {
    exists i :: 0 <= i < |ps| && ps[i].settingId == sid && ps[i].order == o
  }

  /** The orders of the setting's points are exactly 1, 2, ..., n, each held once. */
  predicate Dense(ps: seq<Point>, sid: nat, n: int)
  {
    (forall i :: 0 <= i < |ps| && ps[i].settingId == sid ==> 1 <= ps[i].order <= n)
    && (forall i, j :: (0 <= i < |ps| && 0 <= j < |ps| && i != j
                        && ps[i].settingId == sid && ps[j].settingId == sid) ==> ps[i].order != ps[j].order)
    && (forall o :: 1 <= o <= n ==> Holds(ps, sid, o))
  }

  /**
   * `create_navigation_point`'s order: in a setting whose orders are 1..n
   * the new point gets n + 1, and the orders become 1..n+1.
   */
  lemma NextOrderDense(ps: seq<Point>, sid: nat, n: int, p: Point)
    requires Dense(ps, sid, n) && n >= 0
    requires p.settingId == sid && p.order == NextOrder(ps, sid)
    ensures NextOrder(ps, sid) == n + 1
    ensures Dense(ps + [p], sid, n + 1)
  {
    if n == 0 {
      assert forall i :: 0 <= i < |ps| ==> ps[i].settingId != sid;
    } else {
      assert Holds(ps, sid, n);
    }
    var qs := ps + [p];
    forall o | 1 <= o <= n + 1 ensures Holds(qs, sid, o) {
      if o == n + 1 {
        assert qs[|ps|] == p;
      } else {
        assert Holds(ps, sid, o);
        var i :| 0 <= i < |ps| && ps[i].settingId == sid && ps[i].order == o;
        assert qs[i] == ps[i];
      }
    }
  }

  /**
   * `delete_navigation_point`: the row goes, then every point of the same
   * setting with a larger order moves down by one.
   */
  function AfterDelete(ps: seq<Point>, m: nat): (r: seq<Point>)
    requires m < |ps|
    ensures |r| == |ps| - 1
  {
    Shift(ps[..m] + ps[m + 1..], ps[m].settingId, ps[m].order + 1, None, -1)
  }

  /**
   * What deleting does to each remaining point: it keeps its place in the
   * table, and only the points of the same setting ordered after the deleted
   * one move down by one.
   */
  lemma AfterDeleteShape(ps: seq<Point>, m: nat)
    requires m < |ps|
    ensures var r := AfterDelete(ps, m);
      forall j :: 0 <= j < |r| ==>
        var q := if j < m then ps[j] else ps[j + 1];
        r[j] == q.(order := r[j].order)
        && (q.settingId == ps[m].settingId && q.order > ps[m].order ==> r[j].order == q.order - 1)
        && (q.settingId != ps[m].settingId || q.order <= ps[m].order ==> r[j] == q)
  {
  }

  /** Deleting a point of a setting whose orders are 1..n leaves them 1..n-1. */
  lemma DeleteDense(ps: seq<Point>, m: nat, n: int)
    requires m < |ps| && Dense(ps, ps[m].settingId, n)
    ensures Dense(AfterDelete(ps, m), ps[m].settingId, n - 1)
  {
    var sid, k := ps[m].settingId, ps[m].order;
    var rest := ps[..m] + ps[m + 1..];
    var r := AfterDelete(ps, m);
    assert forall j :: 0 <= j < |rest| ==> rest[j] == ps[if j < m then j else j + 1];
    forall o | 1 <= o <= n - 1 ensures Holds(r, sid, o) {
      var want := if o < k then o else o + 1;
      assert Holds(ps, sid, want);
      var i :| 0 <= i < |ps| && ps[i].settingId == sid && ps[i].order == want;
      assert i != m;
      var j := if i < m then i else i - 1;
      assert rest[j] == ps[i];
      assert r[j].order == o;
    }
  }

  /** Deleting a point leaves the orders of every other setting as they were. */
  lemma DeleteKeepsOthers(ps: seq<Point>, m: nat, other: nat, n: int)
    requires m < |ps| && other != ps[m].settingId && Dense(ps, other, n)
    ensures Dense(AfterDelete(ps, m), other, n)
  {
    var rest := ps[..m] + ps[m + 1..];
    var r := AfterDelete(ps, m);
    assert forall j :: 0 <= j < |rest| ==> rest[j] == ps[if j < m then j else j + 1];
    forall o | 1 <= o <= n ensures Holds(r, other, o) {
      assert Holds(ps, other, o);
      var i :| 0 <= i < |ps| && ps[i].settingId == other && ps[i].order == o;
      var j := if i < m then i else i - 1;
      assert r[j] == rest[j] == ps[i];
    }
  }

  /**
   * `move_navigation_point` on the point at position `i`: to `new_order`
   * when one is given (a later position pulls the points in between up by
   * one, an earlier one pushes them down by one, the same position changes
   * nothing), otherwise a swap with the point just before ('up', only from
   * order 2 on) or just after ('down'), when there is one.
   */
  function AfterMove(ps: seq<Point>, i: nat, newOrder: Option<int>, direction: Option<string>): (r: seq<Point>)
    requires i < |ps|
    ensures |r| == |ps|
    ensures forall j :: 0 <= j < |ps| && ps[j].settingId != ps[i].settingId ==> r[j] == ps[j]
    ensures forall j :: 0 <= j < |ps| ==> r[j] == ps[j].(order := r[j].order)
    ensures newOrder.Some? ==> r[i].order == newOrder.value
    ensures newOrder == Some(ps[i].order) ==> r == ps
  {
    var cur, sid := ps[i].order, ps[i].settingId;
    if newOrder.Some? then
      if newOrder.value == cur then ps
      else if newOrder.value > cur then Shift(ps, sid, cur + 1, Some(newOrder.value), -1)[i := ps[i].(order := newOrder.value)]
      else Shift(ps, sid, newOrder.value, Some(cur - 1), 1)[i := ps[i].(order := newOrder.value)]
    else if direction == Some("up") && cur > 1 then
      match FindOrder(ps, sid, cur - 1)
      case None => ps
      case Some(q) => ps[q := ps[q].(order := cur)][i := ps[i].(order := cur - 1)]
    else if direction == Some("down") then
      match FindOrder(ps, sid, cur + 1)
      case None => ps
      case Some(q) => ps[q := ps[q].(order := cur)][i := ps[i].(order := cur + 1)]
    else ps
  }

  /** Moving to a later position: the points in between each move up one place. */
  lemma MoveLaterDense(ps: seq<Point>, i: nat, t: int, n: int)
    requires i < |ps| && Dense(ps, ps[i].settingId, n) && ps[i].order < t <= n
    ensures Dense(AfterMove(ps, i, Some(t), None), ps[i].settingId, n)
  {
    var cur, sid := ps[i].order, ps[i].settingId;
    var r := AfterMove(ps, i, Some(t), None);
    forall o | 1 <= o <= n ensures Holds(r, sid, o) {
      if o == t {
        assert r[i].settingId == sid && r[i].order == o;
      } else {
        var want := if cur <= o < t then o + 1 else o;
        assert Holds(ps, sid, want);
        var j :| 0 <= j < |ps| && ps[j].settingId == sid && ps[j].order == want;
        assert j != i;
        assert r[j].settingId == sid && r[j].order == o;
      }
    }
  }

  /** Moving to an earlier position: the points in between each move down one place. */
  lemma MoveEarlierDense(ps: seq<Point>, i: nat, t: int, n: int)
    requires i < |ps| && Dense(ps, ps[i].settingId, n) && 1 <= t < ps[i].order
    ensures Dense(AfterMove(ps, i, Some(t), None), ps[i].settingId, n)
  {
    var cur, sid := ps[i].order, ps[i].settingId;
    var r := AfterMove(ps, i, Some(t), None);
    forall o | 1 <= o <= n ensures Holds(r, sid, o) {
      if o == t {
        assert r[i].settingId == sid && r[i].order == o;
      } else {
        var want := if t < o <= cur then o - 1 else o;
        assert Holds(ps, sid, want);
        var j :| 0 <= j < |ps| && ps[j].settingId == sid && ps[j].order == want;
        assert j != i;
        assert r[j].settingId == sid && r[j].order == o;
      }
    }
  }

  /** Exchanging the orders of two points of the setting keeps its orders 1..n. */
  lemma ExchangeDense(ps: seq<Point>, i: nat, q: nat, n: int)
    requires i < |ps| && q < |ps| && q != i && ps[q].settingId == ps[i].settingId
    requires Dense(ps, ps[i].settingId, n)
    ensures Dense(ps[q := ps[q].(order := ps[i].order)][i := ps[i].(order := ps[q].order)], ps[i].settingId, n)
  {
    var sid := ps[i].settingId;
    var r := ps[q := ps[q].(order := ps[i].order)][i := ps[i].(order := ps[q].order)];
    forall o | 1 <= o <= n ensures Holds(r, sid, o) {
      if o == ps[i].order {
        assert r[q].settingId == sid && r[q].order == o;
      } else if o == ps[q].order {
        assert r[i].settingId == sid && r[i].order == o;
      } else {
        assert Holds(ps, sid, o);
        var j :| 0 <= j < |ps| && ps[j].settingId == sid && ps[j].order == o;
        assert r[j] == ps[j];
      }
    }
  }

  /** A swap with a neighbour exchanges two orders, so the orders stay 1..n. */
  lemma SwapDense(ps: seq<Point>, i: nat, direction: string, n: int)
    requires i < |ps| && Dense(ps, ps[i].settingId, n)
    ensures Dense(AfterMove(ps, i, None, Some(direction)), ps[i].settingId, n)
  {
    var cur, sid := ps[i].order, ps[i].settingId;
    var other := if direction == "up" then cur - 1 else cur + 1;
    if (direction == "up" && cur > 1) || direction == "down" {
      var f := FindOrder(ps, sid, other);
      if f.Some? {
        ExchangeDense(ps, i, f.value, n);
      }
    }
  }

  /**
   * Every move keeps the orders of the point's setting exactly 1..n, as
   * long as a target position lies in 1..n.
   */
  lemma MoveDense(ps: seq<Point>, i: nat, newOrder: Option<int>, direction: Option<string>, n: int)
    requires i < |ps| && Dense(ps, ps[i].settingId, n)
    requires newOrder.Some? ==> 1 <= newOrder.value <= n
    ensures Dense(AfterMove(ps, i, newOrder, direction), ps[i].settingId, n)
  {
    var cur := ps[i].order;
    if newOrder.Some? {
      if newOrder.value > cur {
        MoveLaterDense(ps, i, newOrder.value, n);
        assert AfterMove(ps, i, newOrder, direction) == AfterMove(ps, i, newOrder, None);
      } else if newOrder.value < cur {
        MoveEarlierDense(ps, i, newOrder.value, n);
        assert AfterMove(ps, i, newOrder, direction) == AfterMove(ps, i, newOrder, None);
      }
    } else if direction.Some? {
      SwapDense(ps, i, direction.value, n);
    }
  }

  /** A move changes no order of any other setting, so their orders stay as they were. */
  lemma MoveKeepsOthers(ps: seq<Point>, i: nat, newOrder: Option<int>, direction: Option<string>, other: nat, n: int)
    requires i < |ps| && other != ps[i].settingId && Dense(ps, other, n)
    ensures Dense(AfterMove(ps, i, newOrder, direction), other, n)
  {
    var r := AfterMove(ps, i, newOrder, direction);
    forall o | 1 <= o <= n ensures Holds(r, other, o) {
      assert Holds(ps, other, o);
      var j :| 0 <= j < |ps| && ps[j].settingId == other && ps[j].order == o;
      assert r[j] == ps[j];
    }
  }

  // ---------------------------------------------------------------------
  // Settings: the upsert per equipment and the batch endpoint
  // ---------------------------------------------------------------------

  /** A navigation settings row. */
  datatype NavSetting = NavSetting(id: nat, equipmentId: string, sceneType: string, aiPlatform: string,
                                   voiceType: string, scenePrompt: string, objectRecognition: bool,
                                   recognitionAction: string, autoFollow: bool, patrolMode: string,
                                   navigationMode: string, emergencyAlert: bool, alertMode: string,
                                   robotSpeed: int, updatedBy: Option<nat>)

  /** The fields of a settings request; `None` is a key the request leaves out. */
  datatype SettingsBody = SettingsBody(equipmentId: Option<string>, scene: Option<string>, aiPlatform: Option<string>,
                                       voiceType: Option<string>, scenePrompt: Option<string>,
                                       objectRecognition: Option<bool>, recognitionAction: Option<string>,
                                       autoFollow: Option<bool>, patrolMode: Option<string>,
                                       navigationMode: Option<string>, emergencyAlert: Option<bool>,
                                       alertMode: Option<string>, robotSpeed: Option<int>)

  /** A settings row with every column at its default. */
  function DefaultSetting(id: nat, equipmentId: string): NavSetting
  {
    NavSetting(id, equipmentId, "scenic", "xunfei", "male", "", true, "move", false, "standard", "dynamic",
               true, "auto", 50, None)
  }

  /** The update branch of the upsert: each field takes the request's value or keeps its own. */
  function Merged(s: NavSetting, b: SettingsBody, user: nat): (r: NavSetting)
    ensures r.id == s.id && r.equipmentId == s.equipmentId && r.updatedBy == Some(user)
    ensures r.sceneType == b.scene.UnwrapOr(s.sceneType) && r.aiPlatform == b.aiPlatform.UnwrapOr(s.aiPlatform)
    ensures r.voiceType == b.voiceType.UnwrapOr(s.voiceType) && r.scenePrompt == b.scenePrompt.UnwrapOr(s.scenePrompt)
    ensures r.objectRecognition == b.objectRecognition.UnwrapOr(s.objectRecognition)
    ensures r.recognitionAction == b.recognitionAction.UnwrapOr(s.recognitionAction)
    ensures r.autoFollow == b.autoFollow.UnwrapOr(s.autoFollow) && r.patrolMode == b.patrolMode.UnwrapOr(s.patrolMode)
    ensures r.navigationMode == b.navigationMode.UnwrapOr(s.navigationMode)
    ensures r.emergencyAlert == b.emergencyAlert.UnwrapOr(s.emergencyAlert)
    ensures r.alertMode == b.alertMode.UnwrapOr(s.alertMode) && r.robotSpeed == b.robotSpeed.UnwrapOr(s.robotSpeed)
  {
    NavSetting(s.id, s.equipmentId, b.scene.UnwrapOr(s.sceneType), b.aiPlatform.UnwrapOr(s.aiPlatform),
               b.voiceType.UnwrapOr(s.voiceType), b.scenePrompt.UnwrapOr(s.scenePrompt),
               b.objectRecognition.UnwrapOr(s.objectRecognition), b.recognitionAction.UnwrapOr(s.recognitionAction),
               b.autoFollow.UnwrapOr(s.autoFollow), b.patrolMode.UnwrapOr(s.patrolMode),
               b.navigationMode.UnwrapOr(s.navigationMode), b.emergencyAlert.UnwrapOr(s.emergencyAlert),
               b.alertMode.UnwrapOr(s.alertMode), b.robotSpeed.UnwrapOr(s.robotSpeed), Some(user))
  }

  /**
   * The create branch of the upsert: `data.get(field, default)` for each
   * field, which is the same row as merging the request into the defaults.
   */
  function Created(id: nat, equipmentId: string, b: SettingsBody, user: nat): (r: NavSetting)
    ensures r == Merged(DefaultSetting(id, equipmentId), b, user)
  {
    NavSetting(id, equipmentId, b.scene.UnwrapOr("scenic"), b.aiPlatform.UnwrapOr("xunfei"),
               b.voiceType.UnwrapOr("male"), b.scenePrompt.UnwrapOr(""), b.objectRecognition.UnwrapOr(true),
               b.recognitionAction.UnwrapOr("move"), b.autoFollow.UnwrapOr(false),
               b.patrolMode.UnwrapOr("standard"), b.navigationMode.UnwrapOr("dynamic"),
               b.emergencyAlert.UnwrapOr(true), b.alertMode.UnwrapOr("auto"), b.robotSpeed.UnwrapOr(50), Some(user))
  }

  /** Sending the same request again changes nothing more. */
  lemma MergedIdempotent(s: NavSetting, b: SettingsBody, user: nat)
    ensures Merged(Merged(s, b, user), b, user) == Merged(s, b, user)
  {
  }

  /** `NavigationSettings.get_by_id`. */
  function FindSetting(ss: seq<NavSetting>, id: nat): (r: Option<nat>)
    ensures r.Some? ==> r.value < |ss| && ss[r.value].id == id
    ensures r.None? <==> forall i :: 0 <= i < |ss| ==> ss[i].id != id
  {
    if ss == [] then None
    else if ss[0].id == id then Some(0)
    else match FindSetting(ss[1..], id)
      case None => None
      case Some(k) => Some(k + 1)
  }

  /** `filter_by(equipment_id=...).first()`. */
  function FindByEquipment(ss: seq<NavSetting>, equipmentId: string): (r: Option<nat>)
    ensures r.Some? ==> r.value < |ss| && ss[r.value].equipmentId == equipmentId
    ensures r.None? <==> forall i :: 0 <= i < |ss| ==> ss[i].equipmentId != equipmentId
  {
    if ss == [] then None
    else if ss[0].equipmentId == equipmentId then Some(0)
    else match FindByEquipment(ss[1..], equipmentId)
      case None => None
      case Some(k) => Some(k + 1)
  }

  /** At most one settings row per piece of equipment. */
  predicate OnePerEquipment(ss: seq<NavSetting>)
  {
    forall i, j :: 0 <= i < |ss| && 0 <= j < |ss| && ss[i].equipmentId == ss[j].equipmentId ==> i == j
  }

  /** The settings table after the upsert, the position of the saved row and the next free id. */
  datatype Upserted = Upserted(settings: seq<NavSetting>, at: nat, nextId: nat)

  /**
   * The upsert of `create_navigation_setting`: the first row of that
   * equipment is updated in place; without one a new row is appended.
   */
  function UpsertSetting(ss: seq<NavSetting>, nextId: nat, equipmentId: string, b: SettingsBody, user: nat)
    : (r: Upserted)
    ensures r.at < |r.settings| && r.settings[r.at].equipmentId == equipmentId
    ensures r.settings[r.at].updatedBy == Some(user)
  {
    match FindByEquipment(ss, equipmentId)
    case Some(k) => Upserted(ss[k := Merged(ss[k], b, user)], k, nextId)
    case None => Upserted(ss + [Created(nextId, equipmentId, b, user)], |ss|, nextId + 1)
  }

  /**
   * The upsert keeps one row per equipment, leaves every other row as it
   * was, adds a row only when the equipment had none, and never reuses an id.
   */
  lemma UpsertSettingSpec(ss: seq<NavSetting>, nextId: nat, equipmentId: string, b: SettingsBody, user: nat)
    requires OnePerEquipment(ss) && forall i :: 0 <= i < |ss| ==> ss[i].id < nextId
    ensures var r := UpsertSetting(ss, nextId, equipmentId, b, user);
      OnePerEquipment(r.settings)
      && (forall i :: 0 <= i < |ss| && i != r.at ==> r.settings[i] == ss[i])
      && (|r.settings| == |ss| <==> exists i :: 0 <= i < |ss| && ss[i].equipmentId == equipmentId)
      && (forall i :: 0 <= i < |r.settings| ==> r.settings[i].id < r.nextId)
  {
    var r := UpsertSetting(ss, nextId, equipmentId, b, user);
    if FindByEquipment(ss, equipmentId).None? {
      assert forall i :: 0 <= i < |ss| ==> r.settings[i] == ss[i];
    }
  }

  /** The result of a batch: the settings table and one entry per id. */
  datatype SettingsBatch = SettingsBatch(settings: seq<NavSetting>, entries: seq<Batch.Item>)

  /** The operations the batch endpoint knows. */
  predicate KnownBatchOp(op: string)
  {
    op == "delete" || op == "activate" || op == "deactivate"
  }

  /**
   * One id of `batch_navigation_settings_operation`: a missing setting, a
   * setting with points (for 'delete') and an unknown operation fail;
   * 'delete' removes the row; 'activate' and 'deactivate' succeed but store
   * nothing, as the settings table has no status column.
   */
  function BatchStep(ss: seq<NavSetting>, ps: seq<Point>, id: nat, op: string): (r: SettingsBatch)
    ensures |r.entries| == 1 && r.entries[0].id == id
    ensures r.entries[0].ok <==> FindSetting(ss, id).Some? && KnownBatchOp(op) && (op == "delete" ==> PointCount(ps, id) == 0)
    ensures r.settings == if op == "delete" && r.entries[0].ok
                          then ss[..FindSetting(ss, id).value] + ss[FindSetting(ss, id).value + 1..] else ss
  {
    match FindSetting(ss, id)
    case None => SettingsBatch(ss, [Batch.Item(id, false, "导览设置不存在")])
    case Some(k) =>
      if op == "delete" then
        if PointCount(ps, id) > 0 then SettingsBatch(ss, [Batch.Item(id, false, "存在关联的导览点位")])
        else SettingsBatch(ss[..k] + ss[k + 1..], [Batch.Item(id, true, "操作成功")])
      else if op == "activate" || op == "deactivate" then SettingsBatch(ss, [Batch.Item(id, true, "操作成功")])
      else SettingsBatch(ss, [Batch.Item(id, false, "不支持的操作")])
  }

  /** The ids handled in order, each seeing the table the previous ones left. */
  function BatchRun(ss: seq<NavSetting>, ps: seq<Point>, ids: seq<nat>, op: string): (r: SettingsBatch)
    ensures |r.entries| == |ids|
    ensures forall j :: 0 <= j < |ids| ==> r.entries[j].id == ids[j]
  {
    if ids == [] then SettingsBatch(ss, [])
    else
      var prev := BatchRun(ss, ps, ids[..|ids| - 1], op);
      var s := BatchStep(prev.settings, ps, ids[|ids| - 1], op);
      SettingsBatch(s.settings, prev.entries + s.entries)
  }

  /**
   * A batch only ever removes rows: every row left was there before, and
   * a row whose setting still has points is never removed.
   */
  lemma {:induction false} BatchOnlyRemovesFree(ss: seq<NavSetting>, ps: seq<Point>, ids: seq<nat>, op: string)
    ensures forall s :: s in BatchRun(ss, ps, ids, op).settings ==> s in ss
    ensures forall s :: s in ss && PointCount(ps, s.id) > 0 ==> s in BatchRun(ss, ps, ids, op).settings
    ensures op != "delete" ==> BatchRun(ss, ps, ids, op).settings == ss
  {
    if ids != [] {
      var front := ids[..|ids| - 1];
      BatchOnlyRemovesFree(ss, ps, front, op);
      var prev := BatchRun(ss, ps, front, op);
      var id := ids[|ids| - 1];
      var r := BatchRun(ss, ps, ids, op);
      assert r.settings == BatchStep(prev.settings, ps, id, op).settings;
      var k := FindSetting(prev.settings, id);
      if op == "delete" && k.Some? && PointCount(ps, id) == 0 {
        var rest := prev.settings[..k.value] + prev.settings[k.value + 1..];
        assert r.settings == rest;
        assert forall j :: 0 <= j < |rest| ==> rest[j] == prev.settings[if j < k.value then j else j + 1];
        forall s | s in prev.settings && PointCount(ps, s.id) > 0 ensures s in rest {
          var j :| 0 <= j < |prev.settings| && prev.settings[j] == s;
          assert j != k.value;
          assert rest[if j < k.value then j else j - 1] == s;
        }
      }
    }
  }

  /** The batch after one more id. */
  lemma BatchRunNext(ss: seq<NavSetting>, ps: seq<Point>, ids: seq<nat>, i: nat, op: string)
    requires i < |ids|
    ensures var prev := BatchRun(ss, ps, ids[..i], op);
            var s := BatchStep(prev.settings, ps, ids[i], op);
            BatchRun(ss, ps, ids[..i + 1], op) == SettingsBatch(s.settings, prev.entries + s.entries)
  {
    assert ids[..i + 1][..i] == ids[..i];
  }

  /** The batch loop after `i` ids: the table and entries so far, and the two counters. */
  ghost predicate BatchSoFar(ss0: seq<NavSetting>, ps: seq<Point>, ids: seq<nat>, op: string, i: nat,
                             ss: seq<NavSetting>, entries: seq<Batch.Item>, success: nat, failed: nat)
  {
    i <= |ids| && BatchRun(ss0, ps, ids[..i], op) == SettingsBatch(ss, entries)
    && success == Batch.CountOk(entries) && success + failed == i
  }

  lemma BatchSoFarStep(ss0: seq<NavSetting>, ps: seq<Point>, ids: seq<nat>, op: string, i: nat,
                       ss: seq<NavSetting>, entries: seq<Batch.Item>, success: nat, failed: nat)
    requires i < |ids| && BatchSoFar(ss0, ps, ids, op, i, ss, entries, success, failed)
    ensures var s := BatchStep(ss, ps, ids[i], op);
            BatchSoFar(ss0, ps, ids, op, i + 1, s.settings, entries + s.entries,
                       success + Batch.Tally(s.entries[0].ok), failed + 1 - Batch.Tally(s.entries[0].ok))
  {
    BatchRunNext(ss0, ps, ids, i, op);
    var s := BatchStep(ss, ps, ids[i], op);
    assert s.entries == [s.entries[0]];
    Batch.CountOkAppend(entries, s.entries[0]);
  }

  // ---------------------------------------------------------------------
  // Creating a point
  // ---------------------------------------------------------------------

  /** The fields of a point request; `None` is a key left out or null. */
  datatype PointBody = PointBody(settingId: Option<nat>, name: Option<string>, description: Option<string>,
                                 x: Option<real>, y: Option<real>, z: Option<real>, pointType: Option<string>,
                                 duration: Option<int>, isMandatory: Option<bool>,
                                 interaction: Option<string>, voice: Option<string>)

  /** The first required field the request lacks, in the order the handler checks them. */
  function MissingField(b: PointBody): (r: Option<string>)
    ensures r.None? <==> b.settingId.Some? && b.name.Some? && b.x.Some? && b.y.Some?
    ensures r == Some("navigation_setting_id") <==> b.settingId.None?
  {
    if b.settingId.None? then Some("navigation_setting_id")
    else if b.name.None? then Some("name")
    else if b.x.None? then Some("x_coordinate")
    else if b.y.None? then Some("y_coordinate")
    else None
  }

  /** The new point, with the column defaults for the optional fields. */
  function NewPoint(id: nat, b: PointBody, order: int, user: nat): (p: Point)
    requires MissingField(b).None?
    ensures p.id == id && p.settingId == b.settingId.value && p.order == order && p.createdBy == user
  {
    Point(id, b.settingId.value, b.name.value, b.description, b.x.value, b.y.value, b.z.UnwrapOr(0.0),
          b.pointType.UnwrapOr("waypoint"), b.duration.UnwrapOr(60), order, b.isMandatory.UnwrapOr(true),
          b.interaction, b.voice, user)
  }

  // ---------------------------------------------------------------------
  // The tables and the handlers
  // ---------------------------------------------------------------------

  /** The navigation settings and points tables with their id counters. */
  class NavigationStore {
    var settings: seq<NavSetting>
    var points: seq<Point>
    var nextSettingId: nat
    var nextPointId: nat

    /** Every id was handed out by the counters, so a new row never reuses one. */
    predicate Valid()
      reads this
    {
      (forall i :: 0 <= i < |settings| ==> settings[i].id < nextSettingId)
      && (forall i :: 0 <= i < |points| ==> points[i].id < nextPointId)
    }

    constructor ()
      ensures Valid() && settings == [] && points == [] && nextSettingId == 1 && nextPointId == 1
    {
      settings, points, nextSettingId, nextPointId := [], [], 1, 1;
    }

    /**
     * `create_navigation_setting`: the equipment checks, then the upsert
     * per equipment.
     */
    method CreateSetting(equipmentIds: seq<string>, body: SettingsBody, user: nat) returns (st: Status)
      requires Valid()
      modifies this
      ensures Valid() && points == old(points) && nextPointId == old(nextPointId)
      ensures var t := ResolveEquipment(equipmentIds, body.equipmentId);
        (t.Refused? ==> st == t.st && settings == old(settings) && nextSettingId == old(nextSettingId))
        && (t.Target? ==> st == Status(200, "导览设置创建成功")
                          && UpsertSetting(old(settings), old(nextSettingId), t.equipmentId, body, user)
                             == Upserted(settings, UpsertSetting(old(settings), old(nextSettingId), t.equipmentId, body, user).at, nextSettingId))
    {
      var t := ResolveEquipment(equipmentIds, body.equipmentId);
      if t.Refused? {
        return t.st;
      }
      var existing := FindByEquipment(settings, t.equipmentId);
      if existing.Some? {
        var k := existing.value;
        settings := settings[k := Merged(settings[k], body, user)];
      } else {
        settings := settings + [Created(nextSettingId, t.equipmentId, body, user)];
        nextSettingId := nextSettingId + 1;
      }
      st := Status(200, "导览设置创建成功");
    }

    /**
     * `delete_navigation_setting`: 404 for an unknown id, 400 while points
     * still belong to the setting, otherwise the row is removed.
     */
    method DeleteSetting(id: nat) returns (st: Status)
      requires Valid()
      modifies this
      ensures Valid() && points == old(points) && nextSettingId == old(nextSettingId) && nextPointId == old(nextPointId)
      ensures FindSetting(old(settings), id).None? ==> st == Status(404, "导览设置不存在") && settings == old(settings)
      ensures FindSetting(old(settings), id).Some? && PointCount(points, id) > 0 ==>
                st == Status(400, "该导览设置下还有 " + Text.NatToString(PointCount(points, id)) + " 个导览点位，不能删除")
                && settings == old(settings)
      ensures FindSetting(old(settings), id).Some? && PointCount(points, id) == 0 ==>
                var k := FindSetting(old(settings), id).value;
                st == Status(200, "导览设置删除成功") && settings == old(settings[..k] + settings[k + 1..])
    {
      var found := FindSetting(settings, id);
      if found.None? {
        return Status(404, "导览设置不存在");
      }
      var count := PointCount(points, id);
      if count > 0 {
        return Status(400, "该导览设置下还有 " + Text.NatToString(count) + " 个导览点位，不能删除");
      }
      var k := found.value;
      settings := settings[..k] + settings[k + 1..];
      assert forall j :: 0 <= j < |settings| ==> settings[j] == old(settings)[if j < k then j else j + 1];
      st := Status(200, "导览设置删除成功");
    }

    /**
     * `create_navigation_point`: the first missing required field is a 400,
     * an unknown setting is a 400, otherwise the point is appended with
     * order one past the largest of its setting and a fresh id.
     */
    method CreatePoint(body: PointBody, user: nat) returns (st: Status, created: Option<Point>)
      requires Valid()
      modifies this
      ensures Valid() && settings == old(settings) && nextSettingId == old(nextSettingId)
      ensures MissingField(body).Some? ==>
                st == Status(400, MissingField(body).value + "不能为空") && created.None? && points == old(points)
      ensures MissingField(body).None? && FindSetting(settings, body.settingId.value).None? ==>
                st == Status(400, "导览设置不存在") && created.None? && points == old(points)
      ensures created.Some? <==> MissingField(body).None? && FindSetting(settings, body.settingId.value).Some?
      ensures created.Some? ==>
                st == Status(200, "导览点位创建成功")
                && created.value == NewPoint(old(nextPointId), body, NextOrder(old(points), body.settingId.value), user)
                && points == old(points) + [created.value]
                && forall i :: 0 <= i < |old(points)| ==> old(points)[i].id != created.value.id
      ensures created.None? ==> nextPointId == old(nextPointId)
    {
      var missing := MissingField(body);
      if missing.Some? {
        return Status(400, missing.value + "不能为空"), None;
      }
      var sid := body.settingId.value;
      if FindSetting(settings, sid).None? {
        return Status(400, "导览设置不存在"), None;
      }
      var maxOrder := MaxOrder(points, sid);
      var p := NewPoint(nextPointId, body, maxOrder.UnwrapOr(0) + 1, user);
      points := points + [p];
      nextPointId := nextPointId + 1;
      st, created := Status(200, "导览点位创建成功"), Some(p);
    }

    /**
     * `delete_navigation_point`: 404 for an unknown id; otherwise the row
     * goes and the later points of its setting each move down one place.
     */
    method DeletePoint(id: nat) returns (st: Status)
      requires Valid()
      modifies this
      ensures Valid() && settings == old(settings) && nextSettingId == old(nextSettingId) && nextPointId == old(nextPointId)
      ensures FindPoint(old(points), id).None? ==> st == Status(404, "导览点位不存在") && points == old(points)
      ensures FindPoint(old(points), id).Some? ==>
                st == Status(200, "导览点位删除成功") && points == AfterDelete(old(points), FindPoint(old(points), id).value)
    {
      var found := FindPoint(points, id);
      if found.None? {
        return Status(404, "导览点位不存在");
      }
      var k := found.value;
      var sid, order := points[k].settingId, points[k].order;
      points := points[..k] + points[k + 1..];
      assert forall j :: 0 <= j < |points| ==> points[j] == old(points)[if j < k then j else j + 1];
      points := Shift(points, sid, order + 1, None, -1);
      st := Status(200, "导览点位删除成功");
    }

    /**
     * `move_navigation_point`: 404 for an unknown id; otherwise the move or
     * swap `AfterMove` describes, and the moved point is returned.
     */
    method MovePoint(id: nat, newOrder: Option<int>, direction: Option<string>) returns (st: Status, moved: Option<Point>)
      requires Valid()
      modifies this
      ensures Valid() && settings == old(settings) && nextSettingId == old(nextSettingId) && nextPointId == old(nextPointId)
      ensures FindPoint(old(points), id).None? ==>
                st == Status(404, "导览点位不存在") && moved.None? && points == old(points)
      ensures FindPoint(old(points), id).Some? ==>
                var k := FindPoint(old(points), id).value;
                st == Status(200, "点位顺序调整成功") && points == AfterMove(old(points), k, newOrder, direction)
                && moved == Some(points[k])
    {
      var found := FindPoint(points, id);
      if found.None? {
        return Status(404, "导览点位不存在"), None;
      }
      var k := found.value;
      if newOrder.Some? {
        MoveTo(k, newOrder.value);
        assert AfterMove(old(points), k, newOrder, direction) == AfterMove(old(points), k, newOrder, None);
      } else if direction.Some? {
        Swap(k, direction.value);
      }
      st, moved := Status(200, "点位顺序调整成功"), Some(points[k]);
    }

    /** The `new_order` branch of the move. */
    method MoveTo(k: nat, t: int)
      requires Valid() && k < |points|
      modifies this
      ensures Valid() && settings == old(settings) && nextSettingId == old(nextSettingId) && nextPointId == old(nextPointId)
      ensures points == AfterMove(old(points), k, Some(t), None)
    {
      var cur, sid := points[k].order, points[k].settingId;
      if t != cur {
        if t > cur {
          points := Shift(points, sid, cur + 1, Some(t), -1);
        } else {
          points := Shift(points, sid, t, Some(cur - 1), 1);
        }
        points := points[k := points[k].(order := t)];
      }
    }

    /** The 'up' and 'down' branches of the move: a swap with the neighbour, when there is one. */
    method Swap(k: nat, direction: string)
      requires Valid() && k < |points|
      modifies this
      ensures Valid() && settings == old(settings) && nextSettingId == old(nextSettingId) && nextPointId == old(nextPointId)
      ensures points == AfterMove(old(points), k, None, Some(direction))
    {
      var cur, sid := points[k].order, points[k].settingId;
      if direction == "up" && cur > 1 {
        var prev := FindOrder(points, sid, cur - 1);
        if prev.Some? {
          points := points[prev.value := points[prev.value].(order := cur)];
          points := points[k := points[k].(order := cur - 1)];
        }
      } else if direction == "down" {
        var next := FindOrder(points, sid, cur + 1);
        if next.Some? {
          points := points[next.value := points[next.value].(order := cur)];
          points := points[k := points[k].(order := cur + 1)];
        }
      }
    }

    /** One id of the batch. */
    method BatchOne(id: nat, op: string) returns (e: Batch.Item)
      requires Valid()
      modifies this
      ensures Valid() && points == old(points) && nextSettingId == old(nextSettingId) && nextPointId == old(nextPointId)
      ensures BatchStep(old(settings), points, id, op) == SettingsBatch(settings, [e])
    {
      var found := FindSetting(settings, id);
      if found.None? {
        return Batch.Item(id, false, "导览设置不存在");
      }
      if op == "delete" {
        if PointCount(points, id) > 0 {
          return Batch.Item(id, false, "存在关联的导览点位");
        }
        var k := found.value;
        settings := settings[..k] + settings[k + 1..];
        assert forall j :: 0 <= j < |settings| ==> settings[j] == old(settings)[if j < k then j else j + 1];
      } else if op != "activate" && op != "deactivate" {
        return Batch.Item(id, false, "不支持的操作");
      }
      e := Batch.Item(id, true, "操作成功");
    }

    /** The loop of the batch over every id. */
    method BatchAll(ids: seq<nat>, op: string) returns (entries: seq<Batch.Item>, success: nat, failed: nat)
      requires Valid()
      modifies this
      ensures Valid() && points == old(points) && nextSettingId == old(nextSettingId) && nextPointId == old(nextPointId)
      ensures BatchRun(old(settings), points, ids, op) == SettingsBatch(settings, entries)
      ensures success == Batch.CountOk(entries) && success + failed == |ids|
    {
      entries, success, failed := [], 0, 0;
      var i := 0;
      assert ids[..0] == [];
      while i < |ids|
        invariant 0 <= i <= |ids| && Valid()
        invariant points == old(points) && nextSettingId == old(nextSettingId) && nextPointId == old(nextPointId)
        invariant BatchSoFar(old(settings), points, ids, op, i, settings, entries, success, failed)
      {
        BatchSoFarStep(old(settings), points, ids, op, i, settings, entries, success, failed);
        var e := BatchOne(ids[i], op);
        entries, success, failed := entries + [e], success + Batch.Tally(e.ok), failed + 1 - Batch.Tally(e.ok);
        i := i + 1;
      }
      assert ids[..i] == ids;
    }

    /**
     * `batch_navigation_settings_operation`: an empty id list or operation
     * is a 400 that changes nothing; otherwise the ids are handled in order
     * as `BatchRun` says, each counted once.
     */
    method BatchSettingsOperation(ids: seq<nat>, op: string)
      returns (st: Status, entries: seq<Batch.Item>, success: nat, failed: nat)
      requires Valid()
      modifies this
      ensures Valid() && points == old(points) && nextSettingId == old(nextSettingId) && nextPointId == old(nextPointId)
      ensures ids == [] || op == "" ==>
                st == Status(400, "设置ID列表和操作类型不能为空") && entries == [] && settings == old(settings)
      ensures ids != [] && op != "" ==>
                BatchRun(old(settings), points, ids, op) == SettingsBatch(settings, entries)
                && success == Batch.CountOk(entries) && success + failed == |ids|
                && st == Status(200, Batch.Summary(success, failed))
    {
      if ids == [] || op == "" {
        return Status(400, "设置ID列表和操作类型不能为空"), [], 0, 0;
      }
      entries, success, failed := BatchAll(ids, op);
      st := Status(200, Batch.Summary(success, failed));
    }

    // The handlers as written. `delete_navigation_setting` and
    // `create_navigation_point` raise before they write, so they change
    // nothing. The others commit their write and then pass `action_type`
    // (and `target_type` and `target_id`) to `create_log`, which does not
    // declare them, so the route's `except` branch answers with a 500
    // although the write stays committed.

    /**
     * `delete_navigation_setting` as written: the refusals are those of
     * `DeleteSetting`, but for a setting it may delete the route first reads
     * `setting.name`, which `NavigationSettings` does not declare; the
     * `AttributeError` reaches the `except` branch before the delete, so the
     * reply is a 500 and the setting is kept (the method changes nothing).
     */
    method DeleteSettingAsWritten(id: nat) returns (st: Status)
      requires Valid()
      ensures FindSetting(settings, id).None? ==> st == Status(404, "导览设置不存在")
      ensures FindSetting(settings, id).Some? && PointCount(points, id) > 0 ==>
                st == Status(400, "该导览设置下还有 " + Text.NatToString(PointCount(points, id)) + " 个导览点位，不能删除")
      ensures FindSetting(settings, id).Some? && PointCount(points, id) == 0 ==>
                st == Status(500, "导览设置删除失败: ")
    {
      var k := FindSetting(settings, id);
      if k.None? {
        return Status(404, "导览设置不存在");
      }
      var n := PointCount(points, id);
      if n > 0 {
        return Status(400, "该导览设置下还有 " + Text.NatToString(n) + " 个导览点位，不能删除");
      }
      st := Status(500, "导览设置删除失败: ");
    }

    /**
     * `create_navigation_point` as written: the refusals are those of
     * `CreatePoint`, but the constructor is passed keywords `NavigationPoint`
     * does not declare (`x_coordinate` and the rest), so it raises before
     * `save()`: the reply is a 500 and no point is added (the method changes
     * nothing).
     */
    method CreatePointAsWritten(body: PointBody, user: nat) returns (st: Status)
      requires Valid()
      ensures MissingField(body).Some? ==> st == Status(400, MissingField(body).value + "不能为空")
      ensures MissingField(body).None? && FindSetting(settings, body.settingId.value).None? ==>
                st == Status(400, "导览设置不存在")
      ensures MissingField(body).None? && FindSetting(settings, body.settingId.value).Some? ==>
                st == Status(500, "导览点位创建失败: ")
    {
      var missing := MissingField(body);
      if missing.Some? {
        return Status(400, missing.value + "不能为空");
      }
      if FindSetting(settings, body.settingId.value).None? {
        return Status(400, "导览设置不存在");
      }
      st := Status(500, "导览点位创建失败: ");
    }

    /** `delete_navigation_point` as written: a deletion that closed the gap is answered with a 500. */
    method DeletePointAsWritten(id: nat) returns (st: Status)
      requires Valid()
      modifies this
      ensures Valid() && settings == old(settings) && nextSettingId == old(nextSettingId) && nextPointId == old(nextPointId)
      ensures FindPoint(old(points), id).None? ==> st == Status(404, "导览点位不存在") && points == old(points)
      ensures FindPoint(old(points), id).Some? ==>
                st == Status(500, "导览点位删除失败: " + OperationLogs.Refusal)
                && points == AfterDelete(old(points), FindPoint(old(points), id).value)
    {
      st := DeletePoint(id);
      if st.code == 200 {
        OperationLogs.RouteCallsRefused(st, "导览点位删除失败: ");
        st := OperationLogs.AfterLog(st, OperationLogs.TargetKeywords, "导览点位删除失败: ");
      }
    }

    /** `move_navigation_point` as written: a committed move is answered with a 500. */
    method MovePointAsWritten(id: nat, newOrder: Option<int>, direction: Option<string>) returns (st: Status)
      requires Valid()
      modifies this
      ensures Valid() && settings == old(settings) && nextSettingId == old(nextSettingId) && nextPointId == old(nextPointId)
      ensures FindPoint(old(points), id).None? ==> st == Status(404, "导览点位不存在") && points == old(points)
      ensures FindPoint(old(points), id).Some? ==>
                st == Status(500, "点位顺序调整失败: " + OperationLogs.Refusal)
                && points == AfterMove(old(points), FindPoint(old(points), id).value, newOrder, direction)
    {
      var moved;
      st, moved := MovePoint(id, newOrder, direction);
      if st.code == 200 {
        OperationLogs.RouteCallsRefused(st, "点位顺序调整失败: ");
        st := OperationLogs.AfterLog(st, OperationLogs.TargetKeywords, "点位顺序调整失败: ");
      }
    }

    /**
     * `batch_navigation_settings_operation` as written: once the ids are
     * handled, the batch log call fails and the reply is a 500 without the
     * per-id results.
     */
    method BatchSettingsOperationAsWritten(ids: seq<nat>, op: string) returns (st: Status)
      requires Valid()
      modifies this
      ensures Valid() && points == old(points) && nextSettingId == old(nextSettingId) && nextPointId == old(nextPointId)
      ensures ids == [] || op == "" ==> st == Status(400, "设置ID列表和操作类型不能为空") && settings == old(settings)
      ensures ids != [] && op != "" ==>
                settings == BatchRun(old(settings), points, ids, op).settings
                && st == Status(500, "批量操作失败: " + OperationLogs.Refusal)
    {
      var entries, success, failed;
      st, entries, success, failed := BatchSettingsOperation(ids, op);
      if st.code == 200 {
        OperationLogs.RouteCallsRefused(st, "批量操作失败: ");
        st := OperationLogs.AfterLog(st, OperationLogs.BatchKeywords, "批量操作失败: ");
      }
    }
  }
}
