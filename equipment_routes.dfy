/**
 * The equipment endpoints (backend/app/routes/equipment_routes.py) over the
 * whole fleet: creation, field update, deletion, the status change with its
 * history rule, the control actions, the maintenance switch, the batch
 * operation and the spreadsheet import. Each route is specified by a pure
 * function over the fleet's states by id (`Snapshot`); the methods of
 * `Fleet` perform the writes and are proved to agree with it.
 */
module EquipmentRoutes {
  import opened Wrappers
  import Text
  import Batch
  import opened ResultEnvelope
  import opened Devices

  /** The states of all robots, by id. */
  type FleetState = map<string, DeviceState>

  // ---------------------------------------------------------------------
  // create_equipment
  // ---------------------------------------------------------------------

  /**
   * The JSON body of a create request: "" stands for an absent or empty
   * id or location, `None` for an absent optional field.
   */
  datatype CreateInput = CreateInput(id: string, location: string, status: Option<string>,
                                     ipAddress: Option<string>, usageRate: Option<string>)

  /** The 400 reply a create body earns, if any: id, then location, then duplicate id. */
  function CreateCheck(m: FleetState, body: CreateInput): (r: Option<Status>)
    ensures r.None? <==> body.id != "" && body.location != "" && body.id !in m
    ensures r.Some? ==> r.value.code == 400
    ensures body.id != "" && body.location != "" && body.id in m ==> r == Some(Status(400, "设备ID已存在"))
  {
    if body.id == "" then Some(Status(400, "id不能为空"))
    else if body.location == "" then Some(Status(400, "location不能为空"))
    else if body.id in m then Some(Status(400, "设备ID已存在"))
    else None
  }

  /**
   * The new row: status 'offline' and usage '0%' unless given; the offline
   * and fault flags take their column defaults (false), whatever the status.
   */
  function NewDevice(body: CreateInput): (s: DeviceState)
    ensures s.location == body.location && s.ipAddress == body.ipAddress && s.lastActive.None?
    ensures s.status == Some(body.status.UnwrapOr("offline"))
    ensures s.usageRate == Some(body.usageRate.UnwrapOr("0%"))
    ensures IsOnline(s)
  {
    DeviceState(body.location, Some(body.status.UnwrapOr("offline")), body.ipAddress, None,
                Some(body.usageRate.UnwrapOr("0%")), false, false)
  }

  /**
   * A robot created without a status reads 'offline' while its flags say
   * it is online with full health: the two views of "offline" disagree.
   */
  lemma CreatedStatusDisagrees(body: CreateInput)
    requires body.status.None?
    ensures NewDevice(body).status == Some("offline")
    ensures IsOnline(NewDevice(body)) && HealthScore(NewDevice(body)) == 100
  {
  }

  datatype Outcome = Outcome(st: Status, fleet: FleetState)

  /** `create_equipment`: a valid body adds exactly one robot under its id. */
  function Create(m: FleetState, body: CreateInput): (r: Outcome)
    ensures CreateCheck(m, body).Some? ==> r == Outcome(CreateCheck(m, body).value, m)
    ensures CreateCheck(m, body).None? ==>
              r.st == Status(200, "设备创建成功") && r.fleet.Keys == m.Keys + {body.id}
              && r.fleet[body.id] == NewDevice(body)
              && forall k :: k in m ==> r.fleet[k] == m[k]
  {
    if CreateCheck(m, body).Some? then Outcome(CreateCheck(m, body).value, m)
    else Outcome(Status(200, "设备创建成功"), m[body.id := NewDevice(body)])
  }

  // ---------------------------------------------------------------------
  // update_equipment
  // ---------------------------------------------------------------------

  /**
   * An update body: the updatable fields present in it, each with its new
   * value, and whether it holds any other key.
   */
  datatype Patch = Patch(location: Option<string>, status: Option<Option<string>>,
                         ipAddress: Option<Option<string>>, usageRate: Option<Option<string>>,
                         isOffline: Option<bool>, hasError: Option<bool>, otherKeys: bool)

  /** A body with none of the updatable fields. */
  predicate IsEmptyPatch(p: Patch)
  {
    p.location.None? && p.status.None? && p.ipAddress.None? && p.usageRate.None?
    && p.isOffline.None? && p.hasError.None?
  }

  /** `not data`: the body holds no key at all. */
  predicate IsEmptyBody(p: Patch)
  {
    IsEmptyPatch(p) && !p.otherKeys
  }

  /** The fields present in the body overwrite the row; the others and `last_active` are kept. */
  function Patched(s: DeviceState, p: Patch): (r: DeviceState)
    ensures IsEmptyPatch(p) ==> r == s
    ensures r.lastActive == s.lastActive
    ensures p.location.None? ==> r.location == s.location
    ensures p.status.None? ==> r.status == s.status
    ensures p.isOffline.None? && p.hasError.None? ==> (IsOnline(r) <==> IsOnline(s))
  {
    DeviceState(p.location.UnwrapOr(s.location), p.status.UnwrapOr(s.status),
                p.ipAddress.UnwrapOr(s.ipAddress), s.lastActive, p.usageRate.UnwrapOr(s.usageRate),
                p.isOffline.UnwrapOr(s.isOffline), p.hasError.UnwrapOr(s.hasError))
  }

  /** Applying the same update twice is applying it once. */
  lemma PatchIdempotent(s: DeviceState, p: Patch)
    ensures Patched(Patched(s, p), p) == Patched(s, p)
  {
  }

  /**
   * `update_equipment`: 404 for an unknown id, 400 for a body without any
   * key, else the patch; a body holding only keys the route ignores is a
   * success that changes nothing.
   */
  function Update(m: FleetState, id: string, p: Patch): (r: Outcome)
    ensures id !in m ==> r == Outcome(Status(404, "设备不存在"), m)
    ensures id in m && IsEmptyBody(p) ==> r == Outcome(Status(400, "请提供更新数据"), m)
    ensures id in m && !IsEmptyBody(p) ==>
              r == Outcome(Status(200, "设备更新成功"), m[id := Patched(m[id], p)])
    ensures id in m && IsEmptyPatch(p) && p.otherKeys ==> r == Outcome(Status(200, "设备更新成功"), m)
  {
    if id !in m then Outcome(Status(404, "设备不存在"), m)
    else if IsEmptyBody(p) then Outcome(Status(400, "请提供更新数据"), m)
    else Outcome(Status(200, "设备更新成功"), m[id := Patched(m[id], p)])
  }

  // ---------------------------------------------------------------------
  // update_equipment_status
  // ---------------------------------------------------------------------

  /** The history row `create_change_record` writes. */
  datatype StatusChange = StatusChange(equipmentId: string, previous: Option<string>, current: string)

  datatype StatusOutcome = StatusOutcome(st: Status, fleet: FleetState, history: Option<StatusChange>)

  /**
   * `update_equipment_status`: an unknown robot is a 404 and an empty
   * status a 400; otherwise the status is always written, and a history
   * row (old to new) is recorded exactly when the status really changes.
   */
  function StatusUpdate(m: FleetState, id: string, newStatus: string): (r: StatusOutcome)
    ensures id !in m ==> r == StatusOutcome(Status(404, "设备不存在"), m, None)
    ensures id in m && newStatus == "" ==> r == StatusOutcome(Status(400, "状态不能为空"), m, None)
    ensures id in m && newStatus != "" ==>
              r.st == Status(200, "设备状态更新成功")
              && r.fleet == m[id := m[id].(status := Some(newStatus))]
    ensures r.history.Some? <==> id in m && newStatus != "" && m[id].status != Some(newStatus)
    ensures r.history.Some? ==> r.history.value == StatusChange(id, m[id].status, newStatus)
  {
    if id !in m then StatusOutcome(Status(404, "设备不存在"), m, None)
    else if newStatus == "" then StatusOutcome(Status(400, "状态不能为空"), m, None)
    else
      var old_ := m[id].status;
      StatusOutcome(Status(200, "设备状态更新成功"), m[id := m[id].(status := Some(newStatus))],
                    if old_ != Some(newStatus) then Some(StatusChange(id, old_, newStatus)) else None)
  }

  /** Setting the status a robot already has records nothing and changes nothing. */
  lemma SameStatusNoHistory(m: FleetState, id: string, newStatus: string)
    requires id in m && newStatus != "" && m[id].status == Some(newStatus)
    ensures StatusUpdate(m, id, newStatus).history.None?
    ensures StatusUpdate(m, id, newStatus).fleet == m
  {
    assert m[id].(status := Some(newStatus)) == m[id];
  }

  // ---------------------------------------------------------------------
  // control_equipment
  // ---------------------------------------------------------------------

  /** The control actions the endpoint accepts. */
  datatype Action = Start | Stop | Restart | Shutdown | Reboot | Diagnose

  function ActionName(a: Action): string
  {
    match a
    case Start => "start"
    case Stop => "stop"
    case Restart => "restart"
    case Shutdown => "shutdown"
    case Reboot => "reboot"
    case Diagnose => "diagnose"
  }

  /** The dispatch of `control_equipment`: the action named, if it is one of the six. */
  function ParseAction(a: string): (r: Option<Action>)
    ensures r.Some? <==> a in {"start", "stop", "restart", "shutdown", "reboot", "diagnose"}
    ensures r.Some? ==> ActionName(r.value) == a
  {
    if a == "start" then Some(Start)
    else if a == "stop" then Some(Stop)
    else if a == "restart" then Some(Restart)
    else if a == "shutdown" then Some(Shutdown)
    else if a == "reboot" then Some(Reboot)
    else if a == "diagnose" then Some(Diagnose)
    else None
  }

  /** Each action is recognised by its own name. */
  lemma ParseActionName(a: Action)
    ensures ParseAction(ActionName(a)) == Some(a)
  {
  }

  /** The success message of each action. */
  function ActionMessage(a: Action): string
  {
    match a
    case Start => "设备启动成功"
    case Stop => "设备停止成功"
    case Restart => "设备重启成功"
    case Shutdown => "设备关闭成功"
    case Reboot => "设备重新启动成功"
    case Diagnose => "设备诊断完成"
  }

  /** The robot's state after an action: diagnosis changes nothing. */
  function Applied(a: Action, s: DeviceState, now: int): (r: DeviceState)
    ensures a in {Start, Restart, Reboot} ==> r == Started(s, now)
    ensures a in {Stop, Shutdown} ==> r == Stopped(s)
    ensures a == Diagnose ==> r == s
  {
    match a
    case Start => Started(s, now)
    case Restart => Started(s, now)
    case Reboot => Started(s, now)
    case Stop => Stopped(s)
    case Shutdown => Stopped(s)
    case Diagnose => s
  }

  /**
   * The reply and fleet after a control request, with the value of the
   * route's local `diagnosis`: the route computes it for 'diagnose' and then
   * drops it, since its reply carries `equipment.to_dict()` only.
   */
  datatype ControlOutcome = ControlOutcome(st: Status, fleet: FleetState, diagnosis: Option<Diagnosis>)

  /**
   * `control_equipment`: unknown robot 404, empty action 400, an action
   * outside the six 400 with nothing changed; otherwise the action is
   * applied to that robot alone, and a diagnosis is computed (and not sent)
   * exactly for 'diagnose'.
   */
  function Control(m: FleetState, id: string, action: string, now: int): (r: ControlOutcome)
    ensures id !in m ==> r == ControlOutcome(Status(404, "设备不存在"), m, None)
    ensures id in m && action == "" ==> r == ControlOutcome(Status(400, "操作类型不能为空"), m, None)
    ensures id in m && action != "" && ParseAction(action).None? ==>
              r == ControlOutcome(Status(400, "不支持的操作类型"), m, None)
    ensures id in m && ParseAction(action).Some? ==>
              var a := ParseAction(action).value;
              r.st == Status(200, ActionMessage(a)) && r.fleet == m[id := Applied(a, m[id], now)]
              && (r.diagnosis.Some? <==> a == Diagnose)
              && (r.diagnosis.Some? ==> r.diagnosis.value == Devices.Diagnose(m[id]))
  {
    if id !in m then ControlOutcome(Status(404, "设备不存在"), m, None)
    else if action == "" then ControlOutcome(Status(400, "操作类型不能为空"), m, None)
    else match ParseAction(action)
      case None => ControlOutcome(Status(400, "不支持的操作类型"), m, None)
      case Some(a) =>
        ControlOutcome(Status(200, ActionMessage(a)), m[id := Applied(a, m[id], now)],
                       if a == Diagnose then Some(Devices.Diagnose(m[id])) else None)
  }

  // ---------------------------------------------------------------------
  // toggle_maintenance_mode (route)
  // ---------------------------------------------------------------------

  /** The robot after the route's write: a toggle when no mode is given, else that mode. */
  function MaintenanceApplied(s: DeviceState, mode: Option<bool>): (r: DeviceState)
    ensures mode.None? ==> (InMaintenance(r) <==> !InMaintenance(s))
    ensures mode.Some? ==> (InMaintenance(r) <==> mode.value)
    ensures r == s.(status := r.status)
  {
    if mode.None? then Toggled(s) else WithMaintenance(s, mode.value)
  }

  /** The text of the `AttributeError` the route's log line raises. */
  const MissingAttribute: string := "'Equipment' object has no attribute 'maintenance_mode'"

  /**
   * The route as written: the write is saved, then the log line reads
   * `equipment.maintenance_mode`, a column the model no longer has, so
   * every found robot gets the 500 reply although the switch took effect.
   */
  function MaintenanceAsWritten(m: FleetState, id: string, mode: Option<bool>): (r: Outcome)
    ensures id !in m ==> r == Outcome(Status(404, "设备不存在"), m)
    ensures id in m ==> r.st == Status(500, "维护模式切换失败: " + MissingAttribute)
    ensures id in m ==> r.fleet == m[id := MaintenanceApplied(m[id], mode)]
  {
    if id !in m then Outcome(Status(404, "设备不存在"), m)
    else Outcome(Status(500, "维护模式切换失败: " + MissingAttribute), m[id := MaintenanceApplied(m[id], mode)])
  }

  /** The wording of the corrected reply: entering when the robot ends in maintenance. */
  function MaintenanceVerb(s: DeviceState): string
  {
    if InMaintenance(s) then "进入维护模式" else "退出维护模式"
  }

  /**
   * The route as intended: the same write, then a success reply that names
   * the direction of the switch from the status it left.
   */
  function Maintenance(m: FleetState, id: string, mode: Option<bool>): (r: Outcome)
    ensures id !in m ==> r == Outcome(Status(404, "设备不存在"), m)
    ensures id in m ==> r.fleet == m[id := MaintenanceApplied(m[id], mode)]
    ensures id in m ==> r.st.code == 200
    ensures id in m ==> (r.st.message == "设备进入维护模式成功" <==> InMaintenance(r.fleet[id]))
  {
    if id !in m then Outcome(Status(404, "设备不存在"), m)
    else
      var s := MaintenanceApplied(m[id], mode);
      assert "设备退出维护模式成功"[2] != "设备进入维护模式成功"[2];
      Outcome(Status(200, "设备" + MaintenanceVerb(s) + "成功"), m[id := s])
  }

  /**
   * The discrepancy: for a found robot the written route answers 500 while
   * leaving exactly the state of a successful switch, and a toggle always
   * changes that state.
   */
  lemma MaintenanceFailsAfterWrite(m: FleetState, id: string, mode: Option<bool>)
    requires id in m
    ensures MaintenanceAsWritten(m, id, mode).st.code == 500
    ensures Maintenance(m, id, mode).st.code == 200
    ensures MaintenanceAsWritten(m, id, mode).fleet == Maintenance(m, id, mode).fleet
    ensures mode.None? ==> MaintenanceAsWritten(m, id, mode).fleet != m
  {
    if mode.None? {
      var r := MaintenanceAsWritten(m, id, mode).fleet;
      assert InMaintenance(r[id]) != InMaintenance(m[id]);
    }
  }

  // ---------------------------------------------------------------------
  // batch_equipment_operation
  // ---------------------------------------------------------------------

  /** One entry of the batch `results`: the equipment id, success or failure, and the message. */
  datatype Entry = Entry(id: string, ok: bool, message: string)

  /** The number of successful entries. */
  function CountOk(es: seq<Entry>): (n: nat)
    ensures n <= |es|
  {
    if es == [] then 0 else CountOk(es[..|es| - 1]) + Batch.Tally(es[|es| - 1].ok)
  }

  lemma CountOkAppend(es: seq<Entry>, e: Entry)
    ensures CountOk(es + [e]) == CountOk(es) + Batch.Tally(e.ok)
  {
    assert (es + [e])[..|es|] == es;
  }

  /** The operations the batch endpoint knows. */
  predicate KnownBatchOp(op: string)
  {
    op in {"delete", "maintenance_on", "maintenance_off", "restart"}
  }

  datatype BatchState = BatchState(fleet: FleetState, entries: seq<Entry>)

  /** One id of the batch: missing robots and unknown operations fail, the rest succeed. */
  function BatchStep(m: FleetState, id: string, op: string, now: int): (r: BatchState)
    ensures |r.entries| == 1 && r.entries[0].id == id
    ensures r.entries[0].ok <==> id in m && KnownBatchOp(op)
    ensures !r.entries[0].ok ==> r.fleet == m
    ensures r.fleet.Keys == if op == "delete" then m.Keys - {id} else m.Keys
    ensures forall k :: k in r.fleet && k != id ==> r.fleet[k] == m[k]
  {
    if id !in m then BatchState(m, [Entry(id, false, "设备不存在")])
    else if op == "delete" then BatchState(m - {id}, [Entry(id, true, "操作成功")])
    else if op == "maintenance_on" then BatchState(m[id := WithMaintenance(m[id], true)], [Entry(id, true, "操作成功")])
    else if op == "maintenance_off" then BatchState(m[id := WithMaintenance(m[id], false)], [Entry(id, true, "操作成功")])
    else if op == "restart" then BatchState(m[id := Started(m[id], now)], [Entry(id, true, "操作成功")])
    else BatchState(m, [Entry(id, false, "不支持的操作")])
  }

  /** The ids in order, each handled by `BatchStep` on the fleet the earlier ones left. */
  function BatchRun(m: FleetState, ids: seq<string>, op: string, now: int): (r: BatchState)
    ensures |r.entries| == |ids|
    ensures forall j :: 0 <= j < |ids| ==> r.entries[j].id == ids[j]
  {
    if ids == [] then BatchState(m, [])
    else
      var prev := BatchRun(m, ids[..|ids| - 1], op, now);
      var s := BatchStep(prev.fleet, ids[|ids| - 1], op, now);
      BatchState(s.fleet, prev.entries + s.entries)
  }

  /** Robots whose ids are not listed are neither removed nor changed by a batch. */
  lemma {:induction false} BatchKeepsOthers(m: FleetState, ids: seq<string>, op: string, now: int)
    ensures BatchRun(m, ids, op, now).fleet.Keys <= m.Keys
    ensures forall k :: k in m && k !in ids ==>
              (k in BatchRun(m, ids, op, now).fleet && BatchRun(m, ids, op, now).fleet[k] == m[k])
  {
    if ids != [] {
      var front := ids[..|ids| - 1];
      BatchKeepsOthers(m, front, op, now);
      assert forall k :: k in front ==> k in ids;
    }
  }

  /** An unknown operation changes nothing and fails every id. */
  lemma {:induction false} UnknownBatchOp(m: FleetState, ids: seq<string>, op: string, now: int)
    requires !KnownBatchOp(op)
    ensures BatchRun(m, ids, op, now).fleet == m
    ensures forall j :: 0 <= j < |ids| ==> !BatchRun(m, ids, op, now).entries[j].ok
  {
    if ids != [] {
      UnknownBatchOp(m, ids[..|ids| - 1], op, now);
    }
  }

  /** After a batch delete none of the listed robots is left. */
  lemma {:induction false} BatchDeleteRemoves(m: FleetState, ids: seq<string>, now: int)
    ensures forall k :: k in ids ==> k !in BatchRun(m, ids, "delete", now).fleet
  {
    if ids != [] {
      var front := ids[..|ids| - 1];
      BatchDeleteRemoves(m, front, now);
      assert forall k :: k in ids ==> k in front || k == ids[|ids| - 1];
    }
  }

  /** After 'maintenance_on' every listed robot that exists is in maintenance. */
  lemma {:induction false} BatchMaintenanceOn(m: FleetState, ids: seq<string>, now: int)
    ensures forall k :: k in ids && k in BatchRun(m, ids, "maintenance_on", now).fleet ==>
              InMaintenance(BatchRun(m, ids, "maintenance_on", now).fleet[k])
  {
    if ids != [] {
      var front := ids[..|ids| - 1];
      BatchMaintenanceOn(m, front, now);
      assert forall k :: k in ids ==> k in front || k == ids[|ids| - 1];
    }
  }

  /** The run over one more id is the run so far followed by that id's step. */
  lemma BatchRunNext(m: FleetState, ids: seq<string>, i: nat, op: string, now: int)
    requires i < |ids|
    ensures BatchRun(m, ids[..i + 1], op, now)
      == BatchState(BatchStep(BatchRun(m, ids[..i], op, now).fleet, ids[i], op, now).fleet,
                    BatchRun(m, ids[..i], op, now).entries
                    + BatchStep(BatchRun(m, ids[..i], op, now).fleet, ids[i], op, now).entries)
  {
    var pre := ids[..i + 1];
    assert pre[..|pre| - 1] == ids[..i] && pre[|pre| - 1] == ids[i];
  }

  /** The batch loop's invariant: the first `i` ids handled as `BatchRun` says and counted. */
  ghost predicate BatchSoFar(m0: FleetState, ids: seq<string>, op: string, now: int, i: nat,
                             m: FleetState, entries: seq<Entry>, success: nat, failed: nat)
  {
    i <= |ids| && BatchRun(m0, ids[..i], op, now) == BatchState(m, entries)
    && success == CountOk(entries) && success + failed == i
  }

  lemma BatchSoFarStep(m0: FleetState, ids: seq<string>, op: string, now: int, i: nat,
                       m: FleetState, entries: seq<Entry>, success: nat, failed: nat)
    requires i < |ids| && BatchSoFar(m0, ids, op, now, i, m, entries, success, failed)
    ensures var s := BatchStep(m, ids[i], op, now);
            BatchSoFar(m0, ids, op, now, i + 1, s.fleet, entries + s.entries,
                       success + Batch.Tally(s.entries[0].ok), failed + 1 - Batch.Tally(s.entries[0].ok))
  {
    BatchRunNext(m0, ids, i, op, now);
    var s := BatchStep(m, ids[i], op, now);
    assert s.entries == [s.entries[0]];
    CountOkAppend(entries, s.entries[0]);
  }

  // ---------------------------------------------------------------------
  // batch_import_equipment (per-row normalisation)
  // ---------------------------------------------------------------------

  /**
   * One spreadsheet row with each cell as `str()` renders it ('nan' for an
   * empty cell); an optional column missing from the sheet reads as its
   * default ('' for the address, 'offline' for the status, '0%' for usage).
   */
  datatype Row = Row(index: nat, idCell: string, locationCell: string, ipCell: string,
                     statusCell: string, usageCell: string)

  /** The status an imported row gets: its lowered text when one of the three, else 'offline'. */
  function ImportStatus(cell: string): (st: string)
    ensures st == "online" || st == "offline" || st == "error"
    ensures Text.Lower(Text.Strip(cell)) in {"online", "offline", "error"} ==> st == Text.Lower(Text.Strip(cell))
    ensures !(Text.Lower(Text.Strip(cell)) in {"online", "offline", "error"}) ==> st == "offline"
  {
    var s := Text.Lower(Text.Strip(cell));
    if s == "nan" || !(s in {"online", "offline", "error"}) then "offline" else s
  }

  /** What a well-formed imported robot looks like: flags agree with the status. */
  predicate ImportedWellFormed(s: DeviceState)
  {
    s.status.Some? && s.status.value in {"online", "offline", "error"}
    && (s.isOffline <==> s.status == Some("offline"))
    && (s.hasError <==> s.status == Some("error"))
    && s.location != "" && s.location != "nan"
    && s.usageRate.Some? && s.usageRate.value != "nan"
  }

  /** The outcome of one row: a new robot, or a failure with its spreadsheet row number. */
  datatype RowResult = Created(id: string, device: DeviceState) | Rejected(row: nat, error: string)

  /**
   * The checks and normalisation of one row, in order: id present, location
   * present, id new; then the address ('nan' is NULL), the status and the
   * usage rate ('nan' is '0%').
   */
  function ImportRow(m: FleetState, row: Row): (r: RowResult)
    ensures r.Rejected? ==> r.row == row.index + 2
    ensures r.Created? ==> r.id !in m && ImportedWellFormed(r.device)
  {
    var id := Text.Strip(row.idCell);
    var location := Text.Strip(row.locationCell);
    if id == "" || id == "nan" then Rejected(row.index + 2, "设备ID不能为空")
    else if location == "" || location == "nan" then Rejected(row.index + 2, "设备位置不能为空")
    else if id in m then Rejected(row.index + 2, "设备ID已存在")
    else
      var ip := Text.Strip(row.ipCell);
      var status := ImportStatus(row.statusCell);
      var usage := Text.Strip(row.usageCell);
      Created(id, DeviceState(location, Some(status), if ip == "nan" then None else Some(ip), None,
                              Some(if usage == "nan" then "0%" else usage),
                              status == "offline", status == "error"))
  }

  /**
   * A row is rejected exactly when its stripped id or location is empty or
   * 'nan', or its id is taken; an accepted row keeps its stripped id and
   * location and gets the normalised status.
   */
  lemma ImportRowChecks(m: FleetState, row: Row)
    ensures ImportRow(m, row).Rejected? <==>
              Text.Strip(row.idCell) in {"", "nan"} || Text.Strip(row.locationCell) in {"", "nan"}
              || Text.Strip(row.idCell) in m
    ensures ImportRow(m, row).Created? ==>
              ImportRow(m, row).id == Text.Strip(row.idCell)
              && ImportRow(m, row).device.location == Text.Strip(row.locationCell)
              && ImportRow(m, row).device.status == Some(ImportStatus(row.statusCell))
              && ImportRow(m, row).device.lastActive.None?
  {
    var id, location := Text.Strip(row.idCell), Text.Strip(row.locationCell);
    assert id in {"", "nan"} <==> id == "" || id == "nan";
    assert location in {"", "nan"} <==> location == "" || location == "nan";
  }

  datatype ImportState = ImportState(fleet: FleetState, success: nat, failures: seq<(nat, string)>)

  /** The fleet after importing one more row. */
  function ImportAdd(s: ImportState, r: RowResult): ImportState
  {
    match r
    case Created(id, d) => ImportState(s.fleet[id := d], s.success + 1, s.failures)
    case Rejected(n, e) => ImportState(s.fleet, s.success, s.failures + [(n, e)])
  }

  /** The rows in order, each checked against the fleet the earlier rows left. */
  function ImportRun(m: FleetState, rows: seq<Row>): (r: ImportState)
    ensures r.success + |r.failures| == |rows|
  {
    if rows == [] then ImportState(m, 0, [])
    else
      var prev := ImportRun(m, rows[..|rows| - 1]);
      ImportAdd(prev, ImportRow(prev.fleet, rows[|rows| - 1]))
  }

  /**
   * An import never changes or removes a robot already there, and every
   * robot it adds is well formed.
   */
  lemma {:induction false} ImportKeeps(m: FleetState, rows: seq<Row>)
    ensures m.Keys <= ImportRun(m, rows).fleet.Keys
    ensures forall k :: k in m ==> ImportRun(m, rows).fleet[k] == m[k]
    ensures forall k :: k in ImportRun(m, rows).fleet && k !in m ==>
              ImportedWellFormed(ImportRun(m, rows).fleet[k])
  {
    if rows != [] {
      var front := rows[..|rows| - 1];
      ImportKeeps(m, front);
      var prev := ImportRun(m, front);
      var r := ImportRow(prev.fleet, rows[|rows| - 1]);
      var next := ImportRun(m, rows);
      assert next == ImportAdd(prev, r);
      if r.Created? {
        assert next.fleet == prev.fleet[r.id := r.device];
        assert r.id !in m;
        forall k | k in next.fleet && k !in m
          ensures ImportedWellFormed(next.fleet[k])
        {
          if k != r.id {
            assert k in prev.fleet;
          }
        }
      } else {
        assert next.fleet == prev.fleet;
      }
    }
  }

  /** Every failure carries a spreadsheet row number of some row: its index plus 2. */
  lemma {:induction false} ImportFailureRows(m: FleetState, rows: seq<Row>)
    ensures forall f :: f in ImportRun(m, rows).failures ==> exists r :: r in rows && f.0 == r.index + 2
  {
    if rows != [] {
      var front := rows[..|rows| - 1];
      ImportFailureRows(m, front);
      assert forall r :: r in front ==> r in rows;
    }
  }

  lemma ImportRunNext(m: FleetState, rows: seq<Row>, i: nat)
    requires i < |rows|
    ensures ImportRun(m, rows[..i + 1])
      == ImportAdd(ImportRun(m, rows[..i]), ImportRow(ImportRun(m, rows[..i]).fleet, rows[i]))
  {
    var pre := rows[..i + 1];
    assert pre[..|pre| - 1] == rows[..i] && pre[|pre| - 1] == rows[i];
  }

  /** The import loop's invariant: the first `i` rows handled as `ImportRun` says. */
  ghost predicate ImportSoFar(m0: FleetState, rows: seq<Row>, i: nat,
                              m: FleetState, success: nat, failures: seq<(nat, string)>)
  {
    i <= |rows| && ImportRun(m0, rows[..i]) == ImportState(m, success, failures)
  }

  lemma ImportSoFarStep(m0: FleetState, rows: seq<Row>, i: nat,
                        m: FleetState, success: nat, failures: seq<(nat, string)>, r: RowResult)
    requires i < |rows| && ImportSoFar(m0, rows, i, m, success, failures)
    requires r == ImportRow(m, rows[i])
    ensures r.Created? ==> ImportSoFar(m0, rows, i + 1, m[r.id := r.device], success + 1, failures)
    ensures r.Rejected? ==> ImportSoFar(m0, rows, i + 1, m, success, failures + [(r.row, r.error)])
  {
    ImportRunNext(m0, rows, i);
  }

  /** The summary the import returns. */
  datatype ImportReport = ImportReport(success: nat, failed: nat, total: nat, failedItems: seq<(nat, string)>)

  // ---------------------------------------------------------------------
  // The fleet
  // ---------------------------------------------------------------------

  /** The `equipment` table: every robot under its own id. */
  class Fleet {
    var devices: map<string, Equipment>

    /** Each robot is filed under its primary key, so distinct ids are distinct rows. */
    predicate Valid()
      reads this
    {
      forall k :: k in devices ==> devices[k].id == k
    }

    /** The state of every robot, by id. */
    function Snapshot(): FleetState
      reads this, devices.Values
    {
      map k | k in devices :: devices[k].State()
    }

    constructor ()
      ensures devices == map[] && Valid()
    {
      devices := map[];
    }

    /** `create_equipment`. */
    method CreateEquipment(body: CreateInput) returns (st: Status)
      requires Valid()
      modifies this
      ensures Valid()
      ensures Create(old(Snapshot()), body) == Outcome(st, Snapshot())
    {
      var check := CreateCheck(Snapshot(), body);
      if check.Some? {
        return check.value;
      }
      AddDevice(body.id, NewDevice(body));
      st := Status(200, "设备创建成功");
    }

    /** `delete_equipment`: an unknown id is a 404; otherwise that robot alone is removed. */
    method DeleteEquipment(id: string) returns (st: Status)
      requires Valid()
      modifies this
      ensures Valid()
      ensures id !in old(devices) ==> st == Status(404, "设备不存在") && Snapshot() == old(Snapshot())
      ensures id in old(devices) ==> st == Status(200, "设备删除成功") && Snapshot() == old(Snapshot()) - {id}
    {
      if id !in devices {
        return Status(404, "设备不存在");
      }
      devices := devices - {id};
      st := Status(200, "设备删除成功");
      assert Snapshot() == old(Snapshot()) - {id};
    }

    /** `update_equipment`. */
    method UpdateEquipment(id: string, p: Patch) returns (st: Status)
      requires Valid()
      modifies if id in devices then {devices[id]} else {}
      ensures Update(old(Snapshot()), id, p) == Outcome(st, Snapshot())
    {
      if id !in devices {
        return Status(404, "设备不存在");
      }
      if IsEmptyBody(p) {
        return Status(400, "请提供更新数据");
      }
      var e := devices[id];
      var s := Patched(e.State(), p);
      Overwrite(e, s);
      st := Status(200, "设备更新成功");
      assert forall k :: k in devices && k != id ==> devices[k] != e;
      assert Snapshot() == old(Snapshot())[id := e.State()];
    }

    /** The field assignments of `update_equipment`. */
    static method Overwrite(e: Equipment, s: DeviceState)
      requires s.lastActive == e.lastActive
      modifies e
      ensures e.State() == s
    {
      e.location, e.status, e.ipAddress, e.usageRate, e.isOffline, e.hasError :=
        s.location, s.status, s.ipAddress, s.usageRate, s.isOffline, s.hasError;
    }

    /** `update_equipment_status`: returns the history row it records, if any. */
    method UpdateEquipmentStatus(id: string, newStatus: string) returns (st: Status, history: Option<StatusChange>)
      requires Valid()
      modifies if id in devices then {devices[id]} else {}
      ensures StatusUpdate(old(Snapshot()), id, newStatus) == StatusOutcome(st, Snapshot(), history)
    {
      if id !in devices {
        return Status(404, "设备不存在"), None;
      }
      if newStatus == "" {
        return Status(400, "状态不能为空"), None;
      }
      var e := devices[id];
      var oldStatus := e.status;
      history := if oldStatus != Some(newStatus) then Some(StatusChange(id, oldStatus, newStatus)) else None;
      e.UpdateStatus(Some(newStatus));
      st := Status(200, "设备状态更新成功");
      assert forall k :: k in devices && k != id ==> devices[k] != e;
      assert Snapshot() == old(Snapshot())[id := e.State()];
    }

    /**
     * `control_equipment`; `diagnosis` is the value the route computes for
     * 'diagnose' and leaves out of its reply.
     */
    method ControlEquipment(id: string, action: string, now: int) returns (st: Status, diagnosis: Option<Diagnosis>)
      requires Valid()
      modifies if id in devices then {devices[id]} else {}
      ensures Control(old(Snapshot()), id, action, now) == ControlOutcome(st, Snapshot(), diagnosis)
    {
      diagnosis := None;
      if id !in devices {
        return Status(404, "设备不存在"), None;
      }
      if action == "" {
        return Status(400, "操作类型不能为空"), None;
      }
      var a := ParseAction(action);
      if a.None? {
        return Status(400, "不支持的操作类型"), None;
      }
      var e := devices[id];
      diagnosis := Perform(e, a.value, now);
      st := Status(200, ActionMessage(a.value));
      assert forall k :: k in devices && k != id ==> devices[k] != e;
      assert Snapshot() == old(Snapshot())[id := e.State()];
    }

    /** The action dispatch of `control_equipment` on the robot found. */
    static method Perform(e: Equipment, a: Action, now: int) returns (diagnosis: Option<Diagnosis>)
      modifies e
      ensures e.State() == Applied(a, old(e.State()), now)
      ensures diagnosis == if a == Diagnose then Some(Devices.Diagnose(old(e.State()))) else None
    {
      diagnosis := None;
      match a
      case Start => e.Start(now);
      case Stop => e.Stop();
      case Restart => e.Restart(now);
      case Shutdown => e.Shutdown();
      case Reboot => e.Reboot(now);
      case Diagnose => diagnosis := Some(Devices.Diagnose(e.State()));
    }

    /**
     * `toggle_maintenance_mode` as written: the switch is saved, then the
     * reply is the 500 the missing attribute causes.
     */
    method ToggleMaintenanceAsWritten(id: string, mode: Option<bool>) returns (st: Status)
      requires Valid()
      modifies if id in devices then {devices[id]} else {}
      ensures MaintenanceAsWritten(old(Snapshot()), id, mode) == Outcome(st, Snapshot())
    {
      if id !in devices {
        return Status(404, "设备不存在");
      }
      var e := devices[id];
      if mode.None? {
        e.ToggleMaintenanceMode();
      } else {
        e.SetMaintenanceMode(mode.value);
      }
      st := Status(500, "维护模式切换失败: " + MissingAttribute);
      assert forall k :: k in devices && k != id ==> devices[k] != e;
      assert Snapshot() == old(Snapshot())[id := e.State()];
    }

    /** `toggle_maintenance_mode` with the reply taken from the status the switch left. */
    method ToggleMaintenanceMode(id: string, mode: Option<bool>) returns (st: Status)
      requires Valid()
      modifies if id in devices then {devices[id]} else {}
      ensures Maintenance(old(Snapshot()), id, mode) == Outcome(st, Snapshot())
    {
      if id !in devices {
        return Status(404, "设备不存在");
      }
      var e := devices[id];
      if mode.None? {
        e.ToggleMaintenanceMode();
      } else {
        e.SetMaintenanceMode(mode.value);
      }
      var action := if e.status == Some("maintenance") then "进入维护模式" else "退出维护模式";
      st := Status(200, "设备" + action + "成功");
      assert forall k :: k in devices && k != id ==> devices[k] != e;
      assert Snapshot() == old(Snapshot())[id := e.State()];
    }

    /** The body of the batch loop for one id. */
    method BatchOne(id: string, op: string, now: int) returns (e: Entry)
      requires Valid()
      modifies this, devices.Values
      ensures Valid()
      ensures forall k :: k in devices ==> k in old(devices) && devices[k] == old(devices[k])
      ensures BatchStep(old(Snapshot()), id, op, now) == BatchState(Snapshot(), [e])
    {
      if id !in devices {
        return Entry(id, false, "设备不存在");
      }
      var d := devices[id];
      if op == "delete" {
        devices := devices - {id};
        assert Snapshot() == old(Snapshot()) - {id};
      } else if op == "maintenance_on" {
        d.SetMaintenanceMode(true);
        assert forall k :: k in devices && k != id ==> devices[k] != d;
        assert Snapshot() == old(Snapshot())[id := d.State()];
      } else if op == "maintenance_off" {
        d.SetMaintenanceMode(false);
        assert forall k :: k in devices && k != id ==> devices[k] != d;
        assert Snapshot() == old(Snapshot())[id := d.State()];
      } else if op == "restart" {
        d.Restart(now);
        assert forall k :: k in devices && k != id ==> devices[k] != d;
        assert Snapshot() == old(Snapshot())[id := d.State()];
      } else {
        return Entry(id, false, "不支持的操作");
      }
      e := Entry(id, true, "操作成功");
    }

    /**
     * `batch_equipment_operation`: an empty id list or operation is a 400
     * that changes nothing; otherwise the ids are handled in order as
     * `BatchRun` says, each counted once.
     */
    method BatchEquipmentOperation(ids: seq<string>, op: string, now: int)
      returns (st: Status, entries: seq<Entry>, success: nat, failed: nat)
      requires Valid()
      modifies this, devices.Values
      ensures Valid()
      ensures ids == [] || op == "" ==>
                st == Status(400, "设备ID列表和操作类型不能为空") && entries == [] && Snapshot() == old(Snapshot())
      ensures ids != [] && op != "" ==>
                BatchRun(old(Snapshot()), ids, op, now) == BatchState(Snapshot(), entries)
                && success == CountOk(entries) && success + failed == |ids|
                && st == Status(200, Batch.Summary(success, failed))
    {
      entries, success, failed := [], 0, 0;
      if ids == [] || op == "" {
        return Status(400, "设备ID列表和操作类型不能为空"), entries, success, failed;
      }
      ghost var m0 := Snapshot();
      var i := 0;
      assert ids[..0] == [];
      while i < |ids|
        invariant 0 <= i <= |ids| && Valid()
        invariant forall k :: k in devices ==> k in old(devices) && devices[k] == old(devices[k])
        invariant BatchSoFar(m0, ids, op, now, i, Snapshot(), entries, success, failed)
      {
        BatchSoFarStep(m0, ids, op, now, i, Snapshot(), entries, success, failed);
        var e := BatchOne(ids[i], op, now);
        entries, success, failed := entries + [e], success + Batch.Tally(e.ok), failed + 1 - Batch.Tally(e.ok);
        i := i + 1;
      }
      assert ids[..i] == ids;
      st := Status(200, Batch.Summary(success, failed));
    }

    /** Files a new robot under a free id. */
    method AddDevice(id: string, d: DeviceState)
      requires Valid() && id !in devices
      modifies this
      ensures Valid()
      ensures Snapshot() == old(Snapshot())[id := d]
    {
      var e := new Equipment(id, d);
      devices := devices[id := e];
      assert Snapshot() == old(Snapshot())[id := d];
    }

    /** One row of the import: the new robot is saved before the next row is read. */
    method ImportOne(row: Row) returns (r: RowResult)
      requires Valid()
      modifies this
      ensures Valid()
      ensures r == ImportRow(old(Snapshot()), row)
      ensures Snapshot() == if r.Created? then old(Snapshot())[r.id := r.device] else old(Snapshot())
    {
      r := ImportRow(Snapshot(), row);
      if r.Created? {
        AddDevice(r.id, r.device);
      }
    }

    /**
     * `batch_import_equipment` after the file has been read: every row is
     * imported or reported, and the counters cover all rows.
     */
    method BatchImportEquipment(rows: seq<Row>) returns (report: ImportReport)
      requires Valid()
      modifies this
      ensures Valid()
      ensures var run := ImportRun(old(Snapshot()), rows);
              Snapshot() == run.fleet && report.success == run.success
              && report.failedItems == run.failures && report.failed == |run.failures|
      ensures report.total == |rows| && report.success + report.failed == report.total
    {
      ghost var m0 := Snapshot();
      var success, failures := 0, [];
      var i := 0;
      assert rows[..0] == [];
      while i < |rows|
        invariant 0 <= i <= |rows| && Valid()
        invariant ImportSoFar(m0, rows, i, Snapshot(), success, failures)
      {
        ghost var before := Snapshot();
        var r := ImportOne(rows[i]);
        ImportSoFarStep(m0, rows, i, before, success, failures, r);
        if r.Created? {
          success := success + 1;
        } else {
          failures := failures + [(r.row, r.error)];
        }
        i := i + 1;
      }
      assert rows[..i] == rows;
      report := ImportReport(success, |failures|, |rows|, failures);
    }
  }
}
