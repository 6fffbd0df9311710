/**
 * One robot of the fleet (backend/app/models/equipment.py): the readings
 * derived from its state (health score, online, available, status text,
 * diagnosis) and the operations that change it (status, offline and error
 * flags, maintenance mode, start, stop, restart, shutdown, usage rate).
 * Each operation is a pure transition on `DeviceState`; the `Equipment`
 * class applies it to its own fields. The clock is the parameter `now`.
 */
module Devices {
  import opened Wrappers
  import Text

  /** The columns an operation can change; `None` is SQL NULL. */
  datatype DeviceState = DeviceState(
    location: string,
    status: Option<string>,
    ipAddress: Option<string>,
    lastActive: Option<int>,
    usageRate: Option<string>,
    isOffline: bool,
    hasError: bool)

  /** `is_online`: neither offline nor faulty. */
  predicate IsOnline(s: DeviceState)
  {
    !s.isOffline && !s.hasError
  }

  /** The status column says 'maintenance'. */
  predicate InMaintenance(s: DeviceState)
  {
    s.status == Some("maintenance")
  }

  /** `is_available`: online and not in maintenance. */
  predicate IsAvailable(s: DeviceState)
  {
    IsOnline(s) && !InMaintenance(s)
  }

  /**
   * `get_health_score`: 100, less 50 when offline and 30 when faulty, never
   * below 0. The four possible scores tell both flags apart.
   */
  function HealthScore(s: DeviceState): (score: int)
    ensures score == 100 || score == 70 || score == 50 || score == 20
    ensures score == 100 <==> IsOnline(s)
    ensures s.isOffline <==> score <= 50
    ensures s.hasError <==> (score == 70 || score == 20)
  {
    var score := 100 - (if s.isOffline then 50 else 0) - (if s.hasError then 30 else 0);
    if score < 0 then 0 else score
  }

  /** The display texts of the known statuses. */
  const StatusTexts: map<string, string> := map[
    "online" := "在线",
    "offline" := "离线",
    "teaching" := "教学中",
    "touring" := "导览中",
    "standby" := "待机中",
    "maintenance" := "维护中"
  ]

  /** `get_status_display`: the known text, or '未知' for NULL and any other status. */
  function StatusDisplay(status: Option<string>): (text: string)
    ensures status.Some? && status.value in StatusTexts ==> text == StatusTexts[status.value]
    ensures text == "未知" <==> status.None? || status.value !in StatusTexts
  {
    if status.Some? && status.value in StatusTexts then StatusTexts[status.value] else "未知"
  }

  /** Distinct known statuses are displayed differently. */
  lemma StatusDisplayInjective(a: string, b: string)
    requires a in StatusTexts && b in StatusTexts
    requires StatusDisplay(Some(a)) == StatusDisplay(Some(b))
    ensures a == b
  {
  }

  /** The status `set_maintenance_mode` writes. */
  function MaintenanceStatus(maintenance: bool, isOffline: bool): string
  {
    if maintenance then "maintenance" else if isOffline then "offline" else "online"
  }

  /**
   * `set_maintenance_mode`: entering maintenance makes the robot unavailable;
   * leaving it writes 'offline' or 'online' after the offline flag, so the
   * robot is available again exactly when it is online. Only the status
   * changes.
   */
  function WithMaintenance(s: DeviceState, maintenance: bool): (r: DeviceState)
    ensures InMaintenance(r) <==> maintenance
    ensures maintenance ==> !IsAvailable(r)
    ensures !maintenance ==> (IsAvailable(r) <==> IsOnline(s))
    ensures !maintenance ==> (r.status == Some("offline") <==> s.isOffline)
    ensures r == s.(status := r.status)
  {
    s.(status := Some(MaintenanceStatus(maintenance, s.isOffline)))
  }

  /** `toggle_maintenance_mode`: maintenance is switched off when on and on when off. */
  function Toggled(s: DeviceState): (r: DeviceState)
    ensures InMaintenance(r) <==> !InMaintenance(s)
    ensures r == s.(status := r.status)
  {
    WithMaintenance(s, !InMaintenance(s))
  }

  /**
   * Toggling twice gives back a robot that was in maintenance, or whose
   * status agreed with its offline flag.
   */
  lemma ToggleTwice(s: DeviceState)
    requires InMaintenance(s) || s.status == Some(MaintenanceStatus(false, s.isOffline))
    ensures Toggled(Toggled(s)) == s
  {
  }

  /**
   * Any other status (teaching, touring, standby, NULL, ...) is lost by a
   * round trip through maintenance: it comes back as 'online' or 'offline'.
   */
  lemma ToggleTwiceForgets(s: DeviceState)
    requires !InMaintenance(s)
    ensures Toggled(Toggled(s)).status == Some(MaintenanceStatus(false, s.isOffline))
  {
  }

  /**
   * `start` (and the final state of `restart`): online, fault cleared,
   * available, seen now; the location, address and usage rate are kept.
   */
  function Started(s: DeviceState, now: int): (r: DeviceState)
    ensures IsAvailable(r) && HealthScore(r) == 100
    ensures r.status == Some("online") && r.lastActive == Some(now)
    ensures r.location == s.location && r.ipAddress == s.ipAddress && r.usageRate == s.usageRate
  {
    s.(isOffline := false, hasError := false, status := Some("online"), lastActive := Some(now))
  }

  /**
   * `stop` and `shutdown`: offline, so no longer online and scoring at most
   * 50; the fault flag and everything else are kept.
   */
  function Stopped(s: DeviceState): (r: DeviceState)
    ensures !IsOnline(r) && HealthScore(r) <= 50
    ensures r.status == Some("offline")
    ensures r.hasError == s.hasError && r.lastActive == s.lastActive
    ensures r.location == s.location && r.ipAddress == s.ipAddress && r.usageRate == s.usageRate
  {
    s.(isOffline := true, status := Some("offline"))
  }

  /** Stopping a started robot, or starting a stopped one, depends only on the last step. */
  lemma StartStopForget(s: DeviceState, now: int)
    ensures Stopped(Started(s, now)).status == Stopped(s).status
    ensures Started(Stopped(s), now) == Started(s, now)
  {
  }

  /**
   * `update_usage_rate`: a rate within 0..100 is stored (as its decimal text,
   * the column being textual) and reads back as the same number; any other
   * rate leaves the robot unchanged.
   */
  function WithUsageRate(s: DeviceState, rate: int): (r: DeviceState)
    ensures 0 <= rate <= 100 ==> r.usageRate.Some? && Text.ParseNat(r.usageRate.value) == Some(rate)
    ensures !(0 <= rate <= 100) ==> r == s
    ensures r == s.(usageRate := r.usageRate)
  {
    if 0 <= rate <= 100 then
      Text.ParseNatToString(rate);
      s.(usageRate := Some(Text.NatToString(rate)))
    else s
  }

  /** The dict `diagnose` returns. */
  datatype Diagnosis = Diagnosis(status: string, healthScore: int, lastActive: Option<int>,
                                 isOffline: bool, hasError: bool)

  /** `diagnose`: 'healthy' exactly when there is no fault, with the health score and flags. */
  function Diagnose(s: DeviceState): (d: Diagnosis)
    ensures d.status == "healthy" <==> !s.hasError
    ensures d.status == "healthy" || d.status == "error"
    ensures d.healthScore == HealthScore(s)
    ensures d.isOffline == s.isOffline && d.hasError == s.hasError && d.lastActive == s.lastActive
  {
    Diagnosis(if !s.hasError then "healthy" else "error", HealthScore(s), s.lastActive, s.isOffline, s.hasError)
  }

  /** An `equipment` row; the id is its primary key and never changes. */
  class Equipment {
    const id: string
    var location: string
    var status: Option<string>
    var ipAddress: Option<string>
    var lastActive: Option<int>
    var usageRate: Option<string>
    var isOffline: bool
    var hasError: bool

    /** The row's changeable columns as a value. */
    function State(): DeviceState
      reads this
    {
      DeviceState(location, status, ipAddress, lastActive, usageRate, isOffline, hasError)
    }

    /** `Equipment(id=..., ...)`: a new row with the given columns. */
    constructor (id: string, init: DeviceState)
      ensures this.id == id && State() == init
    {
      this.id := id;
      location := init.location;
      status := init.status;
      ipAddress := init.ipAddress;
      lastActive := init.lastActive;
      usageRate := init.usageRate;
      isOffline := init.isOffline;
      hasError := init.hasError;
    }

    /** `update_status`: the status column takes the new value. */
    method UpdateStatus(newStatus: Option<string>)
      modifies this
      ensures State() == old(State()).(status := newStatus)
    {
      status := newStatus;
    }

    /** `set_offline`. */
    method SetOffline(offline: bool)
      modifies this
      ensures State() == old(State()).(isOffline := offline)
      ensures HealthScore(State()) <= 50 <==> offline
    {
      isOffline := offline;
    }

    /** `set_error`. */
    method SetError(error: bool)
      modifies this
      ensures State() == old(State()).(hasError := error)
      ensures error ==> !IsOnline(State())
    {
      hasError := error;
    }

    /** `update_last_active`. */
    method UpdateLastActive(now: int)
      modifies this
      ensures State() == old(State()).(lastActive := Some(now))
    {
      lastActive := Some(now);
    }

    /** `set_maintenance_mode`. */
    method SetMaintenanceMode(maintenance: bool)
      modifies this
      ensures State() == WithMaintenance(old(State()), maintenance)
    {
      if maintenance {
        status := Some("maintenance");
      } else {
        status := Some(if !isOffline then "online" else "offline");
      }
    }

    /** `toggle_maintenance_mode`. */
    method ToggleMaintenanceMode()
      modifies this
      ensures State() == Toggled(old(State()))
    {
      var current := status == Some("maintenance");
      SetMaintenanceMode(!current);
    }

    /** `update_usage_rate`. */
    method UpdateUsageRate(rate: int)
      modifies this
      ensures State() == WithUsageRate(old(State()), rate)
    {
      if 0 <= rate <= 100 {
        usageRate := Some(Text.NatToString(rate));
      }
    }

    /** `start`. */
    method Start(now: int)
      modifies this
      ensures State() == Started(old(State()), now)
    {
      isOffline := false;
      hasError := false;
      status := Some("online");
      lastActive := Some(now);
    }

    /** `stop`. */
    method Stop()
      modifies this
      ensures State() == Stopped(old(State()))
    {
      isOffline := true;
      status := Some("offline");
    }

    /**
     * `restart`: saved as offline first, then brought back exactly as
     * `start` would; the pause between the two saves is not modelled.
     */
    method Restart(now: int)
      modifies this
      ensures State() == Started(old(State()), now)
    {
      status := Some("offline");
      isOffline := false;
      hasError := false;
      status := Some("online");
      lastActive := Some(now);
    }

    /** `shutdown`: the same writes as `stop`. */
    method Shutdown()
      modifies this
      ensures State() == Stopped(old(State()))
    {
      isOffline := true;
      status := Some("offline");
    }

    /** `reboot` is `restart`. */
    method Reboot(now: int)
      modifies this
      ensures State() == Started(old(State()), now)
    {
      Restart(now);
    }
  }
}
