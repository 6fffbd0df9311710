/**
 * The `DashboardStatistics` model (backend/app/models/dashboard_statistics.py):
 * one row of counters per day (optionally per hour), the uptime text, the
 * partial setters that change only the counters they are given, the
 * increments, the per-day upsert, and the zero guards of the rates.
 */
module Dashboard {
  import opened Wrappers
  import Text

  // ---------------------------------------------------------------------
  // get_uptime_display
  // ---------------------------------------------------------------------

  /** One part of the uptime text: an amount and its unit. */
  datatype Part = Part(amount: nat, unit: string)

  /** The seconds one unit of the uptime text stands for. */
  function UnitSeconds(unit: string): nat
  {
    if unit == "天" then 86400 else if unit == "小时" then 3600 else if unit == "分钟" then 60 else 1
  }

  /** The parts so far, with one more part when its amount is positive. */
  function AddPart(ps: seq<Part>, amount: int, unit: string): (r: seq<Part>)
    ensures amount > 0 ==> r == ps + [Part(amount, unit)]
    ensures amount <= 0 ==> r == ps
  {
    if amount > 0 then ps + [Part(amount, unit)] else ps
  }

  /** The parts for a split uptime: each positive amount, days first; seconds also when nothing else is shown. */
  function PartsOf(days: int, hours: nat, minutes: nat, seconds: nat): (ps: seq<Part>)
    ensures 1 <= |ps| <= 4
    ensures forall i :: 0 <= i < |ps| - 1 ==> ps[i].amount > 0
    ensures forall p :: p in ps ==> (
              (p.unit == "天" && p.amount == days) || p == Part(hours, "小时")
              || p == Part(minutes, "分钟") || p == Part(seconds, "秒"))
  {
    var ps := AddPart(AddPart(AddPart([], days, "天"), hours, "小时"), minutes, "分钟");
    if seconds > 0 || ps == [] then ps + [Part(seconds, "秒")] else ps
  }

  /** The parts of `get_uptime_display`, from its floor divisions of the uptime in seconds. */
  function UptimeParts(u: int): (ps: seq<Part>)
    ensures 1 <= |ps| <= 4
  {
    PartsOf(u / 86400, (u % 86400) / 3600, (u % 3600) / 60, u % 60)
  }

  /** The seconds the parts stand for. */
  function Weight(ps: seq<Part>): int
  {
    if ps == [] then 0 else Weight(ps[..|ps| - 1]) + ps[|ps| - 1].amount * UnitSeconds(ps[|ps| - 1].unit)
  }

  /** The parts written one after another. */
  function Render(ps: seq<Part>): string
  {
    if ps == [] then "" else Render(ps[..|ps| - 1]) + Text.NatToString(ps[|ps| - 1].amount) + ps[|ps| - 1].unit
  }

  /** `get_uptime_display`: '0秒' for a NULL or zero uptime, otherwise the parts. */
  function UptimeDisplay(uptime: Option<int>): (r: string)
    ensures uptime.None? || uptime == Some(0) ==> r == "0秒"
  {
    if uptime.None? || uptime.value == 0 then "0秒" else Render(UptimeParts(uptime.value))
  }

  /** A positive multiple of `k` is at least `k`. */
  lemma MultipleAtLeast(n: int, k: int)
    requires n >= 1 && k > 0
    ensures n * k >= k
  {
    assert n * k == (n - 1) * k + k;
  }

  /** A quotient and remainder that add back up to `x` are its division by `k`. */
  lemma DivModUnique(x: int, k: int, q: int, r: int)
    requires k > 0 && 0 <= r < k && x == q * k + r
    ensures x / k == q && x % k == r
  {
    var q', r' := x / k, x % k;
    assert q * k - q' * k == r' - r;
    assert (q - q') * k == q * k - q' * k;
    if q > q' {
      MultipleAtLeast(q - q', k);
    } else if q < q' {
      assert (q' - q) * k == q' * k - q * k;
      MultipleAtLeast(q' - q, k);
    }
  }

  /** The split of a number of seconds into days, hours below 24, minutes below 60 and seconds below 60. */
  lemma Split(u: int)
    ensures 0 <= (u % 86400) / 3600 < 24 && 0 <= (u % 3600) / 60 < 60 && 0 <= u % 60 < 60
    ensures (u / 86400) * 86400 + ((u % 86400) / 3600) * 3600 + ((u % 3600) / 60) * 60 + u % 60 == u
  {
    var d, r := u / 86400, u % 86400;
    var h, r2 := r / 3600, r % 3600;
    assert d * 86400 == (d * 24) * 3600;
    DivModUnique(u, 3600, d * 24 + h, r2);
    var m, s := r2 / 60, r2 % 60;
    assert (d * 24 + h) * 3600 == ((d * 24 + h) * 60) * 60;
    DivModUnique(u, 60, (d * 24 + h) * 60 + m, s);
  }

  /** A part adds its amount in seconds; a part left out adds nothing. */
  lemma AddPartWeight(ps: seq<Part>, amount: int, unit: string)
    requires amount >= 0
    ensures Weight(AddPart(ps, amount, unit)) == Weight(ps) + amount * UnitSeconds(unit)
  {
    if amount > 0 {
      assert (ps + [Part(amount, unit)])[..|ps|] == ps;
    }
  }

  /** The parts of a split stand for its seconds. */
  lemma PartsOfWeight(days: nat, hours: nat, minutes: nat, seconds: nat)
    ensures Weight(PartsOf(days, hours, minutes, seconds)) == days * 86400 + hours * 3600 + minutes * 60 + seconds
  {
    var a := AddPart([], days, "天");
    var b := AddPart(a, hours, "小时");
    var c := AddPart(b, minutes, "分钟");
    AddPartWeight([], days, "天");
    AddPartWeight(a, hours, "小时");
    AddPartWeight(b, minutes, "分钟");
    AddPartWeight(c, seconds, "秒");
    if seconds > 0 || c == [] {
      assert PartsOf(days, hours, minutes, seconds) == c + [Part(seconds, "秒")];
    }
  }

  /**
   * For a positive uptime the parts add back up to it: reading the text
   * with a day as 86400 seconds, an hour as 3600 and a minute as 60 gives
   * the uptime; the hours, minutes and seconds shown are below 24, 60 and 60.
   */
  lemma UptimePartsAddUp(u: int)
    requires u > 0
    ensures Weight(UptimeParts(u)) == u
    ensures forall p :: p in UptimeParts(u) && p.unit == "小时" ==> p.amount < 24
    ensures forall p :: p in UptimeParts(u) && (p.unit == "分钟" || p.unit == "秒") ==> p.amount < 60
  {
    Split(u);
    PartsOfWeight(u / 86400, (u % 86400) / 3600, (u % 3600) / 60, u % 60);
  }

  // ---------------------------------------------------------------------
  // The counters and their setters
  // ---------------------------------------------------------------------

  /** The integer counter columns, by name. */
  const CounterColumns: set<string> := {
    "total_devices", "total_online_devices", "total_offline_devices", "total_error_devices",
    "total_maintenance_devices", "total_courses_delivered", "total_tours_conducted",
    "total_interactions", "total_users", "active_users", "total_courseware",
    "total_navigation_points", "total_operations", "failed_operations",
    "peak_concurrent_users", "total_data_transfer", "system_uptime"
  }

  /** Every counter at its column default, 0. */
  function ZeroCounts(): (m: map<string, int>)
    ensures m.Keys == CounterColumns
    ensures forall k :: k in m ==> m[k] == 0
  {
    map k | k in CounterColumns :: 0
  }

  /** One argument of a partial setter: the counter takes it unless it is None. */
  function SetOne(counts: map<string, int>, arg: (string, Option<int>)): map<string, int>
  {
    if arg.1.Some? then counts[arg.0 := arg.1.value] else counts
  }

  /** The first `n` arguments applied in order. */
  function SetFirst(counts: map<string, int>, args: seq<(string, Option<int>)>, n: nat): map<string, int>
    requires n <= |args|
  {
    if n == 0 then counts else SetOne(SetFirst(counts, args, n - 1), args[n - 1])
  }

  /**
   * The partial setters (`update_device_counts`, `update_user_stats`, ...):
   * each named counter whose argument is not None takes it, in order.
   */
  function SetGiven(counts: map<string, int>, args: seq<(string, Option<int>)>): map<string, int>
  {
    SetFirst(counts, args, |args|)
  }

  /** The argument among the first `n` that decides a counter: the last one not None given for it. */
  function LastGiven(args: seq<(string, Option<int>)>, n: nat, name: string): Option<int>
    requires n <= |args|
  {
    if n == 0 then None
    else if args[n - 1].0 == name && args[n - 1].1.Some? then args[n - 1].1
    else LastGiven(args, n - 1, name)
  }

  /**
   * After the first `n` arguments a counter is present exactly when it was
   * before or an argument not None was given for it, and it holds the last
   * such argument, or its old value when there is none.
   */
  lemma {:induction false} SetFirstOnly(counts: map<string, int>, args: seq<(string, Option<int>)>, n: nat, name: string)
    requires n <= |args|
    ensures name in SetFirst(counts, args, n) <==> name in counts || LastGiven(args, n, name).Some?
    ensures name in SetFirst(counts, args, n) ==>
              SetFirst(counts, args, n)[name] == (if LastGiven(args, n, name).Some? then LastGiven(args, n, name).value else counts[name])
  {
    if n > 0 {
      SetFirstOnly(counts, args, n - 1, name);
    }
  }

  /**
   * A counter changes only when an argument not None is given for it, and
   * then holds the last such argument; every other counter is unchanged.
   */
  lemma SetGivenOnly(counts: map<string, int>, args: seq<(string, Option<int>)>, name: string)
    ensures name in SetGiven(counts, args) <==> name in counts || LastGiven(args, |args|, name).Some?
    ensures LastGiven(args, |args|, name).Some? ==> SetGiven(counts, args)[name] == LastGiven(args, |args|, name).value
    ensures LastGiven(args, |args|, name).None? && name in counts ==> SetGiven(counts, args)[name] == counts[name]
  {
    SetFirstOnly(counts, args, |args|, name);
  }

  /** Giving the same arguments twice changes nothing more than giving them once. */
  lemma SetGivenIdempotent(counts: map<string, int>, args: seq<(string, Option<int>)>)
    ensures SetGiven(SetGiven(counts, args), args) == SetGiven(counts, args)
  {
    var once := SetGiven(counts, args);
    var twice := SetGiven(once, args);
    forall k | k in twice || k in once
      ensures k in once && k in twice && twice[k] == once[k]
    {
      SetGivenOnly(counts, args, k);
      SetGivenOnly(once, args, k);
    }
  }

  /** Two arguments, applied one after the other. */
  lemma SetGivenTwo(counts: map<string, int>, args: seq<(string, Option<int>)>)
    requires |args| == 2
    ensures SetGiven(counts, args) == SetOne(SetOne(counts, args[0]), args[1])
  {
    assert SetFirst(counts, args, 1) == SetOne(counts, args[0]);
  }

  /** Three arguments, applied one after the other. */
  lemma SetGivenThree(counts: map<string, int>, args: seq<(string, Option<int>)>)
    requires |args| == 3
    ensures SetGiven(counts, args) == SetOne(SetOne(SetOne(counts, args[0]), args[1]), args[2])
  {
    assert SetFirst(counts, args, 1) == SetOne(counts, args[0]);
    assert SetFirst(counts, args, 2) == SetOne(SetFirst(counts, args, 1), args[1]);
  }

  /** Five arguments, applied one after the other. */
  lemma SetGivenFive(counts: map<string, int>, args: seq<(string, Option<int>)>)
    requires |args| == 5
    ensures SetGiven(counts, args)
            == SetOne(SetOne(SetOne(SetOne(SetOne(counts, args[0]), args[1]), args[2]), args[3]), args[4])
  {
    assert SetFirst(counts, args, 1) == SetOne(counts, args[0]);
    assert SetFirst(counts, args, 2) == SetOne(SetFirst(counts, args, 1), args[1]);
    assert SetFirst(counts, args, 3) == SetOne(SetFirst(counts, args, 2), args[2]);
    assert SetFirst(counts, args, 4) == SetOne(SetFirst(counts, args, 3), args[3]);
  }

  /** The argument list of `update_device_counts`. */
  function DeviceArgs(total: Option<int>, online: Option<int>, offline: Option<int>,
                      error: Option<int>, maintenance: Option<int>): seq<(string, Option<int>)>
  {
    [("total_devices", total), ("total_online_devices", online), ("total_offline_devices", offline),
     ("total_error_devices", error), ("total_maintenance_devices", maintenance)]
  }

  /** Counters given to a setter keep the columns: the setter names only counter columns. */
  lemma SetGivenKeepsColumns(counts: map<string, int>, args: seq<(string, Option<int>)>)
    requires counts.Keys == CounterColumns
    requires forall i :: 0 <= i < |args| ==> args[i].0 in CounterColumns
    ensures SetGiven(counts, args).Keys == CounterColumns
  {
    forall name | name in SetGiven(counts, args) || name in CounterColumns
      ensures name in SetGiven(counts, args) <==> name in CounterColumns
    {
      SetGivenOnly(counts, args, name);
      LastGivenNamed(args, |args|, name);
    }
  }

  /** An argument decides only a counter it names. */
  lemma {:induction false} LastGivenNamed(args: seq<(string, Option<int>)>, n: nat, name: string)
    requires n <= |args|
    ensures LastGiven(args, n, name).Some? ==> exists i :: 0 <= i < n && args[i].0 == name
  {
    if n > 0 && !(args[n - 1].0 == name && args[n - 1].1.Some?) {
      LastGivenNamed(args, n - 1, name);
    }
  }

  /** `increment_courses` / `increment_tours` / `increment_interactions`: one counter grows by `count`. */
  function Incremented(counts: map<string, int>, name: string, count: int): (r: map<string, int>)
    requires name in counts
    ensures r.Keys == counts.Keys && r[name] == counts[name] + count
    ensures forall k :: k in counts && k != name ==> r[k] == counts[k]
  {
    counts[name := counts[name] + count]
  }

  /** Two increments of one counter add up. */
  lemma IncrementsAdd(counts: map<string, int>, name: string, a: int, b: int)
    requires name in counts
    ensures Incremented(Incremented(counts, name, a), name, b) == Incremented(counts, name, a + b)
  {
  }

  /** Increments of two counters commute. */
  lemma IncrementsCommute(counts: map<string, int>, x: string, a: int, y: string, b: int)
    requires x in counts && y in counts
    ensures Incremented(Incremented(counts, x, a), y, b) == Incremented(Incremented(counts, y, b), x, a)
  {
  }

  /** A statistics row as a value: its date (a day number), its hour, and its counters. */
  datatype Stat = Stat(date: int, hour: Option<nat>, counts: map<string, int>)

  /** One `dashboard_statistics` row. */
  class StatisticsRow {
    var date: int
    var hour: Option<nat>
    var counts: map<string, int>

    predicate Valid()
      reads this
    {
      counts.Keys == CounterColumns
    }

    function Info(): Stat
      reads this
    {
      Stat(date, hour, counts)
    }

    constructor (init: Stat)
      requires init.counts.Keys == CounterColumns
      ensures Valid() && Info() == init
    {
      date, hour, counts := init.date, init.hour, init.counts;
    }

    /** One `if value is not None: self.<counter> = value` of a partial setter. */
    method SetCounter(arg: (string, Option<int>))
      requires Valid() && arg.0 in CounterColumns
      modifies this
      ensures Valid() && date == old(date) && hour == old(hour)
      ensures counts == SetOne(old(counts), arg)
    {
      if arg.1.Some? {
        counts := counts[arg.0 := arg.1.value];
      }
    }

    /** `update_device_counts`. */
    method UpdateDeviceCounts(total: Option<int>, online: Option<int>, offline: Option<int>,
                              error: Option<int>, maintenance: Option<int>)
      requires Valid()
      modifies this
      ensures Valid() && date == old(date) && hour == old(hour)
      ensures counts == SetGiven(old(counts), DeviceArgs(total, online, offline, error, maintenance))
    {
      SetCounter(("total_devices", total));
      SetCounter(("total_online_devices", online));
      SetCounter(("total_offline_devices", offline));
      SetCounter(("total_error_devices", error));
      SetCounter(("total_maintenance_devices", maintenance));
      SetGivenFive(old(counts), DeviceArgs(total, online, offline, error, maintenance));
    }

    /** `update_user_stats`. */
    method UpdateUserStats(totalUsers: Option<int>, activeUsers: Option<int>)
      requires Valid()
      modifies this
      ensures Valid() && date == old(date) && hour == old(hour)
      ensures counts == SetGiven(old(counts), [("total_users", totalUsers), ("active_users", activeUsers)])
    {
      SetCounter(("total_users", totalUsers));
      SetCounter(("active_users", activeUsers));
      SetGivenTwo(old(counts), [("total_users", totalUsers), ("active_users", activeUsers)]);
    }

    /** `update_content_stats`. */
    method UpdateContentStats(coursewareCount: Option<int>, navigationPoints: Option<int>)
      requires Valid()
      modifies this
      ensures Valid() && date == old(date) && hour == old(hour)
      ensures counts == SetGiven(old(counts), [("total_courseware", coursewareCount),
                                               ("total_navigation_points", navigationPoints)])
    {
      SetCounter(("total_courseware", coursewareCount));
      SetCounter(("total_navigation_points", navigationPoints));
      SetGivenTwo(old(counts), [("total_courseware", coursewareCount), ("total_navigation_points", navigationPoints)]);
    }

    /** `update_operation_stats`. */
    method UpdateOperationStats(totalOperations: Option<int>, failedOperations: Option<int>)
      requires Valid()
      modifies this
      ensures Valid() && date == old(date) && hour == old(hour)
      ensures counts == SetGiven(old(counts), [("total_operations", totalOperations),
                                               ("failed_operations", failedOperations)])
    {
      SetCounter(("total_operations", totalOperations));
      SetCounter(("failed_operations", failedOperations));
      SetGivenTwo(old(counts), [("total_operations", totalOperations), ("failed_operations", failedOperations)]);
    }

    /** The integer half of `update_performance_metrics`. */
    method UpdatePerformanceMetrics(peakUsers: Option<int>, dataTransfer: Option<int>, uptime: Option<int>)
      requires Valid()
      modifies this
      ensures Valid() && date == old(date) && hour == old(hour)
      ensures counts == SetGiven(old(counts), [("peak_concurrent_users", peakUsers),
                                               ("total_data_transfer", dataTransfer), ("system_uptime", uptime)])
    {
      SetCounter(("peak_concurrent_users", peakUsers));
      SetCounter(("total_data_transfer", dataTransfer));
      SetCounter(("system_uptime", uptime));
      SetGivenThree(old(counts), [("peak_concurrent_users", peakUsers), ("total_data_transfer", dataTransfer), ("system_uptime", uptime)]);
    }

    /** `increment_courses`. */
    method IncrementCourses(count: int)
      requires Valid()
      modifies this
      ensures Valid() && date == old(date) && hour == old(hour)
      ensures counts == Incremented(old(counts), "total_courses_delivered", count)
    {
      counts := counts["total_courses_delivered" := counts["total_courses_delivered"] + count];
    }

    /** `increment_tours`. */
    method IncrementTours(count: int)
      requires Valid()
      modifies this
      ensures Valid() && date == old(date) && hour == old(hour)
      ensures counts == Incremented(old(counts), "total_tours_conducted", count)
    {
      counts := counts["total_tours_conducted" := counts["total_tours_conducted"] + count];
    }

    /** `increment_interactions`. */
    method IncrementInteractions(count: int)
      requires Valid()
      modifies this
      ensures Valid() && date == old(date) && hour == old(hour)
      ensures counts == Incremented(old(counts), "total_interactions", count)
    {
      counts := counts["total_interactions" := counts["total_interactions"] + count];
    }
  }

  // ---------------------------------------------------------------------
  // create_or_update_today
  // ---------------------------------------------------------------------

  /** `get_by_date`: the first row of that date. */
  function FindByDate(rows: seq<Stat>, day: int): (r: Option<nat>)
    ensures r.Some? ==> r.value < |rows| && rows[r.value].date == day
    ensures r.Some? ==> forall i :: 0 <= i < r.value ==> rows[i].date != day
    ensures r.None? <==> forall i :: 0 <= i < |rows| ==> rows[i].date != day
  {
    if rows == [] then None
    else if rows[0].date == day then Some(0)
    else match FindByDate(rows[1..], day)
      case None => None
      case Some(k) => Some(k + 1)
  }

  /** The keyword arguments that name counters, applied over `counts`. */
  function Applied(counts: map<string, int>, kwargs: map<string, int>): (r: map<string, int>)
    ensures r.Keys == counts.Keys
    ensures forall k :: k in counts ==> r[k] == (if k in kwargs && k in CounterColumns then kwargs[k] else counts[k])
  {
    map k | k in counts :: if k in kwargs && k in CounterColumns then kwargs[k] else counts[k]
  }

  /**
   * The other mapped columns a keyword may name. The constructor accepts
   * them and the update branch sets them; the model's row does not keep
   * their values.
   */
  const OtherColumns: set<string> := {
    "id", "statistic_hour", "average_response_time", "error_rate", "performance_score",
    "additional_metrics", "created_at", "updated_at"
  }

  /**
   * The result of `create_or_update_today`: the table and the saved row's
   * position, or the TypeError the constructor raises for a keyword that
   * names no column.
   */
  datatype Upsert = Saved(rows: seq<Stat>, at: nat) | InvalidKeyword

  /**
   * `create_or_update_today`: today's row takes every keyword that names a
   * counter (the `hasattr` guard skips names that are no attribute);
   * without such a row a new one is made, with the defaults for the
   * counters not given, and a keyword naming no column (or repeating
   * `statistic_date`) then raises instead.
   */
  function CreateOrUpdateToday(rows: seq<Stat>, today: int, kwargs: map<string, int>): (r: Upsert)
    ensures r.Saved? ==> r.at < |r.rows| && r.rows[r.at].date == today
    ensures r.InvalidKeyword? <==> FindByDate(rows, today).None? && !(kwargs.Keys <= CounterColumns + OtherColumns)
    ensures FindByDate(rows, today).None? && kwargs.Keys <= CounterColumns + OtherColumns ==> r.Saved? && r.at == |rows|
  {
    match FindByDate(rows, today)
    case Some(i) => Saved(rows[i := rows[i].(counts := Applied(rows[i].counts, kwargs))], i)
    case None =>
      if kwargs.Keys <= CounterColumns + OtherColumns then
        Saved(rows + [Stat(today, None, Applied(ZeroCounts(), kwargs))], |rows|)
      else InvalidKeyword
  }

  /** No two rows share a date. */
  predicate OneRowPerDate(rows: seq<Stat>)
  {
    forall i, j :: 0 <= i < |rows| && 0 <= j < |rows| && rows[i].date == rows[j].date ==> i == j
  }

  /**
   * The upsert keeps one row per date, leaves the other rows alone, and the
   * saved row holds each counter keyword given, every other counter being
   * kept (an existing row) or zero (a new one).
   */
  lemma UpsertToday(rows: seq<Stat>, today: int, kwargs: map<string, int>)
    requires OneRowPerDate(rows) && forall i :: 0 <= i < |rows| ==> rows[i].counts.Keys == CounterColumns
    requires CreateOrUpdateToday(rows, today, kwargs).Saved?
    ensures var r := CreateOrUpdateToday(rows, today, kwargs);
      OneRowPerDate(r.rows)
      && (forall i :: 0 <= i < |rows| && i != r.at ==> r.rows[i] == rows[i])
      && r.rows[r.at].counts.Keys == CounterColumns
      && (forall k :: k in kwargs && k in CounterColumns ==> r.rows[r.at].counts[k] == kwargs[k])
      && (forall k :: k in CounterColumns && k !in kwargs ==>
            r.rows[r.at].counts[k] == (if r.at < |rows| then rows[r.at].counts[k] else 0))
  {
    var r := CreateOrUpdateToday(rows, today, kwargs);
    if r.at == |rows| {
      assert forall i :: 0 <= i < |rows| ==> r.rows[i] == rows[i];
    }
  }

  /** A second call on the same day finds the row the first one saved. */
  lemma TodayFoundAgain(rows: seq<Stat>, today: int, kwargs: map<string, int>, more: map<string, int>)
    requires CreateOrUpdateToday(rows, today, kwargs).Saved?
    ensures var r := CreateOrUpdateToday(rows, today, kwargs);
      FindByDate(r.rows, today).Some? && |CreateOrUpdateToday(r.rows, today, more).rows| == |r.rows|
  {
  }

  // ---------------------------------------------------------------------
  // The rates' zero guards
  // ---------------------------------------------------------------------

  /** A percentage before rounding: `part / whole * 100`, or the fallback when `whole` is 0. */
  function Percent(part: int, whole: int, fallback: real): (r: real)
    ensures whole == 0 ==> r == fallback
    ensures whole > 0 && 0 <= part <= whole ==> 0.0 <= r <= 100.0
  {
    if whole == 0 then fallback
    else
      var x := part as real / whole as real;
      assert whole > 0 && 0 <= part <= whole ==> 0.0 <= x <= 1.0 by {
        if whole > 0 && 0 <= part <= whole {
          assert x * whole as real == part as real;
        }
      }
      x * 100.0
  }

  /** `get_device_online_rate` before rounding: 0 with no devices. */
  function OnlineRate(s: Stat): (r: real)
    requires s.counts.Keys == CounterColumns
    ensures s.counts["total_devices"] == 0 ==> r == 0.0
  {
    Percent(s.counts["total_online_devices"], s.counts["total_devices"], 0.0)
  }

  /** `get_device_error_rate` before rounding: 0 with no devices. */
  function ErrorRate(s: Stat): (r: real)
    requires s.counts.Keys == CounterColumns
    ensures s.counts["total_devices"] == 0 ==> r == 0.0
  {
    Percent(s.counts["total_error_devices"], s.counts["total_devices"], 0.0)
  }

  /** `get_operation_success_rate` before rounding: 100 with no operations. */
  function SuccessRate(s: Stat): (r: real)
    requires s.counts.Keys == CounterColumns
    ensures s.counts["total_operations"] == 0 ==> r == 100.0
  {
    var total := s.counts["total_operations"];
    Percent(total - s.counts["failed_operations"], total, 100.0)
  }

  /** `get_user_activity_rate` before rounding: 0 with no users. */
  function UserActivityRate(s: Stat): (r: real)
    requires s.counts.Keys == CounterColumns
    ensures s.counts["total_users"] == 0 ==> r == 0.0
  {
    Percent(s.counts["active_users"], s.counts["total_users"], 0.0)
  }

  /** With no more failures than operations, the success and failure shares make 100. */
  lemma SuccessRateComplement(s: Stat)
    requires s.counts.Keys == CounterColumns
    requires s.counts["total_operations"] > 0 && 0 <= s.counts["failed_operations"] <= s.counts["total_operations"]
    ensures 0.0 <= SuccessRate(s) <= 100.0
    ensures SuccessRate(s) + Percent(s.counts["failed_operations"], s.counts["total_operations"], 0.0) == 100.0
  {
    var t := s.counts["total_operations"] as real;
    var f := s.counts["failed_operations"] as real;
    assert (t - f) / t + f / t == 1.0;
  }
}
