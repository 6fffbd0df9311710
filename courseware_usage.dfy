/**
 * Courseware usage records (backend/app/models/courseware_usage.py): the
 * display texts of an action and of a duration, and the two statistics
 * folds, per courseware item and per robot, over the records of the last
 * `days` days. The clock is the parameter `now` (seconds); a record's
 * calendar day is its time divided by the length of a day.
 */
module CoursewareUsages {
  import opened Wrappers
  import Text
  import Seqs
  import Counts

  /** A `courseware_usage` row; `None` is SQL NULL. */
  datatype Usage = Usage(
    coursewareId: nat,
    equipmentId: string,
    userId: Option<nat>,
    action: string,
    duration: Option<int>,
    createdAt: int)

  const DaySeconds: int := 86400

  /** The calendar day of a record (`created_at.date()`). */
  function DayOf(u: Usage): int
  {
    u.createdAt / DaySeconds
  }

  function ActionOf(u: Usage): string
  {
    u.action
  }

  function CoursewareOf(u: Usage): nat
  {
    u.coursewareId
  }

  // ---------------------------------------------------------------------
  // Display texts
  // ---------------------------------------------------------------------

  /** The display texts of the four actions of the `action` enum. */
  const ActionTexts: map<string, string> := map[
    "play" := "播放",
    "download" := "下载",
    "view" := "查看",
    "share" := "分享"
  ]

  /** `get_action_display`: the action's text, or '未知' for anything else. */
  function ActionDisplay(action: string): (text: string)
    ensures action in ActionTexts ==> text == ActionTexts[action]
    ensures text == "未知" <==> action !in ActionTexts
  {
    if action in ActionTexts then ActionTexts[action] else "未知"
  }

  /** Distinct actions are displayed differently. */
  lemma ActionDisplayInjective(a: string, b: string)
    requires a in ActionTexts && b in ActionTexts
    requires ActionDisplay(a) == ActionDisplay(b)
    ensures a == b
  {
  }

  /**
   * `get_duration_display`: nothing for a missing or zero duration; seconds
   * below a minute; minutes and seconds below an hour; hours and minutes
   * (the seconds dropped) from an hour on.
   */
  function DurationDisplay(duration: Option<int>): (r: Option<string>)
    ensures r.None? <==> duration.None? || duration.value == 0
    ensures duration.Some? && duration.value != 0 && duration.value < 60 ==>
              r == Some(Text.IntToString(duration.value) + "秒")
    ensures duration.Some? && 60 <= duration.value < 3600 ==>
              exists m: nat, s: nat :: s < 60 && 60 * m + s == duration.value
                && r == Some(Text.NatToString(m) + "分" + Text.NatToString(s) + "秒")
    ensures duration.Some? && duration.value >= 3600 ==>
              exists h: nat, m: nat :: m < 60 && 3600 * h + 60 * m <= duration.value < 3600 * h + 60 * m + 60
                && r == Some(Text.NatToString(h) + "小时" + Text.NatToString(m) + "分钟")
  {
    if duration.None? || duration.value == 0 then None
    else
      var d := duration.value;
      if d < 60 then Some(Text.IntToString(d) + "秒")
      else if d < 3600 then
        var m, s := d / 60, d % 60;
        assert 60 * m + s == d;
        Some(Text.NatToString(m) + "分" + Text.NatToString(s) + "秒")
      else
        var h, m := d / 3600, (d % 3600) / 60;
        assert 3600 * h + 60 * m <= d < 3600 * h + 60 * m + 60;
        Some(Text.NatToString(h) + "小时" + Text.NatToString(m) + "分钟")
  }

  /** Below an hour, the text has a minutes mark exactly from one minute on. */
  lemma MinuteMark(d: int)
    requires 0 < d < 3600
    ensures '分' in DurationDisplay(Some(d)).value <==> d >= 60
  {
    var t := DurationDisplay(Some(d)).value;
    if d < 60 {
      var n := Text.NatToString(d);
      assert t == n + "秒";
      assert forall i :: 0 <= i < |t| ==> t[i] != '分' by {
        forall i | 0 <= i < |t|
          ensures t[i] != '分'
        {
          if i < |n| {
            assert t[i] == n[i];
          }
        }
      }
    } else {
      var n := Text.NatToString(d / 60);
      assert t[|n|] == '分';
    }
  }

  /** The text of a duration of a minute or more but under an hour. */
  lemma MinutesText(d: int)
    requires 60 <= d < 3600
    ensures DurationDisplay(Some(d)) == Some(Text.NatToString(d / 60) + "分" + Text.NatToString(d % 60) + "秒")
  {
  }

  /** Digits, a minutes mark, more text and a seconds mark: the mark tells the two parts apart. */
  lemma MarkedParts(ma: string, sa: string, mb: string, sb: string)
    requires Text.AllDigits(ma) && Text.AllDigits(mb)
    requires ma + "分" + sa + "秒" == mb + "分" + sb + "秒"
    ensures ma == mb && sa == sb
  {
    var ta, tb := sa + "秒", sb + "秒";
    assert ma + "分" + sa + "秒" == ma + ['分'] + ta;
    assert mb + "分" + sb + "秒" == mb + ['分'] + tb;
    Text.DigitsBeforeSep(ma, mb, ta, tb, '分');
    assert sa == ta[..|sa|] && sb == tb[..|sb|];
  }

  /** A minutes-and-seconds text determines both numbers. */
  lemma MinSecInjective(m1: nat, s1: nat, m2: nat, s2: nat)
    requires Text.NatToString(m1) + "分" + Text.NatToString(s1) + "秒"
             == Text.NatToString(m2) + "分" + Text.NatToString(s2) + "秒"
    ensures m1 == m2 && s1 == s2
  {
    Text.DigitsValueOfNat(m1);
    Text.DigitsValueOfNat(m2);
    MarkedParts(Text.NatToString(m1), Text.NatToString(s1), Text.NatToString(m2), Text.NatToString(s2));
    Text.NatToStringInjective(m1, m2);
    Text.NatToStringInjective(s1, s2);
  }

  /** Two durations of a minute or more but under an hour that read alike are equal. */
  lemma MinutesInjective(a: int, b: int)
    requires 60 <= a < 3600 && 60 <= b < 3600
    requires DurationDisplay(Some(a)) == DurationDisplay(Some(b))
    ensures a == b
  {
    MinutesText(a);
    MinutesText(b);
    MinSecInjective(a / 60, a % 60, b / 60, b % 60);
  }

  /** Below an hour the display loses nothing: distinct durations read differently. */
  lemma DurationDisplayInjective(a: int, b: int)
    requires 0 < a < 3600 && 0 < b < 3600
    requires DurationDisplay(Some(a)) == DurationDisplay(Some(b))
    ensures a == b
  {
    MinuteMark(a);
    MinuteMark(b);
    if a < 60 {
      var t := DurationDisplay(Some(a)).value;
      var na, nb := Text.NatToString(a), Text.NatToString(b);
      assert t == na + "秒" == nb + "秒";
      assert na == t[..|t| - 1] == nb;
      Text.NatToStringInjective(a, b);
    } else {
      MinutesInjective(a, b);
    }
  }

  /** From an hour on, the seconds are dropped: a whole minute and any second within it read alike. */
  lemma HoursDropSeconds(h: nat, m: nat, s: nat)
    requires h >= 1 && m < 60 && s < 60
    ensures DurationDisplay(Some(3600 * h + 60 * m + s)) == DurationDisplay(Some(3600 * h + 60 * m))
  {
    var d := 3600 * h + 60 * m + s;
    var e := 3600 * h + 60 * m;
    assert d / 3600 == h && d % 3600 == 60 * m + s && (60 * m + s) / 60 == m;
    assert e / 3600 == h && e % 3600 == 60 * m && (60 * m) / 60 == m;
  }

  // ---------------------------------------------------------------------
  // get_courseware_statistics
  // ---------------------------------------------------------------------

  /** The records with action `a`. */
  function CountAction(rs: seq<Usage>, a: string): (n: nat)
    ensures n <= |rs|
  {
    if rs == [] then 0 else CountAction(rs[..|rs| - 1], a) + (if rs[|rs| - 1].action == a then 1 else 0)
  }

  /** The sum of the truthy durations. */
  function TotalDuration(rs: seq<Usage>): int
  {
    if rs == [] then 0
    else
      var d := rs[|rs| - 1].duration;
      TotalDuration(rs[..|rs| - 1]) + (if d.Some? && d.value != 0 then d.value else 0)
  }

  /** The truthy user ids. */
  function Users(rs: seq<Usage>): (r: set<nat>)
    ensures |r| <= |rs|
  {
    if rs == [] then {}
    else
      var u := rs[|rs| - 1].userId;
      Users(rs[..|rs| - 1]) + (if u.Some? && u.value != 0 then {u.value} else {})
  }

  /** The robots the records were made on. */
  function EquipmentIds(rs: seq<Usage>): (r: set<string>)
    ensures |r| <= |rs|
  {
    if rs == [] then {} else EquipmentIds(rs[..|rs| - 1]) + {rs[|rs| - 1].equipmentId}
  }

  /** For records whose actions are all from the enum, the four counters add up to the total. */
  lemma {:induction false} ActionsAddUp(rs: seq<Usage>)
    requires forall i :: 0 <= i < |rs| ==> rs[i].action in ActionTexts
    ensures CountAction(rs, "play") + CountAction(rs, "download") + CountAction(rs, "view")
            + CountAction(rs, "share") == |rs|
  {
    if rs != [] {
      ActionsAddUp(rs[..|rs| - 1]);
    }
  }

  /** `stats` of `get_courseware_statistics`, with the two sets already counted. */
  datatype CoursewareStats = CoursewareStats(
    totalUsage: nat,
    playCount: nat,
    downloadCount: nat,
    viewCount: nat,
    shareCount: nat,
    totalDuration: int,
    uniqueUsers: nat,
    uniqueEquipment: nat,
    dailyUsage: map<int, nat>)

  /** The query: one item's records made at or after `since`, in table order. */
  function CoursewareQuery(all: seq<Usage>, coursewareId: nat, since: int): (r: seq<Usage>)
    ensures forall u :: u in r <==> u in all && u.coursewareId == coursewareId && u.createdAt >= since
  {
    Seqs.Filter(all, (u: Usage) => u.coursewareId == coursewareId && u.createdAt >= since)
  }

  /** The statistics loop's invariant after `i` records. */
  ghost predicate CoursewareSoFar(rs: seq<Usage>, i: nat, stats: CoursewareStats,
                                  users: set<nat>, equipment: set<string>)
  {
    i <= |rs|
    && stats.totalUsage == |rs|
    && stats.playCount == CountAction(rs[..i], "play")
    && stats.downloadCount == CountAction(rs[..i], "download")
    && stats.viewCount == CountAction(rs[..i], "view")
    && stats.shareCount == CountAction(rs[..i], "share")
    && stats.totalDuration == TotalDuration(rs[..i])
    && users == Users(rs[..i])
    && equipment == EquipmentIds(rs[..i])
    && stats.dailyUsage == Counts.TallyBy(rs[..i], DayOf)
  }

  /** The spec functions over one more record. */
  lemma CoursewareNext(rs: seq<Usage>, i: nat)
    requires i < |rs|
    ensures var r, p := rs[i], rs[..i];
            CountAction(rs[..i + 1], "play") == CountAction(p, "play") + (if r.action == "play" then 1 else 0)
            && CountAction(rs[..i + 1], "download") == CountAction(p, "download") + (if r.action == "download" then 1 else 0)
            && CountAction(rs[..i + 1], "view") == CountAction(p, "view") + (if r.action == "view" then 1 else 0)
            && CountAction(rs[..i + 1], "share") == CountAction(p, "share") + (if r.action == "share" then 1 else 0)
            && TotalDuration(rs[..i + 1])
               == TotalDuration(p) + (if r.duration.Some? && r.duration.value != 0 then r.duration.value else 0)
            && Users(rs[..i + 1])
               == Users(p) + (if r.userId.Some? && r.userId.value != 0 then {r.userId.value} else {})
            && EquipmentIds(rs[..i + 1]) == EquipmentIds(p) + {r.equipmentId}
            && Counts.TallyBy(rs[..i + 1], DayOf) == Counts.Bump(Counts.TallyBy(p, DayOf), DayOf(r))
  {
    assert rs[..i + 1][..i] == rs[..i];
  }

  /** The statistics loop's body for one record. */
  method CountRecord(record: Usage, stats: CoursewareStats, users: set<nat>, equipment: set<string>)
    returns (stats': CoursewareStats, users': set<nat>, equipment': set<string>)
    ensures stats'.totalUsage == stats.totalUsage
    ensures stats'.playCount == stats.playCount + (if record.action == "play" then 1 else 0)
    ensures stats'.downloadCount == stats.downloadCount + (if record.action == "download" then 1 else 0)
    ensures stats'.viewCount == stats.viewCount + (if record.action == "view" then 1 else 0)
    ensures stats'.shareCount == stats.shareCount + (if record.action == "share" then 1 else 0)
    ensures stats'.totalDuration == stats.totalDuration
              + (if record.duration.Some? && record.duration.value != 0 then record.duration.value else 0)
    ensures users' == users + (if record.userId.Some? && record.userId.value != 0 then {record.userId.value} else {})
    ensures equipment' == equipment + {record.equipmentId}
    ensures stats'.dailyUsage == Counts.Bump(stats.dailyUsage, DayOf(record))
  {
    stats', users', equipment' := stats, users, equipment;
    if record.action == "play" {
      stats' := stats'.(playCount := stats'.playCount + 1);
    } else if record.action == "download" {
      stats' := stats'.(downloadCount := stats'.downloadCount + 1);
    } else if record.action == "view" {
      stats' := stats'.(viewCount := stats'.viewCount + 1);
    } else if record.action == "share" {
      stats' := stats'.(shareCount := stats'.shareCount + 1);
    }
    if record.duration.Some? && record.duration.value != 0 {
      stats' := stats'.(totalDuration := stats'.totalDuration + record.duration.value);
    }
    if record.userId.Some? && record.userId.value != 0 {
      users' := users' + {record.userId.value};
    }
    equipment' := equipment' + {record.equipmentId};
    var dateKey := DayOf(record);
    if dateKey !in stats'.dailyUsage {
      stats' := stats'.(dailyUsage := stats'.dailyUsage[dateKey := 0]);
    }
    stats' := stats'.(dailyUsage := stats'.dailyUsage[dateKey := stats'.dailyUsage[dateKey] + 1]);
  }

  lemma CoursewareSoFarStep(rs: seq<Usage>, i: nat, stats: CoursewareStats, users: set<nat>, equipment: set<string>,
                            stats': CoursewareStats, users': set<nat>, equipment': set<string>)
    requires i < |rs| && CoursewareSoFar(rs, i, stats, users, equipment)
    requires var record := rs[i];
             stats'.totalUsage == stats.totalUsage
             && stats'.playCount == stats.playCount + (if record.action == "play" then 1 else 0)
             && stats'.downloadCount == stats.downloadCount + (if record.action == "download" then 1 else 0)
             && stats'.viewCount == stats.viewCount + (if record.action == "view" then 1 else 0)
             && stats'.shareCount == stats.shareCount + (if record.action == "share" then 1 else 0)
             && stats'.totalDuration == stats.totalDuration
                + (if record.duration.Some? && record.duration.value != 0 then record.duration.value else 0)
             && users' == users + (if record.userId.Some? && record.userId.value != 0 then {record.userId.value} else {})
             && equipment' == equipment + {record.equipmentId}
             && stats'.dailyUsage == Counts.Bump(stats.dailyUsage, DayOf(record))
    ensures CoursewareSoFar(rs, i + 1, stats', users', equipment')
  {
    CoursewareNext(rs, i);
  }

  /**
   * `get_courseware_statistics`: over the item's recent records, the number
   * of each action, the sum of the truthy durations, the distinct truthy
   * users and the distinct robots, and the records per day. The distinct
   * counts never exceed the total, the per-day numbers add up to the total,
   * and so do the four action counters when every action is from the enum.
   */
  method GetCoursewareStatistics(all: seq<Usage>, coursewareId: nat, now: int, days: int)
    returns (stats: CoursewareStats)
    ensures var rs := CoursewareQuery(all, coursewareId, now - days * DaySeconds);
            stats.totalUsage == |rs|
            && stats.playCount == CountAction(rs, "play") && stats.downloadCount == CountAction(rs, "download")
            && stats.viewCount == CountAction(rs, "view") && stats.shareCount == CountAction(rs, "share")
            && stats.totalDuration == TotalDuration(rs)
            && stats.uniqueUsers == |Users(rs)| && stats.uniqueEquipment == |EquipmentIds(rs)|
            && stats.dailyUsage == Counts.TallyBy(rs, DayOf)
    ensures stats.uniqueUsers <= stats.totalUsage && stats.uniqueEquipment <= stats.totalUsage
    ensures Counts.Sum(stats.dailyUsage) == stats.totalUsage
    ensures (forall u :: u in all ==> u.action in ActionTexts) ==>
              stats.playCount + stats.downloadCount + stats.viewCount + stats.shareCount == stats.totalUsage
  {
    var rs := CoursewareQuery(all, coursewareId, now - days * DaySeconds);
    stats := CoursewareStats(|rs|, 0, 0, 0, 0, 0, 0, 0, map[]);
    var users: set<nat> := {};
    var equipment: set<string> := {};
    for i := 0 to |rs|
      invariant CoursewareSoFar(rs, i, stats, users, equipment)
    {
      var stats', users', equipment' := CountRecord(rs[i], stats, users, equipment);
      CoursewareSoFarStep(rs, i, stats, users, equipment, stats', users', equipment');
      stats, users, equipment := stats', users', equipment';
    }
    assert rs[..|rs|] == rs;
    stats := stats.(uniqueUsers := |users|, uniqueEquipment := |equipment|);
    Counts.TallySum(rs, DayOf);
    if forall u :: u in all ==> u.action in ActionTexts {
      ActionsAddUp(rs);
    }
  }

  // ---------------------------------------------------------------------
  // get_equipment_usage_statistics
  // ---------------------------------------------------------------------

  /** A (courseware id, number of records) pair of `popular_courseware`. */
  type Popular = (nat, nat)

  /** Counts never grow along the sequence. */
  predicate NonIncreasing(s: seq<Popular>)
  {
    forall j, k :: 0 <= j < k < |s| ==> s[j].1 >= s[k].1
  }

  /** `x` placed before the first pair it does not fall behind. */
  function InsertDesc(x: Popular, s: seq<Popular>): (r: seq<Popular>)
    requires NonIncreasing(s)
    ensures NonIncreasing(r)
    ensures multiset(r) == multiset(s) + multiset{x} && |r| == |s| + 1
    ensures r[0] == x || (s != [] && r[0] == s[0])
  {
    if s == [] then [x]
    else if s[0].1 <= x.1 then [x] + s
    else
      assert s == [s[0]] + s[1..];
      var rest := InsertDesc(x, s[1..]);
      assert forall k :: 0 <= k < |rest| ==> rest[0].1 >= rest[k].1;
      [s[0]] + rest
  }

  /**
   * `sorted(items, key=count, reverse=True)`: non-increasing by count and
   * a permutation; among equal counts the earlier pair stays first.
   */
  function SortDesc(s: seq<Popular>): (r: seq<Popular>)
    ensures NonIncreasing(r)
    ensures multiset(r) == multiset(s) && |r| == |s|
  {
    if s == [] then []
    else
      assert s == [s[0]] + s[1..];
      InsertDesc(s[0], SortDesc(s[1..]))
  }

  /** `stats` of `get_equipment_usage_statistics`, with the id set already counted. */
  datatype EquipmentStats = EquipmentStats(
    totalUsage: nat,
    uniqueCourseware: nat,
    popular: seq<Popular>,
    usageByAction: map<string, nat>,
    dailyUsage: map<int, nat>)

  /** The query: one robot's records made at or after `since`, in table order. */
  function EquipmentQuery(all: seq<Usage>, equipmentId: string, since: int): (r: seq<Usage>)
    ensures forall u :: u in r <==> u in all && u.equipmentId == equipmentId && u.createdAt >= since
  {
    Seqs.Filter(all, (u: Usage) => u.equipmentId == equipmentId && u.createdAt >= since)
  }

  /** The statistics loop's invariant after `i` records. */
  ghost predicate EquipmentSoFar(rs: seq<Usage>, i: nat, seen: set<nat>, popular: map<nat, nat>, order: seq<nat>,
                                 byAction: map<string, nat>, daily: map<int, nat>)
  {
    i <= |rs|
    && popular == Counts.TallyBy(rs[..i], CoursewareOf)
    && seen == popular.Keys
    && order == Counts.FirstSeen(rs[..i], CoursewareOf)
    && byAction == Counts.TallyBy(rs[..i], ActionOf)
    && daily == Counts.TallyBy(rs[..i], DayOf)
  }

  lemma EquipmentSoFarStep(rs: seq<Usage>, i: nat, seen: set<nat>, popular: map<nat, nat>, order: seq<nat>,
                           byAction: map<string, nat>, daily: map<int, nat>)
    requires i < |rs| && EquipmentSoFar(rs, i, seen, popular, order, byAction, daily)
    ensures var r := rs[i];
            EquipmentSoFar(rs, i + 1, seen + {r.coursewareId}, Counts.Bump(popular, r.coursewareId),
                           if r.coursewareId in popular then order else order + [r.coursewareId],
                           Counts.Bump(byAction, r.action), Counts.Bump(daily, DayOf(rs[i])))
  {
    assert rs[..i + 1][..i] == rs[..i];
    Counts.FirstSeenHas(rs[..i], CoursewareOf, rs[i].coursewareId);
  }

  /** The top of the sorted pairs: at most ten. */
  function Top(sorted: seq<Popular>): (r: seq<Popular>)
    ensures |r| == if |sorted| < 10 then |sorted| else 10
    ensures r == sorted[..|r|]
  {
    if |sorted| <= 10 then sorted else sorted[..10]
  }

  /** What the popular list promises about the tally it was taken from. */
  ghost predicate IsTopTen(popular: seq<Popular>, tally: map<nat, nat>)
  {
    |popular| <= 10
    && NonIncreasing(popular)
    && (forall j :: 0 <= j < |popular| ==> popular[j].0 in tally && popular[j].1 == tally[popular[j].0])
    && (forall c :: c in tally && (forall j :: 0 <= j < |popular| ==> popular[j].0 != c) ==>
          |popular| == 10 && tally[c] <= popular[9].1)
  }

  /** The pairs built from a tally are true counts. */
  lemma PairIsCount(order: seq<nat>, tally: map<nat, nat>, p: Popular)
    requires forall c :: c in order ==> c in tally
    requires p in multiset(PopularPairs(tally, order))
    ensures p.0 in tally && p.1 == tally[p.0]
  {
    var pairs := PopularPairs(tally, order);
    var k :| 0 <= k < |pairs| && pairs[k] == p;
  }

  /** Every tallied item has its pair. */
  lemma CountHasPair(order: seq<nat>, tally: map<nat, nat>, c: nat)
    requires forall c :: c in order <==> c in tally
    requires c in tally
    ensures (c, tally[c]) in multiset(PopularPairs(tally, order))
  {
    var k :| 0 <= k < |order| && order[k] == c;
    assert PopularPairs(tally, order)[k] == (c, tally[c]);
  }

  /**
   * Keeping the first ten of any non-increasing list that holds exactly the
   * tally's pairs keeps ten most used items.
   */
  lemma TopOfSorted(sorted: seq<Popular>, tally: map<nat, nat>)
    requires NonIncreasing(sorted)
    requires forall p :: p in sorted ==> p.0 in tally && p.1 == tally[p.0]
    requires forall c :: c in tally ==> (c, tally[c]) in sorted
    ensures IsTopTen(Top(sorted), tally)
  {
    var top := Top(sorted);
    forall j | 0 <= j < |top|
      ensures top[j].0 in tally && top[j].1 == tally[top[j].0]
    {
      assert top[j] == sorted[j];
    }
    forall c | c in tally && (forall j :: 0 <= j < |top| ==> top[j].0 != c)
      ensures |top| == 10 && tally[c] <= top[9].1
    {
      var n :| 0 <= n < |sorted| && sorted[n] == (c, tally[c]);
      assert top[9] == sorted[9];
    }
  }

  /** Sorting the first-seen pairs and keeping ten gives the ten most used items. */
  lemma TopTen(order: seq<nat>, tally: map<nat, nat>)
    requires forall c :: c in order <==> c in tally
    ensures IsTopTen(Top(SortDesc(PopularPairs(tally, order))), tally)
  {
    var sorted := SortDesc(PopularPairs(tally, order));
    forall p | p in sorted
      ensures p.0 in tally && p.1 == tally[p.0]
    {
      assert p in multiset(sorted);
      PairIsCount(order, tally, p);
    }
    forall c | c in tally
      ensures (c, tally[c]) in sorted
    {
      CountHasPair(order, tally, c);
      assert (c, tally[c]) in multiset(sorted);
    }
    TopOfSorted(sorted, tally);
  }

  /** The statistics loop's body for one record. */
  method CountEquipmentRecord(record: Usage, seen: set<nat>, popular: map<nat, nat>, order: seq<nat>,
                              byAction: map<string, nat>, daily: map<int, nat>)
    returns (seen': set<nat>, popular': map<nat, nat>, order': seq<nat>,
             byAction': map<string, nat>, daily': map<int, nat>)
    ensures seen' == seen + {record.coursewareId}
    ensures popular' == Counts.Bump(popular, record.coursewareId)
    ensures order' == if record.coursewareId in popular then order else order + [record.coursewareId]
    ensures byAction' == Counts.Bump(byAction, record.action)
    ensures daily' == Counts.Bump(daily, DayOf(record))
  {
    seen', popular', order', byAction', daily' := seen, popular, order, byAction, daily;
    seen' := seen' + {record.coursewareId};
    if record.coursewareId !in popular' {
      popular' := popular'[record.coursewareId := 0];
      order' := order' + [record.coursewareId];
    }
    popular' := popular'[record.coursewareId := popular'[record.coursewareId] + 1];
    if record.action !in byAction' {
      byAction' := byAction'[record.action := 0];
    }
    byAction' := byAction'[record.action := byAction'[record.action] + 1];
    var dateKey := DayOf(record);
    if dateKey !in daily' {
      daily' := daily'[dateKey := 0];
    }
    daily' := daily'[dateKey := daily'[dateKey] + 1];
  }

  /**
   * `get_equipment_usage_statistics`: over the robot's recent records, the
   * distinct courseware items, the ten most used of them by number of
   * records, and the records per action and per day, each adding up to
   * the total.
   */
  method GetEquipmentUsageStatistics(all: seq<Usage>, equipmentId: string, now: int, days: int)
    returns (stats: EquipmentStats)
    ensures var rs := EquipmentQuery(all, equipmentId, now - days * DaySeconds);
            stats.totalUsage == |rs|
            && stats.uniqueCourseware == |Counts.TallyBy(rs, CoursewareOf).Keys|
            && IsTopTen(stats.popular, Counts.TallyBy(rs, CoursewareOf))
            && stats.usageByAction == Counts.TallyBy(rs, ActionOf)
            && stats.dailyUsage == Counts.TallyBy(rs, DayOf)
    ensures stats.uniqueCourseware <= stats.totalUsage
    ensures |stats.popular| == if stats.uniqueCourseware < 10 then stats.uniqueCourseware else 10
    ensures Counts.Sum(stats.usageByAction) == stats.totalUsage && Counts.Sum(stats.dailyUsage) == stats.totalUsage
  {
    var rs := EquipmentQuery(all, equipmentId, now - days * DaySeconds);
    var seen: set<nat> := {};
    var popular: map<nat, nat> := map[];
    var order: seq<nat> := [];  // the dict's insertion order
    var byAction: map<string, nat> := map[];
    var daily: map<int, nat> := map[];
    for i := 0 to |rs|
      invariant EquipmentSoFar(rs, i, seen, popular, order, byAction, daily)
    {
      EquipmentSoFarStep(rs, i, seen, popular, order, byAction, daily);
      seen, popular, order, byAction, daily := CountEquipmentRecord(rs[i], seen, popular, order, byAction, daily);
    }
    EquipmentSoFarDone(rs, seen, popular, order, byAction, daily);
    stats := EquipmentStats(|rs|, |seen|, Top(SortDesc(PopularPairs(popular, order))), byAction, daily);
  }

  /** What the finished loop's variables give. */
  lemma EquipmentSoFarDone(rs: seq<Usage>, seen: set<nat>, popular: map<nat, nat>, order: seq<nat>,
                           byAction: map<string, nat>, daily: map<int, nat>)
    requires EquipmentSoFar(rs, |rs|, seen, popular, order, byAction, daily)
    ensures popular == Counts.TallyBy(rs, CoursewareOf) && seen == popular.Keys && |seen| <= |rs|
    ensures byAction == Counts.TallyBy(rs, ActionOf) && daily == Counts.TallyBy(rs, DayOf)
    ensures forall c :: c in order <==> c in popular
    ensures IsTopTen(Top(SortDesc(PopularPairs(popular, order))), popular)
    ensures |Top(SortDesc(PopularPairs(popular, order)))| == if |seen| < 10 then |seen| else 10
    ensures Counts.Sum(byAction) == |rs| && Counts.Sum(daily) == |rs|
  {
    assert rs[..|rs|] == rs;
    Counts.FirstSeenSize(rs, CoursewareOf);
    forall c
      ensures c in order <==> c in popular
    {
      Counts.FirstSeenHas(rs, CoursewareOf, c);
    }
    TopTen(order, popular);
    Counts.TallySize(rs, CoursewareOf);
    Counts.TallySum(rs, ActionOf);
    Counts.TallySum(rs, DayOf);
  }

  /** The dict's items in insertion order. */
  function PopularPairs(popular: map<nat, nat>, order: seq<nat>): (r: seq<Popular>)
    requires forall c :: c in order ==> c in popular
    ensures |r| == |order|
  {
    seq(|order|, j requires 0 <= j < |order| => (order[j], popular[order[j]]))
  }
}
