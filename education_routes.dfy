/**
 * The education blueprint (backend/app/routes/education_routes.py): the
 * classroom settings upsert per piece of equipment, deleting, copying and
 * importing a course setting under a name no other setting has, and the
 * batch endpoint with its category change.
 */
module EducationRoutes {
  import opened Wrappers
  import Text
  import Batch
  import opened ResultEnvelope
  import opened SettingsTarget

  // ---------------------------------------------------------------------
  // Rows
  // ---------------------------------------------------------------------

  /** The classroom columns of a settings row, which the upsert writes. */
  datatype Classroom = Classroom(screenSyncMode: string, aiPlatform: string, subject: Option<string>,
                                 voiceType: string, robotAction: string, handRecognition: bool,
                                 interactiveQa: bool, navigationMode: string, updatedBy: Option<nat>)

  /** The course fields that copy, import and the batch read and write. */
  datatype Course = Course(name: Option<string>, description: Option<string>, category: Option<string>,
                           targetAgeGroup: Option<string>, difficultyLevel: Option<string>,
                           duration: Option<int>, objectives: Option<string>, contentStructure: Option<string>,
                           assessmentCriteria: Option<string>, interactiveElements: Option<string>,
                           status: Option<string>, maxParticipants: Option<int>, prerequisites: Option<string>,
                           learningOutcomes: Option<string>, createdBy: Option<nat>)

  /** An education settings row. */
  datatype EduSetting = EduSetting(id: nat, equipmentId: Option<string>, classroom: Classroom, course: Course)

  /** The column defaults of a row built without classroom values. */
  const ColumnDefaults := Classroom("auto", "xunfei", None, "male", "standard", true, true, "default", None)

  /** A row that carries no course fields. */
  const NoCourse := Course(None, None, None, None, None, None, None, None, None, None, None, None, None, None, None)

  /** `EducationSettings.get_by_id`. */
  function FindSetting(ss: seq<EduSetting>, id: nat): (r: Option<nat>)
    ensures r.Some? ==> r.value < |ss| && ss[r.value].id == id
    ensures r.None? <==> forall i :: 0 <= i < |ss| ==> ss[i].id != id
  {
    if ss == [] then None
    else if ss[0].id == id then Some(0)
    else match FindSetting(ss[1..], id)
      case None => None
      case Some(k) => Some(k + 1)
  }

  // ---------------------------------------------------------------------
  // The classroom upsert
  // ---------------------------------------------------------------------

  /** The fields of a classroom request; `None` is a key the request leaves out. */
  datatype ClassroomBody = ClassroomBody(equipmentId: Option<string>, screenSyncMode: Option<string>,
                                         aiPlatform: Option<string>, subject: Option<string>,
                                         voiceType: Option<string>, robotAction: Option<string>,
                                         handRecognition: Option<bool>, interactiveQa: Option<bool>,
                                         navigationMode: Option<string>)

  /** The defaults the create branch of the upsert fills in; the subject defaults to '语文' there. */
  const RequestDefaults := ColumnDefaults.(subject := Some("语文"))

  /** The update branch of the upsert: each field takes the request's value or keeps its own. */
  function Merged(c: Classroom, b: ClassroomBody, user: nat): (r: Classroom)
    ensures r.updatedBy == Some(user)
    ensures r.screenSyncMode == b.screenSyncMode.UnwrapOr(c.screenSyncMode)
    ensures r.aiPlatform == b.aiPlatform.UnwrapOr(c.aiPlatform)
    ensures r.subject == (if b.subject.Some? then b.subject else c.subject)
    ensures r.voiceType == b.voiceType.UnwrapOr(c.voiceType) && r.robotAction == b.robotAction.UnwrapOr(c.robotAction)
    ensures r.handRecognition == b.handRecognition.UnwrapOr(c.handRecognition)
    ensures r.interactiveQa == b.interactiveQa.UnwrapOr(c.interactiveQa)
    ensures r.navigationMode == b.navigationMode.UnwrapOr(c.navigationMode)
  {
    Classroom(b.screenSyncMode.UnwrapOr(c.screenSyncMode), b.aiPlatform.UnwrapOr(c.aiPlatform),
              if b.subject.Some? then b.subject else c.subject, b.voiceType.UnwrapOr(c.voiceType),
              b.robotAction.UnwrapOr(c.robotAction), b.handRecognition.UnwrapOr(c.handRecognition),
              b.interactiveQa.UnwrapOr(c.interactiveQa), b.navigationMode.UnwrapOr(c.navigationMode), Some(user))
  }

  /**
   * The create branch of the upsert: `data.get(field, default)` for each
   * field, which is the same as merging the request into the defaults.
   */
  function Created(b: ClassroomBody, user: nat): (r: Classroom)
    ensures r == Merged(RequestDefaults, b, user)
  {
    Classroom(b.screenSyncMode.UnwrapOr("auto"), b.aiPlatform.UnwrapOr("xunfei"), Some(b.subject.UnwrapOr("语文")),
              b.voiceType.UnwrapOr("male"), b.robotAction.UnwrapOr("standard"), b.handRecognition.UnwrapOr(true),
              b.interactiveQa.UnwrapOr(true), b.navigationMode.UnwrapOr("default"), Some(user))
  }

  /** Sending the same request again changes nothing more. */
  lemma MergedIdempotent(c: Classroom, b: ClassroomBody, user: nat)
    ensures Merged(Merged(c, b, user), b, user) == Merged(c, b, user)
  {
  }

  /** `filter_by(equipment_id=...).first()`. */
  function FindByEquipment(ss: seq<EduSetting>, equipmentId: string): (r: Option<nat>)
    ensures r.Some? ==> r.value < |ss| && ss[r.value].equipmentId == Some(equipmentId)
    ensures r.None? <==> forall i :: 0 <= i < |ss| ==> ss[i].equipmentId != Some(equipmentId)
  {
    if ss == [] then None
    else if ss[0].equipmentId == Some(equipmentId) then Some(0)
    else match FindByEquipment(ss[1..], equipmentId)
      case None => None
      case Some(k) => Some(k + 1)
  }

  /** At most one row per piece of equipment. */
  predicate OnePerEquipment(ss: seq<EduSetting>)
  {
    forall i, j :: 0 <= i < |ss| && 0 <= j < |ss| && ss[i].equipmentId.Some? && ss[i].equipmentId == ss[j].equipmentId
                   ==> i == j
  }

  /** The settings table after the upsert, the position of the saved row and the next free id. */
  datatype Upserted = Upserted(settings: seq<EduSetting>, at: nat, nextId: nat)

  /**
   * The upsert of `create_education_setting`: the first row of that
   * equipment has its classroom columns merged; without one a new row is
   * appended.
   */
  function UpsertSetting(ss: seq<EduSetting>, nextId: nat, equipmentId: string, b: ClassroomBody, user: nat)
    : (r: Upserted)
    ensures r.at < |r.settings| && r.settings[r.at].equipmentId == Some(equipmentId)
    ensures r.settings[r.at].classroom.updatedBy == Some(user)
  {
    match FindByEquipment(ss, equipmentId)
    case Some(k) => Upserted(ss[k := ss[k].(classroom := Merged(ss[k].classroom, b, user))], k, nextId)
    case None => Upserted(ss + [EduSetting(nextId, Some(equipmentId), Created(b, user), NoCourse)], |ss|, nextId + 1)
  }

  /**
   * The upsert keeps one row per equipment, leaves every other row as it
   * was, keeps the course fields of the row it updates, adds a row only when
   * the equipment had none, and never reuses an id.
   */
  lemma UpsertSettingSpec(ss: seq<EduSetting>, nextId: nat, equipmentId: string, b: ClassroomBody, user: nat)
    requires OnePerEquipment(ss) && forall i :: 0 <= i < |ss| ==> ss[i].id < nextId
    ensures var r := UpsertSetting(ss, nextId, equipmentId, b, user);
      OnePerEquipment(r.settings)
      && (forall i :: 0 <= i < |ss| && i != r.at ==> r.settings[i] == ss[i])
      && (r.at < |ss| ==> r.settings[r.at].course == ss[r.at].course && r.settings[r.at].id == ss[r.at].id)
      && (|r.settings| == |ss| <==> exists i :: 0 <= i < |ss| && ss[i].equipmentId == Some(equipmentId))
      && (forall i :: 0 <= i < |r.settings| ==> r.settings[i].id < r.nextId)
  {
    var r := UpsertSetting(ss, nextId, equipmentId, b, user);
    if FindByEquipment(ss, equipmentId).None? {
      assert forall i :: 0 <= i < |ss| ==> r.settings[i] == ss[i];
    }
  }

  // ---------------------------------------------------------------------
  // Names: copying and importing
  // ---------------------------------------------------------------------

  /** `EducationSettings.get_by_name`: the first row with this name. */
  function FindByName(ss: seq<EduSetting>, name: string): (r: Option<nat>)
    ensures r.Some? ==> r.value < |ss| && ss[r.value].course.name == Some(name)
    ensures r.None? <==> forall i :: 0 <= i < |ss| ==> ss[i].course.name != Some(name)
  {
    if ss == [] then None
    else if ss[0].course.name == Some(name) then Some(0)
    else match FindByName(ss[1..], name)
      case None => None
      case Some(k) => Some(k + 1)
  }

  /** Some row carries this name. */
  predicate Taken(ss: seq<EduSetting>, name: string)
  {
    exists i :: 0 <= i < |ss| && ss[i].course.name == Some(name)
  }

  /**
   * The lookup by a name that may be NULL, as `filter_by(name=…)` does it:
   * a NULL name matches the rows whose name is NULL.
   */
  function FindByNullableName(ss: seq<EduSetting>, name: Option<string>): (r: Option<nat>)
    ensures r.Some? ==> r.value < |ss| && ss[r.value].course.name == name
    ensures r.None? <==> forall i :: 0 <= i < |ss| ==> ss[i].course.name != name
    ensures name.Some? ==> (r.Some? <==> Taken(ss, name.value))
  {
    if ss == [] then None
    else if ss[0].course.name == name then Some(0)
    else match FindByNullableName(ss[1..], name)
      case None => None
      case Some(k) => Some(k + 1)
  }

  /** No two rows share a name. */
  predicate UniqueNames(ss: seq<EduSetting>)
  {
    forall i, j :: 0 <= i < |ss| && 0 <= j < |ss| && ss[i].course.name.Some? && ss[i].course.name == ss[j].course.name
                   ==> i == j
  }

  /** Adding a row under a free name, or under NULL, keeps names unique. */
  lemma AppendFreeName(ss: seq<EduSetting>, s: EduSetting)
    requires s.course.name.Some? ==> !Taken(ss, s.course.name.value)
    ensures UniqueNames(ss) ==> UniqueNames(ss + [s])
  {
    var r := ss + [s];
    if UniqueNames(ss) {
      forall i, j | 0 <= i < |r| && 0 <= j < |r| && r[i].course.name.Some? && r[i].course.name == r[j].course.name
        ensures i == j
      {
      }
    }
  }

  /** Python's `f"{value}"` of a nullable text column: a null renders as 'None'. */
  function PyText(s: Option<string>): (r: string)
    ensures s.Some? ==> r == s.value
    ensures s.None? ==> r == "None"
  {
    match s
    case None => "None"
    case Some(v) => v
  }

  /**
   * The body of a copy request. `name` is none when the key is absent,
   * `Some(None)` when it is sent as `null` and `Some(Some(s))` for a text.
   */
  datatype CopyBody = CopyBody(name: Option<Option<string>>)

  /**
   * The name of a copy, as `data.get('name', default)` gives it: the value
   * sent under the key, NULL for a `null`, else the original's with ' (副本)'.
   */
  function CopyName(original: EduSetting, requested: Option<Option<string>>): (r: Option<string>)
    ensures requested.Some? ==> r == requested.value
    ensures requested.None? ==> r == Some(PyText(original.course.name) + " (副本)")
    ensures requested.None? && original.course.name.Some? ==> r == Some(original.course.name.value + " (副本)")
  {
    match requested
    case None => Some(PyText(original.course.name) + " (副本)")
    case Some(v) => v
  }

  /** A `null` name is taken as it is, so the copy is saved with a NULL name; only an absent key gets the default. */
  lemma NullCopyName(original: EduSetting)
    ensures CopyName(original, Some(None)).None?
    ensures CopyName(original, None).Some?
  {
  }

  /**
   * The copy `copy_education_setting` saves: the original's course fields
   * under the new name, inactive, created by the caller; no equipment and
   * the column defaults for the classroom.
   */
  function CopyOf(original: EduSetting, id: nat, name: Option<string>, user: nat): (r: EduSetting)
    ensures r.id == id && r.equipmentId.None? && r.course.name == name
    ensures r.course.status == Some("inactive") && r.course.createdBy == Some(user)
    ensures r.course.(name := original.course.name, status := original.course.status,
                      createdBy := original.course.createdBy) == original.course
  {
    EduSetting(id, None, ColumnDefaults, original.course.(name := name, status := Some("inactive"), createdBy := Some(user)))
  }

  /** The text after a name taken by an earlier import: ' (导入k)'. */
  function Candidate(original: string, k: nat): (r: string)
    ensures |r| > |original| && r[..|original|] == original
  {
    original + " (导入" + Text.NatToString(k) + ")"
  }

  /** A suffixed name is never the bare original. */
  lemma CandidateNotOriginal(original: string, k: nat)
    ensures Candidate(original, k) != original
  {
  }

  /** Distinct counters give distinct names. */
  lemma CandidateInjective(original: string, a: nat, b: nat)
    requires Candidate(original, a) == Candidate(original, b)
    ensures a == b
  {
    var ca, cb := Candidate(original, a), Candidate(original, b);
    var sa, sb := Text.NatToString(a), Text.NatToString(b);
    var n := |original| + 4;
    assert |ca| == n + |sa| + 1 && |cb| == n + |sb| + 1;
    assert ca[n..n + |sa|] == sa;
    assert cb[n..n + |sb|] == sb;
    Text.NatToStringInjective(a, b);
  }

  /** The names every row carries. */
  ghost function Names(ss: seq<EduSetting>): (r: set<string>)
    ensures forall name :: name in r <==> Taken(ss, name)
  {
    set i | 0 <= i < |ss| && ss[i].course.name.Some? :: ss[i].course.name.value
  }

  /** The names the import loop has tried before the counter reached `counter`. */
  ghost function Tried(original: string, counter: nat): (r: set<string>)
    requires counter >= 1
    ensures forall k :: 1 <= k < counter - 1 ==> Candidate(original, k) in r
  {
    if counter == 1 then {} else {original} + set k | 1 <= k < counter - 1 :: Candidate(original, k)
  }

  /** The name the loop tries next has not been tried yet. */
  lemma NextNotTried(original: string, counter: nat)
    requires counter >= 1
    ensures (if counter == 1 then original else Candidate(original, counter - 1)) !in Tried(original, counter)
  {
    if counter > 1 {
      var name := Candidate(original, counter - 1);
      CandidateNotOriginal(original, counter - 1);
      if name in Tried(original, counter) {
        var k :| 1 <= k < counter - 1 && Candidate(original, k) == name;
        CandidateInjective(original, k, counter - 1);
      }
    }
  }

  /** Every name the loop has tried is taken. */
  ghost predicate TriedTaken(ss: seq<EduSetting>, original: string, counter: nat)
    requires counter >= 1
  {
    Tried(original, counter) <= Names(ss)
  }

  /** How many taken names the loop has not tried yet. */
  ghost function Untried(ss: seq<EduSetting>, original: string, counter: nat): nat
    requires counter >= 1
  {
    |Names(ss) - Tried(original, counter)|
  }

  /** A taken name the loop tries joins the tried names, so fewer taken names are left untried. */
  lemma TriedGrows(ss: seq<EduSetting>, original: string, counter: nat)
    requires counter >= 1 && TriedTaken(ss, original, counter)
    requires Taken(ss, if counter == 1 then original else Candidate(original, counter - 1))
    ensures TriedTaken(ss, original, counter + 1)
    ensures Untried(ss, original, counter + 1) < Untried(ss, original, counter)
  {
    var name := if counter == 1 then original else Candidate(original, counter - 1);
    NextNotTried(original, counter);
    assert Tried(original, counter + 1) == Tried(original, counter) + {name};
    assert Names(ss) - Tried(original, counter) == (Names(ss) - Tried(original, counter + 1)) + {name};
  }

  /**
   * The name loop of `import_education_setting`: the original name when it
   * is free, else ' (导入k)' with the smallest k whose name is free. The
   * loop ends because every name it tries is taken and differs from the
   * names it tried before.
   */
  method ImportName(ss: seq<EduSetting>, original: string) returns (name: string, k: nat)
    ensures !Taken(ss, name)
    ensures k == 0 <==> !Taken(ss, original)
    ensures k == 0 ==> name == original
    ensures k >= 1 ==> name == Candidate(original, k) && forall j :: 1 <= j < k ==> Taken(ss, Candidate(original, j))
  {
    name := original;
    var counter := 1;
    while FindByName(ss, name).Some?
      invariant counter >= 1
      invariant name == if counter == 1 then original else Candidate(original, counter - 1)
      invariant counter > 1 ==> Taken(ss, original)
      invariant forall j :: 1 <= j < counter - 1 ==> Taken(ss, Candidate(original, j))
      invariant TriedTaken(ss, original, counter)
      decreases Untried(ss, original, counter)
    {
      TriedGrows(ss, original, counter);
      name := Candidate(original, counter);
      counter := counter + 1;
    }
    k := counter - 1;
  }

  /** The setting data of an import request; `None` is a key left out or null. */
  datatype ImportData = ImportData(name: Option<string>, description: Option<string>, category: Option<string>,
                                   targetAgeGroup: Option<string>, difficultyLevel: Option<string>,
                                   duration: Option<int>, objectives: Option<string>,
                                   contentStructure: Option<string>, assessmentCriteria: Option<string>,
                                   interactiveElements: Option<string>, maxParticipants: Option<int>,
                                   prerequisites: Option<string>, learningOutcomes: Option<string>)

  /** Python's truth of a text field: present and not empty. */
  predicate Filled(s: Option<string>)
  {
    s.Some? && s.value != ""
  }

  /** The first required field the import data lacks, in the order the handler checks them. */
  function MissingImportField(d: ImportData): (r: Option<string>)
    ensures r.None? <==> Filled(d.name) && Filled(d.category) && Filled(d.targetAgeGroup) && Filled(d.difficultyLevel)
    ensures r == Some("name") <==> !Filled(d.name)
  {
    if !Filled(d.name) then Some("name")
    else if !Filled(d.category) then Some("category")
    else if !Filled(d.targetAgeGroup) then Some("target_age_group")
    else if !Filled(d.difficultyLevel) then Some("difficulty_level")
    else None
  }

  /** The imported row: the data's fields, durations 30 and 20 participants by default, inactive. */
  function Imported(id: nat, name: string, d: ImportData, user: nat): (r: EduSetting)
    ensures r.id == id && r.equipmentId.None? && r.course.name == Some(name)
    ensures r.course.status == Some("inactive") && r.course.createdBy == Some(user)
    ensures r.course.category == d.category && r.course.duration == Some(d.duration.UnwrapOr(30))
    ensures r.course.maxParticipants == Some(d.maxParticipants.UnwrapOr(20))
  {
    EduSetting(id, None, ColumnDefaults,
               Course(Some(name), d.description, d.category, d.targetAgeGroup, d.difficultyLevel,
                      Some(d.duration.UnwrapOr(30)), d.objectives, d.contentStructure, d.assessmentCriteria,
                      d.interactiveElements, Some("inactive"), Some(d.maxParticipants.UnwrapOr(20)),
                      d.prerequisites, d.learningOutcomes, Some(user)))
  }

  // ---------------------------------------------------------------------
  // The batch
  // ---------------------------------------------------------------------

  /** The result of a batch: the settings table and one entry per id. */
  datatype SettingsBatch = SettingsBatch(settings: seq<EduSetting>, entries: seq<Batch.Item>)

  /** The operations the batch endpoint knows. */
  predicate KnownBatchOp(op: string)
  {
    op == "delete" || op == "activate" || op == "deactivate" || op == "change_category"
  }

  /** The row after a known operation other than 'delete'. */
  function Changed(s: EduSetting, op: string, category: Option<string>): (r: EduSetting)
    ensures r.id == s.id && r.equipmentId == s.equipmentId && r.classroom == s.classroom
    ensures op == "activate" ==> r.course == s.course.(status := Some("active"))
    ensures op == "deactivate" ==> r.course == s.course.(status := Some("inactive"))
    ensures op == "change_category" ==> r.course == s.course.(category := category)
  {
    if op == "activate" then s.(course := s.course.(status := Some("active")))
    else if op == "deactivate" then s.(course := s.course.(status := Some("inactive")))
    else s.(course := s.course.(category := category))
  }

  /**
   * One id of `batch_education_settings_operation`: a missing setting, a
   * category change without a category and an unknown operation fail;
   * 'delete' removes the row; the others rewrite it in place.
   */
  function BatchStep(ss: seq<EduSetting>, id: nat, op: string, category: Option<string>): (r: SettingsBatch)
    ensures |r.entries| == 1 && r.entries[0].id == id
    ensures r.entries[0].ok <==> FindSetting(ss, id).Some? && KnownBatchOp(op)
                                 && (op == "change_category" ==> Filled(category))
    ensures !r.entries[0].ok ==> r.settings == ss
    ensures r.entries[0].ok && op == "delete" ==>
              r.settings == ss[..FindSetting(ss, id).value] + ss[FindSetting(ss, id).value + 1..]
    ensures r.entries[0].ok && op != "delete" ==>
              r.settings == ss[FindSetting(ss, id).value := Changed(ss[FindSetting(ss, id).value], op, category)]
  {
    match FindSetting(ss, id)
    case None => SettingsBatch(ss, [Batch.Item(id, false, "教育培训设置不存在")])
    case Some(k) =>
      if op == "delete" then SettingsBatch(ss[..k] + ss[k + 1..], [Batch.Item(id, true, "操作成功")])
      else if op == "activate" || op == "deactivate" || (op == "change_category" && Filled(category)) then
        SettingsBatch(ss[k := Changed(ss[k], op, category)], [Batch.Item(id, true, "操作成功")])
      else if op == "change_category" then SettingsBatch(ss, [Batch.Item(id, false, "未提供新分类")])
      else SettingsBatch(ss, [Batch.Item(id, false, "不支持的操作")])
  }

  /** The ids handled in order, each seeing the table the previous ones left. */
  function BatchRun(ss: seq<EduSetting>, ids: seq<nat>, op: string, category: Option<string>): (r: SettingsBatch)
    ensures |r.entries| == |ids|
    ensures forall j :: 0 <= j < |ids| ==> r.entries[j].id == ids[j]
  {
    if ids == [] then SettingsBatch(ss, [])
    else
      var prev := BatchRun(ss, ids[..|ids| - 1], op, category);
      var s := BatchStep(prev.settings, ids[|ids| - 1], op, category);
      SettingsBatch(s.settings, prev.entries + s.entries)
  }

  /**
   * A category change without a category, or an operation the endpoint
   * does not know, fails for every id and leaves the table as it was.
   */
  lemma {:induction false} BatchRefusedEverywhere(ss: seq<EduSetting>, ids: seq<nat>, op: string, category: Option<string>)
    requires !KnownBatchOp(op) || (op == "change_category" && !Filled(category))
    ensures BatchRun(ss, ids, op, category).settings == ss
    ensures Batch.CountOk(BatchRun(ss, ids, op, category).entries) == 0
  {
    if ids != [] {
      var front := ids[..|ids| - 1];
      BatchRefusedEverywhere(ss, front, op, category);
      var prev := BatchRun(ss, front, op, category);
      var s := BatchStep(prev.settings, ids[|ids| - 1], op, category);
      assert s.entries == [s.entries[0]];
      Batch.CountOkAppend(prev.entries, s.entries[0]);
    }
  }

  /** Activating or deactivating never changes which rows exist, nor any name. */
  lemma {:induction false} BatchStatusKeepsRows(ss: seq<EduSetting>, ids: seq<nat>, op: string, category: Option<string>)
    requires op == "activate" || op == "deactivate"
    ensures var r := BatchRun(ss, ids, op, category).settings;
      |r| == |ss| && forall i :: 0 <= i < |ss| ==> r[i].id == ss[i].id && r[i].course.name == ss[i].course.name
  {
    if ids != [] {
      BatchStatusKeepsRows(ss, ids[..|ids| - 1], op, category);
    }
  }

  /** The batch after one more id. */
  lemma BatchRunNext(ss: seq<EduSetting>, ids: seq<nat>, i: nat, op: string, category: Option<string>)
    requires i < |ids|
    ensures var prev := BatchRun(ss, ids[..i], op, category);
            var s := BatchStep(prev.settings, ids[i], op, category);
            BatchRun(ss, ids[..i + 1], op, category) == SettingsBatch(s.settings, prev.entries + s.entries)
  {
    assert ids[..i + 1][..i] == ids[..i];
  }

  /** The batch loop after `i` ids: the table and entries so far, and the two counters. */
  ghost predicate BatchSoFar(ss0: seq<EduSetting>, ids: seq<nat>, op: string, category: Option<string>, i: nat,
                             ss: seq<EduSetting>, entries: seq<Batch.Item>, success: nat, failed: nat)
  {
    i <= |ids| && BatchRun(ss0, ids[..i], op, category) == SettingsBatch(ss, entries)
    && success == Batch.CountOk(entries) && success + failed == i
  }

  lemma BatchSoFarStep(ss0: seq<EduSetting>, ids: seq<nat>, op: string, category: Option<string>, i: nat,
                       ss: seq<EduSetting>, entries: seq<Batch.Item>, success: nat, failed: nat)
    requires i < |ids| && BatchSoFar(ss0, ids, op, category, i, ss, entries, success, failed)
    ensures var s := BatchStep(ss, ids[i], op, category);
            BatchSoFar(ss0, ids, op, category, i + 1, s.settings, entries + s.entries,
                       success + Batch.Tally(s.entries[0].ok), failed + 1 - Batch.Tally(s.entries[0].ok))
  {
    BatchRunNext(ss0, ids, i, op, category);
    var s := BatchStep(ss, ids[i], op, category);
    assert s.entries == [s.entries[0]];
    Batch.CountOkAppend(entries, s.entries[0]);
  }

  // ---------------------------------------------------------------------
  // The table and the handlers
  // ---------------------------------------------------------------------

  /** The education settings table with its id counter. */
  class EducationStore {
    var settings: seq<EduSetting>
    var nextId: nat

    /** Every id was handed out by the counter, so a new row never reuses one. */
    predicate Valid()
      reads this
    {
      forall i :: 0 <= i < |settings| ==> settings[i].id < nextId
    }

    constructor ()
      ensures Valid() && settings == [] && nextId == 1
    {
      settings, nextId := [], 1;
    }

    /**
     * `create_education_setting`: the equipment checks, then the upsert
     * per equipment.
     */
    method CreateSetting(equipmentIds: seq<string>, body: ClassroomBody, user: nat) returns (st: Status)
      requires Valid()
      modifies this
      ensures Valid()
      ensures var t := ResolveEquipment(equipmentIds, body.equipmentId);
        (t.Refused? ==> st == t.st && settings == old(settings) && nextId == old(nextId))
        && (t.Target? ==> st == Status(200, "教育培训设置创建成功")
                          && UpsertSetting(old(settings), old(nextId), t.equipmentId, body, user)
                             == Upserted(settings, UpsertSetting(old(settings), old(nextId), t.equipmentId, body, user).at, nextId))
    {
      var t := ResolveEquipment(equipmentIds, body.equipmentId);
      if t.Refused? {
        return t.st;
      }
      var existing := FindByEquipment(settings, t.equipmentId);
      if existing.Some? {
        var k := existing.value;
        settings := settings[k := settings[k].(classroom := Merged(settings[k].classroom, body, user))];
      } else {
        settings := settings + [EduSetting(nextId, Some(t.equipmentId), Created(body, user), NoCourse)];
        nextId := nextId + 1;
      }
      st := Status(200, "教育培训设置创建成功");
    }

    /** `delete_education_setting`: 404 for an unknown id, otherwise the row is removed. */
    method DeleteSetting(id: nat) returns (st: Status)
      requires Valid()
      modifies this
      ensures Valid() && nextId == old(nextId)
      ensures FindSetting(old(settings), id).None? ==> st == Status(404, "教育培训设置不存在") && settings == old(settings)
      ensures FindSetting(old(settings), id).Some? ==>
                st == Status(200, "教育培训设置删除成功")
                && settings == old(settings)[..FindSetting(old(settings), id).value]
                               + old(settings)[FindSetting(old(settings), id).value + 1..]
      ensures forall s :: s in settings ==> s in old(settings)
    {
      var found := FindSetting(settings, id);
      if found.None? {
        return Status(404, "教育培训设置不存在");
      }
      var k := found.value;
      settings := settings[..k] + settings[k + 1..];
      assert forall j :: 0 <= j < |settings| ==> settings[j] == old(settings)[if j < k then j else j + 1];
      st := Status(200, "教育培训设置删除成功");
    }

    /**
     * `copy_education_setting`: 404 for an unknown original; a request
     * without a JSON body makes `data.get` raise, which the route answers
     * with a 500; 400 when the copy's name is taken, otherwise the copy is
     * appended.
     */
    method CopySetting(id: nat, body: Option<CopyBody>, user: nat) returns (st: Status)
      requires Valid()
      modifies this
      ensures Valid()
      ensures FindSetting(old(settings), id).None? ==>
                st == Status(404, "原教育培训设置不存在") && settings == old(settings) && nextId == old(nextId)
      ensures FindSetting(old(settings), id).Some? && body.None? ==>
                st == Status(500, "教育培训设置复制失败: ") && settings == old(settings) && nextId == old(nextId)
      ensures FindSetting(old(settings), id).Some? && body.Some? ==>
                var original := old(settings)[FindSetting(old(settings), id).value];
                var name := CopyName(original, body.value.name);
                (FindByNullableName(old(settings), name).Some? ==>
                   st == Status(400, "教育培训设置名称已存在") && settings == old(settings) && nextId == old(nextId))
                && (FindByNullableName(old(settings), name).None? ==>
                      st == Status(200, "教育培训设置复制成功") && nextId == old(nextId) + 1
                      && settings == old(settings) + [CopyOf(original, old(nextId), name, user)])
      ensures UniqueNames(old(settings)) ==> UniqueNames(settings)
    {
      var found := FindSetting(settings, id);
      if found.None? {
        return Status(404, "原教育培训设置不存在");
      }
      if body.None? {
        return Status(500, "教育培训设置复制失败: ");
      }
      var original := settings[found.value];
      var name := CopyName(original, body.value.name);
      if FindByNullableName(settings, name).Some? {
        return Status(400, "教育培训设置名称已存在");
      }
      AppendFreeName(settings, CopyOf(original, nextId, name, user));
      settings := settings + [CopyOf(original, nextId, name, user)];
      nextId := nextId + 1;
      st := Status(200, "教育培训设置复制成功");
    }

    /**
     * `import_education_setting`. `body` is none when the request has no
     * JSON body, so that `data.get` raises and the route answers with a
     * 500; `Some(None)` stands for a `setting_data` that Python reads as
     * false (absent, `null` or an empty object), which is a 400. Otherwise a
     * missing required field is a 400, and a complete one adds a new
     * inactive row under the name `ImportName` picks: the original name when
     * it is free, else ' (导入k)' with the smallest k whose name is free.
     */
    method ImportSetting(body: Option<Option<ImportData>>, user: nat) returns (st: Status, name: string)
      requires Valid()
      modifies this
      ensures Valid()
      ensures body.None? ==> st == Status(500, "教育培训设置导入失败: ") && settings == old(settings) && nextId == old(nextId)
      ensures body == Some(None) ==> st == Status(400, "请提供导入数据") && settings == old(settings) && nextId == old(nextId)
      ensures body.Some? && body.value.Some? && MissingImportField(body.value.value).Some? ==>
                st == Status(400, "导入数据缺少必需字段: " + MissingImportField(body.value.value).value)
                && settings == old(settings) && nextId == old(nextId)
      ensures body.Some? && body.value.Some? && MissingImportField(body.value.value).None? ==>
                var original := body.value.value.name.value;
                st == Status(200, "教育培训设置导入成功") && nextId == old(nextId) + 1
                && settings == old(settings) + [Imported(old(nextId), name, body.value.value, user)]
                && !Taken(old(settings), name)
                && (!Taken(old(settings), original) ==> name == original)
                && (Taken(old(settings), original) ==>
                      exists k :: k >= 1 && name == Candidate(original, k)
                                  && forall j :: 1 <= j < k ==> Taken(old(settings), Candidate(original, j)))
      ensures UniqueNames(old(settings)) ==> UniqueNames(settings)
    {
      if body.None? {
        return Status(500, "教育培训设置导入失败: "), "";
      }
      if body.value.None? {
        return Status(400, "请提供导入数据"), "";
      }
      var data := body.value.value;
      var missing := MissingImportField(data);
      if missing.Some? {
        return Status(400, "导入数据缺少必需字段: " + missing.value), "";
      }
      var k;
      name, k := ImportName(settings, data.name.value);
      AppendFreeName(settings, Imported(nextId, name, data, user));
      settings := settings + [Imported(nextId, name, data, user)];
      nextId := nextId + 1;
      st := Status(200, "教育培训设置导入成功");
    }

    /** One id of the batch. */
    method BatchOne(id: nat, op: string, category: Option<string>) returns (e: Batch.Item)
      requires Valid()
      modifies this
      ensures Valid() && nextId == old(nextId)
      ensures BatchStep(old(settings), id, op, category) == SettingsBatch(settings, [e])
    {
      var found := FindSetting(settings, id);
      if found.None? {
        return Batch.Item(id, false, "教育培训设置不存在");
      }
      var k := found.value;
      if op == "delete" {
        settings := settings[..k] + settings[k + 1..];
        assert forall j :: 0 <= j < |settings| ==> settings[j] == old(settings)[if j < k then j else j + 1];
      } else if op == "activate" || op == "deactivate" || (op == "change_category" && Filled(category)) {
        settings := settings[k := Changed(settings[k], op, category)];
      } else if op == "change_category" {
        return Batch.Item(id, false, "未提供新分类");
      } else {
        return Batch.Item(id, false, "不支持的操作");
      }
      e := Batch.Item(id, true, "操作成功");
    }

    /** The loop of the batch over every id. */
    method BatchAll(ids: seq<nat>, op: string, category: Option<string>)
      returns (entries: seq<Batch.Item>, success: nat, failed: nat)
      requires Valid()
      modifies this
      ensures Valid() && nextId == old(nextId)
      ensures BatchRun(old(settings), ids, op, category) == SettingsBatch(settings, entries)
      ensures success == Batch.CountOk(entries) && success + failed == |ids|
    {
      entries, success, failed := [], 0, 0;
      var i := 0;
      assert ids[..0] == [];
      while i < |ids|
        invariant 0 <= i <= |ids| && Valid() && nextId == old(nextId)
        invariant BatchSoFar(old(settings), ids, op, category, i, settings, entries, success, failed)
      {
        entries, success, failed := BatchNext(old(settings), ids, op, category, i, entries, success, failed);
        i := i + 1;
      }
      assert ids[..i] == ids;
    }

    /** One turn of the batch loop: the next id handled, its entry counted. */
    method BatchNext(ghost ss0: seq<EduSetting>, ids: seq<nat>, op: string, category: Option<string>, i: nat,
                     entries0: seq<Batch.Item>, success0: nat, failed0: nat)
      returns (entries: seq<Batch.Item>, success: nat, failed: nat)
      requires Valid() && i < |ids|
      requires BatchSoFar(ss0, ids, op, category, i, settings, entries0, success0, failed0)
      modifies this
      ensures Valid() && nextId == old(nextId)
      ensures BatchSoFar(ss0, ids, op, category, i + 1, settings, entries, success, failed)
    {
      BatchSoFarStep(ss0, ids, op, category, i, settings, entries0, success0, failed0);
      var e := BatchOne(ids[i], op, category);
      entries, success, failed := entries0 + [e], success0 + Batch.Tally(e.ok), failed0 + 1 - Batch.Tally(e.ok);
    }

    /**
     * `batch_education_settings_operation`: an empty id list or operation
     * is a 400 that changes nothing; otherwise the ids are handled in order
     * as `BatchRun` says, each counted once.
     */
    method BatchSettingsOperation(ids: seq<nat>, op: string, category: Option<string>)
      returns (st: Status, entries: seq<Batch.Item>, success: nat, failed: nat)
      requires Valid()
      modifies this
      ensures Valid() && nextId == old(nextId)
      ensures ids == [] || op == "" ==>
                st == Status(400, "设置ID列表和操作类型不能为空") && entries == [] && settings == old(settings)
      ensures ids != [] && op != "" ==>
                BatchRun(old(settings), ids, op, category) == SettingsBatch(settings, entries)
                && success == Batch.CountOk(entries) && success + failed == |ids|
                && st == Status(200, Batch.Summary(success, failed))
    {
      if ids == [] || op == "" {
        return Status(400, "设置ID列表和操作类型不能为空"), [], 0, 0;
      }
      entries, success, failed := BatchAll(ids, op, category);
      st := Status(200, Batch.Summary(success, failed));
    }
  }
}
