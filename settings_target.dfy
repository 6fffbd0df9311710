/**
 * The equipment checks shared by the navigation and education settings
 * upserts (backend/app/routes/navigation_routes.py and
 * backend/app/routes/education_routes.py): which piece of equipment a
 * settings request is for.
 */
module SettingsTarget {
  import opened Wrappers
  import opened ResultEnvelope

  /** The equipment a settings request is for, or the reply that refuses it. */
  datatype Target = Target(equipmentId: string) | Refused(st: Status)

  /** A missing, empty or 'default' equipment id stands for the first piece of equipment. */
  predicate Placeholder(given: Option<string>)
  {
    given.None? || given.value == "" || given.value == "default"
  }

  /**
   * The equipment checks of `create_navigation_setting` and
   * `create_education_setting`: a placeholder id becomes the first piece of
   * equipment (400 when there is none), and the id must name existing
   * equipment (404 otherwise).
   */
  function ResolveEquipment(equipmentIds: seq<string>, given: Option<string>): (r: Target)
    ensures r.Target? ==> r.equipmentId in equipmentIds
    ensures r.Target? && !Placeholder(given) ==> r.equipmentId == given.value
    ensures r.Target? && Placeholder(given) ==> r.equipmentId == equipmentIds[0]
    ensures r.Refused? <==> (if Placeholder(given) then equipmentIds == [] else given.value !in equipmentIds)
  {
    if Placeholder(given) then
      if equipmentIds == [] then Refused(Status(400, "系统中没有可用设备，请先添加设备"))
      else Target(equipmentIds[0])
    else if given.value !in equipmentIds then Refused(Status(404, "设备" + given.value + "不存在"))
    else Target(given.value)
  }
}
