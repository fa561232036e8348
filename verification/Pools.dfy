/** The stored pools: a facility, its basins, and what each is known to publish. */
module Pools {
  import opened Prelude
  import opened Schedule
  import opened LanePlans
  import opened Resolver

  datatype Geo = Geo(lat: real, lon: real)

  datatype PoolKind = Indoor | Outdoor | River | Lake | School | Paddling | Thermal

  /** Where a basin's lane plan is printed: a sheet, and the section of it if several share one. */
  datatype LanePlanSource = LanePlanSource(url: string, section: Option<string>)

  datatype PlanState = NoPlan | Parsed(plan: LanePlan) | Unavailable(cause: string)

  datatype Basin = Basin(
    id: string, name: string, lengthM: Option<real>, lanes: Option<nat>,
    rules: seq<ScheduleRule>, exceptions: seq<ScheduleException>,
    source: Option<LanePlanSource>, lanePlan: PlanState)

  datatype Notice = Notice(text: string, activeFrom: Option<int>, activeTo: Option<int>) {
    predicate ActiveOn(d: Date) {
      && (activeFrom.Some? ==> activeFrom.value <= d.ordinal)
      && (activeTo.Some? ==> d.ordinal <= activeTo.value)
    }
  }

  datatype Facility = Facility(
    id: string, name: string, kind: PoolKind, hours: FacilityHours, validAsOf: Option<int>,
    basins: seq<Basin>, notices: seq<Notice>, geo: Option<Geo>)
}
