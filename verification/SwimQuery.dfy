/** "Where can I swim?": every facility resolved for a day, and every pool accounted for once. */
module SwimQuery {
  import opened Prelude
  import opened Schedule
  import opened Sorting
  import opened Resolver
  import opened Pools
  import Names
  import opened Text

  datatype ScheduleFreshness = Scraped | AwaitingScrape | NoSource

  datatype RosterEntry = RosterEntry(poolId: string, name: string, geo: Option<Geo>, freshness: ScheduleFreshness)

  predicate HasRules(f: Facility) {
    exists b :: b in f.basins && b.rules != []
  }

  /** Great-circle distance is a parameter; a distance is unknown unless both ends are known. */
  datatype Query = Query(day: Date, timeOfDay: int, near: Option<Geo>, radius: Option<real>, km: (Geo, Geo) -> real) {
    function Distance(geo: Option<Geo>): Option<real> {
      if near.Some? && geo.Some? then Some(km(near.value, geo.value)) else None
    }

    predicate InRadius(geo: Option<Geo>) {
      var distance := Distance(geo);
      !(radius.Some? && distance.Some? && distance.value > radius.value)
    }

    /** A known distance above the radius. */
    ghost predicate Beyond(distance: Option<real>) {
      radius.Some? && distance.Some? && distance.value > radius.value
    }
  }

  /** The distance is the great-circle one when both ends are known, and unknown otherwise. */
  ghost predicate IsDistance(q: Query, geo: Option<Geo>, distance: Option<real>) {
    if q.near.Some? && geo.Some? then distance == Some(q.km(q.near.value, geo.value)) else distance == None
  }

  /** Nothing says that the place is further than the radius. */
  ghost predicate Reached(q: Query, geo: Option<Geo>) {
    q.radius.Some? && q.near.Some? && geo.Some? ==> q.km(q.near.value, geo.value) <= q.radius.value
  }

  lemma InRadiusIsReached(q: Query, geo: Option<Geo>)
    ensures IsDistance(q, geo, q.Distance(geo)) && (q.InRadius(geo) <==> Reached(q, geo))
  {
  }

  datatype SwimOption = SwimOption(
    facilityId: string, facilityName: string, basinId: string, basinName: string,
    basinLengthM: Option<real>, basinLanes: Option<nat>, session: ResolvedSession,
    openAtQueryTime: bool, distance: Option<real>)

  /** The status bucket ("closed", "awaiting_scrape", ...) mirrors the code one for one. */
  datatype StatusCode = ClosedReason | StillToScrape | WithoutSource | OpenUnscheduled

  datatype StatusParams =
    | ClosureParams(params: Params)
    | SeasonParams(weather: Weather, startMonth: int, endMonth: int, precision: DatePrecision, days: Option<(int, int)>)

  datatype FacilityStatus = FacilityStatus(
    facilityId: string, facilityName: string, code: StatusCode, closure: Option<ClosureCode>,
    params: StatusParams, distance: Option<real>)

  datatype FacilityNotice = FacilityNotice(facilityId: string, facilityName: string, text: string)

  function CoverageWarning(year: string): string {
    "calendar data not available for " + year + "; holiday-dependent schedules may be inaccurate"
  }

  function HolidayWarning(date: string, pools: string): string {
    date + " is a public holiday and these pools do not publish their holiday hours; "
      + "the times shown are their usual weekday hours and are unconfirmed: " + pools
  }

  datatype QueryResult = QueryResult(
    options: seq<SwimOption>, statuses: seq<FacilityStatus>, warnings: seq<string>, notices: seq<FacilityNotice>)

  // --- row order --------------------------------------------------------------------

  /** A known distance by size; an unknown one sorts last. */
  predicate DistanceBelow(a: Option<real>, b: Option<real>) {
    a.Some? && (b.None? || a.value < b.value)
  }

  const OPTION_ORDER := (a: SwimOption, b: SwimOption) =>
    DistanceBelow(a.distance, b.distance)
    || (a.distance == b.distance
        && (a.session.time.start < b.session.time.start
            || (a.session.time.start == b.session.time.start && Names.Leq(a.facilityName, b.facilityName))))

  const STATUS_ORDER := (a: FacilityStatus, b: FacilityStatus) =>
    DistanceBelow(a.distance, b.distance) || (a.distance == b.distance && Names.Leq(a.facilityName, b.facilityName))

  // --- one facility -----------------------------------------------------------------

  function BasinDay(f: Facility, b: Basin, d: Date, cal: Calendar): DaySchedule {
    ResolveHours(f.hours, b.rules, b.exceptions, d, cal)
  }

  function OptionOf(q: Query, f: Facility, b: Basin, s: ResolvedSession): SwimOption {
    SwimOption(f.id, f.name, b.id, b.name, b.lengthM, b.lanes, s, s.time.Contains(q.timeOfDay), q.Distance(f.geo))
  }

  ghost function SessionOptions(q: Query, f: Facility, b: Basin, ss: seq<ResolvedSession>): seq<SwimOption> {
    if ss == [] then [] else SessionOptions(q, f, b, ss[..|ss| - 1]) + [OptionOf(q, f, b, ss[|ss| - 1])]
  }

  /** A basin without rules has no options; nor has one that is not open. */
  ghost function OptionsIn(q: Query, f: Facility, b: Basin, cal: Calendar): seq<SwimOption> {
    if b.rules != [] && BasinDay(f, b, q.day, cal).OpenDay?
    then SessionOptions(q, f, b, BasinDay(f, b, q.day, cal).sessions) else []
  }

  ghost function BasinOptions(q: Query, f: Facility, bs: seq<Basin>, cal: Calendar): seq<SwimOption> {
    if bs == [] then [] else BasinOptions(q, f, bs[..|bs| - 1], cal) + OptionsIn(q, f, bs[|bs| - 1], cal)
  }

  ghost predicate ClosedIn(f: Facility, b: Basin, d: Date, cal: Calendar) {
    b.rules != [] && BasinDay(f, b, d, cal).ClosedDay?
  }

  /** The last basin's closed day, if any basin with rules is closed. */
  ghost function LastClosed(f: Facility, bs: seq<Basin>, d: Date, cal: Calendar): Option<DaySchedule> {
    if bs == [] then None
    else if ClosedIn(f, bs[|bs| - 1], d, cal) then Some(BasinDay(f, bs[|bs| - 1], d, cal))
    else LastClosed(f, bs[..|bs| - 1], d, cal)
  }

  ghost predicate UnverifiedIn(f: Facility, b: Basin, d: Date, cal: Calendar) {
    b.rules != [] && BasinDay(f, b, d, cal).OpenDay? && BasinDay(f, b, d, cal).holidayPolicyUnverified
  }

  ghost predicate Unverified(f: Facility, bs: seq<Basin>, d: Date, cal: Calendar) {
    exists b :: b in bs && UnverifiedIn(f, b, d, cal)
  }

  /** The facility-level answer of a pool with a published season and no rules. The open-day arm
      cannot be reached: that is what the assertion proves. */
  function SeasonalStatus(f: Facility, season: OperatingSeason, d: Date, cal: Calendar, distance: Option<real>)
    : FacilityStatus
  {
    match ResolveHours(f.hours, [], [], d, cal)
    case OpenUnscheduledDay(weather) =>
      var w := season.window;
      FacilityStatus(f.id, f.name, OpenUnscheduled, None,
                     SeasonParams(weather, w.start.month, w.end.month, w.precision,
                                  if w.precision.ByDay? then Some((w.start.day, w.end.day)) else None), distance)
    case ClosedDay(code, params) =>
      FacilityStatus(f.id, f.name, ClosedReason, Some(code), ClosureParams(params), distance)
    case OpenDay(_, _) =>
      NoRulesNoSessions(f.hours, d, cal);
      assert false;
      FacilityStatus(f.id, f.name, ClosedReason, None, ClosureParams(map[]), distance)
  }

  function SeasonalStatusFor(q: Query, f: Facility, cal: Calendar): seq<FacilityStatus> {
    if f.hours.season.None? || HasRules(f) then []
    else [SeasonalStatus(f, f.hours.season.value, q.day, cal, q.Distance(f.geo))]
  }

  ghost function ClosedStatusFor(q: Query, f: Facility, cal: Calendar): seq<FacilityStatus> {
    var closed := LastClosed(f, f.basins, q.day, cal);
    if BasinOptions(q, f, f.basins, cal) == [] && closed.Some? && closed.value.ClosedDay?
    then [FacilityStatus(f.id, f.name, ClosedReason, Some(closed.value.code), ClosureParams(closed.value.params),
                         q.Distance(f.geo))]
    else []
  }

  ghost function FacilityStatuses(q: Query, f: Facility, cal: Calendar): seq<FacilityStatus> {
    SeasonalStatusFor(q, f, cal) + ClosedStatusFor(q, f, cal)
  }

  // --- the whole answer -------------------------------------------------------------

  /** A facility beyond the radius contributes nothing. */
  ghost function OptionsInRange(q: Query, f: Facility, cal: Calendar): seq<SwimOption> {
    if q.InRadius(f.geo) then BasinOptions(q, f, f.basins, cal) else []
  }

  ghost function StatusesInRange(q: Query, f: Facility, cal: Calendar): seq<FacilityStatus> {
    if q.InRadius(f.geo) then FacilityStatuses(q, f, cal) else []
  }

  ghost function AllOptions(q: Query, fs: seq<Facility>, cal: Calendar): seq<SwimOption> {
    if fs == [] then [] else AllOptions(q, fs[..|fs| - 1], cal) + OptionsInRange(q, fs[|fs| - 1], cal)
  }

  ghost function AllStatuses(q: Query, fs: seq<Facility>, cal: Calendar): seq<FacilityStatus> {
    if fs == [] then [] else AllStatuses(q, fs[..|fs| - 1], cal) + StatusesInRange(q, fs[|fs| - 1], cal)
  }

  /** The notice's days, as far as it has a first and a last, hold the date. */
  ghost predicate Shows(n: Notice, d: Date) {
    !(n.activeFrom.Some? && d.ordinal < n.activeFrom.value) && !(n.activeTo.Some? && n.activeTo.value < d.ordinal)
  }

  ghost function NoticesOf(q: Query, f: Facility, ns: seq<Notice>): seq<FacilityNotice> {
    if ns == [] then [] else
      NoticesOf(q, f, ns[..|ns| - 1])
        + if Shows(ns[|ns| - 1], q.day) then [FacilityNotice(f.id, f.name, ns[|ns| - 1].text)] else []
  }

  ghost function AllNotices(q: Query, fs: seq<Facility>): seq<FacilityNotice> {
    if fs == [] then [] else
      var f := fs[|fs| - 1];
      AllNotices(q, fs[..|fs| - 1]) + if q.InRadius(f.geo) then NoticesOf(q, f, f.notices) else []
  }

  predicate HasSchedule(f: Facility) {
    HasRules(f) || f.hours.season.Some?
  }

  predicate Scheduled(fs: seq<Facility>, id: string) {
    exists f :: f in fs && f.id == id && HasSchedule(f)
  }

  /** The status row of one roster row, if it has one. */
  ghost function RowStatus(q: Query, fs: seq<Facility>, row: RosterEntry): seq<FacilityStatus> {
    if Scheduled(fs, row.poolId) || row.freshness.Scraped? then []
    else [FacilityStatus(row.poolId, row.name,
                         if row.freshness.AwaitingScrape? then StillToScrape else WithoutSource,
                         None, ClosureParams(map[]), q.Distance(row.geo))]
  }

  /** The roster minus the scheduled: a status for each pool whose schedule is not known. */
  ghost function ScheduleLess(q: Query, fs: seq<Facility>, roster: seq<RosterEntry>): seq<FacilityStatus> {
    if roster == [] then [] else
      var row := roster[|roster| - 1];
      ScheduleLess(q, fs, roster[..|roster| - 1])
        + RowStatus(q, fs, row)
  }

  /** Names of the facilities in radius that show weekday hours on a holiday nobody vouches for. */
  ghost function UnverifiedNames(q: Query, fs: seq<Facility>, cal: Calendar): set<string> {
    set f | f in fs && q.InRadius(f.geo) && Unverified(f, f.basins, q.day, cal) :: f.name
  }

  /** Coverage first, then the unconfirmed holiday hours. */
  ghost function WarningTexts(covered: bool, year: string, anyUnverified: bool, date: string, pools: string)
    : seq<string>
  {
    (if covered then [] else [CoverageWarning(year)]) + if anyUnverified then [HolidayWarning(date, pools)] else []
  }

  ghost function WarningsFor(d: Date, cal: Calendar, unverified: set<string>): seq<string> {
    WarningTexts(
      d.year in cal.knownYears, Decimal(d.year), unverified != {}, Iso(d), CommaList(Names.SortedNames(unverified)))
  }

  /** The day's warnings: they name, in order, the pools in radius whose holiday hours nobody vouches for. */
  ghost predicate IsWarned(q: Query, fs: seq<Facility>, cal: Calendar, r: QueryResult) {
    r.warnings == WarningsFor(q.day, cal, UnverifiedNames(q, fs, cal))
  }

  ghost predicate IsAnswer(q: Query, fs: seq<Facility>, cal: Calendar, roster: seq<RosterEntry>, r: QueryResult) {
    && r.options == Sorted(OPTION_ORDER, AllOptions(q, fs, cal))
    && r.statuses == Sorted(STATUS_ORDER, AllStatuses(q, fs, cal) + ScheduleLess(q, fs, roster))
    && r.notices == AllNotices(q, fs)
  }

  // --- the source's loops -----------------------------------------------------------

  method OptionsOfSessions(q: Query, f: Facility, b: Basin, sessions: seq<ResolvedSession>)
    returns (options: seq<SwimOption>)
    ensures options == SessionOptions(q, f, b, sessions) && |options| == |sessions|
  {
    options := [];
    for k := 0 to |sessions|
      invariant options == SessionOptions(q, f, b, sessions[..k]) && |options| == k
    {
      assert sessions[..k + 1][..k] == sessions[..k];
      options := options + [OptionOf(q, f, b, sessions[k])];
    }
    assert sessions[..|sessions|] == sessions;
  }

  lemma OneMoreBasin(q: Query, f: Facility, i: nat, cal: Calendar)
    requires i < |f.basins|
    ensures BasinOptions(q, f, f.basins[..i + 1], cal)
         == BasinOptions(q, f, f.basins[..i], cal) + OptionsIn(q, f, f.basins[i], cal)
    ensures LastClosed(f, f.basins[..i + 1], q.day, cal)
         == if ClosedIn(f, f.basins[i], q.day, cal) then Some(BasinDay(f, f.basins[i], q.day, cal))
            else LastClosed(f, f.basins[..i], q.day, cal)
    ensures Unverified(f, f.basins[..i + 1], q.day, cal)
        <==> Unverified(f, f.basins[..i], q.day, cal) || UnverifiedIn(f, f.basins[i], q.day, cal)
  {
    assert f.basins[..i + 1][..i] == f.basins[..i];
    assert f.basins[..i + 1] == f.basins[..i] + [f.basins[i]];
    OneMoreUnverified(f, f.basins[..i], f.basins[i], q.day, cal);
  }

  lemma OneMoreUnverified(f: Facility, bs: seq<Basin>, b: Basin, d: Date, cal: Calendar)
    ensures Unverified(f, bs + [b], d, cal) <==> Unverified(f, bs, d, cal) || UnverifiedIn(f, b, d, cal)
  {
    assert b in bs + [b] && forall x :: x in bs + [b] <==> x in bs || x == b;
  }

  method ResolveBasin(q: Query, f: Facility, b: Basin, cal: Calendar)
    returns (options: seq<SwimOption>, closed: Option<DaySchedule>, flagged: bool)
    ensures options == OptionsIn(q, f, b, cal)
    ensures closed == if ClosedIn(f, b, q.day, cal) then Some(BasinDay(f, b, q.day, cal)) else None
    ensures flagged <==> UnverifiedIn(f, b, q.day, cal)
  {
    options, closed, flagged := [], None, false;
    if b.rules != [] {
      match BasinDay(f, b, q.day, cal) {
        case ClosedDay(code, params) =>
          closed := Some(ClosedDay(code, params));
        case OpenDay(sessions, policyUnverified) =>
          flagged := policyUnverified;
          options := OptionsOfSessions(q, f, b, sessions);
        case OpenUnscheduledDay(_) =>
      }
    }
  }

  method ResolveBasins(q: Query, f: Facility, cal: Calendar)
    returns (options: seq<SwimOption>, closed: Option<DaySchedule>, unverified: bool)
    ensures options == BasinOptions(q, f, f.basins, cal)
    ensures closed == LastClosed(f, f.basins, q.day, cal) && (closed.Some? ==> closed.value.ClosedDay?)
    ensures unverified <==> Unverified(f, f.basins, q.day, cal)
  {
    options, closed, unverified := [], None, false;
    for i := 0 to |f.basins|
      invariant options == BasinOptions(q, f, f.basins[..i], cal)
      invariant closed == LastClosed(f, f.basins[..i], q.day, cal) && (closed.Some? ==> closed.value.ClosedDay?)
      invariant unverified <==> Unverified(f, f.basins[..i], q.day, cal)
    {
      OneMoreBasin(q, f, i, cal);
      var produced, day, flagged := ResolveBasin(q, f, f.basins[i], cal);
      options, unverified := options + produced, unverified || flagged;
      if day.Some? {
        closed := day;
      }
    }
    assert f.basins[..|f.basins|] == f.basins;
  }

  method ResolveFacility(q: Query, f: Facility, cal: Calendar)
    returns (options: seq<SwimOption>, statuses: seq<FacilityStatus>, unverified: bool)
    ensures options == BasinOptions(q, f, f.basins, cal)
    ensures statuses == FacilityStatuses(q, f, cal)
    ensures unverified <==> Unverified(f, f.basins, q.day, cal)
  {
    var closed: Option<DaySchedule>;
    options, closed, unverified := ResolveBasins(q, f, cal);
    statuses := SeasonalStatusFor(q, f, cal);
    if options == [] && closed.Some? {
      statuses := statuses
        + [FacilityStatus(f.id, f.name, ClosedReason, Some(closed.value.code), ClosureParams(closed.value.params),
                          q.Distance(f.geo))];
    }
  }

  method ActiveNotices(q: Query, f: Facility) returns (notices: seq<FacilityNotice>)
    ensures notices == NoticesOf(q, f, f.notices)
  {
    notices := [];
    for i := 0 to |f.notices|
      invariant notices == NoticesOf(q, f, f.notices[..i])
    {
      assert f.notices[..i + 1][..i] == f.notices[..i];
      if f.notices[i].ActiveOn(q.day) {
        notices := notices + [FacilityNotice(f.id, f.name, f.notices[i].text)];
      }
    }
    assert f.notices[..|f.notices|] == f.notices;
  }

  method ScheduleLessStatuses(q: Query, fs: seq<Facility>, roster: seq<RosterEntry>)
    returns (statuses: seq<FacilityStatus>)
    ensures statuses == ScheduleLess(q, fs, roster)
  {
    statuses := [];
    for i := 0 to |roster|
      invariant statuses == ScheduleLess(q, fs, roster[..i])
    {
      var row := roster[i];
      assert roster[..i + 1][..i] == roster[..i];
      if !Scheduled(fs, row.poolId) && !row.freshness.Scraped? {
        var code := if row.freshness.AwaitingScrape? then StillToScrape else WithoutSource;
        statuses := statuses
          + [FacilityStatus(row.poolId, row.name, code, None, ClosureParams(map[]), q.Distance(row.geo))];
      }
    }
    assert roster[..|roster|] == roster;
  }

  method Warnings(d: Date, cal: Calendar, unverified: set<string>) returns (warnings: seq<string>)
    ensures warnings == WarningsFor(d, cal, unverified)
  {
    var pools := Names.SortedNames(unverified);
    NoNames(unverified);
    warnings := if cal.Covers(d) then [] else [CoverageWarning(Decimal(d.year))];
    if pools != [] {
      warnings := warnings + [HolidayWarning(Iso(d), CommaList(pools))];
    }
  }

  lemma OneMoreFacility(q: Query, fs: seq<Facility>, i: nat, cal: Calendar)
    requires i < |fs|
    ensures AllOptions(q, fs[..i + 1], cal) == AllOptions(q, fs[..i], cal) + OptionsInRange(q, fs[i], cal)
    ensures AllStatuses(q, fs[..i + 1], cal) == AllStatuses(q, fs[..i], cal) + StatusesInRange(q, fs[i], cal)
    ensures AllNotices(q, fs[..i + 1])
         == AllNotices(q, fs[..i]) + if q.InRadius(fs[i].geo) then NoticesOf(q, fs[i], fs[i].notices) else []
    ensures UnverifiedNames(q, fs[..i + 1], cal) == UnverifiedNames(q, fs[..i], cal)
            + if q.InRadius(fs[i].geo) && Unverified(fs[i], fs[i].basins, q.day, cal) then {fs[i].name} else {}
  {
    assert fs[..i + 1] == fs[..i] + [fs[i]] && fs[..i + 1][..i] == fs[..i];
    UnverifiedStep(q, fs[..i], fs[i], cal);
  }

  method ResolveFacilities(q: Query, fs: seq<Facility>, cal: Calendar)
    returns (
      options: seq<SwimOption>, statuses: seq<FacilityStatus>, notices: seq<FacilityNotice>, unverified: set<string>)
    ensures options == AllOptions(q, fs, cal) && statuses == AllStatuses(q, fs, cal) && notices == AllNotices(q, fs)
    ensures unverified == UnverifiedNames(q, fs, cal)
  {
    options, statuses, notices, unverified := [], [], [], {};
    for i := 0 to |fs|
      invariant options == AllOptions(q, fs[..i], cal)
      invariant statuses == AllStatuses(q, fs[..i], cal)
      invariant notices == AllNotices(q, fs[..i])
      invariant unverified == UnverifiedNames(q, fs[..i], cal)
    {
      var f := fs[i];
      OneMoreFacility(q, fs, i, cal);
      if q.InRadius(f.geo) {
        var shown := ActiveNotices(q, f);
        notices := notices + shown;
        var os, ss, flagged := ResolveFacility(q, f, cal);
        options, statuses := options + os, statuses + ss;
        if flagged {
          unverified := unverified + {f.name};
        }
      }
    }
    assert fs[..|fs|] == fs;
  }

  method FindSwimOptions(q: Query, fs: seq<Facility>, cal: Calendar, roster: seq<RosterEntry>) returns (r: QueryResult)
    ensures IsAnswer(q, fs, cal, roster, r)
    ensures IsWarned(q, fs, cal, r)
  {
    var options, statuses, notices, unverified := ResolveFacilities(q, fs, cal);
    var unscheduled := ScheduleLessStatuses(q, fs, roster);
    var warnings := Warnings(q.day, cal, unverified);
    statuses := statuses + unscheduled;
    r := QueryResult(Sorted(OPTION_ORDER, options), Sorted(STATUS_ORDER, statuses), warnings, notices);
  }

  lemma NoNames(names: set<string>)
    ensures Names.SortedNames(names) == [] <==> names == {}
  {
    assert forall x :: x in Names.SortedNames(names) <==> x in names;
  }

  lemma UnverifiedStep(q: Query, fs: seq<Facility>, f: Facility, cal: Calendar)
    ensures UnverifiedNames(q, fs + [f], cal) == UnverifiedNames(q, fs, cal)
            + if q.InRadius(f.geo) && Unverified(f, f.basins, q.day, cal) then {f.name} else {}
  {
    assert forall x :: x in fs + [f] <==> x in fs || x == f;
  }

  // --- accounting -------------------------------------------------------------------

  ghost predicate HasOption(r: QueryResult, id: string) {
    exists o :: o in r.options && o.facilityId == id
  }

  ghost function ForPool(id: string): FacilityStatus -> bool {
    (s: FacilityStatus) => s.facilityId == id
  }

  ghost function StatusCount(r: QueryResult, id: string): nat {
    |Filter(ForPool(id), r.statuses)|
  }

  ghost predicate UniqueFacilities(fs: seq<Facility>) {
    forall i, j :: 0 <= i < j < |fs| ==> fs[i].id != fs[j].id
  }

  ghost predicate UniqueRoster(roster: seq<RosterEntry>) {
    forall i, j :: 0 <= i < j < |roster| ==> roster[i].poolId != roster[j].poolId
  }

  ghost predicate InStore(fs: seq<Facility>, id: string) {
    exists f :: f in fs && f.id == id
  }

  /** The roster has a pool down as scraped exactly when the store has rules for it. */
  ghost predicate RosterMatches(fs: seq<Facility>, roster: seq<RosterEntry>) {
    && (forall row, f :: row in roster && f in fs && f.id == row.poolId ==> (row.freshness.Scraped? <==> HasRules(f)))
    && (forall row :: row in roster && !InStore(fs, row.poolId) ==> !row.freshness.Scraped?)
  }

  /** Every basin with rules is open with an empty session list, and there is such a basin. */
  ghost predicate Silent(f: Facility, d: Date, cal: Calendar) {
    HasRules(f) && forall b :: b in f.basins && b.rules != [] ==>
      BasinDay(f, b, d, cal).OpenDay? && BasinDay(f, b, d, cal).sessions == []
  }

  lemma {:induction false} SessionOptionsMembers(q: Query, f: Facility, b: Basin, ss: seq<ResolvedSession>)
    ensures |SessionOptions(q, f, b, ss)| == |ss|
    ensures forall o :: o in SessionOptions(q, f, b, ss) ==> o.facilityId == f.id
  {
    if ss != [] {
      SessionOptionsMembers(q, f, b, ss[..|ss| - 1]);
    }
  }

  /** A basin has sessions to offer. */
  ghost predicate Offers(f: Facility, b: Basin, d: Date, cal: Calendar) {
    b.rules != [] && BasinDay(f, b, d, cal).OpenDay? && BasinDay(f, b, d, cal).sessions != []
  }

  lemma {:induction false} BasinOptionsMeaning(q: Query, f: Facility, bs: seq<Basin>, cal: Calendar)
    ensures BasinOptions(q, f, bs, cal) != [] <==> exists b :: b in bs && Offers(f, b, q.day, cal)
    ensures forall o :: o in BasinOptions(q, f, bs, cal) ==> o.facilityId == f.id
  {
    if bs != [] {
      var b := bs[|bs| - 1];
      var front := bs[..|bs| - 1];
      assert forall x :: x in bs <==> x in front || x == b;
      BasinOptionsMeaning(q, f, front, cal);
      if b.rules != [] && BasinDay(f, b, q.day, cal).OpenDay? {
        var ss := BasinDay(f, b, q.day, cal).sessions;
        SessionOptionsMembers(q, f, b, ss);
        assert SessionOptions(q, f, b, ss) == [] <==> !Offers(f, b, q.day, cal);
      }
    }
  }

  lemma {:induction false} LastClosedMeaning(f: Facility, bs: seq<Basin>, d: Date, cal: Calendar)
    ensures LastClosed(f, bs, d, cal).Some?
            <==> exists b :: b in bs && b.rules != [] && BasinDay(f, b, d, cal).ClosedDay?
    ensures LastClosed(f, bs, d, cal).Some? ==> LastClosed(f, bs, d, cal).value.ClosedDay?
  {
    if bs != [] {
      assert bs == bs[..|bs| - 1] + [bs[|bs| - 1]];
      LastClosedMeaning(f, bs[..|bs| - 1], d, cal);
    }
  }

  /** A basin with rules is open or closed; the unscheduled state needs a schedule without rules. */
  lemma RuledBasinOpenOrClosed(f: Facility, b: Basin, d: Date, cal: Calendar)
    ensures b.rules != [] ==> BasinDay(f, b, d, cal).OpenDay? || BasinDay(f, b, d, cal).ClosedDay?
  {
  }

  /** Some basin with rules is closed. */
  ghost predicate SomeClosed(f: Facility, d: Date, cal: Calendar) {
    exists b :: b in f.basins && b.rules != [] && BasinDay(f, b, d, cal).ClosedDay?
  }

  ghost predicate SomeOffers(f: Facility, d: Date, cal: Calendar) {
    exists b :: b in f.basins && Offers(f, b, d, cal)
  }

  /** A facility with rules offers something, or is closed somewhere, or is silent. */
  lemma OffersClosedOrSilent(f: Facility, d: Date, cal: Calendar)
    ensures HasRules(f) && !SomeOffers(f, d, cal) && !SomeClosed(f, d, cal) ==> Silent(f, d, cal)
    ensures SomeOffers(f, d, cal) || SomeClosed(f, d, cal) ==> HasRules(f) && !Silent(f, d, cal)
  {
    forall b | b in f.basins {
      RuledBasinOpenOrClosed(f, b, d, cal);
    }
  }

  /** What one facility contributes: options and no status, or one status and no option; nothing
      exactly when it is silent or has neither rules nor a season. */
  lemma FacilityContribution(q: Query, f: Facility, cal: Calendar)
    ensures var os, ss := BasinOptions(q, f, f.basins, cal), FacilityStatuses(q, f, cal);
            && (forall s :: s in ss ==> s.facilityId == f.id)
            && (os != [] ==> ss == [])
            && (os == [] ==> |ss| == if Silent(f, q.day, cal) || (!HasRules(f) && f.hours.season.None?) then 0 else 1)
            && (os != [] ==> HasRules(f) && !Silent(f, q.day, cal))
  {
    BasinOptionsMeaning(q, f, f.basins, cal);
    LastClosedMeaning(f, f.basins, q.day, cal);
    OffersClosedOrSilent(f, q.day, cal);
    assert BasinOptions(q, f, f.basins, cal) != [] <==> SomeOffers(f, q.day, cal);
    assert LastClosed(f, f.basins, q.day, cal).Some? <==> SomeClosed(f, q.day, cal);
  }

  /** A facility in range with something to offer is what puts options of an id on the board. */
  ghost predicate OffersInRange(q: Query, f: Facility, cal: Calendar, id: string) {
    f.id == id && OptionsInRange(q, f, cal) != []
  }

  lemma OptionsInRangeMembers(q: Query, f: Facility, cal: Calendar, id: string)
    ensures (exists o :: o in OptionsInRange(q, f, cal) && o.facilityId == id) <==> OffersInRange(q, f, cal, id)
  {
    BasinOptionsMeaning(q, f, f.basins, cal);
    var os := OptionsInRange(q, f, cal);
    assert os != [] ==> os[0] in os;
  }

  lemma {:induction false} AllOptionsMembers(q: Query, fs: seq<Facility>, cal: Calendar, id: string)
    ensures (exists o :: o in AllOptions(q, fs, cal) && o.facilityId == id)
            <==> exists f :: f in fs && OffersInRange(q, f, cal, id)
  {
    if fs != [] {
      var front, f := fs[..|fs| - 1], fs[|fs| - 1];
      assert fs == front + [f];
      AllOptionsMembers(q, front, cal, id);
      OptionsInRangeMembers(q, f, cal, id);
      assert forall o ::
        o in AllOptions(q, fs, cal) <==> o in AllOptions(q, front, cal) || o in OptionsInRange(q, f, cal);
    }
  }

  lemma OneFacilityCount(q: Query, f: Facility, cal: Calendar, id: string)
    ensures |Filter(ForPool(id), StatusesInRange(q, f, cal))| == if f.id == id then |StatusesInRange(q, f, cal)| else 0
  {
    FacilityContribution(q, f, cal);
    var ss := StatusesInRange(q, f, cal);
    assert ss != [] ==> ss[0] in ss;
    FilterAtMostOne(ForPool(id), ss);
  }

  lemma {:induction false} StatusesOfAbsent(q: Query, fs: seq<Facility>, cal: Calendar, id: string)
    requires !InStore(fs, id)
    ensures Filter(ForPool(id), AllStatuses(q, fs, cal)) == []
  {
    if fs != [] {
      var front, f := fs[..|fs| - 1], fs[|fs| - 1];
      StatusesOfAbsent(q, front, cal, id);
      FilterConcat(ForPool(id), AllStatuses(q, front, cal), StatusesInRange(q, f, cal));
      OneFacilityCount(q, f, cal, id);
    }
  }

  lemma {:induction false} StatusesOfPresent(q: Query, fs: seq<Facility>, cal: Calendar, g: Facility)
    requires UniqueFacilities(fs) && g in fs
    ensures |Filter(ForPool(g.id), AllStatuses(q, fs, cal))| == |StatusesInRange(q, g, cal)|
  {
    var front, f := fs[..|fs| - 1], fs[|fs| - 1];
    FilterConcat(ForPool(g.id), AllStatuses(q, front, cal), StatusesInRange(q, f, cal));
    OneFacilityCount(q, f, cal, g.id);
    if f == g {
      StatusesOfAbsent(q, front, cal, g.id);
    } else {
      StatusesOfPresent(q, front, cal, g);
    }
  }

  lemma OneRowCount(q: Query, fs: seq<Facility>, row: RosterEntry, id: string)
    ensures |Filter(ForPool(id), RowStatus(q, fs, row))| == if row.poolId == id then |RowStatus(q, fs, row)| else 0
  {
    FilterAtMostOne(ForPool(id), RowStatus(q, fs, row));
  }

  lemma {:induction false} RowsOfAbsent(q: Query, fs: seq<Facility>, roster: seq<RosterEntry>, id: string)
    requires forall row :: row in roster ==> row.poolId != id
    ensures Filter(ForPool(id), ScheduleLess(q, fs, roster)) == []
  {
    if roster != [] {
      var front, row := roster[..|roster| - 1], roster[|roster| - 1];
      RowsOfAbsent(q, fs, front, id);
      FilterConcat(ForPool(id), ScheduleLess(q, fs, front), RowStatus(q, fs, row));
      OneRowCount(q, fs, row, id);
    }
  }

  lemma {:induction false} RowsOfPresent(q: Query, fs: seq<Facility>, roster: seq<RosterEntry>, x: RosterEntry)
    requires UniqueRoster(roster) && x in roster
    ensures |Filter(ForPool(x.poolId), ScheduleLess(q, fs, roster))| == |RowStatus(q, fs, x)|
  {
    var front, row := roster[..|roster| - 1], roster[|roster| - 1];
    FilterConcat(ForPool(x.poolId), ScheduleLess(q, fs, front), RowStatus(q, fs, row));
    OneRowCount(q, fs, row, x.poolId);
    if row == x {
      RowsOfAbsent(q, fs, front, x.poolId);
    } else {
      RowsOfPresent(q, fs, front, x);
    }
  }

  lemma StatusCountSplits(
    q: Query, fs: seq<Facility>, cal: Calendar, roster: seq<RosterEntry>, r: QueryResult, id: string)
    requires IsAnswer(q, fs, cal, roster, r)
    ensures StatusCount(r, id) == |Filter(ForPool(id), AllStatuses(q, fs, cal))|
                                + |Filter(ForPool(id), ScheduleLess(q, fs, roster))|
  {
    var all := AllStatuses(q, fs, cal) + ScheduleLess(q, fs, roster);
    FilterSortedSize(STATUS_ORDER, all, ForPool(id));
    FilterConcat(ForPool(id), AllStatuses(q, fs, cal), ScheduleLess(q, fs, roster));
  }

  lemma HasOptionMeaning(
    q: Query, fs: seq<Facility>, cal: Calendar, roster: seq<RosterEntry>, r: QueryResult, id: string)
    requires IsAnswer(q, fs, cal, roster, r)
    ensures HasOption(r, id) <==> exists f :: f in fs && OffersInRange(q, f, cal, id)
  {
    AllOptionsMembers(q, fs, cal, id);
    SortedSameMembers(OPTION_ORDER, AllOptions(q, fs, cal));
  }

  ghost predicate SilentPool(fs: seq<Facility>, d: Date, cal: Calendar, id: string) {
    exists f :: f in fs && f.id == id && Silent(f, d, cal)
  }

  /** A pool with a schedule that lies outside the query's radius. */
  ghost predicate FarPool(q: Query, fs: seq<Facility>, id: string) {
    exists f :: f in fs && f.id == id && HasSchedule(f) && !Reached(q, f.geo)
  }

  /** Whatever the radius, a roster pool is accounted for once - options and no status, or exactly one
      status and no option - exactly when it is not silent and not a scheduled pool out of range; such
      a pool gets neither. A pool without a schedule has its one status at any distance. */
  lemma PoolAccountedOnce(
    q: Query, fs: seq<Facility>, cal: Calendar, roster: seq<RosterEntry>, r: QueryResult, row: RosterEntry)
    requires IsAnswer(q, fs, cal, roster, r) && row in roster
    requires UniqueFacilities(fs) && UniqueRoster(roster) && RosterMatches(fs, roster)
    ensures Accounted(r, row.poolId, SilentPool(fs, q.day, cal, row.poolId) || FarPool(q, fs, row.poolId))
    ensures !Scheduled(fs, row.poolId) ==> !HasOption(r, row.poolId) && StatusCount(r, row.poolId) == 1
  {
    if InStore(fs, row.poolId) {
      var f :| f in fs && f.id == row.poolId;
      StoredPoolAccounted(q, fs, cal, roster, r, row, f);
    } else {
      AbsentPoolAccounted(q, fs, cal, roster, r, row);
    }
  }

  /** The answer accounts for the pool once unless it is hidden, and not at all if it is. */
  ghost predicate Accounted(r: QueryResult, id: string, hidden: bool) {
    (AccountedOnce(r, id) <==> !hidden) && (hidden ==> !HasOption(r, id) && StatusCount(r, id) == 0)
  }

  lemma AbsentPoolAccounted(
    q: Query, fs: seq<Facility>, cal: Calendar, roster: seq<RosterEntry>, r: QueryResult, row: RosterEntry)
    requires IsAnswer(q, fs, cal, roster, r) && row in roster && !InStore(fs, row.poolId)
    requires UniqueRoster(roster) && RosterMatches(fs, roster)
    ensures !HasOption(r, row.poolId) && StatusCount(r, row.poolId) == 1
  {
    StatusCountSplits(q, fs, cal, roster, r, row.poolId);
    StatusesOfAbsent(q, fs, cal, row.poolId);
    RowsOfPresent(q, fs, roster, row);
    HasOptionMeaning(q, fs, cal, roster, r, row.poolId);
  }

  lemma StoredPoolAccounted(
    q: Query, fs: seq<Facility>, cal: Calendar, roster: seq<RosterEntry>, r: QueryResult, row: RosterEntry, f: Facility)
    requires IsAnswer(q, fs, cal, roster, r) && row in roster && f in fs && f.id == row.poolId
    requires UniqueFacilities(fs) && UniqueRoster(roster) && RosterMatches(fs, roster)
    ensures Accounted(r, f.id, SilentPool(fs, q.day, cal, f.id) || FarPool(q, fs, f.id))
    ensures !Scheduled(fs, f.id) ==> !HasOption(r, f.id) && StatusCount(r, f.id) == 1
  {
    StoredPoolCounts(q, fs, cal, roster, r, row, f);
    FacilityContribution(q, f, cal);
    StoredPoolHidden(q, fs, cal, f);
    InRadiusIsReached(q, f.geo);
  }

  lemma StoredPoolHidden(q: Query, fs: seq<Facility>, cal: Calendar, f: Facility)
    requires UniqueFacilities(fs) && f in fs
    ensures SilentPool(fs, q.day, cal, f.id) <==> Silent(f, q.day, cal)
    ensures FarPool(q, fs, f.id) <==> HasSchedule(f) && !Reached(q, f.geo)
    ensures Scheduled(fs, f.id) <==> HasSchedule(f)
  {
    OnlyFacility(fs, f);
  }

  lemma StoredPoolCounts(
    q: Query, fs: seq<Facility>, cal: Calendar, roster: seq<RosterEntry>, r: QueryResult, row: RosterEntry, f: Facility)
    requires IsAnswer(q, fs, cal, roster, r) && row in roster && f in fs && f.id == row.poolId
    requires UniqueFacilities(fs) && UniqueRoster(roster) && RosterMatches(fs, roster)
    ensures HasOption(r, f.id) <==> OffersInRange(q, f, cal, f.id)
    ensures StatusCount(r, f.id) == |StatusesInRange(q, f, cal)| + if HasSchedule(f) then 0 else 1
  {
    StatusCountSplits(q, fs, cal, roster, r, f.id);
    StatusesOfPresent(q, fs, cal, f);
    RowsOfPresent(q, fs, roster, row);
    RowOfStored(q, fs, roster, row, f);
    HasOptionMeaning(q, fs, cal, roster, r, f.id);
    OnlyFacility(fs, f);
  }

  lemma RowOfStored(q: Query, fs: seq<Facility>, roster: seq<RosterEntry>, row: RosterEntry, f: Facility)
    requires UniqueFacilities(fs) && RosterMatches(fs, roster) && row in roster && f in fs && f.id == row.poolId
    ensures |RowStatus(q, fs, row)| == if HasSchedule(f) then 0 else 1
  {
    OnlyFacility(fs, f);
    assert Scheduled(fs, f.id) <==> HasSchedule(f);
  }

  ghost predicate AccountedOnce(r: QueryResult, id: string) {
    (HasOption(r, id) && StatusCount(r, id) == 0) || (!HasOption(r, id) && StatusCount(r, id) == 1)
  }

  lemma OnlyFacility(fs: seq<Facility>, f: Facility)
    requires UniqueFacilities(fs) && f in fs
    ensures forall g :: g in fs && g.id == f.id ==> g == f
  {
  }

  /** No pool is ever reported twice, roster or not, whatever the radius. */
  lemma AtMostOneStatus(
    q: Query, fs: seq<Facility>, cal: Calendar, roster: seq<RosterEntry>, r: QueryResult, id: string)
    requires IsAnswer(q, fs, cal, roster, r)
    requires UniqueFacilities(fs) && UniqueRoster(roster)
    ensures StatusCount(r, id) <= 1
  {
    StatusCountSplits(q, fs, cal, roster, r, id);
    if row :| row in roster && row.poolId == id {
      RowsOfPresent(q, fs, roster, row);
    } else {
      RowsOfAbsent(q, fs, roster, id);
    }
    if InStore(fs, id) {
      var f :| f in fs && f.id == id;
      StatusesOfPresent(q, fs, cal, f);
      FacilityContribution(q, f, cal);
    } else {
      StatusesOfAbsent(q, fs, cal, id);
    }
  }

  /** When a pool with rules is silent, in terms of its own data: no closure covers the day, and the
      first exception of every basin with rules is for that day open and empty. */
  lemma SilentExactly(f: Facility, d: Date, cal: Calendar)
    ensures Silent(f, d, cal)
            <==> && (exists b :: b in f.basins && b.rules != [])
                 && (forall c :: c in f.hours.closures ==> d.ordinal < c.start || c.end < d.ordinal)
                 && forall b :: b in f.basins && b.rules != [] ==> EmptyOpenException(b, d)
  {
    FirstClosureIsFirst(f.hours, d);
    assert FirstClosure(f.hours.closures, d).None?
      <==> forall c :: c in f.hours.closures ==> d.ordinal < c.start || c.end < d.ordinal by {
      NoClosureShuts(f.hours, d);
    }
    forall b | b in f.basins && b.rules != []
      ensures BasinDay(f, b, d, cal).OpenDay? && BasinDay(f, b, d, cal).sessions == []
              <==> FirstClosure(f.hours.closures, d).None? && EmptyOpenException(b, d)
    {
      FirstExceptionEmpty(b, d);
    }
  }

  lemma NoClosureShuts(h: FacilityHours, d: Date)
    ensures FirstClosure(h.closures, d).None?
      <==> forall c :: c in h.closures ==> d.ordinal < c.start || c.end < d.ordinal
  {
    FirstClosureIsFirst(h, d);
    if FirstClosure(h.closures, d).None? {
      NoneCloses(h, d, |h.closures|);
    }
  }

  lemma {:induction false} NoneCloses(h: FacilityHours, d: Date, n: nat)
    requires n <= |h.closures| && forall i :: !Closing(h, d, i)
    ensures forall i :: 0 <= i < n ==> !Shuts(h.closures[i], d)
  {
    if n > 0 {
      NoneCloses(h, d, n - 1);
      assert !Closing(h, d, n - 1);
    }
  }

  /** The first exception of the basin for the day is an opening without sessions. */
  ghost predicate EmptyOpenException(b: Basin, d: Date) {
    exists i :: Excepting(b.exceptions, d, i) && !b.exceptions[i].closed && b.exceptions[i].sessions == []
  }

  lemma FirstExceptionEmpty(b: Basin, d: Date)
    ensures EmptyOpenException(b, d) <==>
      var e := FindException(b.exceptions, d); e.Some? && !e.value.closed && e.value.sessions == []
  {
    FindExceptionIsFirst(b.exceptions, d);
    if i :| Excepting(b.exceptions, d, i) {
      assert forall j :: Excepting(b.exceptions, d, j) ==> j == i;
    }
  }

  /** A pool with rules whose one exception is for the day, open and empty. */
  lemma EmptyOpening(d: Date, cal: Calendar) returns (f: Facility)
    ensures f.id == "pool" && HasRules(f) && f.hours.closures == [] && Silent(f, d, cal)
  {
    var rule := ScheduleRule({0}, Span(360, 1320), PublicSwim, Always, None, AnyWeather);
    var open := ScheduleException(d, false, Special, map[], []);
    var b := Basin("pool-1", "Pool", None, None, [rule], [open], None, NoPlan);
    f := Facility("pool", "Pool", Indoor, FacilityHours([], None, None), None, [b], [], None);
    assert b in f.basins;
    SilentExactly(f, d, cal);
  }

  /** A store of one pool that has rules and is silent, and a roster that agrees with it. */
  lemma SilentStore(q: Query, cal: Calendar) returns (fs: seq<Facility>, roster: seq<RosterEntry>, row: RosterEntry)
    ensures UniqueFacilities(fs) && UniqueRoster(roster) && RosterMatches(fs, roster) && row in roster
    ensures SilentPool(fs, q.day, cal, row.poolId)
    ensures exists f :: f in fs && f.id == row.poolId && HasRules(f) && f.hours.closures == []
  {
    var f := EmptyOpening(q.day, cal);
    fs, row := [f], RosterEntry("pool", "Pool", None, Scraped);
    roster := [row];
    assert f in fs;
  }

  /** It does happen: for every query and calendar there are a store of one pool that has rules and a
      roster that agrees with it, such that no answer accounts for the pool. */
  lemma EmptyExceptionHidesPool(q: Query, cal: Calendar)
    returns (fs: seq<Facility>, roster: seq<RosterEntry>, row: RosterEntry)
    ensures UniqueFacilities(fs) && UniqueRoster(roster) && RosterMatches(fs, roster) && row in roster
    ensures exists f :: f in fs && f.id == row.poolId && HasRules(f) && f.hours.closures == []
    ensures forall r :: IsAnswer(q, fs, cal, roster, r) ==>
              !AccountedOnce(r, row.poolId) && !HasOption(r, row.poolId) && StatusCount(r, row.poolId) == 0
  {
    fs, roster, row := SilentStore(q, cal);
    forall r | IsAnswer(q, fs, cal, roster, r)
      ensures !AccountedOnce(r, row.poolId) && !HasOption(r, row.poolId) && StatusCount(r, row.poolId) == 0
    {
      SilentIsHidden(q, fs, cal, roster, r, row);
    }
  }

  lemma SilentIsHidden(
    q: Query, fs: seq<Facility>, cal: Calendar, roster: seq<RosterEntry>, r: QueryResult, row: RosterEntry)
    requires IsAnswer(q, fs, cal, roster, r) && row in roster && SilentPool(fs, q.day, cal, row.poolId)
    requires UniqueFacilities(fs) && UniqueRoster(roster) && RosterMatches(fs, roster)
    ensures !AccountedOnce(r, row.poolId) && !HasOption(r, row.poolId) && StatusCount(r, row.poolId) == 0
  {
    PoolAccountedOnce(q, fs, cal, roster, r, row);
  }

  /** A pool with neither rules nor a season is reported as unscraped or sourceless, never closed. */
  lemma ScheduleLessNeverClosed(
    q: Query, fs: seq<Facility>, cal: Calendar, roster: seq<RosterEntry>, r: QueryResult, s: FacilityStatus)
    requires IsAnswer(q, fs, cal, roster, r) && s in r.statuses
    requires !Scheduled(fs, s.facilityId)
    ensures s.code == StillToScrape || s.code == WithoutSource
  {
    var all := AllStatuses(q, fs, cal) + ScheduleLess(q, fs, roster);
    SortedSameMembers(STATUS_ORDER, all);
    AllStatusesScheduled(q, fs, cal);
    ScheduleLessCodes(q, fs, roster);
    assert s in AllStatuses(q, fs, cal) || s in ScheduleLess(q, fs, roster);
  }

  lemma {:induction false} AllStatusesScheduled(q: Query, fs: seq<Facility>, cal: Calendar)
    ensures forall s :: s in AllStatuses(q, fs, cal) ==> Scheduled(fs, s.facilityId)
  {
    if fs != [] {
      var front, f := fs[..|fs| - 1], fs[|fs| - 1];
      assert fs == front + [f];
      AllStatusesScheduled(q, front, cal);
      FacilityContribution(q, f, cal);
      forall s | s in AllStatuses(q, fs, cal) ensures Scheduled(fs, s.facilityId) {
        if s in AllStatuses(q, front, cal) {
          var g :| g in front && g.id == s.facilityId && HasSchedule(g);
          assert g in fs;
        } else {
          assert f in fs && s in FacilityStatuses(q, f, cal);
        }
      }
    }
  }

  lemma {:induction false} ScheduleLessCodes(q: Query, fs: seq<Facility>, roster: seq<RosterEntry>)
    ensures forall s :: s in ScheduleLess(q, fs, roster) ==> s.code == StillToScrape || s.code == WithoutSource
  {
    if roster != [] {
      ScheduleLessCodes(q, fs, roster[..|roster| - 1]);
    }
  }

  // --- which rows there are ------------------------------------------------------------

  /** The day's one resolution of the basin is open, with `s` among its sessions. */
  ghost predicate OpenWith(f: Facility, b: Basin, d: Date, cal: Calendar, s: ResolvedSession) {
    exists day :: Resolution(f.hours, b.rules, b.exceptions, d, cal, day) && day.OpenDay? && s in day.sessions
  }

  lemma OpenWithIsBasinDay(f: Facility, b: Basin, d: Date, cal: Calendar, s: ResolvedSession)
    ensures OpenWith(f, b, d, cal, s) <==> BasinDay(f, b, d, cal).OpenDay? && s in BasinDay(f, b, d, cal).sessions
  {
    ResolveHoursMeetsSpec(f.hours, b.rules, b.exceptions, d, cal);
    if day :| Resolution(f.hours, b.rules, b.exceptions, d, cal, day) && day.OpenDay? && s in day.sessions {
      ResolutionUnique(f.hours, b.rules, b.exceptions, d, cal, day, BasinDay(f, b, d, cal));
    }
  }

  /** What an option says of its facility, basin and session, and of the query's place and time. */
  ghost predicate Describes(q: Query, o: SwimOption, f: Facility, b: Basin, s: ResolvedSession) {
    && o.facilityId == f.id && o.facilityName == f.name && IsDistance(q, f.geo, o.distance)
    && o.basinId == b.id && o.basinName == b.name && o.basinLengthM == b.lengthM && o.basinLanes == b.lanes
    && o.session == s && (o.openAtQueryTime <==> s.time.start <= q.timeOfDay < s.time.end)
  }

  lemma OptionDescribes(q: Query, o: SwimOption, f: Facility, b: Basin, s: ResolvedSession)
    ensures o == OptionOf(q, f, b, s) <==> Describes(q, o, f, b, s)
  {
  }

  /** `o` is the option of session `s` of a basin with rules, in a facility within the radius. */
  ghost predicate IsOptionOf(
    q: Query, fs: seq<Facility>, cal: Calendar, o: SwimOption, f: Facility, b: Basin, s: ResolvedSession)
  {
    && f in fs && Reached(q, f.geo) && b in f.basins && b.rules != []
    && OpenWith(f, b, q.day, cal, s) && Describes(q, o, f, b, s)
  }

  ghost predicate OptionFor(
    q: Query, f: Facility, b: Basin, ss: seq<ResolvedSession>, o: SwimOption, s: ResolvedSession)
  {
    s in ss && o == OptionOf(q, f, b, s)
  }

  lemma {:induction false} SessionOptionsExactly(
    q: Query, f: Facility, b: Basin, ss: seq<ResolvedSession>, o: SwimOption)
    ensures o in SessionOptions(q, f, b, ss) <==> exists s :: OptionFor(q, f, b, ss, o, s)
  {
    if ss != [] {
      var front, last := ss[..|ss| - 1], ss[|ss| - 1];
      assert ss == front + [last];
      SessionOptionsExactly(q, f, b, front, o);
      if s :| OptionFor(q, f, b, front, o, s) {
        assert OptionFor(q, f, b, ss, o, s);
      }
      if s :| OptionFor(q, f, b, ss, o, s) {
        assert s == last || OptionFor(q, f, b, front, o, s);
      }
      if o == OptionOf(q, f, b, last) {
        assert OptionFor(q, f, b, ss, o, last);
      }
    }
  }

  ghost predicate OptionIn(q: Query, f: Facility, bs: seq<Basin>, cal: Calendar, o: SwimOption, b: Basin) {
    b in bs && o in OptionsIn(q, f, b, cal)
  }

  lemma {:induction false} BasinOptionsExactly(q: Query, f: Facility, bs: seq<Basin>, cal: Calendar, o: SwimOption)
    ensures o in BasinOptions(q, f, bs, cal) <==> exists b :: OptionIn(q, f, bs, cal, o, b)
  {
    if bs != [] {
      var front, last := bs[..|bs| - 1], bs[|bs| - 1];
      assert bs == front + [last];
      BasinOptionsExactly(q, f, front, cal, o);
      if b :| OptionIn(q, f, front, cal, o, b) {
        assert OptionIn(q, f, bs, cal, o, b);
      }
      if b :| OptionIn(q, f, bs, cal, o, b) {
        assert b == last || OptionIn(q, f, front, cal, o, b);
      }
      if o in OptionsIn(q, f, last, cal) {
        assert OptionIn(q, f, bs, cal, o, last);
      }
    }
  }

  ghost predicate OptionAt(q: Query, fs: seq<Facility>, cal: Calendar, o: SwimOption, f: Facility) {
    f in fs && o in OptionsInRange(q, f, cal)
  }

  lemma {:induction false} AllOptionsExactly(q: Query, fs: seq<Facility>, cal: Calendar, o: SwimOption)
    ensures o in AllOptions(q, fs, cal) <==> exists f :: OptionAt(q, fs, cal, o, f)
  {
    if fs != [] {
      var front, last := fs[..|fs| - 1], fs[|fs| - 1];
      assert fs == front + [last];
      AllOptionsExactly(q, front, cal, o);
      if f :| OptionAt(q, front, cal, o, f) {
        assert OptionAt(q, fs, cal, o, f);
      }
      if f :| OptionAt(q, fs, cal, o, f) {
        assert f == last || OptionAt(q, front, cal, o, f);
      }
      if o in OptionsInRange(q, last, cal) {
        assert OptionAt(q, fs, cal, o, last);
      }
    }
  }

  /** The option of a session held in range is found at its facility. */
  lemma OptionFound(
    q: Query, fs: seq<Facility>, cal: Calendar, o: SwimOption, f: Facility, b: Basin, s: ResolvedSession)
    requires IsOptionOf(q, fs, cal, o, f, b, s)
    ensures OptionAt(q, fs, cal, o, f)
  {
    InRadiusIsReached(q, f.geo);
    OpenWithIsBasinDay(f, b, q.day, cal, s);
    OptionDescribes(q, o, f, b, s);
    SessionOptionsExactly(q, f, b, BasinDay(f, b, q.day, cal).sessions, o);
    assert OptionFor(q, f, b, BasinDay(f, b, q.day, cal).sessions, o, s);
    BasinOptionsExactly(q, f, f.basins, cal, o);
    assert OptionIn(q, f, f.basins, cal, o, b);
  }

  /** An option found at a facility is that of a session one of its basins holds. */
  lemma OptionSource(q: Query, fs: seq<Facility>, cal: Calendar, o: SwimOption, f: Facility)
    returns (b: Basin, s: ResolvedSession)
    requires OptionAt(q, fs, cal, o, f)
    ensures IsOptionOf(q, fs, cal, o, f, b, s)
  {
    InRadiusIsReached(q, f.geo);
    BasinOptionsExactly(q, f, f.basins, cal, o);
    b :| OptionIn(q, f, f.basins, cal, o, b);
    SessionOptionsExactly(q, f, b, BasinDay(f, b, q.day, cal).sessions, o);
    s :| OptionFor(q, f, b, BasinDay(f, b, q.day, cal).sessions, o, s);
    OpenWithIsBasinDay(f, b, q.day, cal, s);
    OptionDescribes(q, o, f, b, s);
  }

  /** The board shows an option exactly when it is that of a session some facility in range holds. */
  lemma OptionsExactly(
    q: Query, fs: seq<Facility>, cal: Calendar, roster: seq<RosterEntry>, r: QueryResult, o: SwimOption)
    requires IsAnswer(q, fs, cal, roster, r)
    ensures o in r.options <==> exists f, b, s :: IsOptionOf(q, fs, cal, o, f, b, s)
  {
    SortedSameMembers(OPTION_ORDER, AllOptions(q, fs, cal));
    AllOptionsExactly(q, fs, cal, o);
    if f :| OptionAt(q, fs, cal, o, f) {
      var b, s := OptionSource(q, fs, cal, o, f);
    }
    if f, b, s :| IsOptionOf(q, fs, cal, o, f, b, s) {
      OptionFound(q, fs, cal, o, f, b, s);
    }
  }

  lemma {:induction false} NoticesOfExactly(q: Query, f: Facility, ns: seq<Notice>, n: FacilityNotice)
    ensures n in NoticesOf(q, f, ns) <==>
      exists x :: x in ns && Shows(x, q.day) && n == FacilityNotice(f.id, f.name, x.text)
  {
    if ns != [] {
      NoticesOfExactly(q, f, ns[..|ns| - 1], n);
      assert ns == ns[..|ns| - 1] + [ns[|ns| - 1]];
    }
  }

  ghost predicate IsNoticeOf(q: Query, fs: seq<Facility>, n: FacilityNotice, f: Facility, x: Notice) {
    f in fs && Reached(q, f.geo) && x in f.notices && Shows(x, q.day) && n == FacilityNotice(f.id, f.name, x.text)
  }

  /** A notice is shown exactly when some facility in range has it active that day. */
  lemma {:induction false} NoticesExactly(q: Query, fs: seq<Facility>, n: FacilityNotice)
    ensures n in AllNotices(q, fs) <==> exists f, x :: IsNoticeOf(q, fs, n, f, x)
  {
    if fs != [] {
      var front, last := fs[..|fs| - 1], fs[|fs| - 1];
      assert fs == front + [last];
      NoticesExactly(q, front, n);
      NoticesOfExactly(q, last, last.notices, n);
      if f, x :| IsNoticeOf(q, fs, n, f, x) {
        assert f == last || IsNoticeOf(q, front, n, f, x);
      }
      if f, x :| IsNoticeOf(q, front, n, f, x) {
        assert IsNoticeOf(q, fs, n, f, x);
      }
      if q.InRadius(last.geo) && n in NoticesOf(q, last, last.notices) {
        var x :| x in last.notices && Shows(x, q.day) && n == FacilityNotice(last.id, last.name, x.text);
        assert IsNoticeOf(q, fs, n, last, x);
      }
    }
  }

  /** `s` is the status of a schedule-less pool of the roster: no stored facility of that id has rules or
      a season, and the roster says whether it is still to be scraped or has nothing to scrape. */
  ghost predicate IsRowStatus(
    q: Query, fs: seq<Facility>, roster: seq<RosterEntry>, s: FacilityStatus, row: RosterEntry)
  {
    && row in roster && !row.freshness.Scraped?
    && (forall f :: f in fs && f.id == row.poolId ==>
          f.hours.season == None && forall b :: b in f.basins ==> b.rules == [])
    && s.facilityId == row.poolId && s.facilityName == row.name && IsDistance(q, row.geo, s.distance)
    && s.code == (if row.freshness.NoSource? then WithoutSource else StillToScrape)
    && s.closure == None && s.params == ClosureParams(map[])
  }

  lemma RowStatusIs(q: Query, fs: seq<Facility>, roster: seq<RosterEntry>, s: FacilityStatus, row: RosterEntry)
    ensures IsRowStatus(q, fs, roster, s, row) <==> row in roster && s in RowStatus(q, fs, row)
  {
  }

  lemma {:induction false} ScheduleLessExactly(q: Query, fs: seq<Facility>, roster: seq<RosterEntry>, s: FacilityStatus)
    ensures s in ScheduleLess(q, fs, roster) <==> exists row :: IsRowStatus(q, fs, roster, s, row)
  {
    if roster != [] {
      var front, last := roster[..|roster| - 1], roster[|roster| - 1];
      assert roster == front + [last];
      ScheduleLessExactly(q, fs, front, s);
      RowStatusIs(q, fs, roster, s, last);
      if row :| IsRowStatus(q, fs, front, s, row) {
        assert IsRowStatus(q, fs, roster, s, row);
      }
      if row :| IsRowStatus(q, fs, roster, s, row) {
        assert row == last || IsRowStatus(q, fs, front, s, row);
      }
      if s in RowStatus(q, fs, last) {
        assert IsRowStatus(q, fs, roster, s, last);
      }
    }
  }

  // --- which statuses there are ----------------------------------------------------------

  /** What a facility with a season and no rules says of the day: the first closure that covers it, or
      open without a timetable while the season runs, with the season's dates, or out of season. */
  ghost predicate SeasonAnswer(h: FacilityHours, d: Date, s: FacilityStatus)
    requires h.season.Some?
  {
    var season := h.season.value;
    if exists i :: Closing(h, d, i) then
      exists i :: Closing(h, d, i) && SaysClosed(s, h.closures[i].code, h.closures[i].params)
    else if season.window.Contains(d) then
      s.code == OpenUnscheduled && s.closure == None && TellsSeason(s.params, season)
    else
      SaysClosed(s, OutOfSeason, map[])
  }

  ghost predicate SaysClosed(s: FacilityStatus, code: ClosureCode, params: Params) {
    s.code == ClosedReason && s.closure == Some(code) && s.params == ClosureParams(params)
  }

  /** The weather, first and last month and precision of the season, and its days if they are published. */
  ghost predicate TellsSeason(p: StatusParams, season: OperatingSeason) {
    && p.SeasonParams? && p.weather == season.weather
    && p.startMonth == season.window.start.month && p.endMonth == season.window.end.month
    && p.precision == season.window.precision
    && match season.window.precision
       case ByDay => p.days == Some((season.window.start.day, season.window.end.day))
       case ByMonth => p.days == None
  }

  ghost predicate IsFrom(q: Query, s: FacilityStatus, f: Facility) {
    s.facilityId == f.id && s.facilityName == f.name && IsDistance(q, f.geo, s.distance)
  }

  ghost predicate HasNoRules(f: Facility) {
    forall b :: b in f.basins ==> b.rules == []
  }

  /** `s` is the status of a facility in range that has a season and no rules. */
  ghost predicate IsSeasonalStatusOf(q: Query, fs: seq<Facility>, s: FacilityStatus, f: Facility) {
    && f in fs && Reached(q, f.geo) && IsFrom(q, s, f)
    && HasNoRules(f) && f.hours.season.Some? && SeasonAnswer(f.hours, q.day, s)
  }

  lemma SeasonAnswerUnique(h: FacilityHours, d: Date, s: FacilityStatus, t: FacilityStatus)
    requires h.season.Some? && SeasonAnswer(h, d, s) && SeasonAnswer(h, d, t)
    ensures s.code == t.code && s.closure == t.closure && s.params == t.params
  {
    assert forall i, j :: Closing(h, d, i) && Closing(h, d, j) ==> i == j;
  }

  lemma SeasonalAnswers(q: Query, f: Facility, cal: Calendar)
    requires f.hours.season.Some? && HasNoRules(f)
    ensures var s := SeasonalStatus(f, f.hours.season.value, q.day, cal, q.Distance(f.geo));
      IsFrom(q, s, f) && SeasonAnswer(f.hours, q.day, s)
  {
    FirstClosureIsFirst(f.hours, q.day);
  }

  lemma SeasonalStatusIs(q: Query, fs: seq<Facility>, f: Facility, cal: Calendar, s: FacilityStatus)
    requires f in fs && Reached(q, f.geo)
    ensures s in SeasonalStatusFor(q, f, cal) <==> IsSeasonalStatusOf(q, fs, s, f)
  {
    if f.hours.season.Some? && HasNoRules(f) {
      var x := SeasonalStatus(f, f.hours.season.value, q.day, cal, q.Distance(f.geo));
      SeasonalAnswers(q, f, cal);
      if SeasonAnswer(f.hours, q.day, s) {
        SeasonAnswerUnique(f.hours, q.day, s, x);
      }
    }
  }

  /** The day's one resolution of a basin with rules is closed, for this reason. */
  ghost predicate ClosedAs(f: Facility, b: Basin, d: Date, cal: Calendar, code: ClosureCode, params: Params) {
    b.rules != [] && Resolution(f.hours, b.rules, b.exceptions, d, cal, ClosedDay(code, params))
  }

  lemma ClosedAsIsBasinDay(f: Facility, b: Basin, d: Date, cal: Calendar, code: ClosureCode, params: Params)
    ensures ClosedAs(f, b, d, cal, code, params) <==> b.rules != [] && BasinDay(f, b, d, cal) == ClosedDay(code, params)
  {
    ResolveHoursMeetsSpec(f.hours, b.rules, b.exceptions, d, cal);
    if ClosedAs(f, b, d, cal, code, params) {
      ResolutionUnique(f.hours, b.rules, b.exceptions, d, cal, ClosedDay(code, params), BasinDay(f, b, d, cal));
    }
  }

  ghost predicate AnyClosed(f: Facility, b: Basin, d: Date, cal: Calendar) {
    exists code, params :: ClosedAs(f, b, d, cal, code, params)
  }

  lemma AnyClosedIsClosedIn(f: Facility, b: Basin, d: Date, cal: Calendar)
    ensures AnyClosed(f, b, d, cal) <==> ClosedIn(f, b, d, cal)
  {
    if code, params :| ClosedAs(f, b, d, cal, code, params) {
      ClosedAsIsBasinDay(f, b, d, cal, code, params);
    }
    if ClosedIn(f, b, d, cal) {
      var day := BasinDay(f, b, d, cal);
      ClosedAsIsBasinDay(f, b, d, cal, day.code, day.params);
    }
  }

  /** `s` is the status of a facility in range none of whose basins with rules has a session, and it
      gives the reason of the last of them that is closed, the `k`-th basin. */
  ghost predicate IsClosedStatusOf(q: Query, fs: seq<Facility>, cal: Calendar, s: FacilityStatus, f: Facility, k: int) {
    && f in fs && Reached(q, f.geo) && IsFrom(q, s, f) && 0 <= k < |f.basins|
    && s.closure.Some? && s.params.ClosureParams? && SaysClosed(s, s.closure.value, s.params.params)
    && ClosedAs(f, f.basins[k], q.day, cal, s.closure.value, s.params.params)
    && (forall j :: k < j < |f.basins| ==> !AnyClosed(f, f.basins[j], q.day, cal))
    && (forall b, x :: b in f.basins && b.rules != [] ==> !OpenWith(f, b, q.day, cal, x))
  }

  ghost predicate LastClosedAt(f: Facility, bs: seq<Basin>, d: Date, cal: Calendar, k: int) {
    0 <= k < |bs| && ClosedIn(f, bs[k], d, cal) && forall j :: k < j < |bs| ==> !ClosedIn(f, bs[j], d, cal)
  }

  lemma LastClosedInFront(f: Facility, bs: seq<Basin>, d: Date, cal: Calendar, k: int)
    requires bs != [] && !ClosedIn(f, bs[|bs| - 1], d, cal)
    ensures LastClosedAt(f, bs, d, cal, k) <==> LastClosedAt(f, bs[..|bs| - 1], d, cal, k)
  {
    var n := |bs| - 1;
    if LastClosedAt(f, bs[..n], d, cal, k) {
      forall j | k < j < |bs| ensures !ClosedIn(f, bs[j], d, cal) {
        assert j < n ==> bs[..n][j] == bs[j];
      }
    }
  }

  lemma {:induction false} LastClosedIsLast(f: Facility, bs: seq<Basin>, d: Date, cal: Calendar)
    ensures match LastClosed(f, bs, d, cal)
            case Some(day) => exists k :: LastClosedAt(f, bs, d, cal, k) && day == BasinDay(f, bs[k], d, cal)
            case None => forall k :: !LastClosedAt(f, bs, d, cal, k)
  {
    if bs != [] {
      var n := |bs| - 1;
      LastClosedIsLast(f, bs[..n], d, cal);
      if ClosedIn(f, bs[n], d, cal) {
        assert LastClosedAt(f, bs, d, cal, n);
      } else {
        forall k ensures LastClosedAt(f, bs, d, cal, k) <==> LastClosedAt(f, bs[..n], d, cal, k) {
          LastClosedInFront(f, bs, d, cal, k);
        }
      }
    }
  }

  lemma NothingOffered(q: Query, f: Facility, cal: Calendar)
    ensures BasinOptions(q, f, f.basins, cal) == []
      <==> forall b, x :: b in f.basins && b.rules != [] ==> !OpenWith(f, b, q.day, cal, x)
  {
    BasinOptionsMeaning(q, f, f.basins, cal);
    forall b, x ensures OpenWith(f, b, q.day, cal, x)
      <==> BasinDay(f, b, q.day, cal).OpenDay? && x in BasinDay(f, b, q.day, cal).sessions
    {
      OpenWithIsBasinDay(f, b, q.day, cal, x);
    }
    if b :| b in f.basins && Offers(f, b, q.day, cal) {
      assert OpenWith(f, b, q.day, cal, BasinDay(f, b, q.day, cal).sessions[0]);
    }
  }

  lemma ClosedPlace(q: Query, fs: seq<Facility>, f: Facility, cal: Calendar, s: FacilityStatus, k: int)
    requires f in fs && Reached(q, f.geo)
    ensures IsClosedStatusOf(q, fs, cal, s, f, k) <==>
      && LastClosedAt(f, f.basins, q.day, cal, k) && BasinOptions(q, f, f.basins, cal) == []
      && s == FacilityStatus(f.id, f.name, ClosedReason, Some(BasinDay(f, f.basins[k], q.day, cal).code),
                             ClosureParams(BasinDay(f, f.basins[k], q.day, cal).params), q.Distance(f.geo))
  {
    NothingOffered(q, f, cal);
    InRadiusIsReached(q, f.geo);
    forall b ensures AnyClosed(f, b, q.day, cal) <==> ClosedIn(f, b, q.day, cal) {
      AnyClosedIsClosedIn(f, b, q.day, cal);
    }
    if 0 <= k < |f.basins| && s.closure.Some? && s.params.ClosureParams? {
      ClosedAsIsBasinDay(f, f.basins[k], q.day, cal, s.closure.value, s.params.params);
    }
  }

  lemma ClosedStatusIs(q: Query, fs: seq<Facility>, f: Facility, cal: Calendar, s: FacilityStatus)
    requires f in fs && Reached(q, f.geo)
    ensures s in ClosedStatusFor(q, f, cal) <==> exists k :: IsClosedStatusOf(q, fs, cal, s, f, k)
  {
    LastClosedIsLast(f, f.basins, q.day, cal);
    forall k ensures IsClosedStatusOf(q, fs, cal, s, f, k) ==> s in ClosedStatusFor(q, f, cal) {
      ClosedPlace(q, fs, f, cal, s, k);
      assert forall j ::
        LastClosedAt(f, f.basins, q.day, cal, j) && LastClosedAt(f, f.basins, q.day, cal, k) ==> j == k;
    }
    if s in ClosedStatusFor(q, f, cal) {
      var k :| LastClosedAt(f, f.basins, q.day, cal, k)
               && LastClosed(f, f.basins, q.day, cal) == Some(BasinDay(f, f.basins[k], q.day, cal));
      ClosedPlace(q, fs, f, cal, s, k);
    }
  }

  ghost predicate IsFacilityStatusOf(q: Query, fs: seq<Facility>, cal: Calendar, s: FacilityStatus, f: Facility) {
    IsSeasonalStatusOf(q, fs, s, f) || exists k :: IsClosedStatusOf(q, fs, cal, s, f, k)
  }

  lemma FacilityStatusIs(q: Query, fs: seq<Facility>, f: Facility, cal: Calendar, s: FacilityStatus)
    requires f in fs
    ensures s in StatusesInRange(q, f, cal) <==> IsFacilityStatusOf(q, fs, cal, s, f)
  {
    InRadiusIsReached(q, f.geo);
    if Reached(q, f.geo) {
      SeasonalStatusIs(q, fs, f, cal, s);
      ClosedStatusIs(q, fs, f, cal, s);
    }
  }

  ghost predicate StatusAt(q: Query, fs: seq<Facility>, cal: Calendar, s: FacilityStatus, f: Facility) {
    f in fs && s in StatusesInRange(q, f, cal)
  }

  lemma {:induction false} StatusSource(q: Query, fs: seq<Facility>, cal: Calendar, s: FacilityStatus)
    returns (f: Facility)
    requires s in AllStatuses(q, fs, cal)
    ensures StatusAt(q, fs, cal, s, f)
  {
    var front, last := fs[..|fs| - 1], fs[|fs| - 1];
    StatusesSplit(q, fs, cal, s);
    if s in StatusesInRange(q, last, cal) {
      f := last;
    } else {
      f := StatusSource(q, front, cal, s);
    }
  }

  lemma StatusesSplit(q: Query, fs: seq<Facility>, cal: Calendar, s: FacilityStatus)
    requires fs != []
    ensures s in AllStatuses(q, fs, cal)
      <==> s in AllStatuses(q, fs[..|fs| - 1], cal) || s in StatusesInRange(q, fs[|fs| - 1], cal)
  {
  }

  lemma {:induction false} StatusFound(q: Query, fs: seq<Facility>, cal: Calendar, s: FacilityStatus, i: nat)
    requires i < |fs| && s in StatusesInRange(q, fs[i], cal)
    ensures s in AllStatuses(q, fs, cal)
  {
    StatusesSplit(q, fs, cal, s);
    if i < |fs| - 1 {
      StatusFound(q, fs[..|fs| - 1], cal, s, i);
    }
  }

  /** The board shows a status exactly when it is that of a facility in range - by its season, or for
      want of any session - or of a schedule-less pool of the roster. */
  lemma StatusesExactly(
    q: Query, fs: seq<Facility>, cal: Calendar, roster: seq<RosterEntry>, r: QueryResult, s: FacilityStatus)
    requires IsAnswer(q, fs, cal, roster, r)
    ensures s in r.statuses <==>
      || (exists f :: f in fs && IsFacilityStatusOf(q, fs, cal, s, f))
      || (exists row :: IsRowStatus(q, fs, roster, s, row))
  {
    SortedSameMembers(STATUS_ORDER, AllStatuses(q, fs, cal) + ScheduleLess(q, fs, roster));
    ScheduleLessExactly(q, fs, roster, s);
    if s in AllStatuses(q, fs, cal) {
      var f := StatusSource(q, fs, cal, s);
      FacilityStatusIs(q, fs, f, cal, s);
    }
    if f :| f in fs && IsFacilityStatusOf(q, fs, cal, s, f) {
      FacilityStatusIs(q, fs, f, cal, s);
      var i :| 0 <= i < |fs| && fs[i] == f;
      StatusFound(q, fs, cal, s, i);
    }
  }

  lemma {:induction false} AllStatusesInRange(q: Query, fs: seq<Facility>, cal: Calendar, s: FacilityStatus)
    requires s in AllStatuses(q, fs, cal)
    ensures !q.Beyond(s.distance)
  {
    if s !in StatusesInRange(q, fs[|fs| - 1], cal) {
      AllStatusesInRange(q, fs[..|fs| - 1], cal, s);
    }
  }

  lemma RowBeyond(q: Query, fs: seq<Facility>, roster: seq<RosterEntry>, s: FacilityStatus, row: RosterEntry)
    requires IsRowStatus(q, fs, roster, s, row)
    ensures q.Beyond(s.distance) <==> !Reached(q, row.geo)
    ensures !Scheduled(fs, s.facilityId)
  {
  }

  lemma StatusBeyond(q: Query, fs: seq<Facility>, cal: Calendar, roster: seq<RosterEntry>, s: FacilityStatus)
    requires s in AllStatuses(q, fs, cal) || s in ScheduleLess(q, fs, roster)
    ensures q.Beyond(s.distance) <==> exists row :: IsRowStatus(q, fs, roster, s, row) && !Reached(q, row.geo)
    ensures q.Beyond(s.distance) ==> !Scheduled(fs, s.facilityId)
  {
    ScheduleLessExactly(q, fs, roster, s);
    if s in AllStatuses(q, fs, cal) {
      AllStatusesInRange(q, fs, cal, s);
    }
    forall row | IsRowStatus(q, fs, roster, s, row)
      ensures (q.Beyond(s.distance) <==> !Reached(q, row.geo)) && !Scheduled(fs, s.facilityId)
    {
      RowBeyond(q, fs, roster, s, row);
    }
  }

  /** Nothing lies beyond the radius but the statuses of schedule-less pools that do: every option and
      every facility's own status is within it, and a status is beyond it exactly when it is that of a
      roster pool out of range - one with no schedule in the store. */
  lemma OnlyScheduleLessLieBeyond(q: Query, fs: seq<Facility>, cal: Calendar, roster: seq<RosterEntry>, r: QueryResult)
    requires IsAnswer(q, fs, cal, roster, r)
    ensures forall o :: o in r.options ==> !q.Beyond(o.distance)
    ensures forall s :: s in r.statuses ==>
              && (q.Beyond(s.distance) <==> exists row :: IsRowStatus(q, fs, roster, s, row) && !Reached(q, row.geo))
              && (q.Beyond(s.distance) ==> !Scheduled(fs, s.facilityId))
  {
    forall o | o in r.options ensures !q.Beyond(o.distance) {
      OptionsExactly(q, fs, cal, roster, r, o);
      var f, b, s :| IsOptionOf(q, fs, cal, o, f, b, s);
    }
    var all := AllStatuses(q, fs, cal) + ScheduleLess(q, fs, roster);
    SortedSameMembers(STATUS_ORDER, all);
    forall s | s in r.statuses
      ensures q.Beyond(s.distance) <==> exists row :: IsRowStatus(q, fs, roster, s, row) && !Reached(q, row.geo)
      ensures q.Beyond(s.distance) ==> !Scheduled(fs, s.facilityId)
    {
      assert s in all;
      StatusBeyond(q, fs, cal, roster, s);
    }
  }

  /** A known distance before a longer or unknown one. */
  ghost predicate Nearer(a: Option<real>, b: Option<real>) {
    match (a, b)
    case (Some(x), Some(y)) => x < y
    case (Some(_), None) => true
    case (None, _) => false
  }

  ghost predicate NameBefore(a: string, b: string, p: int, q: int) {
    if a == b then p < q else Names.Leq(a, b)
  }

  /** Option `a`, found `p`-th, ranks before `b`, found `q`-th: by distance, start, name and place. */
  ghost predicate OptionBefore(a: SwimOption, b: SwimOption, p: int, q: int) {
    || Nearer(a.distance, b.distance)
    || (a.distance == b.distance && a.session.time.start < b.session.time.start)
    || (a.distance == b.distance && a.session.time.start == b.session.time.start
        && NameBefore(a.facilityName, b.facilityName, p, q))
  }

  /** A status ranks by distance, name and place. */
  ghost predicate StatusBefore(a: FacilityStatus, b: FacilityStatus, p: int, q: int) {
    Nearer(a.distance, b.distance) || (a.distance == b.distance && NameBefore(a.facilityName, b.facilityName, p, q))
  }

  ghost predicate SameRows<T>(found: seq<T>, rows: seq<T>, places: seq<int>) {
    && |places| == |rows| == |found|
    && (forall i :: 0 <= i < |rows| ==> 0 <= places[i] < |found| && rows[i] == found[places[i]])
    && forall k :: 0 <= k < |found| ==> Placed(places, k)
  }

  ghost predicate OptionsRanked(rows: seq<SwimOption>, places: seq<int>)
    requires |places| == |rows|
  {
    forall i, j :: 0 <= i < j < |rows| ==> OptionBefore(rows[i], rows[j], places[i], places[j])
  }

  ghost predicate StatusesRanked(rows: seq<FacilityStatus>, places: seq<int>)
    requires |places| == |rows|
  {
    forall i, j :: 0 <= i < j < |rows| ==> StatusBefore(rows[i], rows[j], places[i], places[j])
  }

  lemma OptionRank(a: SwimOption, b: SwimOption, p: int, q: int)
    requires OPTION_ORDER(a, b) && (OPTION_ORDER(b, a) ==> p < q)
    ensures OptionBefore(a, b, p, q)
  {
    if a.facilityName == b.facilityName {
      Names.Total(a.facilityName, b.facilityName);
    }
  }

  lemma StatusRank(a: FacilityStatus, b: FacilityStatus, p: int, q: int)
    requires STATUS_ORDER(a, b) && (STATUS_ORDER(b, a) ==> p < q)
    ensures StatusBefore(a, b, p, q)
  {
    if a.facilityName == b.facilityName {
      Names.Total(a.facilityName, b.facilityName);
    }
  }

  /** Row order: options by distance, start and name, statuses by distance and name, unknown distances
      last, and rows of one rank in the order they were found in. */
  lemma RowsInOrder(q: Query, fs: seq<Facility>, cal: Calendar, roster: seq<RosterEntry>, r: QueryResult)
    returns (optionPlaces: seq<int>, statusPlaces: seq<int>)
    requires IsAnswer(q, fs, cal, roster, r)
    ensures SameRows(AllOptions(q, fs, cal), r.options, optionPlaces) && OptionsRanked(r.options, optionPlaces)
    ensures SameRows(AllStatuses(q, fs, cal) + ScheduleLess(q, fs, roster), r.statuses, statusPlaces)
    ensures StatusesRanked(r.statuses, statusPlaces)
  {
    OrdersAreTotal();
    optionPlaces := SortedIsStablyPlaced(OPTION_ORDER, AllOptions(q, fs, cal));
    statusPlaces := SortedIsStablyPlaced(STATUS_ORDER, AllStatuses(q, fs, cal) + ScheduleLess(q, fs, roster));
    forall i, j | 0 <= i < j < |r.options|
      ensures OptionBefore(r.options[i], r.options[j], optionPlaces[i], optionPlaces[j])
    {
      assert InOrder(OPTION_ORDER, r.options, optionPlaces, i, j);
      OptionRank(r.options[i], r.options[j], optionPlaces[i], optionPlaces[j]);
    }
    forall i, j | 0 <= i < j < |r.statuses|
      ensures StatusBefore(r.statuses[i], r.statuses[j], statusPlaces[i], statusPlaces[j])
    {
      assert InOrder(STATUS_ORDER, r.statuses, statusPlaces, i, j);
      StatusRank(r.statuses[i], r.statuses[j], statusPlaces[i], statusPlaces[j]);
    }
  }

  lemma OrdersAreTotal()
    ensures TotalPreorder(OPTION_ORDER) && TotalPreorder(STATUS_ORDER)
  {
    forall a, b {
      Names.Total(a, b);
    }
    forall a, b, c | Names.Leq(a, b) && Names.Leq(b, c) ensures Names.Leq(a, c) {
      Names.Transitive(a, b, c);
    }
  }
}
