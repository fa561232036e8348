/** The day resolver: closures, then exceptions, then the season gate, then holiday policy, then
    the recurring rules. */
module Resolver {
  import opened Prelude
  import opened Schedule
  import opened Sorting

  datatype Weather = AnyWeather | FairOnly

  datatype DayScope = Always | SchoolTerm | SchoolHoliday

  datatype HolidayPolicy = Normal | SundaySchedule | ClosedOnHolidays

  datatype ScheduleRule = ScheduleRule(
    weekdays: set<Weekday>, time: TimeRange, access: Access, scope: DayScope,
    season: Option<AnnualWindow>, weather: Weather)

  datatype ResolvedSession = ResolvedSession(time: TimeRange, access: Access, weather: Weather)

  datatype ClosureCode =
    | SeasonalBreak | SeasonalBreakMaintenance | Maintenance | OperationalBreak | ChristmasEve
    | PublicHoliday | NoSessions | OutOfSeason | Special | Unmapped

  type Params = map<string, string>

  /** Both ends inclusive, as day numbers. */
  datatype ClosureRange = ClosureRange(start: int, end: int, code: ClosureCode, params: Params) {
    predicate Contains(d: Date) { start <= d.ordinal <= end }
  }

  datatype ScheduleException = ScheduleException(
    date: Date, closed: bool, code: ClosureCode, params: Params, sessions: seq<ResolvedSession>)

  datatype OperatingSeason = OperatingSeason(window: AnnualWindow, weather: Weather)

  datatype DaySchedule =
    | OpenDay(sessions: seq<ResolvedSession>, holidayPolicyUnverified: bool)
    | OpenUnscheduledDay(weather: Weather)
    | ClosedDay(code: ClosureCode, params: Params)

  /** A public holiday's name, and the code its name classifies to. */
  datatype Holiday = Holiday(name: string, code: string)

  datatype HolidayRange = HolidayRange(start: int, end: int)

  datatype Calendar = Calendar(
    publicHolidays: map<Date, Holiday>, schoolHolidays: seq<HolidayRange>, knownYears: set<int>)
  {
    predicate Covers(d: Date) { d.year in knownYears }

    predicate IsPublicHoliday(d: Date) { d in publicHolidays }

    predicate IsSchoolHoliday(d: Date) {
      exists i :: 0 <= i < |schoolHolidays| && schoolHolidays[i].start <= d.ordinal <= schoolHolidays[i].end
    }
  }

  /** The facility-wide facts the resolver reads. */
  datatype FacilityHours = FacilityHours(
    closures: seq<ClosureRange>, holidayPolicy: Option<HolidayPolicy>, season: Option<OperatingSeason>)

  // --- the resolver -----------------------------------------------------------------

  function FirstClosure(closures: seq<ClosureRange>, d: Date): Option<ClosureRange> {
    if closures == [] then None
    else if closures[0].Contains(d) then Some(closures[0])
    else FirstClosure(closures[1..], d)
  }

  function FindException(exceptions: seq<ScheduleException>, d: Date): Option<ScheduleException> {
    if exceptions == [] then None
    else if exceptions[0].date == d then Some(exceptions[0])
    else FindException(exceptions[1..], d)
  }

  predicate ScopeApplies(scope: DayScope, schoolHoliday: bool) {
    match scope
    case Always => true
    case SchoolTerm => !schoolHoliday
    case SchoolHoliday => schoolHoliday
  }

  predicate InSeason(rule: ScheduleRule, d: Date) {
    rule.season.None? || rule.season.value.Contains(d)
  }

  predicate Matches(rule: ScheduleRule, wd: Weekday, d: Date, cal: Calendar) {
    wd in rule.weekdays && ScopeApplies(rule.scope, cal.IsSchoolHoliday(d)) && InSeason(rule, d)
  }

  function SessionOf(rule: ScheduleRule): ResolvedSession {
    ResolvedSession(rule.time, rule.access, rule.weather)
  }

  function Matched(rules: seq<ScheduleRule>, wd: Weekday, d: Date, cal: Calendar): seq<ResolvedSession> {
    if rules == [] then [] else
      var last := rules[|rules| - 1];
      Matched(rules[..|rules| - 1], wd, d, cal) + if Matches(last, wd, d, cal) then [SessionOf(last)] else []
  }

  const BY_START := (a: ResolvedSession, b: ResolvedSession) => a.time.start <= b.time.start

  function SessionsForWeekday(rules: seq<ScheduleRule>, wd: Weekday, d: Date, cal: Calendar): seq<ResolvedSession> {
    Sorted(BY_START, Matched(rules, wd, d, cal))
  }

  function EmptyDay(rules: seq<ScheduleRule>, d: Date): DaySchedule {
    if rules != [] && (forall r :: r in rules ==> r.season.Some?) && !(exists r :: r in rules && InSeason(r, d))
    then ClosedDay(OutOfSeason, map[])
    else ClosedDay(NoSessions, map[])
  }

  function HolidayClosure(h: Holiday): DaySchedule {
    ClosedDay(PublicHoliday, if h.name == "" then map[] else map["holiday" := h.name, "holiday_code" := h.code])
  }

  function ResolveHours(
    f: FacilityHours, rules: seq<ScheduleRule>, exceptions: seq<ScheduleException>, d: Date, cal: Calendar): DaySchedule
  {
    var closure := FirstClosure(f.closures, d);
    if closure.Some? then ClosedDay(closure.value.code, closure.value.params) else
    var exception := FindException(exceptions, d);
    if exception.Some? then
      if exception.value.closed then ClosedDay(exception.value.code, exception.value.params)
      else OpenDay(exception.value.sessions, false)
    else if f.season.Some? && !f.season.value.window.Contains(d) then ClosedDay(OutOfSeason, map[])
    else if f.season.Some? && rules == [] then OpenUnscheduledDay(f.season.value.weather)
    else
      var holiday := cal.IsPublicHoliday(d);
      if holiday && f.holidayPolicy == Some(ClosedOnHolidays) then HolidayClosure(cal.publicHolidays[d])
      else
        var wd := if holiday && f.holidayPolicy == Some(SundaySchedule) then SUNDAY else d.DayOfWeek();
        var sessions := SessionsForWeekday(rules, wd, d, cal);
        if sessions == [] then EmptyDay(rules, d) else OpenDay(sessions, holiday && f.holidayPolicy.None?)
  }

  // --- what the answer means --------------------------------------------------------

  /** The closure runs over the day, both ends included. */
  ghost predicate Shuts(c: ClosureRange, d: Date) {
    c.start <= d.ordinal && d.ordinal <= c.end
  }

  ghost predicate Closing(f: FacilityHours, d: Date, i: int) {
    0 <= i < |f.closures| && Shuts(f.closures[i], d) && forall j :: 0 <= j < i ==> !Shuts(f.closures[j], d)
  }

  ghost predicate Excepting(exceptions: seq<ScheduleException>, d: Date, i: int) {
    0 <= i < |exceptions| && exceptions[i].date == d && forall j :: 0 <= j < i ==> exceptions[j].date != d
  }

  /** The weekday whose rules run, Monday first: the seventh on a public holiday of a facility that
      keeps Sunday hours then, the date's own otherwise. Day number 1 (0001-01-01) was a Monday. */
  ghost predicate RulesRunAs(f: FacilityHours, d: Date, cal: Calendar, wd: Weekday) {
    if d in cal.publicHolidays && f.holidayPolicy == Some(SundaySchedule) then wd == 6 else wd == (d.ordinal - 1) % 7
  }

  ghost predicate InSchoolHoliday(cal: Calendar, d: Date) {
    exists h :: h in cal.schoolHolidays && h.start <= d.ordinal <= h.end
  }

  /** The rule is for this weekday, its season (if it has one) holds the date, and its scope is all
      year, or term and no school holiday holds the date, or school holidays and one does. */
  ghost predicate Runs(rule: ScheduleRule, wd: Weekday, d: Date, cal: Calendar) {
    && wd in rule.weekdays
    && (rule.scope == SchoolTerm ==> !InSchoolHoliday(cal, d))
    && (rule.scope == SchoolHoliday ==> InSchoolHoliday(cal, d))
    && (rule.season.Some? ==> rule.season.value.Contains(d))
  }

  lemma MatchesIsRuns(rule: ScheduleRule, wd: Weekday, d: Date, cal: Calendar)
    ensures Matches(rule, wd, d, cal) <==> Runs(rule, wd, d, cal)
  {
    if h :| h in cal.schoolHolidays && h.start <= d.ordinal <= h.end {
      var i :| 0 <= i < |cal.schoolHolidays| && cal.schoolHolidays[i] == h;
    }
  }

  ghost predicate ComesFrom(rules: seq<ScheduleRule>, wd: Weekday, d: Date, cal: Calendar, s: ResolvedSession, k: int) {
    && 0 <= k < |rules| && Runs(rules[k], wd, d, cal)
    && s == ResolvedSession(rules[k].time, rules[k].access, rules[k].weather)
  }

  /** `sessions` are the matching rules' sessions, every one once, by start time, and rules that
      start together in the order they are written. `places` says which rule each comes from. */
  ghost predicate AreSessions(
    rules: seq<ScheduleRule>, wd: Weekday, d: Date, cal: Calendar, sessions: seq<ResolvedSession>, places: seq<int>)
  {
    && |places| == |sessions|
    && (forall i :: 0 <= i < |sessions| ==> ComesFrom(rules, wd, d, cal, sessions[i], places[i]))
    && (forall k :: 0 <= k < |rules| && Runs(rules[k], wd, d, cal) ==> Placed(places, k))
    && (forall i, j :: 0 <= i < j < |sessions| ==>
          sessions[i].time.start < sessions[j].time.start
          || (sessions[i].time.start == sessions[j].time.start && places[i] < places[j]))
  }

  /** The priority specification: which gate answers, and with what. */
  ghost predicate Resolution(
    f: FacilityHours, rules: seq<ScheduleRule>, exceptions: seq<ScheduleException>, d: Date, cal: Calendar,
    r: DaySchedule)
  {
    if exists i :: Closing(f, d, i) then
      exists i :: Closing(f, d, i) && r == ClosedDay(f.closures[i].code, f.closures[i].params)
    else if exists i :: Excepting(exceptions, d, i) then
      exists i :: Excepting(exceptions, d, i)
                  && r == if exceptions[i].closed then ClosedDay(exceptions[i].code, exceptions[i].params)
                          else OpenDay(exceptions[i].sessions, false)
    else if f.season.Some? && !f.season.value.window.Contains(d) then r == ClosedDay(OutOfSeason, map[])
    else if f.season.Some? && rules == [] then r == OpenUnscheduledDay(f.season.value.weather)
    else if d in cal.publicHolidays && f.holidayPolicy == Some(ClosedOnHolidays) then
      IsHolidayClosure(cal.publicHolidays[d], r)
    else
      exists wd: Weekday :: RulesRunAs(f, d, cal, wd) && RunsRules(f, rules, wd, d, cal, r)
  }

  /** Closed for the holiday, by name and by code; a holiday without a name is not spelled out. */
  ghost predicate IsHolidayClosure(h: Holiday, r: DaySchedule) {
    && r.ClosedDay? && r.code == PublicHoliday
    && r.params.Keys == (if |h.name| > 0 then {"holiday", "holiday_code"} else {})
    && (|h.name| > 0 ==> r.params["holiday"] == h.name && r.params["holiday_code"] == h.code)
  }

  /** Open with exactly the matching sessions, flagged on a holiday no policy covers; or closed:
      out of season when every rule is seasonal and none is running, else for want of sessions. */
  ghost predicate RunsRules(
    f: FacilityHours, rules: seq<ScheduleRule>, wd: Weekday, d: Date, cal: Calendar, r: DaySchedule)
  {
    match r
    case OpenDay(sessions, unverified) =>
      && sessions != [] && (unverified <==> d in cal.publicHolidays && f.holidayPolicy.None?)
      && exists places :: AreSessions(rules, wd, d, cal, sessions, places)
    case ClosedDay(code, params) =>
      && params == map[]
      && (forall k :: 0 <= k < |rules| ==> !Runs(rules[k], wd, d, cal))
      && (code == OutOfSeason || code == NoSessions)
      && (code == OutOfSeason <==>
            rules != [] && forall k :: 0 <= k < |rules| ==> rules[k].season.Some? && !rules[k].season.value.Contains(d))
    case OpenUnscheduledDay(_) => false
  }

  lemma {:induction false} FirstClosureIsFirst(f: FacilityHours, d: Date)
    ensures match FirstClosure(f.closures, d)
            case Some(c) => exists i :: Closing(f, d, i) && f.closures[i] == c
            case None => forall i :: !Closing(f, d, i)
    decreases |f.closures|
  {
    if f.closures != [] {
      var rest := f.(closures := f.closures[1..]);
      FirstClosureIsFirst(rest, d);
      if f.closures[0].Contains(d) {
        assert Closing(f, d, 0);
      } else {
        forall i ensures Closing(f, d, i) <==> Closing(rest, d, i - 1) {
          assert forall k :: 0 <= k < |rest.closures| ==> rest.closures[k] == f.closures[k + 1];
          assert forall k :: 0 < k < |f.closures| ==> f.closures[k] == rest.closures[k - 1];
        }
        if i :| Closing(rest, d, i) {
          assert Closing(f, d, i + 1);
        }
      }
    }
  }

  lemma {:induction false} FindExceptionIsFirst(es: seq<ScheduleException>, d: Date)
    ensures match FindException(es, d)
            case Some(e) => exists i :: Excepting(es, d, i) && es[i] == e
            case None => forall i :: !Excepting(es, d, i)
  {
    if es != [] {
      var rest := es[1..];
      FindExceptionIsFirst(rest, d);
      if es[0].date == d {
        assert Excepting(es, d, 0);
      } else {
        forall i ensures Excepting(es, d, i) <==> Excepting(rest, d, i - 1) {
          assert forall k :: 0 <= k < |rest| ==> rest[k] == es[k + 1];
          assert forall k :: 0 < k < |es| ==> es[k] == rest[k - 1];
        }
        if i :| Excepting(rest, d, i) {
          assert Excepting(es, d, i + 1);
        }
      }
    }
  }

  /** The sessions of the rules that run, in rule order; `places` says which rule each comes from. */
  ghost predicate MatchedAt(
    rules: seq<ScheduleRule>, wd: Weekday, d: Date, cal: Calendar, m: seq<ResolvedSession>, places: seq<int>)
  {
    && |places| == |m| && Ascending(places)
    && (forall i :: 0 <= i < |m| ==> ComesFrom(rules, wd, d, cal, m[i], places[i]))
    && (forall k :: 0 <= k < |rules| && Runs(rules[k], wd, d, cal) ==> Placed(places, k))
  }

  lemma MatchedMore(
    rules: seq<ScheduleRule>, rule: ScheduleRule, wd: Weekday, d: Date, cal: Calendar, m: seq<ResolvedSession>,
    places: seq<int>)
    requires MatchedAt(rules, wd, d, cal, m, places)
    ensures Runs(rule, wd, d, cal) ==>
      var s := ResolvedSession(rule.time, rule.access, rule.weather);
      MatchedAt(rules + [rule], wd, d, cal, m + [s], places + [|rules|])
    ensures !Runs(rule, wd, d, cal) ==> MatchedAt(rules + [rule], wd, d, cal, m, places)
  {
    var longer := rules + [rule];
    forall i | 0 <= i < |m| ensures ComesFrom(longer, wd, d, cal, m[i], places[i]) {
      assert ComesFrom(rules, wd, d, cal, m[i], places[i]);
    }
    forall k | 0 <= k < |longer| && Runs(longer[k], wd, d, cal)
      ensures Runs(rule, wd, d, cal) ==> Placed(places + [|rules|], k)
      ensures !Runs(rule, wd, d, cal) ==> Placed(places, k)
    {
      PlacedMore(places, |rules|, k);
      assert k < |rules| ==> longer[k] == rules[k];
    }
  }

  lemma {:induction false} MatchedPlaces(rules: seq<ScheduleRule>, wd: Weekday, d: Date, cal: Calendar)
    returns (places: seq<int>)
    ensures MatchedAt(rules, wd, d, cal, Matched(rules, wd, d, cal), places)
  {
    places := [];
    if rules != [] {
      var front, last := rules[..|rules| - 1], rules[|rules| - 1];
      assert rules == front + [last];
      places := MatchedPlaces(front, wd, d, cal);
      MatchedMore(front, last, wd, d, cal, Matched(front, wd, d, cal), places);
      MatchesIsRuns(last, wd, d, cal);
      if Matches(last, wd, d, cal) {
        places := places + [|front|];
      } else {
        assert Matched(rules, wd, d, cal) == Matched(front, wd, d, cal);
      }
    }
  }

  /** A start-sorted list of sessions that stood in rule order is in the order sessions take. */
  lemma StartsInOrder(
    m: seq<ResolvedSession>, sessions: seq<ResolvedSession>, from: seq<int>, at: seq<int>, i: nat, j: nat)
    requires StablyPlaced(BY_START, m, sessions, at) && |from| == |m| && Ascending(from) && i < j < |sessions|
    ensures sessions[i].time.start < sessions[j].time.start
            || (sessions[i].time.start == sessions[j].time.start && from[at[i]] < from[at[j]])
  {
    assert InOrder(BY_START, sessions, at, i, j);
  }

  lemma SessionsArePlaced(rules: seq<ScheduleRule>, wd: Weekday, d: Date, cal: Calendar)
    ensures exists places :: AreSessions(rules, wd, d, cal, SessionsForWeekday(rules, wd, d, cal), places)
  {
    var m, sessions := Matched(rules, wd, d, cal), SessionsForWeekday(rules, wd, d, cal);
    var from := MatchedPlaces(rules, wd, d, cal);
    var at := SortedIsStablyPlaced(BY_START, m);
    var places := Composed(from, at);
    forall i | 0 <= i < |sessions| ensures ComesFrom(rules, wd, d, cal, sessions[i], places[i]) {
      assert ComesFrom(rules, wd, d, cal, m[at[i]], from[at[i]]);
    }
    forall k | 0 <= k < |rules| && Runs(rules[k], wd, d, cal) ensures Placed(places, k) {
      MatchesIsRuns(rules[k], wd, d, cal);
      PlacedThrough(from, at, k);
    }
    forall i, j | 0 <= i < j < |sessions|
      ensures sessions[i].time.start < sessions[j].time.start
              || (sessions[i].time.start == sessions[j].time.start && places[i] < places[j])
    {
      StartsInOrder(m, sessions, from, at, i, j);
    }
    assert AreSessions(rules, wd, d, cal, sessions, places);
  }

  lemma {:induction false} MatchedEmpty(rules: seq<ScheduleRule>, wd: Weekday, d: Date, cal: Calendar)
    ensures SessionsForWeekday(rules, wd, d, cal) == []
            <==> forall k :: 0 <= k < |rules| ==> !Matches(rules[k], wd, d, cal)
  {
    SessionsArePlaced(rules, wd, d, cal);
    var sessions := SessionsForWeekday(rules, wd, d, cal);
    var places :| AreSessions(rules, wd, d, cal, sessions, places);
    forall k | 0 <= k < |rules| && Matches(rules[k], wd, d, cal) ensures sessions != [] {
      assert Placed(places, k);
    }
    assert sessions != [] ==> Matches(rules[places[0]], wd, d, cal);
  }

  /** The resolver is its priority specification, for all inputs. */
  lemma ResolveHoursMeetsSpec(
    f: FacilityHours, rules: seq<ScheduleRule>, exceptions: seq<ScheduleException>, d: Date, cal: Calendar)
    ensures Resolution(f, rules, exceptions, d, cal, ResolveHours(f, rules, exceptions, d, cal))
  {
    FirstClosureIsFirst(f, d);
    FindExceptionIsFirst(exceptions, d);
    var wd: Weekday :=
      if cal.IsPublicHoliday(d) && f.holidayPolicy == Some(SundaySchedule) then SUNDAY else d.DayOfWeek();
    SessionsArePlaced(rules, wd, d, cal);
    MatchedEmpty(rules, wd, d, cal);
    EmptyDayReason(rules, d);
    if FirstClosure(f.closures, d).None? && FindException(exceptions, d).None?
       && !(f.season.Some? && (!f.season.value.window.Contains(d) || rules == []))
       && !(cal.IsPublicHoliday(d) && f.holidayPolicy == Some(ClosedOnHolidays)) {
      assert RulesRunAs(f, d, cal, wd) && RunsRules(f, rules, wd, d, cal, ResolveHours(f, rules, exceptions, d, cal));
    }
  }

  /** No closure, exception, season or closing holiday answers for the day before the rules do. */
  ghost predicate RulesDecide(
    f: FacilityHours, rules: seq<ScheduleRule>, es: seq<ScheduleException>, d: Date, cal: Calendar)
  {
    && (forall c :: c in f.closures ==> d.ordinal < c.start || c.end < d.ordinal)
    && (forall e :: e in es ==> e.date != d)
    && (f.season.Some? ==> rules != [] && f.season.value.window.Contains(d))
    && (d in cal.publicHolidays ==> f.holidayPolicy != Some(ClosedOnHolidays))
  }

  /** Where the rules decide, the day has a session exactly when some rule that runs that day gives it,
      weekday, season, term and school holidays included. */
  lemma SessionsAreRules(
    f: FacilityHours, rules: seq<ScheduleRule>, es: seq<ScheduleException>, d: Date, cal: Calendar, wd: Weekday,
    s: ResolvedSession)
    requires RulesDecide(f, rules, es, d, cal) && RulesRunAs(f, d, cal, wd)
    ensures var r := ResolveHours(f, rules, es, d, cal);
      (r.OpenDay? && s in r.sessions) <==> exists k :: ComesFrom(rules, wd, d, cal, s, k)
  {
    var r := ResolveHours(f, rules, es, d, cal);
    ResolveHoursMeetsSpec(f, rules, es, d, cal);
    assert forall i :: !Closing(f, d, i);
    assert forall i :: !Excepting(es, d, i);
    assert RunsRules(f, rules, wd, d, cal, r);
    if r.OpenDay? {
      var places :| AreSessions(rules, wd, d, cal, r.sessions, places);
      if s in r.sessions {
        var i :| 0 <= i < |r.sessions| && r.sessions[i] == s;
        assert ComesFrom(rules, wd, d, cal, s, places[i]);
      }
      if k :| ComesFrom(rules, wd, d, cal, s, k) {
        assert Placed(places, k);
        var i :| 0 <= i < |places| && places[i] == k;
        assert ComesFrom(rules, wd, d, cal, r.sessions[i], k);
      }
    }
  }

  lemma EmptyDayReason(rules: seq<ScheduleRule>, d: Date)
    ensures EmptyDay(rules, d).ClosedDay? && EmptyDay(rules, d).params == map[]
    ensures EmptyDay(rules, d).code == (
              if rules != []
                 && forall k :: 0 <= k < |rules| ==> rules[k].season.Some? && !rules[k].season.value.Contains(d)
              then OutOfSeason else NoSessions)
  {
    assert forall k :: 0 <= k < |rules| ==> rules[k] in rules;
  }

  /** Rule `a` comes before rule `b`: it starts earlier, or together and is written first. */
  ghost function RuleOrder(rules: seq<ScheduleRule>): (int, int) -> bool {
    (a, b) => 0 <= a < |rules| && 0 <= b < |rules|
      && (rules[a].time.start < rules[b].time.start || (rules[a].time.start == rules[b].time.start && a < b))
  }

  lemma SessionsFollowRuleOrder(
    rules: seq<ScheduleRule>, wd: Weekday, d: Date, cal: Calendar, s: seq<ResolvedSession>, p: seq<int>)
    requires AreSessions(rules, wd, d, cal, s, p)
    ensures Ordered(RuleOrder(rules), p)
  {
  }

  /** The specification leaves nothing open: it has one answer. */
  lemma SessionsUnique(
    rules: seq<ScheduleRule>, wd: Weekday, d: Date, cal: Calendar,
    s: seq<ResolvedSession>, p: seq<int>, s': seq<ResolvedSession>, p': seq<int>)
    requires AreSessions(rules, wd, d, cal, s, p) && AreSessions(rules, wd, d, cal, s', p')
    ensures s == s'
  {
    SessionsFollowRuleOrder(rules, wd, d, cal, s, p);
    SessionsFollowRuleOrder(rules, wd, d, cal, s', p');
    OrderFixesList(RuleOrder(rules), p, p', |p|);
    OrderFixesList(RuleOrder(rules), p', p, |p'|);
  }

  lemma ResolutionUnique(
    f: FacilityHours, rules: seq<ScheduleRule>, exceptions: seq<ScheduleException>, d: Date, cal: Calendar,
    r: DaySchedule, r': DaySchedule)
    requires Resolution(f, rules, exceptions, d, cal, r) && Resolution(f, rules, exceptions, d, cal, r')
    ensures r == r'
  {
    assert forall i, j :: 0 <= i < j ==> !(Closing(f, d, i) && Closing(f, d, j));
    assert forall i, j :: 0 <= i < j ==> !(Excepting(exceptions, d, i) && Excepting(exceptions, d, j));
    forall wd: Weekday | RunsRules(f, rules, wd, d, cal, r) && RunsRules(f, rules, wd, d, cal, r') ensures r == r' {
      RunsRulesUnique(f, rules, wd, d, cal, r, r');
    }
  }

  /** A day that is open has a rule that runs. */
  lemma OpenDayHasRule(
    f: FacilityHours, rules: seq<ScheduleRule>, wd: Weekday, d: Date, cal: Calendar, r: DaySchedule)
    requires RunsRules(f, rules, wd, d, cal, r) && r.OpenDay?
    ensures exists k :: 0 <= k < |rules| && Runs(rules[k], wd, d, cal)
  {
    var p :| AreSessions(rules, wd, d, cal, r.sessions, p);
    assert ComesFrom(rules, wd, d, cal, r.sessions[0], p[0]);
  }

  lemma OpenDaysAlike(
    f: FacilityHours, rules: seq<ScheduleRule>, wd: Weekday, d: Date, cal: Calendar, r: DaySchedule, r': DaySchedule)
    requires RunsRules(f, rules, wd, d, cal, r) && RunsRules(f, rules, wd, d, cal, r') && r.OpenDay? && r'.OpenDay?
    ensures r == r'
  {
    var p :| AreSessions(rules, wd, d, cal, r.sessions, p);
    var p' :| AreSessions(rules, wd, d, cal, r'.sessions, p');
    SessionsUnique(rules, wd, d, cal, r.sessions, p, r'.sessions, p');
  }

  lemma RunsRulesUnique(
    f: FacilityHours, rules: seq<ScheduleRule>, wd: Weekday, d: Date, cal: Calendar, r: DaySchedule, r': DaySchedule)
    requires RunsRules(f, rules, wd, d, cal, r) && RunsRules(f, rules, wd, d, cal, r')
    ensures r == r'
  {
    if r.OpenDay? && r'.OpenDay? {
      OpenDaysAlike(f, rules, wd, d, cal, r, r');
    } else if r.OpenDay? {
      OpenDayHasRule(f, rules, wd, d, cal, r);
    } else if r'.OpenDay? {
      OpenDayHasRule(f, rules, wd, d, cal, r');
    }
  }

  /** The season gate never opens a day for a facility with neither rules nor exceptions. */
  lemma NoRulesNoSessions(f: FacilityHours, d: Date, cal: Calendar)
    ensures !ResolveHours(f, [], [], d, cal).OpenDay?
  {
    var wd: Weekday :=
      if cal.IsPublicHoliday(d) && f.holidayPolicy == Some(SundaySchedule) then SUNDAY else d.DayOfWeek();
    MatchedEmpty([], wd, d, cal);
  }
}
