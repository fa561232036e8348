/** The offline export: one query per horizon date, projected onto keyed rows. */
module Export {
  import opened Prelude
  import opened Schedule
  import opened Sorting
  import opened Resolver
  import opened Pools
  import opened SwimQuery
  import Names
  import opened Text

  datatype SessionRow = SessionRow(
    poolId: string, date: Date, basinId: string, basinName: string, lengthM: Option<real>, lanes: Option<nat>,
    start: int, end: int, access: Access, weather: Weather)

  datatype DayRow = DayRow(
    poolId: string, date: Date, code: StatusCode, closure: Option<ClosureCode>, params: StatusParams)

  datatype NoticeRow = NoticeRow(poolId: string, date: Date, text: string)

  datatype WarningCode = CalendarCoverage | HolidayHoursUnverified

  datatype WarningRow = WarningRow(date: Date, code: WarningCode, params: map<string, string>)

  datatype Tables = Tables(
    sessions: seq<SessionRow>, days: seq<DayRow>, notices: seq<NoticeRow>, warnings: seq<WarningRow>)

  function SessionRowOf(o: SwimOption, d: Date): SessionRow {
    SessionRow(o.facilityId, d, o.basinId, o.basinName, o.basinLengthM, o.basinLanes,
               o.session.time.start, o.session.time.end, o.session.access, o.session.weather)
  }

  function StatusRowOf(s: FacilityStatus, d: Date): DayRow {
    DayRow(s.facilityId, d, s.code, s.closure, s.params)
  }

  function NoticeRowOf(n: FacilityNotice, d: Date): NoticeRow {
    NoticeRow(n.facilityId, d, n.text)
  }

  function CoverageSentence(year: string): string {
    "calendar data not available for " + year + "; holiday-dependent schedules may be inaccurate"
  }

  function HolidaySentence(date: string, pools: string): string {
    date + " is a public holiday and these pools do not publish their holiday hours; "
      + "the times shown are their usual weekday hours and are unconfirmed: " + pools
  }

  /** The sentences the export can render are those the query writes. */
  lemma SentencesAgree(x: string, y: string)
    ensures CoverageSentence(x) == CoverageWarning(x) && HolidaySentence(x, y) == HolidayWarning(x, y)
  {
  }

  /** The sentence of a stored code and its parameters; none when a parameter is missing. */
  function RenderWarning(code: WarningCode, params: map<string, string>): Option<string> {
    match code
    case CalendarCoverage => if "year" in params then Some(CoverageSentence(params["year"])) else None
    case HolidayHoursUnverified =>
      if "date" in params && "pools" in params then Some(HolidaySentence(params["date"], params["pools"])) else None
  }

  // --- warnings, derived a second time ----------------------------------------------

  /** The export's own loop over facilities and basins: no radius, no query. */
  method UnverifiedHolidayPools(fs: seq<Facility>, d: Date, cal: Calendar) returns (pools: seq<string>)
    ensures forall x :: x in pools <==> exists f :: f in fs && f.name == x && Unverified(f, f.basins, d, cal)
    ensures Names.Ascending(pools)
  {
    var named: set<string> := {};
    for i := 0 to |fs|
      invariant forall x :: x in named <==> exists f :: f in fs[..i] && f.name == x && Unverified(f, f.basins, d, cal)
    {
      var f := fs[i];
      assert fs[..i + 1] == fs[..i] + [f];
      ghost var before := named;
      for k := 0 to |f.basins|
        invariant named == before + if Unverified(f, f.basins[..k], d, cal) then {f.name} else {}
      {
        var b := f.basins[k];
        assert f.basins[..k + 1] == f.basins[..k] + [b];
        OneMoreUnverified(f, f.basins[..k], b, d, cal);
        if b.rules != [] {
          var day := BasinDay(f, b, d, cal);
          if day.OpenDay? && day.holidayPolicyUnverified {
            named := named + {f.name};
          }
        }
      }
      assert f.basins[..|f.basins|] == f.basins;
      assert forall x :: x in fs[..i + 1] <==> x in fs[..i] || x == f;
    }
    assert fs[..|fs|] == fs;
    pools := Names.SortedNames(named);
  }

  ghost function UnverifiedOn(fs: seq<Facility>, d: Date, cal: Calendar): set<string> {
    set f | f in fs && Unverified(f, f.basins, d, cal) :: f.name
  }

  lemma CoverageRenders(year: string)
    ensures RenderWarning(CalendarCoverage, map["year" := year]) == Some(CoverageWarning(year))
  {
    SentencesAgree(year, "");
  }

  lemma HolidayRenders(date: string, pools: string)
    ensures RenderWarning(HolidayHoursUnverified, map["date" := date, "pools" := pools])
         == Some(HolidayWarning(date, pools))
  {
    SentencesAgree(date, pools);
  }

  method WarningRowsOf(d: Date, covered: bool, year: string, anyUnverified: bool, date: string, pools: string)
    returns (rows: seq<WarningRow>)
    ensures RowsRender(rows, WarningTexts(covered, year, anyUnverified, date, pools))
    ensures forall i :: 0 <= i < |rows| ==> rows[i].date == d
  {
    CoverageRenders(year);
    HolidayRenders(date, pools);
    rows := if covered then [] else [WarningRow(d, CalendarCoverage, map["year" := year])];
    if anyUnverified {
      rows := rows + [WarningRow(d, HolidayHoursUnverified, map["date" := date, "pools" := pools])];
    }
  }

  method WarningRows(fs: seq<Facility>, d: Date, cal: Calendar) returns (rows: seq<WarningRow>)
    ensures RowsRender(rows, WarningsFor(d, cal, UnverifiedOn(fs, d, cal)))
    ensures forall i :: 0 <= i < |rows| ==> rows[i].date == d
  {
    var unverified := UnverifiedHolidayPools(fs, d, cal);
    SameNames(UnverifiedOn(fs, d, cal), unverified);
    rows := WarningRowsOf(d, cal.Covers(d), Decimal(d.year), unverified != [], Iso(d), CommaList(unverified));
  }

  /** Rendering the rows gives the warnings, verbatim and in order. */
  ghost predicate RowsRender(rows: seq<WarningRow>, warnings: seq<string>) {
    && |rows| == |warnings|
    && forall i :: 0 <= i < |rows| ==> RenderWarning(rows[i].code, rows[i].params) == Some(warnings[i])
  }

  lemma SameNames(names: set<string>, pools: seq<string>)
    requires (forall x :: x in pools <==> x in names) && Names.Ascending(pools)
    ensures pools == Names.SortedNames(names)
    ensures pools == [] <==> names == {}
  {
    Names.SortedUnique(pools, Names.SortedNames(names));
  }

  /** With no radius, the query's loop and the export's loop find the same pools. */
  lemma SameUnverified(q: Query, fs: seq<Facility>, cal: Calendar)
    requires q.radius.None?
    ensures UnverifiedNames(q, fs, cal) == UnverifiedOn(fs, q.day, cal)
  {
  }

  // --- the sweep --------------------------------------------------------------------

  /** What the whole export is resolved over: the stored facilities, the calendar and the roster. */
  datatype Sweep = Sweep(fs: seq<Facility>, cal: Calendar, roster: seq<RosterEntry>, km: (Geo, Geo) -> real) {
    /** The person-free, place-free query at noon that every horizon date is resolved with. */
    ghost function Noon(d: Date): Query {
      Query(d, 720, None, None, km)
    }

    ghost predicate Answers(d: Date, r: QueryResult) {
      IsAnswer(Noon(d), fs, cal, roster, r)
    }

    ghost predicate Warned(d: Date, r: QueryResult) {
      IsWarned(Noon(d), fs, cal, r)
    }
  }

  method ResolveDay(w: Sweep, d: Date)
    returns (r: QueryResult)
    ensures w.Answers(d, r)
    ensures w.Warned(d, r)
  {
    r := FindSwimOptions(Query(d, 12 * 60, None, None, w.km), w.fs, w.cal, w.roster);
  }

  /** The rows of one date. */
  ghost predicate DayTables(w: Sweep, d: Date, t: Tables) {
    exists r :: w.Answers(d, r) && Projects(r, d, t)
  }

  /** A session row is its option without what depends on person, place and time of day. */
  ghost predicate RowOfOption(row: SessionRow, o: SwimOption, d: Date) {
    && row.poolId == o.facilityId && row.date == d
    && row.basinId == o.basinId && row.basinName == o.basinName
    && row.lengthM == o.basinLengthM && row.lanes == o.basinLanes
    && row.start == o.session.time.start && row.end == o.session.time.end
    && row.access == o.session.access && row.weather == o.session.weather
  }

  ghost predicate RowOfStatus(row: DayRow, s: FacilityStatus, d: Date) {
    && row.poolId == s.facilityId && row.date == d
    && row.code == s.code && row.closure == s.closure && row.params == s.params
  }

  ghost predicate Projects(r: QueryResult, d: Date, t: Tables) {
    && |t.sessions| == |r.options| && |t.notices| == |r.notices|
    && (forall i {:trigger t.sessions[i]} :: 0 <= i < |t.sessions| ==> RowOfOption(t.sessions[i], r.options[i], d))
    && AreDayRows(t.days, r.statuses, d)
    && (forall i {:trigger t.notices[i]} :: 0 <= i < |t.notices| ==>
          && t.notices[i].poolId == r.notices[i].facilityId && t.notices[i].date == d
          && t.notices[i].text == r.notices[i].text)
  }

  /** The date's warning rows render to exactly the warnings the query gives that day. */
  ghost predicate DayWarnings(w: Sweep, d: Date, rows: seq<WarningRow>)
  {
    && (forall r :: w.Warned(d, r) ==> RowsRender(rows, r.warnings))
    && forall i :: 0 <= i < |rows| ==> rows[i].date == d
  }

  ghost predicate AreDayRows(rows: seq<DayRow>, ss: seq<FacilityStatus>, d: Date) {
    |rows| == |ss| && forall i {:trigger rows[i]} :: 0 <= i < |rows| ==> RowOfStatus(rows[i], ss[i], d)
  }

  function Append(a: Tables, b: Tables): Tables {
    Tables(a.sessions + b.sessions, a.days + b.days, a.notices + b.notices, a.warnings + b.warnings)
  }

  const NO_TABLES := Tables([], [], [], [])

  ghost function Concat(ts: seq<Tables>): Tables {
    if ts == [] then Tables([], [], [], []) else
      var before, last := Concat(ts[..|ts| - 1]), ts[|ts| - 1];
      Tables(before.sessions + last.sessions, before.days + last.days, before.notices + last.notices,
             before.warnings + last.warnings)
  }

  ghost predicate DaysExported(w: Sweep, dates: seq<Date>, perDay: seq<Tables>)
    requires |dates| == |perDay|
  {
    dates == [] ||
    (var k := |dates| - 1;
     DaysExported(w, dates[..k], perDay[..k]) && DayExport(w, dates[k], perDay[k]))
  }

  /** The export: each horizon date's own rows, one date after the other. */
  ghost predicate IsExport(w: Sweep, dates: seq<Date>, tables: Tables, perDay: seq<Tables>)
  {
    |perDay| == |dates| && tables == Concat(perDay) && DaysExported(w, dates, perDay)
  }

  ghost predicate Exported(w: Sweep, dates: seq<Date>, tables: Tables)
  {
    exists perDay :: IsExport(w, dates, tables, perDay)
  }

  ghost predicate DayExport(w: Sweep, d: Date, t: Tables) {
    DayTables(w, d, t) && DayWarnings(w, d, t.warnings)
  }

  /** The rows of one answer. */
  function Projection(r: QueryResult, d: Date, warnings: seq<WarningRow>): (t: Tables)
    ensures Projects(r, d, t) && t.warnings == warnings
  {
    Tables(
      seq(|r.options|, k requires 0 <= k < |r.options| => SessionRowOf(r.options[k], d)),
      seq(|r.statuses|, k requires 0 <= k < |r.statuses| => StatusRowOf(r.statuses[k], d)),
      seq(|r.notices|, k requires 0 <= k < |r.notices| => NoticeRowOf(r.notices[k], d)),
      warnings)
  }

  method DayWarningRows(w: Sweep, d: Date) returns (rows: seq<WarningRow>)
    ensures DayWarnings(w, d, rows)
  {
    rows := WarningRows(w.fs, d, w.cal);
    SameUnverified(w.Noon(d), w.fs, w.cal);
  }

  method DayRowsFor(w: Sweep, d: Date) returns (t: Tables)
    ensures DayExport(w, d, t)
  {
    var r := ResolveDay(w, d);
    var warnings := DayWarningRows(w, d);
    t := Projection(r, d, warnings);
  }

  lemma ConcatSnoc(ts: seq<Tables>, t: Tables)
    ensures Concat(ts + [t]) == Append(Concat(ts), t)
  {
    assert (ts + [t])[..|ts|] == ts;
  }

  lemma DayAdded(w: Sweep, dates: seq<Date>, i: nat, tables: Tables, perDay: seq<Tables>, day: Tables)
    requires i < |dates| && IsExport(w, dates[..i], tables, perDay) && DayExport(w, dates[i], day)
    ensures IsExport(w, dates[..i + 1], Append(tables, day), perDay + [day])
  {
    assert dates[..i + 1][..i] == dates[..i] && (perDay + [day])[..i] == perDay;
    ConcatSnoc(perDay, day);
  }

  lemma ExportShrinks(w: Sweep, dates: seq<Date>, tables: Tables, perDay: seq<Tables>)
    requires IsExport(w, dates, tables, perDay) && dates != []
    ensures var k := |dates| - 1;
            && IsExport(w, dates[..k], Concat(perDay[..k]), perDay[..k])
            && DayTables(w, dates[k], perDay[k])
            && tables == Append(Concat(perDay[..k]), perDay[k])
  {
  }

  lemma ExportExists(w: Sweep, dates: seq<Date>, tables: Tables, perDay: seq<Tables>)
    requires IsExport(w, dates, tables, perDay)
    ensures Exported(w, dates, tables)
  {
  }

  method ResolvedTables(w: Sweep, dates: seq<Date>)
    returns (tables: Tables, ghost perDay: seq<Tables>)
    ensures IsExport(w, dates, tables, perDay)
    ensures Exported(w, dates, tables)
  {
    tables, perDay := NO_TABLES, [];
    for i := 0 to |dates|
      invariant IsExport(w, dates[..i], tables, perDay)
    {
      var day := DayRowsFor(w, dates[i]);
      DayAdded(w, dates, i, tables, perDay, day);
      tables, perDay := Append(tables, day), perDay + [day];
    }
    assert dates[..|dates|] == dates;
    ExportExists(w, dates, tables, perDay);
  }

  // --- what the export keeps --------------------------------------------------------

  ghost predicate HasSessionRow(rows: seq<SessionRow>, id: string, d: Date) {
    exists row :: row in rows && row.poolId == id && row.date == d
  }

  ghost function ForDay(id: string, d: Date): DayRow -> bool {
    (row: DayRow) => row.poolId == id && row.date == d
  }

  ghost function DayRowCount(rows: seq<DayRow>, id: string, d: Date): nat {
    |Filter(ForDay(id, d), rows)|
  }

  ghost predicate DistinctDates(dates: seq<Date>) {
    forall i, j :: 0 <= i < j < |dates| ==> dates[i] != dates[j]
  }

  lemma {:induction false} DayRowsOfStatuses(rows: seq<DayRow>, ss: seq<FacilityStatus>, d: Date, id: string, d': Date)
    requires AreDayRows(rows, ss, d)
    ensures DayRowCount(rows, id, d') == if d == d' then |Filter(ForPool(id), ss)| else 0
  {
    if ss != [] {
      DayRowsOfStatuses(rows[..|rows| - 1], ss[..|ss| - 1], d, id, d');
    }
  }

  lemma SessionRowsOfOptions(r: QueryResult, d: Date, t: Tables, id: string, d': Date)
    requires Projects(r, d, t)
    ensures HasSessionRow(t.sessions, id, d') <==> d == d' && HasOption(r, id)
  {
    if row :| row in t.sessions && row.poolId == id && row.date == d' {
      var i :| 0 <= i < |t.sessions| && t.sessions[i] == row;
      assert r.options[i] in r.options;
    }
    if o :| o in r.options && o.facilityId == id {
      var i :| 0 <= i < |r.options| && r.options[i] == o;
      assert t.sessions[i] in t.sessions;
    }
  }

  /** A day's rows about a pool, counted against the day's answer. */
  ghost predicate RowsTell(rows: Tables, r: QueryResult, id: string, d: Date) {
    && DayRowCount(rows.days, id, d) == StatusCount(r, id)
    && (HasSessionRow(rows.sessions, id, d) <==> HasOption(r, id))
  }

  ghost predicate RowsSilent(rows: Tables, id: string, d: Date) {
    DayRowCount(rows.days, id, d) == 0 && !HasSessionRow(rows.sessions, id, d)
  }

  lemma OneDay(w: Sweep, d: Date, t: Tables, id: string, d': Date)
    returns (r: QueryResult)
    requires DayTables(w, d, t)
    ensures w.Answers(d, r)
    ensures if d == d' then RowsTell(t, r, id, d') else RowsSilent(t, id, d')
  {
    r :| w.Answers(d, r) && Projects(r, d, t);
    DayRowsOfStatuses(t.days, r.statuses, d, id, d');
    SessionRowsOfOptions(r, d, t, id, d');
  }

  lemma AppendTells(a: Tables, b: Tables, r: QueryResult, id: string, d: Date)
    ensures RowsTell(a, r, id, d) && RowsSilent(b, id, d) ==> RowsTell(Append(a, b), r, id, d)
    ensures RowsSilent(a, id, d) && RowsTell(b, r, id, d) ==> RowsTell(Append(a, b), r, id, d)
    ensures RowsSilent(a, id, d) && RowsSilent(b, id, d) ==> RowsSilent(Append(a, b), id, d)
  {
    FilterConcat(ForDay(id, d), a.days, b.days);
    assert HasSessionRow(a.sessions + b.sessions, id, d)
        <==> HasSessionRow(a.sessions, id, d) || HasSessionRow(b.sessions, id, d) by {
      assert forall x :: x in a.sessions + b.sessions <==> x in a.sessions || x in b.sessions;
    }
  }

  lemma DistinctFront(dates: seq<Date>)
    requires DistinctDates(dates) && dates != []
    ensures var k := |dates| - 1;
      DistinctDates(dates[..k]) && forall i :: 0 <= i < k ==> dates[i] != dates[k] && dates[..k][i] == dates[i]
  {
  }

  lemma LastDateTells(
    w: Sweep, dates: seq<Date>, tables: Tables, perDay: seq<Tables>, id: string) returns (r: QueryResult)
    requires IsExport(w, dates, tables, perDay) && DistinctDates(dates) && dates != []
    ensures w.Answers(dates[|dates| - 1], r) && RowsTell(tables, r, id, dates[|dates| - 1])
  {
    var k := |dates| - 1;
    ExportShrinks(w, dates, tables, perDay);
    DistinctFront(dates);
    r := OneDay(w, dates[k], perDay[k], id, dates[k]);
    OtherDates(w, dates[..k], Concat(perDay[..k]), perDay[..k], id, dates[k]);
    AppendTells(Concat(perDay[..k]), perDay[k], r, id, dates[k]);
  }

  /** On each horizon date, the export's rows for a pool are that date's answer for the pool. */
  lemma {:induction false} RowsAreAnswers(
    w: Sweep, dates: seq<Date>,
    tables: Tables, perDay: seq<Tables>, id: string, n: nat) returns (r: QueryResult)
    requires IsExport(w, dates, tables, perDay) && DistinctDates(dates) && n < |dates|
    ensures w.Answers(dates[n], r)
    ensures RowsTell(tables, r, id, dates[n])
    decreases |dates|
  {
    var k := |dates| - 1;
    if n == k {
      r := LastDateTells(w, dates, tables, perDay, id);
    } else {
      ExportShrinks(w, dates, tables, perDay);
      DistinctFront(dates);
      var _ := OneDay(w, dates[k], perDay[k], id, dates[n]);
      r := RowsAreAnswers(w, dates[..k], Concat(perDay[..k]), perDay[..k], id, n);
      AppendTells(Concat(perDay[..k]), perDay[k], r, id, dates[n]);
    }
  }

  lemma {:induction false} OtherDates(
    w: Sweep, dates: seq<Date>,
    tables: Tables, perDay: seq<Tables>, id: string, d: Date)
    requires IsExport(w, dates, tables, perDay)
    requires forall i :: 0 <= i < |dates| ==> dates[i] != d
    ensures RowsSilent(tables, id, d)
    decreases |dates|
  {
    if dates != [] {
      var k := |dates| - 1;
      ExportShrinks(w, dates, tables, perDay);
      var before := Concat(perDay[..k]);
      var r := OneDay(w, dates[k], perDay[k], id, d);
      OtherDates(w, dates[..k], before, perDay[..k], id, d);
      AppendTells(before, perDay[k], r, id, d);
    }
  }

  /** The day table's key never collides. */
  lemma DayKeyIsUnique(w: Sweep, dates: seq<Date>, tables: Tables, perDay: seq<Tables>, id: string, d: Date)
    requires IsExport(w, dates, tables, perDay) && DistinctDates(dates)
    requires UniqueFacilities(w.fs) && UniqueRoster(w.roster)
    ensures DayRowCount(tables.days, id, d) <= 1
  {
    if n :| 0 <= n < |dates| && dates[n] == d {
      var r := RowsAreAnswers(w, dates, tables, perDay, id, n);
      AtMostOneStatus(w.Noon(d), w.fs, w.cal, w.roster, r, id);
    } else {
      OtherDates(w, dates, tables, perDay, id, d);
    }
  }

  /** A roster pool has, on each horizon date, session rows and no day row or one day row and no
      session rows - exactly when it is not silent that day. */
  lemma SessionsXorDayRow(w: Sweep, dates: seq<Date>, tables: Tables, perDay: seq<Tables>, row: RosterEntry, n: nat)
    requires IsExport(w, dates, tables, perDay) && DistinctDates(dates) && n < |dates|
    requires UniqueFacilities(w.fs) && UniqueRoster(w.roster) && RosterMatches(w.fs, w.roster) && row in w.roster
    ensures (HasSessionRow(tables.sessions, row.poolId, dates[n])
             <==> DayRowCount(tables.days, row.poolId, dates[n]) == 0)
            <==> !SilentPool(w.fs, dates[n], w.cal, row.poolId)
    ensures !SilentPool(w.fs, dates[n], w.cal, row.poolId) ==> DayRowCount(tables.days, row.poolId, dates[n]) <= 1
  {
    var r := RowsAreAnswers(w, dates, tables, perDay, row.poolId, n);
    PoolAccountedOnce(w.Noon(dates[n]), w.fs, w.cal, w.roster, r, row);
  }

  /** The exported dates, `days` of them starting today; day arithmetic is a parameter. */
  function Horizon(today: Date, days: nat, plus: (Date, int) -> Date): seq<Date> {
    seq(days, k => plus(today, k))
  }

  lemma HorizonIsDistinct(today: Date, days: nat, plus: (Date, int) -> Date)
    requires forall k :: plus(today, k).ordinal == today.ordinal + k
    ensures DistinctDates(Horizon(today, days, plus)) && |Horizon(today, days, plus)| == days
    ensures forall k :: 0 <= k < days ==> Horizon(today, days, plus)[k].ordinal == today.ordinal + k
  {
    var dates := Horizon(today, days, plus);
    forall i, j | 0 <= i < j < |dates| ensures dates[i] != dates[j] {
      assert dates[i].ordinal == today.ordinal + i && dates[j].ordinal == today.ordinal + j;
    }
  }
}
