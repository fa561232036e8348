/** Schedule primitives: time ranges, access arms, year-free windows, rules and resolved days. */
module Schedule {

  /** Monday is 0, as in `date.weekday()`. */
  type Weekday = d: int | 0 <= d < 7

  const SUNDAY: Weekday := 6

  /** A pair of instants, in minutes since midnight. */
  datatype Span = Span(start: int, end: int) {
    predicate Contains(t: int) { start <= t < end }
  }

  /** The source's constructor raises unless the start is before the end. */
  type TimeRange = s: Span | s.start < s.end witness Span(0, 1)

  predicate Overlaps(a: Span, b: Span) {
    a.start < b.end && b.start < a.end
  }

  lemma OverlapIsSharedInstant(a: TimeRange, b: TimeRange)
    ensures Overlaps(a, b) <==> exists t :: a.Contains(t) && b.Contains(t)
  {
    if Overlaps(a, b) {
      var t := if a.start < b.start then b.start else a.start;
      assert a.Contains(t) && b.Contains(t);
    }
  }

  /** Who a session or a lane is for; the arms a lane plan never emits are one constructor. */
  datatype Access = PublicSwim | SchoolReserved | ClubReserved(club: string) | OtherAccess(arm: string)

  // --- year-free calendar positions -------------------------------------------------

  function DaysInMonth(month: int): int {
    if month == 2 then 29 else if month in {4, 6, 9, 11} then 30 else 31
  }

  /** A year-free calendar has 366 days: only February is short of 30, and 31 come in the first seven
      months and the last five by turns. */
  lemma MonthLengths(month: int)
    requires 1 <= month <= 12
    ensures DaysInMonth(month) == 29 <==> month == 2
    ensures DaysInMonth(month) == 31 <==> (if month <= 7 then month % 2 == 1 else month % 2 == 0)
    ensures 29 <= DaysInMonth(month) <= 31
  {
  }

  datatype MonthDayValue = MonthDayValue(month: int, day: int) {
    predicate Valid() { 1 <= month <= 12 && 1 <= day <= DaysInMonth(month) }
  }

  type MonthDay = m: MonthDayValue | m.Valid() witness MonthDayValue(1, 1)

  /** A calendar date: its position in the year and its proleptic day number. */
  datatype Date = Date(year: int, monthDay: MonthDay, ordinal: int) {
    /** Day number 1 (0001-01-01) was a Monday. */
    function DayOfWeek(): Weekday { (ordinal + 6) % 7 }
  }

  datatype DatePrecision = ByDay | ByMonth

  predicate LexLeq(a: (int, int), b: (int, int)) {
    a.0 < b.0 || (a.0 == b.0 && a.1 <= b.1)
  }

  /** Inclusive membership on a cyclic axis: `start` above `end` wraps New Year. */
  predicate Within(key: (int, int), start: (int, int), end: (int, int)) {
    if LexLeq(start, end) then LexLeq(start, key) && LexLeq(key, end)
    else LexLeq(start, key) || LexLeq(key, end)
  }

  datatype AnnualWindow = AnnualWindow(start: MonthDay, end: MonthDay, precision: DatePrecision) {
    predicate Contains(d: Date) {
      match precision
      case ByMonth => Within((d.monthDay.month, 0), (start.month, 0), (end.month, 0))
      case ByDay =>
        Within((d.monthDay.month, d.monthDay.day), (start.month, start.day), (end.month, end.day))
    }
  }

  function WholeMonths(startMonth: int, endMonth: int): AnnualWindow
    requires 1 <= startMonth <= 12 && 1 <= endMonth <= 12
  {
    AnnualWindow(MonthDayValue(startMonth, 1), MonthDayValue(endMonth, DaysInMonth(endMonth)), ByMonth)
  }

  /** Days since 1 January on a calendar whose months all have 31 places. */
  ghost function Place(m: MonthDay): int { 31 * (m.month - 1) + m.day - 1 }

  /** A day-precise window holds a date iff walking forward from its start, round New Year if
      need be, meets the date no later than it meets its end. */
  lemma DayWindowIsForwardWalk(w: AnnualWindow, d: Date)
    requires w.precision == ByDay
    ensures w.Contains(d) <==>
            (Place(d.monthDay) - Place(w.start)) % 372 <= (Place(w.end) - Place(w.start)) % 372
  {
    var s, e, k := Place(w.start), Place(w.end), Place(d.monthDay);
    PlaceOrdersDays(w.start, w.end);
    PlaceOrdersDays(w.start, d.monthDay);
    PlaceOrdersDays(d.monthDay, w.end);
    assert (k - s) % 372 == if s <= k then k - s else k - s + 372;
    assert (e - s) % 372 == if s <= e then e - s else e - s + 372;
  }

  /** The same of months for a month-precise window: the days of its ends do not count. */
  lemma MonthWindowIsForwardWalk(w: AnnualWindow, d: Date)
    requires w.precision == ByMonth
    ensures w.Contains(d) <==> (d.monthDay.month - w.start.month) % 12 <= (w.end.month - w.start.month) % 12
  {
    var s, e, m := w.start.month, w.end.month, d.monthDay.month;
    assert (m - s) % 12 == if s <= m then m - s else m - s + 12;
    assert (e - s) % 12 == if s <= e then e - s else e - s + 12;
  }

  lemma PlaceOrdersDays(a: MonthDay, b: MonthDay)
    ensures LexLeq((a.month, a.day), (b.month, b.day)) <==> Place(a) <= Place(b)
    ensures 0 <= Place(a) < 372
  {
  }

  /** A published month range means whole months at either precision, wrapping New Year or not,
      and leap day included: the months met walking forward from the first to the last. */
  lemma WholeMonthsAtEitherPrecision(startMonth: int, endMonth: int, d: Date)
    requires 1 <= startMonth <= 12 && 1 <= endMonth <= 12
    ensures var w := WholeMonths(startMonth, endMonth);
            && w.Contains(d) == w.(precision := ByDay).Contains(d)
            && (w.Contains(d) <==> (d.monthDay.month - startMonth) % 12 <= (endMonth - startMonth) % 12)
  {
    var m := d.monthDay.month;
    assert (m - startMonth) % 12 == if startMonth <= m then m - startMonth else m - startMonth + 12;
    assert (endMonth - startMonth) % 12
        == if startMonth <= endMonth then endMonth - startMonth else endMonth - startMonth + 12;
  }
}
