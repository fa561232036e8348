/** The lane-plan compressor: the grid's columns merged across lanes, then across weekdays. */
module Compressor {
  import opened Prelude
  import opened Schedule
  import opened LanePlans
  import opened WeekGrid
  import opened OrderedDict
  import Sorting

  type Sections = Option<map<int, string>>

  function SectionOf(sections: Sections, lane: int): Option<string> {
    if sections.Some? && lane in sections.value then Some(sections.value[lane]) else None
  }

  /** The lane count in force: a ragged grid's own for the weekday, else the nominal one. */
  function LanesOn(g: Grid, wd: Weekday): nat {
    if g.lanesByWeekday.Some? && wd in g.lanesByWeekday.value then g.lanesByWeekday.value[wd] else g.laneCount
  }

  /** The weekday has this lane: of its own count where the grid gives one, else of the nominal one. */
  ghost predicate HasLane(g: Grid, wd: Weekday, lane: int) {
    && 1 <= lane
    && match g.lanesByWeekday
       case Some(counts) => if wd in counts then lane <= counts[wd] else lane <= g.laneCount
       case None => lane <= g.laneCount
  }

  lemma LanesOnHas(g: Grid, wd: Weekday, lane: int)
    ensures HasLane(g, wd, lane) <==> 1 <= lane <= LanesOn(g, wd)
  {
  }

  datatype BlockKey = BlockKey(span: TimeRange, access: Access, section: Option<string>)

  datatype RegionKey = RegionKey(block: BlockKey, lanes: set<int>)

  type Day = seq<Entry<BlockKey, int>>

  /** The lanes of one weekday whose run-length encoding has exactly this block. */
  ghost function LanesWithBlock(g: Grid, legend: Legend, sections: Sections, wd: Weekday, k: BlockKey): set<int> {
    set lane | 1 <= lane <= LanesOn(g, wd) && InColumn(g, legend, sections, wd, lane, k)
  }

  ghost predicate InColumn(g: Grid, legend: Legend, sections: Sections, wd: Weekday, lane: int, k: BlockKey) {
    SectionOf(sections, lane) == k.section && Run(k.span, k.access) in Runs(g, legend, wd, lane)
  }

  ghost function BlockOf(r: LaneReservation): BlockKey { BlockKey(r.time, r.access, r.section) }

  ghost function RegionOf(r: LaneReservation): RegionKey { RegionKey(BlockOf(r), r.lanes) }

  /** Reservations that are exactly the columns' runs, merged over lanes and then over weekdays
      as far as equal blocks allow. */
  ghost predicate Compresses(g: Grid, legend: Legend, sections: Sections, rs: seq<LaneReservation>) {
    && (forall i :: 0 <= i < |rs| ==> rs[i].weekdays != {} && rs[i].lanes != {})
    && (forall i, wd :: 0 <= i < |rs| && wd in rs[i].weekdays
          ==> rs[i].lanes == LanesWithBlock(g, legend, sections, wd, BlockOf(rs[i])))
    && (forall wd: Weekday, k :: LanesWithBlock(g, legend, sections, wd, k) != {}
          ==> exists i :: 0 <= i < |rs| && BlockOf(rs[i]) == k && wd in rs[i].weekdays)
    && (forall i, j :: 0 <= i < j < |rs| ==> RegionOf(rs[i]) != RegionOf(rs[j]))
  }

  // --- the order of the regions ------------------------------------------------------

  ghost function RunVisits(runs: seq<Run>, lane: int, section: Option<string>): seq<Keyed<BlockKey, int>> {
    if runs == [] then [] else
      var run := runs[|runs| - 1];
      RunVisits(runs[..|runs| - 1], lane, section) + [Keyed(BlockKey(run.span, run.access, section), lane)]
  }

  /** The blocks of one weekday as the scan meets them: lane by lane, each from the top down. */
  ghost function Visits(g: Grid, legend: Legend, sections: Sections, wd: Weekday, lanes: nat)
    : seq<Keyed<BlockKey, int>>
  {
    if lanes == 0 then [] else
      Visits(g, legend, sections, wd, lanes - 1)
      + RunVisits(Runs(g, legend, wd, lanes), lanes, SectionOf(sections, lanes))
  }

  ghost function DayRegions(g: Grid, legend: Legend, sections: Sections, wd: Weekday, ks: seq<BlockKey>)
    : seq<Keyed<RegionKey, Weekday>>
  {
    if ks == [] then [] else
      var k := ks[|ks| - 1];
      DayRegions(g, legend, sections, wd, ks[..|ks| - 1])
      + [Keyed(RegionKey(k, LanesWithBlock(g, legend, sections, wd, k)), wd)]
  }

  /** The regions as the days meet them: each day's blocks where that day first meets them. */
  ghost function RegionVisits(g: Grid, legend: Legend, sections: Sections, days: nat): seq<Keyed<RegionKey, Weekday>>
    requires days <= 7
  {
    if days == 0 then [] else
      var wd: Weekday := days - 1;
      RegionVisits(g, legend, sections, wd)
      + DayRegions(g, legend, sections, wd, KeysOf(Visits(g, legend, sections, wd, LanesOn(g, wd))))
  }

  ghost function RegionsOf(rs: seq<LaneReservation>): seq<RegionKey> {
    seq(|rs|, i requires 0 <= i < |rs| => RegionOf(rs[i]))
  }

  /** The reservations stand in the order in which the scan first meets their regions. */
  ghost predicate InScanOrder(g: Grid, legend: Legend, sections: Sections, rs: seq<LaneReservation>) {
    RegionsOf(rs) == KeysOf(RegionVisits(g, legend, sections, 7))
  }

  /** What compressing the grid gives: these reservations, in this order. */
  ghost predicate IsCompression(g: Grid, legend: Legend, sections: Sections, rs: seq<LaneReservation>) {
    Compresses(g, legend, sections, rs) && InScanOrder(g, legend, sections, rs)
  }

  lemma WeekdaysOfRegion(
    g: Grid, legend: Legend, sections: Sections, rs: seq<LaneReservation>, i: nat, wd: Weekday)
    requires Compresses(g, legend, sections, rs) && i < |rs|
    ensures wd in rs[i].weekdays <==> rs[i].lanes == LanesWithBlock(g, legend, sections, wd, BlockOf(rs[i]))
  {
    var k := BlockOf(rs[i]);
    if rs[i].lanes == LanesWithBlock(g, legend, sections, wd, k) {
      var j :| 0 <= j < |rs| && BlockOf(rs[j]) == k && wd in rs[j].weekdays;
      assert RegionOf(rs[i]) == RegionOf(rs[j]);
    }
  }

  lemma SameReservation(
    g: Grid, legend: Legend, sections: Sections, rs: seq<LaneReservation>, rs': seq<LaneReservation>, i: nat)
    requires Compresses(g, legend, sections, rs) && Compresses(g, legend, sections, rs')
    requires i < |rs| && i < |rs'| && RegionOf(rs[i]) == RegionOf(rs'[i])
    ensures rs[i] == rs'[i]
  {
    forall wd: Weekday ensures wd in rs[i].weekdays <==> wd in rs'[i].weekdays {
      WeekdaysOfRegion(g, legend, sections, rs, i, wd);
      WeekdaysOfRegion(g, legend, sections, rs', i, wd);
    }
    assert rs[i].weekdays == rs'[i].weekdays;
  }

  /** The grid determines its compression: there is one list of reservations in scan order. */
  lemma CompressionUnique(
    g: Grid, legend: Legend, sections: Sections, rs: seq<LaneReservation>, rs': seq<LaneReservation>)
    requires IsCompression(g, legend, sections, rs) && IsCompression(g, legend, sections, rs')
    ensures rs == rs'
  {
    assert |rs| == |RegionsOf(rs)| == |RegionsOf(rs')| == |rs'|;
    forall i | 0 <= i < |rs| ensures rs[i] == rs'[i] {
      assert RegionsOf(rs)[i] == RegionsOf(rs')[i];
      SameReservation(g, legend, sections, rs, rs', i);
    }
  }

  // --- what the compressed plan means -----------------------------------------------

  lemma HeldIsOwned(
    g: Grid, legend: Legend, sections: Sections, rs: seq<LaneReservation>, i: nat,
    wd: Weekday, lane: int, t: int, a: Access)
    requires Compresses(g, legend, sections, rs) && i < |rs| && Holds(rs[i], wd, lane, t, a)
    ensures 1 <= lane <= LanesOn(g, wd) && GridHolds(g, legend, wd, lane, t, a)
  {
    RunsMeanColumn(g, legend, wd, lane, t, a);
    assert lane in LanesWithBlock(g, legend, sections, wd, BlockOf(rs[i]));
  }

  lemma RunIsHeld(
    g: Grid, legend: Legend, sections: Sections, rs: seq<LaneReservation>,
    wd: Weekday, lane: int, t: int, run: Run)
    requires Compresses(g, legend, sections, rs) && 1 <= lane <= LanesOn(g, wd)
    requires run in Runs(g, legend, wd, lane) && run.span.Contains(t)
    ensures SomeHolds(rs, wd, lane, t, run.access)
  {
    var k := BlockKey(run.span, run.access, SectionOf(sections, lane));
    assert lane in LanesWithBlock(g, legend, sections, wd, k);
    var i :| 0 <= i < |rs| && BlockOf(rs[i]) == k && wd in rs[i].weekdays;
    assert Holds(rs[i], wd, lane, t, run.access);
  }

  /** Decompression: at every weekday, lane and instant, some reservation names an owner exactly
      when the dense grid does, and it is the same owner. */
  lemma CompressionMeansGrid(
    g: Grid, legend: Legend, sections: Sections, rs: seq<LaneReservation>, wd: Weekday, lane: int, t: int, a: Access)
    requires Compresses(g, legend, sections, rs)
    ensures SomeHolds(rs, wd, lane, t, a) <==> HasLane(g, wd, lane) && GridHolds(g, legend, wd, lane, t, a)
  {
    if SomeHolds(rs, wd, lane, t, a) {
      var i :| 0 <= i < |rs| && Holds(rs[i], wd, lane, t, a);
      HeldIsOwned(g, legend, sections, rs, i, wd, lane, t, a);
    }
    if 1 <= lane <= LanesOn(g, wd) && GridHolds(g, legend, wd, lane, t, a) {
      RunsMeanColumn(g, legend, wd, lane, t, a);
      var run :| run in Runs(g, legend, wd, lane) && run.span.Contains(t) && run.access == a;
      RunIsHeld(g, legend, sections, rs, wd, lane, t, run);
    }
  }

  ghost predicate SomeHolds(rs: seq<LaneReservation>, wd: Weekday, lane: int, t: int, a: Access) {
    exists i :: 0 <= i < |rs| && Holds(rs[i], wd, lane, t, a)
  }

  /** The reservations and the dense grid name the same owner at every weekday, lane and instant. */
  ghost predicate MeansGrid(rs: seq<LaneReservation>, g: Grid, legend: Legend) {
    forall wd: Weekday, lane, t, a ::
      SomeHolds(rs, wd, lane, t, a) <==> HasLane(g, wd, lane) && GridHolds(g, legend, wd, lane, t, a)
  }

  lemma CompressionMeansWholeGrid(g: Grid, legend: Legend, sections: Sections, rs: seq<LaneReservation>)
    requires Compresses(g, legend, sections, rs)
    ensures MeansGrid(rs, g, legend)
  {
    forall wd: Weekday, lane, t, a
      ensures SomeHolds(rs, wd, lane, t, a) <==> HasLane(g, wd, lane) && GridHolds(g, legend, wd, lane, t, a)
    {
      CompressionMeansGrid(g, legend, sections, rs, wd, lane, t, a);
    }
  }

  /** Every lane of a region carries that region's section label, and none where the sheet gives none. */
  lemma CompressionKeepsSections(
    g: Grid, legend: Legend, sections: Sections, rs: seq<LaneReservation>, i: nat, lane: int)
    requires Compresses(g, legend, sections, rs) && i < |rs| && lane in rs[i].lanes
    ensures rs[i].section == match sections
                             case Some(labels) => if lane in labels then Some(labels[lane]) else None
                             case None => None
  {
    var wd := Sorting.AnyOf(rs[i].weekdays);
    assert lane in LanesWithBlock(g, legend, sections, wd, BlockOf(rs[i]));
  }

  /** In no column of the grid do owned cells with overlapping slots differ in owner or in the span of
      the chain they lie in. */
  ghost predicate ColumnsClashFree(g: Grid, legend: Legend) {
    forall wd: Weekday, lane :: 1 <= lane <= LanesOn(g, wd) ==> CellsClashFree(g, legend, wd, lane)
  }

  /** Two regions that share a weekday and a lane of clash-free columns, and overlap, are one. */
  lemma ClashIsSameRegion(
    g: Grid, legend: Legend, sections: Sections, a: LaneReservation, b: LaneReservation, wd: Weekday, lane: int)
    requires RunsClashFree(Runs(g, legend, wd, lane))
    requires a.lanes == LanesWithBlock(g, legend, sections, wd, BlockOf(a))
    requires b.lanes == LanesWithBlock(g, legend, sections, wd, BlockOf(b))
    requires lane in a.lanes && lane in b.lanes && Overlaps(a.time, b.time)
    ensures RegionOf(a) == RegionOf(b)
  {
    assert Run(a.time, a.access) == Run(b.time, b.access);
  }

  lemma ClashFreePasses(g: Grid, legend: Legend, sections: Sections, rs: seq<LaneReservation>, laneCount: nat)
    requires Compresses(g, legend, sections, rs) && ColumnsClashFree(g, legend)
    requires forall wd: Weekday :: LanesOn(g, wd) <= laneCount
    ensures Invariants(rs, laneCount)
  {
    forall i | 0 <= i < |rs| ensures LanesWithin(rs[i], laneCount) {
      var wd := Sorting.AnyOf(rs[i].weekdays);
      assert LanesOn(g, wd) <= laneCount;
    }
    forall i, j | 0 <= i < j < |rs| ensures !Clash(rs[i], rs[j]) {
      forall wd, lane | wd in rs[i].weekdays && wd in rs[j].weekdays && lane in rs[i].lanes && lane in rs[j].lanes
        ensures !Overlaps(rs[i].time, rs[j].time)
      {
        ClashFreeExactly(g, legend, wd, lane);
        if Overlaps(rs[i].time, rs[j].time) {
          ClashIsSameRegion(g, legend, sections, rs[i], rs[j], wd, lane);
          assert false;
        }
      }
      if rs[i].weekdays * rs[j].weekdays != {} && rs[i].lanes * rs[j].lanes != {} {
        var wd := Sorting.AnyOf(rs[i].weekdays * rs[j].weekdays);
        var lane := Sorting.AnyOf(rs[i].lanes * rs[j].lanes);
        assert wd in rs[i].weekdays && wd in rs[j].weekdays && lane in rs[i].lanes && lane in rs[j].lanes;
      }
    }
  }

  lemma RegionOfRun(
    g: Grid, legend: Legend, sections: Sections, rs: seq<LaneReservation>, wd: Weekday, lane: int, x: Run)
    returns (i: nat)
    requires Compresses(g, legend, sections, rs)
    requires 1 <= lane <= LanesOn(g, wd) && x in Runs(g, legend, wd, lane)
    ensures i < |rs| && rs[i].time == x.span && rs[i].access == x.access
    ensures wd in rs[i].weekdays && lane in rs[i].lanes
  {
    var k := BlockKey(x.span, x.access, SectionOf(sections, lane));
    assert lane in LanesWithBlock(g, legend, sections, wd, k);
    i :| 0 <= i < |rs| && BlockOf(rs[i]) == k && wd in rs[i].weekdays;
  }

  lemma PassingIsClashFree(g: Grid, legend: Legend, sections: Sections, rs: seq<LaneReservation>, laneCount: nat)
    requires Compresses(g, legend, sections, rs) && Invariants(rs, laneCount)
    ensures ColumnsClashFree(g, legend)
  {
    forall wd: Weekday, lane | 1 <= lane <= LanesOn(g, wd) ensures CellsClashFree(g, legend, wd, lane) {
      var runs := Runs(g, legend, wd, lane);
      ClashFreeExactly(g, legend, wd, lane);
      forall x, y | x in runs && y in runs && x != y ensures !Overlaps(x.span, y.span) {
        var i := RegionOfRun(g, legend, sections, rs, wd, lane, x);
        var j := RegionOfRun(g, legend, sections, rs, wd, lane, y);
        OneHolder(rs, laneCount, i, j, wd, lane);
      }
    }
  }

  /** With no weekday wider than the plan, the compressor's output passes the parser's check exactly
      when, in every column of the grid, owned cells with overlapping slots have one owner and lie in
      chains of one span. */
  lemma PassesInvariantsExactly(
    g: Grid, legend: Legend, sections: Sections, rs: seq<LaneReservation>, laneCount: nat)
    requires Compresses(g, legend, sections, rs)
    requires forall wd: Weekday :: LanesOn(g, wd) <= laneCount
    ensures Invariants(rs, laneCount) <==> ColumnsClashFree(g, legend)
  {
    if ColumnsClashFree(g, legend) {
      ClashFreePasses(g, legend, sections, rs, laneCount);
    }
    if Invariants(rs, laneCount) {
      PassingIsClashFree(g, legend, sections, rs, laneCount);
    }
  }

  lemma DisjointSlotsClashFree(g: Grid, legend: Legend)
    requires DisjointSlots(g.slots)
    ensures ColumnsClashFree(g, legend)
  {
    forall wd: Weekday, lane | 1 <= lane <= LanesOn(g, wd) ensures CellsClashFree(g, legend, wd, lane) {
      RunsDisjoint(g, legend, wd, lane);
      ClashFreeExactly(g, legend, wd, lane);
    }
  }

  /** Over pairwise-disjoint slots it always passes. */
  lemma CompressionPassesInvariants(
    g: Grid, legend: Legend, sections: Sections, rs: seq<LaneReservation>, laneCount: nat)
    requires Compresses(g, legend, sections, rs)
    requires DisjointSlots(g.slots)
    requires forall wd: Weekday :: LanesOn(g, wd) <= laneCount
    ensures Invariants(rs, laneCount)
  {
    DisjointSlotsClashFree(g, legend);
    ClashFreePasses(g, legend, sections, rs, laneCount);
  }

  /** It does fail: two overlapping slots of one lane, held by the public and by a school. */
  lemma OverlappingSlotsAreRefused() returns (g: Grid, legend: Legend)
    ensures forall wd: Weekday :: LanesOn(g, wd) <= g.laneCount
    ensures !ColumnsClashFree(g, legend)
    ensures forall sections, rs :: Compresses(g, legend, sections, rs) ==> !Invariants(rs, g.laneCount)
  {
    g := Grid(map[Cell(0, 1, 0) := 1, Cell(0, 1, 1) := 2], [Span(0, 60), Span(30, 90)], 1, None);
    legend := map[1 := Some(PublicSwim), 2 := Some(SchoolReserved)];
    assert Owner(g, legend, 0, 1, 0) == Some(PublicSwim) && Owner(g, legend, 0, 1, 1) == Some(SchoolReserved);
    assert Overlaps(g.slots[0], g.slots[1]) && !SameChain(g, legend, 0, 1, 0, 1);
    assert !CellsClashFree(g, legend, 0, 1);
    forall sections, rs | Compresses(g, legend, sections, rs) ensures !Invariants(rs, g.laneCount) {
      PassesInvariantsExactly(g, legend, sections, rs, g.laneCount);
    }
  }

  // --- coverage ---------------------------------------------------------------------

  ghost function AllCells(g: Grid): set<Cell> {
    set wd: Weekday, lane, row | 0 <= wd < 7 && 1 <= lane <= LanesOn(g, wd) && 0 <= row < |g.slots|
      :: Cell(wd, lane, row)
  }

  /** A cell of the week: a lane its weekday has, in a row there is. */
  ghost predicate InWeek(g: Grid, c: Cell) {
    HasLane(g, c.weekday, c.lane) && 0 <= c.row < |g.slots|
  }

  lemma AllCellsAreTheWeek(g: Grid, c: Cell)
    ensures c in AllCells(g) <==> InWeek(g, c)
  {
    assert c == Cell(c.weekday, c.lane, c.row);
  }

  ghost function ResolvedCells(g: Grid, legend: Legend): set<Cell> {
    set c | c in AllCells(g) && Named(g, legend, c)
  }

  /** Every cell of the week carries a code for which the legend has an owner. */
  ghost predicate EveryCellNamed(g: Grid, legend: Legend) {
    forall c :: InWeek(g, c) ==> Named(g, legend, c)
  }

  /** Lanes touched by a code that names no owner. */
  ghost predicate LaneUnresolved(g: Grid, legend: Legend, lane: int) {
    exists wd: Weekday :: HasLane(g, wd, lane) && Unrecognised(g, legend, wd, lane, |g.slots|)
  }

  datatype Resolved = Resolved(
    reservations: seq<LaneReservation>, cellsTotal: nat, cellsResolved: nat, unresolvedLanes: set<int>)

  ghost predicate CountsCells(g: Grid, legend: Legend, r: Resolved) {
    && r.cellsTotal == |AllCells(g)|
    && r.cellsResolved == |ResolvedCells(g, legend)|
    && forall lane :: lane in r.unresolvedLanes <==> LaneUnresolved(g, legend, lane)
  }

  lemma SubsetSameSize<T>(a: set<T>, b: set<T>)
    requires a <= b && |a| == |b|
    ensures a == b
  {
    assert |b - a| == |b| - |a|;
    assert b == a + (b - a);
  }

  lemma SubsetSize<T>(a: set<T>, b: set<T>)
    requires a <= b
    ensures |a| <= |b|
  {
    assert b == a + (b - a);
  }

  /** Equal counts say that every cell has an owner, and so alone rule out an unresolved lane. */
  lemma EqualCountsAreComplete(g: Grid, legend: Legend, r: Resolved)
    requires CountsCells(g, legend, r)
    ensures r.cellsResolved <= r.cellsTotal
    ensures r.cellsResolved == r.cellsTotal <==> EveryCellNamed(g, legend)
    ensures r.cellsResolved == r.cellsTotal ==> r.unresolvedLanes == {}
  {
    var all, res := AllCells(g), ResolvedCells(g, legend);
    SubsetSize(res, all);
    if |res| == |all| {
      SubsetSameSize(res, all);
      forall lane ensures !LaneUnresolved(g, legend, lane) {
        forall wd: Weekday, row | HasLane(g, wd, lane) && 0 <= row < |g.slots|
          ensures Named(g, legend, Cell(wd, lane, row))
        {
          AllCellsAreTheWeek(g, Cell(wd, lane, row));
        }
      }
      Sorting.NoMembers(r.unresolvedLanes);
    }
    forall c ensures c in all <==> InWeek(g, c) {
      AllCellsAreTheWeek(g, c);
    }
    if EveryCellNamed(g, legend) {
      assert res == all;
    }
  }

  // --- the source's loops -----------------------------------------------------------

  /** The day's blocks once the columns of lanes `1..lanes` are in, plus `runs` of the next. */
  ghost predicate DayHolds(
    g: Grid, legend: Legend, sections: Sections, wd: Weekday, day: Day, lanes: nat, runs: seq<Run>)
  {
    && UniqueKeys(day) && NoEmpty(day)
    && forall k, lane :: Has(day, k, lane)
         <==> (1 <= lane <= lanes && InColumn(g, legend, sections, wd, lane, k))
              || (lane == lanes + 1 && SectionOf(sections, lane) == k.section && Run(k.span, k.access) in runs)
  }

  lemma RunAdded(
    g: Grid, legend: Legend, sections: Sections, wd: Weekday, day: Day, lane: nat, runs: seq<Run>, run: Run)
    requires lane >= 1 && DayHolds(g, legend, sections, wd, day, lane - 1, runs)
    ensures DayHolds(g, legend, sections, wd, Add(day, BlockKey(run.span, run.access, SectionOf(sections, lane)), lane),
                     lane - 1, runs + [run])
  {
    var key := BlockKey(run.span, run.access, SectionOf(sections, lane));
    forall k, other
      ensures Has(Add(day, key, lane), k, other)
          <==> (1 <= other <= lane - 1 && InColumn(g, legend, sections, wd, other, k))
               || (other == lane && SectionOf(sections, other) == k.section && Run(k.span, k.access) in runs + [run])
    {
      AddHas(day, key, lane, k, other);
      assert Run(k.span, k.access) in runs + [run] <==> Run(k.span, k.access) in runs || Run(k.span, k.access) == run;
    }
  }

  lemma ColumnAdded(
    g: Grid, legend: Legend, sections: Sections, wd: Weekday, day: Day, lane: nat)
    requires lane >= 1 && DayHolds(g, legend, sections, wd, day, lane - 1, Runs(g, legend, wd, lane))
    ensures DayHolds(g, legend, sections, wd, day, lane, [])
  {
  }

  /** The day's blocks stand where the scan of lanes `1..lanes` first met them. */
  ghost predicate DayOrdered(g: Grid, legend: Legend, sections: Sections, wd: Weekday, day: Day, lanes: nat) {
    KeyList(day) == KeysOf(Visits(g, legend, sections, wd, lanes))
  }

  lemma RunVisited(
    visited: seq<Keyed<BlockKey, int>>, day: Day, runs: seq<Run>, k: nat, lane: int, section: Option<string>)
    requires k < |runs| && KeyList(day) == KeysOf(visited + RunVisits(runs[..k], lane, section))
    ensures KeyList(Add(day, BlockKey(runs[k].span, runs[k].access, section), lane))
         == KeysOf(visited + RunVisits(runs[..k + 1], lane, section))
  {
    var visit := Keyed(BlockKey(runs[k].span, runs[k].access, section), lane);
    AddKeepsOrder(day, visited + RunVisits(runs[..k], lane, section), visit.key, lane);
    assert runs[..k + 1][..k] == runs[..k];
    assert visited + RunVisits(runs[..k + 1], lane, section)
        == visited + RunVisits(runs[..k], lane, section) + [visit];
  }

  method AddColumn(g: Grid, legend: Legend, sections: Sections, wd: Weekday, lane: nat, runs: seq<Run>, day: Day)
    returns (day': Day)
    requires lane >= 1 && DayHolds(g, legend, sections, wd, day, lane - 1, [])
    requires DayOrdered(g, legend, sections, wd, day, lane - 1)
    requires runs == Runs(g, legend, wd, lane)
    ensures DayHolds(g, legend, sections, wd, day', lane, []) && DayOrdered(g, legend, sections, wd, day', lane)
  {
    day' := day;
    ghost var visited := Visits(g, legend, sections, wd, lane - 1);
    assert visited + RunVisits(runs[..0], lane, SectionOf(sections, lane)) == visited;
    for k := 0 to |runs|
      invariant DayHolds(g, legend, sections, wd, day', lane - 1, runs[..k])
      invariant KeyList(day') == KeysOf(visited + RunVisits(runs[..k], lane, SectionOf(sections, lane)))
    {
      RunAdded(g, legend, sections, wd, day', lane, runs[..k], runs[k]);
      RunVisited(visited, day', runs, k, lane, SectionOf(sections, lane));
      assert runs[..k + 1] == runs[..k] + [runs[k]];
      day' := Add(day', BlockKey(runs[k].span, runs[k].access, SectionOf(sections, lane)), lane);
    }
    assert runs[..|runs|] == runs;
    ColumnAdded(g, legend, sections, wd, day', lane);
  }

  lemma DayEntries(g: Grid, legend: Legend, sections: Sections, wd: Weekday, day: Day, i: nat)
    requires DayHolds(g, legend, sections, wd, day, LanesOn(g, wd), []) && i < |day|
    ensures day[i].members == LanesWithBlock(g, legend, sections, wd, day[i].key) != {}
  {
    forall lane ensures lane in day[i].members <==> lane in LanesWithBlock(g, legend, sections, wd, day[i].key) {
      assert Has(day, day[i].key, lane) <==> lane in day[i].members;
    }
  }

  /** The regions once the days before `days` and the first `n` blocks of that day are in. */
  ghost predicate RegionsHold(perDay: seq<Day>, merged: seq<Entry<RegionKey, Weekday>>, days: nat, n: nat)
    requires |perDay| == 7 && days <= 7 && (if days < 7 then n <= |perDay[days]| else n == 0)
  {
    && UniqueKeys(merged) && NoEmpty(merged)
    && forall k, wd: Weekday :: Has(merged, k, wd)
         <==> (wd < days && Entry(k.block, k.lanes) in perDay[wd])
              || (wd == days && Entry(k.block, k.lanes) in perDay[wd][..n])
  }

  lemma MergeStep(perDay: seq<Day>, merged: seq<Entry<RegionKey, Weekday>>, wd: Weekday, n: nat)
    requires |perDay| == 7 && n < |perDay[wd]| && RegionsHold(perDay, merged, wd, n)
    ensures RegionsHold(perDay, Add(merged, RegionKey(perDay[wd][n].key, perDay[wd][n].members), wd), wd, n + 1)
  {
    var day := perDay[wd];
    var key := RegionKey(day[n].key, day[n].members);
    forall k, wd': Weekday
      ensures Has(Add(merged, key, wd), k, wd')
          <==> (wd' < wd && Entry(k.block, k.lanes) in perDay[wd'])
               || (wd' == wd && Entry(k.block, k.lanes) in day[..n + 1])
    {
      AddHas(merged, key, wd, k, wd');
      assert day[..n + 1] == day[..n] + [day[n]];
      assert k == key <==> Entry(k.block, k.lanes) == day[n];
    }
  }

  ghost function BlockVisits(day: Day, wd: Weekday): seq<Keyed<RegionKey, Weekday>> {
    if day == [] then [] else
      BlockVisits(day[..|day| - 1], wd) + [Keyed(RegionKey(day[|day| - 1].key, day[|day| - 1].members), wd)]
  }

  ghost function WeekVisits(perDay: seq<Day>): seq<Keyed<RegionKey, Weekday>>
    requires |perDay| <= 7
  {
    if perDay == [] then [] else
      WeekVisits(perDay[..|perDay| - 1]) + BlockVisits(perDay[|perDay| - 1], |perDay| - 1)
  }

  lemma BlockVisited(
    visited: seq<Keyed<RegionKey, Weekday>>, merged: seq<Entry<RegionKey, Weekday>>, day: Day, wd: Weekday, n: nat)
    requires n < |day| && KeyList(merged) == KeysOf(visited + BlockVisits(day[..n], wd))
    ensures KeyList(Add(merged, RegionKey(day[n].key, day[n].members), wd))
         == KeysOf(visited + BlockVisits(day[..n + 1], wd))
  {
    var visit := Keyed(RegionKey(day[n].key, day[n].members), wd);
    AddKeepsOrder(merged, visited + BlockVisits(day[..n], wd), visit.key, wd);
    assert day[..n + 1][..n] == day[..n];
    assert visited + BlockVisits(day[..n + 1], wd) == visited + BlockVisits(day[..n], wd) + [visit];
  }

  method MergeDays(perDay: seq<Day>) returns (merged: seq<Entry<RegionKey, Weekday>>)
    requires |perDay| == 7
    ensures RegionsHold(perDay, merged, 7, 0) && KeyList(merged) == KeysOf(WeekVisits(perDay))
  {
    merged := [];
    assert perDay[0][..0] == [];
    for wd := 0 to 7
      invariant RegionsHold(perDay, merged, wd, 0) && KeyList(merged) == KeysOf(WeekVisits(perDay[..wd]))
    {
      var day := perDay[wd];
      assert WeekVisits(perDay[..wd]) + BlockVisits(day[..0], wd) == WeekVisits(perDay[..wd]);
      for n := 0 to |day|
        invariant RegionsHold(perDay, merged, wd, n)
        invariant KeyList(merged) == KeysOf(WeekVisits(perDay[..wd]) + BlockVisits(day[..n], wd))
      {
        MergeStep(perDay, merged, wd, n);
        BlockVisited(WeekVisits(perDay[..wd]), merged, day, wd, n);
        merged := Add(merged, RegionKey(day[n].key, day[n].members), wd);
      }
      assert day[..|day|] == day && perDay[..wd + 1][..wd] == perDay[..wd];
      assert wd + 1 < 7 ==> perDay[wd + 1][..0] == [];
    }
    assert perDay[..7] == perDay;
  }

  lemma {:induction false} BlocksAreRegions(
    g: Grid, legend: Legend, sections: Sections, wd: Weekday, day: Day, n: nat)
    requires DayHolds(g, legend, sections, wd, day, LanesOn(g, wd), []) && n <= |day|
    ensures BlockVisits(day[..n], wd) == DayRegions(g, legend, sections, wd, KeyList(day)[..n])
  {
    if n > 0 {
      BlocksAreRegions(g, legend, sections, wd, day, n - 1);
      DayEntries(g, legend, sections, wd, day, n - 1);
      assert day[..n][..n - 1] == day[..n - 1] && KeyList(day)[..n][..n - 1] == KeyList(day)[..n - 1];
    }
  }

  ghost predicate DayResolved(g: Grid, legend: Legend, sections: Sections, wd: Weekday, day: Day) {
    && DayHolds(g, legend, sections, wd, day, LanesOn(g, wd), [])
    && DayOrdered(g, legend, sections, wd, day, LanesOn(g, wd))
  }

  ghost predicate WeekResolved(g: Grid, legend: Legend, sections: Sections, perDay: seq<Day>) {
    |perDay| <= 7 && forall wd: Weekday :: wd < |perDay| ==> DayResolved(g, legend, sections, wd, perDay[wd])
  }

  lemma {:induction false} WeekIsRegions(g: Grid, legend: Legend, sections: Sections, perDay: seq<Day>)
    requires WeekResolved(g, legend, sections, perDay)
    ensures WeekVisits(perDay) == RegionVisits(g, legend, sections, |perDay|)
  {
    if perDay != [] {
      var wd: Weekday := |perDay| - 1;
      WeekIsRegions(g, legend, sections, perDay[..wd]);
      BlocksAreRegions(g, legend, sections, wd, perDay[wd], |perDay[wd]|);
      assert perDay[wd][..|perDay[wd]|] == perDay[wd];
      assert KeyList(perDay[wd])[..|perDay[wd]|] == KeyList(perDay[wd]);
    }
  }

  lemma RegionsCompress(
    g: Grid, legend: Legend, sections: Sections, perDay: seq<Day>,
    merged: seq<Entry<RegionKey, Weekday>>, rs: seq<LaneReservation>)
    requires |perDay| == 7 && RegionsHold(perDay, merged, 7, 0)
    requires forall wd: Weekday :: DayHolds(g, legend, sections, wd, perDay[wd], LanesOn(g, wd), [])
    requires Emitted(merged, rs)
    ensures Compresses(g, legend, sections, rs)
  {
    forall i, wd | 0 <= i < |rs| && wd in rs[i].weekdays
      ensures rs[i].lanes == LanesWithBlock(g, legend, sections, wd, BlockOf(rs[i])) != {}
    {
      assert Has(merged, RegionOf(rs[i]), wd);
      var p :| 0 <= p < |perDay[wd]| && perDay[wd][p] == Entry(BlockOf(rs[i]), rs[i].lanes);
      DayEntries(g, legend, sections, wd, perDay[wd], p);
    }
    forall i | 0 <= i < |rs| ensures rs[i].weekdays != {} && rs[i].lanes != {} {
      var wd := Sorting.AnyOf(rs[i].weekdays);
      assert wd in rs[i].weekdays;
    }
    forall wd: Weekday, k | LanesWithBlock(g, legend, sections, wd, k) != {}
      ensures exists i :: 0 <= i < |rs| && BlockOf(rs[i]) == k && wd in rs[i].weekdays
    {
      var lane := Sorting.AnyOf(LanesWithBlock(g, legend, sections, wd, k));
      assert Has(perDay[wd], k, lane);
      var p :| 0 <= p < |perDay[wd]| && perDay[wd][p].key == k && lane in perDay[wd][p].members;
      var region := RegionKey(k, perDay[wd][p].members);
      assert Entry(region.block, region.lanes) == perDay[wd][p];
      assert Has(merged, region, wd);
      var i :| 0 <= i < |merged| && merged[i].key == region && wd in merged[i].members;
      assert BlockOf(rs[i]) == k;
    }
  }

  lemma WeekCompressed(
    g: Grid, legend: Legend, sections: Sections, perDay: seq<Day>,
    merged: seq<Entry<RegionKey, Weekday>>, rs: seq<LaneReservation>)
    requires |perDay| == 7 && RegionsHold(perDay, merged, 7, 0) && KeyList(merged) == KeysOf(WeekVisits(perDay))
    requires WeekResolved(g, legend, sections, perDay) && Emitted(merged, rs)
    ensures IsCompression(g, legend, sections, rs)
  {
    RegionsCompress(g, legend, sections, perDay, merged, rs);
    WeekIsRegions(g, legend, sections, perDay);
    assert RegionsOf(rs) == KeyList(merged);
  }

  ghost function CellsBefore(cells: set<Cell>, wd: int, lane: int): set<Cell> {
    set c | c in cells && (c.weekday < wd || (c.weekday == wd && c.lane < lane))
  }

  ghost predicate FlaggedBefore(g: Grid, legend: Legend, x: int, wd: int, lane: int) {
    exists w: Weekday :: (w < wd || (w == wd && x < lane)) && 1 <= x <= LanesOn(g, w)
                         && Unrecognised(g, legend, w, x, |g.slots|)
  }

  lemma ColumnCells(g: Grid, legend: Legend, wd: Weekday, lane: int)
    requires 1 <= lane <= LanesOn(g, wd)
    ensures |CellsBefore(ResolvedCells(g, legend), wd, lane + 1)|
            == |CellsBefore(ResolvedCells(g, legend), wd, lane)| + |ResolvedInColumn(g, legend, wd, lane, |g.slots|)|
  {
    var cells := ResolvedCells(g, legend);
    var column := ResolvedInColumn(g, legend, wd, lane, |g.slots|);
    forall c ensures c in CellsBefore(cells, wd, lane + 1) <==> c in CellsBefore(cells, wd, lane) || c in column {
      if c in cells && c.weekday == wd && c.lane == lane {
        assert c == Cell(wd, lane, c.row);
      }
    }
    assert CellsBefore(cells, wd, lane + 1) == CellsBefore(cells, wd, lane) + column;
    assert CellsBefore(cells, wd, lane) !! column;
  }

  ghost function ColumnOf(wd: Weekday, lane: int, rows: nat): set<Cell> {
    set row | 0 <= row < rows :: Cell(wd, lane, row)
  }

  lemma {:induction false} ColumnSize(wd: Weekday, lane: int, rows: nat)
    ensures |ColumnOf(wd, lane, rows)| == rows
  {
    if rows > 0 {
      ColumnSize(wd, lane, rows - 1);
      assert ColumnOf(wd, lane, rows) == ColumnOf(wd, lane, rows - 1) + {Cell(wd, lane, rows - 1)};
    }
  }

  lemma OneMoreColumn(g: Grid, wd: Weekday, lane: int)
    requires 1 <= lane <= LanesOn(g, wd)
    ensures |CellsBefore(AllCells(g), wd, lane + 1)| == |CellsBefore(AllCells(g), wd, lane)| + |g.slots|
  {
    var all, column := AllCells(g), ColumnOf(wd, lane, |g.slots|);
    ColumnSize(wd, lane, |g.slots|);
    forall c ensures c in CellsBefore(all, wd, lane + 1) <==> c in CellsBefore(all, wd, lane) || c in column {
      if c in all && c.weekday == wd && c.lane == lane {
        assert c == Cell(wd, lane, c.row);
      }
    }
    assert CellsBefore(all, wd, lane + 1) == CellsBefore(all, wd, lane) + column;
    assert CellsBefore(all, wd, lane) !! column;
  }

  lemma {:induction false} DaySize(g: Grid, wd: Weekday, lane: nat)
    requires 1 <= lane <= LanesOn(g, wd) + 1
    ensures |CellsBefore(AllCells(g), wd, lane)|
            == |CellsBefore(AllCells(g), wd, 1)| + |g.slots| * (lane - 1)
  {
    if lane > 1 {
      DaySize(g, wd, lane - 1);
      OneMoreColumn(g, wd, lane - 1);
      assert |g.slots| * (lane - 1) == |g.slots| * (lane - 2) + |g.slots|;
    }
  }

  /** Past its last lane, a weekday is done. */
  lemma NextDay(g: Grid, cells: set<Cell>, wd: Weekday)
    requires cells <= AllCells(g)
    ensures CellsBefore(cells, wd, LanesOn(g, wd) + 1) == CellsBefore(cells, wd + 1, 1)
  {
  }

  method CellsTotal(g: Grid) returns (total: nat)
    ensures total == |AllCells(g)|
  {
    var lanes := 0;
    assert CellsBefore(AllCells(g), 0, 1) == {};
    for wd := 0 to 7
      invariant |CellsBefore(AllCells(g), wd, 1)| == |g.slots| * lanes
    {
      DaySize(g, wd, LanesOn(g, wd) + 1);
      NextDay(g, AllCells(g), wd);
      assert |g.slots| * (lanes + LanesOn(g, wd)) == |g.slots| * lanes + |g.slots| * LanesOn(g, wd);
      lanes := lanes + LanesOn(g, wd);
    }
    assert CellsBefore(AllCells(g), 7, 1) == AllCells(g);
    total := |g.slots| * lanes;
  }

  ghost predicate Emitted(merged: seq<Entry<RegionKey, Weekday>>, rs: seq<LaneReservation>) {
    |rs| == |merged|
    && forall i :: 0 <= i < |rs| ==> RegionOf(rs[i]) == merged[i].key && rs[i].weekdays == merged[i].members
  }

  method Emit(merged: seq<Entry<RegionKey, Weekday>>) returns (rs: seq<LaneReservation>)
    ensures Emitted(merged, rs)
  {
    rs := [];
    for i := 0 to |merged|
      invariant |rs| == i
      invariant forall j :: 0 <= j < i ==> RegionOf(rs[j]) == merged[j].key && rs[j].weekdays == merged[j].members
    {
      var k := merged[i].key;
      rs := rs + [LaneReservation(merged[i].members, k.block.span, k.lanes, k.block.access, k.block.section)];
    }
  }

  ghost predicate Flags(g: Grid, legend: Legend, flagged: set<int>, wd: int, lane: int) {
    forall x :: x in flagged <==> FlaggedBefore(g, legend, x, wd, lane)
  }

  lemma FlagStep(g: Grid, legend: Legend, flagged: set<int>, wd: Weekday, lane: int)
    requires 1 <= lane <= LanesOn(g, wd) && Flags(g, legend, flagged, wd, lane)
    ensures var more := if Unrecognised(g, legend, wd, lane, |g.slots|) then {lane} else {};
      Flags(g, legend, flagged + more, wd, lane + 1)
  {
    forall x ensures FlaggedBefore(g, legend, x, wd, lane + 1)
                <==> FlaggedBefore(g, legend, x, wd, lane)
                     || (x == lane && Unrecognised(g, legend, wd, lane, |g.slots|)) {
    }
  }

  lemma FlagNextDay(g: Grid, legend: Legend, flagged: set<int>, wd: Weekday)
    requires Flags(g, legend, flagged, wd, LanesOn(g, wd) + 1)
    ensures Flags(g, legend, flagged, wd + 1, 1)
  {
    var next, past := wd + 1, LanesOn(g, wd) + 1;
    forall x ensures FlaggedBefore(g, legend, x, wd, past) <==> FlaggedBefore(g, legend, x, next, 1) {
    }
  }

  /** The counts once the days before `wd` and the lanes before `lane` of that day are in. */
  ghost predicate Counted(g: Grid, legend: Legend, wd: int, lane: int, total: nat, flagged: set<int>) {
    total == |CellsBefore(ResolvedCells(g, legend), wd, lane)| && Flags(g, legend, flagged, wd, lane)
  }

  lemma LaneCounted(
    g: Grid, legend: Legend, wd: Weekday, lane: int, total: nat, flagged: set<int>, resolved: nat, unresolved: bool)
    requires 1 <= lane <= LanesOn(g, wd) && Counted(g, legend, wd, lane, total, flagged)
    requires resolved == |ResolvedInColumn(g, legend, wd, lane, |g.slots|)|
    requires unresolved <==> Unrecognised(g, legend, wd, lane, |g.slots|)
    ensures Counted(g, legend, wd, lane + 1, total + resolved, if unresolved then flagged + {lane} else flagged)
  {
    ColumnCells(g, legend, wd, lane);
    FlagStep(g, legend, flagged, wd, lane);
    assert flagged + {} == flagged;
  }

  lemma DayCounted(g: Grid, legend: Legend, wd: Weekday, total: nat, flagged: set<int>)
    requires Counted(g, legend, wd, LanesOn(g, wd) + 1, total, flagged)
    ensures Counted(g, legend, wd + 1, 1, total, flagged)
  {
    NextDay(g, ResolvedCells(g, legend), wd);
    FlagNextDay(g, legend, flagged, wd);
  }

  method ResolveDay(
    g: Grid, legend: Legend, sections: Sections, wd: Weekday, resolvedBefore: nat, flaggedBefore: set<int>)
    returns (day: Day, resolvedTotal: nat, flagged: set<int>)
    requires Counted(g, legend, wd, 1, resolvedBefore, flaggedBefore)
    ensures DayResolved(g, legend, sections, wd, day)
    ensures Counted(g, legend, wd + 1, 1, resolvedTotal, flagged)
  {
    day, resolvedTotal, flagged := [], resolvedBefore, flaggedBefore;
    for lane := 1 to LanesOn(g, wd) + 1
      invariant DayHolds(g, legend, sections, wd, day, lane - 1, [])
      invariant DayOrdered(g, legend, sections, wd, day, lane - 1)
      invariant Counted(g, legend, wd, lane, resolvedTotal, flagged)
    {
      var runs, resolved, unresolved := ColumnRuns(g, legend, wd, lane);
      LaneCounted(g, legend, wd, lane, resolvedTotal, flagged, resolved, unresolved);
      resolvedTotal := resolvedTotal + resolved;
      if unresolved {
        flagged := flagged + {lane};
      }
      day := AddColumn(g, legend, sections, wd, lane, runs, day);
    }
    DayCounted(g, legend, wd, resolvedTotal, flagged);
  }

  lemma AllFlagged(g: Grid, legend: Legend, flagged: set<int>)
    requires Flags(g, legend, flagged, 7, 1)
    ensures forall lane :: lane in flagged <==> LaneUnresolved(g, legend, lane)
  {
    forall x ensures FlaggedBefore(g, legend, x, 7, 1) <==> LaneUnresolved(g, legend, x) {
    }
  }

  lemma OneDayMore(g: Grid, legend: Legend, sections: Sections, perDay: seq<Day>, day: Day)
    requires |perDay| < 7 && WeekResolved(g, legend, sections, perDay)
    requires DayResolved(g, legend, sections, |perDay|, day)
    ensures WeekResolved(g, legend, sections, perDay + [day])
  {
    var longer := perDay + [day];
    forall wd: Weekday | wd < |longer| ensures DayResolved(g, legend, sections, wd, longer[wd]) {
      assert wd < |perDay| ==> longer[wd] == perDay[wd];
    }
  }

  method Resolve(g: Grid, legend: Legend, sections: Sections) returns (r: Resolved)
    ensures IsCompression(g, legend, sections, r.reservations) && MeansGrid(r.reservations, g, legend)
    ensures CountsCells(g, legend, r)
  {
    var perDay: seq<Day> := [];
    var resolvedTotal := 0;
    var unresolvedLanes: set<int> := {};
    assert CellsBefore(ResolvedCells(g, legend), 0, 1) == {};
    for wd := 0 to 7
      invariant |perDay| == wd && WeekResolved(g, legend, sections, perDay)
      invariant Counted(g, legend, wd, 1, resolvedTotal, unresolvedLanes)
    {
      var day: Day;
      day, resolvedTotal, unresolvedLanes := ResolveDay(g, legend, sections, wd, resolvedTotal, unresolvedLanes);
      OneDayMore(g, legend, sections, perDay, day);
      perDay := perDay + [day];
    }
    assert CellsBefore(ResolvedCells(g, legend), 7, 1) == ResolvedCells(g, legend);
    var merged := MergeDays(perDay);
    var rs := Emit(merged);
    WeekCompressed(g, legend, sections, perDay, merged, rs);
    CompressionMeansWholeGrid(g, legend, sections, rs);
    var total := CellsTotal(g);
    r := Resolved(rs, total, resolvedTotal, unresolvedLanes);
    AllFlagged(g, legend, unresolvedLanes);
  }

  // --- the parser's check and the plan ----------------------------------------------

  datatype InvariantError = LanesOutside(lanes: set<int>) | OverlappingLanes(lanes: set<int>)

  /** The first offence in scan order: lanes out of range first, then clashing pairs. */
  ghost predicate FirstOffence(rs: seq<LaneReservation>, laneCount: nat, e: InvariantError) {
    match e
    case LanesOutside(bad) =>
      exists i :: 0 <= i < |rs| && !LanesWithin(rs[i], laneCount)
                  && (forall lane :: lane in bad <==> lane in rs[i].lanes && !(1 <= lane <= laneCount))
                  && (forall p :: 0 <= p < i ==> LanesWithin(rs[p], laneCount))
    case OverlappingLanes(clash) =>
      && (forall i :: 0 <= i < |rs| ==> LanesWithin(rs[i], laneCount))
      && (exists i, j :: 0 <= i < j < |rs| && Clash(rs[i], rs[j]) && clash == rs[i].lanes * rs[j].lanes
                         && (forall p, q :: 0 <= p < i && p < q < |rs| ==> !Clash(rs[p], rs[q]))
                         && (forall q :: i < q < j ==> !Clash(rs[i], rs[q])))
  }

  method CheckInvariants(rs: seq<LaneReservation>, laneCount: nat) returns (e: Option<InvariantError>)
    ensures e.None? <==> Invariants(rs, laneCount)
    ensures e.Some? ==> FirstOffence(rs, laneCount, e.value)
  {
    for i := 0 to |rs|
      invariant forall p :: 0 <= p < i ==> LanesWithin(rs[p], laneCount)
    {
      var bad := set lane | lane in rs[i].lanes && !(1 <= lane <= laneCount);
      if bad != {} {
        assert Sorting.AnyOf(bad) in rs[i].lanes;
        return Some(LanesOutside(bad));
      }
      assert forall lane :: lane in rs[i].lanes && !(1 <= lane <= laneCount) ==> lane in bad;
    }
    for i := 0 to |rs|
      invariant forall p, q :: 0 <= p < i && p < q < |rs| ==> !Clash(rs[p], rs[q])
    {
      for j := i + 1 to |rs|
        invariant forall q :: i < q < j ==> !Clash(rs[i], rs[q])
      {
        if Clash(rs[i], rs[j]) {
          return Some(OverlappingLanes(rs[i].lanes * rs[j].lanes));
        }
      }
    }
    return None;
  }

  /** The plan and its coverage; complete exactly when every cell of the grid has an owner. */
  function PlanOf(r: Resolved, laneCount: nat, validFrom: Option<int>, lanesByWeekday: Option<map<Weekday, nat>>)
    : LanePlan
  {
    var complete := r.cellsResolved == r.cellsTotal && r.unresolvedLanes == {};
    LanePlan(laneCount, r.reservations, validFrom,
             PlanCoverage(if complete then Complete else Partial, r.cellsTotal, r.cellsResolved, r.unresolvedLanes),
             None, lanesByWeekday)
  }

  /** Everything a stored plan says of its grid: who holds what, and how much of it could be read. */
  ghost predicate IsPlanOf(p: LanePlan, g: Grid, legend: Legend, sections: Sections, validFrom: Option<int>) {
    && IsCompression(g, legend, sections, p.reservations) && MeansGrid(p.reservations, g, legend)
    && p.laneCount == g.laneCount && p.lanesByWeekday == g.lanesByWeekday
    && p.validFrom == validFrom && p.fetchedAt == None
    && p.coverage.cellsTotal == |AllCells(g)| && p.coverage.cellsResolved == |ResolvedCells(g, legend)|
    && (forall lane :: lane in p.coverage.unresolvedLanes <==> LaneUnresolved(g, legend, lane))
    && (p.coverage.confidence.Complete? <==> EveryCellNamed(g, legend))
  }

  lemma CompleteMeansEveryCell(g: Grid, legend: Legend, sections: Sections, r: Resolved, validFrom: Option<int>)
    requires CountsCells(g, legend, r)
    requires IsCompression(g, legend, sections, r.reservations) && MeansGrid(r.reservations, g, legend)
    ensures IsPlanOf(PlanOf(r, g.laneCount, validFrom, g.lanesByWeekday), g, legend, sections, validFrom)
  {
    EqualCountsAreComplete(g, legend, r);
  }
}
