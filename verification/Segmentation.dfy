/** Segmenting a page into the dense grid, and the whole single-basin parse built on it. */
module Segmentation {
  import opened Prelude
  import opened Schedule
  import opened Sorting
  import opened Clustering
  import opened WeekGrid
  import opened Geometry
  import opened LanePlans
  import opened Compressor

  // --- the uniform rectangle --------------------------------------------------------

  ghost function UniformKeyOf(columns: seq<real>, rows: seq<real>, lanes: nat): CellWord -> Cell
    requires columns != [] && rows != [] && lanes > 0 && |columns| <= 7 * lanes
  {
    (w: CellWord) => UniformKey(w, columns, rows, lanes)
  }

  method UniformGrid(
    words: seq<CellWord>, columns: seq<real>, rows: seq<real>, slots: seq<TimeRange>, lanes: nat)
    returns (g: Grid)
    requires columns != [] && rows != [] && lanes > 0 && |columns| <= 7 * lanes
    ensures g.slots == slots && g.laneCount == lanes && g.lanesByWeekday == None
    ensures LastWordWins(g.codes, words, UniformKeyOf(columns, rows, lanes))
  {
    var codes: map<Cell, int> := map[];
    ghost var key := UniformKeyOf(columns, rows, lanes);
    for i := 0 to |words|
      invariant LastWordWins(codes, words[..i], key)
    {
      var w := words[i];
      var at := ColumnKey(Nearest(w.x, columns), lanes);
      LastWordStep(codes, words[..i], w, key);
      assert words[..i + 1] == words[..i] + [w];
      codes := codes[Cell(at.0, at.1, Nearest(w.top, rows)) := w.code];
    }
    assert words[..|words|] == words;
    g := Grid(codes, slots, lanes, None);
  }

  /** When no column or row cluster is wider than its tolerance, a word goes to the weekday and
      lane of its own column cluster and to its own row cluster: clusters and grid cells are in
      one-to-one correspondence. */
  lemma UniformGridIsFaithful(
    w: CellWord, cols: Groups, rows: Groups, spec: GridSpec, lanes: nat, i: nat, j: nat)
    requires lanes > 0 && |cols| == 7 * lanes && spec.xTol >= 0.0 && spec.yTol >= 0.0
    requires Separated(cols, spec.xTol) && Separated(rows, spec.yTol)
    requires i < |cols| && j < |rows| && w.x in cols[i] && w.top in rows[j]
    requires Spread(cols[i], spec.xTol) && Spread(rows[j], spec.yTol)
    ensures UniformKey(w, Centres(cols), Centres(rows), lanes)
         == Cell(ColumnKey(i, lanes).0, ColumnKey(i, lanes).1, j)
  {
    NearestIsOwnCluster(cols, spec.xTol, i, w.x);
    NearestIsOwnCluster(rows, spec.yTol, j, w.top);
  }

  // --- the ragged grid --------------------------------------------------------------

  datatype Column = Column(centre: real, support: nat)

  datatype Header = Header(laneCount: nat, gridXMin: real, gridXMax: real, weekdayCentres: seq<real>)

  ghost function Mass(c: Column): real { c.centre * (c.support as real) }

  ghost function Weight(columns: seq<Column>): real {
    if columns == [] then 0.0 else Weight(columns[..|columns| - 1]) + Mass(columns[|columns| - 1])
  }

  ghost function Support(columns: seq<Column>): nat {
    if columns == [] then 0 else Support(columns[..|columns| - 1]) + columns[|columns| - 1].support
  }

  ghost predicate Supported(columns: seq<Column>) {
    forall i :: 0 <= i < |columns| ==> columns[i].support > 0
  }

  ghost predicate Columns(columns: seq<Column>) {
    && Supported(columns)
    && (forall i, j :: 0 <= i < j < |columns| ==> columns[i].centre < columns[j].centre)
  }

  /** Neighbouring columns at least `width` apart. */
  ghost predicate Pitched(columns: seq<Column>, width: real) {
    forall i :: 0 < i < |columns| ==> columns[i].centre - columns[i - 1].centre >= width
  }

  /** Each cluster's mean and support. */
  ghost function ClusterColumns(gs: Groups): (columns: seq<Column>)
    requires NoneEmpty(gs)
    ensures |columns| == |gs| && Supported(columns)
  {
    seq(|gs|, i requires 0 <= i < |gs| => Column(Mean(gs[i]), |gs[i]|))
  }

  method ClusterCounts(values: seq<real>, tol: real) returns (columns: seq<Column>)
    requires values != []
    ensures columns == ClusterColumns(ClustersOf(values, tol))
  {
    var groups := GroupValues(values, tol);
    columns := ColumnPerGroup(groups);
  }

  method ColumnPerGroup(groups: Groups) returns (columns: seq<Column>)
    requires NoneEmpty(groups)
    ensures columns == ClusterColumns(groups)
  {
    columns := [];
    for i := 0 to |groups|
      invariant |columns| == i
      invariant forall k :: 0 <= k < i ==> columns[k] == Column(Mean(groups[k]), |groups[k]|)
    {
      columns := columns + [Column(Mean(groups[i]), |groups[i]|)];
    }
  }

  /** Median of the gaps between neighbouring columns: the regular lane pitch. */
  function Pitch(columns: seq<Column>): real
    requires |columns| >= 2
  {
    var gaps := seq(|columns| - 1, i requires 0 <= i < |columns| - 1 => columns[i + 1].centre - columns[i].centre);
    SortedSameMembers(ASCEND, gaps);
    Sorted(ASCEND, gaps)[|gaps| / 2]
  }

  /** Columns closer than this are fragments. */
  ghost function MergeWidth(columns: seq<Column>, spec: GridSpec): real
    requires |columns| >= 2
  {
    spec.laneMergeRatio * Pitch(columns)
  }

  ghost function Below(x: real): real -> bool { (y: real) => y < x }

  ghost function AtMost(x: real): real -> bool { (y: real) => y <= x }

  ghost function ColumnGaps(columns: seq<Column>): seq<real> {
    seq(if columns == [] then 0 else |columns| - 1, i requires 0 <= i < |columns| - 1 =>
        columns[i + 1].centre - columns[i].centre)
  }

  lemma {:induction false} CountBelow(s: seq<real>, k: nat)
    requires SortedBy(ASCEND, s) && k < |s|
    ensures |Filter(Below(s[k]), s)| <= k < |Filter(AtMost(s[k]), s)|
  {
    var n := |s| - 1;
    if k < n {
      CountBelow(s[..n], k);
      assert ASCEND(s[k], s[n]);
    } else {
      FilterSize(Below(s[k]), s[..n]);
      FilterAll(AtMost(s[k]), s[..n]);
    }
  }

  /** The pitch is the median gap between neighbouring columns, the upper one of an even number: at
      most half of the gaps are smaller, and more than half are no larger. */
  lemma PitchIsMedian(columns: seq<Column>)
    requires |columns| >= 2
    ensures var gaps, pitch := ColumnGaps(columns), Pitch(columns);
      pitch in gaps && |Filter(Below(pitch), gaps)| <= |gaps| / 2 < |Filter(AtMost(pitch), gaps)|
  {
    var gaps, pitch := ColumnGaps(columns), Pitch(columns);
    SortedSameMembers(ASCEND, gaps);
    SortedIsSorted(ASCEND, gaps);
    CountBelow(Sorted(ASCEND, gaps), |gaps| / 2);
    FilterSortedSize(ASCEND, gaps, Below(pitch));
    FilterSortedSize(ASCEND, gaps, AtMost(pitch));
  }

  /** Two columns folded into one, weighted by support. */
  function Folded(a: Column, b: Column): Column
    requires a.support > 0 && b.support > 0
  {
    var total := a.support + b.support;
    Column((a.centre * (a.support as real) + b.centre * (b.support as real)) / (total as real), total)
  }

  lemma TimesMonotone(a: real, b: real, k: real)
    requires k > 0.0
    ensures a < b <==> a * k < b * k
  {
    if a < b {
      assert (b - a) * k > 0.0;
    }
    if a >= b {
      assert (a - b) * k >= 0.0;
    }
  }

  lemma TimesSum(a: real, m: real, n: real, total: real)
    requires total == m + n
    ensures a * total == a * m + a * n
  {
  }

  /** A weighted mean lies strictly between what it is the mean of. */
  lemma WeightedBetween(x: real, y: real, m: real, n: real, total: real, c: real)
    requires m > 0.0 && n > 0.0 && total == m + n && x < y && c * total == x * m + y * n
    ensures x < c < y
  {
    TimesSum(x, m, n, total);
    TimesSum(y, m, n, total);
    TimesMonotone(x, y, m);
    TimesMonotone(x, y, n);
    TimesMonotone(x, c, total);
    TimesMonotone(c, y, total);
  }

  lemma FoldedBetween(a: Column, b: Column)
    requires a.support > 0 && b.support > 0 && a.centre < b.centre
    ensures a.centre < Folded(a, b).centre < b.centre
    ensures Mass(Folded(a, b)) == Mass(a) + Mass(b)
  {
    var m, n, c := a.support as real, b.support as real, Folded(a, b).centre;
    var total := (a.support + b.support) as real;
    assert c * total == a.centre * m + b.centre * n;
    WeightedBetween(a.centre, b.centre, m, n, total, c);
  }

  /** The columns with the last one moved. */
  ghost function Moved(merged: seq<Column>, c: Column): seq<Column>
    requires merged != []
  {
    merged[..|merged| - 1] + [c]
  }

  lemma MovedKeepsPitch(merged: seq<Column>, c: Column, width: real)
    requires merged != [] && Columns(merged) && Pitched(merged, width)
    requires c.support > 0 && merged[|merged| - 1].centre < c.centre
    ensures Columns(Moved(merged, c)) && Pitched(Moved(merged, c), width)
  {
    var k, after := |merged| - 1, Moved(merged, c);
    forall i | 0 <= i < k ensures after[i] == merged[i] && after[i].centre < c.centre {
      assert merged[i].centre < merged[k].centre;
    }
    forall i | 0 < i <= k ensures after[i].centre - after[i - 1].centre >= width {
      assert merged[i].centre - merged[i - 1].centre >= width;
    }
  }

  lemma MovedWeighs(merged: seq<Column>, c: Column)
    requires merged != []
    ensures Support(Moved(merged, c)) == Support(merged) - merged[|merged| - 1].support + c.support
    ensures Weight(Moved(merged, c)) == Weight(merged) - Mass(merged[|merged| - 1]) + Mass(c)
  {
    assert Moved(merged, c)[..|merged| - 1] == merged[..|merged| - 1];
  }

  ghost predicate Merging(columns: seq<Column>, merged: seq<Column>, k: nat, width: real)
    requires 0 < k <= |columns|
  {
    && 0 < |merged| <= k && Columns(merged) && Pitched(merged, width)
    && merged[|merged| - 1].centre <= columns[k - 1].centre
    && Weight(merged) == Weight(columns[..k]) && Support(merged) == Support(columns[..k])
    && (Pitched(columns, width) ==> merged == columns[..k])
  }

  lemma MergeFolds(columns: seq<Column>, merged: seq<Column>, k: nat, width: real)
    requires 0 < k < |columns| && Columns(columns) && Merging(columns, merged, k, width)
    requires columns[k].centre - merged[|merged| - 1].centre < width
    ensures Merging(columns, merged[..|merged| - 1] + [Folded(merged[|merged| - 1], columns[k])], k + 1, width)
  {
    var last, next := merged[|merged| - 1], columns[k];
    assert columns[..k + 1][..k] == columns[..k];
    assert columns[k - 1].centre < next.centre;
    FoldedBetween(last, next);
    MovedKeepsPitch(merged, Folded(last, next), width);
    MovedWeighs(merged, Folded(last, next));
    assert merged == columns[..k] ==> last == columns[k - 1];
  }

  lemma AppendLast(merged: seq<Column>, c: Column, width: real)
    requires merged != [] && Columns(merged) && Pitched(merged, width) && c.support > 0
    requires merged[|merged| - 1].centre < c.centre && c.centre - merged[|merged| - 1].centre >= width
    ensures Columns(merged + [c]) && Pitched(merged + [c], width)
    ensures Support(merged + [c]) == Support(merged) + c.support && Weight(merged + [c]) == Weight(merged) + Mass(c)
  {
    assert (merged + [c])[..|merged|] == merged;
    assert forall i :: 0 <= i < |merged| - 1 ==> merged[i].centre < merged[|merged| - 1].centre;
  }

  lemma MergeAppends(columns: seq<Column>, merged: seq<Column>, k: nat, width: real)
    requires 0 < k < |columns| && Columns(columns) && Merging(columns, merged, k, width)
    requires columns[k].centre - merged[|merged| - 1].centre >= width
    ensures Merging(columns, merged + [columns[k]], k + 1, width)
  {
    assert columns[..k + 1][..k] == columns[..k];
    assert columns[k - 1].centre < columns[k].centre;
    AppendLast(merged, columns[k], width);
  }

  /** The last column takes `next` in if it is closer than `width`, or else `next` follows it. */
  ghost function FoldNext(merged: seq<Column>, next: Column, width: real): (r: seq<Column>)
    requires merged != [] && Supported(merged) && next.support > 0
    ensures r != [] && Supported(r)
  {
    var k := |merged| - 1;
    if next.centre - merged[k].centre < width then merged[..k] + [Folded(merged[k], next)] else merged + [next]
  }

  /** Left to right, fragments closer than `width` folded into what is before them. */
  ghost function FoldedColumns(columns: seq<Column>, width: real): (merged: seq<Column>)
    requires columns != [] && Supported(columns)
    ensures merged != [] && Supported(merged)
  {
    var k := |columns| - 1;
    if k == 0 then columns else FoldNext(FoldedColumns(columns[..k], width), columns[k], width)
  }

  lemma FoldMerges(columns: seq<Column>, before: seq<Column>, k: nat, width: real, after: seq<Column>)
    requires 0 < k < |columns| && Columns(columns) && Merging(columns, before, k, width)
    requires after == FoldNext(before, columns[k], width)
    ensures Merging(columns, after, k + 1, width)
  {
    if columns[k].centre - before[|before| - 1].centre < width {
      MergeFolds(columns, before, k, width);
    } else {
      MergeAppends(columns, before, k, width);
    }
  }

  lemma FoldedPrefix(columns: seq<Column>, width: real, k: nat)
    requires 0 < k < |columns| && Supported(columns)
    ensures FoldedColumns(columns[..k + 1], width) == FoldNext(FoldedColumns(columns[..k], width), columns[k], width)
  {
    assert columns[..k + 1][..k] == columns[..k];
  }

  lemma {:induction false} FoldingMerges(columns: seq<Column>, width: real, k: nat) returns (merged: seq<Column>)
    requires Columns(columns) && k < |columns|
    ensures merged == FoldedColumns(columns[..k + 1], width) && Merging(columns, merged, k + 1, width)
  {
    if k == 0 {
      FirstColumnMerges(columns, width);
      merged := FoldedColumns(columns[..1], width);
    } else {
      var before := FoldingMerges(columns, width, k - 1);
      FoldedPrefix(columns, width, k);
      merged := FoldNext(before, columns[k], width);
      FoldMerges(columns, before, k, width, merged);
    }
  }

  lemma FirstColumnMerges(columns: seq<Column>, width: real)
    requires Columns(columns) && columns != []
    ensures Merging(columns, FoldedColumns(columns[..1], width), 1, width)
  {
    assert columns[..1] == [columns[0]];
  }

  /** No cell is lost in folding: support and centre of mass are conserved; past it every pair of
      neighbouring columns is at least the width apart; and columns already apart stay as they are. */
  lemma FoldingConserves(columns: seq<Column>, width: real)
    requires columns != [] && Columns(columns)
    ensures var merged := FoldedColumns(columns, width);
            && |merged| <= |columns| && Columns(merged) && Pitched(merged, width)
            && Weight(merged) == Weight(columns) && Support(merged) == Support(columns)
            && (Pitched(columns, width) ==> merged == columns)
  {
    var merged := FoldingMerges(columns, width, |columns| - 1);
    assert columns[..|columns|] == columns;
  }

  /** Fold fragments much closer than the lane pitch into their left neighbour, by support. */
  method MergeFragments(columns: seq<Column>, width: real) returns (merged: seq<Column>)
    requires columns != [] && Supported(columns)
    ensures merged == FoldedColumns(columns, width)
  {
    merged := [columns[0]];
    assert columns[..1] == [columns[0]];
    for k := 1 to |columns|
      invariant merged == FoldedColumns(columns[..k], width)
    {
      var next, last := columns[k], merged[|merged| - 1];
      FoldedPrefix(columns, width, k);
      if next.centre - last.centre < width {
        merged := merged[..|merged| - 1] + [Folded(last, next)];
      } else {
        merged := merged + [next];
      }
    }
    assert columns[..|columns|] == columns;
  }

  lemma {:induction false} SupportIsSize(columns: seq<Column>, gs: Groups)
    requires |columns| == |gs| && forall i :: 0 <= i < |gs| ==> columns[i].support == |gs[i]|
    ensures Support(columns) == |Flatten(gs)|
  {
    if gs != [] {
      SupportIsSize(columns[..|gs| - 1], gs[..|gs| - 1]);
    }
  }

  /** A cluster's mean, as often as it has values, is the sum of its values. */
  lemma MassIsSum(g: seq<real>)
    requires g != []
    ensures Mass(Column(Mean(g), |g|)) == Sum(g)
  {
    var n := |g| as real;
    assert Sum(g) / n * n == Sum(g);
  }

  lemma {:induction false} WeightIsSum(columns: seq<Column>, gs: Groups)
    requires |columns| == |gs| && NoneEmpty(gs)
    requires forall i :: 0 <= i < |gs| ==> columns[i] == Column(Mean(gs[i]), |gs[i]|)
    ensures Weight(columns) == Sum(Flatten(gs))
  {
    if gs != [] {
      var k := |gs| - 1;
      WeightIsSum(columns[..k], gs[..k]);
      MassIsSum(gs[k]);
      SumConcat(Flatten(gs[..k]), gs[k]);
    }
  }

  lemma ClustersAscend(gs: Groups, tol: real)
    requires gs != [] && tol >= 0.0 && Separated(gs, tol)
    ensures ClusterColumns(gs) != [] && Columns(ClusterColumns(gs))
  {
    forall i, j | 0 <= i < j < |gs| ensures ClusterColumns(gs)[i].centre < ClusterColumns(gs)[j].centre {
      CentresApart(gs, tol, i, j);
    }
  }

  lemma ClustersCountEverything(values: seq<real>, gs: Groups)
    requires NoneEmpty(gs) && Flatten(gs) == Sorted(ASCEND, values)
    ensures Support(ClusterColumns(gs)) == |values|
  {
    SupportIsSize(ClusterColumns(gs), gs);
    SortedSameMembers(ASCEND, values);
  }

  lemma ClustersKeepMass(values: seq<real>, gs: Groups)
    requires NoneEmpty(gs) && Flatten(gs) == Sorted(ASCEND, values)
    ensures Weight(ClusterColumns(gs)) == Sum(values)
  {
    WeightIsSum(ClusterColumns(gs), gs);
    SumSorted(values);
  }

  lemma ClustersAreColumns(values: seq<real>, tol: real, gs: Groups)
    requires values != [] && tol >= 0.0 && gs == ClustersOf(values, tol)
    ensures var columns := ClusterColumns(gs);
            columns != [] && Columns(columns) && Support(columns) == |values| && Weight(columns) == Sum(values)
  {
    ClustersSeparate(values, tol, gs);
    ClustersAscend(gs, tol);
    ClustersCountEverything(values, gs);
    ClustersKeepMass(values, gs);
  }

  ghost function Unfragmented(clusters: seq<Column>, spec: GridSpec): seq<Column>
    requires clusters != [] && Supported(clusters)
  {
    if |clusters| < 3 then clusters else FoldedColumns(clusters, MergeWidth(clusters, spec))
  }

  /** The lane columns of one day's cells: the clusters, with sub-pitch fragments folded in. */
  ghost function LaneColumnsOf(values: seq<real>, spec: GridSpec): seq<Column>
    requires values != []
  {
    Unfragmented(ClusterColumns(ClustersOf(values, spec.xTol)), spec)
  }

  ghost function CentresOf(columns: seq<Column>): seq<real> {
    seq(|columns|, i requires 0 <= i < |columns| => columns[i].centre)
  }

  method FragmentWidth(columns: seq<Column>, spec: GridSpec) returns (width: real)
    requires |columns| >= 2
    ensures width == MergeWidth(columns, spec)
  {
    width := spec.laneMergeRatio * Pitch(columns);
  }

  method LaneColumns(values: seq<real>, spec: GridSpec) returns (centres: seq<real>)
    requires values != []
    ensures centres == CentresOf(LaneColumnsOf(values, spec))
  {
    var columns := ClusterCounts(values, spec.xTol);
    if |columns| >= 3 {
      var width := FragmentWidth(columns, spec);
      columns := MergeFragments(columns, width);
    }
    centres := seq(|columns|, i requires 0 <= i < |columns| => columns[i].centre);
  }

  lemma UnfragmentedAccounts(clusters: seq<Column>, spec: GridSpec, columns: seq<Column>)
    requires clusters != [] && Columns(clusters) && columns == Unfragmented(clusters, spec)
    ensures columns != [] && Columns(columns)
    ensures Support(columns) == Support(clusters) && Weight(columns) == Weight(clusters)
    ensures |clusters| >= 3 ==> Pitched(columns, MergeWidth(clusters, spec))
  {
    if |clusters| >= 3 {
      FoldingConserves(clusters, MergeWidth(clusters, spec));
    }
  }

  /** Lane columns strictly ascend, account for every cell of the day and keep the cells' own centre of
      mass; from three clusters on, none are left closer than the merge width. */
  lemma LaneColumnsAccount(values: seq<real>, spec: GridSpec)
    requires values != [] && spec.xTol >= 0.0
    ensures var columns, clusters := LaneColumnsOf(values, spec), ClusterColumns(ClustersOf(values, spec.xTol));
            && columns != [] && Columns(columns) && Support(columns) == |values| && Weight(columns) == Sum(values)
            && (|clusters| >= 3 ==> Pitched(columns, MergeWidth(clusters, spec)))
  {
    ClustersAreColumns(values, spec.xTol, ClustersOf(values, spec.xTol));
    UnfragmentedAccounts(ClusterColumns(ClustersOf(values, spec.xTol)), spec, LaneColumnsOf(values, spec));
  }

  /** The day bands: the grid's left edge, the midpoints between weekday anchors, its right edge. */
  function WeekdayBounds(h: Header): (bounds: seq<real>)
    ensures |bounds| == if h.weekdayCentres == [] then 2 else |h.weekdayCentres| + 1
  {
    var gaps := if h.weekdayCentres == [] then 0 else |h.weekdayCentres| - 1;
    [h.gridXMin]
      + seq(gaps, i requires 0 <= i < gaps => (h.weekdayCentres[i] + h.weekdayCentres[i + 1]) / 2.0)
      + [h.gridXMax]
  }

  /** `bounds` cut the grid from its left edge to its right, half way between neighbouring anchors. */
  ghost predicate AreBounds(bounds: seq<real>, h: Header) {
    var n := |h.weekdayCentres|;
    && |bounds| == (if n == 0 then 2 else n + 1) && bounds[0] == h.gridXMin && bounds[|bounds| - 1] == h.gridXMax
    && forall i :: 0 < i < n ==> bounds[i] - h.weekdayCentres[i - 1] == h.weekdayCentres[i] - bounds[i]
  }

  lemma WeekdayBoundsAreBounds(h: Header)
    ensures AreBounds(WeekdayBounds(h), h)
  {
  }

  predicate InBand(w: CellWord, bounds: seq<real>, wd: Weekday)
    requires |bounds| >= 8
  {
    bounds[wd] <= w.x < bounds[wd + 1]
  }

  type DayColumns = seq<seq<real>>

  /** Where the days, their columns and the rows of a page are. */
  datatype LayoutValue = LayoutValue(bounds: seq<real>, cols: DayColumns, rows: seq<real>)

  type Layout = l: LayoutValue | |l.bounds| >= 8 && |l.cols| == 7 && l.rows != []
    witness LayoutValue(seq(8, i => 0.0), seq(7, i => []), [0.0])

  /** The word is in the cell's day band and closest to its column and row. */
  ghost predicate GoesTo(w: CellWord, l: Layout, c: Cell) {
    && l.bounds[c.weekday] <= w.x < l.bounds[c.weekday + 1] && l.cols[c.weekday] != []
    && c.lane == Nearest(w.x, l.cols[c.weekday]) + 1 && c.row == Nearest(w.top, l.rows)
  }

  ghost predicate LastGoes(words: seq<CellWord>, l: Layout, c: Cell, limit: nat, i: int) {
    && 0 <= i < limit && limit <= |words| && GoesTo(words[i], l, c)
    && forall j :: i < j < limit ==> !GoesTo(words[j], l, c)
  }

  ghost function Limit(c: Cell, words: seq<CellWord>, days: nat, n: nat): nat {
    if c.weekday < days then |words| else if c.weekday == days then n else 0
  }

  /** Codes once the days before `days` and the first `n` words of that day are in: every cell some
      word goes to, with the code of the last that does. */
  ghost predicate RaggedCodes(codes: map<Cell, int>, words: seq<CellWord>, l: Layout, days: nat, n: nat)
    requires n <= |words|
  {
    && (forall c, i :: 0 <= i < Limit(c, words, days, n) && GoesTo(words[i], l, c) ==> c in codes)
    && (forall c :: c in codes ==> exists i :: LastGoes(words, l, c, Limit(c, words, days, n), i)
                                               && words[i].code == codes[c])
  }

  function CellFor(w: CellWord, l: Layout, wd: Weekday): Cell
    requires l.cols[wd] != []
  {
    Cell(wd, Nearest(w.x, l.cols[wd]) + 1, Nearest(w.top, l.rows))
  }

  lemma GoesToItsCell(w: CellWord, l: Layout, wd: Weekday, c: Cell)
    requires c.weekday == wd && l.cols[wd] != []
    ensures GoesTo(w, l, c) <==> InBand(w, l.bounds, wd) && c == CellFor(w, l, wd)
  {
  }

  lemma LastGoesOn(words: seq<CellWord>, l: Layout, c: Cell, n: nat, i: int)
    requires n < |words| && LastGoes(words, l, c, n, i) && !GoesTo(words[n], l, c)
    ensures LastGoes(words, l, c, n + 1, i)
  {
  }

  lemma RaggedStep(codes: map<Cell, int>, words: seq<CellWord>, l: Layout, wd: Weekday, n: nat)
    requires n < |words| && RaggedCodes(codes, words, l, wd, n) && l.cols[wd] != []
    ensures var after := if InBand(words[n], l.bounds, wd)
      then codes[CellFor(words[n], l, wd) := words[n].code] else codes;
      RaggedCodes(after, words, l, wd, n + 1)
  {
    var w, cell := words[n], CellFor(words[n], l, wd);
    var codes' := if InBand(w, l.bounds, wd) then codes[cell := w.code] else codes;
    forall c, i | 0 <= i < Limit(c, words, wd, n + 1) && GoesTo(words[i], l, c) ensures c in codes' {
      if c.weekday == wd {
        GoesToItsCell(words[n], l, wd, c);
      }
    }
    forall c | c in codes'
      ensures exists i :: LastGoes(words, l, c, Limit(c, words, wd, n + 1), i) && words[i].code == codes'[c]
    {
      if c.weekday == wd {
        GoesToItsCell(w, l, wd, c);
      }
      if c == cell && InBand(w, l.bounds, wd) {
        assert LastGoes(words, l, c, n + 1, n);
      } else {
        var i :| LastGoes(words, l, c, Limit(c, words, wd, n), i) && words[i].code == codes[c];
        if c.weekday == wd {
          LastGoesOn(words, l, c, n, i);
        }
        assert LastGoes(words, l, c, Limit(c, words, wd, n + 1), i);
      }
    }
  }

  lemma RaggedNextDay(codes: map<Cell, int>, words: seq<CellWord>, l: Layout, wd: Weekday, n: nat)
    requires n <= |words| && RaggedCodes(codes, words, l, wd, n)
    requires n == |words| || l.cols[wd] == []
    ensures RaggedCodes(codes, words, l, wd + 1, 0)
  {
    forall c | c in codes
      ensures exists i :: LastGoes(words, l, c, Limit(c, words, wd + 1, 0), i) && words[i].code == codes[c]
    {
      var i :| LastGoes(words, l, c, Limit(c, words, wd, n), i) && words[i].code == codes[c];
      assert LastGoes(words, l, c, Limit(c, words, wd + 1, 0), i);
    }
  }

  /** Where the cells of a day's band stand. */
  ghost function BandValues(words: seq<CellWord>, bounds: seq<real>, wd: Weekday): seq<real>
    requires |bounds| >= 8
  {
    if words == [] then [] else
      var w := words[|words| - 1];
      BandValues(words[..|words| - 1], bounds, wd) + if bounds[wd] <= w.x < bounds[wd + 1] then [w.x] else []
  }

  /** A day's columns: those of its own band's cells, or none. */
  ghost function DayLanes(words: seq<CellWord>, spec: GridSpec, bounds: seq<real>, wd: Weekday): seq<real>
    requires |bounds| >= 8
  {
    var xs := BandValues(words, bounds, wd);
    if xs == [] then [] else CentresOf(LaneColumnsOf(xs, spec))
  }

  ghost predicate DaysColumned(words: seq<CellWord>, spec: GridSpec, bounds: seq<real>, cols: DayColumns, days: nat)
    requires |bounds| >= 8 && days <= |cols|
  {
    forall wd: Weekday {:trigger DayLanes(words, spec, bounds, wd)} ::
      wd < days ==> cols[wd] == DayLanes(words, spec, bounds, wd)
  }

  method DayColumn(words: seq<CellWord>, spec: GridSpec, bounds: seq<real>, wd: Weekday) returns (centres: seq<real>)
    requires |bounds| >= 8
    ensures centres == DayLanes(words, spec, bounds, wd)
  {
    var xs: seq<real> := [];
    for i := 0 to |words|
      invariant xs == BandValues(words[..i], bounds, wd)
    {
      assert words[..i + 1][..i] == words[..i];
      if InBand(words[i], bounds, wd) {
        xs := xs + [words[i].x];
      }
    }
    assert words[..|words|] == words;
    centres := [];
    if xs != [] {
      centres := LaneColumns(xs, spec);
    }
  }

  lemma DayAdded(
    words: seq<CellWord>, spec: GridSpec, bounds: seq<real>, cols: DayColumns, wd: Weekday, centres: seq<real>)
    requires |bounds| >= 8 && |cols| == wd && DaysColumned(words, spec, bounds, cols, wd)
    requires centres == DayLanes(words, spec, bounds, wd)
    ensures DaysColumned(words, spec, bounds, cols + [centres], wd + 1)
  {
    forall d: Weekday | d < wd + 1 ensures (cols + [centres])[d] == DayLanes(words, spec, bounds, d) {
      assert d < wd ==> (cols + [centres])[d] == cols[d];
    }
  }

  method DayColumnsOf(words: seq<CellWord>, spec: GridSpec, bounds: seq<real>) returns (cols: DayColumns)
    requires |bounds| >= 8
    ensures |cols| == 7 && DaysColumned(words, spec, bounds, cols, 7)
  {
    cols := [];
    for wd := 0 to 7
      invariant |cols| == wd && DaysColumned(words, spec, bounds, cols, wd)
    {
      var centres := DayColumn(words, spec, bounds, wd);
      DayAdded(words, spec, bounds, cols, wd, centres);
      cols := cols + [centres];
    }
  }

  ghost predicate SomeDaysDiffer(cols: DayColumns)
    requires |cols| == 7
  {
    exists p: Weekday, q: Weekday :: |cols[p]| != |cols[q]|
  }

  /** A grid segmented under the weekday anchors: each word of a day's band goes to the nearest of
      that day's own columns, a day's lane count is its own column count, and the plan is as wide
      as the header or the widest day. */
  ghost predicate IsRagged(g: Grid, words: seq<CellWord>, h: Header, l: Layout) {
    && RaggedCodes(g.codes, words, l, 7, 0)
    && h.laneCount <= g.laneCount
    && (forall wd: Weekday :: |l.cols[wd]| <= g.laneCount)
    && (g.laneCount == h.laneCount || exists wd: Weekday :: |l.cols[wd]| == g.laneCount)
    && (SomeDaysDiffer(l.cols) <==> g.lanesByWeekday.Some?)
    && (g.lanesByWeekday.Some? ==> forall wd: Weekday ::
          wd in g.lanesByWeekday.value && g.lanesByWeekday.value[wd] == |l.cols[wd]|)
  }

  /** The widest day, and whether all days agree. */
  method DayCounts(cols: DayColumns) returns (counts: map<Weekday, nat>, widest: nat, ragged: bool)
    requires |cols| == 7
    ensures forall wd: Weekday :: wd in counts && counts[wd] == |cols[wd]| <= widest
    ensures exists wd: Weekday :: |cols[wd]| == widest
    ensures ragged <==> SomeDaysDiffer(cols)
  {
    counts, widest, ragged := map[0 := |cols[0]|], |cols[0]|, false;
    for d := 1 to 7
      invariant forall wd: Weekday :: wd < d ==> wd in counts && counts[wd] == |cols[wd]| <= widest
      invariant exists wd: Weekday :: wd < d && |cols[wd]| == widest
      invariant ragged <==> exists wd: Weekday :: wd < d && |cols[wd]| != |cols[0]|
    {
      counts := counts[d := |cols[d]|];
      widest := if widest < |cols[d]| then |cols[d]| else widest;
      ragged := ragged || |cols[d]| != |cols[0]|;
    }
  }

  method RaggedDay(words: seq<CellWord>, l: Layout, wd: Weekday, before: map<Cell, int>) returns (codes: map<Cell, int>)
    requires RaggedCodes(before, words, l, wd, 0)
    ensures RaggedCodes(codes, words, l, wd + 1, 0)
  {
    codes := before;
    if l.cols[wd] == [] {
      RaggedNextDay(codes, words, l, wd, 0);
      return;
    }
    for n := 0 to |words|
      invariant RaggedCodes(codes, words, l, wd, n)
    {
      RaggedStep(codes, words, l, wd, n);
      if InBand(words[n], l.bounds, wd) {
        codes := codes[CellFor(words[n], l, wd) := words[n].code];
      }
    }
    RaggedNextDay(codes, words, l, wd, |words|);
  }

  /** The layout of a page: its bands, each band's own columns, and the rows. */
  ghost predicate LaidOut(l: Layout, words: seq<CellWord>, spec: GridSpec, h: Header, rows: seq<real>)
    requires |h.weekdayCentres| >= 7
  {
    AreBounds(l.bounds, h) && l.rows == rows && DaysColumned(words, spec, l.bounds, l.cols, 7)
  }

  method RaggedGrid(words: seq<CellWord>, rows: seq<real>, slots: seq<TimeRange>, spec: GridSpec, h: Header)
    returns (g: Grid, l: Layout)
    requires rows != [] && |h.weekdayCentres| >= 7
    ensures g.slots == slots && IsRagged(g, words, h, l)
    ensures LaidOut(l, words, spec, h, rows)
    ensures forall wd: Weekday :: LanesOn(g, wd) <= g.laneCount
  {
    var bounds := WeekdayBounds(h);
    WeekdayBoundsAreBounds(h);
    var cols := DayColumnsOf(words, spec, bounds);
    l := LayoutValue(bounds, cols, rows);
    var codes: map<Cell, int> := map[];
    for wd := 0 to 7
      invariant RaggedCodes(codes, words, l, wd, 0)
    {
      codes := RaggedDay(words, l, wd, codes);
    }
    var counts, widest, ragged := DayCounts(cols);
    var laneCount := if h.laneCount < widest then widest else h.laneCount;
    g := Grid(codes, slots, laneCount, if ragged then Some(counts) else None);
  }

  // --- segmentation and parse -------------------------------------------------------

  datatype ParseError =
    | NoLegend
    | NoCells
    | Unpaired(cause: PairError)
    | BandMissing(anchors: nat)
    | Rejected(offence: InvariantError)

  ghost function RowCentres(words: seq<CellWord>, spec: GridSpec): (rows: seq<real>)
    requires words != []
    ensures rows != []
  {
    Centres(ClustersOf(seq(|words|, i requires 0 <= i < |words| => words[i].top), spec.yTol))
  }

  ghost function ColumnCentres(words: seq<CellWord>, spec: GridSpec): (columns: seq<real>)
    requires words != []
    ensures columns != []
  {
    Centres(ClustersOf(seq(|words|, i requires 0 <= i < |words| => words[i].x), spec.xTol))
  }

  /** The columns of the page divide evenly over the week. */
  ghost predicate Rectangular(words: seq<CellWord>, spec: GridSpec, h: Header)
    requires words != []
  {
    |ColumnCentres(words, spec)| == 7 * h.laneCount
  }

  ghost predicate IsUniform(g: Grid, words: seq<CellWord>, h: Header, columns: seq<real>, rows: seq<real>) {
    && columns != [] && rows != [] && h.laneCount > 0 && |columns| == 7 * h.laneCount
    && g.laneCount == h.laneCount && g.lanesByWeekday == None
    && LastWordWins(g.codes, words, UniformKeyOf(columns, rows, h.laneCount))
  }

  /** What segmentation promises: slots paired from the row clusters, no weekday wider than the plan,
      and the uniform rectangle when the columns divide evenly over the week, the ragged grid otherwise. */
  ghost predicate Segmented(g: Grid, words: seq<CellWord>, labels: seq<TimeLabel>, spec: GridSpec, h: Header)
    requires words != []
  {
    var rows := RowCentres(words, spec);
    && Pairs(rows, labels, spec, Ok(g.slots))
    && (forall wd: Weekday :: LanesOn(g, wd) <= g.laneCount)
    && if Rectangular(words, spec, h) then IsUniform(g, words, h, ColumnCentres(words, spec), rows)
       else |h.weekdayCentres| >= 7 && exists l: Layout :: LaidOut(l, words, spec, h, rows) && IsRagged(g, words, h, l)
  }

  /** What a page must be for a grid to be read off it: it has cells, its rows pair off with its time
      labels, and its columns divide evenly over the week or every weekday has an anchor. */
  ghost predicate Readable(words: seq<CellWord>, labels: seq<TimeLabel>, spec: GridSpec, h: Header) {
    && words != []
    && RowsPairable(RowCentres(words, spec), labels, spec)
    && (Rectangular(words, spec, h) || |h.weekdayCentres| >= 7)
  }

  /** Why no grid can be read off a page, in the order the parser looks: no cells; rows that do not
      pair off, with what the pairing reports; a weekday without a band, where the source raises. */
  ghost predicate Unreadable(
    words: seq<CellWord>, labels: seq<TimeLabel>, spec: GridSpec, h: Header, e: ParseError)
  {
    match e
    case NoCells => words == []
    case Unpaired(cause) => words != [] && Pairs(RowCentres(words, spec), labels, spec, Err(cause))
    case BandMissing(anchors) =>
      && words != [] && RowsPairable(RowCentres(words, spec), labels, spec)
      && !Rectangular(words, spec, h) && anchors == |h.weekdayCentres| < 7
    case _ => false
  }

  method SegmentGrid(words: seq<CellWord>, labels: seq<TimeLabel>, spec: GridSpec, h: Header)
    returns (r: Result<Grid, ParseError>)
    ensures r.Ok? <==> Readable(words, labels, spec, h)
    ensures r.Ok? ==> Segmented(r.value, words, labels, spec, h)
    ensures r.Err? ==> Unreadable(words, labels, spec, h, r.error)
  {
    if words == [] {
      return Err(NoCells);
    }
    var rows := Cluster(seq(|words|, i requires 0 <= i < |words| => words[i].top), spec.yTol);
    var slots := PairRowsToLabels(rows, labels, spec);
    PairsExactly(rows, labels, spec, slots);
    if slots.Err? {
      return Err(Unpaired(slots.error));
    }
    SlotPerRow(rows, labels, spec, slots.value);
    var columns := Cluster(seq(|words|, i requires 0 <= i < |words| => words[i].x), spec.xTol);
    r := GridOf(words, slots.value, spec, h, columns, rows);
  }

  /** One slot per row. */
  lemma SlotPerRow(rows: seq<real>, labels: seq<TimeLabel>, spec: GridSpec, slots: seq<TimeRange>)
    requires Pairs(rows, labels, spec, Ok(slots))
    ensures |slots| == |rows|
  {
  }

  method GridOf(
    words: seq<CellWord>, slots: seq<TimeRange>, spec: GridSpec, h: Header, columns: seq<real>, rows: seq<real>)
    returns (r: Result<Grid, ParseError>)
    requires words != [] && columns == ColumnCentres(words, spec) && rows == RowCentres(words, spec)
    requires |slots| == |rows|
    ensures r.Err? <==> !Rectangular(words, spec, h) && |h.weekdayCentres| < 7
    ensures r.Err? ==> r.error == BandMissing(|h.weekdayCentres|)
    ensures r.Ok? ==> r.value.slots == slots && forall wd: Weekday :: LanesOn(r.value, wd) <= r.value.laneCount
    ensures r.Ok? && Rectangular(words, spec, h) ==> IsUniform(r.value, words, h, columns, rows)
    ensures r.Ok? && !Rectangular(words, spec, h) ==>
              exists l: Layout :: LaidOut(l, words, spec, h, rows) && IsRagged(r.value, words, h, l)
  {
    assert rows[..|slots|] == rows;
    if |columns| == 7 * h.laneCount {
      var g := UniformGrid(words, columns, rows[..|slots|], slots, h.laneCount);
      return Ok(g);
    }
    if |h.weekdayCentres| < 7 {
      return Err(BandMissing(|h.weekdayCentres|));
    }
    var g, l := RaggedGrid(words, rows[..|slots|], slots, spec, h);
    return Ok(g);
  }

  /** From detected cells, labels and legend to the compressed plan. A page is accepted exactly when it
      has a legend, a grid can be read off it, and in that grid's columns owned cells with overlapping
      slots have one owner and lie in chains of one span. */
  method ParseBasin(
    words: seq<CellWord>, labels: seq<TimeLabel>, legend: Legend, spec: GridSpec, h: Header, validFrom: Option<int>,
    sections: Sections)
    returns (r: Result<LanePlan, ParseError>, ghost g: Grid)
    ensures r == Err(NoLegend) <==> legend == map[]
    ensures legend != map[] && Readable(words, labels, spec, h) ==> Segmented(g, words, labels, spec, h)
    ensures r.Ok? <==> legend != map[] && Readable(words, labels, spec, h) && ColumnsClashFree(g, legend)
    ensures r.Err? && legend != map[] ==>
              if Readable(words, labels, spec, h) then RejectedFor(g, legend, sections, r.error)
              else Unreadable(words, labels, spec, h, r.error)
    ensures r.Ok? ==> Invariants(r.value.reservations, r.value.laneCount)
    ensures r.Ok? ==> IsPlanOf(r.value, g, legend, sections, validFrom)
  {
    g := Grid(map[], [], 0, None);
    if legend == map[] {
      return Err(NoLegend), g;
    }
    var grid := SegmentGrid(words, labels, spec, h);
    if grid.Err? {
      return Err(grid.error), g;
    }
    g := grid.value;
    r := PlanOfGrid(grid.value, legend, sections, validFrom);
  }

  /** The compressed grid fails the parser's check, and this is its first offence. */
  ghost predicate RejectedFor(g: Grid, legend: Legend, sections: Sections, e: ParseError) {
    && e.Rejected?
    && exists rs :: IsCompression(g, legend, sections, rs) && FirstOffence(rs, g.laneCount, e.offence)
  }

  method PlanOfGrid(g: Grid, legend: Legend, sections: Sections, validFrom: Option<int>)
    returns (r: Result<LanePlan, ParseError>)
    requires forall wd: Weekday :: LanesOn(g, wd) <= g.laneCount
    ensures r.Ok? <==> ColumnsClashFree(g, legend)
    ensures r.Err? ==> RejectedFor(g, legend, sections, r.error)
    ensures r.Ok? ==> Invariants(r.value.reservations, r.value.laneCount)
    ensures r.Ok? ==> IsPlanOf(r.value, g, legend, sections, validFrom)
  {
    var resolved := Resolve(g, legend, sections);
    var bad := CheckInvariants(resolved.reservations, g.laneCount);
    PassesInvariantsExactly(g, legend, sections, resolved.reservations, g.laneCount);
    if bad.Some? {
      return Err(Rejected(bad.value));
    }
    r := Ok(PlanOf(resolved, g.laneCount, validFrom, g.lanesByWeekday));
    CompleteMeansEveryCell(g, legend, sections, resolved, validFrom);
  }

  /** Disjoint time labels give disjoint slots, and those a grid whose columns cannot clash. */
  lemma DisjointLabelsDisjointSlots(
    words: seq<CellWord>, labels: seq<TimeLabel>, legend: Legend, spec: GridSpec, h: Header, g: Grid)
    requires words != [] && DisjointLabels(labels) && Segmented(g, words, labels, spec, h)
    ensures DisjointSlots(g.slots) && ColumnsClashFree(g, legend)
  {
    if |labels| >= 2 {
      PairingKeepsDisjoint(RowCentres(words, spec), labels, spec, g.slots);
    }
    DisjointSlotsClashFree(g, legend);
  }

  /** Time labels go down the page and on in time. */
  ghost predicate LabelsAscend(labels: seq<TimeLabel>) {
    && StrictlyAscending(Tops(labels))
    && forall i, j :: 0 <= i < j < |labels| ==> labels[i].time.end <= labels[j].time.start
  }

  lemma RowsAscend(words: seq<CellWord>, spec: GridSpec)
    requires words != [] && spec.yTol >= 0.0
    ensures StrictlyAscending(RowCentres(words, spec))
  {
    var tops := seq(|words|, i requires 0 <= i < |words| => words[i].top);
    var gs := ClustersOf(tops, spec.yTol);
    ClustersSeparate(tops, spec.yTol, gs);
    forall i, j | 0 <= i < j < |gs| ensures Centres(gs)[i] < Centres(gs)[j] {
      CentresApart(gs, spec.yTol, i, j);
    }
  }

  /** On a page whose labels ascend, the slots of its grid do, and so every run of a column is as long
      as it can be. */
  lemma AscendingLabelsAscendingSlots(
    words: seq<CellWord>, labels: seq<TimeLabel>, spec: GridSpec, h: Header, g: Grid)
    requires words != [] && spec.yTol >= 0.0 && LabelsAscend(labels) && Segmented(g, words, labels, spec, h)
    ensures AscendingSlots(g.slots)
  {
    var rows := RowCentres(words, spec);
    RowsAscend(words, spec);
    if |labels| >= 2 {
      PairingKeepsOrder(rows, labels, spec, g.slots);
      var index: seq<int> :| PairedInOrder(rows, labels, spec, g.slots, index);
      forall i, j | 0 <= i < j < |g.slots| ensures g.slots[i].end <= g.slots[j].start {
        assert index[i] < index[j];
      }
    }
  }
}
