/** From page geometry to the dense grid: rows paired to time labels, columns to weekday lanes. */
module Geometry {
  import opened Prelude
  import opened Schedule
  import opened Sorting
  import opened Clustering
  import opened WeekGrid

  /** A digit cell of the page: its x centre, its top, and the legend code it shows. */
  datatype CellWord = CellWord(x: real, top: real, code: int)

  datatype TimeLabel = TimeLabel(top: real, time: TimeRange)

  datatype GridSpec = GridSpec(xTol: real, yTol: real, laneMergeRatio: real, rowLabelTolRatio: real)

  /** The layout tolerances the parser ships with. */
  const DEFAULT_SPEC := GridSpec(5.0, 6.0, 0.5, 0.5)

  // --- rows and time labels ---------------------------------------------------------

  datatype PairError =
    | NoLabels
    | MoreRowsThanLabels(rows: nat, labels: nat)
    | RowUnmatched(row: real)
    | PitchIsZero(row: real)
    | LabelClaimedTwice(row: real)

  function Tops(labels: seq<TimeLabel>): (tops: seq<real>)
    ensures |tops| == |labels|
  {
    seq(|labels|, i requires 0 <= i < |labels| => labels[i].top)
  }

  /** The distance from one label to the next. */
  function LabelPitch(tops: seq<real>): real
    requires |tops| >= 2
  {
    (tops[|tops| - 1] - tops[0]) / ((|tops| - 1) as real)
  }

  ghost function Tolerance(tops: seq<real>, spec: GridSpec): real
    requires |tops| >= 2
  {
    LabelPitch(tops) * spec.rowLabelTolRatio
  }

  ghost function Gaps(tops: seq<real>): seq<real> {
    if |tops| < 2 then [] else Gaps(tops[..|tops| - 1]) + [tops[|tops| - 1] - tops[|tops| - 2]]
  }

  lemma {:induction false} GapsTelescope(tops: seq<real>)
    requires tops != []
    ensures |Gaps(tops)| == |tops| - 1 && Sum(Gaps(tops)) == tops[|tops| - 1] - tops[0]
  {
    if |tops| >= 2 {
      GapsTelescope(tops[..|tops| - 1]);
    }
  }

  /** The pitch is the mean of the gaps between neighbouring labels. */
  lemma PitchIsMeanGap(tops: seq<real>)
    requires |tops| >= 2
    ensures |Gaps(tops)| == |tops| - 1 && LabelPitch(tops) == Mean(Gaps(tops))
  {
    GapsTelescope(tops);
  }

  /** As shipped, no row is strictly within tolerance of two labels that are a pitch or more apart. */
  lemma ShippedToleranceIsUnambiguous(tops: seq<real>, row: real, i: nat, j: nat)
    requires |tops| >= 2 && i < |tops| && j < |tops| && tops[j] - tops[i] >= LabelPitch(tops)
    ensures var tolerance := LabelPitch(tops) * DEFAULT_SPEC.rowLabelTolRatio;
      !(row - tops[i] < tolerance && tops[j] - row < tolerance)
  {
  }

  /** The report of an unmatched row gives its distance in pitches; when the first and last labels
      stand at one height the source raises there, dividing by zero. */
  function Unmatched(row: real, pitch: real): PairError {
    if pitch == 0.0 then PitchIsZero(row) else RowUnmatched(row)
  }

  /** The row's nearest label is near enough to claim. */
  ghost predicate Admitted(row: real, tops: seq<real>, tolerance: real)
    requires tops != []
  {
    -tolerance <= tops[Nearest(row, tops)] - row <= tolerance
  }

  /** The label each row would claim. */
  ghost function Picks(rows: seq<real>, tops: seq<real>): (p: seq<int>)
    requires tops != []
    ensures |p| == |rows| && forall i :: 0 <= i < |rows| ==> p[i] == Nearest(rows[i], tops)
  {
    seq(|rows|, i requires 0 <= i < |rows| => Nearest(rows[i], tops))
  }

  ghost predicate DistinctTo(p: seq<int>, n: nat)
    requires n <= |p|
  {
    forall i, j :: 0 <= i < j < n ==> p[i] != p[j]
  }

  ghost predicate ClaimsApart(rows: seq<real>, tops: seq<real>, n: nat)
    requires tops != [] && n <= |rows|
  {
    DistinctTo(Picks(rows, tops), n)
  }

  ghost predicate Pairable(rows: seq<real>, tops: seq<real>, tolerance: real, n: nat)
    requires tops != [] && n <= |rows|
  {
    && (forall i :: 0 <= i < n ==> Admitted(rows[i], tops, tolerance))
    && ClaimsApart(rows, tops, n)
  }

  ghost predicate FirstUnmatched(rows: seq<real>, tops: seq<real>, tolerance: real, row: real)
    requires tops != []
  {
    exists n :: 0 <= n < |rows| && rows[n] == row
                && Pairable(rows, tops, tolerance, n) && !Admitted(row, tops, tolerance)
  }

  /** Each row takes its nearest label, and the page is refused at the first row no label admits or
      whose label is already claimed. */
  ghost predicate PairsWithin(
    rows: seq<real>, labels: seq<TimeLabel>, pitch: real, tolerance: real, r: Result<seq<TimeRange>, PairError>)
    requires labels != []
  {
    var tops := Tops(labels);
    match r
    case Ok(slots) =>
      && Pairable(rows, tops, tolerance, |rows|) && |slots| == |rows|
      && forall i :: 0 <= i < |rows| ==> slots[i] == labels[Nearest(rows[i], tops)].time
    case Err(RowUnmatched(row)) => pitch != 0.0 && FirstUnmatched(rows, tops, tolerance, row)
    case Err(PitchIsZero(row)) => pitch == 0.0 && FirstUnmatched(rows, tops, tolerance, row)
    case Err(LabelClaimedTwice(row)) =>
      exists n :: 0 <= n < |rows| && rows[n] == row && Pairable(rows, tops, tolerance, n)
                  && Admitted(row, tops, tolerance) && !ClaimsApart(rows, tops, n + 1)
    case Err(_) => false
  }

  /** With two labels or more, the labels' own pitch sets the tolerance. */
  ghost predicate PairsByGeometry(
    rows: seq<real>, labels: seq<TimeLabel>, spec: GridSpec, r: Result<seq<TimeRange>, PairError>)
    requires |labels| >= 2
  {
    PairsWithin(rows, labels, LabelPitch(Tops(labels)), Tolerance(Tops(labels), spec), r)
  }

  /** What pairing promises: with no label and with one it goes by count alone. */
  ghost predicate Pairs(
    rows: seq<real>, labels: seq<TimeLabel>, spec: GridSpec, r: Result<seq<TimeRange>, PairError>)
  {
    && (labels == [] ==> r == Err(NoLabels))
    && (|labels| == 1 ==> r == if |rows| > 1 then Err(MoreRowsThanLabels(|rows|, 1))
                               else Ok(if |rows| == 1 then [labels[0].time] else []))
    && (|labels| >= 2 ==> PairsByGeometry(rows, labels, spec, r))
  }

  /** Rows that pair off: there is a label, a lone label has a row at most, and several labels admit
      every row, no two rows the same one. */
  ghost predicate RowsPairable(rows: seq<real>, labels: seq<TimeLabel>, spec: GridSpec) {
    && labels != []
    && (|labels| == 1 ==> |rows| <= 1)
    && (|labels| >= 2 ==> Pairable(rows, Tops(labels), Tolerance(Tops(labels), spec), |rows|))
  }

  /** Pairing succeeds exactly on rows that pair off. */
  lemma PairsExactly(
    rows: seq<real>, labels: seq<TimeLabel>, spec: GridSpec, r: Result<seq<TimeRange>, PairError>)
    requires Pairs(rows, labels, spec, r)
    ensures r.Ok? <==> RowsPairable(rows, labels, spec)
  {
  }

  method PairRowsToLabels(rows: seq<real>, labels: seq<TimeLabel>, spec: GridSpec)
    returns (r: Result<seq<TimeRange>, PairError>)
    ensures Pairs(rows, labels, spec, r)
  {
    if labels == [] {
      return Err(NoLabels);
    }
    if |labels| < 2 {
      if |rows| > |labels| {
        return Err(MoreRowsThanLabels(|rows|, |labels|));
      }
      var times := seq(|rows|, i requires 0 <= i < |rows| => labels[i].time);
      assert |rows| == 1 ==> times == [labels[0].time];
      return Ok(times);
    }
    r := PairByGeometry(rows, labels, spec);
  }

  ghost predicate Taken(p: seq<int>, n: nat, x: int)
    requires n <= |p|
  {
    exists i :: 0 <= i < n && p[i] == x
  }

  ghost predicate Claims(claimed: set<int>, p: seq<int>, n: nat)
    requires n <= |p|
  {
    forall x :: x in claimed <==> Taken(p, n, x)
  }

  lemma ClaimStep(claimed: set<int>, p: seq<int>, n: nat)
    requires n < |p| && Claims(claimed, p, n) && DistinctTo(p, n)
    ensures DistinctTo(p, n + 1) <==> p[n] !in claimed
    ensures Claims(claimed + {p[n]}, p, n + 1)
  {
    assert Taken(p, n + 1, p[n]);
    forall x ensures Taken(p, n + 1, x) <==> Taken(p, n, x) || x == p[n] {
    }
    if p[n] in claimed {
      var i :| 0 <= i < n && p[i] == p[n];
    }
    forall i | 0 <= i < n ensures Taken(p, n, p[i]) {
    }
  }

  method PairByGeometry(rows: seq<real>, labels: seq<TimeLabel>, spec: GridSpec)
    returns (r: Result<seq<TimeRange>, PairError>)
    requires |labels| >= 2
    ensures PairsByGeometry(rows, labels, spec, r)
  {
    var tops := Tops(labels);
    var pitch := LabelPitch(tops);
    var tolerance := pitch * spec.rowLabelTolRatio;
    assert tolerance == Tolerance(tops, spec);
    r := PairInTolerance(rows, labels, pitch, tolerance);
  }

  method PairInTolerance(rows: seq<real>, labels: seq<TimeLabel>, pitch: real, tolerance: real)
    returns (r: Result<seq<TimeRange>, PairError>)
    requires labels != []
    ensures PairsWithin(rows, labels, pitch, tolerance, r)
  {
    var tops := Tops(labels);
    var paired: seq<TimeRange> := [];
    var claimed: set<int> := {};
    for k := 0 to |rows|
      invariant Pairable(rows, tops, tolerance, k) && Claims(claimed, Picks(rows, tops), k)
      invariant |paired| == k && forall i :: 0 <= i < k ==> paired[i] == labels[Nearest(rows[i], tops)].time
    {
      var index := Nearest(rows[k], tops);
      if Distance(tops[index], rows[k]) > tolerance {
        assert FirstUnmatched(rows, tops, tolerance, rows[k]);
        return Err(Unmatched(rows[k], pitch));
      }
      assert Admitted(rows[k], tops, tolerance);
      ClaimStep(claimed, Picks(rows, tops), k);
      if index in claimed {
        return Err(LabelClaimedTwice(rows[k]));
      }
      claimed := claimed + {index};
      paired := paired + [labels[index].time];
    }
    return Ok(paired);
  }

  /** Geometry pairing is faithful: over ascending rows and strictly ascending labels, an accepted
      page pairs rows to labels in order, skipping only labels no row claims, each in tolerance. */
  lemma PairingKeepsOrder(rows: seq<real>, labels: seq<TimeLabel>, spec: GridSpec, slots: seq<TimeRange>)
    requires |labels| >= 2 && PairsByGeometry(rows, labels, spec, Ok(slots))
    requires StrictlyAscending(rows) && StrictlyAscending(Tops(labels))
    ensures |slots| == |rows| <= |labels|
    ensures exists index: seq<int> :: PairedInOrder(rows, labels, spec, slots, index)
  {
    var tops := Tops(labels);
    var index, tolerance := Picks(rows, tops), Tolerance(tops, spec);
    forall i, j | 0 <= i < j < |rows| ensures index[i] < index[j] {
      NearestMonotone(tops, rows[i], rows[j]);
      assert ClaimsApart(rows, tops, |rows|);
    }
    forall i | 0 <= i < |rows| ensures -tolerance <= labels[index[i]].top - rows[i] <= tolerance {
      assert Admitted(rows[i], tops, tolerance);
    }
    AscendingFits(index, |labels|);
    assert PairedInOrder(rows, labels, spec, slots, index);
  }

  ghost predicate PairedInOrder(
    rows: seq<real>, labels: seq<TimeLabel>, spec: GridSpec, slots: seq<TimeRange>, index: seq<int>)
    requires |labels| >= 2
  {
    var tolerance := Tolerance(Tops(labels), spec);
    && |index| == |slots| == |rows|
    && Ascending(index)
    && forall i :: 0 <= i < |rows| ==>
         && 0 <= index[i] < |labels|
         && slots[i] == labels[index[i]].time
         && -tolerance <= labels[index[i]].top - rows[i] <= tolerance
  }

  lemma {:induction false} AscendingFits(s: seq<int>, n: nat)
    requires Ascending(s) && forall i :: 0 <= i < |s| ==> 0 <= s[i] < n
    ensures |s| <= n
  {
    if s != [] {
      AscendingFits(s[..|s| - 1], s[|s| - 1]);
    }
  }

  ghost predicate DisjointLabels(labels: seq<TimeLabel>) {
    forall i, j :: 0 <= i < j < |labels| ==> !Overlaps(labels[i].time, labels[j].time)
  }

  /** No label is used twice, so disjoint labels give disjoint slots. */
  lemma PairingKeepsDisjoint(rows: seq<real>, labels: seq<TimeLabel>, spec: GridSpec, slots: seq<TimeRange>)
    requires |labels| >= 2 && PairsByGeometry(rows, labels, spec, Ok(slots))
    requires DisjointLabels(labels)
    ensures DisjointSlots(slots)
  {
    var tops := Tops(labels);
    forall i, j | 0 <= i < j < |slots| ensures !Overlaps(slots[i], slots[j]) {
      var p, q := Nearest(rows[i], tops), Nearest(rows[j], tops);
      assert ClaimsApart(rows, tops, |rows|) && p != q;
      assert !Overlaps(labels[if p < q then p else q].time, labels[if p < q then q else p].time);
    }
  }

  // --- the uniform rectangle --------------------------------------------------------

  /** Columns `0..7n` against (weekday, lane): one-to-one and onto. */
  function ColumnKey(col: nat, lanes: nat): (Weekday, int)
    requires lanes > 0 && col < 7 * lanes
  {
    ColumnInRange(col, lanes);
    (col / lanes, col % lanes + 1)
  }

  lemma ColumnInRange(col: nat, lanes: nat)
    requires lanes > 0 && col < 7 * lanes
    ensures 0 <= col / lanes < 7 && col == col / lanes * lanes + col % lanes
  {
    var q := col / lanes;
    assert q * lanes <= col;
    assert q >= 7 ==> q * lanes >= 7 * lanes;
  }

  lemma ColumnsAreWeekdayLanes(lanes: nat, wd: Weekday, lane: int)
    requires lanes > 0 && 1 <= lane <= lanes
    ensures var col := wd * lanes + lane - 1;
            && 0 <= col < 7 * lanes && ColumnKey(col, lanes) == (wd, lane)
            && forall c: nat :: c < 7 * lanes && ColumnKey(c, lanes) == (wd, lane) ==> c == col
  {
    var col := wd * lanes + lane - 1;
    LanesBefore(wd, lanes);
    DivModUnique(col, lanes, wd, lane - 1);
    forall c: nat | c < 7 * lanes && ColumnKey(c, lanes) == (wd, lane) ensures c == col {
      KeyedColumn(c, lanes, wd, lane);
    }
  }

  lemma LanesBefore(wd: int, lanes: nat)
    requires 0 <= wd <= 6
    ensures 0 <= wd * lanes <= 6 * lanes
  {
  }

  lemma KeyedColumn(c: nat, lanes: nat, wd: int, lane: int)
    requires lanes > 0 && c < 7 * lanes && c / lanes == wd && c % lanes + 1 == lane
    ensures c == wd * lanes + lane - 1
  {
    ColumnInRange(c, lanes);
  }

  lemma DivModUnique(n: int, d: int, q: int, r: int)
    requires 0 <= r < d && n == q * d + r
    ensures n / d == q && n % d == r
  {
    var q', r' := n / d, n % d;
    assert q' * d + r' == q * d + r;
    assert (q' - q) * d == r - r';
    assert q' - q >= 1 ==> (q' - q) * d >= d;
    assert q' - q <= -1 ==> (q' - q) * d <= -d;
  }

  /** The grid cell a word of the page goes to. */
  ghost function UniformKey(w: CellWord, columns: seq<real>, rows: seq<real>, lanes: nat): Cell
    requires columns != [] && rows != [] && lanes > 0 && |columns| <= 7 * lanes
  {
    var key := ColumnKey(Nearest(w.x, columns), lanes);
    Cell(key.0, key.1, Nearest(w.top, rows))
  }

  /** The last word that goes to `c` is the `i`-th. */
  ghost predicate LastTo(words: seq<CellWord>, key: CellWord -> Cell, c: Cell, i: int) {
    0 <= i < |words| && key(words[i]) == c && forall j :: i < j < |words| ==> key(words[j]) != c
  }

  /** Every key holds the code of the last word that goes to it, and every word goes somewhere. */
  ghost predicate LastWordWins(codes: map<Cell, int>, words: seq<CellWord>, key: CellWord -> Cell) {
    && (forall w :: w in words ==> key(w) in codes)
    && (forall c :: c in codes ==> exists i :: LastTo(words, key, c, i) && words[i].code == codes[c])
  }

  lemma LastWordStep(codes: map<Cell, int>, words: seq<CellWord>, w: CellWord, key: CellWord -> Cell)
    requires LastWordWins(codes, words, key)
    ensures LastWordWins(codes[key(w) := w.code], words + [w], key)
  {
    var codes', words' := codes[key(w) := w.code], words + [w];
    forall c | c in codes' ensures exists i :: LastTo(words', key, c, i) && words'[i].code == codes'[c] {
      if c == key(w) {
        assert LastTo(words', key, c, |words|);
      } else {
        var i :| LastTo(words, key, c, i) && words[i].code == codes[c];
        assert LastTo(words', key, c, i);
      }
    }
  }
}
